/** Storing a validated correction (`post_correction`): one correction row and
    its adjustment rows are written in one transaction, read back, and echoed. */
module Ingest {
  import opened Wrappers
  import opened Schemas
  import opened Models

  /** Where the transaction can fail: the flush that assigns the id, the
      commit, or the refresh that reads the committed rows back. */
  datatype Fault = NoFault | FlushFails | CommitFails | RefreshFails

  datatype AdjustmentOut = AdjustmentOut(ingredient: string, deltaGrams: int, notes: Option<string>)

  datatype CorrectionOut = CorrectionOut(
    id: nat,
    imageId: string,
    original: DishPortion,
    corrected: DishPortion,
    adjustments: Option<seq<AdjustmentOut>>,
    createdAt: Timestamp)

  /** 201 with the stored correction, or 500. */
  datatype PostOutcome = Stored(out: CorrectionOut) | StorageFailed

  datatype PostResult = PostResult(store: Store, outcome: PostOutcome)

  /** The adjustments the handler inserts: a missing list and an empty one
      both insert none. */
  function Submitted(p: CorrectionIn): (r: seq<AdjustmentIn>)
    ensures p.adjustments.Some? ==> r == p.adjustments.value
    ensures p.adjustments.None? ==> r == []
  {
    match p.adjustments
    case None => []
    case Some(adjs) => adjs
  }

  /** Every submitted `deltaGrams` fits SQLite's 64-bit INTEGER. The schema
      bounds the weights but not `deltaGrams`, so this is the one value a
      validated payload can carry that the database refuses. */
  predicate DeltasFit(p: CorrectionIn) {
    forall i :: 0 <= i < |Submitted(p)| ==> FitsInt64(Submitted(p)[i].deltaGrams)
  }

  function CorrectionRowOf(id: nat, p: CorrectionIn, now: Timestamp): CorrectionRow {
    CorrectionRow(id, p.imageId, p.original.name, p.original.grams, p.corrected.name, p.corrected.grams, now)
  }

  function AdjustmentRowOf(id: nat, cid: nat, a: AdjustmentIn): AdjustmentRow {
    AdjustmentRow(id, cid, a.ingredient, a.deltaGrams, a.notes)
  }

  /** The adjustment rows of one insert: consecutive ids from `first`, all
      pointing at correction `cid`, in submission order. */
  function AdjustmentRowsOf(first: nat, cid: nat, adjs: seq<AdjustmentIn>): (r: seq<AdjustmentRow>)
    ensures |r| == |adjs|
    ensures forall i :: 0 <= i < |r| ==> r[i].correctionId == cid && r[i].id == first + i
  {
    seq(|adjs|, i requires 0 <= i < |adjs| => AdjustmentRowOf(first + i, cid, adjs[i]))
  }

  /** An adjustment row holds the submitted adjustment. */
  predicate Holds(row: AdjustmentRow, a: AdjustmentIn) {
    row.ingredient == a.ingredient && row.deltaGrams == a.deltaGrams && row.notes == a.notes
  }

  predicate HoldsAll(rows: seq<AdjustmentRow>, adjs: seq<AdjustmentIn>) {
    |rows| == |adjs| && forall i :: 0 <= i < |adjs| ==> Holds(rows[i], adjs[i])
  }

  /** The tables after a committed insert. */
  function Committed(s: Store, p: CorrectionIn, now: Timestamp): (r: Store)
    ensures |r.corrections| == |s.corrections| + 1 && r.corrections[..|s.corrections|] == s.corrections
    ensures |r.adjustments| == |s.adjustments| + |Submitted(p)| && r.adjustments[..|s.adjustments|] == s.adjustments
  {
    var id := NextCorrectionId(s);
    var r := Store(
      s.corrections + [CorrectionRowOf(id, p, now)],
      s.adjustments + AdjustmentRowsOf(NextAdjustmentId(s), id, Submitted(p)));
    assert r.corrections[..|s.corrections|] == s.corrections;
    assert r.adjustments[..|s.adjustments|] == s.adjustments;
    r
  }

  function OutOf(row: AdjustmentRow): AdjustmentOut {
    AdjustmentOut(row.ingredient, row.deltaGrams, row.notes)
  }

  /** The `{"ingredient", "deltaGrams", "notes"}` view of adjustment rows, in
      their order; the response and both export formats use it. */
  function OutsOf(rows: seq<AdjustmentRow>): (r: seq<AdjustmentOut>)
    ensures |r| == |rows| && forall i :: 0 <= i < |rows| ==> r[i] == OutOf(rows[i])
  {
    seq(|rows|, i requires 0 <= i < |rows| => OutOf(rows[i]))
  }

  /** The response built from the row read back and its adjustments; the
      portions are echoed from the payload, and an empty adjustment list is
      answered as `None`. */
  function Response(row: CorrectionRow, p: CorrectionIn, adjs: seq<AdjustmentRow>): (r: CorrectionOut)
    ensures r.adjustments.None? <==> adjs == []
    ensures r.adjustments.Some? ==> |r.adjustments.value| == |adjs|
  {
    CorrectionOut(
      row.id, row.imageId, p.original, p.corrected,
      if adjs == [] then None else Some(OutsOf(adjs)),
      row.createdAt)
  }

  /** `post_correction` after validation. A fault before the commit rolls
      back and leaves the tables as they were; a fault at the refresh comes
      after the commit, so the rows stay although the client is told 500.
      The adjustment rows are inserted by the flush inside `db.commit()`, so
      a `deltaGrams` outside 64 bits fails there: rolled back and 500. */
  function PostCorrection(s: Store, p: CorrectionIn, now: Timestamp, fault: Fault): (r: PostResult)
    ensures r.outcome.Stored? <==> fault == NoFault && DeltasFit(p)
    ensures r.store == s <==> fault == FlushFails || fault == CommitFails || !DeltasFit(p)
    ensures r.store == s || r.store == Committed(s, p, now)
    ensures r.store != s ==>
      && |r.store.corrections| == |s.corrections| + 1
      && r.store.corrections[..|s.corrections|] == s.corrections
      && r.store.corrections[|s.corrections|].id !in CorrectionIds(s)
      && |s.adjustments| <= |r.store.adjustments|
      && r.store.adjustments[..|s.adjustments|] == s.adjustments
    ensures r.outcome.Stored? ==> r.outcome.out.id == r.store.corrections[|s.corrections|].id
  {
    match fault
    case FlushFails => PostResult(s, StorageFailed)
    case CommitFails => PostResult(s, StorageFailed)
    case RefreshFails =>
      if !DeltasFit(p) then PostResult(s, StorageFailed)
      else PostResult(Committed(s, p, now), StorageFailed)
    case NoFault =>
      if !DeltasFit(p) then PostResult(s, StorageFailed)
      else
        var t := Committed(s, p, now);
        var row := t.corrections[|t.corrections| - 1];
        PostResult(t, Stored(Response(row, p, AdjustmentsOf(t.adjustments, row.id))))
  }

  // ---------------------------------------------------------------------------
  // What a committed insert stores.

  /** The shape of a committed insert, spelled out. */
  lemma CommittedShape(s: Store, p: CorrectionIn, now: Timestamp)
    ensures Committed(s, p, now).corrections == s.corrections + [CorrectionRowOf(NextCorrectionId(s), p, now)]
    ensures Committed(s, p, now).adjustments
      == s.adjustments + AdjustmentRowsOf(NextAdjustmentId(s), NextCorrectionId(s), Submitted(p))
  {
  }

  /** The new correction row carries the payload's fields and a fresh id. */
  lemma CommittedRow(s: Store, p: CorrectionIn, now: Timestamp)
    ensures var row := Committed(s, p, now).corrections[|s.corrections|];
      && row.id == NextCorrectionId(s) && row.id !in CorrectionIds(s)
      && row.imageId == p.imageId
      && row.originalName == p.original.name && row.originalGrams == p.original.grams
      && row.correctedName == p.corrected.name && row.correctedGrams == p.corrected.grams
      && row.createdAt == now
  {
    CommittedShape(s, p, now);
  }

  /** The new correction's adjustments are exactly the submitted ones, in
      submission order. */
  lemma CommittedAdjustments(s: Store, p: CorrectionIn, now: Timestamp)
    requires Wf(s)
    ensures HoldsAll(AdjustmentsOf(Committed(s, p, now).adjustments, NextCorrectionId(s)), Submitted(p))
  {
    CommittedBatch(s, p, now);
    BatchHolds(NextAdjustmentId(s), NextCorrectionId(s), Submitted(p));
  }

  /** Reading the new correction's adjustments back yields its batch. */
  lemma CommittedBatch(s: Store, p: CorrectionIn, now: Timestamp)
    requires Wf(s)
    ensures AdjustmentsOf(Committed(s, p, now).adjustments, NextCorrectionId(s))
      == AdjustmentRowsOf(NextAdjustmentId(s), NextCorrectionId(s), Submitted(p))
  {
    var id := NextCorrectionId(s);
    var batch := AdjustmentRowsOf(NextAdjustmentId(s), id, Submitted(p));
    CommittedShape(s, p, now);
    AdjustmentsOfAppend(s.adjustments, batch, id);
    NoneOfNew(s);
    AllOfOne(batch, id);
    assert [] + batch == batch;
  }

  lemma BatchHolds(first: nat, cid: nat, adjs: seq<AdjustmentIn>)
    ensures HoldsAll(AdjustmentRowsOf(first, cid, adjs), adjs)
  {
  }

  /** No stored adjustment points at the id the next correction receives. */
  lemma NoneOfNew(s: Store)
    requires Wf(s)
    ensures AdjustmentsOf(s.adjustments, NextCorrectionId(s)) == []
  {
    forall i | 0 <= i < |s.adjustments| ensures s.adjustments[i].correctionId != NextCorrectionId(s) {
      assert s.adjustments[i].correctionId in CorrectionIds(s);
    }
  }

  /** No other correction gains or loses an adjustment. */
  lemma CommittedKeepsOthers(s: Store, p: CorrectionIn, now: Timestamp, cid: nat)
    requires cid != NextCorrectionId(s)
    ensures AdjustmentsOf(Committed(s, p, now).adjustments, cid) == AdjustmentsOf(s.adjustments, cid)
  {
    var batch := AdjustmentRowsOf(NextAdjustmentId(s), NextCorrectionId(s), Submitted(p));
    CommittedShape(s, p, now);
    AdjustmentsOfAppend(s.adjustments, batch, cid);
    assert AdjustmentsOf(batch, cid) == [];
    assert s.adjustments + [] == s.adjustments;
  }

  /** Selecting a batch's own correction id selects the whole batch. */
  lemma {:induction false} AllOfOne(rows: seq<AdjustmentRow>, cid: nat)
    requires forall i :: 0 <= i < |rows| ==> rows[i].correctionId == cid
    ensures AdjustmentsOf(rows, cid) == rows
  {
    if rows != [] {
      AllOfOne(rows[1..], cid);
    }
  }

  /** Storing keeps the tables well formed: the new ids are above every id in
      use and the new adjustments point at the new correction. */
  lemma PostPreservesWf(s: Store, p: CorrectionIn, now: Timestamp, fault: Fault)
    requires Wf(s)
    ensures Wf(PostCorrection(s, p, now, fault).store)
  {
    CommittedWf(s, p, now);
  }

  lemma CommittedWf(s: Store, p: CorrectionIn, now: Timestamp)
    requires Wf(s)
    ensures Wf(Committed(s, p, now))
  {
    var id := NextCorrectionId(s);
    var first := NextAdjustmentId(s);
    var batch := AdjustmentRowsOf(first, id, Submitted(p));
    InsertWf(s, CorrectionRowOf(id, p, now), batch, first);
    CommittedShape(s, p, now);
    assert Committed(s, p, now) == Store(s.corrections + [CorrectionRowOf(id, p, now)], s.adjustments + batch);
  }

  /** A validated payload fits the declared column lengths, so storing it
      keeps every row within them. */
  lemma PostPreservesFits(s: Store, p: CorrectionIn, now: Timestamp, fault: Fault)
    requires FitsColumns(s) && ValidCorrection(p)
    ensures FitsColumns(PostCorrection(s, p, now, fault).store)
  {
    if DeltasFit(p) {
      CommittedFits(s, p, now);
    }
  }

  lemma CommittedFits(s: Store, p: CorrectionIn, now: Timestamp)
    requires FitsColumns(s) && ValidCorrection(p) && DeltasFit(p)
    ensures FitsColumns(Committed(s, p, now))
  {
    var id := NextCorrectionId(s);
    var first := NextAdjustmentId(s);
    assert ValidAdjustments(Submitted(p));
    var batch := AdjustmentRowsOf(first, id, Submitted(p));
    BatchFits(first, id, Submitted(p));
    InsertFits(s, CorrectionRowOf(id, p, now), batch);
    CommittedShape(s, p, now);
    assert Committed(s, p, now) == Store(s.corrections + [CorrectionRowOf(id, p, now)], s.adjustments + batch);
  }

  /** Valid adjustments with 64-bit weights fit their columns. */
  lemma BatchFits(first: nat, cid: nat, adjs: seq<AdjustmentIn>)
    requires ValidAdjustments(adjs)
    requires forall i :: 0 <= i < |adjs| ==> FitsInt64(adjs[i].deltaGrams)
    ensures forall k :: 0 <= k < |adjs| ==> AdjustmentFits(AdjustmentRowsOf(first, cid, adjs)[k])
  {
  }

  /** The 201 response echoes the payload under the new id: the same image
      id, portions and creation time, and the submitted adjustments in order,
      or `None` when none were stored. */
  lemma ResponseEchoesPayload(s: Store, p: CorrectionIn, now: Timestamp)
    requires Wf(s) && DeltasFit(p)
    ensures PostCorrection(s, p, now, NoFault).outcome.Stored?
    ensures var out := PostCorrection(s, p, now, NoFault).outcome.out;
      && out.id == NextCorrectionId(s)
      && out.imageId == p.imageId && out.original == p.original && out.corrected == p.corrected
      && out.createdAt == now
      && (out.adjustments.None? <==> Submitted(p) == [])
      && (out.adjustments.Some? ==>
            && |out.adjustments.value| == |Submitted(p)|
            && forall i :: 0 <= i < |Submitted(p)| ==>
                 out.adjustments.value[i] == AdjustmentOut(Submitted(p)[i].ingredient, Submitted(p)[i].deltaGrams, Submitted(p)[i].notes))
  {
    var id := NextCorrectionId(s);
    var batch := AdjustmentRowsOf(NextAdjustmentId(s), id, Submitted(p));
    StoredResponse(s, p, now);
    BatchHolds(NextAdjustmentId(s), id, Submitted(p));
    ResponseOfBatch(CorrectionRowOf(id, p, now), p, batch);
  }

  /** Without a fault the answer is built from the new row and its batch. */
  lemma StoredResponse(s: Store, p: CorrectionIn, now: Timestamp)
    requires Wf(s) && DeltasFit(p)
    ensures var id := NextCorrectionId(s);
      PostCorrection(s, p, now, NoFault).outcome
        == Stored(Response(CorrectionRowOf(id, p, now), p, AdjustmentRowsOf(NextAdjustmentId(s), id, Submitted(p))))
  {
    CommittedShape(s, p, now);
    CommittedBatch(s, p, now);
  }

  /** A response built from rows holding the submitted adjustments echoes
      them, or answers `None` when there are none. */
  lemma ResponseOfBatch(row: CorrectionRow, p: CorrectionIn, batch: seq<AdjustmentRow>)
    requires HoldsAll(batch, Submitted(p))
    ensures var out := Response(row, p, batch);
      && (out.adjustments.None? <==> Submitted(p) == [])
      && (out.adjustments.Some? ==>
            && |out.adjustments.value| == |Submitted(p)|
            && forall i :: 0 <= i < |Submitted(p)| ==>
                 out.adjustments.value[i] == AdjustmentOut(Submitted(p)[i].ingredient, Submitted(p)[i].deltaGrams, Submitted(p)[i].notes))
  {
  }

  /** Whatever fails, no partial write is visible: the tables are either
      untouched or hold the whole correction with all its adjustments. */
  lemma PostAtomic(s: Store, p: CorrectionIn, now: Timestamp, fault: Fault)
    requires Wf(s)
    ensures var t := PostCorrection(s, p, now, fault).store;
      || t == s
      || (&& |t.corrections| == |s.corrections| + 1
          && HoldsAll(AdjustmentsOf(t.adjustments, t.corrections[|s.corrections|].id), Submitted(p)))
  {
    CommittedAdjustments(s, p, now);
  }

  /** On an empty database the first correction gets id 1. */
  lemma FirstPostGetsIdOne(p: CorrectionIn, now: Timestamp)
    requires DeltasFit(p)
    ensures PostCorrection(Empty, p, now, NoFault).outcome.Stored?
    ensures PostCorrection(Empty, p, now, NoFault).outcome.out.id == 1
  {
    assert CorrectionIdSeq(Empty.corrections) == [];
  }

  /** A `deltaGrams` outside 64 bits is refused by the database whatever else
      happens: nothing is stored and the answer is 500. */
  lemma OverflowStoresNothing(s: Store, p: CorrectionIn, now: Timestamp, fault: Fault)
    requires !DeltasFit(p)
    ensures PostCorrection(s, p, now, fault) == PostResult(s, StorageFailed)
  {
  }

  /** A missing list and an empty list are handled alike: no adjustment row
      is stored for the new correction and the answer's `adjustments` is
      null; a non-empty list stores rows and is echoed. */
  lemma EmptyListStoresNone(s: Store, p: CorrectionIn, now: Timestamp)
    requires Wf(s)
    ensures AdjustmentsOf(Committed(s, p, now).adjustments, NextCorrectionId(s)) == []
      <==> p.adjustments.None? || p.adjustments == Some([])
    ensures DeltasFit(p) ==>
      && PostCorrection(s, p, now, NoFault).outcome.Stored?
      && (PostCorrection(s, p, now, NoFault).outcome.out.adjustments.None?
          <==> p.adjustments.None? || p.adjustments == Some([]))
  {
    CommittedBatch(s, p, now);
    if DeltasFit(p) {
      ResponseEchoesPayload(s, p, now);
    }
  }
}
