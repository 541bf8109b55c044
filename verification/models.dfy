/** The two tables the service writes: feedback corrections and the
    ingredient adjustments that belong to them. The database is an
    in-memory value; a row's id is the rowid SQLite assigns to an
    INTEGER PRIMARY KEY without AUTOINCREMENT (one past the largest id in
    use). */
module Models {
  import opened Wrappers

  /** Declared lengths of the `String(n)` columns. */
  const ImageIdColumnLength := 200
  const NameColumnLength := 200
  const IngredientColumnLength := 100

  /** SQLite stores an INTEGER in at most eight bytes; Python's `sqlite3`
      raises `OverflowError` when a statement binds a larger `int`. */
  const Int64Min := -0x8000_0000_0000_0000
  const Int64Max := 0x7FFF_FFFF_FFFF_FFFF

  predicate FitsInt64(n: int) {
    Int64Min <= n <= Int64Max
  }

  /** `created_at` as the clock produced it; its formatting is not modelled. */
  datatype Timestamp = Timestamp(iso: string)

  /** A `feedback_corrections` row. No column is nullable. */
  datatype CorrectionRow = CorrectionRow(
    id: nat,
    imageId: string,
    originalName: string,
    originalGrams: int,
    correctedName: string,
    correctedGrams: int,
    createdAt: Timestamp)

  /** An `ingredient_adjustments` row; `notes` is its one nullable column. */
  datatype AdjustmentRow = AdjustmentRow(
    id: nat,
    correctionId: nat,
    ingredient: string,
    deltaGrams: int,
    notes: Option<string>)

  /** Both tables, each in rowid order. */
  datatype Store = Store(corrections: seq<CorrectionRow>, adjustments: seq<AdjustmentRow>)

  const Empty := Store([], [])

  // ---------------------------------------------------------------------------
  // Keys and the foreign key.

  predicate CorrectionIdsAscending(cs: seq<CorrectionRow>) {
    forall i, j :: 0 <= i < j < |cs| ==> cs[i].id < cs[j].id
  }

  predicate AdjustmentIdsAscending(adjs: seq<AdjustmentRow>) {
    forall i, j :: 0 <= i < j < |adjs| ==> adjs[i].id < adjs[j].id
  }

  function CorrectionIds(s: Store): set<nat> {
    set r | r in s.corrections :: r.id
  }

  /** The table invariants: primary keys are positive and, in rowid order,
      strictly ascending (hence unique), and every adjustment refers to an
      existing correction. */
  predicate Wf(s: Store) {
    && CorrectionIdsAscending(s.corrections)
    && (forall i :: 0 <= i < |s.corrections| ==> 1 <= s.corrections[i].id)
    && AdjustmentIdsAscending(s.adjustments)
    && (forall i :: 0 <= i < |s.adjustments| ==> 1 <= s.adjustments[i].id)
    && (forall i :: 0 <= i < |s.adjustments| ==> s.adjustments[i].correctionId in CorrectionIds(s))
  }

  /** The declared column lengths and SQLite's integer width hold for every
      row. */
  predicate FitsColumns(s: Store) {
    && (forall i :: 0 <= i < |s.corrections| ==> RowFits(s.corrections[i]))
    && (forall i :: 0 <= i < |s.adjustments| ==> AdjustmentFits(s.adjustments[i]))
  }

  predicate RowFits(r: CorrectionRow) {
    && |r.imageId| <= ImageIdColumnLength
    && |r.originalName| <= NameColumnLength
    && |r.correctedName| <= NameColumnLength
    && FitsInt64(r.originalGrams) && FitsInt64(r.correctedGrams)
  }

  predicate AdjustmentFits(a: AdjustmentRow) {
    |a.ingredient| <= IngredientColumnLength && FitsInt64(a.deltaGrams)
  }

  lemma EmptyWf()
    ensures Wf(Empty) && FitsColumns(Empty)
  {
  }

  // ---------------------------------------------------------------------------
  // Row ids.

  /** The rowid the next insert receives: one past the largest id in use,
      1 for an empty table. */
  function NextRowId(ids: seq<nat>): (r: nat)
    ensures 1 <= r
    ensures forall i :: 0 <= i < |ids| ==> ids[i] < r
    ensures ids != [] ==> r - 1 in ids
    ensures ids == [] ==> r == 1
  {
    if ids == [] then 1
    else
      var rest := NextRowId(ids[1..]);
      assert forall i :: 1 <= i < |ids| ==> ids[i] == ids[1..][i - 1];
      if ids[0] >= rest then ids[0] + 1 else rest
  }

  function CorrectionIdSeq(cs: seq<CorrectionRow>): (r: seq<nat>)
    ensures |r| == |cs| && forall i :: 0 <= i < |cs| ==> r[i] == cs[i].id
  {
    seq(|cs|, i requires 0 <= i < |cs| => cs[i].id)
  }

  function AdjustmentIdSeq(adjs: seq<AdjustmentRow>): (r: seq<nat>)
    ensures |r| == |adjs| && forall i :: 0 <= i < |adjs| ==> r[i] == adjs[i].id
  {
    seq(|adjs|, i requires 0 <= i < |adjs| => adjs[i].id)
  }

  /** The id `db.flush()` gives a new correction. */
  function NextCorrectionId(s: Store): (r: nat)
    ensures 1 <= r && r !in CorrectionIds(s)
    ensures forall i :: 0 <= i < |s.corrections| ==> s.corrections[i].id < r
  {
    var r := NextRowId(CorrectionIdSeq(s.corrections));
    forall x | x in CorrectionIds(s) ensures x < r {
      var row :| row in s.corrections && row.id == x;
      var i :| 0 <= i < |s.corrections| && s.corrections[i] == row;
      assert CorrectionIdSeq(s.corrections)[i] < r;
    }
    r
  }

  /** The id the first of a batch of new adjustments receives; the batch takes
      consecutive ids from there. */
  function NextAdjustmentId(s: Store): (r: nat)
    ensures 1 <= r
    ensures forall i :: 0 <= i < |s.adjustments| ==> s.adjustments[i].id < r
  {
    NextRowId(AdjustmentIdSeq(s.adjustments))
  }

  // ---------------------------------------------------------------------------
  // Inserting a correction with its adjustments.

  /** Appending a correction whose id is above every id in use keeps the ids
      ascending and positive. */
  lemma AppendCorrectionWf(cs: seq<CorrectionRow>, row: CorrectionRow)
    requires CorrectionIdsAscending(cs) && 1 <= row.id
    requires forall i :: 0 <= i < |cs| ==> 1 <= cs[i].id < row.id
    ensures CorrectionIdsAscending(cs + [row])
    ensures forall i :: 0 <= i < |cs + [row]| ==> 1 <= (cs + [row])[i].id
  {
  }

  /** Appending a batch with consecutive ids above every id in use keeps the
      ids ascending and positive. */
  lemma AppendBatchWf(adjs: seq<AdjustmentRow>, batch: seq<AdjustmentRow>, first: nat)
    requires AdjustmentIdsAscending(adjs) && forall i :: 0 <= i < |adjs| ==> 1 <= adjs[i].id < first
    requires 1 <= first && forall i :: 0 <= i < |batch| ==> batch[i].id == first + i
    ensures AdjustmentIdsAscending(adjs + batch)
    ensures forall i :: 0 <= i < |adjs + batch| ==> 1 <= (adjs + batch)[i].id
  {
  }

  /** Inserting a correction under a fresh id above every id in use, together
      with a batch of adjustments that point at it and take consecutive ids
      above every adjustment id, keeps the tables well formed. */
  lemma InsertWf(s: Store, row: CorrectionRow, batch: seq<AdjustmentRow>, first: nat)
    requires Wf(s) && 1 <= row.id
    requires forall i :: 0 <= i < |s.corrections| ==> s.corrections[i].id < row.id
    requires forall i :: 0 <= i < |s.adjustments| ==> s.adjustments[i].id < first
    requires 1 <= first && forall i :: 0 <= i < |batch| ==> batch[i].id == first + i
    requires forall i :: 0 <= i < |batch| ==> batch[i].correctionId == row.id
    ensures Wf(Store(s.corrections + [row], s.adjustments + batch))
  {
    var t := Store(s.corrections + [row], s.adjustments + batch);
    AppendCorrectionWf(s.corrections, row);
    AppendBatchWf(s.adjustments, batch, first);
    assert row in t.corrections;
    forall i | 0 <= i < |t.adjustments| ensures t.adjustments[i].correctionId in CorrectionIds(t) {
      if i < |s.adjustments| {
        assert t.adjustments[i] == s.adjustments[i];
        var prior :| prior in s.corrections && prior.id == s.adjustments[i].correctionId;
        assert prior in t.corrections;
      } else {
        assert t.adjustments[i] == batch[i - |s.adjustments|];
      }
    }
  }

  /** Inserting rows within the declared lengths and the integer width keeps
      every row within them. */
  lemma InsertFits(s: Store, row: CorrectionRow, batch: seq<AdjustmentRow>)
    requires FitsColumns(s) && RowFits(row)
    requires forall i :: 0 <= i < |batch| ==> AdjustmentFits(batch[i])
    ensures FitsColumns(Store(s.corrections + [row], s.adjustments + batch))
  {
    var t := Store(s.corrections + [row], s.adjustments + batch);
    forall i | 0 <= i < |t.adjustments| ensures AdjustmentFits(t.adjustments[i]) {
      if i >= |s.adjustments| {
        assert t.adjustments[i] == batch[i - |s.adjustments|];
      }
    }
  }

  // ---------------------------------------------------------------------------
  // The `adjustments` relationship.

  /** The adjustments of correction `cid`, in rowid order. */
  function AdjustmentsOf(adjs: seq<AdjustmentRow>, cid: nat): (r: seq<AdjustmentRow>)
    ensures |r| <= |adjs|
    ensures forall i :: 0 <= i < |r| ==> r[i].correctionId == cid && r[i] in adjs
    ensures (forall i :: 0 <= i < |adjs| ==> adjs[i].correctionId != cid) <==> r == []
  {
    SelectedSound(adjs, cid);
    Selected(adjs, cid)
  }

  /** The row-by-row selection behind `AdjustmentsOf`. */
  function Selected(adjs: seq<AdjustmentRow>, cid: nat): seq<AdjustmentRow>
  {
    if adjs == [] then []
    else (if adjs[0].correctionId == cid then [adjs[0]] else []) + Selected(adjs[1..], cid)
  }

  lemma {:induction false} SelectedSound(adjs: seq<AdjustmentRow>, cid: nat)
    ensures |Selected(adjs, cid)| <= |adjs|
    ensures forall i :: 0 <= i < |Selected(adjs, cid)| ==>
      Selected(adjs, cid)[i].correctionId == cid && Selected(adjs, cid)[i] in adjs
    ensures (forall i :: 0 <= i < |adjs| ==> adjs[i].correctionId != cid) <==> Selected(adjs, cid) == []
  {
    if adjs != [] {
      SelectedSound(adjs[1..], cid);
      var head: seq<AdjustmentRow> := if adjs[0].correctionId == cid then [adjs[0]] else [];
      var rest := Selected(adjs[1..], cid);
      assert Selected(adjs, cid) == head + rest;
      forall i | 0 <= i < |head + rest|
        ensures (head + rest)[i].correctionId == cid && (head + rest)[i] in adjs
      {
        if i >= |head| {
          assert (head + rest)[i] == rest[i - |head|];
          assert rest[i - |head|] in adjs[1..];
        }
      }
      assert forall i :: 1 <= i < |adjs| ==> adjs[i] == adjs[1..][i - 1];
    }
  }

  /** Every row of `adjs` with the right correction id is selected. */
  lemma {:induction false} AdjustmentsOfContains(adjs: seq<AdjustmentRow>, cid: nat, i: nat)
    requires i < |adjs| && adjs[i].correctionId == cid
    ensures adjs[i] in AdjustmentsOf(adjs, cid)
  {
    if i > 0 {
      assert adjs[i] == adjs[1..][i - 1];
      AdjustmentsOfContains(adjs[1..], cid, i - 1);
    }
  }

  /** Appending rows appends their selection. */
  lemma AdjustmentsOfAppend(adjs: seq<AdjustmentRow>, more: seq<AdjustmentRow>, cid: nat)
    ensures AdjustmentsOf(adjs + more, cid) == AdjustmentsOf(adjs, cid) + AdjustmentsOf(more, cid)
  {
    SelectedAppend(adjs, more, cid);
  }

  lemma {:induction false} SelectedAppend(adjs: seq<AdjustmentRow>, more: seq<AdjustmentRow>, cid: nat)
    ensures Selected(adjs + more, cid) == Selected(adjs, cid) + Selected(more, cid)
  {
    if adjs != [] {
      var head: seq<AdjustmentRow> := if adjs[0].correctionId == cid then [adjs[0]] else [];
      var a, b := Selected(adjs[1..], cid), Selected(more, cid);
      SelectedAppend(adjs[1..], more, cid);
      assert (adjs + more)[0] == adjs[0];
      assert (adjs + more)[1..] == adjs[1..] + more;
      assert head + (a + b) == (head + a) + b;
    } else {
      assert adjs + more == more;
    }
  }

  // ---------------------------------------------------------------------------
  // Cascade delete.

  function WithoutCorrection(cs: seq<CorrectionRow>, id: nat): (r: seq<CorrectionRow>)
    ensures forall i :: 0 <= i < |r| ==> r[i].id != id && r[i] in cs
  {
    if cs == [] then []
    else
      var rest := WithoutCorrection(cs[1..], id);
      if cs[0].id == id then rest else [cs[0]] + rest
  }

  function WithoutAdjustmentsOf(adjs: seq<AdjustmentRow>, cid: nat): (r: seq<AdjustmentRow>)
    ensures forall i :: 0 <= i < |r| ==> r[i].correctionId != cid && r[i] in adjs
  {
    if adjs == [] then []
    else
      var rest := WithoutAdjustmentsOf(adjs[1..], cid);
      if adjs[0].correctionId == cid then rest else [adjs[0]] + rest
  }

  /** Deleting a correction through the ORM, whose `all, delete-orphan`
      cascade deletes its adjustments with it. */
  function DeleteCorrection(s: Store, id: nat): (r: Store)
    ensures CorrectionIds(r) == CorrectionIds(s) - {id}
    ensures forall i :: 0 <= i < |r.adjustments| ==> r.adjustments[i].correctionId != id
    ensures forall i :: 0 <= i < |r.adjustments| ==> r.adjustments[i] in s.adjustments
  {
    var r := Store(WithoutCorrection(s.corrections, id), WithoutAdjustmentsOf(s.adjustments, id));
    forall x | x in CorrectionIds(r) ensures x in CorrectionIds(s) && x != id {
      var row :| row in r.corrections && row.id == x;
      var i :| 0 <= i < |r.corrections| && r.corrections[i] == row;
    }
    forall x | x in CorrectionIds(s) && x != id ensures x in CorrectionIds(r) {
      var row :| row in s.corrections && row.id == x;
      WithoutCorrectionKeeps(s.corrections, id, row);
    }
    r
  }

  /** Filtering keeps ascending ids ascending. */
  lemma {:induction false} WithoutCorrectionAscending(cs: seq<CorrectionRow>, id: nat)
    requires CorrectionIdsAscending(cs)
    ensures CorrectionIdsAscending(WithoutCorrection(cs, id))
  {
    if cs != [] {
      WithoutCorrectionAscending(cs[1..], id);
      var rest := WithoutCorrection(cs[1..], id);
      forall i | 0 <= i < |rest| ensures cs[0].id < rest[i].id {
        var k :| 0 <= k < |cs[1..]| && cs[1..][k] == rest[i];
        assert cs[1..][k] == cs[k + 1];
      }
    }
  }

  lemma {:induction false} WithoutAdjustmentsAscending(adjs: seq<AdjustmentRow>, cid: nat)
    requires AdjustmentIdsAscending(adjs)
    ensures AdjustmentIdsAscending(WithoutAdjustmentsOf(adjs, cid))
  {
    if adjs != [] {
      WithoutAdjustmentsAscending(adjs[1..], cid);
      var rest := WithoutAdjustmentsOf(adjs[1..], cid);
      forall i | 0 <= i < |rest| ensures adjs[0].id < rest[i].id {
        var k :| 0 <= k < |adjs[1..]| && adjs[1..][k] == rest[i];
        assert adjs[1..][k] == adjs[k + 1];
      }
    }
  }

  /** A correction other than the deleted one survives the delete. */
  lemma {:induction false} WithoutCorrectionKeeps(cs: seq<CorrectionRow>, id: nat, row: CorrectionRow)
    requires row in cs && row.id != id
    ensures row in WithoutCorrection(cs, id)
  {
    if cs[0] != row {
      WithoutCorrectionKeeps(cs[1..], id, row);
    }
  }

  /** The cascade keeps the tables well formed: no adjustment outlives its
      correction, and the other corrections keep all their adjustments. */
  lemma DeletePreservesWf(s: Store, id: nat)
    requires Wf(s)
    ensures Wf(DeleteCorrection(s, id))
    ensures forall cid :: cid != id ==> AdjustmentsOf(DeleteCorrection(s, id).adjustments, cid) == AdjustmentsOf(s.adjustments, cid)
  {
    var r := DeleteCorrection(s, id);
    WithoutCorrectionAscending(s.corrections, id);
    WithoutAdjustmentsAscending(s.adjustments, id);
    forall i | 0 <= i < |r.corrections| ensures 1 <= r.corrections[i].id {
      var k :| 0 <= k < |s.corrections| && s.corrections[k] == r.corrections[i];
    }
    forall i | 0 <= i < |r.adjustments|
      ensures 1 <= r.adjustments[i].id && r.adjustments[i].correctionId in CorrectionIds(r)
    {
      var a := r.adjustments[i];
      var k :| 0 <= k < |s.adjustments| && s.adjustments[k] == a;
      var row :| row in s.corrections && row.id == a.correctionId;
      WithoutCorrectionKeeps(s.corrections, id, row);
    }
    forall cid | cid != id ensures AdjustmentsOf(r.adjustments, cid) == AdjustmentsOf(s.adjustments, cid) {
      CascadeKeepsOthers(s.adjustments, id, cid);
    }
  }

  lemma {:induction false} CascadeKeepsOthers(adjs: seq<AdjustmentRow>, id: nat, cid: nat)
    requires cid != id
    ensures AdjustmentsOf(WithoutAdjustmentsOf(adjs, id), cid) == AdjustmentsOf(adjs, cid)
  {
    if adjs != [] {
      CascadeKeepsOthers(adjs[1..], id, cid);
      if adjs[0].correctionId != id {
        assert ([adjs[0]] + WithoutAdjustmentsOf(adjs[1..], id))[1..] == WithoutAdjustmentsOf(adjs[1..], id);
      }
    }
  }
}
