/** The three authenticated routes of the feedback router. The API-key check
    is a dependency, so FastAPI runs it before the query and body are
    validated; its verdict is an input here. */
module Endpoints {
  import opened Wrappers
  import opened Text
  import opened JsonText
  import opened Schemas
  import opened Models
  import opened Ingest
  import opened Export
  import opened Stats

  datatype Response =
    | Created(out: CorrectionOut)                                        // 201
    | Unauthorized                                                        // the key check's rejection
    | Unprocessable(errors: Errors)                                      // 422
    | ServerError                                                         // 500
    | Streamed(mediaType: string, filename: string, chunks: seq<string>) // 200, streamed
    | StatsBody(top5: seq<LabelCount>)                                   // 200

  /** FastAPI reports the errors of a request body under `body`, as it
      reports the query's under `query`. */
  function InBody(errors: Errors): (r: Errors)
    ensures |r| == |errors|
    ensures forall i :: 0 <= i < |r| ==>
      |r[i].loc| >= 1 && r[i].loc[0] == Key("body") && r[i].loc[1..] == errors[i].loc && r[i].kind == errors[i].kind
  {
    seq(|errors|, i requires 0 <= i < |errors| => FieldError([Key("body")] + errors[i].loc, errors[i].kind))
  }

  /** `POST /correction`: the new tables and the answer. */
  function HandleCorrection(s: Store, authorized: bool, body: Json, now: Timestamp, fault: Fault): (r: (Store, Response))
    ensures !authorized ==> r == (s, Unauthorized)
    ensures authorized && Decode(body).Failure? ==> r == (s, Unprocessable(InBody(Decode(body).error)))
    ensures r.1.Created? ==>
      authorized && Decode(body).Success? && ValidCorrection(Decode(body).value) && DeltasFit(Decode(body).value)
    ensures r.0 != s ==> authorized && Decode(body).Success? && r.0 == Committed(s, Decode(body).value, now)
  {
    if !authorized then (s, Unauthorized)
    else
      match Decode(body)
      case Failure(errors) => (s, Unprocessable(InBody(errors)))
      case Success(p) =>
        var posted := PostCorrection(s, p, now, fault);
        match posted.outcome
        case Stored(out) => (posted.store, Created(out))
        case StorageFailed => (posted.store, ServerError)
  }

  /** `GET /export`: JSON Lines for `jsonl` or no format, CSV for `csv`. */
  function HandleExport(s: Store, authorized: bool, format: Option<string>): (r: Response)
    ensures !authorized ==> r == Unauthorized
    ensures authorized && ParseFormat(format).Failure? ==> r == Unprocessable([ParseFormat(format).error])
    ensures r.Streamed? ==> authorized && ParseFormat(format).Success?
    ensures authorized && ParseFormat(format) == Success(Jsonl) ==>
      r == Streamed("application/x-jsonlines", "feedback.jsonl", ExportJsonl(s))
    ensures authorized && ParseFormat(format) == Success(Csv) ==>
      r == Streamed("text/csv", "feedback.csv", ExportCsv(s))
  {
    if !authorized then Unauthorized
    else
      match ParseFormat(format)
      case Failure(e) => Unprocessable([e])
      case Success(Jsonl) => Streamed("application/x-jsonlines", "feedback.jsonl", ExportJsonl(s))
      case Success(Csv) => Streamed("text/csv", "feedback.csv", ExportCsv(s))
  }

  /** `GET /stats`. */
  function HandleStats(s: Store, authorized: bool): (r: Response)
    ensures !authorized ==> r == Unauthorized
    ensures authorized ==> r.StatsBody? && IsTopGroups(s.corrections, r.top5)
  {
    if !authorized then Unauthorized
    else
      Top5Correct(s);
      StatsBody(Top5(s))
  }

  // ---------------------------------------------------------------------------
  // Properties across requests.

  /** Whichever format is asked for, the streamed body reads back as the
      stored corrections in id order: `csv` through the CSV reader, `jsonl`
      or no format through the JSON Lines reader. */
  lemma ExportAnswerReadsBack(s: Store, format: Option<string>)
    requires Wf(s)
    ensures format == Some("csv") ==>
      && HandleExport(s, true, format).Streamed?
      && ReadCsv(Concat(HandleExport(s, true, format).chunks)) == Some(Records(s))
    ensures format == None || format == Some("jsonl") ==>
      && HandleExport(s, true, format).Streamed?
      && ReadJsonl(Concat(HandleExport(s, true, format).chunks)) == Some(Records(s))
    ensures HandleExport(s, true, format).Streamed? ==>
      forall i, j :: 0 <= i < j < |Records(s)| ==> Records(s)[i].id < Records(s)[j].id
  {
    ExportFormatsAgree(s);
    RecordsAscending(s);
    if format.Some? {
      assert MatchesFormatPattern("csv") && MatchesFormatPattern("jsonl");
    }
  }

  /** Every request keeps the tables well formed and within their declared
      column lengths. */
  lemma CorrectionPreservesInvariants(s: Store, authorized: bool, body: Json, now: Timestamp, fault: Fault)
    requires Wf(s) && FitsColumns(s)
    ensures Wf(HandleCorrection(s, authorized, body, now, fault).0)
    ensures FitsColumns(HandleCorrection(s, authorized, body, now, fault).0)
  {
    if authorized && Decode(body).Success? {
      PostPreservesWf(s, Decode(body).value, now, fault);
      PostPreservesFits(s, Decode(body).value, now, fault);
    }
  }

  /** A request the key check or the validator rejects writes nothing, so
      the statistics and both exports are as before. */
  lemma RejectedChangesNothing(s: Store, authorized: bool, body: Json, now: Timestamp, fault: Fault)
    requires !authorized || Decode(body).Failure?
    ensures var t := HandleCorrection(s, authorized, body, now, fault).0;
      t == s && HandleStats(t, true) == HandleStats(s, true)
      && HandleExport(t, true, Some("csv")) == HandleExport(s, true, Some("csv"))
      && HandleExport(t, true, None) == HandleExport(s, true, None)
  {
  }

  /** A payload sent as a client sends it is stored: the answer is 201 with
      the payload under a fresh id, the JSONL export reads back as the earlier
      corrections followed by this one, and the corrected name's count grows
      by one while every other count stays. */
  lemma PostThenRead(s: Store, c: CorrectionIn, now: Timestamp)
    requires Wf(s) && ValidCorrection(c) && DeltasFit(c)
    ensures var (t, resp) := HandleCorrection(s, true, RequestJson(c), now, NoFault);
      && resp.Created?
      && resp.out.id !in CorrectionIds(s)
      && resp.out.imageId == c.imageId && resp.out.original == c.original && resp.out.corrected == c.corrected
      && ReadJsonl(Concat(ExportJsonl(t))) == Some(Records(s) + [RecordOfPayload(NextCorrectionId(s), c, now)])
      && ReadCsv(Concat(ExportCsv(t))) == Some(Records(s) + [RecordOfPayload(NextCorrectionId(s), c, now)])
      && forall l :: Count(t.corrections, l) == Count(s.corrections, l) + (if l == c.corrected.name then 1 else 0)
  {
    ValidPost(s, c, now);
    ResponseEchoesPayload(s, c, now);
    ExportsAfterPost(s, c, now);
    CountsAfterPost(s, c, now);
  }

  /** A valid body, authorised and without a fault, is committed and
      answered 201 with the stored correction. */
  lemma ValidPost(s: Store, c: CorrectionIn, now: Timestamp)
    requires ValidCorrection(c) && DeltasFit(c)
    ensures HandleCorrection(s, true, RequestJson(c), now, NoFault)
      == (Committed(s, c, now), Created(PostCorrection(s, c, now, NoFault).outcome.out))
  {
    DecodeRequestJson(c);
  }

  lemma ExportsAfterPost(s: Store, c: CorrectionIn, now: Timestamp)
    requires Wf(s)
    ensures var t := Committed(s, c, now);
      && ReadJsonl(Concat(ExportJsonl(t))) == Some(Records(s) + [RecordOfPayload(NextCorrectionId(s), c, now)])
      && ReadCsv(Concat(ExportCsv(t))) == Some(Records(s) + [RecordOfPayload(NextCorrectionId(s), c, now)])
  {
    ExportAfterPost(s, c, now);
    ExportFormatsAgree(Committed(s, c, now));
  }

  lemma CountsAfterPost(s: Store, c: CorrectionIn, now: Timestamp)
    ensures var t := Committed(s, c, now);
      forall l :: Count(t.corrections, l) == Count(s.corrections, l) + (if l == c.corrected.name then 1 else 0)
  {
    var t := Committed(s, c, now);
    CommittedShape(s, c, now);
    forall l ensures Count(t.corrections, l) == Count(s.corrections, l) + (if l == c.corrected.name then 1 else 0) {
      CountAfterAppend(s.corrections, CorrectionRowOf(NextCorrectionId(s), c, now), l);
    }
  }

  /** The key check comes first: an unauthorised request is refused whatever
      its body or format, even one that would not validate. */
  lemma AuthBeforeValidation(s: Store, body: Json, format: Option<string>, now: Timestamp, fault: Fault)
    ensures HandleCorrection(s, false, body, now, fault).1 == Unauthorized
    ensures HandleExport(s, false, format) == Unauthorized
    ensures HandleStats(s, false) == Unauthorized
  {
  }

  /** On an empty database a valid post is answered 201 with id 1, and the
      statistics then list its corrected name once. */
  lemma PostThenStatsOnEmpty(c: CorrectionIn, now: Timestamp)
    requires ValidCorrection(c) && DeltasFit(c)
    ensures var (t, resp) := HandleCorrection(Empty, true, RequestJson(c), now, NoFault);
      && resp.Created? && resp.out.id == 1 && resp.out.imageId == c.imageId
      && HandleStats(t, true) == StatsBody([LabelCount(c.corrected.name, 1)])
  {
    DecodeRequestJson(c);
    FirstPostGetsIdOne(c, now);
    ResponseEchoesPayload(Empty, c, now);
    var t := Committed(Empty, c, now);
    CommittedShape(Empty, c, now);
    Top5OfOne(t);
  }

  /** The body of the end-to-end test. */
  const FriedRice := CorrectionIn(
    "abc123",
    DishPortion("Fried Rice", 250),
    DishPortion("Tonkotsu Ramen", 420),
    Some([AdjustmentIn("Egg", -20, None), AdjustmentIn("Noodles", 50, None)]))

  /** That body on an empty database, sent with a valid key: 201 for
      `abc123`, and `Tonkotsu Ramen` among the statistics. */
  lemma EndToEndOnEmpty(now: Timestamp)
    ensures var (t, resp) := HandleCorrection(Empty, true, RequestJson(FriedRice), now, NoFault);
      && resp.Created? && resp.out.imageId == "abc123"
      && HandleStats(t, true) == StatsBody([LabelCount("Tonkotsu Ramen", 1)])
  {
    assert Submitted(FriedRice)[0].deltaGrams == -20 && Submitted(FriedRice)[1].deltaGrams == 50;
    PostThenStatsOnEmpty(FriedRice, now);
  }

  /** The same body sent without a key, as the end-to-end scenario sends it,
      is refused by the key check and stores nothing. */
  lemma EndToEndWithoutKey(now: Timestamp)
    ensures HandleCorrection(Empty, false, RequestJson(FriedRice), now, NoFault) == (Empty, Unauthorized)
    ensures HandleStats(HandleCorrection(Empty, false, RequestJson(FriedRice), now, NoFault).0, true) == StatsBody([])
  {
    Top5Correct(Empty);
  }

  /** A valid payload whose `deltaGrams` does not fit SQLite's INTEGER is
      accepted by the validator and then answered 500, with nothing stored. */
  lemma OverflowAnswers500(s: Store, c: CorrectionIn, now: Timestamp, fault: Fault)
    requires ValidCorrection(c) && !DeltasFit(c)
    ensures HandleCorrection(s, true, RequestJson(c), now, fault) == (s, ServerError)
  {
    DecodeRequestJson(c);
    OverflowStoresNothing(s, c, now, fault);
  }
}
