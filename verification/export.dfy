/** `GET /export`: the format check and the two serialisers, `_stream_jsonl`
    and `_stream_csv`, as the sequence of chunks each one yields. Both walk the
    corrections in ascending id order with their adjustments in rowid order.
    A reader for each format shows that the text carries every field. */
module Export {
  import opened Wrappers
  import opened Text
  import opened JsonText
  import opened JsonRead
  import opened CsvText
  import opened Schemas
  import opened Models
  import opened Ingest

  // ---------------------------------------------------------------------------
  // The `format` query parameter.

  datatype Format = Jsonl | Csv

  const FormatPattern := "^(csv|jsonl)$"

  /** The values the pattern matches, with no case folding and no trailing
      newline. */
  predicate MatchesFormatPattern(f: string) {
    f == "csv" || f == "jsonl"
  }

  /** A missing parameter defaults to `jsonl`; a value the pattern does not
      match is a 422 error at `query.format`. */
  function ParseFormat(q: Option<string>): (r: Result<Format, FieldError>)
    ensures r.Success? <==> q.None? || MatchesFormatPattern(q.value)
    ensures r == Success(Csv) <==> q == Some("csv")
    ensures r.Failure? ==> r.error == FieldError([Key("query"), Key("format")], PatternMismatch(FormatPattern))
  {
    match q
    case None => Success(Jsonl)
    case Some(f) =>
      if f == "jsonl" then Success(Jsonl)
      else if f == "csv" then Success(Csv)
      else Failure(FieldError([Key("query"), Key("format")], PatternMismatch(FormatPattern)))
  }

  /** The check is case-sensitive and exact. */
  lemma FormatIsCaseSensitive()
    ensures ParseFormat(Some("jsonl")) == Success(Jsonl) && ParseFormat(Some("csv")) == Success(Csv)
    ensures ParseFormat(None) == Success(Jsonl)
    ensures ParseFormat(Some("JSONL")).Failure? && ParseFormat(Some("Csv")).Failure?
    ensures ParseFormat(Some("invalid")).Failure? && ParseFormat(Some("")).Failure?
    ensures ParseFormat(Some("jsonl\n")).Failure?
  {
  }

  // ---------------------------------------------------------------------------
  // What one exported correction holds.

  datatype Record = Record(
    id: nat,
    imageId: string,
    original: DishPortion,
    corrected: DishPortion,
    adjustments: seq<AdjustmentOut>,
    createdAt: string)

  /** A correction row and its adjustments, as both serialisers read them;
      `createdAt` is the ISO text with a `Z` appended. */
  function RecordOf(adjs: seq<AdjustmentRow>, row: CorrectionRow): Record {
    Record(
      row.id, row.imageId,
      DishPortion(row.originalName, row.originalGrams),
      DishPortion(row.correctedName, row.correctedGrams),
      OutsOf(AdjustmentsOf(adjs, row.id)),
      row.createdAt.iso + "Z")
  }

  /** The corrections in the order the export query returns them. The rows
      are held in rowid order, which under `Wf` is ascending id order, so the
      `ORDER BY id` is the table order (see `RecordsAscending`). */
  function Records(s: Store): (r: seq<Record>)
    ensures |r| == |s.corrections|
    ensures forall i :: 0 <= i < |r| ==> r[i] == RecordOf(s.adjustments, s.corrections[i])
  {
    seq(|s.corrections|, i requires 0 <= i < |s.corrections| => RecordOf(s.adjustments, s.corrections[i]))
  }

  lemma RecordsAscending(s: Store)
    requires Wf(s)
    ensures forall i, j :: 0 <= i < j < |Records(s)| ==> Records(s)[i].id < Records(s)[j].id
  {
  }

  // ---------------------------------------------------------------------------
  // JSON Lines.

  function NotesValue(n: Option<string>): Json {
    match n
    case None => JNull
    case Some(t) => JStr(t)
  }

  function AdjustmentObject(a: AdjustmentOut): Json {
    JObj([Member("ingredient", JStr(a.ingredient)), Member("deltaGrams", JInt(a.deltaGrams)),
          Member("notes", NotesValue(a.notes))])
  }

  function AdjustmentsArray(adjs: seq<AdjustmentOut>): (r: Json)
    ensures r.JArr? && |r.items| == |adjs|
    ensures forall i :: 0 <= i < |adjs| ==> r.items[i] == AdjustmentObject(adjs[i])
  {
    JArr(seq(|adjs|, i requires 0 <= i < |adjs| => AdjustmentObject(adjs[i])))
  }

  /** The object `_stream_jsonl` builds, keys in insertion order; the
      `adjustments` key is added last and only when there are adjustments. */
  function CorrectionObject(r: Record): Json {
    var id := Member("id", JInt(r.id));
    var imageId := Member("imageId", JStr(r.imageId));
    var original := Member("original", PortionJson(r.original));
    var corrected := Member("corrected", PortionJson(r.corrected));
    var createdAt := Member("createdAt", JStr(r.createdAt));
    if r.adjustments == [] then JObj([id, imageId, original, corrected, createdAt])
    else JObj([id, imageId, original, corrected, createdAt, Member("adjustments", AdjustmentsArray(r.adjustments))])
  }

  /** One chunk: the object on one line, terminated by its newline. */
  function JsonlLine(r: Record): (line: string)
    ensures |line| >= 2 && line[|line| - 1] == '\n'
    ensures '\n' !in line[..|line| - 1]
  {
    var text := Dumps(CorrectionObject(r));
    DumpsIsOneLine(CorrectionObject(r));
    assert (text + "\n")[..|text|] == text;
    text + "\n"
  }

  /** The chunks `_stream_jsonl` yields: one line per record, in order. */
  function JsonlChunks(recs: seq<Record>): (r: seq<string>)
    ensures |r| == |recs|
    ensures forall i :: 0 <= i < |recs| ==> r[i] == JsonlLine(recs[i])
  {
    seq(|recs|, i requires 0 <= i < |recs| => JsonlLine(recs[i]))
  }

  function ExportJsonl(s: Store): seq<string> {
    JsonlChunks(Records(s))
  }

  /** The `adjustments` key is absent exactly when the correction has no
      adjustments, and otherwise lists them in stored order. */
  lemma AdjustmentsKeyOmittedWhenNone(r: Record)
    ensures Lookup(CorrectionObject(r).members, "adjustments").None? <==> r.adjustments == []
    ensures r.adjustments != [] ==>
      Lookup(CorrectionObject(r).members, "adjustments") == Some(AdjustmentsArray(r.adjustments))
  {
    if r.adjustments != [] {
      LookupAt(CorrectionObject(r).members, 5);
    }
  }

  // ---------------------------------------------------------------------------
  // CSV.

  const CsvHeader: seq<string> :=
    ["id", "imageId", "original_name", "original_grams", "corrected_name", "corrected_grams", "adjustments", "createdAt"]

  /** The `adjustments` column: empty, or the adjustments as JSON text. */
  function AdjustmentsField(adjs: seq<AdjustmentOut>): (f: string)
    ensures f == [] <==> adjs == []
  {
    if adjs == [] then "" else Dumps(AdjustmentsArray(adjs))
  }

  /** The eight fields of a data row, integers written as `str` writes them. */
  function CsvFields(r: Record): (fs: seq<string>)
    ensures |fs| == |CsvHeader|
  {
    [IntToString(r.id), r.imageId, r.original.name, IntToString(r.original.grams),
     r.corrected.name, IntToString(r.corrected.grams), AdjustmentsField(r.adjustments), r.createdAt]
  }

  /** The fields of the data rows, one row per record, in order. */
  function FieldRows(recs: seq<Record>): (r: seq<seq<string>>)
    ensures |r| == |recs|
    ensures forall i :: 0 <= i < |recs| ==> r[i] == CsvFields(recs[i])
  {
    seq(|recs|, i requires 0 <= i < |recs| => CsvFields(recs[i]))
  }

  /** The data rows, one per record, in order. */
  function CsvDataRows(recs: seq<Record>): (r: seq<string>)
    ensures |r| == |recs|
    ensures forall i :: 0 <= i < |recs| ==> r[i] == WriteRow(CsvFields(recs[i]))
  {
    seq(|recs|, i requires 0 <= i < |recs| => WriteRow(CsvFields(recs[i])))
  }

  /** The chunks `_stream_csv` yields: the header row, then one row per record. */
  function CsvChunks(recs: seq<Record>): (r: seq<string>)
    ensures |r| == |recs| + 1 && r[0] == WriteRow(CsvHeader) && r[1..] == CsvDataRows(recs)
  {
    [WriteRow(CsvHeader)] + CsvDataRows(recs)
  }

  function ExportCsv(s: Store): seq<string> {
    CsvChunks(Records(s))
  }

  /** On an empty database the JSONL export is empty and the CSV export is
      the header alone. */
  lemma EmptyExport()
    ensures Concat(ExportJsonl(Empty)) == ""
    ensures ExportCsv(Empty) == [WriteRow(CsvHeader)]
  {
    assert ExportJsonl(Empty) == [];
  }

  // ---------------------------------------------------------------------------
  // Readers for the two formats.

  function GetInt(ms: seq<Member>, key: string): Option<int> {
    match Lookup(ms, key)
    case Some(JInt(i)) => Some(i)
    case _ => None
  }

  function GetStr(ms: seq<Member>, key: string): Option<string> {
    match Lookup(ms, key)
    case Some(JStr(t)) => Some(t)
    case _ => None
  }

  function GetPortion(ms: seq<Member>, key: string): Option<DishPortion> {
    match Lookup(ms, key)
    case Some(JObj(pm)) =>
      var name :- GetStr(pm, "name");
      var grams :- GetInt(pm, "grams");
      Some(DishPortion(name, grams))
    case _ => None
  }

  function AdjustmentFromJson(j: Json): Option<AdjustmentOut> {
    if !j.JObj? then None
    else
      var ingredient :- GetStr(j.members, "ingredient");
      var delta :- GetInt(j.members, "deltaGrams");
      match Lookup(j.members, "notes")
      case Some(JNull) => Some(AdjustmentOut(ingredient, delta, None))
      case Some(JStr(n)) => Some(AdjustmentOut(ingredient, delta, Some(n)))
      case _ => None
  }

  function AdjustmentsFromJson(items: seq<Json>): Option<seq<AdjustmentOut>> {
    if items == [] then Some([])
    else
      var a :- AdjustmentFromJson(items[0]);
      var rest :- AdjustmentsFromJson(items[1..]);
      Some([a] + rest)
  }

  /** A missing `adjustments` key reads as no adjustments. */
  function GetAdjustments(ms: seq<Member>): Option<seq<AdjustmentOut>> {
    match Lookup(ms, "adjustments")
    case None => Some([])
    case Some(JArr(items)) => AdjustmentsFromJson(items)
    case _ => None
  }

  function RecordFromJson(j: Json): Option<Record> {
    if !j.JObj? then None
    else
      var ms := j.members;
      var id :- GetInt(ms, "id");
      var imageId :- GetStr(ms, "imageId");
      var original :- GetPortion(ms, "original");
      var corrected :- GetPortion(ms, "corrected");
      var createdAt :- GetStr(ms, "createdAt");
      var adjs :- GetAdjustments(ms);
      if id < 0 then None else Some(Record(id, imageId, original, corrected, adjs, createdAt))
  }

  /** The text up to the first newline, and the text after it. */
  function SplitLine(t: string): (r: Option<(string, string)>)
    ensures r.Some? ==> |r.value.1| < |t|
  {
    if t == [] then None
    else if t[0] == '\n' then Some(([], t[1..]))
    else
      match SplitLine(t[1..])
      case None => None
      case Some((line, rest)) => Some(([t[0]] + line, rest))
  }

  /** A JSONL text: every line, newline-terminated, one correction object. */
  function ReadJsonl(body: string): Option<seq<Record>>
    decreases |body|
  {
    if body == [] then Some([])
    else
      match SplitLine(body)
      case None => None
      case Some((line, rest)) =>
        var j :- Loads(line);
        var r :- RecordFromJson(j);
        var rs :- ReadJsonl(rest);
        Some([r] + rs)
  }

  function ParseNat(f: string): Option<nat> {
    match ParseInt(f)
    case Some(i) => if i >= 0 then Some(i) else None
    case None => None
  }

  function AdjustmentsFromField(f: string): Option<seq<AdjustmentOut>> {
    if f == "" then Some([])
    else
      match Loads(f)
      case Some(JArr(items)) => AdjustmentsFromJson(items)
      case _ => None
  }

  function RecordFromFields(fs: seq<string>): Option<Record> {
    if |fs| != |CsvHeader| then None
    else
      var id :- ParseNat(fs[0]);
      var originalGrams :- ParseInt(fs[3]);
      var correctedGrams :- ParseInt(fs[5]);
      var adjs :- AdjustmentsFromField(fs[6]);
      Some(Record(id, fs[1], DishPortion(fs[2], originalGrams), DishPortion(fs[4], correctedGrams), adjs, fs[7]))
  }

  function RecordsFromRows(rows: seq<seq<string>>): Option<seq<Record>> {
    if rows == [] then Some([])
    else
      var r :- RecordFromFields(rows[0]);
      var rs :- RecordsFromRows(rows[1..]);
      Some([r] + rs)
  }

  /** A CSV export: the header row, then one eight-field row per correction. */
  function ReadCsv(body: string): Option<seq<Record>> {
    var rows :- ReadRows(body);
    if rows == [] || rows[0] != CsvHeader then None else RecordsFromRows(rows[1..])
  }

  // ---------------------------------------------------------------------------
  // Each reader recovers every record.

  lemma {:induction false} SplitLineOf(line: string, rest: string)
    requires '\n' !in line
    ensures SplitLine(line + "\n" + rest) == Some((line, rest))
  {
    if line != [] {
      assert (line + "\n" + rest)[1..] == line[1..] + "\n" + rest;
      SplitLineOf(line[1..], rest);
      assert [line[0]] + line[1..] == line;
    }
  }

  lemma AdjustmentObjectIngredient(a: AdjustmentOut)
    ensures Lookup(AdjustmentObject(a).members, "ingredient") == Some(JStr(a.ingredient))
  {
    LookupAt(AdjustmentObject(a).members, 0);
  }

  lemma AdjustmentObjectDelta(a: AdjustmentOut)
    ensures Lookup(AdjustmentObject(a).members, "deltaGrams") == Some(JInt(a.deltaGrams))
  {
    LookupAt(AdjustmentObject(a).members, 1);
  }

  lemma AdjustmentObjectNotes(a: AdjustmentOut)
    ensures Lookup(AdjustmentObject(a).members, "notes") == Some(NotesValue(a.notes))
  {
    LookupAt(AdjustmentObject(a).members, 2);
  }

  lemma ReadAdjustmentObject(a: AdjustmentOut)
    ensures AdjustmentFromJson(AdjustmentObject(a)) == Some(a)
  {
    AdjustmentObjectIngredient(a);
    AdjustmentObjectDelta(a);
    AdjustmentObjectNotes(a);
    ReadAdjustmentMembers(AdjustmentObject(a).members, a);
  }

  /** Members holding an adjustment's three fields read back as it. */
  lemma ReadAdjustmentMembers(ms: seq<Member>, a: AdjustmentOut)
    requires Lookup(ms, "ingredient") == Some(JStr(a.ingredient))
    requires Lookup(ms, "deltaGrams") == Some(JInt(a.deltaGrams))
    requires Lookup(ms, "notes") == Some(NotesValue(a.notes))
    ensures AdjustmentFromJson(JObj(ms)) == Some(a)
  {
    assert GetStr(ms, "ingredient") == Some(a.ingredient);
    assert GetInt(ms, "deltaGrams") == Some(a.deltaGrams);
    match a.notes
    case None =>
      assert Lookup(ms, "notes") == Some(JNull);
    case Some(n) =>
      assert Lookup(ms, "notes") == Some(JStr(n));
  }

  lemma {:induction false} ReadAdjustmentsArray(adjs: seq<AdjustmentOut>)
    ensures AdjustmentsFromJson(AdjustmentsArray(adjs).items) == Some(adjs)
  {
    if adjs != [] {
      var items := AdjustmentsArray(adjs).items;
      assert items[1..] == AdjustmentsArray(adjs[1..]).items;
      ReadAdjustmentObject(adjs[0]);
      ReadAdjustmentsArray(adjs[1..]);
      assert [adjs[0]] + adjs[1..] == adjs;
    }
  }

  lemma ReadPortionObject(p: DishPortion)
    ensures PortionJson(p).JObj?
    ensures GetStr(PortionJson(p).members, "name") == Some(p.name)
    ensures GetInt(PortionJson(p).members, "grams") == Some(p.grams)
  {
    LookupAt(PortionJson(p).members, 0);
    LookupAt(PortionJson(p).members, 1);
  }

  lemma CorrectionObjectId(r: Record)
    ensures Lookup(CorrectionObject(r).members, "id") == Some(JInt(r.id))
  {
    LookupAt(CorrectionObject(r).members, 0);
  }

  lemma CorrectionObjectImageId(r: Record)
    ensures Lookup(CorrectionObject(r).members, "imageId") == Some(JStr(r.imageId))
  {
    LookupAt(CorrectionObject(r).members, 1);
  }

  lemma CorrectionObjectOriginal(r: Record)
    ensures Lookup(CorrectionObject(r).members, "original") == Some(PortionJson(r.original))
  {
    LookupAt(CorrectionObject(r).members, 2);
  }

  lemma CorrectionObjectCorrected(r: Record)
    ensures Lookup(CorrectionObject(r).members, "corrected") == Some(PortionJson(r.corrected))
  {
    LookupAt(CorrectionObject(r).members, 3);
  }

  lemma CorrectionObjectCreatedAt(r: Record)
    ensures Lookup(CorrectionObject(r).members, "createdAt") == Some(JStr(r.createdAt))
  {
    LookupAt(CorrectionObject(r).members, 4);
  }

  lemma GetIntOf(ms: seq<Member>, key: string, i: int)
    requires Lookup(ms, key) == Some(JInt(i))
    ensures GetInt(ms, key) == Some(i)
  {
  }

  lemma GetStrOf(ms: seq<Member>, key: string, t: string)
    requires Lookup(ms, key) == Some(JStr(t))
    ensures GetStr(ms, key) == Some(t)
  {
  }

  lemma GetPortionOf(ms: seq<Member>, key: string, p: DishPortion)
    requires Lookup(ms, key) == Some(PortionJson(p))
    ensures GetPortion(ms, key) == Some(p)
  {
    ReadPortionObject(p);
  }

  /** The reader's steps, over any member list that holds the fields. */
  lemma RecordFromMembers(ms: seq<Member>, r: Record)
    requires GetInt(ms, "id") == Some(r.id as int)
    requires GetStr(ms, "imageId") == Some(r.imageId)
    requires GetPortion(ms, "original") == Some(r.original)
    requires GetPortion(ms, "corrected") == Some(r.corrected)
    requires GetStr(ms, "createdAt") == Some(r.createdAt)
    requires GetAdjustments(ms) == Some(r.adjustments)
    ensures RecordFromJson(JObj(ms)) == Some(r)
  {
  }

  lemma GetAdjustmentsOf(r: Record)
    ensures GetAdjustments(CorrectionObject(r).members) == Some(r.adjustments)
  {
    AdjustmentsKeyOmittedWhenNone(r);
    ReadAdjustmentsArray(r.adjustments);
  }

  lemma ReadCorrectionObject(r: Record)
    ensures RecordFromJson(CorrectionObject(r)) == Some(r)
  {
    var ms := CorrectionObject(r).members;
    CorrectionObjectId(r);
    GetIntOf(ms, "id", r.id);
    CorrectionObjectImageId(r);
    GetStrOf(ms, "imageId", r.imageId);
    CorrectionObjectOriginal(r);
    GetPortionOf(ms, "original", r.original);
    CorrectionObjectCorrected(r);
    GetPortionOf(ms, "corrected", r.corrected);
    CorrectionObjectCreatedAt(r);
    GetStrOf(ms, "createdAt", r.createdAt);
    GetAdjustmentsOf(r);
    RecordFromMembers(ms, r);
  }

  lemma ReadJsonlLine(r: Record, rest: string)
    requires ReadJsonl(rest).Some?
    ensures ReadJsonl(JsonlLine(r) + rest) == Some([r] + ReadJsonl(rest).value)
  {
    var text := Dumps(CorrectionObject(r));
    DumpsIsOneLine(CorrectionObject(r));
    SplitLineOf(text, rest);
    assert JsonlLine(r) + rest == text + "\n" + rest;
    LoadsDumps(CorrectionObject(r));
    ReadCorrectionObject(r);
  }

  /** Reading the JSONL text back gives every record, in order: one line per
      correction and nothing else. */
  lemma {:induction false} JsonlRoundTrip(recs: seq<Record>)
    ensures ReadJsonl(Concat(JsonlChunks(recs))) == Some(recs)
  {
    if recs != [] {
      var chunks := JsonlChunks(recs);
      assert chunks[1..] == JsonlChunks(recs[1..]);
      JsonlRoundTrip(recs[1..]);
      ReadJsonlLine(recs[0], Concat(chunks[1..]));
      assert [recs[0]] + recs[1..] == recs;
    }
  }

  lemma ReadAdjustmentsField(adjs: seq<AdjustmentOut>)
    ensures AdjustmentsFromField(AdjustmentsField(adjs)) == Some(adjs)
  {
    if adjs != [] {
      LoadsDumps(AdjustmentsArray(adjs));
      ReadAdjustmentsArray(adjs);
    }
  }

  lemma ReadCsvFields(r: Record)
    ensures RecordFromFields(CsvFields(r)) == Some(r)
  {
    ParseIntRoundTrip(r.id);
    ParseIntRoundTrip(r.original.grams);
    ParseIntRoundTrip(r.corrected.grams);
    ReadAdjustmentsField(r.adjustments);
  }

  lemma {:induction false} ReadCsvRows(recs: seq<Record>)
    ensures RecordsFromRows(FieldRows(recs)) == Some(recs)
  {
    if recs != [] {
      assert FieldRows(recs)[1..] == FieldRows(recs[1..]);
      ReadCsvFields(recs[0]);
      ReadCsvRows(recs[1..]);
      assert [recs[0]] + recs[1..] == recs;
    }
  }

  /** Reading the rows back, for any non-empty header row. */
  lemma ReadRowsOfExport(h: seq<string>, recs: seq<Record>)
    requires h != []
    ensures ReadRows(Concat([WriteRow(h)] + CsvDataRows(recs))) == Some([h] + FieldRows(recs))
  {
    var rows := [h] + FieldRows(recs);
    assert [WriteRow(h)] + CsvDataRows(recs) == seq(|rows|, i requires 0 <= i < |rows| => WriteRow(rows[i]));
    ReadRowsOfWrite(rows);
  }

  /** A body whose rows start with the header reads as the records of the
      rows after it. */
  lemma ReadCsvOfRows(body: string, rows: seq<seq<string>>)
    requires ReadRows(body) == Some(rows) && rows != [] && rows[0] == CsvHeader
    ensures ReadCsv(body) == RecordsFromRows(rows[1..])
  {
  }

  /** Reading the CSV text back gives the header and every record, in order,
      each row with its eight fields. */
  lemma CsvRoundTrip(recs: seq<Record>)
    ensures ReadCsv(Concat(CsvChunks(recs))) == Some(recs)
  {
    var rows := [CsvHeader] + FieldRows(recs);
    ReadRowsOfExport(CsvHeader, recs);
    ReadCsvOfRows(Concat(CsvChunks(recs)), rows);
    assert rows[1..] == FieldRows(recs);
    ReadCsvRows(recs);
  }

  /** Both formats carry the same records, and those are the store's
      corrections in table order. */
  lemma ExportFormatsAgree(s: Store)
    ensures ReadJsonl(Concat(ExportJsonl(s))) == Some(Records(s))
    ensures ReadCsv(Concat(ExportCsv(s))) == Some(Records(s))
  {
    JsonlRoundTrip(Records(s));
    CsvRoundTrip(Records(s));
  }

  // ---------------------------------------------------------------------------
  // Exporting after a post.

  function RecordOfPayload(id: nat, p: CorrectionIn, now: Timestamp): Record {
    Record(id, p.imageId, p.original, p.corrected,
      seq(|Submitted(p)|, i requires 0 <= i < |Submitted(p)| =>
        AdjustmentOut(Submitted(p)[i].ingredient, Submitted(p)[i].deltaGrams, Submitted(p)[i].notes)),
      now.iso + "Z")
  }

  /** After a committed post the export lists the earlier corrections
      unchanged, then the new one with the payload's fields and adjustments. */
  lemma ExportAfterPost(s: Store, p: CorrectionIn, now: Timestamp)
    requires Wf(s)
    ensures Records(Committed(s, p, now)) == Records(s) + [RecordOfPayload(NextCorrectionId(s), p, now)]
  {
    OldRecordsKept(s, p, now);
    NewRecord(s, p, now);
    Snoc(Records(Committed(s, p, now)), Records(s), RecordOfPayload(NextCorrectionId(s), p, now));
  }

  lemma Snoc(a: seq<Record>, b: seq<Record>, x: Record)
    requires |a| == |b| + 1 && a[|b|] == x
    requires forall i :: 0 <= i < |b| ==> a[i] == b[i]
    ensures a == b + [x]
  {
  }

  lemma OldRecordsKept(s: Store, p: CorrectionIn, now: Timestamp)
    requires Wf(s)
    ensures forall i :: 0 <= i < |s.corrections| ==> Records(Committed(s, p, now))[i] == Records(s)[i]
  {
    var t := Committed(s, p, now);
    forall i | 0 <= i < |s.corrections| ensures Records(t)[i] == Records(s)[i] {
      assert t.corrections[i] == s.corrections[i];
      CommittedKeepsOthers(s, p, now, s.corrections[i].id);
    }
  }

  lemma NewRecord(s: Store, p: CorrectionIn, now: Timestamp)
    requires Wf(s)
    ensures Records(Committed(s, p, now))[|s.corrections|] == RecordOfPayload(NextCorrectionId(s), p, now)
  {
    CommittedShape(s, p, now);
    CommittedAdjustments(s, p, now);
  }
}
