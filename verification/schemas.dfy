/** The request schemas of `app/schemas.py` as an explicit decoder: a JSON
    request body either decodes to a validated `CorrectionIn` or is rejected
    with one located error per problem, as Pydantic reports them. */
module Schemas {
  import opened Wrappers
  import opened JsonText

  const NameMaxLength := 200
  const ImageIdMaxLength := 200
  const IngredientMaxLength := 100
  const NotesMaxLength := 500
  const GramsMin := 1
  const GramsMax := 10000

  datatype DishPortion = DishPortion(name: string, grams: int)

  datatype AdjustmentIn = AdjustmentIn(ingredient: string, deltaGrams: int, notes: Option<string>)

  datatype CorrectionIn = CorrectionIn(
    imageId: string,
    original: DishPortion,
    corrected: DishPortion,
    adjustments: Option<seq<AdjustmentIn>>)

  /** A step of an error location: an object key or a list index. */
  datatype PathItem = Key(name: string) | Index(i: nat)

  datatype ErrorKind =
    | Missing
    | NotAString
    | NotAnInteger
    | NotAnObject
    | NotAList
    | TooShort(minLength: nat)
    | TooLong(maxLength: nat)
    | BelowMin(least: int)
    | AboveMax(most: int)
    | ExtraForbidden
    | PatternMismatch(pattern: string)

  datatype FieldError = FieldError(loc: seq<PathItem>, kind: ErrorKind)

  type Errors = seq<FieldError>

  // ---------------------------------------------------------------------------
  // What a validated payload satisfies.

  predicate ValidPortion(p: DishPortion) {
    1 <= |p.name| <= NameMaxLength && GramsMin <= p.grams <= GramsMax
  }

  predicate ValidAdjustment(a: AdjustmentIn) {
    && 1 <= |a.ingredient| <= IngredientMaxLength
    && (a.notes.Some? ==> |a.notes.value| <= NotesMaxLength)
  }

  predicate ValidAdjustments(adjs: seq<AdjustmentIn>) {
    forall i :: 0 <= i < |adjs| ==> ValidAdjustment(adjs[i])
  }

  predicate ValidCorrection(c: CorrectionIn) {
    && 1 <= |c.imageId| <= ImageIdMaxLength
    && ValidPortion(c.original)
    && ValidPortion(c.corrected)
    && (c.adjustments.Some? ==> ValidAdjustments(c.adjustments.value))
  }

  // ---------------------------------------------------------------------------
  // When a JSON body describes a payload: the keys the decoder reads hold the
  // payload's fields. Nested objects may carry further keys; the top level may not.

  const CorrectionKeys: set<string> := {"imageId", "original", "corrected", "adjustments"}

  predicate OnlyKnownKeys(j: Json) {
    j.JObj? && forall i :: 0 <= i < |j.members| ==> j.members[i].key in CorrectionKeys
  }

  predicate DescribesPortion(v: Option<Json>, p: DishPortion) {
    && v.Some? && v.value.JObj?
    && Lookup(v.value.members, "name") == Some(JStr(p.name))
    && Lookup(v.value.members, "grams") == Some(JInt(p.grams))
  }

  /** An optional field is `None` when its key is absent or holds `null`. */
  predicate DescribesOptional(v: Option<Json>, x: Option<Json>) {
    if x.None? then v.None? || v == Some(JNull) else v == x
  }

  function NotesJson(n: Option<string>): Option<Json> {
    if n.Some? then Some(JStr(n.value)) else None
  }

  predicate DescribesAdjustment(v: Json, a: AdjustmentIn) {
    && v.JObj?
    && Lookup(v.members, "ingredient") == Some(JStr(a.ingredient))
    && Lookup(v.members, "deltaGrams") == Some(JInt(a.deltaGrams))
    && DescribesOptional(Lookup(v.members, "notes"), NotesJson(a.notes))
  }

  predicate DescribesAdjustmentList(items: seq<Json>, adjs: seq<AdjustmentIn>) {
    |items| == |adjs| && forall i :: 0 <= i < |adjs| ==> DescribesAdjustment(items[i], adjs[i])
  }

  predicate DescribesAdjustments(v: Option<Json>, adjs: Option<seq<AdjustmentIn>>) {
    if adjs.None? then v.None? || v == Some(JNull)
    else v.Some? && v.value.JArr? && DescribesAdjustmentList(v.value.items, adjs.value)
  }

  predicate Describes(j: Json, c: CorrectionIn) {
    && j.JObj?
    && Lookup(j.members, "imageId") == Some(JStr(c.imageId))
    && DescribesPortion(Lookup(j.members, "original"), c.original)
    && DescribesPortion(Lookup(j.members, "corrected"), c.corrected)
    && DescribesAdjustments(Lookup(j.members, "adjustments"), c.adjustments)
  }

  // ---------------------------------------------------------------------------
  // The decoder.

  function ErrorsOf<T>(r: Result<T, Errors>): Errors {
    if r.Failure? then r.error else []
  }

  /** A failed step reports at least one error, every one of them at or below
      `loc`, and none of them about an unknown key. */
  predicate Reported<T>(r: Result<T, Errors>, loc: seq<PathItem>) {
    r.Failure? ==>
      && r.error != []
      && forall e :: e in r.error ==> |loc| <= |e.loc| && e.loc[..|loc|] == loc && e.kind != ExtraForbidden
  }

  /** A required `str` field with `min_length` and `max_length`. */
  function DecodeString(v: Option<Json>, loc: seq<PathItem>, minLength: nat, maxLength: nat): (r: Result<string, Errors>)
    ensures Reported(r, loc)
    ensures r.Success? <==> v.Some? && v.value.JStr? && minLength <= |v.value.s| <= maxLength
    ensures r.Success? ==> v == Some(JStr(r.value))
  {
    match v
    case None => Failure([FieldError(loc, Missing)])
    case Some(JStr(s)) =>
      if |s| < minLength then Failure([FieldError(loc, TooShort(minLength))])
      else if |s| > maxLength then Failure([FieldError(loc, TooLong(maxLength))])
      else Success(s)
    case Some(_) => Failure([FieldError(loc, NotAString)])
  }

  /** A required `int` field, with `ge`/`le` bounds when `bounds` is given. */
  function DecodeInt(v: Option<Json>, loc: seq<PathItem>, bounds: Option<(int, int)>): (r: Result<int, Errors>)
    ensures Reported(r, loc)
    ensures r.Success? <==>
      v.Some? && v.value.JInt? && (bounds.Some? ==> bounds.value.0 <= v.value.i <= bounds.value.1)
    ensures r.Success? ==> v == Some(JInt(r.value))
  {
    match v
    case None => Failure([FieldError(loc, Missing)])
    case Some(JInt(i)) =>
      if bounds.Some? && i < bounds.value.0 then Failure([FieldError(loc, BelowMin(bounds.value.0))])
      else if bounds.Some? && i > bounds.value.1 then Failure([FieldError(loc, AboveMax(bounds.value.1))])
      else Success(i)
    case Some(_) => Failure([FieldError(loc, NotAnInteger)])
  }

  /** `notes: Optional[str] = Field(None, max_length=500)`. */
  function DecodeNotes(v: Option<Json>, loc: seq<PathItem>): (r: Result<Option<string>, Errors>)
    ensures Reported(r, loc)
    ensures r.Success? ==> DescribesOptional(v, NotesJson(r.value))
    ensures r.Success? ==> r.value.Some? ==> |r.value.value| <= NotesMaxLength
  {
    match v
    case None => Success(None)
    case Some(JNull) => Success(None)
    case Some(JStr(s)) =>
      if |s| > NotesMaxLength then Failure([FieldError(loc, TooLong(NotesMaxLength))]) else Success(Some(s))
    case Some(_) => Failure([FieldError(loc, NotAString)])
  }

  /** Two independent steps: both values, or every error either reported. */
  lemma ReportedBoth<A, B>(a: Result<A, Errors>, b: Result<B, Errors>, loc: seq<PathItem>)
    requires Reported(a, loc) && Reported(b, loc)
    ensures forall e :: e in ErrorsOf(a) + ErrorsOf(b) ==>
      |loc| <= |e.loc| && e.loc[..|loc|] == loc && e.kind != ExtraForbidden
    ensures ErrorsOf(a) + ErrorsOf(b) == [] <==> a.Success? && b.Success?
  {
  }

  /** A `DishPortion` object. Keys other than `name` and `grams` are ignored. */
  function DecodePortion(v: Option<Json>, loc: seq<PathItem>): (r: Result<DishPortion, Errors>)
    ensures Reported(r, loc)
    ensures r.Success? ==> ValidPortion(r.value) && DescribesPortion(v, r.value)
  {
    match v
    case None => Failure([FieldError(loc, Missing)])
    case Some(JObj(ms)) =>
      var name := DecodeString(Lookup(ms, "name"), loc + [Key("name")], 1, NameMaxLength);
      var grams := DecodeInt(Lookup(ms, "grams"), loc + [Key("grams")], Some((GramsMin, GramsMax)));
      ReportedLift(name, loc, Key("name"));
      ReportedLift(grams, loc, Key("grams"));
      ReportedBoth(name, grams, loc);
      if name.Success? && grams.Success? then Success(DishPortion(name.value, grams.value))
      else Failure(ErrorsOf(name) + ErrorsOf(grams))
    case Some(_) => Failure([FieldError(loc, NotAnObject)])
  }

  /** An error below `loc + [step]` is below `loc`. */
  lemma ReportedLift<T>(r: Result<T, Errors>, loc: seq<PathItem>, step: PathItem)
    requires Reported(r, loc + [step])
    ensures Reported(r, loc)
  {
    if r.Failure? {
      forall e | e in r.error
        ensures |loc| <= |e.loc| && e.loc[..|loc|] == loc
      {
        assert e.loc[..|loc| + 1][..|loc|] == e.loc[..|loc|];
        assert (loc + [step])[..|loc|] == loc;
      }
    }
  }

  /** One `IngredientAdjustmentIn` object. Unknown keys are ignored. */
  function DecodeAdjustment(v: Json, loc: seq<PathItem>): (r: Result<AdjustmentIn, Errors>)
    ensures Reported(r, loc)
    ensures r.Success? ==> ValidAdjustment(r.value) && DescribesAdjustment(v, r.value)
  {
    match v
    case JObj(ms) =>
      var ingredient := DecodeString(Lookup(ms, "ingredient"), loc + [Key("ingredient")], 1, IngredientMaxLength);
      var delta := DecodeInt(Lookup(ms, "deltaGrams"), loc + [Key("deltaGrams")], None);
      var notes := DecodeNotes(Lookup(ms, "notes"), loc + [Key("notes")]);
      ReportedLift(ingredient, loc, Key("ingredient"));
      ReportedLift(delta, loc, Key("deltaGrams"));
      ReportedLift(notes, loc, Key("notes"));
      ReportedBoth(ingredient, delta, loc);
      var errors := ErrorsOf(ingredient) + ErrorsOf(delta) + ErrorsOf(notes);
      if errors == [] then Success(AdjustmentIn(ingredient.value, delta.value, notes.value))
      else Failure(errors)
    case _ => Failure([FieldError(loc, NotAnObject)])
  }

  /** The elements of the `adjustments` list, the first at index `start`. */
  function DecodeAdjustmentList(items: seq<Json>, loc: seq<PathItem>, start: nat): (r: Result<seq<AdjustmentIn>, Errors>)
    ensures Reported(r, loc)
    ensures r.Success? ==> ValidAdjustments(r.value) && DescribesAdjustmentList(items, r.value)
  {
    if items == [] then Success([])
    else
      var head := DecodeAdjustment(items[0], loc + [Index(start)]);
      var tail := DecodeAdjustmentList(items[1..], loc, start + 1);
      ReportedLift(head, loc, Index(start));
      ReportedBoth(head, tail, loc);
      if head.Success? && tail.Success? then
        DescribesAdjustmentListCons(items, head.value, tail.value);
        Success([head.value] + tail.value)
      else Failure(ErrorsOf(head) + ErrorsOf(tail))
  }

  lemma DescribesAdjustmentListCons(items: seq<Json>, a: AdjustmentIn, adjs: seq<AdjustmentIn>)
    requires items != [] && DescribesAdjustment(items[0], a) && ValidAdjustment(a)
    requires DescribesAdjustmentList(items[1..], adjs) && ValidAdjustments(adjs)
    ensures DescribesAdjustmentList(items, [a] + adjs) && ValidAdjustments([a] + adjs)
  {
    var r := [a] + adjs;
    forall i | 0 <= i < |r|
      ensures DescribesAdjustment(items[i], r[i]) && ValidAdjustment(r[i])
    {
      if i > 0 {
        assert items[i] == items[1..][i - 1] && r[i] == adjs[i - 1];
      }
    }
  }

  /** `adjustments: Optional[List[IngredientAdjustmentIn]] = None`. */
  function DecodeAdjustments(v: Option<Json>, loc: seq<PathItem>): (r: Result<Option<seq<AdjustmentIn>>, Errors>)
    ensures Reported(r, loc)
    ensures r.Success? ==> DescribesAdjustments(v, r.value)
    ensures r.Success? && r.value.Some? ==> ValidAdjustments(r.value.value)
  {
    match v
    case None => Success(None)
    case Some(JNull) => Success(None)
    case Some(JArr(items)) =>
      var list := DecodeAdjustmentList(items, loc, 0);
      if list.Success? then Success(Some(list.value)) else Failure(list.error)
    case Some(_) => Failure([FieldError(loc, NotAList)])
  }

  /** One `extra_forbidden` error per distinct top-level key that is not a
      field of `CorrectionIn`, reported where the key last occurs. */
  function ExtraKeyErrors(ms: seq<Member>): (r: Errors)
    ensures forall e :: e in r ==> e.kind == ExtraForbidden
    ensures forall k :: FieldError([Key(k)], ExtraForbidden) in r <==>
      k !in CorrectionKeys && exists i :: 0 <= i < |ms| && ms[i].key == k
    ensures r == [] <==> forall i :: 0 <= i < |ms| ==> ms[i].key in CorrectionKeys
  {
    if ms == [] then []
    else
      var k := ms[0].key;
      var here := if k !in CorrectionKeys && Lookup(ms[1..], k).None? then [FieldError([Key(k)], ExtraForbidden)] else [];
      var r := here + ExtraKeyErrors(ms[1..]);
      assert forall i :: 1 <= i < |ms| ==> ms[i] == ms[1..][i - 1];
      r
  }

  /** The errors the four fields of a top-level object report, in field order. */
  function FieldErrors(ms: seq<Member>): (r: Errors)
    ensures forall e :: e in r ==> e.kind != ExtraForbidden
  {
    ErrorsOf(DecodeString(Lookup(ms, "imageId"), [Key("imageId")], 1, ImageIdMaxLength))
    + ErrorsOf(DecodePortion(Lookup(ms, "original"), [Key("original")]))
    + ErrorsOf(DecodePortion(Lookup(ms, "corrected"), [Key("corrected")]))
    + ErrorsOf(DecodeAdjustments(Lookup(ms, "adjustments"), [Key("adjustments")]))
  }

  /** `CorrectionIn.model_validate(body)`: `extra="forbid"` at the top level only. */
  function Decode(j: Json): (r: Result<CorrectionIn, Errors>)
    ensures r.Success? ==> ValidCorrection(r.value) && Describes(j, r.value) && OnlyKnownKeys(j)
    ensures r.Failure? ==> r.error != []
  {
    match j
    case JObj(ms) =>
      var imageId := DecodeString(Lookup(ms, "imageId"), [Key("imageId")], 1, ImageIdMaxLength);
      var original := DecodePortion(Lookup(ms, "original"), [Key("original")]);
      var corrected := DecodePortion(Lookup(ms, "corrected"), [Key("corrected")]);
      var adjustments := DecodeAdjustments(Lookup(ms, "adjustments"), [Key("adjustments")]);
      var errors := FieldErrors(ms) + ExtraKeyErrors(ms);
      if errors == [] then
        Success(CorrectionIn(imageId.value, original.value, corrected.value, adjustments.value))
      else Failure(errors)
    case _ => Failure([FieldError([], NotAnObject)])
  }

  // ---------------------------------------------------------------------------
  // Completeness: a body that describes a valid payload, with no unknown
  // top-level key, decodes to exactly that payload. With the postcondition of
  // `Decode` this makes acceptance an if-and-only-if.

  lemma DecodePortionComplete(v: Option<Json>, p: DishPortion, loc: seq<PathItem>)
    requires ValidPortion(p) && DescribesPortion(v, p)
    ensures DecodePortion(v, loc) == Success(p)
  {
  }

  lemma DecodeAdjustmentComplete(v: Json, a: AdjustmentIn, loc: seq<PathItem>)
    requires ValidAdjustment(a) && DescribesAdjustment(v, a)
    ensures DecodeAdjustment(v, loc) == Success(a)
  {
    var ms := v.members;
    var notes := DecodeNotes(Lookup(ms, "notes"), loc + [Key("notes")]);
    assert notes == Success(a.notes);
  }

  lemma DescribesAdjustmentListTail(items: seq<Json>, adjs: seq<AdjustmentIn>)
    requires items != [] && ValidAdjustments(adjs) && DescribesAdjustmentList(items, adjs)
    ensures ValidAdjustments(adjs[1..]) && DescribesAdjustmentList(items[1..], adjs[1..])
  {
    forall i | 0 <= i < |adjs[1..]|
      ensures DescribesAdjustment(items[1..][i], adjs[1..][i]) && ValidAdjustment(adjs[1..][i])
    {
      assert items[1..][i] == items[i + 1] && adjs[1..][i] == adjs[i + 1];
    }
  }

  lemma DecodeAdjustmentListStep(items: seq<Json>, loc: seq<PathItem>, start: nat, a: AdjustmentIn, rest: seq<AdjustmentIn>)
    requires items != []
    requires DecodeAdjustment(items[0], loc + [Index(start)]) == Success(a)
    requires DecodeAdjustmentList(items[1..], loc, start + 1) == Success(rest)
    ensures DecodeAdjustmentList(items, loc, start) == Success([a] + rest)
  {
  }

  lemma {:induction false} DecodeAdjustmentListComplete(items: seq<Json>, adjs: seq<AdjustmentIn>, loc: seq<PathItem>, start: nat)
    requires ValidAdjustments(adjs) && DescribesAdjustmentList(items, adjs)
    ensures DecodeAdjustmentList(items, loc, start) == Success(adjs)
    decreases |items|
  {
    if items != [] {
      DecodeAdjustmentComplete(items[0], adjs[0], loc + [Index(start)]);
      DescribesAdjustmentListTail(items, adjs);
      DecodeAdjustmentListComplete(items[1..], adjs[1..], loc, start + 1);
      DecodeAdjustmentListStep(items, loc, start, adjs[0], adjs[1..]);
      assert [adjs[0]] + adjs[1..] == adjs;
    }
  }

  lemma DecodeAdjustmentsComplete(v: Option<Json>, adjs: Option<seq<AdjustmentIn>>, loc: seq<PathItem>)
    requires adjs.Some? ==> ValidAdjustments(adjs.value)
    requires DescribesAdjustments(v, adjs)
    ensures DecodeAdjustments(v, loc) == Success(adjs)
  {
    if adjs.Some? {
      DecodeAdjustmentListComplete(v.value.items, adjs.value, loc, 0);
    }
  }

  lemma DecodeComplete(j: Json, c: CorrectionIn)
    requires ValidCorrection(c) && Describes(j, c) && OnlyKnownKeys(j)
    ensures Decode(j) == Success(c)
  {
    var ms := j.members;
    DecodePortionComplete(Lookup(ms, "original"), c.original, [Key("original")]);
    DecodePortionComplete(Lookup(ms, "corrected"), c.corrected, [Key("corrected")]);
    DecodeAdjustmentsComplete(Lookup(ms, "adjustments"), c.adjustments, [Key("adjustments")]);
    assert DecodeString(Lookup(ms, "imageId"), [Key("imageId")], 1, ImageIdMaxLength) == Success(c.imageId);
    assert ExtraKeyErrors(ms) == [];
    DecodeOfParts(ms, c);
  }

  /** Every field decoded and no unknown key: the body decodes to the parts. */
  lemma DecodeOfParts(ms: seq<Member>, c: CorrectionIn)
    requires DecodeString(Lookup(ms, "imageId"), [Key("imageId")], 1, ImageIdMaxLength) == Success(c.imageId)
    requires DecodePortion(Lookup(ms, "original"), [Key("original")]) == Success(c.original)
    requires DecodePortion(Lookup(ms, "corrected"), [Key("corrected")]) == Success(c.corrected)
    requires DecodeAdjustments(Lookup(ms, "adjustments"), [Key("adjustments")]) == Success(c.adjustments)
    requires ExtraKeyErrors(ms) == []
    ensures Decode(JObj(ms)) == Success(c)
  {
  }

  // ---------------------------------------------------------------------------
  // Rejections.

  /** An unknown top-level key rejects the whole body, reported at that key;
      and such an error is reported only for unknown keys that are present. */
  lemma ExtraKeyRejected(j: Json, k: string)
    ensures (j.JObj? && k !in CorrectionKeys && exists i :: 0 <= i < |j.members| && j.members[i].key == k) ==>
      Decode(j).Failure? && FieldError([Key(k)], ExtraForbidden) in Decode(j).error
    ensures Decode(j).Failure? && FieldError([Key(k)], ExtraForbidden) in Decode(j).error ==>
      j.JObj? && k !in CorrectionKeys && exists i :: 0 <= i < |j.members| && j.members[i].key == k
  {
    if j.JObj? {
      var ms := j.members;
      assert Decode(j).Failure? <==> FieldErrors(ms) + ExtraKeyErrors(ms) != [];
      assert Decode(j).Failure? ==> Decode(j).error == FieldErrors(ms) + ExtraKeyErrors(ms);
      ForbiddenOnlyFromExtras(FieldErrors(ms), ExtraKeyErrors(ms), FieldError([Key(k)], ExtraForbidden));
    }
  }

  /** An `extra_forbidden` error among a failure's errors can only have come
      from the unknown-key check. */
  lemma ForbiddenOnlyFromExtras(fieldErrors: Errors, extras: Errors, e: FieldError)
    requires forall x :: x in fieldErrors ==> x.kind != ExtraForbidden
    requires e.kind == ExtraForbidden
    ensures e in fieldErrors + extras <==> e in extras
  {
  }

  /** A missing required top-level field is reported at its key. */
  lemma MissingFieldRejected(j: Json, key: string)
    requires key in {"imageId", "original", "corrected"}
    requires j.JObj? && Lookup(j.members, key).None?
    ensures Decode(j).Failure? && FieldError([Key(key)], Missing) in Decode(j).error
  {
  }

  /** A portion object without `grams` is reported at `grams`. */
  lemma MissingGramsRejected(v: Option<Json>, loc: seq<PathItem>)
    requires v.Some? && v.value.JObj? && Lookup(v.value.members, "grams").None?
    ensures DecodePortion(v, loc).Failure?
    ensures FieldError(loc + [Key("grams")], Missing) in DecodePortion(v, loc).error
  {
  }

  /** Nested objects carry no `extra="forbid"`: an unknown key appended to a
      portion changes nothing. */
  lemma PortionExtraKeyIgnored(ms: seq<Member>, extra: Member, loc: seq<PathItem>)
    requires extra.key !in {"name", "grams"}
    ensures DecodePortion(Some(JObj(ms + [extra])), loc) == DecodePortion(Some(JObj(ms)), loc)
  {
    LookupAppendOther(ms, extra, "name");
    LookupAppendOther(ms, extra, "grams");
  }

  /** Nor does an unknown key appended to an adjustment. */
  lemma AdjustmentExtraKeyIgnored(ms: seq<Member>, extra: Member, loc: seq<PathItem>)
    requires extra.key !in {"ingredient", "deltaGrams", "notes"}
    ensures DecodeAdjustment(JObj(ms + [extra]), loc) == DecodeAdjustment(JObj(ms), loc)
  {
    LookupAppendOther(ms, extra, "ingredient");
    LookupAppendOther(ms, extra, "deltaGrams");
    LookupAppendOther(ms, extra, "notes");
  }

  /** The top level does forbid it: the same append rejects a body. */
  lemma TopLevelExtraKeyRejected(ms: seq<Member>, extra: Member)
    requires extra.key !in CorrectionKeys
    ensures Decode(JObj(ms + [extra])).Failure?
  {
    var j := JObj(ms + [extra]);
    assert j.members[|ms|].key == extra.key;
    ExtraKeyRejected(j, extra.key);
  }

  // ---------------------------------------------------------------------------
  // Bounds.

  function PortionBody(name: string, grams: int): Json {
    JObj([Member("name", JStr(name)), Member("grams", JInt(grams))])
  }

  /** A portion is accepted exactly when its name has 1 to 200 characters and
      its weight is 1 to 10000 grams. */
  lemma PortionBounds(name: string, grams: int, loc: seq<PathItem>)
    ensures DecodePortion(Some(PortionBody(name, grams)), loc).Success? <==>
      1 <= |name| <= 200 && 1 <= grams <= 10000
  {
    var ms := PortionBody(name, grams).members;
    assert Lookup(ms, "name") == Some(JStr(name));
    assert Lookup(ms, "grams") == Some(JInt(grams));
  }

  lemma GramsBoundaries(loc: seq<PathItem>)
    ensures DecodePortion(Some(PortionBody("Test Dish", 0)), loc).Failure?
    ensures DecodePortion(Some(PortionBody("Test Dish", 10001)), loc).Failure?
    ensures DecodePortion(Some(PortionBody("Test Dish", 1)), loc).Success?
    ensures DecodePortion(Some(PortionBody("Test Dish", 10000)), loc).Success?
  {
    PortionBounds("Test Dish", 0, loc);
    PortionBounds("Test Dish", 10001, loc);
    PortionBounds("Test Dish", 1, loc);
    PortionBounds("Test Dish", 10000, loc);
  }

  // ---------------------------------------------------------------------------
  // The body a client sends for a payload, and the round trip through it.

  function PortionJson(p: DishPortion): Json {
    PortionBody(p.name, p.grams)
  }

  function AdjustmentJson(a: AdjustmentIn): Json {
    JObj([Member("ingredient", JStr(a.ingredient)), Member("deltaGrams", JInt(a.deltaGrams))]
      + (if a.notes.Some? then [Member("notes", JStr(a.notes.value))] else []))
  }

  function AdjustmentsJson(adjs: seq<AdjustmentIn>): Json {
    JArr(seq(|adjs|, i requires 0 <= i < |adjs| => AdjustmentJson(adjs[i])))
  }

  function RequestJson(c: CorrectionIn): Json {
    var original := Member("original", PortionJson(c.original));
    var corrected := Member("corrected", PortionJson(c.corrected));
    match c.adjustments
    case None => JObj([Member("imageId", JStr(c.imageId)), original, corrected])
    case Some(adjs) =>
      JObj([Member("imageId", JStr(c.imageId)), original, corrected, Member("adjustments", AdjustmentsJson(adjs))])
  }

  lemma DescribesAdjustmentJson(a: AdjustmentIn)
    ensures DescribesAdjustment(AdjustmentJson(a), a)
  {
    var ms := AdjustmentJson(a).members;
    LookupAt(ms, 0);
    LookupAt(ms, 1);
    if a.notes.Some? {
      LookupAt(ms, 2);
    } else {
      assert Lookup(ms, "notes") == None;
    }
  }

  lemma DescribesPortionJson(p: DishPortion)
    ensures DescribesPortion(Some(PortionJson(p)), p)
  {
    LookupAt(PortionJson(p).members, 0);
    LookupAt(PortionJson(p).members, 1);
  }

  lemma DescribesAdjustmentsJson(adjs: seq<AdjustmentIn>)
    ensures DescribesAdjustments(Some(AdjustmentsJson(adjs)), Some(adjs))
  {
    forall i | 0 <= i < |adjs| ensures DescribesAdjustment(AdjustmentsJson(adjs).items[i], adjs[i]) {
      DescribesAdjustmentJson(adjs[i]);
    }
  }

  lemma RequestJsonKnownKeys(c: CorrectionIn)
    ensures OnlyKnownKeys(RequestJson(c))
  {
  }

  lemma RequestJsonCommon(c: CorrectionIn)
    ensures RequestJson(c).JObj?
    ensures Lookup(RequestJson(c).members, "imageId") == Some(JStr(c.imageId))
    ensures Lookup(RequestJson(c).members, "original") == Some(PortionJson(c.original))
    ensures Lookup(RequestJson(c).members, "corrected") == Some(PortionJson(c.corrected))
  {
    var ms := RequestJson(c).members;
    LookupAt(ms, 0);
    LookupAt(ms, 1);
    LookupAt(ms, 2);
  }

  lemma RequestJsonAdjustments(c: CorrectionIn)
    ensures c.adjustments.None? ==> Lookup(RequestJson(c).members, "adjustments") == None
    ensures c.adjustments.Some? ==>
      Lookup(RequestJson(c).members, "adjustments") == Some(AdjustmentsJson(c.adjustments.value))
  {
    if c.adjustments.Some? {
      LookupAt(RequestJson(c).members, 3);
    }
  }

  lemma DescribesRequestJson(c: CorrectionIn)
    ensures Describes(RequestJson(c), c) && OnlyKnownKeys(RequestJson(c))
  {
    RequestJsonKnownKeys(c);
    RequestJsonCommon(c);
    RequestJsonAdjustments(c);
    DescribesPortionJson(c.original);
    DescribesPortionJson(c.corrected);
    if c.adjustments.Some? {
      DescribesAdjustmentsJson(c.adjustments.value);
    }
  }

  /** Validation accepts every valid payload as the client sends it, and
      returns it unchanged, adjustments in their order. */
  lemma DecodeRequestJson(c: CorrectionIn)
    requires ValidCorrection(c)
    ensures Decode(RequestJson(c)) == Success(c)
  {
    DescribesRequestJson(c);
    DecodeComplete(RequestJson(c), c);
  }

  // ---------------------------------------------------------------------------
  // Soundness for client bodies: such a body describes only its own payload,
  // so validation accepts it exactly when the payload is valid.

  lemma PortionJsonDescribesOnly(p: DishPortion, q: DishPortion)
    requires DescribesPortion(Some(PortionJson(p)), q)
    ensures q == p
  {
    DescribesPortionJson(p);
  }

  lemma AdjustmentJsonDescribesOnly(a: AdjustmentIn, b: AdjustmentIn)
    requires DescribesAdjustment(AdjustmentJson(a), b)
    ensures b == a
  {
    DescribesAdjustmentJson(a);
    assert b.notes == a.notes by {
      if a.notes.None? {
        assert Lookup(AdjustmentJson(a).members, "notes") == None;
      }
    }
  }

  lemma AdjustmentsJsonDescribesOnly(adjs: seq<AdjustmentIn>, x: Option<seq<AdjustmentIn>>)
    requires DescribesAdjustments(Some(AdjustmentsJson(adjs)), x)
    ensures x == Some(adjs)
  {
    var items := AdjustmentsJson(adjs).items;
    assert x.Some? && |x.value| == |items| == |adjs|;
    forall i | 0 <= i < |adjs| ensures x.value[i] == adjs[i] {
      assert items[i] == AdjustmentJson(adjs[i]);
      AdjustmentJsonDescribesOnly(adjs[i], x.value[i]);
    }
    assert x.value == adjs;
  }

  lemma RequestJsonDescribesOnly(c: CorrectionIn, d: CorrectionIn)
    requires Describes(RequestJson(c), d)
    ensures d == c
  {
    var ms := RequestJson(c).members;
    RequestJsonCommon(c);
    RequestJsonAdjustments(c);
    PortionJsonDescribesOnly(c.original, d.original);
    PortionJsonDescribesOnly(c.corrected, d.corrected);
    assert d.adjustments == c.adjustments by {
      if c.adjustments.Some? {
        AdjustmentsJsonDescribesOnly(c.adjustments.value, d.adjustments);
      }
    }
  }

  /** The body a client sends for `c` is accepted exactly when `c` meets
      every field constraint, and what is accepted is `c` itself. */
  lemma RequestAcceptedIffValid(c: CorrectionIn)
    ensures Decode(RequestJson(c)).Success? <==> ValidCorrection(c)
    ensures Decode(RequestJson(c)).Success? ==> Decode(RequestJson(c)).value == c
  {
    if ValidCorrection(c) {
      DecodeRequestJson(c);
    } else if Decode(RequestJson(c)).Success? {
      RequestJsonDescribesOnly(c, Decode(RequestJson(c)).value);
    }
  }

  /** An adjustment object is accepted exactly when its ingredient has 1 to
      100 characters and its notes, if any, at most 500; any `deltaGrams`,
      negative ones included, is accepted. */
  lemma AdjustmentBounds(a: AdjustmentIn, loc: seq<PathItem>)
    ensures DecodeAdjustment(AdjustmentJson(a), loc).Success? <==>
      1 <= |a.ingredient| <= 100 && (a.notes.Some? ==> |a.notes.value| <= 500)
    ensures DecodeAdjustment(AdjustmentJson(a), loc).Success? ==> DecodeAdjustment(AdjustmentJson(a), loc).value == a
  {
    var r := DecodeAdjustment(AdjustmentJson(a), loc);
    if ValidAdjustment(a) {
      DescribesAdjustmentJson(a);
      DecodeAdjustmentComplete(AdjustmentJson(a), a, loc);
    } else if r.Success? {
      AdjustmentJsonDescribesOnly(a, r.value);
    }
  }

  /** The image id cases of the validation tests: empty and 201 characters
      are rejected, 1 and 200 characters accepted. */
  lemma ImageIdBoundaries(c: CorrectionIn)
    requires ValidPortion(c.original) && ValidPortion(c.corrected) && c.adjustments.None?
    ensures c.imageId == "" ==> Decode(RequestJson(c)).Failure?
    ensures |c.imageId| == 201 ==> Decode(RequestJson(c)).Failure?
    ensures |c.imageId| == 1 || |c.imageId| == 200 ==> Decode(RequestJson(c)) == Success(c)
  {
    RequestAcceptedIffValid(c);
  }
}
