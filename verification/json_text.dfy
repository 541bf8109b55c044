/** JSON values and the text Python's `json.dumps` writes for them with its
    default settings: `", "` and `": "` separators, members in insertion order,
    and `ensure_ascii`, so every character outside printable ASCII is written
    as a `\uXXXX` escape (a surrogate pair above U+FFFF). */
module JsonText {
  import opened Wrappers
  import opened Text

  /** A parsed JSON document. Objects keep their members in order, as a Python
      dict does; numbers are integers only. */
  datatype Json =
    | JNull
    | JBool(b: bool)
    | JInt(i: int)
    | JStr(s: string)
    | JArr(items: seq<Json>)
    | JObj(members: seq<Member>)

  datatype Member = Member(key: string, value: Json)

  /** The value a Python dict built from `ms` holds under `key`: when a key
      repeats, the last occurrence wins, as in `json.loads`. */
  function Lookup(ms: seq<Member>, key: string): (r: Option<Json>)
    ensures r.None? <==> forall i :: 0 <= i < |ms| ==> ms[i].key != key
    ensures r.Some? ==>
      exists i :: 0 <= i < |ms| && ms[i] == Member(key, r.value) &&
        forall j :: i < j < |ms| ==> ms[j].key != key
  {
    if ms == [] then None
    else
      var rest := Lookup(ms[1..], key);
      if rest.Some? then
        ghost var i :| 0 <= i < |ms[1..]| && ms[1..][i] == Member(key, rest.value) &&
          forall j :: i < j < |ms[1..]| ==> ms[1..][j].key != key;
        assert ms[i + 1] == Member(key, rest.value);
        assert forall j :: i + 1 < j < |ms| ==> ms[j] == ms[1..][j - 1];
        rest
      else if ms[0].key == key then
        assert forall j :: 0 < j < |ms| ==> ms[j] == ms[1..][j - 1];
        Some(ms[0].value)
      else
        assert forall j :: 0 < j < |ms| ==> ms[j] == ms[1..][j - 1];
        None
  }

  /** The value at the last occurrence of a key is the one looked up. */
  lemma LookupAt(ms: seq<Member>, i: nat)
    requires i < |ms| && forall j :: i < j < |ms| ==> ms[j].key != ms[i].key
    ensures Lookup(ms, ms[i].key) == Some(ms[i].value)
  {
  }

  lemma LookupAppendOther(ms: seq<Member>, m: Member, key: string)
    requires m.key != key
    ensures Lookup(ms + [m], key) == Lookup(ms, key)
  {
    assert (ms + [m])[..|ms|] == ms;
  }

  /** Every character is printable ASCII, from space to tilde. */
  predicate Printable(s: string) {
    s == [] || (' ' <= s[0] <= '~' && Printable(s[1..]))
  }

  lemma {:induction false} PrintableConcat(a: string, b: string)
    requires Printable(a) && Printable(b)
    ensures Printable(a + b)
  {
    if a != [] {
      assert (a + b)[0] == a[0];
      assert (a + b)[1..] == a[1..] + b;
      PrintableConcat(a[1..], b);
    } else {
      assert a + b == b;
    }
  }

  lemma {:induction false} PrintableOfChars(s: string)
    requires forall i :: 0 <= i < |s| ==> ' ' <= s[i] <= '~'
    ensures Printable(s)
  {
    if s != [] {
      assert forall i :: 0 <= i < |s[1..]| ==> s[1..][i] == s[i + 1];
      PrintableOfChars(s[1..]);
    }
  }

  lemma {:induction false} PrintableHasNoBreak(s: string)
    requires Printable(s)
    ensures '\n' !in s && '\r' !in s
  {
    if s != [] {
      PrintableHasNoBreak(s[1..]);
      assert s == [s[0]] + s[1..];
    }
  }

  /** How `json.dumps` writes one character of a string. */
  function EscapeChar(c: char): (r: string)
    ensures 1 <= |r| && r[0] != '"'
    ensures |r| == 1 <==> ' ' <= c <= '~' && c != '"' && c != '\\'
  {
    if c == '"' then "\\\""
    else if c == '\\' then "\\\\"
    else if c == '\n' then "\\n"
    else if c == '\r' then "\\r"
    else if c == '\t' then "\\t"
    else if c as int == 0x08 then "\\b"
    else if c as int == 0x0C then "\\f"
    else if ' ' <= c <= '~' then [c]
    else if c as int < 0x1_0000 then "\\u" + Hex4(c as int)
    else
      var n := c as int - 0x1_0000;
      "\\u" + Hex4(0xD800 + n / 0x400) + "\\u" + Hex4(0xDC00 + n % 0x400)
  }

  function EscapeString(s: string): (r: string)
    ensures |r| >= |s|
  {
    if s == [] then [] else EscapeChar(s[0]) + EscapeString(s[1..])
  }

  /** A JSON string literal. */
  function Quote(s: string): (r: string)
    ensures |r| >= 2 && r[0] == '"'
  {
    "\"" + EscapeString(s) + "\""
  }

  /** `json.dumps(v)`. */
  function Dumps(v: Json): (r: string)
    ensures |r| >= 1 && r[0] != ']' && r[0] != '}'
    decreases v
  {
    match v
    case JNull => "null"
    case JBool(b) => if b then "true" else "false"
    case JInt(i) => IntToString(i)
    case JStr(s) => Quote(s)
    case JArr(items) => "[" + DumpsItems(items) + "]"
    case JObj(ms) => "{" + DumpsMembers(ms) + "}"
  }

  function DumpsItems(items: seq<Json>): (r: string)
    ensures items != [] ==> |r| >= 1 && r[0] != ']' && r[0] != '}'
    decreases items
  {
    if items == [] then ""
    else if |items| == 1 then Dumps(items[0])
    else Dumps(items[0]) + ", " + DumpsItems(items[1..])
  }

  function DumpsMember(m: Member): (r: string)
    ensures |r| >= 1 && r[0] == '"'
    decreases m
  {
    Quote(m.key) + ": " + Dumps(m.value)
  }

  function DumpsMembers(ms: seq<Member>): (r: string)
    ensures ms != [] ==> |r| >= 1 && r[0] == '"'
    decreases ms
  {
    if ms == [] then ""
    else if |ms| == 1 then DumpsMember(ms[0])
    else DumpsMember(ms[0]) + ", " + DumpsMembers(ms[1..])
  }

  // ---------------------------------------------------------------------------
  // With `ensure_ascii`, the output is printable ASCII throughout.

  lemma EscapeCharPrintable(c: char)
    ensures Printable(EscapeChar(c))
  {
    if ' ' <= c <= '~' || c == '\n' || c == '\r' || c == '\t' || c as int == 0x08 || c as int == 0x0C {
      PrintableOfChars(EscapeChar(c));
    } else if c as int < 0x1_0000 {
      UnitEscapePrintable(Hex4(c as int));
    } else {
      AstralEscapePrintable(c);
    }
  }

  lemma AstralEscapePrintable(c: char)
    requires c as int >= 0x1_0000
    ensures Printable(EscapeChar(c))
  {
    var n := c as int - 0x1_0000;
    EscapeCharAstral(c);
    PairEscapePrintable(Hex4(0xD800 + n / 0x400), Hex4(0xDC00 + n % 0x400));
  }

  /** A character outside the Basic Multilingual Plane is written as its
      UTF-16 surrogate pair. */
  lemma EscapeCharAstral(c: char)
    requires c as int >= 0x1_0000
    ensures var n := c as int - 0x1_0000;
      EscapeChar(c) == "\\u" + Hex4(0xD800 + n / 0x400) + "\\u" + Hex4(0xDC00 + n % 0x400)
  {
  }

  /** Two `\uXXXX` escapes in a row are printable. */
  lemma PairEscapePrintable(hi: string, lo: string)
    requires forall i :: 0 <= i < |hi| ==> ' ' <= hi[i] <= '~'
    requires forall i :: 0 <= i < |lo| ==> ' ' <= lo[i] <= '~'
    ensures Printable("\\u" + hi + "\\u" + lo)
  {
    UnitEscapePrintable(hi);
    UnitEscapePrintable(lo);
    PrintableConcat("\\u" + hi, "\\u" + lo);
    assert "\\u" + hi + "\\u" + lo == ("\\u" + hi) + ("\\u" + lo);
  }

  /** A `\uXXXX` escape is printable. */
  lemma UnitEscapePrintable(digits: string)
    requires forall i :: 0 <= i < |digits| ==> ' ' <= digits[i] <= '~'
    ensures Printable("\\u" + digits)
  {
    PrintableOfChars("\\u");
    PrintableOfChars(digits);
    PrintableConcat("\\u", digits);
  }

  lemma {:induction false} EscapeStringPrintable(s: string)
    ensures Printable(EscapeString(s))
  {
    if s != [] {
      EscapeCharPrintable(s[0]);
      EscapeStringPrintable(s[1..]);
      PrintableConcat(EscapeChar(s[0]), EscapeString(s[1..]));
    }
  }

  lemma {:induction false} DigitsPrintable(d: string)
    requires AllDigits(d)
    ensures Printable(d)
  {
    if d != [] {
      assert AllDigits(d[1..]) by {
        forall i | 0 <= i < |d[1..]| ensures IsDigit(d[1..][i]) {
          assert d[1..][i] == d[i + 1];
        }
      }
      DigitsPrintable(d[1..]);
    }
  }

  lemma IntToStringPrintable(i: int)
    ensures Printable(IntToString(i))
  {
    if i < 0 {
      DigitsPrintable(NatToString(-i));
      PrintableConcat("-", NatToString(-i));
    } else {
      DigitsPrintable(NatToString(i));
    }
  }

  lemma PrintableJoin3(a: string, b: string, c: string)
    requires Printable(a) && Printable(b) && Printable(c)
    ensures Printable(a + b + c)
  {
    PrintableConcat(a, b);
    PrintableConcat(a + b, c);
  }

  lemma {:induction false} DumpsPrintable(v: Json)
    ensures Printable(Dumps(v))
    decreases v
  {
    match v
    case JNull => PrintableOfChars("null");
    case JBool(_) => PrintableOfChars("true"); PrintableOfChars("false");
    case JInt(i) => IntToStringPrintable(i);
    case JStr(s) => EscapeStringPrintable(s); PrintableJoin3("\"", EscapeString(s), "\"");
    case JArr(items) => DumpsItemsPrintable(items); PrintableJoin3("[", DumpsItems(items), "]");
    case JObj(ms) => DumpsMembersPrintable(ms); PrintableJoin3("{", DumpsMembers(ms), "}");
  }

  lemma {:induction false} DumpsItemsPrintable(items: seq<Json>)
    ensures Printable(DumpsItems(items))
    decreases items
  {
    if items == [] {
    } else if |items| == 1 {
      DumpsPrintable(items[0]);
    } else {
      DumpsPrintable(items[0]);
      DumpsItemsPrintable(items[1..]);
      PrintableJoin3(Dumps(items[0]), ", ", DumpsItems(items[1..]));
    }
  }

  lemma {:induction false} DumpsMembersPrintable(ms: seq<Member>)
    ensures Printable(DumpsMembers(ms))
    decreases ms
  {
    if ms != [] {
      var m := ms[0];
      EscapeStringPrintable(m.key);
      PrintableJoin3("\"", EscapeString(m.key), "\"");
      DumpsPrintable(m.value);
      PrintableJoin3(Quote(m.key), ": ", Dumps(m.value));
      if |ms| > 1 {
        DumpsMembersPrintable(ms[1..]);
        PrintableJoin3(DumpsMember(m), ", ", DumpsMembers(ms[1..]));
      }
    }
  }

  /** A JSON text never spans lines: `json.dumps` escapes every line break. */
  lemma DumpsIsOneLine(v: Json)
    ensures '\n' !in Dumps(v) && '\r' !in Dumps(v)
  {
    DumpsPrintable(v);
    PrintableHasNoBreak(Dumps(v));
  }
}
