/** A reader for the JSON text `JsonText.Dumps` writes: the dialect a client
    sees when it parses an exported line with `json.loads`. It accepts exactly
    the separators `json.dumps` uses and no other whitespace. */
module JsonRead {
  import opened Wrappers
  import opened Text
  import opened JsonText

  /** The length of the run of decimal digits at the head of `s`. */
  function DigitRun(s: string): (n: nat)
    ensures n <= |s| && AllDigits(s[..n])
    ensures n < |s| ==> !IsDigit(s[n])
  {
    if s == [] || !IsDigit(s[0]) then 0
    else
      var n := 1 + DigitRun(s[1..]);
      assert s[..n] == [s[0]] + s[1..][..n - 1];
      n
  }

  function ReadNumber(s: string): (r: Option<(Json, string)>)
    ensures r.Some? ==> |r.value.1| < |s|
  {
    if |s| >= 1 && s[0] == '-' then
      var n := DigitRun(s[1..]);
      if n == 0 then None else Some((JInt(0 - DigitsValue(s[1..][..n]) as int), s[1..][n..]))
    else
      var n := DigitRun(s);
      if n == 0 then None else Some((JInt(DigitsValue(s[..n])), s[n..]))
  }

  predicate AllHex(s: string) { forall i :: 0 <= i < |s| ==> IsHexDigit(s[i]) }

  /** One character of a string literal: a plain printable character or an
      escape, a `\uXXXX\uXXXX` surrogate pair standing for one character. */
  function ReadChar(s: string): (r: Option<(char, string)>)
    ensures r.Some? ==> |r.value.1| < |s|
  {
    if s == [] then None
    else if s[0] != '\\' then
      if ' ' <= s[0] <= '~' && s[0] != '"' then Some((s[0], s[1..])) else None
    else if |s| < 2 then None
    else if s[1] == '"' then Some(('"', s[2..]))
    else if s[1] == '\\' then Some(('\\', s[2..]))
    else if s[1] == 'n' then Some(('\n', s[2..]))
    else if s[1] == 'r' then Some(('\r', s[2..]))
    else if s[1] == 't' then Some(('\t', s[2..]))
    else if s[1] == 'b' then Some((0x08 as char, s[2..]))
    else if s[1] == 'f' then Some((0x0C as char, s[2..]))
    else if s[1] == 'u' && |s| >= 6 && AllHex(s[2..6]) then
      var u := Hex4Value(s[2..6]);
      if u < 0xD800 || 0xE000 <= u then Some((u as char, s[6..]))
      else if u < 0xDC00 && |s| >= 12 && s[6..8] == "\\u" && AllHex(s[8..12]) then
        var l := Hex4Value(s[8..12]);
        if 0xDC00 <= l < 0xE000 then
          Some(((0x1_0000 + (u - 0xD800) * 0x400 + (l - 0xDC00)) as char, s[12..]))
        else None
      else None
    else None
  }

  /** The rest of a string literal after its opening quote: its characters and
      the text after its closing quote. */
  function ReadString(s: string): (r: Option<(string, string)>)
    ensures r.Some? ==> |r.value.1| < |s|
    decreases |s|
  {
    if s == [] then None
    else if s[0] == '"' then Some(([], s[1..]))
    else
      match ReadChar(s)
      case None => None
      case Some((c, rest)) =>
        match ReadString(rest)
        case None => None
        case Some((t, rest')) => Some(([c] + t, rest'))
  }

  /** One JSON value at the head of `s`, and the text after it. */
  function ReadValue(s: string): (r: Option<(Json, string)>)
    ensures r.Some? ==> |r.value.1| < |s|
    decreases |s|, 1
  {
    if s == [] then None
    else if s[0] == 'n' then
      if |s| >= 4 && s[..4] == "null" then Some((JNull, s[4..])) else None
    else if s[0] == 't' then
      if |s| >= 4 && s[..4] == "true" then Some((JBool(true), s[4..])) else None
    else if s[0] == 'f' then
      if |s| >= 5 && s[..5] == "false" then Some((JBool(false), s[5..])) else None
    else if s[0] == '-' || IsDigit(s[0]) then ReadNumber(s)
    else if s[0] == '"' then
      match ReadString(s[1..])
      case None => None
      case Some((t, rest)) => Some((JStr(t), rest))
    else if s[0] == '[' then
      if |s| >= 2 && s[1] == ']' then Some((JArr([]), s[2..]))
      else
        match ReadItems(s[1..])
        case None => None
        case Some((items, rest)) => Some((JArr(items), rest))
    else if s[0] == '{' then
      if |s| >= 2 && s[1] == '}' then Some((JObj([]), s[2..]))
      else
        match ReadMembers(s[1..])
        case None => None
        case Some((ms, rest)) => Some((JObj(ms), rest))
    else None
  }

  /** The elements of a non-empty array and its closing bracket. */
  function ReadItems(s: string): (r: Option<(seq<Json>, string)>)
    ensures r.Some? ==> |r.value.1| < |s|
    decreases |s|, 2
  {
    match ReadValue(s)
    case None => None
    case Some((v, rest)) =>
      if |rest| >= 1 && rest[0] == ']' then Some(([v], rest[1..]))
      else if |rest| >= 2 && rest[..2] == ", " then
        match ReadItems(rest[2..])
        case None => None
        case Some((vs, rest')) => Some(([v] + vs, rest'))
      else None
  }

  /** The members of a non-empty object and its closing brace. */
  function ReadMembers(s: string): (r: Option<(seq<Member>, string)>)
    ensures r.Some? ==> |r.value.1| < |s|
    decreases |s|, 2
  {
    if s == [] || s[0] != '"' then None
    else
      match ReadString(s[1..])
      case None => None
      case Some((k, rest)) =>
        if |rest| >= 2 && rest[..2] == ": " then
          match ReadValue(rest[2..])
          case None => None
          case Some((v, rest2)) =>
            if |rest2| >= 1 && rest2[0] == '}' then Some(([Member(k, v)], rest2[1..]))
            else if |rest2| >= 2 && rest2[..2] == ", " then
              match ReadMembers(rest2[2..])
              case None => None
              case Some((ms, rest3)) => Some(([Member(k, v)] + ms, rest3))
            else None
        else None
  }

  /** `json.loads` of a whole text: one value and nothing after it. */
  function Loads(s: string): (r: Option<Json>)
    ensures r.Some? ==> s != []
  {
    match ReadValue(s)
    case Some((v, rest)) => if rest == [] then Some(v) else None
    case None => None
  }

  // ---------------------------------------------------------------------------
  // The reader inverts the writer.

  /** What may follow a value without being mistaken for more of it. */
  predicate EndsValue(rest: string) { rest == [] || !IsDigit(rest[0]) }

  lemma {:induction false} DigitRunOfDigits(d: string, rest: string)
    requires AllDigits(d) && EndsValue(rest)
    ensures DigitRun(d + rest) == |d|
  {
    if d != [] {
      assert (d + rest)[1..] == d[1..] + rest;
      DigitRunOfDigits(d[1..], rest);
    }
  }

  lemma ReadNumberOfDigits(d: string, rest: string)
    requires d != [] && AllDigits(d) && EndsValue(rest)
    ensures ReadNumber(d + rest) == Some((JInt(DigitsValue(d)), rest))
  {
    var s := d + rest;
    DigitRunOfDigits(d, rest);
    assert s[..|d|] == d;
    assert s[|d|..] == rest;
  }

  lemma ReadNumberOfNegative(s: string, d: string, rest: string)
    requires d != [] && AllDigits(d) && EndsValue(rest)
    requires |s| >= 1 && s[0] == '-' && s[1..] == d + rest
    ensures ReadNumber(s) == Some((JInt(0 - DigitsValue(d) as int), rest))
  {
    var t := d + rest;
    DigitRunOfDigits(d, rest);
    assert t[..|d|] == d;
    assert t[|d|..] == rest;
  }

  lemma ReadNumberOfInt(i: int, rest: string)
    requires EndsValue(rest)
    ensures ReadNumber(IntToString(i) + rest) == Some((JInt(i), rest))
  {
    if i < 0 {
      var n: nat := -i;
      var d := NatToString(n);
      DigitsValueOfNatToString(n);
      assert IntToString(i) == "-" + d;
      var s := IntToString(i) + rest;
      assert s[1..] == d + rest;
      ReadNumberOfNegative(s, d, rest);
    } else {
      ReadNumberOfDigits(NatToString(i), rest);
      DigitsValueOfNatToString(i);
    }
  }

  lemma ReadCharOfEscape(c: char, more: string)
    ensures ReadChar(EscapeChar(c) + more) == Some((c, more))
  {
    if c == '"' || c == '\\' || c == '\n' || c == '\r' || c == '\t' || c as int == 0x08 || c as int == 0x0C {
      ReadCharOfShortEscape(c, more);
    } else if ' ' <= c <= '~' {
      ReadCharOfPlain(c, more);
    } else if c as int < 0x1_0000 {
      ReadCharOfUnitEscape(c, more);
    } else {
      ReadCharOfPairEscape(c, more);
    }
  }

  lemma ReadCharOfShortEscape(c: char, more: string)
    requires c == '"' || c == '\\' || c == '\n' || c == '\r' || c == '\t' || c as int == 0x08 || c as int == 0x0C
    ensures ReadChar(EscapeChar(c) + more) == Some((c, more))
  {
    var s := EscapeChar(c) + more;
    assert s[2..] == more;
  }

  lemma ReadCharOfPlain(c: char, more: string)
    requires ' ' <= c <= '~' && c != '"' && c != '\\'
    ensures ReadChar(EscapeChar(c) + more) == Some((c, more))
  {
    var s := EscapeChar(c) + more;
    assert s[1..] == more;
  }

  lemma ReadCharOfUnitEscape(c: char, more: string)
    requires !(' ' <= c <= '~') && c != '\n' && c != '\r' && c != '\t' && c as int != 0x08 && c as int != 0x0C
    requires c as int < 0x1_0000
    ensures ReadChar(EscapeChar(c) + more) == Some((c, more))
  {
    var s := EscapeChar(c) + more;
    assert s[2..6] == Hex4(c as int);
    assert s[6..] == more;
    ReadCharOfUnit(s, c as int, more);
  }

  lemma ReadCharOfPairEscape(c: char, more: string)
    requires c as int >= 0x1_0000
    ensures ReadChar(EscapeChar(c) + more) == Some((c, more))
  {
    var n := c as int - 0x1_0000;
    var hi, lo := 0xD800 + n / 0x400, 0xDC00 + n % 0x400;
    SurrogatesJoin(c as int);
    EscapeCharAstral(c);
    PairText(EscapeChar(c) + more, Hex4(hi), Hex4(lo), more);
    ReadCharOfPair(EscapeChar(c) + more, hi, lo, c as int, more);
  }

  lemma PairText(s: string, h1: string, h2: string, more: string)
    requires |h1| == 4 && |h2| == 4 && s == "\\u" + h1 + "\\u" + h2 + more
    ensures |s| >= 12 && s[0] == '\\' && s[1] == 'u' && s[2..6] == h1
    ensures s[6..8] == "\\u" && s[8..12] == h2 && s[12..] == more
  {
  }

  /** A `\uXXXX` escape of a character outside the surrogate range. */
  lemma ReadCharOfUnit(s: string, u: nat, more: string)
    requires u < 0xD800 || 0xE000 <= u < 0x1_0000
    requires |s| >= 6 && s[0] == '\\' && s[1] == 'u' && s[2..6] == Hex4(u) && s[6..] == more
    ensures ReadChar(s) == Some((u as char, more))
  {
    Hex4RoundTrip(u);
  }

  /** A `\uXXXX\uXXXX` surrogate pair standing for code point `v`. */
  lemma ReadCharOfPair(s: string, hi: nat, lo: nat, v: int, more: string)
    requires 0xD800 <= hi < 0xDC00 && 0xDC00 <= lo < 0xE000
    requires v == 0x1_0000 + (hi - 0xD800) * 0x400 + (lo - 0xDC00)
    requires |s| >= 12 && s[0] == '\\' && s[1] == 'u' && s[2..6] == Hex4(hi)
    requires s[6..8] == "\\u" && s[8..12] == Hex4(lo) && s[12..] == more
    ensures 0x1_0000 <= v < 0x11_0000
    ensures ReadChar(s) == Some((v as char, more))
  {
    Hex4RoundTrip(hi);
    Hex4RoundTrip(lo);
  }

  /** The two surrogates `json.dumps` writes for a code point beyond the
      Basic Multilingual Plane join back into it. */
  lemma SurrogatesJoin(v: int)
    requires 0x1_0000 <= v < 0x11_0000
    ensures var n := v - 0x1_0000;
      && 0xD800 <= 0xD800 + n / 0x400 < 0xDC00 && 0xDC00 <= 0xDC00 + n % 0x400 < 0xE000
      && 0x1_0000 + ((0xD800 + n / 0x400) - 0xD800) * 0x400 + ((0xDC00 + n % 0x400) - 0xDC00) == v
  {
  }

  lemma {:induction false} ReadStringOfQuote(t: string, rest: string)
    ensures ReadString(EscapeString(t) + "\"" + rest) == Some((t, rest))
  {
    if t == [] {
      assert EscapeString(t) + "\"" + rest == "\"" + rest;
    } else {
      ReadStringOfQuote(t[1..], rest);
      EscapeStringText(t, rest);
      ReadStringStep(t[0], EscapeString(t[1..]) + "\"" + rest, t[1..], rest);
      assert [t[0]] + t[1..] == t;
    }
  }

  lemma EscapeStringText(t: string, rest: string)
    requires t != []
    ensures EscapeString(t) + "\"" + rest == EscapeChar(t[0]) + (EscapeString(t[1..]) + "\"" + rest)
  {
  }

  /** One escaped character, then the rest of the literal. */
  lemma ReadStringStep(c: char, more: string, t: string, rest: string)
    requires ReadString(more) == Some((t, rest))
    ensures ReadString(EscapeChar(c) + more) == Some(([c] + t, rest))
  {
    ReadCharOfEscape(c, more);
  }

  // Each step below is a lemma of its own: a proof that unfolds the reader
  // and the writer together is more than the solver can take in one piece.

  lemma ReadValueOfArrayText(s: string, inner: string, items: seq<Json>, rest: string)
    requires ReadItems(inner) == Some((items, rest))
    requires |s| >= 2 && s[0] == '[' && s[1] != ']' && s[1..] == inner
    ensures ReadValue(s) == Some((JArr(items), rest))
  {
  }

  lemma ReadValueOfObjectText(s: string, inner: string, ms: seq<Member>, rest: string)
    requires ReadMembers(inner) == Some((ms, rest))
    requires |s| >= 2 && s[0] == '{' && s[1] != '}' && s[1..] == inner
    ensures ReadValue(s) == Some((JObj(ms), rest))
  {
  }

  lemma DumpsArrayText(items: seq<Json>, rest: string)
    ensures Dumps(JArr(items)) + rest == "[" + (DumpsItems(items) + "]" + rest)
  {
  }

  lemma DumpsObjectText(ms: seq<Member>, rest: string)
    ensures Dumps(JObj(ms)) + rest == "{" + (DumpsMembers(ms) + "}" + rest)
  {
  }

  lemma ReadArrayOfDumps(items: seq<Json>, rest: string)
    requires items != [] ==> ReadItems(DumpsItems(items) + "]" + rest) == Some((items, rest))
    ensures ReadValue(Dumps(JArr(items)) + rest) == Some((JArr(items), rest))
  {
    DumpsArrayText(items, rest);
    var inner := DumpsItems(items) + "]" + rest;
    var s := "[" + inner;
    if items == [] {
      assert s[1] == ']' && s[2..] == rest;
    } else {
      assert s[1..] == inner && s[1] == inner[0];
      ReadValueOfArrayText(s, inner, items, rest);
    }
  }

  lemma ReadObjectOfDumps(ms: seq<Member>, rest: string)
    requires ms != [] ==> ReadMembers(DumpsMembers(ms) + "}" + rest) == Some((ms, rest))
    ensures ReadValue(Dumps(JObj(ms)) + rest) == Some((JObj(ms), rest))
  {
    DumpsObjectText(ms, rest);
    var inner := DumpsMembers(ms) + "}" + rest;
    var s := "{" + inner;
    if ms == [] {
      assert s[1] == '}' && s[2..] == rest;
    } else {
      assert s[1..] == inner && s[1] == inner[0];
      ReadValueOfObjectText(s, inner, ms, rest);
    }
  }

  lemma ReadStringOfDumps(t: string, rest: string)
    ensures ReadValue(Dumps(JStr(t)) + rest) == Some((JStr(t), rest))
  {
    var s := Dumps(JStr(t)) + rest;
    assert s[1..] == EscapeString(t) + "\"" + rest;
    ReadStringOfQuote(t, rest);
  }

  lemma ReadLiteralOfDumps(v: Json, rest: string)
    requires v.JNull? || v.JBool?
    ensures ReadValue(Dumps(v) + rest) == Some((v, rest))
  {
    var s := Dumps(v) + rest;
    if v.JNull? {
      assert s[..4] == "null" && s[4..] == rest;
    } else if v.b {
      assert s[..4] == "true" && s[4..] == rest;
    } else {
      assert s[..5] == "false" && s[5..] == rest;
    }
  }

  lemma ReadIntOfDumps(i: int, rest: string)
    requires EndsValue(rest)
    ensures ReadValue(Dumps(JInt(i)) + rest) == Some((JInt(i), rest))
  {
    ReadNumberOfInt(i, rest);
    var s := IntToString(i) + rest;
    assert s[0] == '-' || IsDigit(s[0]);
  }

  /** Reading what `Dumps` wrote gives back the value and leaves the rest. */
  lemma {:induction false} ReadDumps(v: Json, rest: string)
    requires EndsValue(rest)
    ensures ReadValue(Dumps(v) + rest) == Some((v, rest))
    decreases v
  {
    match v
    case JNull => ReadLiteralOfDumps(v, rest);
    case JBool(_) => ReadLiteralOfDumps(v, rest);
    case JInt(i) => ReadIntOfDumps(i, rest);
    case JStr(t) => ReadStringOfDumps(t, rest);
    case JArr(items) =>
      if items != [] { ReadItemsDumps(items, rest); }
      ReadArrayOfDumps(items, rest);
    case JObj(ms) =>
      if ms != [] { ReadMembersDumps(ms, rest); }
      ReadObjectOfDumps(ms, rest);
  }

  lemma ReadItemsLast(s: string, v: Json, after: string)
    requires ReadValue(s) == Some((v, after))
    requires |after| >= 1 && after[0] == ']'
    ensures ReadItems(s) == Some(([v], after[1..]))
  {
  }

  lemma ReadItemsNext(s: string, v: Json, after: string, vs: seq<Json>, rest: string)
    requires ReadValue(s) == Some((v, after))
    requires |after| >= 2 && after[..2] == ", " && ReadItems(after[2..]) == Some((vs, rest))
    ensures ReadItems(s) == Some(([v] + vs, rest))
  {
    assert after[0] == ',';
  }


  lemma DumpsItemsText(items: seq<Json>, rest: string)
    requires items != []
    ensures |items| == 1 ==> DumpsItems(items) + "]" + rest == Dumps(items[0]) + ("]" + rest)
    ensures |items| > 1 ==>
      DumpsItems(items) + "]" + rest == Dumps(items[0]) + (", " + (DumpsItems(items[1..]) + "]" + rest))
  {
    if |items| == 1 {
      assert DumpsItems(items) == Dumps(items[0]);
    } else {
      var a, b := Dumps(items[0]), DumpsItems(items[1..]);
      assert DumpsItems(items) == a + ", " + b;
      Regroup(a, ", ", b, "]", rest);
    }
  }

  lemma {:induction false} ReadItemsDumps(items: seq<Json>, rest: string)
    requires items != []
    ensures ReadItems(DumpsItems(items) + "]" + rest) == Some((items, rest))
    decreases items, 1
  {
    if |items| == 1 {
      ReadOneItemDumps(items, rest);
    } else {
      ReadItemsDumps(items[1..], rest);
      ReadMoreItemsDumps(items, rest);
    }
  }

  lemma ReadOneItemDumps(items: seq<Json>, rest: string)
    requires |items| == 1
    ensures ReadItems(DumpsItems(items) + "]" + rest) == Some((items, rest))
    decreases items, 0
  {
    DumpsItemsText(items, rest);
    var after := "]" + rest;
    ReadDumps(items[0], after);
    assert after[1..] == rest;
    ReadItemsLast(Dumps(items[0]) + after, items[0], after);
    assert [items[0]] == items;
  }

  lemma ReadMoreItemsDumps(items: seq<Json>, rest: string)
    requires |items| > 1 && ReadItems(DumpsItems(items[1..]) + "]" + rest) == Some((items[1..], rest))
    ensures ReadItems(DumpsItems(items) + "]" + rest) == Some((items, rest))
    decreases items, 0
  {
    DumpsItemsText(items, rest);
    var inner := DumpsItems(items[1..]) + "]" + rest;
    ReadDumps(items[0], ", " + inner);
    ReadValueThenItems(Dumps(items[0]), items[0], inner, items[1..], rest);
    assert [items[0]] + items[1..] == items;
  }

  /** A value, `, ` and further elements. */
  lemma ReadValueThenItems(t: string, v: Json, inner: string, vs: seq<Json>, rest: string)
    requires ReadValue(t + (", " + inner)) == Some((v, ", " + inner))
    requires ReadItems(inner) == Some((vs, rest))
    ensures ReadItems(t + (", " + inner)) == Some(([v] + vs, rest))
  {
    var after := ", " + inner;
    assert after[..2] == ", " && after[2..] == inner;
    ReadItemsNext(t + after, v, after, vs, rest);
  }

  lemma ReadMembersLast(s: string, k: string, afterKey: string, v: Json, after: string)
    requires |s| >= 1 && s[0] == '"' && ReadString(s[1..]) == Some((k, afterKey))
    requires |afterKey| >= 2 && afterKey[..2] == ": " && ReadValue(afterKey[2..]) == Some((v, after))
    requires |after| >= 1 && after[0] == '}'
    ensures ReadMembers(s) == Some(([Member(k, v)], after[1..]))
  {
  }

  lemma ReadMembersNext(s: string, k: string, afterKey: string, v: Json, after: string,
                        ms: seq<Member>, rest: string)
    requires |s| >= 1 && s[0] == '"' && ReadString(s[1..]) == Some((k, afterKey))
    requires |afterKey| >= 2 && afterKey[..2] == ": " && ReadValue(afterKey[2..]) == Some((v, after))
    requires |after| >= 2 && after[..2] == ", " && ReadMembers(after[2..]) == Some((ms, rest))
    ensures ReadMembers(s) == Some(([Member(k, v)] + ms, rest))
  {
  }

  /** The text of a one-member object, regrouped around its closing brace. */
  lemma DumpsOneMemberText(ms: seq<Member>, rest: string)
    requires |ms| == 1
    ensures DumpsMembers(ms) + "}" + rest == DumpsMember(ms[0]) + ("}" + rest)
  {
    assert DumpsMembers(ms) == DumpsMember(ms[0]);
  }

  /** The text of a longer object, split after its first member. */
  lemma DumpsMoreMembersText(ms: seq<Member>, rest: string)
    requires |ms| > 1
    ensures DumpsMembers(ms) + "}" + rest == DumpsMember(ms[0]) + (", " + (DumpsMembers(ms[1..]) + "}" + rest))
  {
    var a, b := DumpsMember(ms[0]), DumpsMembers(ms[1..]);
    assert DumpsMembers(ms) == a + ", " + b;
    Regroup(a, ", ", b, "}", rest);
  }

  lemma {:induction false} ReadMembersDumps(ms: seq<Member>, rest: string)
    requires ms != []
    ensures ReadMembers(DumpsMembers(ms) + "}" + rest) == Some((ms, rest))
    decreases ms, 1
  {
    if |ms| == 1 {
      ReadOneMemberDumps(ms, rest);
    } else {
      ReadMembersDumps(ms[1..], rest);
      ReadMoreMembersDumps(ms, rest);
    }
  }

  lemma ReadOneMemberDumps(ms: seq<Member>, rest: string)
    requires |ms| == 1
    ensures ReadMembers(DumpsMembers(ms) + "}" + rest) == Some((ms, rest))
    decreases ms, 0
  {
    DumpsOneMemberText(ms, rest);
    ReadLastMemberOfDumps(ms[0], rest);
    assert [ms[0]] == ms;
  }

  lemma ReadMoreMembersDumps(ms: seq<Member>, rest: string)
    requires |ms| > 1 && ReadMembers(DumpsMembers(ms[1..]) + "}" + rest) == Some((ms[1..], rest))
    ensures ReadMembers(DumpsMembers(ms) + "}" + rest) == Some((ms, rest))
    decreases ms, 0
  {
    var m, tail := ms[0], ms[1..];
    DumpsMoreMembersText(ms, rest);
    ReadNextMemberOfDumps(m, DumpsMembers(tail) + "}" + rest, tail, rest);
    assert [m] + tail == ms;
  }

  /** The last member of an object, and its closing brace. */
  lemma ReadLastMemberOfDumps(m: Member, rest: string)
    ensures ReadMembers(DumpsMember(m) + ("}" + rest)) == Some(([m], rest))
    decreases m, 1
  {
    var after := "}" + rest;
    ReadMemberOfDumps(m, after);
    assert after[0] == '}' && after[1..] == rest;
    ReadMembersLast(DumpsMember(m) + after, m.key, ": " + Dumps(m.value) + after, m.value, after);
  }

  /** A member followed by `, ` and the members after it. */
  lemma ReadNextMemberOfDumps(m: Member, inner: string, ms: seq<Member>, rest: string)
    requires ReadMembers(inner) == Some((ms, rest))
    ensures ReadMembers(DumpsMember(m) + (", " + inner)) == Some(([m] + ms, rest))
    decreases m, 1
  {
    var after := ", " + inner;
    ReadMemberOfDumps(m, after);
    assert after[..2] == ", " && after[2..] == inner;
    ReadMembersNext(DumpsMember(m) + after, m.key, ": " + Dumps(m.value) + after, m.value, after, ms, rest);
  }

  lemma DumpsMemberText(m: Member, after: string)
    ensures DumpsMember(m) + after ==
      "\"" + (EscapeString(m.key) + "\"" + (": " + Dumps(m.value) + after))
  {
    var e, d := EscapeString(m.key), Dumps(m.value);
    assert DumpsMember(m) == Quote(m.key) + ": " + d;
    assert Quote(m.key) == "\"" + e + "\"";
    Regroup6("\"", e, "\"", ": ", d, after);
  }


  /** The key of one member, read up to the colon after it. */
  lemma ReadKeyOfDumps(m: Member, after: string)
    ensures var s := DumpsMember(m) + after;
      s[0] == '"' && ReadString(s[1..]) == Some((m.key, ": " + Dumps(m.value) + after))
  {
    var tail := ": " + Dumps(m.value) + after;
    var s := DumpsMember(m) + after;
    DumpsMemberText(m, after);
    assert s[1..] == EscapeString(m.key) + "\"" + tail;
    ReadStringOfQuote(m.key, tail);
  }

  /** The key and value of one member, read up to the separator after it. */
  lemma ReadMemberOfDumps(m: Member, after: string)
    requires EndsValue(after)
    ensures var s := DumpsMember(m) + after;
      var afterKey := ": " + Dumps(m.value) + after;
      && s[0] == '"' && ReadString(s[1..]) == Some((m.key, afterKey))
      && afterKey[..2] == ": " && ReadValue(afterKey[2..]) == Some((m.value, after))
    decreases m, 0
  {
    ReadKeyOfDumps(m, after);
    var afterKey := ": " + Dumps(m.value) + after;
    assert afterKey[2..] == Dumps(m.value) + after;
    ReadDumps(m.value, after);
  }

  /** `json.loads(json.dumps(v)) == v`. */
  lemma LoadsDumps(v: Json)
    ensures Loads(Dumps(v)) == Some(v)
  {
    ReadDumps(v, []);
    assert Dumps(v) + [] == Dumps(v);
  }
}
