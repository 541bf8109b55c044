/** The text Python's `csv.writer` produces with its default ("excel")
    dialect: comma separators, `\r\n` after every row, and minimal quoting, so a
    field is quoted only when it holds a comma, a double quote or a line break,
    and a double quote inside a quoted field is doubled (section 2, rules 6 and
    7, of RFC 4180). `ReadRows` is a reader for that text. */
module CsvText {
  import opened Wrappers
  import opened Text

  predicate Special(c: char) { c == ',' || c == '"' || c == '\r' || c == '\n' }

  /** Whether a field holds a comma, a double quote or a line break. */
  predicate NeedsQuotes(f: string) { f != [] && (Special(f[0]) || NeedsQuotes(f[1..])) }

  /** Every double quote written twice. */
  function DoubleQuotes(f: string): (r: string)
    ensures |r| >= |f|
  {
    if f == [] then []
    else (if f[0] == '"' then "\"\"" else [f[0]]) + DoubleQuotes(f[1..])
  }

  function WriteField(f: string): string {
    if NeedsQuotes(f) then "\"" + DoubleQuotes(f) + "\"" else f
  }

  function JoinFields(fs: seq<string>): string {
    if fs == [] then []
    else if |fs| == 1 then WriteField(fs[0])
    else WriteField(fs[0]) + "," + JoinFields(fs[1..])
  }

  /** `writer.writerow(fs)`. A row made of one empty field is written as `""`,
      so that it does not read back as an empty line. */
  function WriteRow(fs: seq<string>): string {
    if fs == [""] then "\"\"\r\n" else JoinFields(fs) + "\r\n"
  }

  // ---------------------------------------------------------------------------
  // Reader.

  /** The inside of a quoted field up to its closing quote, and what follows. */
  function ReadQuoted(s: string): (r: Option<(string, string)>)
    ensures r.Some? ==> |r.value.1| < |s|
  {
    if s == [] then None
    else if s[0] == '"' then
      if |s| >= 2 && s[1] == '"' then
        match ReadQuoted(s[2..])
        case None => None
        case Some((f, rest)) => Some(("\"" + f, rest))
      else Some(([], s[1..]))
    else
      match ReadQuoted(s[1..])
      case None => None
      case Some((f, rest)) => Some(([s[0]] + f, rest))
  }

  /** An unquoted field: everything up to a comma, a line break or the end. */
  function ReadBare(s: string): (r: (string, string))
    ensures |r.1| <= |s|
  {
    if s == [] || s[0] == ',' || s[0] == '\r' || s[0] == '\n' then ([], s)
    else
      var (f, rest) := ReadBare(s[1..]);
      ([s[0]] + f, rest)
  }

  function ReadField(s: string): (r: Option<(string, string)>)
    ensures r.Some? ==> |r.value.1| <= |s|
  {
    if s != [] && s[0] == '"' then ReadQuoted(s[1..]) else Some(ReadBare(s))
  }

  /** One row's fields and the text after its `\r\n`. */
  function ReadRecord(s: string): (r: Option<(seq<string>, string)>)
    ensures r.Some? ==> |r.value.1| < |s|
    decreases |s|
  {
    match ReadField(s)
    case None => None
    case Some((f, rest)) =>
      if |rest| >= 2 && rest[..2] == "\r\n" then Some(([f], rest[2..]))
      else if |rest| >= 1 && rest[0] == ',' then
        match ReadRecord(rest[1..])
        case None => None
        case Some((fs, rest')) => Some(([f] + fs, rest'))
      else None
  }

  /** A whole CSV text, row by row. */
  function ReadRows(s: string): (r: Option<seq<seq<string>>>)
    decreases |s|
  {
    if s == [] then Some([])
    else
      match ReadRecord(s)
      case None => None
      case Some((fs, rest)) =>
        match ReadRows(rest)
        case None => None
        case Some(rows) => Some([fs] + rows)
  }

  // ---------------------------------------------------------------------------
  // The reader inverts the writer.

  /** What may follow a field: a separator or the end of the row. */
  predicate EndsField(rest: string) { |rest| >= 1 && (rest[0] == ',' || rest[0] == '\r') }

  lemma {:induction false} ReadQuotedOfDoubled(f: string, rest: string)
    requires rest == [] || rest[0] != '"'
    ensures ReadQuoted(DoubleQuotes(f) + "\"" + rest) == Some((f, rest))
  {
    var s := DoubleQuotes(f) + "\"" + rest;
    if f == [] {
      assert s == "\"" + rest;
      assert s[1..] == rest;
    } else if f[0] == '"' {
      assert s == "\"\"" + (DoubleQuotes(f[1..]) + "\"" + rest);
      assert s[2..] == DoubleQuotes(f[1..]) + "\"" + rest;
      ReadQuotedOfDoubled(f[1..], rest);
      assert "\"" + f[1..] == f;
    } else {
      assert s == [f[0]] + (DoubleQuotes(f[1..]) + "\"" + rest);
      assert s[1..] == DoubleQuotes(f[1..]) + "\"" + rest;
      ReadQuotedOfDoubled(f[1..], rest);
      assert [f[0]] + f[1..] == f;
    }
  }

  lemma {:induction false} ReadBareOfPlain(f: string, rest: string)
    requires !NeedsQuotes(f) && EndsField(rest)
    ensures ReadBare(f + rest) == (f, rest)
  {
    if f == [] {
      assert f + rest == rest;
    } else {
      assert (f + rest)[1..] == f[1..] + rest;
      ReadBareOfPlain(f[1..], rest);
      assert [f[0]] + f[1..] == f;
    }
  }

  lemma ReadFieldOfQuoted(s: string, f: string, rest: string)
    requires s == "\"" + (DoubleQuotes(f) + "\"" + rest)
    requires rest == [] || rest[0] != '"'
    ensures ReadField(s) == Some((f, rest))
  {
    assert s[1..] == DoubleQuotes(f) + "\"" + rest;
    ReadQuotedOfDoubled(f, rest);
  }

  lemma ReadFieldOfBare(s: string, f: string, rest: string)
    requires s == f + rest && !NeedsQuotes(f) && EndsField(rest)
    ensures ReadField(s) == Some((f, rest))
  {
    ReadBareOfPlain(f, rest);
    if f != [] {
      assert s[0] == f[0];
    } else {
      assert s == rest;
    }
  }

  lemma ReadFieldOfWrite(f: string, rest: string)
    requires EndsField(rest)
    ensures ReadField(WriteField(f) + rest) == Some((f, rest))
  {
    if NeedsQuotes(f) {
      ReadFieldOfQuoted(WriteField(f) + rest, f, rest);
    } else {
      ReadFieldOfBare(WriteField(f) + rest, f, rest);
    }
  }

  lemma ReadRecordLast(s: string, f: string, after: string)
    requires ReadField(s) == Some((f, after))
    requires |after| >= 2 && after[..2] == "\r\n"
    ensures ReadRecord(s) == Some(([f], after[2..]))
  {
  }

  lemma ReadRecordNext(s: string, f: string, after: string, fs: seq<string>, rest: string)
    requires ReadField(s) == Some((f, after))
    requires |after| >= 1 && after[0] == ',' && ReadRecord(after[1..]) == Some((fs, rest))
    ensures ReadRecord(s) == Some(([f] + fs, rest))
  {
  }

  lemma {:induction false} ReadRecordOfJoin(fs: seq<string>, rest: string)
    requires fs != []
    ensures ReadRecord(JoinFields(fs) + "\r\n" + rest) == Some((fs, rest))
    decreases fs
  {
    if |fs| == 1 {
      ReadOneFieldRecord(fs, rest);
    } else {
      ReadRecordOfJoin(fs[1..], rest);
      ReadMoreFieldsRecord(fs, rest);
    }
  }

  lemma ReadOneFieldRecord(fs: seq<string>, rest: string)
    requires |fs| == 1
    ensures ReadRecord(JoinFields(fs) + "\r\n" + rest) == Some((fs, rest))
  {
    var s := JoinFields(fs) + "\r\n" + rest;
    var after := "\r\n" + rest;
    assert s == WriteField(fs[0]) + after;
    ReadFieldOfWrite(fs[0], after);
    assert after[..2] == "\r\n" && after[2..] == rest;
    ReadRecordLast(s, fs[0], after);
    assert [fs[0]] == fs;
  }

  lemma ReadMoreFieldsRecord(fs: seq<string>, rest: string)
    requires |fs| > 1 && ReadRecord(JoinFields(fs[1..]) + "\r\n" + rest) == Some((fs[1..], rest))
    ensures ReadRecord(JoinFields(fs) + "\r\n" + rest) == Some((fs, rest))
  {
    var inner := JoinFields(fs[1..]) + "\r\n" + rest;
    JoinFieldsText(fs, rest);
    ReadFieldThenRecord(fs[0], inner, fs[1..], rest);
    assert [fs[0]] + fs[1..] == fs;
  }

  lemma JoinFieldsText(fs: seq<string>, rest: string)
    requires |fs| > 1
    ensures JoinFields(fs) + "\r\n" + rest == WriteField(fs[0]) + ("," + (JoinFields(fs[1..]) + "\r\n" + rest))
  {
    var a, b := WriteField(fs[0]), JoinFields(fs[1..]);
    assert JoinFields(fs) == a + "," + b;
    Regroup(a, ",", b, "\r\n", rest);
  }

  /** A written field, a comma, and a record. */
  lemma ReadFieldThenRecord(f: string, inner: string, fs: seq<string>, rest: string)
    requires ReadRecord(inner) == Some((fs, rest))
    ensures ReadRecord(WriteField(f) + ("," + inner)) == Some(([f] + fs, rest))
  {
    var after := "," + inner;
    ReadFieldOfWrite(f, after);
    assert after[1..] == inner;
    ReadRecordNext(WriteField(f) + after, f, after, fs, rest);
  }

  lemma ReadRecordOfRow(fs: seq<string>, rest: string)
    requires fs != []
    ensures ReadRecord(WriteRow(fs) + rest) == Some((fs, rest))
  {
    if fs == [""] {
      var s := WriteRow(fs) + rest;
      assert s == "\"" + (DoubleQuotes("") + "\"" + ("\r\n" + rest));
      ReadQuotedOfDoubled("", "\r\n" + rest);
      assert s[1..] == DoubleQuotes("") + "\"" + ("\r\n" + rest);
      assert ReadField(s) == Some(("", "\r\n" + rest));
      ReadRecordLast(s, "", "\r\n" + rest);
      assert ("\r\n" + rest)[2..] == rest;
    } else {
      ReadRecordOfJoin(fs, rest);
      assert WriteRow(fs) + rest == JoinFields(fs) + "\r\n" + rest;
    }
  }

  /** Reading the rows a writer wrote gives back the rows. */
  lemma {:induction false} ReadRowsOfWrite(rows: seq<seq<string>>)
    requires forall i :: 0 <= i < |rows| ==> rows[i] != []
    ensures ReadRows(Concat(seq(|rows|, i requires 0 <= i < |rows| => WriteRow(rows[i])))) == Some(rows)
  {
    var chunks := seq(|rows|, i requires 0 <= i < |rows| => WriteRow(rows[i]));
    if rows != [] {
      var tail := seq(|rows| - 1, i requires 0 <= i < |rows| - 1 => WriteRow(rows[1..][i]));
      assert chunks[1..] == tail;
      assert Concat(chunks) == WriteRow(rows[0]) + Concat(tail);
      ReadRecordOfRow(rows[0], Concat(tail));
      ReadRowsOfWrite(rows[1..]);
      assert [rows[0]] + rows[1..] == rows;
    }
  }
}
