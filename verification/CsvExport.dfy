/** CSV output of the command line client (crates/nimon-cli/src/format.rs:239-246, main.rs:442-449). */
module CsvExport {
  import opened Basics

  predicate Special(c: char) { c == ',' || c == '"' || c == '\n' || c == '\r' }

  predicate NeedsQuotes(s: string) { exists i :: 0 <= i < |s| && Special(s[i]) }

  function Doubled(s: string): string {
    if s == [] then []
    else (if s[0] == '"' then ['"', '"'] else [s[0]]) + Doubled(s[1..])
  }

  function CsvField(s: string): string {
    if NeedsQuotes(s) then ['"'] + Doubled(s) + ['"'] else s
  }

  /** Fields separated by commas. */
  function Row(fields: seq<string>): string
    requires fields != []
  {
    if |fields| == 1 then CsvField(fields[0]) else CsvField(fields[0]) + [','] + Row(fields[1..])
  }

  /** Every row with its line end. */
  function Rows(rows: seq<seq<string>>): string
    requires forall i :: 0 <= i < |rows| ==> rows[i] != []
  {
    if rows == [] then "" else Row(rows[0]) + ['\n'] + Rows(rows[1..])
  }

  // ------------------------------------------------------------------ reading, after RFC 4180, section 2

  /** Behind the opening quote: the field, and what follows the closing quote. */
  function ReadQuoted(text: string): (r: Option<(string, string)>)
    ensures r.Some? ==> |r.value.1| < |text|
  {
    if text == [] then None
    else if text[0] == '"' then
      if |text| > 1 && text[1] == '"' then
        var r := ReadQuoted(text[2..]);
        if r.None? then None else Some((['"'] + r.value.0, r.value.1))
      else Some(([], text[1..]))
    else
      var r := ReadQuoted(text[1..]);
      if r.None? then None else Some(([text[0]] + r.value.0, r.value.1))
  }

  function ReadPlain(text: string): (r: (string, string))
    ensures |r.1| <= |text|
  {
    if text == [] || Special(text[0]) then ([], text)
    else var r := ReadPlain(text[1..]); ([text[0]] + r.0, r.1)
  }

  function ReadField(text: string): (r: Option<(string, string)>)
    ensures r.Some? ==> |r.value.1| <= |text|
  {
    if text != [] && text[0] == '"' then ReadQuoted(text[1..]) else Some(ReadPlain(text))
  }

  /** One row, up to its line end, and what follows. */
  function ReadRow(text: string): (r: Option<(seq<string>, string)>)
    ensures r.Some? ==> |r.value.1| < |text|
    decreases |text|
  {
    var field := ReadField(text);
    if field.None? || field.value.1 == [] then None
    else
      var (first, rest) := field.value;
      if rest[0] == '\n' then Some(([first], rest[1..]))
      else if rest[0] != ',' then None
      else
        var more := ReadRow(rest[1..]);
        if more.None? then None else Some(([first] + more.value.0, more.value.1))
  }

  function ReadRows(text: string): Option<seq<seq<string>>>
    decreases |text|
  {
    if text == [] then Some([])
    else
      var row := ReadRow(text);
      if row.None? then None
      else
        var more := ReadRows(row.value.1);
        if more.None? then None else Some([row.value.0] + more.value)
  }

  // ------------------------------------------------------------------ what is written is read back

  lemma {:induction false} QuotedBack(s: string, rest: string)
    requires rest == [] || rest[0] != '"'
    ensures ReadQuoted(Doubled(s) + ['"'] + rest) == Some((s, rest))
  {
    var text := Doubled(s) + ['"'] + rest;
    if s == [] {
      assert text == ['"'] + rest;
    } else {
      QuotedBack(s[1..], rest);
      var tail := Doubled(s[1..]) + ['"'] + rest;
      if s[0] == '"' {
        assert text[2..] == tail;
      } else {
        assert text[1..] == tail;
      }
      assert s == [s[0]] + s[1..];
    }
  }

  lemma {:induction false} PlainBack(s: string, rest: string)
    requires forall i :: 0 <= i < |s| ==> !Special(s[i])
    requires rest == [] || Special(rest[0])
    ensures ReadPlain(s + rest) == (s, rest)
  {
    if s == [] {
      assert s + rest == rest;
    } else {
      PlainBack(s[1..], rest);
      assert (s + rest)[1..] == s[1..] + rest;
      assert s == [s[0]] + s[1..];
    }
  }

  lemma QuotedFieldBack(s: string, rest: string)
    requires rest == [] || rest[0] != '"'
    ensures ReadField(['"'] + Doubled(s) + ['"'] + rest) == Some((s, rest))
  {
    QuotedBack(s, rest);
    var text := Doubled(s) + ['"'] + rest;
    var all := ['"'] + Doubled(s) + ['"'] + rest;
    assert all == ['"'] + text;
    QuotedRead(all, text);
  }

  lemma QuotedRead(all: string, text: string)
    requires all == ['"'] + text
    ensures ReadField(all) == ReadQuoted(text)
  {
    assert all[1..] == text;
  }

  lemma PlainFieldBack(s: string, rest: string)
    requires !NeedsQuotes(s) && (rest == [] || (Special(rest[0]) && rest[0] != '"'))
    ensures ReadField(s + rest) == Some((s, rest))
  {
    PlainBack(s, rest);
    assert s == [] ==> s + rest == rest;
  }

  /** A field is read back, up to the delimiter behind it and no further, whatever follows that. */
  lemma FieldRoundTrip(s: string, rest: string)
    requires rest == [] || rest[0] == ',' || rest[0] == '\n' || rest[0] == '\r'
    ensures ReadField(CsvField(s) + rest) == Some((s, rest))
  {
    if NeedsQuotes(s) {
      QuotedFieldBack(s, rest);
    } else {
      PlainFieldBack(s, rest);
    }
  }

  lemma EndOfRow(text: string, field: string, tail: string, rest: string)
    requires ReadField(text) == Some((field, tail)) && tail == ['\n'] + rest
    ensures ReadRow(text) == Some(([field], rest))
  {
    assert tail[1..] == rest;
  }

  lemma LastFieldBack(field: string, rest: string)
    ensures ReadRow(CsvField(field) + ['\n'] + rest) == Some(([field], rest))
  {
    var tail := ['\n'] + rest;
    FieldRoundTrip(field, tail);
    assert CsvField(field) + ['\n'] + rest == CsvField(field) + tail;
    EndOfRow(CsvField(field) + tail, field, tail, rest);
  }

  lemma RowGoesOn(text: string, field: string, tail: string, more: string, row: (seq<string>, string))
    requires ReadField(text) == Some((field, tail)) && tail == [','] + more && ReadRow(more) == Some(row)
    ensures ReadRow(text) == Some(([field] + row.0, row.1))
  {
    assert tail[1..] == more;
  }

  lemma FieldBefore(field: string, text: string)
    requires ReadRow(text).Some?
    ensures ReadRow(CsvField(field) + [','] + text)
            == Some(([field] + ReadRow(text).value.0, ReadRow(text).value.1))
  {
    var tail := [','] + text;
    FieldRoundTrip(field, tail);
    assert CsvField(field) + [','] + text == CsvField(field) + tail;
    RowGoesOn(CsvField(field) + tail, field, tail, text, ReadRow(text).value);
  }

  /** So is a row of any number of fields. */
  lemma {:induction false} RowRoundTrip(fields: seq<string>, rest: string)
    requires fields != []
    ensures ReadRow(Row(fields) + ['\n'] + rest) == Some((fields, rest))
  {
    assert fields == [fields[0]] + fields[1..];
    if |fields| == 1 {
      LastFieldBack(fields[0], rest);
      assert fields == [fields[0]];
    } else {
      var tail := Row(fields[1..]) + ['\n'] + rest;
      RowRoundTrip(fields[1..], rest);
      FieldBefore(fields[0], tail);
      assert Row(fields) + ['\n'] + rest == CsvField(fields[0]) + [','] + tail;
    }
  }

  /** And a whole file. */
  lemma {:induction false} FileRoundTrip(rows: seq<seq<string>>)
    requires forall i :: 0 <= i < |rows| ==> rows[i] != []
    ensures ReadRows(Rows(rows)) == Some(rows)
  {
    if rows != [] {
      RowRoundTrip(rows[0], Rows(rows[1..]));
      FileRoundTrip(rows[1..]);
      assert rows == [rows[0]] + rows[1..];
    }
  }

  /** A row as it is exported: the value is printed as it stands, which no number makes ambiguous. */
  function PointRow(timestamp: string, value: string): string { CsvField(timestamp) + [','] + value }

  lemma PointRowRoundTrip(timestamp: string, value: string, rest: string)
    requires forall i :: 0 <= i < |value| ==> !Special(value[i])
    ensures ReadRow(PointRow(timestamp, value) + ['\n'] + rest) == Some(([timestamp, value], rest))
  {
    assert [timestamp, value][1..] == [value];
    RowRoundTrip([timestamp, value], rest);
  }
}
