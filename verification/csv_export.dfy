/** `exportTableToCSV` of `static/js/main.js`: how table cells become CSV
    fields, rows become lines and the download gets its name. The table is
    given as rows of raw cell texts (`textContent`) with a hidden flag
    (`style.display === 'none'`). A small CSV reader is defined alongside, so
    that the export can be shown to lose nothing but the white space `trim`
    removes. */
module CsvExport {
  import opened Wrappers
  import opened JsText

  // ---------------------------------------------------------------- writing

  /** `text.replace(/"/g, '""')`: every double quote doubled. */
  function EscapeQuotes(s: string): string
    decreases |s|
  {
    if |s| == 0 then ""
    else (if s[0] == '"' then "\"\"" else [s[0]]) + EscapeQuotes(s[1..])
  }

  /** Escaping adds and removes no other character, and changes nothing in a
      text without double quotes. */
  lemma {:induction false} EscapeKeeps(s: string)
    ensures '"' !in s ==> EscapeQuotes(s) == s
    ensures forall c :: c in EscapeQuotes(s) <==> c in s
    decreases |s|
  {
    if |s| > 0 {
      EscapeKeeps(s[1..]);
      var head := if s[0] == '"' then "\"\"" else [s[0]];
      assert EscapeQuotes(s) == head + EscapeQuotes(s[1..]);
      assert s == [s[0]] + s[1..];
      forall c
        ensures c in EscapeQuotes(s) <==> c in s
      {
        assert c in head <==> c == s[0];
      }
    }
  }

  /** A field is wrapped in quotes when it holds a comma, a line feed or a
      double quote. */
  predicate NeedsQuotes(t: string) {
    ',' in t || '\n' in t || '"' in t
  }

  /** The field written for an already trimmed text: quotes doubled, then
      wrapped in quotes when the escaped text needs them. */
  function Quote(x: string): (r: string)
    ensures NeedsQuotes(x) ==> r == "\"" + EscapeQuotes(x) + "\""
    ensures !NeedsQuotes(x) ==> r == x
  {
    var t := EscapeQuotes(x);
    EscapeKeeps(x);
    if NeedsQuotes(t) then "\"" + t + "\"" else t
  }

  /** One cell of the export: its trimmed text, quoted when needed. A field
      neither starts nor ends with white space, and a field without quotes
      is the trimmed text itself. */
  function CsvCell(raw: string): (r: string)
    ensures Trimmed(r)
    ensures !NeedsQuotes(Trim(raw)) ==> r == Trim(raw)
    ensures NeedsQuotes(Trim(raw)) ==> |r| >= 2 && r[0] == '"' && r[|r| - 1] == '"'
  {
    Quote(Trim(raw))
  }

  /** `xs.join(sep)` */
  function Join(xs: seq<string>, sep: char): (r: string)
    decreases |xs|
  {
    if |xs| == 0 then ""
    else if |xs| == 1 then xs[0]
    else xs[0] + [sep] + Join(xs[1..], sep)
  }

  /** A table row: whether it is hidden, and its cells' text. */
  datatype Row = Row(hidden: bool, cells: seq<string>)

  function Quotes(xs: seq<string>): (r: seq<string>)
    ensures |r| == |xs| && forall i :: 0 <= i < |xs| ==> r[i] == Quote(xs[i])
  {
    seq(|xs|, i requires 0 <= i < |xs| => Quote(xs[i]))
  }

  function Trims(raw: seq<string>): (r: seq<string>)
    ensures |r| == |raw| && forall i :: 0 <= i < |raw| ==> r[i] == Trim(raw[i])
  {
    seq(|raw|, i requires 0 <= i < |raw| => Trim(raw[i]))
  }

  /** The fields of one row's cells. */
  function Cells(raw: seq<string>): seq<string> {
    Quotes(Trims(raw))
  }

  /** The rows that are exported: the ones not hidden, in table order. */
  function Visible(rows: seq<Row>): (r: seq<Row>)
    ensures forall x :: x in r <==> x in rows && !x.hidden
    ensures |r| <= |rows|
  {
    if |rows| == 0 then []
    else (if rows[0].hidden then [] else [rows[0]]) + Visible(rows[1..])
  }

  /** Selection works row by row and keeps table order and repeated rows:
      the visible rows of two runs of rows are those of each, side by side. */
  lemma {:induction false} VisibleConcat(a: seq<Row>, b: seq<Row>)
    ensures Visible(a + b) == Visible(a) + Visible(b)
    decreases |a|
  {
    if |a| == 0 {
      assert a + b == b;
    } else {
      var head := if a[0].hidden then [] else [a[0]];
      assert (a + b)[0] == a[0];
      assert (a + b)[1..] == a[1..] + b;
      VisibleConcat(a[1..], b);
      assert Visible(a + b) == head + (Visible(a[1..]) + Visible(b));
      assert head + (Visible(a[1..]) + Visible(b)) == (head + Visible(a[1..])) + Visible(b);
    }
  }

  /** A single row is exported exactly when it is not hidden. */
  lemma VisibleSingle(x: Row)
    ensures Visible([x]) == if x.hidden then [] else [x]
  {
    assert [x][1..] == [];
  }

  function Lines(rows: seq<Row>): (r: seq<string>)
    ensures |r| == |rows| && forall i :: 0 <= i < |rows| ==> r[i] == Join(Cells(rows[i].cells), ',')
  {
    seq(|rows|, i requires 0 <= i < |rows| => Join(Cells(rows[i].cells), ','))
  }

  /** The CSV text: fields joined by commas, visible rows joined by a single
      line feed (no carriage return, no final line break). */
  /** The file's text: the lines of the visible rows joined with LF. A table
      whose rows are all hidden exports an empty file. */
  function CsvContent(rows: seq<Row>): (r: string)
    ensures Visible(rows) == [] ==> r == ""
  {
    Join(Lines(Visible(rows)), '\n')
  }

  /** The download name: `.csv` is appended unless already there. */
  function CsvFileName(f: string): (r: string)
    ensures EndsWith(r, ".csv")
    ensures EndsWith(f, ".csv") ==> r == f
    ensures !EndsWith(f, ".csv") ==> r == f + ".csv"
  {
    if EndsWith(f, ".csv") then f else f + ".csv"
  }

  lemma FileNameIdempotent(f: string)
    ensures CsvFileName(CsvFileName(f)) == CsvFileName(f)
  {
  }

  // ---------------------------------------------------------------- reading

  /** `""` read back as `"`. */
  function UnescapeQuotes(s: string): string
    decreases |s|
  {
    if |s| == 0 then ""
    else if |s| >= 2 && s[0] == '"' && s[1] == '"' then "\"" + UnescapeQuotes(s[2..])
    else [s[0]] + UnescapeQuotes(s[1..])
  }

  lemma {:induction false} UnescapeEscape(s: string)
    ensures UnescapeQuotes(EscapeQuotes(s)) == s
    decreases |s|
  {
    if |s| > 0 {
      UnescapeEscape(s[1..]);
      var e := EscapeQuotes(s);
      if s[0] == '"' {
        assert e == "\"\"" + EscapeQuotes(s[1..]);
        assert e[2..] == EscapeQuotes(s[1..]);
      } else {
        assert e == [s[0]] + EscapeQuotes(s[1..]);
        assert e[1..] == EscapeQuotes(s[1..]);
      }
    }
  }

  /** Reading one exported cell on its own: drop the surrounding quotes when
      there are any and collapse doubled quotes. */
  function DecodeCell(f: string): string {
    if |f| >= 2 && f[0] == '"' && f[|f| - 1] == '"' then UnescapeQuotes(f[1..|f| - 1]) else f
  }

  /** Each exported cell reads back as the cell's trimmed text. */
  lemma CellRoundTrip(raw: string)
    ensures DecodeCell(CsvCell(raw)) == Trim(raw)
  {
    var x := Trim(raw);
    UnescapeEscape(x);
    if NeedsQuotes(x) {
      var f := "\"" + EscapeQuotes(x) + "\"";
      assert f[1..|f| - 1] == EscapeQuotes(x);
    } else {
      assert |x| >= 2 ==> x[0] in x;
    }
  }

  /** A field read from the front of a text, and what follows it. */
  datatype Field = Field(text: string, rest: string)

  /** The inside of a quoted field, up to its closing quote. */
  function ParseQuoted(s: string): (r: Option<Field>)
    ensures r.Some? ==> |r.value.rest| < |s|
    decreases |s|
  {
    if |s| == 0 then None
    else if s[0] == '"' then
      if |s| >= 2 && s[1] == '"' then
        match ParseQuoted(s[2..])
        case None => None
        case Some(f) => Some(Field("\"" + f.text, f.rest))
      else Some(Field("", s[1..]))
    else
      match ParseQuoted(s[1..])
      case None => None
      case Some(f) => Some(Field([s[0]] + f.text, f.rest))
  }

  /** An unquoted field runs to the next comma, line feed or end of text. */
  function ParseUnquoted(s: string): (r: Field)
    ensures |r.rest| <= |s|
    ensures r.rest == "" || r.rest[0] == ',' || r.rest[0] == '\n'
    decreases |s|
  {
    if |s| == 0 || s[0] == ',' || s[0] == '\n' then Field("", s)
    else
      var f := ParseUnquoted(s[1..]);
      Field([s[0]] + f.text, f.rest)
  }

  function ParseField(s: string): (r: Option<Field>)
    ensures r.Some? ==> |r.value.rest| <= |s|
  {
    if |s| > 0 && s[0] == '"' then ParseQuoted(s[1..]) else Some(ParseUnquoted(s))
  }

  /** One line's fields, and the text after them (empty or starting with the
      line feed that ends the line). */
  datatype Record = Record(cells: seq<string>, rest: string)

  function ParseRecord(s: string): (r: Option<Record>)
    ensures r.Some? ==> |r.value.rest| <= |s|
    ensures r.Some? ==> r.value.rest == "" || r.value.rest[0] == '\n'
    decreases |s|
  {
    match ParseField(s)
    case None => None
    case Some(f) =>
      if |f.rest| > 0 && f.rest[0] == ',' then
        match ParseRecord(f.rest[1..])
        case None => None
        case Some(rec) => Some(Record([f.text] + rec.cells, rec.rest))
      else if f.rest == "" || f.rest[0] == '\n' then Some(Record([f.text], f.rest))
      else None
  }

  /** A whole CSV text: its lines' fields, or None if it is malformed. */
  function ParseCsv(s: string): Option<seq<seq<string>>>
    decreases |s|
  {
    match ParseRecord(s)
    case None => None
    case Some(rec) =>
      if rec.rest == "" then Some([rec.cells])
      else
        match ParseCsv(rec.rest[1..])
        case None => None
        case Some(t) => Some([rec.cells] + t)
  }

  // ---------------------------------------------------------------- round trip

  /** A text may follow a field if it ends it. */
  predicate FieldEnd(rest: string) {
    rest == "" || rest[0] == ',' || rest[0] == '\n'
  }

  function Prepend(c: char, r: Option<Field>): Option<Field> {
    match r
    case None => None
    case Some(f) => Some(Field([c] + f.text, f.rest))
  }

  lemma ParseQuotedPair(x: string)
    ensures ParseQuoted("\"\"" + x) == Prepend('"', ParseQuoted(x))
  {
    assert ("\"\"" + x)[2..] == x;
  }

  lemma ParseQuotedOther(c: char, x: string)
    requires c != '"'
    ensures ParseQuoted([c] + x) == Prepend(c, ParseQuoted(x))
  {
    assert ([c] + x)[1..] == x;
  }

  lemma ParseQuotedClose(x: string)
    requires x == "" || x[0] != '"'
    ensures ParseQuoted("\"" + x) == Some(Field("", x))
  {
    var s := "\"" + x;
    assert s[1..] == x;
    assert |s| >= 2 ==> s[1] == x[0];
  }
  lemma {:induction false} QuotedRoundTrip(t: string, rest: string)
    requires rest == "" || rest[0] != '"'
    ensures ParseQuoted(EscapeQuotes(t) + "\"" + rest) == Some(Field(t, rest))
    decreases |t|
  {
    if |t| == 0 {
      assert EscapeQuotes(t) + "\"" + rest == "\"" + rest;
      ParseQuotedClose(rest);
    } else {
      QuotedRoundTrip(t[1..], rest);
      QuotedStep(t, rest);
    }
  }

  lemma QuotedStep(t: string, rest: string)
    requires |t| > 0
    requires ParseQuoted(EscapeQuotes(t[1..]) + "\"" + rest) == Some(Field(t[1..], rest))
    ensures ParseQuoted(EscapeQuotes(t) + "\"" + rest) == Some(Field(t, rest))
  {
    var tail := EscapeQuotes(t[1..]) + "\"" + rest;
    var head := if t[0] == '"' then "\"\"" else [t[0]];
    assert EscapeQuotes(t) == head + EscapeQuotes(t[1..]);
    assert EscapeQuotes(t) + "\"" + rest == head + tail;
    assert [t[0]] + t[1..] == t;
    if t[0] == '"' {
      ParseQuotedPair(tail);
    } else {
      ParseQuotedOther(t[0], tail);
    }
  }

  lemma {:induction false} UnquotedRoundTrip(t: string, rest: string)
    requires ',' !in t && '\n' !in t && FieldEnd(rest)
    ensures ParseUnquoted(t + rest) == Field(t, rest)
    decreases |t|
  {
    if |t| == 0 {
      assert t + rest == rest;
    } else {
      assert (t + rest)[1..] == t[1..] + rest;
      assert t[0] in t;
      UnquotedRoundTrip(t[1..], rest);
      assert [t[0]] + t[1..] == t;
    }
  }

  lemma FieldRoundTrip(x: string, rest: string)
    requires FieldEnd(rest)
    ensures ParseField(Quote(x) + rest) == Some(Field(x, rest))
  {
    if NeedsQuotes(x) {
      QuotedFieldRoundTrip(x, rest);
    } else {
      PlainFieldRoundTrip(x, rest);
    }
  }

  lemma QuotedFieldRoundTrip(x: string, rest: string)
    requires FieldEnd(rest) && NeedsQuotes(x)
    ensures ParseField(Quote(x) + rest) == Some(Field(x, rest))
  {
    var e := EscapeQuotes(x);
    var s := Quote(x) + rest;
    assert s == "\"" + (e + "\"" + rest);
    assert s[0] == '"';
    assert s[1..] == e + "\"" + rest;
    QuotedRoundTrip(x, rest);
  }

  lemma PlainFieldRoundTrip(x: string, rest: string)
    requires FieldEnd(rest) && !NeedsQuotes(x)
    ensures ParseField(Quote(x) + rest) == Some(Field(x, rest))
  {
    var s := x + rest;
    assert Quote(x) + rest == s;
    UnquotedRoundTrip(x, rest);
    if |x| > 0 {
      assert s[0] == x[0] && x[0] in x;
    } else {
      assert s == rest;
    }
  }

  lemma JoinStep(xs: seq<string>, sep: char, rest: string)
    requires |xs| >= 2
    ensures Join(xs, sep) + rest == xs[0] + ([sep] + (Join(xs[1..], sep) + rest))
  {
  }

  lemma RecordStep(x: string, tail: string)
    requires ParseRecord(tail).Some?
    ensures ParseRecord(Quote(x) + ([','] + tail))
            == Some(Record([x] + ParseRecord(tail).value.cells, ParseRecord(tail).value.rest))
  {
    FieldRoundTrip(x, [','] + tail);
    assert ([','] + tail)[1..] == tail;
  }

  lemma {:induction false} RecordRoundTrip(xs: seq<string>, rest: string)
    requires |xs| > 0
    requires rest == "" || rest[0] == '\n'
    ensures ParseRecord(Join(Quotes(xs), ',') + rest) == Some(Record(xs, rest))
    decreases |xs|
  {
    var qs := Quotes(xs);
    if |xs| == 1 {
      assert Join(qs, ',') + rest == Quote(xs[0]) + rest;
      FieldRoundTrip(xs[0], rest);
      assert xs == [xs[0]];
    } else {
      var tail := Join(qs[1..], ',') + rest;
      QuotesTail(xs);
      RecordRoundTrip(xs[1..], rest);
      RecordStep(xs[0], tail);
      JoinStep(qs, ',', rest);
      Uncons(xs);
    }
  }

  function TrimRows(rows: seq<Row>): (r: seq<seq<string>>)
    ensures |r| == |rows| && forall i :: 0 <= i < |rows| ==> r[i] == Trims(rows[i].cells)
  {
    seq(|rows|, i requires 0 <= i < |rows| => Trims(rows[i].cells))
  }

  lemma {:induction false} LinesRoundTrip(rows: seq<Row>)
    requires |rows| > 0
    requires forall i :: 0 <= i < |rows| ==> |rows[i].cells| > 0
    ensures ParseCsv(Join(Lines(rows), '\n')) == Some(TrimRows(rows))
    decreases |rows|
  {
    if |rows| == 1 {
      var ls := Lines(rows);
      var first := Trims(rows[0].cells);
      assert ls[0] == Join(Quotes(first), ',');
      RecordRoundTrip(first, "");
      assert Join(ls, '\n') == ls[0] + "";
      assert TrimRows(rows) == [first];
    } else {
      LinesRoundTrip(rows[1..]);
      var line, tail := LinesCons(rows);
      CsvStep(line, Trims(rows[0].cells), tail, TrimRows(rows[1..]));
      TrimRowsCons(rows);
    }
  }

  /** The text of several lines is the first line, a line feed, and the rest;
      the first line reads back as the first row's trimmed cells. */
  lemma LinesCons(rows: seq<Row>) returns (line: string, tail: string)
    requires |rows| > 1 && |rows[0].cells| > 0
    ensures tail == Join(Lines(rows[1..]), '\n')
    ensures Join(Lines(rows), '\n') == line + ("\n" + tail)
    ensures ParseRecord(line + ("\n" + tail)) == Some(Record(Trims(rows[0].cells), "\n" + tail))
  {
    var first := Trims(rows[0].cells);
    line, tail := Join(Quotes(first), ','), Join(Lines(rows[1..]), '\n');
    LinesSplit(rows);
    RecordRoundTrip(first, "\n" + tail);
  }

  lemma LinesSplit(rows: seq<Row>)
    requires |rows| > 1
    ensures Join(Lines(rows), '\n')
            == Join(Quotes(Trims(rows[0].cells)), ',') + ("\n" + Join(Lines(rows[1..]), '\n'))
  {
    var ls := Lines(rows);
    assert ls[1..] == Lines(rows[1..]);
  }

  lemma TrimRowsCons(rows: seq<Row>)
    requires |rows| > 0
    ensures TrimRows(rows) == [Trims(rows[0].cells)] + TrimRows(rows[1..])
  {
    assert TrimRows(rows)[1..] == TrimRows(rows[1..]);
    Uncons(TrimRows(rows));
  }

  lemma QuotesTail(xs: seq<string>)
    requires |xs| > 0
    ensures Quotes(xs)[1..] == Quotes(xs[1..])
  {
  }

  lemma Uncons<T>(xs: seq<T>)
    requires |xs| > 0
    ensures [xs[0]] + xs[1..] == xs
  {
  }

  /** One parsed record followed by a line feed and a parsable remainder. */
  lemma CsvStep(line: string, cells: seq<string>, tail: string, t: seq<seq<string>>)
    requires ParseRecord(line + ("\n" + tail)) == Some(Record(cells, "\n" + tail))
    requires ParseCsv(tail) == Some(t)
    ensures ParseCsv(line + ("\n" + tail)) == Some([cells] + t)
  {
    assert ("\n" + tail)[1..] == tail;
  }

  /** Reading the export back gives, for each visible row in table order, its
      cells' trimmed texts. Rows without cells and a table without visible
      rows are excluded: both export as an empty line, which reads back as one
      empty field. */
  lemma {:induction false} ExportRoundTrip(rows: seq<Row>)
    requires exists x :: x in rows && !x.hidden
    requires forall x :: x in rows && !x.hidden ==> |x.cells| > 0
    ensures ParseCsv(CsvContent(rows)) == Some(TrimRows(Visible(rows)))
  {
    var v := Visible(rows);
    var x :| x in rows && !x.hidden;
    assert x in v;
    assert forall i :: 0 <= i < |v| ==> v[i] in v;
    LinesRoundTrip(v);
  }
}
