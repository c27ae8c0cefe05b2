/** The page helpers of `static/js/main.js` other than the CSV export: the
    table search with its 'no results' row, the default date of date inputs,
    and the responsive wrapper around tables. The DOM is reduced to the
    values these helpers read and write. */
module PageScripts {
  import opened Wrappers
  import opened JsText

  // ---------------------------------------------------------------- searchTable

  /** A `tbody` row: its text, whether it is displayed (its `display` is not
      `none`), and whether it is the 'no results' row the search adds. */
  datatype TableRow = TableRow(text: string, shown: bool, noResults: bool)

  const NoResultsText := "No matching records found"

  /** A row is shown when its lower-cased text contains the lower-cased
      search text. */
  predicate Matches(text: string, query: string) {
    Contains(ToLower(text), ToLower(query))
  }

  /** The first loop of the keyup handler: every `tbody` row, the 'no
      results' row included, is shown or hidden. */
  function Filter(rows: seq<TableRow>, query: string): (r: seq<TableRow>)
    ensures |r| == |rows|
    ensures forall i :: 0 <= i < |rows| ==> r[i] == rows[i].(shown := Matches(rows[i].text, query))
  {
    seq(|rows|, i requires 0 <= i < |rows| => rows[i].(shown := Matches(rows[i].text, query)))
  }

  /** How many rows are displayed. */
  function CountShown(rows: seq<TableRow>): nat
    decreases |rows|
  {
    if |rows| == 0 then 0 else (if rows[0].shown then 1 else 0) + CountShown(rows[1..])
  }

  function CountNoResults(rows: seq<TableRow>): (n: nat)
    ensures n == 0 <==> forall i :: 0 <= i < |rows| ==> !rows[i].noResults
    decreases |rows|
  {
    if |rows| == 0 then 0 else (if rows[0].noResults then 1 else 0) + CountNoResults(rows[1..])
  }

  /** `table.querySelector('tr.no-results')`: the first such row. */
  function FindNoResults(rows: seq<TableRow>): (r: Option<nat>)
    ensures r.None? <==> CountNoResults(rows) == 0
    ensures r.Some? ==> r.value < |rows| && rows[r.value].noResults
    ensures r.Some? ==> forall i :: 0 <= i < r.value ==> !rows[i].noResults
    decreases |rows|
  {
    if |rows| == 0 then None
    else if rows[0].noResults then Some(0)
    else match FindNoResults(rows[1..])
         case None => None
         case Some(k) => Some(k + 1)
  }

  /** The data rows, the 'no results' row left out. */
  function DataRows(rows: seq<TableRow>): seq<TableRow>
    decreases |rows|
  {
    if |rows| == 0 then [] else (if rows[0].noResults then [] else [rows[0]]) + DataRows(rows[1..])
  }

  /** The keyup handler of `searchTable`. It adds at most one row, the
      'no results' row at the end, and removes at most one. `hasHeader` says
      whether the table has a `thead tr`: the handler reads its cell count
      before it builds the row, so on a table without one it throws there,
      after the rows were filtered and before anything is added. */
  function Keyup(rows: seq<TableRow>, query: string, hasHeader: bool): (r: seq<TableRow>)
    ensures |rows| <= |r| + 1 && |r| <= |rows| + 1
    ensures |r| == |rows| + 1 ==>
              && hasHeader
              && r[..|rows|] == Filter(rows, query) && r[|rows|] == TableRow(NoResultsText, true, true)
    ensures !hasHeader ==> |r| <= |rows|
  {
    UpdateNoResults(Filter(rows, query), hasHeader)
  }

  /** The second half of the handler: add the 'no results' row when nothing
      is shown and there is none (throwing instead when the table has no
      header row), remove it when something is shown. */
  function UpdateNoResults(f: seq<TableRow>, hasHeader: bool): seq<TableRow> {
    var nr := FindNoResults(f);
    if CountShown(f) == 0 && nr.None? then (if hasHeader then f + [TableRow(NoResultsText, true, true)] else f)
    else if CountShown(f) > 0 && nr.Some? then f[..nr.value] + f[nr.value + 1..]
    else f
  }

  /** An empty search text matches every row. */
  lemma EmptySearchShowsAll(text: string)
    ensures Matches(text, "")
  {
    assert ToLower("") <= ToLower(text)[0..];
  }

  /** The search does not depend on letter case. */
  lemma SearchIgnoresCase(text: string, query: string)
    ensures Matches(ToUpper(text), query) <==> Matches(text, query)
  {
    assert ToLower(ToUpper(text)) == ToLower(text);
  }

  lemma {:induction false} CountConcat(a: seq<TableRow>, b: seq<TableRow>)
    ensures CountNoResults(a + b) == CountNoResults(a) + CountNoResults(b)
    ensures DataRows(a + b) == DataRows(a) + DataRows(b)
    decreases |a|
  {
    if |a| > 0 {
      var x := a[0];
      assert (a + b)[0] == x;
      assert (a + b)[1..] == a[1..] + b;
      CountConcat(a[1..], b);
      var head := if x.noResults then [] else [x];
      assert DataRows(a + b) == head + (DataRows(a[1..]) + DataRows(b));
      assert DataRows(a) == head + DataRows(a[1..]);
      assert head + (DataRows(a[1..]) + DataRows(b)) == (head + DataRows(a[1..])) + DataRows(b);
    } else {
      assert a + b == b;
    }
  }

  /** After a keystroke the 'no results' row is present exactly when no row
      matched, there is never more than one if there was at most one before,
      and the data rows are exactly the filtered ones, in order. On a table
      without a header row the row is never added, so it is present only
      when it was already there. */
  lemma KeyupNoResults(rows: seq<TableRow>, query: string, hasHeader: bool)
    requires CountNoResults(rows) <= 1
    ensures var r := Keyup(rows, query, hasHeader);
            && (CountNoResults(r) == 1 <==>
                  CountShown(Filter(rows, query)) == 0 && (hasHeader || CountNoResults(rows) == 1))
            && CountNoResults(r) <= 1
            && DataRows(r) == DataRows(Filter(rows, query))
  {
    var f := Filter(rows, query);
    assert forall i :: 0 <= i < |f| ==> f[i].noResults == rows[i].noResults;
    SameNoResults(rows, f);
    UpdateKeepsOne(f, hasHeader);
  }

  lemma UpdateKeepsOne(f: seq<TableRow>, hasHeader: bool)
    requires CountNoResults(f) <= 1
    ensures var r := UpdateNoResults(f, hasHeader);
            && (CountNoResults(r) == 1 <==> CountShown(f) == 0 && (hasHeader || CountNoResults(f) == 1))
            && CountNoResults(r) <= 1
            && DataRows(r) == DataRows(f)
  {
    var nr := FindNoResults(f);
    if CountShown(f) == 0 && nr.None? && hasHeader {
      var added := [TableRow(NoResultsText, true, true)];
      CountConcat(f, added);
      assert added[1..] == [];
    } else if CountShown(f) > 0 && nr.Some? {
      var k := nr.value;
      RemoveOne(f, k);
    }
  }

  lemma RemoveOne(f: seq<TableRow>, k: nat)
    requires k < |f| && f[k].noResults
    ensures CountNoResults(f[..k] + f[k + 1..]) == CountNoResults(f) - 1
    ensures DataRows(f[..k] + f[k + 1..]) == DataRows(f)
  {
    var a, x, b := f[..k], [f[k]], f[k + 1..];
    var xb := x + b;
    assert f == a + xb;
    var g := a + b;
    NoResultsSingle(f[k]);
    CountConcat(x, b);
    assert CountNoResults(xb) == 1 + CountNoResults(b);
    assert DataRows(xb) == DataRows(b);
    CountConcat(a, xb);
    assert CountNoResults(f) == CountNoResults(a) + CountNoResults(xb);
    assert DataRows(f) == DataRows(a) + DataRows(xb);
    CountConcat(a, b);
    assert CountNoResults(g) == CountNoResults(a) + CountNoResults(b);
    assert DataRows(g) == DataRows(a) + DataRows(b);
  }

  lemma NoResultsSingle(x: TableRow)
    requires x.noResults
    ensures CountNoResults([x]) == 1 && DataRows([x]) == []
  {
    assert [x][1..] == [];
  }

  lemma {:induction false} SameNoResults(a: seq<TableRow>, b: seq<TableRow>)
    requires |a| == |b| && forall i :: 0 <= i < |a| ==> a[i].noResults == b[i].noResults
    ensures CountNoResults(a) == CountNoResults(b)
    decreases |a|
  {
    if |a| > 0 {
      assert forall i :: 0 <= i < |a| - 1 ==> a[1..][i] == a[i + 1] && b[1..][i] == b[i + 1];
      SameNoResults(a[1..], b[1..]);
    }
  }

  // ---------------------------------------------------------------- the style attribute

  /** A row's `style` attribute: absent, present and empty, or holding
      `display: none`. Setting `style.display = ''` removes the declaration
      and rewrites the attribute only when there was one to remove, so a row
      that was never hidden keeps having no attribute at all. */
  datatype Style = NoAttr | EmptyAttr | HiddenDisplay

  /** A `tbody` row as the DOM holds it. */
  datatype DomRow = DomRow(text: string, style: Style, noResults: bool)

  /** `row.style.display = show ? '' : 'none'` */
  function SetDisplay(st: Style, show: bool): (r: Style)
    ensures !show ==> r == HiddenDisplay
    ensures show ==> r != HiddenDisplay && (r == EmptyAttr <==> st != NoAttr)
  {
    if !show then HiddenDisplay
    else match st
      case NoAttr => NoAttr
      case EmptyAttr => EmptyAttr
      case HiddenDisplay => EmptyAttr
  }

  /** What a DOM row shows: it is displayed unless its style hides it. */
  function AbsRow(d: DomRow): (t: TableRow)
    ensures t.text == d.text && t.noResults == d.noResults
    ensures t.shown <==> d.style != HiddenDisplay
  {
    TableRow(d.text, d.style != HiddenDisplay, d.noResults)
  }

  function Abstract(rows: seq<DomRow>): (r: seq<TableRow>)
    ensures |r| == |rows| && forall i :: 0 <= i < |rows| ==> r[i] == AbsRow(rows[i])
  {
    seq(|rows|, i requires 0 <= i < |rows| => AbsRow(rows[i]))
  }

  /** The first loop of the keyup handler on DOM rows. */
  function FilterDom(rows: seq<DomRow>, query: string): (r: seq<DomRow>)
    ensures |r| == |rows|
    ensures forall i :: 0 <= i < |rows| ==>
              r[i] == rows[i].(style := SetDisplay(rows[i].style, Matches(rows[i].text, query)))
  {
    seq(|rows|, i requires 0 <= i < |rows| =>
          rows[i].(style := SetDisplay(rows[i].style, Matches(rows[i].text, query))))
  }

  /** `table.querySelectorAll('tbody tr[style=""]').length`: the rows whose
      attribute is present and empty. */
  function CountSelected(rows: seq<DomRow>): nat
    decreases |rows|
  {
    if |rows| == 0 then 0 else (if rows[0].style == EmptyAttr then 1 else 0) + CountSelected(rows[1..])
  }

  /** The keyup handler as written: it counts the rows the attribute selector
      finds, and the row it adds is created without a style attribute. */
  function KeyupAsWritten(rows: seq<DomRow>, query: string, hasHeader: bool): seq<DomRow> {
    UpdateAsWritten(FilterDom(rows, query), hasHeader)
  }

  /** The second half of the handler as written. When it would add the row
      to a table without a `thead tr`, reading the header's cells throws and
      the filtered rows stay as they are. */
  function UpdateAsWritten(f: seq<DomRow>, hasHeader: bool): (r: seq<DomRow>)
    ensures CountSelected(f) == 0 && FindNoResults(Abstract(f)).None? && hasHeader ==>
              r == f + [DomRow(NoResultsText, NoAttr, true)]
    ensures CountSelected(f) == 0 && FindNoResults(Abstract(f)).None? && !hasHeader ==> r == f
    ensures CountSelected(f) > 0 && FindNoResults(Abstract(f)).Some? ==>
              |r| == |f| - 1 && CountNoResults(Abstract(r)) == CountNoResults(Abstract(f)) - 1
    ensures CountSelected(f) == 0 && FindNoResults(Abstract(f)).Some? ==> r == f
    ensures CountSelected(f) > 0 && FindNoResults(Abstract(f)).None? ==> r == f
  {
    var nr := FindNoResults(Abstract(f));
    if CountSelected(f) == 0 && nr.None? then (if hasHeader then f + [DomRow(NoResultsText, NoAttr, true)] else f)
    else if CountSelected(f) > 0 && nr.Some? then
      var k := nr.value;
      AbstractRemove(f, k);
      RemoveOne(Abstract(f), k);
      f[..k] + f[k + 1..]
    else f
  }

  lemma AbstractRemove(f: seq<DomRow>, k: nat)
    requires k < |f|
    ensures Abstract(f[..k] + f[k + 1..]) == Abstract(f)[..k] + Abstract(f)[k + 1..]
  {
    var a, b := Abstract(f[..k] + f[k + 1..]), Abstract(f)[..k] + Abstract(f)[k + 1..];
    assert |a| == |b|;
    forall i | 0 <= i < |a|
      ensures a[i] == b[i]
    {
      if i < k {
        assert (f[..k] + f[k + 1..])[i] == f[i];
      } else {
        assert (f[..k] + f[k + 1..])[i] == f[i + 1];
      }
    }
  }

  /** On a freshly rendered table, whose rows carry no style attribute, the
      first keystroke that some row matches still adds the 'no results' row:
      the matching row stays without an attribute, so the selector does not
      count it. */
  lemma UnstyledMatchAddsNote()
    ensures var r := KeyupAsWritten([DomRow("Alice Smith", NoAttr, false)], "alice", true);
            && r == [DomRow("Alice Smith", NoAttr, false), DomRow(NoResultsText, NoAttr, true)]
            && CountShown(Abstract(r)[..1]) == 1
  {
    var rows := [DomRow("Alice Smith", NoAttr, false)];
    assert ToLower("alice") <= ToLower("Alice Smith")[0..];
    assert Matches("Alice Smith", "alice");
    var f := FilterDom(rows, "alice");
    assert f == rows;
    assert CountSelected(f[1..]) == 0;
    assert Abstract(f)[1..] == [];
    var r := KeyupAsWritten(rows, "alice", true);
    assert Abstract(r)[..1][1..] == [];
  }

  /** Every row carries a style attribute. */
  predicate Styled(rows: seq<DomRow>) {
    forall i :: 0 <= i < |rows| ==> rows[i].style != NoAttr
  }

  lemma {:induction false} SelectedAreShown(f: seq<DomRow>)
    requires Styled(f)
    ensures CountSelected(f) == CountShown(Abstract(f))
    decreases |f|
  {
    if |f| > 0 {
      assert Abstract(f)[1..] == Abstract(f[1..]);
      SelectedAreShown(f[1..]);
    }
  }

  /** Once every row carries a style attribute the selector counts exactly
      the displayed rows, and the handler as written does what `Keyup`
      does. */
  lemma KeyupAgreesWhenStyled(rows: seq<DomRow>, query: string, hasHeader: bool)
    requires Styled(rows)
    ensures Abstract(KeyupAsWritten(rows, query, hasHeader)) == Keyup(Abstract(rows), query, hasHeader)
  {
    var f := FilterDom(rows, query);
    AbstractFilter(rows, query);
    assert Styled(f);
    SelectedAreShown(f);
    UpdateAgrees(f, hasHeader);
  }

  lemma UpdateAgrees(f: seq<DomRow>, hasHeader: bool)
    requires CountSelected(f) == CountShown(Abstract(f))
    ensures Abstract(UpdateAsWritten(f, hasHeader)) == UpdateNoResults(Abstract(f), hasHeader)
  {
    var g := Abstract(f);
    var nr := FindNoResults(g);
    if CountSelected(f) == 0 && nr.None? && hasHeader {
      var note := DomRow(NoResultsText, NoAttr, true);
      AbstractSnoc(f, note);
    } else if CountSelected(f) > 0 && nr.Some? {
      AbstractRemove(f, nr.value);
    }
  }

  lemma AbstractFilter(rows: seq<DomRow>, query: string)
    ensures Abstract(FilterDom(rows, query)) == Filter(Abstract(rows), query)
  {
    var a, b := Abstract(FilterDom(rows, query)), Filter(Abstract(rows), query);
    assert |a| == |b|;
    forall i | 0 <= i < |a|
      ensures a[i] == b[i]
    {
    }
  }

  lemma AbstractSnoc(f: seq<DomRow>, x: DomRow)
    ensures Abstract(f + [x]) == Abstract(f) + [AbsRow(x)]
  {
    var a, b := Abstract(f + [x]), Abstract(f) + [AbsRow(x)];
    assert |a| == |b|;
    forall i | 0 <= i < |a|
      ensures a[i] == b[i]
    {
      if i < |f| {
        assert (f + [x])[i] == f[i];
      }
    }
  }

  // ---------------------------------------------------------------- setupDatePickers

  /** `String(n).padStart(2, '0')` */
  function Pad2(n: nat): string {
    PadStart(NatToString(n), 2, '0')
  }

  /** A number below 100 is written with exactly two digits that read back
      as the number. */
  lemma Pad2Digits(n: nat)
    requires n < 100
    ensures |Pad2(n)| == 2 && AllDigits(Pad2(n)) && DecimalValue(Pad2(n)) == n
  {
    DecimalRoundTrip(n);
    var s := NatToString(n);
    if n < 10 {
      assert Pad2(n) == Repeat('0', 1) + s;
      LeadingZeros(1, s);
    } else {
      assert NatToString(n / 10) == [DigitChar(n / 10)];
    }
  }

  /** What `new Date()` reports: `getFullYear()`, `getMonth()` (counted
      from 0) and `getDate()`. */
  datatype Today = Today(year: int, monthIndex: nat, day: nat)

  /** `${year}-${month}-${day}` with month = `getMonth() + 1` and month and
      day padded to two digits. */
  function FormatDate(t: Today): string {
    IntToString(t.year) + "-" + Pad2(t.monthIndex + 1) + "-" + Pad2(t.day)
  }

  /** For a four-digit year the default is a `YYYY-MM-DD` text whose three
      parts read back as the year, the calendar month (1 to 12) and the day. */
  lemma FormatDateShape(t: Today)
    requires 1000 <= t.year <= 9999 && t.monthIndex < 12 && 1 <= t.day <= 31
    ensures var r := FormatDate(t);
            && |r| == 10 && r[4] == '-' && r[7] == '-'
            && AllDigits(r[..4]) && DecimalValue(r[..4]) == t.year
            && AllDigits(r[5..7]) && DecimalValue(r[5..7]) == t.monthIndex + 1
            && AllDigits(r[8..]) && DecimalValue(r[8..]) == t.day
  {
    var y := NatToString(t.year);
    DecimalRoundTrip(t.year);
    YearDigits(t.year);
    Pad2Digits(t.monthIndex + 1);
    Pad2Digits(t.day);
    var r := FormatDate(t);
    assert r == y + "-" + Pad2(t.monthIndex + 1) + "-" + Pad2(t.day);
    assert r[..4] == y;
    assert r[5..7] == Pad2(t.monthIndex + 1);
    assert r[8..] == Pad2(t.day);
  }

  lemma YearDigits(y: nat)
    requires 1000 <= y <= 9999
    ensures |NatToString(y)| == 4
  {
    assert |NatToString(y / 10 / 10 / 10)| == 1;
    assert |NatToString(y / 10 / 10)| == 2;
    assert |NatToString(y / 10)| == 3;
  }

  /** The date input's value after `setupDatePickers`: today's date only when
      the input asks for it and is empty, otherwise untouched. */
  function DefaultDate(hasDefaultToday: bool, value: string, t: Today): (r: string)
    ensures hasDefaultToday && value == "" ==> r == FormatDate(t)
    ensures !(hasDefaultToday && value == "") ==> r == value
  {
    if hasDefaultToday && value == "" then FormatDate(t) else value
  }

  /** Running the set-up again changes nothing once it has run. */
  lemma DefaultDateStable(hasDefaultToday: bool, value: string, t: Today, later: Today)
    ensures DefaultDate(hasDefaultToday, DefaultDate(hasDefaultToday, value, t), later)
            == DefaultDate(hasDefaultToday, value, t)
  {
    assert |FormatDate(t)| > 0;
  }

  // ---------------------------------------------------------------- setupResponsiveTables

  const ResponsiveClass := "table-responsive"

  /** The class lists of a table's ancestors, its parent first. */
  datatype Placement = Placement(ancestors: seq<set<string>>)

  /** A table whose parent lacks `table-responsive` gets a new parent that
      has it; the old ancestors stay above it. */
  function Wrap(p: Placement): (r: Placement)
    requires |p.ancestors| > 0
    ensures |r.ancestors| > 0 && ResponsiveClass in r.ancestors[0]
    ensures ResponsiveClass in p.ancestors[0] ==> r == p
    ensures ResponsiveClass !in p.ancestors[0] ==>
              r.ancestors == [{ResponsiveClass}] + p.ancestors
  {
    if ResponsiveClass in p.ancestors[0] then p
    else Placement([{ResponsiveClass}] + p.ancestors)
  }

  /** A table is wrapped at most once. */
  lemma WrapIdempotent(p: Placement)
    requires |p.ancestors| > 0
    ensures Wrap(Wrap(p)) == Wrap(p)
  {
  }
}
