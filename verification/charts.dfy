/** The chart helpers of `static/js/charts.js`: colour cycling, the choice
    of chart type, the guards that hide a canvas when there is nothing to
    draw, and the pie chart's present/absent split read from data attributes.
    Chart.js itself, its options and tooltips are not modelled; a chart is
    recorded by its type, labels and background colours. */
module Charts {
  import opened Wrappers
  import opened JsText

  // ---------------------------------------------------------------- colours

  /** Teal, blue, purple, orange, pink, yellow, grey. */
  const BaseColors: seq<string> := [
    "rgba(75, 192, 192, 0.8)",
    "rgba(54, 162, 235, 0.8)",
    "rgba(153, 102, 255, 0.8)",
    "rgba(255, 159, 64, 0.8)",
    "rgba(255, 99, 132, 0.8)",
    "rgba(255, 206, 86, 0.8)",
    "rgba(199, 199, 199, 0.8)"
  ]

  /** `generateColors(count)`: one colour per index, cycling through the base
      colours; a count of zero or less gives no colours. */
  function GenerateColors(count: int): (colors: seq<string>)
    ensures |colors| == if count > 0 then count else 0
    ensures forall i :: 0 <= i < |colors| ==> colors[i] == BaseColors[i % |BaseColors|]
    decreases count
  {
    if count <= 0 then []
    else GenerateColors(count - 1) + [BaseColors[(count - 1) % |BaseColors|]]
  }

  /** Fewer colours are a prefix of more, and the list repeats every seven
      entries. */
  lemma ColorsPrefixAndPeriod(n: int, m: int)
    requires n <= m
    ensures GenerateColors(m)[..|GenerateColors(n)|] == GenerateColors(n)
    ensures forall i :: 0 <= i && i + 7 < |GenerateColors(m)| ==>
              GenerateColors(m)[i + 7] == GenerateColors(m)[i]
  {
    var small, big := GenerateColors(n), GenerateColors(m);
    assert big[..|small|] == small by {
      forall i | 0 <= i < |small|
        ensures big[i] == small[i]
      {
        assert big[i] == BaseColors[i % 7];
      }
    }
    forall i | 0 <= i && i + 7 < |big|
      ensures big[i + 7] == big[i]
    {
      assert (i + 7) % 7 == i % 7;
    }
  }

  // ---------------------------------------------------------------- charts

  datatype Kind = Line | Bar | Pie

  /** A dataset's background: one colour per label, one colour for all, or
      none given. */
  datatype Fill = PerLabel(colors: seq<string>) | Uniform(color: string) | Unset

  datatype Chart = Chart(kind: Kind, labels: seq<string>, fill: Fill)

  /** A canvas element: whether it is displayed, and the message elements
      appended after it. */
  datatype Canvas = Canvas(shown: bool, notes: seq<string>)

  /** The page: the canvases by element id, and the `charts` object of the
      `AttendanceCharts` instance. */
  datatype Page = Page(canvases: map<string, Canvas>, charts: map<string, Chart>)

  const DailyCanvas := "daily-attendance-chart"
  const ActivityCanvas := "activity-rate-chart"
  const ReportCanvas := "attendance-report-chart"
  const PieCanvas := "attendance-pie-chart"
  const NoDataNote := "No attendance data available for the selected period."

  function Hide(p: Page, id: string): Page
    requires id in p.canvases
  {
    p.(canvases := p.canvases[id := p.canvases[id].(shown := false)])
  }

  /** `createDailyAttendanceChart`: a line chart of the last days' counts
      under the key `dailyAttendance`; without dates the canvas is hidden and
      a note is appended instead. */
  function DailyChart(p: Page, dates: seq<string>): (r: Page)
    ensures DailyCanvas !in p.canvases ==> r == p
    ensures DailyCanvas in p.canvases && |dates| == 0 ==>
              r.charts == p.charts && DailyCanvas in r.canvases &&
              r.canvases[DailyCanvas] == Canvas(false, p.canvases[DailyCanvas].notes + [NoDataNote])
    ensures DailyCanvas in p.canvases && |dates| > 0 ==>
              r.canvases == p.canvases && r.charts == p.charts["dailyAttendance" := Chart(Line, dates, Unset)]
  {
    if DailyCanvas !in p.canvases then p
    else if |dates| == 0 then
      var c := p.canvases[DailyCanvas];
      p.(canvases := p.canvases[DailyCanvas := Canvas(false, c.notes + [NoDataNote])])
    else p.(charts := p.charts["dailyAttendance" := Chart(Line, dates, Unset)])
  }

  /** `createActivityRateChart`: a bar chart with one colour per activity
      under the key `activityRate`; without activities the canvas is hidden. */
  function ActivityChart(p: Page, activities: seq<string>): (r: Page)
    ensures ActivityCanvas !in p.canvases ==> r == p
    ensures ActivityCanvas in p.canvases && |activities| == 0 ==> r == Hide(p, ActivityCanvas)
    ensures ActivityCanvas in p.canvases && |activities| > 0 ==>
              r.canvases == p.canvases &&
              r.charts == p.charts["activityRate" := Chart(Bar, activities, PerLabel(GenerateColors(|activities|)))]
  {
    if ActivityCanvas !in p.canvases then p
    else if |activities| == 0 then Hide(p, ActivityCanvas)
    else p.(charts := p.charts["activityRate" := Chart(Bar, activities, PerLabel(GenerateColors(|activities|)))])
  }

  /** The report chart's type: a line beyond ten labels, else bars. */
  function ReportKind(labelCount: nat): (k: Kind)
    ensures k == Line <==> labelCount > 10
    ensures k == Bar <==> labelCount <= 10
  {
    if labelCount > 10 then Line else Bar
  }

  /** `createAttendanceReportChart(canvasId, labels, ...)`: the chart is
      stored under the canvas id; only bars get a colour per label. */
  function ReportChart(p: Page, canvasId: string, labels: seq<string>): (r: Page)
    ensures canvasId !in p.canvases ==> r == p
    ensures canvasId in p.canvases && |labels| == 0 ==> r == Hide(p, canvasId)
    ensures canvasId in p.canvases && |labels| > 0 ==> r.canvases == p.canvases && canvasId in r.charts
  {
    if canvasId !in p.canvases then p
    else if |labels| == 0 then Hide(p, canvasId)
    else
      var kind := ReportKind(|labels|);
      var fill := if kind == Bar then PerLabel(GenerateColors(|labels|)) else Uniform("rgba(75, 192, 192, 0.2)");
      p.(charts := p.charts[canvasId := Chart(kind, labels, fill)])
  }

  /** A drawn report chart: a line chart with one uniform fill beyond ten
      labels, else a bar chart with exactly one colour per label; no other
      chart is touched. */
  lemma ReportChartShape(p: Page, canvasId: string, labels: seq<string>)
    requires canvasId in p.canvases && |labels| > 0
    ensures var c := ReportChart(p, canvasId, labels).charts[canvasId];
            c.labels == labels &&
            (c.kind == Line <==> |labels| > 10) &&
            (c.fill.PerLabel? <==> c.kind == Bar) &&
            (c.fill.PerLabel? ==> |c.fill.colors| == |labels|)
    ensures forall k :: k in p.charts && k != canvasId ==>
              k in ReportChart(p, canvasId, labels).charts && ReportChart(p, canvasId, labels).charts[k] == p.charts[k]
  {
  }

  /** With nothing to show, none of the three data charts registers a chart,
      and an existing canvas ends hidden. */
  lemma EmptyDataRegistersNothing(p: Page, canvasId: string)
    ensures DailyChart(p, []).charts == p.charts
    ensures ActivityChart(p, []).charts == p.charts
    ensures ReportChart(p, canvasId, []).charts == p.charts
    ensures canvasId in p.canvases ==> !ReportChart(p, canvasId, []).canvases[canvasId].shown
  {
  }

  // ---------------------------------------------------------------- pie

  /** A JavaScript number as far as this page uses it: an integer or NaN. */
  datatype JsNumber = Num(value: int) | NaN

  function Minus(a: JsNumber, b: JsNumber): JsNumber {
    if a.Num? && b.Num? then Num(a.value - b.value) else NaN
  }

  /** How many leading characters of `s` are decimal digits. */
  function DigitPrefix(s: string): (n: nat)
    ensures n <= |s| && AllDigits(s[..n])
    ensures n == |s| || !IsDigit(s[n])
  {
    if |s| == 0 || !IsDigit(s[0]) then 0
    else
      var n := 1 + DigitPrefix(s[1..]);
      assert s[..n] == [s[0]] + s[1..][..n - 1];
      n
  }

  /** `parseInt(s)` in base ten: leading white space, an optional sign and
      the longest run of digits after it; NaN when there is no digit. */
  function ParseInt(s: string): (r: JsNumber)
    ensures r.Num? ==> exists k :: 0 <= k < |s| && IsDigit(s[k])
  {
    var t := s[LeadingSpaces(s)..];
    var signed := |t| > 0 && (t[0] == '-' || t[0] == '+');
    var u := if signed then t[1..] else t;
    var n := DigitPrefix(u);
    if n == 0 then NaN
    else
      var k := |s| - |u|;
      assert u[0] == s[k];
      var v: int := DecimalValue(u[..n]);
      Num(if signed && t[0] == '-' then -v else v)
  }

  /** The spelling of an integer parses back to it. */
  lemma ParseIntRoundTrip(i: int)
    ensures ParseInt(IntToString(i)) == Num(i)
  {
    var s := IntToString(i);
    var m: nat := if i < 0 then -i else i;
    var d := NatToString(m);
    assert LeadingSpaces(s) == 0 by {
      assert !IsSpace(s[0]) by { assert s[0] == '-' || IsDigit(s[0]); }
    }
    assert s[0..] == s;
    var u := if i < 0 then s[1..] else s;
    assert u == d;
    assert DigitPrefix(d) == |d|;
    assert d[..|d|] == d;
    DecimalRoundTrip(m);
  }

  /** `parseInt(el.dataset.x || 0)`: a missing or empty attribute reads as 0. */
  function AttrNumber(attr: Option<string>): (r: JsNumber)
    ensures attr.None? ==> r == Num(0)
  {
    if attr.None? || attr.value == "" then Num(0) else ParseInt(attr.value)
  }

  /** The pie chart's two slices, attended and absent, where absent is the
      total minus the attended count. */
  function PieCounts(attended: Option<string>, total: Option<string>): (r: (JsNumber, JsNumber))
    ensures r.0 == AttrNumber(attended)
    ensures r.0.Num? && AttrNumber(total).Num? <==> r.1.Num?
    ensures r.1.Num? ==> r.0.value + r.1.value == AttrNumber(total).value
  {
    var a := AttrNumber(attended);
    (a, Minus(AttrNumber(total), a))
  }

  /** The page script on a page with the pie canvas: the chart is stored
      under the canvas id with its two labels and colours. */
  function PieChart(p: Page, attended: Option<string>, total: Option<string>): (r: (Page, JsNumber, JsNumber))
    ensures PieCanvas !in p.canvases ==> r.0 == p
    ensures PieCanvas in p.canvases ==> PieCanvas in r.0.charts && r.0.charts[PieCanvas].kind == Pie
    ensures (r.1, r.2) == PieCounts(attended, total)
  {
    var (a, b) := PieCounts(attended, total);
    if PieCanvas !in p.canvases then (p, a, b)
    else
      var c := Chart(Pie, ["Present", "Absent"], PerLabel(["rgba(75, 192, 192, 0.8)", "rgba(255, 99, 132, 0.8)"]));
      (p.(charts := p.charts[PieCanvas := c]), a, b)
  }

  /** Counts rendered by the server read back exactly, so the slices are the
      attended count and the rest; with neither attribute both are 0. */
  lemma PieFromRenderedCounts(attended: nat, total: nat)
    ensures PieCounts(Some(NatToString(attended)), Some(NatToString(total))) ==
              (Num(attended), Num(total - attended))
    ensures PieCounts(None, None) == (Num(0), Num(0))
  {
    ParseIntRoundTrip(attended);
    ParseIntRoundTrip(total);
  }
}
