/**
  The sleep-posture distribution chart: the query window chosen by the date
  range selector, and the three pie-chart entries computed from the fetched
  positions.
 */
module PostureDistribution {

  import opened Wrappers
  import opened Text
  import opened Tally

  // ---------------------------------------------------------------- date range

  datatype DateRange = Last7Days | Last30Days | Custom

  /**
    The bounds put on `recorded_at`: a lower bound in milliseconds since the
    epoch, both custom dates (`gte` start, `lte` end), or none.
   */
  datatype Window = Since(fromMs: int) | Between(start: string, end: string) | Unbounded

  const DayMs: int := 24 * 60 * 60 * 1000

  /** The window for the selected range, with `Date.now()` passed in as nowMs. */
  function QueryWindow(range: DateRange, nowMs: int, customStart: string, customEnd: string): (w: Window)
    ensures range == Last7Days ==> w == Since(nowMs - 7 * 86400000)
    ensures range == Last30Days ==> w == Since(nowMs - 30 * 86400000)
    ensures range == Custom ==> (w.Between? <==> customStart != "" && customEnd != "")
    ensures w.Between? ==> w == Between(customStart, customEnd)
  {
    match range
    case Last7Days => Since(nowMs - 7 * DayMs)
    case Last30Days => Since(nowMs - 30 * DayMs)
    case Custom => if customStart != "" && customEnd != "" then Between(customStart, customEnd) else Unbounded
  }

  /**
    Whether a row recorded at tMs passes the window; the custom dates are
    read as instants by toMs (the data store's own date parsing).
   */
  predicate Admits(w: Window, tMs: int, toMs: string -> int) {
    match w
    case Since(fromMs) => fromMs <= tMs
    case Between(start, end) => toMs(start) <= tMs <= toMs(end)
    case Unbounded => true
  }

  /** The last seven days lie within the last thirty, and a half-filled custom range filters nothing. */
  lemma WindowsNest(nowMs: int, tMs: int, customStart: string, customEnd: string, toMs: string -> int)
    ensures Admits(QueryWindow(Last7Days, nowMs, customStart, customEnd), tMs, toMs)
        ==> Admits(QueryWindow(Last30Days, nowMs, customStart, customEnd), tMs, toMs)
    ensures customStart == "" || customEnd == "" ==> Admits(QueryWindow(Custom, nowMs, customStart, customEnd), tMs, toMs)
    ensures Admits(QueryWindow(Last7Days, nowMs, customStart, customEnd), tMs, toMs) <==> nowMs - tMs <= 604800000
  {
  }

  // ---------------------------------------------------------------- chart entries

  /** The chart labels, in display order, and their colours. */
  const Postures: seq<string> := ["Right", "Left", "Supine Position"]
  const Colors: seq<string> := ["#10b981", "#3b82f6", "#f59e0b"]

  datatype ChartEntry = ChartEntry(name: string, value: nat, color: string)

  /** The slice label: the posture followed by its rounded share, as in "Right (50%)". */
  function SliceName(posture: string, percent: nat): string {
    posture + " (" + Decimal(percent) + "%)"
  }

  /** `counts[posture] || 0`: a key that was never counted reads as 0. */
  function CountOf(counts: map<string, nat>, k: string): (n: nat)
    ensures k !in counts ==> n == 0
  {
    if k in counts then counts[k] else 0
  }

  /**
    chart is the chart for the fetched positions rows: one entry per label,
    in label order, with the number of rows carrying exactly that label,
    its rounded share of all rows, and the label's colour.
   */
  predicate IsChartOf(rows: seq<string>, chart: seq<ChartEntry>) {
      && |chart| == |Postures|
      && forall i :: 0 <= i < |chart| ==>
           && chart[i].value == multiset(rows)[Postures[i]]
           && chart[i].name == SliceName(Postures[i], Percent(multiset(rows)[Postures[i]], |rows|))
           && chart[i].color == Colors[i]
  }

  /**
    The chart data computed after the fetch: `data || []` is tallied in a
    `forEach` loop, the total is the sum of all counts (so positions that
    are none of the three labels still count), and each of the three
    labels gets its count, its rounded percentage of the total and its
    colour.
   */
  method PostureChart(data: Option<seq<string>>) returns (chart: seq<ChartEntry>)
    ensures IsChartOf(if data.Some? then data.value else [], chart)
  {
    var rows := if data.Some? then data.value else [];
    var keys, counts := CountKeys(rows);
    var total := SumCounts(keys, counts);
    TallyTotal(rows, keys, counts);
    chart := seq(|Postures|, i requires 0 <= i < |Postures| =>
      ChartEntry(SliceName(Postures[i], Percent(CountOf(counts, Postures[i]), total)),
                 CountOf(counts, Postures[i]), Colors[i]));
  }

  /** Counts of three distinct labels add up to at most the number of rows. */
  lemma {:induction false} ThreeCountsBound(rows: seq<string>, a: string, b: string, c: string)
    requires a != b && b != c && a != c
    ensures multiset(rows)[a] + multiset(rows)[b] + multiset(rows)[c] <= |rows|
  {
    if rows != [] {
      var init := rows[..|rows| - 1];
      assert rows == init + [rows[|rows| - 1]];
      ThreeCountsBound(init, a, b, c);
    }
  }

  /**
    The three chart values never add up to more than the rows fetched, and
    every shown percentage lies between 0 and 100.
   */
  lemma ChartBounded(rows: seq<string>, chart: seq<ChartEntry>)
    requires IsChartOf(rows, chart)
    ensures chart[0].value + chart[1].value + chart[2].value <= |rows|
    ensures forall i :: 0 <= i < |chart| ==> Percent(chart[i].value, |rows|) <= 100
  {
    ThreeCountsBound(rows, Postures[0], Postures[1], Postures[2]);
    forall i | 0 <= i < |chart| ensures Percent(chart[i].value, |rows|) <= 100 {
      assert chart[i].value <= chart[0].value + chart[1].value + chart[2].value;
    }
  }

  /** With nothing fetched every slice is empty and shows 0%. */
  lemma EmptyChart(chart: seq<ChartEntry>)
    requires IsChartOf([], chart)
    ensures forall i :: 0 <= i < |chart| ==> chart[i].value == 0 && chart[i].name == Postures[i] + " (0%)"
  {
  }

  /**
    A row whose position is none of the three labels ("Supine", say) leaves
    every slice's value as it was, while each share is now taken of one row
    more.
   */
  lemma UnlistedRowCountsOnlyInTotal(rows: seq<string>, x: string, before: seq<ChartEntry>, after: seq<ChartEntry>)
    requires x !in Postures
    requires IsChartOf(rows, before) && IsChartOf(rows + [x], after)
    ensures forall i :: 0 <= i < |after| ==> after[i].value == before[i].value
    ensures forall i :: 0 <= i < |after| ==>
      after[i].name == SliceName(Postures[i], Percent(before[i].value, |rows| + 1))
  {
    assert multiset(rows + [x]) == multiset(rows) + multiset{x};
  }

  /**
    The alert rules call the back posture "Supine", the chart "Supine
    Position". Rows labelled "Supine" enter the total but no slice: for
    Right, Right, Left, Supine the slices read 50%, 25% and 0%.
   */
  lemma SupineRowsCountOnlyInTotal()
    ensures var rows := ["Right", "Right", "Left", "Supine"];
      && multiset(rows)[Postures[0]] == 2 && Percent(2, |rows|) == 50
      && multiset(rows)[Postures[1]] == 1 && Percent(1, |rows|) == 25
      && multiset(rows)[Postures[2]] == 0 && Percent(0, |rows|) == 0
  {
    var rows := ["Right", "Right", "Left", "Supine"];
    assert rows == ["Right"] + ["Right"] + ["Left"] + ["Supine"];
    PercentExact(2, 4, 50);
    PercentExact(1, 4, 25);
  }

  /** A share that is an exact whole percentage is shown as that number. */
  lemma PercentExact(count: nat, total: nat, p: nat)
    requires total > 0 && 100 * count == p * total
    ensures Percent(count, total) == p
  {
    var q, d := Percent(count, total), 2 * total;
    assert d * q <= d * p + total < d * (q + 1);
    assert d * (p + 1) == d * p + d;
    ProductOrder(d, q, p + 1);
    ProductOrder(d, p, q + 1);
  }
}
