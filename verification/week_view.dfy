/**
  The selected week's view: the rows of that week, the displayed window,
  the top agent, and the recomputed View→App column.
 */
module WeekView {
  import opened Basics
  import opened Dates
  import opened Rates
  import opened Ordering
  import opened Funnel
  import opened FunnelProperties
  import opened WeekResolver

  /** The rows of one week and the window shown for it. */
  datatype View = View(rows: seq<WeeklyRow>, start: int, end: int)

  /** The rows whose week starts on `week`, keeping the rows' order. */
  function RowsOfWeek(rows: seq<WeeklyRow>, week: int): (r: seq<WeeklyRow>)
    ensures forall x :: x in r <==> x in rows && x.weekStart == week
    ensures forall x :: multiset(r)[x] == if x.weekStart == week then multiset(rows)[x] else 0
    ensures |r| <= |rows|
  {
    FilterMultiset(rows, (x: WeeklyRow) => x.weekStart == week);
    Filter(rows, (x: WeeklyRow) => x.weekStart == week)
  }

  /**
    The week's rows and its window: the start is the first row's
    `week_start` when there are rows and the selected week otherwise, the
    end six days later.
   */
  function ViewOf(rows: seq<WeeklyRow>, week: int): (v: View)
    ensures forall x :: x in v.rows <==> x in rows && x.weekStart == week
    ensures forall x :: multiset(v.rows)[x] == if x.weekStart == week then multiset(rows)[x] else 0
    ensures v.start == week
    ensures v.end == week + 6
  {
    var weekRows := RowsOfWeek(rows, week);
    var start := if |weekRows| > 0 then weekRows[0].weekStart else week;
    assert |weekRows| > 0 ==> weekRows[0] in weekRows;
    View(weekRows, start, WeekEnd(start))
  }

  /**
    Round trip: for a week of the week list of well-formed rows (such as the
    query's output) the view is not empty, every row in it starts on the
    window's start and ends on its end, and its agents are strictly
    ascending.
   */
  lemma ViewRoundTrip(rows: seq<WeeklyRow>, week: int)
    requires WellFormedRows(rows)
    requires week in WeekList(rows)
    ensures var v := ViewOf(rows, week);
      && |v.rows| > 0
      && (forall x :: x in v.rows ==> x.weekStart == v.start && x.weekEnd == v.end)
      && (forall i, j :: 0 <= i < j < |v.rows| ==> StrLess(v.rows[i].agent, v.rows[j].agent))
  {
    var v := ViewOf(rows, week);
    var r :| r in rows && r.weekStart == week;
    assert r in v.rows;
    forall x | x in v.rows ensures x.weekEnd == v.end {
      var i :| 0 <= i < |rows| && rows[i] == x;
      assert RowInvariant(rows[i]);
    }
    WeekRowsAgentsAscending(rows, week);
  }

  /** The rows of one week of well-formed rows have strictly ascending agents. */
  lemma WeekRowsAgentsAscending(rows: seq<WeeklyRow>, week: int)
    requires WellFormedRows(rows)
    ensures var wr := RowsOfWeek(rows, week);
      forall i, j :: 0 <= i < j < |wr| ==> StrLess(wr[i].agent, wr[j].agent)
  {
    var wr := RowsOfWeek(rows, week);
    var rowLess := (a: WeeklyRow, b: WeeklyRow) => KeyLess(RowKey(a), RowKey(b));
    assert StrictlySorted(rows, rowLess);
    FilterSorted(rows, (x: WeeklyRow) => x.weekStart == week, rowLess);
    forall i, j | 0 <= i < j < |wr| ensures StrLess(wr[i].agent, wr[j].agent) {
      assert wr[i] in wr && wr[j] in wr;
      assert rowLess(wr[i], wr[j]);
    }
  }

  /**
    Row `i` has the largest non-NULL `total_conversion_rate` and every
    earlier non-NULL rate is smaller: pandas' `idxmax`, which skips NULL and
    keeps the first of equal maxima.
   */
  predicate IsFirstMax(rows: seq<WeeklyRow>, i: int)
  {
    && 0 <= i < |rows|
    && rows[i].totalConversionRate.Some?
    && (forall j :: 0 <= j < |rows| && rows[j].totalConversionRate.Some? ==>
          rows[j].totalConversionRate.value <= rows[i].totalConversionRate.value)
    && (forall j :: 0 <= j < i && rows[j].totalConversionRate.Some? ==>
          rows[j].totalConversionRate.value < rows[i].totalConversionRate.value)
  }

  /** The index of the top agent's row by total conversion rate; None when every rate is NULL. */
  method TopIndex(rows: seq<WeeklyRow>) returns (top: Option<nat>)
    ensures top.None? <==> forall j :: 0 <= j < |rows| ==> rows[j].totalConversionRate.None?
    ensures top.Some? ==> IsFirstMax(rows, top.value)
  {
    top := None;
    var j := 0;
    while j < |rows|
      invariant 0 <= j <= |rows|
      invariant top.None? <==> forall m :: 0 <= m < j ==> rows[m].totalConversionRate.None?
      invariant top.Some? ==> IsFirstMax(rows[..j], top.value)
    {
      var rate := rows[j].totalConversionRate;
      if rate.Some? && (top.None? || rows[top.value].totalConversionRate.value < rate.value) {
        top := Some(j);
      }
      assert rows[..j + 1] == rows[..j] + [rows[j]];
      j := j + 1;
    }
    assert rows[..j] == rows;
  }

  /** The top agent of the week's rows: `top_row["agent"]`. */
  method TopAgent(rows: seq<WeeklyRow>) returns (agent: Option<string>)
    ensures agent.None? <==> forall j :: 0 <= j < |rows| ==> rows[j].totalConversionRate.None?
    ensures agent.Some? ==> exists i :: IsFirstMax(rows, i) && rows[i].agent == agent.value
  {
    var top := TopIndex(rows);
    agent := if top.Some? then Some(rows[top.value].agent) else None;
  }

  /**
    In the view of a week of well-formed rows every rate is present, so
    there is a top agent.
   */
  lemma TopAgentExists(rows: seq<WeeklyRow>, week: int)
    requires WellFormedRows(rows)
    requires week in WeekList(rows)
    ensures var v := ViewOf(rows, week);
      exists j :: 0 <= j < |v.rows| && v.rows[j].totalConversionRate.Some?
  {
    var v := ViewOf(rows, week);
    ViewRoundTrip(rows, week);
    assert v.rows[0] in rows;
    var i :| 0 <= i < |rows| && rows[i] == v.rows[0];
    assert RowInvariant(rows[i]);
  }

  /**
    The "View→App (%)" column: `applications / total_viewings * 100`
    with infinity and NaN replaced by 0, rounded to one decimal by pandas
    (half to even). In tenths of a percent.
   */
  function ViewToAppDisplay(r: WeeklyRow): (d: nat)
    ensures r.totalViewings == 0 ==> d == 0
    ensures r.totalViewings > 0 ==>
      2 * Full * r.applications - r.totalViewings <= 2 * r.totalViewings * d <= 2 * Full * r.applications + r.totalViewings
  {
    if r.totalViewings == 0 then 0 else RoundHalfEven(Full * r.applications, r.totalViewings)
  }

  /**
    On a well-formed row the column repeats `view_to_app_rate` except when
    the exact ratio ends in a half of a tenth.
   */
  lemma DisplayMatchesRate(r: WeeklyRow)
    requires RowInvariant(r)
    requires 2 * (Full * r.applications % r.totalViewings) != r.totalViewings
    ensures r.viewToAppRate == Some(ViewToAppDisplay(r))
  {
    HalfEvenAgreesOffTies(Full * r.applications, r.totalViewings);
  }

  /** At a half they differ: one applicant among sixteen viewers shows 6.2 against the query's 6.3. */
  lemma DisplayDiffersAtHalf(k: GroupKey)
    ensures MetricRow(k, 16, 1, 0).viewToAppRate == Some(63)
    ensures ViewToAppDisplay(MetricRow(k, 16, 1, 0)) == 62
  {
    HalfEvenDiffersAtTie();
  }
}
