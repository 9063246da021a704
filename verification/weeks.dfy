/**
  Week selection: the sorted list of distinct week starts, the session's
  stored index into it, and the jump to the dataset week nearest a picked
  date.
 */
module WeekResolver {
  import opened Basics
  import opened Dates
  import opened Ordering
  import opened Funnel
  import opened FunnelProperties

  datatype ResolveError =
    | NoWeeksAvailable        // `argmin` of an empty list
    | IndexOutOfRange(index: int)  // `valid_weeks[index]` outside the list

  datatype Result<T> = Ok(value: T) | Err(error: ResolveError)

  /** The per-session state: `selected_index`, absent until first stored. */
  datatype Session = Session(selectedIndex: Option<int>)

  /** A resolved week and the index stored for it. */
  datatype Selection = Selection(week: int, index: nat)

  predicate IntLess(a: int, b: int)
  {
    a < b
  }

  lemma IntLessIsStrictTotalOrder()
    ensures StrictTotalOrder(IntLess)
  {
  }

  /** The `week_start` column. */
  function WeekStarts(rows: seq<WeeklyRow>): (ws: seq<int>)
    ensures forall w :: w in ws <==> exists r :: r in rows && r.weekStart == w
  {
    var ws := seq(|rows|, i requires 0 <= i < |rows| => rows[i].weekStart);
    assert forall r :: r in rows ==> r.weekStart in ws by {
      forall r | r in rows ensures r.weekStart in ws {
        var i :| 0 <= i < |rows| && rows[i] == r;
        assert ws[i] == r.weekStart;
      }
    }
    ws
  }

  /** `sorted(df["week_start"].unique())`. */
  function WeekList(rows: seq<WeeklyRow>): (weeks: seq<int>)
    ensures StrictlySorted(weeks, IntLess)
    ensures forall w :: w in weeks <==> exists r :: r in rows && r.weekStart == w
  {
    IntLessIsStrictTotalOrder();
    SortedDistinct(WeekStarts(rows), IntLess)
  }

  /** `len(valid_weeks) - 1`: the most recent week. */
  function InitialIndex(weeks: seq<int>): int
  {
    |weeks| - 1
  }

  /** `valid_weeks[index]`: Python indexing, a negative index counting from the end. */
  function WeekAt(weeks: seq<int>, index: int): (r: Result<int>)
    ensures r.Ok? <==> -|weeks| <= index < |weeks|
    ensures r.Err? ==> r.error == IndexOutOfRange(index)
    ensures r.Ok? ==> r.value in weeks
    ensures r.Ok? ==> |weeks| > 0 && r.value == weeks[index % |weeks|]
  {
    if 0 <= index < |weeks| then Ok(weeks[index])
    else if -|weeks| <= index < 0 then Ok(weeks[|weeks| + index])
    else Err(IndexOutOfRange(index))
  }

  /**
    The first selection is the most recent week; with no weeks at all the
    lookup of index -1 fails.
   */
  lemma InitialSelectionIsLatest(weeks: seq<int>)
    requires StrictlySorted(weeks, IntLess)
    ensures |weeks| == 0 <==> WeekAt(weeks, InitialIndex(weeks)) == Err(IndexOutOfRange(-1))
    ensures |weeks| > 0 ==> WeekAt(weeks, InitialIndex(weeks)).Ok?
    ensures |weeks| > 0 ==> forall w :: w in weeks ==> w <= WeekAt(weeks, InitialIndex(weeks)).value
  {
    if |weeks| > 0 {
      forall w | w in weeks ensures w <= weeks[|weeks| - 1] {
        var i :| 0 <= i < |weeks| && weeks[i] == w;
        assert i == |weeks| - 1 || weeks[i] < weeks[|weeks| - 1];
      }
    }
  }

  function Distance(a: int, b: int): nat
  {
    if a < b then b - a else a - b
  }

  /**
    Among the first `n` weeks, `i` is at the least distance from `snap`,
    and every earlier week is strictly farther: `argmin` keeps the first
    of equal minima.
   */
  predicate IsFirstNearest(weeks: seq<int>, n: int, snap: int, i: int)
    requires 0 <= n <= |weeks|
  {
    && 0 <= i < n
    && (forall j :: 0 <= j < n ==> Distance(weeks[i], snap) <= Distance(weeks[j], snap))
    && (forall j :: 0 <= j < i ==> Distance(weeks[i], snap) < Distance(weeks[j], snap))
  }

  /** There is only one first nearest week. */
  lemma FirstNearestUnique(weeks: seq<int>, snap: int, i: int, j: int)
    requires IsFirstNearest(weeks, |weeks|, snap, i)
    requires IsFirstNearest(weeks, |weeks|, snap, j)
    ensures i == j
  {
    var di := Distance(weeks[i], snap);
    var dj := Distance(weeks[j], snap);
    assert di <= dj && dj <= di;
  }

  /** numpy's `argmin` scan from position `from`, `best` being the first nearest so far. */
  function ArgMinFrom(weeks: seq<int>, snap: int, best: nat, from: nat): (i: nat)
    requires 0 < from <= |weeks|
    requires IsFirstNearest(weeks, from, snap, best)
    ensures IsFirstNearest(weeks, |weeks|, snap, i)
    decreases |weeks| - from
  {
    if from == |weeks| then best
    else if Distance(weeks[from], snap) < Distance(weeks[best], snap) then
      ArgMinFrom(weeks, snap, from, from + 1)
    else
      ArgMinFrom(weeks, snap, best, from + 1)
  }

  /** The first index whose week is nearest to `snap`, as numpy's `argmin` picks it. */
  function NearestIndex(weeks: seq<int>, snap: int): (i: nat)
    requires |weeks| > 0
    ensures IsFirstNearest(weeks, |weeks|, snap, i)
  {
    ArgMinFrom(weeks, snap, 0, 1)
  }

  /**
    The date-input jump: snap `picked` to its Monday, take the first week
    nearest to it, and store that week's `list.index` in the session. With
    no weeks it fails and the session is kept.
   */
  method SelectNearest(weeks: seq<int>, session: Session, picked: int)
    returns (r: Result<Selection>, next: Session)
    ensures r.Err? <==> |weeks| == 0
    ensures r.Err? ==> r.error == NoWeeksAvailable && next == session
    ensures r.Ok? ==> r.value.index < |weeks| && weeks[r.value.index] == r.value.week
    ensures r.Ok? ==> IsFirstNearest(weeks, |weeks|, WeekStart(picked), r.value.index)
    ensures r.Ok? ==> r.value.index == NearestIndex(weeks, WeekStart(picked))
    ensures r.Ok? && WeekStart(picked) in weeks ==> r.value.week == WeekStart(picked)
    ensures r.Ok? ==> next == Session(Some(r.value.index))
  {
    if |weeks| == 0 {
      return Err(NoWeeksAvailable), session;
    }
    var snap := WeekStart(picked);
    var best := 0;
    var j := 1;
    while j < |weeks|
      invariant 1 <= j <= |weeks|
      invariant IsFirstNearest(weeks, j, snap, best)
    {
      if Distance(weeks[j], snap) < Distance(weeks[best], snap) {
        best := j;
      }
      j := j + 1;
    }
    var nearest := weeks[best];
    // the first index holding `nearest`, as `list.index` finds it
    var k := 0;
    while weeks[k] != nearest
      invariant 0 <= k <= best
      invariant forall m :: 0 <= m < k ==> weeks[m] != nearest
      decreases best - k
    {
      k := k + 1;
    }
    assert k == best by {
      var dk := Distance(weeks[k], snap);
      assert dk == Distance(weeks[best], snap);
    }
    FirstNearestUnique(weeks, snap, k, NearestIndex(weeks, snap));
    if snap in weeks {
      var z :| 0 <= z < |weeks| && weeks[z] == snap;
      assert Distance(weeks[z], snap) == 0;
    }
    r := Ok(Selection(nearest, k));
    next := Session(Some(k));
  }

  /** A week that is present is its own nearest week. */
  lemma SnapToPresentWeek(weeks: seq<int>, d: int, k: int)
    requires StrictlySorted(weeks, IntLess)
    requires 0 <= k < |weeks| && WeekStart(d) == weeks[k]
    ensures NearestIndex(weeks, WeekStart(d)) == k
  {
    var i := NearestIndex(weeks, WeekStart(d));
    assert Distance(weeks[i], WeekStart(d)) <= Distance(weeks[k], WeekStart(d)) == 0;
    assert weeks[i] == weeks[k];
    assert !(i < k) && !(k < i);
  }

  /**
    Snapping is idempotent: jumping again to the week just selected selects
    it again, at the same index.
   */
  lemma SnapIdempotent(weeks: seq<int>, d: int)
    requires StrictlySorted(weeks, IntLess) && |weeks| > 0
    requires forall w :: w in weeks ==> IsMonday(w)
    ensures var i := NearestIndex(weeks, WeekStart(d));
      NearestIndex(weeks, WeekStart(weeks[i])) == i
  {
    var i := NearestIndex(weeks, WeekStart(d));
    assert IsMonday(weeks[i]);
    WeekStartOfMonday(weeks[i]);
    SnapToPresentWeek(weeks, weeks[i], i);
  }

  /**
    One run of the page's week selection over the loaded rows. The stored
    index, or the most recent week's when none is stored yet, gives the
    selected week; the date input shows that week unless the user picked
    another date (`picked`); the shown date is snapped to the nearest week
    and its index stored.
   */
  method ResolveWeek(rows: seq<WeeklyRow>, session: Session, picked: Option<int>)
    returns (r: Result<Selection>, next: Session)
    ensures var weeks := WeekList(rows);
      r.Err? <==> !(-|weeks| <= session.selectedIndex.GetOr(|weeks| - 1) < |weeks|)
    ensures r.Err? ==> r.error == IndexOutOfRange(session.selectedIndex.GetOr(|WeekList(rows)| - 1))
    ensures r.Err? ==> next == Session(Some(session.selectedIndex.GetOr(|WeekList(rows)| - 1)))
    ensures r.Ok? ==> var weeks := WeekList(rows);
      && r.value.index < |weeks| && weeks[r.value.index] == r.value.week
      && next == Session(Some(r.value.index))
    ensures r.Ok? && picked.Some? ==>
      r.value.index == NearestIndex(WeekList(rows), WeekStart(picked.value))
    ensures var weeks := WeekList(rows); var index := session.selectedIndex.GetOr(|weeks| - 1);
      (forall w :: w in weeks ==> IsMonday(w)) && picked.None? && r.Ok? ==>
        && r.value.week == WeekAt(weeks, index).value
        && r.value.index == (if index < 0 then |weeks| + index else index)
  {
    var weeks := WeekList(rows);
    var index := session.selectedIndex.GetOr(InitialIndex(weeks));
    next := Session(Some(index));
    var selected := WeekAt(weeks, index);
    if selected.Err? {
      return Err(selected.error), next;
    }
    var shown := picked.GetOr(selected.value);
    r, next := SelectNearest(weeks, next, shown);
    if picked.None? && (forall w :: w in weeks ==> IsMonday(w)) {
      WeekStartOfMonday(selected.value);
      SnapToPresentWeek(weeks, shown, if index < 0 then |weeks| + index else index);
    }
  }

  /** The weeks of well-formed rows, such as the query's output, are Mondays. */
  lemma WeekListMondays(rows: seq<WeeklyRow>)
    requires WellFormedRows(rows)
    ensures forall w :: w in WeekList(rows) ==> IsMonday(w)
  {
    forall w | w in WeekList(rows) ensures IsMonday(w) {
      var r :| r in rows && r.weekStart == w;
      var i :| 0 <= i < |rows| && rows[i] == r;
      assert RowInvariant(rows[i]);
    }
  }

  /** The week list is empty exactly when there are no rows. */
  lemma WeekListEmpty(rows: seq<WeeklyRow>)
    ensures |WeekList(rows)| == 0 <==> |rows| == 0
  {
    if |rows| > 0 {
      assert rows[0].weekStart in WeekList(rows);
    }
    if |WeekList(rows)| > 0 {
      assert WeekList(rows)[0] in WeekList(rows);
    }
  }

  /**
    Weeks of 1, 8 and 15 January 2024: the first selection is 15 January,
    and a jump to Wednesday 10 January snaps to Monday 8 January, index 1.
   */
  lemma JumpScenario()
    ensures WeekAt([19726, 19733, 19740], InitialIndex([19726, 19733, 19740])) == Ok(19740)
    ensures WeekStart(19735) == 19733
    ensures NearestIndex([19726, 19733, 19740], WeekStart(19735)) == 1
  {
    var weeks := [19726, 19733, 19740];
    WeekStartUnique(19735, 19733);
    SnapToPresentWeek(weeks, 19735, 1);
  }
}
