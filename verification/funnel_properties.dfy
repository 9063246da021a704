/** Properties of the weekly funnel aggregation. */
module FunnelProperties {
  import opened Basics
  import opened Dates
  import opened Rates
  import opened Ordering
  import opened Funnel

  /**
    Every output row is a Monday-aligned week holding at least one viewer;
    applicants and tenants are among the viewers; both rates over viewings
    are present and at most 100.0%; the rate over applications is NULL
    exactly when there are none.
   */
  lemma AggregateRowFacts(vs: seq<Viewing>, ps: seq<Prospect>, i: int)
    requires 0 <= i < |Aggregate(vs, ps)|
    ensures var r := Aggregate(vs, ps)[i];
      && IsMonday(r.weekStart)
      && r.weekEnd == r.weekStart + 6
      && 1 <= r.totalViewings
      && r.applications <= r.totalViewings
      && r.tenants <= r.totalViewings
      && r.viewToAppRate.Some? && r.viewToAppRate.value <= Full
      && r.totalConversionRate.Some? && r.totalConversionRate.value <= Full
      && (r.appToTenantRate.None? <==> r.applications == 0)
  {
    var r := Aggregate(vs, ps)[i];
    var k := RowKey(r);
    assert k in ObservedKeys(vs);
    var v :| v in vs && v.person.Some? && KeyOf(v.day, v.agent) == k;
    var viewers := Viewers(vs, k);
    assert v.person.value in viewers;
    assert r == ReferenceRow(vs, ps, k);
    assert r.totalViewings == |viewers| >= 1;
    CardinalityOfSubset(viewers * AppliedPersons(ps), viewers);
    CardinalityOfSubset(viewers * CurrentPersons(ps), viewers);
    RateAtMostFull(r.applications, r.totalViewings);
    RateAtMostFull(r.tenants, r.totalViewings);
  }

  /**
    What every output row satisfies: a Monday-aligned week with its end six
    days on, at least one viewer, applicants and tenants among the viewers,
    and the three rates of its counts.
   */
  predicate RowInvariant(r: WeeklyRow)
  {
    && IsMonday(r.weekStart)
    && r.weekEnd == r.weekStart + 6
    && 1 <= r.totalViewings
    && r.applications <= r.totalViewings
    && r.tenants <= r.totalViewings
    && r.viewToAppRate == Rate(r.applications, r.totalViewings)
    && r.appToTenantRate == Rate(r.tenants, r.applications)
    && r.totalConversionRate == Rate(r.tenants, r.totalViewings)
  }

  /** Every row keeps the row invariant and the rows are in `ORDER BY week_start, agent` order. */
  predicate WellFormedRows(rows: seq<WeeklyRow>)
  {
    && (forall i :: 0 <= i < |rows| ==> RowInvariant(rows[i]))
    && (forall i, j :: 0 <= i < j < |rows| ==> KeyLess(RowKey(rows[i]), RowKey(rows[j])))
  }

  /** The query's output is well formed. */
  lemma AggregateWellFormed(vs: seq<Viewing>, ps: seq<Prospect>)
    ensures WellFormedRows(Aggregate(vs, ps))
  {
    var rows := Aggregate(vs, ps);
    forall i | 0 <= i < |rows| ensures RowInvariant(rows[i]) {
      AggregateRowFacts(vs, ps, i);
      assert rows[i] == ReferenceRow(vs, ps, RowKey(rows[i]));
    }
  }

  lemma CardinalityOfSubset<T>(a: set<T>, b: set<T>)
    requires a <= b
    ensures |a| <= |b|
  {
    assert b == a + (b - a);
  }

  /**
    Each viewing with a person is counted in a row: the row of its agent
    whose Monday-to-Sunday window holds the viewing's day.
   */
  lemma ViewingBucketed(vs: seq<Viewing>, ps: seq<Prospect>, v: Viewing)
    requires v in vs && v.person.Some?
    ensures var rows := Aggregate(vs, ps);
      exists i :: 0 <= i < |rows| && rows[i].agent == v.agent && rows[i].weekStart <= v.day < rows[i].weekStart + 7
        && v.person.value in Viewers(vs, RowKey(rows[i]))
  {
    CoveringRowsHoldViewing(vs, Aggregate(vs, ps), v);
  }

  /** Rows that cover every observed group hold each viewing in its agent's row for its week. */
  lemma CoveringRowsHoldViewing(vs: seq<Viewing>, rows: seq<WeeklyRow>, v: Viewing)
    requires forall k :: k in ObservedKeys(vs) ==> exists i :: 0 <= i < |rows| && RowKey(rows[i]) == k
    requires v in vs && v.person.Some?
    ensures exists i :: (0 <= i < |rows| && rows[i].agent == v.agent && rows[i].weekStart <= v.day < rows[i].weekStart + 7
      && v.person.value in Viewers(vs, RowKey(rows[i])))
  {
    var k := KeyOf(v.day, v.agent);
    assert k in ObservedKeys(vs);
    var i :| 0 <= i < |rows| && RowKey(rows[i]) == k;
    assert rows[i].weekStart == WeekStart(v.day);
    assert v.person.value in Viewers(vs, k);
  }

  /**
    And only in that row: every row of the viewing's agent whose window
    holds its day is the viewing's group.
   */
  lemma ViewingBucketUnique(vs: seq<Viewing>, ps: seq<Prospect>, v: Viewing)
    requires v in vs && v.person.Some?
    ensures var rows := Aggregate(vs, ps);
      forall i :: 0 <= i < |rows| && rows[i].agent == v.agent && rows[i].weekStart <= v.day < rows[i].weekStart + 7
        ==> RowKey(rows[i]) == KeyOf(v.day, v.agent)
  {
    var rows := Aggregate(vs, ps);
    AggregateWellFormed(vs, ps);
    forall i | 0 <= i < |rows| && rows[i].agent == v.agent && rows[i].weekStart <= v.day < rows[i].weekStart + 7
      ensures RowKey(rows[i]) == KeyOf(v.day, v.agent)
    {
      assert RowInvariant(rows[i]);
      WeekStartUnique(v.day, rows[i].weekStart);
    }
  }

  /** No (agent, week) group appears in two output rows. */
  lemma AggregateKeysDistinct(vs: seq<Viewing>, ps: seq<Prospect>, i: int, j: int)
    requires 0 <= i < |Aggregate(vs, ps)| && 0 <= j < |Aggregate(vs, ps)| && i != j
    ensures RowKey(Aggregate(vs, ps)[i]) != RowKey(Aggregate(vs, ps)[j])
  {
    var rows := Aggregate(vs, ps);
    KeyLessIsStrictTotalOrder();
    if i < j {
      assert KeyLess(RowKey(rows[i]), RowKey(rows[j]));
    } else {
      assert KeyLess(RowKey(rows[j]), RowKey(rows[i]));
    }
  }

  /**
    The output depends on the inputs only through which groups occur, who
    viewed in each, and who applied or is current: not on row order and not
    on how many rows say the same thing.
   */
  lemma {:induction false} AggregateDeterminedBySets(vs1: seq<Viewing>, ps1: seq<Prospect>, vs2: seq<Viewing>, ps2: seq<Prospect>)
    requires ObservedKeys(vs1) == ObservedKeys(vs2)
    requires forall k :: Viewers(vs1, k) == Viewers(vs2, k)
    requires AppliedPersons(ps1) == AppliedPersons(ps2)
    requires CurrentPersons(ps1) == CurrentPersons(ps2)
    ensures Aggregate(vs1, ps1) == Aggregate(vs2, ps2)
  {
    var r1 := Aggregate(vs1, ps1);
    var r2 := Aggregate(vs2, ps2);
    SameGroups(vs1, ps1, vs2, ps2);
    forall i | 0 <= i < |r1| ensures r1[i] == r2[i] {
      assert RowKey(r1[i]) == GroupsOf(r1)[i] == GroupsOf(r2)[i] == RowKey(r2[i]);
      assert Viewers(vs1, RowKey(r1[i])) == Viewers(vs2, RowKey(r1[i]));
    }
  }

  /** The groups of the output rows, in output order. */
  function GroupsOf(rows: seq<WeeklyRow>): seq<GroupKey>
  {
    seq(|rows|, i requires 0 <= i < |rows| => RowKey(rows[i]))
  }

  /** The same observed groups give the same output groups in the same order. */
  lemma SameGroups(vs1: seq<Viewing>, ps1: seq<Prospect>, vs2: seq<Viewing>, ps2: seq<Prospect>)
    requires ObservedKeys(vs1) == ObservedKeys(vs2)
    ensures GroupsOf(Aggregate(vs1, ps1)) == GroupsOf(Aggregate(vs2, ps2))
  {
    var k1 := GroupsOf(Aggregate(vs1, ps1));
    var k2 := GroupsOf(Aggregate(vs2, ps2));
    KeyLessIsStrictTotalOrder();
    GroupsAreObserved(vs1, ps1);
    GroupsAreObserved(vs2, ps2);
    SortedUnique(k1, k2, KeyLess);
  }

  /** The output groups are the observed groups, in strictly ascending order. */
  lemma GroupsAreObserved(vs: seq<Viewing>, ps: seq<Prospect>)
    ensures StrictlySorted(GroupsOf(Aggregate(vs, ps)), KeyLess)
    ensures forall k :: k in GroupsOf(Aggregate(vs, ps)) <==> k in ObservedKeys(vs)
  {
    var rows := Aggregate(vs, ps);
    var ks := GroupsOf(rows);
    forall k ensures k in ks <==> k in ObservedKeys(vs) {
      if k in ObservedKeys(vs) {
        var i :| 0 <= i < |rows| && RowKey(rows[i]) == k;
        assert ks[i] == k;
      }
    }
  }

  /** Repeating a viewing row changes nothing: counts are of distinct persons. */
  lemma DuplicateViewingIgnored(vs: seq<Viewing>, ps: seq<Prospect>, v: Viewing)
    requires v in vs
    ensures Aggregate(vs + [v], ps) == Aggregate(vs, ps)
  {
    assert ObservedKeys(vs + [v]) == ObservedKeys(vs);
    forall k ensures Viewers(vs + [v], k) == Viewers(vs, k) {
    }
    AggregateDeterminedBySets(vs + [v], ps, vs, ps);
  }

  /**
    Another prospect row for a person changes nothing unless it is that
    person's first "Applied" or first "Current" row: several prospect rows
    for one person never raise a count.
   */
  lemma ExtraProspectIgnored(vs: seq<Viewing>, ps: seq<Prospect>, p: Prospect)
    requires p.person.Some? && p.applied ==> p.person.value in AppliedPersons(ps)
    requires p.person.Some? && p.status == Some(Current) ==> p.person.value in CurrentPersons(ps)
    ensures Aggregate(vs, ps + [p]) == Aggregate(vs, ps)
  {
    assert AppliedPersons(ps + [p]) == AppliedPersons(ps);
    assert CurrentPersons(ps + [p]) == CurrentPersons(ps);
    AggregateDeterminedBySets(vs, ps + [p], vs, ps);
  }

  /**
    The rate over applications is not bounded by 100%: "Current" does not
    require an "Applied" marker. Two current viewers of whom one applied
    give 200.0%.
   */
  lemma AppToTenantCanExceedFull()
    ensures var vs := [Viewing(Some(1), "A", 19726), Viewing(Some(2), "A", 19727)];
      var ps := [Prospect(Some(1), true, Some(Current)), Prospect(Some(2), false, Some(Current))];
      ReferenceRow(vs, ps, GroupKey(19726, "A")).appToTenantRate == Some(2000)
  {
    var vs := [Viewing(Some(1), "A", 19726), Viewing(Some(2), "A", 19727)];
    var ps := [Prospect(Some(1), true, Some(Current)), Prospect(Some(2), false, Some(Current))];
    var k := GroupKey(19726, "A");
    assert Viewers(vs, k) == {1, 2} by {
      assert KeyOf(vs[0].day, vs[0].agent) == k && KeyOf(vs[1].day, vs[1].agent) == k;
      assert vs[0] in vs && vs[1] in vs;
      forall x | x in Viewers(vs, k) ensures x in {1, 2} {
        var v :| v in vs && v.person.Some? && KeyOf(v.day, v.agent) == k && v.person.value == x;
      }
    }
    assert AppliedPersons(ps) == {1} by {
      assert ps[0] in ps;
    }
    assert CurrentPersons(ps) == {1, 2} by {
      assert ps[0] in ps && ps[1] in ps;
    }
    assert |Viewers(vs, k) * AppliedPersons(ps)| == 1 by {
      assert Viewers(vs, k) * AppliedPersons(ps) == {1};
    }
    assert |Viewers(vs, k) * CurrentPersons(ps)| == 2 by {
      assert Viewers(vs, k) * CurrentPersons(ps) == {1, 2};
    }
    RateExact(2, 1, 2000);
  }

  /** Ten viewers, four applicants and two tenants give 40.0%, 50.0% and 20.0%. */
  lemma TenFourTwoScenario(k: GroupKey)
    ensures MetricRow(k, 10, 4, 2).viewToAppRate == Some(400)
    ensures MetricRow(k, 10, 4, 2).appToTenantRate == Some(500)
    ensures MetricRow(k, 10, 4, 2).totalConversionRate == Some(200)
    ensures MetricRow(k, 10, 4, 2).weekEnd == k.weekStart + 6
  {
    RateExact(4, 10, 400);
    RateExact(2, 4, 500);
    RateExact(2, 10, 200);
  }

  /** The query returns no rows exactly when no viewing has a person. */
  lemma AggregateEmpty(vs: seq<Viewing>, ps: seq<Prospect>)
    ensures |Aggregate(vs, ps)| == 0 <==> ObservedKeys(vs) == {}
  {
    GroupsAreObserved(vs, ps);
    var ks := GroupsOf(Aggregate(vs, ps));
    if ObservedKeys(vs) != {} {
      var k :| k in ObservedKeys(vs);
      assert k in ks;
    }
    if |ks| > 0 {
      assert ks[0] in ks;
    }
  }
}
