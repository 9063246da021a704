/**
  The weekly funnel aggregation: the query of `load_weekly_data`. Viewings
  with a person are bucketed into (agent, Monday) groups, left-joined to
  prospects by person, and each group reports distinct viewers, distinct
  applicants and distinct "Current" tenants together with three rates.
 */
module Funnel {
  import opened Basics
  import opened Dates
  import opened Rates
  import opened Ordering

  type PersonId = int

  /** A row of `viewings`; the date is already parsed to a day number. */
  datatype Viewing = Viewing(person: Option<PersonId>, agent: string, day: int)

  /** A row of `prospects`; `applied` says whether "Applied" is not NULL. */
  datatype Prospect = Prospect(person: Option<PersonId>, applied: bool, status: Option<string>)

  /** A row of `cleaned_viewings`: a viewing whose person is not NULL. */
  datatype Visit = Visit(person: PersonId, agent: string, day: int)

  /** A `GROUP BY 1,2` group, listed in `ORDER BY week_start, agent` order. */
  datatype GroupKey = GroupKey(weekStart: int, agent: string)

  /**
    A row of `cleaned_viewings v LEFT JOIN prospects p`. A visit with no
    matching prospect gives one row whose prospect columns are NULL:
    "Applied" NULL and "Status" NULL.
   */
  datatype Joined = Joined(person: PersonId, key: GroupKey, applied: bool, status: Option<string>)

  /** A result row. Rates are in tenths of a percent; None is SQL NULL. */
  datatype WeeklyRow = WeeklyRow(
    agent: string,
    weekStart: int,
    weekEnd: int,
    totalViewings: nat,
    applications: nat,
    tenants: nat,
    viewToAppRate: Option<nat>,
    appToTenantRate: Option<nat>,
    totalConversionRate: Option<nat>)

  /** The status that counts a person as a tenant. */
  const Current: string := "Current"

  /** `ORDER BY week_start, agent`. */
  predicate KeyLess(a: GroupKey, b: GroupKey)
  {
    a.weekStart < b.weekStart || (a.weekStart == b.weekStart && StrLess(a.agent, b.agent))
  }

  lemma KeyLessIsStrictTotalOrder()
    ensures StrictTotalOrder(KeyLess)
  {
    StrLessIsStrictTotalOrder();
  }

  /** The group of a viewing by `agent` on `day`: the Monday of its week and the agent. */
  function KeyOf(day: int, agent: string): GroupKey
  {
    GroupKey(WeekStart(day), agent)
  }

  function RowKey(r: WeeklyRow): GroupKey
  {
    GroupKey(r.weekStart, r.agent)
  }

  // ---------------------------------------------------------------------
  // Reference: what each group counts, stated on sets of persons.
  // ---------------------------------------------------------------------

  /** The groups that occur among viewings with a person. */
  function ObservedKeys(vs: seq<Viewing>): set<GroupKey>
  {
    set v | v in vs && v.person.Some? :: KeyOf(v.day, v.agent)
  }

  /** The distinct persons who viewed in group `k`. */
  function Viewers(vs: seq<Viewing>, k: GroupKey): set<PersonId>
  {
    set v | v in vs && v.person.Some? && KeyOf(v.day, v.agent) == k :: v.person.value
  }

  /** Persons with some prospect row whose "Applied" is not NULL. */
  function AppliedPersons(ps: seq<Prospect>): set<PersonId>
  {
    set p | p in ps && p.person.Some? && p.applied :: p.person.value
  }

  /** Persons with some prospect row whose "Status" is "Current". */
  function CurrentPersons(ps: seq<Prospect>): set<PersonId>
  {
    set p | p in ps && p.person.Some? && p.status == Some(Current) :: p.person.value
  }

  /** The output row of group `k` given its three counts (the outer SELECT). */
  function MetricRow(k: GroupKey, total: nat, apps: nat, tenants: nat): WeeklyRow
  {
    WeeklyRow(k.agent, k.weekStart, WeekEnd(k.weekStart), total, apps, tenants,
              Rate(apps, total), Rate(tenants, apps), Rate(tenants, total))
  }

  /** The row group `k` should get: viewers, viewers who applied, viewers who are current. */
  function ReferenceRow(vs: seq<Viewing>, ps: seq<Prospect>, k: GroupKey): WeeklyRow
  {
    var viewers := Viewers(vs, k);
    MetricRow(k, |viewers|, |viewers * AppliedPersons(ps)|, |viewers * CurrentPersons(ps)|)
  }

  // ---------------------------------------------------------------------
  // The query, clause by clause.
  // ---------------------------------------------------------------------

  /** `cleaned_viewings`: the viewings whose person is not NULL, in order. */
  function Cleaned(vs: seq<Viewing>): (cs: seq<Visit>)
    ensures forall c :: c in cs <==> Viewing(Some(c.person), c.agent, c.day) in vs
  {
    if |vs| == 0 then []
    else
      var v := vs[|vs| - 1];
      assert vs == vs[..|vs| - 1] + [v];
      Cleaned(vs[..|vs| - 1]) + (if v.person.Some? then [Visit(v.person.value, v.agent, v.day)] else [])
  }

  /** The prospect rows that join to person `x`. */
  function Matches(x: PersonId, ps: seq<Prospect>): (m: seq<Prospect>)
    ensures forall p :: p in m <==> p in ps && p.person == Some(x)
  {
    if |ps| == 0 then []
    else
      var p := ps[|ps| - 1];
      assert ps == ps[..|ps| - 1] + [p];
      Matches(x, ps[..|ps| - 1]) + (if p.person == Some(x) then [p] else [])
  }

  /** The joined rows one visit contributes to the LEFT JOIN. */
  function JoinVisit(c: Visit, ps: seq<Prospect>): (j: seq<Joined>)
    ensures |j| > 0
    ensures forall r :: r in j ==> r.person == c.person && r.key == KeyOf(c.day, c.agent)
    ensures (exists r :: r in j && r.applied) <==> c.person in AppliedPersons(ps)
    ensures (exists r :: r in j && r.status == Some(Current)) <==> c.person in CurrentPersons(ps)
  {
    var m := Matches(c.person, ps);
    var j :=
      if |m| == 0 then [Joined(c.person, KeyOf(c.day, c.agent), false, None)]
      else seq(|m|, i requires 0 <= i < |m| => Joined(c.person, KeyOf(c.day, c.agent), m[i].applied, m[i].status));
    assert forall i :: 0 <= i < |m| ==> m[i] in ps && m[i].person == Some(c.person);
    assert c.person in AppliedPersons(ps) ==> exists r :: r in j && r.applied by {
      if c.person in AppliedPersons(ps) {
        var p :| p in ps && p.person == Some(c.person) && p.applied;
        assert p in m;
        var i :| 0 <= i < |m| && m[i] == p;
        assert j[i].applied;
      }
    }
    assert c.person in CurrentPersons(ps) ==> exists r :: r in j && r.status == Some(Current) by {
      if c.person in CurrentPersons(ps) {
        var p :| p in ps && p.person == Some(c.person) && p.status == Some(Current);
        assert p in m;
        var i :| 0 <= i < |m| && m[i] == p;
        assert j[i].status == Some(Current);
      }
    }
    j
  }

  /** `cleaned_viewings v LEFT JOIN prospects p ON v.personId = p.personId`. */
  function LeftJoin(cs: seq<Visit>, ps: seq<Prospect>): (j: seq<Joined>)
    ensures forall r :: r in j <==> exists c :: c in cs && r in JoinVisit(c, ps)
  {
    if |cs| == 0 then []
    else
      var c := cs[|cs| - 1];
      assert cs == cs[..|cs| - 1] + [c];
      LeftJoin(cs[..|cs| - 1], ps) + JoinVisit(c, ps)
  }

  /** The distinct persons among the joined rows of group `k`; its size is the viewing count. */
  function GroupPersons(j: seq<Joined>, k: GroupKey): set<PersonId>
  {
    set r | r in j && r.key == k :: r.person
  }

  /** The distinct persons of group `k` whose joined prospect row has an application date. */
  function GroupApplicants(j: seq<Joined>, k: GroupKey): set<PersonId>
  {
    set r | r in j && r.key == k && r.applied :: r.person
  }

  /** The distinct persons of group `k` whose joined prospect row has status "Current". */
  function GroupTenants(j: seq<Joined>, k: GroupKey): set<PersonId>
  {
    set r | r in j && r.key == k && r.status == Some(Current) :: r.person
  }

  /** The group column of every joined row. */
  function GroupKeys(j: seq<Joined>): (ks: seq<GroupKey>)
    ensures forall k :: k in ks <==> exists r :: r in j && r.key == k
  {
    var ks := seq(|j|, i requires 0 <= i < |j| => j[i].key);
    assert forall r :: r in j ==> r.key in ks by {
      forall r | r in j ensures r.key in ks {
        var i :| 0 <= i < |j| && j[i] == r;
        assert ks[i] == r.key;
      }
    }
    ks
  }

  /** The output row of one group of the joined rows. */
  function GroupRow(j: seq<Joined>, k: GroupKey): WeeklyRow
  {
    MetricRow(k, |GroupPersons(j, k)|, |GroupApplicants(j, k)|, |GroupTenants(j, k)|)
  }

  /**
    The whole query: one row per observed (agent, week) group, in
    `ORDER BY week_start, agent` order, each row holding exactly the
    reference counts and rates.
   */
  function Aggregate(vs: seq<Viewing>, ps: seq<Prospect>): (rows: seq<WeeklyRow>)
    ensures forall i, j :: 0 <= i < j < |rows| ==> KeyLess(RowKey(rows[i]), RowKey(rows[j]))
    ensures forall i :: 0 <= i < |rows| ==> RowKey(rows[i]) in ObservedKeys(vs)
    ensures forall k :: k in ObservedKeys(vs) ==> exists i :: 0 <= i < |rows| && RowKey(rows[i]) == k
    ensures forall i :: 0 <= i < |rows| ==> rows[i] == ReferenceRow(vs, ps, RowKey(rows[i]))
  {
    var joined := LeftJoin(Cleaned(vs), ps);
    KeyLessIsStrictTotalOrder();
    var keys := SortedDistinct(GroupKeys(joined), KeyLess);
    var rows := seq(|keys|, i requires 0 <= i < |keys| => GroupRow(joined, keys[i]));
    GroupedRows(vs, ps, keys, rows);
    rows
  }

  /** Rows built from the sorted distinct groups of the join meet the query's contract. */
  lemma GroupedRows(vs: seq<Viewing>, ps: seq<Prospect>, keys: seq<GroupKey>, rows: seq<WeeklyRow>)
    requires StrictlySorted(keys, KeyLess)
    requires forall k :: k in keys <==> k in GroupKeys(LeftJoin(Cleaned(vs), ps))
    requires |rows| == |keys|
    requires forall i :: 0 <= i < |rows| ==> rows[i] == GroupRow(LeftJoin(Cleaned(vs), ps), keys[i])
    ensures forall i, j :: 0 <= i < j < |rows| ==> KeyLess(RowKey(rows[i]), RowKey(rows[j]))
    ensures forall i :: 0 <= i < |rows| ==> RowKey(rows[i]) in ObservedKeys(vs)
    ensures forall k :: k in ObservedKeys(vs) ==> exists i :: 0 <= i < |rows| && RowKey(rows[i]) == k
    ensures forall i :: 0 <= i < |rows| ==> rows[i] == ReferenceRow(vs, ps, RowKey(rows[i]))
  {
    assert forall i :: 0 <= i < |rows| ==> RowKey(rows[i]) == keys[i];
    forall k | k in ObservedKeys(vs) ensures exists i :: 0 <= i < |rows| && RowKey(rows[i]) == k {
      JoinKeys(vs, ps, k);
      var i :| 0 <= i < |keys| && keys[i] == k;
      assert RowKey(rows[i]) == k;
    }
    forall i | 0 <= i < |rows| ensures RowKey(rows[i]) in ObservedKeys(vs) {
      JoinKeys(vs, ps, keys[i]);
    }
    forall i | 0 <= i < |rows| ensures rows[i] == ReferenceRow(vs, ps, RowKey(rows[i])) {
      JoinPersons(vs, ps, keys[i]);
      JoinApplicants(vs, ps, keys[i]);
      JoinTenants(vs, ps, keys[i]);
    }
  }

  // ---------------------------------------------------------------------
  // Grouping the join computes the reference sets.
  // ---------------------------------------------------------------------

  /** The groups of the LEFT JOIN are the observed groups. */
  lemma JoinKeys(vs: seq<Viewing>, ps: seq<Prospect>, k: GroupKey)
    ensures k in GroupKeys(LeftJoin(Cleaned(vs), ps)) <==> k in ObservedKeys(vs)
  {
    var cs := Cleaned(vs);
    var j := LeftJoin(cs, ps);
    if k in GroupKeys(j) {
      var r :| r in j && r.key == k;
      var c :| c in cs && r in JoinVisit(c, ps);
      assert KeyOf(c.day, c.agent) == k;
    }
    if k in ObservedKeys(vs) {
      var v :| v in vs && v.person.Some? && KeyOf(v.day, v.agent) == k;
      var c := Visit(v.person.value, v.agent, v.day);
      assert c in cs;
      var r := JoinVisit(c, ps)[0];
      assert r in j;
    }
  }

  /** The distinct persons of a group of the LEFT JOIN are its viewers. */
  lemma JoinPersons(vs: seq<Viewing>, ps: seq<Prospect>, k: GroupKey)
    ensures GroupPersons(LeftJoin(Cleaned(vs), ps), k) == Viewers(vs, k)
  {
    var cs := Cleaned(vs);
    var j := LeftJoin(cs, ps);
    forall x | x in GroupPersons(j, k) ensures x in Viewers(vs, k) {
      var r :| r in j && r.key == k && r.person == x;
      var c :| c in cs && r in JoinVisit(c, ps);
      assert Viewing(Some(c.person), c.agent, c.day) in vs;
    }
    forall x | x in Viewers(vs, k) ensures x in GroupPersons(j, k) {
      var v :| v in vs && v.person.Some? && KeyOf(v.day, v.agent) == k && v.person.value == x;
      var c := Visit(x, v.agent, v.day);
      assert c in cs;
      assert JoinVisit(c, ps)[0] in j;
    }
  }

  /**
    The distinct applicants of a group of the LEFT JOIN are its viewers who
    applied, however many prospect rows each has.
   */
  lemma JoinApplicants(vs: seq<Viewing>, ps: seq<Prospect>, k: GroupKey)
    ensures GroupApplicants(LeftJoin(Cleaned(vs), ps), k) == Viewers(vs, k) * AppliedPersons(ps)
  {
    var cs := Cleaned(vs);
    var j := LeftJoin(cs, ps);
    forall x | x in GroupApplicants(j, k) ensures x in Viewers(vs, k) * AppliedPersons(ps) {
      var r :| r in j && r.key == k && r.applied && r.person == x;
      var c :| c in cs && r in JoinVisit(c, ps);
      assert Viewing(Some(c.person), c.agent, c.day) in vs;
    }
    forall x | x in Viewers(vs, k) * AppliedPersons(ps) ensures x in GroupApplicants(j, k) {
      var v :| v in vs && v.person.Some? && KeyOf(v.day, v.agent) == k && v.person.value == x;
      var c := Visit(x, v.agent, v.day);
      assert c in cs;
      var r :| r in JoinVisit(c, ps) && r.applied;
      assert r in j;
    }
  }

  /**
    The distinct tenants of a group of the LEFT JOIN are its viewers who are
    "Current", however many prospect rows each has.
   */
  lemma JoinTenants(vs: seq<Viewing>, ps: seq<Prospect>, k: GroupKey)
    ensures GroupTenants(LeftJoin(Cleaned(vs), ps), k) == Viewers(vs, k) * CurrentPersons(ps)
  {
    var cs := Cleaned(vs);
    var j := LeftJoin(cs, ps);
    forall x | x in GroupTenants(j, k) ensures x in Viewers(vs, k) * CurrentPersons(ps) {
      var r :| r in j && r.key == k && r.status == Some(Current) && r.person == x;
      var c :| c in cs && r in JoinVisit(c, ps);
      assert Viewing(Some(c.person), c.agent, c.day) in vs;
    }
    forall x | x in Viewers(vs, k) * CurrentPersons(ps) ensures x in GroupTenants(j, k) {
      var v :| v in vs && v.person.Some? && KeyOf(v.day, v.agent) == k && v.person.value == x;
      var c := Visit(x, v.agent, v.day);
      assert c in cs;
      var r :| r in JoinVisit(c, ps) && r.status == Some(Current);
      assert r in j;
    }
  }
}
