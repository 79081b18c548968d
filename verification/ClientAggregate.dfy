/**
 * `aggregate_client_rollups` and the period loop of `recompute` in
 * clickhouse/rollup_client_events.py: one rollup row per tenant and facet, per
 * facet of the capped fleet, and per facet of all traffic.
 */
module ClientAggregate {
  import opened Common
  import opened ClientCounters
  import opened ClientRollup
  import opened ClientWindows
  import opened Multiples

  datatype Scope = TenantScope | FleetScope | FleetAllScope

  datatype Key = Key(scope: Scope, tenant: string, facet: Facet)

  datatype Rollup = Rollup(key: Key, acc: Acc, distinctTenants: nat, capped: nat)

  /** The rows of real traffic, in their order. */
  function Real(rows: seq<Row>): seq<Row> {
    if rows == [] then [] else
    var last := rows[|rows| - 1];
    Real(rows[..|rows| - 1]) + if last.synthetic then [] else [last]
  }

  ghost function Contributors(rows: seq<Row>, f: Facet): set<string> {
    set t | t in Tenants(rows) && Total(Of(rows, t), f).requests > 0
  }

  /** The rollup rows a window calls for. */
  ghost predicate Due(w: seq<Row>, k: Key) {
    match k.scope
    case TenantScope => k.tenant in Tenants(w) && k.facet in AllFacets(Of(w, k.tenant))
    case FleetScope => k.tenant == "" && k.facet in AllFacets(Real(w))
    case FleetAllScope => k.tenant == "" && k.facet in AllFacets(w)
  }

  /** What a rollup row of a window says. */
  ghost predicate Means(w: seq<Row>, r: Rollup) {
    match r.key.scope
    case TenantScope => r.acc == Total(Of(w, r.key.tenant), r.key.facet) && r.distinctTenants == 1 && r.capped == 0
    case FleetScope =>
      && r.acc == FleetTotal(Real(w), r.key.facet)
      && r.acc.requests + r.capped == Total(Real(w), r.key.facet).requests
      && r.distinctTenants == |Contributors(Real(w), r.key.facet)|
    case FleetAllScope =>
      r.acc == Total(w, r.key.facet) && r.distinctTenants == |Contributors(w, r.key.facet)| && r.capped == 0
  }

  /** A list with exactly one row for each key and nothing else. */
  ghost predicate Lists(w: seq<Row>, keys: set<Key>, result: seq<Rollup>) {
    && (forall r :: r in result ==> r.key in keys && Means(w, r))
    && (forall k :: k in keys ==> exists r :: r in result && r.key == k)
    && (forall i, j :: 0 <= i < j < |result| ==> result[i].key != result[j].key)
  }

  lemma ListsMore(w: seq<Row>, keys: set<Key>, result: seq<Rollup>, r: Rollup)
    requires Lists(w, keys, result) && r.key !in keys && Means(w, r)
    ensures Lists(w, keys + {r.key}, result + [r])
  {
    hide Means;
    var more := result + [r];
    assert more[|result|] == r;
    forall k | k in keys ensures exists x :: x in more && x.key == k {
      var x :| x in result && x.key == k;
      assert x in more;
    }
    assert forall i :: 0 <= i < |result| ==> result[i] in result;
  }

  // --- one row of each of the fleet scopes

  lemma GroupSource(rows: seq<Row>, groups: Groups, t: string, f: Facet)
    requires Grouped(rows, groups) && t in groups
    ensures f in groups[t] ==> groups[t][f] == Total(Of(rows, t), f)
    ensures f !in groups[t] ==> Total(Of(rows, t), f) == Zero
  {
    if f !in groups[t] { AbsentIsZero(Of(rows, t), f); }
  }

  /** A scaled row that is nothing stays nothing. */
  lemma NothingScaled(allowed: nat, requests: nat)
    requires allowed <= requests
    ensures Scale(Zero, allowed, requests) == Zero
  {
    ScaledShrinks(0, allowed, requests);
  }

  /** The fleet row of a facet while only some tenants have been taken in. */
  ghost predicate FleetSums(rows: seq<Row>, f: Facet, done: set<string>, acc: Acc, contributors: nat, capped: nat) {
    && done <= Tenants(rows) == Weighed(rows, f).Keys
    && acc == Merged(Weighed(rows, f), done)
    && contributors == |Contributors(rows, f) * done|
    && acc.requests + capped == TotalIn(rows, done, f).requests
  }

  lemma FleetStarts(rows: seq<Row>, f: Facet)
    ensures FleetSums(rows, f, {}, Zero, 0, 0)
  {
    hide Tenants, Total, Of;
    TotalInNone(rows, f);
    WeighedKeys(rows, f);
  }

  lemma FleetEnds(rows: seq<Row>, f: Facet, acc: Acc, contributors: nat, capped: nat)
    requires FleetSums(rows, f, Tenants(rows), acc, contributors, capped)
    ensures acc == FleetTotal(rows, f) && contributors == |Contributors(rows, f)|
    ensures acc.requests + capped == Total(rows, f).requests
  {
    hide Tenants, Total, Of, Weighed, TotalIn;
    TenantsMakeTotal(rows, f);
    ContributorsAll(rows, f, Tenants(rows));
  }

  lemma ContributorsAll(rows: seq<Row>, f: Facet, done: set<string>)
    requires done == Tenants(rows)
    ensures Contributors(rows, f) * done == Contributors(rows, f)
  {
  }

  ghost function Part(rows: seq<Row>, f: Facet, t: string): Acc
    requires t in Allowance(rows) && t in Asked(rows)
  {
    Scale(Total(Of(rows, t), f), Allowance(rows)[t], Asked(rows)[t])
  }

  lemma PartIs(rows: seq<Row>, f: Facet, t: string)
    requires t in Tenants(rows)
    ensures t in Allowance(rows) && t in Asked(rows) && t in Weighed(rows, f)
    ensures Weighed(rows, f)[t] == Part(rows, f, t)
    ensures Part(rows, f, t).requests <= Total(Of(rows, t), f).requests
    ensures Total(Of(rows, t), f) == Zero ==> Part(rows, f, t) == Zero
  {
    hide Of, Tenants, Total, Scale;
    WeighedPart(rows, f, t);
    if Total(Of(rows, t), f) == Zero { NothingScaled(Allowance(rows)[t], Asked(rows)[t]); }
  }

  /** Taking one more tenant into the fleet row. */
  lemma FleetStep(rows: seq<Row>, f: Facet, done: set<string>, t: string, acc: Acc, contributors: nat, capped: nat)
    requires FleetSums(rows, f, done, acc, contributors, capped) && t in Tenants(rows) && t !in done
    requires t in Allowance(rows) && t in Asked(rows)
    ensures var own, part := Total(Of(rows, t), f), Part(rows, f, t);
      && part.requests <= own.requests
      && FleetSums(rows, f, done + {t}, Add(acc, part), contributors + (if own.requests > 0 then 1 else 0),
                   capped + own.requests - part.requests)
  {
    hide Of, Tenants, Add, Total, TotalIn, Weighed, Asked, Allowance, Contributors, Part, Merged;
    PartIs(rows, f, t);
    MergedMore(Weighed(rows, f), done + {t}, t);
    assert done + {t} - {t} == done;
    TotalInMore(rows, done, t, f);
    AddCounts(acc, Part(rows, f, t));
    AddCounts(TotalIn(rows, done, f), Total(Of(rows, t), f));
    ContributorsStep(rows, f, done, t);
  }

  lemma ContributorsStep(rows: seq<Row>, f: Facet, done: set<string>, t: string)
    requires t in Tenants(rows) && t !in done
    ensures |Contributors(rows, f) * (done + {t})| ==
      |Contributors(rows, f) * done| + if Total(Of(rows, t), f).requests > 0 then 1 else 0
  {
    var all := Contributors(rows, f);
    if t in all {
      assert all * (done + {t}) == all * done + {t};
    } else {
      assert all * (done + {t}) == all * done;
    }
  }

  method FleetRow(groups: Groups, requests: map<string, nat>, allowed: map<string, nat>, f: Facet, ghost rows: seq<Row>)
    returns (acc: Acc, contributors: nat, capped: nat)
    requires Grouped(rows, groups) && requests == Asked(rows) && allowed == Allowance(rows)
    ensures acc == FleetTotal(rows, f) && contributors == |Contributors(rows, f)|
    ensures acc.requests + capped == Total(rows, f).requests
  {
    hide FleetSums, Of, Add, Total, Tenants, Scale, Tallied, Asked, Allowance, FleetTotal, Contributors;
    acc, contributors, capped := Zero, 0, 0;
    FleetStarts(rows, f);
    var todo := groups.Keys;
    ghost var done: set<string> := {};
    while todo != {}
      invariant done + todo == groups.Keys && done !! todo
      invariant FleetSums(rows, f, done, acc, contributors, capped)
    {
      var t :| t in todo;
      todo := todo - {t};
      PartIs(rows, f, t);
      FleetStep(rows, f, done, t, acc, contributors, capped);
      AddLaws(acc, Zero, Zero);
      GroupSource(rows, groups, t, f);
      done := done + {t};
      if f in groups[t] {
        var source := groups[t][f];
        var scaled := Scale(source, allowed[t], requests[t]);
        acc := MergeAccumulator(acc, scaled);
        if source.requests != 0 { contributors := contributors + 1; }
        capped := capped + if source.requests > scaled.requests then source.requests - scaled.requests else 0;
      }
    }
    assert done == groups.Keys;
    FleetEnds(rows, f, acc, contributors, capped);
  }

  ghost predicate AllSums(rows: seq<Row>, f: Facet, done: set<string>, acc: Acc, contributors: nat) {
    acc == TotalIn(rows, done, f) && contributors == |Contributors(rows, f) * done|
  }

  lemma AllStep(rows: seq<Row>, f: Facet, done: set<string>, t: string, acc: Acc, contributors: nat)
    requires AllSums(rows, f, done, acc, contributors) && t in Tenants(rows) && t !in done
    ensures var own := Total(Of(rows, t), f);
      AllSums(rows, f, done + {t}, Add(acc, own), contributors + if own.requests > 0 then 1 else 0)
  {
    hide Of, Tenants, Add, Total, TotalIn, Contributors;
    TotalInMore(rows, done, t, f);
    ContributorsStep(rows, f, done, t);
  }

  lemma AllEnds(rows: seq<Row>, f: Facet, acc: Acc, contributors: nat)
    requires AllSums(rows, f, Tenants(rows), acc, contributors)
    ensures acc == Total(rows, f) && contributors == |Contributors(rows, f)|
  {
    hide Tenants, Total, TotalIn, Contributors;
    TenantsMakeTotal(rows, f);
    ContributorsAll(rows, f, Tenants(rows));
  }

  lemma AllStarts(rows: seq<Row>, f: Facet)
    ensures AllSums(rows, f, {}, Zero, 0)
  {
    hide Tenants, Total;
    TotalInNone(rows, f);
  }

  method FleetAllRow(groups: Groups, f: Facet, ghost rows: seq<Row>) returns (acc: Acc, contributors: nat)
    requires Grouped(rows, groups)
    ensures acc == Total(rows, f) && contributors == |Contributors(rows, f)|
  {
    hide AllSums, Of, Add, Total, Tallied, Contributors, Tenants;
    acc, contributors := Zero, 0;
    AllStarts(rows, f);
    var todo := groups.Keys;
    ghost var done: set<string> := {};
    while todo != {}
      invariant done + todo == groups.Keys && done !! todo
      invariant AllSums(rows, f, done, acc, contributors)
    {
      var t :| t in todo;
      todo := todo - {t};
      AllStep(rows, f, done, t, acc, contributors);
      GroupSource(rows, groups, t, f);
      AddLaws(acc, Zero, Zero);
      done := done + {t};
      if f in groups[t] {
        acc := MergeAccumulator(acc, groups[t][f]);
        if groups[t][f].requests != 0 { contributors := contributors + 1; }
      }
    }
    assert done == groups.Keys;
    AllEnds(rows, f, acc, contributors);
  }

  function RequestsByTenant(groups: Groups): map<string, nat> {
    map t | t in groups :: if Overall in groups[t] then groups[t][Overall].requests else 0
  }

  lemma RequestsAreAsked(rows: seq<Row>, groups: Groups)
    requires Grouped(rows, groups)
    ensures RequestsByTenant(groups) == Asked(rows)
  {
    hide Total, Of, Tenants, AllFacets;
    forall t | t in groups ensures RequestsByTenant(groups)[t] == Total(Of(rows, t), Overall).requests {
      GroupSource(rows, groups, t, Overall);
    }
  }

  function FacetNames(groups: Groups): set<Facet> {
    set t, f | t in groups && f in groups[t] :: f
  }

  lemma FacetNamesAre(rows: seq<Row>, groups: Groups)
    requires Grouped(rows, groups)
    ensures FacetNames(groups) == AllFacets(rows)
  {
    hide Facets, Total;
    forall f ensures f in FacetNames(groups) <==> f in AllFacets(rows) {
      if f in FacetNames(groups) {
        var t :| t in groups && f in groups[t];
        var r :| r in Of(rows, t) && f in Facets(r);
        assert r in rows;
      }
      if f in AllFacets(rows) {
        var r :| r in rows && f in Facets(r);
        assert r in Of(rows, r.tenant) && r.tenant in groups;
        assert f in AllFacets(Of(rows, r.tenant));
      }
    }
  }

  // --- all the rows of one window

  method TenantRows(groups: Groups, w: seq<Row>) returns (result: seq<Rollup>, ghost keys: set<Key>)
    requires Grouped(w, groups)
    ensures Lists(w, keys, result)
    ensures forall k :: k in keys <==> k.scope == TenantScope && Due(w, k)
  {
    hide Lists, Total, Of, Tenants, AllFacets;
    assert Lists(w, {}, []) by { NothingListed(w); }
    result, keys := [], {};
    var todo := groups.Keys;
    while todo != {}
      invariant todo <= groups.Keys && Lists(w, keys, result)
      invariant forall k :: k in keys <==>
        k.scope == TenantScope && k.tenant in groups && k.tenant !in todo && k.facet in groups[k.tenant]
    {
      var t :| t in todo;
      todo := todo - {t};
      var left := groups[t].Keys;
      while left != {}
        invariant left <= groups[t].Keys && Lists(w, keys, result)
        invariant forall k :: k in keys <==>
          && k.scope == TenantScope && k.tenant in groups && k.tenant !in todo && k.facet in groups[k.tenant]
          && (k.tenant == t ==> k.facet !in left)
      {
        var f :| f in left;
        left := left - {f};
        var r := Rollup(Key(TenantScope, t, f), groups[t][f], 1, 0);
        ListsMore(w, keys, result, r);
        result, keys := result + [r], keys + {r.key};
      }
    }
  }

  lemma NothingListed(w: seq<Row>)
    ensures Lists(w, {}, [])
  {
  }

  /** The fleet rows, added to rows that hold none of them yet. */
  method FleetRows(groups: Groups, w: seq<Row>, listed: seq<Rollup>, ghost before: set<Key>)
    returns (result: seq<Rollup>, ghost keys: set<Key>)
    requires Grouped(Real(w), groups) && Lists(w, before, listed) && forall k :: k in before ==> k.scope != FleetScope
    ensures Lists(w, keys, result)
    ensures forall k :: k in keys <==> k in before || (k.scope == FleetScope && Due(w, k))
  {
    hide Lists, Total, Of, Tenants, AllFacets, Grouped, Asked, Allowance, Sum, FacetNames, RequestsByTenant, Real;
    ghost var rows := Real(w);
    var requests := RequestsByTenant(groups);
    RequestsAreAsked(rows, groups);
    var allowed, totalCapped := CapTenantRequests(requests);
    CapIsAllowance(rows, allowed, totalCapped);
    FacetNamesAre(rows, groups);
    result, keys := listed, before;
    var todo := FacetNames(groups);
    while todo != {}
      invariant todo <= FacetNames(groups) && Lists(w, keys, result)
      invariant forall k :: k in keys <==>
        (k in before || (k.scope == FleetScope && k.tenant == "" && k.facet in FacetNames(groups) && k.facet !in todo))
    {
      var f :| f in todo;
      todo := todo - {f};
      var acc, contributors, facetCapped := FleetRow(groups, requests, allowed, f, rows);
      var capped := if f == Overall then totalCapped else facetCapped;
      FleetRounding(rows, f);
      var r := Rollup(Key(FleetScope, "", f), acc, contributors, capped);
      ListsMore(w, keys, result, r);
      result, keys := result + [r], keys + {r.key};
    }
  }

  lemma CapIsAllowance(rows: seq<Row>, allowed: map<string, nat>, capped: nat)
    requires var m := Normalised(Asked(rows));
      && allowed.Keys == m.Keys
      && (forall t :: t in m ==> allowed[t] == Least(m[t], Limit(Sum(m, m.Keys))))
      && capped + Sum(allowed, allowed.Keys) == Sum(m, m.Keys)
    ensures allowed == Allowance(rows)
    ensures capped + Sum(Allowance(rows), Tenants(rows)) == Total(rows, Overall).requests
  {
    hide Of, Tenants, Total, Sum;
    var asked, due := Asked(rows), Allowance(rows);
    assert Normalised(asked) == asked && asked.Keys == Tenants(rows) && due.Keys == Tenants(rows);
    AskedIsTotal(rows);
    assert forall t :: t in due ==> due[t] == allowed[t];
  }

  method FleetAllRows(groups: Groups, w: seq<Row>, listed: seq<Rollup>, ghost before: set<Key>)
    returns (result: seq<Rollup>, ghost keys: set<Key>)
    requires Grouped(w, groups) && Lists(w, before, listed) && forall k :: k in before ==> k.scope != FleetAllScope
    ensures Lists(w, keys, result)
    ensures forall k :: k in keys <==> k in before || (k.scope == FleetAllScope && Due(w, k))
  {
    hide Lists, Total, Of, Tenants, AllFacets, Grouped, FacetNames;
    FacetNamesAre(w, groups);
    result, keys := listed, before;
    var todo := FacetNames(groups);
    while todo != {}
      invariant todo <= FacetNames(groups) && Lists(w, keys, result)
      invariant forall k :: k in keys <==>
        || k in before
        || (k.scope == FleetAllScope && k.tenant == "" && k.facet in FacetNames(groups) && k.facet !in todo)
    {
      var f :| f in todo;
      todo := todo - {f};
      var acc, contributors := FleetAllRow(groups, f, w);
      var r := Rollup(Key(FleetAllScope, "", f), acc, contributors, 0);
      ListsMore(w, keys, result, r);
      result, keys := result + [r], keys + {r.key};
    }
  }

  ghost predicate AllDue(w: seq<Row>, keys: set<Key>) {
    forall k :: k in keys <==> Due(w, k)
  }

  /** Exactly the rows a window calls for, each once. */
  ghost predicate Published(w: seq<Row>, result: seq<Rollup>) {
    exists keys :: AllDue(w, keys) && Lists(w, keys, result)
  }

  /** `aggregate_client_rollups`: exactly the rows the window calls for, each once. */
  method Aggregate(counters: seq<Row>, p: Period, start: int) returns (result: seq<Rollup>)
    ensures Published(Within(counters, Floor(start, p), Floor(start, p) + Width(p)), result)
  {
    hide Lists, Due, Floor, Width, Grouped;
    var w := Within(counters, Floor(start, p), Floor(start, p) + Width(p));
    var groups := TenantAccumulators(w);
    var tenants, k1 := TenantRows(groups, w);
    var fleetGroups := TenantAccumulators(Real(w));
    var fleet, k2 := FleetRows(fleetGroups, w, tenants, k1);
    ghost var keys;
    result, keys := FleetAllRows(groups, w, fleet, k2);
    assert AllDue(w, keys);
  }

  /**
   * One period of `recompute`: grouping the rows once and aggregating each
   * group gives, for every start, the rows of that window of the whole input.
   */
  method RecomputePeriod(counters: seq<Row>, p: Period, now: int, lookback: nat)
    returns (starts: seq<int>, rollups: seq<seq<Rollup>>)
    ensures |rollups| == |starts|
    ensures forall s :: s in starts <==> Aligned(s, Width(p)) && Floor(now - lookback, p) <= s <= now
    ensures forall i :: 0 <= i < |starts| ==> Published(Within(counters, starts[i], starts[i] + Width(p)), rollups[i])
  {
    hide Published, Floor, Width, Aligned, Within;
    var groups := GroupByPeriod(counters, p);
    starts := Starts(now, p, lookback);
    rollups := [];
    for i := 0 to |starts|
      invariant |rollups| == i
      invariant forall j :: 0 <= j < i ==> Published(Within(counters, starts[j], starts[j] + Width(p)), rollups[j])
    {
      var s := starts[i];
      var group := if s in groups then groups[s] else [];
      assert Aligned(s, Width(p));
      AlignedFloor(s, p);
      WithinTwice(counters, s, s + Width(p));
      var rows := Aggregate(group, p, s);
      rollups := rollups + [rows];
    }
  }

  lemma AlignedFloor(s: int, p: Period)
    requires Aligned(s, Width(p))
    ensures Floor(s, p) == s
  {
    hide Floor;
    FloorIs(s, p);
  }

  lemma {:induction false} WithinTwice(rows: seq<Row>, lo: int, hi: int)
    ensures Within(Within(rows, lo, hi), lo, hi) == Within(rows, lo, hi)
  {
    if rows != [] {
      var last := rows[|rows| - 1];
      var before := Within(rows[..|rows| - 1], lo, hi);
      WithinTwice(rows[..|rows| - 1], lo, hi);
      assert (before + [last])[..|before|] == before;
      assert before + [] == before;
    }
  }

  // --- what the published rows satisfy

  /** In every row the outcomes account for the requests: exactly, except for at most six in a capped fleet row. */
  lemma RollupOutcomes(w: seq<Row>, r: Rollup)
    requires Means(w, r)
    ensures Outcomes(r.acc) <= r.acc.requests <= Outcomes(r.acc) + 6
    ensures r.key.scope != FleetScope || OverCap(Real(w)) == {} ==> r.acc.requests == Outcomes(r.acc)
  {
    FleetRounding(Real(w), r.key.facet);
  }

  /** With no synthetic rows and nobody over the cap the fleet row says what the all-traffic row says. */
  lemma QuietFleetIsAll(w: seq<Row>, fleet: Rollup, all: Rollup)
    requires Means(w, fleet) && Means(w, all) && fleet.key.scope == FleetScope && all.key.scope == FleetAllScope
    requires fleet.key.facet == all.key.facet && (forall r :: r in w ==> !r.synthetic) && OverCap(w) == {}
    ensures fleet.acc == all.acc && fleet.distinctTenants == all.distinctTenants && fleet.capped == all.capped
  {
    RealIsAll(w);
    FleetRounding(w, fleet.key.facet);
  }

  lemma {:induction false} RealIsAll(rows: seq<Row>)
    requires forall r :: r in rows ==> !r.synthetic
    ensures Real(rows) == rows
  {
    if rows != [] {
      RealIsAll(rows[..|rows| - 1]);
      assert rows[|rows| - 1] in rows;
    }
  }

  lemma OfMoreOne(rows: seq<Row>, row: Row, t: string)
    ensures Of(rows + [row], t) == if row.tenant == t then Of(rows, t) + [row] else Of(rows, t)
  {
    assert (rows + [row])[..|rows|] == rows;
  }

  lemma WithinMore(rows: seq<Row>, row: Row, lo: int, hi: int)
    ensures Within(rows + [row], lo, hi) ==
      if lo <= row.time < hi then Within(rows, lo, hi) + [row] else Within(rows, lo, hi)
  {
    assert (rows + [row])[..|rows|] == rows;
  }

  lemma {:induction false} OfWithin(rows: seq<Row>, t: string, lo: int, hi: int)
    ensures Of(Within(rows, lo, hi), t) == Within(Of(rows, t), lo, hi)
  {
    hide Of, Within;
    if rows == [] {
      NothingWithin(t, lo, hi);
    } else {
      var n := |rows| - 1;
      OfWithin(rows[..n], t, lo, hi);
      OfWithinMore(rows[..n], rows[n], t, lo, hi);
      assert rows == rows[..n] + [rows[n]];
    }
  }

  lemma NothingWithin(t: string, lo: int, hi: int)
    ensures Of([], t) == [] && Within([], lo, hi) == []
  {
  }

  lemma OfWithinMore(rows: seq<Row>, row: Row, t: string, lo: int, hi: int)
    requires Of(Within(rows, lo, hi), t) == Within(Of(rows, t), lo, hi)
    ensures Of(Within(rows + [row], lo, hi), t) == Within(Of(rows + [row], t), lo, hi)
  {
    hide Of, Within;
    OfMoreOne(rows, row, t);
    WithinMore(rows, row, lo, hi);
    OfMoreOne(Within(rows, lo, hi), row, t);
    WithinMore(Of(rows, t), row, lo, hi);
  }

  /** A tenant's hour is the sum of its twelve five-minute periods; its day, of its twenty-four hours. */
  lemma TenantPeriodsNest(rows: seq<Row>, t: string, start: int, f: Facet)
    ensures Total(Of(Within(rows, start, start + Width(Hour)), t), f) ==
      Chain(Of(rows, t), start, Width(FiveMinutes), 12, f)
    ensures Total(Of(Within(rows, start, start + Width(Day)), t), f) == Chain(Of(rows, t), start, Width(Hour), 24, f)
  {
    hide Total, Chain;
    PeriodsNest(Of(rows, t), start, f);
    OfWithin(rows, t, start, start + Width(Hour));
    OfWithin(rows, t, start, start + Width(Day));
  }
}
