/**
 * The rollups of clickhouse/rollup_client_events.py depend on which minute rows
 * there are and how often, never on the order they arrive in.
 */
module ClientOrder {
  import opened ClientCounters
  import opened ClientRollup
  import opened ClientWindows
  import opened ClientAggregate

  ghost predicate SameRows(a: seq<Row>, b: seq<Row>) { multiset(a) == multiset(b) }

  lemma {:induction false} WithinCount(rows: seq<Row>, lo: int, hi: int, x: Row)
    ensures multiset(Within(rows, lo, hi))[x] == if lo <= x.time < hi then multiset(rows)[x] else 0
  {
    if rows != [] {
      WithinCount(rows[..|rows| - 1], lo, hi, x);
      assert rows == rows[..|rows| - 1] + [rows[|rows| - 1]];
    }
  }

  lemma {:induction false} OfCount(rows: seq<Row>, t: string, x: Row)
    ensures multiset(Of(rows, t))[x] == if x.tenant == t then multiset(rows)[x] else 0
  {
    if rows != [] {
      OfCount(rows[..|rows| - 1], t, x);
      assert rows == rows[..|rows| - 1] + [rows[|rows| - 1]];
    }
  }

  lemma {:induction false} RealCount(rows: seq<Row>, x: Row)
    ensures multiset(Real(rows))[x] == if x.synthetic then 0 else multiset(rows)[x]
  {
    if rows != [] {
      RealCount(rows[..|rows| - 1], x);
      assert rows == rows[..|rows| - 1] + [rows[|rows| - 1]];
    }
  }

  lemma SameFiltered(a: seq<Row>, b: seq<Row>, lo: int, hi: int, t: string)
    requires SameRows(a, b)
    ensures SameRows(Within(a, lo, hi), Within(b, lo, hi)) && SameRows(Of(a, t), Of(b, t)) && SameRows(Real(a), Real(b))
  {
    hide Within, Of, Real;
    forall x
      ensures multiset(Within(a, lo, hi))[x] == multiset(Within(b, lo, hi))[x]
      ensures multiset(Of(a, t))[x] == multiset(Of(b, t))[x] && multiset(Real(a))[x] == multiset(Real(b))[x]
    {
      WithinCount(a, lo, hi, x);
      WithinCount(b, lo, hi, x);
      OfCount(a, t, x);
      OfCount(b, t, x);
      RealCount(a, x);
      RealCount(b, x);
    }
  }

  lemma SameNames(a: seq<Row>, b: seq<Row>)
    requires SameRows(a, b)
    ensures Tenants(a) == Tenants(b) && AllFacets(a) == AllFacets(b)
  {
    hide Facets;
    forall x ensures x in a <==> x in b { assert x in multiset(a) <==> x in multiset(b); }
  }

  lemma SameTotals(a: seq<Row>, b: seq<Row>, f: Facet)
    requires SameRows(a, b)
    ensures Total(a, f) == Total(b, f) && Tenants(a) == Tenants(b)
    ensures forall t :: Total(Of(a, t), f) == Total(Of(b, t), f)
  {
    hide Of, Total, Tenants, AllFacets, Within, Real;
    TotalIgnoresOrder(a, b, f);
    SameNames(a, b);
    forall t ensures Total(Of(a, t), f) == Total(Of(b, t), f) {
      SameFiltered(a, b, 0, 0, t);
      TotalIgnoresOrder(Of(a, t), Of(b, t), f);
    }
  }

  lemma SameFleet(a: seq<Row>, b: seq<Row>, f: Facet)
    requires SameRows(a, b)
    ensures FleetTotal(a, f) == FleetTotal(b, f) && Contributors(a, f) == Contributors(b, f)
  {
    hide Of, Total, Tenants, Scale, SameRows;
    SameTotals(a, b, f);
    SameTotals(a, b, Overall);
    assert Asked(a) == Asked(b);
    assert Allowance(a) == Allowance(b);
    assert Weighed(a, f) == Weighed(b, f);
  }

  lemma SameDue(a: seq<Row>, b: seq<Row>, k: Key)
    requires SameRows(a, b)
    ensures Due(a, k) <==> Due(b, k)
  {
    hide Of, Real, Tenants, AllFacets, SameRows, Within;
    SameNames(a, b);
    SameFiltered(a, b, 0, 0, k.tenant);
    SameNames(Of(a, k.tenant), Of(b, k.tenant));
    SameNames(Real(a), Real(b));
  }

  lemma SameMeaning(a: seq<Row>, b: seq<Row>, r: Rollup)
    requires SameRows(a, b)
    ensures Means(a, r) <==> Means(b, r)
  {
    hide Of, Real, Tenants, Total, FleetTotal, Contributors, SameRows, Within;
    var f := r.key.facet;
    SameTotals(a, b, f);
    SameFleet(a, b, f);
    SameFiltered(a, b, 0, 0, r.key.tenant);
    SameTotals(Real(a), Real(b), f);
    SameFleet(Real(a), Real(b), f);
  }

  /** Shuffling the input rows changes no rollup row of any window, in any scope, and no row's presence. */
  lemma RollupsIgnoreOrder(a: seq<Row>, b: seq<Row>, lo: int, hi: int, result: seq<Rollup>)
    requires multiset(a) == multiset(b)
    ensures Published(Within(a, lo, hi), result) <==> Published(Within(b, lo, hi), result)
  {
    hide Within, Of, Real;
    SameFiltered(a, b, lo, hi, "");
    SamePublished(Within(a, lo, hi), Within(b, lo, hi), result);
    SamePublished(Within(b, lo, hi), Within(a, lo, hi), result);
  }

  lemma SameList(a: seq<Row>, b: seq<Row>, keys: set<Key>, result: seq<Rollup>)
    requires SameRows(a, b) && AllDue(a, keys) && Lists(a, keys, result)
    ensures AllDue(b, keys) && Lists(b, keys, result)
  {
    hide Means, Due, SameRows;
    forall k ensures k in keys <==> Due(b, k) { SameDue(a, b, k); }
    forall r | r in result ensures Means(b, r) { SameMeaning(a, b, r); }
  }

  lemma SamePublished(a: seq<Row>, b: seq<Row>, result: seq<Rollup>)
    requires SameRows(a, b)
    ensures Published(a, result) ==> Published(b, result)
  {
    hide AllDue, Lists, SameRows;
    if Published(a, result) {
      var keys :| AllDue(a, keys) && Lists(a, keys, result);
      SameList(a, b, keys, result);
    }
  }
}
