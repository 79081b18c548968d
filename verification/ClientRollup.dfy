/**
 * The fleet view of clickhouse/rollup_client_events.py: every tenant is capped
 * at a quarter of the requests, its counters are scaled down to the cap with
 * integer division, and the scaled accumulators are merged.
 */
module ClientRollup {
  import opened Common
  import opened ClientCounters

  // --- products and quotients, with the few facts the cap needs

  function Times(a: nat, b: nat): nat { a * b }

  function Quotient(n: nat, d: nat): nat
    requires d > 0
  { n / d }

  lemma TimesAdd(a: nat, b: nat, d: nat)
    ensures Times(a + b, d) == Times(a, d) + Times(b, d)
    ensures Times(1, d) == d && Times(a, b) == Times(b, a)
  {
  }

  lemma TimesOrder(a: nat, b: nat, d: nat)
    requires a <= b
    ensures Times(a, d) <= Times(b, d)
  {
    TimesAdd(a, b - a, d);
  }

  lemma QuotientBounds(n: nat, d: nat)
    requires d > 0
    ensures Times(Quotient(n, d), d) <= n < Times(Quotient(n, d), d) + d
  {
    assert n == n / d * d + n % d;
  }

  lemma QuotientIs(n: nat, d: nat, q: nat)
    requires d > 0 && Times(q, d) <= n < Times(q, d) + d
    ensures Quotient(n, d) == q
  {
    hide Times, Quotient;
    QuotientBounds(n, d);
    var k := Quotient(n, d);
    TimesAdd(k, 1, d);
    TimesAdd(q, 1, d);
    if k < q { TimesOrder(k + 1, q, d); }
    if k > q { TimesOrder(q + 1, k, d); }
  }

  // --- sums over tenants

  ghost function Sum(m: map<string, nat>, tenants: set<string>): nat
    requires tenants <= m.Keys
  {
    if tenants == {} then 0 else
    var t :| t in tenants;
    Sum(m, tenants - {t}) + m[t]
  }

  lemma {:induction false} SumMore(m: map<string, nat>, tenants: set<string>, t: string)
    requires tenants <= m.Keys && t in tenants
    ensures Sum(m, tenants) == Sum(m, tenants - {t}) + m[t]
    decreases tenants
  {
    var u :| u in tenants && Sum(m, tenants) == Sum(m, tenants - {u}) + m[u];
    if u != t {
      SumMore(m, tenants - {u}, t);
      SumMore(m, tenants - {t}, u);
      assert tenants - {u} - {t} == tenants - {t} - {u};
    }
  }

  method SumValues(m: map<string, nat>) returns (n: nat)
    ensures n == Sum(m, m.Keys)
  {
    n := 0;
    var todo := m.Keys;
    while todo != {}
      invariant todo <= m.Keys && n == Sum(m, m.Keys - todo)
    {
      var t :| t in todo;
      SumMore(m, m.Keys - todo + {t}, t);
      assert m.Keys - todo + {t} - {t} == m.Keys - todo && m.Keys - (todo - {t}) == m.Keys - todo + {t};
      n := n + m[t];
      todo := todo - {t};
    }
    assert m.Keys - todo == m.Keys;
  }

  // --- the cap

  /** A quarter of the total, rounded down, but at least one. */
  function Limit(total: nat): (limit: nat)
    ensures if total < 4 then limit == 1 else 4 * limit <= total < 4 * (limit + 1)
  {
    if total / 4 > 1 then total / 4 else 1
  }

  /** Negative counts read as zero. */
  function Normalised(requests: map<string, int>): (m: map<string, nat>)
    ensures m.Keys == requests.Keys
    ensures forall t :: t in requests ==> (requests[t] >= 0 ==> m[t] == requests[t]) && (requests[t] <= 0 ==> m[t] == 0)
  {
    map t | t in requests :: if requests[t] < 0 then 0 else requests[t]
  }

  /** `cap_tenant_requests` */
  method CapTenantRequests(requests: map<string, int>) returns (allowed: map<string, nat>, capped: nat)
    ensures allowed.Keys == requests.Keys
    ensures var m := Normalised(requests);
      && (forall t :: t in m ==> allowed[t] == Least(m[t], Limit(Sum(m, m.Keys))))
      && capped + Sum(allowed, allowed.Keys) == Sum(m, m.Keys)
  {
    var normalised := Normalised(requests);
    var total := SumValues(normalised);
    if total == 0 {
      forall t | t in normalised ensures normalised[t] == 0 { SumMore(normalised, normalised.Keys, t); }
      return normalised, 0;
    }
    var limit := Limit(total);
    allowed := map t | t in normalised :: Least(normalised[t], limit);
    var kept := SumValues(allowed);
    assert allowed.Keys == normalised.Keys;
    SumOrder(allowed, normalised, allowed.Keys);
    capped := total - kept;
  }

  lemma {:induction false} SumOrder(a: map<string, nat>, b: map<string, nat>, tenants: set<string>)
    requires tenants <= a.Keys && tenants <= b.Keys && forall t :: t in tenants ==> a[t] <= b[t]
    ensures Sum(a, tenants) <= Sum(b, tenants)
    decreases tenants
  {
    if tenants != {} {
      var t :| t in tenants;
      SumOrder(a, b, tenants - {t});
      SumMore(a, tenants, t);
      SumMore(b, tenants, t);
    }
  }

  /** At most three tenants can be over the cap, whatever the traffic. */
  lemma AtMostThreeOver(m: map<string, nat>, over: set<string>)
    requires over <= m.Keys && forall t :: t in over ==> m[t] > Limit(Sum(m, m.Keys))
    ensures |over| <= 3
  {
    hide Times, Sum;
    var k := Limit(Sum(m, m.Keys)) + 1;
    SumAtLeast(m, over, k);
    SumWithin(m, over, m.Keys);
    if |over| >= 4 {
      TimesOrder(4, |over|, k);
      TimesAdd(2, 2, k);
      TimesAdd(1, 1, k);
      assert false;
    }
  }

  lemma {:induction false} SumAtLeast(m: map<string, nat>, tenants: set<string>, k: nat)
    requires tenants <= m.Keys && forall t :: t in tenants ==> m[t] >= k
    ensures Sum(m, tenants) >= Times(|tenants|, k)
    decreases tenants
  {
    hide Times;
    TimesAdd(0, 0, k);
    if tenants != {} {
      var t :| t in tenants;
      SumAtLeast(m, tenants - {t}, k);
      SumMore(m, tenants, t);
      TimesAdd(|tenants - {t}|, 1, k);
    }
  }

  lemma {:induction false} SumWithin(m: map<string, nat>, some: set<string>, all: set<string>)
    requires some <= all <= m.Keys
    ensures Sum(m, some) <= Sum(m, all)
    decreases all
  {
    if some != all {
      var t :| t in all && t !in some;
      SumWithin(m, some, all - {t});
      SumMore(m, all, t);
    }
  }

  // --- scaling

  function Scaled(value: nat, allowed: nat, requests: nat): nat {
    if requests == 0 then value else Quotient(Times(value, allowed), requests)
  }

  function ScaledHistogram(h: Histogram, allowed: nat, requests: nat): Histogram {
    map bucket | bucket in h :: Scaled(h[bucket], allowed, requests)
  }

  /** `_scaled_accumulator` */
  function Scale(a: Acc, allowed: nat, requests: nat): Acc {
    Acc(Scaled(a.requests, allowed, requests), Scaled(a.successes, allowed, requests),
        Scaled(a.trFault, allowed, requests), Scaled(a.excluded, allowed, requests),
        Scaled(a.aborted, allowed, requests), Scaled(a.attempts, allowed, requests),
        Scaled(a.attemptTrFault, allowed, requests), Scaled(a.failoverUsed, allowed, requests),
        Scaled(a.firstAttemptSuccess, allowed, requests),
        ScaledHistogram(a.totalMs, allowed, requests), ScaledHistogram(a.firstEventMs, allowed, requests))
  }

  /** A value scaled is its share of the allowance, rounded down. */
  lemma ScaledIs(value: nat, allowed: nat, requests: nat)
    ensures requests == 0 ==> Scaled(value, allowed, requests) == value
    ensures requests > 0 ==>
      Scaled(value, allowed, requests) * requests <= value * allowed < (Scaled(value, allowed, requests) + 1) * requests
  {
  }

  /** Each counter and each bucket is scaled by itself. */
  lemma ScaleMeans(a: Acc, allowed: nat, requests: nat, field: Field)
    ensures Read(Scale(a, allowed, requests), field) ==
      if field.TotalMs? && field.bucket !in a.totalMs then 0
      else if field.FirstEventMs? && field.bucket !in a.firstEventMs then 0
      else Scaled(Read(a, field), allowed, requests)
  {
    hide Scaled;
  }

  lemma ScaledByAll(value: nat, requests: nat)
    ensures Scaled(value, requests, requests) == value
  {
    hide Times, Quotient;
    if requests > 0 { QuotientIs(Times(value, requests), requests, value); }
  }

  lemma ScaledWhole(allowed: nat, requests: nat)
    requires allowed <= requests
    ensures Scaled(requests, allowed, requests) == allowed
  {
    hide Times, Quotient;
    TimesAdd(requests, allowed, 0);
    if requests > 0 { QuotientIs(Times(requests, allowed), requests, allowed); }
  }

  lemma ScaledShrinks(value: nat, allowed: nat, requests: nat)
    requires allowed <= requests
    ensures Scaled(value, allowed, requests) <= value
  {
    hide Times, Quotient;
    if requests > 0 {
      var q := Scaled(value, allowed, requests);
      QuotientBounds(Times(value, allowed), requests);
      TimesAdd(value, allowed, 0);
      TimesOrder(allowed, requests, value);
      TimesAdd(requests, value, 0);
      if q > value {
        TimesOrder(value + 1, q, requests);
        TimesAdd(value, 1, requests);
      }
    }
  }

  /** Splitting a value in three and scaling the pieces loses at most two. */
  lemma ThreeWayLoss(x: nat, y: nat, z: nat, allowed: nat, requests: nat)
    requires allowed <= requests
    ensures var pieces := Scaled(x, allowed, requests) + Scaled(y, allowed, requests) + Scaled(z, allowed, requests);
      pieces <= Scaled(x + y + z, allowed, requests) <= pieces + 2
  {
    hide Times, Quotient;
    if requests > 0 {
      TimesAdd(x, y, allowed);
      TimesAdd(x + y, z, allowed);
      ThirdsLoss(Times(x, allowed), Times(y, allowed), Times(z, allowed), requests);
    }
  }

  lemma ThirdsLoss(a: nat, b: nat, c: nat, d: nat)
    requires d > 0
    ensures var pieces := Quotient(a, d) + Quotient(b, d) + Quotient(c, d);
      pieces <= Quotient(a + b + c, d) <= pieces + 2
  {
    hide Times, Quotient;
    var p, q, r := Quotient(a, d), Quotient(b, d), Quotient(c, d);
    QuotientBounds(a, d);
    QuotientBounds(b, d);
    QuotientBounds(c, d);
    TimesAdd(p, q, d);
    TimesAdd(p + q, r, d);
    TimesAdd(p + q + r, 1, d);
    TimesAdd(p + q + r + 1, 1, d);
    var left := a + b + c - Times(p + q + r, d);
    QuotientIs(a + b + c, d, p + q + r + if left < d then 0 else if left < d + d then 1 else 2);
  }

  lemma ScaleByAll(a: Acc, requests: nat)
    ensures Scale(a, requests, requests) == a
  {
    ScaledByAll(a.requests, requests);
    ScaledByAll(a.successes, requests);
    ScaledByAll(a.trFault, requests);
    ScaledByAll(a.excluded, requests);
    ScaledByAll(a.aborted, requests);
    ScaledByAll(a.attempts, requests);
    ScaledByAll(a.attemptTrFault, requests);
    ScaledByAll(a.failoverUsed, requests);
    ScaledByAll(a.firstAttemptSuccess, requests);
    ScaledHistogramByAll(a.totalMs, requests);
    ScaledHistogramByAll(a.firstEventMs, requests);
  }

  lemma ScaledHistogramByAll(h: Histogram, requests: nat)
    ensures ScaledHistogram(h, requests, requests) == h
  {
    forall b | b in h ensures Scaled(h[b], requests, requests) == h[b] { ScaledByAll(h[b], requests); }
  }

  // --- what the fleet row of a facet holds

  ghost function Asked(rows: seq<Row>): map<string, nat> {
    map t | t in Tenants(rows) :: Total(Of(rows, t), Overall).requests
  }

  ghost function Allowance(rows: seq<Row>): map<string, nat> {
    map t | t in Tenants(rows) :: Least(Asked(rows)[t], Limit(Total(rows, Overall).requests))
  }

  ghost function OverCap(rows: seq<Row>): set<string> {
    set t | t in Tenants(rows) && Asked(rows)[t] > Limit(Total(rows, Overall).requests)
  }

  ghost function Weighed(rows: seq<Row>, f: Facet): map<string, Acc> {
    map t | t in Tenants(rows) :: Scale(Total(Of(rows, t), f), Allowance(rows)[t], Asked(rows)[t])
  }

  ghost function FleetTotal(rows: seq<Row>, f: Facet): Acc {
    Merged(Weighed(rows, f), Tenants(rows))
  }

  lemma {:induction false} AskedSum(rows: seq<Row>, done: set<string>)
    requires done <= Tenants(rows)
    ensures Sum(Asked(rows), done) == TotalIn(rows, done, Overall).requests
    decreases done
  {
    hide Total, TotalIn, Of, Tenants;
    if done == {} {
      TotalInNone(rows, Overall);
    } else {
      var t :| t in done;
      AskedSum(rows, done - {t});
      SumMore(Asked(rows), done, t);
      TotalInMore(rows, done - {t}, t, Overall);
      assert done - {t} + {t} == done;
    }
  }

  lemma AskedIsTotal(rows: seq<Row>)
    ensures Sum(Asked(rows), Tenants(rows)) == Total(rows, Overall).requests
  {
    AskedSum(rows, Tenants(rows));
    TotalInAll(rows, Tenants(rows), Overall);
  }

  ghost function Outcomes(a: Acc): nat { a.successes + a.trFault + a.excluded }

  /** One tenant's part: never more than it was, short by at most two, untouched when the tenant is under the cap. */
  lemma WeighedPart(rows: seq<Row>, f: Facet, t: string)
    requires t in Tenants(rows)
    ensures var part, whole := Weighed(rows, f)[t], Total(Of(rows, t), f);
      && part.requests <= whole.requests
      && Outcomes(part) <= part.requests <= Outcomes(part) + 2
      && (t !in OverCap(rows) ==> part == whole)
      && (f == Overall ==> part.requests == Allowance(rows)[t])
  {
    hide Of, Tenants, Total, Scaled;
    var whole := Total(Of(rows, t), f);
    var asked, allowed := Asked(rows)[t], Allowance(rows)[t];
    OverallIsLargest(Of(rows, t), f);
    ScaledShrinks(whole.requests, allowed, asked);
    ThreeWayLoss(whole.successes, whole.trFault, whole.excluded, allowed, asked);
    if t !in OverCap(rows) { ScaleByAll(whole, asked); }
    ScaledWhole(allowed, asked);
  }

  lemma AddCounts(a: Acc, b: Acc)
    ensures Add(a, b).requests == a.requests + b.requests && Outcomes(Add(a, b)) == Outcomes(a) + Outcomes(b)
  {
  }

  /** The same of the parts merged so far. */
  lemma {:induction false} FleetSoFar(rows: seq<Row>, f: Facet, done: set<string>)
    requires done <= Tenants(rows) == Weighed(rows, f).Keys
    ensures var sum := Merged(Weighed(rows, f), done);
      && sum.requests <= TotalIn(rows, done, f).requests
      && Outcomes(sum) <= sum.requests <= Outcomes(sum) + 2 * |done * OverCap(rows)|
    decreases done
  {
    hide Of, Tenants, Total, TotalIn, Weighed, OverCap, Outcomes, Add;
    if done == {} {
      TotalInNone(rows, f);
      assert Merged(Weighed(rows, f), done) == Zero && Outcomes(Zero) == 0 by { NoOutcomes(); }
    } else {
      var t :| t in done;
      var rest := done - {t};
      FleetSoFar(rows, f, rest);
      WeighedPart(rows, f, t);
      MergedMore(Weighed(rows, f), done, t);
      TotalInMore(rows, rest, t, f);
      assert rest + {t} == done;
      AddCounts(Merged(Weighed(rows, f), rest), Weighed(rows, f)[t]);
      AddCounts(TotalIn(rows, rest, f), Total(Of(rows, t), f));
      if t in OverCap(rows) {
        assert done * OverCap(rows) == rest * OverCap(rows) + {t};
      } else {
        assert done * OverCap(rows) == rest * OverCap(rows);
        NoLoss(Of(rows, t), f);
      }
    }
  }

  lemma NoOutcomes()
    ensures Outcomes(Zero) == 0
  {
  }

  lemma NoLoss(rows: seq<Row>, f: Facet)
    ensures Outcomes(Total(rows, f)) == Total(rows, f).requests
  {
  }

  lemma {:induction false} CalmSoFar(rows: seq<Row>, f: Facet, done: set<string>)
    requires done <= Tenants(rows) == Weighed(rows, f).Keys && OverCap(rows) == {}
    ensures Merged(Weighed(rows, f), done) == TotalIn(rows, done, f)
    decreases done
  {
    hide Of, Tenants, Total, TotalIn, Weighed, OverCap, Add;
    if done == {} {
      TotalInNone(rows, f);
    } else {
      var t :| t in done;
      CalmSoFar(rows, f, done - {t});
      WeighedPart(rows, f, t);
      MergedMore(Weighed(rows, f), done, t);
      TotalInMore(rows, done - {t}, t, f);
      assert done - {t} + {t} == done;
    }
  }

  lemma {:induction false} OverallSoFar(rows: seq<Row>, done: set<string>)
    requires done <= Tenants(rows) == Weighed(rows, Overall).Keys == Allowance(rows).Keys
    ensures Merged(Weighed(rows, Overall), done).requests == Sum(Allowance(rows), done)
    decreases done
  {
    hide Of, Tenants, Weighed, OverCap, Add, Allowance;
    if done != {} {
      var t :| t in done;
      OverallSoFar(rows, done - {t});
      WeighedPart(rows, Overall, t);
      MergedMore(Weighed(rows, Overall), done, t);
      SumMore(Allowance(rows), done, t);
      AddCounts(Merged(Weighed(rows, Overall), done - {t}), Weighed(rows, Overall)[t]);
    }
  }

  lemma TenantsMakeTotal(rows: seq<Row>, f: Facet)
    ensures TotalIn(rows, Tenants(rows), f) == Total(rows, f)
  {
    TotalInAll(rows, Tenants(rows), f);
  }

  lemma WeighedKeys(rows: seq<Row>, f: Facet)
    ensures Weighed(rows, f).Keys == Tenants(rows) == Allowance(rows).Keys == Asked(rows).Keys
  {
  }

  /**
   * A fleet row never holds more requests than there were, its outcomes fall
   * short of its requests by at most two per tenant over the cap and by at
   * most six in all, and with nobody over the cap it is the plain total.
   */
  lemma FleetRounding(rows: seq<Row>, f: Facet)
    ensures var fleet := FleetTotal(rows, f);
      && fleet.requests <= Total(rows, f).requests
      && Outcomes(fleet) <= fleet.requests <= Outcomes(fleet) + 2 * |OverCap(rows)|
      && |OverCap(rows)| <= 3
      && (OverCap(rows) == {} ==> fleet == Total(rows, f))
      && (f == Overall ==> fleet.requests == Sum(Allowance(rows), Tenants(rows)))
  {
    hide Of, Tenants, Weighed, Add, Allowance, Total, TotalIn, Sum, Outcomes;
    var all := Tenants(rows);
    WeighedKeys(rows, f);
    WeighedKeys(rows, Overall);
    FleetSoFar(rows, f, all);
    TenantsMakeTotal(rows, f);
    assert all * OverCap(rows) == OverCap(rows);
    AskedIsTotal(rows);
    AtMostThreeOver(Asked(rows), OverCap(rows));
    if OverCap(rows) == {} { CalmSoFar(rows, f, all); }
    OverallSoFar(rows, all);
  }
}
