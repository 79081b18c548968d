/**
 * Accumulators of clickhouse/rollup_client_events.py: nine counters and two
 * histograms, added field by field. Minute rows contribute to the accumulators
 * of their tenant and of every facet they fall under.
 */
module ClientCounters {
  import opened Common

  type Histogram = map<string, nat>

  datatype Acc = Acc(
    requests: nat, successes: nat, trFault: nat, excluded: nat, aborted: nat,
    attempts: nat, attemptTrFault: nat, failoverUsed: nat, firstAttemptSuccess: nat,
    totalMs: Histogram, firstEventMs: Histogram)

  const Zero := Acc(0, 0, 0, 0, 0, 0, 0, 0, 0, map[], map[])

  function At(h: Histogram, bucket: string): nat {
    if bucket in h then h[bucket] else 0
  }

  function Blend(a: Histogram, b: Histogram): Histogram {
    map bucket | bucket in a.Keys + b.Keys :: At(a, bucket) + At(b, bucket)
  }

  function Add(a: Acc, b: Acc): Acc {
    Acc(a.requests + b.requests, a.successes + b.successes, a.trFault + b.trFault,
        a.excluded + b.excluded, a.aborted + b.aborted, a.attempts + b.attempts,
        a.attemptTrFault + b.attemptTrFault, a.failoverUsed + b.failoverUsed,
        a.firstAttemptSuccess + b.firstAttemptSuccess,
        Blend(a.totalMs, b.totalMs), Blend(a.firstEventMs, b.firstEventMs))
  }

  lemma BlendAt(a: Histogram, b: Histogram, x: string)
    ensures x in Blend(a, b) <==> x in a || x in b
    ensures At(Blend(a, b), x) == At(a, x) + At(b, x)
  {
  }

  lemma SameHistogram(a: Histogram, b: Histogram)
    requires forall x :: (x in a <==> x in b) && At(a, x) == At(b, x)
    ensures a == b
  {
    forall x | x in a ensures x in b && a[x] == b[x] { assert At(a, x) == At(b, x); }
  }

  lemma BlendLaws(a: Histogram, b: Histogram, c: Histogram)
    ensures Blend(a, map[]) == a && Blend(a, b) == Blend(b, a)
    ensures Blend(Blend(a, b), c) == Blend(a, Blend(b, c))
  {
    hide Blend;
    var left, right := Blend(Blend(a, b), c), Blend(a, Blend(b, c));
    forall x
      ensures (x in Blend(a, map[]) <==> x in a) && At(Blend(a, map[]), x) == At(a, x)
      ensures (x in Blend(a, b) <==> x in Blend(b, a)) && At(Blend(a, b), x) == At(Blend(b, a), x)
      ensures (x in left <==> x in right) && At(left, x) == At(right, x)
    {
      BlendAt(a, map[], x);
      BlendAt(a, b, x);
      BlendAt(b, a, x);
      BlendAt(b, c, x);
      BlendAt(Blend(a, b), c, x);
      BlendAt(a, Blend(b, c), x);
    }
    SameHistogram(Blend(a, map[]), a);
    SameHistogram(Blend(a, b), Blend(b, a));
    SameHistogram(left, right);
  }

  lemma AddLaws(a: Acc, b: Acc, c: Acc)
    ensures Add(a, Zero) == a && Add(a, b) == Add(b, a) && Add(Add(a, b), c) == Add(a, Add(b, c))
  {
    hide Blend;
    BlendLaws(a.totalMs, b.totalMs, c.totalMs);
    BlendLaws(a.firstEventMs, b.firstEventMs, c.firstEventMs);
  }

  lemma AddSwap(p: Acc, q: Acc, s: Acc)
    ensures Add(Add(p, q), s) == Add(Add(p, s), q) == Add(p, Add(q, s))
  {
    hide Add;
    AddLaws(p, q, s);
    AddLaws(p, s, q);
    AddLaws(q, s, Zero);
  }

  /** `_merge_histogram`: bucket by bucket, in whatever order the buckets come. */
  method MergeHistogram(target: Histogram, source: Histogram) returns (r: Histogram)
    ensures r == Blend(target, source)
  {
    r := target;
    var todo := source.Keys;
    while todo != {}
      invariant todo <= source.Keys && r.Keys == target.Keys + (source.Keys - todo)
      invariant forall b :: b in r ==> r[b] == At(target, b) + if b in todo then 0 else At(source, b)
    {
      var bucket :| bucket in todo;
      r := r[bucket := At(r, bucket) + source[bucket]];
      todo := todo - {bucket};
    }
  }

  /** `_merge_accumulator` */
  method MergeAccumulator(target: Acc, source: Acc) returns (r: Acc)
    ensures r == Add(target, source)
  {
    var total := MergeHistogram(target.totalMs, source.totalMs);
    var first := MergeHistogram(target.firstEventMs, source.firstEventMs);
    r := Acc(target.requests + source.requests, target.successes + source.successes,
             target.trFault + source.trFault, target.excluded + source.excluded,
             target.aborted + source.aborted, target.attempts + source.attempts,
             target.attemptTrFault + source.attemptTrFault, target.failoverUsed + source.failoverUsed,
             target.firstAttemptSuccess + source.firstAttemptSuccess, total, first);
  }

  // --- minute rows

  datatype Facet = Facet(host: string, endpoint: string, sdk: string)

  const Overall := Facet("", "", "")

  /** A minute counter. `fault` is the row's own flag or, where it has none, the classifier's answer. */
  datatype Row = Row(
    time: int, tenant: string, host: string, endpoint: string, sdk: string, synthetic: bool,
    level: string, outcome: string, fault: bool, requests: nat, attempts: nat, failoverUsed: nat,
    firstAttemptSuccess: nat, totalMs: Histogram, firstEventMs: Histogram)

  function Once(values: seq<Facet>): (r: seq<Facet>)
    ensures forall v :: v in r <==> v in values
    ensures forall i, j :: 0 <= i < j < |r| ==> r[i] != r[j]
  {
    if values == [] then [] else
    var last := |values| - 1;
    assert values == values[..last] + [values[last]];
    var before := Once(values[..last]);
    if values[last] in before then before else before + [values[last]]
  }

  /** `_facets`: the overall facet and one for each dimension the row names. */
  function Facets(row: Row): seq<Facet> {
    Once([Overall, Facet(row.host, "", ""), Facet("", row.endpoint, ""), Facet("", "", row.sdk)])
  }

  /** Each facet once, so a row never counts twice in one accumulator. */
  lemma FacetsOnce(row: Row)
    ensures forall i, j :: 0 <= i < j < |Facets(row)| ==> Facets(row)[i] != Facets(row)[j]
  {
  }

  /** Which facets a row falls under. */
  lemma FacetsMean(row: Row, f: Facet)
    ensures f in Facets(row) <==>
      || (f.endpoint == "" && f.sdk == "" && (f.host == "" || f.host == row.host))
      || (f.host == "" && f.sdk == "" && f.endpoint == row.endpoint)
      || (f.host == "" && f.endpoint == "" && f.sdk == row.sdk)
  {
    var values := [Overall, Facet(row.host, "", ""), Facet("", row.endpoint, ""), Facet("", "", row.sdk)];
    assert f in values <==> f == values[0] || f == values[1] || f == values[2] || f == values[3];
  }

  /** Everything a row adds, whichever accumulator it reaches. */
  function Contribution(row: Row): (c: Acc)
    ensures c.requests == c.successes + c.trFault + c.excluded
  {
    var asked := if row.level == "request" then row.requests else 0;
    var tried := if row.level == "attempt" then row.attempts else 0;
    Acc(asked,
        if row.outcome == "ok" then asked else 0,
        if row.outcome != "ok" && row.fault then asked else 0,
        if row.outcome != "ok" && !row.fault then asked else 0,
        if row.outcome == "aborted" then asked else 0,
        tried,
        if row.fault then tried else 0,
        if row.level == "attempt" then row.failoverUsed else 0,
        if row.level == "request" then row.firstAttemptSuccess else 0,
        if row.level == "request" then row.totalMs else map[],
        if row.level == "request" then row.firstEventMs else map[])
  }

  /** What applying a row does to each counter and each bucket; a row of no level at all changes nothing. */
  ghost predicate Applied(target: Acc, row: Row, r: Acc) {
    match row.level
    case "request" =>
      && r.requests == target.requests + row.requests
      && r.successes == target.successes + (if row.outcome == "ok" then row.requests else 0)
      && r.trFault == target.trFault + (if row.outcome != "ok" && row.fault then row.requests else 0)
      && r.excluded == target.excluded + (if row.outcome != "ok" && !row.fault then row.requests else 0)
      && r.aborted == target.aborted + (if row.outcome == "aborted" then row.requests else 0)
      && r.firstAttemptSuccess == target.firstAttemptSuccess + row.firstAttemptSuccess
      && Raised(target.totalMs, row.totalMs, r.totalMs)
      && Raised(target.firstEventMs, row.firstEventMs, r.firstEventMs)
      && (r.attempts, r.attemptTrFault, r.failoverUsed)
         == (target.attempts, target.attemptTrFault, target.failoverUsed)
    case "attempt" =>
      && r.attempts == target.attempts + row.attempts
      && r.attemptTrFault == target.attemptTrFault + (if row.fault then row.attempts else 0)
      && r.failoverUsed == target.failoverUsed + row.failoverUsed
      && r == target.(attempts := r.attempts, attemptTrFault := r.attemptTrFault, failoverUsed := r.failoverUsed)
    case _ => r == target
  }

  /** Each bucket rises by the row's own count. */
  ghost predicate Raised(target: Histogram, row: Histogram, r: Histogram) {
    r.Keys == target.Keys + row.Keys && forall b :: At(r, b) == At(target, b) + At(row, b)
  }

  lemma RaisedIsBlend(target: Histogram, row: Histogram)
    ensures Raised(target, row, Blend(target, row))
    ensures forall r :: Raised(target, row, r) ==> r == Blend(target, row)
  {
    var blend := Blend(target, row);
    forall r | Raised(target, row, r) ensures r == blend {
      assert forall b :: At(r, b) == At(blend, b);
      SameHistogram(r, blend);
    }
  }

  /** Applying a row adds its contribution. */
  lemma AppliedIsAdd(target: Acc, row: Row, r: Acc)
    requires Applied(target, row, r)
    ensures r == Add(target, Contribution(row))
  {
    hide Blend, Raised;
    if row.level == "request" {
      RaisedIsBlend(target.totalMs, row.totalMs);
      RaisedIsBlend(target.firstEventMs, row.firstEventMs);
    } else {
      BlendLaws(target.totalMs, map[], map[]);
      BlendLaws(target.firstEventMs, map[], map[]);
    }
  }

  /** `_apply_counter` */
  method ApplyCounter(target: Acc, row: Row) returns (r: Acc)
    ensures Applied(target, row, r)
  {
    hide Blend, Raised;
    RaisedIsBlend(target.totalMs, row.totalMs);
    RaisedIsBlend(target.firstEventMs, row.firstEventMs);
    r := target;
    if row.level == "request" {
      var n := row.requests;
      var ok, fault, excluded := target.successes, target.trFault, target.excluded;
      if row.outcome == "ok" {
        ok := ok + n;
      } else if row.fault {
        fault := fault + n;
      } else {
        excluded := excluded + n;
      }
      var aborted := target.aborted;
      if row.outcome == "aborted" { aborted := aborted + n; }
      var total := MergeHistogram(target.totalMs, row.totalMs);
      var first := MergeHistogram(target.firstEventMs, row.firstEventMs);
      r := target.(requests := target.requests + n, successes := ok, trFault := fault, excluded := excluded,
                   aborted := aborted, firstAttemptSuccess := target.firstAttemptSuccess + row.firstAttemptSuccess,
                   totalMs := total, firstEventMs := first);
    } else if row.level == "attempt" {
      var faulty := target.attemptTrFault;
      if row.fault { faulty := faulty + row.attempts; }
      r := target.(attempts := target.attempts + row.attempts, attemptTrFault := faulty,
                   failoverUsed := target.failoverUsed + row.failoverUsed);
    }
  }

  // --- totals over rows: what every accumulator is proved to hold

  function Share(row: Row, f: Facet): Acc {
    if f in Facets(row) then Contribution(row) else Zero
  }

  function Total(rows: seq<Row>, f: Facet): (t: Acc)
    ensures t.requests == t.successes + t.trFault + t.excluded
  {
    if rows == [] then Zero else Add(Total(rows[..|rows| - 1], f), Share(rows[|rows| - 1], f))
  }

  /** One counter, or one bucket of a histogram. */
  datatype Field =
    | Requests | Successes | TrFault | Excluded | Aborted
    | Attempts | AttemptTrFault | FailoverUsed | FirstAttemptSuccess
    | TotalMs(bucket: string) | FirstEventMs(bucket: string)

  function Read(a: Acc, field: Field): nat {
    match field
    case Requests => a.requests
    case Successes => a.successes
    case TrFault => a.trFault
    case Excluded => a.excluded
    case Aborted => a.aborted
    case Attempts => a.attempts
    case AttemptTrFault => a.attemptTrFault
    case FailoverUsed => a.failoverUsed
    case FirstAttemptSuccess => a.firstAttemptSuccess
    case TotalMs(b) => At(a.totalMs, b)
    case FirstEventMs(b) => At(a.firstEventMs, b)
  }

  /** What a row counts for in a field. */
  function Amount(row: Row, field: Field): nat {
    match row.level
    case "request" => (
      match field
      case Requests => row.requests
      case Successes => if row.outcome == "ok" then row.requests else 0
      case TrFault => if row.outcome != "ok" && row.fault then row.requests else 0
      case Excluded => if row.outcome != "ok" && !row.fault then row.requests else 0
      case Aborted => if row.outcome == "aborted" then row.requests else 0
      case FirstAttemptSuccess => row.firstAttemptSuccess
      case TotalMs(b) => At(row.totalMs, b)
      case FirstEventMs(b) => At(row.firstEventMs, b)
      case _ => 0)
    case "attempt" => (
      match field
      case Attempts => row.attempts
      case AttemptTrFault => if row.fault then row.attempts else 0
      case FailoverUsed => row.failoverUsed
      case _ => 0)
    case _ => 0
  }

  /** A field summed over the rows under a facet. */
  function SumUnder(rows: seq<Row>, f: Facet, field: Field): nat {
    if rows == [] then 0 else
    var last := rows[|rows| - 1];
    SumUnder(rows[..|rows| - 1], f, field) + if f in Facets(last) then Amount(last, field) else 0
  }

  lemma ReadAdd(a: Acc, b: Acc, field: Field)
    ensures Read(Add(a, b), field) == Read(a, field) + Read(b, field)
  {
    hide Blend;
    if field.TotalMs? { BlendAt(a.totalMs, b.totalMs, field.bucket); }
    if field.FirstEventMs? { BlendAt(a.firstEventMs, b.firstEventMs, field.bucket); }
  }

  lemma ContributionMeans(row: Row, field: Field)
    ensures Read(Contribution(row), field) == Amount(row, field)
  {
  }

  lemma ZeroMeans(field: Field)
    ensures Read(Zero, field) == 0
  {
  }

  /** Every field of an accumulator is the sum over the rows under its facet. */
  lemma {:induction false} TotalMeans(rows: seq<Row>, f: Facet, field: Field)
    ensures Read(Total(rows, f), field) == SumUnder(rows, f, field)
  {
    hide Facets, Add, Read, Contribution, Amount;
    if rows == [] {
      ZeroMeans(field);
    } else {
      var before, last := rows[..|rows| - 1], rows[|rows| - 1];
      TotalMeans(before, f, field);
      ReadAdd(Total(before, f), Share(last, f), field);
      ContributionMeans(last, field);
      ZeroMeans(field);
    }
  }

  lemma {:induction false} TotalConcat(a: seq<Row>, b: seq<Row>, f: Facet)
    ensures Total(a + b, f) == Add(Total(a, f), Total(b, f))
  {
    hide Add, Share;
    if b == [] {
      assert a + b == a;
      AddLaws(Total(a, f), Zero, Zero);
    } else {
      var k := |b| - 1;
      assert (a + b)[..|a + b| - 1] == a + b[..k] && (a + b)[|a + b| - 1] == b[k];
      TotalConcat(a, b[..k], f);
      AddLaws(Total(a, f), Total(b[..k], f), Share(b[k], f));
    }
  }

  lemma TotalOne(row: Row, f: Facet)
    ensures Total([row], f) == Share(row, f)
  {
    hide Add, Share;
    assert [row][..0] == [];
    AddLaws(Share(row, f), Zero, Zero);
    AddLaws(Zero, Share(row, f), Zero);
  }

  lemma TotalInsert(a: seq<Row>, x: Row, b: seq<Row>, f: Facet)
    ensures Total(a + [x] + b, f) == Add(Total(a + b, f), Share(x, f))
  {
    hide Add, Share, Total;
    TotalConcat(a + [x], b, f);
    TotalConcat(a, [x], f);
    TotalConcat(a, b, f);
    TotalOne(x, f);
    AddSwap(Total(a, f), Share(x, f), Total(b, f));
  }

  /** The order of the rows never matters, only which rows there are and how often. */
  lemma {:induction false} TotalIgnoresOrder(a: seq<Row>, b: seq<Row>, f: Facet)
    requires multiset(a) == multiset(b)
    ensures Total(a, f) == Total(b, f)
    decreases |a|
  {
    hide Add, Share, Total;
    if a == [] {
      assert |b| == |multiset(b)|;
      assert b == [];
    } else {
      var n := |a| - 1;
      var x := a[n];
      assert a == a[..n] + [x];
      assert x in multiset(b);
      var i :| 0 <= i < |b| && b[i] == x;
      var before, after := b[..i], b[i + 1..];
      assert b == before + [x] + after;
      SameRest(a[..n], before, after, x);
      TotalIgnoresOrder(a[..n], before + after, f);
      TotalInsert(a[..n], x, [], f);
      TotalInsert(before, x, after, f);
      assert a[..n] + [x] + [] == a && a[..n] + [] == a[..n];
    }
  }

  /** No facet holds more requests than the overall one. */
  lemma {:induction false} OverallIsLargest(rows: seq<Row>, f: Facet)
    ensures Total(rows, f).requests <= Total(rows, Overall).requests
  {
    if rows != [] {
      OverallIsLargest(rows[..|rows| - 1], f);
      var last := rows[|rows| - 1];
      assert Overall in [Overall, Facet(last.host, "", ""), Facet("", last.endpoint, ""), Facet("", "", last.sdk)];
    }
  }

  // --- grouping by tenant and facet

  function Of(rows: seq<Row>, tenant: string): (r: seq<Row>)
    ensures forall x :: x in r <==> x in rows && x.tenant == tenant
  {
    if rows == [] then [] else
    var last := |rows| - 1;
    assert rows == rows[..last] + [rows[last]];
    Of(rows[..last], tenant) + if rows[last].tenant == tenant then [rows[last]] else []
  }

  ghost function Tenants(rows: seq<Row>): set<string> {
    set r | r in rows :: r.tenant
  }

  ghost function AllFacets(rows: seq<Row>): set<Facet> {
    set r, f | r in rows && f in Facets(r) :: f
  }

  type Groups = map<string, map<Facet, Acc>>

  /** What the accumulators of one tenant hold. */
  ghost predicate Tallied(rows: seq<Row>, facets: map<Facet, Acc>) {
    facets.Keys == AllFacets(rows) && forall f :: f in facets ==> facets[f] == Total(rows, f)
  }

  ghost predicate Grouped(rows: seq<Row>, groups: Groups) {
    groups.Keys == Tenants(rows) && forall t :: t in groups ==> Tallied(Of(rows, t), groups[t])
  }

  lemma {:induction false} AbsentIsZero(rows: seq<Row>, f: Facet)
    requires f !in AllFacets(rows)
    ensures Total(rows, f) == Zero
  {
    if rows != [] {
      var last := |rows| - 1;
      assert rows[last] in rows;
      forall g | g in AllFacets(rows[..last]) ensures g in AllFacets(rows) {
        var r :| r in rows[..last] && g in Facets(r);
        assert r in rows;
      }
      AbsentIsZero(rows[..last], f);
      assert Share(rows[last], f) == Zero;
      AddLaws(Zero, Zero, Zero);
    }
  }

  /** A tenant's accumulators while the first facets of a row have been folded in. */
  ghost predicate Folding(rows: seq<Row>, row: Row, was: map<Facet, Acc>, folded: set<Facet>, facets: map<Facet, Acc>) {
    && facets.Keys == was.Keys + folded
    && forall f :: f in facets ==>
         facets[f] == if f in folded then Add(Total(rows, f), Contribution(row)) else Total(rows, f)
  }

  lemma FoldStep(rows: seq<Row>, row: Row, was: map<Facet, Acc>, folded: set<Facet>, facets: map<Facet, Acc>, f: Facet)
    requires Tallied(rows, was) && Folding(rows, row, was, folded, facets) && f !in folded
    ensures var a := if f in facets then facets[f] else Zero;
      Folding(rows, row, was, folded + {f}, facets[f := Add(a, Contribution(row))])
  {
    hide Add, Contribution, AllFacets, Total;
    if f !in facets { AbsentIsZero(rows, f); }
  }

  /** Folding one more row into a tenant's accumulators, facet by facet. */
  method FoldRow(was: map<Facet, Acc>, row: Row, ghost rows: seq<Row>) returns (facets: map<Facet, Acc>)
    requires Tallied(rows, was)
    ensures Tallied(rows + [row], facets)
  {
    hide Add, Facets, Contribution, Folding, Tallied, Applied;
    facets := was;
    var names := Facets(row);
    FacetsOnce(row);
    FoldStarts(rows, row, was);
    for k := 0 to |names|
      invariant Folding(rows, row, was, ToSet(names[..k]), facets)
    {
      var f := names[k];
      assert names[..k + 1] == names[..k] + [f];
      assert ToSet(names[..k + 1]) == ToSet(names[..k]) + {f};
      FoldStep(rows, row, was, ToSet(names[..k]), facets, f);
      var grown := ApplyCounter(if f in facets then facets[f] else Zero, row);
      AppliedIsAdd(if f in facets then facets[f] else Zero, row, grown);
      facets := facets[f := grown];
    }
    assert names[..|names|] == names;
    FoldedRow(rows, row, was, facets);
  }

  lemma FoldStarts(rows: seq<Row>, row: Row, was: map<Facet, Acc>)
    requires Tallied(rows, was)
    ensures Folding(rows, row, was, ToSet([]), was)
  {
  }

  lemma FacetsOfMore(rows: seq<Row>, row: Row, f: Facet)
    ensures f in AllFacets(rows + [row]) <==> f in AllFacets(rows) || f in Facets(row)
  {
    hide Facets;
    var more := rows + [row];
    if f in AllFacets(more) {
      var r :| r in more && f in Facets(r);
      assert r == row || r in rows;
    }
    if f in AllFacets(rows) {
      var r :| r in rows && f in Facets(r);
      assert r in more;
    }
    if f in Facets(row) { assert row in more; }
  }

  lemma FoldedRow(rows: seq<Row>, row: Row, was: map<Facet, Acc>, facets: map<Facet, Acc>)
    requires Tallied(rows, was) && Folding(rows, row, was, ToSet(Facets(row)), facets)
    ensures Tallied(rows + [row], facets)
  {
    hide Add, Facets, Contribution;
    var more := rows + [row];
    assert more[..|rows|] == rows;
    forall f
      ensures f in AllFacets(more) <==> f in facets
      ensures f in facets ==> facets[f] == Total(more, f)
    {
      FacetsOfMore(rows, row, f);
      AddLaws(Total(rows, f), Zero, Zero);
    }
  }

  /** `_tenant_accumulators` */
  method TenantAccumulators(rows: seq<Row>) returns (groups: Groups)
    ensures Grouped(rows, groups)
  {
    hide Tallied, Facets, Of;
    groups := map[];
    assert Grouped([], groups);
    for i := 0 to |rows|
      invariant Grouped(rows[..i], groups)
    {
      var row := rows[i];
      ghost var sofar := rows[..i];
      assert rows[..i + 1] == sofar + [row];
      var was := if row.tenant in groups then groups[row.tenant] else map[];
      GroupOf(sofar, groups, row.tenant);
      var facets := FoldRow(was, row, Of(sofar, row.tenant));
      GroupedMore(sofar, groups, row, facets);
      groups := groups[row.tenant := facets];
    }
    assert rows[..|rows|] == rows;
  }

  lemma NothingTallied()
    ensures Tallied([], map[])
  {
  }

  lemma GroupOf(rows: seq<Row>, groups: Groups, t: string)
    requires Grouped(rows, groups)
    ensures Tallied(Of(rows, t), if t in groups then groups[t] else map[])
  {
    hide Tallied, Of;
    assert forall x :: x in Of(rows, t) ==> x.tenant in Tenants(rows);
    if Of(rows, t) != [] { SomeIn(Of(rows, t)); }
    NothingTallied();
  }

  lemma GroupedMore(rows: seq<Row>, groups: Groups, row: Row, facets: map<Facet, Acc>)
    requires Grouped(rows, groups) && Tallied(Of(rows, row.tenant) + [row], facets)
    ensures Grouped(rows + [row], groups[row.tenant := facets])
  {
    hide Tallied, Of, Tenants;
    OfMore(rows, row);
  }

  lemma OfMore(rows: seq<Row>, row: Row)
    ensures Tenants(rows + [row]) == Tenants(rows) + {row.tenant}
    ensures forall t :: Of(rows + [row], t) == if t == row.tenant then Of(rows, t) + [row] else Of(rows, t)
  {
    var more := rows + [row];
    assert more[..|rows|] == rows;
    forall t ensures t in Tenants(more) <==> t in Tenants(rows) || t == row.tenant {
      if t in Tenants(rows) { var r :| r in rows && r.tenant == t; assert r in more; }
      if t == row.tenant { assert row in more; }
    }
  }

  // --- merging one accumulator per tenant, in any order

  ghost function Merged(parts: map<string, Acc>, tenants: set<string>): Acc
    requires tenants <= parts.Keys
  {
    if tenants == {} then Zero else
    var t :| t in tenants;
    Add(Merged(parts, tenants - {t}), parts[t])
  }

  /** Any tenant can be taken as the last. */
  lemma {:induction false} MergedMore(parts: map<string, Acc>, tenants: set<string>, t: string)
    requires tenants <= parts.Keys && t in tenants
    ensures Merged(parts, tenants) == Add(Merged(parts, tenants - {t}), parts[t])
    decreases tenants
  {
    hide Add;
    var u :| u in tenants && Merged(parts, tenants) == Add(Merged(parts, tenants - {u}), parts[u]);
    if u != t {
      MergedMore(parts, tenants - {u}, t);
      MergedMore(parts, tenants - {t}, u);
      assert tenants - {u} - {t} == tenants - {t} - {u};
      AddSwap(Merged(parts, tenants - {u} - {t}), parts[t], parts[u]);
    }
  }

  /** The total over the rows of some of the tenants. */
  function TotalIn(rows: seq<Row>, tenants: set<string>, f: Facet): Acc {
    if rows == [] then Zero else
    var last := rows[|rows| - 1];
    Add(TotalIn(rows[..|rows| - 1], tenants, f), if last.tenant in tenants then Share(last, f) else Zero)
  }

  lemma {:induction false} TotalInNone(rows: seq<Row>, f: Facet)
    ensures TotalIn(rows, {}, f) == Zero
  {
    hide Add, Share;
    if rows != [] {
      TotalInNone(rows[..|rows| - 1], f);
      AddLaws(Zero, Zero, Zero);
    }
  }

  lemma {:induction false} TotalInMore(rows: seq<Row>, tenants: set<string>, t: string, f: Facet)
    requires t !in tenants
    ensures TotalIn(rows, tenants + {t}, f) == Add(TotalIn(rows, tenants, f), Total(Of(rows, t), f))
  {
    hide Add, Share;
    if rows == [] {
      AddLaws(Zero, Zero, Zero);
    } else {
      var n := |rows| - 1;
      TotalInMore(rows[..n], tenants, t, f);
      var own := Of(rows[..n], t);
      assert Of(rows, t) == if rows[n].tenant == t then own + [rows[n]] else own;
      assert (own + [rows[n]])[..|own|] == own;
      var p, q, s := TotalIn(rows[..n], tenants, f), Total(own, f), Share(rows[n], f);
      AddSwap(p, q, s);
      AddLaws(Add(p, q), Zero, Zero);
      AddLaws(p, Zero, Zero);
    }
  }

  /** The tenants together make up the total. */
  lemma {:induction false} TotalInAll(rows: seq<Row>, tenants: set<string>, f: Facet)
    requires forall r :: r in rows ==> r.tenant in tenants
    ensures TotalIn(rows, tenants, f) == Total(rows, f)
  {
    hide Add, Share;
    if rows != [] {
      assert rows[|rows| - 1] in rows;
      TotalInAll(rows[..|rows| - 1], tenants, f);
    }
  }
}
