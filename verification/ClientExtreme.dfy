/**
 * The rounding bound of the capped fleet view is reached: three tenants over
 * the cap, each losing two requests between its outcomes.
 */
module ClientExtreme {
  import opened ClientCounters
  import opened ClientRollup

  function Minute(tenant: string, outcome: string, fault: bool, requests: nat): Row {
    Row(0, tenant, "", "", "", false, "request", outcome, fault, requests, 0, 0, 0, map[], map[])
  }

  /** One success, one fault of the router and three exclusions. */
  function Five(tenant: string): seq<Row> {
    [Minute(tenant, "ok", false, 1), Minute(tenant, "error", true, 1), Minute(tenant, "error", false, 3)]
  }

  function Traffic(): seq<Row> { Five("a") + Five("b") + Five("c") }

  predicate Counts(a: Acc, requests: nat, successes: nat, trFault: nat, excluded: nat) {
    a.requests == requests && a.successes == successes && a.trFault == trFault && a.excluded == excluded
  }

  lemma AddCounted(a: Acc, row: Row)
    ensures var c, b := Contribution(row), Add(a, Contribution(row));
      Counts(b, a.requests + c.requests, a.successes + c.successes, a.trFault + c.trFault, a.excluded + c.excluded)
  {
    hide Contribution, Blend;
  }

  lemma MinuteCounts(tenant: string)
    ensures Counts(Contribution(Minute(tenant, "ok", false, 1)), 1, 1, 0, 0)
    ensures Counts(Contribution(Minute(tenant, "error", true, 1)), 1, 0, 1, 0)
    ensures Counts(Contribution(Minute(tenant, "error", false, 3)), 3, 0, 0, 3)
  {
  }

  lemma OverallShare(row: Row)
    ensures Share(row, Overall) == Contribution(row)
  {
    hide Contribution, Facets;
    FacetsMean(row, Overall);
  }

  lemma FiveIs(tenant: string)
    ensures Counts(Total(Five(tenant), Overall), 5, 1, 1, 3)
  {
    hide Contribution, Add, Share, Minute;
    var rows := Five(tenant);
    assert rows[..2][..1] == rows[..1] && rows[..1][..0] == [] && rows[..2][1] == rows[1] && rows[..1][0] == rows[0];
    OverallShare(rows[0]);
    OverallShare(rows[1]);
    OverallShare(rows[2]);
    var first := Add(Zero, Contribution(rows[0]));
    var second := Add(first, Contribution(rows[1]));
    assert Total(rows[..1], Overall) == first && Total(rows[..2], Overall) == second;
    AddCounted(Zero, rows[0]);
    AddCounted(first, rows[1]);
    AddCounted(second, rows[2]);
    MinuteCounts(tenant);
  }

  // --- the rows of each tenant

  lemma {:induction false} OfConcat(a: seq<Row>, b: seq<Row>, t: string)
    ensures Of(a + b, t) == Of(a, t) + Of(b, t)
  {
    if b == [] {
      assert a + b == a;
    } else {
      var k := |b| - 1;
      assert (a + b)[..|a + b| - 1] == a + b[..k] && (a + b)[|a + b| - 1] == b[k];
      OfConcat(a, b[..k], t);
    }
  }

  ghost predicate AllOf(rows: seq<Row>, tenant: string) { forall row :: row in rows ==> row.tenant == tenant }

  lemma NothingOf(t: string)
    ensures Of([], t) == []
  {
  }

  lemma {:induction false} OfOwn(rows: seq<Row>, t: string)
    requires AllOf(rows, t)
    ensures Of(rows, t) == rows
  {
    hide Of;
    if rows == [] {
      NothingOf(t);
    } else {
      var fewer, last := rows[..|rows| - 1], rows[|rows| - 1];
      assert rows == fewer + [last];
      OfOwn(fewer, t);
      OfMore(fewer, last);
    }
  }

  lemma {:induction false} OfOther(rows: seq<Row>, u: string, t: string)
    requires AllOf(rows, u) && u != t
    ensures Of(rows, t) == []
  {
    if rows != [] {
      assert rows[|rows| - 1] in rows;
      OfOther(rows[..|rows| - 1], u, t);
    }
  }

  lemma FiveOwn(t: string)
    ensures AllOf(Five(t), t) && Five(t) != []
  {
  }

  lemma TrafficOf(t: string)
    requires t == "a" || t == "b" || t == "c"
    ensures Of(Traffic(), t) == Five(t) && t in Tenants(Traffic())
  {
    hide Five, Of, AllOf;
    var a, b, c := Five("a"), Five("b"), Five("c");
    assert "a"[0] == 'a' && "b"[0] == 'b' && "c"[0] == 'c';
    OfConcat(a + b, c, t);
    OfConcat(a, b, t);
    FiveOwn("a");
    FiveOwn("b");
    FiveOwn("c");
    if t == "a" { OfOwn(a, t); } else { OfOther(a, "a", t); }
    if t == "b" { OfOwn(b, t); } else { OfOther(b, "b", t); }
    if t == "c" { OfOwn(c, t); } else { OfOther(c, "c", t); }
    assert Five(t)[0] in Five(t) && Five(t)[0] in Of(Traffic(), t);
  }

  lemma TenantOf(t: string, row: Row)
    requires row in Five(t)
    ensures row.tenant == t
  {
    FiveOwn(t);
  }

  lemma TrafficTenants()
    ensures Tenants(Traffic()) == {"a", "b", "c"}
  {
    hide Five, Of;
    TrafficOf("a");
    TrafficOf("b");
    TrafficOf("c");
    forall t | t in Tenants(Traffic()) ensures t in {"a", "b", "c"} {
      var row :| row in Traffic() && row.tenant == t;
      if row in Five("a") { TenantOf("a", row); }
      else if row in Five("b") { TenantOf("b", row); }
      else { TenantOf("c", row); }
    }
  }

  lemma TrafficTotal()
    ensures Total(Traffic(), Overall).requests == 15
  {
    hide Total, Add, Five;
    var a, b, c := Five("a"), Five("b"), Five("c");
    FiveIs("a");
    FiveIs("b");
    FiveIs("c");
    TotalConcat(a + b, c, Overall);
    TotalConcat(a, b, Overall);
    AddCounts(Total(a, Overall), Total(b, Overall));
    AddCounts(Total(a + b, Overall), Total(c, Overall));
  }

  // --- what the cap leaves

  lemma PartLoses(a: Acc)
    requires Counts(a, 5, 1, 1, 3)
    ensures Scale(a, 3, 5).requests == 3 && Outcomes(Scale(a, 3, 5)) == 1
  {
    hide ScaledHistogram;
  }

  lemma PartIs(t: string)
    requires t == "a" || t == "b" || t == "c"
    ensures t in Weighed(Traffic(), Overall)
    ensures var part := Weighed(Traffic(), Overall)[t]; part.requests == 3 && Outcomes(part) == 1
  {
    hide Total, Of, Tenants, Scale, Five, Traffic, Outcomes;
    TrafficTotal();
    TrafficOf(t);
    FiveIs(t);
    PartLoses(Total(Five(t), Overall));
  }

  /** A fleet row whose outcomes fall short of its requests by six: no smaller bound holds. */
  lemma SixIsReached()
    ensures var fleet := FleetTotal(Traffic(), Overall); fleet.requests == Outcomes(fleet) + 6
  {
    hide Scale, Outcomes, Add, Weighed, Traffic, Tenants;
    TrafficTenants();
    var parts := Weighed(Traffic(), Overall);
    PartIs("a");
    PartIs("b");
    PartIs("c");
    assert parts.Keys == Tenants(Traffic()) by { WeighedKeys(Traffic(), Overall); }
    assert "a"[0] != "b"[0] && "a"[0] != "c"[0] && "b"[0] != "c"[0];
    MergedMore(parts, {"a", "b", "c"}, "c");
    MergedMore(parts, {"a", "b"}, "b");
    MergedMore(parts, {"a"}, "a");
    assert {"a", "b", "c"} - {"c"} == {"a", "b"} && {"a", "b"} - {"b"} == {"a"} && {"a"} - {"a"} == {};
    NoOutcomes();
    AddCounts(Merged(parts, {}), parts["a"]);
    AddCounts(Merged(parts, {"a"}), parts["b"]);
    AddCounts(Merged(parts, {"a", "b"}), parts["c"]);
  }
}
