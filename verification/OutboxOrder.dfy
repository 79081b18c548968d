/** Outbox rows with their commit timestamps, and ordered bounded reads of them. */
module OutboxOrder {
  import opened Common

  datatype Row = Row(shard: nat, ts: int, id: int)

  /** The order the merged batch is sorted in: commit timestamp, then shard, then event id. */
  predicate Less(a: Row, b: Row) {
    a.ts < b.ts || (a.ts == b.ts && (a.shard < b.shard || (a.shard == b.shard && a.id < b.id)))
  }

  predicate AtMost(a: Row, b: Row) { a == b || Less(a, b) }

  lemma {:induction false} ThereIsFirst(s: set<Row>)
    requires s != {}
    ensures exists x :: x in s && forall y :: y in s ==> AtMost(x, y)
  {
    var x := Member(s);
    var rest := s - {x};
    if rest == {} {
      forall y | y in s ensures AtMost(x, y) { assert y == x || y in rest; }
    } else {
      ThereIsFirst(rest);
      var m :| m in rest && forall y :: y in rest ==> AtMost(m, y);
      var first := if Less(m, x) then m else x;
      forall y | y in s ensures AtMost(first, y) { assert y == x || y in rest; }
      assert first in s;
    }
  }

  function First(s: set<Row>): (m: Row)
    requires s != {}
    ensures m in s && forall y :: y in s ==> AtMost(m, y)
  {
    ThereIsFirst(s);
    var m :| m in s && forall y :: y in s ==> AtMost(m, y);
    m
  }

  /** `ORDER BY ... LIMIT n`: the first n rows of a set, in order. */
  function FirstRows(s: set<Row>, n: nat): seq<Row>
    decreases n
  {
    if n == 0 || s == {} then [] else [First(s)] + FirstRows(s - {First(s)}, n - 1)
  }

  predicate Ascending(r: seq<Row>) { forall i, j :: 0 <= i < j < |r| ==> Less(r[i], r[j]) }

  lemma {:induction false} FirstRowsWithin(s: set<Row>, n: nat)
    ensures ToSet(FirstRows(s, n)) <= s && |FirstRows(s, n)| == (if n < |s| then n else |s|)
    decreases n
  {
    if n > 0 && s != {} {
      var rest := FirstRows(s - {First(s)}, n - 1);
      FirstRowsWithin(s - {First(s)}, n - 1);
      forall x | x in ToSet(FirstRows(s, n)) ensures x in s { assert x == First(s) || x in ToSet(rest); }
    }
  }

  lemma FirstRowsCount(s: set<Row>, n: nat)
    ensures var r := FirstRows(s, n);
      && ToSet(r) <= s && |r| == (if n < |s| then n else |s|)
      && |s - ToSet(r)| == |s| - |r|
  {
    var r := FirstRows(s, n);
    FirstRowsWithin(s, n);
    FirstRowsOrder(s, n);
    DistinctCount(r);
    assert s == ToSet(r) + (s - ToSet(r));
  }

  lemma {:induction false} FirstRowsOrder(s: set<Row>, n: nat)
    ensures var r := FirstRows(s, n); Ascending(r) && forall x, y :: x in r && y in s && y !in r ==> Less(x, y)
    decreases n
  {
    var r := FirstRows(s, n);
    if n > 0 && s != {} {
      var m := First(s);
      var rest := FirstRows(s - {m}, n - 1);
      FirstRowsOrder(s - {m}, n - 1);
      FirstRowsWithin(s - {m}, n - 1);
      assert r == [m] + rest;
      forall i, j | 0 <= i < j < |r| ensures Less(r[i], r[j]) {
        assert r[j] == rest[j - 1] && rest[j - 1] in ToSet(rest);
        if i > 0 { assert r[i] == rest[i - 1]; }
      }
      forall x, y | x in r && y in s && y !in r ensures Less(x, y) {
        assert y != m && y !in rest && (x == m || x in rest);
      }
    }
  }

  lemma FirstRowsIs(s: set<Row>, n: nat)
    ensures var r := FirstRows(s, n);
      && Ascending(r) && ToSet(r) <= s && |r| == (if n < |s| then n else |s|)
      && (forall x, y :: x in r && y in s && y !in r ==> Less(x, y))
      && (n > 0 && s != {} ==> r != [] && r[0] == First(s))
  {
    FirstRowsCount(s, n);
    FirstRowsOrder(s, n);
  }

  /** The first rows are those with fewer than the limit before them. */
  lemma FirstRowsRank(s: set<Row>, n: nat, r: Row)
    ensures r in FirstRows(s, n) <==> r in s && |set x | x in s && Less(x, r)| < n
  {
    hide FirstRows;
    var first, before := FirstRows(s, n), set x | x in s && Less(x, r);
    FirstRowsIs(s, n);
    DistinctCount(first);
    if r in first {
      assert r in ToSet(first);
      SubsetCount(before, ToSet(first) - {r});
    } else if r in s {
      if |first| == |s| { SubsetCount(ToSet(first), s); }
      SubsetCount(ToSet(first), before);
    }
  }
}
