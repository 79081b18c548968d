/** Ordered reads: the first so many positions of a finite set, as `ORDER BY ... LIMIT n` gives them. */
module Positions {
  import opened Common

  lemma {:induction false} ThereIsLeast(s: set<int>)
    requires s != {}
    ensures exists x :: x in s && forall y :: y in s ==> x <= y
  {
    var x := Member(s);
    var rest := s - {x};
    if rest == {} {
      forall y | y in s ensures x <= y { assert y == x || y in rest; }
    } else {
      ThereIsLeast(rest);
      var m :| m in rest && forall y :: y in rest ==> m <= y;
      var least := if m < x then m else x;
      forall y | y in s ensures least <= y { assert y == x || y in rest; }
      assert least in s;
    }
  }

  function LeastOf(s: set<int>): (m: int)
    requires s != {}
    ensures m in s && forall y :: y in s ==> m <= y
  {
    ThereIsLeast(s);
    var m :| m in s && forall y :: y in s ==> m <= y;
    m
  }

  function FirstN(s: set<int>, n: nat): seq<int>
    decreases n
  {
    if n == 0 || s == {} then [] else [LeastOf(s)] + FirstN(s - {LeastOf(s)}, n - 1)
  }

  predicate Ascending(r: seq<int>) { forall i, j :: 0 <= i < j < |r| ==> r[i] < r[j] }

  lemma {:induction false} FirstNWithin(s: set<int>, n: nat)
    ensures ToSet(FirstN(s, n)) <= s && |FirstN(s, n)| == (if n < |s| then n else |s|)
    decreases n
  {
    if n > 0 && s != {} {
      var rest := FirstN(s - {LeastOf(s)}, n - 1);
      FirstNWithin(s - {LeastOf(s)}, n - 1);
      forall x | x in ToSet(FirstN(s, n)) ensures x in s { assert x == LeastOf(s) || x in ToSet(rest); }
    }
  }

  lemma FirstNCount(s: set<int>, n: nat)
    ensures var r := FirstN(s, n); ToSet(r) <= s && |r| == (if n < |s| then n else |s|) && |s - ToSet(r)| == |s| - |r|
  {
    var r := FirstN(s, n);
    FirstNWithin(s, n);
    FirstNOrder(s, n);
    DistinctCount(r);
    assert s == ToSet(r) + (s - ToSet(r));
  }

  lemma {:induction false} FirstNOrder(s: set<int>, n: nat)
    ensures var r := FirstN(s, n); Ascending(r) && forall x, y :: x in r && y in s && y !in r ==> x < y
    decreases n
  {
    var r := FirstN(s, n);
    if n > 0 && s != {} {
      var m := LeastOf(s);
      var rest := FirstN(s - {m}, n - 1);
      FirstNOrder(s - {m}, n - 1);
      FirstNWithin(s - {m}, n - 1);
      assert r == [m] + rest;
      forall i, j | 0 <= i < j < |r| ensures r[i] < r[j] {
        assert r[j] == rest[j - 1] && rest[j - 1] in ToSet(rest);
        if i > 0 { assert r[i] == rest[i - 1]; }
      }
      forall x, y | x in r && y in s && y !in r ensures x < y {
        assert y != m && y !in rest && (x == m || x in rest);
      }
    }
  }

  /** The first n: in order, within the set, short only if they are all of it, and below all that is left. */
  lemma FirstNIs(s: set<int>, n: nat)
    ensures var r := FirstN(s, n);
      && Ascending(r) && ToSet(r) <= s
      && |r| == (if n < |s| then n else |s|) && |s - ToSet(r)| == |s| - |r|
      && (forall x, y :: x in r && y in s && y !in r ==> x < y)
      && (|r| < n ==> ToSet(r) == s)
  {
    FirstNCount(s, n);
    FirstNOrder(s, n);
    var r := FirstN(s, n);
    if |r| < n {
      assert |s - ToSet(r)| == 0;
      assert s - ToSet(r) == {};
    }
  }

  /** The positions past a cursor, or all of them. */
  datatype Cursor = Head | Past(pos: int)

  function Beyond(s: set<int>, c: Cursor): set<int> { set x | x in s && (c.Past? ==> c.pos < x) }
}
