/** What several components share: options, white space, and counting in sets and sequences. */
module Common {
  datatype Option<+T> = None | Some(value: T)

  function Least(a: nat, b: nat): nat { if a < b then a else b }

  function CeilDiv(n: nat, d: nat): nat
    requires d > 0
  {
    (n + d - 1) / d
  }

  /** What Python takes for white space, in ASCII and beyond. */
  predicate IsSpace(c: char) {
    || c == ' ' || '\t' <= c <= '\r' || '\U{1C}' <= c <= '\U{1F}'
    || c in {'\U{85}', '\U{A0}', '\U{1680}', '\U{2028}', '\U{2029}', '\U{202F}', '\U{205F}', '\U{3000}'}
    || '\U{2000}' <= c <= '\U{200A}'
  }

  predicate Distinct<T(==)>(r: seq<T>) { forall i, j :: 0 <= i < j < |r| ==> r[i] != r[j] }

  function ToSet<T>(r: seq<T>): set<T> { set x | x in r }

  lemma Member<T>(s: set<T>) returns (x: T)
    requires s != {}
    ensures x in s
  {
    x :| x in s;
  }

  lemma SomeIn<T>(s: seq<T>)
    requires s != []
    ensures exists x :: x in s
  {
    assert s[0] in s;
  }

  lemma SubsetCount<T>(a: set<T>, b: set<T>)
    requires a <= b
    ensures |a| <= |b| && (|a| == |b| <==> a == b)
  {
    assert b == a + (b - a);
    if a != b { var x :| x in b - a; assert |b - a| > 0; }
  }

  lemma {:induction false} DistinctCount<T>(r: seq<T>)
    requires Distinct(r)
    ensures |ToSet(r)| == |r|
  {
    if r != [] {
      var last := |r| - 1;
      DistinctCount(r[..last]);
      assert ToSet(r) == ToSet(r[..last]) + {r[last]} && r[last] !in ToSet(r[..last]);
    }
  }

  /** Taking the same element out of two equal collections leaves equal ones. */
  lemma SameRest<T>(a: seq<T>, before: seq<T>, after: seq<T>, x: T)
    requires multiset(a + [x]) == multiset(before + [x] + after)
    ensures multiset(a) == multiset(before + after)
  {
    assert multiset(a) == multiset(a + [x]) - multiset{x};
    assert multiset(before + after) == multiset(before + [x] + after) - multiset{x};
  }
}
