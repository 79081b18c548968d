/** Multiples of a width, for the time windows of several components. */
module Multiples {

  /** The multiples of a width. */
  predicate Aligned(s: int, w: nat)
    requires w > 0
  { s % w == 0 }

  lemma Steps(j: int, k: int, w: nat)
    requires j < k
    ensures w * j + w <= w * k
  {
    var d := k - j - 1;
    assert w * k == w * j + w + w * d;
    assert 0 <= w * d;
  }

  lemma Aligns(t: int, w: nat, j: int)
    requires w > 0 && w * j <= t < w * j + w
    ensures t / w == j && t % w == t - w * j && Aligned(w * j, w)
  {
    var k := t / w;
    assert t == w * k + t % w;
    if k < j { Steps(k, j, w); }
    if j < k { Steps(j, k, w); }
    assert k == j;
    Multiple(w, j);
  }

  lemma Multiple(w: nat, j: int)
    requires w > 0
    ensures Aligned(w * j, w)
  {
    var k := w * j / w;
    assert w * j == w * k + w * j % w;
    if k < j { Steps(k, j, w); }
    if j < k { Steps(j, k, w); }
  }
}
