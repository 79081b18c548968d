/**
 * Periods and rollup rows of clickhouse/rollup_client_events.py: the rows of a
 * window, the three scopes computed from them, and how windows relate. Times
 * are microseconds since the epoch.
 */
module ClientWindows {
  import opened ClientCounters
  import opened Multiples

  datatype Period = FiveMinutes | Hour | Day

  const Minute := 60_000_000

  function Minutes(p: Period): nat {
    match p case FiveMinutes => 5 case Hour => 60 case Day => 1440
  }

  function Width(p: Period): (w: nat)
    ensures w > 0
  {
    Minutes(p) * Minute
  }

  /** `_floor` on whole minutes: drop the minutes, and for a day the hours, within the period. */
  function FloorMinute(minute: int, p: Period): int {
    match p
    case FiveMinutes => minute - minute % 60 % 5
    case Hour => minute - minute % 60
    case Day => minute - minute % 60 - minute / 60 % 24 * 60
  }

  /** `_floor`: first drop the seconds. */
  function Floor(time: int, p: Period): int {
    FloorMinute(time / Minute, p) * Minute
  }

  lemma FloorMinuteIs(minute: int, p: Period)
    ensures FloorMinute(minute, p) == minute / Minutes(p) * Minutes(p)
  {
    var h, m := minute / 60, minute % 60;
    match p
    case FiveMinutes => Aligns(minute, 5, 12 * h + m / 5);
    case Hour => Aligns(minute, 60, h);
    case Day => Aligns(minute, 1440, h / 24);
  }

  /** Whatever the period, the floor is the last multiple of its width not after the time. */
  lemma FloorIs(time: int, p: Period)
    ensures Floor(time, p) == time - time % Width(p)
    ensures Aligned(Floor(time, p), Width(p)) && Floor(time, p) <= time < Floor(time, p) + Width(p)
  {
    hide FloorMinute;
    var q, n := time / Minute, Minutes(p);
    FloorMinuteIs(q, p);
    assert q * Minute <= time < q * Minute + Minute;
    var d := q / n;
    assert d * n <= q <= d * n + n - 1;
    assert Floor(time, p) == Width(p) * d;
    assert Width(p) * d <= time < Width(p) * d + Width(p);
    Aligns(time, Width(p), d);
  }

  /** The rows of the half-open window from `lo` to `hi`, in their order. */
  function Within(rows: seq<Row>, lo: int, hi: int): seq<Row> {
    if rows == [] then [] else
    var last := rows[|rows| - 1];
    Within(rows[..|rows| - 1], lo, hi) + if lo <= last.time < hi then [last] else []
  }

  /** Two windows end to end hold what the window over both holds. */
  lemma {:induction false} WindowsJoin(rows: seq<Row>, lo: int, mid: int, hi: int, f: Facet)
    requires lo <= mid <= hi
    ensures Total(Within(rows, lo, hi), f) == Add(Total(Within(rows, lo, mid), f), Total(Within(rows, mid, hi), f))
  {
    hide Add, Total;
    if rows == [] {
      TotalConcat([], [], f);
      assert Within(rows, lo, hi) + [] == [];
    } else {
      var fewer, last := rows[..|rows| - 1], rows[|rows| - 1];
      WindowsJoin(fewer, lo, mid, hi, f);
      var a, b := Within(fewer, lo, mid), Within(fewer, mid, hi);
      TotalInsert(Within(fewer, lo, hi), last, [], f);
      TotalInsert(a, last, [], f);
      TotalInsert(b, last, [], f);
      AddSwap(Total(a, f), Total(b, f), Share(last, f));
      Trailing(Within(fewer, lo, hi), last);
      Trailing(a, last);
      Trailing(b, last);
    }
  }

  lemma Trailing(rows: seq<Row>, last: Row)
    ensures rows + [last] + [] == rows + [last] && rows + [] == rows
  {
  }

  /** The totals of `n` consecutive windows of one width, added up. */
  function Chain(rows: seq<Row>, lo: int, width: nat, n: nat, f: Facet): Acc {
    if n == 0 then Zero
    else Add(Chain(rows, lo, width, n - 1, f), Total(Within(rows, lo + (n - 1) * width, lo + n * width), f))
  }

  lemma {:induction false} ChainIsWindow(rows: seq<Row>, lo: int, width: nat, n: nat, f: Facet)
    ensures Chain(rows, lo, width, n, f) == Total(Within(rows, lo, lo + n * width), f)
  {
    hide Add, Within;
    if n == 0 {
      EmptyWindow(rows, lo);
    } else {
      ChainIsWindow(rows, lo, width, n - 1, f);
      assert (n - 1) * width <= n * width && 0 <= (n - 1) * width;
      WindowsJoin(rows, lo, lo + (n - 1) * width, lo + n * width, f);
    }
  }

  lemma {:induction false} EmptyWindow(rows: seq<Row>, lo: int)
    ensures Within(rows, lo, lo) == []
  {
    if rows != [] { EmptyWindow(rows[..|rows| - 1], lo); }
  }

  /** An hour is the sum of its twelve five-minute periods, a day of its twenty-four hours, facet by facet. */
  lemma PeriodsNest(rows: seq<Row>, start: int, f: Facet)
    ensures Total(Within(rows, start, start + Width(Hour)), f) == Chain(rows, start, Width(FiveMinutes), 12, f)
    ensures Total(Within(rows, start, start + Width(Day)), f) == Chain(rows, start, Width(Hour), 24, f)
  {
    ChainIsWindow(rows, start, Width(FiveMinutes), 12, f);
    ChainIsWindow(rows, start, Width(Hour), 24, f);
  }

  /** `_group_by_period`: each group is the window that starts at its key, and windows without a group are empty. */
  method GroupByPeriod(rows: seq<Row>, p: Period) returns (grouped: map<int, seq<Row>>)
    ensures forall s :: s in grouped ==> Aligned(s, Width(p))
    ensures forall s :: Aligned(s, Width(p)) ==>
      Within(rows, s, s + Width(p)) == if s in grouped then grouped[s] else []
  {
    grouped := map[];
    for i := 0 to |rows|
      invariant forall s :: s in grouped ==> Aligned(s, Width(p))
      invariant forall s :: Aligned(s, Width(p)) ==>
        Within(rows[..i], s, s + Width(p)) == if s in grouped then grouped[s] else []
    {
      hide Width, Floor, Aligned;
      var start := Floor(rows[i].time, p);
      var was := if start in grouped then grouped[start] else [];
      assert rows[..i + 1][..i] == rows[..i];
      FloorIs(rows[i].time, p);
      forall s | Aligned(s, Width(p)) ensures s <= rows[i].time < s + Width(p) <==> s == start {
        OneMultiple(s, start, rows[i].time, Width(p));
      }
      grouped := grouped[start := was + [rows[i]]];
    }
    assert rows[..|rows|] == rows;
  }

  lemma OneMultiple(a: int, b: int, t: int, w: nat)
    requires w > 0 && Aligned(a, w) && Aligned(b, w) && b <= t < b + w
    ensures a <= t < a + w <==> a == b
  {
    assert a == w * (a / w) && b == w * (b / w);
    Aligns(t, w, b / w);
    if a <= t < a + w { Aligns(t, w, a / w); }
  }

  /** `_starts`: the aligned starts from the lookback to now, each once and in order. */
  method Starts(now: int, p: Period, lookback: nat) returns (starts: seq<int>)
    ensures starts != [] ==> starts[0] == Floor(now - lookback, p)
    ensures forall i, j :: 0 <= i < |starts| && j == i + 1 && j < |starts| ==> starts[j] == starts[i] + Width(p)
    ensures forall s :: s in starts <==> Aligned(s, Width(p)) && Floor(now - lookback, p) <= s <= now
  {
    hide Width, Floor, Aligned;
    FloorIs(now, p);
    FloorIs(now - lookback, p);
    var end, current := Floor(now, p), Floor(now - lookback, p);
    starts := [];
    ghost var first := current;
    while current <= end
      invariant current == (if starts == [] then first else starts[|starts| - 1] + Width(p))
      invariant Aligned(current, Width(p)) && first <= current
      invariant forall s :: s in starts ==> s <= end
      invariant starts != [] ==> starts[0] == first
      invariant forall i, j :: 0 <= i < |starts| && j == i + 1 && j < |starts| ==> starts[j] == starts[i] + Width(p)
      invariant forall s :: s in starts <==> Aligned(s, Width(p)) && first <= s < current
      decreases end - current
    {
      NextMultiple(current, Width(p));
      starts := starts + [current];
      current := current + Width(p);
    }
    NoneAfter(end, now, Width(p));
  }

  lemma NoneAfter(end: int, now: int, w: nat)
    requires w > 0 && Aligned(end, w) && end <= now < end + w
    ensures forall s :: Aligned(s, w) && s <= now ==> s <= end
  {
    hide Aligned;
    forall s | Aligned(s, w) && s <= now ensures s <= end {
      if end < s { OneMultiple(s, end, now, w); }
    }
  }

  lemma NextMultiple(a: int, w: nat)
    requires w > 0 && Aligned(a, w)
    ensures Aligned(a + w, w)
    ensures forall s :: Aligned(s, w) && a <= s < a + w ==> s == a
  {
    var k := a / w;
    assert a == w * k && a + w == w * (k + 1);
    Multiple(w, k + 1);
    hide Aligned;
    forall s | Aligned(s, w) && a <= s < a + w ensures s == a { OneMultiple(s, a, s, w); }
  }
}
