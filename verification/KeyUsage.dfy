/**
 * The one UPDATE per key of scripts/backfill_leased_key_usage.py against the
 * history it stands for: settles booked one at a time, each into the window its
 * time falls in, as `release_key` does. Amounts are micro-dollars.
 */
module KeyUsage {
  import opened Common
  import opened Multiples

  /** One lazily rolled counter; both columns may be NULL. */
  datatype Window = Window(usage: Option<int>, start: Option<int>)

  /** From a time to the start of the window that contains it. */
  type Floor = int -> int

  ghost predicate IsFloor(floor: Floor) {
    && (forall t :: floor(t) <= t)
    && (forall t :: floor(floor(t)) == floor(t))
    && (forall s, t :: s <= t ==> floor(s) <= floor(t))
  }

  datatype Floors = Floors(day: Floor, week: Floor, month: Floor)

  datatype Key = Key(usage: int, day: Window, week: Window, month: Window)

  datatype Booking = Booking(time: int, amount: int)

  function Coalesce(usage: Option<int>): int {
    if usage.Some? then usage.value else 0
  }

  /** The window clause both statements share: replace a stale window, add to a current one. */
  function Rolled(w: Window, start: int, amount: int): Window {
    if w.start.None? || w.start.value < start then Window(Some(amount), Some(start))
    else w.(usage := Some(Coalesce(w.usage) + amount))
  }

  /** What the limiter reads: an older window counts as nothing. */
  function Effective(w: Window, floor: Floor, now: int): int {
    if w.start.None? || w.start.value < floor(now) then 0 else Coalesce(w.usage)
  }

  function BookWindow(w: Window, floor: Floor, history: seq<Booking>): Window {
    if history == [] then w else
    var last := history[|history| - 1];
    Rolled(BookWindow(w, floor, history[..|history| - 1]), floor(last.time), last.amount)
  }

  /** `release_key` for one settle. */
  function Book(k: Key, floors: Floors, b: Booking): Key {
    Key(k.usage + b.amount, Rolled(k.day, floors.day(b.time), b.amount),
        Rolled(k.week, floors.week(b.time), b.amount), Rolled(k.month, floors.month(b.time), b.amount))
  }

  function BookAll(k: Key, floors: Floors, history: seq<Booking>): Key {
    if history == [] then k else Book(BookAll(k, floors, history[..|history| - 1]), floors, history[|history| - 1])
  }

  /** A NULL usage counts as nothing, whatever is booked later. */
  lemma {:induction false} NullIsNothing(start: Option<int>, floor: Floor, history: seq<Booking>, now: int)
    ensures Effective(BookWindow(Window(None, start), floor, history), floor, now) ==
      Effective(BookWindow(Window(Some(0), start), floor, history), floor, now)
    ensures BookWindow(Window(None, start), floor, history).start ==
      BookWindow(Window(Some(0), start), floor, history).start
    ensures Coalesce(BookWindow(Window(None, start), floor, history).usage) ==
      Coalesce(BookWindow(Window(Some(0), start), floor, history).usage)
  {
    if history != [] { NullIsNothing(start, floor, history[..|history| - 1], now); }
  }

  lemma {:induction false} BookAllByColumn(k: Key, floors: Floors, history: seq<Booking>)
    ensures BookAll(k, floors, history) ==
      Key(k.usage + Since(history, None), BookWindow(k.day, floors.day, history),
          BookWindow(k.week, floors.week, history), BookWindow(k.month, floors.month, history))
  {
    if history != [] { BookAllByColumn(k, floors, history[..|history| - 1]); }
  }

  /** The sum of the bookings from a time on, or of all of them. */
  function Since(history: seq<Booking>, from: Option<int>): int {
    if history == [] then 0 else
    var last := history[|history| - 1];
    Since(history[..|history| - 1], from) + if from.None? || from.value <= last.time then last.amount else 0
  }

  // --- the plan and the statement

  datatype Amounts = Amounts(usage: int, day: int, week: int, month: int)

  function PlanFor(missed: seq<Booking>, floors: Floors, now: int): Amounts {
    Amounts(Since(missed, None), Since(missed, Some(floors.day(now))),
            Since(missed, Some(floors.week(now))), Since(missed, Some(floors.month(now))))
  }

  /** The statement `update_sql` prints, as what it does to the row. */
  function Update(k: Key, a: Amounts, floors: Floors, now: int): Key {
    Key(k.usage + a.usage, Rolled(k.day, floors.day(now), a.day),
        Rolled(k.week, floors.week(now), a.week), Rolled(k.month, floors.month(now), a.month))
  }

  // --- histories

  ghost predicate InOrder(history: seq<Booking>) {
    forall i, j :: 0 <= i < j < |history| ==> history[i].time <= history[j].time
  }

  ghost predicate UpTo(history: seq<Booking>, now: int) {
    forall i :: 0 <= i < |history| ==> history[i].time <= now
  }

  /** The window was last rolled no later than any of the bookings to come. */
  ghost predicate NotAhead(w: Window, floor: Floor, history: seq<Booking>) {
    w.start.Some? ==> forall i :: 0 <= i < |history| ==> w.start.value <= floor(history[i].time)
  }

  lemma FloorIsStart(floor: Floor, t: int, now: int)
    requires IsFloor(floor) && t <= now
    ensures floor(t) == floor(now) <==> floor(now) <= t
    ensures floor(t) <= floor(now)
  {
    if floor(now) <= t { assert floor(floor(now)) <= floor(t); }
  }

  /** Where a window stands after a history: the start of the last booking's window. */
  lemma {:induction false} StartAfter(w: Window, floor: Floor, history: seq<Booking>)
    requires IsFloor(floor) && InOrder(history) && NotAhead(w, floor, history)
    ensures BookWindow(w, floor, history).start ==
      if history == [] then w.start else Some(floor(history[|history| - 1].time))
  {
    if history != [] {
      var n := |history| - 1;
      StartAfter(w, floor, history[..n]);
      if n > 0 { assert floor(history[n - 1].time) <= floor(history[n].time); }
    }
  }

  /** What the current window holds after a history: what it held before, if it was current, and the bookings in it. */
  lemma {:induction false} EffectiveAfter(w: Window, floor: Floor, history: seq<Booking>, now: int)
    requires IsFloor(floor) && InOrder(history) && UpTo(history, now) && NotAhead(w, floor, history)
    requires w.start.Some? ==> w.start.value <= floor(now)
    ensures Effective(BookWindow(w, floor, history), floor, now) ==
      Effective(w, floor, now) + Since(history, Some(floor(now)))
  {
    if history != [] {
      var n := |history| - 1;
      EffectiveAfter(w, floor, history[..n], now);
      StartAfter(w, floor, history[..n]);
      FloorIsStart(floor, history[n].time, now);
      if n > 0 {
        FloorIsStart(floor, history[n - 1].time, now);
        assert floor(history[n - 1].time) <= floor(history[n].time);
      }
      hide IsFloor, InOrder, UpTo, NotAhead;
    }
  }

  lemma {:induction false} SinceConcat(a: seq<Booking>, b: seq<Booking>, from: Option<int>)
    ensures Since(a + b, from) == Since(a, from) + Since(b, from)
  {
    if b == [] {
      assert a + b == a;
    } else {
      var k := |b| - 1;
      assert (a + b)[..|a + b| - 1] == a + b[..k] && (a + b)[|a + b| - 1] == b[k];
      SinceConcat(a, b[..k], from);
    }
  }

  /** A merge holds what its sources hold. */
  lemma {:induction false} SinceOfMerge(merged: seq<Booking>, a: seq<Booking>, b: seq<Booking>, from: Option<int>)
    requires multiset(merged) == multiset(a) + multiset(b)
    ensures Since(merged, from) == Since(a, from) + Since(b, from)
    decreases |merged|
  {
    assert |merged| == |a| + |b| by { assert |multiset(merged)| == |multiset(a)| + |multiset(b)|; }
    if a != [] {
      TakeLast(merged, a, b, from);
    } else if b != [] {
      assert multiset(merged) == multiset(b) + multiset(a);
      TakeLast(merged, b, a, from);
    }
  }

  lemma {:induction false} TakeLast(merged: seq<Booking>, a: seq<Booking>, b: seq<Booking>, from: Option<int>)
    requires multiset(merged) == multiset(a) + multiset(b) && a != []
    ensures Since(merged, from) == Since(a, from) + Since(b, from)
    decreases |merged|, 0
  {
    hide Since;
    var n := |a| - 1;
    var x := a[n];
    assert a == a[..n] + [x];
    assert x in multiset(merged);
    var i :| 0 <= i < |merged| && merged[i] == x;
    var p, q := merged[..i], merged[i + 1..];
    assert merged == p + [x] + q;
    Rest(p, q, a[..n], b, x);
    SinceOfMerge(p + q, a[..n], b, from);
    SinceConcat(p + [x], q, from);
    SinceConcat(p, [x], from);
    SinceConcat(p, q, from);
    SinceConcat(a[..n], [x], from);
  }

  lemma Rest(p: seq<Booking>, q: seq<Booking>, a: seq<Booking>, b: seq<Booking>, x: Booking)
    requires multiset(p + [x] + q) == multiset(a + [x]) + multiset(b)
    ensures multiset(p + q) == multiset(a) + multiset(b)
  {
    assert multiset(p + q) == multiset(p + [x] + q) - multiset{x};
    assert multiset(a) == multiset(a + [x]) - multiset{x};
    assert multiset(a + [x]) + multiset(b) - multiset{x} == multiset(a) + multiset(b);
  }

  // --- the window theorem

  /**
   * One window. `booked` is what the key booked before the statement runs at
   * `at`, `missed` what it should have booked by `now`, `merged` all of it in
   * time order. The statement gives the limiter the same figure exactly when
   * the window has not turned since the plan, or nothing was booked in the new
   * window before the statement ran, or nothing was missed in the planned one.
   */
  lemma UpdateStandsForHistory(w: Window, floor: Floor, booked: seq<Booking>, missed: seq<Booking>,
      merged: seq<Booking>, now: int, at: int)
    requires IsFloor(floor) && now <= at
    requires InOrder(booked) && UpTo(booked, at) && UpTo(missed, now)
    requires InOrder(merged) && multiset(merged) == multiset(booked) + multiset(missed)
    requires NotAhead(w, floor, merged) && (w.start.Some? ==> w.start.value <= floor(now))
    ensures var row := BookWindow(w, floor, booked);
      var updated := Rolled(row, floor(now), Since(missed, Some(floor(now))));
      Effective(updated, floor, at) == Effective(BookWindow(w, floor, merged), floor, at) <==>
        (floor(now) == floor(at) || row.start != Some(floor(at)) || Since(missed, Some(floor(now))) == 0)
  {
    hide Since, BookWindow, InOrder, NotAhead;
    var F, G := floor(now), floor(at);
    assert F <= G;
    MergeParts(w, floor, booked, missed, merged, now, at);
    EffectiveAfter(w, floor, booked, at);
    EffectiveAfter(w, floor, merged, at);
    StartAfter(w, floor, booked);
    SinceOfMerge(merged, booked, missed, Some(G));
    if booked != [] { FloorIsStart(floor, booked[|booked| - 1].time, at); }
    if F < G {
      FloorIsStart(floor, now, at);
      SinceTooLate(missed, G, now);
    }
  }

  /**
   * A row whose window was rolled past a missed settle cannot stand for that
   * history: booked late, the settle would land in the wrong window.
   */
  lemma RolledAheadDiffers(floor: Floor, now: int, b: Booking)
    requires IsFloor(floor) && b.time <= now && floor(b.time) < floor(now)
    ensures var w := Window(Some(0), Some(floor(now)));
      && !NotAhead(w, floor, [b])
      && Effective(BookWindow(w, floor, [b]), floor, now) == b.amount
      && Effective(Rolled(w, floor(now), Since([b], Some(floor(now)))), floor, now) == 0
  {
    FloorIsStart(floor, b.time, now);
    assert [b][..0] == [];
    assert [b][0].time < floor(now);
  }

  lemma MergeParts(w: Window, floor: Floor, booked: seq<Booking>, missed: seq<Booking>, merged: seq<Booking>, now: int,
      at: int)
    requires IsFloor(floor) && now <= at && UpTo(booked, at) && UpTo(missed, now)
    requires multiset(merged) == multiset(booked) + multiset(missed) && NotAhead(w, floor, merged)
    ensures UpTo(merged, at) && NotAhead(w, floor, booked)
  {
    forall i | 0 <= i < |merged| ensures merged[i].time <= at {
      assert merged[i] in multiset(merged);
      assert merged[i] in booked || merged[i] in missed;
    }
    forall i | 0 <= i < |booked| ensures booked[i] in merged {
      assert booked[i] in multiset(booked);
      assert booked[i] in multiset(merged);
    }
  }

  lemma {:induction false} SinceTooLate(history: seq<Booking>, from: int, now: int)
    requires UpTo(history, now) && now < from
    ensures Since(history, Some(from)) == 0
  {
    if history != [] { SinceTooLate(history[..|history| - 1], from, now); }
  }

  // --- the whole row

  ghost predicate AreFloors(f: Floors) { IsFloor(f.day) && IsFloor(f.week) && IsFloor(f.month) }

  ghost predicate StartsBefore(k: Key, floors: Floors, history: seq<Booking>, now: int) {
    && NotAhead(k.day, floors.day, history)
    && NotAhead(k.week, floors.week, history)
    && NotAhead(k.month, floors.month, history)
    && (k.day.start.Some? ==> k.day.start.value <= floors.day(now))
    && (k.week.start.Some? ==> k.week.start.value <= floors.week(now))
    && (k.month.start.Some? ==> k.month.start.value <= floors.month(now))
  }

  /**
   * Run before any window turns, the statement leaves the lifetime total and
   * every window's effective usage as if each missed settle had been booked when
   * it happened, in time order with the rest.
   */
  lemma UpdateIsHistory(k: Key, floors: Floors, booked: seq<Booking>, missed: seq<Booking>, merged: seq<Booking>,
      now: int, at: int)
    requires AreFloors(floors) && now <= at
    requires InOrder(booked) && UpTo(booked, at) && UpTo(missed, now)
    requires InOrder(merged) && multiset(merged) == multiset(booked) + multiset(missed)
    requires StartsBefore(k, floors, merged, now)
    requires floors.day(now) == floors.day(at) && floors.week(now) == floors.week(at)
      && floors.month(now) == floors.month(at)
    ensures var updated := Update(BookAll(k, floors, booked), PlanFor(missed, floors, now), floors, now);
      var whole := BookAll(k, floors, merged);
      && updated.usage == whole.usage
      && Effective(updated.day, floors.day, at) == Effective(whole.day, floors.day, at)
      && Effective(updated.week, floors.week, at) == Effective(whole.week, floors.week, at)
      && Effective(updated.month, floors.month, at) == Effective(whole.month, floors.month, at)
  {
    hide IsFloor, InOrder, UpTo, NotAhead, Rolled, Effective, Since, BookWindow, BookAll;
    BookAllByColumn(k, floors, booked);
    BookAllByColumn(k, floors, merged);
    SinceOfMerge(merged, booked, missed, None);
    UpdateStandsForHistory(k.day, floors.day, booked, missed, merged, now, at);
    UpdateStandsForHistory(k.week, floors.week, booked, missed, merged, now, at);
    UpdateStandsForHistory(k.month, floors.month, booked, missed, merged, now, at);
  }

  // --- days and weeks are floors

  function Periodic(width: nat, offset: int): Floor
    requires width > 0
  {
    t => t - (t - offset) % width
  }

  const DaySeconds := 86_400

  /** Midnight, and Monday midnight: the epoch fell on a Thursday, so the first Monday is four days after it. */
  lemma DayAndWeekAreFloors()
    ensures IsFloor(Periodic(DaySeconds, 0)) && IsFloor(Periodic(7 * DaySeconds, 4 * DaySeconds))
  {
    PeriodicIsFloor(DaySeconds, 0);
    PeriodicIsFloor(7 * DaySeconds, 4 * DaySeconds);
  }

  lemma PeriodicIsFloor(width: nat, offset: int)
    requires width > 0
    ensures IsFloor(Periodic(width, offset))
  {
    var floor := Periodic(width, offset);
    forall t ensures floor(floor(t)) == floor(t) && floor(t) <= t { PeriodicTwice(width, t - offset); }
    forall s, t | s <= t ensures floor(s) <= floor(t) { PeriodicOrder(width, s - offset, t - offset); }
  }

  lemma PeriodicTwice(width: nat, t: int)
    requires width > 0
    ensures (t - t % width) % width == 0
  {
    var q := t / width;
    assert t - t % width == width * q;
    Aligns(width * q, width, q);
  }

  lemma PeriodicOrder(width: nat, s: int, t: int)
    requires width > 0 && s <= t
    ensures s - s % width <= t - t % width
  {
    var p, q := s / width, t / width;
    assert s == width * p + s % width && t == width * q + t % width;
    if q < p { Steps(q, p, width); }
    if p < q { Steps(p, q, width); }
  }
}
