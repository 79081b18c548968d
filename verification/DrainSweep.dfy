/**
 * Passes over a shard, sweeps over all shards, and the exit of a drain no
 * target listens to (clickhouse/ingest_operational_outbox_postgres.py).
 */
module DrainSweep {
  import opened Common
  import opened Positions
  import opened PostgresDrain

  // --- one call on one shard, as a cursor over a table

  /** Where the cursor stands after a batch that was not deleted. */
  function CursorAfter(table: set<int>, c: Cursor, batch: nat): Cursor {
    var f := Fetched(table, c, batch);
    if |f| < batch || f == [] then Head else Past(f[|f| - 1])
  }

  ghost predicate Undelivered(d: Drain, s: State, shard: nat, w: World) {
    BatchEvents(d.norm, ReadBatch(d, s, shard)).None? || !AllAccept(d, s, w)
  }

  lemma {:induction false} EnqueueKeeps(s: State, rows: seq<Row>)
    ensures var q := EnqueueAll(s, rows);
      && q.cursors == s.cursors && q.failures == s.failures && q.held == s.held
      && forall k :: k in s.outbox ==> k in q.outbox
    decreases rows
  {
    if rows != [] { EnqueueKeeps(Enqueue(s, rows[0]), rows[1..]); }
  }

  /**
   * A batch some target refused moves the cursor over itself, deletes nothing, and
   * reaches every target that accepts.
   */
  lemma UndeliveredCall(d: Drain, s: State, shard: nat, w: World)
    requires d.batch > 0 && w.readable && Undelivered(d, s, shard, w)
    ensures var x := DrainShard(d, s, shard, w);
      && CursorOf(x, shard) == CursorAfter(Table(s.outbox, shard), CursorOf(s, shard), d.batch)
      && (forall k :: k in s.outbox ==> k in x.outbox)
    ensures var x, rows := DrainShard(d, s, shard, w), ReadBatch(d, s, shard);
      (forall row :: row in rows ==> !d.norm(row).Raises?) ==>
        forall t, row ::
          t in d.targets && t in s.held && Dials(s.failures, t) && t in w.accepting && row in rows
          ==> t in x.held && HoldAll(d.norm, x.held[t], row)
  {
    hide BatchEvents, EnqueueAll, FirstN;
    EnqueueKeeps(s, w.arrivals);
    var rows := ReadBatch(d, s, shard);
    var f := Fetched(Table(s.outbox, shard), CursorOf(s, shard), d.batch);
    assert |rows| == |f|;
    if rows != [] { assert rows[|rows| - 1].key.pos == f[|f| - 1]; }
  }

  /** Rows enqueued for other shards leave a shard's table alone. */
  lemma {:induction false} EnqueueOthers(s: State, rows: seq<Row>, shard: nat)
    requires forall r :: r in rows ==> r.key.shard != shard
    ensures Table(EnqueueAll(s, rows).outbox, shard) == Table(s.outbox, shard)
    decreases rows
  {
    if rows != [] {
      var q := Enqueue(s, rows[0]);
      EnqueueOthers(q, rows[1..], shard);
      forall p ensures p in Table(q.outbox, shard) <==> p in Table(s.outbox, shard) {
        assert Key(shard, p) in q.outbox <==> Key(shard, p) in s.outbox;
      }
    }
  }

  lemma FetchedKeys(d: Drain, s: State, shard: nat)
    ensures forall p :: p in ToSet(Fetched(Table(s.outbox, shard), CursorOf(s, shard), d.batch)) <==>
      Key(shard, p) in KeysOf(ReadBatch(d, s, shard))
    ensures forall k :: k in KeysOf(ReadBatch(d, s, shard)) ==> k.shard == shard
  {
    var rows, f := ReadBatch(d, s, shard), Fetched(Table(s.outbox, shard), CursorOf(s, shard), d.batch);
    assert |rows| == |f|;
    forall p ensures p in ToSet(f) <==> Key(shard, p) in KeysOf(rows) {
      if p in f { var i :| 0 <= i < |f| && f[i] == p; assert rows[i].key == Key(shard, p); }
      if Key(shard, p) in KeysOf(rows) {
        var r :| r in rows && r.key == Key(shard, p);
        var i :| 0 <= i < |rows| && rows[i] == r;
        assert f[i] == p;
      }
    }
  }

  /** A batch every target took leaves the table, nothing else does, and the next call starts at the head. */
  lemma DeliveredCall(d: Drain, s: State, shard: nat, w: World)
    requires w.readable && !Undelivered(d, s, shard, w) && w.deletion.Committed?
    ensures var x, f := DrainShard(d, s, shard, w), Fetched(Table(s.outbox, shard), CursorOf(s, shard), d.batch);
      && CursorOf(x, shard) == Head
      && Table(x.outbox, shard) ==
           (if f == [] then Table(s.outbox, shard) else Table(EnqueueAll(s, w.arrivals).outbox, shard)) - ToSet(f)
  {
    hide Fetched, BatchEvents, AllAccept, KeysOf;
    var x, rows := DrainShard(d, s, shard, w), ReadBatch(d, s, shard);
    var f := Fetched(Table(s.outbox, shard), CursorOf(s, shard), d.batch);
    assert |rows| == |f|;
    if rows == [] {
      assert ToSet(f) == {};
    } else {
      var queued := EnqueueAll(s, w.arrivals);
      assert x.outbox == queued.outbox - KeysOf(rows);
      FetchedKeys(d, s, shard);
      forall p ensures p in Table(x.outbox, shard) <==> p in Table(queued.outbox, shard) && p !in ToSet(f) {
        assert p in Table(x.outbox, shard) <==> Key(shard, p) in x.outbox;
        assert p in Table(queued.outbox, shard) <==> Key(shard, p) in queued.outbox;
      }
    }
  }

  // --- a pass: from the head until the cursor resets

  /** The cursor before call `i`, where `tables[i]` is what call `i` finds and no call delivers. */
  function PassCursor(tables: seq<set<int>>, batch: nat, i: nat): Cursor
    requires i <= |tables|
  {
    if i == 0 then Head else CursorAfter(tables[i - 1], PassCursor(tables, batch, i - 1), batch)
  }

  lemma ShortHoldsAll(table: set<int>, c: Cursor, batch: nat, x: int)
    requires x in Beyond(table, c) && x !in Fetched(table, c, batch)
    ensures |Fetched(table, c, batch)| == batch
  {
    FirstNIs(Beyond(table, c), batch);
    assert x !in ToSet(Fetched(table, c, batch));
  }

  lemma {:induction false} NotYetHanded(tables: seq<set<int>>, batch: nat, x: int, i: nat)
    requires batch > 0 && i <= |tables|
    requires forall j :: 0 <= j < |tables| ==> x in tables[j]
    requires forall j :: 0 <= j < i ==> x !in Fetched(tables[j], PassCursor(tables, batch, j), batch)
    ensures PassCursor(tables, batch, i) == Head <==> i == 0
    ensures i > 0 ==> PassCursor(tables, batch, i).pos < x
  {
    hide FirstN;
    hide Ascending;
    hide ToSet;
    if i > 0 {
      NotYetHanded(tables, batch, x, i - 1);
      var c, table := PassCursor(tables, batch, i - 1), tables[i - 1];
      FirstNIs(Beyond(table, c), batch);
      assert x in Beyond(table, c);
      var f := Fetched(table, c, batch);
      assert x !in f;
      ShortHoldsAll(table, c, batch, x);
      assert f[|f| - 1] in f;
    }
  }

  /** Every row present for the whole of a pass is in one of its batches, whatever is enqueued meanwhile. */
  lemma PassHandsEveryRow(tables: seq<set<int>>, batch: nat, x: int)
    requires batch > 0 && |tables| > 0 && PassCursor(tables, batch, |tables|) == Head
    requires forall j :: 0 <= j < |tables| ==> x in tables[j]
    ensures exists j :: 0 <= j < |tables| && x in Fetched(tables[j], PassCursor(tables, batch, j), batch)
  {
    if forall j :: 0 <= j < |tables| ==> x !in Fetched(tables[j], PassCursor(tables, batch, j), batch) {
      NotYetHanded(tables, batch, x, |tables|);
    }
  }

  /** A pass as the drain makes it: the calls on one shard while some target refuses, with anything else in between. */
  ghost predicate IsPass(d: Drain, shard: nat, states: seq<State>, worlds: seq<World>) {
    && d.batch > 0 && |states| == |worlds| > 0
    && (forall j :: 0 <= j < |states| ==> worlds[j].readable && Undelivered(d, states[j], shard, worlds[j]))
    && CursorOf(states[0], shard) == Head
    && (forall j :: 0 < j < |states| ==>
          CursorOf(states[j], shard) == CursorOf(DrainShard(d, states[j - 1], shard, worlds[j - 1]), shard))
    && CursorOf(DrainShard(d, states[|states| - 1], shard, worlds[|states| - 1]), shard) == Head
  }

  function TablesOf(shard: nat, states: seq<State>): seq<set<int>> {
    seq(|states|, j requires 0 <= j < |states| => Table(states[j].outbox, shard))
  }

  lemma {:induction false} PassCursors(d: Drain, shard: nat, states: seq<State>, worlds: seq<World>, i: nat)
    requires IsPass(d, shard, states, worlds) && i <= |states|
    ensures PassCursor(TablesOf(shard, states), d.batch, i) ==
            if i < |states| then CursorOf(states[i], shard) else Head
  {
    hide DrainShard;
    hide CursorAfter;
    hide Undelivered;
    if i > 0 {
      PassCursors(d, shard, states, worlds, i - 1);
      UndeliveredCall(d, states[i - 1], shard, worlds[i - 1]);
    }
  }

  ghost predicate Holds(d: Drain, s: State, t: string, row: Row) {
    t in s.held && HoldAll(d.norm, s.held[t], row)
  }

  /**
   * While some target refuses, one pass hands every row that stays queued for
   * the whole pass over in some batch, and that batch, if it can be normalised,
   * brings it to every target that accepts throughout the pass. What the other
   * batches of the pass hold does not matter.
   */
  lemma PassReachesHealthy(d: Drain, shard: nat, states: seq<State>, worlds: seq<World>, pos: int, t: string)
    requires IsPass(d, shard, states, worlds) && t in d.targets
    requires forall j :: 0 <= j < |states| ==>
               Key(shard, pos) in states[j].outbox && t in states[j].held
                 && Accepts(states[j].failures, worlds[j].accepting, t)
    ensures exists j ::
              && 0 <= j < |states|
              && RowAt(states[j].outbox, Key(shard, pos)) in ReadBatch(d, states[j], shard)
              && ((forall r :: r in ReadBatch(d, states[j], shard) ==> !d.norm(r).Raises?) ==>
                    Holds(d, DrainShard(d, states[j], shard, worlds[j]), t, RowAt(states[j].outbox, Key(shard, pos))))
  {
    hide DrainShard;
    hide BatchEvents;
    hide Fetched;
    hide Accepts;
    hide Undelivered;
    hide Holds;
    hide ReadBatch;
    var tables := TablesOf(shard, states);
    PassCursors(d, shard, states, worlds, |states|);
    forall j | 0 <= j < |tables| ensures pos in tables[j] { assert Key(shard, pos) in states[j].outbox; }
    PassHandsEveryRow(tables, d.batch, pos);
    var j :| 0 <= j < |tables| && pos in Fetched(tables[j], PassCursor(tables, d.batch, j), d.batch);
    PassCursors(d, shard, states, worlds, j);
    HandedIsHeld(d, states[j], shard, worlds[j], pos, t);
  }

  lemma HandedIsHeld(d: Drain, s: State, shard: nat, w: World, pos: int, t: string)
    requires d.batch > 0 && w.readable && Undelivered(d, s, shard, w)
    requires t in d.targets && t in s.held && Accepts(s.failures, w.accepting, t)
    requires pos in Fetched(Table(s.outbox, shard), CursorOf(s, shard), d.batch)
    ensures RowAt(s.outbox, Key(shard, pos)) in ReadBatch(d, s, shard)
    ensures (forall r :: r in ReadBatch(d, s, shard) ==> !d.norm(r).Raises?) ==>
      Holds(d, DrainShard(d, s, shard, w), t, RowAt(s.outbox, Key(shard, pos)))
  {
    hide DrainShard;
    hide Fetched;
    UndeliveredCall(d, s, shard, w);
    var f := Fetched(Table(s.outbox, shard), CursorOf(s, shard), d.batch);
    var i :| 0 <= i < |f| && f[i] == pos;
    var row := RowAt(s.outbox, Key(shard, pos));
    assert ReadBatch(d, s, shard)[i] == row;
  }

  lemma BeyondLast(table: set<int>, c: Cursor, batch: nat)
    requires batch > 0 && |Beyond(table, c)| >= batch
    ensures var f := Fetched(table, c, batch);
      |f| == batch && Beyond(table, Past(f[batch - 1])) == Beyond(table, c) - ToSet(f)
  {
    hide FirstN;
    var s, f := Beyond(table, c), Fetched(table, c, batch);
    FirstNIs(s, batch);
    var last := f[batch - 1];
    assert last in f && last in ToSet(f);
    forall y ensures y in Beyond(table, Past(last)) <==> y in s - ToSet(f) {
      if y in f {
        var i :| 0 <= i < |f| && f[i] == y;
        assert y <= last;
      }
    }
  }

  /** How many calls a pass takes on a table that does not change. */
  function PassLength(table: set<int>, c: Cursor, batch: nat): nat
    requires batch > 0
    decreases |Beyond(table, c)|
  {
    if |Beyond(table, c)| < batch then 1 else
    BeyondLast(table, c, batch);
    FirstNIs(Beyond(table, c), batch);
    1 + PassLength(table, Past(Fetched(table, c, batch)[batch - 1]), batch)
  }

  /** PassLength counts the calls until the cursor is back at the head. */
  lemma {:induction false} PassLengthCounts(table: set<int>, c: Cursor, batch: nat)
    requires batch > 0
    ensures |Beyond(table, c)| < batch <==> CursorAfter(table, c, batch) == Head
    ensures |Beyond(table, c)| >= batch ==>
      PassLength(table, c, batch) == 1 + PassLength(table, CursorAfter(table, c, batch), batch)
    ensures |Beyond(table, c)| < batch ==> PassLength(table, c, batch) == 1
  {
    FirstNIs(Beyond(table, c), batch);
  }

  lemma BeyondHead(table: set<int>)
    ensures Beyond(table, Head) == table
  {
  }

  /** A quiet shard of n rows takes exactly n div b + 1 calls per pass. */
  lemma {:induction false} QuietPass(table: set<int>, c: Cursor, batch: nat)
    requires batch > 0
    ensures PassLength(table, c, batch) == |Beyond(table, c)| / batch + 1
    ensures c == Head ==> PassLength(table, c, batch) == |table| / batch + 1
    decreases |Beyond(table, c)|
  {
    hide FirstN, Beyond, ToSet, Ascending;
    var n := |Beyond(table, c)|;
    BeyondHead(table);
    if n >= batch {
      BeyondLast(table, c, batch);
      FirstNIs(Beyond(table, c), batch);
      QuietPass(table, Past(Fetched(table, c, batch)[batch - 1]), batch);
      DivStep(n, batch);
    } else {
      DivUnique(n, batch, 0, n);
    }
  }

  lemma MulLe(b: nat, x: int, y: int)
    requires x <= y
    ensures b * x <= b * y
  {
  }

  lemma DivUnique(n: nat, b: nat, q: nat, r: nat)
    requires 0 <= r < b && n == b * q + r
    ensures n / b == q
  {
    assert n == b * (n / b) + n % b;
    if n / b > q {
      MulLe(b, q + 1, n / b);
    } else if n / b < q {
      MulLe(b, n / b + 1, q);
    }
  }

  lemma DivStep(n: nat, b: nat)
    requires 0 < b <= n
    ensures (n - b) / b + 1 == n / b
  {
    var q, r := (n - b) / b, (n - b) % b;
    assert n - b == b * q + r && b * (q + 1) == b * q + b;
    DivUnique(n, b, q + 1, r);
  }

  lemma DivMono(m: nat, n: nat, b: nat)
    requires m <= n && b > 0
    ensures m / b <= n / b
  {
    assert m == b * (m / b) + m % b && n == b * (n / b) + n % b;
    if m / b > n / b {
      MulLe(b, n / b + 1, m / b);
    }
  }

  // --- once every target accepts again

  lemma CeilStep(n: nat, b: nat)
    requires b > 0
    ensures CeilDiv(0, b) == 0 && (n > 0 ==> CeilDiv(n, b) == 1 + CeilDiv(if n < b then 0 else n - b, b))
  {
    DivUnique(b - 1, b, 0, b - 1);
    if n > 0 { DivStep(n + b - 1, b); }
    if 0 < n < b { DivUnique(n - 1, b, 0, n - 1); }
  }

  lemma CeilMono(m: nat, n: nat, b: nat)
    requires m <= n && b > 0
    ensures CeilDiv(m, b) <= CeilDiv(n, b)
  {
    DivMono(m + b - 1, n + b - 1, b);
  }

  /** The steps of a run from any state on. */
  function RunFrom(d: Drain, s: State, ops: seq<Op>): State
    decreases ops
  {
    if ops == [] then s else RunFrom(d, Next(d, s, ops[0]), ops[1..])
  }

  function CallsOf(shard: nat, ops: seq<Op>): nat
    decreases ops
  {
    if ops == [] then 0 else (if ops[0].Call? && ops[0].shard == shard then 1 else 0) + CallsOf(shard, ops[1..])
  }

  /** It counts the calls on the shard. */
  lemma {:induction false} CallsOfCounts(shard: nat, ops: seq<Op>)
    ensures CallsOf(shard, ops) == |set i | 0 <= i < |ops| && ops[i].Call? && ops[i].shard == shard|
    decreases ops
  {
    var all := set i | 0 <= i < |ops| && ops[i].Call? && ops[i].shard == shard;
    if ops == [] {
      assert all == {};
    } else {
      CallsOfCounts(shard, ops[1..]);
      var rest := set i | 0 <= i < |ops[1..]| && ops[1..][i].Call? && ops[1..][i].shard == shard;
      var moved := set i | i in rest :: i + 1;
      assert |moved| == |rest| by { Moved(rest); }
      forall i ensures i in moved <==> i in all && i > 0 {
        if i in all && i > 0 { assert i - 1 in rest; }
      }
      assert all == moved + (if 0 in all then {0} else {});
    }
  }

  lemma {:induction false} Moved(s: set<int>)
    ensures |set i | i in s :: i + 1| == |s|
  {
    var moved := set i | i in s :: i + 1;
    if s == {} {
      assert moved == {};
    } else {
      var x := Member(s);
      Moved(s - {x});
      var rest := set i | i in s - {x} :: i + 1;
      forall y ensures y in moved <==> y in rest || y == x + 1 {
        if y in moved {
          var i :| i in s && y == i + 1;
          assert i == x || i in s - {x};
        }
        if y in rest { var i :| i in s - {x} && y == i + 1; assert i in s; }
      }
      assert moved == rest + {x + 1};
      assert x + 1 !in rest;
    }
  }

  ghost predicate NotFor(shard: nat, rows: seq<Row>) { forall r :: r in rows ==> r.key.shard != shard }

  /**
   * A step while every target accepts and nothing is enqueued for the shard:
   * anything may happen to the other shards, and a call on the shard itself
   * reads and deletes.
   */
  ghost predicate Undisturbed(d: Drain, shard: nat, op: Op) {
    match op
    case Offer(row) => row.key.shard != shard
    case Call(sh, w) =>
      && (forall t :: t in d.targets ==> t in w.accepting) && NotFor(shard, w.arrivals)
      && (sh == shard ==> w.readable && w.deletion.Committed?)
    case DieWriting(_, w) => NotFor(shard, w.arrivals)
    case _ => true
  }

  /** No target has failed in this sweep, and every row of the shard can be normalised. */
  ghost predicate Ready(d: Drain, s: State, shard: nat) {
    && (forall t :: t in d.targets ==> Count(s.failures, t) == 0)
    && (forall k :: k in s.outbox && k.shard == shard ==> !d.norm(RowAt(s.outbox, k)).Raises?)
  }

  lemma {:induction false} BatchNormalises(norm: Row -> Normal, rows: seq<Row>)
    requires forall r :: r in rows ==> !norm(r).Raises?
    ensures BatchEvents(norm, rows).Some?
  {
    if rows != [] {
      assert rows[|rows| - 1] in rows;
      BatchNormalises(norm, rows[..|rows| - 1]);
    }
  }

  lemma ReadyDelivers(d: Drain, s: State, shard: nat, w: World)
    requires Ready(d, s, shard) && forall t :: t in d.targets ==> t in w.accepting
    ensures !Undelivered(d, s, shard, w)
  {
    hide BatchEvents;
    var rows := ReadBatch(d, s, shard);
    var table := Table(s.outbox, shard);
    var f := Fetched(table, CursorOf(s, shard), d.batch);
    FirstNIs(Beyond(table, CursorOf(s, shard)), d.batch);
    forall r | r in rows ensures !d.norm(r).Raises? {
      var i :| 0 <= i < |rows| && rows[i] == r;
      assert f[i] in ToSet(f) && f[i] in table;
    }
    BatchNormalises(d.norm, rows);
  }

  /** Keys and contents of the shard's rows after a step are among those before. */
  ghost predicate ShardShrinks(s: State, x: State, shard: nat) {
    forall k :: k in x.outbox && k.shard == shard ==> k in s.outbox && x.outbox[k] == s.outbox[k]
  }

  lemma {:induction false} EnqueueShrinks(s: State, rows: seq<Row>, shard: nat)
    requires NotFor(shard, rows)
    ensures ShardShrinks(s, EnqueueAll(s, rows), shard)
    decreases rows
  {
    if rows != [] { EnqueueShrinks(Enqueue(s, rows[0]), rows[1..], shard); }
  }

  lemma OutboxKept(d: Drain, s: State, sh: nat, w: World, events: seq<Event>, rows: seq<Row>)
    ensures Written(d, s, w, events).outbox == s.outbox && SteppedOver(d, s, sh, rows).outbox == s.outbox
    ensures Delete(s, rows).outbox == s.outbox - KeysOf(rows)
  {
  }

  /** The outbox after a call: as it was, with the arrivals, or with the arrivals and without the batch. */
  lemma CallOutbox(d: Drain, s: State, sh: nat, w: World)
    ensures var x, queued := DrainShard(d, s, sh, w).outbox, EnqueueAll(s, w.arrivals).outbox;
      x == s.outbox || x == queued || x == queued - KeysOf(ReadBatch(d, s, sh))
  {
    hide BatchEvents, EnqueueAll, ReadBatch, KeysOf, AllAccept, Written, SteppedOver, Delete;
    var rows, queued := ReadBatch(d, s, sh), EnqueueAll(s, w.arrivals);
    OutboxKept(d, queued, sh, w, [], rows);
    var events := BatchEvents(d.norm, rows);
    if events.Some? {
      var written := Written(d, queued, w, events.value);
      OutboxKept(d, queued, sh, w, events.value, rows);
      OutboxKept(d, written, sh, w, events.value, rows);
    }
  }

  lemma CursorKept(d: Drain, s: State, shard: nat, sh: nat, w: World, events: seq<Event>, rows: seq<Row>)
    ensures Written(d, s, w, events).cursors == s.cursors && Delete(s, rows).cursors == s.cursors
    ensures sh != shard ==> CursorOf(SteppedOver(d, s, sh, rows), shard) == CursorOf(s, shard)
  {
  }

  lemma CallCursor(d: Drain, s: State, shard: nat, sh: nat, w: World)
    requires sh != shard
    ensures CursorOf(DrainShard(d, s, sh, w), shard) == CursorOf(s, shard)
  {
    hide BatchEvents, EnqueueAll, ReadBatch, KeysOf, AllAccept, Written, SteppedOver, Delete;
    EnqueueKeeps(s, w.arrivals);
    var rows, queued := ReadBatch(d, s, sh), EnqueueAll(s, w.arrivals);
    CursorKept(d, queued, shard, sh, w, [], rows);
    var events := BatchEvents(d.norm, rows);
    if events.Some? {
      var written := Written(d, queued, w, events.value);
      CursorKept(d, queued, shard, sh, w, events.value, rows);
      CursorKept(d, written, shard, sh, w, events.value, rows);
    }
  }

  lemma StepShrinks(d: Drain, s: State, shard: nat, op: Op)
    requires Undisturbed(d, shard, op)
    ensures ShardShrinks(s, Next(d, s, op), shard)
  {
    hide BatchEvents, EnqueueAll, ReadBatch, KeysOf, DrainShard;
    match op
    case Call(sh, w) =>
      EnqueueShrinks(s, w.arrivals, shard);
      CallOutbox(d, s, sh, w);
    case DieWriting(_, w) => EnqueueShrinks(s, w.arrivals, shard);
    case _ =>
  }

  lemma FailuresKept(d: Drain, s: State, sh: nat, w: World, events: seq<Event>, rows: seq<Row>)
    requires forall t :: t in d.targets ==> t in w.accepting
    ensures Written(d, s, w, events).failures == s.failures
    ensures SteppedOver(d, s, sh, rows).failures == s.failures && Delete(s, rows).failures == s.failures
  {
  }

  lemma CallFailsNone(d: Drain, s: State, sh: nat, w: World)
    requires forall t :: t in d.targets ==> t in w.accepting
    ensures DrainShard(d, s, sh, w).failures == s.failures
  {
    hide BatchEvents, EnqueueAll, ReadBatch, KeysOf, AllAccept, Written, SteppedOver, Delete;
    EnqueueKeeps(s, w.arrivals);
    var rows, queued := ReadBatch(d, s, sh), EnqueueAll(s, w.arrivals);
    FailuresKept(d, queued, sh, w, [], rows);
    var events := BatchEvents(d.norm, rows);
    if events.Some? {
      var written := Written(d, queued, w, events.value);
      FailuresKept(d, queued, sh, w, events.value, rows);
      FailuresKept(d, written, sh, w, events.value, rows);
    }
  }

  lemma StepFailsNone(d: Drain, s: State, shard: nat, op: Op)
    requires Undisturbed(d, shard, op) && forall t :: t in d.targets ==> Count(s.failures, t) == 0
    ensures forall t :: t in d.targets ==> Count(Next(d, s, op).failures, t) == 0
  {
    hide BatchEvents, EnqueueAll, ReadBatch, KeysOf, AllAccept, DrainShard, Written;
    if op.Call? { CallFailsNone(d, s, op.shard, op.w); }
  }

  lemma StaysReady(d: Drain, s: State, shard: nat, op: Op)
    requires Ready(d, s, shard) && Undisturbed(d, shard, op)
    ensures Ready(d, Next(d, s, op), shard)
  {
    hide Next, Undisturbed, Count;
    StepShrinks(d, s, shard, op);
    StepFailsNone(d, s, shard, op);
  }

  /** A call on another shard leaves this one's table and cursor alone. */
  lemma OtherCall(d: Drain, s: State, shard: nat, sh: nat, w: World)
    requires sh != shard && NotFor(shard, w.arrivals)
    ensures var x := DrainShard(d, s, sh, w);
      Table(x.outbox, shard) == Table(s.outbox, shard) && CursorOf(x, shard) == CursorOf(s, shard)
  {
    hide DrainShard, EnqueueAll, KeysOf, ReadBatch, CursorOf;
    EnqueueOthers(s, w.arrivals, shard);
    CallCursor(d, s, shard, sh, w);
    CallOutbox(d, s, sh, w);
    FetchedKeys(d, s, sh);
    var queued := EnqueueAll(s, w.arrivals);
    forall p ensures Key(shard, p) in DrainShard(d, s, sh, w).outbox <==> Key(shard, p) in s.outbox {
      assert p in Table(s.outbox, shard) <==> Key(shard, p) in s.outbox;
      assert p in Table(queued.outbox, shard) <==> Key(shard, p) in queued.outbox;
    }
  }

  /** A step that is no call on the shard leaves its table alone, and its cursor or the head. */
  lemma OtherStep(d: Drain, s: State, shard: nat, op: Op)
    requires Undisturbed(d, shard, op) && !(op.Call? && op.shard == shard)
    ensures var x := Next(d, s, op);
      Table(x.outbox, shard) == Table(s.outbox, shard)
        && (CursorOf(x, shard) == CursorOf(s, shard) || CursorOf(x, shard) == Head)
  {
    hide BatchEvents, EnqueueAll, Enqueue, DrainShard, Table, ReadBatch;
    match op
    case Offer(row) =>
      EnqueueOthers(s, [row], shard);
      OneEnqueued(s, row);
    case Call(sh, w) => OtherCall(d, s, shard, sh, w);
    case DieWriting(_, w) => EnqueueOthers(s, w.arrivals, shard);
    case _ =>
  }

  lemma OneEnqueued(s: State, row: Row)
    ensures EnqueueAll(s, [row]) == Enqueue(s, row) && Enqueue(s, row).cursors == s.cursors
  {
    assert [row][1..] == [];
    assert EnqueueAll(Enqueue(s, row), []) == Enqueue(s, row);
  }

  /** The calls a shard still needs: its rows in batches, and one more if its cursor is not at the head. */
  function Needed(d: Drain, s: State, shard: nat): nat
    requires d.batch > 0
  {
    CeilDiv(|Table(s.outbox, shard)|, d.batch) + if CursorOf(s, shard) == Head then 0 else 1
  }

  lemma CallProgress(d: Drain, s: State, shard: nat, w: World)
    requires d.batch > 0 && Ready(d, s, shard) && Undisturbed(d, shard, Call(shard, w))
    ensures Needed(d, DrainShard(d, s, shard, w), shard) <=
      if Needed(d, s, shard) == 0 then 0 else Needed(d, s, shard) - 1
  {
    hide DrainShard, CeilDiv, Table, CursorOf, Fetched, Ready;
    ReadyDelivers(d, s, shard, w);
    DeliveredCall(d, s, shard, w);
    EnqueueOthers(s, w.arrivals, shard);
    BatchesLeft(Table(s.outbox, shard), CursorOf(s, shard), d.batch);
  }

  /** What a batch leaves takes one batch less if it was read from the head, and no more in any case. */
  lemma BatchesLeft(table: set<int>, c: Cursor, batch: nat)
    requires batch > 0
    ensures var left, all := CeilDiv(|table - ToSet(Fetched(table, c, batch))|, batch), CeilDiv(|table|, batch);
      left <= all && (c == Head ==> left <= if all == 0 then 0 else all - 1)
  {
    hide CeilDiv, FirstN;
    var left := table - ToSet(Fetched(table, c, batch));
    SubsetCount(left, table);
    CeilMono(|left|, |table|, batch);
    CeilStep(|table|, batch);
    BeyondHead(table);
    FirstNIs(table, batch);
  }

  /**
   * Once all targets accept, a shard of n rows is empty after ceil(n/b) + 1
   * calls on it, wherever its cursor stood, whatever calls on other shards,
   * sweeps, enqueues for other shards and crashes come in between.
   */
  lemma {:induction false} ShardEmpties(d: Drain, s: State, shard: nat, ops: seq<Op>)
    requires d.batch > 0 && Ready(d, s, shard) && forall op :: op in ops ==> Undisturbed(d, shard, op)
    requires |set i | 0 <= i < |ops| && ops[i].Call? && ops[i].shard == shard|
             >= CeilDiv(|Table(s.outbox, shard)|, d.batch) + 1
    ensures Table(RunFrom(d, s, ops).outbox, shard) == {}
  {
    CallsOfCounts(shard, ops);
    NeededSuffices(d, s, shard, ops);
  }

  lemma {:induction false} NeededSuffices(d: Drain, s: State, shard: nat, ops: seq<Op>)
    requires d.batch > 0 && Ready(d, s, shard) && forall op :: op in ops ==> Undisturbed(d, shard, op)
    requires CallsOf(shard, ops) >= Needed(d, s, shard)
    ensures Table(RunFrom(d, s, ops).outbox, shard) == {}
    decreases ops
  {
    hide CeilDiv, Undisturbed, Ready, Next, Table;
    if ops == [] {
      CeilStep(|Table(s.outbox, shard)|, d.batch);
    } else {
      var op := ops[0];
      StaysReady(d, s, shard, op);
      if op.Call? && op.shard == shard {
        CallProgress(d, s, shard, op.w);
        CallIsNext(d, s, shard, op.w);
      } else {
        OtherStep(d, s, shard, op);
      }
      NeededSuffices(d, Next(d, s, op), shard, ops[1..]);
    }
  }

  lemma CallIsNext(d: Drain, s: State, shard: nat, w: World)
    ensures Next(d, s, Call(shard, w)) == DrainShard(d, s, shard, w)
  {
  }

  /** While a target refuses, a pass of the drain over a shard that does not change takes exactly n div b + 1 calls. */
  lemma PassTakes(d: Drain, shard: nat, states: seq<State>, worlds: seq<World>, table: set<int>)
    requires IsPass(d, shard, states, worlds)
    requires forall j :: 0 <= j < |states| ==> Table(states[j].outbox, shard) == table
    requires forall j :: 0 < j < |states| ==> CursorOf(states[j], shard) != Head
    ensures |states| == |table| / d.batch + 1
  {
    PassLeft(d, shard, states, worlds, table, 0);
    QuietPass(table, Head, d.batch);
  }

  lemma {:induction false} PassLeft(d: Drain, shard: nat, states: seq<State>, worlds: seq<World>, table: set<int>,
      j: nat)
    requires IsPass(d, shard, states, worlds) && j < |states|
    requires forall j :: 0 <= j < |states| ==> Table(states[j].outbox, shard) == table
    requires forall j :: 0 < j < |states| ==> CursorOf(states[j], shard) != Head
    ensures PassLength(table, CursorOf(states[j], shard), d.batch) == |states| - j
    decreases |states| - j
  {
    hide DrainShard, Undelivered, Fetched, Table, CursorOf, CursorAfter, PassLength;
    UndeliveredCall(d, states[j], shard, worlds[j]);
    PassLengthCounts(table, CursorOf(states[j], shard), d.batch);
    if j + 1 < |states| { PassLeft(d, shard, states, worlds, table, j + 1); }
  }

  // --- a sweep over all shards, and what it reports

  /** How one shard of a sweep ended. */
  datatype Outcome = Nothing | ReadFailed | NormaliseFailed | WriteFailed(succeeded: nat) | DeleteFailed | Delivered

  function Accepting(targets: seq<string>, failures: map<string, nat>, accepting: set<string>): seq<string> {
    if targets == [] then [] else
    var last := |targets| - 1;
    Accepting(targets[..last], failures, accepting)
      + (if Accepts(failures, accepting, targets[last]) then [targets[last]] else [])
  }

  function OutcomeOf(d: Drain, s: State, shard: nat, w: World): Outcome {
    if !w.readable then ReadFailed else
    var rows := ReadBatch(d, s, shard);
    if rows == [] then Nothing
    else if BatchEvents(d.norm, rows).None? then NormaliseFailed
    else if !AllAccept(d, s, w) then WriteFailed(|Accepting(d.targets, s.failures, w.accepting)|)
    else if w.deletion.Committed? then Delivered
    else DeleteFailed
  }

  predicate Failed(o: Outcome) { !o.Nothing? && !o.Delivered? }

  /** The counters of a sweep that decide whether the drain is alive. */
  datatype Tally = Tally(failedShards: nat, allTargetsFailed: nat, successfulWrites: nat)

  function Counted(t: Tally, targets: nat, o: Outcome): Tally {
    Tally(
      t.failedShards + (if Failed(o) then 1 else 0),
      t.allTargetsFailed + (if o.WriteFailed? && o.succeeded == 0 then 1 else 0),
      t.successfulWrites + (if o.WriteFailed? then o.succeeded else if o.Delivered? then targets else 0))
  }

  function Tallied(targets: nat, outs: seq<Outcome>): Tally {
    if outs == [] then Tally(0, 0, 0) else Counted(Tallied(targets, outs[..|outs| - 1]), targets, outs[|outs| - 1])
  }

  predicate NoTargetListens(t: Tally) {
    t.failedShards > 0 && t.allTargetsFailed == t.failedShards && t.successfulWrites == 0
  }

  ghost predicate RefusedByAll(o: Outcome) { o == WriteFailed(0) }

  lemma {:induction false} TallyMeans(targets: nat, outs: seq<Outcome>)
    requires targets > 0
    ensures var t := Tallied(targets, outs);
      && t.allTargetsFailed <= t.failedShards
      && (t.allTargetsFailed == t.failedShards <==> forall i :: 0 <= i < |outs| && Failed(outs[i]) ==>
           RefusedByAll(outs[i]))
      && (t.failedShards > 0 <==> exists i :: 0 <= i < |outs| && Failed(outs[i]))
      && (t.successfulWrites == 0 <==> forall i :: 0 <= i < |outs| ==>
           !outs[i].Delivered? && (outs[i].WriteFailed? ==> outs[i].succeeded == 0))
  {
    if outs != [] {
      var last := |outs| - 1;
      TallyMeans(targets, outs[..last]);
      assert outs == outs[..last] + [outs[last]];
    }
  }

  /** Some shard was refused by every target, and every other shard had nothing or was refused too. */
  ghost predicate RefusedThroughout(outs: seq<Outcome>) {
    && (exists i :: 0 <= i < |outs| && RefusedByAll(outs[i]))
    && forall i :: 0 <= i < |outs| ==> outs[i].Nothing? || RefusedByAll(outs[i])
  }

  /**
   * A sweep counts towards the exit exactly when some shard failed, every shard
   * that failed was refused by every target, and none was delivered; then no
   * target took any batch of the sweep.
   */
  lemma DeadSweep(targets: nat, outs: seq<Outcome>)
    requires targets > 0
    ensures NoTargetListens(Tallied(targets, outs)) <==> RefusedThroughout(outs)
    ensures NoTargetListens(Tallied(targets, outs)) ==> forall i :: 0 <= i < |outs| ==>
      !outs[i].Delivered? && !outs[i].DeleteFailed? && (outs[i].WriteFailed? ==> outs[i].succeeded == 0)
  {
    TallyMeans(targets, outs);
  }

  // --- the writer and the drain, as objects

  /** Writes one batch to every target, and succeeds only if all of them take it. */
  class FanOutWriter {
    const targets: seq<string>
    var consecutiveFailures: map<string, nat>
    var sweepFailures: map<string, nat>

    /** Within a sweep a target that refuses is dialled at most as often as the limit allows. */
    ghost predicate Valid()
      reads this
    {
      && (forall t :: t in targets ==> t in consecutiveFailures)
      && forall t :: t in sweepFailures ==> sweepFailures[t] <= SWEEP_TARGET_FAILURE_LIMIT
    }

    constructor (targets: seq<string>)
      ensures this.targets == targets && Valid() && sweepFailures == Zeros(targets)
    {
      this.targets := targets;
      consecutiveFailures, sweepFailures := Zeros(targets), Zeros(targets);
    }

    method BeginSweep()
      requires Valid()
      modifies this
      ensures Valid() && sweepFailures == Zeros(targets) && consecutiveFailures == old(consecutiveFailures)
    {
      sweepFailures := Zeros(targets);
    }

    method Insert(accepting: set<string>) returns (failed: seq<string>, succeeded: seq<string>)
      requires Valid()
      modifies this
      ensures Valid()
      ensures Fan(failed, succeeded, sweepFailures) == FanOut(targets, old(sweepFailures), accepting)
      ensures forall t :: t in targets ==>
                consecutiveFailures[t] == if t in failed then old(consecutiveFailures)[t] + 1 else 0
    {
      failed, succeeded := [], [];
      for i := 0 to |targets|
        invariant Valid() && consecutiveFailures == old(consecutiveFailures)
        invariant Fan(failed, succeeded, sweepFailures) == FanOut(targets[..i], old(sweepFailures), accepting)
        invariant forall j :: 0 <= j < i ==> targets[j] in failed || targets[j] in succeeded
      {
        var name := targets[i];
        assert targets[..i + 1][..i] == targets[..i] && name in targets;
        if Count(sweepFailures, name) >= SWEEP_TARGET_FAILURE_LIMIT {
          failed := failed + [name];
        } else if name !in accepting {
          failed := failed + [name];
          sweepFailures := sweepFailures[name := Count(sweepFailures, name) + 1];
        } else {
          succeeded := succeeded + [name];
        }
      }
      assert targets[..|targets|] == targets;
      consecutiveFailures := map t | t in consecutiveFailures ::
        if t in failed then consecutiveFailures[t] + 1 else if t in succeeded then 0 else consecutiveFailures[t];
    }
  }

  datatype Fan = Fan(failed: seq<string>, succeeded: seq<string>, failures: map<string, nat>)

  /** What one write to every target in turn ends with; a target over the limit is skipped, and a skip is a failure. */
  function FanOut(targets: seq<string>, failures: map<string, nat>, accepting: set<string>): Fan {
    if targets == [] then Fan([], [], failures) else
    var before, name := FanOut(targets[..|targets| - 1], failures, accepting), targets[|targets| - 1];
    if !Dials(before.failures, name) then before.(failed := before.failed + [name])
    else if name in accepting then before.(succeeded := before.succeeded + [name])
    else before.(
      failed := before.failed + [name],
      failures := before.failures[name := Count(before.failures, name) + 1])
  }

  lemma {:induction false} FanOutFailures(targets: seq<string>, failures: map<string, nat>, accepting: set<string>)
    requires Distinct(targets)
    ensures var f := FanOut(targets, failures, accepting);
      && (forall t :: Count(f.failures, t) ==
            Count(failures, t) + (if t in targets && Dials(failures, t) && t !in accepting then 1 else 0))
      && ((forall t :: t in targets ==> t in failures) ==> f.failures.Keys == failures.Keys)
  {
    if targets != [] {
      var last := |targets| - 1;
      FanOutFailures(targets[..last], failures, accepting);
      assert targets == targets[..last] + [targets[last]];
      assert targets[last] !in targets[..last];
      FanOutLast(targets, failures, accepting);
      hide FanOut;
    }
  }

  /** The last target's part in a write. */
  lemma FanOutLast(targets: seq<string>, failures: map<string, nat>, accepting: set<string>)
    requires targets != []
    ensures var last := |targets| - 1;
      var before, name := FanOut(targets[..last], failures, accepting), targets[last];
      var f := FanOut(targets, failures, accepting);
      if !Dials(before.failures, name) || name in accepting then f.failures == before.failures
      else f.failures == before.failures[name := Count(before.failures, name) + 1]
  {
  }

  lemma {:induction false} FanOutSplits(targets: seq<string>, failures: map<string, nat>, accepting: set<string>)
    requires Distinct(targets)
    ensures var f := FanOut(targets, failures, accepting);
      && f.succeeded == Accepting(targets, failures, accepting)
      && (forall t :: t in f.failed <==> t in targets && !Accepts(failures, accepting, t))
  {
    if targets != [] {
      var last := |targets| - 1;
      FanOutSplits(targets[..last], failures, accepting);
      FanOutFailures(targets[..last], failures, accepting);
      assert targets == targets[..last] + [targets[last]];
      assert targets[last] !in targets[..last];
    }
  }

  /**
   * With distinct targets the write is each target's own affair: who is dialled, who
   * accepts, and whose counter rises.
   */
  lemma FanOutMeans(targets: seq<string>, failures: map<string, nat>, accepting: set<string>)
    requires Distinct(targets)
    ensures var f := FanOut(targets, failures, accepting);
      && f.succeeded == Accepting(targets, failures, accepting)
      && (forall t :: t in f.failed <==> t in targets && !Accepts(failures, accepting, t))
      && (f.failed == [] <==> forall i :: 0 <= i < |targets| ==> Accepts(failures, accepting, targets[i]))
      && (forall t :: Count(f.failures, t) ==
            Count(failures, t) + (if t in targets && Dials(failures, t) && t !in accepting then 1 else 0))
      && ((forall t :: t in targets ==> t in failures) ==> f.failures.Keys == failures.Keys)
  {
    hide FanOut, Accepts, Accepting, Dials, Count;
    FanOutFailures(targets, failures, accepting);
    FanOutSplits(targets, failures, accepting);
    var f := FanOut(targets, failures, accepting);
    if f.failed != [] { assert f.failed[0] in f.failed; }
    forall i | 0 <= i < |targets| ensures targets[i] in targets {}
  }

  function FailuresAfter(targets: seq<string>, failures: map<string, nat>, worlds: seq<set<string>>): map<string, nat>
    decreases worlds
  {
    if worlds == [] then failures
    else FailuresAfter(targets, FanOut(targets, failures, worlds[0]).failures, worlds[1..])
  }

  /** How often a target is dialled in a sweep of writes. */
  function DialCount(targets: seq<string>, failures: map<string, nat>, worlds: seq<set<string>>, t: string): nat
    decreases worlds
  {
    if worlds == [] then 0 else
    (if Dials(failures, t) then 1 else 0)
      + DialCount(targets, FanOut(targets, failures, worlds[0]).failures, worlds[1..], t)
  }

  /** How often it is dialled and refuses. */
  function RefusalCount(targets: seq<string>, failures: map<string, nat>, worlds: seq<set<string>>, t: string): nat
    decreases worlds
  {
    if worlds == [] then 0 else
    (if Dials(failures, t) && t !in worlds[0] then 1 else 0) +
      RefusalCount(targets, FanOut(targets, failures, worlds[0]).failures, worlds[1..], t)
  }

  /** In one sweep a target is dialled and refuses at most three times, and once it has, every batch is refused. */
  lemma {:induction false} RefusedAtMostThrice(targets: seq<string>, failures: map<string, nat>,
      worlds: seq<set<string>>, t: string)
    requires Distinct(targets) && t in targets && Count(failures, t) <= SWEEP_TARGET_FAILURE_LIMIT
    ensures Count(failures, t) + RefusalCount(targets, failures, worlds, t) ==
      Count(FailuresAfter(targets, failures, worlds), t)
    ensures Count(failures, t) + RefusalCount(targets, failures, worlds, t) <= SWEEP_TARGET_FAILURE_LIMIT
    ensures Count(failures, t) == SWEEP_TARGET_FAILURE_LIMIT ==>
              && DialCount(targets, failures, worlds, t) == 0
              && forall w :: w in worlds ==> FanOut(targets, failures, w).failed != []
    decreases worlds
  {
    hide FanOut, Distinct;
    if worlds != [] {
      FanOutMeans(targets, failures, worlds[0]);
      RefusedAtMostThrice(targets, FanOut(targets, failures, worlds[0]).failures, worlds[1..], t);
    }
    if Count(failures, t) == SWEEP_TARGET_FAILURE_LIMIT {
      forall w | w in worlds ensures FanOut(targets, failures, w).failed != [] { FanOutMeans(targets, failures, w); }
    }
  }

  /** A target that never accepts is dialled exactly until it has failed three times. */
  lemma {:induction false} DeadIsDialledThrice(targets: seq<string>, failures: map<string, nat>,
      worlds: seq<set<string>>, t: string)
    requires Distinct(targets) && t in targets && Count(failures, t) <= SWEEP_TARGET_FAILURE_LIMIT
    requires forall w :: w in worlds ==> t !in w
    ensures DialCount(targets, failures, worlds, t) == Least(SWEEP_TARGET_FAILURE_LIMIT - Count(failures, t), |worlds|)
    decreases worlds
  {
    hide FanOut, Distinct;
    if worlds != [] {
      FanOutMeans(targets, failures, worlds[0]);
      DeadIsDialledThrice(targets, FanOut(targets, failures, worlds[0]).failures, worlds[1..], t);
    }
  }

  /** A target that accepts whenever it is dialled is dialled for every batch of the sweep. */
  lemma {:induction false} HealthyIsDialled(targets: seq<string>, failures: map<string, nat>, worlds: seq<set<string>>,
      t: string)
    requires Distinct(targets) && Count(failures, t) == 0 && forall w :: w in worlds ==> t in w
    ensures DialCount(targets, failures, worlds, t) == |worlds| && RefusalCount(targets, failures, worlds, t) == 0
    decreases worlds
  {
    hide FanOut, Distinct;
    if worlds != [] {
      FanOutMeans(targets, failures, worlds[0]);
      HealthyIsDialled(targets, FanOut(targets, failures, worlds[0]).failures, worlds[1..], t);
    }
  }
}
