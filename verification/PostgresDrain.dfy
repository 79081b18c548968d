/**
 * The drain of clickhouse/ingest_operational_outbox_postgres.py: read a batch
 * of one shard, write it to every target, and delete it only if every target
 * took it. A batch that is not deleted is stepped over by an in-memory cursor.
 *
 * A position stands for (event_kind, event_id) in key order. What the world
 * does during one call, whether the read works, which targets accept, what a
 * failing target kept anyway, how the delete ends and what is enqueued
 * meanwhile, is a parameter.
 */
module PostgresDrain {
  import opened Common
  import opened Positions

  const SWEEP_TARGET_FAILURE_LIMIT: nat := 3

  datatype Key = Key(shard: nat, pos: int)
  datatype Row = Row(key: Key, payload: string)
  datatype Event = Derived(row: Row, index: nat) | Quarantined(row: Row)

  /** What normalising a row gives: one event and more, a ValueError, or another error. */
  datatype Normal = Yields(more: nat) | Invalid | Raises

  function EventsOf(norm: Row -> Normal, row: Row): (events: seq<Event>)
    ensures forall other, i: nat ::
      Derived(other, i) in events <==> other == row && norm(row).Yields? && i <= norm(row).more
    ensures forall other :: Quarantined(other) in events <==> other == row && norm(row).Invalid?
  {
    match norm(row)
    case Yields(more) =>
      var derived := seq(more + 1, i requires 0 <= i <= more => Derived(row, i));
      assert forall i: nat :: i <= more ==> derived[i] == Derived(row, i);
      derived
    case Invalid => [Quarantined(row)]
    case Raises => []
  }

  /** The events of a batch, or None if one row raises something other than a ValueError. */
  function BatchEvents(norm: Row -> Normal, rows: seq<Row>): (r: Option<seq<Event>>)
    ensures r.None? <==> exists row :: row in rows && norm(row).Raises?
    ensures r.Some? ==> forall row, i: nat ::
      Derived(row, i) in r.value <==> row in rows && norm(row).Yields? && i <= norm(row).more
    ensures r.Some? ==> forall row :: Quarantined(row) in r.value <==> row in rows && norm(row).Invalid?
  {
    if rows == [] then Some([]) else
    var last := |rows| - 1;
    var before := BatchEvents(norm, rows[..last]);
    assert rows == rows[..last] + [rows[last]];
    if before.None? || norm(rows[last]).Raises? then None else Some(before.value + EventsOf(norm, rows[last]))
  }

  datatype Deletion = Committed | RolledBack | CommittedUnseen

  datatype World = World(
    readable: bool,
    arrivals: seq<Row>,
    accepting: set<string>,
    kept: map<string, set<Event>>,
    deletion: Deletion)

  /** `offered` and `removed` record what was ever enqueued and what the drain has taken out. */
  datatype State = State(
    outbox: map<Key, string>,
    cursors: map<nat, int>,
    failures: map<string, nat>,
    held: map<string, set<Event>>,
    offered: set<Row>,
    removed: set<Row>)

  datatype Drain = Drain(targets: seq<string>, norm: Row -> Normal, batch: nat)

  // --- the table

  function Enqueue(s: State, row: Row): State {
    if row.key in s.outbox then s
    else s.(outbox := s.outbox[row.key := row.payload], offered := s.offered + {row})
  }

  function EnqueueAll(s: State, rows: seq<Row>): State
    decreases rows
  {
    if rows == [] then s else EnqueueAll(Enqueue(s, rows[0]), rows[1..])
  }

  function Table(outbox: map<Key, string>, shard: nat): set<int> { set k | k in outbox && k.shard == shard :: k.pos }

  function CursorOf(s: State, shard: nat): Cursor { if shard in s.cursors then Past(s.cursors[shard]) else Head }

  function Fetched(table: set<int>, c: Cursor, batch: nat): seq<int> { FirstN(Beyond(table, c), batch) }

  function RowAt(outbox: map<Key, string>, k: Key): Row { Row(k, if k in outbox then outbox[k] else "") }

  function ReadBatch(d: Drain, s: State, shard: nat): seq<Row> {
    var ps := Fetched(Table(s.outbox, shard), CursorOf(s, shard), d.batch);
    seq(|ps|, i requires 0 <= i < |ps| => RowAt(s.outbox, Key(shard, ps[i])))
  }

  function KeysOf(rows: seq<Row>): set<Key> { set r | r in rows :: r.key }

  /** Delete by primary key whatever the table holds there. */
  function Delete(s: State, rows: seq<Row>): State {
    s.(outbox := s.outbox - KeysOf(rows),
       removed := s.removed + set k | k in KeysOf(rows) && k in s.outbox :: RowAt(s.outbox, k))
  }

  // --- the fan-out

  function Count(m: map<string, nat>, t: string): nat { if t in m then m[t] else 0 }

  predicate Dials(failures: map<string, nat>, t: string) { Count(failures, t) < SWEEP_TARGET_FAILURE_LIMIT }

  predicate Accepts(failures: map<string, nat>, accepting: set<string>, t: string) {
    Dials(failures, t) && t in accepting
  }

  predicate AllAccept(d: Drain, s: State, w: World) {
    forall i :: 0 <= i < |d.targets| ==> Accepts(s.failures, w.accepting, d.targets[i])
  }

  function Written(d: Drain, s: State, w: World, events: seq<Event>): State {
    var all := set e | e in events;
    s.(held := map t | t in s.held ::
         s.held[t] + (if t !in d.targets || !Dials(s.failures, t) then {}
                      else if t in w.accepting then all
                      else if t in w.kept then w.kept[t] * all else {}),
       failures := map t | t in s.failures ::
         if t in d.targets && Dials(s.failures, t) && t !in w.accepting then s.failures[t] + 1 else s.failures[t])
  }

  // --- one call, and the steps of a run

  function SteppedOver(d: Drain, s: State, shard: nat, rows: seq<Row>): State {
    if |rows| < d.batch || rows == [] then s.(cursors := s.cursors - {shard})
    else s.(cursors := s.cursors[shard := rows[|rows| - 1].key.pos])
  }

  function DrainShard(d: Drain, s: State, shard: nat, w: World): State {
    if !w.readable then s else
    var rows := ReadBatch(d, s, shard);
    if rows == [] then s.(cursors := s.cursors - {shard}) else
    var events, queued := BatchEvents(d.norm, rows), EnqueueAll(s, w.arrivals);
    if events.None? then SteppedOver(d, queued, shard, rows) else
    var written := Written(d, queued, w, events.value);
    if !AllAccept(d, s, w) then SteppedOver(d, written, shard, rows) else
    match w.deletion
    case Committed => var gone := Delete(written, rows); gone.(cursors := gone.cursors - {shard})
    case RolledBack => written
    case CommittedUnseen => Delete(written, rows)
  }

  function Zeros(targets: seq<string>): map<string, nat> { map t | t in targets :: 0 }

  /** A crash loses the cursors and the counters, and nothing else. */
  function Crashed(d: Drain, s: State): State { s.(cursors := map[], failures := Zeros(d.targets)) }

  datatype Op = Offer(row: Row) | BeginSweep | Call(shard: nat, w: World) | Crash | DieWriting(shard: nat, w: World)

  function Next(d: Drain, s: State, op: Op): State {
    match op
    case Offer(row) => Enqueue(s, row)
    case BeginSweep => s.(failures := Zeros(d.targets))
    case Call(shard, w) => DrainShard(d, s, shard, w)
    case Crash => Crashed(d, s)
    case DieWriting(shard, w) =>
      var events := BatchEvents(d.norm, ReadBatch(d, s, shard));
      Crashed(d, if events.None? then s else Written(d, EnqueueAll(s, w.arrivals), w, events.value))
  }

  function Start(d: Drain): State {
    State(map[], map[], Zeros(d.targets), map t | t in d.targets :: {}, {}, {})
  }

  function Run(d: Drain, ops: seq<Op>): State {
    if ops == [] then Start(d) else Next(d, Run(d, ops[..|ops| - 1]), ops[|ops| - 1])
  }

  // --- nothing removed before every copy has it, and nothing lost

  /** Some events hold all that a row comes to: each event derived from it, or its quarantine event. */
  ghost predicate HoldAll(norm: Row -> Normal, events: set<Event>, row: Row) {
    match norm(row)
    case Yields(more) => forall i: nat :: i <= more ==> Derived(row, i) in events
    case Invalid => Quarantined(row) in events
    case Raises => false
  }

  ghost predicate HeldEverywhere(d: Drain, s: State, row: Row) {
    !d.norm(row).Raises? && forall t :: t in d.targets ==> t in s.held && HoldAll(d.norm, s.held[t], row)
  }

  function Rows(outbox: map<Key, string>): set<Row> { set k | k in outbox :: Row(k, outbox[k]) }

  ghost predicate Durable(d: Drain, s: State) {
    && (forall t :: t in d.targets ==> t in s.held && t in s.failures)
    && (forall row :: row in s.removed ==> HeldEverywhere(d, s, row))
    && s.offered == Rows(s.outbox) + s.removed
  }

  lemma EnqueueDurable(d: Drain, s: State, row: Row)
    requires Durable(d, s)
    ensures Durable(d, Enqueue(s, row)) && Enqueue(s, row).held == s.held
    ensures forall k :: k in s.outbox ==> k in Enqueue(s, row).outbox && Enqueue(s, row).outbox[k] == s.outbox[k]
    ensures Enqueue(s, row).failures == s.failures && Enqueue(s, row).cursors == s.cursors
  {
    var q := Enqueue(s, row);
    if row.key !in s.outbox {
      forall r ensures r in Rows(q.outbox) <==> r in Rows(s.outbox) || r == row {
        if r == row { assert row.key in q.outbox; }
        if r in Rows(s.outbox) { assert r.key in q.outbox; }
      }
      assert q.offered == Rows(q.outbox) + q.removed;
    }
  }

  lemma {:induction false} EnqueueAllDurable(d: Drain, s: State, rows: seq<Row>)
    requires Durable(d, s)
    ensures var q := EnqueueAll(s, rows);
      && Durable(d, q) && q.held == s.held && q.failures == s.failures && q.cursors == s.cursors
      && (forall k :: k in s.outbox ==> k in q.outbox && q.outbox[k] == s.outbox[k])
    decreases rows
  {
    if rows != [] {
      EnqueueDurable(d, s, rows[0]);
      EnqueueAllDurable(d, Enqueue(s, rows[0]), rows[1..]);
    }
  }

  lemma WriteDurable(d: Drain, s: State, w: World, events: seq<Event>)
    requires Durable(d, s)
    ensures Durable(d, Written(d, s, w, events))
    ensures AllAccept(d, s, w) ==>
              forall t, e :: t in d.targets && e in events ==> e in Written(d, s, w, events).held[t]
  {
    var x := Written(d, s, w, events);
    forall row | row in s.removed ensures HeldEverywhere(d, x, row) {
      assert HeldEverywhere(d, s, row);
    }
  }

  lemma BatchInTable(d: Drain, s: State, shard: nat, row: Row)
    requires row in ReadBatch(d, s, shard)
    ensures row.key in s.outbox && row == Row(row.key, s.outbox[row.key]) && row.key.shard == shard
  {
    var table := Beyond(Table(s.outbox, shard), CursorOf(s, shard));
    var ps := FirstN(table, d.batch);
    FirstNIs(table, d.batch);
    var i :| 0 <= i < |ps| && row == RowAt(s.outbox, Key(shard, ps[i]));
    assert ps[i] in ToSet(ps);
  }

  lemma DeleteDurable(d: Drain, s: State, rows: seq<Row>)
    requires Durable(d, s)
    requires forall r :: r in rows ==> r.key in s.outbox && s.outbox[r.key] == r.payload && HeldEverywhere(d, s, r)
    ensures Durable(d, Delete(s, rows))
  {
    var x := Delete(s, rows);
    forall row | row in x.removed ensures HeldEverywhere(d, x, row) {
      if row !in s.removed {
        var k :| k in KeysOf(rows) && k in s.outbox && row == RowAt(s.outbox, k);
        var r :| r in rows && r.key == k;
        assert row == r;
      }
      assert HeldEverywhere(d, s, row);
    }
    forall row ensures row in Rows(x.outbox) + x.removed <==> row in Rows(s.outbox) + s.removed {
      if row in Rows(s.outbox) {
        assert row.key in s.outbox && row == RowAt(s.outbox, row.key);
        if row.key in KeysOf(rows) { assert row in x.removed; } else { assert row.key in x.outbox; }
      }
    }
  }

  lemma CursorsDurable(d: Drain, s: State, cursors: map<nat, int>, failures: map<string, nat>)
    requires Durable(d, s) && forall t :: t in d.targets ==> t in failures
    ensures Durable(d, s.(cursors := cursors)) && Durable(d, s.(cursors := cursors, failures := failures))
  {
    forall row | row in s.removed
      ensures HeldEverywhere(d, s.(cursors := cursors), row)
        && HeldEverywhere(d, s.(cursors := cursors, failures := failures), row)
    {
      assert HeldEverywhere(d, s, row);
    }
  }

  /** What a batch needs before it may be deleted, and has once every target took it. */
  lemma BatchHeld(d: Drain, s: State, shard: nat, w: World)
    requires Durable(d, s) && AllAccept(d, s, w) && BatchEvents(d.norm, ReadBatch(d, s, shard)).Some?
    ensures var rows := ReadBatch(d, s, shard);
      var written := Written(d, EnqueueAll(s, w.arrivals), w, BatchEvents(d.norm, rows).value);
      && Durable(d, written)
      && forall r :: r in rows ==>
           r.key in written.outbox && written.outbox[r.key] == r.payload && HeldEverywhere(d, written, r)
  {
    hide ReadBatch;
    hide EnqueueAll;
    var rows, queued := ReadBatch(d, s, shard), EnqueueAll(s, w.arrivals);
    EnqueueAllDurable(d, s, w.arrivals);
    assert AllAccept(d, queued, w);
    WriteDurable(d, queued, w, BatchEvents(d.norm, rows).value);
    forall r | r in rows ensures r.key in queued.outbox && queued.outbox[r.key] == r.payload {
      BatchInTable(d, s, shard, r);
    }
  }

  lemma DrainDurable(d: Drain, s: State, shard: nat, w: World)
    requires Durable(d, s)
    ensures Durable(d, DrainShard(d, s, shard, w))
  {
    hide ReadBatch;
    hide EnqueueAll;
    hide Written;
    hide Delete;
    hide AllAccept;
    var rows := ReadBatch(d, s, shard);
    var events, queued := BatchEvents(d.norm, rows), EnqueueAll(s, w.arrivals);
    EnqueueAllDurable(d, s, w.arrivals);
    if !w.readable || rows == [] || events.None? {
      var x := DrainShard(d, s, shard, w);
      CursorsDurable(d, s, x.cursors, s.failures);
      CursorsDurable(d, queued, x.cursors, s.failures);
    } else {
      var written := Written(d, queued, w, events.value);
      WriteDurable(d, queued, w, events.value);
      CursorsDurable(d, written, DrainShard(d, s, shard, w).cursors, written.failures);
      if AllAccept(d, s, w) {
        BatchHeld(d, s, shard, w);
        DeleteDurable(d, written, rows);
        var gone := Delete(written, rows);
        CursorsDurable(d, gone, gone.cursors - {shard}, gone.failures);
      }
    }
  }

  /**
   * In every run, whatever fails and wherever it crashes, a removed row is held by
   * every target, and every row offered is queued or removed.
   */
  lemma {:induction false} RunDurable(d: Drain, ops: seq<Op>)
    ensures Durable(d, Run(d, ops))
  {
    if ops != [] {
      var s, op := Run(d, ops[..|ops| - 1]), ops[|ops| - 1];
      RunDurable(d, ops[..|ops| - 1]);
      match op
      case Offer(row) => EnqueueDurable(d, s, row);
      case Call(shard, w) => DrainDurable(d, s, shard, w);
      case DieWriting(shard, w) =>
        EnqueueAllDurable(d, s, w.arrivals);
        var events := BatchEvents(d.norm, ReadBatch(d, s, shard));
        if events.Some? { WriteDurable(d, EnqueueAll(s, w.arrivals), w, events.value); }
      case _ =>
    }
  }

  // --- nothing foreign

  /** A target holds only what rows once offered come to. */
  ghost predicate Genuine(d: Drain, s: State) {
    forall t, e :: t in s.held && e in s.held[t] ==> e.row in s.offered && ComesFrom(d.norm, e)
  }

  ghost predicate ComesFrom(norm: Row -> Normal, e: Event) {
    match e
    case Derived(row, i) => norm(row).Yields? && i <= norm(row).more
    case Quarantined(row) => norm(row).Invalid?
  }

  lemma {:induction false} EnqueueAllOffers(s: State, rows: seq<Row>)
    ensures s.offered <= EnqueueAll(s, rows).offered && EnqueueAll(s, rows).held == s.held
    decreases rows
  {
    if rows != [] { EnqueueAllOffers(Enqueue(s, rows[0]), rows[1..]); }
  }

  lemma WriteGenuine(d: Drain, s: State, shard: nat, w: World)
    requires Durable(d, s) && Genuine(d, s) && BatchEvents(d.norm, ReadBatch(d, s, shard)).Some?
    ensures Genuine(d, Written(d, EnqueueAll(s, w.arrivals), w, BatchEvents(d.norm, ReadBatch(d, s, shard)).value))
  {
    hide EnqueueAll, ReadBatch, BatchEvents;
    var rows := ReadBatch(d, s, shard);
    var events := BatchEvents(d.norm, rows).value;
    EnqueueAllOffers(s, w.arrivals);
    forall e | e in events ensures e.row in s.offered && ComesFrom(d.norm, e) {
      assert e.row in rows;
      BatchInTable(d, s, shard, e.row);
      assert e.row in Rows(s.outbox);
    }
  }

  lemma CallHolds(d: Drain, s: State, shard: nat, w: World)
    ensures var x, events := DrainShard(d, s, shard, w), BatchEvents(d.norm, ReadBatch(d, s, shard));
      || (x.held == s.held && s.offered <= x.offered)
      || (events.Some? && var written := Written(d, EnqueueAll(s, w.arrivals), w, events.value);
            x.held == written.held && written.offered <= x.offered)
  {
    hide EnqueueAll, ReadBatch, BatchEvents, Written, AllAccept;
    EnqueueAllOffers(s, w.arrivals);
  }

  lemma GenuineStays(d: Drain, s: State, x: State)
    requires Genuine(d, s) && x.held == s.held && s.offered <= x.offered
    ensures Genuine(d, x)
  {
  }

  /** In every run a target holds nothing but events of offered rows. */
  lemma {:induction false} RunGenuine(d: Drain, ops: seq<Op>)
    ensures Genuine(d, Run(d, ops))
  {
    hide Genuine, DrainShard, Written, ReadBatch, EnqueueAll, BatchEvents, Durable;
    if ops == [] {
      StartGenuine(d);
    } else {
      var s, op := Run(d, ops[..|ops| - 1]), ops[|ops| - 1];
      RunDurable(d, ops[..|ops| - 1]);
      RunGenuine(d, ops[..|ops| - 1]);
      if op.Call? || op.DieWriting? {
        CallHolds(d, s, op.shard, op.w);
        var events := BatchEvents(d.norm, ReadBatch(d, s, op.shard));
        if events.Some? {
          WriteGenuine(d, s, op.shard, op.w);
          var written := Written(d, EnqueueAll(s, op.w.arrivals), op.w, events.value);
          if Next(d, s, op).held == written.held && written.offered <= Next(d, s, op).offered {
            GenuineStays(d, written, Next(d, s, op));
          }
        }
      }
      if Next(d, s, op).held == s.held && s.offered <= Next(d, s, op).offered { GenuineStays(d, s, Next(d, s, op)); }
    }
  }

  lemma StartGenuine(d: Drain)
    ensures Genuine(d, Start(d))
  {
  }
}
