/**
 * The Postgres drain as the process runs it: a table, the cursors it keeps in
 * memory, and a fan-out writer, updated in place by one call per shard.
 */
module DrainProcess {
  import opened Common
  import opened Positions
  import opened PostgresDrain
  import opened DrainSweep
  import opened DrainOutcomes

  method Normalise(norm: Row -> Normal, rows: seq<Row>) returns (events: Option<seq<Event>>)
    ensures events.None? <==> exists row :: row in rows && norm(row).Raises?
    ensures events.Some? ==> forall row, i: nat ::
      Derived(row, i) in events.value <==> row in rows && norm(row).Yields? && i <= norm(row).more
    ensures events.Some? ==> forall row :: Quarantined(row) in events.value <==> row in rows && norm(row).Invalid?
    ensures events == BatchEvents(norm, rows)
  {
    var found: seq<Event> := [];
    for i := 0 to |rows|
      invariant BatchEvents(norm, rows[..i]) == Some(found)
    {
      assert rows[..i + 1][..i] == rows[..i];
      match norm(rows[i])
      case Raises =>
        RaisesStop(norm, rows, i + 1);
        return None;
      case _ => found := found + EventsOf(norm, rows[i]);
    }
    assert rows[..|rows|] == rows;
    events := Some(found);
  }

  lemma {:induction false} RaisesStop(norm: Row -> Normal, rows: seq<Row>, i: nat)
    requires i <= |rows| && BatchEvents(norm, rows[..i]).None?
    ensures BatchEvents(norm, rows).None?
    decreases rows
  {
    if i == |rows| {
      assert rows[..i] == rows;
    } else {
      assert rows[..|rows| - 1][..i] == rows[..i];
      RaisesStop(norm, rows[..|rows| - 1], i);
    }
  }

  /** The state after the first shards of a sweep, and how each ended. */
  function Swept(d: Drain, s: State, worlds: seq<World>): State {
    if worlds == [] then s else
    var last := |worlds| - 1;
    DrainShard(d, Swept(d, s, worlds[..last]), last, worlds[last])
  }

  function SweptOutcomes(d: Drain, s: State, worlds: seq<World>): seq<Outcome> {
    if worlds == [] then [] else
    var last := |worlds| - 1;
    SweptOutcomes(d, s, worlds[..last]) + [OutcomeOf(d, Swept(d, s, worlds[..last]), last, worlds[last])]
  }

  /** The shards whose call failed, in a sweep that starts from `s`. */
  ghost function FailingShards(d: Drain, s: State, worlds: seq<World>): set<nat> {
    set i | 0 <= i < |worlds| && Fails(d, Swept(d, s, worlds[..i]), i, worlds[i])
  }

  /** The shards whose batch was offered and refused by every target. */
  ghost function RefusedShards(d: Drain, s: State, worlds: seq<World>): set<nat> {
    set i | 0 <= i < |worlds| && RefusedOutright(d, Swept(d, s, worlds[..i]), i, worlds[i])
  }

  ghost function TotalWrites(d: Drain, s: State, worlds: seq<World>): nat {
    if worlds == [] then 0 else
    var last := |worlds| - 1;
    TotalWrites(d, s, worlds[..last]) + Writes(d, Swept(d, s, worlds[..last]), last, worlds[last])
  }

  /** The counters of a sweep, by what happened in its calls. */
  lemma {:induction false} TallyIs(d: Drain, s: State, worlds: seq<World>)
    requires Distinct(d.targets)
    ensures Tallied(|d.targets|, SweptOutcomes(d, s, worlds)) ==
      Tally(|FailingShards(d, s, worlds)|, |RefusedShards(d, s, worlds)|, TotalWrites(d, s, worlds))
  {
    hide Fails, RefusedOutright, Writes, OutcomeOf, Swept, Counted;
    if worlds != [] {
      var last := |worlds| - 1;
      var some := worlds[..last];
      TallyIs(d, s, some);
      SweepStep(d, s, worlds, last);
      assert worlds[..last + 1] == worlds;
      var before := Swept(d, s, some);
      CountedMeans(d, before, last, worlds[last], Tallied(|d.targets|, SweptOutcomes(d, s, some)));
      LastShard(d, s, worlds);
      hide FailingShards, RefusedShards;
    }
  }

  lemma LastShard(d: Drain, s: State, worlds: seq<World>)
    requires worlds != []
    ensures var last := |worlds| - 1;
      var some := worlds[..last];
      var before, w := Swept(d, s, some), worlds[last];
      && FailingShards(d, s, worlds) == FailingShards(d, s, some) + (if Fails(d, before, last, w) then {last} else {})
      && RefusedShards(d, s, worlds)
         == RefusedShards(d, s, some) + (if RefusedOutright(d, before, last, w) then {last} else {})
      && last !in FailingShards(d, s, some) + RefusedShards(d, s, some)
  {
    hide Fails, RefusedOutright, Swept;
    var last := |worlds| - 1;
    var some := worlds[..last];
    forall i | 0 <= i < last ensures some[..i] == worlds[..i] && some[i] == worlds[i] {
    }
  }

  class OutboxDrain {
    const d: Drain
    const writer: FanOutWriter
    var outbox: map<Key, string>
    var cursors: map<nat, int>
    var held: map<string, set<Event>>
    ghost var offered: set<Row>
    ghost var removed: set<Row>

    ghost predicate Valid()
      reads this, writer
    {
      && writer.targets == d.targets && Distinct(d.targets) && writer.Valid()
      && (forall t :: t in d.targets ==> t in writer.sweepFailures)
    }

    ghost function Snapshot(): State
      reads this, writer
    {
      State(outbox, cursors, writer.sweepFailures, held, offered, removed)
    }

    constructor (d: Drain)
      requires Distinct(d.targets)
      ensures Valid() && this.d == d && Snapshot() == Start(d) && fresh(writer)
    {
      this.d := d;
      writer := new FanOutWriter(d.targets);
      outbox, cursors, held := map[], map[], map t | t in d.targets :: {};
      offered, removed := {}, {};
    }

    method Enqueue(row: Row)
      requires Valid()
      modifies this
      ensures Valid() && Snapshot() == PostgresDrain.Enqueue(old(Snapshot()), row)
    {
      if row.key !in outbox {
        outbox := outbox[row.key := row.payload];
        offered := offered + {row};
      }
    }

    method EnqueueAll(rows: seq<Row>)
      requires Valid()
      modifies this
      ensures Valid() && Snapshot() == PostgresDrain.EnqueueAll(old(Snapshot()), rows)
    {
      for i := 0 to |rows|
        invariant Valid()
        invariant PostgresDrain.EnqueueAll(Snapshot(), rows[i..]) == PostgresDrain.EnqueueAll(old(Snapshot()), rows)
      {
        assert rows[i..][0] == rows[i] && rows[i..][1..] == rows[i + 1..];
        Enqueue(rows[i]);
      }
      assert rows[|rows|..] == [];
    }

    method StepOver(shard: nat, rows: seq<Row>)
      requires Valid() && rows != []
      modifies this`cursors
      ensures Valid() && Snapshot() == SteppedOver(d, old(Snapshot()), shard, rows)
    {
      if |rows| < d.batch {
        cursors := cursors - {shard};
      } else {
        cursors := cursors[shard := rows[|rows| - 1].key.pos];
      }
    }

    /** The write to every target: what each keeps, and which of them failed. */
    method Write(w: World, events: seq<Event>) returns (failed: seq<string>, succeeded: seq<string>)
      requires Valid()
      modifies this`held, writer
      ensures Valid() && Snapshot() == Written(d, old(Snapshot()), w, events)
      ensures failed == [] <==> AllAccept(d, old(Snapshot()), w)
      ensures |succeeded| == |Accepting(d.targets, old(Snapshot()).failures, w.accepting)|
    {
      var before, all := writer.sweepFailures, set e | e in events;
      failed, succeeded := writer.Insert(w.accepting);
      FanOutMeans(d.targets, before, w.accepting);
      held := map t | t in held ::
        held[t] + (if t !in d.targets || !Dials(before, t) then {}
                   else if t in w.accepting then all
                   else if t in w.kept then w.kept[t] * all else {});
      SameFailures(d, old(Snapshot()), w, events, writer.sweepFailures);
    }

    method Remove(rows: seq<Row>)
      requires Valid()
      modifies this
      ensures Valid() && Snapshot() == Delete(old(Snapshot()), rows)
    {
      removed := removed + set k | k in KeysOf(rows) && k in outbox :: RowAt(outbox, k);
      outbox := outbox - KeysOf(rows);
    }

    /** One bounded read, write and delete for a single shard. */
    method DrainShardOnce(shard: nat, w: World) returns (o: Outcome)
      requires Valid()
      modifies this, writer
      ensures Valid() && Snapshot() == DrainShard(d, old(Snapshot()), shard, w)
      ensures Ended(d, old(Snapshot()), shard, w, o)
      ensures o == OutcomeOf(d, old(Snapshot()), shard, w)
    {
      hide Written;
      hide Delete;
      hide PostgresDrain.EnqueueAll;
      hide Accepting;
      hide BatchEvents;
      forall out { OutcomeMeans(d, Snapshot(), shard, w, out); }
      if !w.readable { return ReadFailed; }
      var after := if shard in cursors then Past(cursors[shard]) else Head;
      var table := outbox;
      var ps := Fetched(Table(table, shard), after, d.batch);
      var rows := seq(|ps|, i requires 0 <= i < |ps| => RowAt(table, Key(shard, ps[i])));
      assert rows == ReadBatch(d, Snapshot(), shard);
      if rows == [] {
        cursors := cursors - {shard};
        return Nothing;
      }
      ghost var s := Snapshot();
      var events := Normalise(d.norm, rows);
      EnqueueKeeps(s, w.arrivals);
      EnqueueAll(w.arrivals);
      if events.None? {
        StepOver(shard, rows);
        return NormaliseFailed;
      }
      var failed, succeeded := Write(w, events.value);
      if failed != [] {
        StepOver(shard, rows);
        return WriteFailed(|succeeded|);
      }
      if w.deletion.RolledBack? { return DeleteFailed; }
      Remove(rows);
      if w.deletion.CommittedUnseen? { return DeleteFailed; }
      cursors := cursors - {shard};
      o := Delivered;
    }

    /** Sweep every shard once; a shard that fails does not stop the sweep. */
    method DrainOnce(worlds: seq<World>) returns (tally: Tally)
      requires Valid()
      modifies this, writer
      ensures Valid() && Snapshot() == Swept(d, old(Snapshot()).(failures := Zeros(d.targets)), worlds)
      ensures var s := old(Snapshot()).(failures := Zeros(d.targets));
        tally == Tally(|FailingShards(d, s, worlds)|, |RefusedShards(d, s, worlds)|, TotalWrites(d, s, worlds))
      ensures tally == Tallied(|d.targets|, SweptOutcomes(d, old(Snapshot()).(failures := Zeros(d.targets)), worlds))
    {
      hide DrainShard;
      hide OutcomeOf;
      hide Swept;
      hide SweptOutcomes;
      hide Tallied;
      tally := Tally(0, 0, 0);
      ghost var s := Snapshot().(failures := Zeros(d.targets));
      writer.BeginSweep();
      NoSweep(d, s);
      for shard := 0 to |worlds|
        invariant Valid() && Snapshot() == Swept(d, s, worlds[..shard])
        invariant tally == Tallied(|d.targets|, SweptOutcomes(d, s, worlds[..shard]))
      {
        SweepStep(d, s, worlds, shard);
        var o := DrainShardOnce(shard, worlds[shard]);
        tally := Counted(tally, |d.targets|, o);
      }
      assert worlds[..|worlds|] == worlds;
      TallyIs(d, s, worlds);
    }

    /**
     * The sweeping loop of the process. It leaves exactly at the first sweep that
     * ends `bound` in a row in each of which some shard was refused by every
     * target and no target took any batch.
     */
    method Sweeps(sweeps: seq<seq<World>>, bound: nat) returns (exit: Option<nat>)
      requires Valid() && bound > 0 && |d.targets| > 0
      modifies this, writer
      ensures Valid()
      ensures var s, done := old(Snapshot()), if exit.Some? then exit.value + 1 else |sweeps|;
        && done <= |sweeps| && Snapshot() == AfterSweeps(d, s, sweeps[..done])
        && (exit.Some? ==> NobodyListened(d, s, sweeps, done, bound))
        && (forall k :: 0 <= k <= |sweeps| && (k < done || exit.None?) ==> !NobodyListened(d, s, sweeps, k, bound))
    {
      hide Swept, SweptOutcomes, Tallied, NoTargetListens, AfterSweeps, RefusedThroughout, RefusedByAll, DeafSweep;
      ghost var s := Snapshot();
      NoSweeps(d, s, sweeps);
      var consecutive := 0;
      for i := 0 to |sweeps|
        invariant Valid() && Snapshot() == AfterSweeps(d, s, sweeps[..i])
        invariant consecutive <= i && consecutive < bound
        invariant forall j :: i - consecutive <= j < i ==> Deaf(d, s, sweeps, j)
        invariant i - consecutive > 0 ==> !Deaf(d, s, sweeps, i - consecutive - 1)
        invariant forall k :: 0 <= k <= i ==> !NobodyListened(d, s, sweeps, k, bound)
      {
        var tally := DrainOnce(sweeps[i]);
        OneMoreSweep(d, s, sweeps, i);
        ghost var before := Fresh(d, AfterSweeps(d, s, sweeps[..i]));
        DeadSweep(|d.targets|, SweptOutcomes(d, before, sweeps[i]));
        DeafIs(d, before, sweeps[i]);
        consecutive := if NoTargetListens(tally) then consecutive + 1 else 0;
        if consecutive >= bound { return Some(i); }
        assert !NobodyListened(d, s, sweeps, i + 1, bound) by {
          if i + 1 >= bound {
            assert !Deaf(d, s, sweeps, i + 1 - consecutive - 1) && i + 1 - bound <= i - consecutive;
          }
        }
      }
      assert sweeps[..|sweeps|] == sweeps;
      exit := None;
    }
  }

  function Fresh(d: Drain, s: State): State { s.(failures := Zeros(d.targets)) }

  function AfterSweeps(d: Drain, s: State, sweeps: seq<seq<World>>): State {
    if sweeps == [] then s else
    Swept(d, Fresh(d, AfterSweeps(d, s, sweeps[..|sweeps| - 1])), sweeps[|sweeps| - 1])
  }

  /**
   * In a sweep that starts from `s` some shard's batch was offered and refused
   * by every target, and every other shard was read and was empty, or was
   * refused by every target too.
   */
  ghost predicate DeafSweep(d: Drain, s: State, worlds: seq<World>) {
    && (exists i :: 0 <= i < |worlds| && RefusedOutright(d, Swept(d, s, worlds[..i]), i, worlds[i]))
    && forall i :: 0 <= i < |worlds| ==>
         var before := Swept(d, s, worlds[..i]);
         (worlds[i].readable && ReadBatch(d, before, i) == []) || RefusedOutright(d, before, i, worlds[i])
  }

  /** Sweep `j` of the process was such a sweep. */
  ghost predicate Deaf(d: Drain, s: State, sweeps: seq<seq<World>>, j: nat)
    requires j < |sweeps|
  {
    DeafSweep(d, Fresh(d, AfterSweeps(d, s, sweeps[..j])), sweeps[j])
  }

  ghost predicate NobodyListened(d: Drain, s: State, sweeps: seq<seq<World>>, k: nat, bound: nat)
    requires k <= |sweeps|
  {
    bound <= k && forall j :: k - bound <= j < k ==> Deaf(d, s, sweeps, j)
  }

  lemma {:induction false} SweptOutcome(d: Drain, s: State, worlds: seq<World>, i: nat)
    requires i < |worlds|
    ensures |SweptOutcomes(d, s, worlds)| == |worlds|
    ensures SweptOutcomes(d, s, worlds)[i] == OutcomeOf(d, Swept(d, s, worlds[..i]), i, worlds[i])
    decreases |worlds|
  {
    hide OutcomeOf, Swept;
    var last := |worlds| - 1;
    if i < last {
      SweptOutcome(d, s, worlds[..last], i);
      assert worlds[..last][..i] == worlds[..i];
    } else if last > 0 {
      SweptOutcome(d, s, worlds[..last], 0);
    }
  }

  lemma DeafIs(d: Drain, s: State, worlds: seq<World>)
    requires Distinct(d.targets)
    ensures DeafSweep(d, s, worlds) <==> RefusedThroughout(SweptOutcomes(d, s, worlds))
  {
    hide SweptOutcomes, OutcomeOf, Swept, RefusedOutright, ReadBatch;
    var outs := SweptOutcomes(d, s, worlds);
    if worlds == [] { NoOutcomes(d, s, worlds); } else { SweptOutcome(d, s, worlds, 0); }
    forall i | 0 <= i < |outs|
      ensures RefusedByAll(outs[i]) <==> RefusedOutright(d, Swept(d, s, worlds[..i]), i, worlds[i])
      ensures outs[i].Nothing? <==> worlds[i].readable && ReadBatch(d, Swept(d, s, worlds[..i]), i) == []
    {
      SweptOutcome(d, s, worlds, i);
      RefusalMeans(d, Swept(d, s, worlds[..i]), i, worlds[i]);
    }
    if RefusedThroughout(outs) {
      var i :| 0 <= i < |outs| && RefusedByAll(outs[i]);
      assert RefusedOutright(d, Swept(d, s, worlds[..i]), i, worlds[i]);
    }
    if DeafSweep(d, s, worlds) {
      var i :| 0 <= i < |worlds| && RefusedOutright(d, Swept(d, s, worlds[..i]), i, worlds[i]);
      assert RefusedByAll(outs[i]);
    }
  }

  lemma NoOutcomes(d: Drain, s: State, worlds: seq<World>)
    ensures worlds == [] ==> SweptOutcomes(d, s, worlds) == []
  {
  }

  lemma NoSweeps(d: Drain, s: State, sweeps: seq<seq<World>>)
    ensures AfterSweeps(d, s, sweeps[..0]) == s
  {
  }

  lemma OneMoreSweep(d: Drain, s: State, sweeps: seq<seq<World>>, i: nat)
    requires i < |sweeps|
    ensures AfterSweeps(d, s, sweeps[..i + 1]) == Swept(d, Fresh(d, AfterSweeps(d, s, sweeps[..i])), sweeps[i])
  {
    hide Swept;
    assert sweeps[..i + 1][..i] == sweeps[..i];
  }

  /** Counters that agree target by target are the counters of the write. */
  lemma SameFailures(d: Drain, s: State, w: World, events: seq<Event>, failures: map<string, nat>)
    requires failures.Keys == s.failures.Keys
    requires forall t :: Count(failures, t) ==
               Count(s.failures, t) + (if t in d.targets && Dials(s.failures, t) && t !in w.accepting then 1 else 0)
    ensures failures == Written(d, s, w, events).failures
  {
    var target := Written(d, s, w, events).failures;
    forall t | t in target ensures failures[t] == target[t] { assert Count(failures, t) == failures[t]; }
  }

  lemma NoSweep(d: Drain, s: State)
    ensures Swept(d, s, []) == s && Tallied(|d.targets|, SweptOutcomes(d, s, [])) == Tally(0, 0, 0)
  {
  }

  lemma SweepStep(d: Drain, s: State, worlds: seq<World>, k: nat)
    requires k < |worlds|
    ensures var before := Swept(d, s, worlds[..k]);
      && Swept(d, s, worlds[..k + 1]) == DrainShard(d, before, k, worlds[k])
      && Tallied(|d.targets|, SweptOutcomes(d, s, worlds[..k + 1]))
         == Counted(Tallied(|d.targets|, SweptOutcomes(d, s, worlds[..k])), |d.targets|,
                    OutcomeOf(d, before, k, worlds[k]))
  {
    hide DrainShard;
    hide OutcomeOf;
    var outs := SweptOutcomes(d, s, worlds[..k]);
    assert worlds[..k + 1][..k] == worlds[..k];
    assert SweptOutcomes(d, s, worlds[..k + 1])[..|outs|] == outs;
  }
}
