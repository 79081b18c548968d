/**
 * What the end of a call says about the world: which row raised, who was asked
 * and who refused.
 */
module DrainOutcomes {
  import opened Common
  import opened Positions
  import opened PostgresDrain
  import opened DrainSweep

  /** The read worked, and its batch, not empty, was normalised and offered to the targets. */
  ghost predicate Offered(d: Drain, s: State, shard: nat, w: World) {
    && w.readable && ReadBatch(d, s, shard) != []
    && forall row :: row in ReadBatch(d, s, shard) ==> !d.norm(row).Raises?
  }

  /** The targets that are still dialled in the sweep and accept. */
  function Listening(d: Drain, s: State, w: World): set<string> {
    set t | t in d.targets && Count(s.failures, t) < SWEEP_TARGET_FAILURE_LIMIT && t in w.accepting
  }

  /** A batch was offered, and every target, of which there is one, was skipped or refused it. */
  ghost predicate RefusedOutright(d: Drain, s: State, shard: nat, w: World) {
    && Offered(d, s, shard, w) && d.targets != []
    && forall t :: t in d.targets ==> Count(s.failures, t) >= SWEEP_TARGET_FAILURE_LIMIT || t !in w.accepting
  }

  /** A call failed: the read, a row, a target or the delete. */
  ghost predicate Fails(d: Drain, s: State, shard: nat, w: World) {
    || !w.readable
    || (ReadBatch(d, s, shard) != [] &&
          (!Offered(d, s, shard, w) || !(forall t :: t in d.targets ==> t in Listening(d, s, w))
            || !w.deletion.Committed?))
  }

  /** The writes a call reports: those of the targets that took the batch, unless all did and only the delete failed. */
  ghost function Writes(d: Drain, s: State, shard: nat, w: World): nat {
    if Offered(d, s, shard, w) && (w.deletion.Committed? || exists t :: t in d.targets && t !in Listening(d, s, w))
    then |Listening(d, s, w)| else 0
  }

  /** How a call ended, by what happened in it. */
  ghost predicate Ended(d: Drain, s: State, shard: nat, w: World, o: Outcome) {
    var rows, taken := ReadBatch(d, s, shard), forall t :: t in d.targets ==> t in Listening(d, s, w);
    match o
    case ReadFailed => !w.readable
    case Nothing => w.readable && rows == []
    case NormaliseFailed => w.readable && exists row :: row in rows && d.norm(row).Raises?
    case WriteFailed(n) => Offered(d, s, shard, w) && !taken && n == |Listening(d, s, w)|
    case DeleteFailed => Offered(d, s, shard, w) && taken && !w.deletion.Committed?
    case Delivered => Offered(d, s, shard, w) && taken && w.deletion.Committed?
  }

  /** The targets that are still dialled and accept. */
  function Hearing(targets: seq<string>, failures: map<string, nat>, accepting: set<string>): set<string> {
    set t | t in targets && Count(failures, t) < SWEEP_TARGET_FAILURE_LIMIT && t in accepting
  }

  lemma OneMoreHearing(some: seq<string>, t: string, failures: map<string, nat>, accepting: set<string>)
    requires t !in some
    ensures |Hearing(some + [t], failures, accepting)| ==
      |Hearing(some, failures, accepting)| + if Accepts(failures, accepting, t) then 1 else 0
  {
    assert Hearing(some + [t], failures, accepting) ==
      Hearing(some, failures, accepting) + if Accepts(failures, accepting, t) then {t} else {};
  }

  lemma {:induction false} AcceptingAre(targets: seq<string>, failures: map<string, nat>, accepting: set<string>)
    requires Distinct(targets)
    ensures |Accepting(targets, failures, accepting)| == |Hearing(targets, failures, accepting)|
  {
    if targets == [] {
      assert Hearing(targets, failures, accepting) == {};
    } else {
      hide Hearing, Accepts;
      var last := |targets| - 1;
      AcceptingAre(targets[..last], failures, accepting);
      assert targets == targets[..last] + [targets[last]];
      OneMoreHearing(targets[..last], targets[last], failures, accepting);
    }
  }

  /** A call ends in exactly the way that what happened in it says. */
  lemma OutcomeMeans(d: Drain, s: State, shard: nat, w: World, o: Outcome)
    requires Distinct(d.targets)
    ensures o == OutcomeOf(d, s, shard, w) <==> Ended(d, s, shard, w, o)
  {
    hide ReadBatch, Accepting, BatchEvents;
    AcceptingAre(d.targets, s.failures, w.accepting);
    assert Hearing(d.targets, s.failures, w.accepting) == Listening(d, s, w);
    AllListen(d, s, w);
  }

  /** In particular all targets are said to have refused exactly if there was a batch and they did. */
  lemma RefusalMeans(d: Drain, s: State, shard: nat, w: World)
    requires Distinct(d.targets)
    ensures OutcomeOf(d, s, shard, w) == WriteFailed(0) <==> RefusedOutright(d, s, shard, w)
    ensures OutcomeOf(d, s, shard, w) == Nothing <==> w.readable && ReadBatch(d, s, shard) == []
  {
    hide ReadBatch, OutcomeOf;
    OutcomeMeans(d, s, shard, w, WriteFailed(0));
    OutcomeMeans(d, s, shard, w, Nothing);
    var heard := Listening(d, s, w);
    if |heard| == 0 {
      assert heard == {};
      forall t | t in d.targets ensures Count(s.failures, t) >= SWEEP_TARGET_FAILURE_LIMIT || t !in w.accepting {
        assert t !in heard;
      }
    }
    if RefusedOutright(d, s, shard, w) {
      assert heard == {};
      assert d.targets[0] !in heard;
    }
  }

  /** What one call adds to the counters of its sweep. */
  lemma CountedMeans(d: Drain, s: State, shard: nat, w: World, t: Tally)
    requires Distinct(d.targets)
    ensures Counted(t, |d.targets|, OutcomeOf(d, s, shard, w)) == Tally(
      t.failedShards + (if Fails(d, s, shard, w) then 1 else 0),
      t.allTargetsFailed + (if RefusedOutright(d, s, shard, w) then 1 else 0),
      t.successfulWrites + Writes(d, s, shard, w))
  {
    hide ReadBatch, OutcomeOf;
    var o := OutcomeOf(d, s, shard, w);
    OutcomeMeans(d, s, shard, w, o);
    RefusalMeans(d, s, shard, w);
    if forall t :: t in d.targets ==> t in Listening(d, s, w) {
      assert Listening(d, s, w) == ToSet(d.targets);
      DistinctCount(d.targets);
    }
  }

  // --- what a call leaves

  /** The batch was offered, every target took it, and the delete was not rolled back. */
  ghost predicate Deletes(d: Drain, s: State, shard: nat, w: World) {
    && Offered(d, s, shard, w) && (forall t :: t in d.targets ==> t in Listening(d, s, w))
    && !w.deletion.RolledBack?
  }

  lemma {:induction false} EnqueueAllIs(s: State, rows: seq<Row>)
    ensures var q := EnqueueAll(s, rows);
      && q.cursors == s.cursors && q.failures == s.failures
      && (forall k :: k in q.outbox <==> k in s.outbox || exists r :: r in rows && r.key == k)
      && (forall k :: k in s.outbox ==> q.outbox[k] == s.outbox[k])
    decreases rows
  {
    if rows != [] {
      EnqueueAllIs(Enqueue(s, rows[0]), rows[1..]);
      assert rows == [rows[0]] + rows[1..];
    }
  }

  /**
   * A call takes out of the table exactly the rows of a batch it deletes,
   * whether the delete is seen to commit or not, and otherwise only what others
   * enqueue meanwhile is new.
   */
  lemma CallLeaves(d: Drain, s: State, shard: nat, w: World)
    ensures var x, rows := DrainShard(d, s, shard, w), ReadBatch(d, s, shard);
      && (forall k :: k in s.outbox ==>
            (k in x.outbox <==> !(Deletes(d, s, shard, w) && k in KeysOf(rows))))
      && (forall k :: k in s.outbox && k in x.outbox ==> x.outbox[k] == s.outbox[k])
      && (forall k :: k in x.outbox && k !in s.outbox ==> exists r :: r in w.arrivals && r.key == k)
  {
    hide ReadBatch, BatchEvents, Written, EnqueueAll;
    EnqueueAllIs(s, w.arrivals);
    AllListen(d, s, w);
    WrittenKeeps(d, EnqueueAll(s, w.arrivals), w);
  }

  /**
   * Where a call leaves the cursors: a batch not written is stepped over, a
   * deletion that fails leaves the shard's, everything else takes it to the head.
   */
  lemma CallPlaces(d: Drain, s: State, shard: nat, w: World)
    ensures var x, rows := DrainShard(d, s, shard, w), ReadBatch(d, s, shard);
      && (forall other: nat :: other != shard ==> CursorOf(x, other) == CursorOf(s, other))
      && (!w.readable ==> CursorOf(x, shard) == CursorOf(s, shard))
      && (w.readable && rows == [] ==> CursorOf(x, shard) == Head)
      && (w.readable && rows != [] && (!Offered(d, s, shard, w) || !AllAccept(d, s, w)) ==>
            CursorOf(x, shard) == if |rows| < d.batch then Head else Past(rows[|rows| - 1].key.pos))
      && (Offered(d, s, shard, w) && AllAccept(d, s, w) ==>
            CursorOf(x, shard) == if w.deletion.Committed? then Head else CursorOf(s, shard))
  {
    hide ReadBatch, BatchEvents, Written, EnqueueAll, AllAccept;
    EnqueueAllIs(s, w.arrivals);
    WrittenKeeps(d, EnqueueAll(s, w.arrivals), w);
  }

  lemma AllListen(d: Drain, s: State, w: World)
    ensures AllAccept(d, s, w) <==> forall t :: t in d.targets ==> t in Listening(d, s, w)
  {
    forall i | 0 <= i < |d.targets|
      ensures Accepts(s.failures, w.accepting, d.targets[i]) <==> d.targets[i] in Listening(d, s, w)
    {
    }
  }

  lemma WrittenKeeps(d: Drain, s: State, w: World)
    ensures forall events ::
      Written(d, s, w, events).outbox == s.outbox && Written(d, s, w, events).cursors == s.cursors
  {
  }
}
