/**
 * The operational Spanner drain of clickhouse/ingest_operational_outbox.py: one
 * read of all shards in commit order from a single watermark, and a heartbeat
 * that publishes the oldest live row. Rows that share a timestamp come in any
 * order, and the limit may cut through them.
 */
module WatermarkDrain {
  import opened Common
  import opened OutboxOrder

  function From(live: set<Row>, after: Option<int>): set<Row> {
    set r | r in live && (after.Some? ==> after.value <= r.ts)
  }

  /** An answer to `ORDER BY commit_ts LIMIT n`: as many rows as there are up to n, none later than one left out. */
  ghost predicate IsOldest(s: set<Row>, n: nat, r: seq<Row>) {
    && ToSet(r) <= s && (forall i, j :: 0 <= i < j < |r| ==> r[i] != r[j] && r[i].ts <= r[j].ts)
    && |r| == (if n < |s| then n else |s|)
    && (forall x, y :: x in r && y in s && y !in r ==> x.ts <= y.ts)
  }

  ghost predicate NoneBelow(live: set<Row>, after: Option<int>) {
    after.Some? ==> forall r :: r in live ==> after.value <= r.ts
  }

  /** The watermark after a delete that committed: the newest timestamp deleted, if that is larger. */
  function Raised(after: Option<int>, rows: seq<Row>): Option<int>
    requires rows != []
  {
    var newest := Newest(rows);
    if after.None? || newest > after.value then Some(newest) else after
  }

  /** It is the largest of the old watermark and the timestamps deleted. */
  lemma RaisedIs(after: Option<int>, rows: seq<Row>)
    requires rows != []
    ensures Raised(after, rows).Some?
    ensures after.Some? ==> after.value <= Raised(after, rows).value
    ensures forall r :: r in rows ==> r.ts <= Raised(after, rows).value
    ensures Raised(after, rows) == after || exists r :: r in rows && r.ts == Raised(after, rows).value
  {
  }

  function Newest(rows: seq<Row>): (m: int)
    requires rows != []
    ensures (forall r :: r in rows ==> r.ts <= m) && exists r :: r in rows && r.ts == m
  {
    var last := |rows| - 1;
    assert rows == rows[..last] + [rows[last]];
    if last == 0 then rows[0].ts else
    var before := Newest(rows[..last]);
    if before > rows[last].ts then before else rows[last].ts
  }

  // --- runs

  datatype State = State(live: set<Row>, shown: set<Row>, after: Option<int>, batch: seq<Row>)

  datatype Op =
    | Commit(row: Row)
    | Fetch(limit: nat, rows: seq<Row>)
    | DeleteCommits
    | Fails(removed: bool)       // an error in fetch, insert or delete; the delete may have committed unseen
    | HeadRead                   // the heartbeat's snapshot; a failure of it changes nothing
    | Vanish(gone: set<Row>)
    | Crash

  ghost predicate Allowed(shards: nat, s: State, op: Op) {
    match op
    case Commit(row) => row.shard < shards && forall r :: r in s.shown ==> r.ts < row.ts
    case Fetch(limit, rows) => IsOldest(From(s.live, s.after), limit, rows)
    case _ => true
  }

  function Next(s: State, op: Op): State {
    match op
    case Commit(row) => s.(live := s.live + {row})
    case Fetch(_, rows) => s.(shown := s.shown + s.live, batch := rows)
    case DeleteCommits =>
      if s.batch == [] then s
      else s.(live := s.live - ToSet(s.batch), after := Raised(s.after, s.batch), batch := [])
    case Fails(removed) => s.(live := if removed then s.live - ToSet(s.batch) else s.live, after := None, batch := [])
    case HeadRead => s.(shown := s.shown + s.live)
    case Vanish(rows) => s.(live := s.live - rows)
    case Crash => s.(after := None, batch := [])
  }

  /** Whatever others delete, and whatever a head read shows, is a step by itself. */
  lemma OthersAct(shards: nat, s: State, gone: set<Row>)
    ensures exists op :: Allowed(shards, s, op) && Next(s, op) == s.(live := s.live - gone)
    ensures exists op :: Allowed(shards, s, op) && Next(s, op) == s.(shown := s.shown + s.live)
  {
    assert Allowed(shards, s, Vanish(gone)) && Allowed(shards, s, HeadRead);
  }

  ghost predicate Inv(shards: nat, s: State) {
    && (forall r :: r in s.live ==> r.shard < shards) && NoneBelow(s.live, s.after)
    && (s.after.Some? ==> exists r :: r in s.shown && s.after.value == r.ts)
    && ToSet(s.batch) <= s.shown
    && (forall x, y :: x in s.batch && y in s.live && y !in s.batch ==> x.ts <= y.ts)
  }

  lemma StepKeepsInv(shards: nat, s: State, op: Op)
    requires Inv(shards, s) && Allowed(shards, s, op)
    ensures Inv(shards, Next(s, op))
  {
    var x := Next(s, op);
    match op
    case Commit(row) =>
      if s.after.Some? { var r :| r in s.shown && s.after.value == r.ts; }
      forall b | b in s.batch ensures b.ts < row.ts { assert b in ToSet(s.batch); }
    case Fetch(limit, rows) => assert From(s.live, s.after) == s.live;
    case DeleteCommits =>
      if s.batch != [] {
        var r :| r in s.batch && r.ts == Newest(s.batch);
        assert r in ToSet(s.batch);
      }
    case _ =>
  }

  function Run(ops: seq<Op>): State {
    if ops == [] then State({}, {}, None, []) else Next(Run(ops[..|ops| - 1]), ops[|ops| - 1])
  }

  ghost predicate Possible(shards: nat, ops: seq<Op>) {
    ops == [] || (Possible(shards, ops[..|ops| - 1]) && Allowed(shards, Run(ops[..|ops| - 1]), ops[|ops| - 1]))
  }

  lemma {:induction false} RunKeepsInv(shards: nat, ops: seq<Op>)
    requires Possible(shards, ops)
    ensures Inv(shards, Run(ops))
  {
    if ops != [] {
      RunKeepsInv(shards, ops[..|ops| - 1]);
      StepKeepsInv(shards, Run(ops[..|ops| - 1]), ops[|ops| - 1]);
    }
  }

  /** The timestamp of the oldest row of a set. */
  ghost predicate IsHead(live: set<Row>, head: Option<int>) {
    match head
    case None => live == {}
    case Some(t) => (exists r :: r in live && r.ts == t) && forall r :: r in live ==> t <= r.ts
  }

  /**
   * In every run no live row lies below the watermark, so a read from it is a
   * read of everything: whatever answers one answers the other, and an empty
   * answer means an empty outbox.
   */
  lemma WatermarkIsSafe(shards: nat, ops: seq<Op>, limit: nat, rows: seq<Row>)
    requires Possible(shards, ops) && limit > 0
    ensures var s := Run(ops);
      && NoneBelow(s.live, s.after)
      && (IsOldest(From(s.live, s.after), limit, rows) <==> IsOldest(s.live, limit, rows))
      && (IsOldest(From(s.live, s.after), limit, rows) ==>
            (rows == [] <==> s.live == {}) && (rows != [] ==> IsHead(s.live, Some(rows[0].ts))))
  {
    RunKeepsInv(shards, ops);
    var s := Run(ops);
    assert From(s.live, s.after) == s.live;
    if IsOldest(s.live, limit, rows) && rows != [] {
      assert rows[0] in rows && rows[0] in ToSet(rows);
      forall y | y in s.live ensures rows[0].ts <= y.ts {
        if y in rows { var i :| 0 <= i < |rows| && rows[i] == y; }
      }
    }
  }

  // --- the source and the heartbeat, as objects

  class SpannerOperationalOutboxSource {
    const shards: nat
    var after: Option<int>

    constructor (shards: nat)
      ensures this.shards == shards && after == None
    {
      this.shards := shards;
      after := None;
    }

    method ResetScanFloors()
      modifies this
      ensures after == None
    {
      after := None;
    }

    /** After the delete committed: advance to the newest timestamp among its rows. */
    method Advance(rows: seq<Row>)
      modifies this
      ensures after == if rows == [] then old(after) else Raised(old(after), rows)
      ensures rows == [] ==> after == old(after)
      ensures rows != [] ==>
        && after.Some? && (old(after).Some? ==> old(after).value <= after.value)
        && (forall r :: r in rows ==> r.ts <= after.value)
        && (after == old(after) || exists r :: r in rows && r.ts == after.value)
    {
      if rows == [] { return; }
      RaisedIs(after, rows);
      var newest := Newest(rows);
      if after.None? || newest > after.value { after := Some(newest); }
    }

    /** The live head, seeking each shard from the watermark; exact whenever no live row lies below it. */
    method OldestCommitTs(live: set<Row>) returns (oldest: Option<int>)
      requires NoneBelow(live, after) && forall r :: r in live ==> r.shard < shards
      ensures IsHead(live, oldest)
    {
      oldest := None;
      for shard := 0 to shards
        invariant IsHead((set r | r in live && r.shard < shard), oldest)
      {
        var seen := set r | r in live && r.shard == shard && (after.Some? ==> after.value <= r.ts);
        ghost var before := set r | r in live && r.shard < shard;
        if seen != {} {
          var head := First(seen);
          assert head in live && head.shard == shard;
          var was := oldest;
          oldest := if oldest.Some? && oldest.value < head.ts then oldest else Some(head.ts);
          forall r | r in live && r.shard < shard + 1 ensures oldest.value <= r.ts {
            if r.shard == shard { assert r in seen; } else { assert r in before; }
          }
          if was.Some? && was.value < head.ts { assert exists r :: r in before && r.ts == was.value; }
        } else {
          assert forall r :: r in live && r.shard == shard ==> r in seen;
          assert (set r | r in live && r.shard < shard + 1) == before;
        }
      }
      assert (set r | r in live && r.shard < shards) == live;
    }
  }

  /** What a heartbeat row says. */
  datatype Beat = Beat(oldest: Option<int>, lastDelivery: Option<int>, fetched: nat)

  class OutboxHeartbeatPublisher {
    const source: SpannerOperationalOutboxSource
    const minInterval: nat
    var lastAttempt: Option<int>
    var lastDelivery: Option<int>

    constructor (source: SpannerOperationalOutboxSource, minInterval: nat)
      ensures this.source == source && this.minInterval == minInterval && lastAttempt == None && lastDelivery == None
    {
      this.source, this.minInterval := source, minInterval;
      lastAttempt, lastDelivery := None, None;
    }

    /**
     * Publish for a completed pass. `live` is what the snapshot behind the
     * heartbeat shows: the pass's own if it fetched nothing, the head read's
     * otherwise. The head published is that snapshot's true head.
     */
    method AfterPass(fetched: nat, live: set<Row>, now: int, writes: bool) returns (beat: Option<Beat>)
      requires NoneBelow(live, source.after) && forall r :: r in live ==> r.shard < source.shards
      requires fetched == 0 ==> live == {}
      modifies this
      ensures beat.Some? <==> writes && (old(lastAttempt).None? || now - old(lastAttempt).value >= minInterval)
      ensures beat.Some? ==>
        && IsHead(live, beat.value.oldest) && beat.value.fetched == fetched
        && beat.value.lastDelivery == lastDelivery
      ensures lastDelivery == if fetched > 0 then Some(now) else old(lastDelivery)
      ensures lastAttempt ==
        if old(lastAttempt).Some? && now - old(lastAttempt).value < minInterval then old(lastAttempt) else Some(now)
    {
      if fetched > 0 { lastDelivery := Some(now); }
      if lastAttempt.Some? && now - lastAttempt.value < minInterval { return None; }
      lastAttempt := Some(now);
      var oldest: Option<int> := None;
      if fetched > 0 { oldest := source.OldestCommitTs(live); }
      beat := if writes then Some(Beat(oldest, lastDelivery, fetched)) else None;
    }
  }
}
