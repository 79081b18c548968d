/**
 * The sharded Spanner drain of clickhouse/ingest_outbox.py: one ordered read
 * per shard from an in-memory floor, merged and cut to a limit; the floors rise
 * only after the batch is deleted, and fall with any error.
 *
 * The database is what is live and what strong snapshots have shown. A row that
 * commits later carries a larger timestamp than every row shown before.
 */
module ShardedDrain {
  import opened Common
  import opened OutboxOrder

  /** Twice a shard's part of the limit, rounded up. */
  function PerShard(limit: nat, shards: nat): (n: nat)
    requires shards > 0
    ensures n >= 1 && (limit == 0 ==> n == 1)
    ensures limit >= 1 ==> n % 2 == 0 && (n / 2 - 1) * shards < limit <= (n / 2) * shards
  {
    var n := CeilDiv(limit, shards) * 2;
    CeilDivIs(limit, shards);
    if n < 1 then 1 else n
  }

  lemma CeilDivIs(n: nat, d: nat)
    requires d > 0
    ensures n <= CeilDiv(n, d) * d && (n >= 1 ==> (CeilDiv(n, d) - 1) * d < n)
  {
    assert n + d - 1 == CeilDiv(n, d) * d + (n + d - 1) % d;
  }

  /** What one shard's read may return: its live rows from its floor on. */
  function InShard(live: set<Row>, floors: map<nat, int>, shard: nat): set<Row> {
    set r | r in live && r.shard == shard && (shard in floors ==> floors[shard] <= r.ts)
  }

  function ShardRead(live: set<Row>, floors: map<nat, int>, shard: nat, n: nat): seq<Row> {
    FirstRows(InShard(live, floors, shard), n)
  }

  function Merged(live: set<Row>, floors: map<nat, int>, shards: nat, n: nat): set<Row> {
    set sh, r | 0 <= sh < shards && r in ShardRead(live, floors, sh, n) :: r
  }

  /** The batch: the shards' reads merged, sorted and cut to the limit. */
  function Batch(live: set<Row>, floors: map<nat, int>, shards: nat, limit: nat): seq<Row>
    requires shards > 0
  {
    if limit < 1 then [] else FirstRows(Merged(live, floors, shards, PerShard(limit, shards)), limit)
  }

  ghost predicate InShards(live: set<Row>, shards: nat) { forall r :: r in live ==> r.shard < shards }

  ghost predicate NoneBelow(live: set<Row>, floors: map<nat, int>) {
    forall r :: r in live && r.shard in floors ==> floors[r.shard] <= r.ts
  }

  /** Within each shard, whatever comes before a row of the batch is in the batch. */
  ghost predicate PrefixPerShard(live: set<Row>, batch: set<Row>) {
    forall x, y :: x in batch && y in live && y.shard == x.shard && Less(y, x) ==> y in batch
  }

  lemma MergedHolds(live: set<Row>, floors: map<nat, int>, shards: nat, n: nat, r: Row)
    ensures r in Merged(live, floors, shards, n) <==> r.shard < shards && r in ShardRead(live, floors, r.shard, n)
    ensures r in Merged(live, floors, shards, n) ==> r in live
  {
    hide FirstRows;
    if r in Merged(live, floors, shards, n) {
      var sh :| 0 <= sh < shards && r in ShardRead(live, floors, sh, n);
      FirstRowsIs(InShard(live, floors, sh), n);
      assert r in ToSet(ShardRead(live, floors, sh, n));
    }
  }

  /** Restricted to any shard, the merged and cut batch is a prefix of that shard's live rows. */
  lemma BatchIsPrefix(live: set<Row>, floors: map<nat, int>, shards: nat, limit: nat)
    requires shards > 0 && NoneBelow(live, floors)
    ensures ToSet(Batch(live, floors, shards, limit)) <= live
    ensures PrefixPerShard(live, ToSet(Batch(live, floors, shards, limit)))
  {
    hide FirstRows;
    if limit >= 1 {
      var n := PerShard(limit, shards);
      var all, batch := Merged(live, floors, shards, n), Batch(live, floors, shards, limit);
      FirstRowsIs(all, limit);
      forall x | x in ToSet(batch) ensures x in live { MergedHolds(live, floors, shards, n, x); }
      forall x, y | x in ToSet(batch) && y in live && y.shard == x.shard && Less(y, x) ensures y in ToSet(batch) {
        MergedHolds(live, floors, shards, n, x);
        MergedHolds(live, floors, shards, n, y);
        var shard := InShard(live, floors, x.shard);
        FirstRowsIs(shard, n);
        assert y in shard && x in ToSet(ShardRead(live, floors, x.shard, n));
        assert y in all;
      }
    }
  }

  /** The live rows of a row's shard that come before it. */
  function Ahead(live: set<Row>, row: Row): set<Row> { set x | x in live && x.shard == row.shard && Less(x, row) }

  /** The rows the reads of the shards return: those with fewer than a shard's number ahead of them. */
  function Within(live: set<Row>, shards: nat, limit: nat): set<Row>
    requires shards > 0
  {
    set x | x in live && |Ahead(live, x)| < PerShard(limit, shards)
  }

  lemma MergedIsWithin(live: set<Row>, floors: map<nat, int>, shards: nat, limit: nat)
    requires shards > 0 && NoneBelow(live, floors) && InShards(live, shards)
    ensures Merged(live, floors, shards, PerShard(limit, shards)) == Within(live, shards, limit)
  {
    hide FirstRows, PerShard;
    var n := PerShard(limit, shards);
    forall r ensures r in Merged(live, floors, shards, n) <==> r in Within(live, shards, limit) {
      MergedHolds(live, floors, shards, n, r);
      var shard := InShard(live, floors, r.shard);
      if r in live {
        FirstRowsRank(shard, n, r);
        assert (set x | x in shard && Less(x, r)) == Ahead(live, r);
      }
    }
  }

  /**
   * A row is in the batch exactly if it is live, its shard has fewer than twice
   * a shard's part of the limit ahead of it, and fewer than the limit of all
   * such rows come before it.
   */
  lemma BatchIs(live: set<Row>, floors: map<nat, int>, shards: nat, limit: nat, row: Row)
    requires shards > 0 && limit >= 1 && NoneBelow(live, floors) && InShards(live, shards)
    ensures Ascending(Batch(live, floors, shards, limit)) && |Batch(live, floors, shards, limit)| <= limit
    ensures row in Batch(live, floors, shards, limit) <==>
      row in Within(live, shards, limit) && |set x | x in Within(live, shards, limit) && Less(x, row)| < limit
  {
    hide FirstRows, PerShard, Within;
    MergedIsWithin(live, floors, shards, limit);
    FirstRowsIs(Within(live, shards, limit), limit);
    FirstRowsRank(Within(live, shards, limit), limit, row);
  }

  /** A batch shorter than the limit leaves out only rows of shards that gave twice their part of the limit. */
  lemma ShortBatch(live: set<Row>, floors: map<nat, int>, shards: nat, limit: nat, row: Row)
    requires shards > 0 && limit >= 1 && NoneBelow(live, floors) && InShards(live, shards)
    requires |Batch(live, floors, shards, limit)| < limit && row in live && row !in Batch(live, floors, shards, limit)
    ensures |Ahead(live, row)| * shards >= 2 * limit
  {
    hide FirstRows, PerShard;
    var batch := Batch(live, floors, shards, limit);
    MergedIsWithin(live, floors, shards, limit);
    FirstRowsIs(Within(live, shards, limit), limit);
    AscendingIsDistinct(batch);
    DistinctCount(batch);
    SubsetCount(ToSet(batch), Within(live, shards, limit));
    assert row !in ToSet(batch);
    TwiceThePart(PerShard(limit, shards), shards, limit, |Ahead(live, row)|);
  }

  lemma TwiceThePart(n: nat, shards: nat, limit: nat, ahead: nat)
    requires n % 2 == 0 && limit <= (n / 2) * shards && ahead >= n
    ensures ahead * shards >= 2 * limit
  {
    assert n == 2 * (n / 2);
    assert ahead * shards >= n * shards;
  }

  lemma AscendingIsDistinct(r: seq<Row>)
    requires Ascending(r)
    ensures Distinct(r)
  {
  }

  /**
   * The floored read is the unfloored one, and its first row is the oldest live row;
   * it is empty only if nothing is live.
   */
  lemma FlooredReadIsFull(live: set<Row>, floors: map<nat, int>, shards: nat, limit: nat)
    requires shards > 0 && NoneBelow(live, floors) && InShards(live, shards)
    ensures Batch(live, floors, shards, limit) == Batch(live, map[], shards, limit)
    ensures limit >= 1 && live != {} ==>
      Batch(live, floors, shards, limit) != [] && Batch(live, floors, shards, limit)[0] == First(live)
    ensures live == {} ==> Batch(live, floors, shards, limit) == []
  {
    hide FirstRows;
    var n := PerShard(limit, shards);
    forall sh: nat ensures ShardRead(live, floors, sh, n) == ShardRead(live, map[], sh, n) {
      assert InShard(live, floors, sh) == InShard(live, map[], sh);
    }
    assert Merged(live, floors, shards, n) == Merged(live, map[], shards, n);
    var all := Merged(live, floors, shards, n);
    FirstRowsIs(all, limit);
    forall r | r in all ensures r in live { MergedHolds(live, floors, shards, n, r); }
    if live != {} {
      var oldest := First(live);
      var shard := InShard(live, floors, oldest.shard);
      FirstRowsIs(shard, n);
      assert oldest in shard && First(shard) == oldest;
      assert oldest in ShardRead(live, floors, oldest.shard, n);
      MergedHolds(live, floors, shards, n, oldest);
      assert First(all) == oldest;
    }
  }

  // --- the floors

  /** The floors after a delete that committed: each shard's rises to the largest timestamp deleted. */
  function Raised(floors: map<nat, int>, rows: seq<Row>): map<nat, int>
    decreases rows
  {
    if rows == [] then floors else
    var last := rows[|rows| - 1];
    var before := Raised(floors, rows[..|rows| - 1]);
    before[last.shard := if last.shard in before && before[last.shard] > last.ts then before[last.shard] else last.ts]
  }

  /** A shard's floor becomes the largest of its old floor and the timestamps deleted in it. */
  lemma {:induction false} RaisedIs(floors: map<nat, int>, rows: seq<Row>, sh: nat)
    ensures sh in Raised(floors, rows) <==> sh in floors || exists r :: r in rows && r.shard == sh
    ensures sh in Raised(floors, rows) ==>
              (sh in floors && Raised(floors, rows)[sh] == floors[sh])
              || exists r :: r in rows && r.shard == sh && Raised(floors, rows)[sh] == r.ts
    ensures sh in floors ==> floors[sh] <= Raised(floors, rows)[sh]
    ensures forall r :: r in rows && r.shard == sh ==> sh in Raised(floors, rows) && r.ts <= Raised(floors, rows)[sh]
    decreases rows
  {
    if rows != [] {
      RaisedIs(floors, rows[..|rows| - 1], sh);
      assert rows == rows[..|rows| - 1] + [rows[|rows| - 1]];
    }
  }

  // --- runs

  datatype State = State(live: set<Row>, shown: set<Row>, floors: map<nat, int>, batch: Option<seq<Row>>)

  /** What may happen: rows commit, the drain reads, its delete ends some way, others read or delete, it crashes. */
  datatype Op =
    | Commit(row: Row)
    | Fetch(limit: nat)
    | DeleteCommits
    | Fails(removed: bool)       // an error at any point of a pass; the delete may have committed unseen
    | Canary                     // the unfiltered probe, or any other snapshot
    | Vanish(rows: set<Row>)     // another process deletes
    | Crash

  ghost predicate Allowed(shards: nat, s: State, op: Op) {
    match op
    case Commit(row) => row.shard < shards && forall r :: r in s.shown ==> r.ts < row.ts
    case DeleteCommits => s.batch.Some?
    case _ => true
  }

  function Next(shards: nat, s: State, op: Op): State
    requires shards > 0
  {
    match op
    case Commit(row) => s.(live := s.live + {row})
    case Fetch(limit) => s.(shown := s.shown + s.live, batch := Some(Batch(s.live, s.floors, shards, limit)))
    case DeleteCommits =>
      if s.batch.None? then s
      else s.(live := s.live - ToSet(s.batch.value), floors := Raised(s.floors, s.batch.value), batch := None)
    case Fails(removed) =>
      s.(live := if removed && s.batch.Some? then s.live - ToSet(s.batch.value) else s.live,
         floors := map[], batch := None)
    case Canary => s.(shown := s.shown + s.live)
    case Vanish(rows) => s.(live := s.live - rows)
    case Crash => s.(floors := map[], batch := None)
  }

  /** Whatever others delete, and whatever a snapshot shows, is a step by itself. */
  lemma OthersAct(shards: nat, s: State, gone: set<Row>)
    requires shards > 0
    ensures exists op :: Allowed(shards, s, op) && Next(shards, s, op) == s.(live := s.live - gone)
    ensures exists op :: Allowed(shards, s, op) && Next(shards, s, op) == s.(shown := s.shown + s.live)
  {
    assert Allowed(shards, s, Vanish(gone)) && Allowed(shards, s, Canary);
  }

  ghost predicate Inv(shards: nat, s: State) {
    && InShards(s.live, shards) && NoneBelow(s.live, s.floors)
    && (forall sh :: sh in s.floors ==> exists r :: r in s.shown && s.floors[sh] == r.ts)
    && (s.batch.Some? ==> PrefixPerShard(s.live, ToSet(s.batch.value)) && ToSet(s.batch.value) <= s.shown)
  }

  lemma StepKeepsInv(shards: nat, s: State, op: Op)
    requires shards > 0 && Inv(shards, s) && Allowed(shards, s, op)
    ensures Inv(shards, Next(shards, s, op))
  {
    hide Batch;
    hide Raised;
    var x := Next(shards, s, op);
    match op
    case Fetch(limit) => BatchIsPrefix(s.live, s.floors, shards, limit);
    case DeleteCommits =>
      var rows := s.batch.value;
      forall sh { RaisedIs(s.floors, rows, sh); }
      forall y | y in x.live && y.shard in x.floors ensures x.floors[y.shard] <= y.ts {
        forall r | r in rows && r.shard == y.shard ensures r.ts <= y.ts { assert r in ToSet(rows); }
      }
      forall sh | sh in x.floors ensures exists r :: r in s.shown && x.floors[sh] == r.ts {
        if r :| r in rows && r.shard == sh && x.floors[sh] == r.ts { assert r in ToSet(rows); }
      }
    case Commit(row) =>
      forall y | y in x.live && y.shard in x.floors ensures x.floors[y.shard] <= y.ts {
        if y == row { var r :| r in s.shown && s.floors[y.shard] == r.ts; }
      }
    case _ =>
  }

  function Run(shards: nat, ops: seq<Op>): State
    requires shards > 0
  {
    if ops == [] then State({}, {}, map[], None) else Next(shards, Run(shards, ops[..|ops| - 1]), ops[|ops| - 1])
  }

  ghost predicate Possible(shards: nat, ops: seq<Op>)
    requires shards > 0
  {
    ops == [] || (Possible(shards, ops[..|ops| - 1]) && Allowed(shards, Run(shards, ops[..|ops| - 1]), ops[|ops| - 1]))
  }

  lemma {:induction false} RunKeepsInv(shards: nat, ops: seq<Op>)
    requires shards > 0 && Possible(shards, ops)
    ensures Inv(shards, Run(shards, ops))
  {
    if ops != [] {
      RunKeepsInv(shards, ops[..|ops| - 1]);
      StepKeepsInv(shards, Run(shards, ops[..|ops| - 1]), ops[|ops| - 1]);
    }
  }

  /** What the probe looks for: a shard whose oldest row lies below its floor. */
  ghost predicate CanaryWarns(live: set<Row>, floors: map<nat, int>, shards: nat) {
    exists sh :: 0 <= sh < shards && sh in floors && InShard(live, map[], sh) != {}
      && First(InShard(live, map[], sh)).ts < floors[sh]
  }

  /**
   * In every run the floored read is the full read, in whole and in its first
   * row, and the canary never warns.
   */
  lemma FloorsAreSafe(shards: nat, ops: seq<Op>, limit: nat)
    requires shards > 0 && Possible(shards, ops)
    ensures var s := Run(shards, ops);
      && NoneBelow(s.live, s.floors)
      && Batch(s.live, s.floors, shards, limit) == Batch(s.live, map[], shards, limit)
      && (limit >= 1 && s.live != {} ==>
            Batch(s.live, s.floors, shards, limit) != [] && Batch(s.live, s.floors, shards, limit)[0] == First(s.live))
      && !CanaryWarns(s.live, s.floors, shards)
  {
    hide Batch;
    RunKeepsInv(shards, ops);
    var s := Run(shards, ops);
    FlooredReadIsFull(s.live, s.floors, shards, limit);
  }

  // --- the source, as an object

  class SpannerOutboxSource {
    const shards: nat
    var floors: map<nat, int>

    constructor (shards: nat)
      ensures this.shards == shards && floors == map[]
    {
      this.shards := shards;
      floors := map[];
    }

    method ResetScanFloors()
      modifies this
      ensures floors == map[]
    {
      floors := map[];
    }

    /** One snapshot, one ordered read per shard, then one sort and one cut. */
    method Fetch(live: set<Row>, limit: nat) returns (rows: seq<Row>)
      requires shards > 0
      ensures rows == Batch(live, floors, shards, limit)
    {
      hide FirstRows;
      if limit < 1 { return []; }
      var perShard := PerShard(limit, shards);
      var found: seq<Row> := [];
      for shard := 0 to shards
        invariant ToSet(found) == Merged(live, floors, shard, perShard)
      {
        var values := ShardRead(live, floors, shard, perShard);
        forall r ensures r in ToSet(found + values) <==> r in Merged(live, floors, shard + 1, perShard) {
          assert r in ToSet(found + values) <==> r in ToSet(found) || r in values;
        }
        found := found + values;
      }
      rows := FirstRows(ToSet(found), limit);
    }

    /** After the deletes committed: raise each deleted row's floor. */
    method AdvanceFloors(rows: seq<Row>)
      modifies this
      ensures floors == Raised(old(floors), rows)
    {
      for i := 0 to |rows|
        invariant floors == Raised(old(floors), rows[..i])
      {
        assert rows[..i + 1][..i] == rows[..i];
        var row := rows[i];
        floors := floors[row.shard :=
          if row.shard in floors && floors[row.shard] > row.ts then floors[row.shard] else row.ts];
      }
      assert rows[..|rows|] == rows;
    }
  }
}
