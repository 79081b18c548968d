/**
 * Keyset scans and resumable repair: `PostgresGenerationSource.fetch` and the
 * classification of clickhouse/verify_postgres_delivery.py, and `repair` of
 * clickhouse/repair_postgres_activity.py. An identifier is its place in the
 * database's text order, 0 standing for the empty string every scan starts after.
 */
module PagedScan {
  import opened Common
  import opened Multiples

  type Id = nat

  datatype Record = Record(id: Id, safe: bool, created: int, updated: int)

  /** A table as its primary key orders it; no generation has an empty identifier. */
  ghost predicate IsTable(t: seq<Record>) {
    && (forall i :: 0 <= i < |t| ==> t[i].id > 0)
    && (forall i, j :: 0 <= i < j < |t| ==> t[i].id < t[j].id)
  }

  /** `WHERE id > after ORDER BY id LIMIT n`, scanned from the front. */
  function Page(t: seq<Record>, after: Id, n: nat): seq<Record> {
    if t == [] || n == 0 then []
    else if t[0].id > after then [t[0]] + Page(t[1..], after, n - 1)
    else Page(t[1..], after, n)
  }

  /** The key the scan has reached after `k` rows. */
  function Reached(t: seq<Record>, k: nat): Id
    requires k <= |t|
  {
    if k == 0 then 0 else t[k - 1].id
  }

  /** A page after the first `k` rows is the next slice of the table. */
  lemma {:induction false} PageIsSlice(t: seq<Record>, k: nat, n: nat)
    requires IsTable(t) && k <= |t|
    ensures Page(t, Reached(t, k), n) == t[k..k + Least(n, |t| - k)]
  {
    PageFrom(t, 0, k, n);
    assert t[0..] == t;
  }

  lemma {:induction false} PageFrom(t: seq<Record>, from: nat, k: nat, n: nat)
    requires IsTable(t) && from <= |t| && k <= |t|
    ensures var start := if from < k then k else from;
      Page(t[from..], Reached(t, k), n) == t[start..start + Least(n, |t| - start)]
    decreases |t| - from
  {
    if from < |t| && n > 0 {
      assert t[from..][1..] == t[from + 1..];
      PageFrom(t, from + 1, k, if from < k then n else n - 1);
    }
  }

  predicate Within(r: Record, start: int, end: int) { start <= r.created < end }

  /** The records of a window, in the order of the table. */
  function InWindow(t: seq<Record>, start: int, end: int): seq<Record> {
    if t == [] then [] else
    var last := t[|t| - 1];
    InWindow(t[..|t| - 1], start, end) + if Within(last, start, end) then [last] else []
  }

  lemma {:induction false} InWindowIs(t: seq<Record>, start: int, end: int)
    ensures forall x :: x in InWindow(t, start, end) <==> x in t && start <= x.created && x.created < end
  {
    if t != [] {
      var n := |t| - 1;
      InWindowIs(t[..n], start, end);
      assert t == t[..n] + [t[n]];
    }
  }

  /** The window keeps the order of the table. */
  lemma {:induction false} InWindowOrdered(t: seq<Record>, start: int, end: int)
    requires IsTable(t)
    ensures IsTable(InWindow(t, start, end))
  {
    if t != [] {
      var n := |t| - 1;
      InWindowOrdered(t[..n], start, end);
      InWindowIs(t[..n], start, end);
      var before := InWindow(t[..n], start, end);
      forall i | 0 <= i < |before| ensures before[i].id < t[n].id { assert before[i] in t[..n]; }
    }
  }

  function Settled(r: Record): int { if r.created < r.updated then r.updated else r.created }

  function Ids(t: seq<Record>): set<Id> { set r | r in t :: r.id }

  datatype Scan = Invalid | Scan(rows: seq<Record>, known: set<Id>, scanned: nat, complete: bool)

  /** The rows of the window among those the scan limit allows, cut at the limit. */
  function Expected(t: seq<Record>, start: int, end: int, limit: nat, scanLimit: nat): seq<Record> {
    var rows := InWindow(t[..Least(|t|, scanLimit)], start, end);
    rows[..Least(|rows|, limit)]
  }

  /** An unsafe identifier is met before the scan stops. */
  ghost predicate MeetsUnsafe(t: seq<Record>, start: int, end: int, limit: nat, scanLimit: nat) {
    exists i :: 0 <= i < Least(|t|, scanLimit) && !t[i].safe && |InWindow(t[..i], start, end)| <= limit
  }

  lemma {:induction false} InWindowGrows(t: seq<Record>, i: nat, j: nat, start: int, end: int)
    requires i <= j <= |t|
    ensures |InWindow(t[..i], start, end)| <= |InWindow(t[..j], start, end)|
    ensures InWindow(t[..j], start, end)[..|InWindow(t[..i], start, end)|] == InWindow(t[..i], start, end)
    decreases j
  {
    if i < j {
      InWindowGrows(t, i, j - 1, start, end);
      assert t[..j][..j - 1] == t[..j - 1];
    }
  }

  /** What the scan has after its first `k` rows. */
  ghost predicate Scanned(t: seq<Record>, start: int, end: int, limit: nat, k: nat, rows: seq<Record>, known: set<Id>,
      after: Id)
  {
    && k <= |t| && after == Reached(t, k)
    && rows == InWindow(t[..k], start, end) && |rows| <= limit
    && known == Ids(t[..k]) && forall i :: 0 <= i < k ==> t[i].safe
  }

  lemma ScannedMore(t: seq<Record>, start: int, end: int, limit: nat, k: nat, rows: seq<Record>, known: set<Id>,
      after: Id)
    requires Scanned(t, start, end, limit, k, rows, known, after) && k < |t| && t[k].safe
    requires Within(t[k], start, end) ==> |rows| < limit
    ensures var more := if Within(t[k], start, end) then rows + [t[k]] else rows;
      Scanned(t, start, end, limit, k + 1, more, known + {t[k].id}, t[k].id)
  {
    assert t[..k + 1] == t[..k] + [t[k]] && t[..k + 1][..k] == t[..k];
    assert rows + [] == rows;
  }

  /** What `fetch` promises. */
  ghost predicate Fetched(t: seq<Record>, start: int, end: int, limit: nat, scanLimit: nat, r: Scan) {
    && (r.Invalid? <==> MeetsUnsafe(t, start, end, limit, scanLimit))
    && (r.Scan? ==>
          && r.rows == Expected(t, start, end, limit, scanLimit)
          && (r.complete <==> |t| <= scanLimit && |InWindow(t, start, end)| <= limit)
          && (r.complete ==> r.rows == InWindow(t, start, end) && r.known == Ids(t) && r.scanned == |t|))
  }

  lemma ScanEnds(t: seq<Record>, start: int, end: int, limit: nat, scanLimit: nat, k: nat, rows: seq<Record>,
      known: set<Id>, after: Id)
    requires Scanned(t, start, end, limit, k, rows, known, after) && k == Least(|t|, scanLimit)
    ensures Fetched(t, start, end, limit, scanLimit, Scan(rows, known, k, k == |t|))
  {
    assert k == |t| ==> t[..k] == t;
  }

  /**
   * `fetch`: it reports complete exactly when the whole table fits the scan
   * limit and the whole window fits the limit, and then returns the window.
   */
  method Fetch(t: seq<Record>, start: int, end: int, limit: nat, scanLimit: nat, pageSize: nat) returns (r: Scan)
    requires IsTable(t) && pageSize > 0
    ensures r.Invalid? <==> MeetsUnsafe(t, start, end, limit, scanLimit)
    ensures r.Scan? ==>
      && r.rows == Expected(t, start, end, limit, scanLimit)
      && (r.complete <==> |t| <= scanLimit && |InWindow(t, start, end)| <= limit)
      && (r.complete ==> r.rows == InWindow(t, start, end) && r.known == Ids(t) && r.scanned == |t|)
      && (r.complete ==> forall x :: x in r.rows <==> x in t && start <= x.created && x.created < end)
  {
    hide Scanned, IsTable, InWindow, Expected, Page;
    InWindowIs(t, start, end);
    var rows: seq<Record>, known: set<Id>, scanned: nat, after: Id := [], {}, 0, 0;
    assert Scanned(t, start, end, limit, 0, rows, known, after) by { ScanStarts(t, start, end, limit); }
    while scanned < scanLimit
      invariant scanned <= |t| && scanned <= scanLimit
      invariant Scanned(t, start, end, limit, scanned, rows, known, after)
      decreases scanLimit - scanned
    {
      var pageLimit := Least(pageSize, scanLimit - scanned);
      var page := Page(t, after, pageLimit);
      ScannedReaches(t, start, end, limit, scanned, rows, known, after);
      PageIsSlice(t, scanned, pageLimit);
      ghost var first := scanned;
      scanned := scanned + |page|;
      for i := 0 to |page|
        invariant Scanned(t, start, end, limit, first + i, rows, known, after)
      {
        ghost var k := first + i;
        assert page[i] == t[k];
        ScannedReaches(t, start, end, limit, k, rows, known, after);
        if !page[i].safe { return Invalid; }
        if Within(page[i], start, end) && |rows| == limit {
          known := known + {page[i].id};
          StopsHere(t, start, end, limit, scanLimit, k);
          return Scan(rows, known, scanned, false);
        }
        ScannedMore(t, start, end, limit, k, rows, known, after);
        known := known + {page[i].id};
        after := page[i].id;
        if Within(page[i], start, end) { rows := rows + [page[i]]; }
      }
      if |page| < pageLimit {
        ScanEnds(t, start, end, limit, scanLimit, scanned, rows, known, after);
        return Scan(rows, known, scanned, true);
      }
    }
    var more := Page(t, after, 1);
    ScannedReaches(t, start, end, limit, scanned, rows, known, after);
    PageIsSlice(t, scanned, 1);
    ScanEnds(t, start, end, limit, scanLimit, scanned, rows, known, after);
    r := Scan(rows, known, scanned, more == []);
  }

  lemma ScanStarts(t: seq<Record>, start: int, end: int, limit: nat)
    ensures Scanned(t, start, end, limit, 0, [], {}, 0)
  {
  }

  lemma ScannedReaches(t: seq<Record>, start: int, end: int, limit: nat, k: nat, rows: seq<Record>, known: set<Id>,
      after: Id)
    requires Scanned(t, start, end, limit, k, rows, known, after)
    ensures k <= |t| && after == Reached(t, k) && rows == InWindow(t[..k], start, end) && |rows| <= limit
    ensures forall i :: 0 <= i < k ==> t[i].safe
  {
  }

  /** Stopping at the row after the limit: nothing later can matter. */
  lemma StopsHere(t: seq<Record>, start: int, end: int, limit: nat, scanLimit: nat, k: nat)
    requires k < Least(|t|, scanLimit) && (forall j :: 0 <= j <= k ==> t[j].safe)
    requires |InWindow(t[..k], start, end)| == limit && Within(t[k], start, end)
    ensures Expected(t, start, end, limit, scanLimit) == InWindow(t[..k], start, end)
    ensures |InWindow(t, start, end)| > limit && !MeetsUnsafe(t, start, end, limit, scanLimit)
  {
    var m := Least(|t|, scanLimit);
    assert t[..k + 1][..k] == t[..k] && t[..|t|] == t;
    assert |InWindow(t[..k + 1], start, end)| == limit + 1;
    InWindowGrows(t, k, m, start, end);
    InWindowGrows(t, k + 1, |t|, start, end);
    forall i | k < i <= |t| ensures |InWindow(t[..i], start, end)| > limit { InWindowGrows(t, k + 1, i, start, end); }
  }

  // --- missing and pending

  datatype Report = Report(missing: set<Id>, pending: set<Id>)

  /** Every expected row not in the analytics store is missing or pending, by whether it settled before the cutoff. */
  function Classify(rows: seq<Record>, stored: set<Id>, cutoff: int): (r: Report)
    requires IsTable(rows)
    ensures r.missing !! r.pending && r.missing + r.pending == Ids(rows) - stored
    ensures forall x :: x in rows && x.id !in stored ==>
      (x.id in r.missing <==> x.created <= cutoff && x.updated <= cutoff)
  {
    var absent := Ids(rows) - stored;
    var missing := set x | x in rows && x.id in absent && Settled(x) <= cutoff :: x.id;
    Report(missing, absent - missing)
  }

  // --- resumable repair

  ghost predicate Ascending(ids: seq<Id>) {
    forall i, j :: 0 <= i < j < |ids| ==> ids[i] < ids[j]
  }

  function Above(ids: seq<Id>, after: Option<Id>): (r: seq<Id>)
    ensures forall x :: x in r <==> x in ids && (after.Some? ==> x > after.value)
  {
    if ids == [] then [] else
    var last := |ids| - 1;
    assert ids == ids[..last] + [ids[last]];
    Above(ids[..last], after) + if after.Some? && ids[last] <= after.value then [] else [ids[last]]
  }

  function Selected(missing: seq<Id>, limit: nat, after: Option<Id>): seq<Id> {
    var remaining := Above(missing, after);
    remaining[..Least(limit, |remaining|)]
  }

  function NextAfter(missing: seq<Id>, limit: nat, after: Option<Id>): Option<Id>
    requires limit > 0
  {
    if |Above(missing, after)| > limit then Some(Above(missing, after)[limit - 1]) else None
  }

  /** Entities by key with the identifier each one stores: none of these stores another's. */
  ghost predicate Sound(ids: seq<Id>, entities: map<Id, Id>) {
    forall id :: id in ids && id in entities ==> entities[id] == id
  }

  /**
   * `enqueue`: one transaction for each chunk. Every id that still has an entity
   * gets its outbox row, the others are reported. An entity that stores another
   * id stops the work: the chunks before its own stay enqueued, its own does not.
   */
  method Enqueue(ids: seq<Id>, entities: map<Id, Id>, chunkSize: nat)
      returns (ok: bool, enqueued: seq<Id>, absent: seq<Id>)
    requires chunkSize > 0
    ensures ok <==> Sound(ids, entities)
    ensures ok ==> enqueued == Kept(ids, entities.Keys) && absent == Lost(ids, entities.Keys)
    ensures ok ==> forall id ::
      && (id in enqueued <==> id in ids && id in entities)
      && (id in absent <==> id in ids && id !in entities)
    ensures ok ==> multiset(enqueued) + multiset(absent) == multiset(ids)
    ensures !ok ==> exists k ::
              && 0 <= k < |ids| && k % chunkSize == 0 && enqueued == Kept(ids[..k], entities.Keys)
              && Sound(ids[..k], entities) && !Sound(ids[k..Least(k + chunkSize, |ids|)], entities)
  {
    hide Kept, Lost;
    NoneKept(entities.Keys);
    enqueued, absent := [], [];
    var offset := 0;
    while offset < |ids|
      invariant 0 <= offset <= |ids| && (offset < |ids| ==> offset % chunkSize == 0)
      invariant Sound(ids[..offset], entities)
      invariant enqueued == Kept(ids[..offset], entities.Keys) && absent == Lost(ids[..offset], entities.Keys)
    {
      var end := Least(offset + chunkSize, |ids|);
      var chunk := ids[offset..end];
      var sound, found, missing := EnqueueChunk(chunk, entities);
      if !sound {
        assert exists id :: id in chunk && id in entities && entities[id] != id;
        return false, enqueued, absent;
      }
      assert ids[..end] == ids[..offset] + chunk;
      KeptJoin(ids[..offset], chunk, entities.Keys);
      enqueued, absent := enqueued + found, absent + missing;
      NextChunk(offset, chunkSize);
      offset := end;
    }
    assert ids[..|ids|] == ids;
    hide Sound;
    KeptAndLost(ids, entities.Keys);
    ok := true;
  }

  lemma NextChunk(offset: nat, chunkSize: nat)
    requires chunkSize > 0 && offset % chunkSize == 0
    ensures (offset + chunkSize) % chunkSize == 0
  {
    var q := offset / chunkSize;
    assert offset == chunkSize * q && offset + chunkSize == chunkSize * (q + 1);
    Aligns(chunkSize * (q + 1), chunkSize, q + 1);
  }

  /** One transaction: all of the chunk, or nothing of it. */
  method EnqueueChunk(chunk: seq<Id>, entities: map<Id, Id>) returns (ok: bool, found: seq<Id>, missing: seq<Id>)
    ensures ok <==> Sound(chunk, entities)
    ensures ok ==> found == Kept(chunk, entities.Keys) && missing == Lost(chunk, entities.Keys)
  {
    found, missing := [], [];
    for i := 0 to |chunk|
      invariant Sound(chunk[..i], entities)
      invariant found == Kept(chunk[..i], entities.Keys) && missing == Lost(chunk[..i], entities.Keys)
    {
      var id := chunk[i];
      assert chunk[..i + 1][..i] == chunk[..i] && chunk[..i + 1] == chunk[..i] + [id];
      if id !in entities {
        missing := missing + [id];
      } else if entities[id] != id {
        assert id in chunk;
        return false, found, missing;
      } else {
        found := found + [id];
      }
    }
    assert chunk[..|chunk|] == chunk;
    ok := true;
  }

  lemma {:induction false} KeptJoin(a: seq<Id>, b: seq<Id>, present: set<Id>)
    ensures Kept(a + b, present) == Kept(a, present) + Kept(b, present)
    ensures Lost(a + b, present) == Lost(a, present) + Lost(b, present)
  {
    if b == [] {
      assert a + b == a;
    } else {
      var k := |b| - 1;
      assert (a + b)[..|a + b| - 1] == a + b[..k] && (a + b)[|a + b| - 1] == b[k];
      KeptJoin(a, b[..k], present);
    }
  }

  /** The ids that are present, in order. */
  function Kept(ids: seq<Id>, present: set<Id>): seq<Id> {
    if ids == [] then [] else
    Kept(ids[..|ids| - 1], present) + if ids[|ids| - 1] in present then [ids[|ids| - 1]] else []
  }

  /** The others, in order. */
  function Lost(ids: seq<Id>, present: set<Id>): seq<Id> {
    if ids == [] then [] else
    Lost(ids[..|ids| - 1], present) + if ids[|ids| - 1] in present then [] else [ids[|ids| - 1]]
  }

  /** Together they are the ids, each by whether it is present. */
  lemma {:induction false} KeptAndLost(ids: seq<Id>, present: set<Id>)
    ensures forall id :: id in Kept(ids, present) <==> id in ids && id in present
    ensures forall id :: id in Lost(ids, present) <==> id in ids && id !in present
    ensures multiset(Kept(ids, present)) + multiset(Lost(ids, present)) == multiset(ids)
  {
    hide Kept, Lost;
    if ids == [] {
      NoneKept(present);
    } else {
      var n := |ids| - 1;
      KeptAndLost(ids[..n], present);
      assert ids == ids[..n] + [ids[n]];
      LastKept(ids[..n], ids[n], present);
    }
  }

  lemma LastKept(ids: seq<Id>, last: Id, present: set<Id>)
    ensures Kept(ids + [last], present) == if last in present then Kept(ids, present) + [last] else Kept(ids, present)
    ensures Lost(ids + [last], present) == if last in present then Lost(ids, present) else Lost(ids, present) + [last]
  {
    assert (ids + [last])[..|ids|] == ids;
  }

  /** What is kept of ascending ids ascends. */
  lemma {:induction false} KeptAscends(ids: seq<Id>, present: set<Id>)
    requires Ascending(ids)
    ensures Ascending(Kept(ids, present)) && Ascending(Lost(ids, present))
  {
    hide Kept, Lost;
    if ids == [] {
      NoneKept(present);
    } else {
      var n := |ids| - 1;
      KeptAscends(ids[..n], present);
      KeptAndLost(ids[..n], present);
      assert ids == ids[..n] + [ids[n]];
      LastKept(ids[..n], ids[n], present);
      AscendsWith(Kept(ids[..n], present), ids, n);
      AscendsWith(Lost(ids[..n], present), ids, n);
    }
  }

  lemma AscendsWith(some: seq<Id>, ids: seq<Id>, n: nat)
    requires n < |ids| && Ascending(ids) && Ascending(some) && forall x :: x in some ==> x in ids[..n]
    ensures Ascending(some + [ids[n]])
  {
    forall i | 0 <= i < |some| ensures some[i] < ids[n] { assert some[i] in ids[..n]; }
  }

  lemma NoneKept(present: set<Id>)
    ensures Kept([], present) == [] == Lost([], present)
  {
  }

  lemma {:induction false} AboveAscends(ids: seq<Id>, after: Option<Id>)
    requires Ascending(ids)
    ensures Ascending(Above(ids, after))
  {
    if ids != [] {
      var n := |ids| - 1;
      AboveAscends(ids[..n], after);
      var before := Above(ids[..n], after);
      forall i | 0 <= i < |before| ensures before[i] < ids[n] { assert before[i] in ids[..n]; }
    }
  }

  /** One run: what it selects, and where the next one starts. */
  lemma RunSelects(missing: seq<Id>, limit: nat, after: Option<Id>, id: Id)
    requires Ascending(missing) && limit > 0
    ensures var next := NextAfter(missing, limit, after);
      id in Selected(missing, limit, after) <==>
        id in missing && (after.Some? ==> id > after.value) && (next.Some? ==> id <= next.value)
    ensures var next := NextAfter(missing, limit, after); next.Some? && after.Some? ==> next.value > after.value
  {
    var remaining := Above(missing, after);
    AboveAscends(missing, after);
    var selected := Selected(missing, limit, after);
    if |remaining| > limit {
      assert remaining[limit - 1] in remaining;
      if id in remaining && id <= remaining[limit - 1] {
        var i :| 0 <= i < |remaining| && remaining[i] == id;
        assert i <= limit - 1;
        assert selected[i] == id;
      }
    } else {
      assert selected == remaining;
    }
  }

  /**
   * A chain of runs, each resumed with the key the one before returned, until
   * a run returns none. Each run sees what is missing at its own time.
   */
  ghost predicate Chain(ms: seq<seq<Id>>, limit: nat, afters: seq<Option<Id>>)
    requires limit > 0
  {
    && |afters| == |ms| + 1 && |ms| > 0 && afters[0] == None && afters[|ms|] == None
    && (forall i :: 0 <= i < |ms| ==> Ascending(ms[i]) && afters[i + 1] == NextAfter(ms[i], limit, afters[i]))
    && (forall i :: 0 < i < |ms| ==> afters[i].Some?)
  }

  lemma {:induction false} AftersAscend(ms: seq<seq<Id>>, limit: nat, afters: seq<Option<Id>>, i: nat, j: nat)
    requires limit > 0 && Chain(ms, limit, afters) && 0 < i <= j < |ms|
    ensures afters[i].value <= afters[j].value
    decreases j
  {
    if i < j {
      AftersAscend(ms, limit, afters, i, j - 1);
      RunSelects(ms[j - 1], limit, afters[j - 1], 0);
    }
  }

  /** No id is ever selected by two runs of a chain, whatever becomes missing or delivered in between. */
  lemma SelectedOnce(ms: seq<seq<Id>>, limit: nat, afters: seq<Option<Id>>, i: nat, j: nat, id: Id)
    requires limit > 0 && Chain(ms, limit, afters) && i < j < |ms|
    requires id in Selected(ms[i], limit, afters[i])
    ensures id !in Selected(ms[j], limit, afters[j])
  {
    RunSelects(ms[i], limit, afters[i], id);
    RunSelects(ms[j], limit, afters[j], id);
    AftersAscend(ms, limit, afters, i + 1, j);
  }

  /** An id that stays missing is selected by some run, and by the lemma above by one only. */
  lemma StaysMissingIsSelected(ms: seq<seq<Id>>, limit: nat, afters: seq<Option<Id>>, id: Id)
    requires limit > 0 && Chain(ms, limit, afters) && forall i :: 0 <= i < |ms| ==> id in ms[i]
    ensures exists i :: 0 <= i < |ms| && id in Selected(ms[i], limit, afters[i])
  {
    if forall i :: 0 <= i < |ms| ==> id !in Selected(ms[i], limit, afters[i]) {
      NeverReached(ms, limit, afters, id, |ms|);
    }
  }

  lemma {:induction false} NeverReached(ms: seq<seq<Id>>, limit: nat, afters: seq<Option<Id>>, id: Id, n: nat)
    requires limit > 0 && Chain(ms, limit, afters) && n <= |ms|
    requires forall i :: 0 <= i < n ==> id in ms[i] && id !in Selected(ms[i], limit, afters[i])
    ensures n > 0 ==> afters[n].Some? && afters[n].value < id
  {
    if n > 0 {
      NeverReached(ms, limit, afters, id, n - 1);
      RunSelects(ms[n - 1], limit, afters[n - 1], id);
    }
  }

  lemma {:induction false} SameAscending(a: seq<Id>, b: seq<Id>)
    requires Ascending(a) && Ascending(b) && forall x :: x in a <==> x in b
    ensures a == b
  {
    if a == [] {
      if b != [] { SomeIn(b); }
    } else {
      assert a[0] in a && a[0] in b;
      assert b[0] in b && b[0] in a;
      var i :| 0 <= i < |a| && a[i] == b[0];
      var j :| 0 <= j < |b| && b[j] == a[0];
      assert a[0] == b[0];
      forall x ensures x in a[1..] <==> x in b[1..] {
        assert x in a <==> x == a[0] || x in a[1..];
        assert x in b <==> x == b[0] || x in b[1..];
      }
      SameAscending(a[1..], b[1..]);
    }
  }

  /** What the next run starts with is what this one left. */
  lemma RunLeaves(missing: seq<Id>, limit: nat, after: Option<Id>)
    requires Ascending(missing) && limit > 0 && NextAfter(missing, limit, after).Some?
    ensures Above(missing, NextAfter(missing, limit, after)) == Above(missing, after)[limit..]
  {
    var remaining, next := Above(missing, after), NextAfter(missing, limit, after);
    AboveAscends(missing, after);
    AboveAscends(missing, next);
    var left := remaining[limit..];
    assert remaining[limit - 1] in remaining;
    forall x ensures x in left <==> x in Above(missing, next) {
      if x in left { var i :| 0 <= i < |left| && left[i] == x; assert remaining[limit + i] == x; }
      if x in Above(missing, next) {
        assert x in remaining;
        var i :| 0 <= i < |remaining| && remaining[i] == x;
        assert i >= limit;
        assert left[i - limit] == x;
      }
    }
    SameAscending(left, Above(missing, next));
  }

  /** The runs over a set that does not change, as the selections they make. */
  function AllRuns(missing: seq<Id>, limit: nat, after: Option<Id>): seq<seq<Id>>
    requires limit > 0 && Ascending(missing)
    decreases |Above(missing, after)|
  {
    var next := NextAfter(missing, limit, after);
    if next.None? then [Selected(missing, limit, after)] else
    assert |Above(missing, next)| < |Above(missing, after)| by { RunLeaves(missing, limit, after); }
    [Selected(missing, limit, after)] + AllRuns(missing, limit, next)
  }

  function Joined(runs: seq<seq<Id>>): seq<Id> {
    if runs == [] then [] else runs[0] + Joined(runs[1..])
  }

  /** One run for nothing, otherwise the count divided by the limit, rounded up. */
  function RunsNeeded(n: nat, limit: nat): nat
    requires limit > 0
  {
    if n == 0 then 1 else (n + limit - 1) / limit
  }

  lemma OneMoreRun(n: nat, limit: nat)
    requires n > limit > 0
    ensures RunsNeeded(n, limit) == 1 + RunsNeeded(n - limit, limit)
  {
    var t := n - 1;
    var q := t / limit;
    assert t == limit * q + t % limit;
    Aligns(t + limit, limit, q + 1);
  }

  /** Over a fixed set the runs select it all, in order, in as few runs as the limit allows. */
  lemma {:induction false} RunsSelectAll(missing: seq<Id>, limit: nat, after: Option<Id>)
    requires limit > 0 && Ascending(missing)
    ensures Joined(AllRuns(missing, limit, after)) == Above(missing, after)
    ensures |AllRuns(missing, limit, after)| == RunsNeeded(|Above(missing, after)|, limit)
    decreases |Above(missing, after)|
  {
    var remaining, next := Above(missing, after), NextAfter(missing, limit, after);
    var runs := AllRuns(missing, limit, after);
    if next.None? {
      assert runs[1..] == [] && Joined(runs) == runs[0] + [];
      if |remaining| > 0 { Aligns(|remaining| + limit - 1, limit, 1); }
    } else {
      RunLeaves(missing, limit, after);
      RunsSelectAll(missing, limit, next);
      var later := AllRuns(missing, limit, next);
      assert runs[1..] == later && |runs| == |later| + 1;
      assert remaining == remaining[..limit] + remaining[limit..];
      OneMoreRun(|remaining|, limit);
    }
  }
}
