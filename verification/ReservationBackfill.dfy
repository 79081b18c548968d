/**
 * The guarded backfill of scripts/backfill_reservation_terminal_at.py over a
 * database that others write to between any two of its accesses.
 */
module ReservationBackfill {
  import opened Common
  import opened Positions

  datatype Reservation = Reservation(authorization: string, settled: bool, terminalAt: Option<int>)

  datatype Intent = Intent(authorization: string, status: string)

  /** `tr_reservation` by identifier, in the database's key order, and `tr_settle_outbox`. */
  datatype Db = Db(rows: map<int, Reservation>, intents: set<Intent>)

  predicate Frozen(db: Db, authorization: string) {
    Intent(authorization, "pending") in db.intents || Intent(authorization, "dead") in db.intents
  }

  predicate Candidate(r: Reservation) { r.settled && r.terminalAt.None? }

  predicate Eligible(db: Db, id: int) {
    id in db.rows && Candidate(db.rows[id]) && !Frozen(db, db.rows[id].authorization)
  }

  function EligibleIds(db: Db): set<int> {
    set id | id in db.rows && Eligible(db, id)
  }

  /** The guarded UPDATE. */
  function Armed(db: Db, ids: set<int>, now: int): Db {
    db.(rows := map id | id in db.rows ::
      if id in ids && Eligible(db, id) then db.rows[id].(terminalAt := Some(now)) else db.rows[id])
  }

  /** Eligible rows are settled, have no terminal time, and no pending or dead intent for their authorization. */
  lemma EligibleIs(db: Db, id: int)
    ensures id in EligibleIds(db) <==>
      && id in db.rows && db.rows[id].settled && db.rows[id].terminalAt == None
      && forall intent :: intent in db.intents && intent.authorization == db.rows[id].authorization ==>
           intent.status != "pending" && intent.status != "dead"
  {
    if id in db.rows {
      var a := db.rows[id].authorization;
      assert forall intent :: intent in db.intents && intent.authorization == a && intent.status == "pending" ==>
        intent == Intent(a, "pending");
      assert forall intent :: intent in db.intents && intent.authorization == a && intent.status == "dead" ==>
        intent == Intent(a, "dead");
    }
  }

  /** The UPDATE sets the terminal time of exactly the eligible rows asked for, and changes nothing else. */
  lemma ArmedIs(db: Db, ids: set<int>, now: int)
    ensures Armed(db, ids, now).rows.Keys == db.rows.Keys && Armed(db, ids, now).intents == db.intents
    ensures forall id :: id in db.rows ==>
      var armed := Reservation(db.rows[id].authorization, true, Some(now));
      Armed(db, ids, now).rows[id] == if id in ids && id in EligibleIds(db) then armed else db.rows[id]
  {
  }

  datatype Status = Status(candidates: nat, armed: nat, openHolds: nat, excluded: nat)

  function Candidates(db: Db): set<int> { set id | id in db.rows && Candidate(db.rows[id]) }

  function ArmedIds(db: Db): set<int> { set id | id in db.rows && db.rows[id].settled && db.rows[id].terminalAt.Some? }

  function OpenHolds(db: Db): set<int> { set id | id in db.rows && !db.rows[id].settled }

  function Excluded(db: Db): set<int> {
    set id | id in db.rows && Candidate(db.rows[id]) && Frozen(db, db.rows[id].authorization)
  }

  function StatusOf(db: Db): Status {
    Status(|Candidates(db)|, |ArmedIds(db)|, |OpenHolds(db)|, |Excluded(db)|)
  }

  /** What the four counts of the status count. */
  lemma StatusIs(db: Db)
    ensures var s := StatusOf(db);
      && s.candidates == |set id | id in db.rows && db.rows[id].settled && db.rows[id].terminalAt.None?|
      && s.armed == |set id | id in db.rows && db.rows[id].settled && db.rows[id].terminalAt.Some?|
      && s.openHolds == |set id | id in db.rows && !db.rows[id].settled|
      && s.excluded == |set id | id in db.rows && db.rows[id].settled && db.rows[id].terminalAt.None?
                               && (exists i :: i in db.intents && i.authorization == db.rows[id].authorization
                                               && (i.status == "pending" || i.status == "dead"))|
  {
    var frozen := set id | id in db.rows && db.rows[id].settled && db.rows[id].terminalAt.None?
                           && exists i :: i in db.intents && i.authorization == db.rows[id].authorization
                                          && (i.status == "pending" || i.status == "dead");
    forall id | id in db.rows ensures id in Excluded(db) <==> id in frozen {
      var a := db.rows[id].authorization;
      if id in frozen {
        var i :| i in db.intents && i.authorization == a && (i.status == "pending" || i.status == "dead");
        assert i == Intent(a, i.status);
      }
      if Frozen(db, a) { assert Intent(a, "pending") in db.intents || Intent(a, "dead") in db.intents; }
    }
    assert Excluded(db) == frozen;
    var candidates := set id | id in db.rows && db.rows[id].settled && db.rows[id].terminalAt.None?;
    forall id ensures id in Candidates(db) <==> id in candidates {
    }
    assert Candidates(db) == candidates;
  }

  /** `BackfillStatus.eligible` */
  function EligibleCount(s: Status): int { s.candidates - s.excluded }

  /** Candidates less excluded rows is the number of rows the batch query can return. */
  lemma StatusCounts(db: Db)
    ensures EligibleCount(StatusOf(db)) == |EligibleIds(db)|
  {
    CandidatesSplit(db);
    TwoClasses(Candidates(db), Excluded(db), EligibleIds(db));
  }

  /** Every row is a candidate, armed or an open hold, and is counted once. */
  lemma StatusCoversAll(db: Db)
    ensures var s := StatusOf(db); s.candidates + s.armed + s.openHolds == |db.rows.Keys|
  {
    RowsSplit(db);
    TwoClasses(Candidates(db) + ArmedIds(db), Candidates(db), ArmedIds(db));
    TwoClasses(db.rows.Keys, Candidates(db) + ArmedIds(db), OpenHolds(db));
  }

  lemma TwoClasses(whole: set<int>, a: set<int>, b: set<int>)
    requires whole == a + b && a !! b
    ensures |whole| == |a| + |b|
  {
  }

  lemma CandidatesSplit(db: Db)
    ensures Candidates(db) == Excluded(db) + EligibleIds(db) && Excluded(db) !! EligibleIds(db)
  {
  }

  lemma RowsSplit(db: Db)
    ensures db.rows.Keys == Candidates(db) + ArmedIds(db) + OpenHolds(db)
    ensures Candidates(db) !! ArmedIds(db) && (Candidates(db) + ArmedIds(db)) !! OpenHolds(db)
  {
    forall id
      ensures id in db.rows <==> id in Candidates(db) || id in ArmedIds(db) || id in OpenHolds(db)
      ensures id in ArmedIds(db) || id in OpenHolds(db) ==> id !in Candidates(db)
      ensures id in OpenHolds(db) ==> id !in ArmedIds(db)
    {
      assert id in db.rows ==> db.rows[id].terminalAt.Some? || db.rows[id].terminalAt.None?;
    }
  }

  // --- writes

  datatype Write = Write(before: Db, ids: set<int>, now: int, after: Db)

  /**
   * A write touches nothing but rows it names that are settled, unarmed and not
   * frozen at that moment, and on those it changes the one column.
   */
  ghost predicate Guarded(w: Write) {
    && w.after.intents == w.before.intents && w.after.rows.Keys == w.before.rows.Keys
    && forall id :: id in w.before.rows ==>
      var r := w.before.rows[id];
      if id in w.ids && r.settled && r.terminalAt.None? && !Frozen(w.before, r.authorization)
      then w.after.rows[id] == Reservation(r.authorization, true, Some(w.now))
      else w.after.rows[id] == r
  }

  lemma ArmingIsGuarded(db: Db, ids: set<int>, now: int)
    ensures Guarded(Write(db, ids, now, Armed(db, ids, now)))
  {
  }

  /** What a write armed is no longer eligible, and nothing became so. */
  lemma ArmingShrinks(db: Db, ids: set<int>, now: int)
    ensures EligibleIds(Armed(db, ids, now)) == EligibleIds(db) - ids
  {
  }

  function Changed(w: Write): set<int> {
    set id | id in w.before.rows && id in w.after.rows && w.before.rows[id] != w.after.rows[id]
  }

  lemma ArmingChanges(db: Db, ids: set<int>, now: int)
    ensures Changed(Write(db, ids, now, Armed(db, ids, now))) == EligibleIds(db) * ids
  {
  }

  ghost function TotalChanged(history: seq<Write>): nat {
    if history == [] then 0 else TotalChanged(history[..|history| - 1]) + |Changed(history[|history| - 1])|
  }

  /** Rows armed among those eligible at the start and nothing else, at whatever times. */
  ghost predicate ArmedSome(start: Db, db: Db) {
    && db.intents == start.intents && db.rows.Keys == start.rows.Keys
    && forall id :: id in start.rows ==>
      || db.rows[id] == start.rows[id]
      || (Eligible(start, id) && db.rows[id].terminalAt.Some?
           && db.rows[id] == start.rows[id].(terminalAt := db.rows[id].terminalAt))
  }

  lemma ArmedMore(start: Db, db: Db, ids: set<int>, now: int)
    requires ArmedSome(start, db)
    ensures ArmedSome(start, Armed(db, ids, now))
  {
  }

  /** Everything eligible armed, everything else as it was. */
  ghost predicate ArmedExactly(start: Db, db: Db) {
    && ArmedSome(start, db)
    && forall id :: Eligible(start, id) ==> id in db.rows && db.rows[id].terminalAt.Some?
  }

  lemma NoneLeftIsAll(start: Db, db: Db)
    requires ArmedSome(start, db) && EligibleIds(db) == {}
    ensures ArmedExactly(start, db)
  {
    forall id | Eligible(start, id) ensures db.rows[id].terminalAt.Some? {
      assert id !in EligibleIds(db);
    }
  }

  // --- the program

  /**
   * The database and its other users: before access number `k` of this program
   * they replace its contents by `others[k]` of them, and after the last of
   * these they are done. Whatever they do in a run is some such sequence.
   */
  class Store {
    var db: Db
    var accesses: nat
    const others: seq<Db -> Db>
    ghost var history: seq<Write>

    constructor (db: Db, others: seq<Db -> Db>)
      ensures this.db == db && this.others == others && accesses == 0 && history == []
    {
      this.db, this.others := db, others;
      accesses, history := 0, [];
    }

    function Left(): nat
      reads this
    {
      if accesses < |others| then |others| - accesses else 0
    }

    /** What the next access finds. */
    function Found(): Db
      reads this
    {
      if accesses < |others| then others[accesses](db) else db
    }

    method Access()
      modifies this
      ensures db == old(Found()) && accesses == old(accesses) + 1 && history == old(history)
    {
      if accesses < |others| { db := others[accesses](db); }
      accesses := accesses + 1;
    }

    method InspectStatus() returns (s: Status)
      modifies this
      ensures db == old(Found()) && accesses == old(accesses) + 1 && history == old(history)
      ensures s == StatusOf(db)
    {
      Access();
      s := StatusOf(db);
    }

    method SelectBatch(batch: nat) returns (ids: seq<int>)
      modifies this
      ensures db == old(Found()) && accesses == old(accesses) + 1 && history == old(history)
      ensures ids == FirstN(EligibleIds(db), batch)
    {
      Access();
      ids := FirstN(EligibleIds(db), batch);
    }

    method ArmBatch(ids: seq<int>, now: int) returns (updated: nat)
      modifies this
      ensures accesses == old(accesses) + 1 && db == Armed(old(Found()), ToSet(ids), now)
      ensures history == old(history) + [Write(old(Found()), ToSet(ids), now, db)]
      ensures updated == |EligibleIds(old(Found())) * ToSet(ids)|
    {
      Access();
      ghost var before := db;
      updated := |EligibleIds(db) * ToSet(ids)|;
      db := Armed(db, ToSet(ids), now);
      history := history + [Write(before, ToSet(ids), now, db)];
    }

    ghost predicate AllGuarded()
      reads this
    {
      forall i :: 0 <= i < |history| ==> Guarded(history[i])
    }

    /**
     * What holds between any two accesses: writes guarded and counted; alone, progress
     * from the start to nothing left.
     */
    ghost predicate Steady(start: Db, total: nat)
      reads this
    {
      && AllGuarded() && total == TotalChanged(history)
      && (|others| == 0 ==> ArmedSome(start, db) && total + |EligibleIds(db)| == |EligibleIds(start)|)
    }

    lemma AllArmed(start: Db)
      requires EligibleIds(db) == {}
      ensures |others| == 0 && ArmedSome(start, db) ==> ArmedExactly(start, db)
    {
      if ArmedSome(start, db) { NoneLeftIsAll(start, db); }
    }

    /** One guarded batch. It either uses up some of the others' steps or arms all it selected. */
    method ArmStep(ids: seq<int>, now: int, ghost start: Db, ghost total: nat) returns (updated: nat)
      requires Steady(start, total)
      modifies this
      ensures Steady(start, total + updated) && accesses == old(accesses) + 1
      ensures old(Left()) == 0 ==> EligibleIds(db) == old(EligibleIds(db)) - ToSet(ids)
      ensures old(Left()) == 0 ==> updated == |old(EligibleIds(db)) * ToSet(ids)|
    {
      hide Guarded, Armed, ArmedSome, EligibleIds;
      ghost var found, was := Found(), history;
      updated := ArmBatch(ids, now);
      ArmingIsGuarded(found, ToSet(ids), now);
      ArmingChanges(found, ToSet(ids), now);
      ArmingShrinks(found, ToSet(ids), now);
      assert history[..|history| - 1] == was;
      SplitCount(EligibleIds(found), ToSet(ids));
      if |others| == 0 { ArmedMore(start, found, ToSet(ids), now); }
    }

    /**
     * `run_backfill`. However the others interleave, every write is guarded and
     * counted, the program ends, it reports success after applying only when
     * its last look at the database found nothing eligible, and with no others
     * it arms exactly what was eligible.
     */
    method RunBackfill(batch: nat, apply: bool, clock: nat -> int) returns (code: nat, total: nat)
      requires batch >= 1 && history == [] && accesses == 0
      modifies this
      ensures AllGuarded() && total == TotalChanged(history) && code <= 1
      ensures !apply ==> code == 0 && history == []
      ensures apply ==> (code == 0 <==> EligibleIds(db) == {})
      ensures apply && |others| == 0 ==> code == 0 && ArmedExactly(old(db), db) && total == |EligibleIds(old(db))|
    {
      hide Guarded, ArmedSome, ArmedExactly, StatusOf, EligibleIds, EligibleCount, FirstN, ToSet;
      ghost var start := db;
      var initial := InspectStatus();
      code, total := 0, 0;
      if !apply { return; }
      SomeIsNone(start);
      var emptyButEligible := 0;
      while true
        invariant Steady(start, total) && code == 0
        decreases Left(), |EligibleIds(db)|
      {
        var ids := SelectBatch(batch);
        FirstNCount(EligibleIds(db), batch);
        if ids == [] {
          var final := InspectStatus();
          StatusCounts(db);
          if EligibleCount(final) == 0 {
            AllArmed(start);
            return 0, total;
          }
          emptyButEligible := emptyButEligible + 1;
          if emptyButEligible <= 3 { continue; }
          return 1, total;
        }
        emptyButEligible := 0;
        var updated := ArmStep(ids, clock(accesses), start, total);
        total := total + updated;
        if updated == 0 {
          var current := InspectStatus();
          StatusCounts(db);
          if current.candidates == 0 {
            NoCandidates(db);
            AllArmed(start);
            return 0, total;
          }
          if EligibleCount(current) == 0 {
            AllArmed(start);
            return 0, total;
          }
        }
      }
    }
  }

  lemma SomeIsNone(db: Db)
    ensures ArmedSome(db, db)
  {
  }

  lemma SplitCount(s: set<int>, t: set<int>)
    ensures |s| == |s - t| + |s * t|
  {
    assert s == (s - t) + (s * t);
  }

  lemma NoCandidates(db: Db)
    requires StatusOf(db).candidates == 0
    ensures EligibleIds(db) == {}
  {
    assert Candidates(db) == {};
    assert EligibleIds(db) <= Candidates(db);
  }
}
