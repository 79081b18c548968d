/**
 * Reading the pilot's log and planning the correction, from
 * scripts/backfill_leased_key_usage.py. Lines are already taken apart.
 */
module KeyUsageLog {
  import opened KeyUsage

  /** A won settle with its charge; another line naming an authorization; anything else. */
  datatype Line = Won(id: string, at: int, charge: nat) | Named(id: string, at: int) | Other

  datatype Settle = Settle(at: int, charge: nat)

  // --- parse_log

  function SettledBy(lines: seq<Line>): map<string, Settle> {
    if lines == [] then map[] else
    var before, last := SettledBy(lines[..|lines| - 1]), lines[|lines| - 1];
    if last.Won? && (last.id !in before || last.at > before[last.id].at)
    then before[last.id := Settle(last.at, last.charge)] else before
  }

  function NamedBy(lines: seq<Line>): map<string, int> {
    if lines == [] then map[] else
    var before, last := NamedBy(lines[..|lines| - 1]), lines[|lines| - 1];
    if last.Named? && (last.id !in before || last.at > before[last.id]) then before[last.id := last.at] else before
  }

  function Deferred(settled: map<string, Settle>, named: map<string, int>): set<string> {
    set id | id in settled && id in named && named[id] > settled[id].at
  }

  method ParseLog(lines: seq<Line>) returns (settled: map<string, Settle>, deferred: set<string>)
    ensures settled == SettledBy(lines) && deferred == Deferred(settled, NamedBy(lines))
  {
    settled := map[];
    var latestNamed: map<string, int> := map[];
    for i := 0 to |lines|
      invariant settled == SettledBy(lines[..i]) && latestNamed == NamedBy(lines[..i])
    {
      assert lines[..i + 1][..i] == lines[..i];
      match lines[i]
      case Won(id, at, charge) =>
        if id !in settled || at > settled[id].at { settled := settled[id := Settle(at, charge)]; }
      case Named(id, at) =>
        if id !in latestNamed || at > latestNamed[id] { latestNamed := latestNamed[id := at]; }
      case Other =>
    }
    assert lines[..|lines|] == lines;
    deferred := Deferred(settled, latestNamed);
  }

  /** A won settle of an authorization that no other one is later than. */
  ghost predicate Latest(lines: seq<Line>, line: Line) {
    && line.Won? && line in lines
    && forall other :: other in lines && other.Won? && other.id == line.id ==> other.at <= line.at
  }

  lemma {:induction false} SettledMeans(lines: seq<Line>, id: string)
    ensures id in SettledBy(lines) ==> var s := SettledBy(lines)[id]; Latest(lines, Won(id, s.at, s.charge))
    ensures id !in SettledBy(lines) ==> forall line :: line in lines && line.Won? ==> line.id != id
  {
    if lines != [] {
      var n := |lines| - 1;
      SettledMeans(lines[..n], id);
      assert lines == lines[..n] + [lines[n]];
    }
  }

  lemma {:induction false} NamedMeans(lines: seq<Line>, id: string)
    ensures id in NamedBy(lines) ==> Named(id, NamedBy(lines)[id]) in lines
    ensures id in NamedBy(lines) ==>
      forall line :: line in lines && line.Named? && line.id == id ==> line.at <= NamedBy(lines)[id]
    ensures id !in NamedBy(lines) ==> forall line :: line in lines && line.Named? ==> line.id != id
  {
    if lines != [] {
      var n := |lines| - 1;
      NamedMeans(lines[..n], id);
      assert lines == lines[..n] + [lines[n]];
    }
  }

  /** The settle that stands for an authorization: a latest one, and of these the first the log has. */
  ghost predicate StandsAt(lines: seq<Line>, i: nat) {
    && i < |lines| && lines[i].Won?
    && (forall j :: 0 <= j < |lines| && lines[j].Won? && lines[j].id == lines[i].id ==> lines[j].at <= lines[i].at)
    && (forall j :: 0 <= j < i && lines[j].Won? && lines[j].id == lines[i].id ==> lines[j].at < lines[i].at)
  }

  ghost predicate Stands(lines: seq<Line>, line: Line) {
    exists i: nat :: StandsAt(lines, i) && lines[i] == line
  }

  lemma {:induction false} SettledStands(lines: seq<Line>, id: string)
    ensures id in SettledBy(lines) ==> var s := SettledBy(lines)[id]; Stands(lines, Won(id, s.at, s.charge))
    ensures id !in SettledBy(lines) ==> forall line :: line in lines && line.Won? ==> line.id != id
  {
    SettledMeans(lines, id);
    if id in SettledBy(lines) {
      var n := |lines| - 1;
      var s, before := SettledBy(lines)[id], lines[..n];
      SettledStands(before, id);
      SettledMeans(before, id);
      if id in SettledBy(before) && SettledBy(before)[id] == s {
        var i: nat :| StandsAt(before, i) && before[i] == Won(id, s.at, s.charge);
        forall j | 0 <= j < n ensures before[j] == lines[j] {
        }
        assert StandsAt(lines, i);
      } else {
        assert StandsAt(lines, n);
      }
    }
  }

  /** No two settles stand for one authorization. */
  lemma StandsOnce(lines: seq<Line>, a: Line, b: Line)
    requires Stands(lines, a) && Stands(lines, b) && a.id == b.id
    ensures a == b
  {
    var i: nat :| StandsAt(lines, i) && lines[i] == a;
    var j: nat :| StandsAt(lines, j) && lines[j] == b;
    assert i <= j && j <= i;
  }

  /** A won settle read first stands, if no later line of its authorization is later in time. */
  lemma FirstStands(line: Line, rest: seq<Line>)
    requires line.Won? && forall other :: other in rest && other.Won? && other.id == line.id ==> other.at <= line.at
    ensures line.id in SettledBy([line] + rest) && SettledBy([line] + rest)[line.id] == Settle(line.at, line.charge)
    decreases |rest|
  {
    var all := [line] + rest;
    var n := |rest|;
    if n == 0 {
      assert all == [line] && all[..0] == [];
    } else {
      assert all[..n] == [line] + rest[..n - 1] && all[n] == rest[n - 1];
      assert rest[n - 1] in rest;
      FirstStands(line, rest[..n - 1]);
    }
  }

  ghost predicate Agree(lines: seq<Line>) {
    forall a, b :: Latest(lines, a) && Latest(lines, b) && a.id == b.id ==> a.charge == b.charge
  }

  ghost predicate Shuffled(a: seq<Line>, b: seq<Line>) { multiset(a) == multiset(b) }

  ghost predicate OrderFree(lines: seq<Line>) {
    forall other :: Shuffled(lines, other) ==> SettledBy(other) == SettledBy(lines) && NamedBy(other) == NamedBy(lines)
  }

  lemma SameLines(a: seq<Line>, b: seq<Line>)
    requires Shuffled(a, b)
    ensures forall line :: line in a <==> line in b
  {
    forall line ensures line in a <==> line in b { assert line in multiset(a) <==> line in multiset(b); }
  }

  lemma AgreeingReadTheSame(lines: seq<Line>, other: seq<Line>)
    requires Agree(lines) && Shuffled(lines, other)
    ensures SettledBy(other) == SettledBy(lines) && NamedBy(other) == NamedBy(lines)
  {
    hide Shuffled, SettledBy, NamedBy;
    SameLines(lines, other);
    forall id
      ensures id in SettledBy(other) <==> id in SettledBy(lines)
      ensures id in SettledBy(lines) ==> SettledBy(other)[id] == SettledBy(lines)[id]
      ensures id in NamedBy(other) <==> id in NamedBy(lines)
      ensures id in NamedBy(lines) ==> NamedBy(other)[id] == NamedBy(lines)[id]
    {
      SettledMeans(lines, id);
      SettledMeans(other, id);
      NamedMeans(lines, id);
      NamedMeans(other, id);
      if id in SettledBy(lines) && id in SettledBy(other) {
        var s, t := SettledBy(lines)[id], SettledBy(other)[id];
        assert Latest(lines, Won(id, s.at, s.charge)) && Latest(lines, Won(id, t.at, t.charge));
      }
    }
  }

  lemma ToFront(lines: seq<Line>, line: Line) returns (rest: seq<Line>)
    requires line in lines
    ensures Shuffled(lines, [line] + rest) && forall other :: other in rest ==> other in lines
  {
    var i :| 0 <= i < |lines| && lines[i] == line;
    rest := lines[..i] + lines[i + 1..];
    assert lines == lines[..i] + [line] + lines[i + 1..];
  }

  /**
   * The reading of the log is the same for every order of its lines exactly when
   * each authorization's latest settles agree on the charge.
   */
  lemma ReadingIsOrderFree(lines: seq<Line>)
    ensures OrderFree(lines) <==> Agree(lines)
  {
    if Agree(lines) {
      forall other | Shuffled(lines, other)
        ensures SettledBy(other) == SettledBy(lines) && NamedBy(other) == NamedBy(lines)
      {
        AgreeingReadTheSame(lines, other);
      }
    }
    if OrderFree(lines) {
      forall a, b | Latest(lines, a) && Latest(lines, b) && a.id == b.id ensures a.charge == b.charge {
        var p := ToFront(lines, a);
        FirstStands(a, p);
        var q := ToFront(lines, b);
        FirstStands(b, q);
        assert Shuffled(lines, [a] + p) && Shuffled(lines, [b] + q);
      }
    }
  }

  // --- plan

  datatype Owner = Owner(workspace: string, key: string)

  datatype AuthRow = AuthRow(id: string, owner: Owner, settled: bool, outcome: string, cost: int)

  datatype Reason = NotInLog | NotSettled | LeftToDrain | OnOrAfterUntil | CostDiffers

  datatype Skip = Skip(id: string, reason: Reason)

  datatype Verdict = Skipped(reason: Reason) | Free | Counted(booking: Booking)

  /** Whether a row's settle is planned; a NULL cost reads as 0. */
  function Judge(row: AuthRow, settled: map<string, Settle>, deferred: set<string>, until: int): Verdict {
    if row.id !in settled then Skipped(NotInLog)
    else if !row.settled || row.outcome != "settled" then Skipped(NotSettled)
    else if row.id in deferred then Skipped(LeftToDrain)
    else if settled[row.id].at >= until then Skipped(OnOrAfterUntil)
    else if row.cost != settled[row.id].charge then Skipped(CostDiffers)
    else if row.cost <= 0 then Free
    else Counted(Booking(settled[row.id].at, row.cost))
  }

  /** A later line names the authorization: the drain may have finished it. */
  ghost predicate NamedLater(lines: seq<Line>, line: Line)
    requires line.Won?
  {
    exists named :: named in lines && named.Named? && named.id == line.id && named.at > line.at
  }

  /** What becomes of a row whose authorization's settle is `line`, by the rules in their order. */
  ghost predicate RuledFor(lines: seq<Line>, line: Line, row: AuthRow, until: int, v: Verdict)
    requires line.Won?
  {
    var finished := row.settled && row.outcome == "settled";
    match v
    case Skipped(NotInLog) => false
    case Skipped(NotSettled) => !finished
    case Skipped(LeftToDrain) => finished && NamedLater(lines, line)
    case Skipped(OnOrAfterUntil) => finished && !NamedLater(lines, line) && line.at >= until
    case Skipped(CostDiffers) => finished && !NamedLater(lines, line) && line.at < until && row.cost != line.charge
    case Free => finished && !NamedLater(lines, line) && line.at < until && row.cost == line.charge && row.cost <= 0
    case Counted(b) =>
      && finished && !NamedLater(lines, line) && line.at < until && row.cost == line.charge && row.cost > 0
      && b == Booking(line.at, row.cost)
  }

  /** What becomes of a row, by the lines of the log. */
  ghost predicate Ruled(lines: seq<Line>, row: AuthRow, until: int, v: Verdict) {
    || (v == Skipped(NotInLog) && forall line :: line in lines && line.Won? ==> line.id != row.id)
    || exists line :: Stands(lines, line) && line.Won? && line.id == row.id && RuledFor(lines, line, row, until, v)
  }

  /** The judgement from the parsed log is the one its lines call for, and the only one. */
  lemma JudgeMeans(lines: seq<Line>, row: AuthRow, until: int, v: Verdict)
    ensures v == Judge(row, SettledBy(lines), Deferred(SettledBy(lines), NamedBy(lines)), until) <==>
      Ruled(lines, row, until, v)
  {
    hide SettledBy, NamedBy, Stands;
    var settled, named := SettledBy(lines), NamedBy(lines);
    SettledStands(lines, row.id);
    NamedMeans(lines, row.id);
    if row.id in settled {
      var s := Won(row.id, settled[row.id].at, settled[row.id].charge);
      StandsIsLine(lines, s);
      assert NamedLater(lines, s) <==> row.id in Deferred(settled, named) by {
        if row.id in named { assert Named(row.id, named[row.id]) in lines; }
      }
      forall line | Stands(lines, line) && line.Won? && line.id == row.id ensures line == s {
        StandsOnce(lines, line, s);
      }
    } else {
      forall line | Stands(lines, line) && line.Won? ensures line.id != row.id { StandsIsLine(lines, line); }
    }
  }

  lemma StandsIsLine(lines: seq<Line>, line: Line)
    requires Stands(lines, line)
    ensures line in lines
  {
  }

  /** The settles of one key that the plan books. */
  function MissedBy(rows: seq<AuthRow>, owner: Owner, settled: map<string, Settle>, deferred: set<string>,
      until: int): seq<Booking>
  {
    if rows == [] then [] else
    var last := rows[|rows| - 1];
    var verdict := Judge(last, settled, deferred, until);
    MissedBy(rows[..|rows| - 1], owner, settled, deferred, until) +
      if last.owner == owner && verdict.Counted? then [verdict.booking] else []
  }

  function SkippedRows(rows: seq<AuthRow>, settled: map<string, Settle>, deferred: set<string>, until: int): seq<Skip> {
    if rows == [] then [] else
    var last := rows[|rows| - 1];
    var verdict := Judge(last, settled, deferred, until);
    SkippedRows(rows[..|rows| - 1], settled, deferred, until) +
      if verdict.Skipped? then [Skip(last.id, verdict.reason)] else []
  }

  /** The entries hold, for exactly the keys with something missed, the sums of what they missed. */
  ghost predicate Plans(entries: map<Owner, Amounts>, rows: seq<AuthRow>, settled: map<string, Settle>,
      deferred: set<string>, until: int, floors: Floors, now: int)
  {
    forall owner ::
      var missed := MissedBy(rows, owner, settled, deferred, until);
      (owner in entries <==> missed != []) && (owner in entries ==> entries[owner] == PlanFor(missed, floors, now))
  }

  method Plan(rows: seq<AuthRow>, settled: map<string, Settle>, deferred: set<string>, until: int, now: int,
      floors: Floors)
    returns (entries: map<Owner, Amounts>, skipped: seq<Skip>, noRow: set<string>)
    ensures Plans(entries, rows, settled, deferred, until, floors, now)
    ensures skipped == SkippedRows(rows, settled, deferred, until)
    ensures forall id :: id in noRow <==> id in settled && forall row :: row in rows ==> row.id != id
  {
    entries, skipped := map[], [];
    var seen: set<string> := {};
    var day, week, month := floors.day(now), floors.week(now), floors.month(now);
    for i := 0 to |rows|
      invariant Plans(entries, rows[..i], settled, deferred, until, floors, now)
      invariant skipped == SkippedRows(rows[..i], settled, deferred, until)
      invariant forall id :: id in seen <==> exists row :: row in rows[..i] && row.id == id
    {
      hide Plans, PlanFor, MissedBy;
      var row := rows[i];
      assert rows[..i + 1] == rows[..i] + [row];
      assert rows[..i + 1][..i] == rows[..i];
      seen := seen + {row.id};
      PlansMore(entries, rows[..i], row, settled, deferred, until, floors, now);
      match Judge(row, settled, deferred, until)
      case Skipped(reason) => skipped := skipped + [Skip(row.id, reason)];
      case Free =>
      case Counted(b) =>
        var a := if row.owner in entries then entries[row.owner] else Amounts(0, 0, 0, 0);
        entries := entries[row.owner := Grown(a, b, day, week, month)];
    }
    assert rows[..|rows|] == rows;
    noRow := set id | id in settled && id !in seen;
  }

  /** Whether a row of a key calls for a booking, by the lines of the log. */
  ghost predicate Calls(lines: seq<Line>, row: AuthRow, owner: Owner, until: int, b: Booking) {
    row.owner == owner && Ruled(lines, row, until, Counted(b))
  }

  /** The bookings the log calls for in one key, row by row. */
  ghost function Called(lines: seq<Line>, rows: seq<AuthRow>, owner: Owner, until: int): seq<Booking> {
    if rows == [] then [] else
    var n := |rows| - 1;
    var before := Called(lines, rows[..n], owner, until);
    if exists b :: Calls(lines, rows[n], owner, until, b) then
      var b :| Calls(lines, rows[n], owner, until, b);
      before + [b]
    else before
  }

  lemma {:induction false} MissedIsCalled(lines: seq<Line>, rows: seq<AuthRow>, owner: Owner, until: int)
    ensures var settled, deferred := SettledBy(lines), Deferred(SettledBy(lines), NamedBy(lines));
      MissedBy(rows, owner, settled, deferred, until) == Called(lines, rows, owner, until)
    ensures Called(lines, rows, owner, until) != [] <==>
      exists row, b :: row in rows && Calls(lines, row, owner, until, b)
  {
    hide Ruled, Judge, SettledBy, NamedBy;
    if rows != [] {
      var n := |rows| - 1;
      MissedIsCalled(lines, rows[..n], owner, until);
      var settled, deferred := SettledBy(lines), Deferred(SettledBy(lines), NamedBy(lines));
      var before, verdict := MissedBy(rows[..n], owner, settled, deferred, until),
        Judge(rows[n], settled, deferred, until);
      forall b ensures Calls(lines, rows[n], owner, until, b) <==> rows[n].owner == owner && verdict == Counted(b) {
        JudgeMeans(lines, rows[n], until, Counted(b));
      }
      if verdict.Counted? && rows[n].owner == owner { assert Calls(lines, rows[n], owner, until, verdict.booking); }
      assert before + [] == before && rows == rows[..n] + [rows[n]];
    }
  }

  lemma {:induction false} SkippedIsRuled(lines: seq<Line>, rows: seq<AuthRow>, until: int)
    ensures var settled, deferred := SettledBy(lines), Deferred(SettledBy(lines), NamedBy(lines));
      forall id, reason :: Skip(id, reason) in SkippedRows(rows, settled, deferred, until) <==>
        exists row :: row in rows && row.id == id && Ruled(lines, row, until, Skipped(reason))
  {
    hide Ruled, Judge, SettledBy, NamedBy;
    if rows != [] {
      var n := |rows| - 1;
      SkippedIsRuled(lines, rows[..n], until);
      forall reason { JudgeMeans(lines, rows[n], until, Skipped(reason)); }
      assert rows == rows[..n] + [rows[n]];
    }
  }

  lemma LoggedIds(lines: seq<Line>)
    ensures SettledBy(lines).Keys == set line | line in lines && line.Won? :: line.id
  {
    forall id ensures id in SettledBy(lines) <==> exists line :: line in lines && line.Won? && line.id == id {
      SettledMeans(lines, id);
    }
  }

  /**
   * From log to plan, as the script runs: it reads the rows of the settled
   * authorizations and plans, for exactly the keys the log calls for a booking
   * in, the sums of these; every row left out is listed with the reason.
   */
  method Backfill(lines: seq<Line>, read: set<string> -> seq<AuthRow>, until: int, now: int, floors: Floors)
    returns (entries: map<Owner, Amounts>, skipped: seq<Skip>, noRow: set<string>)
    ensures var ids := set line | line in lines && line.Won? :: line.id;
      var rows := read(ids);
      && (forall owner :: owner in entries <==> exists row, b :: row in rows && Calls(lines, row, owner, until, b))
      && (forall owner :: owner in entries ==>
            entries[owner] == PlanFor(Called(lines, rows, owner, until), floors, now))
      && (forall id, reason :: Skip(id, reason) in skipped <==>
            exists row :: row in rows && row.id == id && Ruled(lines, row, until, Skipped(reason)))
      && (forall id :: id in noRow <==> id in ids && forall row :: row in rows ==> row.id != id)
  {
    hide SettledBy, NamedBy, Deferred, MissedBy, Called, Calls, Ruled, PlanFor, SkippedRows;
    var settled, deferred := ParseLog(lines);
    LoggedIds(lines);
    var rows := read(settled.Keys);
    entries, skipped, noRow := Plan(rows, settled, deferred, until, now, floors);
    forall owner { MissedIsCalled(lines, rows, owner, until); }
    SkippedIsRuled(lines, rows, until);
  }

  /** One more settle in a key's amounts: the lifetime always, a window if the settle is not before its start. */
  function Grown(a: Amounts, b: Booking, day: int, week: int, month: int): Amounts {
    Amounts(a.usage + b.amount,
            if b.time >= day then a.day + b.amount else a.day,
            if b.time >= week then a.week + b.amount else a.week,
            if b.time >= month then a.month + b.amount else a.month)
  }

  lemma PlansMore(entries: map<Owner, Amounts>, rows: seq<AuthRow>, row: AuthRow, settled: map<string, Settle>,
      deferred: set<string>, until: int, floors: Floors, now: int)
    requires Plans(entries, rows, settled, deferred, until, floors, now)
    ensures var a := if row.owner in entries then entries[row.owner] else Amounts(0, 0, 0, 0);
      var verdict := Judge(row, settled, deferred, until);
      var more :=
        if !verdict.Counted? then entries
        else entries[row.owner := Grown(a, verdict.booking, floors.day(now), floors.week(now), floors.month(now))];
      Plans(more, rows + [row], settled, deferred, until, floors, now)
  {
    hide Judge, MissedBy, PlanFor;
    var verdict := Judge(row, settled, deferred, until);
    forall owner
      ensures var missed := MissedBy(rows, owner, settled, deferred, until);
        MissedBy(rows + [row], owner, settled, deferred, until) ==
          if owner == row.owner && verdict.Counted? then missed + [verdict.booking] else missed
    {
      MissedMore(rows, row, owner, settled, deferred, until);
    }
    if verdict.Counted? {
      PlanGrows(MissedBy(rows, row.owner, settled, deferred, until), verdict.booking, floors, now);
      NothingPlanned(floors, now);
    }
  }

  lemma MissedMore(rows: seq<AuthRow>, row: AuthRow, owner: Owner, settled: map<string, Settle>, deferred: set<string>,
      until: int)
    ensures var verdict := Judge(row, settled, deferred, until);
      var missed := MissedBy(rows, owner, settled, deferred, until);
      MissedBy(rows + [row], owner, settled, deferred, until) ==
        if owner == row.owner && verdict.Counted? then missed + [verdict.booking] else missed
  {
    var missed := MissedBy(rows, owner, settled, deferred, until);
    assert (rows + [row])[..|rows|] == rows && missed + [] == missed;
  }

  lemma PlanGrows(missed: seq<Booking>, b: Booking, floors: Floors, now: int)
    ensures PlanFor(missed + [b], floors, now) ==
      Grown(PlanFor(missed, floors, now), b, floors.day(now), floors.week(now), floors.month(now))
  {
    assert (missed + [b])[..|missed|] == missed;
  }

  lemma NothingPlanned(floors: Floors, now: int)
    ensures PlanFor([], floors, now) == Amounts(0, 0, 0, 0)
  {
  }

  /**
   * The plan for a key, run before any window turns, leaves its row as if every
   * missed settle had been booked when the log says it happened.
   */
  lemma PlanIsHistory(entries: map<Owner, Amounts>, rows: seq<AuthRow>, settled: map<string, Settle>,
      deferred: set<string>, until: int, floors: Floors, now: int,
      owner: Owner, k: Key, booked: seq<Booking>, merged: seq<Booking>, at: int)
    requires Plans(entries, rows, settled, deferred, until, floors, now) && owner in entries
    requires AreFloors(floors) && now <= at && forall id :: id in settled ==> settled[id].at <= now
    requires InOrder(booked) && UpTo(booked, at) && InOrder(merged) && StartsBefore(k, floors, merged, now)
    requires multiset(merged) == multiset(booked) + multiset(MissedBy(rows, owner, settled, deferred, until))
    requires floors.day(now) == floors.day(at) && floors.week(now) == floors.week(at)
      && floors.month(now) == floors.month(at)
    ensures var updated := Update(BookAll(k, floors, booked), entries[owner], floors, now);
      var whole := BookAll(k, floors, merged);
      && updated.usage == whole.usage
      && Effective(updated.day, floors.day, at) == Effective(whole.day, floors.day, at)
      && Effective(updated.week, floors.week, at) == Effective(whole.week, floors.week, at)
      && Effective(updated.month, floors.month, at) == Effective(whole.month, floors.month, at)
  {
    MissedInThePast(rows, owner, settled, deferred, until, now);
    UpdateIsHistory(k, floors, booked, MissedBy(rows, owner, settled, deferred, until), merged, now, at);
  }

  lemma {:induction false} MissedInThePast(rows: seq<AuthRow>, owner: Owner, settled: map<string, Settle>,
      deferred: set<string>, until: int, now: int)
    requires forall id :: id in settled ==> settled[id].at <= now
    ensures UpTo(MissedBy(rows, owner, settled, deferred, until), now)
  {
    if rows != [] { MissedInThePast(rows[..|rows| - 1], owner, settled, deferred, until, now); }
  }
}
