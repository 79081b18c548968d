/**
 * The schema drift judge of scripts/audit_spanner_schema.py: a structural
 * difference of two normalised schemas, and an allowlist that must explain
 * exactly those differences. `lex` stands for the tokeniser.
 */
module SchemaAudit {
  import opened Common
  import opened SqlTokens

  datatype ObjectKey =
    | Table(name: string)
    | Column(table: string, name: string)
    | Index(table: string, name: string)
    | Constraint(table: string, name: string)

  datatype Value =
    | Null
    | Flag(on: bool)
    | Number(n: int)
    | Text(text: string)
    | KeyColumns(columns: seq<(string, int, string)>)

  type Attributes = map<string, Value>

  type Schema = map<ObjectKey, Attributes>

  /** How expressions are read. */
  datatype Reader = Reader(lex: string -> seq<Token>, words: Vocabulary)

  predicate IsExpression(attribute: string) {
    attribute == "GENERATION_EXPRESSION" || attribute == "COLUMN_DEFAULT" || attribute == "CHECK_CLAUSE"
    || attribute == "ROW_DELETION_POLICY_EXPRESSION"
  }

  predicate IsState(attribute: string) { attribute == "SPANNER_STATE" || attribute == "INDEX_STATE" }

  function FinalState(attribute: string): Value
    requires IsState(attribute)
  {
    Text(if attribute == "SPANNER_STATE" then "COMMITTED" else "READ_WRITE")
  }

  function Get(attributes: Attributes, attribute: string): Value {
    if attribute in attributes then attributes[attribute] else Null
  }

  // --- comparison

  datatype Compared = Plain(value: Value) | Tokens(tokens: seq<Token>)

  /** Four attributes hold expressions, which are compared token by token. */
  ghost function Comparison(r: Reader, attribute: string, raw: Value): Compared {
    if (attribute == "GENERATION_EXPRESSION" || attribute == "COLUMN_DEFAULT" || attribute == "CHECK_CLAUSE"
        || attribute == "ROW_DELETION_POLICY_EXPRESSION") && raw.Text?
    then Tokens(Normalised(r.words, r.lex(raw.text))) else Plain(raw)
  }

  method CompareValues(r: Reader, attribute: string, a: Value, b: Value) returns (same: bool)
    ensures same == (Comparison(r, attribute, a) == Comparison(r, attribute, b))
  {
    if IsExpression(attribute) && a.Text? && b.Text? {
      var left := NormaliseTokens(r.words, r.lex(a.text));
      var right := NormaliseTokens(r.words, r.lex(b.text));
      same := left == right;
    } else {
      same := a == b;
    }
  }

  /** Attributes of an object both sides have that are compared: not states, nor a column's place in its table. */
  predicate IsCompared(key: ObjectKey, attribute: string) {
    !IsState(attribute) && !(key.Column? && attribute == "ORDINAL_POSITION")
  }

  /** The primary key's pseudo-index has no state of its own. */
  predicate IsPseudoIndex(key: ObjectKey, attributes: Attributes) {
    key.Index? && key.name == "PRIMARY_KEY" && Get(attributes, "INDEX_TYPE") == Text("PRIMARY_KEY")
  }

  predicate NotReady(key: ObjectKey, attributes: Attributes, attribute: string) {
    && IsState(attribute) && attribute in attributes && attributes[attribute] != FinalState(attribute)
    && !(attribute == "INDEX_STATE" && attributes[attribute] == Null && IsPseudoIndex(key, attributes))
  }

  // --- differences

  datatype Side = Leaf(value: Value) | Whole(attributes: Attributes)

  datatype Direction = ProductionLacks | FixtureLacks | ObjectNotReady | AttributeMismatch

  datatype Difference = Difference(
    subject: ObjectKey,
    attribute: string,
    production: Side,
    fixture: Side,
    direction: Direction)

  /** A state that is not the final one; the primary key's pseudo-index may have no state. */
  ghost predicate Unfinished(key: ObjectKey, attributes: Attributes, attribute: string) {
    && attribute in attributes
    && match attribute
       case "SPANNER_STATE" => attributes[attribute] != Text("COMMITTED")
       case "INDEX_STATE" =>
         && attributes[attribute] != Text("READ_WRITE")
         && !(attributes[attribute] == Null && key.Index? && key.name == "PRIMARY_KEY" && "INDEX_TYPE" in attributes
              && attributes["INDEX_TYPE"] == Text("PRIMARY_KEY"))
       case _ => false
  }

  ghost predicate IsDifference(r: Reader, production: Schema, fixture: Schema, d: Difference) {
    var key := d.subject;
    match d.direction
    case ObjectNotReady =>
      && key in production && Unfinished(key, production[key], d.attribute)
      && d.production == Leaf(production[key][d.attribute])
      && d.fixture == Leaf(if key in fixture then Get(fixture[key], d.attribute) else Null)
    case ProductionLacks =>
      && key !in production && key in fixture && d.attribute == "object"
      && d.production == Leaf(Null) && d.fixture == Whole(fixture[key])
    case FixtureLacks =>
      && key in production && key !in fixture && d.attribute == "object"
      && d.production == Whole(production[key]) && d.fixture == Leaf(Null)
    case AttributeMismatch =>
      && key in production && key in fixture
      && d.attribute != "SPANNER_STATE" && d.attribute != "INDEX_STATE"
      && !(key.Column? && d.attribute == "ORDINAL_POSITION")
      && (d.attribute in production[key] || d.attribute in fixture[key])
      && Comparison(r, d.attribute, Get(production[key], d.attribute)) !=
           Comparison(r, d.attribute, Get(fixture[key], d.attribute))
      && d.production == Leaf(Get(production[key], d.attribute)) && d.fixture == Leaf(Get(fixture[key], d.attribute))
  }

  /**
   * Every difference has its own object and attribute: an object is missing, or
   * unready, or differs in an attribute, never two of these at once.
   */
  lemma DifferencesAreUnique(r: Reader, production: Schema, fixture: Schema, a: Difference, b: Difference)
    requires IsDifference(r, production, fixture, a) && IsDifference(r, production, fixture, b)
    requires a.subject == b.subject && a.attribute == b.attribute
    ensures a == b
  {
  }

  ghost predicate Distinct(ds: seq<Difference>) {
    forall i, j :: 0 <= i < j < |ds| ==> ds[i].subject != ds[j].subject || ds[i].attribute != ds[j].attribute
  }

  /** The differences found for some of the objects, each once. */
  ghost predicate Found(r: Reader, production: Schema, fixture: Schema, unread: set<ObjectKey>,
      uncompared: set<ObjectKey>, ds: seq<Difference>)
  {
    && Distinct(ds)
    && (forall d :: d in ds <==>
          && IsDifference(r, production, fixture, d)
          && (if d.direction.ObjectNotReady? then d.subject !in unread else d.subject !in uncompared))
  }

  /**
   * `differences`: first the states of production, then every object of either side;
   * the order of the result is left open.
   */
  method Differences(r: Reader, production: Schema, fixture: Schema) returns (ds: seq<Difference>)
    ensures forall d :: d in ds <==> IsDifference(r, production, fixture, d)
    ensures Distinct(ds)
  {
    hide IsDifference, Distinct;
    ds := [];
    var all := production.Keys + fixture.Keys;
    assert Distinct([]) by { NothingDistinct(); }
    NothingElse(r, production, fixture);
    var unread := production.Keys;
    while unread != {}
      invariant unread <= production.Keys && Found(r, production, fixture, unread, all, ds)
    {
      var key :| key in unread;
      var found := UnreadyStates(r, production, fixture, key);
      FoundMore(r, production, fixture, unread, all, ds, found, key, true);
      ds := ds + found;
      unread := unread - {key};
    }
    var uncompared := all;
    while uncompared != {}
      invariant uncompared <= all && Found(r, production, fixture, {}, uncompared, ds)
    {
      var key :| key in uncompared;
      var found := Compare(r, production, fixture, key);
      FoundMore(r, production, fixture, {}, uncompared, ds, found, key, false);
      ds := ds + found;
      uncompared := uncompared - {key};
    }
  }

  lemma NothingDistinct()
    ensures Distinct([])
  {
  }

  lemma NothingElse(r: Reader, production: Schema, fixture: Schema)
    ensures forall d :: IsDifference(r, production, fixture, d) ==>
      d.subject in production.Keys + fixture.Keys && (d.direction.ObjectNotReady? ==> d.subject in production)
  {
  }

  lemma FoundMore(r: Reader, production: Schema, fixture: Schema, unread: set<ObjectKey>, uncompared: set<ObjectKey>,
                  ds: seq<Difference>, found: seq<Difference>, key: ObjectKey, states: bool)
    requires Found(r, production, fixture, unread, uncompared, ds) && Distinct(found)
    requires if states then key in unread else key in uncompared
    requires forall d :: d in found <==>
      IsDifference(r, production, fixture, d) && d.subject == key && d.direction.ObjectNotReady? == states
    ensures var unread', uncompared' :=
        if states then unread - {key} else unread, if states then uncompared else uncompared - {key};
      Found(r, production, fixture, unread', uncompared', ds + found)
  {
    hide IsDifference;
    forall i, j | 0 <= i < |ds| && 0 <= j < |found|
      ensures ds[i].subject != found[j].subject || ds[i].attribute != found[j].attribute
    {
      assert ds[i] in ds && found[j] in found;
      if ds[i].subject == found[j].subject && ds[i].attribute == found[j].attribute {
        DifferencesAreUnique(r, production, fixture, ds[i], found[j]);
      }
    }
  }

  method UnreadyStates(r: Reader, production: Schema, fixture: Schema, key: ObjectKey) returns (found: seq<Difference>)
    requires key in production
    ensures Distinct(found)
    ensures forall d :: d in found <==>
      IsDifference(r, production, fixture, d) && d.subject == key && d.direction.ObjectNotReady?
  {
    hide Comparison;
    found := [];
    var attributes := production[key];
    var other := if key in fixture then fixture[key] else map[];
    if NotReady(key, attributes, "SPANNER_STATE") {
      found := found + [Difference(key, "SPANNER_STATE", Leaf(attributes["SPANNER_STATE"]),
        Leaf(Get(other, "SPANNER_STATE")), ObjectNotReady)];
    }
    if NotReady(key, attributes, "INDEX_STATE") {
      found := found + [Difference(key, "INDEX_STATE", Leaf(attributes["INDEX_STATE"]),
        Leaf(Get(other, "INDEX_STATE")), ObjectNotReady)];
    }
  }

  method Compare(r: Reader, production: Schema, fixture: Schema, key: ObjectKey) returns (found: seq<Difference>)
    requires key in production || key in fixture
    ensures Distinct(found)
    ensures forall d :: d in found <==>
      IsDifference(r, production, fixture, d) && d.subject == key && !d.direction.ObjectNotReady?
  {
    hide Comparison, NotReady;
    if key !in production {
      return [Difference(key, "object", Leaf(Null), Whole(fixture[key]), ProductionLacks)];
    }
    if key !in fixture {
      return [Difference(key, "object", Whole(production[key]), Leaf(Null), FixtureLacks)];
    }
    found := [];
    var left, right := production[key], fixture[key];
    var todo := left.Keys + right.Keys;
    while todo != {}
      invariant todo <= left.Keys + right.Keys && Distinct(found)
      invariant forall d :: d in found <==>
        d.subject == key && d.direction.AttributeMismatch? && d.attribute !in todo
          && IsDifference(r, production, fixture, d)
    {
      var attribute :| attribute in todo;
      todo := todo - {attribute};
      if IsCompared(key, attribute) {
        var same := CompareValues(r, attribute, Get(left, attribute), Get(right, attribute));
        if !same {
          found := found + [Difference(key, attribute, Leaf(Get(left, attribute)), Leaf(Get(right, attribute)),
            AttributeMismatch)];
        }
      }
    }
  }

  // --- when there are none

  /** A schema as far as it is compared: no nulls, no states, no column places, expressions as tokens. */
  ghost function Canonical(r: Reader, s: Schema): map<ObjectKey, map<string, Compared>> {
    map key | key in s :: CanonicalAttributes(r, key, s[key])
  }

  ghost function CanonicalAttributes(r: Reader, key: ObjectKey, attributes: Attributes): map<string, Compared> {
    map a | a in attributes && IsCompared(key, a) && attributes[a] != Null :: Comparison(r, a, attributes[a])
  }

  ghost predicate AllReady(s: Schema) {
    forall key, a :: key in s ==> !Unfinished(key, s[key], a)
  }

  lemma SameCanonical(r: Reader, key: ObjectKey, left: Attributes, right: Attributes)
    ensures CanonicalAttributes(r, key, left) == CanonicalAttributes(r, key, right) <==>
      forall a :: IsCompared(key, a) && (a in left || a in right) ==>
        Comparison(r, a, Get(left, a)) == Comparison(r, a, Get(right, a))
  {
    hide Normalised;
    var x, y := CanonicalAttributes(r, key, left), CanonicalAttributes(r, key, right);
    if x == y {
      forall a | IsCompared(key, a) && (a in left || a in right)
        ensures Comparison(r, a, Get(left, a)) == Comparison(r, a, Get(right, a))
      {
        assert a in x <==> a in left && left[a] != Null;
        assert a in y <==> a in right && right[a] != Null;
        assert a in x ==> x[a] == y[a];
      }
    }
    if forall a :: IsCompared(key, a) && (a in left || a in right) ==>
        Comparison(r, a, Get(left, a)) == Comparison(r, a, Get(right, a))
    {
      forall a ensures a in x <==> a in y ensures a in x && a in y ==> x[a] == y[a] {
        if IsCompared(key, a) && (a in left || a in right) {
          assert Comparison(r, a, Get(left, a)) == Comparison(r, a, Get(right, a));
        }
      }
    }
  }

  /**
   * There is no difference exactly when the two schemas are one after normalisation
   * and every production object is ready.
   */
  lemma NoDifferenceIsAgreement(r: Reader, production: Schema, fixture: Schema)
    ensures (forall d :: !IsDifference(r, production, fixture, d)) <==>
      Canonical(r, production) == Canonical(r, fixture) && AllReady(production)
  {
    hide Comparison, Unfinished, CanonicalAttributes;
    if Canonical(r, production) == Canonical(r, fixture) && AllReady(production) {
      assert production.Keys == Canonical(r, production).Keys == fixture.Keys;
      forall d ensures !IsDifference(r, production, fixture, d) {
        if d.subject in production && d.subject in fixture {
          assert Canonical(r, production)[d.subject] == Canonical(r, fixture)[d.subject];
          SameCanonical(r, d.subject, production[d.subject], fixture[d.subject]);
        }
      }
    }
    if forall d :: !IsDifference(r, production, fixture, d) {
      NoneSoReady(r, production, fixture);
      NoneSoSame(r, production, fixture);
    }
  }

  lemma NoneSoReady(r: Reader, production: Schema, fixture: Schema)
    requires forall d :: !IsDifference(r, production, fixture, d)
    ensures AllReady(production)
  {
    hide Comparison;
    forall key, a | key in production ensures !Unfinished(key, production[key], a) {
      var other := if key in fixture then Get(fixture[key], a) else Null;
      assert Unfinished(key, production[key], a) ==>
        IsDifference(r, production, fixture, Difference(key, a, Leaf(production[key][a]), Leaf(other), ObjectNotReady));
    }
  }

  lemma NoneSoSame(r: Reader, production: Schema, fixture: Schema)
    requires forall d :: !IsDifference(r, production, fixture, d)
    ensures Canonical(r, production) == Canonical(r, fixture)
  {
    hide Comparison, Unfinished, CanonicalAttributes;
    forall key ensures key in production <==> key in fixture {
      assert key in fixture && key !in production ==>
        IsDifference(r, production, fixture,
          Difference(key, "object", Leaf(Null), Whole(fixture[key]), ProductionLacks));
      assert key in production && key !in fixture ==>
        IsDifference(r, production, fixture,
          Difference(key, "object", Whole(production[key]), Leaf(Null), FixtureLacks));
    }
    forall key | key in production
      ensures CanonicalAttributes(r, key, production[key]) == CanonicalAttributes(r, key, fixture[key])
    {
      var left, right := production[key], fixture[key];
      forall a | IsCompared(key, a) && (a in left || a in right)
        ensures Comparison(r, a, Get(left, a)) == Comparison(r, a, Get(right, a))
      {
        assert !IsDifference(r, production, fixture,
          Difference(key, a, Leaf(Get(left, a)), Leaf(Get(right, a)), AttributeMismatch));
      }
      SameCanonical(r, key, left, right);
    }
  }

  /**
   * Two spellings of an expression that differ by an enclosing pair never make a
   * difference, if the inner one never dips.
   */
  lemma EnclosedSpellingAgrees(r: Reader, attribute: string, a: string, b: string)
    requires r.lex(b) == Wrap(r.lex(a)) && NeverDips(r.lex(a))
    ensures Comparison(r, attribute, Text(a)) == Comparison(r, attribute, Text(b)) <==>
      IsExpression(attribute) || a == b
  {
    EnclosingIsNeutral(r.words, r.lex(a));
  }

  // --- the allowlist

  datatype Entry = Entry(
    subject: ObjectKey,
    attribute: string,
    production: Side,
    fixture: Side,
    reason: string,
    verified: bool)

  /** Whether nothing is left of a text once white space is stripped. */
  predicate Blank(s: string) { forall c :: c in s ==> IsSpace(c) }

  predicate Explains(e: Entry, d: Difference) {
    e.subject == d.subject && e.attribute == d.attribute && e.production == d.production && e.fixture == d.fixture
  }

  /** What an allowlist must be to be used at all. */
  ghost predicate WellFormed(entries: seq<Entry>) {
    && (forall i :: 0 <= i < |entries| ==>
          !Blank(entries[i].attribute) && !Blank(entries[i].reason) && entries[i].production != entries[i].fixture)
    && (forall i, j :: 0 <= i < j < |entries| ==>
          entries[i].subject != entries[j].subject || entries[i].attribute != entries[j].attribute)
  }

  datatype Report = Refused | Report(exitCode: nat, stale: seq<Entry>, unexplained: seq<Difference>)

  method CheckEntries(entries: seq<Entry>) returns (ok: bool)
    ensures ok <==> WellFormed(entries)
  {
    var seen: set<(ObjectKey, string)> := {};
    for i := 0 to |entries|
      invariant WellFormed(entries[..i])
      invariant seen == set e | e in entries[..i] :: (e.subject, e.attribute)
    {
      var e := entries[i];
      assert entries[..i + 1] == entries[..i] + [e];
      var identity := (e.subject, e.attribute);
      if Blank(e.attribute) || Blank(e.reason) { return false; }
      if identity in seen {
        var twin :| twin in entries[..i] && (twin.subject, twin.attribute) == identity;
        return false;
      }
      if e.production == e.fixture { return false; }
      seen := seen + {identity};
    }
    assert entries[..|entries|] == entries;
    ok := true;
  }

  /** `apply_allowlist`: 0 exactly when every difference has its entry and every entry its difference. */
  method ApplyAllowlist(ds: seq<Difference>, entries: seq<Entry>) returns (report: Report)
    ensures report.Refused? <==> !WellFormed(entries)
    ensures report.Report? ==>
      && (forall d :: d in report.unexplained <==> d in ds && forall e :: e in entries ==> !Explains(e, d))
      && (forall e :: e in report.stale <==> e in entries && forall d :: d in ds ==> !Explains(e, d))
      && report.exitCode <= 1 && (report.exitCode == 0 <==> Passes(ds, entries))
  {
    var ok := CheckEntries(entries);
    if !ok { return Refused; }
    hide Explains, WellFormed, Passes;
    var matched, unexplained := MatchAll(ds, entries);
    var stale: seq<Entry> := [];
    for i := 0 to |entries|
      invariant forall e :: e in stale <==> e in entries[..i] && forall d :: d in ds ==> !Explains(e, d)
    {
      assert entries[..i + 1] == entries[..i] + [entries[i]];
      if i !in matched { stale := stale + [entries[i]]; }
    }
    assert entries[..|entries|] == entries;
    ExitMeans(ds, entries, unexplained, stale);
    report := Report(if unexplained == [] && stale == [] then 0 else 1, stale, unexplained);
  }

  /** The entries some difference matches, by index, and the differences none matches. */
  method MatchAll(ds: seq<Difference>, entries: seq<Entry>) returns (matched: set<nat>, unexplained: seq<Difference>)
    requires WellFormed(entries)
    ensures forall i :: i in matched <==> 0 <= i < |entries| && exists d :: d in ds && Explains(entries[i], d)
    ensures forall d :: d in unexplained <==> d in ds && forall e :: e in entries ==> !Explains(e, d)
  {
    hide Explains, WellFormed;
    matched, unexplained := {}, [];
    for k := 0 to |ds|
      invariant forall i :: i in matched <==> 0 <= i < |entries| && exists d :: d in ds[..k] && Explains(entries[i], d)
      invariant forall d :: d in unexplained <==> d in ds[..k] && forall e :: e in entries ==> !Explains(e, d)
    {
      assert ds[..k + 1] == ds[..k] + [ds[k]];
      var i := FirstMatch(entries, ds[k]);
      if i < |entries| {
        OnlyOneMatch(entries, ds[k], i);
        matched := matched + {i};
      } else {
        unexplained := unexplained + [ds[k]];
      }
    }
    assert ds[..|ds|] == ds;
  }

  lemma ExitMeans(ds: seq<Difference>, entries: seq<Entry>, unexplained: seq<Difference>, stale: seq<Entry>)
    requires WellFormed(entries)
    requires forall d :: d in unexplained <==> d in ds && forall e :: e in entries ==> !Explains(e, d)
    requires forall e :: e in stale <==> e in entries && forall d :: d in ds ==> !Explains(e, d)
    ensures unexplained == [] && stale == [] <==> Passes(ds, entries)
  {
    hide Explains, WellFormed;
    if unexplained != [] { assert unexplained[0] in unexplained; }
    if stale != [] { assert stale[0] in stale; }
  }

  method FirstMatch(entries: seq<Entry>, d: Difference) returns (i: nat)
    ensures i <= |entries| && (i < |entries| ==> Explains(entries[i], d))
    ensures i == |entries| ==> forall e :: e in entries ==> !Explains(e, d)
  {
    i := 0;
    while i < |entries| && !Explains(entries[i], d)
      invariant i <= |entries| && forall j :: 0 <= j < i ==> !Explains(entries[j], d)
    {
      i := i + 1;
    }
  }

  lemma OnlyOneMatch(entries: seq<Entry>, d: Difference, i: nat)
    requires WellFormed(entries) && i < |entries| && Explains(entries[i], d)
    ensures forall j :: 0 <= j < |entries| && Explains(entries[j], d) ==> j == i
  {
  }

  /** An allowlist passes a list of differences. */
  ghost predicate Passes(ds: seq<Difference>, entries: seq<Entry>) {
    && WellFormed(entries)
    && (forall d :: d in ds ==> Explained(entries, d))
    && (forall e :: e in entries ==> Used(ds, e))
  }

  ghost predicate Explained(entries: seq<Entry>, d: Difference) { exists e :: e in entries && Explains(e, d) }

  ghost predicate Used(ds: seq<Difference>, e: Entry) { exists d :: d in ds && Explains(e, d) }

  function DifferenceIds(ds: seq<Difference>): seq<(ObjectKey, string)> {
    seq(|ds|, i requires 0 <= i < |ds| => (ds[i].subject, ds[i].attribute))
  }

  function EntryIds(entries: seq<Entry>): seq<(ObjectKey, string)> {
    seq(|entries|, i requires 0 <= i < |entries| => (entries[i].subject, entries[i].attribute))
  }

  /** A passing allowlist pairs entries and differences off one to one. */
  lemma PassingPairsOff(ds: seq<Difference>, entries: seq<Entry>)
    requires Passes(ds, entries) && Distinct(ds)
    ensures |ds| == |entries|
  {
    hide Explained, Used;
    var a, b := DifferenceIds(ds), EntryIds(entries);
    forall i | 0 <= i < |a| ensures a[i] in b {
      assert ds[i] in ds;
      ExplainedId(entries, ds[i]);
    }
    forall j | 0 <= j < |b| ensures b[j] in a {
      assert entries[j] in entries;
      UsedId(ds, entries[j]);
    }
    assert ToSet(a) == ToSet(b);
    DistinctCount(a);
    DistinctCount(b);
  }

  lemma ExplainedId(entries: seq<Entry>, d: Difference)
    requires Explained(entries, d)
    ensures (d.subject, d.attribute) in EntryIds(entries)
    ensures WellFormed(entries) ==> d.production != d.fixture
  {
    var e :| e in entries && Explains(e, d);
    var j :| 0 <= j < |entries| && entries[j] == e;
    assert EntryIds(entries)[j] == (d.subject, d.attribute);
  }

  lemma UsedId(ds: seq<Difference>, e: Entry)
    requires Used(ds, e)
    ensures (e.subject, e.attribute) in DifferenceIds(ds)
  {
    var d :| d in ds && Explains(e, d);
    var i :| 0 <= i < |ds| && ds[i] == d;
    assert DifferenceIds(ds)[i] == (e.subject, e.attribute);
  }

  /**
   * Some allowlist passes a list of differences exactly when the two sides of
   * each differ. A production object that is not ready but in the same state
   * as the fixture's can therefore never be allowed.
   */
  lemma ExplainableIff(ds: seq<Difference>)
    requires Distinct(ds) && forall d :: d in ds ==> !Blank(d.attribute)
    ensures (exists entries :: Passes(ds, entries)) <==> forall d :: d in ds ==> d.production != d.fixture
  {
    if entries :| Passes(ds, entries) { PassedDiffer(ds, entries); }
    if forall d :: d in ds ==> d.production != d.fixture {
      var entries := seq(|ds|, i requires 0 <= i < |ds| => EntryFor(ds[i]));
      EntriesPass(ds, entries);
    }
  }

  lemma PassedDiffer(ds: seq<Difference>, entries: seq<Entry>)
    requires Passes(ds, entries)
    ensures forall d :: d in ds ==> d.production != d.fixture
  {
    hide Explained, Used;
    forall d | d in ds ensures d.production != d.fixture { ExplainedId(entries, d); }
  }

  lemma EntriesPass(ds: seq<Difference>, entries: seq<Entry>)
    requires Distinct(ds) && forall d :: d in ds ==> !Blank(d.attribute) && d.production != d.fixture
    requires |entries| == |ds| && forall i :: 0 <= i < |ds| ==> entries[i] == EntryFor(ds[i])
    ensures Passes(ds, entries)
  {
    hide Blank;
    assert !Blank("reviewed") by { NotBlank(); }
    forall i | 0 <= i < |ds| ensures ds[i] in ds && entries[i] in entries && Explains(entries[i], ds[i]) {
    }
  }

  lemma NotBlank()
    ensures !Blank("reviewed")
  {
    assert "reviewed"[0] == 'r';
    assert 'r' in "reviewed";
  }

  function EntryFor(d: Difference): Entry {
    Entry(d.subject, d.attribute, d.production, d.fixture, "reviewed", true)
  }
}
