/**
 * The publish protocol of clickhouse/archive_daily.py: part files, then a
 * manifest, then the pointer, by any number of archivers of any datasets and
 * days that may stop at any step. Objects are created once and never replaced;
 * only pointers move. A file stands for its own SHA-256.
 */
module Archive {
  import opened Common
  import opened Fingerprints

  type Columns = seq<string>

  datatype File = File(bytes: seq<int>)

  /** What fingerprinting a Parquet file over a list of columns yields. */
  type Measure = (File, Columns) -> Print

  /** `SourceFingerprint`: only the fingerprint proper is ever compared. */
  datatype Source = Source(fingerprint: Print, earliest: Option<string>, latest: Option<string>)

  predicate Matches(a: Source, b: Source) { a.fingerprint == b.fingerprint }

  /** What a prefix `raw/<dataset>/day=<date>` spells out. */
  datatype Day = Day(dataset: string, date: int)

  /** `part-<index>-of-<count>` under the prefix of a revision; the revision spells out the fingerprint. */
  datatype PartKey = PartKey(day: Day, revision: Print, index: nat, count: nat)

  datatype ManifestKey = ManifestKey(day: Day, revision: Print)

  const SchemaVersion := 1

  datatype PartEntry = PartEntry(key: PartKey, fingerprint: Print, sha256: File)

  /** An archiver records the columns it exported; a manifest older than that field has none. */
  datatype Manifest = Manifest(
    schema: int,
    day: Day,
    revision: Print,
    exportedAt: int,
    source: Source,
    columns: Option<Columns>,
    parts: seq<PartEntry>)

  datatype Pointer = Pointer(manifest: ManifestKey, source: Source, updatedAt: int)

  /** A stored pointer and the generation the object store gives it. */
  datatype Held = Held(pointer: Pointer, generation: nat)

  datatype Store = Store(
    files: map<PartKey, File>,
    manifests: map<ManifestKey, Manifest>,
    pointers: map<Day, Held>)

  const EmptyStore := Store(map[], map[], map[])

  function PointerOf(s: Store, day: Day): Option<Pointer> {
    if day in s.pointers then Some(s.pointers[day].pointer) else None
  }

  /** An absent object is of generation 0. */
  function GenerationOf(pointers: map<Day, Held>, day: Day): nat {
    if day in pointers then pointers[day].generation else 0
  }

  // --- the three put operations

  /** Create if absent; an object already there must hold the same. */
  function PutFile(s: Store, key: PartKey, file: File): (r: (Store, bool)) {
    if key in s.files then (s, s.files[key] == file) else (s.(files := s.files[key := file]), true)
  }

  function PutManifest(s: Store, key: ManifestKey, m: Manifest): (r: (Store, bool)) {
    if key in s.manifests then (s, s.manifests[key] == m) else (s.(manifests := s.manifests[key := m]), true)
  }

  /** Replace a pointer if nobody has since its generation was read. */
  function PutPointer(s: Store, day: Day, seen: nat, p: Pointer): (r: (Store, bool)) {
    if GenerationOf(s.pointers, day) == seen then (s.(pointers := s.pointers[day := Held(p, seen + 1)]), true)
    else (s, false)
  }

  // --- archivers

  datatype Phase = Idle | Uploading(uploaded: nat) | Published | Pointing(seen: nat)

  /** One run of `archive_day` past its parity check. */
  datatype Task = Task(
    phase: Phase,
    day: Day,
    source: Source,
    columns: Columns,
    files: seq<File>,
    exportedAt: int)

  const NoTask := Task(Idle, Day("", 0), Source(Nothing, None, None), [], [], 0)

  /** Where a task files its manifest. */
  function KeyOf(t: Task): ManifestKey { ManifestKey(t.day, t.source.fingerprint) }

  function PartKeyOf(key: ManifestKey, index: nat, count: nat): PartKey {
    PartKey(key.day, key.revision, index, count)
  }

  function Prints(measure: Measure, files: seq<File>, columns: Columns): (prints: seq<Print>)
    ensures |prints| == |files|
  {
    seq(|files|, i requires 0 <= i < |files| => measure(files[i], columns))
  }

  function Entries(measure: Measure, key: ManifestKey, files: seq<File>, columns: Columns): (entries: seq<PartEntry>)
    ensures |entries| == |files|
    ensures forall i :: 0 <= i < |files| ==>
      entries[i] == PartEntry(PartKeyOf(key, i, |files|), measure(files[i], columns), files[i])
  {
    seq(|files|, i requires 0 <= i < |files| =>
      PartEntry(PartKeyOf(key, i, |files|), measure(files[i], columns), files[i]))
  }

  function ManifestOf(measure: Measure, t: Task): Manifest {
    Manifest(SchemaVersion, t.day, t.source.fingerprint, t.exportedAt, t.source, Some(t.columns),
             Entries(measure, KeyOf(t), t.files, t.columns))
  }

  datatype World = World(store: Store, tasks: map<nat, Task>)

  const Start := World(EmptyStore, map[])

  datatype Op =
    | Begin(who: nat, day: Day, source: Source, columns: Columns, files: seq<File>, exportedAt: int)
    | Step(who: nat)
    | Crash(who: nat)

  function TaskOf(w: World, who: nat): Task {
    if who in w.tasks then w.tasks[who] else NoTask
  }

  /** Whether `archive_day` goes on after reading the pointer, exporting and verifying. */
  predicate Proceeds(measure: Measure, s: Store, op: Op)
    requires op.Begin?
  {
    && !(op.day in s.pointers && Matches(op.source, s.pointers[op.day].pointer.source))
    && op.source.fingerprint == Combined(Prints(measure, op.files, op.columns))
  }

  /** The next thing a task does; a refused put ends it. */
  function Advance(measure: Measure, s: Store, t: Task): (Store, Task) {
    match t.phase
    case Idle => (s, t)
    case Uploading(i) =>
      if i < |t.files| then
        var (s', ok) := PutFile(s, PartKeyOf(KeyOf(t), i, |t.files|), t.files[i]);
        (s', if ok then t.(phase := Uploading(i + 1)) else NoTask)
      else
        var (s', ok) := PutManifest(s, KeyOf(t), ManifestOf(measure, t));
        (s', if ok then t.(phase := Published) else NoTask)
    case Published => (s, t.(phase := Pointing(GenerationOf(s.pointers, t.day))))
    case Pointing(seen) => (PutPointer(s, t.day, seen, Pointer(KeyOf(t), t.source, t.exportedAt)).0, NoTask)
  }

  function Next(measure: Measure, w: World, op: Op): World {
    match op
    case Begin(who, day, source, columns, files, exportedAt) =>
      if columns != [] && Proceeds(measure, w.store, op)
      then w.(tasks := w.tasks[who := Task(Uploading(0), day, source, columns, files, exportedAt)])
      else w.(tasks := w.tasks[who := NoTask])
    case Step(who) =>
      var (s, t) := Advance(measure, w.store, TaskOf(w, who));
      World(s, w.tasks[who := t])
    case Crash(who) => w.(tasks := w.tasks[who := NoTask])
  }

  function Run(measure: Measure, ops: seq<Op>): World {
    if ops == [] then Start else Next(measure, Run(measure, ops[..|ops| - 1]), ops[|ops| - 1])
  }

  // --- what is never undone

  /** Files and manifests of `a` are in `b`, unchanged, and what was pointed to is so still. */
  ghost predicate Keeps(a: Store, b: Store) {
    && (forall k :: k in a.files ==> k in b.files && b.files[k] == a.files[k])
    && (forall k :: k in a.manifests ==> k in b.manifests && b.manifests[k] == a.manifests[k])
    && a.pointers.Keys <= b.pointers.Keys
  }

  lemma StepKeeps(measure: Measure, w: World, op: Op)
    ensures Keeps(w.store, Next(measure, w, op).store)
  {
  }

  /** Whatever a run has stored, every later state still holds. */
  lemma {:induction false} RunOnlyGrows(measure: Measure, ops: seq<Op>, n: nat)
    requires n <= |ops|
    ensures Keeps(Run(measure, ops[..n]).store, Run(measure, ops).store)
    decreases |ops|
  {
    if n < |ops| {
      var m := |ops| - 1;
      RunOnlyGrows(measure, ops[..m], n);
      assert ops[..m][..n] == ops[..n];
      StepKeeps(measure, Run(measure, ops[..m]), ops[m]);
    } else {
      assert ops[..n] == ops;
    }
  }

  // --- what a published revision guarantees

  /** A stored manifest: filed under its fingerprint, every part stored with the recorded hash, the parts adding up. */
  ghost predicate SoundManifest(measure: Measure, s: Store, key: ManifestKey, m: Manifest) {
    && m.schema == SchemaVersion && m.day == key.day && m.revision == m.source.fingerprint == key.revision
    && m.columns.Some? && m.columns.value != []
    && (forall i :: 0 <= i < |m.parts| ==> SoundPart(measure, s, m, m.parts[i]))
    && Combined(seq(|m.parts|, i requires 0 <= i < |m.parts| => m.parts[i].fingerprint)) == key.revision
  }

  ghost predicate SoundPart(measure: Measure, s: Store, m: Manifest, p: PartEntry)
    requires m.columns.Some?
  {
    && p.key.day == m.day && p.key.revision == m.revision
    && p.key in s.files && s.files[p.key] == p.sha256
    && measure(p.sha256, m.columns.value) == p.fingerprint
  }

  ghost predicate SoundTask(measure: Measure, s: Store, t: Task) {
    && (!t.phase.Idle? ==> t.columns != [] && t.source.fingerprint == Combined(Prints(measure, t.files, t.columns)))
    && (forall i :: 0 <= i < Uploaded(t) ==>
          var key := PartKeyOf(KeyOf(t), i, |t.files|); key in s.files && s.files[key] == t.files[i])
    && (t.phase.Published? || t.phase.Pointing? ==>
          KeyOf(t) in s.manifests && s.manifests[KeyOf(t)] == ManifestOf(measure, t))
  }

  function Uploaded(t: Task): (n: nat)
    ensures n <= |t.files|
  {
    match t.phase
    case Idle => 0
    case Uploading(i) => if i < |t.files| then i else |t.files|
    case _ => |t.files|
  }

  ghost predicate SoundStore(measure: Measure, s: Store) {
    && (forall k :: k in s.manifests ==> SoundManifest(measure, s, k, s.manifests[k]))
    && (forall day :: day in s.pointers ==> SoundPointer(s, day, s.pointers[day].pointer))
  }

  /** A pointer names a stored manifest of its own day and fingerprint. */
  ghost predicate SoundPointer(s: Store, day: Day, p: Pointer) {
    p.manifest.day == day && p.manifest in s.manifests && Matches(s.manifests[p.manifest].source, p.source)
  }

  ghost predicate Inv(measure: Measure, w: World) {
    SoundStore(measure, w.store) && forall who :: who in w.tasks ==> SoundTask(measure, w.store, w.tasks[who])
  }

  lemma TaskStaysSound(measure: Measure, a: Store, b: Store, t: Task)
    requires SoundTask(measure, a, t) && Keeps(a, b)
    ensures SoundTask(measure, b, t)
  {
  }

  lemma ManifestStaysSound(measure: Measure, a: Store, b: Store, key: ManifestKey, m: Manifest)
    requires SoundManifest(measure, a, key, m) && Keeps(a, b)
    ensures SoundManifest(measure, b, key, m)
  {
  }

  /** The manifest a task is about to file is sound once all its parts are up. */
  lemma TaskManifestSound(measure: Measure, s: Store, t: Task)
    requires SoundTask(measure, s, t) && !t.phase.Idle? && Uploaded(t) == |t.files|
    ensures SoundManifest(measure, s, KeyOf(t), ManifestOf(measure, t))
  {
    var m := ManifestOf(measure, t);
    assert seq(|m.parts|, i requires 0 <= i < |m.parts| => m.parts[i].fingerprint) ==
      Prints(measure, t.files, t.columns);
  }

  lemma UploadSound(measure: Measure, s: Store, t: Task)
    requires SoundStore(measure, s) && SoundTask(measure, s, t) && t.phase.Uploading? && t.phase.uploaded < |t.files|
    ensures var (s', t') := Advance(measure, s, t);
      SoundStore(measure, s') && SoundTask(measure, s', t')
  {
    hide SoundManifest, ManifestOf, Prints, Combined;
    var (s', t') := Advance(measure, s, t);
    forall k | k in s.manifests ensures SoundManifest(measure, s', k, s.manifests[k]) {
      ManifestStaysSound(measure, s, s', k, s.manifests[k]);
    }
  }

  lemma FilingSound(measure: Measure, s: Store, t: Task)
    requires SoundStore(measure, s) && SoundTask(measure, s, t) && t.phase.Uploading? && t.phase.uploaded >= |t.files|
    ensures var (s', t') := Advance(measure, s, t);
      SoundStore(measure, s') && SoundTask(measure, s', t')
  {
    hide SoundManifest, ManifestOf, Prints, Combined;
    var (s', t') := Advance(measure, s, t);
    TaskManifestSound(measure, s, t);
    ManifestStaysSound(measure, s, s', KeyOf(t), ManifestOf(measure, t));
    assert ManifestOf(measure, t.(phase := Published)) == ManifestOf(measure, t) by { SameManifest(measure, t); }
    forall k | k in s.manifests ensures SoundManifest(measure, s', k, s.manifests[k]) {
      ManifestStaysSound(measure, s, s', k, s.manifests[k]);
    }
  }

  lemma SameManifest(measure: Measure, t: Task)
    ensures forall phase :: ManifestOf(measure, t.(phase := phase)) == ManifestOf(measure, t)
  {
  }

  lemma PointingSound(measure: Measure, s: Store, t: Task)
    requires SoundStore(measure, s) && SoundTask(measure, s, t) && (t.phase.Published? || t.phase.Pointing?)
    ensures var (s', t') := Advance(measure, s, t);
      SoundStore(measure, s') && SoundTask(measure, s', t')
  {
    hide SoundManifest, Prints, Combined;
    var (s', t') := Advance(measure, s, t);
    SameManifest(measure, t);
    forall k | k in s.manifests ensures SoundManifest(measure, s', k, s.manifests[k]) {
      ManifestStaysSound(measure, s, s', k, s.manifests[k]);
    }
  }

  lemma AdvanceSound(measure: Measure, s: Store, t: Task)
    requires SoundStore(measure, s) && SoundTask(measure, s, t)
    ensures var (s', t') := Advance(measure, s, t);
      Keeps(s, s') && SoundStore(measure, s') && SoundTask(measure, s', t')
  {
    hide SoundStore, SoundTask, ManifestOf;
    match t.phase
    case Idle =>
    case Uploading(i) =>
      if i < |t.files| { UploadSound(measure, s, t); } else { FilingSound(measure, s, t); }
    case _ => PointingSound(measure, s, t);
  }

  lemma {:induction false} RunIsSound(measure: Measure, ops: seq<Op>)
    ensures Inv(measure, Run(measure, ops))
  {
    hide SoundStore, SoundTask, Advance, Keeps;
    if ops == [] {
      assert SoundStore(measure, EmptyStore) by { EmptyIsSound(measure); }
    } else {
      var w, op := Run(measure, ops[..|ops| - 1]), ops[|ops| - 1];
      RunIsSound(measure, ops[..|ops| - 1]);
      var x := Next(measure, w, op);
      NoTaskIsSound(measure, w.store);
      StepKeeps(measure, w, op);
      if op.Step? { AdvanceSound(measure, w.store, TaskOf(w, op.who)); }
      if op.Begin? && op.columns != [] && Proceeds(measure, w.store, op) { BeginIsSound(measure, w.store, op); }
      forall who | who in x.tasks ensures SoundTask(measure, x.store, x.tasks[who]) {
        if who in w.tasks { TaskStaysSound(measure, w.store, x.store, w.tasks[who]); }
      }
    }
  }

  lemma EmptyIsSound(measure: Measure)
    ensures SoundStore(measure, EmptyStore)
  {
  }

  lemma NoTaskIsSound(measure: Measure, s: Store)
    ensures SoundTask(measure, s, NoTask)
  {
  }

  lemma BeginIsSound(measure: Measure, s: Store, op: Op)
    requires op.Begin? && op.columns != [] && Proceeds(measure, s, op)
    ensures SoundTask(measure, s, Task(Uploading(0), op.day, op.source, op.columns, op.files, op.exportedAt))
  {
  }

  /**
   * In every run, whatever archivers share the store and wherever they stop, a
   * pointer names a stored manifest of its day and fingerprint, and that
   * manifest's parts are all stored as recorded and combine to it.
   */
  lemma PointerIsRestorable(measure: Measure, ops: seq<Op>, day: Day)
    ensures var s := Run(measure, ops).store;
      day in s.pointers ==>
        var p := s.pointers[day].pointer;
        && p.manifest in s.manifests && SoundManifest(measure, s, p.manifest, s.manifests[p.manifest])
        && p.manifest == ManifestKey(day, p.source.fingerprint)
        && s.manifests[p.manifest].source.fingerprint == p.source.fingerprint
  {
    RunIsSound(measure, ops);
  }

  // --- the pointer's compare-and-set

  /** A generation never falls, and while it stays the pointer stays. */
  ghost predicate Onward(a: Store, b: Store, day: Day) {
    && GenerationOf(a.pointers, day) <= GenerationOf(b.pointers, day)
    && (GenerationOf(a.pointers, day) == GenerationOf(b.pointers, day) ==> PointerOf(a, day) == PointerOf(b, day))
  }

  ghost predicate Numbered(s: Store) { forall day :: day in s.pointers ==> s.pointers[day].generation > 0 }

  lemma StepOnward(measure: Measure, w: World, op: Op, day: Day)
    requires Numbered(w.store)
    ensures Numbered(Next(measure, w, op).store) && Onward(w.store, Next(measure, w, op).store, day)
  {
  }

  lemma {:induction false} RunNumbered(measure: Measure, ops: seq<Op>)
    ensures Numbered(Run(measure, ops).store)
  {
    hide Next, Numbered;
    if ops == [] {
      NothingNumbered();
    } else {
      RunNumbered(measure, ops[..|ops| - 1]);
      StepOnward(measure, Run(measure, ops[..|ops| - 1]), ops[|ops| - 1], NoTask.day);
    }
  }

  lemma NothingNumbered()
    ensures Numbered(EmptyStore)
  {
  }

  lemma {:induction false} RunOnward(measure: Measure, ops: seq<Op>, n: nat, day: Day)
    requires n <= |ops|
    ensures Onward(Run(measure, ops[..n]).store, Run(measure, ops).store, day)
    decreases |ops|
  {
    hide Next, Numbered;
    if n < |ops| {
      var m := |ops| - 1;
      RunOnward(measure, ops[..m], n, day);
      assert ops[..m][..n] == ops[..n];
      RunNumbered(measure, ops[..m]);
      StepOnward(measure, Run(measure, ops[..m]), ops[m], day);
    } else {
      assert ops[..n] == ops;
    }
  }

  /**
   * Whatever other archivers do between an archiver's read of the generation
   * and its write: the write goes through exactly if the pointer is still the
   * one it read, and otherwise the pointer stays as others left it.
   */
  lemma PointerMovesOnlyIfUnmoved(measure: Measure, ops: seq<Op>, n: nat, t: Task)
    requires n <= |ops|
    requires t.phase == Pointing(GenerationOf(Run(measure, ops[..n]).store.pointers, t.day))
    ensures var read, found := Run(measure, ops[..n]).store, Run(measure, ops).store;
      var x := Advance(measure, found, t).0;
      && (PointerOf(x, t.day) == Some(Pointer(KeyOf(t), t.source, t.exportedAt))
          || PointerOf(x, t.day) == PointerOf(found, t.day))
      && (GenerationOf(found.pointers, t.day) == GenerationOf(read.pointers, t.day) ==>
            && PointerOf(found, t.day) == PointerOf(read, t.day)
            && PointerOf(x, t.day) == Some(Pointer(KeyOf(t), t.source, t.exportedAt))
            && GenerationOf(x.pointers, t.day) > GenerationOf(found.pointers, t.day))
      && (GenerationOf(found.pointers, t.day) != GenerationOf(read.pointers, t.day) ==> x == found)
  {
    RunOnward(measure, ops, n, t.day);
  }

  // --- an archiver nobody disturbs

  function Advanced(measure: Measure, s: Store, t: Task, steps: nat): (Store, Task)
    decreases steps
  {
    if steps == 0 then (s, t) else
    var (s', t') := Advance(measure, s, t);
    Advanced(measure, s', t', steps - 1)
  }

  /** Left alone from its last upload on, it files its manifest, reads the generation and sets the pointer. */
  lemma LeftAlone(measure: Measure, s: Store, t: Task)
    requires t.phase == Uploading(|t.files|)
    requires KeyOf(t) in s.manifests ==> s.manifests[KeyOf(t)] == ManifestOf(measure, t)
    ensures var x := Advanced(measure, s, t, 3).0;
      && x.manifests == s.manifests[KeyOf(t) := ManifestOf(measure, t)] && x.files == s.files
      && PointerOf(x, t.day) == Some(Pointer(KeyOf(t), t.source, t.exportedAt))
  {
    hide ManifestOf;
    var (s1, t1) := Advance(measure, s, t);
    var (s2, t2) := Advance(measure, s1, t1);
    var (s3, t3) := Advance(measure, s2, t2);
    assert Advanced(measure, s2, t2, 1) == Advanced(measure, s3, t3, 0);
    assert Advanced(measure, s1, t1, 2) == Advanced(measure, s2, t2, 1);
  }

  /** As many steps as it has files, and three more, complete it if no object is in its way. */
  lemma {:induction false} UndisturbedCompletes(measure: Measure, s: Store, t: Task, i: nat)
    requires i <= |t.files| && t.phase == Uploading(i)
    requires forall j :: i <= j < |t.files| ==>
      var key := PartKeyOf(KeyOf(t), j, |t.files|); key in s.files ==> s.files[key] == t.files[j]
    requires KeyOf(t) in s.manifests ==> s.manifests[KeyOf(t)] == ManifestOf(measure, t)
    ensures var x := Advanced(measure, s, t, |t.files| - i + 3).0;
      && x.manifests == s.manifests[KeyOf(t) := ManifestOf(measure, t)]
      && PointerOf(x, t.day) == Some(Pointer(KeyOf(t), t.source, t.exportedAt))
      && (forall k :: k in s.files ==> k in x.files && x.files[k] == s.files[k])
      && forall j :: i <= j < |t.files| ==>
           var key := PartKeyOf(KeyOf(t), j, |t.files|); key in x.files && x.files[key] == t.files[j]
    decreases |t.files| - i
  {
    hide ManifestOf;
    SameManifest(measure, t);
    if i == |t.files| {
      LeftAlone(measure, s, t);
    } else {
      var (s', t') := Advance(measure, s, t);
      assert t' == t.(phase := Uploading(i + 1));
      UndisturbedCompletes(measure, s', t', i + 1);
    }
  }

  /**
   * A rerun need not complete. An archiver that stops between its manifest and
   * the pointer leaves a manifest carrying its own export time; one that comes
   * later with the same rows is refused, and the day stays without a pointer.
   */
  lemma LateRerunIsRefused(measure: Measure, day: Day, first: int, second: int)
    requires first != second
    ensures var source := Source(Nothing, None, None);
      var w1 := Next(measure, Next(measure, Start, Begin(0, day, source, ["id"], [], first)), Step(0));
      var w2 := Next(measure, Next(measure, w1, Crash(0)), Begin(1, day, source, ["id"], [], second));
      var w3 := Next(measure, w2, Step(1));
      TaskOf(w2, 1).phase == Uploading(0) && TaskOf(w3, 1) == NoTask && day !in w3.store.pointers
  {
    assert Prints(measure, [], ["id"]) == [];
  }
}
