/**
 * One uncontended run of `archive_day` as a program over an object store, and
 * the restore drill of clickhouse/verify_archive_restore.py, which reads a
 * store that archivers may still be writing to.
 */
module RestoreDrill {
  import opened Common
  import opened Fingerprints
  import opened Archive

  datatype Failure =
    | UnknownDataset | BadPartSize | WrongPartCount | ParityMismatch | ObjectDiffers
    | PointerMissing | UnexpectedManifest | ManifestMissing | WrongSchema | IdentityMismatch | FingerprintsDiffer
    | NoColumns | PartOutside | PartMissing | HashMismatch | PartFingerprintMismatch | RestoredMismatch

  datatype Result<T> = Ok(value: T) | Err(failure: Failure)

  /** The archived datasets and the columns they have now. */
  type Datasets = map<string, Columns>

  datatype Archived = Archived(manifest: ManifestKey, skipped: bool)

  class ObjectStore {
    var files: map<PartKey, File>
    var manifests: map<ManifestKey, Manifest>
    var pointers: map<Day, Held>

    constructor ()
      ensures View() == EmptyStore
    {
      files, manifests, pointers := map[], map[], map[];
    }

    function View(): Store
      reads this
    {
      Store(files, manifests, pointers)
    }

    method PutFileIfAbsent(key: PartKey, file: File) returns (ok: bool)
      modifies this
      ensures (View(), ok) == PutFile(old(View()), key, file)
    {
      if key in files { return files[key] == file; }
      files := files[key := file];
      ok := true;
    }

    method PutJsonIfAbsent(key: ManifestKey, m: Manifest) returns (ok: bool)
      modifies this
      ensures (View(), ok) == PutManifest(old(View()), key, m)
    {
      if key in manifests { return manifests[key] == m; }
      manifests := manifests[key := m];
      ok := true;
    }

    /** With nobody between its read and its write: the write goes through. */
    method PutJsonPointer(day: Day, p: Pointer) returns (ok: bool)
      modifies this
      ensures ok && View() == PutPointer(old(View()), day, GenerationOf(old(pointers), day), p).0
    {
      var seen := GenerationOf(pointers, day);
      ok := GenerationOf(pointers, day) == seen;
      if ok { pointers := pointers[day := Held(p, seen + 1)]; }
    }

    /**
     * `archive_day` with nobody else writing: it refuses an unknown dataset,
     * skips a day already published, refuses files that are too many or too few
     * or do not add up to the source, and otherwise publishes exactly when no
     * object it needs is already there with other contents.
     */
    method ArchiveDay(measure: Measure, datasets: Datasets, day: Day, perPart: int, source: Source, exported: seq<File>,
        exportedAt: int) returns (r: Result<Archived>)
      requires forall d :: d in datasets ==> datasets[d] != []
      modifies this
      ensures var was := old(View());
        var skip := day in was.pointers && Matches(source, was.pointers[day].pointer.source);
        && Keeps(was, View())
        && (SoundStore(measure, was) ==> SoundStore(measure, View()))
        && (r.Err? ==> View().pointers == was.pointers && View().manifests == was.manifests)
        && (r == Err(BadPartSize) <==> perPart < 1)
        && (r == Err(UnknownDataset) <==> perPart >= 1 && day.dataset !in datasets)
        && (perPart >= 1 && day.dataset in datasets ==>
              var columns := datasets[day.dataset];
              var t := Task(Uploading(0), day, source, columns, exported, exportedAt);
              var counted := |exported| == PartCount(source.fingerprint.rows, perPart);
              var parity := source.fingerprint == Combined(Prints(measure, exported, columns));
              && (skip ==> r == Ok(Archived(was.pointers[day].pointer.manifest, true)) && View() == was)
              && (!skip && !counted ==> r == Err(WrongPartCount) && View() == was)
              && (!skip && counted && !parity ==> r == Err(ParityMismatch) && View() == was)
              && (!skip && counted && parity ==> (r.Ok? <==> NoConflict(measure, was, t)))
              && (!skip && counted && parity && r.Err? ==> r == Err(ObjectDiffers))
              && (!skip && r.Ok? ==> r.value == Archived(KeyOf(t), false) && Publishes(measure, was, View(), t)))
    {
      hide SoundTask, SoundStore, ManifestOf, Keeps, FilesFree, Prints, Combined;
      KeepsItself(View());
      if perPart < 1 { return Err(BadPartSize); }
      if day.dataset !in datasets { return Err(UnknownDataset); }
      if day in pointers && Matches(source, pointers[day].pointer.source) {
        return Ok(Archived(pointers[day].pointer.manifest, true));
      }
      if |exported| != PartCount(source.fingerprint.rows, perPart) { return Err(WrongPartCount); }
      var columns := datasets[day.dataset];
      var actual := CombineParts(Prints(measure, exported, columns));
      if source.fingerprint != actual { return Err(ParityMismatch); }
      var t := Task(Uploading(0), day, source, columns, exported, exportedAt);
      BeginIsSound(measure, View(), Begin(0, day, source, columns, exported, exportedAt));
      var failed := UploadParts(measure, t);
      if failed.Some? { return Err(failed.value); }
      ghost var full := View();
      failed := Publish(measure, t.(phase := Uploading(|exported|)));
      KeepsTwice(old(View()), full, View());
      SameManifest(measure, t);
      r := if failed.Some? then Err(failed.value) else Ok(Archived(KeyOf(t), false));
    }

    /** The manifest and then the pointer, once all parts are up. */
    method Publish(measure: Measure, t: Task) returns (failed: Option<Failure>)
      requires t.phase == Uploading(|t.files|) && SoundTask(measure, View(), t)
      modifies this
      ensures var was := old(View());
        && Keeps(was, View())
        && (SoundStore(measure, was) ==> SoundStore(measure, View()))
        && (failed.None? <==> KeyOf(t) in was.manifests ==> was.manifests[KeyOf(t)] == ManifestOf(measure, t))
        && (failed.None? ==> Publishes(measure, was, View(), t))
        && (failed.Some? ==> failed == Some(ObjectDiffers) && View() == was)
    {
      hide SoundTask, SoundStore, ManifestOf, Keeps;
      ghost var was := View();
      KeepsItself(was);
      var filed := PutJsonIfAbsent(KeyOf(t), ManifestOf(measure, t));
      if !filed { return Some(ObjectDiffers); }
      ghost var listed := View();
      assert listed == Advance(measure, was, t).0;
      var moved := PutJsonPointer(t.day, Pointer(KeyOf(t), t.source, t.exportedAt));
      ghost var seen := GenerationOf(listed.pointers, t.day);
      assert View() == Advance(measure, listed, t.(phase := Pointing(seen))).0;
      PublishSound(measure, was, t);
      failed := None;
    }

    method UploadParts(measure: Measure, t: Task) returns (failed: Option<Failure>)
      requires t.phase == Uploading(0) && SoundTask(measure, View(), t)
      modifies this
      ensures Keeps(old(View()), View())
      ensures View().pointers == old(View()).pointers && View().manifests == old(View()).manifests
      ensures SoundStore(measure, old(View())) ==> SoundStore(measure, View())
      ensures failed.None? <==> FilesFree(old(View()), KeyOf(t), t.files, |t.files|)
      ensures failed.Some? ==> failed == Some(ObjectDiffers)
      ensures failed.None? ==> SoundTask(measure, View(), t.(phase := Uploading(|t.files|)))
    {
      hide SoundTask, SoundStore, ManifestOf, Keeps;
      KeepsItself(View());
      for i := 0 to |t.files|
        invariant Keeps(old(View()), View())
        invariant pointers == old(pointers) && manifests == old(manifests)
        invariant FilesFree(old(View()), KeyOf(t), t.files, i)
        invariant forall j :: i <= j < |t.files| ==> var key := PartKeyOf(KeyOf(t), j, |t.files|);
          (key in files <==> key in old(files)) && (key in files ==> files[key] == old(files)[key])
        invariant SoundStore(measure, old(View())) ==> SoundStore(measure, View())
        invariant SoundTask(measure, View(), t.(phase := Uploading(i)))
      {
        ghost var before := View();
        var key := PartKeyOf(KeyOf(t), i, |t.files|);
        var ok := PutFileIfAbsent(key, t.files[i]);
        UploadKeeps(measure, old(View()), before, t.(phase := Uploading(i)));
        if !ok { return Some(ObjectDiffers); }
      }
      failed := None;
    }
  }

  /** The manifest of a task is filed and its pointer set; no other manifest or pointer is touched. */
  ghost predicate Publishes(measure: Measure, a: Store, b: Store, t: Task) {
    && b.manifests == a.manifests[KeyOf(t) := ManifestOf(measure, t)]
    && b.pointers.Keys == a.pointers.Keys + {t.day}
    && b.pointers[t.day].pointer == Pointer(KeyOf(t), t.source, t.exportedAt)
    && (forall day :: day in a.pointers && day != t.day ==> b.pointers[day] == a.pointers[day])
  }

  lemma PublishSound(measure: Measure, s: Store, t: Task)
    requires SoundTask(measure, s, t) && t.phase == Uploading(|t.files|) && Advance(measure, s, t).1.phase == Published
    ensures var listed := Advance(measure, s, t).0;
      var seen := GenerationOf(listed.pointers, t.day);
      var done := Advance(measure, listed, t.(phase := Pointing(seen))).0;
      Keeps(s, done) && (SoundStore(measure, s) ==> SoundStore(measure, done))
  {
    hide SoundStore, SoundTask, ManifestOf;
    if SoundStore(measure, s) {
      AdvanceSound(measure, s, t);
      var (listed, t1) := Advance(measure, s, t);
      AdvanceSound(measure, listed, t1);
      var (same, t2) := Advance(measure, listed, t1);
      AdvanceSound(measure, same, t2);
    }
  }

  lemma KeepsTwice(a: Store, b: Store, c: Store)
    requires Keeps(a, b) && Keeps(b, c)
    ensures Keeps(a, c)
  {
  }

  lemma KeepsItself(s: Store)
    ensures Keeps(s, s)
  {
  }

  /** One upload, seen from the store the run began with. */
  lemma UploadKeeps(measure: Measure, start: Store, s: Store, t: Task)
    requires Keeps(start, s) && SoundTask(measure, s, t) && t.phase.Uploading? && t.phase.uploaded < |t.files|
    ensures var key := PartKeyOf(KeyOf(t), t.phase.uploaded, |t.files|);
      var (s', ok) := PutFile(s, key, t.files[t.phase.uploaded]);
      && Keeps(start, s') && (SoundStore(measure, s) ==> SoundStore(measure, s'))
      && (ok ==> SoundTask(measure, s', t.(phase := Uploading(t.phase.uploaded + 1))))
  {
    hide SoundStore;
    if SoundStore(measure, s) { UploadSound(measure, s, t); }
  }

  /** The first `n` part objects are absent or already hold the same file. */
  ghost predicate FilesFree(s: Store, key: ManifestKey, files: seq<File>, n: nat)
    requires n <= |files|
  {
    forall i :: 0 <= i < n ==>
      var part := PartKeyOf(key, i, |files|); part in s.files ==> s.files[part] == files[i]
  }

  ghost predicate NoConflict(measure: Measure, s: Store, t: Task) {
    && FilesFree(s, KeyOf(t), t.files, |t.files|)
    && (KeyOf(t) in s.manifests ==> s.manifests[KeyOf(t)] == ManifestOf(measure, t))
  }

  // --- the drill

  datatype Restored = Restored(day: Day, rows: nat, parts: nat, revision: Print)

  /** The store as the drill's successive reads find it: first the pointer, then the manifest, then part after part. */
  type View = nat -> Store

  /** What a manifest's parts are measured over: the columns it records, or else those of today. */
  function ColumnsOf(datasets: Datasets, m: Manifest): Columns
    requires m.day.dataset in datasets
  {
    if m.columns.Some? then m.columns.value else datasets[m.day.dataset]
  }

  /** What the drill asks of what it reads. */
  ghost predicate Restorable(measure: Measure, datasets: Datasets, view: View, day: Day) {
    && day.dataset in datasets && day in view(0).pointers
    && var p := view(0).pointers[day].pointer;
    && p.manifest.day == day && p.manifest in view(1).manifests
    && var m := view(1).manifests[p.manifest];
    && m.schema == SchemaVersion && m.day == day && Matches(m.source, p.source) && m.columns != Some([])
    && (forall i :: 0 <= i < |m.parts| ==> Restores(measure, view(2 + i), day, ColumnsOf(datasets, m), m.parts[i]))
    && Combined(seq(|m.parts|, i requires 0 <= i < |m.parts| => m.parts[i].fingerprint)) == m.source.fingerprint
  }

  ghost predicate Restores(measure: Measure, s: Store, day: Day, columns: Columns, part: PartEntry) {
    && part.key.day == day && part.key in s.files && s.files[part.key] == part.sha256
    && measure(part.sha256, columns) == part.fingerprint
  }

  /**
   * `verify_archived_day`: it stops at the first thing that does not hold and
   * succeeds exactly on what is restorable.
   */
  method VerifyArchivedDay(measure: Measure, datasets: Datasets, view: View, day: Day) returns (r: Result<Restored>)
    ensures r.Ok? <==> Restorable(measure, datasets, view, day)
    ensures r.Ok? ==> var m := view(1).manifests[view(0).pointers[day].pointer.manifest];
      r.value == Restored(day, m.source.fingerprint.rows, |m.parts|, m.revision)
  {
    if day.dataset !in datasets { return Err(UnknownDataset); }
    var found := PointerOf(view(0), day);
    if found.None? { return Err(PointerMissing); }
    var pointer := found.value;
    if pointer.manifest.day != day { return Err(UnexpectedManifest); }
    if pointer.manifest !in view(1).manifests { return Err(ManifestMissing); }
    var m := view(1).manifests[pointer.manifest];
    if m.schema != SchemaVersion { return Err(WrongSchema); }
    if m.day != day { return Err(IdentityMismatch); }
    if !Matches(m.source, pointer.source) { return Err(FingerprintsDiffer); }
    if m.columns == Some([]) { return Err(NoColumns); }
    var columns := ColumnsOf(datasets, m);
    var verified: seq<Print> := [];
    for i := 0 to |m.parts|
      invariant |verified| == i
      invariant forall j :: 0 <= j < i ==>
        verified[j] == m.parts[j].fingerprint && Restores(measure, view(2 + j), day, columns, m.parts[j])
    {
      var part := m.parts[i];
      if part.key.day != day { return Err(PartOutside); }
      if part.key !in view(2 + i).files { return Err(PartMissing); }
      var file := view(2 + i).files[part.key];
      if file != part.sha256 { return Err(HashMismatch); }
      var measured := measure(file, columns);
      if measured != part.fingerprint { return Err(PartFingerprintMismatch); }
      verified := verified + [measured];
    }
    assert verified == seq(|m.parts|, i requires 0 <= i < |m.parts| => m.parts[i].fingerprint);
    var restored := CombineParts(verified);
    if restored != m.source.fingerprint { return Err(RestoredMismatch); }
    r := Ok(Restored(day, m.source.fingerprint.rows, |verified|, m.revision));
  }

  /** Reads taken one after another along a run of archivers. */
  ghost predicate ReadsAlong(measure: Measure, ops: seq<Op>, at: seq<nat>, view: View) {
    && (forall i :: 0 <= i < |at| ==> at[i] <= |ops| && view(i) == Run(measure, ops[..at[i]]).store)
    && (forall i, j :: 0 <= i < j < |at| ==> at[i] <= at[j])
  }

  lemma LaterKeeps(measure: Measure, ops: seq<Op>, i: nat, j: nat)
    requires i <= j <= |ops|
    ensures Keeps(Run(measure, ops[..i]).store, Run(measure, ops[..j]).store)
  {
    RunOnlyGrows(measure, ops[..j], i);
    assert ops[..j][..i] == ops[..i];
  }

  /**
   * The drill accepts every published pointer of an archived dataset, however
   * archivers run, stop and overtake it, and whatever columns the dataset has by
   * then: each of its reads may come at any later point of the run.
   */
  lemma DrillAcceptsEveryPointer(measure: Measure, datasets: Datasets, ops: seq<Op>, at: seq<nat>, view: View, day: Day)
    requires |at| >= 2 && ReadsAlong(measure, ops, at, view)
    requires day.dataset in datasets && day in view(0).pointers
    requires var key := view(0).pointers[day].pointer.manifest;
      key in view(1).manifests ==> |at| >= 2 + |view(1).manifests[key].parts|
    ensures Restorable(measure, datasets, view, day)
  {
    hide Run, Combined;
    var s, p := view(0), view(0).pointers[day].pointer;
    PointerIsRestorable(measure, ops[..at[0]], day);
    LaterKeeps(measure, ops, at[0], at[1]);
    var m := s.manifests[p.manifest];
    assert view(1).manifests[p.manifest] == m;
    forall i | 0 <= i < |m.parts| ensures Restores(measure, view(2 + i), day, ColumnsOf(datasets, m), m.parts[i]) {
      assert at[0] <= at[2 + i];
      assert view(2 + i) == Run(measure, ops[..at[2 + i]]).store;
      LaterKeeps(measure, ops, at[0], at[2 + i]);
      assert SoundPart(measure, s, m, m.parts[i]);
    }
  }

  /** What `ArchiveDay` leaves of a sound store passes the drill for every published day of an archived dataset. */
  lemma SoundIsRestorable(measure: Measure, datasets: Datasets, s: Store, day: Day)
    requires SoundStore(measure, s) && day.dataset in datasets && day in s.pointers
    ensures Restorable(measure, datasets, _ => s, day)
  {
    hide Combined;
    var m := s.manifests[s.pointers[day].pointer.manifest];
    assert SoundPointer(s, day, s.pointers[day].pointer)
      && SoundManifest(measure, s, s.pointers[day].pointer.manifest, m);
    forall i | 0 <= i < |m.parts| ensures Restores(measure, s, day, ColumnsOf(datasets, m), m.parts[i]) {
      assert SoundPart(measure, s, m, m.parts[i]);
    }
  }
}
