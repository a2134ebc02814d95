/** The loops that create, verify, stage and activate a backup, over trees updated in place. */
module BackupRestoreHost {
  import opened Common
  import opened BackupRestore
  import RelativePath

  /** The first pass of `_verify_file_records`: valid records under distinct paths, as a set of paths. */
  method CollectRecords(files: seq<FileRecord>) returns (expected: Option<set<string>>)
    ensures expected.Some? <==> (forall r | r in files :: RecordValid(r)) && Distinct(files)
    ensures expected.Some? ==> expected.value == Paths(files)
  {
    var seen: set<string> := {};
    for i := 0 to |files|
      invariant forall r | r in files[..i] :: RecordValid(r)
      invariant Distinct(files[..i]) && seen == Paths(files[..i])
    {
      if !RecordValid(files[i]) {
        assert files[i] in files;
        return None;
      }
      if files[i].path in seen {
        return None;
      }
      assert files[..i + 1] == files[..i] + [files[i]];
      forall j, k | 0 <= j < k < i + 1
        ensures files[j].path != files[k].path
      {
        assert files[..i][j] in files[..i];
        assert k < i ==> files[..i][j].path != files[..i][k].path;
      }
      seen := seen + {files[i].path};
    }
    assert files[..|files|] == files;
    expected := Some(seen);
  }

  /** The second pass: every recorded file is there as recorded. */
  method CompareFiles(b: Backup) returns (ok: bool)
    ensures ok <==> forall r | r in b.manifest.files :: r.path in b.files && Matches(b.files[r.path], r)
  {
    var files := b.manifest.files;
    for i := 0 to |files|
      invariant forall r | r in files[..i] :: r.path in b.files && Matches(b.files[r.path], r)
    {
      if files[i].path !in b.files || !Matches(b.files[files[i].path], files[i]) {
        assert files[i] in files;
        return false;
      }
      assert files[..i + 1] == files[..i] + [files[i]];
    }
    assert files[..|files|] == files;
    ok := true;
  }

  /** `_verify_file_records`. */
  method VerifyFileRecords(b: Backup) returns (ok: bool)
    ensures ok <==> FilesVerified(b)
  {
    var expected := CollectRecords(b.manifest.files);
    if expected.None? || b.files.Keys != expected.value {
      return false;
    }
    ok := CompareFiles(b);
  }

  /** `verify_backup`, with the outcome of the runtime, handoff and state checks. */
  method VerifyBackup(b: Backup, digest: ManifestDigest, identity: bool) returns (ok: bool)
    ensures ok <==> BackupVerified(b, digest, identity)
  {
    if OfManifest(b.manifest) != digest || b.manifest.files == [] {
      return false;
    }
    ok := VerifyFileRecords(b);
    ok := ok && PAYLOAD + LOCK !in b.files && identity;
  }

  /** `_stage_file_mapping`, as the set of destinations. */
  method MapDestinations(files: seq<FileRecord>) returns (places: Option<set<string>>)
    ensures places.Some? <==> Mapped(files)
    ensures places.Some? ==> places.value == Destinations(files)
  {
    var found: set<string> := {};
    for i := 0 to |files|
      invariant Mapped(files[..i]) && found == Destinations(files[..i])
    {
      var place := Destination(files[i].path);
      if place.None? {
        assert files[i] in files;
        return None;
      }
      assert files[..i + 1] == files[..i] + [files[i]];
      found := found + {place.value};
    }
    assert files[..|files|] == files;
    places := Some(found);
  }

  /** The comparison loop of `verify_staged_restore`. */
  method CompareCopies(s: Stage, b: Backup) returns (ok: bool)
    ensures ok <==> forall r | r in b.manifest.files :: CopyMatches(s, b, r)
  {
    var files := b.manifest.files;
    for i := 0 to |files|
      invariant forall r | r in files[..i] :: CopyMatches(s, b, r)
    {
      if !CopyMatches(s, b, files[i]) {
        assert files[i] in files;
        return false;
      }
      assert files[..i + 1] == files[..i] + [files[i]];
    }
    assert files[..|files|] == files;
    ok := true;
  }

  /** `verify_staged_restore`, with the outcome of the identity checks on the staged tree. */
  method VerifyStagedRestore(s: Stage, b: Backup, digest: ManifestDigest, identity: bool) returns (ok: bool)
    ensures ok <==> StagedVerified(s, b, digest, identity)
  {
    if s.marker != Some(MarkerOf(digest, b.manifest)) {
      return false;
    }
    var places := MapDestinations(b.manifest.files);
    if places.None? || s.files.Keys != places.value + {ROOT + LOCK} {
      return false;
    }
    ok := CompareCopies(s, b);
    ok := ok && s.files[ROOT + LOCK] == File([], LOCK_MODE) && identity;
  }

  // ------------------------------------------------------------ making a backup

  /** The live source files at each reading; they may differ from one reading to the next. */
  type World = nat -> Tree

  /** Size and mode can be read at `at`, and the bytes hashed at the next reading. */
  predicate Recordable(world: World, at: nat, path: string) {
    RelativePath.Safe(path) && path in world(at) && Acceptable(world(at)[path]) && path in world(at + 1)
  }

  function RecordOf(world: World, at: nat, path: string): FileRecord
    requires Recordable(world, at, path)
  {
    FileRecord(path, |world(at)[path].bytes|, world(at)[path].mode, Sha256(world(at + 1)[path].bytes))
  }

  /** `_file_record` for one source: size and mode come from one reading, the digest from the next. */
  method RecordSource(world: World, at: nat, path: string) returns (r: Option<FileRecord>)
    ensures r.Some? <==> Recordable(world, at, path)
    ensures r.Some? ==> r.value.path == path && r.value.size == |world(at)[path].bytes| && r.value.mode == world(at)[path].mode
    ensures r.Some? ==> r.value.sha == Sha256(world(at + 1)[path].bytes)
    ensures r.Some? ==> 0 < r.value.size <= MAX_FILE_BYTES && !WeakMode(r.value.mode)
  {
    if !RelativePath.Safe(path) || path !in world(at) || !Acceptable(world(at)[path]) || path !in world(at + 1) {
      return None;
    }
    r := Some(RecordOf(world, at, path));
  }

  predicate AllRecordable(world: World, at: nat, paths: seq<string>) {
    forall i | 0 <= i < |paths| :: Recordable(world, at + 2 * i, paths[i])
  }

  predicate AllMeasurable(world: World, at: nat, paths: seq<string>) {
    forall i | 0 <= i < |paths| :: paths[i] in world(at + i) && Acceptable(world(at + i)[paths[i]])
  }

  predicate AllPresent(world: World, at: nat, paths: seq<string>) {
    forall i | 0 <= i < |paths| :: paths[i] in world(at + i)
  }

  /** `_manifest_with_records`: two readings per source, in order. */
  method RecordSources(world: World, at: nat, paths: seq<string>) returns (records: Option<seq<FileRecord>>)
    ensures records.Some? <==> AllRecordable(world, at, paths)
    ensures records.Some? ==> Recorded(world, at, paths, records.value)
  {
    var found: seq<FileRecord> := [];
    for i := 0 to |paths|
      invariant |found| == i
      invariant forall j | 0 <= j < i :: Recordable(world, at + 2 * j, paths[j]) && found[j] == RecordOf(world, at + 2 * j, paths[j])
    {
      var r := RecordSource(world, at + 2 * i, paths[i]);
      if r.None? {
        return None;
      }
      found := found + [r.value];
    }
    records := Some(found);
  }

  function SizeAt(world: World, at: nat, path: string): nat {
    if path in world(at) then |world(at)[path].bytes| else 0
  }

  /** The sizes of the sources, the i-th as the i-th reading finds it. */
  function TotalAt(world: World, at: nat, paths: seq<string>): nat {
    if paths == [] then 0
    else TotalAt(world, at, paths[..|paths| - 1]) + SizeAt(world, at + |paths| - 1, paths[|paths| - 1])
  }

  /** The inventory's total: one reading per source, all acceptable. */
  method MeasureSources(world: World, at: nat, paths: seq<string>) returns (total: Option<nat>)
    ensures total.Some? <==> AllMeasurable(world, at, paths)
    ensures total.Some? ==> total.value == TotalAt(world, at, paths)
  {
    var sum := 0;
    for i := 0 to |paths|
      invariant forall j | 0 <= j < i :: paths[j] in world(at + j) && Acceptable(world(at + j)[paths[j]])
      invariant sum == TotalAt(world, at, paths[..i])
    {
      if paths[i] !in world(at + i) || !Acceptable(world(at + i)[paths[i]]) {
        return None;
      }
      assert paths[..i + 1][..i] == paths[..i];
      sum := sum + |world(at + i)[paths[i]].bytes|;
    }
    assert paths[..|paths|] == paths;
    total := Some(sum);
  }

  /** The copy loop of `create_backup`: one more reading per record, under the recorded mode. */
  method CopySources(world: World, at: nat, paths: seq<string>, records: seq<FileRecord>) returns (files: Option<Tree>)
    requires DistinctPaths(paths) && RecordsOf(paths, records)
    ensures files.Some? <==> AllPresent(world, at, paths)
    ensures files.Some? ==> Copied(world, at, paths, records, files.value)
  {
    var copied: Tree := map[];
    for i := 0 to |paths|
      invariant copied.Keys == set p | p in paths[..i]
      invariant forall j | 0 <= j < i :: paths[j] in world(at + j) && paths[j] in copied
                  && copied[paths[j]] == File(world(at + j)[paths[j]].bytes, records[j].mode)
    {
      if paths[i] !in world(at + i) {
        return None;
      }
      assert paths[..i + 1] == paths[..i] + [paths[i]];
      copied := copied[paths[i] := File(world(at + i)[paths[i]].bytes, records[i].mode)];
    }
    assert paths[..|paths|] == paths;
    files := Some(copied);
  }

  /** One record per path, in order. */
  predicate RecordsOf(paths: seq<string>, records: seq<FileRecord>) {
    |records| == |paths| && forall i | 0 <= i < |paths| :: records[i].path == paths[i]
  }

  /** The tree holds exactly the paths, each with the bytes of its own reading and the recorded mode. */
  predicate Copied(world: World, at: nat, paths: seq<string>, records: seq<FileRecord>, files: Tree)
    requires RecordsOf(paths, records)
  {
    && AllPresent(world, at, paths)
    && files.Keys == (set p | p in paths)
    && (forall i | 0 <= i < |paths| :: paths[i] in files && files[paths[i]] == File(world(at + i)[paths[i]].bytes, records[i].mode))
  }

  /** The records are what the two readings per path give. */
  predicate Recorded(world: World, at: nat, paths: seq<string>, records: seq<FileRecord>) {
    && AllRecordable(world, at, paths)
    && |records| == |paths|
    && (forall i | 0 <= i < |paths| :: records[i] == RecordOf(world, at + 2 * i, paths[i]))
  }

  predicate DistinctPaths(paths: seq<string>) {
    forall i, j | 0 <= i < j < |paths| :: paths[i] != paths[j]
  }

  /** Nothing changes while the backup is made, and every source is one that can be backed up. */
  ghost predicate Quiet(world: World, live: Tree, paths: seq<string>) {
    && (forall t :: world(t) == live)
    && (forall p | p in paths :: RelativePath.Safe(p) && p in live && Acceptable(live[p]) && live[p].mode <= 4095)
    && PAYLOAD + LOCK !in paths
  }

  /** What a backup made from these readings records of its i-th source: each part from its own reading. */
  ghost predicate Captured(world: World, paths: seq<string>, b: Backup, i: nat)
    requires i < |paths|
  {
    var n, p := |paths|, paths[i];
    && p in b.files && p in world(n + 2 * i) && p in world(n + 2 * i + 1) && p in world(3 * n + i)
    && b.files[p].bytes == world(n + 2 * i + 1)[p].bytes == world(3 * n + i)[p].bytes
    && b.files[p].mode == world(n + 2 * i)[p].mode && |b.files[p].bytes| == |world(n + 2 * i)[p].bytes|
  }

  /** Records and copies of all sources, each part from its own reading. */
  ghost predicate Gathered(world: World, paths: seq<string>, b: Backup) {
    && Recorded(world, |paths|, paths, b.manifest.files)
    && RecordsOf(paths, b.manifest.files)
    && Copied(world, 3 * |paths|, paths, b.manifest.files, b.files)
  }

  lemma RecordedPaths(world: World, at: nat, paths: seq<string>, records: seq<FileRecord>)
    requires Recorded(world, at, paths, records)
    ensures RecordsOf(paths, records)
  {
  }

  /** Measures, records and copies the sources. */
  method GatherSources(world: World, paths: seq<string>, installRoot: string, launchDir: string, metadata: string)
    returns (b: Option<Backup>)
    requires DistinctPaths(paths)
    ensures b.Some? <==> (&& AllMeasurable(world, 0, paths) && TotalAt(world, 0, paths) <= MAX_TOTAL_BYTES
                          && AllRecordable(world, |paths|, paths) && AllPresent(world, 3 * |paths|, paths))
    ensures b.Some? ==> Gathered(world, paths, b.value)
  {
    var n := |paths|;
    var total := MeasureSources(world, 0, paths);
    if total.None? || total.value > MAX_TOTAL_BYTES {
      return None;
    }
    var records := RecordSources(world, n, paths);
    if records.None? {
      return None;
    }
    RecordedPaths(world, n, paths, records.value);
    var files := CopySources(world, 3 * n, paths, records.value);
    if files.None? {
      return None;
    }
    b := Some(Backup(Manifest(records.value, installRoot, launchDir, metadata), files.value));
  }

  /**
   `create_backup`: every source is read to measure it, twice to record it, and once to copy it. A
   source that changes meanwhile is in a successful backup only with bytes that its hashing and
   its copying both found, of the size and mode recorded. When nothing changes the backup succeeds
   and holds the sources as they are. `live` is what the sources then are.
   */
  method CreateBackup(world: World, paths: seq<string>, installRoot: string, launchDir: string, metadata: string,
                      identity: bool, fits: bool, ghost live: Tree)
    returns (r: Option<Backup>)
    requires DistinctPaths(paths)
    ensures r.Some? ==> BackupVerified(r.value, OfManifest(r.value.manifest), true)
    ensures r.Some? ==> r.value.files.Keys == set p | p in paths
    ensures r.Some? ==> forall i | 0 <= i < |paths| :: Captured(world, paths, r.value, i)
    ensures r.Some? ==> 0 < |paths| <= MAX_FILES && TotalAt(world, 0, paths) <= MAX_TOTAL_BYTES && identity && fits
    ensures (&& Quiet(world, live, paths) && identity && fits
             && 0 < |paths| <= MAX_FILES && TotalAt(world, 0, paths) <= MAX_TOTAL_BYTES) ==> r.Some?
    ensures r.Some? && Quiet(world, live, paths) ==> Mirrors(r.value, live, paths)
  {
    QuietIsReadable(world, live, paths);
    if |paths| > MAX_FILES {
      return None;
    }
    var backup := GatherSources(world, paths, installRoot, launchDir, metadata);
    if backup.None? || !fits {
      return None;
    }
    var verified := VerifyBackup(backup.value, OfManifest(backup.value.manifest), identity);
    QuietIsVerified(world, live, paths, backup.value);
    if !verified {
      return None;
    }
    GatheredIsCaptured(world, paths, backup.value);
    r := backup;
  }

  /** The backup holds the live files themselves. */
  predicate Mirrors(b: Backup, live: Tree, paths: seq<string>) {
    forall p | p in paths :: p in live && p in b.files && b.files[p] == live[p]
  }

  lemma QuietIsReadable(world: World, live: Tree, paths: seq<string>)
    ensures Quiet(world, live, paths) ==>
      AllMeasurable(world, 0, paths) && AllRecordable(world, |paths|, paths) && AllPresent(world, 3 * |paths|, paths)
  {
    if Quiet(world, live, paths) {
      forall i | 0 <= i < |paths|
        ensures paths[i] in world(0 + i) && Acceptable(world(0 + i)[paths[i]])
        ensures Recordable(world, |paths| + 2 * i, paths[i]) && paths[i] in world(3 * |paths| + i)
      {
        assert paths[i] in paths && world(0 + i) == live && world(3 * |paths| + i) == live;
        assert world(|paths| + 2 * i) == live && world(|paths| + 2 * i + 1) == live;
      }
    }
  }

  lemma RecordPaths(paths: seq<string>, records: seq<FileRecord>)
    requires RecordsOf(paths, records)
    ensures Paths(records) == set p | p in paths
    ensures DistinctPaths(paths) ==> Distinct(records)
  {
    forall p
      ensures p in Paths(records) <==> p in paths
    {
      if p in paths {
        var i :| 0 <= i < |paths| && paths[i] == p;
        assert records[i] in records;
      }
      if p in Paths(records) {
        var r :| r in records && r.path == p;
        var i :| 0 <= i < |records| && records[i] == r;
        assert paths[i] == p;
      }
    }
  }

  ghost predicate GatheredAt(world: World, paths: seq<string>, b: Backup, i: nat) {
    && i < |paths| && |b.manifest.files| == |paths| && paths[i] in b.files
    && Recordable(world, |paths| + 2 * i, paths[i]) && b.manifest.files[i] == RecordOf(world, |paths| + 2 * i, paths[i])
    && paths[i] in world(3 * |paths| + i)
    && b.files[paths[i]] == File(world(3 * |paths| + i)[paths[i]].bytes, b.manifest.files[i].mode)
  }

  lemma GatheredEverywhere(world: World, paths: seq<string>, b: Backup, i: nat)
    requires Gathered(world, paths, b) && i < |paths|
    ensures GatheredAt(world, paths, b, i)
  {
  }

  lemma CapturedAt(world: World, paths: seq<string>, b: Backup, i: nat)
    requires GatheredAt(world, paths, b, i) && Matches(b.files[paths[i]], b.manifest.files[i])
    ensures Captured(world, paths, b, i)
  {
  }

  lemma MatchesAt(b: Backup, i: nat)
    requires FilesVerified(b) && i < |b.manifest.files|
    ensures b.manifest.files[i].path in b.files && Matches(b.files[b.manifest.files[i].path], b.manifest.files[i])
  {
    assert b.manifest.files[i] in b.manifest.files;
  }

  /** Verification ties the readings together: what was copied is what was hashed, and of the recorded size. */
  lemma GatheredIsCaptured(world: World, paths: seq<string>, b: Backup)
    requires Gathered(world, paths, b) && FilesVerified(b)
    ensures forall i | 0 <= i < |paths| :: Captured(world, paths, b, i)
  {
    forall i | 0 <= i < |paths|
      ensures Captured(world, paths, b, i)
    {
      GatheredEverywhere(world, paths, b, i);
      MatchesAt(b, i);
      CapturedAt(world, paths, b, i);
    }
  }

  ghost predicate QuietAt(live: Tree, p: string, b: Backup, r: FileRecord) {
    r.path == p && RecordValid(r) && p in live && p in b.files && b.files[p] == live[p] && Matches(b.files[p], r)
  }

  lemma GatheredQuietly(world: World, live: Tree, paths: seq<string>, b: Backup, i: nat)
    requires Quiet(world, live, paths) && Gathered(world, paths, b) && i < |paths|
    ensures QuietAt(live, paths[i], b, b.manifest.files[i])
  {
    assert paths[i] in paths && Recordable(world, |paths| + 2 * i, paths[i]);
    assert world(|paths| + 2 * i) == live && world(|paths| + 2 * i + 1) == live && world(3 * |paths| + i) == live;
  }

  /** A backup gathered from unchanging, acceptable sources passes verification and holds them. */
  lemma QuietIsVerified(world: World, live: Tree, paths: seq<string>, b: Backup)
    requires DistinctPaths(paths) && Gathered(world, paths, b)
    ensures Quiet(world, live, paths) ==> FilesVerified(b) && PAYLOAD + LOCK !in b.files && Mirrors(b, live, paths)
  {
    RecordPaths(paths, b.manifest.files);
    if Quiet(world, live, paths) {
      forall r | r in b.manifest.files
        ensures RecordValid(r) && r.path in b.files && Matches(b.files[r.path], r)
      {
        var i :| 0 <= i < |paths| && b.manifest.files[i] == r;
        GatheredQuietly(world, live, paths, b, i);
      }
      forall p | p in paths
        ensures p in live && p in b.files && b.files[p] == live[p]
      {
        var i :| 0 <= i < |paths| && paths[i] == p;
        GatheredQuietly(world, live, paths, b, i);
      }
    }
  }

  class Machine {
    var root: Option<Tree>
    var launch: Tree
    var stage: Option<Stage>

    constructor ()
      ensures root.None? && launch == map[] && stage.None?
    {
      root, launch, stage := None, map[], None;
    }

    /** A file operation outside the model's control. */
    method Fallible() returns (ok: bool)
    {
      ok := *;
    }

    predicate Clean()
      reads this
    {
      root.None? && forall f | f in PLISTS :: f !in launch
    }

    /** The copy loop of `stage_restore`, reading the backup as it is then; `io` says that no file operation fails. */
    method CopyStage(records: seq<FileRecord>, source: Tree, io: bool) returns (copied: Option<Tree>)
      ensures copied.Some? ==> IsCopy(source, records, copied.value)
      ensures io && Distinct(records) && Mapped(records) && Paths(records) <= source.Keys ==> copied.Some?
    {
      var done: Tree := map[];
      for i := 0 to |records|
        invariant IsCopy(source, records[..i], done)
      {
        var record := records[i];
        var destination := Destination(record.path);
        var copies := Fallible();
        if destination.None? || destination.value in done || record.path !in source || !(copies || io) {
          NewDestination(records, i);
          return None;
        }
        assert records[..i + 1] == records[..i] + [record];
        done := done[destination.value := File(source[record.path].bytes, record.mode)];
      }
      assert records[..|records|] == records;
      copied := Some(done);
    }

    /**
     `stage_restore`. The backup is read three times: to verify it, to copy it and to compare the
     copy with it; `copying` and `current` are what the last two readings find. `stagedIdentity` is
     the outcome of the identity checks on the staged tree, and `removes` says that the removal of
     a failed stage goes through.
     */
    method StageRestore(b: Backup, copying: Tree, current: Tree, digest: ManifestDigest,
                        identity: bool, stagedIdentity: bool, io: bool, removes: bool)
      returns (ok: bool)
      modifies this`stage
      ensures ok ==> stage.Some? && BackupVerified(b, digest, true) && StagedVerified(stage.value, Backup(b.manifest, current), digest, true)
      ensures ok ==> old(stage).None? && identity && stagedIdentity && Clean()
      ensures !ok ==> stage == old(stage) || (!removes && old(stage).None?)
      ensures (&& io && stagedIdentity && copying == b.files && current == b.files
               && BackupVerified(b, digest, identity) && Mapped(b.manifest.files) && Clean() && old(stage).None?) ==> ok
    {
      var verified := VerifyBackup(b, digest, identity);
      if !verified || !Clean() || stage.Some? {
        return false;
      }
      var candidate := BuildStage(b, copying, digest, io);
      if candidate.Some? {
        var good := VerifyStagedRestore(candidate.value, Backup(b.manifest, current), digest, stagedIdentity);
        if good {
          stage := candidate;
          return true;
        }
      }
      if candidate.Some? && copying == b.files && current == b.files {
        CopyIsVerified(b, digest, candidate.value);
      }
      if !removes {
        var residue: Stage := *;
        stage := Some(residue);
      }
      ok := false;
    }

    /** Copies, then adds the fresh lock and the marker. */
    method BuildStage(b: Backup, copying: Tree, digest: ManifestDigest, io: bool) returns (candidate: Option<Stage>)
      requires BackupVerified(b, digest, true)
      ensures candidate.Some? ==> exists t :: IsCopy(copying, b.manifest.files, t) && candidate.value == StageOf(b.manifest, digest, t)
      ensures io && copying == b.files && Mapped(b.manifest.files) ==> candidate.Some?
    {
      var copied := CopyStage(b.manifest.files, copying, io);
      if copied.None? {
        return None;
      }
      var marked := Fallible();
      if !(marked || io) || ROOT + LOCK in copied.value {
        LockIsNotACopy(copying, b.manifest.files, copied.value);
        return None;
      }
      candidate := Some(StageOf(b.manifest, digest, copied.value));
    }

    /**
     `_install_launchagents`: all three or, when every removal succeeds, none. Whatever happens, a
     launch file that was there stays as it was, and a new one is a staged plist.
     */
    method InstallLaunchAgents(staged: Tree, io: bool) returns (ok: bool, clean: bool)
      modifies this`launch
      ensures OnlyAddsPlists(old(launch), launch, staged)
      ensures ok ==> forall f | f in PLISTS :: LAUNCHD + f in staged && f in launch && launch[f] == staged[LAUNCHD + f]
      ensures !ok && clean ==> launch == old(launch)
      ensures io ==> clean && (ok <==> forall f | f in PLISTS :: f !in old(launch) && LAUNCHD + f in staged)
    {
      PlistsAreDistinct();
      var i := 0;
      ok, clean := true, true;
      while i < |PLISTS|
        invariant i <= |PLISTS| && ok && clean
        invariant OnlyAddsPlists(old(launch), launch, staged)
        invariant forall f | f in launch && f !in PLISTS[..i] :: f in old(launch)
        invariant forall f | f in PLISTS[..i] :: f !in old(launch) && LAUNCHD + f in staged && f in launch && launch[f] == staged[LAUNCHD + f]
      {
        var name := PLISTS[i];
        var copies := Fallible();
        if name in launch || LAUNCHD + name !in staged || !(copies || io) {
          clean := RemoveInstalled(PLISTS[..i], io);
          return false, clean;
        }
        launch := launch[name := staged[LAUNCHD + name]];
        i := i + 1;
      }
    }

    /** Best-effort removal of what this activation installed: nothing is added or rewritten, and nothing else goes. */
    method RemoveInstalled(installed: seq<string>, io: bool) returns (clean: bool)
      modifies this`launch
      ensures forall f | f in launch :: f in old(launch) && launch[f] == old(launch)[f]
      ensures forall f | f in old(launch) && f !in installed :: f in launch
      ensures clean ==> forall f | f in installed :: f !in launch
      ensures io ==> clean
    {
      clean := true;
      for i := 0 to |installed|
        invariant forall f | f in launch :: f in old(launch) && launch[f] == old(launch)[f]
        invariant forall f | f in old(launch) && f !in installed[..i] :: f in launch
        invariant (clean ==> forall f | f in installed[..i] :: f !in launch) && (io ==> clean)
      {
        var removed := Fallible();
        if removed || io {
          launch := launch - {installed[i]};
        } else {
          clean := false;
        }
      }
    }

    /**
     `activate_restore` without starting services. `current` is the backup as the comparison with
     the stage reads it. Whatever happened to backup and stage since staging, success installs
     the pinned manifest's paths and modes and all three plists, and the recorded bytes exactly
     when the payload was still intact. A failure leaves the install root as it was, or complete.
     When no file operation fails (`io`) it succeeds exactly on an accepted backup and stage, a clean
     target and three staged plists.
     */
    method ActivateRestore(b: Backup, current: Tree, digest: ManifestDigest, identity: bool, stagedIdentity: bool, io: bool)
      returns (ok: bool, clean: bool)
      modifies this
      ensures ok ==> root.Some? && InstallsFrom(digest.manifest, current, root.value)
      ensures ok ==> (Installs(digest.manifest, root.value)
                      <==> forall r | r in digest.manifest.files && PAYLOAD <= r.path :: Intact(r, current))
      ensures ok && current == b.files ==> Installs(digest.manifest, root.value)
      ensures ok ==> forall f | f in PLISTS :: f in launch && PlistOf(digest.manifest, current, f, launch[f])
      ensures !ok ==> root == old(root) || (old(root).None? && root.Some? && InstallsFrom(digest.manifest, current, root.value))
      ensures forall f | f in old(launch) :: f in launch && launch[f] == old(launch)[f]
      ensures forall f | f in launch && f !in old(launch) :: f in PLISTS && PlistOf(digest.manifest, current, f, launch[f])
      ensures !ok && clean ==> launch == old(launch)
      ensures io ==> (ok <==> old(Activatable(b, current, digest, identity, stagedIdentity)))
      ensures io ==> clean
      ensures ok ==> identity && stagedIdentity
      ensures ok ==> stage.None?
      ensures !ok ==> stage == if root == old(root) || old(stage).None? then old(stage) else Some(Moved(old(stage).value))
    {
      ok, clean := false, true;
      if stage.None? {
        return;
      }
      var accepted := Accepts(b, current, digest, identity, stagedIdentity);
      if !accepted || !Clean() {
        return;
      }
      ok, clean := Promote(b.manifest, current, digest, io);
      ActivatedTree(old(stage).value, b, current, digest);
    }

    /** Moves the verified root into place, then installs the plists; success uses the stage up. */
    method Promote(m: Manifest, current: Tree, digest: ManifestDigest, io: bool) returns (ok: bool, clean: bool)
      requires Clean() && stage.Some? && StagedVerified(stage.value, Backup(m, current), digest, true)
      modifies this
      ensures ok ==> root.Some?
      ensures root.None? || root == Some(Below(old(stage).value.files, ROOT))
      ensures stage == if ok then None else if root.None? then old(stage) else Some(Moved(old(stage).value))
      ensures ok ==> forall f | f in PLISTS :: f in launch && PlistOf(m, current, f, launch[f])
      ensures forall f | f in old(launch) :: f in launch && launch[f] == old(launch)[f]
      ensures forall f | f in launch && f !in old(launch) :: f in PLISTS && PlistOf(m, current, f, launch[f])
      ensures !ok && clean ==> launch == old(launch)
      ensures io ==> clean && (ok <==> forall f | f in PLISTS :: LAUNCHD + f in old(stage).value.files)
    {
      ok, clean := false, true;
      var s := stage.value;
      var moves := Fallible();
      if !(moves || io) {
        return;
      }
      root := Some(Below(s.files, ROOT));
      stage := Some(Moved(s));
      ok, clean := InstallPlists(s, m, current, digest, io);
      if ok {
        stage := None;
      }
    }

    /** The target is clean, backup and stage are acceptable, and all three plists are staged. */
    ghost predicate Activatable(b: Backup, current: Tree, digest: ManifestDigest, identity: bool, stagedIdentity: bool)
      reads this
    {
      && stage.Some? && BackupVerified(b, digest, identity)
      && StagedVerified(stage.value, Backup(b.manifest, current), digest, stagedIdentity)
      && Clean() && forall f | f in PLISTS :: LAUNCHD + f in stage.value.files
    }

    /** The two verifications that open an activation. */
    method Accepts(b: Backup, current: Tree, digest: ManifestDigest, identity: bool, stagedIdentity: bool) returns (ok: bool)
      requires stage.Some?
      ensures ok <==> BackupVerified(b, digest, identity) && StagedVerified(stage.value, Backup(b.manifest, current), digest, stagedIdentity)
    {
      ok := VerifyBackup(b, digest, identity);
      if ok {
        ok := VerifyStagedRestore(stage.value, Backup(b.manifest, current), digest, stagedIdentity);
      }
    }

    /** The guarded part of `activate_restore`: the plists, then the run directory, undone on failure. */
    method InstallPlists(s: Stage, m: Manifest, current: Tree, digest: ManifestDigest, io: bool) returns (ok: bool, clean: bool)
      requires StagedVerified(s, Backup(m, current), digest, true) && forall f | f in PLISTS :: f !in launch
      modifies this`launch
      ensures ok ==> forall f | f in PLISTS :: f in launch && PlistOf(m, current, f, launch[f])
      ensures forall f | f in old(launch) :: f in launch && launch[f] == old(launch)[f]
      ensures forall f | f in launch && f !in old(launch) :: f in PLISTS && PlistOf(m, current, f, launch[f])
      ensures !ok && clean ==> launch == old(launch)
      ensures io ==> clean && (ok <==> forall f | f in PLISTS :: LAUNCHD + f in s.files)
    {
      ok, clean := InstallLaunchAgents(s.files, io);
      if ok {
        ok := Fallible();                 // the run directory is private or can be made
        ok := ok || io;
        if !ok {
          clean := RemoveInstalled(PLISTS, io);
        }
      }
      forall f | f in PLISTS && LAUNCHD + f in s.files
        ensures PlistOf(m, current, f, s.files[LAUNCHD + f])
      {
        StagedPlist(s, m, current, digest, f);
      }
    }
  }

  // ---------------------------------------------------------- a used-up stage

  /** What is left of a stage once its root has been moved into place. */
  function Moved(s: Stage): Stage {
    s.(files := map p | p in s.files && !(ROOT <= p) :: s.files[p])
  }

  /** A stage whose activation failed after the move cannot be activated again. */
  lemma MovedStageIsRefused(s: Stage, b: Backup, digest: ManifestDigest, identity: bool)
    ensures !StagedVerified(Moved(s), b, digest, identity)
  {
    assert ROOT <= ROOT + LOCK;
  }

  // ------------------------------------------------------------ launch agents

  /** Old launch files are kept as they were; new ones are staged plists. */
  predicate OnlyAddsPlists(before: Tree, after: Tree, staged: Tree) {
    && (forall f | f in before :: f in after && after[f] == before[f])
    && (forall f | f in after && f !in before :: f in PLISTS && LAUNCHD + f in staged && after[f] == staged[LAUNCHD + f])
  }

  /** The file is the manifest's plist of that name, with its recorded mode and the bytes read from `current`. */
  predicate PlistOf(m: Manifest, current: Tree, name: string, f: File) {
    exists r :: r in m.files && r.path == LAUNCHD + name && r.path in current && f == File(current[r.path].bytes, r.mode)
  }

  lemma PlistsAreDistinct()
    ensures forall i, j | 0 <= i < j < |PLISTS| :: PLISTS[i] != PLISTS[j]
  {
    assert |PLISTS[0]| != |PLISTS[1]| && |PLISTS[1]| != |PLISTS[2]| && |PLISTS[0]| != |PLISTS[2]|;
  }

  lemma DestinationUnderLaunchd(path: string, name: string)
    requires Destination(path) == Some(LAUNCHD + name)
    ensures path == LAUNCHD + name
  {
    assert Destination(path).value[0] == 'l';
    PrefixSplits(LAUNCHD, path);
    assert (LAUNCHD + path[|LAUNCHD|..])[|LAUNCHD|..] == path[|LAUNCHD|..] && (LAUNCHD + name)[|LAUNCHD|..] == name;
  }

  lemma StagedPlist(s: Stage, m: Manifest, current: Tree, digest: ManifestDigest, name: string)
    requires StagedVerified(s, Backup(m, current), digest, true) && LAUNCHD + name in s.files
    ensures PlistOf(m, current, name, s.files[LAUNCHD + name])
  {
    assert (LAUNCHD + name)[0] == 'l' && (ROOT + LOCK)[0] == 'r';
    assert LAUNCHD + name in Destinations(m.files);
    var r :| r in m.files && Destination(r.path) == Some(LAUNCHD + name);
    DestinationUnderLaunchd(r.path, name);
    StagedContent(s, m, current, digest, r);
  }

  lemma ActivatedTree(s: Stage, b: Backup, current: Tree, digest: ManifestDigest)
    requires BackupVerified(b, digest, true) && StagedVerified(s, Backup(b.manifest, current), digest, true)
    ensures var t := Below(s.files, ROOT);
      && InstallsFrom(digest.manifest, current, t)
      && (Installs(digest.manifest, t) <==> forall r | r in digest.manifest.files && PAYLOAD <= r.path :: Intact(r, current))
      && (current == b.files ==> Installs(digest.manifest, t))
  {
    var t := Below(s.files, ROOT);
    VerifiedStageInstallsWhatItWasComparedWith(s, b.manifest, current, digest);
    InstallsExactlyWhenIntact(b.manifest, current, t);
    if current == b.files {
      assert Backup(b.manifest, current) == b;
      VerifiedStageIsTheManifestTree(s, b, digest);
    }
  }

  // ------------------------------------------------------ staging is complete

  function StageOf(m: Manifest, digest: ManifestDigest, t: Tree): Stage {
    Stage(Some(MarkerOf(digest, m)), t[ROOT + LOCK := File([], LOCK_MODE)])
  }

  /** Every record belongs to a namespace that can be staged. */
  predicate Mapped(files: seq<FileRecord>) {
    forall r | r in files :: Destination(r.path).Some?
  }

  /** `t` holds the listed files of `source` at their destinations and nothing else. */
  predicate IsCopy(source: Tree, files: seq<FileRecord>, t: Tree) {
    && Mapped(files)
    && t.Keys == Destinations(files)
    && (forall r | r in files :: r.path in source && Destination(r.path).value in t
                                 && t[Destination(r.path).value] == File(source[r.path].bytes, r.mode))
  }

  /** Among distinct records the destination of the next one is still free. */
  lemma NewDestination(files: seq<FileRecord>, i: nat)
    requires i < |files|
    ensures Distinct(files) && Mapped(files) ==>
      files[i] in files && Destination(files[i].path).Some? && Destination(files[i].path).value !in Destinations(files[..i])
  {
    var r := files[i];
    assert r in files;
    if Distinct(files) && Mapped(files) && Destination(r.path).value in Destinations(files[..i]) {
      var q :| q in files[..i] && Destination(q.path).Some? && Destination(q.path).value == Destination(r.path).value;
      DestinationsDoNotCollide(q.path, r.path);
      assert false;
    }
  }

  lemma LockIsNotACopy(source: Tree, files: seq<FileRecord>, t: Tree)
    requires IsCopy(source, files, t) && PAYLOAD + LOCK !in Paths(files)
    ensures ROOT + LOCK !in t
  {
    if ROOT + LOCK in t {
      var r :| r in files && Destination(r.path).Some? && Destination(r.path).value == ROOT + LOCK;
      DestinationUnderRoot(r.path, LOCK);
      assert false;
    }
  }

  lemma CopyIsVerified(b: Backup, digest: ManifestDigest, s: Stage)
    requires BackupVerified(b, digest, true)
    requires exists t :: IsCopy(b.files, b.manifest.files, t) && s == StageOf(b.manifest, digest, t)
    ensures StagedVerified(s, b, digest, true)
  {
    var t :| IsCopy(b.files, b.manifest.files, t) && s == StageOf(b.manifest, digest, t);
    LockIsNotACopy(b.files, b.manifest.files, t);
    forall r | r in b.manifest.files
      ensures CopyMatches(s, b, r)
    {
      assert Matches(b.files[r.path], r);
    }
  }
}
