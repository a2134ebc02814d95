/**
 Verified backup and restore over file trees. A manifest lists path, size, mode and
 digest of every file; its own digest is what an operator pins. Restoring verifies the
 backup under that digest, stages a copy, verifies the copy, and moves it into place.
 */
module BackupRestore {
  import opened Common
  import RelativePath

  const MAX_FILE_BYTES: nat := 256 * 1024 * 1024
  const MAX_FILES: nat := 20000
  const MAX_TOTAL_BYTES: nat := 2 * 1024 * 1024 * 1024
  const PAYLOAD: string := "payload/"
  const LAUNCHD: string := "launchd/"
  const ROOT: string := "root/"
  const LOCK: string := "mutation-authority/mutation-authority.lock"
  const LOCK_MODE: nat := 384 // 0o600

  const PLISTS: seq<string> := [
    "com.github.git-ksk.cumg-v2-grant-signer.plist",
    "com.github.git-ksk.cumg-v2-hub.plist",
    "com.github.git-ksk.cumg-v2-agent.plist" ]

  datatype File = File(bytes: Bytes, mode: nat)

  /** Regular files by their relative path. */
  type Tree = map<string, File>

  datatype FileRecord = FileRecord(path: string, size: nat, mode: nat, sha: Digest)

  /** The manifest; `metadata` stands for the identity fields that only later checks look at. */
  datatype Manifest = Manifest(files: seq<FileRecord>, installRoot: string, launchDir: string, metadata: string)

  /** The digest of the manifest bytes, injective like every digest here. */
  datatype ManifestDigest = OfManifest(manifest: Manifest)

  datatype Backup = Backup(manifest: Manifest, files: Tree)

  /** Group or world writable: a mode with a bit of 0o022. */
  predicate WeakMode(mode: nat) {
    (mode / 2) % 2 == 1 || (mode / 16) % 2 == 1
  }

  /** `_lstat_regular`: a non-empty file of bounded size that others cannot write. */
  predicate Acceptable(f: File) {
    0 < |f.bytes| <= MAX_FILE_BYTES && !WeakMode(f.mode)
  }

  predicate RecordValid(r: FileRecord) {
    RelativePath.Safe(r.path) && 0 < r.size <= MAX_FILE_BYTES && r.mode <= 4095 // 0o7777
  }

  predicate Distinct(files: seq<FileRecord>) {
    forall i, j | 0 <= i < j < |files| :: files[i].path != files[j].path
  }

  predicate Matches(f: File, r: FileRecord) {
    Acceptable(f) && |f.bytes| == r.size && f.mode == r.mode && Sha256(f.bytes) == r.sha
  }

  function Paths(files: seq<FileRecord>): set<string> {
    set r | r in files :: r.path
  }

  /** `_verify_file_records`: exactly the listed files, each as recorded. */
  predicate FilesVerified(b: Backup) {
    && (forall r | r in b.manifest.files :: RecordValid(r))
    && Distinct(b.manifest.files)
    && b.files.Keys == Paths(b.manifest.files)
    && (forall r | r in b.manifest.files :: r.path in b.files && Matches(b.files[r.path], r))
  }

  /** `verify_backup`; `identity` is the outcome of the runtime, handoff and state checks. */
  predicate BackupVerified(b: Backup, digest: ManifestDigest, identity: bool) {
    && OfManifest(b.manifest) == digest
    && b.manifest.files != []
    && FilesVerified(b)
    && PAYLOAD + LOCK !in b.files
    && identity
  }

  // ------------------------------------------------------------------ staging

  datatype Marker = Marker(digest: ManifestDigest, installRoot: string, launchDir: string)

  /** A restore stage: its marker file and the other regular files below it. */
  datatype Stage = Stage(marker: Option<Marker>, files: Tree)

  /** Where `_stage_file_mapping` puts a backup file; unknown namespaces have no place. */
  function Destination(path: string): Option<string> {
    if PAYLOAD <= path then Some(ROOT + path[|PAYLOAD|..])
    else if LAUNCHD <= path then Some(LAUNCHD + path[|LAUNCHD|..])
    else None
  }

  function Destinations(files: seq<FileRecord>): set<string> {
    set r | r in files && Destination(r.path).Some? :: Destination(r.path).value
  }

  function MarkerOf(digest: ManifestDigest, m: Manifest): Marker {
    Marker(digest, m.installRoot, m.launchDir)
  }

  /** `verify_staged_restore`: the stage is exactly a copy of the backup plus a fresh empty lock. */
  predicate StagedVerified(s: Stage, b: Backup, digest: ManifestDigest, identity: bool) {
    && s.marker == Some(MarkerOf(digest, b.manifest))
    && (forall r | r in b.manifest.files :: Destination(r.path).Some?)
    && s.files.Keys == Destinations(b.manifest.files) + {ROOT + LOCK}
    && (forall r | r in b.manifest.files :: CopyMatches(s, b, r))
    && ROOT + LOCK in s.files && s.files[ROOT + LOCK] == File([], LOCK_MODE)
    && identity
  }

  predicate CopyMatches(s: Stage, b: Backup, r: FileRecord) {
    && Destination(r.path).Some? && r.path in b.files && Destination(r.path).value in s.files
    && var source, copy := b.files[r.path], s.files[Destination(r.path).value];
       Acceptable(source) && Acceptable(copy) && |source.bytes| == |copy.bytes| && copy.mode == r.mode
       && Sha256(source.bytes) == Sha256(copy.bytes)
  }

  /** Files of the payload are staged below the root and files of launchd below launchd, under their own names; nothing else has a place. */
  lemma DestinationExactly(path: string, place: string)
    ensures Destination(path) == Some(place) <==>
      || (PAYLOAD <= path && place == ROOT + path[|PAYLOAD|..])
      || (LAUNCHD <= path && place == path)
  {
    if LAUNCHD <= path {
      assert path == LAUNCHD + path[|LAUNCHD|..];
      assert path[0] == LAUNCHD[0];
    }
    if PAYLOAD <= path {
      assert path[0] == PAYLOAD[0];
    }
  }

  /** Of the permission bits of a mode only the group's and the world's write bit make it weak. */
  lemma WeakExactly(mode: nat, above: nat, groupWrite: nat, groupExec: nat, worldRead: nat, worldWrite: nat, worldExec: nat)
    requires groupWrite < 2 && groupExec < 2 && worldRead < 2 && worldWrite < 2 && worldExec < 2
    requires mode == 32 * above + 16 * groupWrite + 8 * groupExec + 4 * worldRead + 2 * worldWrite + worldExec
    ensures WeakMode(mode) <==> groupWrite == 1 || worldWrite == 1
  {
    assert mode / 2 == 16 * above + 8 * groupWrite + 4 * groupExec + 2 * worldRead + worldWrite;
    assert mode / 16 == 2 * above + groupWrite;
  }

  /** The file a record lists is there, with the recorded size, mode and digest, and may be backed up. */
  predicate AsListed(b: Backup, r: FileRecord) {
    && RelativePath.Safe(r.path) && r.path in b.files && r.mode <= 4095 && !WeakMode(r.mode)
    && 0 < r.size <= 256 * 1024 * 1024
    && b.files[r.path].mode == r.mode && |b.files[r.path].bytes| == r.size && b.files[r.path].bytes == r.sha.preimage
  }

  lemma ListedExactly(b: Backup, r: FileRecord)
    ensures RecordValid(r) && r.path in b.files && Matches(b.files[r.path], r) <==> AsListed(b, r)
  {
  }

  lemma ListsExactly(b: Backup)
    ensures b.files.Keys == Paths(b.manifest.files) <==> forall p :: p in b.files <==> exists r :: r in b.manifest.files && r.path == p
  {
    assert forall p :: p in Paths(b.manifest.files) <==> exists r :: r in b.manifest.files && r.path == p;
    if forall p :: p in b.files <==> exists r :: r in b.manifest.files && r.path == p {
      assert b.files.Keys == Paths(b.manifest.files);
    }
  }

  lemma FilesExactly(b: Backup)
    ensures FilesVerified(b) <==>
      && (forall i, j | 0 <= i < j < |b.manifest.files| :: b.manifest.files[i].path != b.manifest.files[j].path)
      && (forall p :: p in b.files <==> exists r :: r in b.manifest.files && r.path == p)
      && (forall r | r in b.manifest.files :: AsListed(b, r))
  {
    ListsExactly(b);
    forall r | r in b.manifest.files
      ensures RecordValid(r) && r.path in b.files && Matches(b.files[r.path], r) <==> AsListed(b, r)
    {
      ListedExactly(b, r);
    }
  }

  /**
   A backup passes verification exactly when its manifest has the pinned digest and lists at
   least one file, the listed paths are distinct and exactly the files that are there, none is the
   coordination lock, every file is as listed, and the identity checks pass.
   */
  lemma VerifiedExactly(b: Backup, digest: ManifestDigest, identity: bool)
    ensures BackupVerified(b, digest, identity) <==>
      && digest.manifest == b.manifest && identity && |b.manifest.files| > 0
      && (forall i, j | 0 <= i < j < |b.manifest.files| :: b.manifest.files[i].path != b.manifest.files[j].path)
      && (forall p :: p in b.files <==> exists r :: r in b.manifest.files && r.path == p)
      && PAYLOAD + LOCK !in b.files
      && (forall r | r in b.manifest.files :: AsListed(b, r))
  {
    FilesExactly(b);
  }

  /** The part of a tree below a directory, with paths relative to it. */
  function Below(t: Tree, prefix: string): Tree {
    map q | q in (set p | p in t && prefix <= p :: p[|prefix|..]) && prefix + q in t :: t[prefix + q]
  }

  // ---------------------------------------------------------------- theorems

  /**
   The tree a manifest stands for: its payload files with the recorded bytes and modes,
   one empty lock, and nothing else.
   */
  ghost predicate Installs(m: Manifest, t: Tree) {
    && (forall q {:trigger q in t} :: q in t <==> q == LOCK || PAYLOAD + q in Paths(m.files))
    && LOCK in t && t[LOCK] == File([], LOCK_MODE)
    && (forall r | r in m.files && PAYLOAD <= r.path ::
          r.path[|PAYLOAD|..] in t && t[r.path[|PAYLOAD|..]] == File(r.sha.preimage, r.mode))
  }

  lemma BelowIsPrefixed(t: Tree, prefix: string, q: string)
    ensures q in Below(t, prefix) <==> prefix + q in t
    ensures q in Below(t, prefix) ==> Below(t, prefix)[q] == t[prefix + q]
  {
    if prefix + q in t {
      assert (prefix + q)[|prefix|..] == q;
    }
  }

  lemma PrefixSplits(p: string, s: string)
    requires p <= s
    ensures s == p + s[|p|..]
  {
  }

  lemma DestinationUnderRoot(path: string, q: string)
    ensures Destination(path) == Some(ROOT + q) <==> path == PAYLOAD + q
  {
    if PAYLOAD <= path {
      PrefixSplits(PAYLOAD, path);
      assert (ROOT + q)[|ROOT|..] == q && (ROOT + path[|PAYLOAD|..])[|ROOT|..] == path[|PAYLOAD|..];
    } else if LAUNCHD <= path {
      assert (LAUNCHD + path[|LAUNCHD|..])[0] == 'l' && (ROOT + q)[0] == 'r';
    }
    if path == PAYLOAD + q {
      assert path[|PAYLOAD|..] == q;
    }
  }

  /**
   A stage passes verification exactly when its marker names the pinned digest and the manifest's
   two directories, its files are the destinations of all records and one empty private lock, and
   each copy has the backup's bytes and the recorded mode.
   */
  lemma StagedExactly(s: Stage, b: Backup, digest: ManifestDigest, identity: bool)
    ensures StagedVerified(s, b, digest, identity) <==>
      && s.marker == Some(Marker(digest, b.manifest.installRoot, b.manifest.launchDir)) && identity
      && (forall p :: p in s.files <==> p == ROOT + LOCK || exists r :: r in b.manifest.files && Destination(r.path) == Some(p))
      && s.files[ROOT + LOCK] == File([], 384)
      && (forall r | r in b.manifest.files :: AsStaged(s, b, r))
  {
    forall r | r in b.manifest.files
      ensures CopyMatches(s, b, r) <==> AsStaged(s, b, r)
    {
    }
    assert forall p :: p in Destinations(b.manifest.files) <==> exists r :: r in b.manifest.files && Destination(r.path) == Some(p);
    if forall p :: p in s.files <==> p == ROOT + LOCK || exists r :: r in b.manifest.files && Destination(r.path) == Some(p) {
      assert s.files.Keys == Destinations(b.manifest.files) + {ROOT + LOCK};
    }
  }

  /** The record has a place, and what is there is an acceptable copy of the backup's file under the recorded mode. */
  predicate AsStaged(s: Stage, b: Backup, r: FileRecord) {
    && r.path in b.files && Destination(r.path).Some? && Destination(r.path).value in s.files
    && s.files[Destination(r.path).value] == File(b.files[r.path].bytes, r.mode)
    && 0 < |b.files[r.path].bytes| <= 256 * 1024 * 1024 && !WeakMode(b.files[r.path].mode) && !WeakMode(r.mode)
  }

  /** Distinct records go to distinct places, none of them the lock's. */
  lemma DestinationsDoNotCollide(p: string, q: string)
    requires Destination(p).Some? && Destination(p) == Destination(q)
    ensures p == q
  {
    if PAYLOAD <= p {
      PrefixSplits(PAYLOAD, p);
      DestinationUnderRoot(q, p[|PAYLOAD|..]);
    } else if PAYLOAD <= q {
      PrefixSplits(PAYLOAD, q);
      DestinationUnderRoot(p, q[|PAYLOAD|..]);
    } else {
      PrefixSplits(LAUNCHD, p);
      PrefixSplits(LAUNCHD, q);
      assert (LAUNCHD + p[|LAUNCHD|..])[|LAUNCHD|..] == p[|LAUNCHD|..];
      assert (LAUNCHD + q[|LAUNCHD|..])[|LAUNCHD|..] == q[|LAUNCHD|..];
    }
  }

  /** Every staged path stays below the stage: what follows the namespace is itself a safe path. */
  lemma DestinationsStayInside(b: Backup, r: FileRecord)
    requires FilesVerified(b) && r in b.manifest.files && Destination(r.path).Some?
    ensures exists rest {:trigger RelativePath.Safe(rest)} :: RelativePath.Safe(rest) && rest != "." && Destination(r.path).value in {ROOT + rest, LAUNCHD + rest}
  {
    assert RecordValid(r);
    if PAYLOAD <= r.path {
      PrefixSplits(PAYLOAD, r.path);
      assert PAYLOAD == "payload" + "/";
      RelativePath.SafeBelow("payload", r.path[|PAYLOAD|..]);
    } else {
      PrefixSplits(LAUNCHD, r.path);
      assert LAUNCHD == "launchd" + "/";
      RelativePath.SafeBelow("launchd", r.path[|LAUNCHD|..]);
    }
  }

  lemma StagedKeys(s: Stage, b: Backup, digest: ManifestDigest, q: string)
    requires StagedVerified(s, b, digest, true)
    ensures q in Below(s.files, ROOT) <==> q == LOCK || PAYLOAD + q in Paths(b.manifest.files)
  {
    BelowIsPrefixed(s.files, ROOT, q);
    assert ROOT + q == ROOT + LOCK <==> q == LOCK by {
      assert (ROOT + q)[|ROOT|..] == q && (ROOT + LOCK)[|ROOT|..] == LOCK;
    }
    if ROOT + q in Destinations(b.manifest.files) {
      var r :| r in b.manifest.files && Destination(r.path) == Some(ROOT + q);
      DestinationUnderRoot(r.path, q);
    }
    if PAYLOAD + q in Paths(b.manifest.files) {
      var r :| r in b.manifest.files && r.path == PAYLOAD + q;
      DestinationUnderRoot(r.path, q);
    }
  }

  /** The staged copy of a record holds the bytes the backup had when the stage was compared with it. */
  lemma StagedContent(s: Stage, m: Manifest, current: Tree, digest: ManifestDigest, r: FileRecord)
    requires StagedVerified(s, Backup(m, current), digest, true) && r in m.files
    ensures Destination(r.path).Some? && Destination(r.path).value in s.files && r.path in current
    ensures s.files[Destination(r.path).value] == File(current[r.path].bytes, r.mode)
  {
    assert CopyMatches(s, Backup(m, current), r);
  }

  /**
   The tree a manifest stands for, but with bytes taken from a tree read later: its paths and
   modes are the recorded ones whatever that tree holds.
   */
  ghost predicate InstallsFrom(m: Manifest, current: Tree, t: Tree) {
    && (forall q {:trigger q in t} :: q in t <==> q == LOCK || PAYLOAD + q in Paths(m.files))
    && LOCK in t && t[LOCK] == File([], LOCK_MODE)
    && (forall r | r in m.files && PAYLOAD <= r.path ::
          r.path in current && r.path[|PAYLOAD|..] in t && t[r.path[|PAYLOAD|..]] == File(current[r.path].bytes, r.mode))
  }

  /** The file still has the bytes that were recorded. */
  predicate Intact(r: FileRecord, current: Tree) {
    r.path in current && current[r.path].bytes == r.sha.preimage
  }

  /** What a verified stage installs, when the backup may have changed since it was verified itself. */
  lemma VerifiedStageInstallsWhatItWasComparedWith(s: Stage, m: Manifest, current: Tree, digest: ManifestDigest)
    requires StagedVerified(s, Backup(m, current), digest, true)
    ensures InstallsFrom(m, current, Below(s.files, ROOT))
  {
    var t := Below(s.files, ROOT);
    forall q
      ensures q in t <==> q == LOCK || PAYLOAD + q in Paths(m.files)
    {
      StagedKeys(s, Backup(m, current), digest, q);
    }
    BelowIsPrefixed(s.files, ROOT, LOCK);
    forall r | r in m.files && PAYLOAD <= r.path
      ensures r.path in current && r.path[|PAYLOAD|..] in t && t[r.path[|PAYLOAD|..]] == File(current[r.path].bytes, r.mode)
    {
      StagedContent(s, m, current, digest, r);
      BelowIsPrefixed(s.files, ROOT, r.path[|PAYLOAD|..]);
    }
  }

  /**
   The stage is compared with the backup as it is then, never with the recorded digests. What
   it installs is the manifest's tree exactly when every payload file was still intact.
   */
  lemma InstallsExactlyWhenIntact(m: Manifest, current: Tree, t: Tree)
    requires InstallsFrom(m, current, t)
    ensures Installs(m, t) <==> forall r | r in m.files && PAYLOAD <= r.path :: Intact(r, current)
  {
    if Installs(m, t) {
      forall r | r in m.files && PAYLOAD <= r.path
        ensures Intact(r, current)
      {
        assert t[r.path[|PAYLOAD|..]] == File(current[r.path].bytes, r.mode);
      }
    }
  }

  // Runs in which a backup of one file changes between its two readings.

  predicate Plain(piece: string) {
    RelativePath.Proper(piece) && '/' !in piece && '\\' !in piece && ':' !in piece
  }

  function OneRecord(name: string): FileRecord {
    FileRecord(PAYLOAD + name, 1, LOCK_MODE, Sha256([1]))
  }

  function OneFile(name: string): Manifest {
    Manifest([OneRecord(name)], "/i", "/l", "")
  }

  /** The backup of that one file, holding these bytes. */
  function Holding(name: string, bytes: Bytes): Backup {
    Backup(OneFile(name), map[PAYLOAD + name := File(bytes, LOCK_MODE)])
  }

  /** A stage of that backup, holding these bytes. */
  function StageHolding(name: string, bytes: Bytes): Stage {
    Stage(Some(MarkerOf(OfManifest(OneFile(name)), OneFile(name))),
          map[ROOT + name := File(bytes, LOCK_MODE), ROOT + LOCK := File([], LOCK_MODE)])
  }

  lemma PayloadPathIsSafe(name: string)
    requires Plain(name)
    ensures RelativePath.Safe(PAYLOAD + name) && name != LOCK
  {
    RelativePath.SplitCons("payload", name);
    RelativePath.SplitWhole(name);
    assert PAYLOAD + name == "payload" + "/" + name;
    RelativePath.SafeExactly("payload" + "/" + name);
    assert LOCK[18] == '/';
  }

  lemma ModeIsFine(bytes: Bytes)
    requires |bytes| == 1
    ensures Acceptable(File(bytes, LOCK_MODE))
  {
  }

  lemma OneRecordIsVerified(r: FileRecord, f: File, m: Manifest)
    requires m.files == [r] && RecordValid(r) && Matches(f, r) && r.path != PAYLOAD + LOCK
    ensures BackupVerified(Backup(m, map[r.path := f]), OfManifest(m), true)
  {
    assert m.files[0] == r && Paths(m.files) == {r.path};
  }

  lemma PrefixIsInjective(prefix: string, a: string, b: string)
    requires a != b
    ensures prefix + a != prefix + b
  {
    assert (prefix + a)[|prefix|..] == a && (prefix + b)[|prefix|..] == b;
  }

  lemma HoldingIsVerified(name: string)
    requires Plain(name)
    ensures BackupVerified(Holding(name, [1]), OfManifest(OneFile(name)), true)
  {
    PayloadPathIsSafe(name);
    PrefixIsInjective(PAYLOAD, name, LOCK);
    ModeIsFine([1]);
    OneRecordIsVerified(OneRecord(name), File([1], LOCK_MODE), OneFile(name));
  }

  lemma StageHoldingIsVerified(name: string, bytes: Bytes)
    requires Plain(name) && |bytes| == 1
    ensures StagedVerified(StageHolding(name, bytes), Holding(name, bytes), OfManifest(OneFile(name)), true)
  {
    var s, b, r := StageHolding(name, bytes), Holding(name, bytes), OneRecord(name);
    PayloadPathIsSafe(name);
    DestinationUnderRoot(PAYLOAD + name, name);
    PrefixIsInjective(ROOT, name, LOCK);
    ModeIsFine(bytes);
    assert OneFile(name).files[0] == r && Destinations(OneFile(name).files) == {ROOT + name};
    assert CopyMatches(s, b, r);
  }

  /**
   Whatever the file is called: the backup is verified with the byte 1 and then holds another. A
   stage with that other byte passes the comparison, and what it installs is not the manifest's
   tree.
   */
  lemma ChangedPayloadIsInstalled(name: string, bytes: Bytes)
    requires Plain(name) && |bytes| == 1 && bytes != [1]
    ensures BackupVerified(Holding(name, [1]), OfManifest(OneFile(name)), true)
    ensures StagedVerified(StageHolding(name, bytes), Backup(OneFile(name), Holding(name, bytes).files), OfManifest(OneFile(name)), true)
    ensures InstallsFrom(OneFile(name), Holding(name, bytes).files, Below(StageHolding(name, bytes).files, ROOT))
    ensures !Installs(OneFile(name), Below(StageHolding(name, bytes).files, ROOT))
  {
    var m, current, t := OneFile(name), Holding(name, bytes).files, Below(StageHolding(name, bytes).files, ROOT);
    HoldingIsVerified(name);
    StageHoldingIsVerified(name, bytes);
    VerifiedStageInstallsWhatItWasComparedWith(StageHolding(name, bytes), m, current, OfManifest(m));
    InstallsExactlyWhenIntact(m, current, t);
    assert m.files[0] == OneRecord(name) && PAYLOAD <= PAYLOAD + name && !Intact(OneRecord(name), current);
  }

  /** A verified stage of a verified backup that did not change holds exactly the tree of the pinned manifest. */
  lemma VerifiedStageIsTheManifestTree(s: Stage, b: Backup, digest: ManifestDigest)
    requires BackupVerified(b, digest, true) && StagedVerified(s, b, digest, true)
    ensures Installs(digest.manifest, Below(s.files, ROOT))
  {
    VerifiedStageInstallsWhatItWasComparedWith(s, b.manifest, b.files, digest);
    forall r | r in b.manifest.files
      ensures Intact(r, b.files)
    {
      assert Matches(b.files[r.path], r);
    }
    InstallsExactlyWhenIntact(b.manifest, b.files, Below(s.files, ROOT));
  }

  lemma InstalledTreeIsUnique(m: Manifest, t: Tree, u: Tree)
    requires Installs(m, t) && Installs(m, u)
    ensures t == u
  {
    assert t.Keys == u.Keys by {
      forall q
        ensures q in t <==> q in u
      {
      }
    }
    forall q | q in t
      ensures t[q] == u[q]
    {
      if q != LOCK {
        var r :| r in m.files && r.path == PAYLOAD + q;
        assert r.path[|PAYLOAD|..] == q;
      }
    }
  }

  /** Two stages verified under one digest, from whatever backups, install the same tree. */
  lemma SameDigestSameTree(s: Stage, b: Backup, s': Stage, b': Backup, digest: ManifestDigest)
    requires BackupVerified(b, digest, true) && StagedVerified(s, b, digest, true)
    requires BackupVerified(b', digest, true) && StagedVerified(s', b', digest, true)
    ensures Below(s.files, ROOT) == Below(s'.files, ROOT)
  {
    VerifiedStageIsTheManifestTree(s, b, digest);
    VerifiedStageIsTheManifestTree(s', b', digest);
    InstalledTreeIsUnique(digest.manifest, Below(s.files, ROOT), Below(s'.files, ROOT));
  }

  /**
   Round trip: restoring under the digest of a backup, even from another copy of it, installs
   that backup's payload file by file, plus the empty lock.
   */
  lemma RestoreReturnsTheBackup(original: Backup, s: Stage, b: Backup, digest: ManifestDigest, q: string)
    requires BackupVerified(original, digest, true)
    requires BackupVerified(b, digest, true) && StagedVerified(s, b, digest, true)
    ensures var t := Below(s.files, ROOT);
      && (q in t <==> q == LOCK || PAYLOAD + q in original.files)
      && (PAYLOAD + q in original.files ==> t[q] == original.files[PAYLOAD + q])
  {
    VerifiedStageIsTheManifestTree(s, b, digest);
    if PAYLOAD + q in original.files {
      var r :| r in original.manifest.files && r.path == PAYLOAD + q;
      assert r.path[|PAYLOAD|..] == q;
      assert Matches(original.files[r.path], r);
    }
  }
}
