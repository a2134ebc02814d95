/** The durable upgrade-transaction record: its validity, its commands, and whole runs of them. */
module UpgradeTransaction {
  import opened Common

  const MAX_TOKEN: nat := 180
  const MAX_REASON: nat := 80
  const COMMIT_LENGTH: nat := 40

  datatype Phase =
    | BuildOrStage
    | HandoffStage
    | Backup
    | ServiceDrain
    | AuthorityMigration
    | Install
    | Restart
    | PostVerify
    | Cleanup
    | CompletedPhase

  /** The position of a phase in `PHASES`. */
  function Index(p: Phase): nat {
    match p
    case BuildOrStage => 0
    case HandoffStage => 1
    case Backup => 2
    case ServiceDrain => 3
    case AuthorityMigration => 4
    case Install => 5
    case Restart => 6
    case PostVerify => 7
    case Cleanup => 8
    case CompletedPhase => 9
  }

  datatype TxStatus = InProgress | CompletedStatus | FailedBeforeInstall | FailedClosedAfterStop | OperatorActionRequired

  datatype Flag =
    | RuntimeManifestVerified
    | LaunchdTopologySafe
    | MutationAuthorityVerified
    | QuarantineClear
    | HandoffRuntimePaired
    | ServicesRestarted
    | DoctorHealthy
    | CleanupCompleted
    | RollbackAssetCreated

  const AllFlags: set<Flag> := {
    RuntimeManifestVerified, LaunchdTopologySafe, MutationAuthorityVerified, QuarantineClear, HandoffRuntimePaired,
    ServicesRestarted, DoctorHealthy, CleanupCompleted, RollbackAssetCreated }

  datatype Role = V1 | V2

  /** The record; `done` is the set of completion flags that are true. */
  datatype Record = Record(
    transactionId: string,
    status: TxStatus,
    phase: Phase,
    startedAtMs: int,
    updatedAtMs: int,
    cumgCommit: string,
    handoffCommit: string,
    runtimeGeneration: Option<string>,
    rollbackAsset: Option<string>,
    owner: Option<Role>,
    epoch: Option<int>,
    done: set<Flag>,
    failureReason: Option<string>,
    operatorAction: Option<string>)

  predicate Token(s: string) {
    1 <= |s| <= MAX_TOKEN && forall c | c in s :: 'A' <= c <= 'Z' || 'a' <= c <= 'z' || '0' <= c <= '9' || c in {'.', '_', '-'}
  }

  predicate Commit(s: string) {
    |s| == COMMIT_LENGTH && forall c | c in s :: '0' <= c <= '9' || 'a' <= c <= 'f'
  }

  predicate Reason(s: string) {
    1 <= |s| <= MAX_REASON && forall c | c in s :: 'a' <= c <= 'z' || '0' <= c <= '9' || c == '_'
  }

  /** `_validate_record`, on records whose JSON types are already right. */
  predicate Valid(r: Record) {
    && Token(r.transactionId)
    && 0 < r.startedAtMs <= r.updatedAtMs
    && Commit(r.cumgCommit) && Commit(r.handoffCommit)
    && (r.runtimeGeneration.Some? ==> Token(r.runtimeGeneration.value))
    && (r.rollbackAsset.Some? ==> Token(r.rollbackAsset.value))
    && (r.failureReason.Some? ==> Reason(r.failureReason.value))
    && (r.operatorAction.Some? ==> Reason(r.operatorAction.value))
    && (r.epoch.Some? ==> r.epoch.value >= 1)
    && (r.status.CompletedStatus? ==> CompletionContract(r))
    && (!r.status.CompletedStatus? ==> !r.phase.CompletedPhase?)
  }

  /** What a record must hold to be stored as completed. */
  predicate CompletionContract(r: Record) {
    && r.phase.CompletedPhase? && r.failureReason.None?
    && r.done == AllFlags
    && r.runtimeGeneration.Some? && r.rollbackAsset.Some?
    && r.owner == Some(V2) && r.epoch.Some?
  }

  // ------------------------------------------------- what the checks accept

  const LOWER: set<char> := { 'a', 'b', 'c', 'd', 'e', 'f', 'g', 'h', 'i', 'j', 'k', 'l', 'm', 'n', 'o', 'p', 'q', 'r', 's', 't', 'u', 'v', 'w', 'x', 'y', 'z' }
  const UPPER: set<char> := { 'A', 'B', 'C', 'D', 'E', 'F', 'G', 'H', 'I', 'J', 'K', 'L', 'M', 'N', 'O', 'P', 'Q', 'R', 'S', 'T', 'U', 'V', 'W', 'X', 'Y', 'Z' }
  const DIGITS: set<char> := { '0', '1', '2', '3', '4', '5', '6', '7', '8', '9' }

  lemma Ranges(c: char)
    ensures c in LOWER <==> 'a' <= c <= 'z'
    ensures c in UPPER <==> 'A' <= c <= 'Z'
    ensures c in DIGITS <==> '0' <= c <= '9'
  {
  }

  /** The three kinds of word a record may hold, by length and alphabet. */
  lemma WordsExactly(s: string)
    ensures Commit(s) <==> |s| == 40 && forall c | c in s :: c in DIGITS || c in {'a', 'b', 'c', 'd', 'e', 'f'}
    ensures Token(s) <==> 0 < |s| <= 180 && forall c | c in s :: c in LOWER || c in UPPER || c in DIGITS || c in {'.', '_', '-'}
    ensures Reason(s) <==> 0 < |s| <= 80 && forall c | c in s :: c in LOWER || c in DIGITS || c in {'_'}
  {
    forall c | c in s
      ensures c in LOWER <==> 'a' <= c <= 'z'
      ensures c in UPPER <==> 'A' <= c <= 'Z'
      ensures c in DIGITS <==> '0' <= c <= '9'
    {
      Ranges(c);
    }
  }

  const PHASES: seq<Phase> := [
    BuildOrStage, HandoffStage, Backup, ServiceDrain, AuthorityMigration, Install, Restart, PostVerify, Cleanup, CompletedPhase ]

  /** A phase stands in the order at its own index. */
  lemma PhasesInOrder(p: Phase)
    ensures Index(p) < |PHASES| && PHASES[Index(p)] == p
  {
    match p
    case BuildOrStage => case HandoffStage => case Backup => case ServiceDrain => case AuthorityMigration =>
    case Install => case Restart => case PostVerify => case Cleanup => case CompletedPhase =>
  }

  lemma EveryFlag()
    ensures forall f: Flag :: f in AllFlags
  {
    forall f: Flag
      ensures f in AllFlags
    {
      match f
      case RuntimeManifestVerified => case LaunchdTopologySafe => case MutationAuthorityVerified =>
      case QuarantineClear => case HandoffRuntimePaired => case ServicesRestarted =>
      case DoctorHealthy => case CleanupCompleted => case RollbackAssetCreated =>
    }
  }

  /** A completed record: every check passed, both identities known, version two in charge, no failure. */
  predicate Done(r: Record) {
    && r.status == CompletedStatus && r.phase == CompletedPhase && r.failureReason == None
    && (forall f: Flag :: f in r.done)
    && r.runtimeGeneration != None && r.rollbackAsset != None && r.owner == Some(V2) && r.epoch != None
  }

  /** Validation accepts a record exactly when its words and times are in order and it is completed in phase if and only if it is done. */
  lemma ValidExactly(r: Record)
    ensures Valid(r) <==>
      && Token(r.transactionId) && Commit(r.cumgCommit) && Commit(r.handoffCommit)
      && r.startedAtMs > 0 && r.updatedAtMs >= r.startedAtMs
      && (r.runtimeGeneration.None? || Token(r.runtimeGeneration.value)) && (r.rollbackAsset.None? || Token(r.rollbackAsset.value))
      && (r.failureReason.None? || Reason(r.failureReason.value)) && (r.operatorAction.None? || Reason(r.operatorAction.value))
      && (r.epoch.None? || r.epoch.value > 0)
      && (if r.status == CompletedStatus then Done(r) else r.phase != CompletedPhase)
  {
    EveryFlag();
  }

  function Max(a: int, b: int): int {
    if a >= b then a else b
  }

  // ----------------------------------------------------------------- commands

  datatype Command =
    | Start(cumg: string, handoff: string, transactionId: string)
    | Advance(phase: Option<Phase>, runtimeGeneration: Option<string>, rollbackAsset: Option<string>,
              owner: Option<Role>, epoch: Option<int>, flags: seq<Flag>)
    | Fail(status: TxStatus, reason: string, action: string)
    | Complete
    | CompleteDeferredCleanup(transactionId: string, cumg: string, generation: string)

  /** A transaction may be replaced only when it finished or failed before installing. */
  predicate Replaceable(s: TxStatus) {
    s.CompletedStatus? || s.FailedBeforeInstall?
  }

  function Fresh(cumg: string, handoff: string, transactionId: string, now: int): Record {
    Record(transactionId, InProgress, BuildOrStage, now, now, cumg, handoff, None, None, None, None, {}, None, None)
  }

  function Advanced(r: Record, c: Command, now: int): Record
    requires c.Advance?
  {
    r.(phase := if c.phase.Some? then c.phase.value else r.phase,
       runtimeGeneration := if c.runtimeGeneration.Some? then c.runtimeGeneration else r.runtimeGeneration,
       rollbackAsset := if c.rollbackAsset.Some? then c.rollbackAsset else r.rollbackAsset,
       owner := if c.owner.Some? || c.epoch.Some? then c.owner else r.owner,
       epoch := if c.owner.Some? || c.epoch.Some? then c.epoch else r.epoch,
       done := r.done + (set f | f in c.flags),
       updatedAtMs := Max(now, r.updatedAtMs))
  }

  predicate MayAdvance(r: Record, c: Command)
    requires c.Advance?
  {
    && r.status.InProgress?
    && (c.phase.Some? ==> !c.phase.value.CompletedPhase? && Index(c.phase.value) >= Index(r.phase))
    && (c.runtimeGeneration.Some? ==> Token(c.runtimeGeneration.value))
    && (c.rollbackAsset.Some? ==> Token(c.rollbackAsset.value))
    && (c.owner.Some? || c.epoch.Some? ==> c.owner.Some? && c.epoch.Some? && c.epoch.value >= 1)
  }

  function Finished(r: Record, now: int): Record {
    r.(status := CompletedStatus, phase := CompletedPhase, failureReason := None, operatorAction := None,
       updatedAtMs := Max(now, r.updatedAtMs))
  }

  /** `inspect_deferred_cleanup`: the one failure that can still be completed. */
  predicate DeferredCleanup(r: Record, cumg: string, runtimeGeneration: string) {
    && Commit(cumg) && Token(runtimeGeneration)
    && r.status.OperatorActionRequired? && r.phase.Cleanup?
    && r.failureReason == Some("cleanup_safety_refusal")
    && r.operatorAction == Some("inspect_upgrade_status")
    && r.cumgCommit == cumg && r.runtimeGeneration == Some(runtimeGeneration)
    && r.done == AllFlags - {CleanupCompleted}
    && r.rollbackAsset.Some?
    && r.owner == Some(V2) && r.epoch.Some?
  }

  /**
   The record a command wants stored; `None` when it refuses. `fail` on a record that is
   no longer in progress returns it as it is.
   */
  function Proposed(file: Option<Record>, c: Command, now: int): Option<Record> {
    match c
    case Start(cumg, handoff, id) =>
      if Commit(cumg) && Commit(handoff) && (file.Some? ==> Valid(file.value) && Replaceable(file.value.status)) && Token(id)
      then Some(Fresh(cumg, handoff, id, now)) else None
    case Advance(_, _, _, _, _, _) =>
      if file.Some? && Valid(file.value) && MayAdvance(file.value, c) then Some(Advanced(file.value, c, now)) else None
    case Fail(status, reason, action) =>
      if status.InProgress? || status.CompletedStatus? || !Reason(reason) || !Reason(action) || file.None? || !Valid(file.value) then None
      else if !file.value.status.InProgress? then None
      else Some(file.value.(status := status, failureReason := Some(reason), operatorAction := Some(action),
                            updatedAtMs := Max(now, file.value.updatedAtMs)))
    case Complete =>
      if file.Some? && Valid(file.value) && file.value.status.InProgress? && file.value.phase.Cleanup?
      then Some(Finished(file.value, now)) else None
    case CompleteDeferredCleanup(id, cumg, generation) =>
      if Token(id) && file.Some? && Valid(file.value) && DeferredCleanup(file.value, cumg, generation) && file.value.transactionId == id
      then Some(Finished(file.value.(done := file.value.done + {CleanupCompleted}), now)) else None
  }

  /** How the atomic write went: it can fail before or after the rename that makes it durable. */
  datatype Write = Written | FailedBefore | FailedAfter

  /** The durable file after a command: every write is validated first. */
  function Run1(file: Option<Record>, c: Command, now: int, write: Write): Option<Record> {
    match Proposed(file, c, now)
    case None => file
    case Some(r) => if Valid(r) && !write.FailedBefore? then Some(r) else file
  }

  /** A `fail` that finds the transaction already settled and returns it as it is. */
  predicate AlreadySettled(file: Option<Record>, c: Command) {
    && c.Fail? && !c.status.InProgress? && !c.status.CompletedStatus? && Reason(c.reason) && Reason(c.action)
    && file.Some? && Valid(file.value) && !file.value.status.InProgress?
  }

  /** Whether a command returns a record rather than raising. */
  predicate Returns(file: Option<Record>, c: Command, now: int, write: Write) {
    var r := Proposed(file, c, now);
    (r.Some? && Valid(r.value) && write.Written?) || AlreadySettled(file, c)
  }

  datatype Call = Call(command: Command, now: int, write: Write)

  function Execute(calls: seq<Call>): Option<Record> {
    if calls == [] then None
    else
      var last := calls[|calls| - 1];
      Run1(Execute(calls[..|calls| - 1]), last.command, last.now, last.write)
  }

  // ----------------------------------------------------------------- theorems

  /** Only valid records are ever stored; in particular a completed one satisfies its contract. */
  lemma {:induction false} StoredRecordsAreValid(calls: seq<Call>)
    ensures Execute(calls).Some? ==> Valid(Execute(calls).value)
  {
    if calls != [] {
      StoredRecordsAreValid(calls[..|calls| - 1]);
    }
  }

  lemma CompletedMeansTheWholeContract(calls: seq<Call>)
    requires Execute(calls).Some? && Execute(calls).value.status.CompletedStatus?
    ensures CompletionContract(Execute(calls).value) && Done(Execute(calls).value)
  {
    StoredRecordsAreValid(calls);
    ValidExactly(Execute(calls).value);
  }

  // -------------------------------------------------------- exact outcomes

  /** The record a `start` stores: the arguments, the clock, and nothing else yet. */
  ghost predicate StartOutcome(file: Option<Record>, cumg: string, handoff: string, id: string, now: int, write: Write, after: Option<Record>, ok: bool) {
    var free := file.None? || (Valid(file.value) && file.value.status in {CompletedStatus, FailedBeforeInstall});
    var accepted := Commit(cumg) && Commit(handoff) && Token(id) && now > 0 && free;
    && (ok <==> accepted && write == Written)
    && (after != file ==> accepted && write != FailedBefore)
    && (accepted && write != FailedBefore ==>
          && after.Some? && after.value.transactionId == id && after.value.cumgCommit == cumg && after.value.handoffCommit == handoff
          && after.value.startedAtMs == now && after.value.updatedAtMs == now
          && after.value.status == InProgress && after.value.phase == BuildOrStage && after.value.done == {}
          && after.value.runtimeGeneration == None && after.value.rollbackAsset == None && after.value.owner == None && after.value.epoch == None
          && after.value.failureReason == None && after.value.operatorAction == None)
  }

  lemma StartsExactly(file: Option<Record>, cumg: string, handoff: string, id: string, now: int, write: Write)
    ensures var c := Start(cumg, handoff, id);
      StartOutcome(file, cumg, handoff, id, now, write, Run1(file, c, now, write), Returns(file, c, now, write))
  {
  }

  /**
   The record an `advance` stores: each field given replaces the old one, owner and epoch only
   together, listed flags are raised and none lowered, and the time stamp never goes back.
   */
  ghost predicate AdvanceOutcome(file: Option<Record>, phase: Option<Phase>, generation: Option<string>, asset: Option<string>,
                                 owner: Option<Role>, epoch: Option<int>, flags: seq<Flag>, now: int, write: Write, after: Option<Record>, ok: bool) {
    var open := file.Some? && Valid(file.value) && file.value.status == InProgress;
    var accepted :=
      && open
      && (phase.Some? ==> phase.value != CompletedPhase && Index(file.value.phase) <= Index(phase.value))
      && (generation.Some? ==> Token(generation.value)) && (asset.Some? ==> Token(asset.value))
      && ((owner.None? && epoch.None?) || (owner.Some? && epoch.Some? && epoch.value > 0));
    && (ok <==> accepted && write == Written)
    && (after != file ==> accepted && write != FailedBefore)
    && (accepted && write != FailedBefore ==>
          && after.Some? && after.value.status == InProgress
          && after.value.phase == (if phase.Some? then phase.value else file.value.phase)
          && after.value.runtimeGeneration == (if generation.Some? then generation else file.value.runtimeGeneration)
          && after.value.rollbackAsset == (if asset.Some? then asset else file.value.rollbackAsset)
          && after.value.owner == (if owner.Some? then owner else file.value.owner)
          && after.value.epoch == (if epoch.Some? then epoch else file.value.epoch)
          && (forall f :: f in after.value.done <==> f in file.value.done || f in flags)
          && after.value.updatedAtMs == (if now > file.value.updatedAtMs then now else file.value.updatedAtMs)
          && SameOrigin(after.value, file.value)
          && after.value.failureReason == file.value.failureReason && after.value.operatorAction == file.value.operatorAction)
  }

  /** The same transaction: its id, its start and its two commits. */
  predicate SameOrigin(a: Record, b: Record) {
    a.transactionId == b.transactionId && a.startedAtMs == b.startedAtMs && a.cumgCommit == b.cumgCommit && a.handoffCommit == b.handoffCommit
  }

  lemma AdvancedIsValid(r: Record, c: Command, now: int)
    requires c.Advance? && Valid(r) && MayAdvance(r, c)
    ensures Valid(Advanced(r, c, now))
  {
  }

  lemma AdvancesExactly(file: Option<Record>, phase: Option<Phase>, generation: Option<string>, asset: Option<string>,
                        owner: Option<Role>, epoch: Option<int>, flags: seq<Flag>, now: int, write: Write)
    ensures var c := Advance(phase, generation, asset, owner, epoch, flags);
      AdvanceOutcome(file, phase, generation, asset, owner, epoch, flags, now, write, Run1(file, c, now, write), Returns(file, c, now, write))
  {
    var c := Advance(phase, generation, asset, owner, epoch, flags);
    if file.Some? && Valid(file.value) && MayAdvance(file.value, c) {
      AdvancedIsValid(file.value, c, now);
    }
  }

  /** A `fail` of an open transaction stores its three arguments; of a settled one it returns what is there. */
  ghost predicate FailOutcome(file: Option<Record>, status: TxStatus, reason: string, action: string, now: int, write: Write, after: Option<Record>, ok: bool) {
    var legal := status in {FailedBeforeInstall, FailedClosedAfterStop, OperatorActionRequired} && Reason(reason) && Reason(action)
      && file.Some? && Valid(file.value);
    var open := legal && file.value.status == InProgress;
    && (ok <==> legal && (open ==> write == Written))
    && (after != file ==> open && write != FailedBefore)
    && (open && write != FailedBefore ==>
          && after.Some? && SameOrigin(after.value, file.value)
          && after.value.status == status && after.value.failureReason == Some(reason) && after.value.operatorAction == Some(action)
          && after.value.phase == file.value.phase && after.value.done == file.value.done
          && after.value.runtimeGeneration == file.value.runtimeGeneration && after.value.rollbackAsset == file.value.rollbackAsset
          && after.value.owner == file.value.owner && after.value.epoch == file.value.epoch
          && after.value.updatedAtMs == (if now > file.value.updatedAtMs then now else file.value.updatedAtMs))
  }

  lemma FailsExactly(file: Option<Record>, status: TxStatus, reason: string, action: string, now: int, write: Write)
    ensures var c := Fail(status, reason, action);
      FailOutcome(file, status, reason, action, now, write, Run1(file, c, now, write), Returns(file, c, now, write))
  {
  }

  /** The stored record is the old one, done, with no failure on it. */
  predicate DoneFrom(r: Record, before: Record, now: int) {
    && SameOrigin(r, before) && Done(r) && r.operatorAction == None
    && r.runtimeGeneration == before.runtimeGeneration && r.rollbackAsset == before.rollbackAsset
    && r.owner == before.owner && r.epoch == before.epoch
    && r.updatedAtMs == (if now > before.updatedAtMs then now else before.updatedAtMs)
  }

  /** A `complete` goes through exactly for an open transaction in its cleanup phase with every flag, identity and version two in place. */
  ghost predicate CompleteOutcome(file: Option<Record>, now: int, write: Write, after: Option<Record>, ok: bool) {
    var ready :=
      && file.Some? && Valid(file.value) && file.value.status == InProgress && file.value.phase == Cleanup
      && (forall f: Flag :: f in file.value.done)
      && file.value.runtimeGeneration != None && file.value.rollbackAsset != None && file.value.owner == Some(V2) && file.value.epoch != None;
    && (ok <==> ready && write == Written)
    && (after != file ==> ready && write != FailedBefore)
    && (ready && write != FailedBefore ==> after.Some? && DoneFrom(after.value, file.value, now))
  }

  lemma CompletesExactly(file: Option<Record>, now: int, write: Write)
    ensures CompleteOutcome(file, now, write, Run1(file, Complete, now, write), Returns(file, Complete, now, write))
  {
    if file.Some? {
      ValidExactly(Finished(file.value, now));
    }
  }

  /**
   A deferred cleanup goes through exactly for the one failure of a refused cleanup, under that
   transaction's own id, commit and generation, with every flag but the cleanup's in place.
   */
  ghost predicate DeferredOutcome(file: Option<Record>, id: string, cumg: string, generation: string, now: int, write: Write, after: Option<Record>, ok: bool) {
    var ready :=
      && file.Some? && Valid(file.value) && file.value.transactionId == id && file.value.cumgCommit == cumg
      && file.value.runtimeGeneration == Some(generation)
      && file.value.status == OperatorActionRequired && file.value.phase == Cleanup
      && file.value.failureReason == Some("cleanup_safety_refusal") && file.value.operatorAction == Some("inspect_upgrade_status")
      && (forall f: Flag :: f in file.value.done <==> f != CleanupCompleted)
      && file.value.rollbackAsset != None && file.value.owner == Some(V2) && file.value.epoch != None;
    && (ok <==> ready && write == Written)
    && (after != file ==> ready && write != FailedBefore)
    && (ready && write != FailedBefore ==> after.Some? && DoneFrom(after.value, file.value, now))
  }

  lemma AllButCleanup(done: set<Flag>)
    ensures done == AllFlags - {CleanupCompleted} <==> forall f: Flag :: f in done <==> f != CleanupCompleted
  {
    EveryFlag();
    if forall f: Flag :: f in done <==> f != CleanupCompleted {
      assert done == AllFlags - {CleanupCompleted};
    }
  }

  lemma DefersExactly(file: Option<Record>, id: string, cumg: string, generation: string, now: int, write: Write)
    ensures var c := CompleteDeferredCleanup(id, cumg, generation);
      DeferredOutcome(file, id, cumg, generation, now, write, Run1(file, c, now, write), Returns(file, c, now, write))
  {
    if file.Some? {
      AllButCleanup(file.value.done);
      ValidExactly(Finished(file.value.(done := file.value.done + {CleanupCompleted}), now));
    }
  }

  /** The same transaction, no earlier in any respect. */
  predicate Onward(a: Record, b: Record) {
    && b.transactionId == a.transactionId && b.startedAtMs == a.startedAtMs
    && b.cumgCommit == a.cumgCommit && b.handoffCommit == a.handoffCommit
    && Index(a.phase) <= Index(b.phase)
    && a.done <= b.done
    && a.updatedAtMs <= b.updatedAtMs
    && (a.runtimeGeneration.Some? ==> b.runtimeGeneration.Some?)
    && (a.rollbackAsset.Some? ==> b.rollbackAsset.Some?)
  }

  /** Which statuses one command may lead to. */
  predicate StatusStep(a: Record, b: Record) {
    match a.status
    case InProgress => true
    case CompletedStatus => b == a
    case FailedBeforeInstall => b == a
    case FailedClosedAfterStop => b == a
    case OperatorActionRequired =>
      b == a || (&& DeferredCleanup(a, a.cumgCommit, if a.runtimeGeneration.Some? then a.runtimeGeneration.value else "")
                 && b.status.CompletedStatus? && b.done == a.done + {CleanupCompleted})
  }

  lemma StepGoesOnward(file: Option<Record>, c: Command, now: int, write: Write)
    requires file.Some? && Valid(file.value)
    ensures var after := Run1(file, c, now, write);
      && after.Some?
      && ((Onward(file.value, after.value) && StatusStep(file.value, after.value))
          || (c.Start? && Replaceable(file.value.status) && after == Some(Fresh(c.cumg, c.handoff, c.transactionId, now))))
  {
  }

  /** No command of this stretch of a run is a `start` that replaced the record. */
  predicate SameTransaction(calls: seq<Call>, n: nat)
    requires n <= |calls|
  {
    forall i | n <= i < |calls| :: calls[i].command.Start? ==> Execute(calls[..i + 1]) == Execute(calls[..i])
  }

  /** Within a transaction nothing regresses, whatever the clock and the disk do. */
  lemma {:induction false} TransactionsNeverRegress(calls: seq<Call>, n: nat)
    requires n <= |calls| && Execute(calls[..n]).Some? && SameTransaction(calls, n)
    ensures Execute(calls).Some? && Onward(Execute(calls[..n]).value, Execute(calls).value)
  {
    if n == |calls| {
      assert calls[..n] == calls;
    } else {
      var before, last := calls[..|calls| - 1], calls[|calls| - 1];
      forall i | n <= i < |before|
        ensures before[i].command.Start? ==> Execute(before[..i + 1]) == Execute(before[..i])
      {
        assert before[..i + 1] == calls[..i + 1] && before[..i] == calls[..i];
      }
      assert before[..n] == calls[..n] && calls[..|calls|] == calls;
      TransactionsNeverRegress(before, n);
      StoredRecordsAreValid(before);
      StepGoesOnward(Execute(before), last.command, last.now, last.write);
    }
  }

  /** `failed_closed_after_stop` is final: no command, and no later `start`, changes it. */
  lemma {:induction false} FailedClosedIsAbsorbing(calls: seq<Call>, n: nat)
    requires n <= |calls| && Execute(calls[..n]).Some? && Execute(calls[..n]).value.status.FailedClosedAfterStop?
    ensures Execute(calls) == Execute(calls[..n])
  {
    if n == |calls| {
      assert calls[..n] == calls;
    } else {
      var before := calls[..|calls| - 1];
      assert before[..n] == calls[..n];
      FailedClosedIsAbsorbing(before, n);
    }
  }

  /**
   `operator_action_required` is left only by completing a deferred cleanup under its own
   transaction id, commit and generation, and the result is then completed.
   */
  lemma OperatorActionLeftOnlyByDeferredCleanup(calls: seq<Call>, call: Call)
    requires Execute(calls).Some? && Execute(calls).value.status.OperatorActionRequired?
    requires Execute(calls + [call]) != Execute(calls)
    ensures var a, b := Execute(calls).value, Execute(calls + [call]);
      && call.command.CompleteDeferredCleanup?
      && call.command.transactionId == a.transactionId
      && DeferredCleanup(a, call.command.cumg, call.command.generation)
      && b.Some? && b.value.status.CompletedStatus? && CompletionContract(b.value)
  {
    assert (calls + [call])[..|calls|] == calls;
    StoredRecordsAreValid(calls);
  }

  /** In progress at the cleanup phase, with everything but the cleanup flag in place. */
  predicate AwaitsCleanupOnly(r: Record) {
    && Valid(r) && r.status.InProgress? && r.phase.Cleanup?
    && r.done == AllFlags - {CleanupCompleted}
    && r.runtimeGeneration.Some? && r.rollbackAsset.Some? && r.owner == Some(V2) && r.epoch.Some?
  }

  lemma ReasonsAreValid()
    ensures Reason("cleanup_safety_refusal") && Reason("inspect_upgrade_status")
  {
  }

  const RefuseCleanup := Fail(OperatorActionRequired, "cleanup_safety_refusal", "inspect_upgrade_status")

  /** The record stored by failing with a refused cleanup and completing it later. */
  function DeferredRoute(r: Record, t1: int, t2: int): Option<Record>
    requires AwaitsCleanupOnly(r)
  {
    Run1(Run1(Some(r), RefuseCleanup, t1, Written),
         CompleteDeferredCleanup(r.transactionId, r.cumgCommit, r.runtimeGeneration.value), t2, Written)
  }

  /** The record stored by flagging the cleanup and completing at once. */
  function DirectRoute(r: Record, t1: int, t2: int): Option<Record>
    requires AwaitsCleanupOnly(r)
  {
    Run1(Run1(Some(r), Advance(None, None, None, None, None, [CleanupCompleted]), t1, Written), Complete, t2, Written)
  }

  lemma DeferredRouteCompletes(r: Record, t1: int, t2: int)
    requires AwaitsCleanupOnly(r)
    ensures DeferredRoute(r, t1, t2) == Some(Finished(r.(done := AllFlags, updatedAtMs := Max(t1, r.updatedAtMs)), t2))
  {
    ReasonsAreValid();
    assert AllFlags - {CleanupCompleted} + {CleanupCompleted} == AllFlags;
  }

  lemma DirectRouteCompletes(r: Record, t1: int, t2: int)
    requires AwaitsCleanupOnly(r)
    ensures DirectRoute(r, t1, t2) == Some(Finished(r.(done := AllFlags, updatedAtMs := Max(t1, r.updatedAtMs)), t2))
  {
    var flags := [CleanupCompleted];
    assert (set f | f in flags) == {CleanupCompleted};
    assert AllFlags - {CleanupCompleted} + {CleanupCompleted} == AllFlags;
  }

  /** Both routes store the same completed record, up to the time stamp. */
  lemma DeferredCleanupIsTheSameCompletion(r: Record, t1: int, t2: int, t3: int, t4: int)
    requires AwaitsCleanupOnly(r)
    ensures var deferred, direct := DeferredRoute(r, t1, t2), DirectRoute(r, t3, t4);
      && deferred.Some? && direct.Some?
      && deferred.value.status.CompletedStatus?
      && deferred.value.(updatedAtMs := 0) == direct.value.(updatedAtMs := 0)
  {
    DeferredRouteCompletes(r, t1, t2);
    DirectRouteCompletes(r, t3, t4);
  }
}
