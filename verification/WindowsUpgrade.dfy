/**
 The paired Windows upgrade: several files replaced one by one under a durable
 status record. Every durable write is appended to a trail, so what holds of the
 whole trail holds at every point where the process could stop or be killed.
 */
module WindowsUpgrade {
  import opened Common

  const WINDOWS_BINARIES: seq<string> := ["v2_hub.exe", "v2_agent.exe", "v2_maint.exe", "v2_keyctl.exe", "v2_tls_check.exe"]

  /** The tracked paths: the runtime binaries and the two active configurations. */
  datatype Slot = Binary(name: string) | HubConfig | AgentConfig

  datatype FileState = Absent | Regular(bytes: Bytes) | Symlink

  type Files = map<Slot, FileState>

  predicate Tracked(s: Slot) {
    s.Binary? ==> s.name in WINDOWS_BINARIES
  }

  function At(active: Files, s: Slot): FileState {
    if s in active then active[s] else Absent
  }

  /** Two trees that agree on every tracked path. */
  ghost predicate Same(a: Files, b: Files) {
    forall s {:trigger At(a, s)} {:trigger At(b, s)} | Tracked(s) :: At(a, s) == At(b, s)
  }

  /** The reviewed candidate: a digest per binary and the two configurations. */
  datatype Candidate = Candidate(files: map<string, Digest>, hub: Bytes, agent: Bytes) {
    predicate Complete() {
      forall n | n in WINDOWS_BINARIES :: n in files
    }
  }

  /** The active tree is the candidate set; `configs` says whether the configurations are included. */
  ghost predicate AllNew(active: Files, c: Candidate, configs: bool)
    requires c.Complete()
  {
    && (forall n {:trigger At(active, Binary(n))} | n in WINDOWS_BINARIES :: At(active, Binary(n)) == Regular(c.files[n].preimage))
    && (configs ==> At(active, HubConfig) == Regular(c.hub) && At(active, AgentConfig) == Regular(c.agent))
  }

  /** What a rollback leaves at a path: the old file, except that a binary that was a symlink is gone. */
  function RestoredAt(base: Files, s: Slot): FileState {
    if s.Binary? && At(base, s).Symlink? then Absent else At(base, s)
  }

  ghost predicate Restored(active: Files, base: Files) {
    forall s {:trigger At(active, s)} | Tracked(s) :: At(active, s) == RestoredAt(base, s)
  }

  ghost predicate NoSymlinks(active: Files) {
    forall n {:trigger At(active, Binary(n))} | n in WINDOWS_BINARIES :: !At(active, Binary(n)).Symlink?
  }

  // ------------------------------------------------------- the status record

  /** The evidence of `snapshot_previous`: digests of what was present. */
  datatype Previous = Previous(binaries: map<string, Option<Digest>>, hub: Digest, agent: Digest)

  datatype State =
    | Activating
    | RollingBack
    | OperatorActionRequired
    | PreflightPassed
    | FailedPreflight
    | Completed
    | RolledBack

  datatype Phase =
    | Staged
    | ServiceDrain
    | ActivatePair
    | HubHealth
    | AgentHealth
    | ExternalSmoke
    | Finished
    | Preflight
    | RollingBackPair
    | RollbackComplete
    | RollbackFailed

  datatype Note = Nothing | NoActivation | UpgradeDone | Failed(code: string)

  datatype Record = Record(
    transactionId: string,
    state: State,
    phase: Phase,
    startedAtMs: int,
    updatedAtMs: int,
    candidate: Candidate,
    previous: Previous,
    result: Note,
    smokeConfigured: bool)

  function NewRecord(transactionId: string, candidate: Candidate, previous: Previous, now: int, smoke: bool): Record {
    Record(transactionId, Activating, Staged, now, now, candidate, previous, Nothing, smoke)
  }

  /** `update_status` on the record in memory; the time stamp never goes back. */
  function Updated(r: Record, state: State, phase: Phase, result: Note, now: int): Record {
    r.(state := state, phase := phase, result := result, updatedAtMs := if now >= r.updatedAtMs then now else r.updatedAtMs)
  }

  /** The record in memory still belongs to the run it started with. */
  predicate SameRun(r: Record, run: Record) {
    r.transactionId == run.transactionId && r.candidate == run.candidate && r.previous == run.previous
  }

  /** The durable state; staging and rollback directories belong to one run. */
  datatype Disk = Disk(active: Files, stage: map<Slot, Bytes>, rollback: map<Slot, Bytes>, status: Option<Record>)

  /** The statuses that `ensure_no_incomplete_status` refuses to start from. */
  predicate Blocking(s: Option<Record>) {
    s.Some? && (s.value.state.Activating? || s.value.state.RollingBack? || s.value.state.OperatorActionRequired?)
  }

  function DigestOf(active: Files, name: string): Option<Digest> {
    match At(active, Binary(name))
    case Regular(bytes) => Some(Sha256(bytes))
    case _ => None
  }

  /** The evidence of a snapshot of this tree. */
  predicate Describes(p: Previous, active: Files) {
    && (forall n | n in WINDOWS_BINARIES :: n in p.binaries && p.binaries[n] == DigestOf(active, n))
    && At(active, HubConfig) == Regular(p.hub.preimage)
    && At(active, AgentConfig) == Regular(p.agent.preimage)
  }

  // ------------------------------------------------------------ crash points

  /** The rollback directory holds every old binary and, when asked for, both old configurations. */
  ghost predicate Keeps(rollback: map<Slot, Bytes>, base: Files, configs: bool) {
    && (forall n {:trigger Binary(n)} | n in WINDOWS_BINARIES && At(base, Binary(n)).Regular? ::
          Binary(n) in rollback && Regular(rollback[Binary(n)]) == At(base, Binary(n)))
    && (configs ==> HubConfig in rollback && Regular(rollback[HubConfig]) == At(base, HubConfig)
                    && AgentConfig in rollback && Regular(rollback[AgentConfig]) == At(base, AgentConfig))
  }

  /** What a state and phase on record say about the active tree. Only two stretches may leave it mixed. */
  ghost predicate TreeFits(state: State, phase: Phase, c: Candidate, active: Files, base: Files, configs: bool)
    requires c.Complete()
  {
    match state
    case Activating =>
      (phase.ServiceDrain? && Same(active, base))
      || phase.ActivatePair?
      || ((phase.HubHealth? || phase.AgentHealth? || phase.ExternalSmoke?) && AllNew(active, c, configs))
    case RollingBack => phase.RollingBackPair?
    case OperatorActionRequired => phase.RollbackFailed?
    case Completed => phase.Finished? && AllNew(active, c, configs)
    case RolledBack => phase.RollbackComplete? && Restored(active, base)
    case PreflightPassed => phase.Preflight? && Same(active, base)
    case FailedPreflight => phase.Preflight? && Same(active, base)
  }

  /** The status is this run's, and the tree and the rollback directory are as it says. */
  ghost predicate OnRecord(d: Disk, run: Record, base: Files, rollback: map<Slot, Bytes>, configs: bool)
    requires run.candidate.Complete()
  {
    && d.status.Some?
    && d.status.value.transactionId == run.transactionId
    && d.status.value.candidate == run.candidate
    && d.status.value.previous == run.previous
    && d.rollback == rollback
    && TreeFits(d.status.value.state, d.status.value.phase, run.candidate, d.active, base, configs)
  }

  /** One upgrade: its fresh transaction id and its reviewed candidate. */
  datatype Upgrade = Upgrade(transactionId: string, candidate: Candidate)

  /**
   A disk on which a run may stop. Either its status was not touched and neither was any
   tracked file, or the status is this run's: it names its candidate, its evidence describes
   the old tree, the old files are kept, and its state and phase tell what the tree is.
   */
  ghost predicate CrashSafe(before: Disk, u: Upgrade, configs: bool, d: Disk)
    requires u.candidate.Complete()
  {
    if d.status == before.status then Same(d.active, before.active)
    else
      && d.status.Some?
      && d.status.value.transactionId == u.transactionId
      && d.status.value.candidate == u.candidate
      && Describes(d.status.value.previous, before.active)
      && Keeps(d.rollback, before.active, configs)
      && TreeFits(d.status.value.state, d.status.value.phase, u.candidate, d.active, before.active, configs)
  }

  predicate SettledAs(d: Disk, u: Upgrade, state: State) {
    d.status.Some? && d.status.value.transactionId == u.transactionId && d.status.value.state == state
  }

  /** The transaction id is new to the status on disk. */
  predicate FreshFor(d: Disk, u: Upgrade) {
    d.status.Some? ==> d.status.value.transactionId != u.transactionId
  }

  lemma OnRecordIsCrashSafe(before: Disk, u: Upgrade, configs: bool, d: Disk, run: Record, rollback: map<Slot, Bytes>)
    requires u.candidate.Complete() && FreshFor(before, u)
    requires run.transactionId == u.transactionId && run.candidate == u.candidate
    requires Describes(run.previous, before.active) && Keeps(rollback, before.active, configs)
    requires OnRecord(d, run, before.active, rollback, configs)
    ensures CrashSafe(before, u, configs, d)
  {
  }

  /** Whether calls of a kind go through, fail, or may do either. */
  datatype Luck = Succeeds | Fails | Either

  /** How each kind of call to the services goes while an upgrade is activated. */
  datatype Services = Services(stop: Luck, load: Luck, hub: Luck, agent: Luck, smoke: Luck) {
    /** Every call that is made goes through; the smoke check is made only when it is configured. */
    predicate Up(smokeConfigured: bool) {
      stop.Succeeds? && load.Succeeds? && hub.Succeeds? && agent.Succeeds? && (smokeConfigured ==> smoke.Succeeds?)
    }

    /** Some call that is made is bound to fail. */
    predicate Down(smokeConfigured: bool) {
      stop.Fails? || load.Fails? || hub.Fails? || agent.Fails? || (smokeConfigured && smoke.Fails?)
    }
  }

  function PhaseOf(d: Disk): Option<Phase> {
    if d.status.Some? then Some(d.status.value.phase) else None
  }

  /** The phases on record while the pair is brought up: both health checks, then the smoke check exactly when configured. */
  function BringUpPhases(smokeConfigured: bool): seq<Option<Phase>> {
    [Some(HubHealth), Some(AgentHealth)] + (if smokeConfigured then [Some(ExternalSmoke)] else []) + [Some(Finished)]
  }

  function PhasesOf(disks: seq<Disk>): seq<Option<Phase>> {
    seq(|disks|, i requires 0 <= i < |disks| => PhaseOf(disks[i]))
  }

  /** The trail ends, but for the removal of the stage, with exactly the writes of bringing the pair up. */
  ghost predicate BroughtUp(trail: seq<Disk>, smokeConfigured: bool) {
    exists n: nat {:trigger trail[n..]} :: n < |trail| && PhasesOf(trail[n..|trail| - 1]) == BringUpPhases(smokeConfigured)
  }

  lemma PhasesAppend(a: seq<Disk>, d: Disk)
    ensures PhasesOf(a + [d]) == PhasesOf(a) + [PhaseOf(d)]
  {
  }

  /** The bundle holds every binary with its reviewed digest. */
  predicate Reviewed(bundle: map<string, Bytes>, c: Candidate)
    requires c.Complete()
  {
    forall n | n in WINDOWS_BINARIES :: n in bundle && Sha256(bundle[n]) == c.files[n]
  }

  /** The stage holds every binary with its reviewed digest. */
  predicate StagedSet(stage: map<Slot, Bytes>, c: Candidate)
    requires c.Complete()
  {
    forall n | n in WINDOWS_BINARIES :: Binary(n) in stage && Sha256(stage[Binary(n)]) == c.files[n]
  }

  /** Both active configurations are regular and not empty. */
  predicate Configured(active: Files) {
    && At(active, HubConfig).Regular? && At(active, HubConfig).bytes != []
    && At(active, AgentConfig).Regular? && At(active, AgentConfig).bytes != []
  }

  datatype Outcome = Refused | PreflightOnly | Upgraded | Unstarted | Recovered | NeedsOperator

  class Host {
    var disk: Disk
    /** Every durable state this run wrote, in order. */
    var trail: seq<Disk>
    const upgrade: Upgrade
    /** Configuration copies made by snapshot, staging and activation are never re-hashed. */
    const faithfulConfigs: bool
    /** How copies and status writes go before any rollback, how the services behave, and how what follows a failure goes. */
    const work: Luck
    const services: Services
    const repair: Luck

    constructor (disk: Disk, upgrade: Upgrade, faithfulConfigs: bool, work: Luck, services: Services, repair: Luck)
      ensures this.disk == disk && trail == [] && this.upgrade == upgrade && this.faithfulConfigs == faithfulConfigs
      ensures this.work == work && this.services == services && this.repair == repair
    {
      this.work, this.services, this.repair := work, services, repair;
      this.disk := disk;
      this.upgrade := upgrade;
      this.faithfulConfigs := faithfulConfigs;
      trail := [];
    }

    /** One durable change. */
    method Put(d: Disk)
      modifies this
      ensures disk == d && trail == old(trail) + [d]
    {
      disk := d;
      trail := trail + [d];
    }

    /** A controller call, or a check of a configuration, that may fail. */
    method Fallible(luck: Luck) returns (ok: bool)
      ensures luck.Succeeds? ==> ok
      ensures luck.Fails? ==> !ok
    {
      ok := *;
      if !luck.Either? {
        ok := luck.Succeeds?;
      }
    }

    /** `atomic_copy` up to its rename: it fails, or yields a copy that may differ from its source. */
    method Copy(source: Bytes, luck: Luck) returns (copy: Option<Bytes>)
      ensures luck.Succeeds? ==> copy == Some(source)
    {
      var copies := Fallible(luck);
      if !copies {
        return None;
      }
      if luck.Succeeds? {
        return Some(source);
      }
      var bytes: Bytes := *;
      copy := Some(bytes);
    }

    /** A configuration copy, taken to be exact when the host copies configurations faithfully. */
    method CopyConfig(source: Bytes) returns (copy: Option<Bytes>)
      ensures faithfulConfigs && copy.Some? ==> copy.value == source
      ensures work.Succeeds? ==> copy == Some(source)
    {
      copy := Copy(source, work);
      if copy.Some? && faithfulConfigs {
        copy := Some(source);
      }
    }

    /** `update_status`: edits the record in memory, then replaces the status file or leaves it as it was. */
    method WriteStatus(record: Record, state: State, phase: Phase, result: Note, luck: Luck) returns (updated: Record, ok: bool)
      modifies this
      ensures updated == Updated(record, state, phase, result, updated.updatedAtMs)
      ensures updated.updatedAtMs >= record.updatedAtMs && updated.startedAtMs == record.startedAtMs
      ensures updated.state == state && updated.phase == phase && updated.result == result
      ensures SameRun(updated, record) && updated.smokeConfigured == record.smokeConfigured
      ensures ok ==> disk == old(disk).(status := Some(updated)) && trail == old(trail) + [disk]
      ensures !ok ==> disk == old(disk) && trail == old(trail)
      ensures luck.Succeeds? ==> ok
    {
      var now: int := *;
      updated := Updated(record, state, phase, result, now);
      ok := Fallible(luck);
      if ok {
        Put(disk.(status := Some(updated)));
      }
    }

    /** `stage_candidate`: only the staging directory changes. */
    method StageCandidate(bundle: map<string, Bytes>) returns (ok: bool)
      requires upgrade.candidate.Complete()
      modifies this
      ensures old(trail) <= trail
      ensures disk.active == old(disk).active && disk.status == old(disk).status && disk.rollback == old(disk).rollback
      ensures forall i | |old(trail)| <= i < |trail| :: trail[i].active == old(disk).active && trail[i].status == old(disk).status
      ensures ok ==> HubConfig in disk.stage && AgentConfig in disk.stage
      ensures ok && faithfulConfigs ==> disk.stage[HubConfig] == upgrade.candidate.hub && disk.stage[AgentConfig] == upgrade.candidate.agent
      ensures ok ==> StagedSet(disk.stage, upgrade.candidate)
      ensures work.Succeeds? && Reviewed(bundle, upgrade.candidate) ==> ok
    {
      var candidate := upgrade.candidate;
      for i := 0 to |WINDOWS_BINARIES|
        invariant forall n | n in WINDOWS_BINARIES[..i] :: Binary(n) in disk.stage && Sha256(disk.stage[Binary(n)]) == candidate.files[n]
        invariant old(trail) <= trail
        invariant disk.active == old(disk).active && disk.status == old(disk).status && disk.rollback == old(disk).rollback
        invariant forall i | |old(trail)| <= i < |trail| :: trail[i].active == old(disk).active && trail[i].status == old(disk).status
      {
        var name := WINDOWS_BINARIES[i];
        if name !in bundle {
          return false;
        }
        var copy := Copy(bundle[name], work);
        if copy.None? {
          return false;
        }
        Put(disk.(stage := disk.stage[Binary(name) := copy.value]));
        if Sha256(copy.value) != candidate.files[name] {
          return false;
        }
      }
      var hub := CopyConfig(candidate.hub);
      if hub.None? {
        return false;
      }
      Put(disk.(stage := disk.stage[HubConfig := hub.value]));
      var agent := CopyConfig(candidate.agent);
      if agent.None? {
        return false;
      }
      Put(disk.(stage := disk.stage[AgentConfig := agent.value]));
      ok := true;
    }

    /** The binaries' part of `snapshot_previous`. */
    method SnapshotBinaries() returns (binaries: Option<map<string, Option<Digest>>>)
      modifies this
      ensures old(trail) <= trail
      ensures disk.active == old(disk).active && disk.status == old(disk).status && disk.stage == old(disk).stage
      ensures forall i | |old(trail)| <= i < |trail| :: trail[i].active == old(disk).active && trail[i].status == old(disk).status
      ensures binaries.Some? ==> Keeps(disk.rollback, disk.active, false)
      ensures work.Succeeds? ==> binaries.Some?
      ensures binaries.Some? ==> forall n | n in WINDOWS_BINARIES :: n in binaries.value && binaries.value[n] == DigestOf(disk.active, n)
    {
      var found: map<string, Option<Digest>> := map[];
      for i := 0 to |WINDOWS_BINARIES|
        invariant old(trail) <= trail
        invariant disk.active == old(disk).active && disk.status == old(disk).status && disk.stage == old(disk).stage
        invariant forall i | |old(trail)| <= i < |trail| :: trail[i].active == old(disk).active && trail[i].status == old(disk).status
        invariant forall n | n in WINDOWS_BINARIES[..i] :: n in found && found[n] == DigestOf(disk.active, n)
        invariant forall n | n in WINDOWS_BINARIES[..i] && At(disk.active, Binary(n)).Regular? ::
                    Binary(n) in disk.rollback && Regular(disk.rollback[Binary(n)]) == At(disk.active, Binary(n))
      {
        var name := WINDOWS_BINARIES[i];
        var source := At(disk.active, Binary(name));
        if source.Regular? {
          var copy := Copy(source.bytes, work);
          if copy.None? {
            return None;
          }
          Put(disk.(rollback := disk.rollback[Binary(name) := copy.value]));
          if Sha256(copy.value) != Sha256(source.bytes) {
            return None;
          }
        }
        found := found[name := DigestOf(disk.active, name)];
      }
      binaries := Some(found);
    }

    /** `snapshot_previous`: only the rollback directory changes; the evidence describes the active tree. */
    method SnapshotPrevious() returns (previous: Option<Previous>)
      modifies this
      ensures old(trail) <= trail
      ensures disk.active == old(disk).active && disk.status == old(disk).status && disk.stage == old(disk).stage
      ensures forall i | |old(trail)| <= i < |trail| :: trail[i].active == old(disk).active && trail[i].status == old(disk).status
      ensures previous.Some? ==> Describes(previous.value, disk.active) && Keeps(disk.rollback, disk.active, faithfulConfigs)
      ensures work.Succeeds? && Configured(disk.active) ==> previous.Some?
      ensures previous.Some? ==> Configured(disk.active)
    {
      var binaries := SnapshotBinaries();
      if binaries.None? {
        return None;
      }
      var hub, agent := At(disk.active, HubConfig), At(disk.active, AgentConfig);
      if !hub.Regular? || hub.bytes == [] {
        return None;
      }
      var hubCopy := CopyConfig(hub.bytes);
      if hubCopy.None? {
        return None;
      }
      Put(disk.(rollback := disk.rollback[HubConfig := hubCopy.value]));
      if !agent.Regular? || agent.bytes == [] {
        return None;
      }
      var agentCopy := CopyConfig(agent.bytes);
      if agentCopy.None? {
        return None;
      }
      Put(disk.(rollback := disk.rollback[AgentConfig := agentCopy.value]));
      previous := Some(Previous(binaries.value, Sha256(hub.bytes), Sha256(agent.bytes)));
    }

    /** Status and rollback directory have been left alone since the method began. */
    ghost predicate Steady(from: nat, status: Option<Record>, rollback: map<Slot, Bytes>)
      reads this
    {
      && disk.status == status && disk.rollback == rollback
      && forall i {:trigger trail[i]} | from <= i < |trail| :: trail[i].status == status && trail[i].rollback == rollback
    }

    /** `activate_staged`: configurations first, then each binary, re-hashed in place. */
    method ActivateStaged() returns (ok: bool)
      requires upgrade.candidate.Complete()
      modifies this
      ensures old(trail) <= trail && Steady(|old(trail)|, old(disk).status, old(disk).rollback)
      ensures ok ==> AllNew(disk.active, upgrade.candidate,
          faithfulConfigs && HubConfig in old(disk).stage && AgentConfig in old(disk).stage
          && old(disk).stage[HubConfig] == upgrade.candidate.hub && old(disk).stage[AgentConfig] == upgrade.candidate.agent)
      ensures work.Succeeds? && HubConfig in old(disk).stage && AgentConfig in old(disk).stage && StagedSet(old(disk).stage, upgrade.candidate) ==> ok
    {
      var candidate := upgrade.candidate;
      for i := 0 to |WINDOWS_BINARIES|
        invariant disk == old(disk) && trail == old(trail)
      {
        var name := WINDOWS_BINARIES[i];
        if Binary(name) !in disk.stage || Sha256(disk.stage[Binary(name)]) != candidate.files[name] {
          return false;
        }
      }
      if HubConfig !in disk.stage || AgentConfig !in disk.stage {
        return false;
      }
      var hub := CopyConfig(disk.stage[HubConfig]);
      if hub.None? {
        return false;
      }
      Put(disk.(active := disk.active[HubConfig := Regular(hub.value)]));
      var agent := CopyConfig(disk.stage[AgentConfig]);
      if agent.None? {
        return false;
      }
      Put(disk.(active := disk.active[AgentConfig := Regular(agent.value)]));
      ok := ActivateBinaries();
    }

    /** The loop that copies each staged binary into place and re-hashes it. */
    method ActivateBinaries() returns (ok: bool)
      requires upgrade.candidate.Complete()
      modifies this
      ensures old(trail) <= trail && Steady(|old(trail)|, old(disk).status, old(disk).rollback)
      ensures At(disk.active, HubConfig) == At(old(disk).active, HubConfig)
      ensures At(disk.active, AgentConfig) == At(old(disk).active, AgentConfig)
      ensures ok ==> AllNew(disk.active, upgrade.candidate, false)
      ensures work.Succeeds? && StagedSet(old(disk).stage, upgrade.candidate) ==> ok
    {
      for i := 0 to |WINDOWS_BINARIES|
        invariant disk.stage == old(disk).stage
        invariant old(trail) <= trail && Steady(|old(trail)|, old(disk).status, old(disk).rollback)
        invariant At(disk.active, HubConfig) == At(old(disk).active, HubConfig)
        invariant At(disk.active, AgentConfig) == At(old(disk).active, AgentConfig)
        invariant forall n | n in WINDOWS_BINARIES[..i] :: At(disk.active, Binary(n)) == Regular(upgrade.candidate.files[n].preimage)
      {
        var name := WINDOWS_BINARIES[i];
        if Binary(name) !in disk.stage {
          return false;
        }
        var copy := Copy(disk.stage[Binary(name)], work);
        if copy.None? {
          return false;
        }
        Put(disk.(active := disk.active[Binary(name) := Regular(copy.value)]));
        if Sha256(copy.value) != upgrade.candidate.files[name] {
          return false;
        }
      }
      ok := true;
    }

    /** `restore_previous`: every binary and configuration is checked against the evidence. */
    method RestorePrevious(previous: Previous, ghost base: Files) returns (ok: bool)
      requires Describes(previous, base)
      modifies this
      ensures old(trail) <= trail && Steady(|old(trail)|, old(disk).status, old(disk).rollback)
      ensures ok ==> Restored(disk.active, base)
      ensures repair.Succeeds? && Keeps(old(disk).rollback, base, true) ==> ok
    {
      for i := 0 to |WINDOWS_BINARIES|
        invariant old(trail) <= trail && Steady(|old(trail)|, old(disk).status, old(disk).rollback)
        invariant forall n | n in WINDOWS_BINARIES[..i] :: At(disk.active, Binary(n)) == RestoredAt(base, Binary(n))
      {
        var name := WINDOWS_BINARIES[i];
        var restored := RestoreBinary(name, previous.binaries[name], base);
        if !restored {
          return false;
        }
      }
      ghost var binaries := disk.active;
      ok := RestoreConfigs(previous, base);
      if ok {
        forall s | Tracked(s)
          ensures At(disk.active, s) == RestoredAt(base, s)
        {
          if s.Binary? {
            assert At(disk.active, Binary(s.name)) == At(binaries, Binary(s.name));
          }
        }
      }
    }

    /** One binary: its kept copy is checked before and after it is put back; what was not there is removed. */
    method RestoreBinary(name: string, expected: Option<Digest>, ghost base: Files) returns (ok: bool)
      requires expected == DigestOf(base, name)
      modifies this
      ensures old(trail) <= trail && Steady(|old(trail)|, old(disk).status, old(disk).rollback)
      ensures forall s | s != Binary(name) :: At(disk.active, s) == At(old(disk).active, s)
      ensures ok ==> At(disk.active, Binary(name)) == RestoredAt(base, Binary(name))
      ensures repair.Succeeds? && name in WINDOWS_BINARIES && Keeps(old(disk).rollback, base, true) ==> ok
    {
      if expected.None? {
        var removed := Fallible(repair);
        if !removed {
          return false;
        }
        Put(disk.(active := disk.active[Binary(name) := Absent]));
        return true;
      }
      if Binary(name) !in disk.rollback || Sha256(disk.rollback[Binary(name)]) != expected.value {
        return false;
      }
      var copy := Copy(disk.rollback[Binary(name)], repair);
      if copy.None? {
        return false;
      }
      Put(disk.(active := disk.active[Binary(name) := Regular(copy.value)]));
      ok := Sha256(copy.value) == expected.value;
    }

    method RestoreConfigs(previous: Previous, ghost base: Files) returns (ok: bool)
      requires Describes(previous, base)
      modifies this
      ensures old(trail) <= trail && Steady(|old(trail)|, old(disk).status, old(disk).rollback)
      ensures forall n :: At(disk.active, Binary(n)) == At(old(disk).active, Binary(n))
      ensures ok ==> At(disk.active, HubConfig) == At(base, HubConfig) && At(disk.active, AgentConfig) == At(base, AgentConfig)
      ensures repair.Succeeds? && Keeps(old(disk).rollback, base, true) ==> ok
    {
      if HubConfig !in disk.rollback || AgentConfig !in disk.rollback {
        return false;
      }
      var hub := Copy(disk.rollback[HubConfig], repair);
      if hub.None? {
        return false;
      }
      Put(disk.(active := disk.active[HubConfig := Regular(hub.value)]));
      var agent := Copy(disk.rollback[AgentConfig], repair);
      if agent.None? {
        return false;
      }
      Put(disk.(active := disk.active[AgentConfig := Regular(agent.value)]));
      ok := Sha256(hub.value) == previous.hub && Sha256(agent.value) == previous.agent;
    }

    /** The disk now, and every disk written since, is on record for this run. */
    ghost predicate AllOnRecord(from: nat, run: Record, base: Files, rollback: map<Slot, Bytes>)
      requires run.candidate.Complete()
      reads this
    {
      && OnRecord(disk, run, base, rollback, faithfulConfigs)
      && forall i {:trigger trail[i]} | from <= i < |trail| :: OnRecord(trail[i], run, base, rollback, faithfulConfigs)
    }

    /** A controller step: the next phase goes on record, then the controller may fail. */
    method Reach(record: Record, phase: Phase, luck: Luck, ghost run: Record, ghost base: Files) returns (updated: Record, ok: bool)
      requires SameRun(record, run) && run.candidate.Complete() && record.state.Activating?
      requires phase.HubHealth? || phase.AgentHealth? || phase.ExternalSmoke?
      requires AllNew(disk.active, run.candidate, faithfulConfigs) && OnRecord(disk, run, base, disk.rollback, faithfulConfigs)
      requires disk.status.value.state.Activating?
      modifies this
      ensures old(trail) <= trail && AllOnRecord(|old(trail)|, run, base, old(disk).rollback)
      ensures disk.active == old(disk).active && disk.status.value.state.Activating?
      ensures updated.state.Activating? && SameRun(updated, run)
      ensures work.Succeeds? && luck.Succeeds? ==> ok
      ensures luck.Fails? ==> !ok
      ensures ok ==> trail == old(trail) + [disk] && PhaseOf(disk) == Some(phase)
    {
      updated, ok := WriteStatus(record, Activating, phase, record.result, work);
      if ok {
        ok := Fallible(luck);
      }
    }

    /** From the activated pair to the completed status: both services come up, then the smoke check if there is one. */
    method BringUp(record: Record, ghost run: Record, ghost base: Files) returns (updated: Record, ok: bool)
      requires SameRun(record, run) && run.candidate.Complete() && record.state.Activating?
      requires AllNew(disk.active, run.candidate, faithfulConfigs) && OnRecord(disk, run, base, disk.rollback, faithfulConfigs)
      requires disk.status.value.state.Activating?
      modifies this
      ensures old(trail) <= trail && AllOnRecord(|old(trail)|, run, base, old(disk).rollback)
      ensures disk.status.value.state == if ok then Completed else Activating
      ensures SameRun(updated, run)
      ensures work.Succeeds? && services.hub.Succeeds? && services.agent.Succeeds? && (record.smokeConfigured ==> services.smoke.Succeeds?) ==> ok
      ensures services.hub.Fails? || services.agent.Fails? || (record.smokeConfigured && services.smoke.Fails?) ==> !ok
      ensures ok ==> PhasesOf(trail[|old(trail)|..]) == BringUpPhases(record.smokeConfigured) && disk.status.value.result.UpgradeDone?
    {
      updated, ok := CheckHealth(record, run, base);
      if !ok { return; }
      ghost var tail := trail[|old(trail)|..];
      if record.smokeConfigured {
        updated, ok := Reach(updated, ExternalSmoke, services.smoke, run, base);
        if !ok { return; }
        PhasesAppend(tail, disk);
        tail := tail + [disk];
      }
      updated, ok := WriteStatus(updated, Completed, Finished, UpgradeDone, work);
      if ok {
        PhasesAppend(tail, disk);
        assert trail[|old(trail)|..] == tail + [disk];
      }
    }

    /** Hub first, then the agent. */
    method CheckHealth(record: Record, ghost run: Record, ghost base: Files) returns (updated: Record, ok: bool)
      requires SameRun(record, run) && run.candidate.Complete() && record.state.Activating?
      requires AllNew(disk.active, run.candidate, faithfulConfigs) && OnRecord(disk, run, base, disk.rollback, faithfulConfigs)
      requires disk.status.value.state.Activating?
      modifies this
      ensures old(trail) <= trail && AllOnRecord(|old(trail)|, run, base, old(disk).rollback)
      ensures disk.active == old(disk).active && disk.status.value.state.Activating?
      ensures updated.state.Activating? && SameRun(updated, run)
      ensures work.Succeeds? && services.hub.Succeeds? && services.agent.Succeeds? ==> ok
      ensures services.hub.Fails? || services.agent.Fails? ==> !ok
      ensures ok ==> PhasesOf(trail[|old(trail)|..]) == [Some(HubHealth), Some(AgentHealth)]
    {
      updated, ok := Reach(record, HubHealth, services.hub, run, base);
      if !ok { return; }
      ghost var first := disk;
      updated, ok := Reach(updated, AgentHealth, services.agent, run, base);
      if ok {
        assert trail[|old(trail)|..] == [first, disk];
      }
    }

    /** The activate_pair phase: on record first, then the files change. */
    method ActivatePairPhase(record: Record, ghost run: Record, ghost base: Files) returns (updated: Record, ok: bool)
      requires SameRun(record, run) && upgrade.candidate.Complete() && run.candidate == upgrade.candidate && record.state.Activating?
      requires disk.status == Some(record) && record.phase.ServiceDrain? && Same(disk.active, base)
      requires HubConfig in disk.stage && AgentConfig in disk.stage
      requires faithfulConfigs ==> disk.stage[HubConfig] == upgrade.candidate.hub && disk.stage[AgentConfig] == upgrade.candidate.agent
      modifies this
      ensures old(trail) <= trail && AllOnRecord(|old(trail)|, run, base, old(disk).rollback)
      ensures disk.status.value.state.Activating? && updated.state.Activating? && SameRun(updated, run)
      ensures ok ==> AllNew(disk.active, run.candidate, faithfulConfigs)
      ensures updated.smokeConfigured == record.smokeConfigured
      ensures work.Succeeds? && StagedSet(old(disk).stage, upgrade.candidate) ==> ok
    {
      updated, ok := WriteStatus(record, Activating, ActivatePair, record.result, work);
      if ok {
        ok := ActivateStaged();
      }
    }

    /** The guarded part of `perform_upgrade`, from draining the services to the completed status. */
    method Activate(record: Record, ghost run: Record, ghost base: Files) returns (updated: Record, ok: bool)
      requires SameRun(record, run) && upgrade.candidate.Complete() && run.candidate == upgrade.candidate && record.state.Activating?
      requires disk.status == Some(record) && record.phase.ServiceDrain? && Same(disk.active, base)
      requires HubConfig in disk.stage && AgentConfig in disk.stage
      requires faithfulConfigs ==> disk.stage[HubConfig] == upgrade.candidate.hub && disk.stage[AgentConfig] == upgrade.candidate.agent
      modifies this
      ensures old(trail) <= trail && AllOnRecord(|old(trail)|, run, base, old(disk).rollback)
      ensures disk.status.value.state == if ok then Completed else Activating
      ensures SameRun(updated, run)
      ensures work.Succeeds? && services.Up(record.smokeConfigured) && StagedSet(old(disk).stage, upgrade.candidate) ==> ok
      ensures services.Down(record.smokeConfigured) ==> !ok
      ensures ok ==> disk.status.value.result.UpgradeDone?
      ensures ok ==> exists n: nat {:trigger trail[n..]} :: n < |trail| && PhasesOf(trail[n..]) == BringUpPhases(record.smokeConfigured)
    {
      updated := record;
      ok := Fallible(services.stop);      // stop_pair
      if !ok { return; }
      updated, ok := ActivatePairPhase(record, run, base);
      if !ok { return; }
      ok := Fallible(services.load);      // the active configurations load
      if !ok { return; }
      ghost var n := |trail|;
      updated, ok := BringUp(updated, run, base);
      assert ok ==> PhasesOf(trail[n..]) == BringUpPhases(record.smokeConfigured);
    }

    /** The part of the rollback that runs under the rolling-back status. */
    method RestoreUnderStatus(record: Record, failure: string, ghost run: Record, ghost base: Files) returns (updated: Record, ok: bool)
      requires SameRun(record, run) && run.candidate.Complete() && Describes(run.previous, base)
      requires OnRecord(disk, run, base, disk.rollback, faithfulConfigs) && disk.status.value.state.RollingBack?
      modifies this
      ensures old(trail) <= trail && AllOnRecord(|old(trail)|, run, base, old(disk).rollback)
      ensures disk.status.value.state == if ok then RolledBack else RollingBack
      ensures ok ==> disk.status.value.result == Failed(failure)
      ensures repair.Fails? ==> !ok
      ensures SameRun(updated, run)
      ensures repair.Succeeds? && Keeps(old(disk).rollback, base, true) ==> ok
    {
      updated := record;
      var stopped := Fallible(repair);    // a failed stop_pair is ignored here
      ok := RestorePrevious(record.previous, base);
      if !ok { return; }
      ok := Fallible(repair);             // configurations load, hub and agent start and stay up
      if !ok { return; }
      updated, ok := WriteStatus(record, RolledBack, RollbackComplete, Failed(failure), repair);
    }

    /** The rollback of `perform_upgrade`, ending rolled back or needing an operator. */
    method Rollback(record: Record, failure: string, ghost run: Record, ghost base: Files) returns (ok: bool)
      requires SameRun(record, run) && run.candidate.Complete() && Describes(run.previous, base)
      requires OnRecord(disk, run, base, disk.rollback, faithfulConfigs) && disk.status.value.state.Activating?
      modifies this
      ensures old(trail) <= trail && AllOnRecord(|old(trail)|, run, base, old(disk).rollback)
      ensures ok ==> disk.status.value.state.RolledBack? && disk.status.value.result == Failed(failure)
      ensures repair.Fails? ==> !ok
      ensures !ok ==> Blocking(disk.status)
      ensures repair.Succeeds? && Keeps(old(disk).rollback, base, true) ==> ok
    {
      var updated;
      updated, ok := WriteStatus(record, RollingBack, RollingBackPair, Failed(failure), repair);
      if ok {
        updated, ok := RestoreUnderStatus(updated, failure, run, base);
      }
      if !ok {
        var code: string := *;
        var noted;
        updated, noted := WriteStatus(updated, OperatorActionRequired, RollbackFailed, Failed(code), repair);
      }
    }

    /** `perform_upgrade`: crash-safe at every point of the trail it leaves. */
    method PerformUpgrade(bundle: map<string, Bytes>, preflightOnly: bool, smoke: bool) returns (r: Outcome)
      requires upgrade.candidate.Complete() && trail == [] && FreshFor(disk, upgrade)
      modifies this
      ensures !Blocking(old(disk).status) ==>
                forall i {:trigger trail[i]} | 0 <= i < |trail| :: CrashSafe(old(disk), upgrade, faithfulConfigs, trail[i])
      ensures !Blocking(old(disk).status) ==> CrashSafe(old(disk), upgrade, faithfulConfigs, disk)
      ensures Blocking(old(disk).status) ==> r.Refused? && disk == old(disk) && trail == []
      ensures r.Upgraded? <==> SettledAs(disk, upgrade, Completed)
      ensures r.Recovered? <==> SettledAs(disk, upgrade, RolledBack)
      ensures r.Recovered? ==> (Same(disk.active, old(disk).active) <==> NoSymlinks(old(disk).active))
      ensures r.NeedsOperator? <==> Blocking(disk.status) && disk.status != old(disk).status
      ensures r.Refused? || r.PreflightOnly? || r.Unstarted? ==> disk.active == old(disk).active
      ensures (&& !Blocking(old(disk).status) && work.Succeeds? && Reviewed(bundle, upgrade.candidate) && Configured(old(disk).active)) ==>
                && (preflightOnly ==> SettledAs(disk, upgrade, PreflightPassed))
                && (!preflightOnly && services.Up(smoke) ==> r.Upgraded?)
                && (!preflightOnly && services.Down(smoke) && repair.Succeeds? && faithfulConfigs ==> r.Recovered?)
      ensures preflightOnly || services.Down(smoke) || work.Fails? || !Configured(old(disk).active) ==> !r.Upgraded?
      ensures repair.Fails? ==> !r.Recovered?
      ensures r.Upgraded? ==> BroughtUp(trail, smoke) && disk.status.value.result.UpgradeDone?
      ensures r.Recovered? ==> disk.status.value.result.Failed?
      ensures r.Unstarted? && repair.Succeeds? ==> SettledAs(disk, upgrade, FailedPreflight)
      ensures r.Upgraded? || r.Recovered? ==> disk.stage == map[]
      ensures repair.Succeeds? && faithfulConfigs ==> !r.NeedsOperator?
    {
      ghost var before := disk;
      if Blocking(disk.status) {
        return Refused;
      }
      var ok := Fallible(work);           // controller.validate
      if !ok { return Refused; }
      ok := StageCandidate(bundle);
      if !ok { return Refused; }
      var previous := SnapshotPrevious();
      if previous.None? { return Refused; }
      var now: int := *;
      var record := NewRecord(upgrade.transactionId, upgrade.candidate, previous.value, now, smoke);
      r := Settle(record, preflightOnly, before);
    }

    /** Ends a run that touched no tracked file, with a status that says so, if it can be written. */
    method Decline(record: Record, state: State, result: Note, luck: Luck, ghost before: Disk)
      requires upgrade.candidate.Complete() && FreshFor(before, upgrade) && !Blocking(before.status)
      requires disk.active == before.active && disk.status == before.status
      requires record.transactionId == upgrade.transactionId && record.candidate == upgrade.candidate
      requires Describes(record.previous, before.active) && Keeps(disk.rollback, before.active, faithfulConfigs)
      requires state.PreflightPassed? || state.FailedPreflight?
      modifies this
      ensures old(trail) <= trail
      ensures forall i {:trigger trail[i]} | |old(trail)| <= i < |trail| :: CrashSafe(before, upgrade, faithfulConfigs, trail[i])
      ensures CrashSafe(before, upgrade, faithfulConfigs, disk)
      ensures disk.active == before.active && !Blocking(disk.status)
      ensures !SettledAs(disk, upgrade, Completed) && !SettledAs(disk, upgrade, RolledBack)
      ensures luck.Succeeds? ==> SettledAs(disk, upgrade, state)
    {
      var updated, ok := WriteStatus(record, state, Preflight, result, luck);
    }

    /** `perform_upgrade` once candidate and previous set are staged and nothing tracked has changed. */
    method Settle(start: Record, preflightOnly: bool, ghost before: Disk) returns (r: Outcome)
      requires upgrade.candidate.Complete() && FreshFor(before, upgrade) && !Blocking(before.status)
      requires disk.active == before.active && disk.status == before.status
      requires start.transactionId == upgrade.transactionId && start.candidate == upgrade.candidate && start.state.Activating?
      requires Describes(start.previous, before.active) && Keeps(disk.rollback, before.active, faithfulConfigs)
      requires HubConfig in disk.stage && AgentConfig in disk.stage
      requires faithfulConfigs ==> disk.stage[HubConfig] == upgrade.candidate.hub && disk.stage[AgentConfig] == upgrade.candidate.agent
      modifies this
      ensures old(trail) <= trail
      ensures forall i {:trigger trail[i]} | |old(trail)| <= i < |trail| :: CrashSafe(before, upgrade, faithfulConfigs, trail[i])
      ensures CrashSafe(before, upgrade, faithfulConfigs, disk)
      ensures r.Upgraded? <==> SettledAs(disk, upgrade, Completed)
      ensures r.Recovered? <==> SettledAs(disk, upgrade, RolledBack)
      ensures r.Recovered? ==> (Same(disk.active, before.active) <==> NoSymlinks(before.active))
      ensures r.NeedsOperator? <==> Blocking(disk.status) && disk.status != before.status
      ensures !r.Refused?
      ensures r.PreflightOnly? || r.Unstarted? ==> disk.active == before.active
      ensures work.Succeeds? && preflightOnly ==> SettledAs(disk, upgrade, PreflightPassed)
      ensures work.Succeeds? && !preflightOnly && services.Up(start.smokeConfigured) && StagedSet(old(disk).stage, upgrade.candidate) ==> r.Upgraded?
      ensures work.Succeeds? && !preflightOnly && services.Down(start.smokeConfigured) && repair.Succeeds? && faithfulConfigs ==> r.Recovered?
      ensures preflightOnly || services.Down(start.smokeConfigured) ==> !r.Upgraded?
      ensures repair.Fails? ==> !r.Recovered?
      ensures r.Upgraded? ==> BroughtUp(trail, start.smokeConfigured) && disk.status.value.result.UpgradeDone?
      ensures r.Recovered? ==> disk.status.value.result.Failed?
      ensures r.Unstarted? && repair.Succeeds? ==> SettledAs(disk, upgrade, FailedPreflight)
      ensures r.Upgraded? || r.Recovered? ==> disk.stage == map[]
      ensures repair.Succeeds? && faithfulConfigs ==> !r.NeedsOperator?
    {
      var record, ok := start, false;
      if preflightOnly {
        Decline(record, PreflightPassed, NoActivation, work, before);
        return PreflightOnly;
      }
      record, ok := WriteStatus(record, Activating, ServiceDrain, record.result, work);
      if !ok {
        var failure: string := *;
        Decline(record, FailedPreflight, Failed(failure), repair, before);
        return Unstarted;
      }
      r := Switch(record, before.active);
      assert forall i | |old(trail)| < i < |trail| :: OnRecord(trail[i], record, before.active, old(disk).rollback, faithfulConfigs);
      forall i | |old(trail)| <= i < |trail|
        ensures CrashSafe(before, upgrade, faithfulConfigs, trail[i])
      {
        OnRecordIsCrashSafe(before, upgrade, faithfulConfigs, trail[i], record, old(disk).rollback);
      }
      OnRecordIsCrashSafe(before, upgrade, faithfulConfigs, disk, record, old(disk).rollback);
      if r.Recovered? {
        RollbackRestoresExactlyWhenNoSymlink(disk.active, before.active);
      }
    }

    /** Activation and, when it fails, rollback; the stage is removed when either succeeds. */
    method Switch(record: Record, ghost base: Files) returns (r: Outcome)
      requires upgrade.candidate.Complete() && record.candidate == upgrade.candidate && record.state.Activating?
      requires disk.status == Some(record) && record.phase.ServiceDrain? && Same(disk.active, base)
      requires Describes(record.previous, base)
      requires HubConfig in disk.stage && AgentConfig in disk.stage
      requires faithfulConfigs ==> disk.stage[HubConfig] == upgrade.candidate.hub && disk.stage[AgentConfig] == upgrade.candidate.agent
      modifies this
      ensures old(trail) <= trail && AllOnRecord(|old(trail)|, record, base, old(disk).rollback)
      ensures r.Upgraded? || r.Recovered? || r.NeedsOperator?
      ensures r.Upgraded? <==> disk.status.value.state.Completed?
      ensures r.Recovered? <==> disk.status.value.state.RolledBack?
      ensures r.NeedsOperator? <==> Blocking(disk.status)
      ensures work.Succeeds? && services.Up(record.smokeConfigured) && StagedSet(old(disk).stage, upgrade.candidate) ==> r.Upgraded?
      ensures services.Down(record.smokeConfigured) ==> !r.Upgraded?
      ensures repair.Fails? ==> !r.Recovered?
      ensures r.Upgraded? ==> BroughtUp(trail, record.smokeConfigured) && disk.status.value.result.UpgradeDone?
      ensures r.Recovered? ==> disk.status.value.result.Failed?
      ensures r.Upgraded? || r.Recovered? ==> disk.stage == map[]
      ensures repair.Succeeds? && Keeps(old(disk).rollback, base, true) ==> !r.NeedsOperator?
    {
      var updated, ok := Activate(record, record, base);
      if ok {
        ghost var n: nat :| n < |trail| && PhasesOf(trail[n..]) == BringUpPhases(record.smokeConfigured);
        ghost var up := trail;
        Put(disk.(stage := map[]));
        assert trail[n..|trail| - 1] == up[n..];
        assert trail[n..] == up[n..] + [disk];
        return Upgraded;
      }
      var failure: string := *;
      ok := Rollback(updated, failure, record, base);
      if !ok { return NeedsOperator; }
      Put(disk.(stage := map[]));
      r := Recovered;
    }
  }

  // ------------------------------------------------------------ lost symlinks

  /** Rolling back restores the old tree exactly when no tracked binary was a symlink before. */
  lemma RollbackRestoresExactlyWhenNoSymlink(active: Files, base: Files)
    requires Restored(active, base)
    ensures Same(active, base) <==> NoSymlinks(base)
  {
    if NoSymlinks(base) {
      forall s | Tracked(s)
        ensures At(active, s) == At(base, s)
      {
      }
    } else {
      var n :| n in WINDOWS_BINARIES && At(base, Binary(n)).Symlink?;
      assert Tracked(Binary(n)) && At(active, Binary(n)) != At(base, Binary(n));
    }
  }

  function SymlinkTree(): Files {
    map[Binary("v2_hub.exe") := Symlink, HubConfig := Regular([1]), AgentConfig := Regular([2])]
  }

  /** A tree whose Hub binary is a symlink: the evidence records it as absent, and no rollback to it can be exact. */
  lemma SymlinkedHubIsLost(active: Files)
    ensures DigestOf(SymlinkTree(), "v2_hub.exe") == None
    ensures Restored(active, SymlinkTree()) ==> At(active, Binary("v2_hub.exe")) == Absent && !Same(active, SymlinkTree())
  {
    var hub := Binary("v2_hub.exe");
    assert WINDOWS_BINARIES[0] == "v2_hub.exe" && Tracked(hub);
    assert At(SymlinkTree(), hub) == Symlink;
    if Restored(active, SymlinkTree()) {
      assert At(active, hub) == RestoredAt(SymlinkTree(), hub);
    }
  }

  /** The candidate that has the byte 7 in every binary, and a bundle of it. */
  function Sevens(): Candidate {
    Candidate(map n | n in WINDOWS_BINARIES :: Sha256([7]), [7], [7])
  }

  /**
   A run over a tree whose Hub binary is a symlink: staging works, the services cannot be stopped, and
   every step of the rollback works. It ends rolled back, without the Hub binary.
   */
  method RollBackOverASymlink() returns (host: Host)
    ensures var hub := Binary("v2_hub.exe");
      && SettledAs(host.disk, host.upgrade, RolledBack)
      && At(SymlinkTree(), hub) == Symlink && At(host.disk.active, hub) == Absent
      && !Same(host.disk.active, SymlinkTree())
  {
    SevensAreReviewed();
    var before := Disk(SymlinkTree(), map[], map[], None);
    var u := Upgrade("tx", Sevens());
    host := new Host(before, u, true, Succeeds, Services(Fails, Either, Either, Either, Either), Succeeds);
    var outcome := host.PerformUpgrade(SevensBundle(), false, false);
    assert outcome.Recovered?;
    SymlinkedHubIsLost(host.disk.active);
  }

  function SevensBundle(): map<string, Bytes> {
    map n | n in WINDOWS_BINARIES :: [7]
  }

  lemma SevensAreReviewed()
    ensures Sevens().Complete() && Reviewed(SevensBundle(), Sevens()) && Configured(SymlinkTree())
    ensures At(SymlinkTree(), Binary("v2_hub.exe")) == Symlink
  {
  }

  // ----------------------------------------------------- upgrades in sequence

  /** One call of `perform_upgrade` that ran to its end or was cut off at any durable write. */
  ghost predicate Attempt(before: Disk, u: Upgrade, configs: bool, after: Disk)
    requires u.candidate.Complete()
  {
    if Blocking(before.status) then after == before else CrashSafe(before, u, configs, after)
  }

  /** A run of `perform_upgrade` that may be killed before its first durable write or after any of them. */
  method AttemptUpgrade(before: Disk, u: Upgrade, faithfulConfigs: bool) returns (after: Disk)
    requires u.candidate.Complete() && FreshFor(before, u)
    ensures Attempt(before, u, faithfulConfigs, after)
  {
    var bundle: map<string, Bytes> := *;
    var preflightOnly, smoke: bool := *, *;
    var host := new Host(before, u, faithfulConfigs, Either, Services(Either, Either, Either, Either, Either), Either);
    var outcome := host.PerformUpgrade(bundle, preflightOnly, smoke);
    after := host.disk;
    var killed: bool := *;
    if killed {
      var writes: nat := *;
      if writes == 0 {
        after := before;
      } else if 0 < writes <= |host.trail| {
        after := host.trail[writes - 1];
      }
    }
  }

  /** Each disk is what one attempt made of the one before it, under transaction ids new to it. */
  ghost predicate History(disks: seq<Disk>, upgrades: seq<Upgrade>, configs: bool) {
    && |disks| == |upgrades| + 1
    && (forall u | u in upgrades :: u.candidate.Complete())
    && (forall i {:trigger upgrades[i]} | 0 <= i < |upgrades| ::
          FreshFor(disks[i], upgrades[i]) && upgrades[i].candidate.Complete() && Attempt(disks[i], upgrades[i], configs, disks[i + 1]))
  }

  /** The candidate of the last attempt that got as far as its completed status, if any did. */
  function LastCompleted(disks: seq<Disk>, upgrades: seq<Upgrade>): Option<Candidate>
    requires |disks| == |upgrades| + 1
    decreases |upgrades|
  {
    if upgrades == [] then None
    else
      var n := |upgrades| - 1;
      if SettledAs(disks[n + 1], upgrades[n], Completed) then Some(upgrades[n].candidate)
      else LastCompleted(disks[..n + 1], upgrades[..n])
  }

  /** What the tracked tree must be, given the candidate that completed last. */
  ghost predicate Uniform(active: Files, first: Files, last: Option<Candidate>, configs: bool) {
    match last
    case None => Same(active, first) || Restored(active, first)
    case Some(c) => c.Complete() && AllNew(active, c, configs)
  }

  /** A tree that an attempt left as it was, or rolled back to, is as uniform as before. */
  lemma KeptIsUniform(after: Files, before: Files, first: Files, last: Option<Candidate>, configs: bool)
    requires Same(after, before) || Restored(after, before)
    requires Uniform(before, first, last, configs)
    ensures Uniform(after, first, last, configs)
  {
    assert Tracked(HubConfig) && Tracked(AgentConfig) && forall n | n in WINDOWS_BINARIES :: Tracked(Binary(n));
    if last.Some? {
      forall n | n in WINDOWS_BINARIES
        ensures At(after, Binary(n)) == At(before, Binary(n))
      {
        assert At(before, Binary(n)).Regular?;
      }
      assert At(after, HubConfig) == At(before, HubConfig) && At(after, AgentConfig) == At(before, AgentConfig);
    } else if Same(after, before) && Same(before, first) {
      forall s | Tracked(s)
        ensures At(after, s) == At(first, s)
      {
        assert At(after, s) == At(before, s);
      }
    } else {
      forall s | Tracked(s)
        ensures At(after, s) == RestoredAt(first, s)
      {
        assert At(before, s) == At(first, s) || At(before, s) == RestoredAt(first, s);
      }
    }
  }

  lemma HistoryPrefix(disks: seq<Disk>, upgrades: seq<Upgrade>, configs: bool)
    requires History(disks, upgrades, configs) && upgrades != []
    ensures History(disks[..|upgrades|], upgrades[..|upgrades| - 1], configs)
  {
    var n := |upgrades| - 1;
    forall i | 0 <= i < n
      ensures FreshFor(disks[..n + 1][i], upgrades[..n][i]) && upgrades[..n][i].candidate.Complete()
      ensures Attempt(disks[..n + 1][i], upgrades[..n][i], configs, disks[..n + 1][i + 1])
    {
      assert upgrades[..n][i] == upgrades[i];
    }
  }

  /**
   However many upgrades are attempted and wherever each is cut off, a status that does not
   block the next upgrade means that the tracked files are uniformly the candidate that
   completed last, or, when none did, the first set (without its symlinked binaries once a
   rollback took them). A completed status written in this history names that very candidate.
   */
  lemma {:induction false} EveryHistoryIsUniform(disks: seq<Disk>, upgrades: seq<Upgrade>, configs: bool)
    requires History(disks, upgrades, configs)
    ensures var last := disks[|upgrades|];
      && (!Blocking(last.status) ==> Uniform(last.active, disks[0].active, LastCompleted(disks, upgrades), configs))
      && (last.status != disks[0].status && last.status.Some? && last.status.value.state.Completed? ==>
            LastCompleted(disks, upgrades) == Some(last.status.value.candidate))
    decreases |upgrades|
  {
    if upgrades != [] {
      var n := |upgrades| - 1;
      HistoryPrefix(disks, upgrades, configs);
      EveryHistoryIsUniform(disks[..n + 1], upgrades[..n], configs);
      var before, u, after := disks[n], upgrades[n], disks[n + 1];
      assert disks[..n + 1][n] == before && disks[..n + 1][0] == disks[0];
      if !Blocking(after.status) && !SettledAs(after, u, Completed) {
        KeptIsUniform(after.active, before.active, disks[0].active, LastCompleted(disks[..n + 1], upgrades[..n]), configs);
      }
    }
  }

  /** From a first set without symlinked binaries, and until some upgrade completes, every such stop leaves exactly that set. */
  lemma UntilCompletionNothingChanges(disks: seq<Disk>, upgrades: seq<Upgrade>, configs: bool)
    requires History(disks, upgrades, configs) && NoSymlinks(disks[0].active)
    requires !Blocking(disks[|upgrades|].status) && LastCompleted(disks, upgrades).None?
    ensures Same(disks[|upgrades|].active, disks[0].active)
  {
    EveryHistoryIsUniform(disks, upgrades, configs);
    if Restored(disks[|upgrades|].active, disks[0].active) {
      RollbackRestoresExactlyWhenNoSymlink(disks[|upgrades|].active, disks[0].active);
    }
  }

  /** The attempts themselves, one after the other, each killed anywhere or not at all. */
  method UpgradeRepeatedly(first: Disk, upgrades: seq<Upgrade>, faithfulConfigs: bool) returns (disks: seq<Disk>)
    requires forall u | u in upgrades :: u.candidate.Complete() && FreshFor(first, u)
    requires forall i, j | 0 <= i < j < |upgrades| :: upgrades[i].transactionId != upgrades[j].transactionId
    ensures |disks| == |upgrades| + 1 && disks[0] == first && History(disks, upgrades, faithfulConfigs)
    ensures !Blocking(disks[|upgrades|].status) ==>
              Uniform(disks[|upgrades|].active, first.active, LastCompleted(disks, upgrades), faithfulConfigs)
  {
    disks := [first];
    for i := 0 to |upgrades|
      invariant |disks| == i + 1 && disks[0] == first
      invariant disks[i].status == first.status
             || exists j :: 0 <= j < i && disks[i].status.Some? && disks[i].status.value.transactionId == upgrades[j].transactionId
      invariant forall k {:trigger upgrades[k]} | 0 <= k < i ::
                  FreshFor(disks[k], upgrades[k]) && upgrades[k].candidate.Complete()
                  && Attempt(disks[k], upgrades[k], faithfulConfigs, disks[k + 1])
    {
      assert upgrades[i] in upgrades;
      var after := AttemptUpgrade(disks[i], upgrades[i], faithfulConfigs);
      disks := disks + [after];
    }
    EveryHistoryIsUniform(disks, upgrades, faithfulConfigs);
  }
}
