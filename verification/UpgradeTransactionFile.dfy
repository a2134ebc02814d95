/** The transaction file object: each command edits a copy of the record and replaces the file. */
module UpgradeTransactionFile {
  import opened Common
  import opened UpgradeTransaction

  class TransactionFile {
    var file: Option<Record>

    constructor ()
      ensures file == Execute([])
    {
      file := None;
    }

    /** `_read`: the stored record, if there is a valid one. */
    method Read() returns (r: Option<Record>)
      ensures r == if file.Some? && Valid(file.value) then file else None
    {
      r := if file.Some? && Valid(file.value) then file else None;
    }

    /** `_atomic_write`: validates, then replaces the file unless the write fails before the rename. */
    method AtomicWrite(r: Record, write: Write) returns (ok: bool)
      modifies this
      ensures file == if Valid(r) && !write.FailedBefore? then Some(r) else old(file)
      ensures ok <==> Valid(r) && write.Written?
    {
      if !Valid(r) || write.FailedBefore? {
        return false;
      }
      file := Some(r);
      ok := write.Written?;
    }

    method StartTransaction(cumg: string, handoff: string, id: string, now: int, write: Write) returns (ok: bool)
      modifies this
      ensures file == Run1(old(file), Start(cumg, handoff, id), now, write)
      ensures ok <==> Returns(old(file), Start(cumg, handoff, id), now, write)
      ensures StartOutcome(old(file), cumg, handoff, id, now, write, file, ok)
    {
      StartsExactly(file, cumg, handoff, id, now, write);
      if !Commit(cumg) || !Commit(handoff) {
        return false;
      }
      if file.Some? {
        var prior := Read();
        if prior.None? || !Replaceable(prior.value.status) {
          return false;
        }
      }
      if !Token(id) {
        return false;
      }
      ok := AtomicWrite(Fresh(cumg, handoff, id, now), write);
    }

    method SetFlags(before: set<Flag>, flags: seq<Flag>) returns (done: set<Flag>)
      ensures done == before + set f | f in flags
    {
      done := before;
      for i := 0 to |flags|
        invariant done == before + set f | f in flags[..i]
      {
        done := done + {flags[i]};
      }
      assert flags[..|flags|] == flags;
    }

    method AdvanceTransaction(phase: Option<Phase>, generation: Option<string>, asset: Option<string>,
                              owner: Option<Role>, epoch: Option<int>, flags: seq<Flag>, now: int, write: Write)
      returns (ok: bool)
      modifies this
      ensures file == Run1(old(file), Advance(phase, generation, asset, owner, epoch, flags), now, write)
      ensures ok <==> Returns(old(file), Advance(phase, generation, asset, owner, epoch, flags), now, write)
      ensures AdvanceOutcome(old(file), phase, generation, asset, owner, epoch, flags, now, write, file, ok)
    {
      AdvancesExactly(file, phase, generation, asset, owner, epoch, flags, now, write);
      var found := Read();
      if found.None? || !found.value.status.InProgress? {
        return false;
      }
      var record := found.value;
      if phase.Some? {
        if phase.value.CompletedPhase? || Index(phase.value) < Index(record.phase) {
          return false;
        }
        record := record.(phase := phase.value);
      }
      if generation.Some? {
        if !Token(generation.value) {
          return false;
        }
        record := record.(runtimeGeneration := generation);
      }
      if asset.Some? {
        if !Token(asset.value) {
          return false;
        }
        record := record.(rollbackAsset := asset);
      }
      if owner.Some? || epoch.Some? {
        if owner.None? || epoch.None? || epoch.value < 1 {
          return false;
        }
        record := record.(owner := owner, epoch := epoch);
      }
      var done := SetFlags(record.done, flags);
      record := record.(done := done);
      record := record.(updatedAtMs := Max(now, record.updatedAtMs));
      ok := AtomicWrite(record, write);
    }

    method FailTransaction(status: TxStatus, reason: string, action: string, now: int, write: Write) returns (ok: bool)
      modifies this
      ensures file == Run1(old(file), Fail(status, reason, action), now, write)
      ensures ok <==> Returns(old(file), Fail(status, reason, action), now, write)
      ensures FailOutcome(old(file), status, reason, action, now, write, file, ok)
    {
      FailsExactly(file, status, reason, action, now, write);
      if status.InProgress? || status.CompletedStatus? || !Reason(reason) || !Reason(action) {
        return false;
      }
      var found := Read();
      if found.None? {
        return false;
      }
      if !found.value.status.InProgress? {
        return true;
      }
      var record := found.value.(status := status, failureReason := Some(reason), operatorAction := Some(action));
      record := record.(updatedAtMs := Max(now, record.updatedAtMs));
      ok := AtomicWrite(record, write);
    }

    method CompleteTransaction(now: int, write: Write) returns (ok: bool)
      modifies this
      ensures file == Run1(old(file), Complete, now, write)
      ensures ok <==> Returns(old(file), Complete, now, write)
      ensures CompleteOutcome(old(file), now, write, file, ok)
      ensures ok ==> file.Some? && file.value.status.CompletedStatus? && CompletionContract(file.value)
    {
      CompletesExactly(file, now, write);
      var found := Read();
      if found.None? || !found.value.status.InProgress? || !found.value.phase.Cleanup? {
        return false;
      }
      ok := AtomicWrite(Finished(found.value, now), write);
    }

    method CompleteDeferred(id: string, cumg: string, generation: string, now: int, write: Write) returns (ok: bool)
      modifies this
      ensures file == Run1(old(file), CompleteDeferredCleanup(id, cumg, generation), now, write)
      ensures ok <==> Returns(old(file), CompleteDeferredCleanup(id, cumg, generation), now, write)
      ensures DeferredOutcome(old(file), id, cumg, generation, now, write, file, ok)
      ensures ok ==> file.Some? && file.value.status.CompletedStatus? && CompletionContract(file.value)
    {
      DefersExactly(file, id, cumg, generation, now, write);
      if !Token(id) {
        return false;
      }
      var found := Read();
      if found.None? || !DeferredCleanup(found.value, cumg, generation) || found.value.transactionId != id {
        return false;
      }
      var record := found.value.(done := found.value.done + {CleanupCompleted});
      ok := AtomicWrite(Finished(record, now), write);
    }
  }
}
