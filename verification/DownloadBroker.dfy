/** The broker object: the body of each mutex section, updating both maps in place. */
module DownloadBroker {
  import opened Common
  import opened DownloadStaging
  import opened TransferNames
  import opened DownloadOutcomes

  class Broker {
    var pending: map<Handle, Pending>
    var completed: map<Handle, Completed>

    ghost function State(): Inner
      reads this
    {
      Inner(pending, completed)
    }

    constructor ()
      ensures State() == Start.inner
    {
      pending := map[];
      completed := map[];
    }

    method UniqueHandle(draws: Draws) returns (h: Option<Handle>)
      ensures h == FirstFree(State(), draws)
      ensures h.Some? <==> SomeFree(State(), draws)
      ensures h.Some? ==> h.value in draws && h.value !in pending && h.value !in completed
    {
      FreeExactly(State(), draws);
      for i := 0 to HANDLE_ATTEMPTS
        invariant FirstFree(State(), draws) == FirstFree(State(), draws[i..])
      {
        if draws[i] !in pending && draws[i] !in completed {
          return Some(draws[i]);
        }
      }
      h := None;
    }

    method PrepareDownload(q: Request, draws: Draws, mkdir: Mkdir) returns (r: Result<Handle, Error>)
      modifies this
      ensures (State(), r) == Prepare(old(State()), q, draws, mkdir)
      ensures PrepareOutcome(old(State()), q, draws, mkdir, State(), r)
      ensures r.Success? ==> Begin(State(), r.value, q.fence) == Success(Pending(q.fence, r.value, q.name, q.maxBytes, q.overwrite))
    {
      PreparesExactly(State(), q, draws, mkdir);
      if Prepare(State(), q, draws, mkdir).1.Success? {
        PreparedCanBeBegun(State(), q, draws, mkdir);
      }
      if !ValidDestinationName(q.name) {
        return Failure(InvalidFileName);
      }
      if q.maxBytes == 0 || q.maxBytes > MAX_BROWSER_DOWNLOAD_BYTES {
        return Failure(InvalidBound);
      }
      var inner := Inner(pending, completed);
      if |PendingOf(inner, q.fence.contextId)| + |CompletedOf(inner, q.fence.contextId)| >= MAX_BROWSER_DOWNLOAD_FILES {
        return Failure(FileLimitExceeded);
      }
      if PendingNamed(inner, q.fence.contextId, q.name) != {} {
        return Failure(Collision);
      }
      if !q.overwrite && CompletedNamed(inner, q.fence.contextId, q.name) != {} {
        return Failure(Collision);
      }
      var free := UniqueHandle(draws);
      if free.None? || mkdir.Unmade? {
        return Failure(Io);
      }
      if mkdir.OutsideRoot? {
        return Failure(InvalidRoot);
      }
      var h := free.value;
      pending := pending[h := Pending(q.fence, h, q.name, q.maxBytes, q.overwrite)];
      r := Success(h);
    }

    method FinalizeBegin(h: Handle, fence: Fence) returns (r: Result<Pending, Error>)
      ensures r == Begin(State(), h, fence)
      ensures r.Success? <==> h in pending && pending[h].fence == fence
      ensures r.Success? ==> r.value == pending[h]
    {
      if h !in pending {
        return Failure(UnknownOperation);
      }
      var refusal := Validate(pending[h], fence);
      r := if refusal.Some? then Failure(refusal.value) else Success(pending[h]);
    }

    method FinalizeCommit(h: Handle, fence: Fence, clone: Pending, draws: Draws) returns (r: Result<Handle, Error>)
      modifies this
      ensures (State(), r) == Commit(old(State()), h, fence, clone, draws)
      ensures CommitOutcome(old(State()), h, fence, clone, draws, State(), r)
      ensures !(h in old(pending) && old(pending)[h].fence == fence) ==> r.Failure? && State() == old(State())
      ensures h in old(pending) && old(pending)[h].fence == fence ==> pending == old(pending) - {h}
      ensures r.Success? ==> r.value in completed && completed[r.value] == Completed(fence.contextId, clone.directory, clone.name)
    {
      CommitsExactly(State(), h, fence, clone, draws);
      var current := FinalizeBegin(h, fence);
      if current.Failure? {
        return Failure(current.error);
      }
      var replaced := Replaced(Inner(pending, completed), fence, clone);
      RemoveCompleted(replaced);
      pending := pending - {h};
      var free := UniqueHandle(draws);
      if free.None? {
        return Failure(Io);
      }
      completed := completed[free.value := Completed(fence.contextId, clone.directory, clone.name)];
      r := Success(free.value);
    }

    method AbortDownload(h: Handle, fence: Fence) returns (r: Result<(), Error>)
      modifies this
      ensures (State(), r) == Abort(old(State()), h, fence)
      ensures r.Success? <==> h in old(pending) && old(pending)[h].fence == fence
      ensures completed == old(completed) && pending == if r.Success? then old(pending) - {h} else old(pending)
    {
      var current := FinalizeBegin(h, fence);
      if current.Failure? {
        return Failure(current.error);
      }
      pending := pending - {h};
      r := Success(());
    }

    method CleanupOf(contextId: string)
      modifies this
      ensures State() == CleanupContext(old(State()), contextId)
      ensures forall h :: h in pending <==> h in old(pending) && old(pending)[h].fence.contextId != contextId
      ensures forall h :: h in completed <==> h in old(completed) && old(completed)[h].contextId != contextId
    {
      var inner := Inner(pending, completed);
      var todo := PendingOf(inner, contextId);
      while todo != {}
        invariant pending == old(pending) - (PendingOf(inner, contextId) - todo)
        invariant completed == old(completed) && todo <= PendingOf(inner, contextId)
        decreases |todo|
      {
        var h :| h in todo;
        pending := pending - {h};
        todo := todo - {h};
      }
      RemoveCompleted(CompletedOf(inner, contextId));
    }

    /** Removes the collected handles one by one, as the source's loops do. */
    method RemoveCompleted(gone: set<Handle>)
      modifies this`completed
      ensures completed == old(completed) - gone
    {
      var todo := gone;
      while todo != {}
        invariant completed == old(completed) - (gone - todo) && todo <= gone
        decreases |todo|
      {
        var h :| h in todo;
        completed := completed - {h};
        todo := todo - {h};
      }
    }
  }
}
