/** When each download call succeeds, what it then leaves, and where every directory goes. */
module DownloadOutcomes {
  import opened Common
  import opened DownloadStaging
  import opened DownloadTheorems
  import opened TransferNames

  // ------------------------------------------------------------------ fences

  /** The fence check passes exactly under the record's own fence, and otherwise names the first part that differs. */
  lemma FenceExactly(record: Pending, fence: Fence)
    ensures Validate(record, fence).None? <==> record.fence == fence
    ensures Validate(record, fence) == Some(ContextMismatch) <==> record.fence.contextId != fence.contextId
    ensures Validate(record, fence) == Some(GenerationMismatch) <==>
      record.fence.contextId == fence.contextId && record.fence.generation != fence.generation
    ensures Validate(record, fence) == Some(CapabilityRevisionMismatch) <==>
      record.fence.contextId == fence.contextId && record.fence.generation == fence.generation && record.fence.revision != fence.revision
  {
  }

  lemma BeginsExactly(inner: Inner, h: Handle, fence: Fence)
    ensures Begin(inner, h, fence).Success? <==> h in inner.pending && inner.pending[h].fence == fence
    ensures Begin(inner, h, fence).Success? ==> Begin(inner, h, fence).value == inner.pending[h]
    ensures Begin(inner, h, fence) == Failure(UnknownOperation) <==> h !in inner.pending
    ensures Begin(inner, h, fence) == Failure(ContextMismatch) <==> h in inner.pending && inner.pending[h].fence.contextId != fence.contextId
    ensures Begin(inner, h, fence) == Failure(GenerationMismatch) <==>
      && h in inner.pending && inner.pending[h].fence.contextId == fence.contextId && inner.pending[h].fence.generation != fence.generation
  {
    if h in inner.pending {
      FenceExactly(inner.pending[h], fence);
    }
  }

  // ----------------------------------------------------------------- prepare

  /** A download of that name is pending, or completed, in that context. */
  predicate PendingName(inner: Inner, contextId: string, name: string) {
    exists h :: h in inner.pending && inner.pending[h].fence.contextId == contextId && inner.pending[h].name == name
  }

  predicate CompletedName(inner: Inner, contextId: string, name: string) {
    exists h :: h in inner.completed && inner.completed[h].contextId == contextId && inner.completed[h].name == name
  }

  predicate SomeFree(inner: Inner, draws: Draws) {
    exists h :: h in draws && h !in inner.pending && h !in inner.completed
  }

  /**
   A preparation succeeds if and only if the name is valid, the bound is between one byte and 16
   MiB, the context has fewer than 32 downloads, no pending one has the name, no completed one has
   it unless overwriting is allowed, a draw is free and the directory can be made. Each refusal
   names the first that fails. What is stored is what was asked for, under the new handle.
   */
  ghost predicate PrepareOutcome(inner: Inner, q: Request, draws: Draws, mkdir: Mkdir, after: Inner, r: Result<Handle, Error>) {
    var named := ValidDestinationName(q.name);
    var bounded := named && 0 < q.maxBytes <= 16 * 1024 * 1024;
    var roomy := bounded && |PendingOf(inner, q.fence.contextId)| + |CompletedOf(inner, q.fence.contextId)| < 32;
    var clear := roomy && !PendingName(inner, q.fence.contextId, q.name) && (q.overwrite || !CompletedName(inner, q.fence.contextId, q.name));
    var free := clear && SomeFree(inner, draws);
    && (r.Success? <==> free && mkdir.Created?)
    && (r == Failure(InvalidFileName) <==> !named)
    && (r == Failure(InvalidBound) <==> named && !bounded)
    && (r == Failure(FileLimitExceeded) <==> bounded && !roomy)
    && (r == Failure(Collision) <==> roomy && !clear)
    && (r == Failure(Io) <==> (clear && !free) || (free && mkdir.Unmade?))
    && (r == Failure(InvalidRoot) <==> free && mkdir.OutsideRoot?)
    && (r.Failure? ==> after == inner)
    && (r.Success? ==> && r.value in draws && r.value !in inner.pending && r.value !in inner.completed
                       && after.completed == inner.completed
                       && after.pending == inner.pending[r.value := Pending(q.fence, r.value, q.name, q.maxBytes, q.overwrite)])
  }

  lemma NamesExactly(inner: Inner, contextId: string, name: string)
    ensures PendingNamed(inner, contextId, name) != {} <==> PendingName(inner, contextId, name)
    ensures CompletedNamed(inner, contextId, name) != {} <==> CompletedName(inner, contextId, name)
  {
    if PendingName(inner, contextId, name) {
      var h :| h in inner.pending && inner.pending[h].fence.contextId == contextId && inner.pending[h].name == name;
      assert h in PendingNamed(inner, contextId, name);
    }
    if PendingNamed(inner, contextId, name) != {} {
      var h :| h in PendingNamed(inner, contextId, name);
    }
    if CompletedName(inner, contextId, name) {
      var h :| h in inner.completed && inner.completed[h].contextId == contextId && inner.completed[h].name == name;
      assert h in CompletedNamed(inner, contextId, name);
    }
    if CompletedNamed(inner, contextId, name) != {} {
      var h :| h in CompletedNamed(inner, contextId, name);
    }
  }

  lemma {:induction false} FreeExactly(inner: Inner, draws: seq<Handle>)
    ensures FirstFree(inner, draws).Some? <==> exists h :: h in draws && h !in inner.pending && h !in inner.completed
    ensures FirstFree(inner, draws).Some? ==>
      FirstFree(inner, draws).value in draws && FirstFree(inner, draws).value !in inner.pending && FirstFree(inner, draws).value !in inner.completed
  {
    if draws != [] {
      FreeExactly(inner, draws[1..]);
      assert draws == [draws[0]] + draws[1..];
    }
  }

  lemma PreparesExactly(inner: Inner, q: Request, draws: Draws, mkdir: Mkdir)
    ensures PrepareOutcome(inner, q, draws, mkdir, Prepare(inner, q, draws, mkdir).0, Prepare(inner, q, draws, mkdir).1)
  {
    NamesExactly(inner, q.fence.contextId, q.name);
    FreeExactly(inner, draws);
  }

  /** What was prepared can be begun, and aborted, under the very fence it was prepared with. */
  lemma PreparedCanBeBegun(inner: Inner, q: Request, draws: Draws, mkdir: Mkdir)
    requires Prepare(inner, q, draws, mkdir).1.Success?
    ensures var (after, r) := Prepare(inner, q, draws, mkdir);
      && Begin(after, r.value, q.fence) == Success(Pending(q.fence, r.value, q.name, q.maxBytes, q.overwrite))
      && Abort(after, r.value, q.fence) == (inner, Success(()))
  {
    PreparesExactly(inner, q, draws, mkdir);
    var (after, r) := Prepare(inner, q, draws, mkdir);
    BeginsExactly(after, r.value, q.fence);
    assert after.pending - {r.value} == inner.pending;
  }

  // ------------------------------------------------------------------ commit

  /**
   A commit of an operation pending under that fence takes exactly the completed downloads of its
   context and name, when it may overwrite, and ends the operation; if a draw is then free the
   download is completed under it, and otherwise lost. Anything else changes nothing.
   */
  ghost predicate CommitOutcome(inner: Inner, h: Handle, fence: Fence, clone: Pending, draws: Draws, after: Inner, r: Result<Handle, Error>) {
    if !(h in inner.pending && inner.pending[h].fence == fence) then r.Failure? && after == inner
    else
      && after.pending == inner.pending - {h}
      && (forall c | r != Success(c) :: c in after.completed <==> Outlasts(inner, fence, clone, c))
      && (forall c | c in after.completed && r != Success(c) :: after.completed[c] == inner.completed[c])
      && (r.Success? ==> r.value in draws && r.value in after.completed
                         && after.completed[r.value] == Completed(fence.contextId, clone.directory, clone.name))
      && (r.Failure? ==> r == Failure(Io))
      && (r.Failure? <==> forall d | d in draws :: (d in inner.pending && d != h) || Outlasts(inner, fence, clone, d))
  }

  /** A completed download that the commit of `clone` does not replace. */
  predicate Outlasts(inner: Inner, fence: Fence, clone: Pending, c: Handle) {
    c in inner.completed && !(clone.overwrite && inner.completed[c].contextId == fence.contextId && inner.completed[c].name == clone.name)
  }

  lemma CommitsExactly(inner: Inner, h: Handle, fence: Fence, clone: Pending, draws: Draws)
    ensures CommitOutcome(inner, h, fence, clone, draws, Commit(inner, h, fence, clone, draws).0, Commit(inner, h, fence, clone, draws).1)
  {
    BeginsExactly(inner, h, fence);
    if Begin(inner, h, fence).Success? {
      var cleared := Inner(inner.pending - {h}, inner.completed - Replaced(inner, fence, clone));
      FreeExactly(cleared, draws);
      ClearedExactly(inner, h, fence, clone);
      CommitFrom(inner, cleared, h, fence, clone, draws);
    }
  }

  lemma ClearedExactly(inner: Inner, h: Handle, fence: Fence, clone: Pending)
    ensures var completed := inner.completed - Replaced(inner, fence, clone);
      && (forall c :: c in completed <==> Outlasts(inner, fence, clone, c))
      && (forall c | c in completed :: completed[c] == inner.completed[c])
  {
  }

  lemma CommitFrom(inner: Inner, cleared: Inner, h: Handle, fence: Fence, clone: Pending, draws: Draws)
    requires Begin(inner, h, fence).Success?
    requires cleared == Inner(inner.pending - {h}, inner.completed - Replaced(inner, fence, clone))
    ensures Commit(inner, h, fence, clone, draws) ==
      match FirstFree(cleared, draws)
      case None => (cleared, Failure(Io))
      case Some(c) => (cleared.(completed := cleared.completed[c := Completed(fence.contextId, clone.directory, clone.name)]), Success(c))
  {
  }

  /** The file checks let a call on exactly when the reported size is within both bounds and file and bytes are of that size. */
  lemma FileWorkExactly(k: Call, probe: Option<nat>, read: Option<Bytes>)
    requires k.Checking?
    ensures var sized := k.bytes <= k.clone.maxBytes && k.bytes <= 16 * 1024 * 1024;
      && (FileWork(k, probe, read).Ready? <==> sized && probe == Some(k.bytes) && read.Some? && |read.value| == k.bytes)
      && (FileWork(k, probe, read).Ready? ==> FileWork(k, probe, read) == Ready(k.h, k.fence, k.id, k.clone, k.bytes, read.value))
      && (FileWork(k, probe, read) == Doomed(k.h, k.fence, k.id, FileTooLarge) <==> !sized)
  {
  }

  // ------------------------------------------------- a finalize left to itself

  /** The three steps of a finalize whose file is as reported. */
  function FinalizeActs(call: CallId, h: Handle, fence: Fence, id: string, data: Slice, draws: Draws): seq<Act> {
    [DoBegin(call, h, fence, id, |data|), DoFile(call, Some(|data|), Some(data)), DoCommit(call, draws)]
  }

  type Slice = b: Bytes | |b| <= U64_MAX

  /** The bytes were returned under the prepared name, and the directory is completed under one of the draws. */
  ghost predicate FinalizedFrom(s: System, t: System, h: Handle, p: Pending, data: Slice, draws: Draws) {
    && t.log == s.log + [Finalized(h, |data|, p.name, data)] && t.lost == s.lost
    && t.inner.pending == s.inner.pending - {h}
    && exists c :: c in draws && c in t.inner.completed && t.inner.completed[c] == Completed(p.fence.contextId, p.directory, p.name)
  }

  /**
   After any run, a finalize that nothing disturbs, under the operation's own fence, with a safe id
   and a file of the reported size within its bounds, succeeds: its bytes are returned under the
   prepared name, the operation is no longer pending, and its directory is completed under a
   fresh handle.
   */
  lemma UndisturbedFinalizeSucceeds(acts: seq<Act>, call: CallId, h: Handle, id: string, data: Slice, draws: Draws)
    requires call !in Execute(acts).calls && h in Execute(acts).inner.pending && SafeSingleComponent(id)
    requires |data| <= Execute(acts).inner.pending[h].maxBytes && |data| <= 16 * 1024 * 1024
    requires SomeFree(Execute(acts).inner, draws)
    ensures var s := Execute(acts);
      var p := s.inner.pending[h];
      var t := Execute(acts + FinalizeActs(call, h, p.fence, id, data, draws));
      FinalizedFrom(s, t, h, p, data, draws) && t.calls == s.calls
  {
    var s := Execute(acts);
    var p := s.inner.pending[h];
    var begun := acts + [DoBegin(call, h, p.fence, id, |data|)];
    var filed := begun + [DoFile(call, Some(|data|), Some(data))];
    BeginRun(acts, begun, call, h, id, |data|);
    FileRun(begun, filed, call, h, id, p, data);
    CommitRun(filed, filed + [DoCommit(call, draws)], call, h, id, p, data, draws);
    assert acts + FinalizeActs(call, h, p.fence, id, data, draws) == filed + [DoCommit(call, draws)];
    assert s.calls[call := Ready(h, p.fence, id, p, |data|, data)] - {call} == s.calls;
  }

  lemma BeginRun(acts: seq<Act>, begun: seq<Act>, call: CallId, h: Handle, id: string, bytes: u64)
    requires call !in Execute(acts).calls && h in Execute(acts).inner.pending && SafeSingleComponent(id)
    requires begun == acts + [DoBegin(call, h, Execute(acts).inner.pending[h].fence, id, bytes)]
    ensures var s := Execute(acts);
      var p := s.inner.pending[h];
      Execute(begun) == s.(calls := s.calls[call := Checking(h, p.fence, id, p, bytes)])
  {
    OneMoreAct(acts, DoBegin(call, h, Execute(acts).inner.pending[h].fence, id, bytes));
    BeginStep(Execute(acts), call, h, id, bytes);
  }

  lemma FileRun(acts: seq<Act>, filed: seq<Act>, call: CallId, h: Handle, id: string, p: Pending, data: Slice)
    requires call in Execute(acts).calls && Execute(acts).calls[call] == Checking(h, p.fence, id, p, |data|)
    requires |data| <= p.maxBytes && |data| <= 16 * 1024 * 1024
    requires filed == acts + [DoFile(call, Some(|data|), Some(data))]
    ensures Execute(filed) == Execute(acts).(calls := Execute(acts).calls[call := Ready(h, p.fence, id, p, |data|, data)])
  {
    OneMoreAct(acts, DoFile(call, Some(|data|), Some(data)));
    FileStep(Execute(acts), call, h, id, p, data);
  }

  lemma CommitRun(acts: seq<Act>, done: seq<Act>, call: CallId, h: Handle, id: string, p: Pending, data: Slice, draws: Draws)
    requires call in Execute(acts).calls && Execute(acts).calls[call] == Ready(h, p.fence, id, p, |data|, data)
    requires h in Execute(acts).inner.pending && Execute(acts).inner.pending[h] == p && SomeFree(Execute(acts).inner, draws)
    requires done == acts + [DoCommit(call, draws)]
    ensures FinalizedFrom(Execute(acts), Execute(done), h, p, data, draws) && Execute(done).calls == Execute(acts).calls - {call}
  {
    OneMoreAct(acts, DoCommit(call, draws));
    CommitStep(Execute(acts), call, h, id, p, data, draws);
  }

  lemma BeginStep(s: System, call: CallId, h: Handle, id: string, bytes: u64)
    requires call !in s.calls && h in s.inner.pending && SafeSingleComponent(id)
    ensures var p := s.inner.pending[h];
      Next(s, DoBegin(call, h, p.fence, id, bytes)) == s.(calls := s.calls[call := Checking(h, p.fence, id, p, bytes)])
  {
    BeginsExactly(s.inner, h, s.inner.pending[h].fence);
  }

  lemma FileStep(s: System, call: CallId, h: Handle, id: string, p: Pending, data: Slice)
    requires call in s.calls && s.calls[call] == Checking(h, p.fence, id, p, |data|)
    requires |data| <= p.maxBytes && |data| <= 16 * 1024 * 1024
    ensures Next(s, DoFile(call, Some(|data|), Some(data))) == s.(calls := s.calls[call := Ready(h, p.fence, id, p, |data|, data)])
  {
    FileWorkExactly(s.calls[call], Some(|data|), Some(data));
  }

  lemma CommitStep(s: System, call: CallId, h: Handle, id: string, p: Pending, data: Slice, draws: Draws)
    requires call in s.calls && s.calls[call] == Ready(h, p.fence, id, p, |data|, data)
    requires h in s.inner.pending && s.inner.pending[h] == p && SomeFree(s.inner, draws)
    ensures FinalizedFrom(s, Next(s, DoCommit(call, draws)), h, p, data, draws) && Next(s, DoCommit(call, draws)).calls == s.calls - {call}
  {
    CommitsExactly(s.inner, h, p.fence, p, draws);
    BeginsExactly(s.inner, h, p.fence);
    var (after, r) := Commit(s.inner, h, p.fence, p, draws);
    var d :| d in draws && d !in s.inner.pending && d !in s.inner.completed;
    assert r.Success?;
    assert r.value in draws && r.value in after.completed;
  }

  // ------------------------------------------------ where every directory goes

  /** An abort succeeds, and says so, exactly when the operation is pending under that fence; then it and its directory go, and nothing else. */
  lemma AbortsExactly(acts: seq<Act>, h: Handle, fence: Fence)
    ensures var s, t := Execute(acts), Execute(acts + [DoAbort(h, fence)]);
      if h in s.inner.pending && s.inner.pending[h].fence == fence then
        && t.log == s.log + [Aborted(h)] && t.inner == Inner(s.inner.pending - {h}, s.inner.completed)
        && t.removed == s.removed + {s.inner.pending[h].directory} && t.calls == s.calls
      else t == s
  {
    var s := Execute(acts);
    OneMoreAct(acts, DoAbort(h, fence));
    BeginsExactly(s.inner, h, fence);
    if h in s.inner.pending {
      assert PendingDirectories(s.inner, {h}) == {s.inner.pending[h].directory};
    }
  }

  /** Every download of `s` that `taken` selects is gone from `t` with its directory, and every other is as it was. */
  ghost predicate Cleaned(s: System, t: System, taken: string -> bool) {
    && (forall h :: h in t.inner.pending <==> h in s.inner.pending && !taken(s.inner.pending[h].fence.contextId))
    && (forall h | h in t.inner.pending :: t.inner.pending[h] == s.inner.pending[h])
    && (forall h :: h in t.inner.completed <==> h in s.inner.completed && !taken(s.inner.completed[h].contextId))
    && (forall h | h in t.inner.completed :: t.inner.completed[h] == s.inner.completed[h])
    && (forall h | h in s.inner.pending && h !in t.inner.pending :: s.inner.pending[h].directory in t.removed)
    && (forall h | h in s.inner.completed && h !in t.inner.completed :: s.inner.completed[h].directory in t.removed)
  }

  /** A cleanup takes exactly the downloads of its context, or all of them, and removes their directories. */
  lemma CleanupsExactly(acts: seq<Act>, contextId: string)
    ensures Cleaned(Execute(acts), Execute(acts + [DoCleanupContext(contextId)]), c => c == contextId)
    ensures Cleaned(Execute(acts), Execute(acts + [DoCleanupAll]), c => true)
  {
    OneMoreAct(acts, DoCleanupContext(contextId));
    OneMoreAct(acts, DoCleanupAll);
  }

  /** The directory of `h` is pending, completed, removed, or was lost by a commit that found no handle. */
  ghost predicate Accounted(s: System, h: Handle) {
    || h in s.inner.pending
    || h in s.removed
    || h in s.lost
    || exists c {:trigger s.inner.completed[c]} :: c in s.inner.completed && s.inner.completed[c].directory == h
  }

  lemma PendingGoesWithItsDirectory(s: System, a: Act, h: Handle)
    requires Provenance(s) && h in s.inner.pending && !a.DoCommit?
    ensures h in Next(s, a).inner.pending || h in Next(s, a).removed
  {
    assert s.inner.pending[h].directory == h;
  }

  lemma CompletedGoesWithItsDirectory(s: System, a: Act, c: Handle)
    requires c in s.inner.completed && !a.DoCommit?
    ensures (c in Next(s, a).inner.completed && Next(s, a).inner.completed[c] == s.inner.completed[c])
      || s.inner.completed[c].directory in Next(s, a).removed
  {
  }

  lemma CommitAccounts(s: System, call: CallId, draws: Draws, h: Handle)
    requires Provenance(s) && call in s.calls && s.calls[call].Ready? && Accounted(s, h)
    ensures Accounted(Committed(s, call, draws), h)
  {
    var k, t := s.calls[call], Committed(s, call, draws);
    assert CallFits(s, k) && k.clone.directory == k.h;
    CommitsExactly(s.inner, k.h, k.fence, k.clone, draws);
    BeginsExactly(s.inner, k.h, k.fence);
    var (after, r) := Commit(s.inner, k.h, k.fence, k.clone, draws);
    if h in s.inner.pending && h == k.h && r.Success? {
      assert t.inner.completed[r.value].directory == h;
    } else if h !in s.inner.pending && h !in s.removed && h !in s.lost {
      var c :| c in s.inner.completed && s.inner.completed[c].directory == h;
      CompletedThroughCommit(s, call, draws, c);
      if c in t.inner.completed && t.inner.completed[c] == s.inner.completed[c] {
        assert t.inner.completed[c].directory == h;
      }
    }
  }

  lemma CompletedThroughCommit(s: System, call: CallId, draws: Draws, c: Handle)
    requires call in s.calls && s.calls[call].Ready? && c in s.inner.completed
    ensures var t := Committed(s, call, draws);
      (c in t.inner.completed && t.inner.completed[c] == s.inner.completed[c]) || s.inner.completed[c].directory in t.removed
  {
    var k := s.calls[call];
    if Begin(s.inner, k.h, k.fence).Success? {
      var cleared := Inner(s.inner.pending - {k.h}, s.inner.completed - Replaced(s.inner, k.fence, k.clone));
      FreeExactly(cleared, draws);
      CommitFrom(s.inner, cleared, k.h, k.fence, k.clone, draws);
    }
  }

  lemma StaysRemoved(s: System, a: Act, h: Handle)
    ensures (h in s.removed ==> h in Next(s, a).removed) && (h in s.lost ==> h in Next(s, a).lost)
  {
  }

  lemma NextAccounts(s: System, a: Act, h: Handle)
    requires Provenance(s) && Accounted(s, h)
    ensures Accounted(Next(s, a), h)
  {
    StaysRemoved(s, a, h);
    if a.DoCommit? {
      if a.call in s.calls && s.calls[a.call].Ready? {
        CommitAccounts(s, a.call, a.draws, h);
      }
    } else if h in s.inner.pending {
      PendingGoesWithItsDirectory(s, a, h);
    } else if h !in s.removed && h !in s.lost {
      var c :| c in s.inner.completed && s.inner.completed[c].directory == h;
      CompletedGoesWithItsDirectory(s, a, c);
    }
  }

  /** In every interleaving no directory is forgotten: each one ever made is in use, was removed, or was lost with its operation. */
  lemma {:induction false} NoDirectoryIsForgotten(acts: seq<Act>, h: Handle)
    requires FreshRun(acts) && h in Execute(acts).prepared
    ensures Accounted(Execute(acts), h)
  {
    var before, a := acts[..|acts| - 1], acts[|acts| - 1];
    var s := Execute(before);
    assert Execute(acts) == Next(s, a);
    EveryInterleavingIsSound(before);
    if h in s.prepared {
      NoDirectoryIsForgotten(before, h);
      NextAccounts(s, a, h);
    } else {
      NewlyPrepared(s, a, h);
    }
  }

  lemma NewlyPrepared(s: System, a: Act, h: Handle)
    requires h !in s.prepared && h in Next(s, a).prepared
    ensures h in Next(s, a).inner.pending
  {
  }
}
