/** What every interleaving of download calls keeps. */
module DownloadTheorems {
  import opened Common
  import opened DownloadStaging
  import opened TransferNames
  import RelativePath

  // -------------------------------------------------------------- invariants

  /** Two live downloads of one context that claim the same destination name. */
  predicate NameClash(inner: Inner, h: Handle, g: Handle) {
    || (h in inner.pending && g in inner.pending && h != g
        && inner.pending[h].fence.contextId == inner.pending[g].fence.contextId && inner.pending[h].name == inner.pending[g].name)
    || (h in inner.completed && g in inner.completed && h != g
        && inner.completed[h].contextId == inner.completed[g].contextId && inner.completed[h].name == inner.completed[g].name)
    || (h in inner.pending && g in inner.completed && !inner.pending[h].overwrite
        && inner.pending[h].fence.contextId == inner.completed[g].contextId && inner.pending[h].name == inner.completed[g].name)
  }

  ghost predicate NamesAreUnique(inner: Inner) {
    forall h, g {:trigger NameClash(inner, h, g)} :: !NameClash(inner, h, g)
  }

  ghost predicate WithinLimit(inner: Inner) {
    forall c {:trigger Active(inner, c)} :: Active(inner, c) <= MAX_BROWSER_DOWNLOAD_FILES
  }

  /**
   A call in flight works on the operation exactly as it was prepared, under its fence and with
   a safe id; one doomed to drop it either has that fence too or presented an unsafe id.
   */
  predicate CallFits(s: System, k: Call) {
    && (k.Doomed? ==> !SafeSingleComponent(k.id) || (k.h in s.prepared && k.fence == s.prepared[k.h].fence))
    && (!k.Doomed? ==> k.h in s.prepared && k.clone == s.prepared[k.h] && k.fence == k.clone.fence && SafeSingleComponent(k.id))
    && (k.Ready? ==> |k.data| == k.bytes <= k.clone.maxBytes && k.bytes <= MAX_BROWSER_DOWNLOAD_BYTES)
  }

  /** Pending records are the prepared ones, and each owns the directory of its handle. */
  ghost predicate Provenance(s: System) {
    && (forall h {:trigger h in s.inner.pending} | h in s.inner.pending ::
          h in s.prepared && s.inner.pending[h] == s.prepared[h])
    && (forall h {:trigger h in s.prepared} | h in s.prepared :: s.prepared[h].directory == h)
    && (forall i {:trigger s.calls[i]} | i in s.calls :: CallFits(s, s.calls[i]))
  }

  /** Two completed downloads share a directory. */
  predicate DirectoryClash(inner: Inner, c: Handle, d: Handle) {
    c in inner.completed && d in inner.completed && c != d && inner.completed[c].directory == inner.completed[d].directory
  }

  /** No live record uses a directory that was removed or that belongs to another record. */
  ghost predicate DirectoriesStand(s: System) {
    && s.removed <= s.prepared.Keys
    && (forall h {:trigger h in s.removed} | h in s.inner.pending :: h !in s.removed)
    && (forall c {:trigger s.inner.completed[c]} | c in s.inner.completed ::
          && s.inner.completed[c].directory in s.prepared
          && s.inner.completed[c].directory !in s.removed
          && s.inner.completed[c].directory !in s.inner.pending)
    && (forall c, d {:trigger DirectoryClash(s.inner, c, d)} :: !DirectoryClash(s.inner, c, d))
  }

  /** Each settling return names a prepared operation that is no longer pending. */
  predicate SettledFits(s: System, e: Settled) {
    && e.h in s.prepared && e.h !in s.inner.pending
    && (e.Finalized? ==> && |e.data| == e.reported <= s.prepared[e.h].maxBytes
                         && e.reported <= MAX_BROWSER_DOWNLOAD_BYTES
                         && e.name == s.prepared[e.h].name)
  }

  ghost predicate SettledOnce(s: System) {
    && (forall i {:trigger s.log[i]} | 0 <= i < |s.log| :: SettledFits(s, s.log[i]))
    && (forall i, j {:trigger s.log[i], s.log[j]} | 0 <= i < j < |s.log| :: s.log[i].h != s.log[j].h)
  }

  // ------------------------------------------------------------ small helpers

  lemma {:induction false} FirstFreeIsDrawn(inner: Inner, draws: seq<Handle>)
    ensures match FirstFree(inner, draws)
            case None => true
            case Some(h) => h in draws && h !in inner.pending && h !in inner.completed
  {
    if draws != [] {
      FirstFreeIsDrawn(inner, draws[1..]);
    }
  }

  // ------------------------------------------------------------------- naming

  lemma PrepareKeepsNames(inner: Inner, q: Request, draws: Draws, mkdir: Mkdir)
    requires NamesAreUnique(inner)
    ensures NamesAreUnique(Prepare(inner, q, draws, mkdir).0)
  {
    FirstFreeIsDrawn(inner, draws);
    var (after, r) := Prepare(inner, q, draws, mkdir);
    forall h, g
      ensures !NameClash(after, h, g)
    {
      assert !NameClash(inner, h, g);
      if r.Success? {
        assert h !in PendingNamed(inner, q.fence.contextId, q.name) && g !in PendingNamed(inner, q.fence.contextId, q.name);
        assert !q.overwrite ==> g !in CompletedNamed(inner, q.fence.contextId, q.name);
      }
    }
  }

  /** The commit never looks for a collision, yet cannot create one. */
  lemma CommitKeepsNames(inner: Inner, h: Handle, fence: Fence, draws: Draws)
    requires NamesAreUnique(inner) && h in inner.pending && fence == inner.pending[h].fence
    ensures NamesAreUnique(Commit(inner, h, fence, inner.pending[h], draws).0)
  {
    var clone := inner.pending[h];
    var cleared := Inner(inner.pending - {h}, inner.completed - Replaced(inner, fence, clone));
    FirstFreeIsDrawn(cleared, draws);
    var after := Commit(inner, h, fence, clone, draws).0;
    forall f, g
      ensures !NameClash(after, f, g)
    {
      assert !NameClash(inner, f, g) && !NameClash(inner, f, h) && !NameClash(inner, h, f) && !NameClash(inner, h, g);
    }
  }

  lemma ShrinkKeepsNames(inner: Inner, smaller: Inner)
    requires NamesAreUnique(inner)
    requires forall h | h in smaller.pending :: h in inner.pending && inner.pending[h] == smaller.pending[h]
    requires forall h | h in smaller.completed :: h in inner.completed && inner.completed[h] == smaller.completed[h]
    ensures NamesAreUnique(smaller)
  {
    forall h, g
      ensures !NameClash(smaller, h, g)
    {
      assert !NameClash(inner, h, g);
    }
  }

  // -------------------------------------------------------------------- limit

  function Active(inner: Inner, c: string): nat {
    |PendingOf(inner, c)| + |CompletedOf(inner, c)|
  }

  lemma SetsAfterAdd(inner: Inner, h: Handle, p: Pending, q: Completed, c: string)
    ensures var after := inner.(pending := inner.pending[h := p]);
      && CompletedOf(after, c) == CompletedOf(inner, c)
      && PendingOf(after, c) - {h} == PendingOf(inner, c) - {h}
      && (h in PendingOf(after, c) <==> p.fence.contextId == c)
    ensures var after := inner.(completed := inner.completed[h := q]);
      && PendingOf(after, c) == PendingOf(inner, c)
      && CompletedOf(after, c) - {h} == CompletedOf(inner, c) - {h}
      && (h in CompletedOf(after, c) <==> q.contextId == c)
  {
  }

  lemma OneMore<T>(a: set<T>, b: set<T>, x: T)
    requires x !in a && b - {x} == a - {x}
    ensures |b| == |a| + if x in b then 1 else 0
  {
    assert a - {x} == a;
    assert b == if x in b then (b - {x}) + {x} else b - {x};
  }

  lemma AddPendingCounts(inner: Inner, h: Handle, p: Pending, c: string)
    requires h !in inner.pending
    ensures Active(inner.(pending := inner.pending[h := p]), c) == Active(inner, c) + if p.fence.contextId == c then 1 else 0
  {
    SetsAfterAdd(inner, h, p, Completed("", h, ""), c);
    OneMore(PendingOf(inner, c), PendingOf(inner.(pending := inner.pending[h := p]), c), h);
  }

  lemma AddCompletedCounts(inner: Inner, h: Handle, q: Completed, c: string)
    requires h !in inner.completed
    ensures Active(inner.(completed := inner.completed[h := q]), c) == Active(inner, c) + if q.contextId == c then 1 else 0
  {
    SetsAfterAdd(inner, h, Pending(Fence("", 0, 0), h, "", 0, false), q, c);
    OneMore(CompletedOf(inner, c), CompletedOf(inner.(completed := inner.completed[h := q]), c), h);
  }

  /** Leaving `pending` frees the slot that the completed record then takes. */
  lemma ClearingCounts(inner: Inner, h: Handle, gone: set<Handle>, c: string)
    requires h in inner.pending
    ensures Active(Inner(inner.pending - {h}, inner.completed - gone), c)
         <= Active(inner, c) - if inner.pending[h].fence.contextId == c then 1 else 0
  {
    var after := Inner(inner.pending - {h}, inner.completed - gone);
    SubsetIsSmaller(CompletedOf(after, c), CompletedOf(inner, c));
    if inner.pending[h].fence.contextId == c {
      assert PendingOf(inner, c) == PendingOf(after, c) + {h};
    } else {
      assert PendingOf(after, c) == PendingOf(inner, c);
    }
  }

  lemma PrepareKeepsLimit(inner: Inner, q: Request, draws: Draws, mkdir: Mkdir)
    requires WithinLimit(inner)
    ensures WithinLimit(Prepare(inner, q, draws, mkdir).0)
  {
    FirstFreeIsDrawn(inner, draws);
    var (after, r) := Prepare(inner, q, draws, mkdir);
    if r.Success? {
      forall c
        ensures Active(after, c) <= MAX_BROWSER_DOWNLOAD_FILES
      {
        AddPendingCounts(inner, r.value, after.pending[r.value], c);
      }
    }
  }

  lemma CommitKeepsLimit(inner: Inner, h: Handle, fence: Fence, clone: Pending, draws: Draws, c: string)
    requires Active(inner, c) <= MAX_BROWSER_DOWNLOAD_FILES
    ensures Active(Commit(inner, h, fence, clone, draws).0, c) <= MAX_BROWSER_DOWNLOAD_FILES
  {
    if Begin(inner, h, fence).Success? {
      var gone := Replaced(inner, fence, clone);
      var cleared := Inner(inner.pending - {h}, inner.completed - gone);
      ClearingCounts(inner, h, gone, c);
      FirstFreeIsDrawn(cleared, draws);
      match FirstFree(cleared, draws)
      case None =>
      case Some(free) => AddCompletedCounts(cleared, free, Completed(fence.contextId, clone.directory, clone.name), c);
    }
  }

  lemma ShrinkKeepsLimit(inner: Inner, smaller: Inner)
    requires WithinLimit(inner)
    requires forall h | h in smaller.pending :: h in inner.pending && inner.pending[h] == smaller.pending[h]
    requires forall h | h in smaller.completed :: h in inner.completed && inner.completed[h] == smaller.completed[h]
    ensures WithinLimit(smaller)
  {
    forall c
      ensures Active(smaller, c) <= MAX_BROWSER_DOWNLOAD_FILES
    {
      assert Active(inner, c) <= MAX_BROWSER_DOWNLOAD_FILES;
      SubsetIsSmaller(PendingOf(smaller, c), PendingOf(inner, c));
      SubsetIsSmaller(CompletedOf(smaller, c), CompletedOf(inner, c));
    }
  }

  // ---------------------------------------------------------------- each step

  /** The steps that only remove records. */
  predicate OnlyRemoves(s: System, a: Act) {
    !a.DoPrepare? && !(a.DoCommit? && a.call in s.calls && s.calls[a.call].Ready?)
  }

  lemma RemovalShrinks(s: System, a: Act)
    requires OnlyRemoves(s, a)
    ensures var t := Next(s, a).inner;
      && (forall h | h in t.pending :: h in s.inner.pending && s.inner.pending[h] == t.pending[h])
      && (forall h | h in t.completed :: h in s.inner.completed && s.inner.completed[h] == t.completed[h])
  {
  }

  lemma NextKeepsNames(s: System, a: Act)
    requires Provenance(s) && NamesAreUnique(s.inner)
    ensures NamesAreUnique(Next(s, a).inner)
  {
    if OnlyRemoves(s, a) {
      RemovalShrinks(s, a);
      ShrinkKeepsNames(s.inner, Next(s, a).inner);
    } else if a.DoPrepare? {
      PrepareKeepsNames(s.inner, a.q, a.draws, a.mkdir);
    } else {
      var k := s.calls[a.call];
      assert CallFits(s, k);
      if k.h in s.inner.pending {
        CommitKeepsNames(s.inner, k.h, k.fence, a.draws);
      }
    }
  }

  lemma NextKeepsLimit(s: System, a: Act)
    requires WithinLimit(s.inner)
    ensures WithinLimit(Next(s, a).inner)
  {
    if OnlyRemoves(s, a) {
      RemovalShrinks(s, a);
      ShrinkKeepsLimit(s.inner, Next(s, a).inner);
    } else if a.DoPrepare? {
      PrepareKeepsLimit(s.inner, a.q, a.draws, a.mkdir);
    } else {
      var k := s.calls[a.call];
      forall c
        ensures Active(Next(s, a).inner, c) <= MAX_BROWSER_DOWNLOAD_FILES
      {
        assert Active(s.inner, c) <= MAX_BROWSER_DOWNLOAD_FILES;
        CommitKeepsLimit(s.inner, k.h, k.fence, k.clone, a.draws, c);
      }
    }
  }

  /** A prepared handle is one of the fresh draws. */
  lemma PreparedIsFresh(s: System, a: Act)
    requires a.DoPrepare? && FreshAct(s, a) && Prepare(s.inner, a.q, a.draws, a.mkdir).1.Success?
    ensures Prepare(s.inner, a.q, a.draws, a.mkdir).1.value !in s.prepared
  {
    FirstFreeIsDrawn(s.inner, a.draws);
  }

  /** What was prepared stays on record as it was. */
  lemma PreparedIsKept(s: System, a: Act, h: Handle)
    requires FreshAct(s, a) && h in s.prepared
    ensures h in Next(s, a).prepared && Next(s, a).prepared[h] == s.prepared[h]
  {
    if a.DoPrepare? && Next(s, a) != s {
      PreparedIsFresh(s, a);
    }
  }

  /** Only a begin or a file step of its own changes where a call stands. */
  lemma CallIsUnmoved(s: System, a: Act, i: CallId)
    requires i in Next(s, a).calls && !(a.DoBegin? && a.call == i) && !(a.DoFile? && a.call == i)
    ensures i in s.calls && Next(s, a).calls[i] == s.calls[i]
  {
  }

  lemma StillFits(s: System, t: System, k: Call)
    requires CallFits(s, k) && (k.h in s.prepared ==> k.h in t.prepared && t.prepared[k.h] == s.prepared[k.h])
    ensures CallFits(t, k)
  {
  }

  lemma BegunFits(s: System, a: Act)
    requires Provenance(s) && a.DoBegin? && a.call in Next(s, a).calls
    ensures Next(s, a).prepared == s.prepared && CallFits(s, Next(s, a).calls[a.call])
  {
    if a.call in s.calls {
      assert CallFits(s, s.calls[a.call]);
    }
  }

  lemma FileWorkFits(s: System, k: Call, probe: Option<nat>, read: Option<Bytes>)
    requires k.Checking? && CallFits(s, k)
    ensures CallFits(s, FileWork(k, probe, read))
  {
  }

  lemma CallsStillFit(s: System, a: Act, i: CallId)
    requires Provenance(s) && FreshAct(s, a) && i in Next(s, a).calls
    ensures CallFits(Next(s, a), Next(s, a).calls[i])
  {
    var t := Next(s, a);
    if a.DoBegin? && a.call == i {
      BegunFits(s, a);
      StillFits(s, t, t.calls[i]);
    } else if a.DoFile? && a.call == i {
      assert CallFits(s, s.calls[i]);
      if s.calls[i].Checking? {
        FileWorkFits(s, s.calls[i], a.probe, a.read);
      }
      StillFits(s, t, t.calls[i]);
    } else {
      CallIsUnmoved(s, a, i);
      assert CallFits(s, s.calls[i]);
      if s.calls[i].h in s.prepared {
        PreparedIsKept(s, a, s.calls[i].h);
      }
      StillFits(s, t, t.calls[i]);
    }
  }

  lemma PendingIsPrepared(s: System, a: Act, h: Handle)
    requires Provenance(s) && FreshAct(s, a) && h in Next(s, a).inner.pending
    ensures h in Next(s, a).prepared && Next(s, a).inner.pending[h] == Next(s, a).prepared[h]
  {
    if OnlyRemoves(s, a) {
      RemovalShrinks(s, a);
      PreparedIsKept(s, a, h);
    }
  }

  lemma PreparedOwnsItsDirectory(s: System, a: Act, h: Handle)
    requires Provenance(s) && h in Next(s, a).prepared
    ensures Next(s, a).prepared[h].directory == h
  {
  }

  lemma NextKeepsProvenance(s: System, a: Act)
    requires Provenance(s) && FreshAct(s, a)
    ensures Provenance(Next(s, a))
  {
    var t := Next(s, a);
    forall i | i in t.calls
      ensures CallFits(t, t.calls[i])
    {
      CallsStillFit(s, a, i);
    }
    forall h | h in t.inner.pending
      ensures h in t.prepared && t.inner.pending[h] == t.prepared[h]
    {
      PendingIsPrepared(s, a, h);
    }
    forall h | h in t.prepared
      ensures t.prepared[h].directory == h
    {
      PreparedOwnsItsDirectory(s, a, h);
    }
  }

  lemma RemovalKeepsDirectories(s: System, a: Act)
    requires Provenance(s) && DirectoriesStand(s) && OnlyRemoves(s, a)
    ensures DirectoriesStand(Next(s, a))
  {
    var t := Next(s, a);
    RemovalShrinks(s, a);
    forall c, d
      ensures !DirectoryClash(t.inner, c, d)
    {
      assert !DirectoryClash(s.inner, c, d);
    }
    forall c, d | c in s.inner.completed && d in t.inner.completed && c !in t.inner.completed
      ensures s.inner.completed[c].directory != t.inner.completed[d].directory
    {
      assert !DirectoryClash(s.inner, c, d);
    }
  }

  lemma PrepareKeepsDirectories(s: System, a: Act)
    requires Provenance(s) && DirectoriesStand(s) && FreshAct(s, a) && a.DoPrepare?
    ensures DirectoriesStand(Next(s, a))
  {
    if Next(s, a) != s {
      PreparedIsFresh(s, a);
    }
    forall c, d
      ensures !DirectoryClash(Next(s, a).inner, c, d)
    {
      assert !DirectoryClash(s.inner, c, d);
    }
  }

  lemma CommitKeepsDirectories(s: System, call: CallId, draws: Draws)
    requires Provenance(s) && DirectoriesStand(s) && call in s.calls && s.calls[call].Ready?
    ensures DirectoriesStand(Committed(s, call, draws))
  {
    var k := s.calls[call];
    assert CallFits(s, k);
    if Begin(s.inner, k.h, k.fence).Success? {
      var gone := Replaced(s.inner, k.fence, k.clone);
      var cleared := Inner(s.inner.pending - {k.h}, s.inner.completed - gone);
      FirstFreeIsDrawn(cleared, draws);
      var t := Committed(s, call, draws);
      forall c, d
        ensures !DirectoryClash(t.inner, c, d)
      {
        assert !DirectoryClash(s.inner, c, d);
      }
      forall c, d | c in gone && d in cleared.completed
        ensures s.inner.completed[c].directory != cleared.completed[d].directory
      {
        assert !DirectoryClash(s.inner, c, d);
      }
    }
  }

  /** What has been settled is no longer pending and cannot become so again. */
  lemma SettledStays(s: System, a: Act, e: Settled)
    requires Provenance(s) && FreshAct(s, a) && SettledFits(s, e)
    ensures SettledFits(Next(s, a), e)
  {
    PreparedIsKept(s, a, e.h);
    if a.DoPrepare? && Next(s, a) != s {
      PreparedIsFresh(s, a);
    } else if OnlyRemoves(s, a) {
      RemovalShrinks(s, a);
    }
  }

  /** A step logs at most one return, of an operation that was pending before it. */
  lemma LogGrows(s: System, a: Act)
    requires Provenance(s)
    ensures var t := Next(s, a);
      t.log == s.log || (|t.log| == |s.log| + 1 && s.log <= t.log && t.log[|s.log|].h in s.inner.pending && SettledFits(t, t.log[|s.log|]))
  {
    if a.DoCommit? && a.call in s.calls {
      assert CallFits(s, s.calls[a.call]);
    }
  }

  lemma NextKeepsSettledOnce(s: System, a: Act)
    requires Provenance(s) && SettledOnce(s) && FreshAct(s, a)
    ensures SettledOnce(Next(s, a))
  {
    var t := Next(s, a);
    LogGrows(s, a);
    forall i | 0 <= i < |t.log|
      ensures SettledFits(t, t.log[i])
    {
      if i < |s.log| {
        SettledStays(s, a, s.log[i]);
        assert t.log[i] == s.log[i];
      }
    }
    forall i, j | 0 <= i < j < |t.log|
      ensures t.log[i].h != t.log[j].h
    {
      assert SettledFits(s, s.log[i]) && t.log[i] == s.log[i];
      if j < |s.log| {
        assert t.log[j] == s.log[j];
      }
    }
  }

  // ------------------------------------------------------------- whole runs

  ghost predicate Sound(s: System) {
    && Provenance(s)
    && NamesAreUnique(s.inner)
    && WithinLimit(s.inner)
    && DirectoriesStand(s)
    && SettledOnce(s)
  }

  lemma NextKeepsSound(s: System, a: Act)
    requires Sound(s) && FreshAct(s, a)
    ensures Sound(Next(s, a))
  {
    NextKeepsProvenance(s, a);
    NextKeepsNames(s, a);
    NextKeepsLimit(s, a);
    NextKeepsSettledOnce(s, a);
    if a.DoPrepare? {
      PrepareKeepsDirectories(s, a);
    } else if OnlyRemoves(s, a) {
      RemovalKeepsDirectories(s, a);
    } else {
      CommitKeepsDirectories(s, a.call, a.draws);
    }
  }

  lemma StartIsSound()
    ensures Sound(Start)
  {
    forall c
      ensures Active(Start.inner, c) <= MAX_BROWSER_DOWNLOAD_FILES
    {
      assert PendingOf(Start.inner, c) == {} && CompletedOf(Start.inner, c) == {};
    }
  }

  /** Every interleaving keeps names unique, the budget, the directories and the settlement log. */
  lemma {:induction false} EveryInterleavingIsSound(acts: seq<Act>)
    requires FreshRun(acts)
    ensures Sound(Execute(acts))
  {
    if acts == [] {
      StartIsSound();
    } else {
      EveryInterleavingIsSound(acts[..|acts| - 1]);
      NextKeepsSound(Execute(acts[..|acts| - 1]), acts[|acts| - 1]);
    }
  }

  lemma AtMostOne<T>(s: set<T>)
    requires forall x, y | x in s && y in s :: x == y
    ensures |s| <= 1
  {
    if s != {} {
      var x :| x in s;
      assert s == {x};
    }
  }

  /**
   In every interleaving a context has at most one pending and at most one completed
   download of a name, and a pending one that may not overwrite has no completed twin.
   */
  lemma OneDownloadPerName(acts: seq<Act>, contextId: string, name: string)
    requires FreshRun(acts)
    ensures var inner := Execute(acts).inner;
      && |PendingNamed(inner, contextId, name)| <= 1
      && |CompletedNamed(inner, contextId, name)| <= 1
      && ((exists h | h in PendingNamed(inner, contextId, name) :: !inner.pending[h].overwrite) ==>
            CompletedNamed(inner, contextId, name) == {})
  {
    EveryInterleavingIsSound(acts);
    var inner := Execute(acts).inner;
    var p, c := PendingNamed(inner, contextId, name), CompletedNamed(inner, contextId, name);
    forall h, g | h in p && g in p
      ensures h == g
    {
      assert !NameClash(inner, h, g);
    }
    forall h, g | h in c && g in c
      ensures h == g
    {
      assert !NameClash(inner, h, g);
    }
    AtMostOne(p);
    AtMostOne(c);
    forall h, g | h in p && g in c
      ensures inner.pending[h].overwrite
    {
      assert !NameClash(inner, h, g);
    }
  }

  /** Of all the finalizes and aborts of one operation, at most one returns success. */
  lemma SettlesAtMostOnce(acts: seq<Act>, i: nat, j: nat)
    requires FreshRun(acts) && i < |Execute(acts).log| && j < |Execute(acts).log|
    requires Execute(acts).log[i].h == Execute(acts).log[j].h
    ensures i == j
  {
    EveryInterleavingIsSound(acts);
  }

  /** Pending and completed downloads of a context together never exceed the file limit. */
  lemma BudgetHolds(acts: seq<Act>, contextId: string)
    requires FreshRun(acts)
    ensures |PendingOf(Execute(acts).inner, contextId)| + |CompletedOf(Execute(acts).inner, contextId)| <= 32
  {
    EveryInterleavingIsSound(acts);
    assert Active(Execute(acts).inner, contextId) <= MAX_BROWSER_DOWNLOAD_FILES;
  }

  /** Act `j` of the run prepared operation `h`. */
  ghost predicate PreparedAt(acts: seq<Act>, j: nat, h: Handle) {
    && j < |acts| && acts[j].DoPrepare?
    && Prepare(Execute(acts[..j]).inner, acts[j].q, acts[j].draws, acts[j].mkdir).1 == Success(h)
  }

  lemma PreparedRecord(inner: Inner, q: Request, draws: Draws, mkdir: Mkdir)
    requires Prepare(inner, q, draws, mkdir).1.Success?
    ensures var (after, r) := Prepare(inner, q, draws, mkdir);
      after == inner.(pending := inner.pending[r.value := Pending(q.fence, r.value, q.name, q.maxBytes, q.overwrite)])
  {
  }

  /** Whatever the run remembers as prepared is what one of its requests asked for. */
  lemma {:induction false} PreparedWasRequested(acts: seq<Act>, h: Handle)
    requires h in Execute(acts).prepared
    ensures exists j: nat :: PreparedAt(acts, j, h) && var q := acts[j].q;
      Execute(acts).prepared[h] == Pending(q.fence, h, q.name, q.maxBytes, q.overwrite)
  {
    var n := |acts| - 1;
    var before, a := acts[..n], acts[n];
    var s := Execute(before);
    assert Execute(acts) == Next(s, a);
    if a.DoPrepare? && Prepare(s.inner, a.q, a.draws, a.mkdir).1 == Success(h) {
      PreparedRecord(s.inner, a.q, a.draws, a.mkdir);
      assert PreparedAt(acts, n, h);
    } else {
      KeptPrepared(s, a, h);
      PreparedWasRequested(before, h);
      var j: nat :| PreparedAt(before, j, h) && var q := before[j].q;
        s.prepared[h] == Pending(q.fence, h, q.name, q.maxBytes, q.overwrite);
      assert before[..j] == acts[..j] && before[j] == acts[j];
      assert PreparedAt(acts, j, h);
    }
  }

  lemma KeptPrepared(s: System, a: Act, h: Handle)
    requires h in Next(s, a).prepared && !(a.DoPrepare? && Prepare(s.inner, a.q, a.draws, a.mkdir).1 == Success(h))
    ensures h in s.prepared && Next(s, a).prepared[h] == s.prepared[h]
  {
  }

  /**
   A successful finalize hands back exactly the reported number of bytes, at most what the
   request that prepared the operation allowed, under the name that request gave.
   */
  lemma FinalizeReturnsWhatWasPrepared(acts: seq<Act>, i: nat)
    requires FreshRun(acts) && i < |Execute(acts).log| && Execute(acts).log[i].Finalized?
    ensures var e := Execute(acts).log[i];
      exists j: nat :: PreparedAt(acts, j, e.h) && |e.data| == e.reported <= acts[j].q.maxBytes && e.name == acts[j].q.name
  {
    EveryInterleavingIsSound(acts);
    var e := Execute(acts).log[i];
    assert SettledFits(Execute(acts), e);
    PreparedWasRequested(acts, e.h);
  }

  /** No call removes the directory of a download that is still pending or completed. */
  lemma LiveDirectoriesStand(acts: seq<Act>, h: Handle)
    requires FreshRun(acts)
    ensures var s := Execute(acts);
      && (h in s.inner.pending ==> s.inner.pending[h].directory !in s.removed)
      && (h in s.inner.completed ==> s.inner.completed[h].directory !in s.removed)
  {
    EveryInterleavingIsSound(acts);
  }

  // ------------------------------------------------------- fences and ids

  lemma OneMoreAct(acts: seq<Act>, a: Act)
    ensures Execute(acts + [a]) == Next(Execute(acts), a)
  {
    assert (acts + [a])[..|acts|] == acts;
  }

  /**
   In every interleaving a pending operation ends only by a call that presents its own fence,
   by a cleanup of its context or of everything, or by a finalize whose backend id is not a
   safe component: that check comes before any fence is looked at.
   */
  lemma EndsOnlyUnderItsFenceOrAnUnsafeId(acts: seq<Act>, a: Act, h: Handle)
    requires FreshRun(acts)
    requires h in Execute(acts).inner.pending && h !in Execute(acts + [a]).inner.pending
    ensures var s := Execute(acts);
      var fence := s.inner.pending[h].fence;
      || a.DoCleanupAll?
      || (a.DoCleanupContext? && a.contextId == fence.contextId)
      || (a.DoAbort? && a.h == h && a.fence == fence)
      || ((a.DoCommit? || a.DoDoom?) && a.call in s.calls && s.calls[a.call].h == h
          && (s.calls[a.call].fence == fence || (a.DoDoom? && !SafeSingleComponent(s.calls[a.call].id))))
  {
    OneMoreAct(acts, a);
    EveryInterleavingIsSound(acts);
    EndedBy(Execute(acts), a, h);
  }

  lemma EndedBy(s: System, a: Act, h: Handle)
    requires Provenance(s) && h in s.inner.pending && h !in Next(s, a).inner.pending
    ensures var fence := s.inner.pending[h].fence;
      || a.DoCleanupAll?
      || (a.DoCleanupContext? && a.contextId == fence.contextId)
      || (a.DoAbort? && a.h == h && a.fence == fence)
      || ((a.DoCommit? || a.DoDoom?) && a.call in s.calls && s.calls[a.call].h == h
          && (s.calls[a.call].fence == fence || (a.DoDoom? && !SafeSingleComponent(s.calls[a.call].id))))
  {
    if (a.DoCommit? || a.DoDoom?) && a.call in s.calls {
      assert CallFits(s, s.calls[a.call]);
    }
  }

  /**
   A finalize that presents another fence leaves the broker as it was if and only if its
   backend id is a safe component.
   */
  lemma WrongFenceIsHarmlessExactlyWhenIdSafe(acts: seq<Act>, call: CallId, h: Handle, fence: Fence, id: string, bytes: u64)
    requires call !in Execute(acts).calls
    requires h in Execute(acts).inner.pending && fence != Execute(acts).inner.pending[h].fence
    ensures Execute(acts + [DoBegin(call, h, fence, id, bytes)] + [DoDoom(call)]).inner == Execute(acts).inner
       <==> SafeSingleComponent(id)
    ensures SafeSingleComponent(id) ==> Execute(acts + [DoBegin(call, h, fence, id, bytes)]) == Execute(acts)
  {
    var begin, doom := DoBegin(call, h, fence, id, bytes), DoDoom(call);
    OneMoreAct(acts, begin);
    OneMoreAct(acts + [begin], doom);
    ForeignBegin(Execute(acts), call, h, fence, id, bytes);
  }

  lemma ForeignBegin(s: System, call: CallId, h: Handle, fence: Fence, id: string, bytes: u64)
    requires call !in s.calls && h in s.inner.pending && fence != s.inner.pending[h].fence
    ensures var t := Next(s, DoBegin(call, h, fence, id, bytes));
      if SafeSingleComponent(id) then t == s && Next(t, DoDoom(call)) == s
      else t.inner == s.inner && h !in Next(t, DoDoom(call)).inner.pending
  {
    var t := Next(s, DoBegin(call, h, fence, id, bytes));
    if !SafeSingleComponent(id) {
      assert t == s.(calls := s.calls[call := Doomed(h, fence, id, InvalidBackendId)]);
    }
  }

  lemma ParentIsUnsafe()
    ensures !SafeSingleComponent("..")
  {
    RelativePath.SplitWhole("..");
    SafeComponentExactly("..");
  }

  lemma LetterIsAName()
    ensures ValidDestinationName("r")
  {
    assert ByteLength("r") == 1 + ByteLength("r"[1..]);
    assert Stem("r") == ['R'] + Stem("r"[1..]);
  }

  const Mine := Fence("a", 1, 1)
  const Foreign := Fence("b", 1, 1)

  function PrepareMine(): Act {
    DoPrepare(Request(Mine, "r", 1, false), seq(HANDLE_ATTEMPTS, _ => "op"), Created)
  }

  lemma MineIsPrepared()
    ensures FreshRun([PrepareMine()])
    ensures Execute([PrepareMine()]) == System(Inner(map["op" := Pending(Mine, "op", "r", 1, false)], map[]), map[],
                                               map["op" := Pending(Mine, "op", "r", 1, false)], {}, {}, [])
  {
    LetterIsAName();
    OneMoreAct([], PrepareMine());
    assert [] + [PrepareMine()] == [PrepareMine()] && [PrepareMine()][..0] == [];
    assert PendingOf(Start.inner, "a") == {} && CompletedOf(Start.inner, "a") == {};
    assert PrepareMine().draws[0] == "op";
  }

  /** A run in which a finalize under a foreign fence, with the id `..`, drops the operation and its directory. */
  lemma ForeignParentIdDropsTheOperation()
    ensures var acts := [PrepareMine()] + [DoBegin(0, "op", Foreign, "..", 0)] + [DoDoom(0)];
      && Execute(acts[..1]).inner.pending.Keys == {"op"}
      && Execute(acts).inner.pending == map[] && Execute(acts).removed == {"op"} && Execute(acts).log == []
  {
    var first, begin, doom := [PrepareMine()], DoBegin(0, "op", Foreign, "..", 0), DoDoom(0);
    assert (first + [begin] + [doom])[..1] == first;
    MineIsPrepared();
    ParentIsUnsafe();
    OneMoreAct(first, begin);
    OneMoreAct(first + [begin], doom);
    assert Execute(first + [begin]).calls[0].h == "op";
  }
}
