/** What one call of the registry means for the lookups that follow it. */
module BrowserRefPromises {
  import opened Common
  import opened BrowserRefs
  import opened BrowserRefsLedger

  lemma RunExtends(max: nat, ops: seq<Op>, op: Op)
    ensures Run(max, ops + [op]) == Step(max, Run(max, ops), op).0
    ensures Track(max, ops + [op]) == Follow(max, Track(max, ops), op)
    ensures FreshRun(max, ops + [op]) ==> FreshRun(max, ops) && FreshDraws(Track(max, ops), op)
  {
    assert (ops + [op])[..|ops|] == ops;
  }

  lemma OneFewerToCount(all: set<Id>, todo: set<Id>, r: Id)
    requires r in todo
    ensures |all - (todo - {r})| == |all - todo| + if r in all then 1 else 0
  {
    assert all - (todo - {r}) == if r in all then (all - todo) + {r} else all - todo;
  }

  // ------------------------------------------------ a mint can be looked up

  /** The new reference resolves, for its own context, target and tab, to what it was minted for. */
  predicate LooksUp(refs: Refs, op: Op, r: Id)
    requires Mints(op)
  {
    match op
    case MintTarget(c, backend, _) => RequireKind(refs, r, c, Target) == Success(TargetDraft(c, backend).(publicRef := r))
    case MintTab(c, target, backend, _) =>
      target in refs && ResolveTargetTab(refs, c, target, r) == Success(TargetTab(refs[target].backend, backend))
    case BeginSnapshot(c, target, tab, _, _) => RequireSnapshot(refs, c, target, tab, r).Success?
    case MintAction(c, target, tab, _, backend, actions, _) =>
      && ResolvePage(refs, c, target, tab, r, {ActionElement}) == Success(PageRef(backend, ActionElement))
      && r in refs && refs[r].actions == Dedup(SortByRank(actions))
    case MintContent(c, target, tab, _, backend, _) =>
      ResolvePage(refs, c, target, tab, r, {ContentElement}) == Success(PageRef(backend, ContentElement))
    case MintContinuation(c, target, tab, _, backend, _) =>
      ResolvePage(refs, c, target, tab, r, {Continuation}) == Success(PageRef(backend, Continuation))
    case MintDialog(c, target, tab, backend, _) => ResolveDialog(refs, c, target, tab, r) == Success(PageRef(backend, Dialog))
  }

  /** Neither sweep touches a target or a tab, so the check made before it still holds. */
  lemma SweepsKeepTab(refs: Refs, c: Context, target: Id, tab: Id)
    requires ResolveTargetTab(refs, c, target, tab).Success?
    ensures ResolveTargetTab(SweepPage(refs, c, target, tab), c, target, tab) == ResolveTargetTab(refs, c, target, tab)
    ensures ResolveTargetTab(SweepDialogs(refs, c, target, tab), c, target, tab) == ResolveTargetTab(refs, c, target, tab)
  {
  }

  /** Inserting under an identifier that was not in use disturbs no lookup that succeeded. */
  lemma InsertKeepsLookups(refs: Refs, id: Id, x: BackendRef, c: Context, target: Id, tab: Id, snapshot: Id)
    requires id !in refs
    ensures RequireKind(refs, target, c, Target).Success? ==> RequireKind(refs[id := x], target, c, Target) == RequireKind(refs, target, c, Target)
    ensures ResolveTargetTab(refs, c, target, tab).Success? ==>
              ResolveTargetTab(refs[id := x], c, target, tab) == ResolveTargetTab(refs, c, target, tab)
    ensures RequireSnapshot(refs, c, target, tab, snapshot).Success? ==> RequireSnapshot(refs[id := x], c, target, tab, snapshot).Success?
  {
  }

  lemma MintedIsInserted(max: nat, refs: Refs, draft: BackendRef, draws: seq<Id>)
    requires Mint(max, refs, draft, draws).1.Minted?
    ensures var id := Mint(max, refs, draft, draws).1.ref;
      id in draws && id !in refs && Mint(max, refs, draft, draws).0 == refs[id := draft.(publicRef := id)]
  {
    FirstFreeIsDrawn(refs, draws);
  }

  lemma PageRefResolves(refs: Refs, c: Context, target: Id, tab: Id, snapshot: Id, r: Id)
    requires r in refs && refs[r].publicRef == r && refs[r].context == c
    requires refs[r].target == Some(target) && refs[r].tab == Some(tab) && refs[r].snapshot == Some(snapshot)
    requires RequireSnapshot(refs, c, target, tab, snapshot).Success?
    ensures ResolvePage(refs, c, target, tab, r, {refs[r].kind}) == Success(PageRef(refs[r].backend, refs[r].kind))
  {
  }

  lemma PageMintLooksUp(max: nat, refs: Refs, op: Op)
    requires op.MintAction? || op.MintContent? || op.MintContinuation?
    requires Step(max, refs, op).1.Minted?
    ensures LooksUp(Step(max, refs, op).0, op, Step(max, refs, op).1.ref)
  {
    var draft := DraftOf(op);
    MintedIsInserted(max, refs, draft, op.draws);
    var id := Step(max, refs, op).1.ref;
    InsertKeepsLookups(refs, id, draft.(publicRef := id), op.c, op.target, op.tab, op.snapshot);
    PageRefResolves(refs[id := draft.(publicRef := id)], op.c, op.target, op.tab, op.snapshot, id);
  }

  lemma SweepingMintLooksUp(max: nat, refs: Refs, op: Op)
    requires op.BeginSnapshot? || op.MintDialog?
    requires Step(max, refs, op).1.Minted?
    ensures LooksUp(Step(max, refs, op).0, op, Step(max, refs, op).1.ref)
  {
    var swept, draft := PreSweep(refs, op), DraftOf(op);
    MintedIsInserted(max, swept, draft, op.draws);
    var id := Step(max, refs, op).1.ref;
    SweepsKeepTab(refs, op.c, op.target, op.tab);
    InsertKeepsLookups(swept, id, draft.(publicRef := id), op.c, op.target, op.tab, "");
  }

  /** In any state, a mint that succeeds can be looked up at once. */
  lemma MintedLooksUp(max: nat, refs: Refs, op: Op)
    requires Mints(op) && Step(max, refs, op).1.Minted?
    ensures LooksUp(Step(max, refs, op).0, op, Step(max, refs, op).1.ref)
  {
    if op.BeginSnapshot? || op.MintDialog? {
      SweepingMintLooksUp(max, refs, op);
    } else if op.MintAction? || op.MintContent? || op.MintContinuation? {
      PageMintLooksUp(max, refs, op);
    } else {
      var draft := DraftOf(op);
      MintedIsInserted(max, refs, draft, op.draws);
      if op.MintTab? {
        var id := Step(max, refs, op).1.ref;
        InsertKeepsLookups(refs, id, draft.(publicRef := id), op.c, op.target, "", "");
      }
    }
  }

  // --------------------------------------------------- sweeps leave nothing

  /** In a run with fresh identifiers whatever names a tab shares its context and target. */
  lemma NamesItsTabsContext(max: nat, ops: seq<Op>, c: Context, target: Id, tab: Id, r: Id)
    requires FreshRun(max, ops) && ResolveTargetTab(Run(max, ops), c, target, tab).Success?
    requires r in Run(max, ops) && Run(max, ops)[r].tab == Some(tab)
    ensures Run(max, ops)[r].context == c && Run(max, ops)[r].target == Some(target)
    ensures Run(max, ops)[r].kind.SnapshotBound() || Run(max, ops)[r].kind.Dialog?
  {
    EagerRefinesLazy(max, ops);
    var l := Track(max, ops);
    CheckedTab(l, c, target, tab);
    assert Rooted(l, r);
  }

  /** No reference of that tab with one of those kinds is left of what was there before. */
  ghost predicate NoneLeft(before: Refs, after: Refs, tab: Id, page: bool, dialogs: bool) {
    forall r {:trigger r in after} | r in before && before[r].tab == Some(tab)
      && ((page && before[r].kind.SnapshotBound()) || (dialogs && before[r].kind.Dialog?)) :: r !in after
  }

  lemma SweepsLeaveNone(max: nat, ops: seq<Op>, c: Context, target: Id, tab: Id)
    requires FreshRun(max, ops) && ResolveTargetTab(Run(max, ops), c, target, tab).Success?
    ensures NoneLeft(Run(max, ops), SweepPage(Run(max, ops), c, target, tab), tab, true, false)
    ensures NoneLeft(Run(max, ops), SweepDialogs(Run(max, ops), c, target, tab), tab, false, true)
    ensures NoneLeft(Run(max, ops), SweepDialogs(SweepPage(Run(max, ops), c, target, tab), c, target, tab), tab, true, true)
  {
    forall r | r in Run(max, ops) && Run(max, ops)[r].tab == Some(tab)
      ensures Run(max, ops)[r].context == c && Run(max, ops)[r].target == Some(target)
    {
      NamesItsTabsContext(max, ops, c, target, tab, r);
    }
  }

  /** Every reference of that tab that a snapshot or dialog mint finds is gone afterwards, refused or not. */
  lemma MintLeavesNone(max: nat, ops: seq<Op>, op: Op)
    requires FreshRun(max, ops) && FreshDraws(Track(max, ops), op) && Guard(Run(max, ops), op).None?
    requires op.BeginSnapshot? || op.MintDialog?
    ensures NoneLeft(Run(max, ops), Step(max, Run(max, ops), op).0, op.tab, op.BeginSnapshot?, op.MintDialog?)
  {
    var before := Run(max, ops);
    var swept, draft := PreSweep(before, op), DraftOf(op);
    SweepsLeaveNone(max, ops, op.c, op.target, op.tab);
    EagerRefinesLazy(max, ops);
    if Mint(max, swept, draft, op.draws).1.Minted? {
      MintedIsInserted(max, swept, draft, op.draws);
    }
  }

  // -------------------------------------------------- context and device sweeps

  /** A reference is found after a sweep, as the same record, exactly under the contexts that `stands` and that found it before. */
  ghost predicate Narrows(before: Refs, after: Refs, stands: Context -> bool) {
    forall r, c {:trigger RequireOwned(after, r, c)} ::
      && (RequireOwned(after, r, c).Success? <==> RequireOwned(before, r, c).Success? && stands(c))
      && (RequireOwned(after, r, c).Success? ==> RequireOwned(after, r, c) == RequireOwned(before, r, c))
  }

  lemma ContextSweepNarrows(refs: Refs, id: string)
    ensures Narrows(refs, SweepContext(refs, id), (c: Context) => c.id != id)
  {
  }

  lemma GenerationSweepNarrows(refs: Refs, device: string, generation: u64)
    ensures Narrows(refs, SweepGeneration(refs, device, generation), (c: Context) => c.deviceId == device ==> c.generation == generation)
  {
  }

  lemma RevisionSweepNarrows(refs: Refs, device: string, revision: u64)
    ensures Narrows(refs, SweepRevision(refs, device, revision), (c: Context) => c.deviceId == device ==> c.revision == revision)
  {
  }
}
