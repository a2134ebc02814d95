/** When each call of the registry succeeds and what it otherwise answers, said of the live references themselves. */
module BrowserRefOutcomes {
  import opened Common
  import opened BrowserRefs
  import opened BrowserRefsLedger

  // ------------------------------------------------------- live references

  /** Every reference is filed under its own name. */
  predicate Filed(refs: Refs) {
    forall r | r in refs :: refs[r].publicRef == r
  }

  lemma {:induction false} RunIsFiled(max: nat, ops: seq<Op>)
    ensures Filed(Run(max, ops))
  {
    if ops != [] {
      RunIsFiled(max, ops[..|ops| - 1]);
    }
  }

  /** `r` is live, of that kind, under exactly that context. */
  predicate LiveAs(refs: Refs, r: Id, kind: Kind, c: Context) {
    r in refs && refs[r].kind == kind && refs[r].context == c
  }

  predicate TabStands(refs: Refs, c: Context, target: Id, tab: Id) {
    LiveAs(refs, target, Target, c) && LiveAs(refs, tab, Tab, c) && refs[tab].target == Some(target)
  }

  predicate SnapshotStands(refs: Refs, c: Context, target: Id, tab: Id, snapshot: Id) {
    && TabStands(refs, c, target, tab) && LiveAs(refs, snapshot, Snapshot, c)
    && refs[snapshot].target == Some(target) && refs[snapshot].tab == Some(tab)
  }

  /** `r` is a live reference of that kind inside a live snapshot of that tab. */
  predicate PageStands(refs: Refs, c: Context, target: Id, tab: Id, r: Id, kind: Kind) {
    && LiveAs(refs, r, kind, c) && refs[r].target == Some(target) && refs[r].tab == Some(tab)
    && refs[r].snapshot.Some? && SnapshotStands(refs, c, target, tab, refs[r].snapshot.value)
  }

  // ---------------------------------------------------------------- lookups

  /** Each refusal of the ownership check names the first part of the context that differs. */
  lemma OwnedExactly(refs: Refs, r: Id, c: Context)
    requires Filed(refs)
    ensures RequireOwned(refs, r, c).Success? <==> r in refs && refs[r].context == c
    ensures RequireOwned(refs, r, c).Success? ==> RequireOwned(refs, r, c).value == refs[r]
    ensures RequireOwned(refs, r, c) == Failure(UnknownRef) <==> r !in refs
    ensures RequireOwned(refs, r, c) == Failure(ContextMismatch) <==>
      r in refs && (refs[r].context.id, refs[r].context.deviceId) != (c.id, c.deviceId)
    ensures RequireOwned(refs, r, c) == Failure(GenerationMismatch) <==>
      r in refs && (refs[r].context.id, refs[r].context.deviceId) == (c.id, c.deviceId) && refs[r].context.generation != c.generation
    ensures RequireOwned(refs, r, c) == Failure(CapabilityRevisionMismatch) <==>
      && r in refs && (refs[r].context.id, refs[r].context.deviceId) == (c.id, c.deviceId)
      && refs[r].context.generation == c.generation && refs[r].context.revision != c.revision
  {
  }

  lemma KindExactly(refs: Refs, r: Id, c: Context, kind: Kind)
    requires Filed(refs)
    ensures RequireKind(refs, r, c, kind).Success? <==> LiveAs(refs, r, kind, c)
    ensures RequireKind(refs, r, c, kind).Success? ==> RequireKind(refs, r, c, kind).value == refs[r]
    ensures RequireKind(refs, r, c, kind) == Failure(KindMismatch) <==> r in refs && refs[r].context == c && refs[r].kind != kind
  {
    OwnedExactly(refs, r, c);
  }

  lemma TabExactly(refs: Refs, c: Context, target: Id, tab: Id)
    requires Filed(refs)
    ensures ResolveTargetTab(refs, c, target, tab).Success? <==> TabStands(refs, c, target, tab)
    ensures ResolveTargetTab(refs, c, target, tab).Success? ==>
      ResolveTargetTab(refs, c, target, tab).value == TargetTab(refs[target].backend, refs[tab].backend)
    ensures ResolveTargetTab(refs, c, target, tab) == Failure(RelationMismatch) <==>
      LiveAs(refs, target, Target, c) && LiveAs(refs, tab, Tab, c) && refs[tab].target != Some(target)
  {
    KindExactly(refs, target, c, Target);
    KindExactly(refs, tab, c, Tab);
  }

  lemma SnapshotExactly(refs: Refs, c: Context, target: Id, tab: Id, snapshot: Id)
    requires Filed(refs)
    ensures RequireSnapshot(refs, c, target, tab, snapshot).Success? <==> SnapshotStands(refs, c, target, tab, snapshot)
  {
    TabExactly(refs, c, target, tab);
    KindExactly(refs, snapshot, c, Snapshot);
  }

  lemma PageExactly(refs: Refs, c: Context, target: Id, tab: Id, r: Id, allowed: set<Kind>, x: PageRef)
    requires Filed(refs)
    ensures ResolvePage(refs, c, target, tab, r, allowed) == Success(x) <==>
      x.kind in allowed && PageStands(refs, c, target, tab, r, x.kind) && refs[r].backend == x.backend
  {
    TabExactly(refs, c, target, tab);
    OwnedExactly(refs, r, c);
    if r in refs && refs[r].snapshot.Some? {
      SnapshotExactly(refs, c, target, tab, refs[r].snapshot.value);
    }
  }

  lemma DialogExactly(refs: Refs, c: Context, target: Id, tab: Id, r: Id, x: PageRef)
    requires Filed(refs)
    ensures ResolveDialog(refs, c, target, tab, r) == Success(x) <==>
      && x.kind == Dialog && TabStands(refs, c, target, tab) && LiveAs(refs, r, Dialog, c)
      && refs[r].target == Some(target) && refs[r].tab == Some(tab) && refs[r].backend == x.backend
  {
    TabExactly(refs, c, target, tab);
    KindExactly(refs, r, c, Dialog);
  }

  // ------------------------------------------------------------------ mints

  /** What a mint hangs its reference below is live. */
  predicate ParentsStand(refs: Refs, op: Op)
    requires Mints(op)
  {
    match op
    case MintTarget(_, _, _) => true
    case MintTab(c, target, _, _) => LiveAs(refs, target, Target, c)
    case BeginSnapshot(c, target, tab, _, _) => TabStands(refs, c, target, tab)
    case MintAction(c, target, tab, snapshot, _, _, _) => SnapshotStands(refs, c, target, tab, snapshot)
    case MintContent(c, target, tab, snapshot, _, _) => SnapshotStands(refs, c, target, tab, snapshot)
    case MintContinuation(c, target, tab, snapshot, _, _) => SnapshotStands(refs, c, target, tab, snapshot)
    case MintDialog(c, target, tab, _, _) => TabStands(refs, c, target, tab)
  }

  /** The references that a mint's own sweep leaves: all but the page references, or the dialogs, of the tab it is for. */
  predicate LeftBySweep(refs: Refs, op: Op, r: Id) {
    && r in refs
    && (op.BeginSnapshot? ==>
          !(refs[r].context == op.c && refs[r].target == Some(op.target) && refs[r].tab == Some(op.tab) && refs[r].kind.SnapshotBound()))
    && (op.MintDialog? ==>
          !(refs[r].context.id == op.c.id && refs[r].target == Some(op.target) && refs[r].tab == Some(op.tab) && refs[r].kind.Dialog?))
  }

  function LeftOfContext(refs: Refs, op: Op, id: string): set<Id> {
    set r | r in refs && LeftBySweep(refs, op, r) && refs[r].context.id == id
  }

  predicate SomeFree(refs: Refs, op: Op)
    requires Mints(op)
  {
    exists d :: d in op.draws && !LeftBySweep(refs, op, d)
  }

  lemma GuardExactly(refs: Refs, op: Op)
    requires Filed(refs) && Mints(op)
    ensures Guard(refs, op).None? <==> ParentsStand(refs, op) && (op.MintAction? ==> op.actions != [])
    ensures op.MintAction? ==> (Guard(refs, op) == Some(ActionUnavailable) <==> ParentsStand(refs, op) && op.actions == [])
  {
    if op.MintTab? {
      KindExactly(refs, op.target, op.c, Target);
    } else if op.BeginSnapshot? || op.MintDialog? {
      TabExactly(refs, op.c, op.target, op.tab);
    } else if !op.MintTarget? {
      SnapshotExactly(refs, op.c, op.target, op.tab, op.snapshot);
      SnapshotRefusals(refs, op.c, op.target, op.tab, op.snapshot);
    }
  }

  lemma SnapshotRefusals(refs: Refs, c: Context, target: Id, tab: Id, snapshot: Id)
    ensures RequireSnapshot(refs, c, target, tab, snapshot) != Failure(ActionUnavailable)
  {
  }

  lemma SweepLeaves(refs: Refs, op: Op)
    requires Mints(op)
    ensures forall r :: r in PreSweep(refs, op) <==> LeftBySweep(refs, op, r)
    ensures OfContext(PreSweep(refs, op), DraftOf(op).context.id) == LeftOfContext(refs, op, op.c.id)
  {
    forall r
      ensures r in PreSweep(refs, op) <==> LeftBySweep(refs, op, r)
      ensures r in PreSweep(refs, op) ==> PreSweep(refs, op)[r] == refs[r]
    {
    }
  }

  /**
   A mint succeeds if and only if what it hangs below is live, the actions of an element are not
   empty, the backend value is valid, the context has room once the mint's own sweep is done, and
   one of the draws is not in use. Each refusal past the checks is as exact.
   */
  ghost predicate MintOutcome(max: nat, refs: Refs, op: Op, reply: Reply)
    requires Mints(op)
  {
    var checked := ParentsStand(refs, op) && (op.MintAction? ==> op.actions != []);
    var room := |LeftOfContext(refs, op, op.c.id)| < max;
    && (reply.Minted? <==> checked && ValidBackend(op.backend) && room && SomeFree(refs, op))
    && (reply.Minted? ==> reply.ref in op.draws && !LeftBySweep(refs, op, reply.ref))
    && (checked ==> (reply == Refused(InvalidBackendRef) <==> !ValidBackend(op.backend)))
    && (checked ==> (reply == Refused(RefLimitExceeded) <==> ValidBackend(op.backend) && !room))
    && (checked ==> (reply == Refused(IdentifierCollision) <==> ValidBackend(op.backend) && room && !SomeFree(refs, op)))
  }

  /** After any run every mint answers like that. */
  lemma MintsExactly(max: nat, ops: seq<Op>, op: Op)
    requires Mints(op)
    ensures MintOutcome(max, Run(max, ops), op, Step(max, Run(max, ops), op).1)
  {
    var refs := Run(max, ops);
    RunIsFiled(max, ops);
    GuardExactly(refs, op);
    SweepLeaves(refs, op);
    FirstFreeIsDrawn(PreSweep(refs, op), op.draws);
    AdmitsExactly(max, PreSweep(refs, op), DraftOf(op).context, op.backend, op.draws);
    DraftIsWhatWasAsked(op);
  }

  /** A backend value has between one and 4096 bytes and no control character. */
  lemma BackendExactly(value: string)
    ensures ValidBackend(value) <==> 0 < ByteLength(value) <= 4096 && forall i | 0 <= i < |value| :: !IsControl(value[i])
  {
    if value != "" {
      assert ByteLength(value) >= Utf8Width(value[0]);
    }
  }

  lemma DraftIsWhatWasAsked(op: Op)
    requires Mints(op)
    ensures DraftOf(op).context == op.c && DraftOf(op).backend == op.backend
  {
  }

  lemma AdmitsExactly(max: nat, refs: Refs, c: Context, backend: string, draws: seq<Id>)
    ensures var a := Admit(max, refs, c, backend, draws);
      && (a.Success? <==> ValidBackend(backend) && |OfContext(refs, c.id)| < max && exists d :: d in draws && d !in refs)
      && (a.Success? ==> a.value in draws && a.value !in refs)
      && (a == Failure(InvalidBackendRef) <==> !ValidBackend(backend))
      && (a == Failure(RefLimitExceeded) <==> ValidBackend(backend) && |OfContext(refs, c.id)| >= max)
      && (a == Failure(IdentifierCollision) <==>
            ValidBackend(backend) && |OfContext(refs, c.id)| < max && forall d | d in draws :: d in refs)
  {
    FirstFreeIsDrawn(refs, draws);
  }

  // ------------------------------------------------------------ consumptions

  /** In a run with fresh identifiers every continuation is single-use. */
  lemma ContinuationsAreSingleUse(max: nat, ops: seq<Op>, r: Id)
    requires FreshRun(max, ops) && r in Run(max, ops) && Run(max, ops)[r].kind.Continuation?
    ensures Run(max, ops)[r].singleUse
  {
    EagerRefinesLazy(max, ops);
    assert Rooted(Track(max, ops), r);
  }

  /** A consumption returns a value if and only if the continuation stands in its tab with that value; then exactly it goes. */
  lemma ConsumesExactly(max: nat, ops: seq<Op>, c: Context, target: Id, tab: Id, r: Id, backend: string)
    requires FreshRun(max, ops)
    ensures var refs := Run(max, ops);
      var (after, reply) := Step(max, refs, ConsumeContinuation(c, target, tab, r));
      && (reply == Consumed(backend) <==> PageStands(refs, c, target, tab, r, Continuation) && refs[r].backend == backend)
      && (reply == Consumed(backend) <==> ResolvePage(refs, c, target, tab, r, {Continuation}) == Success(PageRef(backend, Continuation)))
      && after == (if PageStands(refs, c, target, tab, r, Continuation) then refs - {r} else refs)
      && (reply.Refused? <==> !PageStands(refs, c, target, tab, r, Continuation))
  {
    var refs := Run(max, ops);
    RunIsFiled(max, ops);
    PageExactly(refs, c, target, tab, r, {Continuation}, PageRef(backend, Continuation));
    if r in refs {
      PageExactly(refs, c, target, tab, r, {Continuation}, PageRef(refs[r].backend, Continuation));
      if refs[r].kind.Continuation? {
        ContinuationsAreSingleUse(max, ops, r);
      }
    }
    var found := ResolvePage(refs, c, target, tab, r, {Continuation});
    if found.Success? {
      PageExactly(refs, c, target, tab, r, {Continuation}, found.value);
    }
  }

  /** Completing a dialog and sweeping a tab are done exactly when what they name stands. */
  lemma DoneExactly(max: nat, ops: seq<Op>, c: Context, target: Id, tab: Id, r: Id)
    ensures var refs := Run(max, ops);
      && (Step(max, refs, CompleteDialog(c, target, tab, r)).1.Done? <==>
            && TabStands(refs, c, target, tab) && LiveAs(refs, r, Dialog, c)
            && refs[r].target == Some(target) && refs[r].tab == Some(tab))
      && (Step(max, refs, InvalidateTabDialogs(c, target, tab)).1.Done? <==> TabStands(refs, c, target, tab))
      && (Step(max, refs, InvalidateTabDocument(c, target, tab)).1.Done? <==> TabStands(refs, c, target, tab))
  {
    var refs := Run(max, ops);
    RunIsFiled(max, ops);
    TabExactly(refs, c, target, tab);
    if r in refs {
      DialogExactly(refs, c, target, tab, r, PageRef(refs[r].backend, Dialog));
    }
    var found := ResolveDialog(refs, c, target, tab, r);
    if found.Success? {
      DialogExactly(refs, c, target, tab, r, found.value);
    }
  }
}
