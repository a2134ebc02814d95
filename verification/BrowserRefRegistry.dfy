/**
 The registry object. It remembers, as ghost state, the calls it has served: its map is always
 what the run of those calls leaves, so the theorems about runs hold of the object.
 */
module BrowserRefRegistry {
  import opened Common
  import opened BrowserRefs
  import opened BrowserRefsLedger
  import opened BrowserRefPromises
  import opened BrowserRefOutcomes

  /** `BrowserRefRegistry::new`: a zero limit is refused. */
  method Open(max: nat) returns (r: Result<Registry, Error>)
    ensures r.Success? <==> max > 0
    ensures r.Failure? ==> r.error == InvalidLimit
    ensures r.Success? ==> fresh(r.value) && r.value.maxRefsPerContext == max && r.value.Valid() && r.value.ops == []
  {
    if max == 0 {
      return Failure(InvalidLimit);
    }
    var registry := new Registry(max);
    r := Success(registry);
  }

  class Registry {
    const maxRefsPerContext: nat
    var refs: Refs
    /** Every call served, in order. */
    ghost var ops: seq<Op>

    ghost predicate Valid()
      reads this
    {
      refs == Run(maxRefsPerContext, ops)
    }

    constructor (max: nat)
      ensures maxRefsPerContext == max && Valid() && ops == []
    {
      maxRefsPerContext := max;
      refs := map[];
      ops := [];
    }

    // ------------------------------------------------------------- private

    /** `HashMap::retain`: visits the entries in some order and drops those that fail the test. */
    method Retain(keep: BackendRef -> bool)
      modifies this`refs
      ensures refs == map r | r in old(refs) && keep(old(refs)[r]) :: old(refs)[r]
    {
      var todo := refs.Keys;
      while todo != {}
        invariant todo <= refs.Keys <= old(refs).Keys
        invariant forall r | r in refs :: refs[r] == old(refs)[r]
        invariant forall r | r in old(refs) && r !in todo :: r in refs <==> keep(old(refs)[r])
        decreases |todo|
      {
        var r :| r in todo;
        if !keep(refs[r]) {
          refs := refs - {r};
        }
        todo := todo - {r};
      }
    }

    method InvalidateSnapshotBoundForTab(c: Context, target: Id, tab: Id)
      modifies this`refs
      ensures refs == SweepPage(old(refs), c, target, tab)
    {
      Retain((x: BackendRef) =>
               !(x.context.id == c.id
                 && x.context.deviceId == c.deviceId
                 && x.context.generation == c.generation
                 && x.context.revision == c.revision
                 && x.target == Some(target)
                 && x.tab == Some(tab)
                 && x.kind.SnapshotBound()));
    }

    method InvalidateDialogsForTab(c: Context, target: Id, tab: Id)
      modifies this`refs
      ensures refs == SweepDialogs(old(refs), c, target, tab)
    {
      Retain((x: BackendRef) =>
               x.context.id != c.id || x.target != Some(target) || x.tab != Some(tab) || x.kind != Dialog);
    }

    /** The count that `mint` compares with the limit. */
    method CountOf(contextId: string) returns (count: nat)
      ensures count == |OfContext(refs, contextId)|
    {
      count := 0;
      var todo := refs.Keys;
      ghost var all := OfContext(refs, contextId);
      assert all - todo == {};
      while todo != {}
        invariant todo <= refs.Keys && count == |all - todo|
        decreases |todo|
      {
        var r :| r in todo;
        OneFewerToCount(all, todo, r);
        if refs[r].context.id == contextId {
          count := count + 1;
        }
        todo := todo - {r};
      }
      assert all - todo == all;
    }

    /** `mint`: validates, counts, and inserts the draft under the first identifier not in use. */
    method Insert(draft: BackendRef, draws: Draws) returns (reply: Reply)
      modifies this`refs
      ensures (refs, reply) == Mint(maxRefsPerContext, old(refs), draft, draws)
    {
      if !ValidBackend(draft.backend) {
        return Refused(InvalidBackendRef);
      }
      var count := CountOf(draft.context.id);
      if count >= maxRefsPerContext {
        return Refused(RefLimitExceeded);
      }
      for i := 0 to MINT_ATTEMPTS
        invariant refs == old(refs)
        invariant FirstFree(refs, draws) == FirstFree(refs, draws[i..])
      {
        if draws[i] !in refs {
          refs := refs[draws[i] := draft.(publicRef := draws[i])];
          return Minted(draws[i]);
        }
      }
      reply := Refused(IdentifierCollision);
    }

    /** Puts a finished call on record; the map already is what its step leaves. */
    ghost method Record(op: Op, before: Refs, reply: Reply)
      requires before == Run(maxRefsPerContext, ops) && (refs, reply) == Step(maxRefsPerContext, before, op)
      modifies this`ops
      ensures Valid() && ops == old(ops) + [op]
    {
      RunExtends(maxRefsPerContext, ops, op);
      ops := ops + [op];
    }

    // --------------------------------------------------------------- mints

    method MintTarget(c: Context, backend: string, draws: Draws) returns (reply: Reply)
      requires Valid()
      modifies this
      ensures Valid() && ops == old(ops) + [Op.MintTarget(c, backend, draws)]
      ensures (refs, reply) == Step(maxRefsPerContext, old(refs), Op.MintTarget(c, backend, draws))
      ensures MintOutcome(maxRefsPerContext, old(refs), Op.MintTarget(c, backend, draws), reply)
      ensures reply.Minted? ==> LooksUp(refs, Op.MintTarget(c, backend, draws), reply.ref)
    {
      reply := Insert(TargetDraft(c, backend), draws);
      Record(Op.MintTarget(c, backend, draws), old(refs), reply);
      MintsExactly(maxRefsPerContext, old(ops), Op.MintTarget(c, backend, draws));
      if reply.Minted? {
        MintedLooksUp(maxRefsPerContext, old(refs), Op.MintTarget(c, backend, draws));
      }
    }

    method MintTab(c: Context, target: Id, backend: string, draws: Draws) returns (reply: Reply)
      requires Valid()
      modifies this
      ensures Valid() && ops == old(ops) + [Op.MintTab(c, target, backend, draws)]
      ensures (refs, reply) == Step(maxRefsPerContext, old(refs), Op.MintTab(c, target, backend, draws))
      ensures MintOutcome(maxRefsPerContext, old(refs), Op.MintTab(c, target, backend, draws), reply)
      ensures reply.Minted? ==> LooksUp(refs, Op.MintTab(c, target, backend, draws), reply.ref)
    {
      var checked := RequireKind(refs, target, c, Target);
      if checked.Failure? {
        reply := Refused(checked.error);
      } else {
        reply := Insert(TabDraft(c, target, backend), draws);
      }
      Record(Op.MintTab(c, target, backend, draws), old(refs), reply);
      MintsExactly(maxRefsPerContext, old(ops), Op.MintTab(c, target, backend, draws));
      if reply.Minted? {
        MintedLooksUp(maxRefsPerContext, old(refs), Op.MintTab(c, target, backend, draws));
      }
    }

    method BeginSnapshot(c: Context, target: Id, tab: Id, backend: string, draws: Draws) returns (reply: Reply)
      requires Valid()
      modifies this
      ensures Valid() && ops == old(ops) + [Op.BeginSnapshot(c, target, tab, backend, draws)]
      ensures (refs, reply) == Step(maxRefsPerContext, old(refs), Op.BeginSnapshot(c, target, tab, backend, draws))
      ensures MintOutcome(maxRefsPerContext, old(refs), Op.BeginSnapshot(c, target, tab, backend, draws), reply)
      ensures reply.Minted? ==> LooksUp(refs, Op.BeginSnapshot(c, target, tab, backend, draws), reply.ref)
      ensures FreshRun(maxRefsPerContext, ops) && ResolveTargetTab(old(refs), c, target, tab).Success? ==>
                NoneLeft(old(refs), refs, tab, true, false)
    {
      ghost var op := Op.BeginSnapshot(c, target, tab, backend, draws);
      var checked := ResolveTargetTab(refs, c, target, tab);
      if checked.Failure? {
        reply := Refused(checked.error);
      } else {
        InvalidateSnapshotBoundForTab(c, target, tab);
        reply := Insert(SnapshotDraft(c, target, tab, backend), draws);
      }
      Record(op, old(refs), reply);
      MintsExactly(maxRefsPerContext, old(ops), op);
      MintPromises(op, reply, old(refs), old(ops));
    }

    method MintActionElement(c: Context, target: Id, tab: Id, snapshot: Id, backend: string, actions: seq<Action>, draws: Draws)
      returns (reply: Reply)
      requires Valid()
      modifies this
      ensures Valid() && ops == old(ops) + [Op.MintAction(c, target, tab, snapshot, backend, actions, draws)]
      ensures (refs, reply) == Step(maxRefsPerContext, old(refs), Op.MintAction(c, target, tab, snapshot, backend, actions, draws))
      ensures MintOutcome(maxRefsPerContext, old(refs), Op.MintAction(c, target, tab, snapshot, backend, actions, draws), reply)
      ensures reply.Minted? ==> LooksUp(refs, Op.MintAction(c, target, tab, snapshot, backend, actions, draws), reply.ref)
    {
      var checked := RequireSnapshot(refs, c, target, tab, snapshot);
      if checked.Failure? {
        reply := Refused(checked.error);
      } else if actions == [] {
        reply := Refused(ActionUnavailable);
      } else {
        reply := Insert(ActionDraft(c, target, tab, snapshot, backend, actions), draws);
      }
      Record(Op.MintAction(c, target, tab, snapshot, backend, actions, draws), old(refs), reply);
      MintsExactly(maxRefsPerContext, old(ops), Op.MintAction(c, target, tab, snapshot, backend, actions, draws));
      if reply.Minted? {
        MintedLooksUp(maxRefsPerContext, old(refs), Op.MintAction(c, target, tab, snapshot, backend, actions, draws));
      }
    }

    method MintContentElement(c: Context, target: Id, tab: Id, snapshot: Id, backend: string, draws: Draws)
      returns (reply: Reply)
      requires Valid()
      modifies this
      ensures Valid() && ops == old(ops) + [Op.MintContent(c, target, tab, snapshot, backend, draws)]
      ensures (refs, reply) == Step(maxRefsPerContext, old(refs), Op.MintContent(c, target, tab, snapshot, backend, draws))
      ensures MintOutcome(maxRefsPerContext, old(refs), Op.MintContent(c, target, tab, snapshot, backend, draws), reply)
      ensures reply.Minted? ==> LooksUp(refs, Op.MintContent(c, target, tab, snapshot, backend, draws), reply.ref)
    {
      var checked := RequireSnapshot(refs, c, target, tab, snapshot);
      if checked.Failure? {
        reply := Refused(checked.error);
      } else {
        reply := Insert(ContentDraft(c, target, tab, snapshot, backend), draws);
      }
      Record(Op.MintContent(c, target, tab, snapshot, backend, draws), old(refs), reply);
      MintsExactly(maxRefsPerContext, old(ops), Op.MintContent(c, target, tab, snapshot, backend, draws));
      if reply.Minted? {
        MintedLooksUp(maxRefsPerContext, old(refs), Op.MintContent(c, target, tab, snapshot, backend, draws));
      }
    }

    method MintContinuation(c: Context, target: Id, tab: Id, snapshot: Id, backend: string, draws: Draws)
      returns (reply: Reply)
      requires Valid()
      modifies this
      ensures Valid() && ops == old(ops) + [Op.MintContinuation(c, target, tab, snapshot, backend, draws)]
      ensures (refs, reply) == Step(maxRefsPerContext, old(refs), Op.MintContinuation(c, target, tab, snapshot, backend, draws))
      ensures MintOutcome(maxRefsPerContext, old(refs), Op.MintContinuation(c, target, tab, snapshot, backend, draws), reply)
      ensures reply.Minted? ==> LooksUp(refs, Op.MintContinuation(c, target, tab, snapshot, backend, draws), reply.ref)
    {
      var checked := RequireSnapshot(refs, c, target, tab, snapshot);
      if checked.Failure? {
        reply := Refused(checked.error);
      } else {
        reply := Insert(ContinuationDraft(c, target, tab, snapshot, backend), draws);
      }
      Record(Op.MintContinuation(c, target, tab, snapshot, backend, draws), old(refs), reply);
      MintsExactly(maxRefsPerContext, old(ops), Op.MintContinuation(c, target, tab, snapshot, backend, draws));
      if reply.Minted? {
        MintedLooksUp(maxRefsPerContext, old(refs), Op.MintContinuation(c, target, tab, snapshot, backend, draws));
      }
    }

    method MintDialog(c: Context, target: Id, tab: Id, backend: string, draws: Draws) returns (reply: Reply)
      requires Valid()
      modifies this
      ensures Valid() && ops == old(ops) + [Op.MintDialog(c, target, tab, backend, draws)]
      ensures (refs, reply) == Step(maxRefsPerContext, old(refs), Op.MintDialog(c, target, tab, backend, draws))
      ensures MintOutcome(maxRefsPerContext, old(refs), Op.MintDialog(c, target, tab, backend, draws), reply)
      ensures reply.Minted? ==> LooksUp(refs, Op.MintDialog(c, target, tab, backend, draws), reply.ref)
      ensures FreshRun(maxRefsPerContext, ops) && ResolveTargetTab(old(refs), c, target, tab).Success? ==>
                NoneLeft(old(refs), refs, tab, false, true)
    {
      ghost var op := Op.MintDialog(c, target, tab, backend, draws);
      var checked := ResolveTargetTab(refs, c, target, tab);
      if checked.Failure? {
        reply := Refused(checked.error);
      } else {
        InvalidateDialogsForTab(c, target, tab);
        reply := Insert(DialogDraft(c, target, tab, backend), draws);
      }
      Record(op, old(refs), reply);
      MintsExactly(maxRefsPerContext, old(ops), op);
      MintPromises(op, reply, old(refs), old(ops));
    }

    /** What a snapshot or dialog mint promises, once it is on record. */
    lemma MintPromises(op: Op, reply: Reply, before: Refs, past: seq<Op>)
      requires op.BeginSnapshot? || op.MintDialog?
      requires Valid() && ops == past + [op] && before == Run(maxRefsPerContext, past)
      requires (refs, reply) == Step(maxRefsPerContext, before, op)
      ensures reply.Minted? ==> LooksUp(refs, op, reply.ref)
      ensures FreshRun(maxRefsPerContext, ops) && ResolveTargetTab(before, op.c, op.target, op.tab).Success? ==>
                NoneLeft(before, refs, op.tab, op.BeginSnapshot?, op.MintDialog?)
    {
      if reply.Minted? {
        MintedLooksUp(maxRefsPerContext, before, op);
      }
      RunExtends(maxRefsPerContext, past, op);
      if FreshRun(maxRefsPerContext, ops) && ResolveTargetTab(before, op.c, op.target, op.tab).Success? {
        MintLeavesNone(maxRefsPerContext, past, op);
      }
    }

    // ------------------------------------------------- single-use and sweeps

    method InvalidateTabDialogs(c: Context, target: Id, tab: Id) returns (reply: Reply)
      requires Valid()
      modifies this
      ensures Valid() && ops == old(ops) + [Op.InvalidateTabDialogs(c, target, tab)]
      ensures (refs, reply) == Step(maxRefsPerContext, old(refs), Op.InvalidateTabDialogs(c, target, tab))
      ensures reply.Done? <==> TabStands(old(refs), c, target, tab)
      ensures FreshRun(maxRefsPerContext, ops) && reply.Done? ==> NoneLeft(old(refs), refs, tab, false, true)
    {
      var checked := ResolveTargetTab(refs, c, target, tab);
      if checked.Failure? {
        reply := Refused(checked.error);
      } else {
        InvalidateDialogsForTab(c, target, tab);
        reply := Done;
      }
      Record(Op.InvalidateTabDialogs(c, target, tab), old(refs), reply);
      RunExtends(maxRefsPerContext, old(ops), Op.InvalidateTabDialogs(c, target, tab));
      DoneExactly(maxRefsPerContext, old(ops), c, target, tab, "");
      if FreshRun(maxRefsPerContext, ops) && reply.Done? {
        SweepsLeaveNone(maxRefsPerContext, old(ops), c, target, tab);
      }
    }

    method CompleteDialog(c: Context, target: Id, tab: Id, dialog: Id) returns (reply: Reply)
      requires Valid()
      modifies this
      ensures Valid() && ops == old(ops) + [Op.CompleteDialog(c, target, tab, dialog)]
      ensures (refs, reply) == Step(maxRefsPerContext, old(refs), Op.CompleteDialog(c, target, tab, dialog))
      ensures reply.Done? <==> ResolveDialog(old(refs), c, target, tab, dialog).Success?
      ensures refs == if reply.Done? then old(refs) - {dialog} else old(refs)
      ensures reply.Done? ==> forall k, g, t :: ResolveDialog(refs, k, g, t, dialog).Failure?
    {
      var checked := ResolveDialog(refs, c, target, tab, dialog);
      if checked.Failure? {
        reply := Refused(checked.error);
      } else {
        refs := refs - {dialog};
        reply := Done;
      }
      Record(Op.CompleteDialog(c, target, tab, dialog), old(refs), reply);
    }

    method ConsumeContinuation(c: Context, target: Id, tab: Id, continuation: Id) returns (reply: Reply)
      requires Valid()
      modifies this
      ensures Valid() && ops == old(ops) + [Op.ConsumeContinuation(c, target, tab, continuation)]
      ensures (refs, reply) == Step(maxRefsPerContext, old(refs), Op.ConsumeContinuation(c, target, tab, continuation))
      ensures reply.Consumed? ==>
                ResolvePage(old(refs), c, target, tab, continuation, {Continuation}) == Success(PageRef(reply.backend, Continuation))
      ensures FreshRun(maxRefsPerContext, ops) ==> forall x ::
                reply == Consumed(x) <==> ResolvePage(old(refs), c, target, tab, continuation, {Continuation}) == Success(PageRef(x, Continuation))
      ensures FreshRun(maxRefsPerContext, ops) ==> (reply.Consumed? <==> PageStands(old(refs), c, target, tab, continuation, Continuation))
      ensures refs == if reply.Consumed? then old(refs) - {continuation} else old(refs)
      ensures reply.Consumed? ==> forall k, g, t, kinds :: ResolvePage(refs, k, g, t, continuation, kinds).Failure?
    {
      var resolved := ResolvePage(refs, c, target, tab, continuation, {Continuation});
      if resolved.Failure? {
        reply := Refused(resolved.error);
      } else if !refs[continuation].singleUse {
        reply := Refused(KindMismatch);
      } else {
        refs := refs - {continuation};
        reply := Consumed(resolved.value.backend);
      }
      Record(Op.ConsumeContinuation(c, target, tab, continuation), old(refs), reply);
      RunExtends(maxRefsPerContext, old(ops), Op.ConsumeContinuation(c, target, tab, continuation));
      if FreshRun(maxRefsPerContext, ops) {
        forall x {
          ConsumesExactly(maxRefsPerContext, old(ops), c, target, tab, continuation, x);
        }
      }
    }

    method InvalidateTabDocument(c: Context, target: Id, tab: Id) returns (reply: Reply)
      requires Valid()
      modifies this
      ensures Valid() && ops == old(ops) + [Op.InvalidateTabDocument(c, target, tab)]
      ensures (refs, reply) == Step(maxRefsPerContext, old(refs), Op.InvalidateTabDocument(c, target, tab))
      ensures reply.Done? <==> TabStands(old(refs), c, target, tab)
      ensures FreshRun(maxRefsPerContext, ops) && reply.Done? ==> NoneLeft(old(refs), refs, tab, true, true)
    {
      var checked := ResolveTargetTab(refs, c, target, tab);
      if checked.Failure? {
        reply := Refused(checked.error);
      } else {
        InvalidateSnapshotBoundForTab(c, target, tab);
        InvalidateDialogsForTab(c, target, tab);
        reply := Done;
      }
      Record(Op.InvalidateTabDocument(c, target, tab), old(refs), reply);
      RunExtends(maxRefsPerContext, old(ops), Op.InvalidateTabDocument(c, target, tab));
      DoneExactly(maxRefsPerContext, old(ops), c, target, tab, "");
      if FreshRun(maxRefsPerContext, ops) && reply.Done? {
        SweepsLeaveNone(maxRefsPerContext, old(ops), c, target, tab);
      }
    }

    method InvalidateContext(id: string)
      requires Valid()
      modifies this
      ensures Valid() && ops == old(ops) + [Op.InvalidateContext(id)]
      ensures Narrows(old(refs), refs, (c: Context) => c.id != id)
    {
      Retain((x: BackendRef) => x.context.id != id);
      assert refs == SweepContext(old(refs), id);
      Record(Op.InvalidateContext(id), old(refs), Done);
      ContextSweepNarrows(old(refs), id);
    }

    method InvalidateDeviceGeneration(device: string, generation: u64)
      requires Valid()
      modifies this
      ensures Valid() && ops == old(ops) + [Op.InvalidateGeneration(device, generation)]
      ensures Narrows(old(refs), refs, (c: Context) => c.deviceId == device ==> c.generation == generation)
    {
      Retain((x: BackendRef) => x.context.deviceId != device || x.context.generation == generation);
      assert refs == SweepGeneration(old(refs), device, generation);
      Record(Op.InvalidateGeneration(device, generation), old(refs), Done);
      GenerationSweepNarrows(old(refs), device, generation);
    }

    method InvalidateCapabilityRevision(device: string, revision: u64)
      requires Valid()
      modifies this
      ensures Valid() && ops == old(ops) + [Op.InvalidateRevision(device, revision)]
      ensures Narrows(old(refs), refs, (c: Context) => c.deviceId == device ==> c.revision == revision)
    {
      Retain((x: BackendRef) => x.context.deviceId != device || x.context.revision == revision);
      assert refs == SweepRevision(old(refs), device, revision);
      Record(Op.InvalidateRevision(device, revision), old(refs), Done);
      RevisionSweepNarrows(old(refs), device, revision);
    }

    method DiscardRefs(gone: seq<Id>)
      requires Valid()
      modifies this
      ensures Valid() && ops == old(ops) + [Op.DiscardRefs(gone)]
      ensures forall r :: r in refs <==> r in old(refs) && r !in gone
    {
      for i := 0 to |gone|
        invariant refs == Discard(old(refs), gone[..i]) && ops == old(ops)
      {
        refs := refs - {gone[i]};
      }
      assert gone[..|gone|] == gone;
      Record(Op.DiscardRefs(gone), old(refs), Done);
    }
  }
}
