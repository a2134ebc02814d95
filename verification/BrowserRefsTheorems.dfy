/** What every run of the browser registry promises its callers. */
module BrowserRefsTheorems {
  import opened Common
  import opened BrowserRefs
  import opened BrowserRefsLedger

  // ------------------------------------------------ resolution is the epoch rule

  /** The ancestors recorded when the reference was minted. */
  ghost predicate AncestorsStand(l: Ledger, x: BackendRef) {
    && (x.target.Some? ==> x.target.value !in l.revoked)
    && (x.tab.Some? ==> x.tab.value !in l.revoked)
    && (x.snapshot.Some? ==> x.snapshot.value !in l.revoked)
  }

  lemma ResolvedIsInEpoch(l: Ledger, r: Id, c: Context, target: Id, tab: Id)
    requires r in l.issued && l.issued[r].record.kind.Page()
    requires ResolvePage(View(l), c, target, tab, r, {l.issued[r].record.kind}).Success?
    ensures var x := l.issued[r].record;
      && c == x.context && Some(target) == x.target && Some(tab) == x.tab
      && l.issued[r].epoch == Count(l.pageEpochs, x.tab)
      && r !in l.revoked && AncestorsStand(l, x)
  {
    assert r in View(l) && Live(l, r);
    CheckedTab(l, c, target, tab);
    CheckedSnapshot(l, c, target, tab, l.issued[r].record.snapshot.value);
  }

  lemma InEpochResolves(l: Ledger, r: Id)
    requires WellFormed(l) && r in l.issued && l.issued[r].record.kind.Page()
    requires l.issued[r].epoch == Count(l.pageEpochs, l.issued[r].record.tab)
    requires r !in l.revoked && AncestorsStand(l, l.issued[r].record)
    ensures var x := l.issued[r].record;
      && x.target.Some? && x.tab.Some?
      && ResolvePage(View(l), x.context, x.target.value, x.tab.value, r, {x.kind}) == Success(PageRef(x.backend, x.kind))
  {
    var x := l.issued[r].record;
    assert Rooted(l, r);
    assert Rooted(l, x.target.value) && Rooted(l, x.tab.value) && Rooted(l, x.snapshot.value);
    assert Live(l, r) && Live(l, x.target.value) && Live(l, x.tab.value) && Live(l, x.snapshot.value);
  }

  /**
   An issued page reference resolves, to the backend value it was minted for, exactly when
   its tab's epoch has not moved and neither it nor an ancestor was revoked. It resolves for
   its own context, target and tab and for no other.
   */
  lemma ResolvesExactlyInItsEpoch(max: nat, ops: seq<Op>, r: Id, c: Context, target: Id, tab: Id)
    requires FreshRun(max, ops)
    requires r in Track(max, ops).issued && Track(max, ops).issued[r].record.kind.Page()
    ensures var l, x := Track(max, ops), Track(max, ops).issued[r].record;
      ResolvePage(Run(max, ops), c, target, tab, r, {x.kind}) == Success(PageRef(x.backend, x.kind))
      <==> (&& c == x.context && Some(target) == x.target && Some(tab) == x.tab
            && l.issued[r].epoch == Count(l.pageEpochs, x.tab)
            && r !in l.revoked && AncestorsStand(l, x))
  {
    EagerRefinesLazy(max, ops);
    var l := Track(max, ops);
    if ResolvePage(View(l), c, target, tab, r, {l.issued[r].record.kind}).Success? {
      ResolvedIsInEpoch(l, r, c, target, tab);
    }
    if l.issued[r].epoch == Count(l.pageEpochs, l.issued[r].record.tab) && r !in l.revoked && AncestorsStand(l, l.issued[r].record) {
      InEpochResolves(l, r);
    }
  }

  /** A live dialog is exactly one that was not revoked and whose tab's dialog epoch has not moved. */
  lemma DialogResolvesExactlyInItsEpoch(max: nat, ops: seq<Op>, r: Id, c: Context, target: Id, tab: Id)
    requires FreshRun(max, ops)
    requires r in Track(max, ops).issued && Track(max, ops).issued[r].record.kind.Dialog?
    ensures var l, x := Track(max, ops), Track(max, ops).issued[r].record;
      ResolveDialog(Run(max, ops), c, target, tab, r) == Success(PageRef(x.backend, Dialog))
      <==> (&& c == x.context && Some(target) == x.target && Some(tab) == x.tab
            && l.issued[r].epoch == Count(l.dialogEpochs, x.tab)
            && r !in l.revoked && AncestorsStand(l, x))
  {
    EagerRefinesLazy(max, ops);
    var l := Track(max, ops);
    var x := l.issued[r].record;
    assert Rooted(l, r) && Rooted(l, x.tab.value) && Rooted(l, x.target.value);
    if ResolveDialog(View(l), c, target, tab, r).Success? {
      CheckedTab(l, c, target, tab);
      assert Live(l, r);
    }
  }

  // ------------------------------------------------------------- death is final

  /** A later ledger keeps every birth and revocation and never turns an epoch back. */
  ghost predicate Later(l: Ledger, l': Ledger) {
    && l.revoked <= l'.revoked
    && (forall r {:trigger r in l'.issued} | r in l.issued :: r in l'.issued && l'.issued[r] == l.issued[r])
    && (forall t {:trigger Count(l'.pageEpochs, t)} :: Count(l.pageEpochs, t) <= Count(l'.pageEpochs, t))
    && (forall t {:trigger Count(l'.dialogEpochs, t)} :: Count(l.dialogEpochs, t) <= Count(l'.dialogEpochs, t))
  }

  lemma TurnIsLater(l: Ledger, tab: Id)
    ensures Later(l, TurnPage(l, tab)) && Later(l, TurnDialogs(l, tab))
    ensures Later(l, TurnDialogs(TurnPage(l, tab), tab))
  {
  }

  lemma EnterIsLater(max: nat, l: Ledger, draft: BackendRef, draws: seq<Id>)
    requires forall id | id in draws :: id !in l.issued
    ensures Later(l, Enter(max, l, draft, draws))
  {
    FirstFreeIsDrawn(View(l), draws);
  }

  lemma RevokeIsLater(l: Ledger, gone: set<Id>)
    ensures Later(l, Revoke(l, gone))
  {
  }

  lemma MintIsLater(max: nat, l: Ledger, op: Op)
    requires Mints(op) && FreshDraws(l, op)
    ensures Later(l, Enter(max, PreTurn(l, op), DraftOf(op), op.draws))
  {
    EnterIsLater(max, PreTurn(l, op), DraftOf(op), op.draws);
    if op.BeginSnapshot? || op.MintDialog? {
      TurnIsLater(l, op.tab);
    }
  }

  lemma FollowIsLater(max: nat, l: Ledger, op: Op)
    requires FreshDraws(l, op)
    ensures Later(l, Follow(max, l, op))
  {
    if Guard(View(l), op).Some? {
    } else if Mints(op) {
      MintIsLater(max, l, op);
    } else if op.InvalidateTabDialogs? || op.InvalidateTabDocument? {
      TurnIsLater(l, op.tab);
    } else {
      RevokeIsLater(l, RevokedBy(l, op));
    }
  }

  lemma {:induction false} TrackIsLater(max: nat, ops: seq<Op>, n: nat)
    requires FreshRun(max, ops) && n <= |ops|
    ensures Later(Track(max, ops[..n]), Track(max, ops)) && FreshRun(max, ops[..n])
  {
    if n == |ops| {
      assert ops[..n] == ops;
    } else {
      var before := ops[..|ops| - 1];
      assert before[..n] == ops[..n];
      TrackIsLater(max, before, n);
      FollowIsLater(max, Track(max, before), ops[|ops| - 1]);
    }
  }

  /** Once an issued reference has left the registry it never comes back. */
  lemma DeadStaysDead(max: nat, ops: seq<Op>, n: nat, r: Id)
    requires FreshRun(max, ops) && n <= |ops|
    requires r in Track(max, ops[..n]).issued && r !in Run(max, ops[..n])
    ensures r !in Run(max, ops)
  {
    TrackIsLater(max, ops, n);
    EagerRefinesLazy(max, ops[..n]);
    EagerRefinesLazy(max, ops);
    var l, l' := Track(max, ops[..n]), Track(max, ops);
    assert Rooted(l, r) && !Live(l, r);
    assert r in l'.issued && l'.issued[r] == l.issued[r];
  }

  /** The reply the registry gave to the call at this position. */
  function ReplyAt(max: nat, ops: seq<Op>, i: nat): Reply
    requires i < |ops|
  {
    Step(max, Run(max, ops[..i]), ops[i]).1
  }

  lemma RunPrefix(max: nat, ops: seq<Op>, i: nat)
    requires i < |ops|
    ensures Run(max, ops[..i + 1]) == Step(max, Run(max, ops[..i]), ops[i]).0
    ensures Track(max, ops[..i + 1]) == Follow(max, Track(max, ops[..i]), ops[i])
  {
    assert ops[..i + 1][..i] == ops[..i];
  }

  /** A reference that one call removed is absent from every later state of the run. */
  lemma RemovedIsGone(max: nat, ops: seq<Op>, i: nat, j: nat, r: Id)
    requires FreshRun(max, ops) && i < j <= |ops|
    requires r in Run(max, ops[..i]) && r !in Run(max, ops[..i + 1])
    ensures r !in Run(max, ops[..j])
  {
    TrackIsLater(max, ops, j);
    TrackIsLater(max, ops, i + 1);
    TrackIsLater(max, ops[..i + 1], i);
    assert ops[..j][..i + 1] == ops[..i + 1] && ops[..i + 1][..i] == ops[..i];
    EagerRefinesLazy(max, ops[..i]);
    assert r in Track(max, ops[..i]).issued;
    DeadStaysDead(max, ops[..j], i + 1, r);
  }

  lemma ConsumeRemoves(max: nat, refs: Refs, op: Op)
    requires op.ConsumeContinuation? && Step(max, refs, op).1.Consumed?
    ensures op.ref in refs && op.ref !in Step(max, refs, op).0
  {
  }

  /** No run consumes the same continuation twice. */
  lemma ContinuationConsumedOnce(max: nat, ops: seq<Op>, i: nat, j: nat)
    requires FreshRun(max, ops) && i < |ops| && j < |ops|
    requires ops[i].ConsumeContinuation? && ops[j].ConsumeContinuation? && ops[i].ref == ops[j].ref
    requires ReplyAt(max, ops, i).Consumed? && ReplyAt(max, ops, j).Consumed?
    ensures i == j
  {
    if i != j {
      var a, b := if i < j then i else j, if i < j then j else i;
      RunPrefix(max, ops, a);
      ConsumeRemoves(max, Run(max, ops[..a]), ops[a]);
      ConsumeRemoves(max, Run(max, ops[..b]), ops[b]);
      RemovedIsGone(max, ops, a, b, ops[a].ref);
    }
  }

  // ------------------------------------------------------------- tree integrity

  /** The live references that name `p` as target, tab or snapshot. */
  predicate NamesParent(x: BackendRef, p: Id) {
    x.target == Some(p) || x.tab == Some(p) || x.snapshot == Some(p)
  }

  predicate ParentLive(refs: Refs, p: Option<Id>, kind: Kind, child: BackendRef) {
    && p.Some? && p.value in refs
    && refs[p.value].kind == kind
    && refs[p.value].context == child.context
    && (kind != Target ==> refs[p.value].target == child.target)
    && (kind == Snapshot ==> refs[p.value].tab == child.tab)
  }

  /** Every live reference hangs below live ancestors of the right kind and the same context. */
  predicate Hangs(refs: Refs, r: Id)
    requires r in refs
  {
    var x := refs[r];
    && x.publicRef == r
    && (!x.kind.Target? ==> ParentLive(refs, x.target, Target, x))
    && (x.kind.SnapshotBound() || x.kind.Dialog? ==> ParentLive(refs, x.tab, Tab, x))
    && (x.kind.Page() ==> ParentLive(refs, x.snapshot, Snapshot, x))
  }

  predicate IsTree(refs: Refs) {
    forall r | r in refs :: Hangs(refs, r)
  }

  /** A discard leaves no live reference behind whose parent it removes. */
  predicate ClosedDiscard(refs: Refs, gone: seq<Id>) {
    forall r, p | r in refs && p in gone && p in refs && NamesParent(refs[r], p) :: r in gone
  }

  predicate ClosedDiscards(max: nat, ops: seq<Op>) {
    ops == [] || (&& ClosedDiscards(max, ops[..|ops| - 1])
                  && (ops[|ops| - 1].DiscardRefs? ==> ClosedDiscard(Run(max, ops[..|ops| - 1]), ops[|ops| - 1].gone)))
  }

  /** No live reference hangs below a revoked one. */
  ghost predicate NoOrphan(l: Ledger) {
    forall r, p | Live(l, r) && NamesParent(l.issued[r].record, p) :: p !in l.revoked
  }

  lemma NamedParentIsIssued(l: Ledger, r: Id, p: Id)
    requires WellFormed(l) && r in l.issued && NamesParent(l.issued[r].record, p)
    ensures p in l.issued && l.issued[p].record.context == l.issued[r].record.context
    ensures !l.issued[p].record.kind.Dialog? && !l.issued[p].record.kind.Page()
    ensures Live(l, r) ==> l.issued[p].epoch == EpochFor(l, l.issued[p].record)
  {
    assert Rooted(l, r);
    assert Rooted(l, p);
  }

  lemma TurnKeepsNoOrphan(l: Ledger, tab: Id)
    requires WellFormed(l) && NoOrphan(l)
    ensures NoOrphan(TurnPage(l, tab)) && NoOrphan(TurnDialogs(l, tab))
  {
    forall r | r in l.issued
      ensures Live(TurnPage(l, tab), r) || Live(TurnDialogs(l, tab), r) ==> Live(l, r)
    {
      assert Rooted(l, r);
    }
  }

  /** Every parent a minting operation names is live when its guard passes. */
  lemma DraftParentsAreLive(l: Ledger, op: Op, p: Id)
    requires Mints(op) && Guard(View(l), op).None? && NamesParent(DraftOf(op), p)
    ensures Live(l, p)
  {
    if op.MintTab? {
      assert op.target in View(l);
    } else {
      if !op.BeginSnapshot? && !op.MintDialog? {
        CheckedSnapshot(l, op.c, op.target, op.tab, op.snapshot);
      }
      CheckedTab(l, op.c, op.target, op.tab);
    }
  }

  lemma EnterKeepsNoOrphan(max: nat, l: Ledger, draft: BackendRef, draws: seq<Id>)
    requires NoOrphan(l)
    requires forall p | NamesParent(draft, p) :: p !in l.revoked
    ensures NoOrphan(Enter(max, l, draft, draws))
  {
    var e := Enter(max, l, draft, draws);
    forall r, p | Live(e, r) && NamesParent(e.issued[r].record, p)
      ensures p !in e.revoked
    {
      if Live(l, r) && e.issued[r] == l.issued[r] {
      } else {
        assert NamesParent(draft, p);
      }
    }
  }

  lemma RevokeKeepsNoOrphan(l: Ledger, op: Op)
    requires WellFormed(l) && NoOrphan(l) && Guard(View(l), op).None?
    requires op.DiscardRefs? ==> ClosedDiscard(View(l), op.gone)
    ensures NoOrphan(Revoke(l, RevokedBy(l, op)))
  {
    var e := Revoke(l, RevokedBy(l, op));
    forall r, p | Live(e, r) && NamesParent(e.issued[r].record, p)
      ensures p !in e.revoked
    {
      assert Live(l, r);
      NamedParentIsIssued(l, r, p);
      assert Live(l, p);
    }
  }

  lemma MintKeepsNoOrphan(max: nat, l: Ledger, op: Op)
    requires WellFormed(l) && NoOrphan(l) && Mints(op) && Guard(View(l), op).None?
    ensures NoOrphan(Enter(max, PreTurn(l, op), DraftOf(op), op.draws))
  {
    if op.BeginSnapshot? || op.MintDialog? {
      TurnKeepsNoOrphan(l, op.tab);
    }
    forall p | NamesParent(DraftOf(op), p)
      ensures p !in l.revoked
    {
      DraftParentsAreLive(l, op, p);
    }
    EnterKeepsNoOrphan(max, PreTurn(l, op), DraftOf(op), op.draws);
  }

  lemma TurnsKeepNoOrphan(l: Ledger, tab: Id)
    requires WellFormed(l) && NoOrphan(l)
    ensures NoOrphan(TurnDialogs(l, tab)) && NoOrphan(TurnDialogs(TurnPage(l, tab), tab))
  {
    TurnKeepsNoOrphan(l, tab);
    TurnKeepsWellFormed(l, tab);
    TurnKeepsNoOrphan(TurnPage(l, tab), tab);
  }

  lemma FollowKeepsNoOrphan(max: nat, l: Ledger, op: Op)
    requires WellFormed(l) && NoOrphan(l) && FreshDraws(l, op)
    requires op.DiscardRefs? ==> ClosedDiscard(View(l), op.gone)
    ensures NoOrphan(Follow(max, l, op))
  {
    if Guard(View(l), op).Some? {
    } else if Mints(op) {
      MintKeepsNoOrphan(max, l, op);
    } else if op.InvalidateTabDialogs? || op.InvalidateTabDocument? {
      TurnsKeepNoOrphan(l, op.tab);
    } else {
      RevokeKeepsNoOrphan(l, op);
    }
  }

  lemma {:induction false} TrackHasNoOrphan(max: nat, ops: seq<Op>)
    requires FreshRun(max, ops) && ClosedDiscards(max, ops)
    ensures NoOrphan(Track(max, ops))
  {
    if ops != [] {
      var before := ops[..|ops| - 1];
      TrackHasNoOrphan(max, before);
      EagerRefinesLazy(max, before);
      FollowKeepsNoOrphan(max, Track(max, before), ops[|ops| - 1]);
    }
  }

  lemma NoOrphanIsTree(l: Ledger)
    requires WellFormed(l) && NoOrphan(l)
    ensures IsTree(View(l))
  {
    forall r | r in View(l)
      ensures Hangs(View(l), r)
    {
      assert Rooted(l, r);
      forall p | NamesParent(l.issued[r].record, p)
        ensures p in View(l)
      {
        NamedParentIsIssued(l, r, p);
      }
    }
  }

  /** In every run whose discards take whole subtrees, the registry is a tree of live ancestors. */
  lemma EveryRunIsATree(max: nat, ops: seq<Op>)
    requires FreshRun(max, ops) && ClosedDiscards(max, ops)
    ensures IsTree(Run(max, ops))
  {
    EagerRefinesLazy(max, ops);
    TrackHasNoOrphan(max, ops);
    NoOrphanIsTree(Track(max, ops));
  }

  /** Only the links that the kind calls for are present. */
  predicate LinksFitKind(x: BackendRef) {
    && (x.kind.Target? ==> x.target.None?)
    && (x.kind.Target? || x.kind.Tab? ==> x.tab.None?)
    && (!x.kind.Page() ==> x.snapshot.None?)
  }

  lemma HangingMeansParentsLive(refs: Refs, r: Id, p: Id)
    requires r in refs && Hangs(refs, r) && LinksFitKind(refs[r]) && NamesParent(refs[r], p)
    ensures p in refs
  {
  }

  lemma StillHangs(refs: Refs, gone: seq<Id>, r: Id)
    requires r in refs && r !in gone && Hangs(refs, r)
    requires forall p | NamesParent(refs[r], p) :: p !in gone
    ensures Hangs(Discard(refs, gone), r)
  {
  }

  /** A discard keeps the tree exactly when it takes every live child of what it removes. */
  lemma DiscardKeepsTreeExactlyWhenClosed(max: nat, ops: seq<Op>, gone: seq<Id>)
    requires FreshRun(max, ops) && ClosedDiscards(max, ops)
    ensures IsTree(Step(max, Run(max, ops), DiscardRefs(gone)).0) <==> ClosedDiscard(Run(max, ops), gone)
  {
    EveryRunIsATree(max, ops);
    EagerRefinesLazy(max, ops);
    var refs := Run(max, ops);
    forall r | r in refs
      ensures LinksFitKind(refs[r])
    {
      assert Rooted(Track(max, ops), r);
    }
    DiscardOfTree(refs, gone);
  }

  const Device := Context("c", "d", 1, 1)

  function Named(id: Id): Draws {
    seq(MINT_ATTEMPTS, _ => id)
  }

  function MintBoth(): seq<Op> {
    [MintTarget(Device, "b", Named("t"))] + [MintTab(Device, "t", "b", Named("u"))]
  }

  lemma OneMoreOp(max: nat, ops: seq<Op>, op: Op)
    ensures Run(max, ops + [op]) == Step(max, Run(max, ops), op).0
    ensures Track(max, ops + [op]) == Follow(max, Track(max, ops), op)
    ensures FreshRun(max, ops + [op]) <==> FreshRun(max, ops) && FreshDraws(Track(max, ops), op)
  {
    assert (ops + [op])[..|ops|] == ops;
  }

  lemma LetterIsABackend()
    ensures ValidBackend("b")
  {
    assert ByteLength("b") == 1 + ByteLength("b"[1..]);
  }

  lemma TargetIsMinted(max: nat)
    requires max >= 2
    ensures var ops := [MintTarget(Device, "b", Named("t"))];
      Run(max, ops) == map["t" := TargetDraft(Device, "b").(publicRef := "t")] && FreshRun(max, ops)
  {
    var op := MintTarget(Device, "b", Named("t"));
    LetterIsABackend();
    OneMoreOp(max, [], op);
    assert [] + [op] == [op] && OfContext(map[], "c") == {} && Named("t")[0] == "t";
  }

  lemma TabIsMinted(max: nat)
    requires max >= 2
    ensures Run(max, MintBoth()) == map["t" := TargetDraft(Device, "b").(publicRef := "t"), "u" := TabDraft(Device, "t", "b").(publicRef := "u")]
    ensures FreshRun(max, MintBoth())
  {
    var ops, op := [MintTarget(Device, "b", Named("t"))], MintTab(Device, "t", "b", Named("u"));
    TargetIsMinted(max);
    LetterIsABackend();
    EagerRefinesLazy(max, ops);
    OneMoreOp(max, ops, op);
    var refs := Run(max, ops);
    assert OfContext(refs, "c") == {"t"} && Named("u")[0] == "u";
    assert "u" !in Track(max, ops).issued by {
      OneMoreOp(max, [], ops[0]);
      assert [] + ops == ops && View(EmptyLedger) == map[] && OfContext(map[], "c") == {} && Named("t")[0] == "t";
    }
    assert forall id | id in op.draws :: id == "u";
  }

  lemma PairIsATree(refs: Refs, target: BackendRef, tab: BackendRef)
    requires refs == map["t" := target, "u" := tab] && "t" != "u"
    requires target == TargetDraft(Device, "b").(publicRef := "t") && tab == TabDraft(Device, "t", "b").(publicRef := "u")
    ensures IsTree(refs) && Discard(refs, ["t"]) == map["u" := tab] && !IsTree(Discard(refs, ["t"]))
  {
    assert Hangs(refs, "t") && Hangs(refs, "u");
    var after := Discard(refs, ["t"]);
    assert after == map["u" := tab];
    assert "u" in after && !Hangs(after, "u");
  }

  /** Two mints and a discard of the target alone: the tab is left without its parent. */
  lemma OpenDiscardOrphansATab(max: nat)
    requires max >= 2
    ensures FreshRun(max, MintBoth() + [DiscardRefs(["t"])])
    ensures IsTree(Run(max, MintBoth())) && !IsTree(Run(max, MintBoth() + [DiscardRefs(["t"])]))
  {
    var ops, op := MintBoth(), DiscardRefs(["t"]);
    TabIsMinted(max);
    OneMoreOp(max, ops, op);
    assert "t"[0] != "u"[0];
    PairIsATree(Run(max, ops), TargetDraft(Device, "b").(publicRef := "t"), TabDraft(Device, "t", "b").(publicRef := "u"));
    DiscardStep(max, Run(max, ops), ["t"]);
  }

  lemma DiscardStep(max: nat, refs: Refs, gone: seq<Id>)
    ensures Step(max, refs, DiscardRefs(gone)).0 == Discard(refs, gone)
  {
  }

  lemma DiscardOfTree(refs: Refs, gone: seq<Id>)
    requires IsTree(refs) && forall r | r in refs :: LinksFitKind(refs[r])
    ensures IsTree(Discard(refs, gone)) <==> ClosedDiscard(refs, gone)
  {
    var after := Discard(refs, gone);
    if IsTree(after) {
      forall r, p | r in refs && p in gone && p in refs && NamesParent(refs[r], p)
        ensures r in gone
      {
        if r in after {
          HangingMeansParentsLive(after, r, p);
        }
      }
    }
    if ClosedDiscard(refs, gone) {
      forall r | r in after
        ensures Hangs(after, r)
      {
        forall p | NamesParent(refs[r], p)
          ensures p !in gone
        {
          HangingMeansParentsLive(refs, r, p);
        }
        StillHangs(refs, gone, r);
      }
    }
  }

  /**
   In every run a public tab has at most one live snapshot and at most one live dialog,
   and every live page reference of the tab points at that snapshot.
   */
  lemma OneSnapshotAndOneDialogPerTab(max: nat, ops: seq<Op>, r: Id, q: Id)
    requires FreshRun(max, ops)
    requires r in Run(max, ops) && q in Run(max, ops)
    requires Run(max, ops)[r].tab == Run(max, ops)[q].tab
    ensures var x, y := Run(max, ops)[r], Run(max, ops)[q];
      && (x.kind.Snapshot? && y.kind.Snapshot? ==> r == q)
      && (x.kind.Dialog? && y.kind.Dialog? ==> r == q)
      && (x.kind.Page() && y.kind.Snapshot? ==> x.snapshot == Some(q))
  {
    EagerRefinesLazy(max, ops);
    var l := Track(max, ops);
    var x := l.issued[r].record;
    assert Rooted(l, r) && Rooted(l, q) && !Clash(l.issued, r, q);
    if x.kind.Page() {
      assert !Clash(l.issued, x.snapshot.value, q);
    }
  }

  // ------------------------------------------------------------ non-interference

  /** The operations that name one target and one tab. */
  predicate TabOperation(op: Op) {
    op.BeginSnapshot? || op.MintAction? || op.MintContent? || op.MintContinuation? || op.MintDialog?
    || op.InvalidateTabDialogs? || op.CompleteDialog? || op.ConsumeContinuation? || op.InvalidateTabDocument?
  }

  /** An issued reference that does not hang below this public tab. */
  predicate ElsewhereThan(l: Ledger, r: Id, tab: Id) {
    r in l.issued && l.issued[r].record.tab != Some(tab)
  }

  lemma TurnFrames(l: Ledger, tab: Id, r: Id)
    requires ElsewhereThan(l, r, tab)
    ensures Live(TurnPage(l, tab), r) == Live(TurnDialogs(l, tab), r) == Live(l, r)
  {
  }

  lemma EnterFrames(max: nat, l: Ledger, draft: BackendRef, draws: seq<Id>, r: Id)
    requires r in l.issued && forall id | id in draws :: id !in l.issued
    ensures r in Enter(max, l, draft, draws).issued && Enter(max, l, draft, draws).issued[r] == l.issued[r]
    ensures Live(Enter(max, l, draft, draws), r) == Live(l, r)
  {
    FirstFreeIsDrawn(View(l), draws);
  }

  lemma RemovedHangsBelowItsTab(l: Ledger, op: Op)
    requires op.CompleteDialog? || op.ConsumeContinuation?
    requires Guard(View(l), op).None?
    ensures op.ref in l.issued && l.issued[op.ref].record.tab == Some(op.tab)
  {
    assert op.ref in View(l);
  }

  lemma RemovalFrames(l: Ledger, op: Op, r: Id)
    requires (op.CompleteDialog? || op.ConsumeContinuation?) && Guard(View(l), op).None? && ElsewhereThan(l, r, op.tab)
    ensures Live(Revoke(l, RevokedBy(l, op)), r) == Live(l, r)
  {
    RemovedHangsBelowItsTab(l, op);
    assert RevokedBy(l, op) == {op.ref};
  }

  lemma PreTurnFrames(l: Ledger, op: Op, r: Id)
    requires TabOperation(op) && ElsewhereThan(l, r, op.tab)
    ensures PreTurn(l, op).issued == l.issued && Live(PreTurn(l, op), r) == Live(l, r)
  {
    TurnFrames(l, op.tab, r);
  }

  lemma ElsewhereIsFramed(max: nat, l: Ledger, op: Op, r: Id)
    requires FreshDraws(l, op) && TabOperation(op) && ElsewhereThan(l, r, op.tab)
    ensures Live(Follow(max, l, op), r) == Live(l, r)
    ensures r in Follow(max, l, op).issued && Follow(max, l, op).issued[r] == l.issued[r]
  {
    if Guard(View(l), op).Some? {
    } else if Mints(op) {
      PreTurnFrames(l, op, r);
      EnterFrames(max, PreTurn(l, op), DraftOf(op), op.draws, r);
    } else if op.InvalidateTabDialogs? || op.InvalidateTabDocument? {
      TurnFrames(l, op.tab, r);
      TurnFrames(TurnPage(l, op.tab), op.tab, r);
    } else {
      RemovalFrames(l, op, r);
    }
  }

  predicate AgreeAt(before: Refs, after: Refs, r: Id) {
    (r in before <==> r in after) && (r in before ==> before[r] == after[r])
  }

  lemma AgreeingLookups(before: Refs, after: Refs, c: Context, target: Id, tab: Id, r: Id, allowed: set<Kind>)
    requires AgreeAt(before, after, target) && AgreeAt(before, after, tab) && AgreeAt(before, after, r)
    requires r in before && before[r].snapshot.Some? ==> AgreeAt(before, after, before[r].snapshot.value)
    ensures ResolvePage(after, c, target, tab, r, allowed) == ResolvePage(before, c, target, tab, r, allowed)
    ensures ResolveDialog(after, c, target, tab, r) == ResolveDialog(before, c, target, tab, r)
    ensures ResolveTargetTab(after, c, target, tab) == ResolveTargetTab(before, c, target, tab)
  {
  }

  lemma AgreeingActions(before: Refs, after: Refs, c: Context, target: Id, tab: Id, r: Id, wanted: seq<Action>)
    requires AgreeAt(before, after, r)
    requires ResolvePage(after, c, target, tab, r, {ActionElement}) == ResolvePage(before, c, target, tab, r, {ActionElement})
    ensures ResolveAnyAction(after, c, target, tab, r, wanted) == ResolveAnyAction(before, c, target, tab, r, wanted)
  {
  }

  lemma ElsewhereAgrees(max: nat, l: Ledger, op: Op, r: Id)
    requires WellFormed(l) && FreshDraws(l, op) && TabOperation(op) && ElsewhereThan(l, r, op.tab)
    ensures AgreeAt(View(l), Step(max, View(l), op).0, r)
  {
    FollowIsStep(max, l, op);
    ElsewhereIsFramed(max, l, op, r);
  }

  /**
   An operation on one public tab leaves the outcome of every lookup of already issued
   references of other tabs as it was, refusals included.
   */
  lemma OtherTabsKeepTheirOutcomes(max: nat, ops: seq<Op>, op: Op, c: Context, target: Id, tab: Id, r: Id, allowed: set<Kind>, wanted: seq<Action>)
    requires FreshRun(max, ops) && FreshDraws(Track(max, ops), op) && TabOperation(op)
    requires ElsewhereThan(Track(max, ops), target, op.tab)
    requires ElsewhereThan(Track(max, ops), tab, op.tab)
    requires ElsewhereThan(Track(max, ops), r, op.tab)
    ensures var before, after := Run(max, ops), Step(max, Run(max, ops), op).0;
      && ResolvePage(after, c, target, tab, r, allowed) == ResolvePage(before, c, target, tab, r, allowed)
      && ResolveDialog(after, c, target, tab, r) == ResolveDialog(before, c, target, tab, r)
      && ResolveTargetTab(after, c, target, tab) == ResolveTargetTab(before, c, target, tab)
      && ResolveAnyAction(after, c, target, tab, r, wanted) == ResolveAnyAction(before, c, target, tab, r, wanted)
  {
    EagerRefinesLazy(max, ops);
    var l := Track(max, ops);
    ElsewhereAgrees(max, l, op, target);
    ElsewhereAgrees(max, l, op, tab);
    ElsewhereAgrees(max, l, op, r);
    assert Rooted(l, r);
    if l.issued[r].record.snapshot.Some? {
      ElsewhereAgrees(max, l, op, l.issued[r].record.snapshot.value);
    }
    AgreeingLookups(View(l), Step(max, View(l), op).0, c, target, tab, r, allowed);
    AgreeingLookups(View(l), Step(max, View(l), op).0, c, target, tab, r, {ActionElement});
    AgreeingActions(View(l), Step(max, View(l), op).0, c, target, tab, r, wanted);
  }

  /** The references of one context. */
  function OwnedBy(refs: Refs, id: string): Refs {
    map r | r in refs && refs[r].context.id == id :: refs[r]
  }

  predicate ActsUnder(op: Op, id: string) {
    match op
    case InvalidateContext(other) => other == id
    case InvalidateGeneration(_, _) => true
    case InvalidateRevision(_, _) => true
    case DiscardRefs(_) => true
    case _ => op.c.id == id
  }

  lemma MintIsOwned(max: nat, refs: Refs, draft: BackendRef, draws: seq<Id>, other: string)
    requires draft.context.id != other
    ensures OwnedBy(Mint(max, refs, draft, draws).0, other) == OwnedBy(refs, other)
  {
    FirstFreeIsDrawn(refs, draws);
  }

  lemma TabSweepsAreOwned(refs: Refs, c: Context, target: Id, tab: Id, other: string)
    requires c.id != other
    ensures OwnedBy(SweepPage(refs, c, target, tab), other) == OwnedBy(refs, other)
    ensures OwnedBy(SweepDialogs(refs, c, target, tab), other) == OwnedBy(refs, other)
  {
  }

  lemma MintStepIsOwned(max: nat, refs: Refs, op: Op, other: string)
    requires Mints(op) && op.c.id != other
    ensures OwnedBy(Mint(max, PreSweep(refs, op), DraftOf(op), op.draws).0, other) == OwnedBy(refs, other)
  {
    MintIsOwned(max, PreSweep(refs, op), DraftOf(op), op.draws, other);
    if op.BeginSnapshot? || op.MintDialog? {
      TabSweepsAreOwned(refs, op.c, op.target, op.tab, other);
    }
  }

  lemma RemovalIsOwned(refs: Refs, r: Id, other: string)
    requires r in refs ==> refs[r].context.id != other
    ensures OwnedBy(refs - {r}, other) == OwnedBy(refs, other)
  {
  }

  /** No operation under one context id adds, removes or alters a reference of another. */
  lemma OtherContextsAreUntouched(max: nat, refs: Refs, op: Op, other: string)
    requires !ActsUnder(op, other)
    ensures OwnedBy(Step(max, refs, op).0, other) == OwnedBy(refs, other)
  {
    if Guard(refs, op).Some? {
    } else if Mints(op) {
      MintStepIsOwned(max, refs, op, other);
    } else if op.InvalidateTabDialogs? || op.InvalidateTabDocument? {
      TabSweepsAreOwned(refs, op.c, op.target, op.tab, other);
      TabSweepsAreOwned(SweepPage(refs, op.c, op.target, op.tab), op.c, op.target, op.tab, other);
    } else if op.CompleteDialog? || op.ConsumeContinuation? {
      RemovalIsOwned(refs, op.ref, other);
    }
  }

  // --------------------------------------------------------------------- budgets

  lemma FewerOfContext(refs: Refs, smaller: Refs, id: string)
    requires forall r | r in smaller :: r in refs && refs[r] == smaller[r]
    ensures |OfContext(smaller, id)| <= |OfContext(refs, id)|
  {
    SubsetIsSmaller(OfContext(smaller, id), OfContext(refs, id));
  }

  lemma AddedToContext(refs: Refs, r: Id, x: BackendRef, id: string)
    requires r !in refs
    ensures |OfContext(refs[r := x], id)| == |OfContext(refs, id)| + if x.context.id == id then 1 else 0
  {
    var before, after := OfContext(refs, id), OfContext(refs[r := x], id);
    assert after == if x.context.id == id then before + {r} else before;
  }

  lemma MintKeepsLimit(max: nat, refs: Refs, draft: BackendRef, draws: seq<Id>, id: string)
    requires |OfContext(refs, id)| <= max
    ensures |OfContext(Mint(max, refs, draft, draws).0, id)| <= max
  {
    var admitted := Admit(max, refs, draft.context, draft.backend, draws);
    if admitted.Success? {
      FirstFreeIsDrawn(refs, draws);
      AddedToContext(refs, admitted.value, draft.(publicRef := admitted.value), id);
    }
  }

  lemma StepKeepsLimit(max: nat, refs: Refs, op: Op, id: string)
    requires |OfContext(refs, id)| <= max
    ensures |OfContext(Step(max, refs, op).0, id)| <= max
  {
    if Mints(op) {
      FewerOfContext(refs, PreSweep(refs, op), id);
      MintKeepsLimit(max, PreSweep(refs, op), DraftOf(op), op.draws, id);
    } else {
      FewerOfContext(refs, Step(max, refs, op).0, id);
    }
  }

  /** No run, fresh identifiers or not, lets a context hold more references than the limit. */
  lemma {:induction false} EveryContextStaysWithinLimit(max: nat, ops: seq<Op>, id: string)
    ensures |OfContext(Run(max, ops), id)| <= max
  {
    if ops != [] {
      EveryContextStaysWithinLimit(max, ops[..|ops| - 1], id);
      StepKeepsLimit(max, Run(max, ops[..|ops| - 1]), ops[|ops| - 1], id);
    } else {
      assert OfContext(Run(max, ops), id) == {};
    }
  }

  /**
   A refused mint adds nothing, and takes nothing except, for `begin_snapshot` and
   `mint_dialog` past their check, the page references or the dialog of that one tab.
   */
  lemma RefusedMintTakesOnlyItsTab(max: nat, refs: Refs, op: Op, r: Id)
    requires Mints(op) && Step(max, refs, op).1.Refused?
    ensures var after := Step(max, refs, op).0;
      && (r in after ==> r in refs && after[r] == refs[r])
      && (r in refs && r !in after ==>
            && Guard(refs, op).None?
            && ((op.BeginSnapshot? && refs[r].kind.SnapshotBound()) || (op.MintDialog? && refs[r].kind.Dialog?))
            && refs[r].tab == Some(op.tab))
  {
  }

  // ---------------------------------------------------------------- action grants

  predicate Increasing(s: seq<Action>) {
    forall i, j | 0 <= i < j < |s| :: Rank(s[i]) < Rank(s[j])
  }

  predicate NonDecreasing(s: seq<Action>) {
    forall i, j | 0 <= i < j < |s| :: Rank(s[i]) <= Rank(s[j])
  }

  lemma {:induction false} InsertKeepsOrder(a: Action, s: seq<Action>)
    requires NonDecreasing(s)
    ensures NonDecreasing(InsertByRank(a, s))
    ensures forall x :: x in InsertByRank(a, s) <==> x == a || x in s
  {
    if s == [] || Rank(a) <= Rank(s[0]) {
    } else {
      InsertKeepsOrder(a, s[1..]);
      assert s == [s[0]] + s[1..];
      assert forall x | x in InsertByRank(a, s[1..]) :: Rank(s[0]) <= Rank(x);
    }
  }

  lemma {:induction false} SortIsOrdered(s: seq<Action>)
    ensures NonDecreasing(SortByRank(s))
    ensures forall x :: x in SortByRank(s) <==> x in s
  {
    if s != [] {
      SortIsOrdered(s[1..]);
      InsertKeepsOrder(s[0], SortByRank(s[1..]));
      assert s == [s[0]] + s[1..];
    }
  }

  lemma {:induction false} DedupIsStrict(s: seq<Action>)
    requires NonDecreasing(s)
    ensures Increasing(Dedup(s))
    ensures forall x :: x in Dedup(s) <==> x in s
  {
    if |s| > 1 {
      DedupIsStrict(s[1..]);
      assert s == [s[0]] + s[1..];
      if s[0] != s[1] {
        assert forall x | x in s[1..] :: Rank(s[1]) <= Rank(x);
      }
    }
  }

  /** `sort_by_key` then `dedup` grants each action given at mint once, and nothing else. */
  lemma GrantsAreExact(actions: seq<Action>)
    ensures Increasing(Dedup(SortByRank(actions)))
    ensures forall a :: a in Dedup(SortByRank(actions)) <==> a in actions
  {
    SortIsOrdered(actions);
    DedupIsStrict(SortByRank(actions));
  }

  /** What a successful mint wrote down stays in the ledger for the rest of the run. */
  lemma MintedIsRemembered(max: nat, ops: seq<Op>, i: nat)
    requires FreshRun(max, ops) && i < |ops| && Mints(ops[i]) && ReplyAt(max, ops, i).Minted?
    ensures var r := ReplyAt(max, ops, i).ref;
      r in Track(max, ops).issued && Track(max, ops).issued[r].record == DraftOf(ops[i]).(publicRef := r)
  {
    var r := ReplyAt(max, ops, i).ref;
    TrackIsLater(max, ops, i);
    TrackIsLater(max, ops, i + 1);
    RunPrefix(max, ops, i);
    EagerRefinesLazy(max, ops[..i]);
    EagerRefinesLazy(max, ops[..i + 1]);
    assert Run(max, ops[..i + 1])[r] == DraftOf(ops[i]).(publicRef := r);
    assert r in Track(max, ops[..i + 1]).issued;
  }

  lemma AnyActionIsPageAndGrant(refs: Refs, c: Context, target: Id, tab: Id, r: Id, allowed: seq<Action>)
    ensures ResolveAnyAction(refs, c, target, tab, r, allowed).Success?
       <==> ResolvePage(refs, c, target, tab, r, {ActionElement}).Success? && exists a | a in allowed :: a in refs[r].actions
  {
  }

  /**
   However long ago an element was minted, it resolves for one of some allowed actions
   exactly when it still resolves as a page reference and one of those actions was named
   when it was minted.
   */
  lemma ActionNeedsAGrant(max: nat, ops: seq<Op>, i: nat, c: Context, target: Id, tab: Id, allowed: seq<Action>)
    requires FreshRun(max, ops) && i < |ops| && ops[i].MintAction? && ReplyAt(max, ops, i).Minted?
    ensures var r := ReplyAt(max, ops, i).ref;
      ResolveAnyAction(Run(max, ops), c, target, tab, r, allowed).Success?
      <==> (ResolvePage(Run(max, ops), c, target, tab, r, {ActionElement}).Success? && exists a | a in allowed :: a in ops[i].actions)
  {
    var r := ReplyAt(max, ops, i).ref;
    MintedIsRemembered(max, ops, i);
    EagerRefinesLazy(max, ops);
    GrantsAreExact(ops[i].actions);
    AnyActionIsPageAndGrant(Run(max, ops), c, target, tab, r, allowed);
    if ResolvePage(Run(max, ops), c, target, tab, r, {ActionElement}).Success? {
      assert Run(max, ops)[r].actions == Dedup(SortByRank(ops[i].actions));
    }
  }
}
