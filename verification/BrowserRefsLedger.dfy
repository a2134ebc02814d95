/**
 The lazy counterpart of the registry. A ledger never forgets a reference: it
 counts an epoch per public tab (one for page references, one for dialogs) and
 records which references were revoked outright. A reference is live when it
 was not revoked and its epoch is still current. The theorems show that the
 eager sweeps of `BrowserRefs` keep exactly the live part of that ledger.
 */
module BrowserRefsLedger {
  import opened Common
  import opened BrowserRefs

  datatype Birth = Birth(record: BackendRef, epoch: nat)

  datatype Ledger = Ledger(
    issued: map<Id, Birth>,
    pageEpochs: map<Id, nat>,
    dialogEpochs: map<Id, nat>,
    revoked: set<Id>)

  const EmptyLedger := Ledger(map[], map[], map[], {})

  function Count(epochs: map<Id, nat>, tab: Option<Id>): nat {
    if tab.Some? && tab.value in epochs then epochs[tab.value] else 0
  }

  /** The epoch a record of this kind and tab is compared with. */
  function EpochFor(l: Ledger, x: BackendRef): nat {
    if x.kind.SnapshotBound() then Count(l.pageEpochs, x.tab)
    else if x.kind.Dialog? then Count(l.dialogEpochs, x.tab)
    else 0
  }

  predicate Live(l: Ledger, r: Id) {
    r in l.issued && r !in l.revoked && l.issued[r].epoch == EpochFor(l, l.issued[r].record)
  }

  /** The eager registry that the ledger stands for. */
  function View(l: Ledger): Refs {
    map r | r in l.issued && Live(l, r) :: l.issued[r].record
  }

  // ------------------------------------------------------------ ledger steps

  function TurnPage(l: Ledger, tab: Id): Ledger {
    l.(pageEpochs := l.pageEpochs[tab := Count(l.pageEpochs, Some(tab)) + 1])
  }

  function TurnDialogs(l: Ledger, tab: Id): Ledger {
    l.(dialogEpochs := l.dialogEpochs[tab := Count(l.dialogEpochs, Some(tab)) + 1])
  }

  function Revoke(l: Ledger, gone: set<Id>): Ledger {
    l.(revoked := l.revoked + gone * l.issued.Keys)
  }

  function PreTurn(l: Ledger, op: Op): Ledger {
    match op
    case BeginSnapshot(_, _, tab, _, _) => TurnPage(l, tab)
    case MintDialog(_, _, tab, _, _) => TurnDialogs(l, tab)
    case _ => l
  }

  function Enter(max: nat, l: Ledger, draft: BackendRef, draws: seq<Id>): Ledger {
    match Admit(max, View(l), draft.context, draft.backend, draws)
    case Failure(_) => l
    case Success(id) => l.(issued := l.issued[id := Birth(draft.(publicRef := id), EpochFor(l, draft))])
  }

  /** The references an operation revokes outright, whatever the epochs say. */
  function RevokedBy(l: Ledger, op: Op): set<Id> {
    match op
    case CompleteDialog(_, _, _, r) => {r}
    case ConsumeContinuation(_, _, _, r) => {r}
    case InvalidateContext(id) => set r | r in l.issued && l.issued[r].record.context.id == id
    case InvalidateGeneration(device, generation) =>
      set r | r in l.issued && l.issued[r].record.context.deviceId == device && l.issued[r].record.context.generation != generation
    case InvalidateRevision(device, revision) =>
      set r | r in l.issued && l.issued[r].record.context.deviceId == device && l.issued[r].record.context.revision != revision
    case DiscardRefs(gone) => set r | r in gone
    case _ => {}
  }

  function Follow(max: nat, l: Ledger, op: Op): Ledger {
    if Guard(View(l), op).Some? then l
    else if Mints(op) then Enter(max, PreTurn(l, op), DraftOf(op), op.draws)
    else if op.InvalidateTabDialogs? then TurnDialogs(l, op.tab)
    else if op.InvalidateTabDocument? then TurnDialogs(TurnPage(l, op.tab), op.tab)
    else Revoke(l, RevokedBy(l, op))
  }

  function Track(max: nat, ops: seq<Op>): Ledger {
    if ops == [] then EmptyLedger else Follow(max, Track(max, ops[..|ops| - 1]), ops[|ops| - 1])
  }

  /** The random draws of this call repeat no identifier issued before. */
  predicate FreshDraws(l: Ledger, op: Op) {
    Mints(op) ==> forall id | id in op.draws :: id !in l.issued
  }

  predicate FreshRun(max: nat, ops: seq<Op>) {
    ops == [] || (FreshRun(max, ops[..|ops| - 1]) && FreshDraws(Track(max, ops[..|ops| - 1]), ops[|ops| - 1]))
  }

  // ------------------------------------------------------- ledger integrity

  /** `p` was issued with the kind, context, target and tab that a child of it must share. */
  predicate ParentIs(l: Ledger, p: Id, kind: Kind, child: BackendRef) {
    && p in l.issued
    && l.issued[p].record.kind == kind
    && l.issued[p].record.context == child.context
    && (kind != Target ==> l.issued[p].record.target == child.target)
    && (kind == Snapshot ==> l.issued[p].record.tab == child.tab)
  }

  predicate Rooted(l: Ledger, r: Id)
    requires r in l.issued
  {
    var x := l.issued[r].record;
    && x.publicRef == r
    && l.issued[r].epoch <= EpochFor(l, x)
    && (x.kind.Target? ==> x.target.None? && x.tab.None?)
    && (!x.kind.Target? ==> x.target.Some? && ParentIs(l, x.target.value, Target, x))
    && (x.kind.Tab? ==> x.tab.None?)
    && (x.kind.SnapshotBound() || x.kind.Dialog? ==> x.tab.Some? && ParentIs(l, x.tab.value, Tab, x))
    && (x.kind.Page() ==> x.snapshot.Some? && ParentIs(l, x.snapshot.value, Snapshot, x)
                          && l.issued[x.snapshot.value].epoch == l.issued[r].epoch)
    && (!x.kind.Page() ==> x.snapshot.None?)
    && (x.kind.Continuation? ==> x.singleUse)
  }

  /** Two snapshots, or two dialogs, of one tab issued in the same epoch. */
  predicate Clash(issued: map<Id, Birth>, r: Id, q: Id) {
    && r in issued && q in issued && r != q
    && issued[r].record.kind == issued[q].record.kind
    && (issued[r].record.kind.Snapshot? || issued[r].record.kind.Dialog?)
    && issued[r].record.tab == issued[q].record.tab
    && issued[r].epoch == issued[q].epoch
  }

  ghost predicate WellFormed(l: Ledger) {
    && l.revoked <= l.issued.Keys
    && (forall r {:trigger Rooted(l, r)} | r in l.issued :: Rooted(l, r))
    && (forall r, q {:trigger Clash(l.issued, r, q)} :: !Clash(l.issued, r, q))
  }

  // ------------------------------------------- eager sweeps are lazy updates

  lemma {:induction false} FirstFreeIsDrawn(refs: Refs, draws: seq<Id>)
    ensures match FirstFree(refs, draws)
            case None => forall id | id in draws :: id in refs
            case Some(id) => id in draws && id !in refs
  {
    if draws != [] {
      FirstFreeIsDrawn(refs, draws[1..]);
    }
  }

  /** What a successful target/tab check says about the ledger. */
  lemma CheckedTab(l: Ledger, c: Context, target: Id, tab: Id)
    requires ResolveTargetTab(View(l), c, target, tab).Success?
    ensures Live(l, tab) && l.issued[tab].record.kind == Tab
    ensures l.issued[tab].record.context == c && l.issued[tab].record.target == Some(target)
    ensures Live(l, target) && l.issued[target].record.kind == Target && l.issued[target].record.context == c
  {
    assert tab in View(l) && target in View(l);
  }

  lemma TurnPageAt(l: Ledger, c: Context, target: Id, tab: Id, r: Id)
    requires r in l.issued && Rooted(l, r)
    requires tab in l.issued && l.issued[tab].record.context == c && l.issued[tab].record.target == Some(target)
    ensures Live(TurnPage(l, tab), r)
       <==> Live(l, r) && !(var x := l.issued[r].record; x.context == c && x.target == Some(target) && x.tab == Some(tab) && x.kind.SnapshotBound())
  {
  }

  lemma TurnDialogsAt(l: Ledger, c: Context, target: Id, tab: Id, r: Id)
    requires r in l.issued && Rooted(l, r)
    requires tab in l.issued && l.issued[tab].record.context == c && l.issued[tab].record.target == Some(target)
    ensures Live(TurnDialogs(l, tab), r)
       <==> Live(l, r) && (var x := l.issued[r].record; x.context.id != c.id || x.target != Some(target) || x.tab != Some(tab) || x.kind != Dialog)
  {
  }

  lemma TurnPageIsSweep(l: Ledger, c: Context, target: Id, tab: Id)
    requires WellFormed(l)
    requires ResolveTargetTab(View(l), c, target, tab).Success?
    ensures View(TurnPage(l, tab)) == SweepPage(View(l), c, target, tab)
  {
    CheckedTab(l, c, target, tab);
    forall r | r in l.issued
      ensures r in View(TurnPage(l, tab)) <==> r in SweepPage(View(l), c, target, tab)
    {
      assert Rooted(l, r);
      TurnPageAt(l, c, target, tab, r);
    }
  }

  lemma TurnDialogsIsSweep(l: Ledger, c: Context, target: Id, tab: Id)
    requires WellFormed(l)
    requires ResolveTargetTab(View(l), c, target, tab).Success?
    ensures View(TurnDialogs(l, tab)) == SweepDialogs(View(l), c, target, tab)
  {
    CheckedTab(l, c, target, tab);
    forall r | r in l.issued
      ensures r in View(TurnDialogs(l, tab)) <==> r in SweepDialogs(View(l), c, target, tab)
    {
      assert Rooted(l, r);
      TurnDialogsAt(l, c, target, tab, r);
    }
  }

  lemma RevokeIsRemoval(l: Ledger, gone: set<Id>)
    ensures View(Revoke(l, gone)) == View(l) - gone
  {
    forall r | r in l.issued
      ensures Live(Revoke(l, gone), r) <==> r in View(l) - gone
    {
    }
  }

  lemma EnterIsMint(max: nat, l: Ledger, draft: BackendRef, draws: seq<Id>)
    requires l.revoked <= l.issued.Keys
    requires forall id | id in draws :: id !in l.issued
    ensures View(Enter(max, l, draft, draws)) == Mint(max, View(l), draft, draws).0
  {
    FirstFreeIsDrawn(View(l), draws);
    var l' := Enter(max, l, draft, draws);
    forall r | r in l.issued
      ensures r in View(l') <==> r in View(l)
    {
    }
  }

  // ---------------------------------------------- ledger steps keep integrity

  lemma TurnKeepsWellFormed(l: Ledger, tab: Id)
    requires WellFormed(l)
    ensures WellFormed(TurnPage(l, tab))
    ensures WellFormed(TurnDialogs(l, tab))
  {
    forall r | r in l.issued
      ensures Rooted(TurnPage(l, tab), r) && Rooted(TurnDialogs(l, tab), r)
    {
      assert Rooted(l, r);
    }
  }

  lemma RevokeKeepsWellFormed(l: Ledger, gone: set<Id>)
    requires WellFormed(l)
    ensures WellFormed(Revoke(l, gone))
  {
    forall r | r in l.issued
      ensures Rooted(Revoke(l, gone), r)
    {
      assert Rooted(l, r);
    }
  }

  /** A tab that just turned its epoch holds no reference of the new epoch. */
  lemma FreshEpochIsEmpty(l: Ledger, tab: Id, r: Id)
    requires r in l.issued && Rooted(l, r) && l.issued[r].record.tab == Some(tab)
    ensures l.issued[r].record.kind.Snapshot? ==> l.issued[r].epoch < Count(TurnPage(l, tab).pageEpochs, Some(tab))
    ensures l.issued[r].record.kind.Dialog? ==> l.issued[r].epoch < Count(TurnDialogs(l, tab).dialogEpochs, Some(tab))
  {
  }

  /** No snapshot or dialog of this birth's tab was issued in the epoch of the birth. */
  ghost predicate EpochIsFree(l: Ledger, birth: Birth) {
    birth.record.kind.Snapshot? || birth.record.kind.Dialog? ==>
      forall r {:trigger l.issued[r]} | r in l.issued && l.issued[r].record.kind == birth.record.kind && l.issued[r].record.tab == birth.record.tab
        :: l.issued[r].epoch != birth.epoch
  }

  lemma StaysRooted(l: Ledger, id: Id, birth: Birth, r: Id)
    requires id !in l.issued && r in l.issued && Rooted(l, r)
    ensures Rooted(l.(issued := l.issued[id := birth]), r)
  {
  }

  lemma StaysClashFree(l: Ledger, id: Id, birth: Birth, r: Id, q: Id)
    requires id !in l.issued && EpochIsFree(l, birth) && !Clash(l.issued, r, q)
    ensures !Clash(l.issued[id := birth], r, q)
  {
  }

  lemma ExtendKeepsWellFormed(l: Ledger, id: Id, birth: Birth)
    requires WellFormed(l) && id !in l.issued && EpochIsFree(l, birth)
    requires Rooted(l.(issued := l.issued[id := birth]), id)
    ensures WellFormed(l.(issued := l.issued[id := birth]))
  {
    var e := l.(issued := l.issued[id := birth]);
    forall r | r in e.issued
      ensures Rooted(e, r)
    {
      if r != id {
        assert Rooted(l, r);
        StaysRooted(l, id, birth, r);
      }
    }
    forall r, q
      ensures !Clash(e.issued, r, q)
    {
      assert !Clash(l.issued, r, q);
      StaysClashFree(l, id, birth, r, q);
    }
  }

  /** What a successful snapshot check says about the ledger. */
  lemma CheckedSnapshot(l: Ledger, c: Context, target: Id, tab: Id, snapshot: Id)
    requires RequireSnapshot(View(l), c, target, tab, snapshot).Success?
    ensures Live(l, snapshot) && l.issued[snapshot].record.kind == Snapshot && l.issued[snapshot].record.context == c
    ensures l.issued[snapshot].record.target == Some(target) && l.issued[snapshot].record.tab == Some(tab)
    ensures ResolveTargetTab(View(l), c, target, tab).Success?
  {
    assert snapshot in View(l);
  }

  lemma NewIsRooted(l: Ledger, op: Op, id: Id)
    requires Mints(op) && Guard(View(l), op).None? && id !in l.issued
    ensures var m := PreTurn(l, op);
            var e := m.(issued := m.issued[id := Birth(DraftOf(op).(publicRef := id), EpochFor(m, DraftOf(op)))]);
            Rooted(e, id)
  {
    if op.MintTab? {
      assert op.target in View(l);
    } else if op.BeginSnapshot? || op.MintDialog? {
      CheckedTab(l, op.c, op.target, op.tab);
    } else if !op.MintTarget? {
      CheckedSnapshot(l, op.c, op.target, op.tab, op.snapshot);
      CheckedTab(l, op.c, op.target, op.tab);
    }
  }

  lemma PreTurnFreesEpoch(l: Ledger, op: Op, id: Id)
    requires WellFormed(l) && Mints(op)
    ensures var m := PreTurn(l, op);
      WellFormed(m) && m.issued == l.issued && EpochIsFree(m, Birth(DraftOf(op).(publicRef := id), EpochFor(m, DraftOf(op))))
  {
    if op.BeginSnapshot? || op.MintDialog? {
      TurnKeepsWellFormed(l, op.tab);
      forall r | r in l.issued && l.issued[r].record.kind == DraftOf(op).kind && l.issued[r].record.tab == Some(op.tab)
        ensures l.issued[r].epoch != EpochFor(PreTurn(l, op), DraftOf(op))
      {
        assert Rooted(l, r);
        FreshEpochIsEmpty(l, op.tab, r);
      }
    }
  }

  lemma EnterKeepsWellFormed(max: nat, l: Ledger, op: Op)
    requires WellFormed(l) && Mints(op) && FreshDraws(l, op)
    requires Guard(View(l), op).None?
    ensures WellFormed(Enter(max, PreTurn(l, op), DraftOf(op), op.draws))
  {
    var m, draft := PreTurn(l, op), DraftOf(op);
    PreTurnFreesEpoch(l, op, "");
    var admitted := Admit(max, View(m), draft.context, draft.backend, op.draws);
    if admitted.Success? {
      var id := admitted.value;
      FirstFreeIsDrawn(View(m), op.draws);
      NewIsRooted(l, op, id);
      PreTurnFreesEpoch(l, op, id);
      ExtendKeepsWellFormed(m, id, Birth(draft.(publicRef := id), EpochFor(m, draft)));
    }
  }

  lemma FollowKeepsWellFormed(max: nat, l: Ledger, op: Op)
    requires WellFormed(l) && FreshDraws(l, op)
    ensures WellFormed(Follow(max, l, op))
  {
    if Guard(View(l), op).None? {
      if Mints(op) {
        EnterKeepsWellFormed(max, l, op);
      } else if op.InvalidateTabDialogs? || op.InvalidateTabDocument? {
        TurnKeepsWellFormed(l, op.tab);
        TurnKeepsWellFormed(TurnPage(l, op.tab), op.tab);
      } else {
        RevokeKeepsWellFormed(l, RevokedBy(l, op));
      }
    }
  }

  /** A page turn leaves the target and tab of the turned tab resolvable. */
  lemma TurnKeepsTab(l: Ledger, c: Context, target: Id, tab: Id)
    requires ResolveTargetTab(View(l), c, target, tab).Success?
    ensures ResolveTargetTab(View(TurnPage(l, tab)), c, target, tab).Success?
  {
    assert Live(TurnPage(l, tab), target) && Live(TurnPage(l, tab), tab);
  }

  /** The guards, stated on the ledger, of the operations that remove one reference. */
  lemma SweepIsRemoval(max: nat, l: Ledger, op: Op)
    requires Guard(View(l), op).None?
    requires !Mints(op) && !op.InvalidateTabDialogs? && !op.InvalidateTabDocument?
    ensures Step(max, View(l), op).0 == View(l) - RevokedBy(l, op)
  {
  }

  lemma MintIsStep(max: nat, l: Ledger, op: Op)
    requires WellFormed(l) && FreshDraws(l, op) && Mints(op)
    requires Guard(View(l), op).None?
    ensures View(Follow(max, l, op)) == Step(max, View(l), op).0
  {
    if op.BeginSnapshot? {
      TurnPageIsSweep(l, op.c, op.target, op.tab);
    } else if op.MintDialog? {
      TurnDialogsIsSweep(l, op.c, op.target, op.tab);
    }
    EnterIsMint(max, PreTurn(l, op), DraftOf(op), op.draws);
  }

  lemma FollowIsStep(max: nat, l: Ledger, op: Op)
    requires WellFormed(l) && FreshDraws(l, op)
    ensures View(Follow(max, l, op)) == Step(max, View(l), op).0
  {
    if Guard(View(l), op).None? {
      if Mints(op) {
        MintIsStep(max, l, op);
      } else if op.InvalidateTabDialogs? {
        TurnDialogsIsSweep(l, op.c, op.target, op.tab);
      } else if op.InvalidateTabDocument? {
        TurnPageIsSweep(l, op.c, op.target, op.tab);
        TurnKeepsWellFormed(l, op.tab);
        TurnKeepsTab(l, op.c, op.target, op.tab);
        TurnDialogsIsSweep(TurnPage(l, op.tab), op.c, op.target, op.tab);
      } else {
        SweepIsRemoval(max, l, op);
        RevokeIsRemoval(l, RevokedBy(l, op));
      }
    }
  }

  /** Eager deletion refines the epoch ledger over every run with fresh identifiers. */
  lemma {:induction false} EagerRefinesLazy(max: nat, ops: seq<Op>)
    requires FreshRun(max, ops)
    ensures Run(max, ops) == View(Track(max, ops))
    ensures WellFormed(Track(max, ops))
  {
    if ops != [] {
      var before := ops[..|ops| - 1];
      EagerRefinesLazy(max, before);
      FollowKeepsWellFormed(max, Track(max, before), ops[|ops| - 1]);
      FollowIsStep(max, Track(max, before), ops[|ops| - 1]);
    }
  }
}
