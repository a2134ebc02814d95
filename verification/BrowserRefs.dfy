/**
 The browser capability registry as a function of its reference map: lookups,
 the eager `retain` sweeps, minting, and one step per public operation.
 */
module BrowserRefs {
  import opened Common

  const MAX_BROWSER_BACKEND_REF_BYTES: nat := 4 * 1024
  const MINT_ATTEMPTS: nat := 4

  /** An opaque public reference. */
  type Id = string

  /** The random identifiers drawn by one call of `mint`. */
  type Draws = d: seq<Id> | |d| == MINT_ATTEMPTS witness ["", "", "", ""]

  datatype Action = Click | Type | Pointer | Scroll | Upload

  datatype Kind = Target | Tab | Snapshot | ActionElement | ContentElement | Continuation | Dialog {
    predicate SnapshotBound() {
      Snapshot? || ActionElement? || ContentElement? || Continuation?
    }

    /** The kinds that live inside one snapshot. */
    predicate Page() {
      ActionElement? || ContentElement? || Continuation?
    }
  }

  /** The parts of an interaction context that fence a reference. */
  datatype Context = Context(id: string, deviceId: string, generation: u64, revision: u64)

  datatype BackendRef = BackendRef(
    publicRef: Id,
    context: Context,
    kind: Kind,
    backend: string,
    target: Option<Id>,
    tab: Option<Id>,
    snapshot: Option<Id>,
    actions: seq<Action>,
    singleUse: bool)

  type Refs = map<Id, BackendRef>

  datatype Error =
    | InvalidLimit
    | InvalidBackendRef
    | RefLimitExceeded
    | IdentifierCollision
    | UnknownRef
    | ContextMismatch
    | GenerationMismatch
    | CapabilityRevisionMismatch
    | KindMismatch
    | RelationMismatch
    | ActionUnavailable

  datatype TargetTab = TargetTab(backendTarget: string, backendTab: string)
  datatype PageRef = PageRef(backend: string, kind: Kind)

  // ---------------------------------------------------------------- lookups

  function RequireOwned(refs: Refs, r: Id, c: Context): Result<BackendRef, Error> {
    if r !in refs then Failure(UnknownRef)
    else
      var x := refs[r];
      if x.publicRef != r || x.context.id != c.id || x.context.deviceId != c.deviceId then Failure(ContextMismatch)
      else if x.context.generation != c.generation then Failure(GenerationMismatch)
      else if x.context.revision != c.revision then Failure(CapabilityRevisionMismatch)
      else Success(x)
  }

  function RequireKind(refs: Refs, r: Id, c: Context, expected: Kind): Result<BackendRef, Error> {
    match RequireOwned(refs, r, c)
    case Failure(e) => Failure(e)
    case Success(x) => if x.kind != expected then Failure(KindMismatch) else Success(x)
  }

  function ResolveTargetTab(refs: Refs, c: Context, target: Id, tab: Id): Result<TargetTab, Error> {
    match RequireKind(refs, target, c, Target)
    case Failure(e) => Failure(e)
    case Success(x) =>
      match RequireKind(refs, tab, c, Tab)
      case Failure(e) => Failure(e)
      case Success(y) =>
        if y.target != Some(target) then Failure(RelationMismatch) else Success(TargetTab(x.backend, y.backend))
  }

  function RequireSnapshot(refs: Refs, c: Context, target: Id, tab: Id, snapshot: Id): Result<(), Error> {
    match ResolveTargetTab(refs, c, target, tab)
    case Failure(e) => Failure(e)
    case Success(_) =>
      match RequireKind(refs, snapshot, c, Snapshot)
      case Failure(e) => Failure(e)
      case Success(x) =>
        if x.target != Some(target) || x.tab != Some(tab) then Failure(RelationMismatch) else Success(())
  }

  function ResolvePage(refs: Refs, c: Context, target: Id, tab: Id, r: Id, allowed: set<Kind>): Result<PageRef, Error> {
    match ResolveTargetTab(refs, c, target, tab)
    case Failure(e) => Failure(e)
    case Success(_) =>
      match RequireOwned(refs, r, c)
      case Failure(e) => Failure(e)
      case Success(x) =>
        if x.kind !in allowed then Failure(KindMismatch)
        else if x.target != Some(target) || x.tab != Some(tab) then Failure(RelationMismatch)
        else if x.snapshot.None? then Failure(RelationMismatch)
        else
          match RequireSnapshot(refs, c, target, tab, x.snapshot.value)
          case Failure(e) => Failure(e)
          case Success(_) => Success(PageRef(x.backend, x.kind))
  }

  function ResolveAnyAction(refs: Refs, c: Context, target: Id, tab: Id, r: Id, allowed: seq<Action>): Result<PageRef, Error> {
    if allowed == [] then Failure(ActionUnavailable)
    else
      match ResolvePage(refs, c, target, tab, r, {ActionElement})
      case Failure(e) => Failure(e)
      case Success(page) =>
        match RequireOwned(refs, r, c)
        case Failure(e) => Failure(e)
        case Success(x) => if exists a | a in allowed :: a in x.actions then Success(page) else Failure(ActionUnavailable)
  }

  function ResolveDialog(refs: Refs, c: Context, target: Id, tab: Id, r: Id): Result<PageRef, Error> {
    match ResolveTargetTab(refs, c, target, tab)
    case Failure(e) => Failure(e)
    case Success(_) =>
      match RequireKind(refs, r, c, Dialog)
      case Failure(e) => Failure(e)
      case Success(x) =>
        if x.target != Some(target) || x.tab != Some(tab) then Failure(RelationMismatch)
        else Success(PageRef(x.backend, x.kind))
  }

  // ----------------------------------------------------------------- sweeps

  function SweepPage(refs: Refs, c: Context, target: Id, tab: Id): Refs {
    map r | r in refs
            && !(refs[r].context == c && refs[r].target == Some(target) && refs[r].tab == Some(tab) && refs[r].kind.SnapshotBound())
      :: refs[r]
  }

  function SweepDialogs(refs: Refs, c: Context, target: Id, tab: Id): Refs {
    map r | r in refs
            && (refs[r].context.id != c.id || refs[r].target != Some(target) || refs[r].tab != Some(tab) || refs[r].kind != Dialog)
      :: refs[r]
  }

  function SweepContext(refs: Refs, id: string): Refs {
    map r | r in refs && refs[r].context.id != id :: refs[r]
  }

  function SweepGeneration(refs: Refs, device: string, generation: u64): Refs {
    map r | r in refs && (refs[r].context.deviceId != device || refs[r].context.generation == generation) :: refs[r]
  }

  function SweepRevision(refs: Refs, device: string, revision: u64): Refs {
    map r | r in refs && (refs[r].context.deviceId != device || refs[r].context.revision == revision) :: refs[r]
  }

  function Discard(refs: Refs, gone: seq<Id>): Refs {
    map r | r in refs && r !in gone :: refs[r]
  }

  // ---------------------------------------------------------------- minting

  function Rank(a: Action): nat {
    match a case Click => 0 case Type => 1 case Pointer => 2 case Scroll => 3 case Upload => 4
  }

  /** Stable insertion by rank; folding it over a list is `sort_by_key`. */
  function InsertByRank(a: Action, sorted: seq<Action>): seq<Action> {
    if sorted == [] || Rank(a) <= Rank(sorted[0]) then [a] + sorted else [sorted[0]] + InsertByRank(a, sorted[1..])
  }

  function SortByRank(s: seq<Action>): seq<Action> {
    if s == [] then [] else InsertByRank(s[0], SortByRank(s[1..]))
  }

  /** `Vec::dedup`: drops every element equal to its predecessor. */
  function Dedup(s: seq<Action>): seq<Action> {
    if |s| <= 1 then s else if s[0] == s[1] then Dedup(s[1..]) else [s[0]] + Dedup(s[1..])
  }

  predicate ValidBackend(value: string) {
    value != "" && ByteLength(value) <= MAX_BROWSER_BACKEND_REF_BYTES && forall c | c in value :: !IsControl(c)
  }

  function OfContext(refs: Refs, id: string): set<Id> {
    set r | r in refs && refs[r].context.id == id
  }

  function FirstFree(refs: Refs, draws: seq<Id>): Option<Id> {
    if draws == [] then None else if draws[0] !in refs then Some(draws[0]) else FirstFree(refs, draws[1..])
  }

  /** The identifier `mint` would insert, or why it refuses. */
  function Admit(max: nat, refs: Refs, c: Context, backend: string, draws: seq<Id>): Result<Id, Error> {
    if !ValidBackend(backend) then Failure(InvalidBackendRef)
    else if |OfContext(refs, c.id)| >= max then Failure(RefLimitExceeded)
    else match FirstFree(refs, draws) case None => Failure(IdentifierCollision) case Some(id) => Success(id)
  }

  datatype Reply = Minted(ref: Id) | Done | Consumed(backend: string) | Refused(error: Error)

  function Mint(max: nat, refs: Refs, draft: BackendRef, draws: seq<Id>): (Refs, Reply) {
    match Admit(max, refs, draft.context, draft.backend, draws)
    case Failure(e) => (refs, Refused(e))
    case Success(id) => (refs[id := draft.(publicRef := id)], Minted(id))
  }

  function TargetDraft(c: Context, backend: string): BackendRef {
    BackendRef("", c, Target, backend, None, None, None, [], false)
  }

  function TabDraft(c: Context, target: Id, backend: string): BackendRef {
    BackendRef("", c, Tab, backend, Some(target), None, None, [], false)
  }

  function SnapshotDraft(c: Context, target: Id, tab: Id, backend: string): BackendRef {
    BackendRef("", c, Snapshot, backend, Some(target), Some(tab), None, [], false)
  }

  function DialogDraft(c: Context, target: Id, tab: Id, backend: string): BackendRef {
    BackendRef("", c, Dialog, backend, Some(target), Some(tab), None, [], false)
  }

  function ActionDraft(c: Context, target: Id, tab: Id, snapshot: Id, backend: string, actions: seq<Action>): BackendRef {
    BackendRef("", c, ActionElement, backend, Some(target), Some(tab), Some(snapshot), Dedup(SortByRank(actions)), false)
  }

  function ContentDraft(c: Context, target: Id, tab: Id, snapshot: Id, backend: string): BackendRef {
    BackendRef("", c, ContentElement, backend, Some(target), Some(tab), Some(snapshot), [], false)
  }

  function ContinuationDraft(c: Context, target: Id, tab: Id, snapshot: Id, backend: string): BackendRef {
    BackendRef("", c, Continuation, backend, Some(target), Some(tab), Some(snapshot), [], true)
  }

  // ------------------------------------------------------------- operations

  datatype Op =
    | MintTarget(c: Context, backend: string, draws: Draws)
    | MintTab(c: Context, target: Id, backend: string, draws: Draws)
    | BeginSnapshot(c: Context, target: Id, tab: Id, backend: string, draws: Draws)
    | MintAction(c: Context, target: Id, tab: Id, snapshot: Id, backend: string, actions: seq<Action>, draws: Draws)
    | MintContent(c: Context, target: Id, tab: Id, snapshot: Id, backend: string, draws: Draws)
    | MintContinuation(c: Context, target: Id, tab: Id, snapshot: Id, backend: string, draws: Draws)
    | MintDialog(c: Context, target: Id, tab: Id, backend: string, draws: Draws)
    | InvalidateTabDialogs(c: Context, target: Id, tab: Id)
    | CompleteDialog(c: Context, target: Id, tab: Id, ref: Id)
    | ConsumeContinuation(c: Context, target: Id, tab: Id, ref: Id)
    | InvalidateTabDocument(c: Context, target: Id, tab: Id)
    | InvalidateContext(id: string)
    | InvalidateGeneration(device: string, generation: u64)
    | InvalidateRevision(device: string, revision: u64)
    | DiscardRefs(gone: seq<Id>)

  /** The lookup each operation performs before it changes anything. */
  function Guard(refs: Refs, op: Op): Option<Error> {
    match op
    case MintTab(c, target, _, _) => ErrorOf(RequireKind(refs, target, c, Target))
    case BeginSnapshot(c, target, tab, _, _) => ErrorOf(ResolveTargetTab(refs, c, target, tab))
    case MintAction(c, target, tab, snapshot, _, actions, _) =>
      var e := ErrorOf(RequireSnapshot(refs, c, target, tab, snapshot));
      if e.None? && actions == [] then Some(ActionUnavailable) else e
    case MintContent(c, target, tab, snapshot, _, _) => ErrorOf(RequireSnapshot(refs, c, target, tab, snapshot))
    case MintContinuation(c, target, tab, snapshot, _, _) => ErrorOf(RequireSnapshot(refs, c, target, tab, snapshot))
    case MintDialog(c, target, tab, _, _) => ErrorOf(ResolveTargetTab(refs, c, target, tab))
    case InvalidateTabDialogs(c, target, tab) => ErrorOf(ResolveTargetTab(refs, c, target, tab))
    case CompleteDialog(c, target, tab, r) => ErrorOf(ResolveDialog(refs, c, target, tab, r))
    case ConsumeContinuation(c, target, tab, r) =>
      var e := ErrorOf(ResolvePage(refs, c, target, tab, r, {Continuation}));
      if e.None? && !refs[r].singleUse then Some(KindMismatch) else e
    case InvalidateTabDocument(c, target, tab) => ErrorOf(ResolveTargetTab(refs, c, target, tab))
    case _ => None
  }

  function ErrorOf<T>(r: Result<T, Error>): Option<Error> {
    match r case Success(_) => None case Failure(e) => Some(e)
  }

  /** What a minting operation removes between its guard and its mint. */
  function PreSweep(refs: Refs, op: Op): Refs {
    match op
    case BeginSnapshot(c, target, tab, _, _) => SweepPage(refs, c, target, tab)
    case MintDialog(c, target, tab, _, _) => SweepDialogs(refs, c, target, tab)
    case _ => refs
  }

  predicate Mints(op: Op) {
    op.MintTarget? || op.MintTab? || op.BeginSnapshot? || op.MintAction? || op.MintContent? || op.MintContinuation? || op.MintDialog?
  }

  function DraftOf(op: Op): BackendRef
    requires Mints(op)
  {
    match op
    case MintTarget(c, backend, _) => TargetDraft(c, backend)
    case MintTab(c, target, backend, _) => TabDraft(c, target, backend)
    case BeginSnapshot(c, target, tab, backend, _) => SnapshotDraft(c, target, tab, backend)
    case MintAction(c, target, tab, snapshot, backend, actions, _) => ActionDraft(c, target, tab, snapshot, backend, actions)
    case MintContent(c, target, tab, snapshot, backend, _) => ContentDraft(c, target, tab, snapshot, backend)
    case MintContinuation(c, target, tab, snapshot, backend, _) => ContinuationDraft(c, target, tab, snapshot, backend)
    case MintDialog(c, target, tab, backend, _) => DialogDraft(c, target, tab, backend)
  }

  /** The whole effect and reply of one call. */
  function Step(max: nat, refs: Refs, op: Op): (Refs, Reply) {
    var refusal := Guard(refs, op);
    if refusal.Some? then (refs, Refused(refusal.value))
    else if Mints(op) then Mint(max, PreSweep(refs, op), DraftOf(op), op.draws)
    else
      match op
      case InvalidateTabDialogs(c, target, tab) => (SweepDialogs(refs, c, target, tab), Done)
      case CompleteDialog(_, _, _, r) => (refs - {r}, Done)
      case ConsumeContinuation(_, _, _, r) => (refs - {r}, if r in refs then Consumed(refs[r].backend) else Refused(UnknownRef))
      case InvalidateTabDocument(c, target, tab) => (SweepDialogs(SweepPage(refs, c, target, tab), c, target, tab), Done)
      case InvalidateContext(id) => (SweepContext(refs, id), Done)
      case InvalidateGeneration(device, generation) => (SweepGeneration(refs, device, generation), Done)
      case InvalidateRevision(device, revision) => (SweepRevision(refs, device, revision), Done)
      case DiscardRefs(gone) => (Discard(refs, gone), Done)
  }

  /** The registry after a whole run of calls from empty. */
  function Run(max: nat, ops: seq<Op>): Refs {
    if ops == [] then map[] else Step(max, Run(max, ops[..|ops| - 1]), ops[|ops| - 1]).0
  }
}
