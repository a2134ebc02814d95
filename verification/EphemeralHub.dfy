/** The Hub registry of ephemeral references as functions of its map. */
module EphemeralHub {
  import opened Common
  import opened Tally

  const MAX_AGENT_LOCATOR_BYTES: nat := 512
  const ID_ATTEMPTS: nat := 8

  type Id = string
  type Draws = d: seq<Id> | |d| == ID_ATTEMPTS witness seq(ID_ATTEMPTS, _ => "")

  datatype Kind = ProcessStdout | ProcessStderr | DirectoryContinuation

  datatype Owner = Owner(issuer: string, subject: string)

  datatype Limits = Limits(maxRefs: nat, maxRefsPerOwner: nat, maxBytesPerOwner: u64, ttlMs: u64) {
    predicate Valid() {
      0 < maxRefs && 0 < maxRefsPerOwner <= maxRefs && 0 < maxBytesPerOwner && 0 < ttlMs
    }
  }

  datatype Binding = Binding(deviceId: string, generation: u64, revision: u64, operationId: Option<string>, kind: Kind)

  datatype Record = Record(
    publicRef: Id,
    owner: Owner,
    binding: Binding,
    locator: string,
    bytes: u64,
    expiresAtMs: u64)

  type Refs = map<Id, Record>

  datatype Error =
    | InvalidLimits
    | InvalidBinding
    | InvalidAgentLocator
    | RefLimitExceeded
    | OwnerRefLimitExceeded
    | OwnerByteLimitExceeded
    | IdentifierCollision
    | UnknownRef
    | Expired
    | OwnerMismatch
    | DeviceMismatch
    | GenerationMismatch
    | CapabilityRevisionMismatch
    | KindMismatch
    | OperationMismatch

  predicate Blank(s: string) {
    forall c | c in s :: IsWhitespace(c)
  }

  predicate ValidBinding(b: Binding) {
    && !Blank(b.deviceId)
    && b.generation != 0
    && b.revision != 0
    && (b.operationId.Some? ==> !Blank(b.operationId.value))
  }

  predicate ValidLocator(s: string) {
    s != "" && ByteLength(s) <= MAX_AGENT_LOCATOR_BYTES && forall c | c in s :: !IsControl(c)
  }

  /** The string shows something: one of its characters is not white space. */
  predicate Shows(s: string) {
    exists c :: c in s && !IsWhitespace(c)
  }

  /** A binding names a device and, if any, an operation that show something, under a positive generation and revision. */
  lemma BindingExactly(b: Binding)
    ensures ValidBinding(b) <==>
      Shows(b.deviceId) && b.generation > 0 && b.revision > 0 && (b.operationId.None? || Shows(b.operationId.value))
  {
  }

  /** A locator has between one and 512 bytes, none of them of a control character. */
  lemma LocatorExactly(s: string)
    ensures ValidLocator(s) <==> 0 < ByteLength(s) <= 512 && forall i | 0 <= i < |s| :: !IsControl(s[i])
  {
    if s != "" {
      assert ByteLength(s) >= Utf8Width(s[0]);
    }
  }

  function Prune(refs: Refs, now: u64): Refs {
    map r | r in refs && now <= refs[r].expiresAtMs :: refs[r]
  }

  function OfOwner(refs: Refs, owner: Owner): set<Id> {
    set r | r in refs && refs[r].owner == owner
  }

  function BytesOfOwner(refs: Refs, owner: Owner): map<Id, nat> {
    map r | r in refs && refs[r].owner == owner :: refs[r].bytes
  }

  /** The true, unbounded byte sum of one owner. */
  ghost function OwnerBytes(refs: Refs, owner: Owner): nat {
    Sum(BytesOfOwner(refs, owner))
  }

  /** What a saturating accumulation of a true sum holds. */
  function Clamp(n: nat): u64 {
    if n <= U64_MAX then n else U64_MAX
  }

  /** Adding one more term to a clamped partial sum, saturating, clamps the longer sum. */
  lemma ClampStep(sum: nat, term: u64)
    ensures SaturatingAdd(Clamp(sum), term) == Clamp(sum + term)
  {
  }

  function FirstFree(refs: Refs, draws: seq<Id>): Option<Id> {
    if draws == [] then None else if draws[0] !in refs then Some(draws[0]) else FirstFree(refs, draws[1..])
  }

  datatype Draft = Draft(owner: Owner, binding: Binding, locator: string, bytes: u64)

  /** Why `mint` refuses, once expired references are gone. */
  ghost function Refusal(limits: Limits, live: Refs, d: Draft, now: u64): Option<Error> {
    if !ValidBinding(d.binding) then Some(InvalidBinding)
    else if !ValidLocator(d.locator) then Some(InvalidAgentLocator)
    else if |live| >= limits.maxRefs then Some(RefLimitExceeded)
    else if |OfOwner(live, d.owner)| >= limits.maxRefsPerOwner then Some(OwnerRefLimitExceeded)
    else if SaturatingAdd(Clamp(OwnerBytes(live, d.owner)), d.bytes) > limits.maxBytesPerOwner then Some(OwnerByteLimitExceeded)
    else if now + limits.ttlMs > U64_MAX then Some(InvalidBinding)
    else None
  }

  ghost function Mint(limits: Limits, refs: Refs, d: Draft, now: u64, draws: Draws): (Refs, Result<Id, Error>) {
    var live := Prune(refs, now);
    match Refusal(limits, live, d, now)
    case Some(e) => (live, Failure(e))
    case None =>
      match FirstFree(live, draws)
      case None => (live, Failure(IdentifierCollision))
      case Some(id) => (live[id := Record(id, d.owner, d.binding, d.locator, d.bytes, now + limits.ttlMs)], Success(id))
  }

  /** `resolve_owned`: an expired reference is removed by the lookup that finds it. */
  function ResolveOwned(refs: Refs, r: Id, owner: Owner, b: Binding, now: u64): (Refs, Result<Record, Error>) {
    if r !in refs then (refs, Failure(UnknownRef))
    else if now > refs[r].expiresAtMs then (refs - {r}, Failure(Expired))
    else
      var x := refs[r];
      (refs,
       if x.publicRef != r then Failure(UnknownRef)
       else if x.owner != owner then Failure(OwnerMismatch)
       else if x.binding.deviceId != b.deviceId then Failure(DeviceMismatch)
       else if x.binding.generation != b.generation then Failure(GenerationMismatch)
       else if x.binding.revision != b.revision then Failure(CapabilityRevisionMismatch)
       else Success(x))
  }

  function Resolve(refs: Refs, r: Id, owner: Owner, b: Binding, now: u64): (Refs, Result<Record, Error>) {
    var (after, found) := ResolveOwned(refs, r, owner, b, now);
    match found
    case Failure(e) => (after, Failure(e))
    case Success(x) =>
      (after,
       if x.binding.kind != b.kind then Failure(KindMismatch)
       else if x.binding.operationId != b.operationId then Failure(OperationMismatch)
       else Success(x))
  }

  function SweepGeneration(refs: Refs, device: string, generation: u64): Refs {
    map r | r in refs && (refs[r].binding.deviceId != device || refs[r].binding.generation == generation) :: refs[r]
  }

  function SweepRevision(refs: Refs, device: string, revision: u64): Refs {
    map r | r in refs && (refs[r].binding.deviceId != device || refs[r].binding.revision == revision) :: refs[r]
  }

  datatype Op =
    | DoMint(draft: Draft, draws: Draws)
    | DoResolve(ref: Id, owner: Owner, binding: Binding)
    | DoRemove(ref: Id, owner: Owner)
    | DoPrune
    | DoGeneration(device: string, generation: u64)
    | DoRevision(device: string, revision: u64)

  /** An operation and the clock reading it is called with. */
  datatype Timed = Timed(op: Op, at: u64)

  datatype Reply = Minted(ref: Id) | Resolved(record: Record) | Removed(found: bool) | Swept(removed: nat) | Refused(error: Error)

  ghost function Step(limits: Limits, refs: Refs, t: Timed): (Refs, Reply) {
    match t.op
    case DoMint(d, draws) =>
      var (after, r) := Mint(limits, refs, d, t.at, draws);
      (after, match r case Success(id) => Minted(id) case Failure(e) => Refused(e))
    case DoResolve(ref, owner, b) =>
      var (after, r) := Resolve(refs, ref, owner, b, t.at);
      (after, match r case Success(x) => Resolved(x) case Failure(e) => Refused(e))
    case DoRemove(ref, owner) =>
      if ref in refs && refs[ref].owner == owner then (refs - {ref}, Removed(true)) else (refs, Removed(false))
    case DoPrune => (Prune(refs, t.at), Swept(Dropped(refs, Prune(refs, t.at))))
    case DoGeneration(device, generation) =>
      (SweepGeneration(refs, device, generation), Swept(Dropped(refs, SweepGeneration(refs, device, generation))))
    case DoRevision(device, revision) =>
      (SweepRevision(refs, device, revision), Swept(Dropped(refs, SweepRevision(refs, device, revision))))
  }

  /** How many references a sweep took: the difference of the two sizes, as the source returns it. */
  function Dropped(before: Refs, after: Refs): nat {
    if |after| <= |before| then |before| - |after| else 0
  }

  ghost function Run(limits: Limits, ops: seq<Timed>): Refs {
    if ops == [] then map[] else Step(limits, Run(limits, ops[..|ops| - 1]), ops[|ops| - 1]).0
  }

  // ------------------------------------------------------------------ budgets

  ghost predicate WithinCounts(limits: Limits, refs: Refs) {
    && |refs| <= limits.maxRefs
    && (forall o {:trigger OfOwner(refs, o)} :: |OfOwner(refs, o)| <= limits.maxRefsPerOwner)
  }

  ghost predicate WithinBytes(limits: Limits, refs: Refs) {
    forall o {:trigger OwnerBytes(refs, o)} :: OwnerBytes(refs, o) <= limits.maxBytesPerOwner
  }

  lemma {:induction false} FirstFreeIsDrawn(refs: Refs, draws: seq<Id>)
    ensures FirstFree(refs, draws).Some? ==> FirstFree(refs, draws).value !in refs
    ensures FirstFree(refs, draws).Some? ==> FirstFree(refs, draws).value in draws
    ensures FirstFree(refs, draws).None? ==> forall d | d in draws :: d in refs
  {
    if draws != [] {
      FirstFreeIsDrawn(refs, draws[1..]);
    }
  }

  predicate Within(smaller: Refs, refs: Refs) {
    forall r | r in smaller :: r in refs && refs[r] == smaller[r]
  }

  lemma FewerFits(limits: Limits, smaller: Refs, refs: Refs)
    requires Within(smaller, refs)
    ensures WithinCounts(limits, refs) ==> WithinCounts(limits, smaller)
    ensures WithinBytes(limits, refs) ==> WithinBytes(limits, smaller)
  {
    SubsetIsSmaller(smaller.Keys, refs.Keys);
    forall o
      ensures |OfOwner(smaller, o)| <= |OfOwner(refs, o)|
      ensures OwnerBytes(smaller, o) <= OwnerBytes(refs, o)
    {
      SubsetIsSmaller(OfOwner(smaller, o), OfOwner(refs, o));
      SumShrinks(BytesOfOwner(smaller, o), BytesOfOwner(refs, o));
    }
  }

  lemma InsertAddsBytes(refs: Refs, id: Id, x: Record, o: Owner)
    requires id !in refs
    ensures OwnerBytes(refs[id := x], o) == OwnerBytes(refs, o) + if x.owner == o then x.bytes else 0
  {
    var before, after := BytesOfOwner(refs, o), BytesOfOwner(refs[id := x], o);
    if x.owner == o {
      assert after == before[id := x.bytes];
      SumInsert(before, id, x.bytes);
    } else {
      assert after == before;
    }
  }

  lemma InsertAddsCount(refs: Refs, id: Id, x: Record, o: Owner)
    requires id !in refs
    ensures |OfOwner(refs[id := x], o)| == |OfOwner(refs, o)| + if x.owner == o then 1 else 0
  {
    var before, after := OfOwner(refs, o), OfOwner(refs[id := x], o);
    assert after == if x.owner == o then before + {id} else before;
  }

  /** One more reference of `x.owner`: exactly one more count and its bytes, for that owner only. */
  lemma InsertTallies(refs: Refs, id: Id, x: Record, o: Owner)
    requires id !in refs
    ensures OwnerBytes(refs[id := x], o) == OwnerBytes(refs, o) + if x.owner == o then x.bytes else 0
    ensures |OfOwner(refs[id := x], o)| == |OfOwner(refs, o)| + if x.owner == o then 1 else 0
  {
    InsertAddsBytes(refs, id, x, o);
    InsertAddsCount(refs, id, x, o);
  }

  lemma InsertFitsCounts(limits: Limits, live: Refs, id: Id, x: Record)
    requires WithinCounts(limits, live) && id !in live
    requires |live| < limits.maxRefs && |OfOwner(live, x.owner)| < limits.maxRefsPerOwner
    ensures WithinCounts(limits, live[id := x])
  {
    var after := live[id := x];
    forall o
      ensures |OfOwner(after, o)| <= limits.maxRefsPerOwner
    {
      InsertTallies(live, id, x, o);
    }
    assert after.Keys == live.Keys + {id};
  }

  lemma MintFitsCounts(limits: Limits, refs: Refs, d: Draft, now: u64, draws: Draws)
    requires WithinCounts(limits, refs)
    ensures WithinCounts(limits, Mint(limits, refs, d, now, draws).0)
  {
    var live := Prune(refs, now);
    FewerFits(limits, live, refs);
    FirstFreeIsDrawn(live, draws);
    var (after, r) := Mint(limits, refs, d, now, draws);
    if r.Success? {
      InsertFitsCounts(limits, live, r.value, after[r.value]);
    }
  }

  /** Below the largest u64, the clamped comparison decides like the exact one. */
  lemma MintFitsBytes(limits: Limits, refs: Refs, d: Draft, now: u64, draws: Draws)
    requires WithinBytes(limits, refs) && limits.maxBytesPerOwner < U64_MAX
    ensures WithinBytes(limits, Mint(limits, refs, d, now, draws).0)
  {
    var live := Prune(refs, now);
    FewerFits(limits, live, refs);
    FirstFreeIsDrawn(live, draws);
    var (after, r) := Mint(limits, refs, d, now, draws);
    if r.Success? {
      forall o
        ensures OwnerBytes(after, o) <= limits.maxBytesPerOwner
      {
        InsertTallies(live, r.value, after[r.value], o);
      }
    }
  }

  lemma StepFits(limits: Limits, refs: Refs, t: Timed)
    requires WithinCounts(limits, refs)
    ensures WithinCounts(limits, Step(limits, refs, t).0)
    ensures WithinBytes(limits, refs) && limits.maxBytesPerOwner < U64_MAX ==> WithinBytes(limits, Step(limits, refs, t).0)
  {
    if t.op.DoMint? {
      MintFitsCounts(limits, refs, t.op.draft, t.at, t.op.draws);
      if WithinBytes(limits, refs) && limits.maxBytesPerOwner < U64_MAX {
        MintFitsBytes(limits, refs, t.op.draft, t.at, t.op.draws);
      }
    } else {
      FewerFits(limits, Step(limits, refs, t).0, refs);
    }
  }

  /** Reference counts hold in every reachable state; byte sums too when the limit can be exceeded by a u64. */
  lemma {:induction false} EveryRunFits(limits: Limits, ops: seq<Timed>)
    ensures WithinCounts(limits, Run(limits, ops))
    ensures limits.maxBytesPerOwner < U64_MAX ==> WithinBytes(limits, Run(limits, ops))
  {
    if ops == [] {
      forall o
        ensures |OfOwner(map[], o)| <= limits.maxRefsPerOwner && OwnerBytes(map[], o) == 0
      {
        assert OfOwner(map[], o) == {};
        assert BytesOfOwner(map[], o) == map[];
      }
    } else {
      EveryRunFits(limits, ops[..|ops| - 1]);
      StepFits(limits, Run(limits, ops[..|ops| - 1]), ops[|ops| - 1]);
    }
  }

  // ------------------------------------------- when the byte budget is exact

  /** The saturating comparison of `mint` decides every true sum like exact arithmetic iff the limit is below the largest u64. */
  lemma SaturatingCheckIsExactIff(limit: u64)
    ensures (forall total: nat, bytes: u64 {:trigger SaturatingAdd(Clamp(total), bytes)} ::
               SaturatingAdd(Clamp(total), bytes) > limit <==> total + bytes > limit)
       <==> limit < U64_MAX
  {
    if limit == U64_MAX {
      assert SaturatingAdd(Clamp(U64_MAX), 1) <= limit;
    }
  }

  /** A mint that passes every check of a registry with the widest byte limit. */
  function Flood(id: Id): Timed {
    Timed(DoMint(Draft(Owner("i", "s"), Binding("d", 1, 1, None, ProcessStdout), "l", U64_MAX), seq(ID_ATTEMPTS, _ => id)), 0)
  }

  lemma FloodIsValid(id: Id)
    ensures ValidBinding(Flood(id).op.draft.binding) && ValidLocator(Flood(id).op.draft.locator)
  {
    assert !IsWhitespace("d"[0]) && !Blank("d");
    assert ByteLength("l") == 1 + ByteLength("l"[1..]);
  }

  lemma FloodIsAdmitted(limits: Limits, refs: Refs, id: Id)
    requires limits.maxBytesPerOwner == U64_MAX && id !in refs
    requires |refs| < limits.maxRefs && |OfOwner(refs, Owner("i", "s"))| < limits.maxRefsPerOwner
    ensures var d := Flood(id).op.draft;
      Step(limits, refs, Flood(id)).0 == refs[id := Record(id, d.owner, d.binding, d.locator, d.bytes, limits.ttlMs)]
  {
    FloodIsValid(id);
    assert Prune(refs, 0) == refs;
    assert Flood(id).op.draws[0] == id;
  }

  lemma FloodMints(limits: Limits, refs: Refs, id: Id)
    requires limits.maxBytesPerOwner == U64_MAX && id !in refs
    requires |refs| < limits.maxRefs && |OfOwner(refs, Owner("i", "s"))| < limits.maxRefsPerOwner
    ensures Step(limits, refs, Flood(id)).0.Keys == refs.Keys + {id}
    ensures OwnerBytes(Step(limits, refs, Flood(id)).0, Owner("i", "s")) == OwnerBytes(refs, Owner("i", "s")) + U64_MAX
    ensures |OfOwner(Step(limits, refs, Flood(id)).0, Owner("i", "s"))| == |OfOwner(refs, Owner("i", "s"))| + 1
  {
    FloodIsAdmitted(limits, refs, id);
    var d := Flood(id).op.draft;
    InsertTallies(refs, id, Record(id, d.owner, d.binding, d.locator, d.bytes, limits.ttlMs), d.owner);
  }

  lemma OneRefFits(limits: Limits, refs: Refs)
    requires WithinCounts(limits, refs) && limits.maxRefsPerOwner == 1
    ensures forall o :: OwnerBytes(refs, o) <= U64_MAX
  {
    forall o
      ensures OwnerBytes(refs, o) <= U64_MAX
    {
      var m := BytesOfOwner(refs, o);
      assert m.Keys == OfOwner(refs, o);
      SumBound(m, U64_MAX);
      assert |m| <= 1;
    }
  }

  lemma RunOfTwo(limits: Limits, s: Timed, t: Timed)
    ensures Run(limits, [s, t]) == Step(limits, Step(limits, map[], s).0, t).0
  {
    assert [s, t][..1] == [s] && [s][..0] == [];
    assert Run(limits, [s]) == Step(limits, Run(limits, []), s).0;
  }

  /** Two references of the widest size overrun the widest limit. */
  lemma WidestLimitOverruns(limits: Limits)
    requires limits.Valid() && limits.maxBytesPerOwner == U64_MAX && limits.maxRefsPerOwner >= 2
    ensures !WithinBytes(limits, Run(limits, [Flood("a"), Flood("b")]))
  {
    var o, first, second := Owner("i", "s"), Flood("a"), Flood("b");
    assert BytesOfOwner(map[], o) == map[] && OfOwner(map[], o) == {};
    FloodMints(limits, map[], "a");
    var one := Step(limits, map[], first).0;
    assert one.Keys == {"a"} && |one| == 1;
    assert "b" !in one by {
      assert "a"[0] != "b"[0];
    }
    FloodMints(limits, one, "b");
    RunOfTwo(limits, first, second);
    assert OwnerBytes(Run(limits, [first, second]), o) > limits.maxBytesPerOwner;
  }

  /**
   Every run keeps every owner's true byte sum within the limit, so that the saturating
   loop of `mint` decides like an exact sum, if and only if the limit is below the largest
   u64 or an owner may hold only one reference.
   */
  lemma ByteBudgetIsExactIff(limits: Limits)
    requires limits.Valid()
    ensures (forall ops :: WithinBytes(limits, Run(limits, ops))) <==> (limits.maxBytesPerOwner < U64_MAX || limits.maxRefsPerOwner == 1)
  {
    if limits.maxBytesPerOwner < U64_MAX || limits.maxRefsPerOwner == 1 {
      forall ops
        ensures WithinBytes(limits, Run(limits, ops))
      {
        EveryRunFits(limits, ops);
        if limits.maxBytesPerOwner == U64_MAX {
          OneRefFits(limits, Run(limits, ops));
        }
      }
    } else {
      WidestLimitOverruns(limits);
    }
  }

  // ----------------------------------------------------- pruning is invisible

  /** `pruned` lacks only references of `full` that had expired by `clock`. */
  ghost predicate Pruned(full: Refs, pruned: Refs, clock: u64) {
    && Within(pruned, full)
    && (forall r {:trigger r in full} | r in full && r !in pruned :: full[r].expiresAtMs < clock)
  }

  /**
   Replies that a caller cannot tell apart, except for what is said of references that had
   expired: they may be unknown instead, be found no more by `remove`, and go uncounted by sweeps.
   */
  predicate Alike(op: Op, full: Reply, pruned: Reply) {
    match op
    case DoMint(_, _) => full == pruned
    case DoResolve(_, _, _) => full == pruned || (full == Refused(Expired) && pruned == Refused(UnknownRef))
    case DoRemove(_, _) => full == pruned || (full == Removed(true) && pruned == Removed(false))
    case _ => full.Swept? && pruned.Swept? && pruned.removed <= full.removed
  }

  /** A sweep keeps entries by their own content only, so from fewer entries it takes no more. */
  ghost predicate SweptAlike(before: Refs, after: Refs, fewer: Refs, fewerAfter: Refs) {
    && Within(after, before) && Within(fewerAfter, fewer) && Within(fewer, before)
    && (forall r | r in fewer && r !in fewerAfter :: r !in after)
  }

  lemma FewerAreDropped(before: Refs, after: Refs, fewer: Refs, fewerAfter: Refs)
    requires SweptAlike(before, after, fewer, fewerAfter)
    ensures Dropped(fewer, fewerAfter) <= Dropped(before, after)
  {
    DroppedIsTheDifference(before, after);
    DroppedIsTheDifference(fewer, fewerAfter);
    SubsetIsSmaller(fewer.Keys - fewerAfter.Keys, before.Keys - after.Keys);
  }

  lemma DroppedIsTheDifference(before: Refs, after: Refs)
    requires Within(after, before)
    ensures Dropped(before, after) == |before.Keys - after.Keys|
  {
    assert before.Keys == (before.Keys - after.Keys) + after.Keys;
    assert |before.Keys| == |before.Keys - after.Keys| + |after.Keys|;
  }

  lemma SweepsDropFewer(limits: Limits, full: Refs, pruned: Refs, t: Timed)
    requires Within(pruned, full) && (t.op.DoPrune? || t.op.DoGeneration? || t.op.DoRevision?)
    ensures Alike(t.op, Step(limits, full, t).1, Step(limits, pruned, t).1)
  {
    FewerAreDropped(full, Step(limits, full, t).0, pruned, Step(limits, pruned, t).0);
  }

  lemma PruneAgrees(full: Refs, pruned: Refs, clock: u64, now: u64)
    requires Pruned(full, pruned, clock) && clock <= now
    ensures Prune(full, now) == Prune(pruned, now)
  {
  }

  lemma StepsStayAlike(limits: Limits, full: Refs, pruned: Refs, clock: u64, t: Timed)
    requires Pruned(full, pruned, clock) && clock <= t.at
    ensures Pruned(Step(limits, full, t).0, Step(limits, pruned, t).0, t.at)
    ensures Alike(t.op, Step(limits, full, t).1, Step(limits, pruned, t).1)
  {
    PruneAgrees(full, pruned, clock, t.at);
    if t.op.DoPrune? || t.op.DoGeneration? || t.op.DoRevision? {
      SweepsDropFewer(limits, full, pruned, t);
    }
  }

  lemma SameIsAlike(limits: Limits, refs: Refs, t: Timed)
    ensures Alike(t.op, Step(limits, refs, t).1, Step(limits, refs, t).1)
  {
  }

  /** Nothing in a run can expire before one whole lifetime on the clock. */
  lemma {:induction false} LivesAtLeastOneTtl(limits: Limits, ops: seq<Timed>, r: Id)
    requires r in Run(limits, ops)
    ensures limits.ttlMs <= Run(limits, ops)[r].expiresAtMs
  {
    var before, t := Run(limits, ops[..|ops| - 1]), ops[|ops| - 1];
    if r in before {
      LivesAtLeastOneTtl(limits, ops[..|ops| - 1], r);
    }
  }

  lemma EarlyPruneIsIdle(limits: Limits, ops: seq<Timed>, early: u64)
    requires early <= limits.ttlMs
    ensures Prune(Run(limits, ops), early) == Run(limits, ops)
  {
    forall r | r in Run(limits, ops)
      ensures early <= Run(limits, ops)[r].expiresAtMs
    {
      LivesAtLeastOneTtl(limits, ops, r);
    }
  }

  /** A mint of no bytes, which an empty registry always admits. */
  function Probe(at: u64): Timed {
    Timed(DoMint(Flood("x").op.draft.(bytes := 0), seq(ID_ATTEMPTS, _ => "x")), at)
  }

  lemma ProbeIsAdmitted(limits: Limits, at: u64)
    requires limits.Valid() && at + limits.ttlMs <= U64_MAX
    ensures var d := Probe(at).op.draft;
      Run(limits, [Probe(at)]) == map["x" := Record("x", d.owner, d.binding, d.locator, 0, at + limits.ttlMs)]
  {
    FloodIsValid("x");
    var d := Probe(at).op.draft;
    assert Prune(map[], at) == map[] && OfOwner(map[], d.owner) == {} && BytesOfOwner(map[], d.owner) == map[];
    assert Probe(at).op.draws[0] == "x";
    assert [Probe(at)][..0] == [];
  }

  /** One mint whose reference is live at `t` and gone by `early`, and a lookup of it at `t`. */
  lemma PruneAheadIsNoticed(limits: Limits, early: u64, t: u64)
    requires limits.Valid() && t < early && limits.ttlMs < early
    ensures exists ops, op :: !Alike(op, Step(limits, Run(limits, ops), Timed(op, t)).1, Step(limits, Prune(Run(limits, ops), early), Timed(op, t)).1)
  {
    var at := if t <= limits.ttlMs then 0 else t - limits.ttlMs;
    var ops := [Probe(at)];
    ProbeIsAdmitted(limits, at);
    var d := Probe(at).op.draft;
    var op := DoResolve("x", d.owner, d.binding);
    assert Prune(Run(limits, ops), early) == map[];
    assert Step(limits, Run(limits, ops), Timed(op, t)).1.Resolved?;
    assert Step(limits, Prune(Run(limits, ops), early), Timed(op, t)).1 == Refused(UnknownRef);
  }

  /**
   A prune goes unnoticed by the next call, after every run and for every call, if and only if
   its clock reading is not ahead of that call's or no later than one lifetime after zero.
   */
  lemma PruneIsInvisibleExactlyWhen(limits: Limits, early: u64, t: u64)
    requires limits.Valid()
    ensures (forall ops, op ::
               Alike(op, Step(limits, Run(limits, ops), Timed(op, t)).1, Step(limits, Prune(Run(limits, ops), early), Timed(op, t)).1))
       <==> early <= t || early <= limits.ttlMs
  {
    if early <= t || early <= limits.ttlMs {
      forall ops, op
        ensures Alike(op, Step(limits, Run(limits, ops), Timed(op, t)).1, Step(limits, Prune(Run(limits, ops), early), Timed(op, t)).1)
      {
        var refs := Run(limits, ops);
        if early <= t {
          StepsStayAlike(limits, refs, Prune(refs, early), t, Timed(op, t));
        } else {
          EarlyPruneIsIdle(limits, ops, early);
          SameIsAlike(limits, refs, Timed(op, t));
        }
      }
    } else {
      PruneAheadIsNoticed(limits, early, t);
    }
  }

  lemma ExtraPruneIsPruned(full: Refs, pruned: Refs, clock: u64, extra: u64, now: u64)
    requires Pruned(full, pruned, clock) && clock <= now && extra <= now
    ensures Pruned(full, Prune(pruned, extra), now)
  {
  }

  ghost function Replies(limits: Limits, refs: Refs, ops: seq<Timed>): (replies: seq<Reply>)
    ensures |replies| == |ops|
    decreases |ops|
  {
    if ops == [] then [] else [Step(limits, refs, ops[0]).1] + Replies(limits, Step(limits, refs, ops[0]).0, ops[1..])
  }

  function PruneAll(refs: Refs, times: seq<u64>): Refs {
    if times == [] then refs else PruneAll(Prune(refs, times[0]), times[1..])
  }

  /** The replies to the same operations when `extra[i]` lists prunes called just before operation `i`. */
  ghost function WovenReplies(limits: Limits, refs: Refs, ops: seq<Timed>, extra: seq<seq<u64>>): (replies: seq<Reply>)
    requires |extra| == |ops|
    ensures |replies| == |ops|
    decreases |ops|
  {
    if ops == [] then []
    else
      var step := Step(limits, PruneAll(refs, extra[0]), ops[0]);
      [step.1] + WovenReplies(limits, step.0, ops[1..], extra[1..])
  }

  /** Clock readings never go back, and an inserted prune is not ahead of the next call. */
  predicate Ordered(clock: u64, ops: seq<Timed>, extra: seq<seq<u64>>)
    requires |extra| == |ops|
    decreases |ops|
  {
    ops == [] || (clock <= ops[0].at && (forall e | e in extra[0] :: e <= ops[0].at) && Ordered(ops[0].at, ops[1..], extra[1..]))
  }

  lemma {:induction false} PruneAllIsPruned(full: Refs, pruned: Refs, clock: u64, extra: seq<u64>, now: u64)
    requires Pruned(full, pruned, clock) && clock <= now && forall e | e in extra :: e <= now
    ensures Pruned(full, PruneAll(pruned, extra), now)
    decreases |extra|
  {
    if extra != [] {
      assert extra[0] in extra && forall e | e in extra[1..] :: e in extra;
      ExtraPruneIsPruned(full, pruned, clock, extra[0], now);
      PruneAllIsPruned(full, Prune(pruned, extra[0]), now, extra[1..], now);
    }
  }

  /**
   Inserting any number of prunes anywhere in any run changes no `mint` reply and no
   successful `resolve`; a refused `resolve` may only trade Expired for UnknownRef, a `remove`
   may only miss what it found before, and a sweep may only count fewer.
   */
  lemma {:induction false} PruningIsInvisible(limits: Limits, full: Refs, pruned: Refs, clock: u64, ops: seq<Timed>, extra: seq<seq<u64>>, i: nat)
    requires |extra| == |ops| && Ordered(clock, ops, extra) && Pruned(full, pruned, clock) && i < |ops|
    ensures Alike(ops[i].op, Replies(limits, full, ops)[i], WovenReplies(limits, pruned, ops, extra)[i])
    decreases |ops|
  {
    var t, woven := ops[0], PruneAll(pruned, extra[0]);
    PruneAllIsPruned(full, pruned, clock, extra[0], t.at);
    StepsStayAlike(limits, full, woven, t.at, t);
    FirstReply(limits, full, pruned, ops, extra);
    if i > 0 {
      var f, p := Step(limits, full, t).0, Step(limits, woven, t).0;
      PruningIsInvisible(limits, f, p, t.at, ops[1..], extra[1..], i - 1);
      LaterReply(limits, full, pruned, ops, extra, i);
    }
  }

  lemma FirstReply(limits: Limits, full: Refs, pruned: Refs, ops: seq<Timed>, extra: seq<seq<u64>>)
    requires |extra| == |ops| && ops != []
    ensures Replies(limits, full, ops)[0] == Step(limits, full, ops[0]).1
    ensures WovenReplies(limits, pruned, ops, extra)[0] == Step(limits, PruneAll(pruned, extra[0]), ops[0]).1
  {
  }

  lemma LaterReply(limits: Limits, full: Refs, pruned: Refs, ops: seq<Timed>, extra: seq<seq<u64>>, i: nat)
    requires |extra| == |ops| && 0 < i < |ops|
    ensures Replies(limits, full, ops)[i] == Replies(limits, Step(limits, full, ops[0]).0, ops[1..])[i - 1]
    ensures WovenReplies(limits, pruned, ops, extra)[i]
         == WovenReplies(limits, Step(limits, PruneAll(pruned, extra[0]), ops[0]).0, ops[1..], extra[1..])[i - 1]
  {
  }
}
