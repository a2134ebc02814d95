/** Whose reference a lookup of the Hub returns, and for how long. */
module EphemeralHubLife {
  import opened Common
  import opened EphemeralHub

  /** Call `i` of the run minted `r`, and `x` is what it wrote. */
  ghost predicate MintedAt(limits: Limits, ops: seq<Timed>, i: nat, r: Id, x: Record) {
    && i < |ops| && ops[i].op.DoMint?
    && Step(limits, Run(limits, ops[..i]), ops[i]).1 == Minted(r)
    && x.publicRef == r
    && x.owner == ops[i].op.draft.owner
    && x.binding == ops[i].op.draft.binding
    && x.locator == ops[i].op.draft.locator
    && x.bytes == ops[i].op.draft.bytes
    && x.expiresAtMs == ops[i].at + limits.ttlMs
  }

  /** The calls that end a live reference. A lookup ends only the reference it finds expired. */
  predicate Ends(t: Timed, r: Id, x: Record) {
    match t.op
    case DoMint(_, _) => t.at > x.expiresAtMs
    case DoPrune => t.at > x.expiresAtMs
    case DoResolve(ref, _, _) => ref == r && t.at > x.expiresAtMs
    case DoRemove(ref, owner) => ref == r && owner == x.owner
    case DoGeneration(device, generation) => x.binding.deviceId == device && x.binding.generation != generation
    case DoRevision(device, revision) => x.binding.deviceId == device && x.binding.revision != revision
  }

  lemma MintedRecord(limits: Limits, refs: Refs, t: Timed)
    requires t.op.DoMint? && Step(limits, refs, t).1.Minted?
    ensures var r, d := Step(limits, refs, t).1.ref, t.op.draft;
      && r in t.op.draws && r in Step(limits, refs, t).0
      && t.at + limits.ttlMs <= U64_MAX
      && Step(limits, refs, t).0[r] == Record(r, d.owner, d.binding, d.locator, d.bytes, t.at + limits.ttlMs)
  {
    FirstFreeIsDrawn(Prune(refs, t.at), t.op.draws);
  }

  /** What a step leaves under an identifier was there before, or the step minted it. */
  lemma KeptOrMinted(limits: Limits, refs: Refs, t: Timed, r: Id)
    requires r in Step(limits, refs, t).0
    ensures (t.op.DoMint? && Step(limits, refs, t).1 == Minted(r)) || (r in refs && Step(limits, refs, t).0[r] == refs[r])
  {
  }

  /** Which call minted a record does not depend on the calls after it. */
  lemma MintedAtPrefix(limits: Limits, ops: seq<Timed>, i: nat, r: Id, x: Record)
    requires i < |ops| - 1
    ensures MintedAt(limits, ops[..|ops| - 1], i, r, x) <==> MintedAt(limits, ops, i, r, x)
  {
    var past := ops[..|ops| - 1];
    assert past[..i] == ops[..i];
    assert past[i] == ops[i];
  }

  lemma MintedLast(limits: Limits, past: seq<Timed>, t: Timed, r: Id)
    requires t.op.DoMint? && Step(limits, Run(limits, past), t).1 == Minted(r)
    ensures r in Step(limits, Run(limits, past), t).0
    ensures MintedAt(limits, past + [t], |past|, r, Step(limits, Run(limits, past), t).0[r])
  {
    MintedRecord(limits, Run(limits, past), t);
    assert (past + [t])[..|past|] == past;
  }

  /** Whatever a run holds was written by one of its mints, exactly as it is. */
  lemma {:induction false} PresentWasMinted(limits: Limits, ops: seq<Timed>, r: Id)
    requires r in Run(limits, ops)
    ensures exists i: nat :: MintedAt(limits, ops, i, r, Run(limits, ops)[r])
  {
    var n := |ops| - 1;
    var past, t := ops[..n], ops[n];
    var before := Run(limits, past);
    assert Run(limits, ops) == Step(limits, before, t).0;
    KeptOrMinted(limits, before, t, r);
    if t.op.DoMint? && Step(limits, before, t).1 == Minted(r) {
      assert ops == past + [t];
      MintedLast(limits, past, t, r);
    } else {
      PresentWasMinted(limits, past, r);
      var i: nat :| MintedAt(limits, past, i, r, before[r]);
      MintedAtPrefix(limits, ops, i, r, before[r]);
    }
  }

  /**
   A successful lookup returns a reference that an earlier call of the run minted for that very
   owner, device, generation, revision, operation and kind, and that has not expired.
   */
  lemma ResolvedWasMinted(limits: Limits, ops: seq<Timed>, r: Id, owner: Owner, b: Binding, now: u64)
    requires Resolve(Run(limits, ops), r, owner, b, now).1.Success?
    ensures r in Run(limits, ops) && Run(limits, ops)[r] == Resolve(Run(limits, ops), r, owner, b, now).1.value
    ensures var x := Resolve(Run(limits, ops), r, owner, b, now).1.value;
      x.owner == owner && x.binding == b && now <= x.expiresAtMs && exists i: nat :: MintedAt(limits, ops, i, r, x)
  {
    ResolvedIsItsOwn(Run(limits, ops), r, owner, b, now);
    PresentWasMinted(limits, ops, r);
  }

  lemma ResolvedIsItsOwn(refs: Refs, r: Id, owner: Owner, b: Binding, now: u64)
    ensures Resolve(refs, r, owner, b, now).1.Success? <==>
      r in refs && refs[r].publicRef == r && refs[r].owner == owner && refs[r].binding == b && now <= refs[r].expiresAtMs
    ensures Resolve(refs, r, owner, b, now).1.Success? ==> Resolve(refs, r, owner, b, now) == (refs, Success(refs[r]))
  {
  }

  /** No call after `i` draws the identifier again. */
  predicate NotDrawnAfter(ops: seq<Timed>, i: nat, r: Id) {
    forall j | i < j < |ops| :: ops[j].op.DoMint? ==> r !in ops[j].op.draws
  }

  predicate EndedAfter(ops: seq<Timed>, i: nat, r: Id, x: Record) {
    exists j :: i < j < |ops| && Ends(ops[j], r, x)
  }

  lemma KeptByMint(limits: Limits, refs: Refs, t: Timed, r: Id)
    requires r in refs && t.op.DoMint? && r !in t.op.draws
    ensures var after := Step(limits, refs, t).0;
      (r in after <==> t.at <= refs[r].expiresAtMs) && (r in after ==> after[r] == refs[r])
  {
    FirstFreeIsDrawn(Prune(refs, t.at), t.op.draws);
  }

  lemma KeptUnlessEnded(limits: Limits, refs: Refs, t: Timed, r: Id)
    requires r in refs && (t.op.DoMint? ==> r !in t.op.draws)
    ensures var after := Step(limits, refs, t).0;
      (r in after <==> !Ends(t, r, refs[r])) && (r in after ==> after[r] == refs[r])
  {
    if t.op.DoMint? {
      KeptByMint(limits, refs, t, r);
    }
  }

  lemma AbsentStaysAbsent(limits: Limits, refs: Refs, t: Timed, r: Id)
    requires r !in refs && (t.op.DoMint? ==> r !in t.op.draws)
    ensures r !in Step(limits, refs, t).0
  {
    if t.op.DoMint? {
      FirstFreeIsDrawn(Prune(refs, t.at), t.op.draws);
    }
  }

  /** A minted reference is held, unchanged, exactly until the first call that ends it. */
  lemma {:induction false} HeldExactlyUntilEnded(limits: Limits, ops: seq<Timed>, i: nat, r: Id, x: Record)
    requires MintedAt(limits, ops, i, r, x) && NotDrawnAfter(ops, i, r)
    ensures r in Run(limits, ops) <==> !EndedAfter(ops, i, r, x)
    ensures r in Run(limits, ops) ==> Run(limits, ops)[r] == x
  {
    if i == |ops| - 1 {
      HeldWhenMinted(limits, ops, r, x);
    } else {
      var past, t := ops[..|ops| - 1], ops[|ops| - 1];
      MintedAtPrefix(limits, ops, i, r, x);
      HeldExactlyUntilEnded(limits, past, i, r, x);
      EndedLater(ops, i, r, x);
      HeldOneMoreStep(limits, Run(limits, past), t, r);
    }
  }

  lemma HeldWhenMinted(limits: Limits, ops: seq<Timed>, r: Id, x: Record)
    requires ops != [] && MintedAt(limits, ops, |ops| - 1, r, x)
    ensures r in Run(limits, ops) && Run(limits, ops)[r] == x && !EndedAfter(ops, |ops| - 1, r, x)
  {
    MintedRecord(limits, Run(limits, ops[..|ops| - 1]), ops[|ops| - 1]);
  }

  lemma HeldOneMoreStep(limits: Limits, refs: Refs, t: Timed, r: Id)
    requires t.op.DoMint? ==> r !in t.op.draws
    ensures var after := Step(limits, refs, t).0;
      (r in after <==> r in refs && !Ends(t, r, refs[r])) && (r in after ==> after[r] == refs[r])
  {
    if r in refs {
      KeptUnlessEnded(limits, refs, t, r);
    } else {
      AbsentStaysAbsent(limits, refs, t, r);
    }
  }

  lemma EndedLater(ops: seq<Timed>, i: nat, r: Id, x: Record)
    requires i < |ops| - 1
    ensures EndedAfter(ops, i, r, x) <==> EndedAfter(ops[..|ops| - 1], i, r, x) || Ends(ops[|ops| - 1], r, x)
  {
    var n := |ops| - 1;
    if EndedAfter(ops[..n], i, r, x) {
      var j :| i < j < n && Ends(ops[..n][j], r, x);
      assert Ends(ops[j], r, x);
    }
    if EndedAfter(ops, i, r, x) {
      var j :| i < j < |ops| && Ends(ops[j], r, x);
      assert j < n ==> Ends(ops[..n][j], r, x);
    }
  }

  /**
   After any run a minted reference resolves, to exactly what was minted, if and only if it is
   asked for by its own owner under its own binding, has not expired, and no call since ended it.
   */
  lemma ResolvesExactlyWhileAlive(limits: Limits, ops: seq<Timed>, i: nat, r: Id, x: Record, owner: Owner, b: Binding, now: u64)
    requires MintedAt(limits, ops, i, r, x) && NotDrawnAfter(ops, i, r)
    ensures Resolve(Run(limits, ops), r, owner, b, now).1 == Success(x)
       <==> owner == x.owner && b == x.binding && now <= x.expiresAtMs && !EndedAfter(ops, i, r, x)
  {
    HeldExactlyUntilEnded(limits, ops, i, r, x);
    ResolvedIsItsOwn(Run(limits, ops), r, owner, b, now);
  }

  // -------------------------------------------------------- exact outcomes

  /** The references that have not expired at `now`. */
  function Unexpired(refs: Refs, now: u64): Refs {
    map r | r in refs && refs[r].expiresAtMs >= now :: refs[r]
  }

  /**
   A mint succeeds if and only if binding and locator are valid, both counts leave room among the
   references that have not expired, the owner's bytes fit with the new ones added, the expiry is
   a u64, and a draw is not in use. Each refusal names the first of these that fails.
   */
  ghost predicate MintOutcome(limits: Limits, refs: Refs, d: Draft, now: u64, draws: Draws, r: Result<Id, Error>) {
    var live := Unexpired(refs, now);
    var bound := ValidBinding(d.binding);
    var located := bound && ValidLocator(d.locator);
    var roomy := located && |live| < limits.maxRefs;
    var owned := roomy && |OfOwner(live, d.owner)| < limits.maxRefsPerOwner;
    var fitting := owned && (OwnerBytes(live, d.owner) + d.bytes <= limits.maxBytesPerOwner || limits.maxBytesPerOwner == U64_MAX);
    var timely := fitting && now + limits.ttlMs <= U64_MAX;
    var free := exists id :: id in draws && id !in live;
    && (r.Success? <==> timely && free)
    && (r.Success? ==> r.value in draws && r.value !in live)
    && (r == Failure(InvalidBinding) <==> !bound || (fitting && !timely))
    && (r == Failure(InvalidAgentLocator) <==> bound && !located)
    && (r == Failure(RefLimitExceeded) <==> located && !roomy)
    && (r == Failure(OwnerRefLimitExceeded) <==> roomy && !owned)
    && (r == Failure(OwnerByteLimitExceeded) <==> owned && !fitting)
    && (r == Failure(IdentifierCollision) <==> timely && !free)
  }

  lemma SaturatedSum(limit: u64, total: nat, bytes: u64)
    ensures SaturatingAdd(Clamp(total), bytes) <= limit <==> total + bytes <= limit || limit == U64_MAX
  {
  }

  lemma MintsExactly(limits: Limits, refs: Refs, d: Draft, now: u64, draws: Draws)
    ensures MintOutcome(limits, refs, d, now, draws, Mint(limits, refs, d, now, draws).1)
  {
    var live := Prune(refs, now);
    assert live == Unexpired(refs, now);
    SaturatedSum(limits.maxBytesPerOwner, OwnerBytes(live, d.owner), d.bytes);
    FirstFreeIsDrawn(live, draws);
  }

  /** What a mint leaves: the references that have not expired, and on success the new one. */
  lemma MintLeaves(limits: Limits, refs: Refs, d: Draft, now: u64, draws: Draws)
    ensures var (after, r) := Mint(limits, refs, d, now, draws);
      && (r.Failure? ==> after == Unexpired(refs, now))
      && (r.Success? ==> now + limits.ttlMs <= U64_MAX
                         && after == Unexpired(refs, now)[r.value := Record(r.value, d.owner, d.binding, d.locator, d.bytes, now + limits.ttlMs)])
  {
    assert Prune(refs, now) == Unexpired(refs, now);
  }

  /** Each refusal of a lookup names the first part of the request that the reference does not fit. */
  ghost predicate LookupOutcome(refs: Refs, r: Id, owner: Owner, b: Binding, now: u64, found: Result<Record, Error>) {
    if r !in refs then found == Failure(UnknownRef)
    else
      var x := refs[r];
      var live := now <= x.expiresAtMs;
      var owned := live && x.owner == owner;
      var device := owned && x.binding.deviceId == b.deviceId;
      var generation := device && x.binding.generation == b.generation;
      var revision := generation && x.binding.revision == b.revision;
      var kind := revision && x.binding.kind == b.kind;
      && (found == Failure(Expired) <==> !live)
      && (found == Failure(OwnerMismatch) <==> live && !owned)
      && (found == Failure(DeviceMismatch) <==> owned && !device)
      && (found == Failure(GenerationMismatch) <==> device && !generation)
      && (found == Failure(CapabilityRevisionMismatch) <==> generation && !revision)
      && (found == Failure(KindMismatch) <==> revision && !kind)
      && (found == Failure(OperationMismatch) <==> kind && x.binding.operationId != b.operationId)
      && (found == Success(x) <==> live && x.owner == owner && x.binding == b)
  }

  lemma FiledUnderItsName(limits: Limits, ops: seq<Timed>, r: Id)
    requires r in Run(limits, ops)
    ensures Run(limits, ops)[r].publicRef == r
  {
    PresentWasMinted(limits, ops, r);
  }

  lemma LooksUpExactly(limits: Limits, ops: seq<Timed>, r: Id, owner: Owner, b: Binding, now: u64)
    ensures LookupOutcome(Run(limits, ops), r, owner, b, now, Resolve(Run(limits, ops), r, owner, b, now).1)
  {
    if r in Run(limits, ops) {
      FiledUnderItsName(limits, ops, r);
    }
  }
}
