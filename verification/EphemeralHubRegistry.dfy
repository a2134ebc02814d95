/**
 The Hub registry object, with the quota loop that `mint` runs over its map. It remembers, as
 ghost state, the calls it has served, so the theorems about runs hold of the object.
 */
module EphemeralHubRegistry {
  import opened Common
  import opened Tally
  import opened EphemeralHub
  import opened EphemeralHubLife

  /** `HubEphemeralRefRegistry::new`: no registry exists under invalid limits. */
  method Open(limits: Limits) returns (r: Result<Registry, Error>)
    ensures r.Success? <==> limits.Valid()
    ensures r.Failure? ==> r.error == InvalidLimits
    ensures r.Success? ==> fresh(r.value) && r.value.limits == limits && r.value.Valid() && r.value.ops == []
  {
    if limits.maxRefs == 0 || limits.maxRefsPerOwner == 0 || limits.maxRefsPerOwner > limits.maxRefs
       || limits.maxBytesPerOwner == 0 || limits.ttlMs == 0 {
      return Failure(InvalidLimits);
    }
    var registry := new Registry(limits);
    r := Success(registry);
  }

  /** The loop has visited everything but `left`. */
  ghost predicate Counted(all: map<Id, nat>, left: map<Id, nat>, count: nat, bytes: u64) {
    && left.Keys <= all.Keys && (forall r | r in left :: left[r] == all[r])
    && count + |left.Keys| == |all.Keys|
    && Sum(left) <= Sum(all) && bytes == Clamp(Sum(all) - Sum(left))
  }

  lemma CountOne(all: map<Id, nat>, left: map<Id, nat>, r: Id, count: nat, bytes: u64)
    requires Counted(all, left, count, bytes) && r in left && all[r] <= U64_MAX
    ensures Counted(all, left - {r}, count + 1, SaturatingAdd(bytes, all[r]))
  {
    TakeOne(left, r);
    ClampStep(Sum(all) - Sum(left), all[r]);
  }

  lemma RunExtends(limits: Limits, ops: seq<Timed>, t: Timed)
    ensures Run(limits, ops + [t]) == Step(limits, Run(limits, ops), t).0
  {
    assert (ops + [t])[..|ops|] == ops;
  }

  /** The references that fail a test, which a sweep is to take. */
  function Failing(refs: Refs, keep: Record -> bool): set<Id> {
    set r | r in refs && !keep(refs[r])
  }

  lemma DroppedAreTheFailing(refs: Refs, keep: Record -> bool)
    ensures Dropped(refs, map r | r in refs && keep(refs[r]) :: refs[r]) == |Failing(refs, keep)|
  {
    var after: Refs := map r | r in refs && keep(refs[r]) :: refs[r];
    DroppedIsTheDifference(refs, after);
    assert refs.Keys - after.Keys == Failing(refs, keep);
  }

  class Registry {
    const limits: Limits
    var refs: Refs
    /** Every call served, in order, with its clock reading. */
    ghost var ops: seq<Timed>

    ghost predicate Valid()
      reads this
    {
      refs == Run(limits, ops)
    }

    constructor (limits: Limits)
      ensures this.limits == limits && Valid() && ops == []
    {
      this.limits := limits;
      refs := map[];
      ops := [];
    }

    // ------------------------------------------------------------- private

    /** `HashMap::retain` and the count of what it took. */
    method Retain(keep: Record -> bool) returns (removed: nat)
      modifies this`refs
      ensures refs == map r | r in old(refs) && keep(old(refs)[r]) :: old(refs)[r]
      ensures removed == Dropped(old(refs), refs) == |Failing(old(refs), keep)|
    {
      var before := |refs|;
      var todo := refs.Keys;
      while todo != {}
        invariant todo <= refs.Keys <= old(refs).Keys
        invariant forall r | r in refs :: refs[r] == old(refs)[r]
        invariant forall r | r in old(refs) && r !in todo :: r in refs <==> keep(old(refs)[r])
        decreases |todo|
      {
        var r :| r in todo;
        if !keep(refs[r]) {
          refs := refs - {r};
        }
        todo := todo - {r};
      }
      assert refs == map r | r in old(refs) && keep(old(refs)[r]) :: old(refs)[r];
      DroppedAreTheFailing(old(refs), keep);
      removed := if |refs| <= before then before - |refs| else 0;
    }

    /** The accumulation over one owner's records: exact count, byte sum clamped at the largest u64. */
    method OwnerUsage(owner: Owner) returns (count: nat, bytes: u64)
      ensures count == |OfOwner(refs, owner)|
      ensures bytes == Clamp(OwnerBytes(refs, owner))
    {
      count, bytes := 0, 0;
      var all := BytesOfOwner(refs, owner);
      var left := all;
      assert all.Keys == OfOwner(refs, owner);
      while left.Keys != {}
        invariant Counted(all, left, count, bytes)
        decreases |left.Keys|
      {
        var r :| r in left;
        CountOne(all, left, r, count, bytes);
        count := count + 1;
        bytes := SaturatingAdd(bytes, refs[r].bytes);
        left := left - {r};
      }
      assert left == map[];
    }

    /** The checks and the draw loop of `mint`, once expired references are gone. */
    method Insert(d: Draft, now: u64, draws: Draws) returns (r: Result<Id, Error>)
      requires refs == Prune(refs, now)
      modifies this`refs
      ensures (refs, r) == Mint(limits, old(refs), d, now, draws)
    {
      if !ValidBinding(d.binding) {
        return Failure(InvalidBinding);
      }
      if !ValidLocator(d.locator) {
        return Failure(InvalidAgentLocator);
      }
      if |refs| >= limits.maxRefs {
        return Failure(RefLimitExceeded);
      }
      var ownerRefs, ownerBytes := OwnerUsage(d.owner);
      if ownerRefs >= limits.maxRefsPerOwner {
        return Failure(OwnerRefLimitExceeded);
      }
      if SaturatingAdd(ownerBytes, d.bytes) > limits.maxBytesPerOwner {
        return Failure(OwnerByteLimitExceeded);
      }
      if now + limits.ttlMs > U64_MAX {
        return Failure(InvalidBinding);
      }
      for i := 0 to ID_ATTEMPTS
        invariant refs == old(refs)
        invariant FirstFree(refs, draws) == FirstFree(refs, draws[i..])
      {
        if draws[i] !in refs {
          refs := refs[draws[i] := Record(draws[i], d.owner, d.binding, d.locator, d.bytes, now + limits.ttlMs)];
          return Success(draws[i]);
        }
      }
      r := Failure(IdentifierCollision);
    }

    /** Puts a finished call on record; the map already is what its step leaves. */
    ghost method Log(t: Timed, before: Refs)
      requires before == Run(limits, ops) && refs == Step(limits, before, t).0
      modifies this`ops
      ensures Valid() && ops == old(ops) + [t]
    {
      RunExtends(limits, ops, t);
      ops := ops + [t];
    }

    // --------------------------------------------------------------- public

    method MintRef(d: Draft, now: u64, draws: Draws) returns (r: Result<Id, Error>)
      requires Valid()
      modifies this
      ensures Valid() && ops == old(ops) + [Timed(DoMint(d, draws), now)]
      ensures (refs, r) == Mint(limits, old(refs), d, now, draws)
      ensures MintOutcome(limits, old(refs), d, now, draws, r)
      ensures r.Failure? ==> refs == Unexpired(old(refs), now)
      ensures r.Success? ==> refs == Unexpired(old(refs), now)[r.value := Record(r.value, d.owner, d.binding, d.locator, d.bytes, now + limits.ttlMs)]
      ensures r.Success? ==> r.value in refs && MintedAt(limits, ops, |old(ops)|, r.value, refs[r.value])
      ensures r.Success? ==> Resolve(refs, r.value, d.owner, d.binding, now) == (refs, Success(refs[r.value]))
    {
      r := PruneAndInsert(d, now, draws);
      MintsExactly(limits, old(refs), d, now, draws);
      MintLeaves(limits, old(refs), d, now, draws);
      Log(Timed(DoMint(d, draws), now), old(refs));
      if r.Success? {
        MintedLast(limits, old(ops), Timed(DoMint(d, draws), now), r.value);
        ResolvedIsItsOwn(refs, r.value, d.owner, d.binding, now);
      }
    }

    method PruneAndInsert(d: Draft, now: u64, draws: Draws) returns (r: Result<Id, Error>)
      modifies this`refs
      ensures (refs, r) == Mint(limits, old(refs), d, now, draws)
    {
      var pruned := Retain((x: Record) => now <= x.expiresAtMs);
      assert refs == Prune(old(refs), now) == Prune(refs, now);
      r := Insert(d, now, draws);
    }

    /**
     `resolve`. What it returns was minted, by an earlier call on this object, for that very owner
     and binding, and has not expired; it changes nothing but for an expired reference it finds.
     */
    method ResolveRef(id: Id, owner: Owner, b: Binding, now: u64) returns (r: Result<Record, Error>)
      requires Valid()
      modifies this
      ensures Valid() && ops == old(ops) + [Timed(DoResolve(id, owner, b), now)]
      ensures (refs, r) == Resolve(old(refs), id, owner, b, now)
      ensures LookupOutcome(old(refs), id, owner, b, now, r)
      ensures r.Success? ==> r.value.owner == owner && r.value.binding == b && now <= r.value.expiresAtMs
      ensures r.Success? ==> exists i: nat :: MintedAt(limits, old(ops), i, id, r.value)
      ensures refs == if id in old(refs) && now > old(refs)[id].expiresAtMs then old(refs) - {id} else old(refs)
    {
      r := Lookup(id, owner, b, now);
      Log(Timed(DoResolve(id, owner, b), now), old(refs));
      LooksUpExactly(limits, old(ops), id, owner, b, now);
      if r.Success? {
        ResolvedWasMinted(limits, old(ops), id, owner, b, now);
      }
    }

    /** The tests of `resolve_owned` and `resolve`, in their order. */
    method Lookup(id: Id, owner: Owner, b: Binding, now: u64) returns (r: Result<Record, Error>)
      modifies this`refs
      ensures (refs, r) == Resolve(old(refs), id, owner, b, now)
    {
      if id !in refs {
        return Failure(UnknownRef);
      }
      var record := refs[id];
      if now > record.expiresAtMs {
        refs := refs - {id};
        return Failure(Expired);
      }
      if record.publicRef != id {
        return Failure(UnknownRef);
      }
      if record.owner != owner {
        return Failure(OwnerMismatch);
      }
      if record.binding.deviceId != b.deviceId {
        return Failure(DeviceMismatch);
      }
      if record.binding.generation != b.generation {
        return Failure(GenerationMismatch);
      }
      if record.binding.revision != b.revision {
        return Failure(CapabilityRevisionMismatch);
      }
      if record.binding.kind != b.kind {
        return Failure(KindMismatch);
      }
      if record.binding.operationId != b.operationId {
        return Failure(OperationMismatch);
      }
      r := Success(record);
    }

    method RemoveRef(id: Id, owner: Owner, now: u64) returns (found: bool)
      requires Valid()
      modifies this
      ensures Valid() && ops == old(ops) + [Timed(DoRemove(id, owner), now)]
      ensures found <==> id in old(refs) && old(refs)[id].owner == owner
      ensures refs == if found then old(refs) - {id} else old(refs)
    {
      found := id in refs && refs[id].owner == owner;
      if found {
        refs := refs - {id};
      }
      Log(Timed(DoRemove(id, owner), now), old(refs));
    }

    method PruneRefs(now: u64) returns (removed: nat)
      requires Valid()
      modifies this
      ensures Valid() && ops == old(ops) + [Timed(DoPrune, now)]
      ensures removed == |set r | r in old(refs) && now > old(refs)[r].expiresAtMs|
      ensures forall r :: r in refs <==> r in old(refs) && now <= old(refs)[r].expiresAtMs
    {
      removed := Retain((x: Record) => now <= x.expiresAtMs);
      assert refs == Prune(old(refs), now);
      assert Failing(old(refs), (x: Record) => now <= x.expiresAtMs) == set r | r in old(refs) && now > old(refs)[r].expiresAtMs;
      Log(Timed(DoPrune, now), old(refs));
    }

    method InvalidateDeviceGeneration(device: string, generation: u64, now: u64) returns (removed: nat)
      requires Valid()
      modifies this
      ensures Valid() && ops == old(ops) + [Timed(DoGeneration(device, generation), now)]
      ensures removed == Dropped(old(refs), refs)
      ensures forall r, o, b, t :: Resolve(refs, r, o, b, t).1.Success? <==>
                Resolve(old(refs), r, o, b, t).1.Success? && (b.deviceId == device ==> b.generation == generation)
    {
      removed := Retain((x: Record) => x.binding.deviceId != device || x.binding.generation == generation);
      assert refs == SweepGeneration(old(refs), device, generation);
      Log(Timed(DoGeneration(device, generation), now), old(refs));
      forall r, o, b, t
        ensures Resolve(refs, r, o, b, t).1.Success? <==>
                Resolve(old(refs), r, o, b, t).1.Success? && (b.deviceId == device ==> b.generation == generation)
      {
        ResolvedIsItsOwn(refs, r, o, b, t);
        ResolvedIsItsOwn(old(refs), r, o, b, t);
      }
    }

    method InvalidateCapabilityRevision(device: string, revision: u64, now: u64) returns (removed: nat)
      requires Valid()
      modifies this
      ensures Valid() && ops == old(ops) + [Timed(DoRevision(device, revision), now)]
      ensures removed == Dropped(old(refs), refs)
      ensures forall r, o, b, t :: Resolve(refs, r, o, b, t).1.Success? <==>
                Resolve(old(refs), r, o, b, t).1.Success? && (b.deviceId == device ==> b.revision == revision)
    {
      removed := Retain((x: Record) => x.binding.deviceId != device || x.binding.revision == revision);
      assert refs == SweepRevision(old(refs), device, revision);
      Log(Timed(DoRevision(device, revision), now), old(refs));
      forall r, o, b, t
        ensures Resolve(refs, r, o, b, t).1.Success? <==>
                Resolve(old(refs), r, o, b, t).1.Success? && (b.deviceId == device ==> b.revision == revision)
      {
        ResolvedIsItsOwn(refs, r, o, b, t);
        ResolvedIsItsOwn(old(refs), r, o, b, t);
      }
    }
  }
}
