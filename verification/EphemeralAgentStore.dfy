/** The Agent store object: the pruning loop and the staging and reading methods. */
module EphemeralAgentStore {
  import opened Common
  import opened EphemeralAgent
  import Hub = EphemeralHub

  class AgentStore {
    const limits: Limits
    var records: map<Locator, Record>
    var totalBytes: u64
    var files: map<Locator, Bytes>

    ghost function State(): Store
      reads this
    {
      Store(records, totalBytes, files)
    }

    constructor (limits: Limits)
      ensures this.limits == limits && State() == Run(limits, [])
    {
      this.limits := limits;
      records, totalBytes, files := map[], 0, map[];
    }

    method RemoveOne(l: Locator, stuck: set<Locator>) returns (e: Option<Error>)
      modifies this
      ensures (State(), e) == RemoveLocator(old(State()), l, stuck)
      ensures e.None? <==> l !in old(records) || l !in stuck
      ensures e.None? ==> l !in records && forall k | k in old(records) && k != l :: k in records && records[k] == old(records)[k]
      ensures e.Some? ==> State() == old(State())
    {
      if l !in records {
        return None;
      }
      var bytes := records[l].bytes;
      if l in stuck {
        return Some(Io);
      }
      files := files - {l};
      records := records - {l};
      totalBytes := SaturatingSub(totalBytes, bytes);
      e := None;
    }

    /** Removes the collected locators in order and stops at the first failure. */
    method RemoveEach(order: seq<Locator>, stuck: set<Locator>) returns (e: Option<Error>)
      modifies this
      ensures (State(), e) == RemoveAll(old(State()), order, stuck)
    {
      var i := 0;
      while i < |order|
        invariant i <= |order|
        invariant RemoveAll(old(State()), order, stuck) == RemoveAll(State(), order[i..], stuck)
      {
        e := RemoveOne(order[i], stuck);
        if e.Some? {
          return;
        }
        i := i + 1;
      }
      e := None;
    }

    /** `prune`; `order` is how the map happens to list its expired locators. */
    method PruneExpired(now: u64, order: seq<Locator>, stuck: set<Locator>) returns (r: Result<nat, Error>)
      requires Enumerates(order, ExpiredAt(State(), now))
      modifies this
      ensures State() == Step(limits, old(State()), DoPrune(now, order, stuck))
      ensures r.Success? ==> ExpiredAt(State(), now) == {} && r.value == |ExpiredAt(old(State()), now)|
      ensures forall l | l in old(records) && now <= old(records)[l].expiresAtMs :: l in records && records[l] == old(records)[l]
    {
      PruneTakesOnlyExpired(State(), now, order, stuck);
      EnumeratedOnce(order, ExpiredAt(State(), now));
      var e := RemoveEach(order, stuck);
      r := if e.Some? then Failure(e.value) else Success(|order|);
    }

    method StageObject(b: Hub.Binding, data: Slice, now: u64, order: seq<Locator>, stuck: set<Locator>, draws: Draws, write: Option<Error>)
      returns (r: Result<Locator, Error>)
      requires Enumerates(order, ExpiredAt(State(), now))
      modifies this
      ensures (State(), r) == Stage(limits, old(State()), b, data, now, order, stuck, draws, write)
      ensures WithinLimits(limits, old(State())) && Exact(old(State())) && CannotSaturate(limits) ==>
                StageOutcome(limits, old(State()), DoStage(b, data, now, order, stuck, draws, write), r)
      ensures r.Success? ==> now + limits.ttlMs <= U64_MAX && Holds(State(), r.value, Record(b, |data|, now + limits.ttlMs), data)
    {
      ghost var op := DoStage(b, data, now, order, stuck, draws, write);
      if WithinLimits(limits, State()) && Exact(State()) && CannotSaturate(limits) {
        StagesExactlyIn(limits, State(), op);
      }
      var stopped := RemoveEach(order, stuck);
      if stopped.Some? {
        return Failure(stopped.value);
      }
      var refusal := Refusal(limits, Store(records, totalBytes, files), b, data, now);
      if refusal.Some? {
        return Failure(refusal.value);
      }
      for i := 0 to Hub.ID_ATTEMPTS
        invariant State() == RemoveAll(old(State()), order, stuck).0
        invariant FirstFree(records, draws) == FirstFree(records, draws[i..])
      {
        var l := draws[i];
        if l !in records {
          if write.Some? {
            return Failure(write.value);
          }
          files := files[l := data];
          records := records[l := Record(b, |data|, now + limits.ttlMs)];
          totalBytes := SaturatingAdd(totalBytes, |data|);
          return Success(l);
        }
      }
      r := Failure(IdentifierCollision);
    }

    method ReadObject(l: Locator, b: Hub.Binding, offset: u64, maxBytes: nat, now: u64, stuck: set<Locator>, reading: Reading)
      returns (r: Result<Range, Error>)
      modifies this
      ensures (State(), r) == ReadRange(limits, old(State()), l, b, offset, maxBytes, now, stuck, reading)
      ensures ReadOutcome(limits, old(State()), l, b, offset, maxBytes, now, reading, State(), r)
      ensures r.Success? ==> State() == old(State()) && Readable(State(), l, b, now) && r.value.totalBytes == |files[l]|
      ensures r.Success? ==> offset == r.value.offset <= r.value.nextOffset <= |files[l]| && r.value.nextOffset - offset <= maxBytes
      ensures r.Success? ==> r.value.bytes == files[l][offset..r.value.nextOffset] && (r.value.eof <==> r.value.nextOffset == |files[l]|)
      ensures r.Success? && reading.Whole? ==> r.value.eof || r.value.nextOffset == offset + maxBytes
      ensures (Readable(old(State()), l, b, now) && offset <= |old(files)[l]| && 0 < maxBytes <= limits.maxReadBytes && !reading.Broken?) ==>
                r.Success?
    {
      ReadsExactly(limits, State(), l, b, offset, maxBytes, now, stuck, reading);
      if maxBytes == 0 || maxBytes > limits.maxReadBytes {
        return Failure(ReadTooLarge);
      }
      if l !in records {
        return Failure(UnknownLocator);
      }
      var x := records[l];
      if now > x.expiresAtMs {
        var stopped := RemoveOne(l, stuck);
        return Failure(if stopped.Some? then stopped.value else Expired);
      }
      var mismatch := Mismatch(x, b);
      if mismatch.Some? {
        return Failure(mismatch.value);
      }
      if offset > x.bytes {
        return Failure(InvalidRange);
      }
      if l !in files || |files[l]| != x.bytes {
        return Failure(InvalidObject);
      }
      if reading.Broken? {
        return Failure(Io);
      }
      var limit := Min(x.bytes - offset, maxBytes);
      var next := offset + if reading.Short? then Min(limit, reading.length) else limit;
      r := Success(Range(files[l][offset..next], offset, next, x.bytes, next >= x.bytes));
    }

    /** `remove`: true exactly when the object was there under that binding and its file could go. */
    method RemoveObject(l: Locator, b: Hub.Binding, stuck: set<Locator>) returns (r: Result<bool, Error>)
      modifies this
      ensures (State(), r) == Remove(old(State()), l, b, stuck)
      ensures RemoveOutcome(old(State()), l, b, stuck, State(), r)
    {
      RemovesExactly(State(), l, b, stuck);
      if l !in records {
        return Success(false);
      }
      var mismatch := Mismatch(records[l], b);
      if mismatch.Some? {
        return Failure(mismatch.value);
      }
      var stopped := RemoveOne(l, stuck);
      r := if stopped.Some? then Failure(stopped.value) else Success(true);
    }
  }
}
