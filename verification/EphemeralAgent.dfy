/**
 The Agent store of ephemeral bytes: staging under quotas with a running total,
 pruning that may stop at an I/O failure, and ranged reads.
 */
module EphemeralAgent {
  import opened Common
  import opened Tally
  import Hub = EphemeralHub

  /** No Rust slice is longer: `isize::MAX` on a 64-bit target. */
  const SLICE_MAX: nat := 0x7FFF_FFFF_FFFF_FFFF

  type Slice = b: Bytes | |b| <= SLICE_MAX

  type Locator = string
  type Draws = Hub.Draws

  datatype Limits = Limits(maxObjects: nat, maxTotalBytes: u64, maxObjectBytes: u64, maxReadBytes: nat, ttlMs: u64) {
    predicate Valid() {
      && 0 < maxObjects
      && 0 < maxTotalBytes
      && 0 < maxObjectBytes <= maxTotalBytes
      && 0 < maxReadBytes <= maxObjectBytes
      && 0 < ttlMs
    }
  }

  datatype Record = Record(binding: Hub.Binding, bytes: u64, expiresAtMs: u64)

  /** The records with their running total, and the private files on disk. */
  datatype Store = Store(records: map<Locator, Record>, total: u64, files: map<Locator, Bytes>)

  const Empty := Store(map[], 0, map[])

  datatype Error =
    | InvalidBinding
    | ObjectTooLarge
    | ObjectLimitExceeded
    | ByteLimitExceeded
    | IdentifierCollision
    | UnknownLocator
    | Expired
    | DeviceMismatch
    | GenerationMismatch
    | CapabilityRevisionMismatch
    | KindMismatch
    | OperationMismatch
    | ReadTooLarge
    | InvalidRange
    | InvalidObject
    | Io

  /** `remove_locator`; the files in `stuck` cannot be removed. */
  function RemoveLocator(s: Store, l: Locator, stuck: set<Locator>): (Store, Option<Error>) {
    if l !in s.records then (s, None)
    else if l in stuck then (s, Some(Io))
    else (Store(s.records - {l}, SaturatingSub(s.total, s.records[l].bytes), s.files - {l}), None)
  }

  function ExpiredAt(s: Store, now: u64): set<Locator> {
    set l | l in s.records && now > s.records[l].expiresAtMs
  }

  /** `order` lists exactly the expired locators, in the order the map yields them. */
  predicate Enumerates(order: seq<Locator>, expired: set<Locator>) {
    && (forall l | l in order :: l in expired) && (forall l | l in expired :: l in order)
    && (forall i, j | 0 <= i < j < |order| :: order[i] != order[j])
  }

  /** The removal loop of `prune`: it stops at the first file that cannot be removed. */
  function RemoveAll(s: Store, order: seq<Locator>, stuck: set<Locator>): (Store, Option<Error>)
    decreases |order|
  {
    if order == [] then (s, None)
    else
      var (after, e) := RemoveLocator(s, order[0], stuck);
      if e.Some? then (after, e) else RemoveAll(after, order[1..], stuck)
  }

  function FirstFree(records: map<Locator, Record>, draws: seq<Locator>): Option<Locator> {
    if draws == [] then None else if draws[0] !in records then Some(draws[0]) else FirstFree(records, draws[1..])
  }

  /** Why `stage` refuses an object after pruning. */
  function Refusal(limits: Limits, s: Store, b: Hub.Binding, data: Slice, now: u64): Option<Error> {
    if !Hub.ValidBinding(b) then Some(InvalidBinding)
    else if |data| > limits.maxObjectBytes then Some(ObjectTooLarge)
    else if |s.records| >= limits.maxObjects then Some(ObjectLimitExceeded)
    else if SaturatingAdd(s.total, |data|) > limits.maxTotalBytes then Some(ByteLimitExceeded)
    else if now + limits.ttlMs > U64_MAX then Some(InvalidBinding)
    else None
  }

  /** Inserting a written object and adding it to the running total. */
  function Insert(s: Store, l: Locator, b: Hub.Binding, data: Slice, expiresAtMs: u64): Store {
    Store(s.records[l := Record(b, |data|, expiresAtMs)], SaturatingAdd(s.total, |data|), s.files[l := data])
  }

  /** `write` is how writing and proving the new file failed, if it did. */
  function Stage(limits: Limits, s: Store, b: Hub.Binding, data: Slice, now: u64,
                 order: seq<Locator>, stuck: set<Locator>, draws: Draws, write: Option<Error>): (Store, Result<Locator, Error>) {
    var (pruned, e) := RemoveAll(s, order, stuck);
    if e.Some? then (pruned, Failure(e.value))
    else
      match Refusal(limits, pruned, b, data, now)
      case Some(refusal) => (pruned, Failure(refusal))
      case None =>
        match FirstFree(pruned.records, draws)
        case None => (pruned, Failure(IdentifierCollision))
        case Some(l) =>
          if write.Some? then (pruned, Failure(write.value))
          else (Insert(pruned, l, b, data, now + limits.ttlMs), Success(l))
  }

  function Mismatch(x: Record, b: Hub.Binding): Option<Error> {
    if x.binding.deviceId != b.deviceId then Some(DeviceMismatch)
    else if x.binding.generation != b.generation then Some(GenerationMismatch)
    else if x.binding.revision != b.revision then Some(CapabilityRevisionMismatch)
    else if x.binding.kind != b.kind then Some(KindMismatch)
    else if x.binding.operationId != b.operationId then Some(OperationMismatch)
    else None
  }

  /** The fence lets a request through exactly when it names the whole binding, and otherwise names the first part that differs. */
  lemma FenceExactly(x: Record, b: Hub.Binding)
    ensures Mismatch(x, b).None? <==> x.binding == b
    ensures var device := x.binding.deviceId == b.deviceId;
      var generation := device && x.binding.generation == b.generation;
      var revision := generation && x.binding.revision == b.revision;
      var kind := revision && x.binding.kind == b.kind;
      && (Mismatch(x, b) == Some(DeviceMismatch) <==> !device)
      && (Mismatch(x, b) == Some(GenerationMismatch) <==> device && !generation)
      && (Mismatch(x, b) == Some(CapabilityRevisionMismatch) <==> generation && !revision)
      && (Mismatch(x, b) == Some(KindMismatch) <==> revision && !kind)
      && (Mismatch(x, b) == Some(OperationMismatch) <==> kind && x.binding.operationId != b.operationId)
  {
  }

  datatype Range = Range(bytes: Bytes, offset: nat, nextOffset: nat, totalBytes: nat, eof: bool)

  function Min(a: nat, b: nat): nat {
    if a <= b then a else b
  }

  /** How reading goes once the file was found to be intact: it may fail, or come up short if the file shrinks meanwhile. */
  datatype Reading = Whole | Short(length: nat) | Broken

  function ReadRange(limits: Limits, s: Store, l: Locator, b: Hub.Binding, offset: u64, maxBytes: nat, now: u64,
                     stuck: set<Locator>, reading: Reading)
    : (Store, Result<Range, Error>)
  {
    if maxBytes == 0 || maxBytes > limits.maxReadBytes then (s, Failure(ReadTooLarge))
    else if l !in s.records then (s, Failure(UnknownLocator))
    else if now > s.records[l].expiresAtMs then
      var (after, e) := RemoveLocator(s, l, stuck);
      (after, Failure(if e.Some? then e.value else Expired))
    else
      var x := s.records[l];
      var mismatch := Mismatch(x, b);
      if mismatch.Some? then (s, Failure(mismatch.value))
      else if offset > x.bytes then (s, Failure(InvalidRange))
      else if l !in s.files || |s.files[l]| != x.bytes then (s, Failure(InvalidObject))
      else if reading.Broken? then (s, Failure(Io))
      else
        var limit := Min(x.bytes - offset, maxBytes);
        var next := offset + if reading.Short? then Min(limit, reading.length) else limit;
        (s, Success(Range(s.files[l][offset..next], offset, next, x.bytes, next >= x.bytes)))
  }

  function Remove(s: Store, l: Locator, b: Hub.Binding, stuck: set<Locator>): (Store, Result<bool, Error>) {
    if l !in s.records then (s, Success(false))
    else if Mismatch(s.records[l], b).Some? then (s, Failure(Mismatch(s.records[l], b).value))
    else
      var (after, e) := RemoveLocator(s, l, stuck);
      (after, if e.Some? then Failure(e.value) else Success(true))
  }

  datatype Op =
    | DoStage(binding: Hub.Binding, data: Slice, now: u64, order: seq<Locator>, stuck: set<Locator>, draws: Draws, write: Option<Error>)
    | DoRead(locator: Locator, binding: Hub.Binding, offset: u64, maxBytes: nat, now: u64, stuck: set<Locator>, reading: Reading)
    | DoRemove(locator: Locator, binding: Hub.Binding, stuck: set<Locator>)
    | DoPrune(now: u64, order: seq<Locator>, stuck: set<Locator>)

  function Step(limits: Limits, s: Store, op: Op): Store {
    match op
    case DoStage(b, data, now, order, stuck, draws, write) => Stage(limits, s, b, data, now, order, stuck, draws, write).0
    case DoRead(l, b, offset, maxBytes, now, stuck, reading) => ReadRange(limits, s, l, b, offset, maxBytes, now, stuck, reading).0
    case DoRemove(l, b, stuck) => Remove(s, l, b, stuck).0
    case DoPrune(now, order, stuck) => RemoveAll(s, order, stuck).0
  }

  predicate LegalOp(s: Store, op: Op) {
    op.DoStage? || op.DoPrune? ==> Enumerates(op.order, ExpiredAt(s, op.now))
  }

  function Run(limits: Limits, ops: seq<Op>): Store {
    if ops == [] then Empty else Step(limits, Run(limits, ops[..|ops| - 1]), ops[|ops| - 1])
  }

  predicate Legal(limits: Limits, ops: seq<Op>) {
    ops == [] || (Legal(limits, ops[..|ops| - 1]) && LegalOp(Run(limits, ops[..|ops| - 1]), ops[|ops| - 1]))
  }

  // --------------------------------------------------------------- accounting

  function Sizes(s: Store): map<Locator, nat> {
    map l | l in s.records :: s.records[l].bytes
  }

  /** The true, unbounded sum of the record sizes. */
  ghost function Stored(s: Store): nat {
    Sum(Sizes(s))
  }

  ghost predicate WithinLimits(limits: Limits, s: Store) {
    && |s.records| <= limits.maxObjects
    && s.total <= limits.maxTotalBytes
    && (forall l {:trigger ObjectFits(limits, s, l)} | l in s.records :: ObjectFits(limits, s, l))
  }

  /** The largest object that can be staged under these limits. */
  function Largest(limits: Limits): nat {
    Min(limits.maxObjectBytes, SLICE_MAX)
  }

  /** A record is no larger than allowed and its file holds that many bytes. */
  predicate ObjectFits(limits: Limits, s: Store, l: Locator)
    requires l in s.records
  {
    s.records[l].bytes <= Largest(limits) && l in s.files && |s.files[l]| == s.records[l].bytes
  }

  ghost predicate Exact(s: Store) {
    s.total == Stored(s)
  }

  /** No sum of objects that the limits admit and a slice can carry overflows a u64. */
  predicate CannotSaturate(limits: Limits) {
    limits.maxTotalBytes < U64_MAX || limits.maxObjects * Largest(limits) <= U64_MAX
  }

  lemma RemoveLocatorAccounts(limits: Limits, s: Store, l: Locator, stuck: set<Locator>)
    requires WithinLimits(limits, s)
    ensures WithinLimits(limits, RemoveLocator(s, l, stuck).0)
    ensures Exact(s) ==> Exact(RemoveLocator(s, l, stuck).0)
  {
    var after := RemoveLocator(s, l, stuck).0;
    if l in s.records && l !in stuck {
      SumRemove(Sizes(s), l);
      assert Sizes(after) == Sizes(s) - {l};
      assert after.records.Keys == s.records.Keys - {l};
      forall k | k in after.records
        ensures ObjectFits(limits, after, k)
      {
        assert ObjectFits(limits, s, k);
      }
    }
  }

  lemma {:induction false} RemoveAllAccounts(limits: Limits, s: Store, order: seq<Locator>, stuck: set<Locator>)
    requires WithinLimits(limits, s)
    ensures WithinLimits(limits, RemoveAll(s, order, stuck).0)
    ensures Exact(s) ==> Exact(RemoveAll(s, order, stuck).0)
    decreases |order|
  {
    if order != [] {
      RemoveLocatorAccounts(limits, s, order[0], stuck);
      var (after, e) := RemoveLocator(s, order[0], stuck);
      if e.None? {
        RemoveAllAccounts(limits, after, order[1..], stuck);
      }
    }
  }

  lemma {:induction false} RemoveAllTakesOnlyListed(s: Store, order: seq<Locator>, stuck: set<Locator>, l: Locator)
    requires l in s.records
    ensures var (after, e) := RemoveAll(s, order, stuck);
      && (l !in order ==> l in after.records && after.records[l] == s.records[l])
      && (l in order && e.None? ==> l !in after.records)
    ensures RemoveAll(s, order, stuck).0.records.Keys <= s.records.Keys
    decreases |order|
  {
    if order != [] {
      var (after, e) := RemoveLocator(s, order[0], stuck);
      if e.None? {
        if l in after.records {
          RemoveAllTakesOnlyListed(after, order[1..], stuck, l);
        } else {
          NothingComesBack(after, order[1..], stuck);
        }
      }
    }
  }

  lemma {:induction false} NothingComesBack(s: Store, order: seq<Locator>, stuck: set<Locator>)
    ensures var after := RemoveAll(s, order, stuck).0;
      forall l | l in after.records :: l in s.records && after.records[l] == s.records[l]
    decreases |order|
  {
    if order != [] {
      var (after, e) := RemoveLocator(s, order[0], stuck);
      if e.None? {
        NothingComesBack(after, order[1..], stuck);
      }
    }
  }

  /** Pruning that finishes leaves nothing expired, and pruning never takes a live record. */
  lemma PruneTakesOnlyExpired(s: Store, now: u64, order: seq<Locator>, stuck: set<Locator>)
    requires Enumerates(order, ExpiredAt(s, now))
    ensures var (after, e) := RemoveAll(s, order, stuck);
      && (e.None? ==> ExpiredAt(after, now) == {})
      && (forall l | l in s.records && now <= s.records[l].expiresAtMs :: l in after.records && after.records[l] == s.records[l])
  {
    NothingComesBack(s, order, stuck);
    forall l | l in s.records
      ensures var (after, e) := RemoveAll(s, order, stuck);
        && (l !in order ==> l in after.records && after.records[l] == s.records[l])
        && (l in order && e.None? ==> l !in after.records)
    {
      RemoveAllTakesOnlyListed(s, order, stuck, l);
    }
  }

  /** What a finished prune reports is the number of objects that had expired. */
  lemma {:induction false} EnumeratedOnce(order: seq<Locator>, expired: set<Locator>)
    requires Enumerates(order, expired)
    ensures |order| == |expired|
  {
    if order == [] {
      assert expired == {};
    } else {
      var rest := expired - {order[0]};
      assert order == [order[0]] + order[1..];
      assert order[0] in order && order[0] !in order[1..];
      EnumeratedOnce(order[1..], rest);
      assert expired == rest + {order[0]};
    }
  }

  lemma {:induction false} FirstFreeIsDrawn(records: map<Locator, Record>, draws: seq<Locator>)
    ensures FirstFree(records, draws).Some? ==> FirstFree(records, draws).value !in records
    ensures FirstFree(records, draws).None? ==> forall d | d in draws :: d in records
  {
    if draws != [] {
      FirstFreeIsDrawn(records, draws[1..]);
    }
  }

  lemma InsertStores(s: Store, l: Locator, b: Hub.Binding, data: Slice, expiresAtMs: u64)
    requires l !in s.records
    ensures Stored(Insert(s, l, b, data, expiresAtMs)) == Stored(s) + |data|
  {
    assert Sizes(Insert(s, l, b, data, expiresAtMs)) == Sizes(s)[l := |data|];
    SumInsert(Sizes(s), l, |data|);
  }

  lemma InsertFits(limits: Limits, s: Store, l: Locator, b: Hub.Binding, data: Slice, expiresAtMs: u64)
    requires WithinLimits(limits, s) && l !in s.records
    requires |data| <= limits.maxObjectBytes && |s.records| < limits.maxObjects
    requires SaturatingAdd(s.total, |data|) <= limits.maxTotalBytes
    ensures WithinLimits(limits, Insert(s, l, b, data, expiresAtMs))
  {
    var after := Insert(s, l, b, data, expiresAtMs);
    assert after.records.Keys == s.records.Keys + {l};
    forall k | k in after.records
      ensures ObjectFits(limits, after, k)
    {
      if k != l {
        assert ObjectFits(limits, s, k);
      }
    }
  }

  lemma StoredIsBounded(limits: Limits, s: Store)
    requires WithinLimits(limits, s)
    ensures Stored(s) <= limits.maxObjects * Largest(limits)
  {
    forall l | l in s.records
      ensures Sizes(s)[l] <= Largest(limits)
    {
      assert ObjectFits(limits, s, l);
    }
    assert Sizes(s).Keys == s.records.Keys;
    SumBound(Sizes(s), Largest(limits));
    MoreTerms(|s.records|, limits.maxObjects, Largest(limits));
  }

  lemma {:induction false} MoreTerms(n: nat, m: nat, bound: nat)
    requires n <= m
    ensures n * bound <= m * bound
  {
    if n < m {
      OneMoreTerm(m - 1, bound);
      MoreTerms(n, m - 1, bound);
    }
  }

  lemma InsertAccounts(limits: Limits, s: Store, l: Locator, b: Hub.Binding, data: Slice, expiresAtMs: u64)
    requires WithinLimits(limits, s) && l !in s.records
    requires |data| <= limits.maxObjectBytes && |s.records| < limits.maxObjects
    requires SaturatingAdd(s.total, |data|) <= limits.maxTotalBytes
    ensures WithinLimits(limits, Insert(s, l, b, data, expiresAtMs))
    ensures Exact(s) && CannotSaturate(limits) ==> Exact(Insert(s, l, b, data, expiresAtMs))
  {
    InsertStores(s, l, b, data, expiresAtMs);
    InsertFits(limits, s, l, b, data, expiresAtMs);
    StoredIsBounded(limits, Insert(s, l, b, data, expiresAtMs));
  }

  lemma StageAccounts(limits: Limits, s: Store, op: Op)
    requires WithinLimits(limits, s) && op.DoStage?
    ensures WithinLimits(limits, Step(limits, s, op))
    ensures Exact(s) && CannotSaturate(limits) ==> Exact(Step(limits, s, op))
  {
    RemoveAllAccounts(limits, s, op.order, op.stuck);
    var (pruned, e) := RemoveAll(s, op.order, op.stuck);
    if e.None? && Refusal(limits, pruned, op.binding, op.data, op.now).None? {
      FirstFreeIsDrawn(pruned.records, op.draws);
      var free := FirstFree(pruned.records, op.draws);
      if free.Some? {
        InsertAccounts(limits, pruned, free.value, op.binding, op.data, op.now + limits.ttlMs);
      }
    }
  }

  lemma StepAccounts(limits: Limits, s: Store, op: Op)
    requires WithinLimits(limits, s)
    ensures WithinLimits(limits, Step(limits, s, op))
    ensures Exact(s) && CannotSaturate(limits) ==> Exact(Step(limits, s, op))
  {
    match op
    case DoStage(_, _, _, _, _, _, _) => StageAccounts(limits, s, op);
    case DoRead(l, _, _, _, _, stuck, _) => RemoveLocatorAccounts(limits, s, l, stuck);
    case DoRemove(l, _, stuck) => RemoveLocatorAccounts(limits, s, l, stuck);
    case DoPrune(_, order, stuck) => RemoveAllAccounts(limits, s, order, stuck);
  }

  /** Object counts, object sizes and the running total stay within the limits on every run. */
  lemma {:induction false} EveryRunAccounts(limits: Limits, ops: seq<Op>)
    ensures WithinLimits(limits, Run(limits, ops))
    ensures CannotSaturate(limits) ==> Exact(Run(limits, ops))
  {
    if ops == [] {
      assert Sizes(Empty) == map[];
    } else {
      EveryRunAccounts(limits, ops[..|ops| - 1]);
      StepAccounts(limits, Run(limits, ops[..|ops| - 1]), ops[|ops| - 1]);
    }
  }

  // ------------------------------------------------- when accounting is exact

  /** The n-th of a family of distinct locators. */
  function Name(n: nat): Locator {
    seq(n, _ => 'x')
  }

  /** Stages one object of the largest size, at time zero, under a given locator. */
  function Fill(limits: Limits, n: nat): Op {
    DoStage(Hub.Binding("d", 1, 1, None, Hub.ProcessStdout), seq(Largest(limits), _ => 0), 0, [], {},
            seq(Hub.ID_ATTEMPTS, _ => Name(n)), None)
  }

  function Filling(limits: Limits, n: nat): seq<Op> {
    if n == 0 then [] else Filling(limits, n - 1) + [Fill(limits, n - 1)]
  }

  /** Filling `n` objects leaves `n` records under the first names. */
  ghost predicate Filled(limits: Limits, s: Store, n: nat) {
    && (forall l | l in s.records :: |l| < n)
    && |s.records| == n
    && Stored(s) == n * Largest(limits)
  }

  lemma FillInserts(limits: Limits, s: Store, n: nat)
    requires limits.Valid() && limits.maxTotalBytes == U64_MAX && |s.records| < limits.maxObjects && Name(n) !in s.records
    ensures LegalOp(s, Fill(limits, n))
    ensures var op := Fill(limits, n);
      Step(limits, s, op) == Insert(s, Name(n), op.binding, op.data, limits.ttlMs)
  {
    var op := Fill(limits, n);
    assert !IsWhitespace("d"[0]) && !Hub.Blank("d");
    assert op.draws[0] == Name(n);
  }

  lemma FillAdds(limits: Limits, s: Store, n: nat)
    requires limits.Valid() && limits.maxTotalBytes == U64_MAX && n < limits.maxObjects && Filled(limits, s, n)
    ensures LegalOp(s, Fill(limits, n))
    ensures Filled(limits, Step(limits, s, Fill(limits, n)), n + 1)
  {
    var op := Fill(limits, n);
    assert |Name(n)| == n;
    FillInserts(limits, s, n);
    InsertStores(s, Name(n), op.binding, op.data, limits.ttlMs);
    assert Step(limits, s, op).records.Keys == s.records.Keys + {Name(n)};
    OneMoreTerm(n, Largest(limits));
  }

  lemma {:induction false} FillingFills(limits: Limits, n: nat)
    requires limits.Valid() && limits.maxTotalBytes == U64_MAX && n <= limits.maxObjects
    ensures Legal(limits, Filling(limits, n)) && Filled(limits, Run(limits, Filling(limits, n)), n)
  {
    if n == 0 {
      assert Sizes(Empty) == map[];
    } else {
      var ops, before := Filling(limits, n), Filling(limits, n - 1);
      assert ops[..|ops| - 1] == before && ops[|ops| - 1] == Fill(limits, n - 1);
      FillingFills(limits, n - 1);
      FillAdds(limits, Run(limits, Filling(limits, n - 1)), n - 1);
    }
  }

  lemma FullStoreIsInexact(limits: Limits)
    requires limits.Valid() && !CannotSaturate(limits)
    ensures Legal(limits, Filling(limits, limits.maxObjects)) && !Exact(Run(limits, Filling(limits, limits.maxObjects)))
  {
    FillingFills(limits, limits.maxObjects);
  }

  /**
   The running total equals the true sum of the record sizes after every run, however
   removals fail midway, if and only if no sum the limits admit can saturate a u64.
   */
  lemma AccountingIsExactIff(limits: Limits)
    requires limits.Valid()
    ensures (forall ops | Legal(limits, ops) :: Exact(Run(limits, ops))) <==> CannotSaturate(limits)
  {
    if CannotSaturate(limits) {
      forall ops | Legal(limits, ops)
        ensures Exact(Run(limits, ops))
      {
        EveryRunAccounts(limits, ops);
      }
    } else {
      FullStoreIsInexact(limits);
    }
  }

  // ------------------------------------------------------------------- paging

  /** The object can be read: known, unexpired, fenced by `b`, and intact on disk. */
  predicate Readable(s: Store, l: Locator, b: Hub.Binding, now: u64) {
    && l in s.records && now <= s.records[l].expiresAtMs && s.records[l].binding == b
    && l in s.files && |s.files[l]| == s.records[l].bytes
  }

  datatype Paging = Paging(bytes: Bytes, next: nat, eof: bool)

  /** Reads pages of the given sizes, each from the last `next_offset`, until `eof` or the sizes run out. */
  function FollowPages(limits: Limits, s: Store, l: Locator, b: Hub.Binding, now: u64, offset: u64, sizes: seq<nat>): Paging
    decreases |sizes|
  {
    if sizes == [] then Paging([], offset, false)
    else
      match ReadRange(limits, s, l, b, offset, sizes[0], now, {}, Whole).1
      case Failure(_) => Paging([], offset, false)
      case Success(page) =>
        if page.eof || page.nextOffset > U64_MAX then Paging(page.bytes, page.nextOffset, page.eof)
        else
          var rest := FollowPages(limits, s, l, b, now, page.nextOffset, sizes[1..]);
          Paging(page.bytes + rest.bytes, rest.next, rest.eof)
  }

  /**
   A read returns a range exactly when the size asked for is legal, the object is there, unexpired,
   under that very binding and intact, the offset is within it, and the file can be read. While it
   is unexpired no read changes anything, and each refusal names the first of these that fails.
   */
  ghost predicate ReadOutcome(limits: Limits, s: Store, l: Locator, b: Hub.Binding, offset: u64, maxBytes: nat, now: u64, reading: Reading,
                              after: Store, r: Result<Range, Error>) {
    var sized := 0 < maxBytes <= limits.maxReadBytes;
    var known := sized && l in s.records;
    var live := known && now <= s.records[l].expiresAtMs;
    var fenced := live && s.records[l].binding == b;
    var within := fenced && offset <= s.records[l].bytes;
    var intact := within && l in s.files && |s.files[l]| == s.records[l].bytes;
    && (r.Success? <==> intact && !reading.Broken?)
    && (r == Failure(ReadTooLarge) <==> !sized)
    && (r == Failure(UnknownLocator) <==> sized && !known)
    && (live && !fenced ==> r.Failure? && r.error in {DeviceMismatch, GenerationMismatch, CapabilityRevisionMismatch, KindMismatch, OperationMismatch})
    && (r == Failure(InvalidRange) <==> fenced && !within)
    && (r == Failure(InvalidObject) <==> within && !intact)
    && (live || !known ==> after == s)
    && (known && !live ==> r == Failure(Expired) || r == Failure(Io))
    && (known && !live && r == Failure(Expired) ==> l !in after.records && l !in after.files)
    && (known && !live && r == Failure(Io) ==> after == s)
    && (intact && reading.Broken? ==> r == Failure(Io))
  }

  lemma ReadsExactly(limits: Limits, s: Store, l: Locator, b: Hub.Binding, offset: u64, maxBytes: nat, now: u64, stuck: set<Locator>, reading: Reading)
    ensures var (after, r) := ReadRange(limits, s, l, b, offset, maxBytes, now, stuck, reading);
      ReadOutcome(limits, s, l, b, offset, maxBytes, now, reading, after, r)
  {
    if l in s.records {
      FenceExactly(s.records[l], b);
    }
  }

  /**
   Whatever legal page sizes are used, the pages read so far concatenate to the object's bytes
   up to `next_offset`, `eof` is reported exactly at the end, and as many pages as there are
   bytes (one for an empty object) always reach it.
   */
  lemma {:induction false} PagingReturnsTheObject(limits: Limits, s: Store, l: Locator, b: Hub.Binding, now: u64, offset: u64, sizes: seq<nat>)
    requires Readable(s, l, b, now) && offset <= |s.files[l]|
    requires forall n | n in sizes :: 0 < n <= limits.maxReadBytes
    ensures var p := FollowPages(limits, s, l, b, now, offset, sizes);
      && offset <= p.next <= |s.files[l]|
      && p.bytes == s.files[l][offset..p.next]
      && (sizes != [] ==> (p.eof <==> p.next == |s.files[l]|))
      && (|sizes| > 0 && |sizes| >= |s.files[l]| - offset ==> p.eof && p.bytes == s.files[l][offset..])
    decreases |sizes|
  {
    if sizes != [] {
      assert sizes[0] in sizes;
      FenceExactly(s.records[l], b);
      var page := ReadRange(limits, s, l, b, offset, sizes[0], now, {}, Whole).1.value;
      if !page.eof {
        assert forall n | n in sizes[1..] :: n in sizes;
        PagingReturnsTheObject(limits, s, l, b, now, page.nextOffset, sizes[1..]);
        var p := FollowPages(limits, s, l, b, now, offset, sizes);
        assert s.files[l][offset..page.nextOffset] + s.files[l][page.nextOffset..p.next] == s.files[l][offset..p.next];
      }
    }
  }

  // ------------------------------------------------------ bytes that come back

  /** The store after further calls. */
  function RunFrom(limits: Limits, s: Store, ops: seq<Op>): Store {
    if ops == [] then s else Step(limits, RunFrom(limits, s, ops[..|ops| - 1]), ops[|ops| - 1])
  }

  predicate LegalFrom(limits: Limits, s: Store, ops: seq<Op>) {
    ops == [] || (LegalFrom(limits, s, ops[..|ops| - 1]) && LegalOp(RunFrom(limits, s, ops[..|ops| - 1]), ops[|ops| - 1]))
  }

  /** The call reads no clock past the record's expiry and does not succeed in removing it. */
  predicate Spares(op: Op, l: Locator, x: Record) {
    match op
    case DoStage(_, _, now, _, _, _, _) => now <= x.expiresAtMs
    case DoRead(locator, _, _, _, now, _, _) => locator == l ==> now <= x.expiresAtMs
    case DoRemove(locator, b, stuck) => locator == l ==> x.binding != b || l in stuck
    case DoPrune(now, _, _) => now <= x.expiresAtMs
  }

  predicate Holds(s: Store, l: Locator, x: Record, data: Bytes) {
    l in s.records && s.records[l] == x && l in s.files && s.files[l] == data
  }

  lemma {:induction false} RemoveAllSpares(s: Store, order: seq<Locator>, stuck: set<Locator>, l: Locator, x: Record, data: Bytes)
    requires Holds(s, l, x, data) && l !in order
    ensures Holds(RemoveAll(s, order, stuck).0, l, x, data)
    decreases |order|
  {
    if order != [] {
      var (after, e) := RemoveLocator(s, order[0], stuck);
      if e.None? {
        RemoveAllSpares(after, order[1..], stuck, l, x, data);
      }
    }
  }

  lemma StageSpares(limits: Limits, s: Store, op: Op, l: Locator, x: Record, data: Bytes)
    requires op.DoStage? && Holds(s, l, x, data) && l !in op.order
    ensures Holds(Step(limits, s, op), l, x, data)
  {
    RemoveAllSpares(s, op.order, op.stuck, l, x, data);
    FirstFreeIsDrawn(RemoveAll(s, op.order, op.stuck).0.records, op.draws);
  }

  lemma SparedIsHeld(limits: Limits, s: Store, op: Op, l: Locator, x: Record, data: Bytes)
    requires Holds(s, l, x, data) && Spares(op, l, x) && LegalOp(s, op)
    ensures Holds(Step(limits, s, op), l, x, data)
  {
    if op.DoRemove? {
      FenceExactly(x, op.binding);
    } else if op.DoStage? {
      assert l !in ExpiredAt(s, op.now);
      StageSpares(limits, s, op, l, x, data);
    } else if op.DoPrune? {
      assert l !in ExpiredAt(s, op.now);
      RemoveAllSpares(s, op.order, op.stuck, l, x, data);
    }
  }

  lemma {:induction false} SparedStaysHeld(limits: Limits, s: Store, ops: seq<Op>, l: Locator, x: Record, data: Bytes)
    requires Holds(s, l, x, data) && LegalFrom(limits, s, ops) && forall op | op in ops :: Spares(op, l, x)
    ensures Holds(RunFrom(limits, s, ops), l, x, data)
  {
    if ops != [] {
      var past, last := ops[..|ops| - 1], ops[|ops| - 1];
      assert last in ops && forall op | op in past :: op in ops;
      SparedStaysHeld(limits, s, past, l, x, data);
      SparedIsHeld(limits, RunFrom(limits, s, past), last, l, x, data);
    }
  }

  /** What a staging call leaves, and what it returned. */
  function Staged(limits: Limits, s: Store, op: Op): (Store, Result<Locator, Error>)
    requires op.DoStage?
  {
    Stage(limits, s, op.binding, op.data, op.now, op.order, op.stuck, op.draws, op.write)
  }

  lemma StagedIsHeld(limits: Limits, s: Store, op: Op)
    requires op.DoStage? && Staged(limits, s, op).1.Success?
    ensures op.now + limits.ttlMs <= U64_MAX
    ensures Holds(Staged(limits, s, op).0, Staged(limits, s, op).1.value, Record(op.binding, |op.data|, op.now + limits.ttlMs), op.data)
  {
  }

  /**
   What was staged is what paging from the start returns, after any later calls that neither
   remove the object nor read a clock past its expiry, other objects coming and going as they may.
   */
  lemma StagedBytesComeBack(limits: Limits, s: Store, op: Op, later: seq<Op>, now: u64, sizes: seq<nat>)
    requires op.DoStage? && Staged(limits, s, op).1.Success? && now <= op.now + limits.ttlMs <= U64_MAX
    requires LegalFrom(limits, Staged(limits, s, op).0, later)
    requires var x := Record(op.binding, |op.data|, op.now + limits.ttlMs);
      forall o | o in later :: Spares(o, Staged(limits, s, op).1.value, x)
    requires (forall n | n in sizes :: 0 < n <= limits.maxReadBytes) && |sizes| > 0 && |sizes| >= |op.data|
    ensures var (staged, r) := Staged(limits, s, op);
      FollowPages(limits, RunFrom(limits, staged, later), r.value, op.binding, now, 0, sizes) == Paging(op.data, |op.data|, true)
  {
    var (staged, r) := Staged(limits, s, op);
    StagedIsHeld(limits, s, op);
    SparedStaysHeld(limits, staged, later, r.value, Record(op.binding, |op.data|, op.now + limits.ttlMs), op.data);
    PagingReturnsTheObject(limits, RunFrom(limits, staged, later), r.value, op.binding, now, 0, sizes);
    assert op.data[0..] == op.data;
  }

  // ---------------------------------------------------- when staging succeeds

  /** The records that have not expired at `now`. */
  function Unexpired(s: Store, now: u64): map<Locator, Record> {
    map l | l in s.records && s.records[l].expiresAtMs >= now :: s.records[l]
  }

  function SizesIn(records: map<Locator, Record>): map<Locator, nat> {
    map l | l in records :: records[l].bytes
  }

  /**
   A removal returns true exactly when the object is there under that very binding and its file can
   go; then record and file are gone and no other. It returns false exactly when there is none.
   */
  ghost predicate RemoveOutcome(s: Store, l: Locator, b: Hub.Binding, stuck: set<Locator>, after: Store, r: Result<bool, Error>) {
    var fenced := l in s.records && s.records[l].binding == b;
    && (r == Success(true) <==> fenced && l !in stuck)
    && (r == Success(false) <==> l !in s.records)
    && (fenced && l in stuck ==> r == Failure(Io))
    && (r == Success(true) ==> after.records == s.records - {l} && after.files == s.files - {l})
    && (r != Success(true) ==> after == s)
  }

  lemma RemovesExactly(s: Store, l: Locator, b: Hub.Binding, stuck: set<Locator>)
    ensures RemoveOutcome(s, l, b, stuck, Remove(s, l, b, stuck).0, Remove(s, l, b, stuck).1)
  {
    if l in s.records {
      FenceExactly(s.records[l], b);
    }
  }

  /** Removal in order takes everything listed unless one of them cannot go. */
  lemma {:induction false} RemoveAllExactly(s: Store, order: seq<Locator>, stuck: set<Locator>)
    requires forall l | l in order :: l in s.records
    requires forall i, j | 0 <= i < j < |order| :: order[i] != order[j]
    ensures RemoveAll(s, order, stuck).1.None? <==> forall l | l in order :: l !in stuck
    ensures RemoveAll(s, order, stuck).1.Some? ==> RemoveAll(s, order, stuck).1 == Some(Io)
    ensures RemoveAll(s, order, stuck).1.None? ==> RemoveAll(s, order, stuck).0.records == map l | l in s.records && l !in order :: s.records[l]
    decreases |order|
  {
    if order != [] {
      var first, rest := order[0], order[1..];
      assert first in order && order == [first] + rest && first !in rest;
      if first !in stuck {
        var after := RemoveLocator(s, first, stuck).0;
        RemoveAllExactly(after, rest, stuck);
      }
    }
  }

  lemma PrunedExactly(s: Store, now: u64, order: seq<Locator>, stuck: set<Locator>)
    requires Enumerates(order, ExpiredAt(s, now))
    ensures RemoveAll(s, order, stuck).1 == if ExpiredAt(s, now) !! stuck then None else Some(Io)
    ensures RemoveAll(s, order, stuck).1.None? ==> RemoveAll(s, order, stuck).0.records == Unexpired(s, now)
  {
    RemoveAllExactly(s, order, stuck);
    assert (forall l | l in order :: l !in stuck) <==> ExpiredAt(s, now) !! stuck;
  }

  /** The limits the store holds to, on a store whose running total is exact. */
  ghost predicate StageOutcome(limits: Limits, s: Store, op: Op, r: Result<Locator, Error>)
    requires op.DoStage?
  {
    var live := Unexpired(s, op.now);
    var swept := ExpiredAt(s, op.now) !! op.stuck;
    var bound := swept && Hub.ValidBinding(op.binding);
    var sized := bound && |op.data| <= limits.maxObjectBytes;
    var roomy := sized && |live| < limits.maxObjects;
    var fitting := roomy && Sum(SizesIn(live)) + |op.data| <= limits.maxTotalBytes;
    var timely := fitting && op.now + limits.ttlMs <= U64_MAX;
    var free := timely && exists l :: l in op.draws && l !in live;
    && (r.Success? <==> free && op.write.None?)
    && (r.Success? ==> r.value in op.draws && r.value !in live)
    && (!swept ==> r == Failure(Io))
    && (r == Failure(ObjectTooLarge) <==> (bound && !sized) || (free && op.write == Some(ObjectTooLarge)))
    && (r == Failure(ObjectLimitExceeded) <==> (sized && !roomy) || (free && op.write == Some(ObjectLimitExceeded)))
    && (r == Failure(ByteLimitExceeded) <==> (roomy && !fitting) || (free && op.write == Some(ByteLimitExceeded)))
    && (r == Failure(IdentifierCollision) <==> (timely && !free) || (free && op.write == Some(IdentifierCollision)))
    && (r == Failure(InvalidBinding) <==> (swept && !bound) || (fitting && !timely) || (free && op.write == Some(InvalidBinding)))
  }

  /** Pruning leaves a store whose total is the true sum of what has not expired. */
  lemma PrunedTotal(limits: Limits, s: Store, now: u64, order: seq<Locator>, stuck: set<Locator>)
    requires WithinLimits(limits, s) && Exact(s) && Enumerates(order, ExpiredAt(s, now)) && ExpiredAt(s, now) !! stuck
    ensures var pruned := RemoveAll(s, order, stuck).0;
      WithinLimits(limits, pruned) && pruned.records == Unexpired(s, now) && pruned.total == Sum(SizesIn(Unexpired(s, now)))
  {
    PrunedExactly(s, now, order, stuck);
    RemoveAllAccounts(limits, s, order, stuck);
    var pruned := RemoveAll(s, order, stuck).0;
    assert Sizes(pruned) == SizesIn(Unexpired(s, now));
  }

  /** Where no sum can saturate, the saturating comparison is the true one. */
  lemma TotalDecides(limits: Limits, s: Store, data: Slice)
    requires WithinLimits(limits, s) && Exact(s) && CannotSaturate(limits)
    requires |data| <= limits.maxObjectBytes && |s.records| < limits.maxObjects
    ensures SaturatingAdd(s.total, |data|) <= limits.maxTotalBytes <==> Stored(s) + |data| <= limits.maxTotalBytes
  {
    if limits.maxTotalBytes == U64_MAX {
      forall l | l in s.records
        ensures Sizes(s)[l] <= Largest(limits)
      {
        assert ObjectFits(limits, s, l);
      }
      assert Sizes(s).Keys == s.records.Keys;
      SumBound(Sizes(s), Largest(limits));
      OneMoreTerm(|s.records|, Largest(limits));
      MoreTerms(|s.records| + 1, limits.maxObjects, Largest(limits));
    }
  }

  lemma RefusesExactly(limits: Limits, s: Store, b: Hub.Binding, data: Slice, now: u64)
    requires WithinLimits(limits, s) && Exact(s) && CannotSaturate(limits)
    ensures var refusal := Refusal(limits, s, b, data, now);
      var bound := Hub.ValidBinding(b);
      var sized := bound && |data| <= limits.maxObjectBytes;
      var roomy := sized && |s.records| < limits.maxObjects;
      var fitting := roomy && Stored(s) + |data| <= limits.maxTotalBytes;
      refusal == (if !bound then Some(InvalidBinding) else if !sized then Some(ObjectTooLarge)
                  else if !roomy then Some(ObjectLimitExceeded) else if !fitting then Some(ByteLimitExceeded)
                  else if now + limits.ttlMs > U64_MAX then Some(InvalidBinding) else None)
  {
    if |data| <= limits.maxObjectBytes && |s.records| < limits.maxObjects {
      TotalDecides(limits, s, data);
    }
  }

  lemma StagesExactlyIn(limits: Limits, s: Store, op: Op)
    requires WithinLimits(limits, s) && Exact(s) && CannotSaturate(limits) && op.DoStage? && LegalOp(s, op)
    ensures StageOutcome(limits, s, op, Staged(limits, s, op).1)
  {
    PrunedExactly(s, op.now, op.order, op.stuck);
    if ExpiredAt(s, op.now) !! op.stuck {
      PrunedTotal(limits, s, op.now, op.order, op.stuck);
      var pruned := RemoveAll(s, op.order, op.stuck).0;
      assert Stored(pruned) == pruned.total by {
        assert Sizes(pruned) == SizesIn(Unexpired(s, op.now));
      }
      RefusesExactly(limits, pruned, op.binding, op.data, op.now);
      FirstFreeIsDrawn(pruned.records, op.draws);
      FirstFreeIsADraw(pruned.records, op.draws);
    }
  }

  /**
   After any run whose limits cannot saturate, staging succeeds if and only if every expired object
   can go, the binding is valid, and size, count, true byte total and expiry are within bounds once
   they are gone, a draw is not in use, and the file can be written.
   */
  lemma StagesExactly(limits: Limits, ops: seq<Op>, op: Op)
    requires CannotSaturate(limits) && op.DoStage? && LegalOp(Run(limits, ops), op)
    ensures StageOutcome(limits, Run(limits, ops), op, Staged(limits, Run(limits, ops), op).1)
  {
    EveryRunAccounts(limits, ops);
    StagesExactlyIn(limits, Run(limits, ops), op);
  }

  lemma {:induction false} FirstFreeIsADraw(records: map<Locator, Record>, draws: seq<Locator>)
    ensures FirstFree(records, draws).Some? ==> FirstFree(records, draws).value in draws
  {
    if draws != [] {
      FirstFreeIsADraw(records, draws[1..]);
    }
  }
}
