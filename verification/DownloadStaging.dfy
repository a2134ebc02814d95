/**
 Download staging: the sections that the broker runs under its mutex, and the
 system of interleaved calls built from them. `finalize` takes the mutex twice
 with file work in between, so it is split into begin, file, and commit or
 abort steps that any other call may separate.
 */
module DownloadStaging {
  import opened Common
  import opened TransferNames

  const MAX_BROWSER_DOWNLOAD_FILES: nat := 32
  const MAX_BROWSER_DOWNLOAD_BYTES: nat := 16 * 1024 * 1024
  const HANDLE_ATTEMPTS: nat := 8

  type Handle = string

  /** The random handles drawn by one call of `unique_handle`. */
  type Draws = d: seq<Handle> | |d| == HANDLE_ATTEMPTS witness seq(HANDLE_ATTEMPTS, _ => "")

  /** What a caller presents: context, device generation and capability revision. */
  datatype Fence = Fence(contextId: string, generation: u64, revision: u64)

  datatype Pending = Pending(fence: Fence, directory: Handle, name: string, maxBytes: u64, overwrite: bool)

  datatype Completed = Completed(contextId: string, directory: Handle, name: string)

  datatype Inner = Inner(pending: map<Handle, Pending>, completed: map<Handle, Completed>)

  datatype Error =
    | InvalidRoot
    | InvalidFileName
    | InvalidBound
    | FileLimitExceeded
    | Collision
    | UnknownOperation
    | ContextMismatch
    | GenerationMismatch
    | CapabilityRevisionMismatch
    | InvalidBackendId
    | InvalidCompletedFile
    | FileTooLarge
    | Io

  // --------------------------------------------------------- mutex sections

  function Validate(record: Pending, fence: Fence): Option<Error> {
    if record.fence.contextId != fence.contextId then Some(ContextMismatch)
    else if record.fence.generation != fence.generation then Some(GenerationMismatch)
    else if record.fence.revision != fence.revision then Some(CapabilityRevisionMismatch)
    else None
  }

  function PendingOf(inner: Inner, contextId: string): set<Handle> {
    set h | h in inner.pending && inner.pending[h].fence.contextId == contextId
  }

  function CompletedOf(inner: Inner, contextId: string): set<Handle> {
    set h | h in inner.completed && inner.completed[h].contextId == contextId
  }

  function CompletedNamed(inner: Inner, contextId: string, name: string): set<Handle> {
    set h | h in inner.completed && inner.completed[h].contextId == contextId && inner.completed[h].name == name
  }

  function PendingNamed(inner: Inner, contextId: string, name: string): set<Handle> {
    set h | h in inner.pending && inner.pending[h].fence.contextId == contextId && inner.pending[h].name == name
  }

  function FirstFree(inner: Inner, draws: seq<Handle>): Option<Handle> {
    if draws == [] then None
    else if draws[0] !in inner.pending && draws[0] !in inner.completed then Some(draws[0])
    else FirstFree(inner, draws[1..])
  }

  /** How creating the private operation directory went. */
  datatype Mkdir = Created | Unmade | OutsideRoot

  datatype Request = Request(fence: Fence, name: string, maxBytes: u64, overwrite: bool)

  function Prepare(inner: Inner, q: Request, draws: Draws, mkdir: Mkdir): (Inner, Result<Handle, Error>) {
    if !ValidDestinationName(q.name) then (inner, Failure(InvalidFileName))
    else if q.maxBytes == 0 || q.maxBytes > MAX_BROWSER_DOWNLOAD_BYTES then (inner, Failure(InvalidBound))
    else if |PendingOf(inner, q.fence.contextId)| + |CompletedOf(inner, q.fence.contextId)| >= MAX_BROWSER_DOWNLOAD_FILES then
      (inner, Failure(FileLimitExceeded))
    else if PendingNamed(inner, q.fence.contextId, q.name) != {} then (inner, Failure(Collision))
    else if !q.overwrite && CompletedNamed(inner, q.fence.contextId, q.name) != {} then (inner, Failure(Collision))
    else
      match FirstFree(inner, draws)
      case None => (inner, Failure(Io))
      case Some(h) =>
        match mkdir
        case Unmade => (inner, Failure(Io))
        case OutsideRoot => (inner, Failure(InvalidRoot))
        case Created =>
          (inner.(pending := inner.pending[h := Pending(q.fence, h, q.name, q.maxBytes, q.overwrite)]), Success(h))
  }

  /** The first section of `finalize`: looks the operation up and clones it. */
  function Begin(inner: Inner, h: Handle, fence: Fence): Result<Pending, Error> {
    if h !in inner.pending then Failure(UnknownOperation)
    else match Validate(inner.pending[h], fence) case Some(e) => Failure(e) case None => Success(inner.pending[h])
  }

  /** The completed downloads that a commit replaces. */
  function Replaced(inner: Inner, fence: Fence, clone: Pending): set<Handle> {
    if clone.overwrite then CompletedNamed(inner, fence.contextId, clone.name) else {}
  }

  /** The second section of `finalize`, working from the clone of the first. */
  function Commit(inner: Inner, h: Handle, fence: Fence, clone: Pending, draws: Draws): (Inner, Result<Handle, Error>) {
    match Begin(inner, h, fence)
    case Failure(e) => (inner, Failure(e))
    case Success(_) =>
      var cleared := Inner(inner.pending - {h}, inner.completed - Replaced(inner, fence, clone));
      match FirstFree(cleared, draws)
      case None => (cleared, Failure(Io))
      case Some(c) =>
        (cleared.(completed := cleared.completed[c := Completed(fence.contextId, clone.directory, clone.name)]), Success(c))
  }

  function Abort(inner: Inner, h: Handle, fence: Fence): (Inner, Result<(), Error>) {
    match Begin(inner, h, fence)
    case Failure(e) => (inner, Failure(e))
    case Success(_) => (inner.(pending := inner.pending - {h}), Success(()))
  }

  function AbortBestEffort(inner: Inner, h: Handle): Inner {
    inner.(pending := inner.pending - {h})
  }

  function CleanupContext(inner: Inner, contextId: string): Inner {
    Inner(inner.pending - PendingOf(inner, contextId), inner.completed - CompletedOf(inner, contextId))
  }

  // ------------------------------------------------------ interleaved calls

  /** Where a `finalize` call stands between its mutex sections. */
  datatype Call =
    | Checking(h: Handle, fence: Fence, id: string, clone: Pending, bytes: u64)
    | Ready(h: Handle, fence: Fence, id: string, clone: Pending, bytes: u64, data: Bytes)
    | Doomed(h: Handle, fence: Fence, id: string, error: Error)

  /** The successful returns that settle an operation. */
  datatype Settled =
    | Finalized(h: Handle, reported: u64, name: string, data: Bytes)
    | Aborted(h: Handle)

  type CallId = nat

  /**
   The broker with its calls in flight. `prepared` remembers every operation ever prepared,
   `removed` every directory handed to `remove_dir_all`, `lost` every operation that a commit ended
   without finding a handle for it, and `log` every settling return.
   */
  datatype System = System(
    inner: Inner,
    calls: map<CallId, Call>,
    prepared: map<Handle, Pending>,
    removed: set<Handle>,
    lost: set<Handle>,
    log: seq<Settled>)

  const Start := System(Inner(map[], map[]), map[], map[], {}, {}, [])

  datatype Act =
    | DoPrepare(q: Request, draws: Draws, mkdir: Mkdir)
    | DoBegin(call: CallId, h: Handle, fence: Fence, id: string, bytes: u64)
    | DoFile(call: CallId, probe: Option<nat>, read: Option<Bytes>)
    | DoCommit(call: CallId, draws: Draws)
    | DoDoom(call: CallId)
    | DoAbort(h: Handle, fence: Fence)
    | DoCleanupContext(contextId: string)
    | DoCleanupAll

  /** The size checks, `prove_direct_regular_file` and `read_bounded_exact`. */
  function FileWork(k: Call, probe: Option<nat>, read: Option<Bytes>): Call
    requires k.Checking?
  {
    if k.bytes > k.clone.maxBytes || k.bytes > MAX_BROWSER_DOWNLOAD_BYTES then Doomed(k.h, k.fence, k.id, FileTooLarge)
    else if probe.None? || probe.value != k.bytes || probe.value > k.clone.maxBytes then Doomed(k.h, k.fence, k.id, InvalidCompletedFile)
    else if read.None? then Doomed(k.h, k.fence, k.id, Io)
    else if |read.value| != k.bytes || |read.value| > k.clone.maxBytes then Doomed(k.h, k.fence, k.id, InvalidCompletedFile)
    else Ready(k.h, k.fence, k.id, k.clone, k.bytes, read.value)
  }

  function PendingDirectories(inner: Inner, gone: set<Handle>): set<Handle> {
    set h | h in inner.pending && h in gone :: inner.pending[h].directory
  }

  function CompletedDirectories(inner: Inner, gone: set<Handle>): set<Handle> {
    set c | c in inner.completed && c in gone :: inner.completed[c].directory
  }

  /** One atomic step of one call; a step whose program counter does not fit does nothing. */
  function Next(s: System, a: Act): System {
    match a
    case DoPrepare(q, draws, mkdir) =>
      var (inner, r) := Prepare(s.inner, q, draws, mkdir);
      if r.Failure? then s else s.(inner := inner, prepared := s.prepared[r.value := inner.pending[r.value]])
    case DoBegin(call, h, fence, id, bytes) =>
      if call in s.calls then s
      else if !SafeSingleComponent(id) then s.(calls := s.calls[call := Doomed(h, fence, id, InvalidBackendId)])
      else
        (match Begin(s.inner, h, fence)
         case Failure(_) => s
         case Success(clone) => s.(calls := s.calls[call := Checking(h, fence, id, clone, bytes)]))
    case DoFile(call, probe, read) =>
      if call in s.calls && s.calls[call].Checking? then s.(calls := s.calls[call := FileWork(s.calls[call], probe, read)]) else s
    case DoDoom(call) =>
      if call in s.calls && s.calls[call].Doomed? then
        s.(inner := AbortBestEffort(s.inner, s.calls[call].h),
           calls := s.calls - {call},
           removed := s.removed + PendingDirectories(s.inner, {s.calls[call].h}))
      else s
    case DoCommit(call, draws) =>
      if call in s.calls && s.calls[call].Ready? then Committed(s, call, draws) else s
    case DoAbort(h, fence) =>
      if Abort(s.inner, h, fence).1.Failure? then s
      else s.(inner := Abort(s.inner, h, fence).0,
              removed := s.removed + PendingDirectories(s.inner, {h}),
              log := s.log + [Aborted(h)])
    case DoCleanupContext(contextId) =>
      s.(inner := CleanupContext(s.inner, contextId),
         removed := s.removed + PendingDirectories(s.inner, PendingOf(s.inner, contextId))
                    + CompletedDirectories(s.inner, CompletedOf(s.inner, contextId)))
    case DoCleanupAll =>
      s.(inner := Inner(map[], map[]),
         removed := s.removed + PendingDirectories(s.inner, s.inner.pending.Keys)
                    + CompletedDirectories(s.inner, s.inner.completed.Keys))
  }

  function Committed(s: System, call: CallId, draws: Draws): System
    requires call in s.calls && s.calls[call].Ready?
  {
    var k := s.calls[call];
    var (inner, r) := Commit(s.inner, k.h, k.fence, k.clone, draws);
    s.(inner := inner,
       calls := s.calls - {call},
       removed := s.removed + (if Begin(s.inner, k.h, k.fence).Success?
                               then CompletedDirectories(s.inner, Replaced(s.inner, k.fence, k.clone)) else {}),
       lost := s.lost + (if Begin(s.inner, k.h, k.fence).Success? && r.Failure? then {k.h} else {}),
       log := s.log + (if r.Success? then [Finalized(k.h, k.bytes, k.clone.name, k.data)] else []))
  }

  function Execute(acts: seq<Act>): System {
    if acts == [] then Start else Next(Execute(acts[..|acts| - 1]), acts[|acts| - 1])
  }

  /** Operation handles are never drawn twice in the whole run. */
  predicate FreshAct(s: System, a: Act) {
    a.DoPrepare? ==> forall h | h in a.draws :: h !in s.prepared
  }

  predicate FreshRun(acts: seq<Act>) {
    acts == [] || (FreshRun(acts[..|acts| - 1]) && FreshAct(Execute(acts[..|acts| - 1]), acts[|acts| - 1]))
  }
}
