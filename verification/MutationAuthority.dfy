/**
 The cross-process mutation authority as interleaved process steps over one lock
 and one durable (owner, epoch) cell. Each step is what a process does between
 two points where another process may run; a process may also die at any point,
 which releases its locks.
 */
module MutationAuthority {
  import opened Common

  type Pid = nat

  datatype Role = V1 | V2

  datatype Status = Status(owner: Role, epoch: u64)

  /** Where a process stands inside an operation on the authority. */
  datatype Pc =
    | Idle
    | InitOpen(owner: Role)                          // the cell was absent; about to lock
    | InitLocked(owner: Role)                        // locked; about to look again
    | InitWriting(owner: Role)                       // the cell is absent; about to rename
    | InitRenamed(owner: Role)                       // renamed; about to sync and unlock
    | AcquireLocked(role: Role)                      // locked; about to read the cell
    | Permit(owner: Role, epoch: u64)                // a live permit, which owns the lock
    | InspectLocked                                  // shared lock; about to read
    | SwitchLocked(expected: Role, next: Role)       // locked; about to read the cell
    | SwitchRead(current: Status, next: Role)        // owner verified; about to run the guard
    | SwitchWriting(current: Status, target: Status) // guard passed; about to rename
    | SwitchRenamed(current: Status, target: Status) // renamed; about to sync and unlock
  {
    predicate Exclusive() {
      InitLocked? || InitWriting? || InitRenamed? || AcquireLocked? || Permit?
      || SwitchLocked? || SwitchRead? || SwitchWriting? || SwitchRenamed?
    }
  }

  /**
   `cell` is the durable status file; `history` every status ever renamed into place and
   `initialized` the number of initializations that reported success.
   */
  datatype World = World(
    lockFile: bool,
    exclusive: Option<Pid>,
    shared: set<Pid>,
    cell: Option<Status>,
    pcs: map<Pid, Pc>,
    history: seq<Status>,
    initialized: nat)

  const Genesis := World(false, None, {}, None, map[], [], 0)

  datatype Act =
    | InitStart(owner: Role)
    | InitLock
    | InitCheck
    | AcquireStart(role: Role)
    | AcquireRead
    | DropPermit
    | InspectStart
    | InspectEnd
    | SwitchStart(expected: Role, next: Role)
    | ReadCell
    | RunGuard(passes: bool)
    | Rename
    | WriteFails
    | Finish(synced: bool)
    | Die

  function PcOf(w: World, p: Pid): Pc {
    if p in w.pcs then w.pcs[p] else Idle
  }

  function At(w: World, p: Pid, pc: Pc): World {
    w.(pcs := w.pcs[p := pc])
  }

  /** Returning from the operation, or dying, releases whatever the process had locked. */
  function Release(w: World, p: Pid): World {
    w.(exclusive := if w.exclusive == Some(p) then None else w.exclusive, shared := w.shared - {p}, pcs := w.pcs[p := Idle])
  }

  predicate LockFree(w: World) {
    w.exclusive.None? && w.shared == {}
  }

  /** `try_lock_exclusive`: takes the lock and moves on, or returns busy at once. */
  function TryLock(w: World, p: Pid, pc: Pc): World {
    if LockFree(w) then w.(exclusive := Some(p), pcs := w.pcs[p := pc]) else Release(w, p)
  }

  function Install(w: World, p: Pid, status: Status, pc: Pc): World {
    w.(cell := Some(status), history := w.history + [status], pcs := w.pcs[p := pc])
  }

  /** One step of process `p`; an act that does not fit its program counter does nothing. */
  function Next(w: World, p: Pid, a: Act): World {
    var pc := PcOf(w, p);
    match a
    case InitStart(owner) => if pc.Idle? && w.cell.None? then At(w, p, InitOpen(owner)) else w
    case InitLock => if pc.InitOpen? then TryLock(w.(lockFile := true), p, InitLocked(pc.owner)) else w
    case InitCheck =>
      if !pc.InitLocked? then w
      else if w.cell.Some? then Release(w, p)
      else At(w, p, InitWriting(pc.owner))
    case AcquireStart(role) => if pc.Idle? && w.lockFile then TryLock(w, p, AcquireLocked(role)) else w
    case AcquireRead =>
      if !pc.AcquireLocked? then w
      else if w.cell.None? || w.cell.value.owner != pc.role then Release(w, p)
      else At(w, p, Permit(w.cell.value.owner, w.cell.value.epoch))
    case DropPermit => if pc.Permit? then Release(w, p) else w
    case InspectStart =>
      if pc.Idle? && w.lockFile && w.exclusive.None? then At(w, p, InspectLocked).(shared := w.shared + {p}) else w
    case InspectEnd => if pc.InspectLocked? then Release(w, p) else w
    case SwitchStart(expected, next) =>
      if pc.Idle? && expected != next && w.lockFile then TryLock(w, p, SwitchLocked(expected, next)) else w
    case ReadCell =>
      if !pc.SwitchLocked? then w
      else if w.cell.None? || w.cell.value.owner != pc.expected then Release(w, p)
      else At(w, p, SwitchRead(w.cell.value, pc.next))
    case RunGuard(passes) =>
      if !pc.SwitchRead? then w
      else if !passes || pc.current.epoch == U64_MAX then Release(w, p)
      else At(w, p, SwitchWriting(pc.current, Status(pc.next, pc.current.epoch + 1)))
    case Rename =>
      if pc.InitWriting? then Install(w, p, Status(pc.owner, 1), InitRenamed(pc.owner))
      else if pc.SwitchWriting? then Install(w, p, pc.target, SwitchRenamed(pc.current, pc.target))
      else w
    case WriteFails => if pc.InitWriting? || pc.SwitchWriting? then Release(w, p) else w
    case Finish(synced) =>
      if pc.InitRenamed? then Release(w, p).(initialized := w.initialized + if synced then 1 else 0)
      else if pc.SwitchRenamed? then Release(w, p)
      else w
    case Die => Release(w, p)
  }

  /** A scheduled step: which process moves, and how. */
  datatype Move = Move(p: Pid, act: Act)

  function Execute(moves: seq<Move>): World {
    if moves == [] then Genesis
    else Next(Execute(moves[..|moves| - 1]), moves[|moves| - 1].p, moves[|moves| - 1].act)
  }

  // --------------------------------------------------------------- invariants

  function Other(r: Role): Role {
    if r == V1 then V2 else V1
  }

  function Successor(s: Status): Status
    requires s.epoch < U64_MAX
  {
    Status(Other(s.owner), s.epoch + 1)
  }

  /** The alternating chain (o, 1), (other, 2), (o, 3) and so on. */
  predicate Chain(history: seq<Status>) {
    forall i {:trigger history[i]} | 0 <= i < |history| ::
      && history[i].owner == (if i % 2 == 0 then history[0].owner else Other(history[0].owner))
      && history[i].epoch == i + 1
  }

  /** What the program counter of a process says about the durable cell. */
  predicate PcFits(w: World, p: Pid) {
    var pc := PcOf(w, p);
    && (pc.Exclusive() <==> w.exclusive == Some(p))
    && (pc.InspectLocked? <==> p in w.shared)
    && (pc.InitWriting? ==> w.cell.None?)
    && (pc.InitRenamed? ==> w.cell == Some(Status(pc.owner, 1)) && w.initialized == 0)
    && (pc.Permit? ==> w.cell == Some(Status(pc.owner, pc.epoch)))
    && (pc.SwitchLocked? ==> pc.expected != pc.next)
    && (pc.SwitchRead? ==> w.cell == Some(pc.current) && pc.next == Other(pc.current.owner))
    && (pc.SwitchWriting? ==> && w.cell == Some(pc.current) && pc.current.epoch < U64_MAX
                              && pc.target == Successor(pc.current))
    && (pc.SwitchRenamed? ==> && pc.current.epoch < U64_MAX && w.cell == Some(pc.target)
                              && pc.target == Successor(pc.current))
  }

  ghost predicate Inv(w: World) {
    && (forall p {:trigger PcFits(w, p)} :: PcFits(w, p))
    && (w.exclusive.Some? ==> w.shared == {})
    && (w.cell.None? <==> w.history == [])
    && (w.cell.Some? ==> w.cell.value == w.history[|w.history| - 1])
    && Chain(w.history)
    && w.initialized <= 1
    && (w.initialized == 1 ==> w.history != [])
  }

  /** Another process still fits after a step of `p` that leaves the cell alone. */
  lemma OthersStillFit(w: World, w': World, p: Pid, q: Pid)
    requires PcFits(w, q) && q != p && PcOf(w', q) == PcOf(w, q)
    requires w'.cell == w.cell && w'.initialized == w.initialized
    requires w'.exclusive == w.exclusive || (w'.exclusive != Some(q) && w.exclusive != Some(q))
    requires w'.shared - {p} == w.shared - {p}
    ensures PcFits(w', q)
  {
    assert q in w'.shared <==> q in w'.shared - {p};
    assert q in w.shared <==> q in w.shared - {p};
  }

  /** While one process holds the lock exclusively, no other is in a section that looks at the cell. */
  lemma AloneUnderLock(w: World, p: Pid, q: Pid)
    requires Inv(w) && PcOf(w, p).Exclusive() && q != p
    ensures !PcOf(w, q).Exclusive() && !PcOf(w, q).InspectLocked?
  {
    assert PcFits(w, p) && PcFits(w, q);
  }

  predicate Writes(w: World, p: Pid, a: Act) {
    (a.Rename? && (PcOf(w, p).InitWriting? || PcOf(w, p).SwitchWriting?)) || (a.Finish? && PcOf(w, p).InitRenamed?)
  }

  /** A process in no section that looks at the cell fits whatever the cell becomes. */
  lemma BystanderFits(w: World, q: Pid)
    requires !PcOf(w, q).Exclusive() && !PcOf(w, q).InspectLocked? && w.exclusive != Some(q) && q !in w.shared
    ensures PcFits(w, q)
  {
  }

  lemma ChainGrows(history: seq<Status>, next: Status)
    requires Chain(history)
    requires if history == [] then next.epoch == 1 else history[|history| - 1].epoch < U64_MAX && next == Successor(history[|history| - 1])
    ensures Chain(history + [next])
  {
    var n := |history|;
    forall i | 0 <= i < n + 1
      ensures (history + [next])[i].epoch == i + 1
      ensures (history + [next])[i].owner == if i % 2 == 0 then (history + [next])[0].owner else Other((history + [next])[0].owner)
    {
      if 0 < i == n {
        assert history[n - 1].epoch == n && (n - 1) % 2 != n % 2;
      }
    }
  }

  lemma WriterFits(w: World, p: Pid, a: Act)
    requires Inv(w) && Writes(w, p, a)
    ensures PcFits(Next(w, p, a), p)
  {
    assert PcFits(w, p);
  }

  lemma {:induction false} WritingKeepsInv(w: World, p: Pid, a: Act)
    requires Inv(w) && Writes(w, p, a)
    ensures Inv(Next(w, p, a))
  {
    var w' := Next(w, p, a);
    assert PcFits(w, p);
    WriterFits(w, p, a);
    if a.Rename? {
      var next := if PcOf(w, p).InitWriting? then Status(PcOf(w, p).owner, 1) else PcOf(w, p).target;
      ChainGrows(w.history, next);
    }
    forall q
      ensures PcFits(w', q)
    {
      if q != p {
        assert PcFits(w, q);
        AloneUnderLock(w, p, q);
        BystanderFits(w', q);
      }
    }
  }

  lemma ReleaseKeepsInv(w: World, p: Pid)
    requires Inv(w)
    ensures Inv(Release(w, p))
  {
    assert PcFits(w, p);
    forall q
      ensures PcFits(Release(w, p), q)
    {
      if q != p {
        assert PcFits(w, q);
        OthersStillFit(w, Release(w, p), p, q);
      }
    }
  }

  lemma LockKeepsInv(w: World, p: Pid, pc: Pc)
    requires Inv(w) && LockFree(w)
    requires pc.InitLocked? || pc.AcquireLocked? || (pc.SwitchLocked? && pc.expected != pc.next)
    ensures Inv(TryLock(w, p, pc))
  {
    var w' := TryLock(w, p, pc);
    forall q
      ensures PcFits(w', q)
    {
      assert PcFits(w, q);
    }
  }

  /** Moving on without touching the locks or the cell. */
  lemma AdvanceKeepsInv(w: World, p: Pid, pc: Pc)
    requires Inv(w) && PcFits(At(w, p, pc), p)
    ensures Inv(At(w, p, pc))
  {
    forall q
      ensures PcFits(At(w, p, pc), q)
    {
      assert PcFits(w, q);
    }
  }

  lemma InspectKeepsInv(w: World, p: Pid)
    requires Inv(w) && PcOf(w, p).Idle? && w.exclusive.None?
    ensures Inv(At(w, p, InspectLocked).(shared := w.shared + {p}))
  {
    var w' := At(w, p, InspectLocked).(shared := w.shared + {p});
    assert PcFits(w, p);
    forall q
      ensures PcFits(w', q)
    {
      if q != p {
        assert PcFits(w, q);
      }
    }
  }

  lemma LockFileIsIrrelevant(w: World)
    requires Inv(w)
    ensures Inv(w.(lockFile := true))
  {
    forall q
      ensures PcFits(w.(lockFile := true), q)
    {
      assert PcFits(w, q);
    }
  }

  lemma QuietStepKeepsInv(w: World, p: Pid, a: Act)
    requires Inv(w) && !Writes(w, p, a)
    ensures Inv(Next(w, p, a))
  {
    var pc, w' := PcOf(w, p), Next(w, p, a);
    assert PcFits(w, p);
    ReleaseKeepsInv(w, p);
    LockFileIsIrrelevant(w);
    ReleaseKeepsInv(w.(lockFile := true), p);
    if w' == w || w' == Release(w, p) {
    } else if a.InitLock? || a.AcquireStart? || a.SwitchStart? {
      if LockFree(w) {
        LockKeepsInv(if a.InitLock? then w.(lockFile := true) else w, p, PcOf(w', p));
      }
    } else if a.InspectStart? {
      InspectKeepsInv(w, p);
    } else {
      assert w' == At(w, p, PcOf(w', p));
      AdvanceKeepsInv(w, p, PcOf(w', p));
    }
  }

  /** Every schedule of process steps, crashes included, keeps the invariant. */
  lemma {:induction false} EveryScheduleIsSound(moves: seq<Move>)
    ensures Inv(Execute(moves))
  {
    if moves != [] {
      var before, m := moves[..|moves| - 1], moves[|moves| - 1];
      EveryScheduleIsSound(before);
      if Writes(Execute(before), m.p, m.act) {
        WritingKeepsInv(Execute(before), m.p, m.act);
      } else {
        QuietStepKeepsInv(Execute(before), m.p, m.act);
      }
    }
  }

  // ---------------------------------------------------------------- theorems

  /** At most one process holds a permit, switches, or initializes under the lock at a time. */
  lemma MutualExclusion(moves: seq<Move>, p: Pid, q: Pid)
    requires PcOf(Execute(moves), p).Exclusive() && PcOf(Execute(moves), q).Exclusive()
    ensures p == q
  {
    EveryScheduleIsSound(moves);
    assert PcFits(Execute(moves), p) && PcFits(Execute(moves), q);
  }

  /** For as long as a permit lives, its owner and epoch are the durable ones. */
  lemma PermitIsFresh(moves: seq<Move>, p: Pid)
    requires PcOf(Execute(moves), p).Permit?
    ensures var w := Execute(moves);
      w.cell == Some(Status(PcOf(w, p).owner, PcOf(w, p).epoch)) && PcOf(w, p).epoch == |w.history|
  {
    EveryScheduleIsSound(moves);
    assert PcFits(Execute(moves), p);
  }

  /** At most one initialization ever reports success, and the cell never vanishes or restarts. */
  lemma InitializesAtMostOnce(moves: seq<Move>)
    ensures Execute(moves).initialized <= 1
    ensures var w := Execute(moves);
      w.cell.Some? ==> w.cell.value.epoch == |w.history|
  {
    EveryScheduleIsSound(moves);
  }

  /** The durable owner is the initial owner exactly at odd epochs. */
  lemma OwnersAlternate(moves: seq<Move>)
    requires Execute(moves).cell.Some?
    ensures var w := Execute(moves);
      && Chain(w.history) && w.history != []
      && (w.cell.value.owner == w.history[0].owner <==> w.cell.value.epoch % 2 == 1)
  {
    EveryScheduleIsSound(moves);
  }

  /** The status a switch read under the lock. */
  predicate InSwitchSection(pc: Pc) {
    pc.SwitchRead? || pc.SwitchWriting? || pc.SwitchRenamed?
  }

  /**
   However a switch ends (guard refusal, overflow, I/O failure before or after the rename,
   or death) the cell then holds the status it read or that status' exact successor, and
   the successor whenever the switch reports success.
   */
  lemma SwitchLeavesOldOrSuccessor(moves: seq<Move>, p: Pid, a: Act)
    requires InSwitchSection(PcOf(Execute(moves), p)) && PcOf(Next(Execute(moves), p, a), p).Idle?
    ensures var w := Execute(moves);
      var current := PcOf(w, p).current;
      var after := Next(w, p, a).cell;
      && (after == Some(current) || (current.epoch < U64_MAX && after == Some(Successor(current))))
      && (a == Finish(true) ==> current.epoch < U64_MAX && after == Some(Successor(current)))
  {
    EveryScheduleIsSound(moves);
    assert PcFits(Execute(moves), p);
  }

  lemma StepExtendsHistory(w: World, p: Pid, a: Act)
    ensures w.history <= Next(w, p, a).history
  {
  }

  lemma {:induction false} HistoryOnlyGrows(moves: seq<Move>, n: nat)
    requires n <= |moves|
    ensures Execute(moves[..n]).history <= Execute(moves).history
  {
    if n == |moves| {
      assert moves[..n] == moves;
    } else {
      var before := moves[..|moves| - 1];
      assert before[..n] == moves[..n];
      HistoryOnlyGrows(before, n);
      StepExtendsHistory(Execute(before), moves[|moves| - 1].p, moves[|moves| - 1].act);
    }
  }

  /** Two permits of one run with the same epoch have no switch between them. */
  lemma EqualEpochsMeanNoSwitch(moves: seq<Move>, n: nat, p: Pid, q: Pid)
    requires n <= |moves| && PcOf(Execute(moves[..n]), p).Permit? && PcOf(Execute(moves), q).Permit?
    requires PcOf(Execute(moves[..n]), p).epoch == PcOf(Execute(moves), q).epoch
    ensures Execute(moves[..n]).history == Execute(moves).history
    ensures PcOf(Execute(moves[..n]), p).owner == PcOf(Execute(moves), q).owner
  {
    PermitIsFresh(moves[..n], p);
    PermitIsFresh(moves, q);
    HistoryOnlyGrows(moves, n);
    EveryScheduleIsSound(moves);
    EveryScheduleIsSound(moves[..n]);
  }

  // --------------------------------------------------- what was asked for

  /** What the last call that a process began asks for. */
  datatype Request =
    | Nothing
    | Init(owner: Role)
    | Acquire(role: Role)
    | Inspect
    | Switch(expected: Role, next: Role)

  /** The call, if any, that a move of an idle process begins. */
  function Begun(a: Act): Option<Request> {
    match a
    case InitStart(owner) => Some(Init(owner))
    case AcquireStart(role) => Some(Acquire(role))
    case InspectStart => Some(Inspect)
    case SwitchStart(expected, next) => Some(Switch(expected, next))
    case _ => None
  }

  /** What process `p` asked for in the last call it began while idle, read off the schedule alone. */
  function Asked(moves: seq<Move>, p: Pid): Request {
    if moves == [] then Nothing
    else
      var before, m := moves[..|moves| - 1], moves[|moves| - 1];
      if m.p == p && PcOf(Execute(before), p).Idle? && Begun(m.act).Some? then Begun(m.act).value else Asked(before, p)
  }

  /** Where a process stands agrees with what it asked for. */
  predicate Answers(pc: Pc, asked: Request) {
    match pc
    case Idle => true
    case InitOpen(owner) => asked == Init(owner)
    case InitLocked(owner) => asked == Init(owner)
    case InitWriting(owner) => asked == Init(owner)
    case InitRenamed(owner) => asked == Init(owner)
    case AcquireLocked(role) => asked == Acquire(role)
    case Permit(owner, _) => asked == Acquire(owner)
    case InspectLocked => asked == Inspect
    case SwitchLocked(expected, next) => asked == Switch(expected, next)
    case SwitchRead(current, next) => asked == Switch(current.owner, next)
    case SwitchWriting(current, target) => asked == Switch(current.owner, target.owner)
    case SwitchRenamed(current, target) => asked == Switch(current.owner, target.owner)
  }

  lemma OthersDoNotMove(w: World, p: Pid, a: Act, q: Pid)
    requires q != p
    ensures PcOf(Next(w, p, a), q) == PcOf(w, q)
  {
  }

  lemma MoverAnswers(w: World, p: Pid, a: Act, asked: Request)
    requires Answers(PcOf(w, p), asked)
    ensures PcOf(w, p).Idle? && Begun(a).Some? ==> Answers(PcOf(Next(w, p, a), p), Begun(a).value)
    ensures !(PcOf(w, p).Idle? && Begun(a).Some?) ==> Answers(PcOf(Next(w, p, a), p), asked)
  {
  }

  /** In every schedule each process stands where only the call it last began can have taken it. */
  lemma {:induction false} EveryoneAnswersWhatWasAsked(moves: seq<Move>, p: Pid)
    ensures Answers(PcOf(Execute(moves), p), Asked(moves, p))
  {
    if moves != [] {
      var before, m := moves[..|moves| - 1], moves[|moves| - 1];
      EveryoneAnswersWhatWasAsked(before, p);
      if m.p == p {
        MoverAnswers(Execute(before), p, m.act, Asked(before, p));
      } else {
        OthersDoNotMove(Execute(before), m.p, m.act, p);
      }
    }
  }

  /** Whoever holds a permit asked for it in the role that owns the durable cell, and in no other. */
  lemma PermitIsForTheRoleThatAsked(moves: seq<Move>, p: Pid)
    requires PcOf(Execute(moves), p).Permit?
    ensures var w := Execute(moves);
      w.cell.Some? && Asked(moves, p) == Acquire(w.cell.value.owner) && PcOf(w, p) == Permit(w.cell.value.owner, w.cell.value.epoch)
  {
    EveryoneAnswersWhatWasAsked(moves, p);
    PermitIsFresh(moves, p);
  }

  // ------------------------------------------------------------- outcomes

  lemma OneMoreMove(moves: seq<Move>, m: Move)
    ensures Execute(moves + [m]) == Next(Execute(moves), m.p, m.act)
    ensures Asked(moves + [m], m.p) ==
      if PcOf(Execute(moves), m.p).Idle? && Begun(m.act).Some? then Begun(m.act).value else Asked(moves, m.p)
  {
    assert (moves + [m])[..|moves|] == moves;
  }

  /** The process is out of its call, holds no lock, and the cell is as it was. */
  predicate LetGo(before: World, after: World, p: Pid) {
    PcOf(after, p).Idle? && after.exclusive != Some(p) && p !in after.shared && after.cell == before.cell && after.history == before.history
  }

  /**
   Under the lock an acquire ends in a permit if and only if the cell is there and belongs to the
   role that asked; otherwise the process is let go with nothing changed.
   */
  lemma AcquireExactly(moves: seq<Move>, p: Pid)
    requires PcOf(Execute(moves), p).AcquireLocked?
    ensures var w, w' := Execute(moves), Execute(moves + [Move(p, AcquireRead)]);
      && Asked(moves, p).Acquire?
      && (PcOf(w', p).Permit? <==> w.cell.Some? && w.cell.value.owner == Asked(moves, p).role)
      && (PcOf(w', p).Permit? ==> PcOf(w', p) == Permit(w.cell.value.owner, w.cell.value.epoch) && w'.exclusive == Some(p) && w'.cell == w.cell)
      && (!PcOf(w', p).Permit? ==> LetGo(w, w', p))
  {
    EveryoneAnswersWhatWasAsked(moves, p);
    EveryScheduleIsSound(moves);
    assert PcFits(Execute(moves), p);
    OneMoreMove(moves, Move(p, AcquireRead));
  }

  /** An idle process gets into an exclusive call if and only if the lock file is there and nobody holds the lock in any way. */
  lemma LockingExactly(moves: seq<Move>, p: Pid, a: Act)
    requires PcOf(Execute(moves), p).Idle? && (a.AcquireStart? || (a.SwitchStart? && a.expected != a.next))
    ensures var w, w' := Execute(moves), Execute(moves + [Move(p, a)]);
      && (PcOf(w', p).Exclusive() <==>
            w.lockFile && forall q :: !PcOf(w, q).Exclusive() && !PcOf(w, q).InspectLocked?)
      && (!PcOf(w', p).Exclusive() ==> LetGo(w, w', p))
  {
    var w := Execute(moves);
    EveryScheduleIsSound(moves);
    OneMoreMove(moves, Move(p, a));
    assert PcFits(w, p);
    HeldBySomeone(w);
  }

  /** The lock is taken exactly when some process stands in a section that needs it. */
  lemma HeldBySomeone(w: World)
    requires Inv(w)
    ensures LockFree(w) <==> forall q :: !PcOf(w, q).Exclusive() && !PcOf(w, q).InspectLocked?
  {
    if w.exclusive.Some? {
      assert PcFits(w, w.exclusive.value);
    } else if w.shared != {} {
      var q :| q in w.shared;
      assert PcFits(w, q);
    } else {
      forall q
        ensures !PcOf(w, q).Exclusive() && !PcOf(w, q).InspectLocked?
      {
        assert PcFits(w, q);
      }
    }
  }

  /** An idle process gets to inspect if and only if the lock file is there and nobody is in an exclusive call. */
  lemma InspectExactly(moves: seq<Move>, p: Pid)
    requires PcOf(Execute(moves), p).Idle?
    ensures var w, w' := Execute(moves), Execute(moves + [Move(p, InspectStart)]);
      && (PcOf(w', p).InspectLocked? <==> w.lockFile && forall q :: !PcOf(w, q).Exclusive())
      && w'.cell == w.cell && w'.exclusive == w.exclusive
      && (!PcOf(w', p).InspectLocked? ==> w' == w)
  {
    var w := Execute(moves);
    EveryScheduleIsSound(moves);
    OneMoreMove(moves, Move(p, InspectStart));
    if w.exclusive.Some? {
      assert PcFits(w, w.exclusive.value);
    } else {
      forall q
        ensures !PcOf(w, q).Exclusive()
      {
        assert PcFits(w, q);
      }
    }
  }

  /** The act is a way out of the call that stands at `pc`: a drop, a finish, a failed write, or the death of the process. */
  predicate WayOut(pc: Pc, a: Act) {
    || (pc.Permit? && a.DropPermit?) || (pc.InspectLocked? && a.InspectEnd?)
    || ((pc.InitWriting? || pc.SwitchWriting?) && a.WriteFails?) || ((pc.InitRenamed? || pc.SwitchRenamed?) && a.Finish?)
    || a.Die?
  }

  /** However a call ends, its process is let go of the lock, the cell stays, and every other process stands where it stood. */
  lemma EveryWayOutLetsGo(moves: seq<Move>, p: Pid, a: Act)
    requires WayOut(PcOf(Execute(moves), p), a)
    ensures var w, w' := Execute(moves), Execute(moves + [Move(p, a)]);
      && LetGo(w, w', p)
      && (forall q | q != p :: PcOf(w', q) == PcOf(w, q))
      && (forall q | q != p :: (q in w'.shared <==> q in w.shared) && (w'.exclusive == Some(q) <==> w.exclusive == Some(q)))
  {
    OneMoreMove(moves, Move(p, a));
  }

  /** A switch to the owner it names as current begins nothing. */
  lemma SwitchToItselfIsRefused(moves: seq<Move>, p: Pid, role: Role)
    requires PcOf(Execute(moves), p).Idle?
    ensures Execute(moves + [Move(p, SwitchStart(role, role))]) == Execute(moves)
  {
    OneMoreMove(moves, Move(p, SwitchStart(role, role)));
  }

  /**
   Under the lock a switch goes on if and only if the cell is there and belongs to the owner that
   was named as current, and past that if and only if the guard passes and the epoch can grow.
   */
  lemma SwitchExactly(moves: seq<Move>, p: Pid, passes: bool)
    ensures PcOf(Execute(moves), p).SwitchLocked? ==>
      var w, w' := Execute(moves), Execute(moves + [Move(p, ReadCell)]);
      && Asked(moves, p).Switch?
      && (PcOf(w', p).SwitchRead? <==> w.cell.Some? && w.cell.value.owner == Asked(moves, p).expected)
      && (PcOf(w', p).SwitchRead? ==> PcOf(w', p).current == w.cell.value && w'.cell == w.cell)
      && (!PcOf(w', p).SwitchRead? ==> LetGo(w, w', p))
    ensures PcOf(Execute(moves), p).SwitchRead? ==>
      var w, w' := Execute(moves), Execute(moves + [Move(p, RunGuard(passes))]);
      && w.cell.Some?
      && (PcOf(w', p).SwitchWriting? <==> passes && w.cell.value.epoch < U64_MAX)
      && (!PcOf(w', p).SwitchWriting? ==> LetGo(w, w', p))
  {
    EveryoneAnswersWhatWasAsked(moves, p);
    EveryScheduleIsSound(moves);
    assert PcFits(Execute(moves), p);
    OneMoreMove(moves, Move(p, ReadCell));
    OneMoreMove(moves, Move(p, RunGuard(passes)));
  }

  /**
   Every write of the cell is what its writer asked for: the first owner at epoch one into an empty
   cell, or the owner named as next, one epoch on, over the owner named as current.
   */
  lemma WritesAreAskedFor(moves: seq<Move>, m: Move)
    requires Execute(moves + [m]).cell != Execute(moves).cell
    ensures var w, w', asked := Execute(moves), Execute(moves + [m]), Asked(moves, m.p);
      || (asked.Init? && w.cell.None? && w'.cell == Some(Status(asked.owner, 1)))
      || (asked.Switch? && w.cell.Some? && w.cell.value.owner == asked.expected && w.cell.value.epoch < U64_MAX
          && w'.cell == Some(Status(asked.next, w.cell.value.epoch + 1)))
  {
    EveryoneAnswersWhatWasAsked(moves, m.p);
    EveryScheduleIsSound(moves);
    OneMoreMove(moves, m);
    assert PcFits(Execute(moves), m.p);
    WriteAnswers(Execute(moves), m.p, m.act, Asked(moves, m.p));
  }

  lemma WriteAnswers(w: World, p: Pid, a: Act, asked: Request)
    requires PcFits(w, p) && Answers(PcOf(w, p), asked) && Next(w, p, a).cell != w.cell
    ensures var after := Next(w, p, a).cell;
      || (asked.Init? && w.cell.None? && after == Some(Status(asked.owner, 1)))
      || (asked.Switch? && w.cell.Some? && w.cell.value.owner == asked.expected && w.cell.value.epoch < U64_MAX
          && after == Some(Status(asked.next, w.cell.value.epoch + 1)))
  {
    OnlyRenamesWrite(w, p, a);
  }

  lemma OnlyRenamesWrite(w: World, p: Pid, a: Act)
    requires Next(w, p, a).cell != w.cell
    ensures var pc, after := PcOf(w, p), Next(w, p, a).cell;
      a.Rename? && ((pc.InitWriting? && after == Some(Status(pc.owner, 1))) || (pc.SwitchWriting? && after == Some(pc.target)))
  {
  }

  /** The moves of one process left alone with the lock, from idle to idle. */
  function Alone(p: Pid, acts: seq<Act>): seq<Move> {
    seq(|acts|, i requires 0 <= i < |acts| => Move(p, acts[i]))
  }

  function Undisturbed(w: World, p: Pid, acts: seq<Act>): World {
    if acts == [] then w else Next(Undisturbed(w, p, acts[..|acts| - 1]), p, acts[|acts| - 1])
  }

  lemma {:induction false} AloneIsUndisturbed(moves: seq<Move>, p: Pid, acts: seq<Act>)
    ensures Execute(moves + Alone(p, acts)) == Undisturbed(Execute(moves), p, acts)
  {
    if acts == [] {
      assert moves + Alone(p, acts) == moves;
    } else {
      var before, last := acts[..|acts| - 1], acts[|acts| - 1];
      AloneIsUndisturbed(moves, p, before);
      assert moves + Alone(p, acts) == (moves + Alone(p, before)) + [Move(p, last)];
      OneMoreMove(moves + Alone(p, before), Move(p, last));
    }
  }

  /** A switch from start to end. */
  function SwitchActs(expected: Role, next: Role): seq<Act> {
    [SwitchStart(expected, next), ReadCell, RunGuard(true), Rename, Finish(true)]
  }

  lemma SwitchRunsThrough(w: World, p: Pid, next: Role)
    requires PcOf(w, p).Idle? && LockFree(w) && w.lockFile
    requires w.cell.Some? && w.cell.value.owner != next && w.cell.value.epoch < U64_MAX
    ensures var w' := Undisturbed(w, p, SwitchActs(w.cell.value.owner, next));
      && PcOf(w', p).Idle? && LockFree(w') && w'.cell == Some(Status(next, w.cell.value.epoch + 1))
      && w'.history == w.history + [Status(next, w.cell.value.epoch + 1)]
  {
    FiveSteps(w, p, SwitchStart(w.cell.value.owner, next), ReadCell, RunGuard(true), Rename, Finish(true));
    SwitchSteps(w, p, next);
  }

  /** Undisturbed, with a passing guard and a write that goes through, a switch that names the current owner installs the other. */
  lemma UndisturbedSwitchSwitches(moves: seq<Move>, p: Pid, next: Role)
    requires PcOf(Execute(moves), p).Idle? && LockFree(Execute(moves)) && Execute(moves).lockFile
    requires Execute(moves).cell.Some? && Execute(moves).cell.value.owner != next && Execute(moves).cell.value.epoch < U64_MAX
    ensures var w := Execute(moves);
      var w' := Execute(moves + Alone(p, SwitchActs(w.cell.value.owner, next)));
      && PcOf(w', p).Idle? && LockFree(w') && w'.cell == Some(Status(next, w.cell.value.epoch + 1))
      && w'.history == w.history + [Status(next, w.cell.value.epoch + 1)]
  {
    var w := Execute(moves);
    AloneIsUndisturbed(moves, p, SwitchActs(w.cell.value.owner, next));
    SwitchRunsThrough(w, p, next);
  }

  lemma SwitchSteps(w: World, p: Pid, next: Role)
    requires PcOf(w, p).Idle? && LockFree(w) && w.lockFile
    requires w.cell.Some? && w.cell.value.owner != next && w.cell.value.epoch < U64_MAX
    ensures var w' := Next(Next(Next(Next(Next(w, p, SwitchStart(w.cell.value.owner, next)), p, ReadCell), p, RunGuard(true)), p, Rename), p, Finish(true));
      && PcOf(w', p).Idle? && LockFree(w') && w'.cell == Some(Status(next, w.cell.value.epoch + 1))
      && w'.history == w.history + [Status(next, w.cell.value.epoch + 1)]
  {
    var w1 := Next(w, p, SwitchStart(w.cell.value.owner, next));
    assert PcOf(w1, p) == SwitchLocked(w.cell.value.owner, next) && w1.cell == w.cell;
    var w2 := Next(w1, p, ReadCell);
    assert PcOf(w2, p) == SwitchRead(w.cell.value, next);
    var w3 := Next(w2, p, RunGuard(true));
    assert PcOf(w3, p) == SwitchWriting(w.cell.value, Status(next, w.cell.value.epoch + 1));
    var w4 := Next(w3, p, Rename);
    assert w4.exclusive == Some(p) && w4.shared == {};
  }

  lemma FiveSteps(w: World, p: Pid, a: Act, b: Act, c: Act, d: Act, e: Act)
    ensures Undisturbed(w, p, [a, b, c, d, e]) == Next(Next(Next(Next(Next(w, p, a), p, b), p, c), p, d), p, e)
  {
    var s := [a, b, c, d, e];
    assert s[..4] == [a, b, c, d] && [a, b, c, d][..3] == [a, b, c] && [a, b, c][..2] == [a, b] && [a, b][..1] == [a] && [a][..0] == [];
    assert Undisturbed(w, p, [a]) == Next(w, p, a);
    assert Undisturbed(w, p, [a, b]) == Next(Next(w, p, a), p, b);
    assert Undisturbed(w, p, [a, b, c]) == Next(Next(Next(w, p, a), p, b), p, c);
    assert Undisturbed(w, p, [a, b, c, d]) == Next(Next(Next(Next(w, p, a), p, b), p, c), p, d);
  }

  /** Undisturbed, an initialization of an empty cell installs the owner it names and reports success. */
  lemma UndisturbedInitInitializes(moves: seq<Move>, p: Pid, owner: Role)
    requires PcOf(Execute(moves), p).Idle? && LockFree(Execute(moves)) && Execute(moves).cell.None?
    ensures var w := Execute(moves);
      var w' := Execute(moves + Alone(p, [InitStart(owner), InitLock, InitCheck, Rename, Finish(true)]));
      && PcOf(w', p).Idle? && LockFree(w') && w'.lockFile && w'.cell == Some(Status(owner, 1)) && w'.initialized == w.initialized + 1
  {
    var w := Execute(moves);
    AloneIsUndisturbed(moves, p, [InitStart(owner), InitLock, InitCheck, Rename, Finish(true)]);
    FiveSteps(w, p, InitStart(owner), InitLock, InitCheck, Rename, Finish(true));
    var w1 := Next(w, p, InitStart(owner));
    assert PcOf(w1, p) == InitOpen(owner);
    var w2 := Next(w1, p, InitLock);
    assert PcOf(w2, p) == InitLocked(owner);
    var w3 := Next(w2, p, InitCheck);
    assert PcOf(w3, p) == InitWriting(owner);
    var w4 := Next(w3, p, Rename);
    assert PcOf(w4, p) == InitRenamed(owner);
  }
}
