/** The asyncio pool as a system of any number of tasks, interleaved at every await, where
    each awaited operation may work, fail with an exception, or be cancelled. */
module NzPoolRuns {
  import opened Queues
  import opened NzPools
  import opened Phases
  import opened Tally

  /** Where a task is suspended. `acq`: the fill runs inside `acquire`. `again`: the
      operation goes on with its loop after the drop instead of raising. `Connecting` has
      no socket yet; `Building` has one. */
  datatype Pc =
    | Out
    // acquire
    | AcqTop | AcqLock | AcqWait
    | Connecting | Building(c: Conn, ph: Phase) | HookFailed(c: Conn) | NewClosing(c: Conn)
    | Validating(c: Conn) | DropClosing(c: Conn, again: bool)
    // release
    | Releasing(c: Conn) | ReleaseClosing(c: Conn)
    // _fill_idle
    | FillTop(acq: bool) | FillConnecting(acq: bool) | FillBuilding(c: Conn, ph: Phase, acq: bool)
    | FillHookFailed(c: Conn, acq: bool) | FillClosing(c: Conn, acq: bool)
    // _sweep_idle
    | SweepTop(left: nat) | SweepTesting(c: Conn, left: nat) | SweepClosing(c: Conn, left: nat, again: bool)
    // close_all
    | Shutting(cs: seq<Conn>)

  /** How an awaited operation ends: it works, it raises an `Exception`, it raises one after
      the driver closed the socket itself (an error of the socket while dialling, the end of
      the stream or a framing fault later on), or it is cancelled. */
  datatype Outcome = Good | Bad | Cut | Abort

  datatype Action = Acquire | Release(c: Conn) | Fill | Sweep | Shutdown | Proceed(o: Outcome)

  datatype Event = Event(t: nat, a: Action)

  /** `live`: connections opened and not yet closed by their owner. `lost`: the live ones
      that no code refers to any more. Connection numbers below `nextId` have been used. */
  datatype State = State(b: Book, ts: seq<Pc>, live: set<Conn>, lost: set<Conn>, nextId: nat, minSize: nat, maxSize: nat)

  datatype Change = Change(b: Book, pc: Pc, opens: set<Conn>, closes: set<Conn>, loses: set<Conn>)

  function Moved(b: Book, pc: Pc): Change { Change(b, pc, {}, {}, {}) }

  function Opening(b: Book, pc: Pc, c: Conn): Change { Change(b, pc, {c}, {}, {}) }

  function Closing(b: Book, pc: Pc, c: Conn): Change { Change(b, pc, {}, {c}, {}) }

  function Losing(b: Book, pc: Pc, c: Conn): Change { Change(b, pc, {}, {}, {c}) }

  /** The operation of phase `ph` ends in a way that no handler on its path closes the socket
      for: `connect` guards its dialling against socket errors and its handshake against
      everything, the session set-up against nothing; the hook is guarded against `Exception`. */
  predicate Unguarded(ph: Phase, o: Outcome) {
    match ph
    case Dial => o.Bad? || o.Abort?
    case Greet => false
    case SetUp => o.Bad? || o.Abort?
    case Hook => o.Abort?
  }

  /** An opening that fails in phase `ph` gives its place back. The connection is closed, or
      left open with nobody to close it, or (after a failed hook) about to be closed. */
  function Failed(b: Book, ph: Phase, o: Outcome, c: Conn, hookFailed: Pc, raised: Pc): Change {
    if Unguarded(ph, o) then Losing(Uncounted(b), raised, c)
    else if ph.Hook? then Moved(b, hookFailed)
    else Closing(Uncounted(b), raised, c)
  }

  function Enter(b: Book, a: Action): Change {
    match a
    case Acquire => Moved(b, if b.closed then Out else AcqTop)
    case Release(c) => Moved(b, Releasing(c))
    case Fill => Moved(b, FillTop(false))
    case Sweep => Moved(b, SweepTop(|b.idle|))
    case Shutdown => Moved(Shut(b), Shutting(b.idle + b.out))
    case Proceed(_) => Moved(b, Out)
  }

  predicate InAcquire(pc: Pc) {
    pc.AcqTop? || pc.AcqLock? || pc.AcqWait? || pc.Connecting? || pc.Building? || pc.HookFailed? ||
    pc.NewClosing? || pc.Validating? || pc.DropClosing?
  }

  /** A step of `acquire`. A task that returns a connection is out of the pool again. */
  function AcquireStep(b: Book, pc: Pc, o: Outcome, newborn: Conn, maxSize: nat): Change
    requires InAcquire(pc)
  {
    match pc
    case AcqTop => Moved(b, if b.closed then Out else FillTop(true))
    case AcqLock =>
      if o.Abort? then Moved(b, Out)
      else
        var (b', answer) := Look(b, maxSize);
        Moved(b', match answer
                  case Got(c) => Validating(c)
                  case Reserved => Connecting
                  case _ => AcqWait)
    case AcqWait => Moved(b, if o.Good? then AcqTop else Out)
    case Connecting => if o.Good? then Opening(b, Building(newborn, Dial), newborn) else Moved(Uncounted(b), Out)
    case Building(c, ph) =>
      if !o.Good? then Failed(b, ph, o, c, HookFailed(c), Out)
      else if !ph.Hook? then Moved(b, Building(c, After(ph)))
      else var (b', answer) := AdoptNew(b, c); Moved(b', if answer.Kept? then Out else NewClosing(c))
    case HookFailed(c) => Closing(Uncounted(b), Out, c)
    case NewClosing(c) => Closing(b, Out, c)
    case Validating(c) =>
      if o.Good? then
        var (b', answer) := CheckOut(b, c); Moved(b', if answer.Kept? then Out else DropClosing(c, false))
      else Moved(DropOwned(b, c), DropClosing(c, !o.Abort?))
    case DropClosing(c, again) => Closing(b, if again && !o.Abort? then AcqTop else Out, c)
  }

  predicate InFill(pc: Pc) {
    pc.FillTop? || pc.FillConnecting? || pc.FillBuilding? || pc.FillHookFailed? || pc.FillClosing?
  }

  function AfterFill(acq: bool): Pc { if acq then AcqLock else Out }

  /** A step of `_fill_idle`. */
  function FillStep(b: Book, pc: Pc, o: Outcome, newborn: Conn, minSize: nat): Change
    requires InFill(pc)
  {
    match pc
    case FillTop(acq) =>
      if o.Abort? then Moved(b, Out)
      else
        var (b', answer) := FillReserve(b, minSize);
        Moved(b', if answer.Reserved? then FillConnecting(acq) else AfterFill(acq))
    case FillConnecting(acq) =>
      if o.Good? then Opening(b, FillBuilding(newborn, Dial, acq), newborn)
      else Moved(Uncounted(b), if o.Abort? then Out else AfterFill(acq))
    case FillBuilding(c, ph, acq) =>
      if !o.Good? then Failed(b, ph, o, c, FillHookFailed(c, acq), if o.Abort? then Out else AfterFill(acq))
      else if !ph.Hook? then Moved(b, FillBuilding(c, After(ph), acq))
      else var (b', answer) := FillPublish(b, c); Moved(b', if answer.Kept? then FillTop(acq) else FillClosing(c, acq))
    case FillHookFailed(c, acq) => Closing(Uncounted(b), if o.Abort? then Out else AfterFill(acq), c)
    case FillClosing(c, acq) => Closing(b, if o.Abort? then Out else AfterFill(acq), c)
  }

  predicate InSweep(pc: Pc) { pc.SweepTop? || pc.SweepTesting? || pc.SweepClosing? }

  /** A step of `_sweep_idle`. */
  function SweepStep(b: Book, pc: Pc, o: Outcome): Change
    requires InSweep(pc)
  {
    match pc
    case SweepTop(left) =>
      var (b', answer) := SweepTake(b);
      if left == 0 || o.Abort? || !answer.Got? then Moved(b, Out) else Moved(b', SweepTesting(answer.c, left - 1))
    case SweepTesting(c, left) =>
      var (b', answer) := SweepReturn(b, c, o.Good?);
      Moved(b', if answer.Kept? then SweepTop(left) else SweepClosing(c, left, !o.Abort?))
    case SweepClosing(c, left, again) => Closing(b, if again && !o.Abort? then SweepTop(left) else Out, c)
  }

  predicate InLeave(pc: Pc) { pc.Releasing? || pc.ReleaseClosing? || pc.Shutting? }

  /** A step of `release` or `close_all`. */
  function LeaveStep(b: Book, pc: Pc, o: Outcome): Change
    requires InLeave(pc)
  {
    match pc
    case Releasing(c) =>
      if o.Abort? then Moved(b, Out)
      else
        var (b', answer) := ReleaseRegion(b, c, o.Good?); Moved(b', if answer.Dropped? then ReleaseClosing(c) else Out)
    case ReleaseClosing(c) => Closing(b, Out, c)
    case Shutting(cs) => if cs == [] then Moved(b, Out) else Closing(b, Shutting(cs[1..]), cs[0])
  }

  function StepOf(s: State, pc: Pc, a: Action): Change {
    if pc == Out then Enter(s.b, a)
    else if !a.Proceed? then Moved(s.b, pc)
    else if InAcquire(pc) then AcquireStep(s.b, pc, a.o, s.nextId, s.maxSize)
    else if InFill(pc) then FillStep(s.b, pc, a.o, s.nextId, s.minSize)
    else if InSweep(pc) then SweepStep(s.b, pc, a.o)
    else LeaveStep(s.b, pc, a.o)
  }

  function Apply(s: State, t: nat, ch: Change): State
    requires t < |s.ts|
  {
    State(ch.b, s.ts[t := ch.pc], s.live + ch.opens - ch.closes, s.lost + ch.loses, s.nextId + |ch.opens|, s.minSize, s.maxSize)
  }

  function Next(s: State, e: Event): State {
    if e.t < |s.ts| then Apply(s, e.t, StepOf(s, s.ts[e.t], e.a)) else s
  }

  function Run(s: State, es: seq<Event>): State
    decreases es
  {
    if es == [] then s else Run(Next(s, es[0]), es[1..])
  }

  function Start(tasks: nat, minSize: nat, maxSize: nat): State {
    State(EmptyBook(), seq(tasks, _ => Out), {}, {}, 0, minSize, maxSize)
  }

  // ----- what a task holds --------------------------------------------------------

  /** The connection the task is validating. */
  function Tested(pc: Pc): seq<Conn> {
    match pc
    case Validating(c) => [c]
    case SweepTesting(c, _) => [c]
    case _ => []
  }

  /** The connections the task owns: in no queue, in nobody else's hands. */
  function Held(pc: Pc): seq<Conn> {
    match pc
    case Building(c, _) => [c]
    case HookFailed(c) => [c]
    case NewClosing(c) => [c]
    case Validating(c) => [c]
    case DropClosing(c, _) => [c]
    case ReleaseClosing(c) => [c]
    case FillBuilding(c, _, _) => [c]
    case FillHookFailed(c, _) => [c]
    case FillClosing(c, _) => [c]
    case SweepTesting(c, _) => [c]
    case SweepClosing(c, _, _) => [c]
    case Shutting(cs) => cs
    case _ => []
  }

  /** A place in `_created` owned by a task that is opening a connection. */
  function Opens(pc: Pc): nat {
    if pc.Connecting? || pc.Building? || pc.HookFailed? ||
       pc.FillConnecting? || pc.FillBuilding? || pc.FillHookFailed? then 1 else 0
  }

  function Tests(pc: Pc): nat { |Tested(pc)| }

  ghost function Holding(c: Conn): Pc -> nat { pc => Times(Held(pc), c) }

  ghost function Testing(c: Conn): Pc -> nat { pc => Times(Tested(pc), c) }

  /** How many places connection `c` is in: the idle queue, the checked-out table, tasks,
      or lost. */
  ghost function Places(s: State, c: Conn): nat {
    Times(s.b.idle, c) + Times(s.b.out, c) + Sum(Holding(c), s.ts) + if c in s.lost then 1 else 0
  }

  /** Every live connection is in exactly one place, and nothing else is anywhere. */
  ghost predicate CustodyInv(s: State) {
    && (forall c :: Places(s, c) == if c in s.live then 1 else 0)
    && (forall c <- s.live :: c < s.nextId)
  }

  /** `_reserving` is exactly the connections under validation, closed or not. */
  ghost predicate ReservingInv(s: State) {
    && (forall c :: Times(s.b.reserving, c) == Sum(Testing(c), s.ts))
    && |s.b.reserving| == Sum(Tests, s.ts)
  }

  /** Before close `_created` is exactly what the places say; after it the queues stay empty. */
  ghost predicate CountInv(s: State) {
    && s.minSize <= s.maxSize
    && (s.b.closed ==> s.b.idle == [] && s.b.out == [])
    && (!s.b.closed ==>
          && s.b.created == |s.b.idle| + |s.b.out| + |s.b.reserving| + Sum(Opens, s.ts)
          && s.b.created <= s.maxSize)
  }

  ghost predicate Inv(s: State) { CustodyInv(s) && ReservingInv(s) && CountInv(s) }

  // ----- every step keeps the invariant ---------------------------------------------

  /** What one step owes, in terms of its own task only: connection `c` changes places one
      for one with opens and closes, ... */
  ghost predicate KeepsCustody(b: Book, pc: Pc, ch: Change, c: Conn) {
    Times(b.idle, c) + Times(b.out, c) + Times(Held(pc), c) + (if c in ch.opens then 1 else 0)
    == Times(ch.b.idle, c) + Times(ch.b.out, c) + Times(Held(ch.pc), c)
       + (if c in ch.closes then 1 else 0) + (if c in ch.loses then 1 else 0)
  }

  /** ... `_reserving` follows what the task tests, ... */
  ghost predicate KeepsReserving(b: Book, pc: Pc, ch: Change, c: Conn) {
    && Times(b.reserving, c) + Times(Tested(ch.pc), c) == Times(ch.b.reserving, c) + Times(Tested(pc), c)
    && |b.reserving| + Tests(ch.pc) == |ch.b.reserving| + Tests(pc)
  }

  /** ... and before close `_created` moves with the places. */
  ghost predicate KeepsCounts(b: Book, pc: Pc, ch: Change, maxSize: nat) {
    && (b.closed ==> ch.b.closed)
    && (ch.b.closed ==> ch.b.idle == [] && ch.b.out == [])
    && (!ch.b.closed && |b.idle| + |b.out| + |b.reserving| + Opens(pc) <= b.created <= maxSize ==>
          && ch.b.created + |b.idle| + |b.out| + |b.reserving| + Opens(pc)
             == b.created + |ch.b.idle| + |ch.b.out| + |ch.b.reserving| + Opens(ch.pc)
          && ch.b.created <= maxSize)
  }

  /** The reservations the step relies on: its own, and none for the head of the queue. */
  ghost predicate Ready(b: Book, pc: Pc) {
    && (forall c <- Tested(pc) :: c in b.reserving)
    && (b.idle != [] ==> b.idle[0] !in b.reserving)
    && (b.closed ==> b.idle == [] && b.out == [])
  }

  lemma EnterCustody(b: Book, a: Action, c: Conn)
    ensures KeepsCustody(b, Out, Enter(b, a), c)
  {
    match a
    case Shutdown => TimesJoin(b.idle, b.out, c);
    case _ =>
  }

  lemma FailedCustody(b: Book, pc: Pc, ph: Phase, o: Outcome, x: Conn, hookFailed: Pc, raised: Pc, c: Conn)
    requires Held(pc) == [x] == Held(hookFailed) && Held(raised) == []
    ensures KeepsCustody(b, pc, Failed(b, ph, o, x, hookFailed, raised), c)
  {
  }

  lemma CheckOutCustody(b: Book, pc: Pc, newborn: Conn, maxSize: nat, c: Conn)
    requires pc.Building? || pc.Validating?
    ensures KeepsCustody(b, pc, AcquireStep(b, pc, Good, newborn, maxSize), c)
  {
    TimesJoin(b.out, [pc.c], c);
  }

  lemma AcquireCustody(b: Book, pc: Pc, o: Outcome, newborn: Conn, maxSize: nat, c: Conn)
    requires InAcquire(pc)
    ensures KeepsCustody(b, pc, AcquireStep(b, pc, o, newborn, maxSize), c)
  {
    if (pc.Building? || pc.Validating?) && o.Good? {
      CheckOutCustody(b, pc, newborn, maxSize, c);
    } else if pc.Building? {
      FailedCustody(b, pc, pc.ph, o, pc.c, HookFailed(pc.c), Out, c);
    }
  }

  lemma PublishCustody(b: Book, pc: Pc, newborn: Conn, minSize: nat, c: Conn)
    requires pc.FillBuilding?
    ensures KeepsCustody(b, pc, FillStep(b, pc, Good, newborn, minSize), c)
  {
    TimesJoin(b.idle, [pc.c], c);
  }

  lemma FillCustody(b: Book, pc: Pc, o: Outcome, newborn: Conn, minSize: nat, c: Conn)
    requires InFill(pc)
    ensures KeepsCustody(b, pc, FillStep(b, pc, o, newborn, minSize), c)
  {
    if pc.FillBuilding? {
      if o.Good? {
        PublishCustody(b, pc, newborn, minSize, c);
      } else {
        FailedCustody(b, pc, pc.ph, o, pc.c, FillHookFailed(pc.c, pc.acq), if o.Abort? then Out else AfterFill(pc.acq), c);
      }
    }
  }

  lemma SweepReturnCustody(b: Book, pc: Pc, o: Outcome, c: Conn)
    requires pc.SweepTesting?
    ensures KeepsCustody(b, pc, SweepStep(b, pc, o), c)
  {
    TimesJoin(b.idle, [pc.c], c);
  }

  lemma SweepCustody(b: Book, pc: Pc, o: Outcome, c: Conn)
    requires InSweep(pc)
    ensures KeepsCustody(b, pc, SweepStep(b, pc, o), c)
  {
    if pc.SweepTesting? {
      SweepReturnCustody(b, pc, o, c);
    }
  }

  lemma LeaveCustody(b: Book, pc: Pc, o: Outcome, c: Conn)
    requires InLeave(pc)
    ensures KeepsCustody(b, pc, LeaveStep(b, pc, o), c)
  {
    if pc.Releasing? {
      TimesJoin(b.idle, [pc.c], c);
      TimesWithout(b.out, pc.c, c);
    }
  }

  lemma StepCustody(s: State, pc: Pc, a: Action, c: Conn)
    ensures KeepsCustody(s.b, pc, StepOf(s, pc, a), c)
  {
    if pc == Out {
      EnterCustody(s.b, a, c);
    } else if a.Proceed? {
      if InAcquire(pc) {
        AcquireCustody(s.b, pc, a.o, s.nextId, s.maxSize, c);
      } else if InFill(pc) {
        FillCustody(s.b, pc, a.o, s.nextId, s.minSize, c);
      } else if InSweep(pc) {
        SweepCustody(s.b, pc, a.o, c);
      } else {
        LeaveCustody(s.b, pc, a.o, c);
      }
    }
  }

  lemma TestedBooks(b: Book, pc: Pc, o: Outcome, newborn: Conn, maxSize: nat, c: Conn)
    requires pc.Validating? && Ready(b, pc)
    ensures KeepsReserving(b, pc, AcquireStep(b, pc, o, newborn, maxSize), c)
    ensures KeepsCounts(b, pc, AcquireStep(b, pc, o, newborn, maxSize), maxSize)
  {
    TimesWithout(b.reserving, pc.c, c);
  }

  lemma LookBooks(b: Book, pc: Pc, o: Outcome, newborn: Conn, maxSize: nat, c: Conn)
    requires pc.AcqLock? && Ready(b, pc)
    ensures KeepsReserving(b, pc, AcquireStep(b, pc, o, newborn, maxSize), c)
    ensures KeepsCounts(b, pc, AcquireStep(b, pc, o, newborn, maxSize), maxSize)
  {
    if b.idle != [] {
      TimesJoin(b.reserving, [b.idle[0]], c);
    }
  }

  lemma AcquireBooks(b: Book, pc: Pc, o: Outcome, newborn: Conn, maxSize: nat, c: Conn)
    requires InAcquire(pc) && Ready(b, pc)
    ensures KeepsReserving(b, pc, AcquireStep(b, pc, o, newborn, maxSize), c)
    ensures KeepsCounts(b, pc, AcquireStep(b, pc, o, newborn, maxSize), maxSize)
  {
    if pc.Validating? {
      TestedBooks(b, pc, o, newborn, maxSize, c);
    } else if pc.AcqLock? {
      LookBooks(b, pc, o, newborn, maxSize, c);
    }
  }

  lemma FillBooks(b: Book, pc: Pc, o: Outcome, newborn: Conn, minSize: nat, maxSize: nat, c: Conn)
    requires InFill(pc) && Ready(b, pc) && minSize <= maxSize
    ensures KeepsReserving(b, pc, FillStep(b, pc, o, newborn, minSize), c)
    ensures KeepsCounts(b, pc, FillStep(b, pc, o, newborn, minSize), maxSize)
  {
  }

  lemma SweepBooks(b: Book, pc: Pc, o: Outcome, maxSize: nat, c: Conn)
    requires InSweep(pc) && Ready(b, pc)
    ensures KeepsReserving(b, pc, SweepStep(b, pc, o), c)
    ensures KeepsCounts(b, pc, SweepStep(b, pc, o), maxSize)
  {
    if pc.SweepTesting? {
      TimesWithout(b.reserving, pc.c, c);
    } else if pc.SweepTop? && b.idle != [] {
      TimesJoin(b.reserving, [b.idle[0]], c);
    }
  }

  lemma LeaveBooks(b: Book, pc: Pc, o: Outcome, maxSize: nat, c: Conn)
    requires InLeave(pc) && Ready(b, pc)
    ensures KeepsReserving(b, pc, LeaveStep(b, pc, o), c)
    ensures KeepsCounts(b, pc, LeaveStep(b, pc, o), maxSize)
  {
  }

  lemma StepBooks(s: State, pc: Pc, a: Action, c: Conn)
    requires Ready(s.b, pc) && s.minSize <= s.maxSize
    ensures KeepsReserving(s.b, pc, StepOf(s, pc, a), c)
    ensures KeepsCounts(s.b, pc, StepOf(s, pc, a), s.maxSize)
  {
    if pc != Out && a.Proceed? {
      if InAcquire(pc) {
        AcquireBooks(s.b, pc, a.o, s.nextId, s.maxSize, c);
      } else if InFill(pc) {
        FillBooks(s.b, pc, a.o, s.nextId, s.minSize, s.maxSize, c);
      } else if InSweep(pc) {
        SweepBooks(s.b, pc, a.o, s.maxSize, c);
      } else {
        LeaveBooks(s.b, pc, a.o, s.maxSize, c);
      }
    }
  }

  lemma InvMeansReady(s: State, t: nat)
    requires Inv(s) && t < |s.ts|
    ensures Ready(s.b, s.ts[t])
  {
    forall c <- Tested(s.ts[t])
      ensures c in s.b.reserving
    {
      SumHasShare(Testing(c), s.ts, t);
      TimesWithout(s.b.reserving, c, c);
    }
    if s.b.idle != [] {
      var c := s.b.idle[0];
      assert Places(s, c) == if c in s.live then 1 else 0;
      SumBelow(Testing(c), Holding(c), s.ts, |s.ts|);
      TimesWithout(s.b.reserving, c, c);
    }
  }

  lemma StepShape(s: State, pc: Pc, a: Action)
    ensures var ch := StepOf(s, pc, a); ch.opens <= {s.nextId} && (ch.opens == {} || ch.closes + ch.loses == {})
    ensures var ch := StepOf(s, pc, a); ch.loses == {} || (exists c :: ch.loses == {c} && Times(Held(pc), c) == 1)
  {
    if pc.Building? || pc.FillBuilding? {
      assert Times(Held(pc), pc.c) == 1;
    }
  }

  lemma StepPlaces(s: State, t: nat, ch: Change, c: Conn)
    requires t < |s.ts| && KeepsCustody(s.b, s.ts[t], ch, c)
    requires Places(s, c) == if c in s.live then 1 else 0
    requires c in s.live ==> c < s.nextId
    requires ch.opens <= {s.nextId} && (ch.opens == {} || ch.closes + ch.loses == {})
    requires c in ch.loses ==> Times(Held(s.ts[t]), c) == 1
    ensures Places(Apply(s, t, ch), c) == if c in Apply(s, t, ch).live then 1 else 0
  {
    SumUpdate(Holding(c), s.ts, t, ch.pc);
    SumHasShare(Holding(c), s.ts, t);
  }

  lemma OnePlaceAfter(s: State, e: Event, c: Conn)
    requires e.t < |s.ts| && Places(s, c) == (if c in s.live then 1 else 0) && (c in s.live ==> c < s.nextId)
    ensures Places(Next(s, e), c) == (if c in Next(s, e).live then 1 else 0)
    ensures c in Next(s, e).live ==> c < Next(s, e).nextId
  {
    StepShape(s, s.ts[e.t], e.a);
    StepCustody(s, s.ts[e.t], e.a, c);
    StepPlaces(s, e.t, StepOf(s, s.ts[e.t], e.a), c);
  }

  lemma StepKeepsCustody(s: State, e: Event)
    requires CustodyInv(s)
    ensures CustodyInv(Next(s, e))
  {
    if e.t < |s.ts| {
      forall c: Conn
        ensures Places(Next(s, e), c) == (if c in Next(s, e).live then 1 else 0)
        ensures c in Next(s, e).live ==> c < Next(s, e).nextId
      {
        OnePlaceAfter(s, e, c);
      }
    }
  }

  lemma StepKeepsReserving(s: State, e: Event)
    requires Inv(s)
    ensures ReservingInv(Next(s, e))
  {
    if e.t < |s.ts| {
      InvMeansReady(s, e.t);
      var ch := StepOf(s, s.ts[e.t], e.a);
      forall c: Conn
        ensures Times(ch.b.reserving, c) == Sum(Testing(c), s.ts[e.t := ch.pc])
      {
        StepBooks(s, s.ts[e.t], e.a, c);
        SumUpdate(Testing(c), s.ts, e.t, ch.pc);
      }
      StepBooks(s, s.ts[e.t], e.a, 0);
      SumUpdate(Tests, s.ts, e.t, ch.pc);
    }
  }

  lemma StepKeepsCounts(s: State, e: Event)
    requires Inv(s)
    ensures CountInv(Next(s, e))
  {
    if e.t < |s.ts| {
      InvMeansReady(s, e.t);
      var ch := StepOf(s, s.ts[e.t], e.a);
      StepBooks(s, s.ts[e.t], e.a, 0);
      SumUpdate(Opens, s.ts, e.t, ch.pc);
      SumHasShare(Opens, s.ts, e.t);
    }
  }

  lemma StepKeepsInv(s: State, e: Event)
    requires Inv(s)
    ensures Inv(Next(s, e))
  {
    StepKeepsCustody(s, e);
    StepKeepsReserving(s, e);
    StepKeepsCounts(s, e);
  }
}
