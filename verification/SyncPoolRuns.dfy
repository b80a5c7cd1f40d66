/** The threaded pool as a system of any number of threads, interleaved at lock regions
    and at the unlocked work between them (connects, pings, rollbacks, closes), and what
    holds in every state it can reach. */
module SyncPoolRuns {
  import opened Queues
  import opened SyncPools
  import opened Phases
  import opened Tally

  /** Where a thread is. `again` tells whether `_checkout` loops or raises after a drop.
      `Connecting` has no socket yet; `Building` has one, in the hands of the connect
      coroutine on the loop thread. */
  datatype Pc =
    | Out
    // acquire
    | WaitSlot | Looking | Starved
    | Connecting | Building(c: Conn, ph: Phase) | ConnectFailed | Connected(c: Conn) | NewClosing(c: Conn)
    | Validating(c: Conn) | Validated(c: Conn) | Dropping(c: Conn, again: bool) | DropClosing(c: Conn, again: bool)
    | Handing(c: Conn) | Failing
    // release
    | Releasing(c: Conn) | ReleaseClosing(c: Conn) | ReleaseDone
    // _fill_idle
    | FillLoop | FillConnecting | FillBuilding(c: Conn, ph: Phase) | FillFailed | FillConnected(c: Conn) | FillClosing(c: Conn)
    // _sweep_idle
    | Sweeping(left: nat) | SweepTesting(c: Conn, left: nat) | SweepTested(c: Conn, left: nat)
    | SweepDropping(c: Conn, left: nat, again: bool) | SweepClosing(c: Conn, left: nat, again: bool)
    // close_all
    | Shutting(cs: seq<Conn>)

  /** How the unlocked work of a step ends: it works, it raises an `Exception`, or its thread
      is interrupted (KeyboardInterrupt, SystemExit) while it waits for the loop thread.
      `done`: the loop thread had done the work by then; otherwise it is cancelled there. */
  datatype Outcome = Good | Bad | Stop(done: bool)

  /** A thread outside enters an operation; a thread inside takes its next step. */
  datatype Action = Acquire | Release(c: Conn) | Fill | Sweep | Shutdown | Proceed(o: Outcome)

  datatype Event = Event(t: nat, a: Action)

  /** What an interrupt takes out of the pool for good: connections left open, places counted
      in `_created` and permits of `_sem` that nobody gives back any more. */
  datatype Waste = Waste(open: set<Conn>, places: nat, slots: nat)

  const NONE := Waste({}, 0, 0)

  function Joined(v: Waste, w: Waste): Waste { Waste(v.open + w.open, v.places + w.places, v.slots + w.slots) }

  /** `live`: the connections opened and not yet closed by their owner. `nextId`: how many
      connections were ever opened; connection numbers are never reused. */
  datatype State = State(b: Book, ts: seq<Pc>, live: set<Conn>, lost: Waste, nextId: nat, minSize: nat, maxSize: nat)

  /** The effect of one step: new bookkeeping, new place, connections opened, closed, waste. */
  datatype Change = Change(b: Book, pc: Pc, opens: set<Conn>, closes: set<Conn>, loses: Waste)

  function Moved(b: Book, pc: Pc): Change { Change(b, pc, {}, {}, NONE) }

  function Opening(b: Book, pc: Pc, c: Conn): Change { Change(b, pc, {c}, {}, NONE) }

  function Closing(b: Book, pc: Pc, c: Conn): Change { Change(b, pc, {}, {c}, NONE) }

  function Losing(b: Book, pc: Pc, c: Conn): Change { Change(b, pc, {}, {}, NONE.(open := {c})) }

  /** `_close_quiet`: done, also if it raises, unless the close is cancelled before it starts. */
  function ClosingQuietly(b: Book, o: Outcome, c: Conn, pc: Pc, raised: Pc): Change {
    if o == Stop(false) then Losing(b, raised, c) else Closing(b, if o.Stop? then raised else pc, c)
  }

  /** `close_all` interrupted in its close of the first connection on its list. */
  function Forsaking(b: Book, cs: seq<Conn>, done: bool): Change
    requires cs != []
  {
    if done then Change(b, Out, {}, {cs[0]}, NONE.(open := Members(cs[1..])))
    else Change(b, Out, {}, {}, NONE.(open := Members(cs)))
  }

  /** A connect that fails: its coroutine closes what it opened on every `Exception`, but of a
      cancellation only the handshake takes care. */
  function FailedConnect(b: Book, ph: Phase, o: Outcome, c: Conn, pc: Pc): Change {
    if o.Stop? && !ph.Greet? then Losing(b, pc, c) else Closing(b, pc, c)
  }

  function Enter(b: Book, a: Action, maxSize: nat): Change {
    match a
    case Acquire => Moved(b, if b.closed then Out else WaitSlot)
    case Release(c) => var (b', answer) := ReleaseTake(b, c); Moved(b', if answer.Refused? then Out else Releasing(c))
    case Fill => Moved(b, FillLoop)
    case Sweep => Moved(b, Sweeping(|b.idle|))
    case Shutdown => Moved(Shut(b, maxSize), Shutting(b.idle + b.out))
    case Proceed(_) => Moved(b, Out)
  }

  predicate InAcquire(pc: Pc) {
    pc.WaitSlot? || pc.Looking? || pc.Starved? || pc.Connecting? || pc.Building? || pc.ConnectFailed? || pc.Connected? ||
    pc.NewClosing? || pc.Validating? || pc.Validated? || pc.Dropping? || pc.DropClosing? || pc.Handing? || pc.Failing?
  }

  /** A step of `acquire` / `_checkout`; `newborn` is the connection a connect would yield. */
  function AcquireStep(b: Book, pc: Pc, o: Outcome, newborn: Conn, maxSize: nat): Change
    requires InAcquire(pc)
  {
    match pc
    case WaitSlot =>
      if !o.Good? then Moved(b, Out)
      else if b.sem == 0 then Moved(b, pc)
      else Moved(b.(sem := b.sem - 1), Looking)
    case Looking =>
      var (b', answer) := Look(b, maxSize);
      Moved(b', match answer
                case Got(c) => Validating(c)
                case Reserved => Connecting
                case Closed => Failing
                case _ => Starved)
    case Starved => Moved(b, if o.Good? then Looking else Failing)
    case Connecting => if o.Good? then Opening(b, Building(newborn, Dial), newborn) else Moved(b, ConnectFailed)
    case Building(c, ph) =>
      if !o.Good? then FailedConnect(b, ph, o, c, ConnectFailed)
      else Moved(b, if ph.Hook? then Connected(c) else Building(c, After(ph)))
    case ConnectFailed => Moved(Uncounted(b), Failing)
    case Connected(c) => var (b', answer) := AdoptNew(b, c); Moved(b', if answer.Kept? then Handing(c) else NewClosing(c))
    case NewClosing(c) => ClosingQuietly(b, o, c, Failing, Failing)
    case Validating(c) => Moved(b, if o.Good? then Validated(c) else Dropping(c, o.Bad?))
    case Validated(c) => var (b', answer) := Adopt(b, c); Moved(b', if answer.Kept? then Handing(c) else Dropping(c, false))
    case Dropping(c, again) => Moved(Uncounted(b), DropClosing(c, again))
    case DropClosing(c, again) => ClosingQuietly(b, o, c, if again then Looking else Failing, Failing)
    case Handing(_) => Moved(b, Out)
    case Failing => Moved(b.(sem := b.sem + 1), Out)
  }

  predicate InFill(pc: Pc) {
    pc.FillLoop? || pc.FillConnecting? || pc.FillBuilding? || pc.FillFailed? || pc.FillConnected? || pc.FillClosing?
  }

  /** A step of `_fill_idle`. */
  function FillStep(b: Book, pc: Pc, o: Outcome, newborn: Conn, minSize: nat): Change
    requires InFill(pc)
  {
    match pc
    case FillLoop => var (b', answer) := FillReserve(b, minSize); Moved(b', if answer.Reserved? then FillConnecting else Out)
    case FillConnecting => if o.Good? then Opening(b, FillBuilding(newborn, Dial), newborn) else Moved(b, FillFailed)
    case FillBuilding(c, ph) =>
      if !o.Good? then FailedConnect(b, ph, o, c, FillFailed)
      else Moved(b, if ph.Hook? then FillConnected(c) else FillBuilding(c, After(ph)))
    case FillFailed => Moved(Uncounted(b), Out)
    case FillConnected(c) => var (b', answer) := FillPublish(b, c); Moved(b', if answer.Kept? then FillLoop else FillClosing(c))
    case FillClosing(c) => ClosingQuietly(b, o, c, Out, Out)
  }

  predicate InSweep(pc: Pc) {
    pc.Sweeping? || pc.SweepTesting? || pc.SweepTested? || pc.SweepDropping? || pc.SweepClosing?
  }

  /** A step of `_sweep_idle`. */
  function SweepStep(b: Book, pc: Pc, o: Outcome): Change
    requires InSweep(pc)
  {
    match pc
    case Sweeping(left) =>
      var (b', answer) := SweepTake(b);
      if left == 0 || !answer.Got? then Moved(b, Out) else Moved(b', SweepTesting(answer.c, left - 1))
    case SweepTesting(c, left) => Moved(b, if o.Good? then SweepTested(c, left) else SweepDropping(c, left, o.Bad?))
    case SweepTested(c, left) =>
      var (b', answer) := SweepReturn(b, c); Moved(b', if answer.Kept? then Sweeping(left) else SweepDropping(c, left, true))
    case SweepDropping(c, left, again) => Moved(Uncounted(b), SweepClosing(c, left, again))
    case SweepClosing(c, left, again) => ClosingQuietly(b, o, c, if again then Sweeping(left) else Out, Out)
  }

  /** A step of `release` or `close_all`. An interrupt in the rollback takes the connection, its
      place and the permit along; in the close of `release`, the permit; in `close_all`,
      the connections still on its list. */
  function LeaveStep(b: Book, pc: Pc, o: Outcome): Change
    requires !InAcquire(pc) && !InFill(pc) && !InSweep(pc) && pc != Out
  {
    match pc
    case Releasing(c) =>
      if o.Stop? then Losing(b, Out, c).(loses := Waste({c}, 1, 1))
      else var (b', answer) := ReleasePut(b, c, o.Good?); Moved(b', if answer.Kept? then ReleaseDone else ReleaseClosing(c))
    case ReleaseClosing(c) =>
      var ch := ClosingQuietly(b, o, c, ReleaseDone, Out);
      if o.Stop? then ch.(loses := ch.loses.(slots := 1)) else ch
    case ReleaseDone => Moved(b.(sem := b.sem + 1), Out)
    case Shutting(cs) =>
      if cs == [] then Moved(b, Out)
      else if o.Stop? then Forsaking(b, cs, o.done)
      else Closing(b, Shutting(cs[1..]), cs[0])
  }

  function StepOf(s: State, pc: Pc, a: Action): Change {
    if pc == Out then Enter(s.b, a, s.maxSize)
    else if !a.Proceed? then Moved(s.b, pc)
    else if InAcquire(pc) then AcquireStep(s.b, pc, a.o, s.nextId, s.maxSize)
    else if InFill(pc) then FillStep(s.b, pc, a.o, s.nextId, s.minSize)
    else if InSweep(pc) then SweepStep(s.b, pc, a.o)
    else LeaveStep(s.b, pc, a.o)
  }

  function Apply(s: State, t: nat, ch: Change): State
    requires t < |s.ts|
  {
    State(ch.b, s.ts[t := ch.pc], s.live + ch.opens - ch.closes, Joined(s.lost, ch.loses), s.nextId + |ch.opens|, s.minSize, s.maxSize)
  }

  function Next(s: State, e: Event): State {
    if e.t < |s.ts| then Apply(s, e.t, StepOf(s, s.ts[e.t], e.a)) else s
  }

  function Run(s: State, es: seq<Event>): State
    decreases es
  {
    if es == [] then s else Run(Next(s, es[0]), es[1..])
  }

  function Start(threads: nat, minSize: nat, maxSize: nat): State {
    State(EmptyBook(maxSize), seq(threads, _ => Out), {}, NONE, 0, minSize, maxSize)
  }

  // ----- what a thread holds ------------------------------------------------------

  /** The connections the thread owns: in no queue, in nobody else's hands. */
  function Held(pc: Pc): seq<Conn> {
    match pc
    case Building(c, _) => [c]
    case Connected(c) => [c]
    case NewClosing(c) => [c]
    case Validating(c) => [c]
    case Validated(c) => [c]
    case Dropping(c, _) => [c]
    case DropClosing(c, _) => [c]
    case Releasing(c) => [c]
    case ReleaseClosing(c) => [c]
    case FillBuilding(c, _) => [c]
    case FillConnected(c) => [c]
    case FillClosing(c) => [c]
    case SweepTesting(c, _) => [c]
    case SweepTested(c, _) => [c]
    case SweepDropping(c, _, _) => [c]
    case SweepClosing(c, _, _) => [c]
    case Shutting(cs) => cs
    case _ => []
  }

  ghost function Holding(c: Conn): Pc -> nat { pc => Times(Held(pc), c) }

  /** How many places connection `c` is in: the idle queue, the checked-out table, threads,
      or lost. */
  ghost function Places(s: State, c: Conn): nat {
    Times(s.b.idle, c) + Times(s.b.out, c) + Sum(Holding(c), s.ts) + if c in s.lost.open then 1 else 0
  }

  /** A place in `_created` owned by the sweep or by a pre-create. */
  function UpkeepCount(pc: Pc): nat {
    if pc.FillConnecting? || pc.FillBuilding? || pc.FillFailed? || pc.FillConnected? ||
       pc.SweepTesting? || pc.SweepTested? || pc.SweepDropping? then 1 else 0
  }

  /** A place in `_created` owned by an acquirer or a releaser. */
  function UserCount(pc: Pc): nat {
    if pc.Connecting? || pc.Building? || pc.ConnectFailed? || pc.Connected? || pc.Validating? || pc.Validated? ||
       pc.Dropping? || pc.Releasing? then 1 else 0
  }

  function Counted(pc: Pc): nat { UpkeepCount(pc) + UserCount(pc) }

  /** A `_sem` permit that belongs to a thread and not to a checked-out connection. */
  function Slot(pc: Pc): nat {
    if (InAcquire(pc) && !pc.WaitSlot? && !pc.Handing?) ||
       pc.Releasing? || pc.ReleaseClosing? || pc.ReleaseDone? then 1 else 0
  }

  /** Every live connection is in exactly one place, and nothing else is anywhere. */
  ghost predicate CustodyInv(s: State) {
    && (forall c :: Places(s, c) == if c in s.live then 1 else 0)
    && (forall c <- s.live :: c < s.nextId)
  }

  /** Before close the counters are exactly what the places say; after it the queues stay empty. */
  ghost predicate CountInv(s: State) {
    && s.minSize <= s.maxSize
    && (s.b.closed ==> s.b.idle == [] && s.b.out == [])
    && (!s.b.closed ==>
          && s.b.created == |s.b.idle| + |s.b.out| + Sum(Counted, s.ts) + s.lost.places
          && s.b.created <= s.maxSize
          && s.b.sem + Sum(Slot, s.ts) + |s.b.out| + s.lost.slots == s.maxSize)
    && s.lost.places <= s.lost.slots
  }

  ghost predicate Inv(s: State) { CustodyInv(s) && CountInv(s) }

  // ----- every step keeps the invariant ---------------------------------------------

  /** What one step owes, in terms of its own thread only: connection `c` changes places
      one for one with opens, closes and losses, ... */
  ghost predicate KeepsCustody(b: Book, pc: Pc, ch: Change, c: Conn) {
    && Times(b.idle, c) + Times(b.out, c) + Times(Held(pc), c) + (if c in ch.opens then 1 else 0)
       == Times(ch.b.idle, c) + Times(ch.b.out, c) + Times(Held(ch.pc), c)
          + (if c in ch.closes then 1 else 0) + (if c in ch.loses.open then 1 else 0)
    && (c in ch.loses.open ==> Times(Held(pc), c) == 1)
  }

  /** ... and before close the counters move with what the thread owns. */
  ghost predicate KeepsCounts(b: Book, pc: Pc, ch: Change, maxSize: nat) {
    && (b.closed ==> ch.b.closed)
    && (ch.b.closed ==> ch.b.idle == [] && ch.b.out == [])
    && ch.loses.places <= ch.loses.slots
    && (!ch.b.closed && Counted(pc) <= b.created <= maxSize ==>
          && ch.b.created + |b.idle| + |b.out| + Counted(pc)
             == b.created + |ch.b.idle| + |ch.b.out| + Counted(ch.pc) + ch.loses.places
          && ch.b.sem + Slot(ch.pc) + |ch.b.out| + ch.loses.slots == b.sem + Slot(pc) + |b.out|
          && ch.b.created <= maxSize)
  }

  lemma FailedCustody(b: Book, pc: Pc, ph: Phase, o: Outcome, x: Conn, raised: Pc, c: Conn)
    requires Held(pc) == [x] && Held(raised) == []
    ensures KeepsCustody(b, pc, FailedConnect(b, ph, o, x, raised), c)
  {
  }

  lemma ClosedCustody(b: Book, pc: Pc, o: Outcome, x: Conn, next: Pc, raised: Pc, c: Conn)
    requires Held(pc) == [x] && Held(next) == Held(raised) == []
    ensures KeepsCustody(b, pc, ClosingQuietly(b, o, x, next, raised), c)
  {
  }

  lemma RegisterCustody(b: Book, pc: Pc, o: Outcome, newborn: Conn, maxSize: nat, c: Conn)
    requires pc.Connected? || pc.Validated?
    ensures KeepsCustody(b, pc, AcquireStep(b, pc, o, newborn, maxSize), c)
  {
    TimesJoin(b.out, [pc.c], c);
  }

  lemma AcquireCustody(b: Book, pc: Pc, o: Outcome, newborn: Conn, maxSize: nat, c: Conn)
    requires InAcquire(pc)
    ensures KeepsCustody(b, pc, AcquireStep(b, pc, o, newborn, maxSize), c)
  {
    if pc.Connected? || pc.Validated? {
      RegisterCustody(b, pc, o, newborn, maxSize, c);
    } else if pc.DropClosing? {
      ClosedCustody(b, pc, o, pc.c, if pc.again then Looking else Failing, Failing, c);
    }
  }

  lemma PublishCustody(b: Book, pc: Pc, o: Outcome, newborn: Conn, minSize: nat, c: Conn)
    requires pc.FillConnected?
    ensures KeepsCustody(b, pc, FillStep(b, pc, o, newborn, minSize), c)
  {
    TimesJoin(b.idle, [pc.c], c);
  }

  lemma FillCustody(b: Book, pc: Pc, o: Outcome, newborn: Conn, minSize: nat, c: Conn)
    requires InFill(pc)
    ensures KeepsCustody(b, pc, FillStep(b, pc, o, newborn, minSize), c)
  {
    if pc.FillConnected? {
      PublishCustody(b, pc, o, newborn, minSize, c);
    } else if pc.FillBuilding? && !o.Good? {
      FailedCustody(b, pc, pc.ph, o, pc.c, FillFailed, c);
    }
  }

  lemma SweepReturnCustody(b: Book, pc: Pc, o: Outcome, c: Conn)
    requires pc.SweepTested?
    ensures KeepsCustody(b, pc, SweepStep(b, pc, o), c)
  {
    TimesJoin(b.idle, [pc.c], c);
  }

  lemma SweepTakeCustody(b: Book, pc: Pc, o: Outcome, c: Conn)
    requires pc.Sweeping?
    ensures KeepsCustody(b, pc, SweepStep(b, pc, o), c)
  {
  }

  lemma SweepCustody(b: Book, pc: Pc, o: Outcome, c: Conn)
    requires InSweep(pc)
    ensures KeepsCustody(b, pc, SweepStep(b, pc, o), c)
  {
    if pc.SweepTested? {
      SweepReturnCustody(b, pc, o, c);
    } else if pc.Sweeping? {
      SweepTakeCustody(b, pc, o, c);
    } else if pc.SweepClosing? {
      ClosedCustody(b, pc, o, pc.c, if pc.again then Sweeping(pc.left) else Out, Out, c);
    }
  }

  lemma ForsakesAll(b: Book, cs: seq<Conn>, c: Conn)
    requires cs != [] && Times(cs, c) <= 1
    ensures KeepsCustody(b, Shutting(cs), Forsaking(b, cs, false), c)
  {
    TimesOfMembers(cs, c);
  }

  lemma ForsakesRest(b: Book, cs: seq<Conn>, c: Conn)
    requires cs != [] && Times(cs, c) <= 1
    ensures KeepsCustody(b, Shutting(cs), Forsaking(b, cs, true), c)
  {
    TimesOfMembers(cs[1..], c);
  }

  /** `close_all` has no connection twice on its list; the invariant says so. */
  lemma LeaveCustody(b: Book, pc: Pc, o: Outcome, c: Conn)
    requires !InAcquire(pc) && !InFill(pc) && !InSweep(pc) && pc != Out
    requires Times(Held(pc), c) <= 1
    ensures KeepsCustody(b, pc, LeaveStep(b, pc, o), c)
  {
    if pc.Shutting? && pc.cs != [] && o.Stop? {
      if o.done {
        ForsakesRest(b, pc.cs, c);
      } else {
        ForsakesAll(b, pc.cs, c);
      }
    } else if pc.Releasing? {
      TimesJoin(b.idle, [pc.c], c);
    }
  }

  lemma EnterCustody(b: Book, a: Action, maxSize: nat, c: Conn)
    ensures KeepsCustody(b, Out, Enter(b, a, maxSize), c)
  {
    match a
    case Shutdown => TimesJoin(b.idle, b.out, c);
    case Release(x) => TimesWithout(b.out, x, c);
    case _ =>
  }

  lemma StepCustody(s: State, pc: Pc, a: Action, c: Conn)
    requires Times(Held(pc), c) <= 1
    ensures KeepsCustody(s.b, pc, StepOf(s, pc, a), c)
  {
    if pc == Out {
      EnterCustody(s.b, a, s.maxSize, c);
    } else if a.Proceed? {
      if InAcquire(pc) {
        AcquireCustody(s.b, pc, a.o, s.nextId, s.maxSize, c);
      } else if InFill(pc) {
        FillCustody(s.b, pc, a.o, s.nextId, s.minSize, c);
      } else if InSweep(pc) {
        SweepCustody(s.b, pc, a.o, c);
      } else {
        LeaveCustody(s.b, pc, a.o, c);
      }
    }
  }

  /** A step that only closes or loses connections. */
  lemma UncountedCounts(b: Book, pc: Pc, ch: Change, maxSize: nat)
    requires b.closed ==> b.idle == [] && b.out == []
    requires ch.b == b && Counted(ch.pc) == Counted(pc) && Slot(ch.pc) == Slot(pc)
    requires ch.loses.places == ch.loses.slots == 0
    ensures KeepsCounts(b, pc, ch, maxSize)
  {
  }

  lemma LookCounts(b: Book, pc: Pc, o: Outcome, newborn: Conn, maxSize: nat)
    requires b.closed ==> b.idle == [] && b.out == []
    requires pc.Looking? || pc.Connected? || pc.Validated?
    ensures KeepsCounts(b, pc, AcquireStep(b, pc, o, newborn, maxSize), maxSize)
  {
  }

  lemma AcquireCounts(b: Book, pc: Pc, o: Outcome, newborn: Conn, maxSize: nat)
    requires b.closed ==> b.idle == [] && b.out == []
    requires InAcquire(pc)
    ensures KeepsCounts(b, pc, AcquireStep(b, pc, o, newborn, maxSize), maxSize)
  {
    if pc.Looking? || pc.Connected? || pc.Validated? {
      LookCounts(b, pc, o, newborn, maxSize);
    } else if pc.Building? || pc.NewClosing? || pc.DropClosing? {
      UncountedCounts(b, pc, AcquireStep(b, pc, o, newborn, maxSize), maxSize);
    }
  }

  lemma FillCounts(b: Book, pc: Pc, o: Outcome, newborn: Conn, minSize: nat, maxSize: nat)
    requires b.closed ==> b.idle == [] && b.out == []
    requires InFill(pc) && minSize <= maxSize
    ensures KeepsCounts(b, pc, FillStep(b, pc, o, newborn, minSize), maxSize)
  {
  }

  lemma SweepCounts(b: Book, pc: Pc, o: Outcome, maxSize: nat)
    requires b.closed ==> b.idle == [] && b.out == []
    requires InSweep(pc)
    ensures KeepsCounts(b, pc, SweepStep(b, pc, o), maxSize)
  {
  }

  lemma LeaveCounts(b: Book, pc: Pc, o: Outcome, maxSize: nat)
    requires b.closed ==> b.idle == [] && b.out == []
    requires !InAcquire(pc) && !InFill(pc) && !InSweep(pc) && pc != Out
    ensures KeepsCounts(b, pc, LeaveStep(b, pc, o), maxSize)
  {
  }

  lemma EnterCounts(b: Book, a: Action, maxSize: nat)
    requires b.closed ==> b.idle == [] && b.out == []
    ensures KeepsCounts(b, Out, Enter(b, a, maxSize), maxSize)
  {
  }

  lemma StepCounts(s: State, pc: Pc, a: Action)
    requires s.b.closed ==> s.b.idle == [] && s.b.out == []
    requires s.minSize <= s.maxSize
    ensures KeepsCounts(s.b, pc, StepOf(s, pc, a), s.maxSize)
  {
    if pc == Out {
      EnterCounts(s.b, a, s.maxSize);
    } else if a.Proceed? {
      if InAcquire(pc) {
        AcquireCounts(s.b, pc, a.o, s.nextId, s.maxSize);
      } else if InFill(pc) {
        FillCounts(s.b, pc, a.o, s.nextId, s.minSize, s.maxSize);
      } else if InSweep(pc) {
        SweepCounts(s.b, pc, a.o, s.maxSize);
      } else {
        LeaveCounts(s.b, pc, a.o, s.maxSize);
      }
    }
  }

  lemma StepPlaces(s: State, t: nat, ch: Change, c: Conn)
    requires t < |s.ts| && KeepsCustody(s.b, s.ts[t], ch, c)
    requires Places(s, c) == if c in s.live then 1 else 0
    requires c in s.live ==> c < s.nextId
    requires ch.opens <= {s.nextId} && (ch.opens == {} || ch.closes + ch.loses.open == {})
    ensures Places(Apply(s, t, ch), c) == if c in Apply(s, t, ch).live then 1 else 0
  {
    SumUpdate(Holding(c), s.ts, t, ch.pc);
    SumHasShare(Holding(c), s.ts, t);
  }

  lemma StepShape(s: State, pc: Pc, a: Action)
    ensures var ch := StepOf(s, pc, a); ch.opens <= {s.nextId} && (ch.opens == {} || ch.closes + ch.loses.open == {})
  {
  }

  lemma OnePlaceAfter(s: State, e: Event, c: Conn)
    requires e.t < |s.ts| && Places(s, c) == (if c in s.live then 1 else 0) && (c in s.live ==> c < s.nextId)
    ensures Places(Next(s, e), c) == (if c in Next(s, e).live then 1 else 0)
    ensures c in Next(s, e).live ==> c < Next(s, e).nextId
  {
    StepShape(s, s.ts[e.t], e.a);
    SumHasShare(Holding(c), s.ts, e.t);
    StepCustody(s, s.ts[e.t], e.a, c);
    StepPlaces(s, e.t, StepOf(s, s.ts[e.t], e.a), c);
  }

  lemma StepKeepsCustody(s: State, e: Event)
    requires CustodyInv(s)
    ensures CustodyInv(Next(s, e))
  {
    if e.t < |s.ts| {
      forall c: Conn
        ensures Places(Next(s, e), c) == (if c in Next(s, e).live then 1 else 0)
        ensures c in Next(s, e).live ==> c < Next(s, e).nextId
      {
        OnePlaceAfter(s, e, c);
      }
    }
  }

  lemma StepKeepsCounts(s: State, e: Event)
    requires CountInv(s)
    ensures CountInv(Next(s, e))
  {
    if e.t < |s.ts| {
      var ch := StepOf(s, s.ts[e.t], e.a);
      StepCounts(s, s.ts[e.t], e.a);
      SumUpdate(Counted, s.ts, e.t, ch.pc);
      SumUpdate(Slot, s.ts, e.t, ch.pc);
      SumHasShare(Counted, s.ts, e.t);
    }
  }
}
