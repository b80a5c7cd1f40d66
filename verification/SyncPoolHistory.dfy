/** What the threaded pool hands out and keeps, told from the outside of its steps: how a
    connection that is handed out or idle got there, and what becomes of one that failed. */
module SyncPoolHistory {
  import opened Queues
  import opened SyncPools
  import opened SyncPoolRuns
  import opened SyncPoolSafety
  import opened SyncPoolShutdown
  import opened SyncPoolExamples
  import opened Phases
  import Tally

  // ----- the last step behind ----------------------------------------------------------------

  lemma OthersStay(s: State, e: Event, t: nat)
    requires t < |s.ts| && e.t != t
    ensures |Next(s, e).ts| == |s.ts| && Next(s, e).ts[t] == s.ts[t]
  {
  }

  lemma {:induction false} ThreadStays(s: State, es: seq<Event>, t: nat)
    requires t < |s.ts| && forall e <- es :: e.t != t
    ensures |Run(s, es).ts| == |s.ts| && Run(s, es).ts[t] == s.ts[t]
    decreases es
  {
    if es != [] {
      assert es[0] in es && forall e <- es[1..] :: e in es;
      OthersStay(s, es[0], t);
      ThreadStays(Next(s, es[0]), es[1..], t);
    }
  }

  lemma {:induction false} SameThreads(s: State, es: seq<Event>)
    ensures |Run(s, es).ts| == |s.ts|
    decreases es
  {
    if es != [] {
      SameThreads(Next(s, es[0]), es[1..]);
    }
  }

  /** Where thread `t` is after `j` events of a run. */
  function At(s: State, es: seq<Event>, j: nat, t: nat): Pc
    requires j <= |es|
  {
    var s' := Run(s, es[..j]);
    if t < |s'.ts| then s'.ts[t] else Out
  }

  lemma OneMore(s: State, es: seq<Event>, j: nat)
    requires j < |es|
    ensures Run(s, es[..j + 1]) == Next(Run(s, es[..j]), es[j])
  {
    assert es[..j + 1] == es[..j] + [es[j]];
    RunSnoc(s, es[..j], es[j]);
  }

  lemma AtStart(s: State, es: seq<Event>, t: nat)
    requires t < |s.ts|
    ensures At(s, es, 0, t) == s.ts[t]
  {
    assert es[..0] == [];
  }

  /** Event `j` of a run, as a step between two of its states. */
  lemma StepBetween(s: State, es: seq<Event>, j: nat, t: nat)
    requires j < |es| && t < |s.ts|
    ensures t < |Run(s, es[..j]).ts| && At(s, es, j, t) == Run(s, es[..j]).ts[t]
    ensures Run(s, es[..j + 1]) == Next(Run(s, es[..j]), es[j])
    ensures t < |Next(Run(s, es[..j]), es[j]).ts| && At(s, es, j + 1, t) == Next(Run(s, es[..j]), es[j]).ts[t]
  {
    OneMore(s, es, j);
    SameThreads(s, es[..j]);
    SameThreads(s, es[..j + 1]);
  }

  /** The event that brought thread `t` to `pc`, where it is after `n` events. */
  lemma {:induction false} LastArrival(s: State, es: seq<Event>, n: nat, t: nat, pc: Pc) returns (i: nat)
    requires n <= |es| && At(s, es, 0, t) != pc && At(s, es, n, t) == pc
    ensures i < n && At(s, es, i, t) != pc && forall j | i < j <= n :: At(s, es, j, t) == pc
    decreases n
  {
    i := n - 1;
    if At(s, es, n - 1, t) == pc {
      i := LastArrival(s, es, n - 1, t, pc);
      forall j | i < j <= n
        ensures At(s, es, j, t) == pc
      {
        assert j < n || j == n;
      }
    }
  }

  lemma AcquireStays(b: Book, pc: Pc, o: Outcome, newborn: Conn, maxSize: nat)
    ensures InAcquire(pc) ==> var pc' := AcquireStep(b, pc, o, newborn, maxSize).pc; InAcquire(pc') || pc' == Out
  {
  }

  lemma FillStays(b: Book, pc: Pc, o: Outcome, newborn: Conn, minSize: nat)
    ensures InFill(pc) ==> var pc' := FillStep(b, pc, o, newborn, minSize).pc; InFill(pc') || pc' == Out
  {
  }

  lemma SweepStays(b: Book, pc: Pc, o: Outcome)
    ensures InSweep(pc) ==> var pc' := SweepStep(b, pc, o).pc; InSweep(pc') || pc' == Out
  {
  }

  lemma LeaveStays(b: Book, pc: Pc, o: Outcome)
    ensures !InAcquire(pc) && !InFill(pc) && !InSweep(pc) && pc != Out ==>
              var pc' := LeaveStep(b, pc, o).pc; !InAcquire(pc') && !InFill(pc') && !InSweep(pc')
  {
  }

  lemma EnterStarts(b: Book, a: Action, maxSize: nat)
    ensures var pc := Enter(b, a, maxSize).pc;
            (InAcquire(pc) ==> pc == WaitSlot) && (InFill(pc) ==> pc == FillLoop) && (InSweep(pc) ==> pc.Sweeping?)
  {
  }

  /** The thread is inside an operation, beyond where it enters it and beyond its loop heads. */
  predicate Inside(pc: Pc) {
    (InAcquire(pc) && pc != WaitSlot) || (InFill(pc) && pc != FillLoop) || (InSweep(pc) && !pc.Sweeping?)
  }

  /** It got there from inside the same operation, by a step of that operation. */
  predicate ByOwnStep(s: State, pc: Pc, a: Action, pc': Pc) {
    && a.Proceed?
    && (InAcquire(pc') ==> InAcquire(pc) && pc' == AcquireStep(s.b, pc, a.o, s.nextId, s.maxSize).pc)
    && (InFill(pc') ==> InFill(pc) && pc' == FillStep(s.b, pc, a.o, s.nextId, s.minSize).pc)
    && (InSweep(pc') ==> InSweep(pc) && pc' == SweepStep(s.b, pc, a.o).pc)
  }

  lemma StepStays(s: State, pc: Pc, a: Action)
    requires a.Proceed? && pc != Out
    ensures var pc' := StepOf(s, pc, a).pc; Inside(pc') ==> ByOwnStep(s, pc, a, pc')
  {
    if InAcquire(pc) {
      AcquireStays(s.b, pc, a.o, s.nextId, s.maxSize);
    } else if InFill(pc) {
      FillStays(s.b, pc, a.o, s.nextId, s.minSize);
    } else if InSweep(pc) {
      SweepStays(s.b, pc, a.o);
    } else {
      LeaveStays(s.b, pc, a.o);
    }
  }

  lemma EntryStays(s: State, pc: Pc, a: Action)
    requires !a.Proceed? || pc == Out
    ensures var pc' := StepOf(s, pc, a).pc; Inside(pc') ==> pc' == pc
  {
    EnterStarts(s.b, a, s.maxSize);
  }

  /** A thread gets further inside an operation only by its own step of that operation. */
  lemma OwnStep(s: State, e: Event, t: nat)
    requires t < |s.ts| && Next(s, e).ts[t] != s.ts[t]
    requires Inside(Next(s, e).ts[t])
    ensures e.t == t && s.ts[t] != Out && ByOwnStep(s, s.ts[t], e.a, Next(s, e).ts[t])
  {
    if e.a.Proceed? && s.ts[t] != Out {
      StepStays(s, s.ts[t], e.a);
    } else {
      EntryStays(s, s.ts[t], e.a);
    }
  }

  /** Where an acquire comes from when it gets to one of its later places. */
  lemma AcquireFrom(b: Book, pc: Pc, o: Outcome, newborn: Conn, maxSize: nat, c: Conn)
    requires InAcquire(pc)
    ensures var ch := AcquireStep(b, pc, o, newborn, maxSize);
            && (ch.pc == Handing(c) ==> !b.closed && (pc == Validated(c) || pc == Connected(c)))
            && (ch.pc == Validated(c) ==> o.Good? && pc == Validating(c))
            && (ch.pc == Validating(c) ==> pc == Looking && b.idle == [c] + ch.b.idle)
            && (ch.pc == Connected(c) ==> o.Good? && pc == Building(c, Hook))
  {
  }

  lemma BuildingFrom(b: Book, pc: Pc, o: Outcome, newborn: Conn, maxSize: nat, c: Conn, ph: Phase)
    requires InAcquire(pc) && AcquireStep(b, pc, o, newborn, maxSize).pc == Building(c, ph)
    ensures o.Good?
    ensures if ph == Dial then pc == Connecting && c == newborn
            else pc.Building? && pc.c == c && Ahead(pc.ph) == Ahead(ph) + 1
  {
  }

  lemma FillFrom(b: Book, pc: Pc, o: Outcome, newborn: Conn, minSize: nat, c: Conn, ph: Phase)
    requires InFill(pc)
    ensures var pc' := FillStep(b, pc, o, newborn, minSize).pc;
            && (pc' == FillConnected(c) ==> o.Good? && pc == FillBuilding(c, Hook))
            && (pc' == FillBuilding(c, ph) ==>
                  o.Good? && if ph == Dial then pc == FillConnecting && c == newborn
                             else pc.FillBuilding? && pc.c == c && Ahead(pc.ph) == Ahead(ph) + 1)
  {
  }

  /** A thread is about to return `c`: it just registered it, validated or new. */
  lemma BeforeHanding(s: State, e: Event, t: nat, c: Conn)
    requires t < |s.ts| && Next(s, e).ts[t] == Handing(c) && s.ts[t] != Handing(c)
    ensures e.t == t && !s.b.closed && (s.ts[t] == Validated(c) || s.ts[t] == Connected(c))
  {
    OwnStep(s, e, t);
    AcquireFrom(s.b, s.ts[t], e.a.o, s.nextId, s.maxSize, c);
  }

  lemma BeforeValidated(s: State, e: Event, t: nat, c: Conn)
    requires t < |s.ts| && Next(s, e).ts[t] == Validated(c) && s.ts[t] != Validated(c)
    ensures e == Event(t, Proceed(Good)) && s.ts[t] == Validating(c)
  {
    OwnStep(s, e, t);
    AcquireFrom(s.b, s.ts[t], e.a.o, s.nextId, s.maxSize, c);
  }

  /** A thread validates what it took from the head of the idle queue. */
  lemma BeforeValidating(s: State, e: Event, t: nat, c: Conn)
    requires t < |s.ts| && Next(s, e).ts[t] == Validating(c) && s.ts[t] != Validating(c)
    ensures e.t == t && s.ts[t] == Looking && s.b.idle == [c] + Next(s, e).b.idle
  {
    OwnStep(s, e, t);
    AcquireFrom(s.b, s.ts[t], e.a.o, s.nextId, s.maxSize, c);
  }

  lemma BeforeConnected(s: State, e: Event, t: nat, c: Conn)
    requires t < |s.ts| && Next(s, e).ts[t] == Connected(c) && s.ts[t] != Connected(c)
    ensures e == Event(t, Proceed(Good)) && s.ts[t] == Building(c, Hook)
  {
    OwnStep(s, e, t);
    AcquireFrom(s.b, s.ts[t], e.a.o, s.nextId, s.maxSize, c);
  }

  /** A connection being opened got through its phases one by one, from a new socket on. */
  lemma BeforeBuilding(s: State, e: Event, t: nat, c: Conn, ph: Phase)
    requires t < |s.ts| && Next(s, e).ts[t] == Building(c, ph) && s.ts[t] != Building(c, ph)
    ensures e == Event(t, Proceed(Good))
    ensures if ph == Dial then s.ts[t] == Connecting && c == s.nextId
            else s.ts[t].Building? && s.ts[t].c == c && Ahead(s.ts[t].ph) == Ahead(ph) + 1
  {
    OwnStep(s, e, t);
    BuildingFrom(s.b, s.ts[t], e.a.o, s.nextId, s.maxSize, c, ph);
  }

  // ----- what is handed out --------------------------------------------------------------------

  /** The thread has no connection that is validated or newly opened. */
  predicate EmptyHanded(pc: Pc) { !pc.Building? && !pc.Connected? && !pc.Validated? && !pc.Handing? }

  lemma StaysEmptyHanded(s: State, e: Event, t: nat)
    requires t < |s.ts| && EmptyHanded(s.ts[t]) && e != Event(t, Proceed(Good))
    ensures t < |Next(s, e).ts| && EmptyHanded(Next(s, e).ts[t])
  {
    var pc := Next(s, e).ts[t];
    if pc.Building? {
      BeforeBuilding(s, e, t, pc.c, pc.ph);
    } else if pc.Connected? {
      BeforeConnected(s, e, t, pc.c);
    } else if pc.Validated? {
      BeforeValidated(s, e, t, pc.c);
    } else if pc.Handing? {
      BeforeHanding(s, e, t, pc.c);
    }
  }

  /** Nothing is handed out to a thread for which nothing worked: not from waiting, looking or
      validating on. */
  lemma {:induction false} NothingWithoutSuccess(s: State, es: seq<Event>, t: nat)
    requires t < |s.ts| && EmptyHanded(s.ts[t])
    requires forall e <- es :: e != Event(t, Proceed(Good))
    ensures t < |Run(s, es).ts| && !Run(s, es).ts[t].Handing?
    decreases es
  {
    if es != [] {
      assert es[0] in es && forall e <- es[1..] :: e in es;
      StaysEmptyHanded(s, es[0], t);
      NothingWithoutSuccess(Next(s, es[0]), es[1..], t);
    }
  }

  /** The thread is opening connection `c`. */
  predicate Makes(pc: Pc, c: Conn) { pc == Connected(c) || (pc.Building? && pc.c == c) }

  lemma NotMadeStep(s: State, e: Event, t: nat, c: Conn)
    requires t < |s.ts| && c < s.nextId && !Makes(s.ts[t], c)
    ensures var s' := Next(s, e); t < |s'.ts| && c < s'.nextId && !Makes(s'.ts[t], c)
  {
    StepKeepsClosed(s, e, c);
    var pc := Next(s, e).ts[t];
    if pc == Connected(c) {
      BeforeConnected(s, e, t, c);
    } else if pc.Building? && pc.c == c {
      BeforeBuilding(s, e, t, c, pc.ph);
    }
  }

  /** A thread does not open a connection that was there before. */
  lemma {:induction false} NotMade(s: State, es: seq<Event>, t: nat, c: Conn)
    requires t < |s.ts| && c < s.nextId && !Makes(s.ts[t], c)
    ensures t < |Run(s, es).ts| && !Makes(Run(s, es).ts[t], c)
    decreases es
  {
    if es != [] {
      NotMadeStep(s, es[0], t, c);
      NotMade(Next(s, es[0]), es[1..], t, c);
    }
  }

  /** How a connection that was idle came to be handed out to `t`: at event `i` the thread took
      it from the head of the queue, held it under validation until its event `k`, which
      worked, and held it validated or handed out ever since. */
  lemma HandedOutWasValidated(s: State, es: seq<Event>, t: nat, c: Conn) returns (i: nat, k: nat)
    requires t < |s.ts| && (s.ts[t] == Out || s.ts[t] == Looking) && c < s.nextId
    requires At(s, es, |es|, t) == Handing(c)
    ensures i < k < |es| && es[i].t == t && At(s, es, i, t) == Looking
    ensures Run(s, es[..i]).b.idle == [c] + Run(s, es[..i + 1]).b.idle
    ensures forall j | i < j <= k :: At(s, es, j, t) == Validating(c)
    ensures es[k] == Event(t, Proceed(Good))
    ensures forall j | k < j <= |es| :: At(s, es, j, t) == Validated(c) || At(s, es, j, t) == Handing(c)
  {
    AtStart(s, es, t);
    var h := LastArrival(s, es, |es|, t, Handing(c));
    StepBetween(s, es, h, t);
    BeforeHanding(Run(s, es[..h]), es[h], t, c);
    NotMade(s, es[..h], t, c);
    k := LastArrival(s, es, h, t, Validated(c));
    StepBetween(s, es, k, t);
    BeforeValidated(Run(s, es[..k]), es[k], t, c);
    i := LastArrival(s, es, k, t, Validating(c));
    StepBetween(s, es, i, t);
    BeforeValidating(Run(s, es[..i]), es[i], t, c);
  }

  lemma ValidationWorks(s: State, t: nat, c: Conn)
    requires t < |s.ts| && s.ts[t] == Validating(c)
    ensures var s' := Next(s, Event(t, Proceed(Good))); t < |s'.ts| && s'.ts[t] == Validated(c) && s'.b == s.b
  {
  }

  lemma ValidatedIsLent(s: State, t: nat, c: Conn, o: Outcome)
    requires t < |s.ts| && s.ts[t] == Validated(c) && !s.b.closed
    ensures var s' := Next(s, Event(t, Proceed(o)));
            t < |s'.ts| && s'.ts[t] == Handing(c) && s'.b == s.b.(out := s.b.out + [c])
  {
  }

  /** A healthy connection under validation in a pool that stays open is handed out by the
      thread's next two steps, and is in the table. */
  lemma HealthyIsHandedOut(s: State, t: nat, c: Conn, mid: seq<Event>, o: Outcome)
    requires t < |s.ts| && s.ts[t] == Validating(c) && forall e <- mid :: e.t != t
    requires !Run(Next(s, Event(t, Proceed(Good))), mid).b.closed
    ensures var s1 := Run(Next(s, Event(t, Proceed(Good))), mid); var s2 := Next(s1, Event(t, Proceed(o)));
            t < |s2.ts| && s2.ts[t] == Handing(c) && s2.b == s1.b.(out := s1.b.out + [c])
  {
    var s0 := Next(s, Event(t, Proceed(Good)));
    ValidationWorks(s, t, c);
    ThreadStays(s0, mid, t);
    ValidatedIsLent(Run(s0, mid), t, c, o);
  }

  // ----- what comes to the idle queue -----------------------------------------------------------

  /** A connection enters the idle queue from a sweep that tested it, from a pre-create that
      opened it, or from a release that worked; and only in an open pool. */
  lemma EntersIdle(s: State, e: Event, c: Conn)
    requires c !in s.b.idle && c in Next(s, e).b.idle
    ensures e.t < |s.ts| && !s.b.closed
    ensures (s.ts[e.t].SweepTested? && s.ts[e.t].c == c) || s.ts[e.t] == FillConnected(c)
            || (s.ts[e.t] == Releasing(c) && e.a == Proceed(Good))
  {
    StepAdds(s, s.ts[e.t], e.a, c);
  }

  lemma UpkeepAdds(b: Book, pc: Pc, o: Outcome, newborn: Conn, minSize: nat, c: Conn)
    requires c !in b.idle
    ensures InFill(pc) && c in FillStep(b, pc, o, newborn, minSize).b.idle ==> !b.closed && pc == FillConnected(c)
    ensures InSweep(pc) && c in SweepStep(b, pc, o).b.idle ==> !b.closed && pc.SweepTested? && pc.c == c
  {
  }

  lemma OthersAdd(b: Book, pc: Pc, a: Action, o: Outcome, newborn: Conn, maxSize: nat, c: Conn)
    requires c !in b.idle
    ensures c !in Enter(b, a, maxSize).b.idle
    ensures InAcquire(pc) ==> c !in AcquireStep(b, pc, o, newborn, maxSize).b.idle
    ensures !InAcquire(pc) && !InFill(pc) && !InSweep(pc) && pc != Out && c in LeaveStep(b, pc, o).b.idle ==>
              !b.closed && pc == Releasing(c) && o.Good?
  {
  }

  lemma StepAdds(s: State, pc: Pc, a: Action, c: Conn)
    requires c !in s.b.idle
    ensures c in StepOf(s, pc, a).b.idle ==>
              && !s.b.closed && a.Proceed?
              && ((pc.SweepTested? && pc.c == c) || pc == FillConnected(c) || (pc == Releasing(c) && a.o.Good?))
  {
    var o := if a.Proceed? then a.o else Good;
    UpkeepAdds(s.b, pc, o, s.nextId, s.minSize, c);
    OthersAdd(s.b, pc, a, o, s.nextId, s.maxSize, c);
  }

  lemma BeforeSweepTested(s: State, e: Event, t: nat, c: Conn, left: nat)
    requires t < |s.ts| && Next(s, e).ts[t] == SweepTested(c, left) && s.ts[t] != SweepTested(c, left)
    ensures e == Event(t, Proceed(Good)) && s.ts[t] == SweepTesting(c, left)
  {
    OwnStep(s, e, t);
  }

  lemma BeforeFillConnected(s: State, e: Event, t: nat, c: Conn)
    requires t < |s.ts| && Next(s, e).ts[t] == FillConnected(c) && s.ts[t] != FillConnected(c)
    ensures e == Event(t, Proceed(Good)) && s.ts[t] == FillBuilding(c, Hook)
  {
    OwnStep(s, e, t);
    FillFrom(s.b, s.ts[t], e.a.o, s.nextId, s.minSize, c, Dial);
  }

  lemma BeforeFillBuilding(s: State, e: Event, t: nat, c: Conn, ph: Phase)
    requires t < |s.ts| && Next(s, e).ts[t] == FillBuilding(c, ph) && s.ts[t] != FillBuilding(c, ph)
    ensures e == Event(t, Proceed(Good))
    ensures if ph == Dial then s.ts[t] == FillConnecting && c == s.nextId
            else s.ts[t].FillBuilding? && s.ts[t].c == c && Ahead(s.ts[t].ph) == Ahead(ph) + 1
  {
    OwnStep(s, e, t);
    FillFrom(s.b, s.ts[t], e.a.o, s.nextId, s.minSize, c, ph);
  }

  lemma SweepTestWorks(s: State, t: nat, c: Conn, left: nat)
    requires t < |s.ts| && s.ts[t] == SweepTesting(c, left)
    ensures var s' := Next(s, Event(t, Proceed(Good))); t < |s'.ts| && s'.ts[t] == SweepTested(c, left) && s'.b == s.b
  {
  }

  lemma SweepTestedIsKept(s: State, t: nat, c: Conn, left: nat, o: Outcome)
    requires t < |s.ts| && s.ts[t] == SweepTested(c, left) && !s.b.closed
    ensures Next(s, Event(t, Proceed(o))).b == s.b.(idle := s.b.idle + [c])
  {
  }

  /** A healthy connection under the sweep's test goes back to the end of the queue of a pool
      that stays open. */
  lemma HealthyGoesBack(s: State, t: nat, c: Conn, left: nat, mid: seq<Event>, o: Outcome)
    requires t < |s.ts| && s.ts[t] == SweepTesting(c, left) && forall e <- mid :: e.t != t
    requires !Run(Next(s, Event(t, Proceed(Good))), mid).b.closed
    ensures var s1 := Run(Next(s, Event(t, Proceed(Good))), mid);
            Next(s1, Event(t, Proceed(o))).b == s1.b.(idle := s1.b.idle + [c])
  {
    var s0 := Next(s, Event(t, Proceed(Good)));
    SweepTestWorks(s, t, c, left);
    ThreadStays(s0, mid, t);
    SweepTestedIsKept(Run(s0, mid), t, c, left, o);
  }

  // ----- what failed does not come back ----------------------------------------------------------

  /** Where connection `c` is tested, opened or rolled back by the thread at `pc`. */
  predicate OnTrial(pc: Pc, c: Conn) {
    match pc
    case Validating(x) => x == c
    case SweepTesting(x, _) => x == c
    case Building(x, _) => x == c
    case FillBuilding(x, _) => x == c
    case Releasing(x) => x == c
    case _ => false
  }

  /** The thread is getting rid of `c`. */
  predicate Discards(pc: Pc, c: Conn) {
    match pc
    case Dropping(x, _) => x == c
    case DropClosing(x, _) => x == c
    case SweepDropping(x, _, _) => x == c
    case SweepClosing(x, _, _) => x == c
    case ReleaseClosing(x) => x == c
    case _ => false
  }

  ghost predicate Gone(s: State, t: nat, c: Conn) {
    && t < |s.ts| && c < s.nextId && (Discards(s.ts[t], c) || c !in s.live || c in s.lost.open)
  }

  lemma FailsTrial(s: State, t: nat, c: Conn, o: Outcome)
    requires t < |s.ts| && c < s.nextId && OnTrial(s.ts[t], c) && !o.Good?
    ensures Gone(Next(s, Event(t, Proceed(o))), t, c)
  {
    StepKeepsClosed(s, Event(t, Proceed(o)), c);
  }

  lemma DiscardsOn(s: State, e: Event, t: nat, c: Conn)
    requires t < |s.ts| && c < s.nextId && Discards(s.ts[t], c)
    ensures Gone(Next(s, e), t, c)
  {
    StepKeepsClosed(s, e, c);
  }

  lemma GoneStep(s: State, e: Event, t: nat, c: Conn)
    requires Gone(s, t, c)
    ensures Gone(Next(s, e), t, c)
  {
    if Discards(s.ts[t], c) {
      DiscardsOn(s, e, t, c);
    } else {
      StepKeepsClosed(s, e, c);
      NextWastes(s, e);
    }
  }

  /** What is gone is nowhere in the pool's books. */
  lemma GoneIsNotKept(s: State, t: nat, c: Conn)
    requires Inv(s) && Gone(s, t, c)
    ensures c !in s.b.idle && c !in s.b.out
  {
    assert Places(s, c) == if c in s.live then 1 else 0;
    TimesWithout(s.b.idle, c, c);
    TimesWithout(s.b.out, c, c);
    if Discards(s.ts[t], c) {
      HoldsIt(s, t, c);
    }
  }

  lemma HoldsIt(s: State, t: nat, c: Conn)
    requires t < |s.ts| && c in Held(s.ts[t])
    ensures Times(s.b.idle, c) + Times(s.b.out, c) + 1 <= Places(s, c)
  {
    Tally.SumHasShare(Holding(c), s.ts, t);
    TimesWithout(Held(s.ts[t]), c, c);
  }

  lemma {:induction false} GoneForGood(s: State, es: seq<Event>, t: nat, c: Conn)
    requires Inv(s) && Gone(s, t, c)
    ensures c !in Run(s, es).b.idle && c !in Run(s, es).b.out
    decreases es
  {
    if es == [] {
      GoneIsNotKept(s, t, c);
    } else {
      GoneStep(s, es[0], t, c);
      StepKeepsInv(s, es[0]);
      GoneForGood(Next(s, es[0]), es[1..], t, c);
    }
  }

  /** A connection whose validation, sweep test, opening or rollback fails or is interrupted is
      never idle or lent again. */
  lemma FailureIsFinal(s: State, t: nat, c: Conn, o: Outcome, es: seq<Event>)
    requires Inv(s) && t < |s.ts| && OnTrial(s.ts[t], c) && !o.Good?
    ensures var s' := Run(Next(s, Event(t, Proceed(o))), es); c !in s'.b.idle && c !in s'.b.out
  {
    HeldWasOpened(s, t, c);
    FailsTrial(s, t, c, o);
    StepKeepsInv(s, Event(t, Proceed(o)));
    GoneForGood(Next(s, Event(t, Proceed(o))), es, t, c);
  }
}
