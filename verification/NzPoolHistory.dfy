/** What the asyncio pool hands out and keeps, told from the outside of its steps: how a
    connection that is checked out or idle got there, and what becomes of one that failed. */
module NzPoolHistory {
  import opened Queues
  import opened NzPools
  import opened NzPoolRuns
  import opened NzPoolSafety
  import opened NzPoolShutdown
  import opened NzPoolExamples
  import opened Phases
  import Tally

  // ----- runs, event by event ------------------------------------------------------------------

  lemma {:induction false} SameTasks(s: State, es: seq<Event>)
    ensures |Run(s, es).ts| == |s.ts|
    decreases es
  {
    if es != [] {
      SameTasks(Next(s, es[0]), es[1..]);
    }
  }

  /** Where task `t` is after `j` events of a run. */
  function At(s: State, es: seq<Event>, j: nat, t: nat): Pc
    requires j <= |es|
  {
    var s' := Run(s, es[..j]);
    if t < |s'.ts| then s'.ts[t] else Out
  }

  predicate Lent(s: State, es: seq<Event>, j: nat, c: Conn)
    requires j <= |es|
  {
    c in Run(s, es[..j]).b.out
  }

  /** Event `j` of a run, as a step between two of its states. */
  lemma StepBetween(s: State, es: seq<Event>, j: nat, t: nat)
    requires j < |es| && t < |s.ts|
    ensures t < |Run(s, es[..j]).ts| && At(s, es, j, t) == Run(s, es[..j]).ts[t]
    ensures Run(s, es[..j + 1]) == Next(Run(s, es[..j]), es[j])
    ensures t < |Next(Run(s, es[..j]), es[j]).ts| && At(s, es, j + 1, t) == Next(Run(s, es[..j]), es[j]).ts[t]
  {
    assert es[..j + 1] == es[..j] + [es[j]];
    RunSnoc(s, es[..j], es[j]);
    SameTasks(s, es[..j]);
    SameTasks(s, es[..j + 1]);
  }

  /** The event that brought task `t` to `pc`, where it is after `n` events. */
  lemma {:induction false} LastArrival(s: State, es: seq<Event>, n: nat, t: nat, pc: Pc) returns (i: nat)
    requires n <= |es| && At(s, es, 0, t) != pc && At(s, es, n, t) == pc
    ensures i < n && At(s, es, i, t) != pc && forall j | i < j <= n :: At(s, es, j, t) == pc
    decreases n
  {
    i := n - 1;
    if At(s, es, n - 1, t) == pc {
      i := LastArrival(s, es, n - 1, t, pc);
      forall j | i < j <= n
        ensures At(s, es, j, t) == pc
      {
        assert j < n || j == n;
      }
    }
  }

  /** The event that put `c` into the checked-out table, where it is after `n` events. */
  lemma {:induction false} LastLending(s: State, es: seq<Event>, n: nat, c: Conn) returns (k: nat)
    requires n <= |es| && !Lent(s, es, 0, c) && Lent(s, es, n, c)
    ensures k < n && !Lent(s, es, k, c) && forall j | k < j <= n :: Lent(s, es, j, c)
    decreases n
  {
    k := n - 1;
    if Lent(s, es, n - 1, c) {
      k := LastLending(s, es, n - 1, c);
    }
  }

  // ----- the step behind -------------------------------------------------------------------------

  lemma AcquireStays(b: Book, pc: Pc, o: Outcome, newborn: Conn, maxSize: nat)
    ensures InAcquire(pc) ==> var pc' := AcquireStep(b, pc, o, newborn, maxSize).pc; InAcquire(pc') || pc' == Out || pc' == FillTop(true)
  {
  }

  lemma FillStays(b: Book, pc: Pc, o: Outcome, newborn: Conn, minSize: nat)
    ensures InFill(pc) ==> var pc' := FillStep(b, pc, o, newborn, minSize).pc; InFill(pc') || pc' == Out || pc' == AcqLock
  {
  }

  lemma SweepStays(b: Book, pc: Pc, o: Outcome)
    ensures InSweep(pc) ==> var pc' := SweepStep(b, pc, o).pc; InSweep(pc') || pc' == Out
  {
  }

  lemma LeaveStays(b: Book, pc: Pc, o: Outcome)
    ensures InLeave(pc) ==> var pc' := LeaveStep(b, pc, o).pc; InLeave(pc') || pc' == Out
  {
  }

  lemma EnterStarts(b: Book, a: Action)
    ensures var pc := Enter(b, a).pc;
            (InAcquire(pc) ==> pc == AcqTop) && (InFill(pc) ==> pc.FillTop?) && (InSweep(pc) ==> pc.SweepTop?)
  {
  }

  lemma StepStays(s: State, pc: Pc, a: Action)
    ensures var pc' := StepOf(s, pc, a).pc;
            && (InAcquire(pc') && pc' != AcqTop && pc' != AcqLock && pc' != pc ==>
                  a.Proceed? && InAcquire(pc) && pc' == AcquireStep(s.b, pc, a.o, s.nextId, s.maxSize).pc)
            && (InFill(pc') && !pc'.FillTop? && pc' != pc ==>
                  a.Proceed? && InFill(pc) && pc' == FillStep(s.b, pc, a.o, s.nextId, s.minSize).pc)
            && (InSweep(pc') && !pc'.SweepTop? && pc' != pc ==>
                  a.Proceed? && InSweep(pc) && pc' == SweepStep(s.b, pc, a.o).pc)
  {
    if pc == Out {
      EnterStarts(s.b, a);
    } else if a.Proceed? {
      if InAcquire(pc) {
        AcquireStays(s.b, pc, a.o, s.nextId, s.maxSize);
      } else if InFill(pc) {
        FillStays(s.b, pc, a.o, s.nextId, s.minSize);
      } else if InSweep(pc) {
        SweepStays(s.b, pc, a.o);
      } else {
        LeaveStays(s.b, pc, a.o);
      }
    }
  }

  /** A task gets inside an operation beyond its loop heads only by its own step of it. */
  lemma OwnStep(s: State, e: Event, t: nat)
    requires t < |s.ts| && Next(s, e).ts[t] != s.ts[t]
    requires var pc := Next(s, e).ts[t];
             || (InAcquire(pc) && pc != AcqTop && pc != AcqLock)
             || (InFill(pc) && !pc.FillTop?) || (InSweep(pc) && !pc.SweepTop?)
    ensures e.t == t && e.a.Proceed? && s.ts[t] != Out
    ensures InAcquire(Next(s, e).ts[t]) ==>
              InAcquire(s.ts[t]) && Next(s, e).ts[t] == AcquireStep(s.b, s.ts[t], e.a.o, s.nextId, s.maxSize).pc
    ensures InFill(Next(s, e).ts[t]) ==>
              InFill(s.ts[t]) && Next(s, e).ts[t] == FillStep(s.b, s.ts[t], e.a.o, s.nextId, s.minSize).pc
    ensures InSweep(Next(s, e).ts[t]) ==> InSweep(s.ts[t]) && Next(s, e).ts[t] == SweepStep(s.b, s.ts[t], e.a.o).pc
  {
    StepStays(s, s.ts[t], e.a);
  }

  /** A task validates what it took from the head of the idle queue, and reserved. */
  lemma BeforeValidating(s: State, e: Event, t: nat, c: Conn)
    requires t < |s.ts| && Next(s, e).ts[t] == Validating(c) && s.ts[t] != Validating(c)
    ensures e.t == t && s.ts[t] == AcqLock && s.b.idle == [c] + Next(s, e).b.idle && c in Next(s, e).b.reserving
  {
    OwnStep(s, e, t);
  }

  lemma SweepTestingFrom(b: Book, pc: Pc, o: Outcome, c: Conn, left: nat)
    requires InSweep(pc) && SweepStep(b, pc, o).pc == SweepTesting(c, left)
    ensures pc == SweepTop(left + 1) && !b.closed
    ensures b.idle == [c] + SweepStep(b, pc, o).b.idle && c in SweepStep(b, pc, o).b.reserving
  {
  }

  /** A sweep tests what it took from the head of the idle queue of an open pool. */
  lemma BeforeSweepTesting(s: State, e: Event, t: nat, c: Conn, left: nat)
    requires t < |s.ts| && Next(s, e).ts[t] == SweepTesting(c, left) && s.ts[t] != SweepTesting(c, left)
    ensures e.t == t && s.ts[t] == SweepTop(left + 1) && !s.b.closed
    ensures s.b.idle == [c] + Next(s, e).b.idle && c in Next(s, e).b.reserving
  {
    OwnStep(s, e, t);
    SweepTestingFrom(s.b, s.ts[t], e.a.o, c, left);
  }

  lemma BuildingFrom(b: Book, pc: Pc, o: Outcome, newborn: Conn, maxSize: nat, c: Conn, ph: Phase)
    requires InAcquire(pc) && AcquireStep(b, pc, o, newborn, maxSize).pc == Building(c, ph)
    ensures o.Good?
    ensures if ph == Dial then pc == Connecting && c == newborn
            else pc.Building? && pc.c == c && Ahead(pc.ph) == Ahead(ph) + 1
  {
  }

  lemma FillBuildingFrom(b: Book, pc: Pc, o: Outcome, newborn: Conn, minSize: nat, c: Conn, ph: Phase, acq: bool)
    requires InFill(pc) && FillStep(b, pc, o, newborn, minSize).pc == FillBuilding(c, ph, acq)
    ensures o.Good?
    ensures if ph == Dial then pc == FillConnecting(acq) && c == newborn
            else pc.FillBuilding? && pc.c == c && pc.acq == acq && Ahead(pc.ph) == Ahead(ph) + 1
  {
  }

  /** A connection being opened got through its phases one by one, from a new socket on. */
  lemma BeforeBuilding(s: State, e: Event, t: nat, c: Conn, ph: Phase)
    requires t < |s.ts| && Next(s, e).ts[t] == Building(c, ph) && s.ts[t] != Building(c, ph)
    ensures e == Event(t, Proceed(Good))
    ensures if ph == Dial then s.ts[t] == Connecting && c == s.nextId
            else s.ts[t].Building? && s.ts[t].c == c && Ahead(s.ts[t].ph) == Ahead(ph) + 1
  {
    OwnStep(s, e, t);
    BuildingFrom(s.b, s.ts[t], e.a.o, s.nextId, s.maxSize, c, ph);
  }

  lemma BeforeFillBuilding(s: State, e: Event, t: nat, c: Conn, ph: Phase, acq: bool)
    requires t < |s.ts| && Next(s, e).ts[t] == FillBuilding(c, ph, acq) && s.ts[t] != FillBuilding(c, ph, acq)
    ensures e == Event(t, Proceed(Good))
    ensures if ph == Dial then s.ts[t] == FillConnecting(acq) && c == s.nextId
            else s.ts[t].FillBuilding? && s.ts[t].c == c && s.ts[t].acq == acq && Ahead(s.ts[t].ph) == Ahead(ph) + 1
  {
    OwnStep(s, e, t);
    FillBuildingFrom(s.b, s.ts[t], e.a.o, s.nextId, s.minSize, c, ph, acq);
  }

  // ----- what is handed out ------------------------------------------------------------------------

  lemma AcquireLends(b: Book, pc: Pc, o: Outcome, newborn: Conn, maxSize: nat, c: Conn)
    requires InAcquire(pc) && c !in b.out && c in AcquireStep(b, pc, o, newborn, maxSize).b.out
    ensures !b.closed && o == Good && (pc == Validating(c) || pc == Building(c, Hook))
  {
  }

  lemma OthersLendNothing(b: Book, pc: Pc, a: Action, o: Outcome, newborn: Conn, minSize: nat, c: Conn)
    requires c !in b.out
    ensures c !in Enter(b, a).b.out
    ensures InFill(pc) ==> c !in FillStep(b, pc, o, newborn, minSize).b.out
    ensures InSweep(pc) ==> c !in SweepStep(b, pc, o).b.out
    ensures InLeave(pc) ==> c !in LeaveStep(b, pc, o).b.out
  {
    if pc.Releasing? {
      WithoutOne(b.out, pc.c);
      assert c !in multiset(Without(b.out, pc.c));
    }
  }

  /** A connection is checked out only by a validation that worked or an opening that worked to
      its end, and only in an open pool. */
  lemma EntersOut(s: State, e: Event, c: Conn)
    requires c !in s.b.out && c in Next(s, e).b.out
    ensures e.t < |s.ts| && !s.b.closed && e.a == Proceed(Good)
    ensures s.ts[e.t] == Validating(c) || s.ts[e.t] == Building(c, Hook)
  {
    var pc := s.ts[e.t];
    OthersLendNothing(s.b, pc, e.a, if e.a.Proceed? then e.a.o else Good, s.nextId, s.minSize, c);
    if InAcquire(pc) && e.a.Proceed? {
      AcquireLends(s.b, pc, e.a.o, s.nextId, s.maxSize, c);
    }
  }

  lemma NotMadeStep(s: State, e: Event, t: nat, c: Conn)
    requires t < |s.ts| && c < s.nextId && !(s.ts[t].Building? && s.ts[t].c == c)
    ensures var s' := Next(s, e); t < |s'.ts| && c < s'.nextId && !(s'.ts[t].Building? && s'.ts[t].c == c)
  {
    StepKeepsClosed(s, e, c);
    var pc := Next(s, e).ts[t];
    if pc.Building? && pc.c == c {
      BeforeBuilding(s, e, t, c, pc.ph);
    }
  }

  /** A task does not open a connection that was there before. */
  lemma {:induction false} NotMade(s: State, es: seq<Event>, t: nat, c: Conn)
    requires t < |s.ts| && c < s.nextId && !(s.ts[t].Building? && s.ts[t].c == c)
    ensures var pc := At(s, es, |es|, t); !(pc.Building? && pc.c == c)
    decreases es
  {
    assert es[..|es|] == es;
    if es != [] {
      NotMadeStep(s, es[0], t, c);
      NotMade(Next(s, es[0]), es[1..], t, c);
      assert es[1..][..|es| - 1] == es[1..];
    }
  }

  lemma IdleIsNotLent(s: State, c: Conn)
    requires Inv(s) && c in s.b.idle
    ensures c !in s.b.out && c < s.nextId
    ensures forall t | 0 <= t < |s.ts| :: c !in Held(s.ts[t])
  {
    assert Places(s, c) == if c in s.live then 1 else 0;
    TimesWithout(s.b.idle, c, c);
    TimesWithout(s.b.out, c, c);
    forall t | 0 <= t < |s.ts|
      ensures c !in Held(s.ts[t])
    {
      TimesWithout(Held(s.ts[t]), c, c);
      Tally.SumHasShare(Holding(c), s.ts, t);
    }
  }

  /** The event that lent `c`, and what it was. */
  lemma LentBy(s: State, es: seq<Event>, c: Conn) returns (t: nat, k: nat)
    requires c !in s.b.out && c in Run(s, es).b.out
    ensures k < |es| && t < |s.ts| && es[k] == Event(t, Proceed(Good))
    ensures At(s, es, k, t) == Validating(c) || At(s, es, k, t) == Building(c, Hook)
    ensures forall j | k < j <= |es| :: Lent(s, es, j, c)
  {
    assert es[..0] == [] && es[..|es|] == es;
    k := LastLending(s, es, |es|, c);
    assert es[..k + 1] == es[..k] + [es[k]];
    RunSnoc(s, es[..k], es[k]);
    assert Lent(s, es, k + 1, c);
    EntersOut(Run(s, es[..k]), es[k], c);
    SameTasks(s, es[..k]);
    t := es[k].t;
  }

  /** How a connection that was idle came to be lent: a task `t` took it from the head of the
      queue at event `i`, held it under validation until its event `k`, which worked, and it
      has been in the checked-out table ever since. */
  lemma LentWasValidated(s: State, es: seq<Event>, c: Conn) returns (t: nat, i: nat, k: nat)
    requires Inv(s) && c in s.b.idle && c in Run(s, es).b.out
    ensures i < k < |es| && es[i].t == t && es[k] == Event(t, Proceed(Good))
    ensures At(s, es, i, t) == AcqLock && Run(s, es[..i]).b.idle == [c] + Run(s, es[..i + 1]).b.idle
    ensures forall j | i < j <= k :: At(s, es, j, t) == Validating(c)
    ensures forall j | k < j <= |es| :: Lent(s, es, j, c)
  {
    IdleIsNotLent(s, c);
    t, k := LentBy(s, es, c);
    assert c !in Held(s.ts[t]);
    NotMadeBefore(s, es, k, t, c);
    i := TakenBefore(s, es, k, t, c);
  }

  lemma NotMadeBefore(s: State, es: seq<Event>, k: nat, t: nat, c: Conn)
    requires k <= |es| && t < |s.ts| && c < s.nextId && c !in Held(s.ts[t])
    ensures At(s, es, k, t) != Building(c, Hook) && At(s, es, 0, t) != Validating(c)
  {
    NotMade(s, es[..k], t, c);
    assert es[..k][..k] == es[..k] && es[..0] == [];
  }

  lemma TakenBefore(s: State, es: seq<Event>, k: nat, t: nat, c: Conn) returns (i: nat)
    requires k <= |es| && t < |s.ts| && At(s, es, 0, t) != Validating(c) && At(s, es, k, t) == Validating(c)
    ensures i < k && es[i].t == t && At(s, es, i, t) == AcqLock
    ensures Run(s, es[..i]).b.idle == [c] + Run(s, es[..i + 1]).b.idle
    ensures forall j | i < j <= k :: At(s, es, j, t) == Validating(c)
  {
    i := LastArrival(s, es, k, t, Validating(c));
    StepBetween(s, es, i, t);
    BeforeValidating(Run(s, es[..i]), es[i], t, c);
  }

  /** A healthy connection under validation in an open pool is checked out, and the task is out
      of the pool with it. */
  lemma HealthyIsHandedOut(s: State, t: nat, c: Conn)
    requires t < |s.ts| && s.ts[t] == Validating(c) && !s.b.closed
    ensures var s' := Next(s, Event(t, Proceed(Good)));
            t < |s'.ts| && s'.ts[t] == Out && s'.live == s.live
            && s'.b == s.b.(reserving := Without(s.b.reserving, c), out := s.b.out + [c])
  {
    assert s.live + {} - {} == s.live;
  }

  /** So is a new one that worked to its end. */
  lemma NewIsHandedOut(s: State, t: nat, c: Conn)
    requires t < |s.ts| && s.ts[t] == Building(c, Hook) && !s.b.closed
    ensures var s' := Next(s, Event(t, Proceed(Good)));
            t < |s'.ts| && s'.ts[t] == Out && s'.live == s.live && s'.b == s.b.(out := s.b.out + [c])
  {
    assert s.live + {} - {} == s.live;
  }

  // ----- what comes to the idle queue -----------------------------------------------------------------

  lemma FillKeeps(b: Book, pc: Pc, o: Outcome, newborn: Conn, minSize: nat, c: Conn)
    requires InFill(pc) && c !in b.idle && c in FillStep(b, pc, o, newborn, minSize).b.idle
    ensures !b.closed && o == Good && pc.FillBuilding? && pc.c == c && pc.ph == Hook
  {
  }

  lemma SweepKeeps(b: Book, pc: Pc, o: Outcome, c: Conn)
    requires InSweep(pc) && c !in b.idle && c in SweepStep(b, pc, o).b.idle
    ensures !b.closed && o == Good && pc.SweepTesting? && pc.c == c
  {
  }

  lemma ReleaseKeeps(b: Book, pc: Pc, o: Outcome, c: Conn)
    requires InLeave(pc) && c !in b.idle && c in LeaveStep(b, pc, o).b.idle
    ensures !b.closed && o == Good && pc == Releasing(c) && c in b.out
  {
  }

  lemma OthersKeepNothing(b: Book, pc: Pc, a: Action, o: Outcome, newborn: Conn, maxSize: nat, c: Conn)
    requires c !in b.idle
    ensures c !in Enter(b, a).b.idle
    ensures InAcquire(pc) ==> c !in AcquireStep(b, pc, o, newborn, maxSize).b.idle
  {
  }

  /** A connection enters the idle queue by a sweep test, a pre-create or a release that worked,
      and only in an open pool. */
  lemma EntersIdle(s: State, e: Event, c: Conn)
    requires c !in s.b.idle && c in Next(s, e).b.idle
    ensures e.t < |s.ts| && !s.b.closed && e.a == Proceed(Good)
    ensures (s.ts[e.t].SweepTesting? && s.ts[e.t].c == c) || (s.ts[e.t].FillBuilding? && s.ts[e.t].c == c && s.ts[e.t].ph == Hook)
            || (s.ts[e.t] == Releasing(c) && c in s.b.out)
  {
    var pc := s.ts[e.t];
    OthersKeepNothing(s.b, pc, e.a, if e.a.Proceed? then e.a.o else Good, s.nextId, s.maxSize, c);
    if pc != Out && e.a.Proceed? {
      if InFill(pc) {
        FillKeeps(s.b, pc, e.a.o, s.nextId, s.minSize, c);
      } else if InSweep(pc) {
        SweepKeeps(s.b, pc, e.a.o, c);
      } else if InLeave(pc) {
        ReleaseKeeps(s.b, pc, e.a.o, c);
      }
    }
  }

  /** A healthy connection under the sweep's test goes back to the end of the queue of an open
      pool, and the sweep goes on. */
  lemma HealthyGoesBack(s: State, t: nat, c: Conn, left: nat)
    requires t < |s.ts| && s.ts[t] == SweepTesting(c, left) && !s.b.closed
    ensures var s' := Next(s, Event(t, Proceed(Good)));
            t < |s'.ts| && s'.ts[t] == SweepTop(left)
            && s'.b == s.b.(reserving := Without(s.b.reserving, c), idle := s.b.idle + [c])
  {
  }

  /** A lent connection that is usable goes back to the end of the queue. */
  lemma UsableGoesBack(s: State, t: nat, c: Conn)
    requires t < |s.ts| && s.ts[t] == Releasing(c) && !s.b.closed && c in s.b.out
    ensures var s' := Next(s, Event(t, Proceed(Good)));
            t < |s'.ts| && s'.ts[t] == Out && s'.b == s.b.(out := Without(s.b.out, c), idle := s.b.idle + [c])
  {
  }

  // ----- what failed does not come back --------------------------------------------------------------

  /** Connection `c` is tested or opened by the task at `pc`, or it is lent and the task releases
      it, and the operation does not work. */
  predicate FailsTrial(b: Book, pc: Pc, o: Outcome, c: Conn) {
    !o.Good? &&
    match pc
    case Validating(x) => x == c
    case SweepTesting(x, _) => x == c
    case Building(x, _) => x == c
    case FillBuilding(x, _, _) => x == c
    case Releasing(x) => x == c && c in b.out && !b.closed && !o.Abort?
    case _ => false
  }

  /** The task is getting rid of `c`. */
  predicate Discards(pc: Pc, c: Conn) {
    match pc
    case HookFailed(x) => x == c
    case FillHookFailed(x, _) => x == c
    case DropClosing(x, _) => x == c
    case SweepClosing(x, _, _) => x == c
    case ReleaseClosing(x) => x == c
    case _ => false
  }

  ghost predicate Gone(s: State, t: nat, c: Conn) {
    t < |s.ts| && c < s.nextId && (Discards(s.ts[t], c) || c !in s.live || c in s.lost)
  }

  lemma TrialEnds(s: State, t: nat, c: Conn, o: Outcome)
    requires t < |s.ts| && c < s.nextId && FailsTrial(s.b, s.ts[t], o, c)
    ensures Gone(Next(s, Event(t, Proceed(o))), t, c)
  {
    StepKeepsClosed(s, Event(t, Proceed(o)), c);
  }

  lemma DiscardsOn(s: State, e: Event, t: nat, c: Conn)
    requires t < |s.ts| && c < s.nextId && Discards(s.ts[t], c)
    ensures Gone(Next(s, e), t, c)
  {
    StepKeepsClosed(s, e, c);
  }

  lemma GoneStep(s: State, e: Event, t: nat, c: Conn)
    requires Gone(s, t, c)
    ensures Gone(Next(s, e), t, c)
  {
    if Discards(s.ts[t], c) {
      DiscardsOn(s, e, t, c);
    } else {
      StepKeepsClosed(s, e, c);
    }
  }

  /** What is gone is nowhere in the pool's books. */
  lemma GoneIsNotKept(s: State, t: nat, c: Conn)
    requires Inv(s) && Gone(s, t, c)
    ensures c !in s.b.idle && c !in s.b.out
  {
    assert Places(s, c) == if c in s.live then 1 else 0;
    TimesWithout(s.b.idle, c, c);
    TimesWithout(s.b.out, c, c);
    TimesWithout(Held(s.ts[t]), c, c);
    Tally.SumHasShare(Holding(c), s.ts, t);
  }

  lemma {:induction false} GoneForGood(s: State, es: seq<Event>, t: nat, c: Conn)
    requires Inv(s) && Gone(s, t, c)
    ensures c !in Run(s, es).b.idle && c !in Run(s, es).b.out
    decreases es
  {
    if es == [] {
      GoneIsNotKept(s, t, c);
    } else {
      GoneStep(s, es[0], t, c);
      StepKeepsInv(s, es[0]);
      GoneForGood(Next(s, es[0]), es[1..], t, c);
    }
  }

  lemma TrialWasOpened(s: State, t: nat, c: Conn, o: Outcome)
    requires Inv(s) && t < |s.ts| && FailsTrial(s.b, s.ts[t], o, c)
    ensures c < s.nextId
  {
    if s.ts[t].Releasing? {
      TimesWithout(s.b.out, c, c);
      assert Places(s, c) == if c in s.live then 1 else 0;
    } else {
      assert c in Held(s.ts[t]);
      HeldWasOpened(s, t, c);
    }
  }

  /** A connection whose validation, sweep test or opening fails or is cancelled, or that is
      found unusable when it is released, is never idle or lent again. */
  lemma FailureIsFinal(s: State, t: nat, c: Conn, o: Outcome, es: seq<Event>)
    requires Inv(s) && t < |s.ts| && FailsTrial(s.b, s.ts[t], o, c)
    ensures var s' := Run(Next(s, Event(t, Proceed(o))), es); c !in s'.b.idle && c !in s'.b.out
  {
    TrialWasOpened(s, t, c, o);
    TrialEnds(s, t, c, o);
    StepKeepsInv(s, Event(t, Proceed(o)));
    GoneForGood(Next(s, Event(t, Proceed(o))), es, t, c);
  }
}
