/** What happens in the threaded pool once it is closed: no acquire succeeds any more, and every
    connection that is not lost gets closed by its owner. */
module SyncPoolShutdown {
  import opened Queues
  import opened SyncPools
  import opened SyncPoolRuns
  import opened SyncPoolSafety
  import opened Phases
  import opened Tally

  /** How many steps of its own the thread still needs, after close, to close `c`. */
  function StepsToClose(pc: Pc, c: Conn): nat {
    match pc
    case Building(_, ph) => Ahead(ph) + 2
    case FillBuilding(_, ph) => Ahead(ph) + 2
    case Validating(_) => 4
    case Validated(_) => 3
    case Dropping(_, _) => 2
    case Connected(_) => 2
    case Releasing(_) => 2
    case FillConnected(_) => 2
    case SweepTesting(_, _) => 4
    case SweepTested(_, _) => 3
    case SweepDropping(_, _, _) => 2
    case Shutting(cs) => |cs|
    case _ => 1
  }

  /** A step taken after close neither registers a connection for a caller nor forgets one
      that its thread owns: it closes it or comes closer to closing it. */
  ghost predicate ClosesDown(pc: Pc, ch: Change, c: Conn) {
    && !ch.pc.Handing?
    && (c in Held(pc) && c !in ch.loses.open ==>
          c in ch.closes || (c in Held(ch.pc) && StepsToClose(ch.pc, c) < StepsToClose(pc, c)))
  }

  lemma AcquireClosesDown(b: Book, pc: Pc, o: Outcome, newborn: Conn, maxSize: nat, c: Conn)
    requires InAcquire(pc) && b.closed
    ensures ClosesDown(pc, AcquireStep(b, pc, o, newborn, maxSize), c)
  {
  }

  lemma FillClosesDown(b: Book, pc: Pc, o: Outcome, newborn: Conn, minSize: nat, c: Conn)
    requires InFill(pc) && b.closed
    ensures ClosesDown(pc, FillStep(b, pc, o, newborn, minSize), c)
  {
  }

  lemma SweepClosesDown(b: Book, pc: Pc, o: Outcome, c: Conn)
    requires InSweep(pc) && b.closed
    ensures ClosesDown(pc, SweepStep(b, pc, o), c)
  {
  }

  lemma LeaveClosesDown(b: Book, pc: Pc, o: Outcome, c: Conn)
    requires !InAcquire(pc) && !InFill(pc) && !InSweep(pc) && pc != Out && b.closed
    ensures ClosesDown(pc, LeaveStep(b, pc, o), c)
  {
    if pc.Shutting? && pc.cs != [] {
      assert c in pc.cs ==> c == pc.cs[0] || c in pc.cs[1..];
      TimesOfMembers(pc.cs, c);
      TimesOfMembers(pc.cs[1..], c);
      TimesWithout(pc.cs, c, c);
      TimesWithout(pc.cs[1..], c, c);
    }
  }

  lemma StepClosesDown(s: State, pc: Pc, a: Action, c: Conn)
    requires s.b.closed && pc != Out && a.Proceed?
    ensures ClosesDown(pc, StepOf(s, pc, a), c)
  {
    if InAcquire(pc) {
      AcquireClosesDown(s.b, pc, a.o, s.nextId, s.maxSize, c);
    } else if InFill(pc) {
      FillClosesDown(s.b, pc, a.o, s.nextId, s.minSize, c);
    } else if InSweep(pc) {
      SweepClosesDown(s.b, pc, a.o, c);
    } else {
      LeaveClosesDown(s.b, pc, a.o, c);
    }
  }

  lemma OneStepAfterClose(s: State, e: Event)
    requires Inv(s) && s.b.closed
    ensures Next(s, e).b.closed && |Next(s, e).ts| == |s.ts|
    ensures e.t < |s.ts| && Next(s, e).ts[e.t].Handing? ==> Next(s, e).ts[e.t] == s.ts[e.t]
    ensures forall t | 0 <= t < |s.ts| && t != e.t :: Next(s, e).ts[t] == s.ts[t]
  {
    if e.t < |s.ts| {
      StepCounts(s, s.ts[e.t], e.a);
      if s.ts[e.t] != Out && e.a.Proceed? {
        StepClosesDown(s, s.ts[e.t], e.a, 0);
      }
    }
  }

  /** After close no acquire registers a connection: whoever is about to return one had
      registered it before. */
  lemma {:induction false} NoAcquireSucceedsAfterClose(s: State, es: seq<Event>, t: nat)
    requires Inv(s) && s.b.closed && t < |s.ts|
    ensures t < |Run(s, es).ts|
    ensures Run(s, es).ts[t].Handing? ==> Run(s, es).ts[t] == s.ts[t]
    decreases es
  {
    if es != [] {
      var s' := Next(s, es[0]);
      StepKeepsInv(s, es[0]);
      OneStepAfterClose(s, es[0]);
      NoAcquireSucceedsAfterClose(s', es[1..], t);
    }
  }

  function OwnSteps(es: seq<Event>, t: nat): nat {
    if es == [] then 0 else (if es[0].t == t && es[0].a.Proceed? then 1 else 0) + OwnSteps(es[1..], t)
  }

  lemma OwnerMovesOn(s: State, e: Event, c: Conn)
    requires Inv(s) && s.b.closed && e.t < |s.ts| && c in Held(s.ts[e.t]) && c < s.nextId
    ensures e.a.Proceed? ==>
              c in Next(s, e).lost.open || c !in Next(s, e).live ||
              (c in Held(Next(s, e).ts[e.t]) && StepsToClose(Next(s, e).ts[e.t], c) < StepsToClose(s.ts[e.t], c))
    ensures !e.a.Proceed? ==> Next(s, e).ts == s.ts
  {
    if e.a.Proceed? {
      StepClosesDown(s, s.ts[e.t], e.a, c);
      StepShape(s, s.ts[e.t], e.a);
    }
  }

  /** No step opens a connection whose number was used. */
  lemma StepKeepsClosed(s: State, e: Event, c: Conn)
    requires c < s.nextId
    ensures c < Next(s, e).nextId && (c !in s.live ==> c !in Next(s, e).live)
  {
    if e.t < |s.ts| {
      StepShape(s, s.ts[e.t], e.a);
    }
  }

  lemma {:induction false} ClosedConnectionsStayClosed(s: State, es: seq<Event>, c: Conn)
    requires c < s.nextId && c !in s.live
    ensures c !in Run(s, es).live
    decreases es
  {
    if es != [] {
      StepKeepsClosed(s, es[0], c);
      ClosedConnectionsStayClosed(Next(s, es[0]), es[1..], c);
    }
  }

  lemma HeldWasOpened(s: State, t: nat, c: Conn)
    requires Inv(s) && t < |s.ts| && c in Held(s.ts[t])
    ensures c < s.nextId
  {
    TimesWithout(Held(s.ts[t]), c, c);
    SumHasShare(Holding(c), s.ts, t);
    assert Places(s, c) == if c in s.live then 1 else 0;
  }

  /** One step of any thread, seen from the owner `t` of `c`. */
  lemma OwnerStep(s: State, e: Event, t: nat, c: Conn)
    requires Inv(s) && s.b.closed && t < |s.ts| && c in Held(s.ts[t])
    ensures Inv(Next(s, e)) && Next(s, e).b.closed && t < |Next(s, e).ts| && c < Next(s, e).nextId
    ensures var pc := Next(s, e).ts[t];
            if e.t == t && e.a.Proceed? then
              c in Next(s, e).lost.open || c !in Next(s, e).live
              || (c in Held(pc) && StepsToClose(pc, c) < StepsToClose(s.ts[t], c))
            else pc == s.ts[t]
  {
    HeldWasOpened(s, t, c);
    StepKeepsInv(s, e);
    OneStepAfterClose(s, e);
    StepKeepsClosed(s, e, c);
    if e.t == t {
      OwnerMovesOn(s, e, c);
    }
  }

  /** After close, every connection a thread owns (mid-connect, mid-validation, mid-sweep,
      mid-release or on the list of `close_all`) is closed by that thread's next few steps,
      whether its work succeeds or fails and whatever the other threads do, unless an
      interrupt wastes it. */
  lemma {:induction false} OwnerClosesIt(s: State, es: seq<Event>, t: nat, c: Conn)
    requires Inv(s) && s.b.closed && t < |s.ts| && c in Held(s.ts[t])
    requires OwnSteps(es, t) >= StepsToClose(s.ts[t], c)
    ensures c !in Run(s, es).live || c in Run(s, es).lost.open
    decreases es
  {
    var s' := Next(s, es[0]);
    OwnerStep(s, es[0], t, c);
    if c in s'.lost.open {
      LostForGood(s', es[1..]);
    } else if c in s'.live {
      OwnerClosesIt(s', es[1..], t, c);
    } else {
      ClosedConnectionsStayClosed(s', es[1..], c);
    }
  }

  /** Every connection the pool still has open at close, and has not lost, is on some
      thread's way to its close. */
  lemma EveryConnectionGetsClosed(s: State, c: Conn) returns (t: nat)
    requires Reachable(s) && s.b.closed && c in s.live && c !in s.lost.open
    ensures t < |s.ts| && c in Held(s.ts[t])
    ensures forall es | OwnSteps(es, t) >= StepsToClose(s.ts[t], c) ::
              c !in Run(s, es).live || c in Run(s, es).lost.open
  {
    ReachableInv(s);
    NoOtherConnectionIsLost(s, c);
    t :| 0 <= t < |s.ts| && c in Held(s.ts[t]);
    forall es | OwnSteps(es, t) >= StepsToClose(s.ts[t], c)
      ensures c !in Run(s, es).live || c in Run(s, es).lost.open
    {
      OwnerClosesIt(s, es, t, c);
    }
  }
}
