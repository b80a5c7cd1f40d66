/** What happens in the asyncio pool once it is closed: nothing is checked out any more, and every
    connection that is not lost gets closed by its owner. */
module NzPoolShutdown {
  import opened Queues
  import opened NzPools
  import opened NzPoolRuns
  import opened NzPoolSafety
  import opened Phases
  import opened Tally

  /** How many steps of its own the task still needs, after close, to close `c`. */
  function StepsToClose(pc: Pc, c: Conn): nat {
    match pc
    case Validating(_) => 2
    case Building(_, ph) => Ahead(ph) + 1
    case FillBuilding(_, ph, _) => Ahead(ph) + 1
    case SweepTesting(_, _) => 2
    case Shutting(cs) => |cs|
    case _ => 1
  }

  /** A step taken after close adds nothing to the checked-out table, and it does not
      forget a connection of its task: it closes it or comes closer to closing it. */
  ghost predicate ClosesDown(b: Book, pc: Pc, ch: Change, c: Conn) {
    && ch.b.closed && ch.b.out == b.out && ch.b.idle == b.idle
    && (c in Held(pc) && c !in ch.loses ==>
          c in ch.closes || (c in Held(ch.pc) && StepsToClose(ch.pc, c) < StepsToClose(pc, c)))
  }

  lemma AcquireClosesDown(b: Book, pc: Pc, o: Outcome, newborn: Conn, maxSize: nat, c: Conn)
    requires InAcquire(pc) && b.closed && b.idle == []
    ensures ClosesDown(b, pc, AcquireStep(b, pc, o, newborn, maxSize), c)
  {
  }

  lemma FillClosesDown(b: Book, pc: Pc, o: Outcome, newborn: Conn, minSize: nat, c: Conn)
    requires InFill(pc) && b.closed
    ensures ClosesDown(b, pc, FillStep(b, pc, o, newborn, minSize), c)
  {
  }

  lemma SweepClosesDown(b: Book, pc: Pc, o: Outcome, c: Conn)
    requires InSweep(pc) && b.closed
    ensures ClosesDown(b, pc, SweepStep(b, pc, o), c)
  {
  }

  lemma LeaveClosesDown(b: Book, pc: Pc, o: Outcome, c: Conn)
    requires InLeave(pc) && b.closed
    ensures ClosesDown(b, pc, LeaveStep(b, pc, o), c)
  {
    if pc.Shutting? && pc.cs != [] {
      assert c in pc.cs ==> c == pc.cs[0] || c in pc.cs[1..];
    }
  }

  lemma StepClosesDown(s: State, pc: Pc, a: Action, c: Conn)
    requires s.b.closed && s.b.idle == [] && s.b.out == []
    ensures pc != Out && a.Proceed? ==> ClosesDown(s.b, pc, StepOf(s, pc, a), c)
    ensures StepOf(s, pc, a).b.closed && StepOf(s, pc, a).b.out == []
  {
    if pc != Out && a.Proceed? {
      if InAcquire(pc) {
        AcquireClosesDown(s.b, pc, a.o, s.nextId, s.maxSize, c);
      } else if InFill(pc) {
        FillClosesDown(s.b, pc, a.o, s.nextId, s.minSize, c);
      } else if InSweep(pc) {
        SweepClosesDown(s.b, pc, a.o, c);
      } else {
        LeaveClosesDown(s.b, pc, a.o, c);
      }
    }
  }

  /** Once the pool is closed nothing is ever checked out again: no acquire in flight
      returns a connection, whatever it was waiting for. */
  lemma {:induction false} NothingCheckedOutAfterClose(s: State, es: seq<Event>)
    requires Inv(s) && s.b.closed
    ensures Run(s, es).b.closed && Run(s, es).b.out == [] && Run(s, es).b.idle == []
    decreases es
  {
    if es != [] {
      if es[0].t < |s.ts| {
        StepClosesDown(s, s.ts[es[0].t], es[0].a, 0);
      }
      StepKeepsInv(s, es[0]);
      NothingCheckedOutAfterClose(Next(s, es[0]), es[1..]);
    }
  }

  function OwnSteps(es: seq<Event>, t: nat): nat {
    if es == [] then 0 else (if es[0].t == t && es[0].a.Proceed? then 1 else 0) + OwnSteps(es[1..], t)
  }

  /** No step opens a connection whose number was used. */
  lemma StepKeepsClosed(s: State, e: Event, c: Conn)
    requires c < s.nextId
    ensures c < Next(s, e).nextId && (c !in s.live ==> c !in Next(s, e).live)
  {
    if e.t < |s.ts| {
      StepShape(s, s.ts[e.t], e.a);
    }
  }

  lemma {:induction false} ClosedConnectionsStayClosed(s: State, es: seq<Event>, c: Conn)
    requires c < s.nextId && c !in s.live
    ensures c !in Run(s, es).live
    decreases es
  {
    if es != [] {
      StepKeepsClosed(s, es[0], c);
      ClosedConnectionsStayClosed(Next(s, es[0]), es[1..], c);
    }
  }

  lemma HeldWasOpened(s: State, t: nat, c: Conn)
    requires Inv(s) && t < |s.ts| && c in Held(s.ts[t])
    ensures c < s.nextId
  {
    TimesWithout(Held(s.ts[t]), c, c);
    SumHasShare(Holding(c), s.ts, t);
    assert Places(s, c) == if c in s.live then 1 else 0;
  }

  /** One step of any task, seen from the owner `t` of `c`. */
  lemma OwnerStep(s: State, e: Event, t: nat, c: Conn)
    requires Inv(s) && s.b.closed && t < |s.ts| && c in Held(s.ts[t])
    ensures Inv(Next(s, e)) && Next(s, e).b.closed && t < |Next(s, e).ts| && c < Next(s, e).nextId
    ensures var pc := Next(s, e).ts[t];
            if e.t == t && e.a.Proceed? then
              c in Next(s, e).lost || c !in Next(s, e).live
              || (c in Held(pc) && StepsToClose(pc, c) < StepsToClose(s.ts[t], c))
            else pc == s.ts[t]
  {
    HeldWasOpened(s, t, c);
    StepKeepsInv(s, e);
    StepKeepsClosed(s, e, c);
    if e.t < |s.ts| {
      StepClosesDown(s, s.ts[e.t], e.a, c);
      StepShape(s, s.ts[e.t], e.a);
    }
  }

  /** After close, every connection a task owns (mid-connect, mid-validation, mid-sweep,
      mid-release or on the list of `close_all`) is closed by that task's next few steps,
      however they end and whatever the other tasks do, unless its opening ends unguarded. */
  lemma {:induction false} OwnerClosesIt(s: State, es: seq<Event>, t: nat, c: Conn)
    requires Inv(s) && s.b.closed && t < |s.ts| && c in Held(s.ts[t])
    requires OwnSteps(es, t) >= StepsToClose(s.ts[t], c)
    ensures c !in Run(s, es).live || c in Run(s, es).lost
    decreases es
  {
    var s' := Next(s, es[0]);
    OwnerStep(s, es[0], t, c);
    if c in s'.lost {
      LostForGood(s', es[1..]);
    } else if c in s'.live {
      OwnerClosesIt(s', es[1..], t, c);
    } else {
      ClosedConnectionsStayClosed(s', es[1..], c);
    }
  }

  /** Every connection still open at close, and not lost, is on some task's way to its close. */
  lemma EveryConnectionGetsClosed(s: State, c: Conn) returns (t: nat)
    requires Reachable(s) && s.b.closed && c in s.live && c !in s.lost
    ensures t < |s.ts| && c in Held(s.ts[t])
    ensures forall es | OwnSteps(es, t) >= StepsToClose(s.ts[t], c) :: c !in Run(s, es).live || c in Run(s, es).lost
  {
    ReachableInv(s);
    NoOtherConnectionIsLost(s, c);
    t :| 0 <= t < |s.ts| && c in Held(s.ts[t]);
    forall es | OwnSteps(es, t) >= StepsToClose(s.ts[t], c)
      ensures c !in Run(s, es).live || c in Run(s, es).lost
    {
      OwnerClosesIt(s, es, t, c);
    }
  }
}
