/** What holds in every run of the asyncio pool, for any number of tasks, any interleaving
    at awaits, and any failure or cancellation of an awaited operation. */
module NzPoolSafety {
  import opened Queues
  import opened NzPools
  import opened NzPoolRuns
  import opened Tally

  lemma StartInv(tasks: nat, minSize: nat, maxSize: nat)
    requires minSize <= maxSize
    ensures Inv(Start(tasks, minSize, maxSize))
  {
    var s := Start(tasks, minSize, maxSize);
    SumOfNone(Opens, s.ts);
    SumOfNone(Tests, s.ts);
    forall c
      ensures Places(s, c) == 0 && Sum(Testing(c), s.ts) == 0
    {
      SumOfNone(Holding(c), s.ts);
      SumOfNone(Testing(c), s.ts);
    }
  }

  lemma {:induction false} RunKeepsInv(s: State, es: seq<Event>)
    requires Inv(s)
    ensures Inv(Run(s, es))
    decreases es
  {
    if es != [] {
      StepKeepsInv(s, es[0]);
      RunKeepsInv(Next(s, es[0]), es[1..]);
    }
  }

  /** The state after any run of a new pool. */
  ghost predicate Reachable(s: State) {
    exists tasks: nat, minSize: nat, maxSize: nat, es ::
      minSize <= maxSize && s == Run(Start(tasks, minSize, maxSize), es)
  }

  lemma ReachableInv(s: State)
    requires Reachable(s)
    ensures Inv(s)
  {
    var tasks: nat, minSize: nat, maxSize: nat, es :|
      minSize <= maxSize && s == Run(Start(tasks, minSize, maxSize), es);
    StartInv(tasks, minSize, maxSize);
    RunKeepsInv(Start(tasks, minSize, maxSize), es);
  }

  // ----- before close ------------------------------------------------------------------

  /** `_created` is exactly idle + checked out + reserved + being opened, and never more
      than `max_size`. */
  lemma CountersAreExact(s: State)
    requires Reachable(s) && !s.b.closed
    ensures s.b.created == |s.b.idle| + |s.b.out| + |s.b.reserving| + Sum(Opens, s.ts) <= s.maxSize
  {
    ReachableInv(s);
  }

  /** `_reserving` is exactly the set of connections some task is validating. */
  lemma ReservingIsExact(s: State, c: Conn)
    requires Reachable(s)
    ensures c in s.b.reserving <==> exists t :: 0 <= t < |s.ts| && c in Tested(s.ts[t])
    ensures Times(s.b.reserving, c) <= 1
  {
    ReachableInv(s);
    TimesWithout(s.b.reserving, c, c);
    if t :| 0 <= t < |s.ts| && c in Tested(s.ts[t]) {
      SumHasShare(Testing(c), s.ts, t);
    }
    if Sum(Testing(c), s.ts) > 0 {
      var t := SumWitness(Testing(c), s.ts);
      TimesWithout(Tested(s.ts[t]), c, c);
    }
    SumBelow(Testing(c), Holding(c), s.ts, |s.ts|);
    assert Places(s, c) == if c in s.live then 1 else 0;
  }

  /** A connection owned by a task is in no queue and in no other task's hands, and the
      queues share nothing and repeat nothing. */
  lemma OneOwner(s: State, i: nat, j: nat, c: Conn)
    requires Reachable(s)
    ensures i < |s.ts| && c in Held(s.ts[i]) ==>
              c in s.live && c !in s.b.idle && c !in s.b.out &&
              (j < |s.ts| && j != i ==> c !in Held(s.ts[j]))
    ensures c in s.b.idle ==> c in s.live && c !in s.b.out && c !in s.b.reserving && Times(s.b.idle, c) == 1
    ensures c in s.b.out ==> c in s.live && c !in s.b.reserving && Times(s.b.out, c) == 1
  {
    ReachableInv(s);
    assert Places(s, c) == if c in s.live then 1 else 0;
    TimesWithout(s.b.idle, c, c);
    TimesWithout(s.b.out, c, c);
    TimesWithout(s.b.reserving, c, c);
    SumBelow(Testing(c), Holding(c), s.ts, |s.ts|);
    if i < |s.ts| {
      SumHasShare(Holding(c), s.ts, i);
      TimesWithout(Held(s.ts[i]), c, c);
      if j < |s.ts| && j != i {
        TimesWithout(Held(s.ts[j]), c, c);
        SumHasBoth(Holding(c), s.ts, if i < j then i else j, if i < j then j else i);
      }
    }
  }

  /** The next step of the task gives its place in `_created` back. */
  predicate GivesBack(b: Book, pc: Pc, a: Action) {
    a.Proceed? &&
    match pc
    case Connecting => !a.o.Good?
    case FillConnecting(_) => !a.o.Good?
    case Building(_, ph) => !a.o.Good? && (ph.Hook? ==> a.o.Abort?)
    case FillBuilding(_, ph, _) => !a.o.Good? && (ph.Hook? ==> a.o.Abort?)
    case HookFailed(_) => true
    case FillHookFailed(_, _) => true
    case Validating(_) => !a.o.Good?
    case SweepTesting(_, _) => !a.o.Good?
    case Releasing(c) => (a.o.Bad? || a.o.Cut?) && c in b.out
    case _ => false
  }

  lemma GivesBackOne(s: State, pc: Pc, a: Action)
    requires GivesBack(s.b, pc, a)
    ensures Opens(pc) == 1 || |Tested(pc)| == 1 || s.b.out != []
    ensures !s.b.closed && s.b.created >= 1 ==> StepOf(s, pc, a).b.created == s.b.created - 1
  {
  }

  /** The `max(0, _created - 1)` clamp never decides anything before close. */
  lemma ClampNeverFires(s: State, e: Event)
    requires Reachable(s) && !s.b.closed && e.t < |s.ts| && GivesBack(s.b, s.ts[e.t], e.a)
    ensures s.b.created >= 1 && Next(s, e).b.created == s.b.created - 1
  {
    CountersAreExact(s);
    ReachableInv(s);
    SumHasShare(Opens, s.ts, e.t);
    SumHasShare(Tests, s.ts, e.t);
    GivesBackOne(s, s.ts[e.t], e.a);
  }

  // ----- connections without an owner -------------------------------------------------------

  /** The connection that the next step of the task leaves open with no handler to close it:
      one being opened, when the operation of its phase ends unguarded. */
  function LeftOpen(pc: Pc, a: Action): set<Conn> {
    match pc
    case Building(c, ph) => if a.Proceed? && Unguarded(ph, a.o) then {c} else {}
    case FillBuilding(c, ph, _) => if a.Proceed? && Unguarded(ph, a.o) then {c} else {}
    case _ => {}
  }

  /** The same for all steps of a run. */
  ghost function AllLeftOpen(s: State, es: seq<Event>): set<Conn>
    decreases es
  {
    if es == [] then {}
    else (if es[0].t < |s.ts| then LeftOpen(s.ts[es[0].t], es[0].a) else {}) + AllLeftOpen(Next(s, es[0]), es[1..])
  }

  lemma StepLoses(s: State, pc: Pc, a: Action)
    ensures StepOf(s, pc, a).loses == LeftOpen(pc, a)
  {
  }

  /** The connections without an owner are exactly those whose opening was cancelled while
      dialling, in the session set-up or in the hook, or failed with an exception that the
      code around the dialling and the set-up does not catch. */
  lemma {:induction false} LostExactlyWhenLeftOpen(s: State, es: seq<Event>)
    ensures Run(s, es).lost == s.lost + AllLeftOpen(s, es)
    decreases es
  {
    if es != [] {
      if es[0].t < |s.ts| {
        StepLoses(s, s.ts[es[0].t], es[0].a);
      }
      LostExactlyWhenLeftOpen(Next(s, es[0]), es[1..]);
    }
  }

  /** Whoever is lost stays lost and stays open: nothing in the pool closes it any more. */
  lemma {:induction false} LostForGood(s: State, es: seq<Event>)
    requires Inv(s)
    ensures s.lost <= Run(s, es).lost
    ensures Run(s, es).lost <= Run(s, es).live
    decreases es
  {
    if es == [] {
      forall c <- s.lost
        ensures c in s.live
      {
        assert Places(s, c) == if c in s.live then 1 else 0;
      }
    } else {
      StepKeepsInv(s, es[0]);
      LostForGood(Next(s, es[0]), es[1..]);
    }
  }

  /** Every connection opened, not closed and not lost that way has an owner. */
  lemma NoOtherConnectionIsLost(s: State, c: Conn)
    requires Reachable(s) && c in s.live && c !in s.lost
    ensures c in s.b.idle || c in s.b.out || exists t :: 0 <= t < |s.ts| && c in Held(s.ts[t])
  {
    ReachableInv(s);
    assert Places(s, c) == 1;
    TimesWithout(s.b.idle, c, c);
    TimesWithout(s.b.out, c, c);
    if Sum(Holding(c), s.ts) > 0 {
      var t := SumWitness(Holding(c), s.ts);
      TimesWithout(Held(s.ts[t]), c, c);
    }
  }
}
