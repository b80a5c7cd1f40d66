/** States of the asyncio pool from which the next step leaves a connection open with no owner,
    for each way in which that can happen. */
module NzPoolExamples {
  import opened NzPools
  import opened NzPoolRuns
  import opened NzPoolSafety
  import opened Phases

  /** A property of states that every step keeps. */
  ghost predicate Lasting(p: State -> bool) { forall s, e :: p(s) ==> p(Next(s, e)) }

  lemma {:induction false} RunSnoc(s: State, es: seq<Event>, e: Event)
    ensures Run(s, es + [e]) == Next(Run(s, es), e)
    decreases es
  {
    if es == [] {
      assert es + [e] == [e] && [e][1..] == [];
    } else {
      assert (es + [e])[1..] == es[1..] + [e];
      RunSnoc(Next(s, es[0]), es[1..], e);
    }
  }

  lemma ReachableLasts()
    ensures Lasting(Reachable)
    ensures Reachable(Start(1, 0, 1))
  {
    assert Run(Start(1, 0, 1), []) == Start(1, 0, 1);
    forall s, e | Reachable(s)
      ensures Reachable(Next(s, e))
    {
      var tasks: nat, minSize: nat, maxSize: nat, es :|
        minSize <= maxSize && s == Run(Start(tasks, minSize, maxSize), es);
      RunSnoc(Start(tasks, minSize, maxSize), es, e);
    }
  }

  /** One task acquires from a new pool of one: before it has a socket, ... */
  function Early(b: Book, pc: Pc): State { State(b, [pc], {}, {}, 0, 0, 1) }

  /** ... and with its connect in phase `ph`. */
  function Opened(ph: Phase): State {
    State(EmptyBook().(created := 1), [Building(0, ph)], {0}, {}, 1, 0, 1)
  }

  /** A step of a lone task that opens, closes and loses nothing. */
  lemma LoneStep(p: State -> bool, s: State, a: Action, b: Book, pc: Pc)
    requires |s.ts| == 1 && StepOf(s, s.ts[0], a) == Moved(b, pc)
    requires Lasting(p) && p(s)
    ensures p(s.(b := b, ts := [pc]))
  {
    assert s.live + {} - {} == s.live;
    assert s.lost + {} == s.lost;
    assert s.ts[0 := pc] == [pc];
    assert p(Next(s, Event(0, a)));
  }

  lemma StartsIn(p: State -> bool)
    requires Lasting(p) && p(Start(1, 0, 1))
    ensures p(Early(EmptyBook(), AcqTop))
  {
    assert Start(1, 0, 1).ts == [Out];
    LoneStep(p, Start(1, 0, 1), Acquire, EmptyBook(), AcqTop);
  }

  lemma LooksAtFill(p: State -> bool)
    requires Lasting(p) && p(Early(EmptyBook(), AcqTop))
    ensures p(Early(EmptyBook(), FillTop(true)))
  {
    LoneStep(p, Early(EmptyBook(), AcqTop), Proceed(Good), EmptyBook(), FillTop(true));
  }

  lemma FillsNothing(p: State -> bool)
    requires Lasting(p) && p(Early(EmptyBook(), FillTop(true)))
    ensures p(Early(EmptyBook(), AcqLock))
  {
    LoneStep(p, Early(EmptyBook(), FillTop(true)), Proceed(Good), EmptyBook(), AcqLock);
  }

  lemma GetsAPlace(p: State -> bool)
    requires Lasting(p) && p(Early(EmptyBook(), AcqLock))
    ensures p(Early(Opened(Dial).b, Connecting))
  {
    LoneStep(p, Early(EmptyBook(), AcqLock), Proceed(Good), Opened(Dial).b, Connecting);
  }

  lemma DialsOut(s: State)
    requires s == Early(Opened(Dial).b, Connecting)
    ensures Next(s, Event(0, Proceed(Good))) == Opened(Dial)
  {
    assert StepOf(s, Connecting, Proceed(Good)) == Opening(s.b, Building(0, Dial), 0);
    assert s.live + {0} - {} == {0} && s.lost + {} == {};
    assert s.ts[0 := Building(0, Dial)] == [Building(0, Dial)];
  }

  lemma GetsASocket(p: State -> bool)
    requires Lasting(p) && p(Early(Opened(Dial).b, Connecting))
    ensures p(Opened(Dial))
  {
    DialsOut(Early(Opened(Dial).b, Connecting));
  }

  lemma GetsOn(p: State -> bool, ph: Phase)
    requires Lasting(p) && p(Opened(ph)) && !ph.Hook?
    ensures p(Opened(After(ph)))
  {
    LoneStep(p, Opened(ph), Proceed(Good), Opened(ph).b, Building(0, After(ph)));
  }

  lemma GetsInto(p: State -> bool, ph: Phase)
    requires Lasting(p) && p(Start(1, 0, 1))
    ensures p(Opened(ph))
  {
    StartsIn(p);
    LooksAtFill(p);
    FillsNothing(p);
    GetsAPlace(p);
    GetsASocket(p);
    GetsOn(p, Dial);
    GetsOn(p, Greet);
    GetsOn(p, SetUp);
  }

  lemma FailsOpen(ph: Phase, o: Outcome)
    requires Unguarded(ph, o)
    ensures Next(Opened(ph), Event(0, Proceed(o))) == State(EmptyBook(), [Out], {0}, {0}, 1, 0, 1)
  {
    assert StepOf(Opened(ph), Building(0, ph), Proceed(o)) == Losing(EmptyBook(), Out, 0);
    assert {0} + {} - {} == {0} && {} + {0} == {0};
    assert [Building(0, ph)][0 := Out] == [Out];
  }

  /** Each unguarded way does happen (a hook is cancelled; or, with no cancellation at all,
      the server refuses a query of the session set-up): from a reachable state the acquire
      fails, and the connection stays open, is in no queue and belongs to no task. */
  lemma LeavesAConnectionOpen(ph: Phase, o: Outcome)
    requires Unguarded(ph, o)
    ensures Reachable(Opened(ph))
    ensures Next(Opened(ph), Event(0, Proceed(o))) == State(EmptyBook(), [Out], {0}, {0}, 1, 0, 1)
  {
    ReachableLasts();
    GetsInto(Reachable, ph);
    FailsOpen(ph, o);
  }
}
