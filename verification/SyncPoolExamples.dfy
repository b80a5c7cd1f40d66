/** Runs of the threaded pool that show what can happen: a pre-create that fills the pool on its
    own, and what an interrupt in a connect or in a release leaves behind. */
module SyncPoolExamples {
  import opened SyncPools
  import opened SyncPoolRuns
  import opened SyncPoolSafety
  import opened Phases

  lemma {:induction false} RunSnoc(s: State, es: seq<Event>, e: Event)
    ensures Run(s, es + [e]) == Next(Run(s, es), e)
    decreases es
  {
    if es == [] {
      assert es + [e] == [e] && [e][1..] == [];
    } else {
      assert (es + [e])[1..] == es[1..] + [e];
      RunSnoc(Next(s, es[0]), es[1..], e);
    }
  }

  /** The comment there names only the sweep. A pre-create alone also fills the pool: here
      one thread pre-creates, another finds the pool empty and full, and nobody sweeps. */
  lemma PreCreateAloneFillsThePool()
    ensures var s := Run(Start(2, 1, 1), [Event(0, Fill), Event(0, Proceed(Good)), Event(1, Acquire), Event(1, Proceed(Good))]);
            s.ts == [FillConnecting, Looking] && Look(s.b, s.maxSize).1 == Nothing
  {
    var s0 := Start(2, 1, 1);
    assert s0.ts == [Out, Out];
    var s1 := PreCreates(s0);
    RunFour(s0, Event(0, Fill), Event(0, Proceed(Good)), Event(1, Acquire), Event(1, Proceed(Good)));
    FindsNothing(s1);
  }

  lemma PreCreates(s: State) returns (s': State)
    requires s.ts == [Out, Out] && s.b == EmptyBook(1) && s.minSize == s.maxSize == 1
    ensures s' == Next(Next(s, Event(0, Fill)), Event(0, Proceed(Good)))
    ensures s' == s.(ts := [FillConnecting, Out], b := s.b.(created := 1))
  {
    var middle := Next(s, Event(0, Fill));
    assert middle == s.(ts := [FillLoop, Out]);
    s' := Next(middle, Event(0, Proceed(Good)));
    assert s'.ts == [FillConnecting, Out];
  }

  lemma FindsNothing(s: State)
    requires s.ts == [FillConnecting, Out] && s.b == EmptyBook(1).(created := 1) && s.maxSize == 1
    ensures var s' := Next(Next(s, Event(1, Acquire)), Event(1, Proceed(Good)));
            s'.ts == [FillConnecting, Looking] && Look(s'.b, s'.maxSize).1 == Nothing
  {
    var middle := Next(s, Event(1, Acquire));
    assert middle == s.(ts := [FillConnecting, WaitSlot]);
    assert Next(middle, Event(1, Proceed(Good))).ts == [FillConnecting, Looking];
  }

  lemma RunFour(s: State, a: Event, b: Event, c: Event, d: Event)
    ensures Run(s, [a, b, c, d]) == Next(Next(Next(Next(s, a), b), c), d)
  {
    RunSnoc(s, [], a);
    RunSnoc(s, [a], b);
    RunSnoc(s, [a, b], c);
    RunSnoc(s, [a, b, c], d);
    assert [] + [a] == [a] && [a] + [b] == [a, b] && [a, b] + [c] == [a, b, c] && [a, b, c] + [d] == [a, b, c, d];
  }

  /** One thread acquires from a new pool of one, and its connect gets into phase `ph`. */
  function Opened(ph: Phase): State {
    State(Book([], 1, [], 0, false), [Building(0, ph)], {0}, NONE, 1, 0, 1)
  }

  /** It then has the connection. */
  function Lent(): State { State(Book([], 1, [0], 0, false), [Out], {0}, NONE, 1, 0, 1) }

  /** A property of states that every step keeps. */
  ghost predicate Lasting(p: State -> bool) { forall s, e :: p(s) ==> p(Next(s, e)) }

  lemma ReachableLasts()
    ensures Lasting(Reachable)
    ensures Reachable(Start(1, 0, 1))
  {
    assert Run(Start(1, 0, 1), []) == Start(1, 0, 1);
    forall s, e | Reachable(s)
      ensures Reachable(Next(s, e))
    {
      var threads: nat, minSize: nat, maxSize: nat, es :|
        minSize <= maxSize && s == Run(Start(threads, minSize, maxSize), es);
      RunSnoc(Start(threads, minSize, maxSize), es, e);
    }
  }

  /** A step of a lone thread that opens, closes and wastes nothing. */
  lemma LoneStep(p: State -> bool, s: State, a: Action, b: Book, pc: Pc)
    requires |s.ts| == 1 && StepOf(s, s.ts[0], a) == Moved(b, pc)
    requires Lasting(p) && p(s)
    ensures Next(s, Event(0, a)) == s.(b := b, ts := [pc])
    ensures p(s.(b := b, ts := [pc]))
  {
    assert s.live + {} - {} == s.live;
    assert s.lost.open + {} == s.lost.open;
    assert s.ts[0 := pc] == [pc];
    assert p(Next(s, Event(0, a)));
  }

  lemma DialsOut(s: State)
    requires s.b == Opened(Dial).b && s.ts == [Connecting] && s.live == {} && s.lost == NONE
    requires s.nextId == 0 && s.minSize == 0 && s.maxSize == 1
    ensures Next(s, Event(0, Proceed(Good))) == Opened(Dial)
  {
    assert StepOf(s, Connecting, Proceed(Good)) == Opening(s.b, Building(0, Dial), 0);
    assert s.live + {0} - {} == {0} && s.lost.open + {} == {};
    assert s.ts[0 := Building(0, Dial)] == [Building(0, Dial)];
  }

  /** The state in which the lone thread is at `pc` with bookkeeping `b`, before its connect. */
  function Early(b: Book, pc: Pc): State { State(b, [pc], {}, NONE, 0, 0, 1) }

  lemma GetsAPermit(p: State -> bool)
    requires Lasting(p) && p(Early(EmptyBook(1), WaitSlot))
    ensures p(Early(Book([], 0, [], 0, false), Looking))
  {
    LoneStep(p, Early(EmptyBook(1), WaitSlot), Proceed(Good), Book([], 0, [], 0, false), Looking);
  }

  lemma GetsAPlace(p: State -> bool)
    requires Lasting(p) && p(Early(Book([], 0, [], 0, false), Looking))
    ensures p(Early(Opened(Dial).b, Connecting))
  {
    LoneStep(p, Early(Book([], 0, [], 0, false), Looking), Proceed(Good), Opened(Dial).b, Connecting);
  }

  lemma GetsASocket(p: State -> bool)
    requires Lasting(p) && p(Early(Opened(Dial).b, Connecting))
    ensures p(Opened(Dial))
  {
    DialsOut(Early(Opened(Dial).b, Connecting));
  }

  lemma GetsOn(p: State -> bool, ph: Phase)
    requires Lasting(p) && p(Opened(ph)) && !ph.Hook?
    ensures p(Opened(After(ph)))
  {
    LoneStep(p, Opened(ph), Proceed(Good), Opened(ph).b, Building(0, After(ph)));
  }

  lemma StartsIn(p: State -> bool)
    requires Lasting(p) && p(Start(1, 0, 1))
    ensures p(Early(EmptyBook(1), WaitSlot))
  {
    assert Start(1, 0, 1).ts == [Out];
    LoneStep(p, Start(1, 0, 1), Acquire, EmptyBook(1), WaitSlot);
  }

  lemma GetsInto(p: State -> bool, ph: Phase)
    requires Lasting(p) && p(Start(1, 0, 1))
    ensures p(Opened(ph))
  {
    StartsIn(p);
    GetsAPermit(p);
    GetsAPlace(p);
    GetsASocket(p);
    GetsOn(p, Dial);
    GetsOn(p, Greet);
    GetsOn(p, SetUp);
  }

  lemma LeavesIt(ph: Phase, done: bool)
    requires !ph.Greet?
    ensures Next(Opened(ph), Event(0, Proceed(Stop(done)))) == Opened(ph).(ts := [ConnectFailed], lost := NONE.(open := {0}))
  {
    assert StepOf(Opened(ph), Building(0, ph), Proceed(Stop(done))) == Losing(Opened(ph).b, ConnectFailed, 0);
    assert {0} + {} - {} == {0} && {} + {0} == {0};
    assert [Building(0, ph)][0 := ConnectFailed] == [ConnectFailed];
  }

  lemma GivesPlaceBack(p: State -> bool, s: State)
    requires Lasting(p) && p(s) && s.ts == [ConnectFailed] && s.b == Opened(Dial).b
    ensures p(s.(ts := [Failing], b := Book([], 0, [], 0, false)))
  {
    LoneStep(p, s, Proceed(Good), Book([], 0, [], 0, false), Failing);
  }

  lemma GivesPermitBack(p: State -> bool, s: State)
    requires Lasting(p) && p(s) && s.ts == [Failing] && s.b == Book([], 0, [], 0, false)
    ensures p(s.(ts := [Out], b := EmptyBook(1)))
  {
    LoneStep(p, s, Proceed(Good), EmptyBook(1), Out);
  }

  lemma InterruptedThere(p: State -> bool, ph: Phase, done: bool)
    requires !ph.Greet? && Lasting(p) && p(Start(1, 0, 1))
    ensures p(State(EmptyBook(1), [Out], {0}, NONE.(open := {0}), 1, 0, 1))
  {
    GetsInto(p, ph);
    LeavesIt(ph, done);
    assert p(Next(Opened(ph), Event(0, Proceed(Stop(done)))));
    var s := Opened(ph).(ts := [ConnectFailed], lost := NONE.(open := {0}));
    GivesPlaceBack(p, s);
    GivesPermitBack(p, s.(ts := [Failing], b := Book([], 0, [], 0, false)));
  }

  /** A caller interrupted in a connect, outside the handshake, leaves an open connection that
      belongs to nobody, and gives place and permit back. */
  lemma InterruptedConnectLeavesItOpen(ph: Phase, done: bool)
    requires !ph.Greet?
    ensures Reachable(Opened(ph))
    ensures Next(Opened(ph), Event(0, Proceed(Stop(done)))) == Opened(ph).(ts := [ConnectFailed], lost := NONE.(open := {0}))
    ensures Reachable(State(EmptyBook(1), [Out], {0}, NONE.(open := {0}), 1, 0, 1))
  {
    ReachableLasts();
    GetsInto(Reachable, ph);
    LeavesIt(ph, done);
    InterruptedThere(Reachable, ph, done);
  }

  lemma TakesIt(p: State -> bool)
    requires Lasting(p) && p(Opened(Hook))
    ensures p(Opened(Hook).(ts := [Connected(0)]))
  {
    LoneStep(p, Opened(Hook), Proceed(Good), Opened(Hook).b, Connected(0));
  }

  lemma RegistersIt(p: State -> bool)
    requires Lasting(p) && p(Opened(Hook).(ts := [Connected(0)]))
    ensures p(Lent().(ts := [Handing(0)]))
  {
    LoneStep(p, Opened(Hook).(ts := [Connected(0)]), Proceed(Good), Lent().b, Handing(0));
  }

  lemma ReturnsIt(p: State -> bool)
    requires Lasting(p) && p(Lent().(ts := [Handing(0)]))
    ensures p(Lent())
  {
    LoneStep(p, Lent().(ts := [Handing(0)]), Proceed(Good), Lent().b, Out);
  }

  lemma GetsIt(p: State -> bool)
    requires Lasting(p) && p(Start(1, 0, 1))
    ensures p(Lent())
  {
    GetsInto(p, Hook);
    TakesIt(p);
    RegistersIt(p);
    ReturnsIt(p);
  }

  lemma CutOff(done: bool)
    ensures Next(Lent().(ts := [Releasing(0)], b := Opened(Dial).b), Event(0, Proceed(Stop(done))))
            == Opened(Dial).(ts := [Out], lost := Waste({0}, 1, 1))
  {
    var s := Lent().(ts := [Releasing(0)], b := Opened(Dial).b);
    assert StepOf(s, Releasing(0), Proceed(Stop(done))) == Losing(s.b, Out, 0).(loses := Waste({0}, 1, 1));
    assert {0} + {} - {} == {0} && {} + {0} == {0};
    assert [Releasing(0)][0 := Out] == [Out];
  }

  /** A release interrupted in its rollback: a pool of one has no permit left, its only place is
      counted for ever, and `WasteShrinksThePool` says that it lends nothing again. */
  lemma InterruptedRollbackEndsAPoolOfOne(done: bool)
    ensures Reachable(Lent())
    ensures Next(Next(Lent(), Event(0, Release(0))), Event(0, Proceed(Stop(done))))
            == State(Book([], 1, [], 0, false), [Out], {0}, Waste({0}, 1, 1), 1, 0, 1)
  {
    ReachableLasts();
    GetsIt(Reachable);
    LoneStep(Reachable, Lent(), Release(0), Opened(Dial).b, Releasing(0));
    CutOff(done);
  }
}
