/** What each call on the threaded pool does when no other thread comes in between: the whole
    state before and after it. */
module SyncPoolCalls {
  import opened Queues
  import opened SyncPools
  import opened SyncPoolRuns
  import opened Phases

  /** Thread `t` takes its next steps, with these outcomes. */
  function Steps(s: State, t: nat, os: seq<Outcome>): State
    decreases |os|, 0
  {
    if os == [] then s else Call(s, t, Proceed(os[0]), os[1..])
  }

  /** Thread `t` calls an operation, or proceeds, and takes steps with these outcomes. */
  function Call(s: State, t: nat, a: Action, os: seq<Outcome>): State
    decreases |os|, 2
  {
    Behind(s, t, Event(t, a), os)
  }

  function Behind(s: State, t: nat, e: Event, os: seq<Outcome>): State
    decreases |os|, 1
  {
    Steps(Next(s, e), t, os)
  }

  lemma Begins(s: State, t: nat, a: Action, os: seq<Outcome>)
    ensures Call(s, t, a, os) == Steps(Next(s, Event(t, a)), t, os)
  {
    assert Call(s, t, a, os) == Behind(s, t, Event(t, a), os);
  }

  function Put(s: State, t: nat, b: Book, pc: Pc): State
    requires t < |s.ts|
  {
    s.(b := b, ts := s.ts[t := pc])
  }

  /** What a change of the thread's own does to the whole state. */
  function Changed(s: State, t: nat, ch: Change): State
    requires t < |s.ts|
  {
    Put(s.(live := s.live + ch.opens - ch.closes, lost := Joined(s.lost, ch.loses), nextId := s.nextId + |ch.opens|), t, ch.b, ch.pc)
  }

  lemma ChangedBy(s: State, t: nat, b: Book, pc: Pc, c: Conn)
    requires t < |s.ts|
    ensures Changed(s, t, Moved(b, pc)) == Put(s, t, b, pc)
    ensures Changed(s, t, Opening(b, pc, s.nextId)) == Put(s.(live := s.live + {s.nextId}, nextId := s.nextId + 1), t, b, pc)
    ensures Changed(s, t, Closing(b, pc, c)) == Put(s.(live := s.live - {c}), t, b, pc)
  {
    assert s.live + {} - {} == s.live && s.lost.open + {} == s.lost.open && |{s.nextId}| == 1;
    assert s.live + {s.nextId} - {} == s.live + {s.nextId} && s.live + {} - {c} == s.live - {c};
  }

  lemma NextIs(s: State, t: nat, b: Book, pc: Pc, o: Outcome, ch: Change)
    requires t < |s.ts| && StepOf(Put(s, t, b, pc), pc, Proceed(o)) == ch
    ensures Next(Put(s, t, b, pc), Event(t, Proceed(o))) == Changed(s, t, ch)
  {
    assert s.ts[t := pc][t := ch.pc] == s.ts[t := ch.pc];
  }

  lemma FirstStep(s: State, t: nat, o: Outcome, os: seq<Outcome>)
    ensures Steps(s, t, [o] + os) == Steps(Next(s, Event(t, Proceed(o))), t, os)
  {
    assert ([o] + os)[1..] == os;
    Begins(s, t, Proceed(o), os);
  }

  lemma Enters(s: State, t: nat, a: Action, b: Book, pc: Pc, os: seq<Outcome>)
    requires t < |s.ts| && s.ts[t] == Out && Enter(s.b, a, s.maxSize) == Moved(b, pc)
    ensures Call(s, t, a, os) == Steps(Put(s, t, b, pc), t, os)
  {
    Begins(s, t, a, os);
    ChangedBy(s, t, b, pc, 0);
  }

  /** From `pc` with bookkeeping `b` to `pc'` with `b'`. */
  lemma Goes(s: State, t: nat, b: Book, pc: Pc, o: Outcome, os: seq<Outcome>, b': Book, pc': Pc)
    requires t < |s.ts| && StepOf(Put(s, t, b, pc), pc, Proceed(o)) == Moved(b', pc')
    ensures Steps(Put(s, t, b, pc), t, [o] + os) == Steps(Put(s, t, b', pc'), t, os)
  {
    FirstStep(Put(s, t, b, pc), t, o, os);
    NextIs(s, t, b, pc, o, Moved(b', pc'));
    ChangedBy(s, t, b', pc', 0);
  }

  lemma Closes(s: State, t: nat, b: Book, pc: Pc, o: Outcome, os: seq<Outcome>, c: Conn, pc': Pc)
    requires t < |s.ts| && StepOf(Put(s, t, b, pc), pc, Proceed(o)) == Closing(b, pc', c)
    ensures Steps(Put(s, t, b, pc), t, [o] + os) == Steps(Put(s.(live := s.live - {c}), t, b, pc'), t, os)
  {
    FirstStep(Put(s, t, b, pc), t, o, os);
    NextIs(s, t, b, pc, o, Closing(b, pc', c));
    ChangedBy(s, t, b, pc', c);
  }

  lemma Opens(s: State, t: nat, b: Book, pc: Pc, os: seq<Outcome>, pc': Pc)
    requires t < |s.ts| && StepOf(Put(s, t, b, pc), pc, Proceed(Good)) == Opening(b, pc', s.nextId)
    ensures Steps(Put(s, t, b, pc), t, [Good] + os)
            == Steps(Put(s.(live := s.live + {s.nextId}, nextId := s.nextId + 1), t, b, pc'), t, os)
  {
    FirstStep(Put(s, t, b, pc), t, Good, os);
    NextIs(s, t, b, pc, Good, Opening(b, pc', s.nextId));
    ChangedBy(s, t, b, pc', 0);
  }

  /** The call is over. */
  lemma Ends(s: State, t: nat, b: Book)
    requires t < |s.ts| && s.ts[t] == Out
    ensures Steps(Put(s, t, b, Out), t, []) == s.(b := b)
  {
    assert s.ts[t := Out] == s.ts;
  }

  // ----- acquire -----------------------------------------------------------------------------

  function Permitted(b: Book): Book
    requires b.sem > 0
  {
    b.(sem := b.sem - 1)
  }

  lemma GetsPermit(s: State, t: nat, os: seq<Outcome>)
    requires t < |s.ts| && s.ts[t] == Out && !s.b.closed && s.b.sem > 0
    ensures Call(s, t, Acquire, [Good] + os) == Steps(Put(s, t, Permitted(s.b), Looking), t, os)
  {
    Enters(s, t, Acquire, s.b, WaitSlot, [Good] + os);
    Goes(s, t, s.b, WaitSlot, Good, os, Permitted(s.b), Looking);
  }

  lemma TakesHead(s: State, t: nat, b: Book, o: Outcome, os: seq<Outcome>)
    requires t < |s.ts| && !b.closed && b.idle != []
    ensures Steps(Put(s, t, b, Looking), t, [o] + os) == Steps(Put(s, t, b.(idle := b.idle[1..]), Validating(b.idle[0])), t, os)
  {
    Goes(s, t, b, Looking, o, os, b.(idle := b.idle[1..]), Validating(b.idle[0]));
  }

  lemma Lends(s: State, t: nat, b: Book, c: Conn, o: Outcome)
    requires t < |s.ts| && s.ts[t] == Out
    ensures Steps(Put(s, t, b, Handing(c)), t, [o] + []) == s.(b := b)
  {
    Goes(s, t, b, Handing(c), o, [], b, Out);
    Ends(s, t, b);
  }

  lemma Registers(s: State, t: nat, b: Book, pc: Pc, c: Conn, o1: Outcome, o2: Outcome)
    requires t < |s.ts| && s.ts[t] == Out && !b.closed && (pc == Validated(c) || pc == Connected(c))
    ensures Steps(Put(s, t, b, pc), t, [o1] + ([o2] + [])) == s.(b := b.(out := b.out + [c]))
  {
    Goes(s, t, b, pc, o1, [o2] + [], b.(out := b.out + [c]), Handing(c));
    Lends(s, t, b.(out := b.out + [c]), c, o2);
  }

  lemma ReachesHead(s: State, t: nat, o: Outcome, os: seq<Outcome>)
    requires t < |s.ts| && s.ts[t] == Out && !s.b.closed && s.b.sem > 0 && s.b.idle != []
    ensures Call(s, t, Acquire, [Good] + ([o] + os))
            == Steps(Put(s, t, Permitted(s.b).(idle := s.b.idle[1..]), Validating(s.b.idle[0])), t, os)
  {
    GetsPermit(s, t, [o] + os);
    TakesHead(s, t, Permitted(s.b), o, os);
  }

  lemma LendsHealthy(s: State, t: nat, b: Book, c: Conn, o2: Outcome, o3: Outcome)
    requires t < |s.ts| && s.ts[t] == Out && !b.closed
    ensures Steps(Put(s, t, b, Validating(c)), t, [Good] + ([o2] + ([o3] + []))) == s.(b := b.(out := b.out + [c]))
  {
    Goes(s, t, b, Validating(c), Good, [o2] + ([o3] + []), b, Validated(c));
    Registers(s, t, b, Validated(c), c, o2, o3);
  }

  /** An idle connection whose validation works: the head of the queue moves to the table, and
      a permit is taken. */
  lemma AcquireIdle(s: State, t: nat, o1: Outcome, o2: Outcome, o3: Outcome)
    requires t < |s.ts| && s.ts[t] == Out && !s.b.closed && s.b.sem > 0 && s.b.idle != []
    ensures Call(s, t, Acquire, [Good] + ([o1] + ([Good] + ([o2] + ([o3] + [])))))
            == s.(b := s.b.(idle := s.b.idle[1..], out := s.b.out + [s.b.idle[0]], sem := s.b.sem - 1))
  {
    ReachesHead(s, t, o1, [Good] + ([o2] + ([o3] + [])));
    LendsHealthy(s, t, Permitted(s.b).(idle := s.b.idle[1..]), s.b.idle[0], o2, o3);
  }

  lemma ClosesStale(s: State, t: nat, b: Book, c: Conn, o2: Outcome, o3: Outcome)
    requires t < |s.ts| && b.created > 0 && !o3.Stop?
    ensures Steps(Put(s, t, b, Dropping(c, true)), t, [o2] + ([o3] + []))
            == Put(s.(live := s.live - {c}), t, b.(created := b.created - 1), Looking)
  {
    var b' := b.(created := b.created - 1);
    Goes(s, t, b, Dropping(c, true), o2, [o3] + [], b', DropClosing(c, true));
    Closes(s, t, b', DropClosing(c, true), o3, [], c, Looking);
  }

  lemma DropsStale(s: State, t: nat, b: Book, c: Conn, o2: Outcome, o3: Outcome)
    requires t < |s.ts| && b.created > 0 && !o3.Stop?
    ensures Steps(Put(s, t, b, Validating(c)), t, [Bad] + ([o2] + ([o3] + [])))
            == Put(s.(live := s.live - {c}), t, b.(created := b.created - 1), Looking)
  {
    Goes(s, t, b, Validating(c), Bad, [o2] + ([o3] + []), b, Dropping(c, true));
    ClosesStale(s, t, b, c, o2, o3);
  }

  /** An idle connection whose validation fails: it is closed, its place is free again, and the
      thread looks once more. */
  lemma AcquireStale(s: State, t: nat, o1: Outcome, o2: Outcome, o3: Outcome)
    requires t < |s.ts| && s.ts[t] == Out && !s.b.closed && s.b.sem > 0 && s.b.idle != [] && s.b.created > 0 && !o3.Stop?
    ensures Call(s, t, Acquire, [Good] + ([o1] + ([Bad] + ([o2] + ([o3] + [])))))
            == Put(s.(live := s.live - {s.b.idle[0]}), t,
                   s.b.(idle := s.b.idle[1..], created := s.b.created - 1, sem := s.b.sem - 1), Looking)
  {
    ReachesHead(s, t, o1, [Bad] + ([o2] + ([o3] + [])));
    DropsStale(s, t, Permitted(s.b).(idle := s.b.idle[1..]), s.b.idle[0], o2, o3);
  }

  lemma TwoPhasesOn(s: State, t: nat, b: Book, c: Conn, ph: Phase, os: seq<Outcome>)
    requires t < |s.ts| && (ph == Dial || ph == SetUp)
    ensures Steps(Put(s, t, b, Building(c, ph)), t, [Good] + ([Good] + os))
            == Steps(Put(s, t, b, if ph == Dial then Building(c, SetUp) else Connected(c)), t, os)
  {
    Goes(s, t, b, Building(c, ph), Good, [Good] + os, b, Building(c, After(ph)));
    Goes(s, t, b, Building(c, After(ph)), Good, os, b, if ph == Dial then Building(c, SetUp) else Connected(c));
  }

  lemma OpensConnection(s: State, t: nat, b: Book, c: Conn, os: seq<Outcome>)
    requires t < |s.ts|
    ensures Steps(Put(s, t, b, Building(c, Dial)), t, [Good, Good, Good, Good] + os) == Steps(Put(s, t, b, Connected(c)), t, os)
  {
    assert [Good, Good, Good, Good] + os == [Good] + ([Good] + ([Good] + ([Good] + os)));
    TwoPhasesOn(s, t, b, c, Dial, [Good] + ([Good] + os));
    TwoPhasesOn(s, t, b, c, SetUp, os);
  }

  lemma FindsNothing(s: State, t: nat, o1: Outcome, os: seq<Outcome>)
    requires t < |s.ts| && s.ts[t] == Out && !s.b.closed && s.b.sem > 0 && s.b.idle == [] && s.b.created >= s.maxSize
    ensures Call(s, t, Acquire, [Good] + ([o1] + os)) == Steps(Put(s, t, Permitted(s.b), Starved), t, os)
  {
    GetsPermit(s, t, [o1] + os);
    Goes(s, t, Permitted(s.b), Looking, o1, os, Permitted(s.b), Starved);
  }

  lemma GivesPermitBack(s: State, t: nat, b: Book, pc: Pc, o: Outcome)
    requires t < |s.ts| && s.ts[t] == Out && (pc == Failing || pc == ReleaseDone)
    ensures Steps(Put(s, t, b, pc), t, [o] + []) == s.(b := b.(sem := b.sem + 1))
  {
    Goes(s, t, b, pc, o, [], b.(sem := b.sem + 1), Out);
    Ends(s, t, b.(sem := b.sem + 1));
  }

  lemma GivesUp(s: State, t: nat, b: Book, pc: Pc, o1: Outcome, o2: Outcome)
    requires t < |s.ts| && s.ts[t] == Out && StepOf(Put(s, t, b, pc), pc, Proceed(o1)) == Moved(b, Failing)
    ensures Steps(Put(s, t, b, pc), t, [o1] + ([o2] + [])) == s.(b := b.(sem := b.sem + 1))
  {
    Goes(s, t, b, pc, o1, [o2] + [], b, Failing);
    GivesPermitBack(s, t, b, Failing, o2);
  }

  /** Nothing idle and no room: the thread looks again, or at the deadline everything is as
      before. */
  lemma AcquireInVain(s: State, t: nat, o1: Outcome, o2: Outcome)
    requires t < |s.ts| && s.ts[t] == Out && !s.b.closed && s.b.sem > 0 && s.b.idle == [] && s.b.created >= s.maxSize
    ensures Call(s, t, Acquire, [Good] + ([o1] + ([Bad] + ([o2] + [])))) == s
    ensures Call(s, t, Acquire, [Good] + ([o1] + ([Good] + []))) == Put(s, t, Permitted(s.b), Looking)
  {
    FindsNothing(s, t, o1, [Bad] + ([o2] + []));
    GivesUp(s, t, Permitted(s.b), Starved, Bad, o2);
    FindsNothing(s, t, o1, [Good] + []);
    Goes(s, t, Permitted(s.b), Starved, Good, [], Permitted(s.b), Looking);
  }

  /** A closed pool, or no permit before the deadline: everything is as before. */
  lemma AcquireRefused(s: State, t: nat, o: Outcome)
    requires t < |s.ts| && s.ts[t] == Out
    ensures s.b.closed ==> Call(s, t, Acquire, []) == s
    ensures !s.b.closed && !o.Good? ==> Call(s, t, Acquire, [o]) == s
  {
    if s.b.closed {
      Enters(s, t, Acquire, s.b, Out, []);
      Ends(s, t, s.b);
    } else if !o.Good? {
      Enters(s, t, Acquire, s.b, WaitSlot, [o]);
      assert [o] == [o] + [];
      Goes(s, t, s.b, WaitSlot, o, [], s.b, Out);
      Ends(s, t, s.b);
    }
  }

  lemma CountsPlace(s: State, t: nat, b: Book, o1: Outcome, os: seq<Outcome>)
    requires t < |s.ts| && !b.closed && b.idle == [] && b.created < s.maxSize
    ensures Steps(Put(s, t, b, Looking), t, [o1] + ([Good] + os))
            == Steps(Put(s.(live := s.live + {s.nextId}, nextId := s.nextId + 1), t,
                         b.(created := b.created + 1), Building(s.nextId, Dial)), t, os)
  {
    Goes(s, t, b, Looking, o1, [Good] + os, b.(created := b.created + 1), Connecting);
    Opens(s, t, b.(created := b.created + 1), Connecting, os, Building(s.nextId, Dial));
  }

  lemma GivesBoth(s: State, t: nat, b: Book, o2: Outcome, o3: Outcome)
    requires t < |s.ts| && s.ts[t] == Out && b.created > 0
    ensures Steps(Put(s, t, b, ConnectFailed), t, [o2] + ([o3] + [])) == s.(b := b.(created := b.created - 1, sem := b.sem + 1))
  {
    var b' := b.(created := b.created - 1);
    Goes(s, t, b, ConnectFailed, o2, [o3] + [], b', Failing);
    GivesPermitBack(s, t, b', Failing, o3);
  }

  /** A connect that fails in any phase: its socket is closed, and place and permit go back. */
  lemma ConnectFails(s: State, t: nat, b: Book, c: Conn, ph: Phase, o2: Outcome, o3: Outcome)
    requires t < |s.ts| && s.ts[t] == Out && b.created > 0
    ensures Steps(Put(s, t, b, Building(c, ph)), t, [Bad] + ([o2] + ([o3] + [])))
            == s.(b := b.(created := b.created - 1, sem := b.sem + 1), live := s.live - {c})
  {
    Closes(s, t, b, Building(c, ph), Bad, [o2] + ([o3] + []), c, ConnectFailed);
    GivesBoth(s.(live := s.live - {c}), t, b, o2, o3);
  }

  /** An acquire whose connect fails at once leaves everything as it was. */
  lemma AcquireFails(s: State, t: nat, o1: Outcome, o2: Outcome, o3: Outcome)
    requires t < |s.ts| && s.ts[t] == Out && !s.b.closed && s.b.sem > 0 && s.b.idle == [] && s.b.created < s.maxSize
    requires s.nextId !in s.live
    ensures Call(s, t, Acquire, [Good] + ([o1] + ([Good] + ([Bad] + ([o2] + ([o3] + [])))))) == s.(nextId := s.nextId + 1)
  {
    var rest := [Bad] + ([o2] + ([o3] + []));
    GetsPermit(s, t, [o1] + ([Good] + rest));
    CountsPlace(s, t, Permitted(s.b), o1, rest);
    ConnectFails(s.(live := s.live + {s.nextId}, nextId := s.nextId + 1), t,
                 Permitted(s.b).(created := s.b.created + 1), s.nextId, Dial, o2, o3);
    assert s.live + {s.nextId} - {s.nextId} == s.live;
  }

  /** No idle connection but room for one more: a new connection goes through all its phases
      and is in the table, counted, on a permit. */
  lemma AcquireNew(s: State, t: nat, o1: Outcome, o2: Outcome, o3: Outcome)
    requires t < |s.ts| && s.ts[t] == Out && !s.b.closed && s.b.sem > 0 && s.b.idle == [] && s.b.created < s.maxSize
    ensures Call(s, t, Acquire, [Good] + ([o1] + ([Good] + ([Good, Good, Good, Good] + ([o2] + ([o3] + []))))))
            == s.(b := s.b.(created := s.b.created + 1, out := s.b.out + [s.nextId], sem := s.b.sem - 1),
                  live := s.live + {s.nextId}, nextId := s.nextId + 1)
  {
    var b := Permitted(s.b).(created := s.b.created + 1);
    var s' := s.(live := s.live + {s.nextId}, nextId := s.nextId + 1);
    var rest := [Good, Good, Good, Good] + ([o2] + ([o3] + []));
    GetsPermit(s, t, [o1] + ([Good] + rest));
    CountsPlace(s, t, Permitted(s.b), o1, rest);
    OpensConnection(s', t, b, s.nextId, [o2] + ([o3] + []));
    Registers(s', t, b, Connected(s.nextId), s.nextId, o2, o3);
  }

  // ----- release -----------------------------------------------------------------------------

  /** A lent connection that is still usable goes to the end of the idle queue, and the permit
      goes back. */
  lemma ReleaseUsable(s: State, t: nat, c: Conn, o: Outcome)
    requires t < |s.ts| && s.ts[t] == Out && !s.b.closed && c in s.b.out
    ensures Call(s, t, Release(c), [Good] + ([o] + []))
            == s.(b := s.b.(out := Without(s.b.out, c), idle := s.b.idle + [c], sem := s.b.sem + 1))
  {
    var b1 := s.b.(out := Without(s.b.out, c));
    var b2 := b1.(idle := b1.idle + [c]);
    Enters(s, t, Release(c), b1, Releasing(c), [Good] + ([o] + []));
    Goes(s, t, b1, Releasing(c), Good, [o] + [], b2, ReleaseDone);
    GivesPermitBack(s, t, b2, ReleaseDone, o);
  }

  lemma ClosesReleased(s: State, t: nat, b: Book, c: Conn, o1: Outcome, o2: Outcome)
    requires t < |s.ts| && s.ts[t] == Out && !o1.Stop?
    ensures Steps(Put(s, t, b, ReleaseClosing(c)), t, [o1] + ([o2] + [])) == s.(b := b.(sem := b.sem + 1), live := s.live - {c})
  {
    Closes(s, t, b, ReleaseClosing(c), o1, [o2] + [], c, ReleaseDone);
    GivesPermitBack(s.(live := s.live - {c}), t, b, ReleaseDone, o2);
  }

  lemma DropsReleased(s: State, t: nat, b: Book, c: Conn, o1: Outcome, o2: Outcome)
    requires t < |s.ts| && s.ts[t] == Out && b.created > 0 && !o1.Stop?
    ensures Steps(Put(s, t, b, Releasing(c)), t, [Bad] + ([o1] + ([o2] + [])))
            == s.(b := b.(created := b.created - 1, sem := b.sem + 1), live := s.live - {c})
  {
    var b' := b.(created := b.created - 1);
    Goes(s, t, b, Releasing(c), Bad, [o1] + ([o2] + []), b', ReleaseClosing(c));
    ClosesReleased(s, t, b', c, o1, o2);
  }

  /** An unusable one is closed, its place is free again, and the permit goes back. */
  lemma ReleaseUnusable(s: State, t: nat, c: Conn, o1: Outcome, o2: Outcome)
    requires t < |s.ts| && s.ts[t] == Out && c in s.b.out && s.b.created > 0 && !o1.Stop?
    ensures Call(s, t, Release(c), [Bad] + ([o1] + ([o2] + [])))
            == s.(b := s.b.(out := Without(s.b.out, c), created := s.b.created - 1, sem := s.b.sem + 1), live := s.live - {c})
  {
    var b1 := s.b.(out := Without(s.b.out, c));
    Enters(s, t, Release(c), b1, Releasing(c), [Bad] + ([o1] + ([o2] + [])));
    DropsReleased(s, t, b1, c, o1, o2);
  }

  /** A connection that is not lent is refused. */
  lemma ReleaseRefused(s: State, t: nat, c: Conn)
    requires t < |s.ts| && s.ts[t] == Out && c !in s.b.out
    ensures Call(s, t, Release(c), []) == s
  {
    Enters(s, t, Release(c), s.b, Out, []);
    Ends(s, t, s.b);
  }

  // ----- upkeep ------------------------------------------------------------------------------

  /** A pre-create begins there. */
  lemma FillStarts(s: State, t: nat, os: seq<Outcome>)
    requires t < |s.ts| && s.ts[t] == Out
    ensures Call(s, t, Fill, os) == Steps(Put(s, t, s.b, FillLoop), t, os)
  {
    Enters(s, t, Fill, s.b, FillLoop, os);
  }

  lemma FillsTwoPhases(s: State, t: nat, b: Book, c: Conn, ph: Phase, os: seq<Outcome>)
    requires t < |s.ts| && (ph == Dial || ph == SetUp)
    ensures Steps(Put(s, t, b, FillBuilding(c, ph)), t, [Good] + ([Good] + os))
            == Steps(Put(s, t, b, if ph == Dial then FillBuilding(c, SetUp) else FillConnected(c)), t, os)
  {
    Goes(s, t, b, FillBuilding(c, ph), Good, [Good] + os, b, FillBuilding(c, After(ph)));
    Goes(s, t, b, FillBuilding(c, After(ph)), Good, os, b, if ph == Dial then FillBuilding(c, SetUp) else FillConnected(c));
  }

  lemma FillsConnection(s: State, t: nat, b: Book, c: Conn, os: seq<Outcome>)
    requires t < |s.ts|
    ensures Steps(Put(s, t, b, FillBuilding(c, Dial)), t, [Good, Good, Good, Good] + os)
            == Steps(Put(s, t, b, FillConnected(c)), t, os)
  {
    assert [Good, Good, Good, Good] + os == [Good] + ([Good] + ([Good] + ([Good] + os)));
    FillsTwoPhases(s, t, b, c, Dial, [Good] + ([Good] + os));
    FillsTwoPhases(s, t, b, c, SetUp, os);
  }

  lemma FillCounts(s: State, t: nat, b: Book, o: Outcome, os: seq<Outcome>)
    requires t < |s.ts| && !b.closed && b.created < s.minSize
    ensures Steps(Put(s, t, b, FillLoop), t, [o] + ([Good] + os))
            == Steps(Put(s.(live := s.live + {s.nextId}, nextId := s.nextId + 1), t, b.(created := b.created + 1),
                         FillBuilding(s.nextId, Dial)), t, os)
  {
    Goes(s, t, b, FillLoop, o, [Good] + os, b.(created := b.created + 1), FillConnecting);
    Opens(s, t, b.(created := b.created + 1), FillConnecting, os, FillBuilding(s.nextId, Dial));
  }

  lemma FillPublishes(s: State, t: nat, b: Book, c: Conn, o: Outcome)
    requires t < |s.ts| && !b.closed
    ensures Steps(Put(s, t, b, FillBuilding(c, Dial)), t, [Good, Good, Good, Good] + ([o] + []))
            == Put(s, t, b.(idle := b.idle + [c]), FillLoop)
  {
    FillsConnection(s, t, b, c, [o] + []);
    Goes(s, t, b, FillConnected(c), o, [], b.(idle := b.idle + [c]), FillLoop);
  }

  /** One pre-create: a new connection at the end of the idle queue, counted. */
  lemma FillsOne(s: State, t: nat, b: Book, o1: Outcome, o2: Outcome)
    requires t < |s.ts| && !b.closed && b.created < s.minSize
    ensures Steps(Put(s, t, b, FillLoop), t, [o1] + ([Good] + ([Good, Good, Good, Good] + ([o2] + []))))
            == Put(s.(live := s.live + {s.nextId}, nextId := s.nextId + 1), t,
                   b.(created := b.created + 1, idle := b.idle + [s.nextId]), FillLoop)
  {
    FillCounts(s, t, b, o1, [Good, Good, Good, Good] + ([o2] + []));
    FillPublishes(s.(live := s.live + {s.nextId}, nextId := s.nextId + 1), t, b.(created := b.created + 1), s.nextId, o2);
  }

  /** A pool with `min_size` connections, or a closed one, gets no more. */
  lemma FillsNone(s: State, t: nat, b: Book, o: Outcome)
    requires t < |s.ts| && s.ts[t] == Out && (b.closed || b.created >= s.minSize)
    ensures Steps(Put(s, t, b, FillLoop), t, [o]) == s.(b := b)
  {
    assert [o] == [o] + [];
    Goes(s, t, b, FillLoop, o, [], b, Out);
    Ends(s, t, b);
  }

  lemma SweepTests(s: State, t: nat, b: Book, left: nat, o: Outcome, os: seq<Outcome>)
    requires t < |s.ts| && !b.closed && b.idle != [] && left > 0
    ensures Steps(Put(s, t, b, Sweeping(left)), t, [o] + os)
            == Steps(Put(s, t, b.(idle := b.idle[1..]), SweepTesting(b.idle[0], left - 1)), t, os)
  {
    Goes(s, t, b, Sweeping(left), o, os, b.(idle := b.idle[1..]), SweepTesting(b.idle[0], left - 1));
  }

  lemma SweepReturns(s: State, t: nat, b: Book, c: Conn, left: nat, o: Outcome)
    requires t < |s.ts| && !b.closed
    ensures Steps(Put(s, t, b, SweepTesting(c, left)), t, [Good] + ([o] + [])) == Put(s, t, b.(idle := b.idle + [c]), Sweeping(left))
  {
    Goes(s, t, b, SweepTesting(c, left), Good, [o] + [], b, SweepTested(c, left));
    Goes(s, t, b, SweepTested(c, left), o, [], b.(idle := b.idle + [c]), Sweeping(left));
  }

  /** The sweep tests the head of the queue: a healthy connection goes to the end, ... */
  lemma SweepKeeps(s: State, t: nat, b: Book, left: nat, o1: Outcome, o2: Outcome)
    requires t < |s.ts| && !b.closed && b.idle != [] && left > 0
    ensures Steps(Put(s, t, b, Sweeping(left)), t, [o1] + ([Good] + ([o2] + [])))
            == Put(s, t, b.(idle := b.idle[1..] + [b.idle[0]]), Sweeping(left - 1))
  {
    SweepTests(s, t, b, left, o1, [Good] + ([o2] + []));
    SweepReturns(s, t, b.(idle := b.idle[1..]), b.idle[0], left - 1, o2);
  }

  lemma SweepCloses(s: State, t: nat, b: Book, c: Conn, left: nat, o2: Outcome, o3: Outcome)
    requires t < |s.ts| && b.created > 0 && !o3.Stop?
    ensures Steps(Put(s, t, b, SweepDropping(c, left, true)), t, [o2] + ([o3] + []))
            == Put(s.(live := s.live - {c}), t, b.(created := b.created - 1), Sweeping(left))
  {
    var b' := b.(created := b.created - 1);
    Goes(s, t, b, SweepDropping(c, left, true), o2, [o3] + [], b', SweepClosing(c, left, true));
    Closes(s, t, b', SweepClosing(c, left, true), o3, [], c, Sweeping(left));
  }

  lemma SweepFails(s: State, t: nat, b: Book, c: Conn, left: nat, o2: Outcome, o3: Outcome)
    requires t < |s.ts| && b.created > 0 && !o3.Stop?
    ensures Steps(Put(s, t, b, SweepTesting(c, left)), t, [Bad] + ([o2] + ([o3] + [])))
            == Put(s.(live := s.live - {c}), t, b.(created := b.created - 1), Sweeping(left))
  {
    Goes(s, t, b, SweepTesting(c, left), Bad, [o2] + ([o3] + []), b, SweepDropping(c, left, true));
    SweepCloses(s, t, b, c, left, o2, o3);
  }

  /** ... any other is closed and its place is free again, ... */
  lemma SweepDrops(s: State, t: nat, b: Book, left: nat, o1: Outcome, o2: Outcome, o3: Outcome)
    requires t < |s.ts| && !b.closed && b.idle != [] && left > 0 && b.created > 0 && !o3.Stop?
    ensures Steps(Put(s, t, b, Sweeping(left)), t, [o1] + ([Bad] + ([o2] + ([o3] + []))))
            == Put(s.(live := s.live - {b.idle[0]}), t, b.(idle := b.idle[1..], created := b.created - 1), Sweeping(left - 1))
  {
    SweepTests(s, t, b, left, o1, [Bad] + ([o2] + ([o3] + [])));
    SweepFails(s, t, b.(idle := b.idle[1..]), b.idle[0], left - 1, o2, o3);
  }

  /** ... and the sweep is over after as many tests as there were idle connections. */
  lemma SweepStartsAndEnds(s: State, t: nat, o: Outcome, os: seq<Outcome>)
    requires t < |s.ts| && s.ts[t] == Out
    ensures Call(s, t, Sweep, os) == Steps(Put(s, t, s.b, Sweeping(|s.b.idle|)), t, os)
    ensures forall b :: Steps(Put(s, t, b, Sweeping(0)), t, [o]) == s.(b := b)
  {
    Enters(s, t, Sweep, s.b, Sweeping(|s.b.idle|), os);
    forall b
      ensures Steps(Put(s, t, b, Sweeping(0)), t, [o]) == s.(b := b)
    {
      assert [o] == [o] + [];
      Goes(s, t, b, Sweeping(0), o, [], b, Out);
      Ends(s, t, b);
    }
  }

  // ----- close_all ---------------------------------------------------------------------------

  lemma {:induction false} ClosesList(s: State, t: nat, b: Book, cs: seq<Conn>, os: seq<Outcome>)
    requires t < |s.ts| && s.ts[t] == Out && |os| == |cs| + 1 && forall i :: 0 <= i < |os| ==> !os[i].Stop?
    ensures Steps(Put(s, t, b, Shutting(cs)), t, os) == s.(b := b, live := s.live - Members(cs))
    decreases |cs|
  {
    assert os == [os[0]] + os[1..];
    if cs == [] {
      assert os[1..] == [] && s.live - {} == s.live;
      Goes(s, t, b, Shutting([]), os[0], [], b, Out);
      Ends(s, t, b);
    } else {
      Closes(s, t, b, Shutting(cs), os[0], os[1..], cs[0], Shutting(cs[1..]));
      ClosesList(s.(live := s.live - {cs[0]}), t, b, cs[1..], os[1..]);
      assert s.live - {cs[0]} - Members(cs[1..]) == s.live - Members(cs);
    }
  }

  /** `close_all` closes every idle and every lent connection, empties the books and gives every
      waiter a permit. */
  lemma CloseAllCloses(s: State, t: nat, os: seq<Outcome>)
    requires t < |s.ts| && s.ts[t] == Out && |os| == |s.b.idle| + |s.b.out| + 1
    requires forall i :: 0 <= i < |os| ==> !os[i].Stop?
    ensures Call(s, t, Shutdown, os)
            == s.(b := Book([], 0, [], s.b.sem + s.maxSize, true), live := s.live - Members(s.b.idle + s.b.out))
  {
    Enters(s, t, Shutdown, Shut(s.b, s.maxSize), Shutting(s.b.idle + s.b.out), os);
    ClosesList(s, t, Shut(s.b, s.maxSize), s.b.idle + s.b.out, os);
  }
}
