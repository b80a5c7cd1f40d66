/** What each call on the asyncio pool does when no other task comes in between: the whole state
    before and after it. */
module NzPoolCalls {
  import opened Queues
  import opened NzPools
  import opened NzPoolRuns
  import opened Phases

  /** Task `t` takes its next steps, with these outcomes. */
  function Steps(s: State, t: nat, os: seq<Outcome>): State
    decreases |os|, 0
  {
    if os == [] then s else Call(s, t, Proceed(os[0]), os[1..])
  }

  /** Task `t` calls an operation, or proceeds, and takes steps with these outcomes. */
  function Call(s: State, t: nat, a: Action, os: seq<Outcome>): State
    decreases |os|, 2
  {
    Behind(s, t, Event(t, a), os)
  }

  function Behind(s: State, t: nat, e: Event, os: seq<Outcome>): State
    decreases |os|, 1
  {
    Steps(Next(s, e), t, os)
  }

  lemma Begins(s: State, t: nat, a: Action, os: seq<Outcome>)
    ensures Call(s, t, a, os) == Steps(Next(s, Event(t, a)), t, os)
  {
    assert Call(s, t, a, os) == Behind(s, t, Event(t, a), os);
  }

  function Put(s: State, t: nat, b: Book, pc: Pc): State
    requires t < |s.ts|
  {
    s.(b := b, ts := s.ts[t := pc])
  }

  function Opened(s: State): State { s.(live := s.live + {s.nextId}, nextId := s.nextId + 1) }

  function Closed(s: State, c: Conn): State { s.(live := s.live - {c}) }

  /** What a change of the task's own does to the whole state. */
  function Changed(s: State, t: nat, ch: Change): State
    requires t < |s.ts|
  {
    Put(s.(live := s.live + ch.opens - ch.closes, lost := s.lost + ch.loses, nextId := s.nextId + |ch.opens|), t, ch.b, ch.pc)
  }

  lemma ChangedBy(s: State, t: nat, b: Book, pc: Pc, c: Conn)
    requires t < |s.ts|
    ensures Changed(s, t, Moved(b, pc)) == Put(s, t, b, pc)
    ensures Changed(s, t, Opening(b, pc, s.nextId)) == Put(Opened(s), t, b, pc)
    ensures Changed(s, t, Closing(b, pc, c)) == Put(Closed(s, c), t, b, pc)
    ensures Changed(s, t, Losing(b, pc, c)) == Put(s.(lost := s.lost + {c}), t, b, pc)
  {
    assert s.live + {} - {} == s.live && s.lost + {} == s.lost && |{s.nextId}| == 1;
    assert s.live + {s.nextId} - {} == s.live + {s.nextId} && s.live + {} - {c} == s.live - {c};
  }

  lemma FirstStep(s: State, t: nat, o: Outcome, os: seq<Outcome>)
    ensures Steps(s, t, [o] + os) == Steps(Next(s, Event(t, Proceed(o))), t, os)
  {
    assert ([o] + os)[1..] == os;
    Begins(s, t, Proceed(o), os);
  }

  lemma NextIs(s: State, t: nat, b: Book, pc: Pc, o: Outcome, ch: Change)
    requires t < |s.ts| && StepOf(Put(s, t, b, pc), pc, Proceed(o)) == ch
    ensures Next(Put(s, t, b, pc), Event(t, Proceed(o))) == Changed(s, t, ch)
  {
    assert s.ts[t := pc][t := ch.pc] == s.ts[t := ch.pc];
  }

  /** The call begins at `pc` with bookkeeping `b`. */
  lemma Enters(s: State, t: nat, a: Action, b: Book, pc: Pc, os: seq<Outcome>)
    requires t < |s.ts| && s.ts[t] == Out && Enter(s.b, a) == Moved(b, pc)
    ensures Call(s, t, a, os) == Steps(Put(s, t, b, pc), t, os)
  {
    Begins(s, t, a, os);
    ChangedBy(s, t, b, pc, 0);
  }

  /** From `pc` with bookkeeping `b` to `pc'` with `b'`. */
  lemma Goes(s: State, t: nat, b: Book, pc: Pc, o: Outcome, os: seq<Outcome>, b': Book, pc': Pc)
    requires t < |s.ts| && StepOf(Put(s, t, b, pc), pc, Proceed(o)) == Moved(b', pc')
    ensures Steps(Put(s, t, b, pc), t, [o] + os) == Steps(Put(s, t, b', pc'), t, os)
  {
    FirstStep(Put(s, t, b, pc), t, o, os);
    NextIs(s, t, b, pc, o, Moved(b', pc'));
    ChangedBy(s, t, b', pc', 0);
  }

  lemma Opens(s: State, t: nat, b: Book, pc: Pc, o: Outcome, os: seq<Outcome>, pc': Pc)
    requires t < |s.ts| && StepOf(Put(s, t, b, pc), pc, Proceed(o)) == Opening(b, pc', s.nextId)
    ensures Steps(Put(s, t, b, pc), t, [o] + os) == Steps(Put(Opened(s), t, b, pc'), t, os)
  {
    FirstStep(Put(s, t, b, pc), t, o, os);
    NextIs(s, t, b, pc, o, Opening(b, pc', s.nextId));
    ChangedBy(s, t, b, pc', 0);
  }

  lemma Closes(s: State, t: nat, b: Book, pc: Pc, o: Outcome, os: seq<Outcome>, b': Book, pc': Pc, c: Conn)
    requires t < |s.ts| && StepOf(Put(s, t, b, pc), pc, Proceed(o)) == Closing(b', pc', c)
    ensures Steps(Put(s, t, b, pc), t, [o] + os) == Steps(Put(Closed(s, c), t, b', pc'), t, os)
  {
    FirstStep(Put(s, t, b, pc), t, o, os);
    NextIs(s, t, b, pc, o, Closing(b', pc', c));
    ChangedBy(s, t, b', pc', c);
  }

  lemma Loses(s: State, t: nat, b: Book, pc: Pc, o: Outcome, os: seq<Outcome>, b': Book, pc': Pc, c: Conn)
    requires t < |s.ts| && StepOf(Put(s, t, b, pc), pc, Proceed(o)) == Losing(b', pc', c)
    ensures Steps(Put(s, t, b, pc), t, [o] + os) == Steps(Put(s.(lost := s.lost + {c}), t, b', pc'), t, os)
  {
    FirstStep(Put(s, t, b, pc), t, o, os);
    NextIs(s, t, b, pc, o, Losing(b', pc', c));
    ChangedBy(s, t, b', pc', c);
  }

  /** The call is over. */
  lemma Ends(s: State, t: nat, b: Book)
    requires t < |s.ts| && s.ts[t] == Out
    ensures Steps(Put(s, t, b, Out), t, []) == s.(b := b)
  {
    assert s.ts[t := Out] == s.ts;
  }

  // ----- acquire -----------------------------------------------------------------------------

  /** With `min_size` connections there is nothing to pre-create first. */
  lemma ReachesLock(s: State, t: nat, o1: Outcome, o2: Outcome, os: seq<Outcome>)
    requires t < |s.ts| && s.ts[t] == Out && !s.b.closed && s.b.created >= s.minSize && !o2.Abort?
    ensures Call(s, t, Acquire, [o1] + ([o2] + os)) == Steps(Put(s, t, s.b, AcqLock), t, os)
  {
    Enters(s, t, Acquire, s.b, AcqTop, [o1] + ([o2] + os));
    Goes(s, t, s.b, AcqTop, o1, [o2] + os, s.b, FillTop(true));
    Goes(s, t, s.b, FillTop(true), o2, os, s.b, AcqLock);
  }

  lemma TakesHead(s: State, t: nat, b: Book, o: Outcome, os: seq<Outcome>)
    requires t < |s.ts| && b.idle != [] && b.idle[0] !in b.reserving && !o.Abort?
    ensures Steps(Put(s, t, b, AcqLock), t, [o] + os)
            == Steps(Put(s, t, b.(idle := b.idle[1..], reserving := b.reserving + [b.idle[0]]), Validating(b.idle[0])), t, os)
  {
    Goes(s, t, b, AcqLock, o, os, b.(idle := b.idle[1..], reserving := b.reserving + [b.idle[0]]), Validating(b.idle[0]));
  }

  lemma {:induction false} Unreserved(cs: seq<Conn>, c: Conn)
    requires c !in cs
    ensures Without(cs + [c], c) == cs
  {
    if cs != [] {
      assert (cs + [c])[1..] == cs[1..] + [c];
      Unreserved(cs[1..], c);
    }
  }

  lemma Validated(s: State, t: nat, b: Book, c: Conn)
    requires t < |s.ts| && s.ts[t] == Out && !b.closed && c !in b.reserving
    ensures Steps(Put(s, t, b.(reserving := b.reserving + [c]), Validating(c)), t, [Good] + []) == s.(b := b.(out := b.out + [c]))
  {
    Unreserved(b.reserving, c);
    Goes(s, t, b.(reserving := b.reserving + [c]), Validating(c), Good, [], b.(out := b.out + [c]), Out);
    Ends(s, t, b.(out := b.out + [c]));
  }

  /** The next idle connection, whose validation works: it moves from the head of the queue to
      the table. */
  lemma AcquireIdle(s: State, t: nat, o1: Outcome, o2: Outcome, o3: Outcome)
    requires t < |s.ts| && s.ts[t] == Out && !s.b.closed && s.b.created >= s.minSize && !o2.Abort? && !o3.Abort?
    requires s.b.idle != [] && s.b.idle[0] !in s.b.reserving
    ensures Call(s, t, Acquire, [o1] + ([o2] + ([o3] + ([Good] + []))))
            == s.(b := s.b.(idle := s.b.idle[1..], out := s.b.out + [s.b.idle[0]]))
  {
    ReachesLock(s, t, o1, o2, [o3] + ([Good] + []));
    TakesHead(s, t, s.b, o3, [Good] + []);
    Validated(s, t, s.b.(idle := s.b.idle[1..]), s.b.idle[0]);
  }

  lemma Dropped(s: State, t: nat, b: Book, c: Conn, o: Outcome)
    requires t < |s.ts| && b.created > 0 && c !in b.reserving && !o.Abort?
    ensures Steps(Put(s, t, b.(reserving := b.reserving + [c]), Validating(c)), t, [Bad] + ([o] + []))
            == Put(Closed(s, c), t, b.(created := b.created - 1), AcqTop)
  {
    Unreserved(b.reserving, c);
    Goes(s, t, b.(reserving := b.reserving + [c]), Validating(c), Bad, [o] + [], b.(created := b.created - 1), DropClosing(c, true));
    Closes(s, t, b.(created := b.created - 1), DropClosing(c, true), o, [], b.(created := b.created - 1), AcqTop, c);
  }

  /** One whose validation fails: it is closed, its place is free again, and the task starts
      over. */
  lemma AcquireStale(s: State, t: nat, o1: Outcome, o2: Outcome, o3: Outcome, o4: Outcome)
    requires t < |s.ts| && s.ts[t] == Out && !s.b.closed && s.b.created >= s.minSize && !o2.Abort? && !o3.Abort? && !o4.Abort?
    requires s.b.idle != [] && s.b.idle[0] !in s.b.reserving && s.b.created > 0
    ensures Call(s, t, Acquire, [o1] + ([o2] + ([o3] + ([Bad] + ([o4] + [])))))
            == Put(Closed(s, s.b.idle[0]), t, s.b.(idle := s.b.idle[1..], created := s.b.created - 1), AcqTop)
  {
    ReachesLock(s, t, o1, o2, [o3] + ([Bad] + ([o4] + [])));
    TakesHead(s, t, s.b, o3, [Bad] + ([o4] + []));
    Dropped(s, t, s.b.(idle := s.b.idle[1..]), s.b.idle[0], o4);
  }

  lemma CountsPlace(s: State, t: nat, b: Book, o: Outcome, os: seq<Outcome>)
    requires t < |s.ts| && b.idle == [] && b.created < s.maxSize && !o.Abort?
    ensures Steps(Put(s, t, b, AcqLock), t, [o] + ([Good] + os))
            == Steps(Put(Opened(s), t, b.(created := b.created + 1), Building(s.nextId, Dial)), t, os)
  {
    Goes(s, t, b, AcqLock, o, [Good] + os, b.(created := b.created + 1), Connecting);
    Opens(s, t, b.(created := b.created + 1), Connecting, Good, os, Building(s.nextId, Dial));
  }

  lemma PhasesWork(s: State, t: nat, b: Book, c: Conn, os: seq<Outcome>)
    requires t < |s.ts|
    ensures Steps(Put(s, t, b, Building(c, Dial)), t, [Good] + ([Good] + ([Good] + os))) == Steps(Put(s, t, b, Building(c, Hook)), t, os)
  {
    Goes(s, t, b, Building(c, Dial), Good, [Good] + ([Good] + os), b, Building(c, Greet));
    Goes(s, t, b, Building(c, Greet), Good, [Good] + os, b, Building(c, SetUp));
    Goes(s, t, b, Building(c, SetUp), Good, os, b, Building(c, Hook));
  }

  lemma HookWorks(s: State, t: nat, b: Book, c: Conn)
    requires t < |s.ts| && s.ts[t] == Out && !b.closed
    ensures Steps(Put(s, t, b, Building(c, Hook)), t, [Good] + []) == s.(b := b.(out := b.out + [c]))
  {
    Goes(s, t, b, Building(c, Hook), Good, [], b.(out := b.out + [c]), Out);
    Ends(s, t, b.(out := b.out + [c]));
  }

  lemma Connects(s: State, t: nat, b: Book, o: Outcome)
    requires t < |s.ts| && s.ts[t] == Out && !b.closed && b.idle == [] && b.created < s.maxSize && !o.Abort?
    ensures Steps(Put(s, t, b, AcqLock), t, [o] + ([Good] + ([Good] + ([Good] + ([Good] + ([Good] + []))))))
            == Opened(s).(b := b.(created := b.created + 1, out := b.out + [s.nextId]))
  {
    CountsPlace(s, t, b, o, [Good] + ([Good] + ([Good] + ([Good] + []))));
    PhasesWork(Opened(s), t, b.(created := b.created + 1), s.nextId, [Good] + []);
    HookWorks(Opened(s), t, b.(created := b.created + 1), s.nextId);
  }

  /** No idle connection but room for one more: a new one goes through all its phases and is in
      the table, counted. */
  lemma AcquireNew(s: State, t: nat, o1: Outcome, o2: Outcome, o3: Outcome)
    requires t < |s.ts| && s.ts[t] == Out && !s.b.closed && s.minSize <= s.b.created < s.maxSize && !o2.Abort? && !o3.Abort?
    requires s.b.idle == []
    ensures Call(s, t, Acquire, [o1] + ([o2] + ([o3] + ([Good] + ([Good] + ([Good] + ([Good] + ([Good] + []))))))))
            == Opened(s).(b := s.b.(created := s.b.created + 1, out := s.b.out + [s.nextId]))
  {
    ReachesLock(s, t, o1, o2, [o3] + ([Good] + ([Good] + ([Good] + ([Good] + ([Good] + []))))));
    Connects(s, t, s.b, o3);
  }

  /** A phase that fails gives the place back. The connection is closed, or nobody refers to it
      any more. */
  lemma PhaseFails(s: State, t: nat, b: Book, c: Conn, ph: Phase, o: Outcome)
    requires t < |s.ts| && s.ts[t] == Out && b.created > 0 && !o.Good? && ph != Hook
    ensures Steps(Put(s, t, b, Building(c, ph)), t, [o] + [])
            == if Unguarded(ph, o) then s.(b := b.(created := b.created - 1), lost := s.lost + {c})
               else Closed(s, c).(b := b.(created := b.created - 1))
  {
    var b' := b.(created := b.created - 1);
    if Unguarded(ph, o) {
      Loses(s, t, b, Building(c, ph), o, [], b', Out, c);
      Ends(s.(lost := s.lost + {c}), t, b');
    } else {
      Closes(s, t, b, Building(c, ph), o, [], b', Out, c);
      Ends(Closed(s, c), t, b');
    }
  }

  /** A failed hook closes the connection first; a cancelled one leaves it open. */
  lemma HookFails(s: State, t: nat, b: Book, c: Conn, o: Outcome, o2: Outcome)
    requires t < |s.ts| && s.ts[t] == Out && b.created > 0 && !o.Good?
    ensures !o.Abort? ==> Steps(Put(s, t, b, Building(c, Hook)), t, [o] + ([o2] + [])) == Closed(s, c).(b := b.(created := b.created - 1))
    ensures o.Abort? ==>
              Steps(Put(s, t, b, Building(c, Hook)), t, [o] + []) == s.(b := b.(created := b.created - 1), lost := s.lost + {c})
  {
    var b' := b.(created := b.created - 1);
    if o.Abort? {
      Loses(s, t, b, Building(c, Hook), o, [], b', Out, c);
      Ends(s.(lost := s.lost + {c}), t, b');
    } else {
      Goes(s, t, b, Building(c, Hook), o, [o2] + [], b, HookFailed(c));
      Closes(s, t, b, HookFailed(c), o2, [], b', Out, c);
      Ends(Closed(s, c), t, b');
    }
  }

  /** Nothing idle and no room: the task waits, and starts over when it is woken; at the deadline
      everything is as before. */
  lemma AcquireInVain(s: State, t: nat, o1: Outcome, o2: Outcome, o3: Outcome, o: Outcome)
    requires t < |s.ts| && s.ts[t] == Out && !s.b.closed && s.b.created >= s.minSize && !o2.Abort? && !o3.Abort?
    requires s.b.idle == [] && s.b.created >= s.maxSize
    ensures Call(s, t, Acquire, [o1] + ([o2] + ([o3] + ([o] + [])))) == if o.Good? then Put(s, t, s.b, AcqTop) else s
  {
    ReachesLock(s, t, o1, o2, [o3] + ([o] + []));
    WaitsAtLock(s, t, o3, [o] + []);
    Goes(s, t, s.b, AcqWait, o, [], s.b, if o.Good? then AcqTop else Out);
    if !o.Good? {
      Ends(s, t, s.b);
    }
  }

  lemma WaitsAtLock(s: State, t: nat, o: Outcome, os: seq<Outcome>)
    requires t < |s.ts| && s.b.idle == [] && s.b.created >= s.maxSize && !o.Abort?
    ensures Steps(Put(s, t, s.b, AcqLock), t, [o] + os) == Steps(Put(s, t, s.b, AcqWait), t, os)
  {
    Goes(s, t, s.b, AcqLock, o, os, s.b, AcqWait);
  }

  /** A closed pool refuses, at the call and at every new start. */
  lemma AcquireRefused(s: State, t: nat, o: Outcome)
    requires t < |s.ts| && s.ts[t] == Out && s.b.closed
    ensures Call(s, t, Acquire, []) == s && Steps(Put(s, t, s.b, AcqTop), t, [o] + []) == s
  {
    Enters(s, t, Acquire, s.b, Out, []);
    Goes(s, t, s.b, AcqTop, o, [], s.b, Out);
    Ends(s, t, s.b);
  }

  // ----- release -----------------------------------------------------------------------------

  /** A lent connection that is usable goes to the end of the idle queue. */
  lemma ReleaseUsable(s: State, t: nat, c: Conn)
    requires t < |s.ts| && s.ts[t] == Out && !s.b.closed && c in s.b.out
    ensures Call(s, t, Release(c), [Good] + []) == s.(b := s.b.(out := Without(s.b.out, c), idle := s.b.idle + [c]))
  {
    var b' := s.b.(out := Without(s.b.out, c), idle := s.b.idle + [c]);
    Enters(s, t, Release(c), s.b, Releasing(c), [Good] + []);
    Goes(s, t, s.b, Releasing(c), Good, [], b', Out);
    Ends(s, t, b');
  }

  /** One that is not is closed, and its place is free again. */
  lemma ReleaseUnusable(s: State, t: nat, c: Conn, o: Outcome)
    requires t < |s.ts| && s.ts[t] == Out && !s.b.closed && c in s.b.out && s.b.created > 0
    ensures Call(s, t, Release(c), [Bad] + ([o] + []))
            == Closed(s, c).(b := s.b.(out := Without(s.b.out, c), created := s.b.created - 1))
  {
    var b' := s.b.(out := Without(s.b.out, c), created := s.b.created - 1);
    Enters(s, t, Release(c), s.b, Releasing(c), [Bad] + ([o] + []));
    Goes(s, t, s.b, Releasing(c), Bad, [o] + [], b', ReleaseClosing(c));
    Closes(s, t, b', ReleaseClosing(c), o, [], b', Out, c);
    Ends(Closed(s, c), t, b');
  }

  /** A closed pool, and a connection that is not lent, are left as they are. */
  lemma ReleaseRefused(s: State, t: nat, c: Conn, o: Outcome)
    requires t < |s.ts| && s.ts[t] == Out && (s.b.closed || c !in s.b.out)
    ensures Call(s, t, Release(c), [o] + []) == s
  {
    Enters(s, t, Release(c), s.b, Releasing(c), [o] + []);
    Goes(s, t, s.b, Releasing(c), o, [], s.b, Out);
    Ends(s, t, s.b);
  }

  // ----- upkeep ------------------------------------------------------------------------------

  lemma FillStarts(s: State, t: nat, os: seq<Outcome>)
    requires t < |s.ts| && s.ts[t] == Out
    ensures Call(s, t, Fill, os) == Steps(Put(s, t, s.b, FillTop(false)), t, os)
  {
    Enters(s, t, Fill, s.b, FillTop(false), os);
  }

  lemma FillPhasesWork(s: State, t: nat, b: Book, c: Conn, acq: bool, os: seq<Outcome>)
    requires t < |s.ts|
    ensures Steps(Put(s, t, b, FillBuilding(c, Dial, acq)), t, [Good] + ([Good] + ([Good] + os)))
            == Steps(Put(s, t, b, FillBuilding(c, Hook, acq)), t, os)
  {
    Goes(s, t, b, FillBuilding(c, Dial, acq), Good, [Good] + ([Good] + os), b, FillBuilding(c, Greet, acq));
    Goes(s, t, b, FillBuilding(c, Greet, acq), Good, [Good] + os, b, FillBuilding(c, SetUp, acq));
    Goes(s, t, b, FillBuilding(c, SetUp, acq), Good, os, b, FillBuilding(c, Hook, acq));
  }

  lemma FillCounts(s: State, t: nat, b: Book, acq: bool, o: Outcome, os: seq<Outcome>)
    requires t < |s.ts| && !b.closed && b.created < s.minSize && !o.Abort?
    ensures Steps(Put(s, t, b, FillTop(acq)), t, [o] + ([Good] + os))
            == Steps(Put(Opened(s), t, b.(created := b.created + 1), FillBuilding(s.nextId, Dial, acq)), t, os)
  {
    Goes(s, t, b, FillTop(acq), o, [Good] + os, b.(created := b.created + 1), FillConnecting(acq));
    Opens(s, t, b.(created := b.created + 1), FillConnecting(acq), Good, os, FillBuilding(s.nextId, Dial, acq));
  }

  /** One pre-create: a new connection at the end of the idle queue, counted. */
  lemma FillsOne(s: State, t: nat, b: Book, acq: bool, o: Outcome)
    requires t < |s.ts| && !b.closed && b.created < s.minSize && !o.Abort?
    ensures Steps(Put(s, t, b, FillTop(acq)), t, [o] + ([Good] + ([Good] + ([Good] + ([Good] + ([Good] + []))))))
            == Put(Opened(s), t, b.(created := b.created + 1, idle := b.idle + [s.nextId]), FillTop(acq))
  {
    FillCounts(s, t, b, acq, o, [Good] + ([Good] + ([Good] + ([Good] + []))));
    var b' := b.(created := b.created + 1);
    FillPhasesWork(Opened(s), t, b', s.nextId, acq, [Good] + []);
    Goes(Opened(s), t, b', FillBuilding(s.nextId, Hook, acq), Good, [], b'.(idle := b'.idle + [s.nextId]), FillTop(acq));
  }

  /** A pool with `min_size` connections, or a closed one, gets no more: a pre-create of its own
      ends, and one inside `acquire` goes on there. */
  lemma FillsNone(s: State, t: nat, b: Book, acq: bool, o: Outcome)
    requires t < |s.ts| && s.ts[t] == Out && (b.closed || b.created >= s.minSize) && !o.Abort?
    ensures Steps(Put(s, t, b, FillTop(acq)), t, [o] + []) == if acq then Put(s, t, b, AcqLock) else s.(b := b)
  {
    Goes(s, t, b, FillTop(acq), o, [], b, AfterFill(acq));
    if !acq {
      Ends(s, t, b);
    }
  }

  lemma SweepTests(s: State, t: nat, b: Book, left: nat, o: Outcome, os: seq<Outcome>)
    requires t < |s.ts| && !b.closed && b.idle != [] && b.idle[0] !in b.reserving && left > 0 && !o.Abort?
    ensures Steps(Put(s, t, b, SweepTop(left)), t, [o] + os)
            == Steps(Put(s, t, b.(idle := b.idle[1..], reserving := b.reserving + [b.idle[0]]), SweepTesting(b.idle[0], left - 1)), t, os)
  {
    Goes(s, t, b, SweepTop(left), o, os, b.(idle := b.idle[1..], reserving := b.reserving + [b.idle[0]]),
         SweepTesting(b.idle[0], left - 1));
  }

  lemma SweepReturns(s: State, t: nat, b: Book, c: Conn, left: nat)
    requires t < |s.ts| && !b.closed && c !in b.reserving
    ensures Steps(Put(s, t, b.(reserving := b.reserving + [c]), SweepTesting(c, left)), t, [Good] + [])
            == Put(s, t, b.(idle := b.idle + [c]), SweepTop(left))
  {
    Unreserved(b.reserving, c);
    Goes(s, t, b.(reserving := b.reserving + [c]), SweepTesting(c, left), Good, [], b.(idle := b.idle + [c]), SweepTop(left));
  }

  /** The sweep takes the head of the queue; a healthy connection goes to the end, ... */
  lemma SweepKeeps(s: State, t: nat, b: Book, left: nat, o: Outcome)
    requires t < |s.ts| && !b.closed && b.idle != [] && b.idle[0] !in b.reserving && left > 0 && !o.Abort?
    ensures Steps(Put(s, t, b, SweepTop(left)), t, [o] + ([Good] + []))
            == Put(s, t, b.(idle := b.idle[1..] + [b.idle[0]]), SweepTop(left - 1))
  {
    SweepTests(s, t, b, left, o, [Good] + []);
    SweepReturns(s, t, b.(idle := b.idle[1..]), b.idle[0], left - 1);
  }

  lemma SweepFails(s: State, t: nat, b: Book, c: Conn, left: nat, os: seq<Outcome>)
    requires t < |s.ts| && b.created > 0 && c !in b.reserving
    ensures Steps(Put(s, t, b.(reserving := b.reserving + [c]), SweepTesting(c, left)), t, [Bad] + os)
            == Steps(Put(s, t, b.(created := b.created - 1), SweepClosing(c, left, true)), t, os)
  {
    Unreserved(b.reserving, c);
    Goes(s, t, b.(reserving := b.reserving + [c]), SweepTesting(c, left), Bad, os, b.(created := b.created - 1),
         SweepClosing(c, left, true));
  }

  lemma SweepCloses(s: State, t: nat, b: Book, c: Conn, left: nat, o: Outcome)
    requires t < |s.ts| && b.created > 0 && c !in b.reserving && !o.Abort?
    ensures Steps(Put(s, t, b.(reserving := b.reserving + [c]), SweepTesting(c, left)), t, [Bad] + ([o] + []))
            == Put(Closed(s, c), t, b.(created := b.created - 1), SweepTop(left))
  {
    var b' := b.(created := b.created - 1);
    SweepFails(s, t, b, c, left, [o] + []);
    Closes(s, t, b', SweepClosing(c, left, true), o, [], b', SweepTop(left), c);
  }

  /** ... any other is closed and its place is free again, ... */
  lemma SweepDrops(s: State, t: nat, b: Book, left: nat, o1: Outcome, o2: Outcome)
    requires t < |s.ts| && !b.closed && b.idle != [] && b.idle[0] !in b.reserving && left > 0 && b.created > 0
    requires !o1.Abort? && !o2.Abort?
    ensures Steps(Put(s, t, b, SweepTop(left)), t, [o1] + ([Bad] + ([o2] + [])))
            == Put(Closed(s, b.idle[0]), t, b.(idle := b.idle[1..], created := b.created - 1), SweepTop(left - 1))
  {
    SweepTests(s, t, b, left, o1, [Bad] + ([o2] + []));
    SweepCloses(s, t, b.(idle := b.idle[1..]), b.idle[0], left - 1, o2);
  }

  /** ... and the sweep is over after as many tests as there were idle connections. */
  lemma SweepStarts(s: State, t: nat, os: seq<Outcome>)
    requires t < |s.ts| && s.ts[t] == Out
    ensures Call(s, t, Sweep, os) == Steps(Put(s, t, s.b, SweepTop(|s.b.idle|)), t, os)
  {
    Enters(s, t, Sweep, s.b, SweepTop(|s.b.idle|), os);
  }

  lemma SweepEnds(s: State, t: nat, b: Book, o: Outcome)
    requires t < |s.ts| && s.ts[t] == Out
    ensures Steps(Put(s, t, b, SweepTop(0)), t, [o] + []) == s.(b := b)
  {
    Goes(s, t, b, SweepTop(0), o, [], b, Out);
    Ends(s, t, b);
  }

  // ----- close_all ---------------------------------------------------------------------------

  lemma {:induction false} ClosesList(s: State, t: nat, b: Book, cs: seq<Conn>, os: seq<Outcome>)
    requires t < |s.ts| && s.ts[t] == Out && |os| == |cs| + 1
    ensures Steps(Put(s, t, b, Shutting(cs)), t, os) == s.(b := b, live := s.live - Members(cs))
    decreases |cs|
  {
    assert os == [os[0]] + os[1..];
    if cs == [] {
      assert os[1..] == [] && s.live - {} == s.live;
      Goes(s, t, b, Shutting([]), os[0], [], b, Out);
      Ends(s, t, b);
    } else {
      Closes(s, t, b, Shutting(cs), os[0], os[1..], b, Shutting(cs[1..]), cs[0]);
      ClosesList(Closed(s, cs[0]), t, b, cs[1..], os[1..]);
      assert s.live - {cs[0]} - Members(cs[1..]) == s.live - Members(cs);
    }
  }

  /** `close_all` closes every idle and every lent connection and empties the books; what is
      being validated stays with its task. */
  lemma CloseAllCloses(s: State, t: nat, os: seq<Outcome>)
    requires t < |s.ts| && s.ts[t] == Out && |os| == |s.b.idle| + |s.b.out| + 1
    ensures Call(s, t, Shutdown, os)
            == s.(b := Book([], 0, [], s.b.reserving, true), live := s.live - Members(s.b.idle + s.b.out))
  {
    Enters(s, t, Shutdown, Shut(s.b), Shutting(s.b.idle + s.b.out), os);
    ClosesList(s, t, Shut(s.b), s.b.idle + s.b.out, os);
  }
}
