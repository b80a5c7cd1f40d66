/** What holds in every run of the threaded pool, for any number of threads and any
    interleaving: one owner per connection, exact counters, what an interrupt wastes, and the
    counting argument behind the wait in `_checkout`. */
module SyncPoolSafety {
  import opened Queues
  import opened SyncPools
  import opened SyncPoolRuns
  import opened Tally

  lemma StartInv(threads: nat, minSize: nat, maxSize: nat)
    requires minSize <= maxSize
    ensures Inv(Start(threads, minSize, maxSize))
  {
    var s := Start(threads, minSize, maxSize);
    SumOfNone(Counted, s.ts);
    SumOfNone(Slot, s.ts);
    forall c
      ensures Places(s, c) == 0
    {
      SumOfNone(Holding(c), s.ts);
    }
  }

  lemma StepKeepsInv(s: State, e: Event)
    requires Inv(s)
    ensures Inv(Next(s, e))
  {
    StepKeepsCustody(s, e);
    StepKeepsCounts(s, e);
  }

  lemma {:induction false} RunKeepsInv(s: State, es: seq<Event>)
    requires Inv(s)
    ensures Inv(Run(s, es))
    decreases es
  {
    if es != [] {
      StepKeepsInv(s, es[0]);
      RunKeepsInv(Next(s, es[0]), es[1..]);
    }
  }

  /** The state after any run of a new pool. */
  ghost predicate Reachable(s: State) {
    exists threads: nat, minSize: nat, maxSize: nat, es ::
      minSize <= maxSize && s == Run(Start(threads, minSize, maxSize), es)
  }

  lemma ReachableInv(s: State)
    requires Reachable(s)
    ensures Inv(s)
  {
    var threads: nat, minSize: nat, maxSize: nat, es :|
      minSize <= maxSize && s == Run(Start(threads, minSize, maxSize), es);
    StartInv(threads, minSize, maxSize);
    RunKeepsInv(Start(threads, minSize, maxSize), es);
  }

  // ----- before close ------------------------------------------------------------------

  /** `_created` is exactly the idle, the checked-out, the thread-owned and the wasted places,
      and the pool never opens or lends more than `max_size`. A wasted place has a wasted
      permit, and each wasted permit is one connection less that can be lent. */
  lemma CountersAreExact(s: State)
    requires Reachable(s) && !s.b.closed
    ensures s.b.created == |s.b.idle| + |s.b.out| + Sum(Counted, s.ts) + s.lost.places <= s.maxSize
    ensures s.b.sem + Sum(Slot, s.ts) + |s.b.out| + s.lost.slots == s.maxSize
    ensures s.lost.places <= s.lost.slots
  {
    ReachableInv(s);
  }

  /** A connection owned by a thread is in no queue and in no other thread's hands, and
      the two queues share nothing and repeat nothing. */
  lemma OneOwner(s: State, i: nat, j: nat, c: Conn)
    requires Reachable(s)
    ensures i < |s.ts| && c in Held(s.ts[i]) ==>
              c in s.live && c !in s.b.idle && c !in s.b.out &&
              (j < |s.ts| && j != i ==> c !in Held(s.ts[j]))
    ensures c in s.b.idle ==> c in s.live && c !in s.b.out && Times(s.b.idle, c) == 1
    ensures c in s.b.out ==> c in s.live && Times(s.b.out, c) == 1
  {
    ReachableInv(s);
    assert Places(s, c) == if c in s.live then 1 else 0;
    TimesWithout(s.b.idle, c, c);
    TimesWithout(s.b.out, c, c);
    if i < |s.ts| {
      SumHasShare(Holding(c), s.ts, i);
      TimesWithout(Held(s.ts[i]), c, c);
      if j < |s.ts| && j != i {
        TimesWithout(Held(s.ts[j]), c, c);
        SumHasBoth(Holding(c), s.ts, if i < j then i else j, if i < j then j else i);
      }
    }
  }

  // ----- what an interrupt wastes --------------------------------------------------------

  /** The thread works on connection `c` outside the lock, and nothing but its own next steps
      can close it: an opening outside the handshake, or a release in its rollback. */
  predicate Exposed(pc: Pc) { (pc.Building? && !pc.ph.Greet?) || (pc.FillBuilding? && !pc.ph.Greet?) || pc.Releasing? }

  /** The thread waits for the close of one connection. */
  predicate ClosesOne(pc: Pc) {
    pc.NewClosing? || pc.DropClosing? || pc.FillClosing? || pc.SweepClosing? || pc.ReleaseClosing?
  }

  /** What the next step of the thread wastes: nothing unless it is interrupted; then the
      connection it works on, unless a close of it was done, with the place and the permit
      of an unfinished release. */
  function Wasted(pc: Pc, a: Action): Waste {
    if !a.Proceed? || !a.o.Stop? then NONE
    else if Exposed(pc) then Waste(Members(Held(pc)), if pc.Releasing? then 1 else 0, if pc.Releasing? then 1 else 0)
    else if ClosesOne(pc) then Waste(if a.o.done then {} else Members(Held(pc)), 0, if pc.ReleaseClosing? then 1 else 0)
    else if pc.Shutting? then
      Waste(if a.o.done && pc.cs != [] then Members(pc.cs[1..]) else Members(pc.cs), 0, 0)
    else NONE
  }

  /** The same for all steps of a run. */
  ghost function AllWasted(s: State, es: seq<Event>): Waste
    decreases es
  {
    if es == [] then NONE
    else Joined(WastedAt(s, es[0]), AllWasted(Next(s, es[0]), es[1..]))
  }

  lemma StepWastes(s: State, pc: Pc, a: Action)
    ensures StepOf(s, pc, a).loses == Wasted(pc, a)
  {
    if |Held(pc)| == 1 {
      assert Members(Held(pc)) == {Held(pc)[0]} + Members([]);
    }
  }

  /** What one event of a run wastes. */
  function WastedAt(s: State, e: Event): Waste { if e.t < |s.ts| then Wasted(s.ts[e.t], e.a) else NONE }

  lemma NextWastes(s: State, e: Event)
    ensures Next(s, e).lost == Joined(s.lost, WastedAt(s, e))
  {
    if e.t < |s.ts| {
      StepWastes(s, s.ts[e.t], e.a);
    } else {
      assert s.lost.open + {} == s.lost.open;
    }
  }

  lemma JoinedTwice(u: Waste, v: Waste, w: Waste)
    ensures Joined(Joined(u, v), w) == Joined(u, Joined(v, w))
    ensures Joined(u, NONE) == u
  {
    assert u.open + v.open + w.open == u.open + (v.open + w.open);
    assert u.open + {} == u.open;
  }

  /** The connections without an owner, the places and the permits that are gone are exactly
      those that interrupts wasted. */
  lemma {:induction false} LostExactlyWhenInterrupted(s: State, es: seq<Event>)
    ensures Run(s, es).lost == Joined(s.lost, AllWasted(s, es))
    decreases es
  {
    if es == [] {
      JoinedTwice(s.lost, NONE, NONE);
    } else {
      var s' := Next(s, es[0]);
      NextWastes(s, es[0]);
      LostExactlyWhenInterrupted(s', es[1..]);
      JoinedTwice(s.lost, WastedAt(s, es[0]), AllWasted(s', es[1..]));
    }
  }

  /** Without interrupts nothing is ever wasted, whatever fails. */
  lemma {:induction false} NothingLostWithoutInterrupt(s: State, es: seq<Event>)
    requires forall e <- es :: e.a.Proceed? ==> !e.a.o.Stop?
    ensures Run(s, es).lost == s.lost
    decreases es
  {
    if es != [] {
      NextWastes(s, es[0]);
      JoinedTwice(s.lost, NONE, NONE);
      NothingLostWithoutInterrupt(Next(s, es[0]), es[1..]);
    }
  }

  /** What is wasted stays wasted, and the connections among it stay open. */
  lemma LostForGood(s: State, es: seq<Event>)
    requires Inv(s)
    ensures s.lost.open <= Run(s, es).lost.open <= Run(s, es).live
    ensures s.lost.places <= Run(s, es).lost.places && s.lost.slots <= Run(s, es).lost.slots
  {
    LostExactlyWhenInterrupted(s, es);
    RunKeepsInv(s, es);
    forall c <- Run(s, es).lost.open
      ensures c in Run(s, es).live
    {
      assert Places(Run(s, es), c) == if c in Run(s, es).live then 1 else 0;
    }
  }

  /** A wasted permit shrinks the pool for good: from then on, in every run, that many fewer
      connections are on loan or on their way to a borrower. */
  lemma WasteShrinksThePool(s: State, es: seq<Event>)
    requires Inv(s) && !Run(s, es).b.closed
    ensures |Run(s, es).b.out| + Sum(Slot, Run(s, es).ts) <= s.maxSize - s.lost.slots
  {
    RunKeepsInv(s, es);
    LostForGood(s, es);
    SizesStay(s, es);
  }

  lemma {:induction false} SizesStay(s: State, es: seq<Event>)
    ensures Run(s, es).maxSize == s.maxSize
    decreases es
  {
    if es != [] {
      SizesStay(Next(s, es[0]), es[1..]);
    }
  }

  /** Every other connection opened and not yet closed has an owner. */
  lemma NoOtherConnectionIsLost(s: State, c: Conn)
    requires Reachable(s) && c in s.live && c !in s.lost.open
    ensures c in s.b.idle || c in s.b.out || exists t :: 0 <= t < |s.ts| && c in Held(s.ts[t])
  {
    ReachableInv(s);
    assert Places(s, c) == 1;
    TimesWithout(s.b.idle, c, c);
    TimesWithout(s.b.out, c, c);
    if Sum(Holding(c), s.ts) > 0 {
      var t := SumWitness(Holding(c), s.ts);
      TimesWithout(Held(s.ts[t]), c, c);
    }
  }

  /** The next step of the thread gives its place in `_created` back. */
  predicate GivesBack(pc: Pc, a: Action) {
    a.Proceed? && (pc.ConnectFailed? || pc.Dropping? || pc.FillFailed? || pc.SweepDropping? ||
                   (pc.Releasing? && a.o.Bad?))
  }

  lemma GivesBackOne(s: State, pc: Pc, a: Action)
    requires GivesBack(pc, a)
    ensures Counted(pc) == 1
    ensures !s.b.closed && s.b.created >= 1 ==> StepOf(s, pc, a).b.created == s.b.created - 1
  {
  }

  /** The `max(0, _created - 1)` clamp never decides anything before close. */
  lemma ClampNeverFires(s: State, e: Event)
    requires Reachable(s) && !s.b.closed && e.t < |s.ts| && GivesBack(s.ts[e.t], e.a)
    ensures s.b.created >= 1 && Next(s, e).b.created == s.b.created - 1
  {
    CountersAreExact(s);
    SumHasShare(Counted, s.ts, e.t);
    GivesBackOne(s, s.ts[e.t], e.a);
  }

  /** The counting argument: when a thread in `_checkout` finds no idle connection and no
      free place, the sweep or a pre-create owns a counted place, so waiting is right. */
  lemma EmptyAndFullMeansUpkeep(s: State, t: nat) returns (u: nat)
    requires Reachable(s) && t < |s.ts| && s.ts[t].Looking?
    requires Look(s.b, s.maxSize).1 == Nothing
    ensures u < |s.ts| && UpkeepCount(s.ts[u]) == 1
  {
    ReachableInv(s);
    SumSplits(Counted, UpkeepCount, UserCount, s.ts);
    SumBelow(UserCount, Slot, s.ts, t);
    u := SumWitness(UpkeepCount, s.ts);
  }
}
