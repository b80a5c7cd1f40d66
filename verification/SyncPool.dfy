/** The threaded connection pool: its bookkeeping, the lock regions that update it,
    and the class whose methods are those regions.

    `_lock` guards the bookkeeping and is never held across a connect, a ping, a rollback
    or a close, so each region is one atomic step and everything else happens between. */
module SyncPools {
  import opened Queues

  /** What `_lock` and `_sem` guard. `out` is `_checked_out` with its records, in insertion order. */
  datatype Book = Book(idle: seq<Conn>, created: nat, out: seq<Conn>, sem: nat, closed: bool)

  /** What a lock region tells the thread that ran it. */
  datatype Answer = Closed | Got(c: Conn) | Reserved | Nothing | Kept | Dropped | Refused

  /** `_created = max(0, _created - 1)`. */
  function Uncounted(b: Book): Book { b.(created := if b.created == 0 then 0 else b.created - 1) }

  function EmptyBook(maxSize: nat): Book { Book([], 0, [], maxSize, false) }

  // ----- what a region takes from the pool and gives to it ----------------------

  /** The connections the pool itself keeps. */
  ghost function Stored(b: Book): multiset<Conn> { multiset(b.idle) + multiset(b.out) }

  /** The counted places that are neither idle nor lent: those in the hands of threads. */
  function InHands(b: Book): int { b.created - |b.idle| - |b.out| }

  /** Connections, counted places and permits only change hands: the thread took `took` and
      `places`, gave `gave`, and `permits` of its permits went into `_sem` or the table. */
  ghost predicate Exchange(b: Book, b': Book, took: multiset<Conn>, gave: multiset<Conn>, places: int, permits: int) {
    && Stored(b) + gave == Stored(b') + took
    && InHands(b') == InHands(b) + places
    && b'.sem + |b'.out| == b.sem + |b.out| + permits
    && b'.closed == b.closed
  }

  function Taken(answer: Answer): multiset<Conn> { if answer.Got? then multiset{answer.c} else multiset{} }

  function Given(answer: Answer, c: Conn): multiset<Conn> { if answer.Kept? then multiset{c} else multiset{} }

  // ----- the lock regions, as functions of the bookkeeping ---------------------

  /** The region at the top of the `_checkout` loop. */
  function Look(b: Book, maxSize: nat): (Book, Answer) {
    if b.closed then (b, Closed)
    else if b.idle != [] then (b.(idle := b.idle[1..]), Got(b.idle[0]))
    else if b.created < maxSize then (b.(created := b.created + 1), Reserved)
    else (b, Nothing)
  }

  /** `_checkout_idle` after a successful validation. */
  function Adopt(b: Book, c: Conn): (Book, Answer) {
    if b.closed then (b, Closed) else (b.(out := b.out + [c]), Kept)
  }

  /** `_connect_reserved` after a successful connect. */
  function AdoptNew(b: Book, c: Conn): (Book, Answer) {
    if b.closed then (Uncounted(b), Closed) else (b.(out := b.out + [c]), Kept)
  }

  /** `_fill_idle` before a connect. */
  function FillReserve(b: Book, minSize: nat): (Book, Answer) {
    if b.closed || b.created >= minSize then (b, Nothing)
    else (b.(created := b.created + 1), Reserved)
  }

  /** `_fill_idle` after a successful connect. */
  function FillPublish(b: Book, c: Conn): (Book, Answer) {
    if b.closed then (Uncounted(b), Closed) else (b.(idle := b.idle + [c]), Kept)
  }

  /** `_sweep_idle` taking the next connection to test. */
  function SweepTake(b: Book): (Book, Answer) {
    if b.closed || b.idle == [] then (b, Nothing)
    else (b.(idle := b.idle[1..]), Got(b.idle[0]))
  }

  /** `_sweep_idle` returning a healthy connection. */
  function SweepReturn(b: Book, c: Conn): (Book, Answer) {
    if b.closed then (b, Closed) else (b.(idle := b.idle + [c]), Kept)
  }

  /** The first region of `release`. */
  function ReleaseTake(b: Book, c: Conn): (Book, Answer) {
    if c !in b.out then (b, Refused) else (b.(out := Without(b.out, c)), Got(c))
  }

  /** The second region of `release`. */
  function ReleasePut(b: Book, c: Conn, reusable: bool): (Book, Answer) {
    if !b.closed && reusable then (b.(idle := b.idle + [c]), Kept) else (Uncounted(b), Dropped)
  }

  /** `close_all`: everything is forgotten and every waiter gets a permit. */
  function Shut(b: Book, maxSize: nat): Book { Book([], 0, [], b.sem + maxSize, true) }

  // ----- the class ----------------------------------------------------------------

  class SyncPool {
    const minSize: nat
    const maxSize: nat
    var idle: seq<Conn>
    var created: nat
    var checkedOut: seq<Conn>
    var sem: nat
    var closed: bool

    function Snapshot(): Book
      reads this
    {
      Book(idle, created, checkedOut, sem, closed)
    }

    constructor (minSize: nat, maxSize: nat)
      requires minSize <= maxSize
      ensures Snapshot() == EmptyBook(maxSize)
      ensures this.minSize == minSize && this.maxSize == maxSize
    {
      this.minSize, this.maxSize := minSize, maxSize;
      idle, created, checkedOut, sem, closed := [], 0, [], maxSize, false;
    }

    method Uncount()
      modifies this`created
      ensures Snapshot() == Uncounted(old(Snapshot()))
      ensures old(created) > 0 ==> Exchange(old(Snapshot()), Snapshot(), multiset{}, multiset{}, -1, 0)
    {
      created := if created - 1 > 0 then created - 1 else 0;
    }

    method LookForOne() returns (answer: Answer)
      modifies this
      ensures (Snapshot(), answer) == Look(old(Snapshot()), maxSize)
      ensures Exchange(old(Snapshot()), Snapshot(), Taken(answer), multiset{}, if answer.Got? || answer.Reserved? then 1 else 0, 0)
      ensures answer.Got? ==> old(idle) == [answer.c] + idle
    {
      if closed { return Closed; }
      if |idle| > 0 {
        var pc := idle[0];
        assert idle == [pc] + idle[1..];
        idle := idle[1..];
        return Got(pc);
      } else if created < maxSize {
        created := created + 1;
        return Reserved;
      }
      return Nothing;
    }

    method AdoptValidated(c: Conn) returns (answer: Answer)
      modifies this
      ensures (Snapshot(), answer) == Adopt(old(Snapshot()), c)
      ensures Exchange(old(Snapshot()), Snapshot(), multiset{}, Given(answer, c),
                       if answer.Kept? then -1 else 0, if answer.Kept? then 1 else 0)
    {
      if closed { return Closed; }
      checkedOut := checkedOut + [c];
      return Kept;
    }

    method AdoptConnected(c: Conn) returns (answer: Answer)
      modifies this
      ensures (Snapshot(), answer) == AdoptNew(old(Snapshot()), c)
      ensures answer.Kept? || old(created) > 0 ==>
                Exchange(old(Snapshot()), Snapshot(), multiset{}, Given(answer, c), -1, if answer.Kept? then 1 else 0)
    {
      if closed {
        Uncount();
        return Closed;
      }
      checkedOut := checkedOut + [c];
      return Kept;
    }

    method ReserveFill() returns (answer: Answer)
      modifies this
      ensures (Snapshot(), answer) == FillReserve(old(Snapshot()), minSize)
      ensures Exchange(old(Snapshot()), Snapshot(), multiset{}, multiset{}, if answer.Reserved? then 1 else 0, 0)
    {
      if closed || created >= minSize { return Nothing; }
      created := created + 1;
      return Reserved;
    }

    method PublishFill(c: Conn) returns (answer: Answer)
      modifies this
      ensures (Snapshot(), answer) == FillPublish(old(Snapshot()), c)
      ensures answer.Kept? || old(created) > 0 ==>
                Exchange(old(Snapshot()), Snapshot(), multiset{}, Given(answer, c), -1, 0)
    {
      if closed {
        Uncount();
        return Closed;
      }
      idle := idle + [c];
      return Kept;
    }

    method TakeForSweep() returns (answer: Answer)
      modifies this
      ensures (Snapshot(), answer) == SweepTake(old(Snapshot()))
      ensures Exchange(old(Snapshot()), Snapshot(), Taken(answer), multiset{}, if answer.Got? then 1 else 0, 0)
      ensures answer.Got? ==> old(idle) == [answer.c] + idle
    {
      if closed || idle == [] { return Nothing; }
      var pc := idle[0];
      assert idle == [pc] + idle[1..];
      idle := idle[1..];
      return Got(pc);
    }

    method ReturnFromSweep(c: Conn) returns (answer: Answer)
      modifies this
      ensures (Snapshot(), answer) == SweepReturn(old(Snapshot()), c)
      ensures Exchange(old(Snapshot()), Snapshot(), multiset{}, Given(answer, c), if answer.Kept? then -1 else 0, 0)
    {
      if closed { return Closed; }
      idle := idle + [c];
      return Kept;
    }

    method TakeForRelease(c: Conn) returns (answer: Answer)
      modifies this
      ensures (Snapshot(), answer) == ReleaseTake(old(Snapshot()), c)
      ensures Exchange(old(Snapshot()), Snapshot(), Taken(answer), multiset{},
                       if answer.Got? then 1 else 0, if answer.Got? then -1 else 0)
    {
      if c !in checkedOut { return Refused; }
      WithoutOne(checkedOut, c);
      checkedOut := Without(checkedOut, c);
      return Got(c);
    }

    method PutAfterRelease(c: Conn, reusable: bool) returns (answer: Answer)
      modifies this
      ensures (Snapshot(), answer) == ReleasePut(old(Snapshot()), c, reusable)
      ensures answer.Kept? || old(created) > 0 ==>
                Exchange(old(Snapshot()), Snapshot(), multiset{}, Given(answer, c), -1, 0)
    {
      var keep := !closed && reusable;
      if keep {
        idle := idle + [c];
        return Kept;
      }
      Uncount();
      return Dropped;
    }

    /** `_sem.release()` after a `release`, or after an `acquire` that failed. */
    method ReleaseSlot()
      modifies this`sem
      ensures Snapshot() == old(Snapshot()).(sem := old(Snapshot()).sem + 1)
      ensures Exchange(old(Snapshot()), Snapshot(), multiset{}, multiset{}, 0, 1)
    {
      sem := sem + 1;
    }

    method CloseAll() returns (idleOnes: seq<Conn>, inUse: seq<Conn>)
      modifies this
      ensures Snapshot() == Shut(old(Snapshot()), maxSize)
      ensures idleOnes == old(idle) && inUse == old(checkedOut)
      ensures multiset(idleOnes) + multiset(inUse) == old(Stored(Snapshot())) && Stored(Snapshot()) == multiset{}
    {
      closed := true;
      idleOnes, inUse := idle, checkedOut;
      idle, created, checkedOut := [], 0, [];
      for i := 0 to maxSize
        invariant sem == old(sem) + i
        invariant closed && idle == [] && created == 0 && checkedOut == []
      {
        sem := sem + 1;
      }
    }
  }
}
