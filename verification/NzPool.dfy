/** The asyncio connection pool: its bookkeeping, the stretches between awaits that update
    it, and the class whose methods are those stretches.

    The event loop is single-threaded, so the code between two awaits is one atomic step. */
module NzPools {
  import opened Queues

  /** `out` is `_checked_out` in insertion order; `reserving` is the set of connections that
      left the idle queue and are being validated by the task that took them. */
  datatype Book = Book(idle: seq<Conn>, created: nat, out: seq<Conn>, reserving: seq<Conn>, closed: bool)

  datatype Answer = Closed | Got(c: Conn) | Reserved | Nothing | Kept | Dropped | Refused

  function Uncounted(b: Book): Book { b.(created := if b.created == 0 then 0 else b.created - 1) }

  // ----- what a stretch takes from the pool and gives to it ----------------------

  /** The connections the pool itself keeps. */
  ghost function Stored(b: Book): multiset<Conn> { multiset(b.idle) + multiset(b.out) }

  /** The counted places that are neither idle nor lent nor reserved: those being opened. */
  function InHands(b: Book): int { b.created - |b.idle| - |b.out| - |b.reserving| }

  /** Connections and counted places only change hands: the task took `took` (and `reserved`
      is what its reservations are now more by, `freed` what they are less by), gave `gave`,
      and has `places` more places for connections it opens. */
  ghost predicate Exchange(b: Book, b': Book, took: multiset<Conn>, gave: multiset<Conn>,
                           reserved: multiset<Conn>, freed: multiset<Conn>, places: int) {
    && Stored(b) + gave == Stored(b') + took
    && multiset(b.reserving) + reserved == multiset(b'.reserving) + freed
    && InHands(b') == InHands(b) + places
    && b'.closed == b.closed
  }

  function Taken(answer: Answer): multiset<Conn> { if answer.Got? then multiset{answer.c} else multiset{} }

  function Given(answer: Answer, c: Conn): multiset<Conn> { if answer.Kept? then multiset{c} else multiset{} }

  // ----- the stretches, as functions of the bookkeeping ---------------------------

  function Reserve(b: Book, c: Conn): Book { if c in b.reserving then b else b.(reserving := b.reserving + [c]) }

  function Unreserve(b: Book, c: Conn): Book { b.(reserving := Without(b.reserving, c)) }

  function EmptyBook(): Book { Book([], 0, [], [], false) }

  /** The condition region of `acquire`. It does not look at `_closed`. */
  function Look(b: Book, maxSize: nat): (Book, Answer) {
    if b.idle != [] then (Reserve(b.(idle := b.idle[1..]), b.idle[0]), Got(b.idle[0]))
    else if b.created < maxSize then (b.(created := b.created + 1), Reserved)
    else (b, Nothing)
  }

  /** `_connect_reserved` after the connection is open and the connect hook is done. */
  function AdoptNew(b: Book, c: Conn): (Book, Answer) {
    if b.closed then (Uncounted(b), Closed) else (b.(out := b.out + [c]), Kept)
  }

  /** The start of `_drop_owned`. */
  function DropOwned(b: Book, c: Conn): Book { Uncounted(Unreserve(b, c)) }

  /** `_checkout_idle` after a successful validation. */
  function CheckOut(b: Book, c: Conn): (Book, Answer) {
    if b.closed then (DropOwned(b, c), Closed)
    else var b' := Unreserve(b, c); (b'.(out := b'.out + [c]), Kept)
  }

  /** The head of the `_fill_idle` loop. */
  function FillReserve(b: Book, minSize: nat): (Book, Answer) {
    if b.closed || b.created >= minSize then (b, Nothing)
    else (b.(created := b.created + 1), Reserved)
  }

  /** `_fill_idle` after the connection is open and the connect hook is done. */
  function FillPublish(b: Book, c: Conn): (Book, Answer) {
    if b.closed then (Uncounted(b), Closed) else (b.(idle := b.idle + [c]), Kept)
  }

  /** `_sweep_idle` taking the next connection to test. */
  function SweepTake(b: Book): (Book, Answer) {
    if b.closed || b.idle == [] then (b, Nothing)
    else (Reserve(b.(idle := b.idle[1..]), b.idle[0]), Got(b.idle[0]))
  }

  /** `_sweep_idle` after a validation that ended with `healthy`. */
  function SweepReturn(b: Book, c: Conn, healthy: bool): (Book, Answer) {
    if healthy && !b.closed then var b' := Unreserve(b, c); (b'.(idle := b'.idle + [c]), Kept)
    else (DropOwned(b, c), Dropped)
  }

  /** The condition region of `release`. */
  function ReleaseRegion(b: Book, c: Conn, reusable: bool): (Book, Answer) {
    if b.closed then (b, Closed)
    else if c !in b.out then (b, Refused)
    else
      var b' := b.(out := Without(b.out, c));
      if !reusable then (Uncounted(b'), Dropped) else (b'.(idle := b'.idle + [c]), Kept)
  }

  /** The condition region of `close_all`. Validating tasks keep their reservations. */
  function Shut(b: Book): Book { Book([], 0, [], b.reserving, true) }

  lemma CheckOutMoves(b: Book, c: Conn)
    requires !b.closed && c in b.reserving
    ensures Exchange(b, CheckOut(b, c).0, multiset{}, multiset{c}, multiset{}, multiset{c}, 0)
  {
    WithoutOne(b.reserving, c);
    assert multiset(b.out + [c]) == multiset(b.out) + multiset{c};
  }

  lemma ReleaseMoves(b: Book, c: Conn, reusable: bool)
    requires !b.closed && c in b.out && b.created > 0
    ensures Exchange(b, ReleaseRegion(b, c, reusable).0, multiset{c}, if reusable then multiset{c} else multiset{},
                     multiset{}, multiset{}, 0)
  {
    WithoutOne(b.out, c);
    assert multiset(b.idle + [c]) == multiset(b.idle) + multiset{c};
  }

  class NzPool {
    const minSize: nat
    const maxSize: nat
    var idle: seq<Conn>
    var created: nat
    var checkedOut: seq<Conn>
    var reserving: seq<Conn>
    var closed: bool

    function Snapshot(): Book
      reads this
    {
      Book(idle, created, checkedOut, reserving, closed)
    }

    constructor (minSize: nat, maxSize: nat)
      requires minSize <= maxSize
      ensures Snapshot() == EmptyBook()
      ensures this.minSize == minSize && this.maxSize == maxSize
    {
      this.minSize, this.maxSize := minSize, maxSize;
      idle, created, checkedOut, reserving, closed := [], 0, [], [], false;
    }

    method AbandonSlot()
      modifies this`created
      ensures Snapshot() == Uncounted(old(Snapshot()))
      ensures old(created) > 0 ==>
                Exchange(old(Snapshot()), Snapshot(), multiset{}, multiset{}, multiset{}, multiset{}, -1)
    {
      created := if created - 1 > 0 then created - 1 else 0;
    }

    method AddReserving(c: Conn)
      modifies this`reserving
      ensures Snapshot() == Reserve(old(Snapshot()), c)
    {
      if c !in reserving {
        reserving := reserving + [c];
      }
    }

    method DropOwnedSlot(c: Conn)
      modifies this
      ensures Snapshot() == DropOwned(old(Snapshot()), c)
      ensures old(created) > 0 && c in old(reserving) ==>
                Exchange(old(Snapshot()), Snapshot(), multiset{}, multiset{}, multiset{}, multiset{c}, 0)
    {
      WithoutOne(reserving, c);
      reserving := Without(reserving, c);
      AbandonSlot();
    }

    method LookForOne() returns (answer: Answer)
      modifies this
      ensures (Snapshot(), answer) == Look(old(Snapshot()), maxSize)
      ensures answer.Got? ==> old(idle) == [answer.c] + idle
      ensures (answer.Got? ==> answer.c !in old(reserving)) ==>
                Exchange(old(Snapshot()), Snapshot(), Taken(answer), multiset{}, Taken(answer), multiset{},
                         if answer.Reserved? then 1 else 0)
    {
      if |idle| > 0 {
        var pc := idle[0];
        assert idle == [pc] + idle[1..];
        idle := idle[1..];
        AddReserving(pc);
        return Got(pc);
      } else if created < maxSize {
        created := created + 1;
        return Reserved;
      }
      return Nothing;
    }

    method AdoptConnected(c: Conn) returns (answer: Answer)
      modifies this
      ensures (Snapshot(), answer) == AdoptNew(old(Snapshot()), c)
      ensures answer.Kept? || old(created) > 0 ==>
                Exchange(old(Snapshot()), Snapshot(), multiset{}, Given(answer, c), multiset{}, multiset{}, -1)
    {
      if closed {
        AbandonSlot();
        return Closed;
      }
      checkedOut := checkedOut + [c];
      return Kept;
    }

    method CheckOutIdle(c: Conn) returns (answer: Answer)
      modifies this
      ensures (Snapshot(), answer) == CheckOut(old(Snapshot()), c)
      ensures c in old(reserving) && (answer.Kept? || old(created) > 0) ==>
                Exchange(old(Snapshot()), Snapshot(), multiset{}, Given(answer, c), multiset{}, multiset{c}, 0)
    {
      if closed {
        DropOwnedSlot(c);
        return Closed;
      }
      if c in reserving {
        CheckOutMoves(Snapshot(), c);
      }
      reserving := Without(reserving, c);
      checkedOut := checkedOut + [c];
      return Kept;
    }

    method ReserveFill() returns (answer: Answer)
      modifies this
      ensures (Snapshot(), answer) == FillReserve(old(Snapshot()), minSize)
      ensures Exchange(old(Snapshot()), Snapshot(), multiset{}, multiset{}, multiset{}, multiset{},
                       if answer.Reserved? then 1 else 0)
    {
      if closed || created >= minSize { return Nothing; }
      created := created + 1;
      return Reserved;
    }

    method PublishFill(c: Conn) returns (answer: Answer)
      modifies this
      ensures (Snapshot(), answer) == FillPublish(old(Snapshot()), c)
      ensures answer.Kept? || old(created) > 0 ==>
                Exchange(old(Snapshot()), Snapshot(), multiset{}, Given(answer, c), multiset{}, multiset{}, -1)
    {
      if closed {
        AbandonSlot();
        return Closed;
      }
      idle := idle + [c];
      return Kept;
    }

    method TakeForSweep() returns (answer: Answer)
      modifies this
      ensures (Snapshot(), answer) == SweepTake(old(Snapshot()))
      ensures answer.Got? ==> old(idle) == [answer.c] + idle
      ensures (answer.Got? ==> answer.c !in old(reserving)) ==>
                Exchange(old(Snapshot()), Snapshot(), Taken(answer), multiset{}, Taken(answer), multiset{}, 0)
    {
      if closed || idle == [] { return Nothing; }
      var pc := idle[0];
      assert idle == [pc] + idle[1..];
      idle := idle[1..];
      AddReserving(pc);
      return Got(pc);
    }

    method FinishSweepTest(c: Conn, healthy: bool) returns (answer: Answer)
      modifies this
      ensures (Snapshot(), answer) == SweepReturn(old(Snapshot()), c, healthy)
      ensures c in old(reserving) && (answer.Kept? || old(created) > 0) ==>
                Exchange(old(Snapshot()), Snapshot(), multiset{}, Given(answer, c), multiset{}, multiset{c}, 0)
    {
      if healthy && !closed {
        WithoutOne(reserving, c);
        reserving := Without(reserving, c);
        idle := idle + [c];
        return Kept;
      }
      DropOwnedSlot(c);
      return Dropped;
    }

    method PutBack(c: Conn, reusable: bool) returns (answer: Answer)
      modifies this
      ensures (Snapshot(), answer) == ReleaseRegion(old(Snapshot()), c, reusable)
      ensures old(created) > 0 ==>
                Exchange(old(Snapshot()), Snapshot(), if answer.Kept? || answer.Dropped? then multiset{c} else multiset{},
                         Given(answer, c), multiset{}, multiset{}, 0)
    {
      if closed { return Closed; }
      if c !in checkedOut { return Refused; }
      if created > 0 {
        ReleaseMoves(Snapshot(), c, reusable);
      }
      checkedOut := Without(checkedOut, c);
      if !reusable {
        AbandonSlot();
        return Dropped;
      }
      idle := idle + [c];
      return Kept;
    }

    method CloseAll() returns (idleOnes: seq<Conn>, inUse: seq<Conn>)
      modifies this
      ensures Snapshot() == Shut(old(Snapshot()))
      ensures idleOnes == old(idle) && inUse == old(checkedOut)
      ensures multiset(idleOnes) + multiset(inUse) == old(Stored(Snapshot())) && Stored(Snapshot()) == multiset{}
    {
      closed := true;
      idleOnes, inUse := idle, checkedOut;
      idle, checkedOut, created := [], [], 0;
    }
  }
}
