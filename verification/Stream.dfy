/** The reusable receive buffer under the protocol reader, refining a plain byte queue. */
module Streams {
  import opened Wire

  /** Why a read fails. A `Fault` is a socket error or a cancellation. */
  datatype Error = BadLength | StreamClosed | UnexpectedEof | Fault

  datatype Reply<+T> = Value(v: T) | Raised(e: Error) {
    predicate IsFailure() { Raised? }

    function PropagateFailure<U>(): Reply<U>
      requires Raised?
    {
      Raised(e)
    }

    function Extract(): T
      requires Value?
    {
      v
    }
  }

  /** A short-lived view of received bytes: a range of the receive buffer or of an array
      of its own. */
  datatype View = View(a: array<byte>, lo: nat, hi: nat)

  lemma SplitsAt(whole: Bytes, front: Bytes, back: Bytes)
    requires whole == front + back
    ensures whole[..|front|] == front && whole[|front|..] == back && |whole| == |front| + |back|
  {
  }

  /** The front of the queue when it is buffered. */
  lemma BufferedFront(buffered: Bytes, more: Bytes, n: nat)
    requires n <= |buffered|
    ensures (buffered + more)[..n] == buffered[..n] && (buffered + more)[n..] == buffered[n..] + more
  {
  }

  class NzBufferedStream {
    const maxSize: nat
    var buffer: array<byte>
    var head: nat
    var tail: nat
    var open: bool
    var partialRead: bool
    /** The bytes the peer sends that were not received yet; then it closes. */
    var wire: Bytes
    /** A receive has failed. */
    ghost var faulted: bool

    ghost predicate Valid()
      reads this
    {
      head <= tail <= buffer.Length && 0 < buffer.Length && 0 < maxSize
    }

    /** The byte queue: everything that was sent and not handed out yet. */
    ghost function Pending(): Bytes
      reads this, buffer
      requires Valid()
    {
      buffer[head..tail] + wire
    }

    constructor (maxSize: nat, bufferSize: nat, wire: Bytes)
      requires 0 < maxSize && 0 < bufferSize
      ensures Valid() && fresh(buffer) && buffer.Length == bufferSize && this.maxSize == maxSize
      ensures Pending() == wire && open && !partialRead && !faulted
    {
      this.maxSize := maxSize;
      buffer := new byte[bufferSize];
      head, tail, open, partialRead := 0, 0, true, false;
      this.wire := wire;
      faulted := false;
    }

    /** `recv_into`: some bytes, as many as the transport likes; none at the end of the
        stream or into no room; or a failure. */
    method RecvInto(dst: array<byte>, lo: nat, hi: nat) returns (r: Reply<nat>)
      requires lo <= hi <= dst.Length
      modifies this`wire, this`faulted, dst
      ensures (old(faulted) ==> faulted) && (old(wire) == [] ==> wire == [])
      ensures r.Raised? ==> r.e == Fault && faulted && wire == old(wire) && dst[..] == old(dst[..])
      ensures r.Value? ==> r.v <= hi - lo && faulted == old(faulted)
                           && r.v <= |old(wire)| && wire == old(wire)[r.v..]
                           && dst[..] == old(dst[..lo]) + old(wire)[..r.v] + old(dst[lo + r.v..])
      ensures r.Value? ==> dst[..lo + r.v] + wire == old(dst[..lo]) + old(wire)
      ensures r.Value? && r.v == 0 ==> lo == hi || old(wire) == []
    {
      var ok: bool := *;
      if !ok {
        faulted := true;
        return Raised(Fault);
      }
      var most := if |wire| < hi - lo then |wire| else hi - lo;
      if most == 0 {
        return Value(0);
      }
      var n: nat :| 0 < n <= most;
      var got := wire[..n];
      forall i | 0 <= i < n {
        dst[lo + i] := got[i];
      }
      wire := wire[n..];
      return Value(n);
    }

    /** Move the unread bytes to the front of the buffer. */
    method RotateBuffer()
      requires Valid()
      modifies this`head, this`tail, buffer
      ensures Valid() && head == 0 && tail == old(tail - head)
      ensures Pending() == old(Pending())
    {
      var avail := tail - head;
      if avail > 0 && head > 0 {
        forall i | 0 <= i < avail {
          buffer[i] := buffer[head + i];
        }
      }
      head, tail := 0, avail;
      assert buffer[0..avail] == old(buffer[head..tail]);
    }

    /** Receive into the room after the unread bytes. Called on an empty buffer it always
        has room, so receiving nothing means the end of the stream. */
    method FillBuffer() returns (r: Reply<()>)
      requires Valid()
      modifies this`head, this`tail, this`wire, this`faulted, buffer
      ensures Valid() && Pending() == old(Pending()) && (old(wire) == [] ==> wire == [])
      ensures old(faulted) ==> faulted
      ensures r.Raised? ==> r.e == Fault && faulted
      ensures r.Value? ==> faulted == old(faulted)
      ensures r.Value? && old(head == tail) && head == tail ==> Pending() == []
    {
      RotateBuffer();
      ghost var unread := buffer[..tail];
      assert buffer[head..tail] == unread;
      var n :- RecvInto(buffer, tail, buffer.Length);
      assert buffer[..tail + n] + wire == unread + old(wire);
      tail := tail + n;
      assert buffer[head..tail] == buffer[..tail];
      return Value(());
    }

    method HandleFatalEof()
      modifies this`open
      ensures !open
    {
      open := false;
    }

    /** What every read promises: the bytes at the front of the queue, in order, or an error.
        An error that leaves `partial_read` false has consumed nothing. */
    twostate predicate ReadOutcome(n: int, new r: Reply<Bytes>)
      requires old(Valid()) && Valid()
      reads this, buffer
    {
      && buffer == old(buffer) && (old(wire) == [] ==> wire == [])
      && (old(partialRead) ==> partialRead)
      && (old(faulted) ==> faulted)
      && (r.Value? ==> 0 <= n <= |old(Pending())| && n <= MAX_READ && r.v == old(Pending())[..n]
                       && Pending() == old(Pending())[n..]
                       && old(open) && open && partialRead == old(partialRead) && faulted == old(faulted))
      && (r.Raised? ==> |Pending()| <= |old(Pending())| && Pending() == old(Pending())[|old(Pending())| - |Pending()|..]
                        && (|Pending()| < |old(Pending())| ==> partialRead))
      && (r.Raised? && r.e == UnexpectedEof ==> n > |old(Pending())| && !open)
      && (r.Raised? && r.e == BadLength ==> n < 0 || n > MAX_READ)
      && (r.Raised? && r.e == StreamClosed ==> !old(open))
      && (r.Raised? && r.e == Fault ==> faulted)
    }

    method ReadViewSync(n: int) returns (r: Reply<View>, none: bool)
      requires Valid()
      modifies this`head
      ensures Valid()
      ensures n < 0 || n > MAX_READ <==> r == Raised(BadLength)
      ensures r.Raised? ==> r.e == BadLength
      ensures none || r.Raised? ==> head == old(head)
      ensures r.Value? && !none ==>
                r.v == View(buffer, old(head), head) && open && head == old(head) + n
                && n <= |old(Pending())| && buffer[r.v.lo..r.v.hi] == old(Pending())[..n] && Pending() == old(Pending())[n..]
      ensures r.Value? && none ==> !open || tail - head < n
    {
      none := false;
      if n < 0 || n > MAX_READ {
        return Raised(BadLength), false;
      }
      if !open {
        return Value(View(buffer, 0, 0)), true;
      }
      var avail := tail - head;
      if avail >= n {
        BufferedFront(buffer[head..tail], wire, n);
        head := head + n;
        return Value(View(buffer, head - n, head)), false;
      }
      return Value(View(buffer, 0, 0)), true;
    }

    /** Collect `n` bytes into an array of its own, refilling the buffer as needed. */
    method Collect(n: nat) returns (r: Reply<Bytes>, result: array<byte>)
      requires Valid() && open && tail - head < n <= MAX_READ
      modifies this, buffer
      ensures Valid() && ReadOutcome(n, r)
      ensures fresh(result) && (r.Value? ==> result[..] == r.v)
    {
      result := new byte[n];
      var bytesRead := 0;
      ghost var whole := Pending();
      while bytesRead < n
        invariant Valid() && buffer == old(buffer) && (old(wire) == [] ==> wire == []) && open && bytesRead <= n
        invariant partialRead == old(partialRead) && faulted == old(faulted)
        invariant whole == result[..bytesRead] + Pending()
        decreases n - bytesRead, |wire|
      {
        var got;
        got, bytesRead := CollectMore(result, bytesRead);
        if got.Raised? {
          SplitsAt(whole, result[..bytesRead], Pending());
          return Raised(got.e), result;
        }
      }
      assert result[..] == result[..n];
      SplitsAt(whole, result[..], Pending());
      return Value(result[..]), result;
    }

    /** One turn: what is buffered, then more from the socket if that is not enough. `count`
        bytes of the result are filled after it, also when it fails. */
    method CollectMore(result: array<byte>, bytesRead: nat) returns (r: Reply<()>, count: nat)
      requires Valid() && open && bytesRead < result.Length && result != buffer
      modifies this, buffer, result
      ensures Valid() && buffer == old(buffer) && (old(wire) == [] ==> wire == []) && bytesRead <= count <= result.Length
      ensures result[..count] + Pending() == old(result[..bytesRead]) + old(Pending())
      ensures r.Value? ==> open && partialRead == old(partialRead) && faulted == old(faulted)
                           && (count > bytesRead || |wire| < |old(wire)|)
      ensures r.Raised? ==> count < result.Length && partialRead == (old(partialRead) || count > 0)
      ensures r.Raised? ==> if r.e == UnexpectedEof then !open && Pending() == [] && faulted == old(faulted)
                            else r.e == Fault && faulted
    {
      var toCopy := if result.Length - bytesRead < tail - head then result.Length - bytesRead else tail - head;
      CopyOut(result, bytesRead, toCopy);
      count := bytesRead + toCopy;
      r := Value(());
      if count < result.Length {
        r := Refill(count);
      }
    }

    /** Wait for more bytes; a failure after `bytesRead` bytes were consumed marks the stream. */
    method Refill(bytesRead: nat) returns (r: Reply<()>)
      requires Valid() && open && head == tail
      modifies this, buffer
      ensures Valid() && buffer == old(buffer) && Pending() == old(Pending()) && (old(wire) == [] ==> wire == [])
      ensures r.Value? ==> open && head < tail && partialRead == old(partialRead) && faulted == old(faulted)
      ensures r.Raised? ==> partialRead == (old(partialRead) || bytesRead > 0)
      ensures r.Raised? ==> if r.e == UnexpectedEof then !open && Pending() == [] && faulted == old(faulted)
                            else r.e == Fault && faulted
    {
      r := FillBuffer();
      if r.Value? && tail == head {
        HandleFatalEof();
        r := Raised(UnexpectedEof);
      }
      if r.Raised? && bytesRead > 0 {
        partialRead := true;
      }
    }

    method CopyOut(dst: array<byte>, at: nat, n: nat)
      requires Valid() && dst != buffer && at + n <= dst.Length && n <= tail - head
      modifies this`head, dst
      ensures Valid() && head == old(head) + n
      ensures dst[..at + n] + Pending() == old(dst[..at]) + old(Pending())
    {
      forall i | 0 <= i < n {
        dst[at + i] := buffer[head + i];
      }
      assert dst[..at + n] == old(dst[..at]) + buffer[head..head + n];
      head := head + n;
    }

    method ReadView(n: int) returns (r: Reply<View>, ghost bytes: Reply<Bytes>)
      requires Valid()
      modifies this, buffer
      ensures Valid() && ReadOutcome(n, bytes)
      ensures bytes.Raised? <==> r.Raised?
      ensures r.Raised? ==> r.e == bytes.e
      ensures r.Value? ==> r.v.lo <= r.v.hi <= r.v.a.Length && r.v.a[r.v.lo..r.v.hi] == bytes.v
                           && (r.v.a == buffer || fresh(r.v.a))
    {
      if n < 0 { return Raised(BadLength), Raised(BadLength); }
      if !open { return Raised(StreamClosed), Raised(StreamClosed); }
      if n > MAX_READ { return Raised(BadLength), Raised(BadLength); }
      if n == 0 {
        return Value(View(buffer, 0, 0)), Value([]);
      }
      if tail - head >= n {
        BufferedFront(buffer[head..tail], wire, n);
        head := head + n;
        return Value(View(buffer, head - n, head)), Value(buffer[head - n..head]);
      }
      var got, own := Collect(n);
      if got.Raised? { return Raised(got.e), got; }
      return Value(View(own, 0, n)), got;
    }

    method Read(n: int) returns (r: Reply<Bytes>)
      requires Valid()
      modifies this, buffer
      ensures Valid() && ReadOutcome(n, r)
    {
      if n < 0 { return Raised(BadLength); }
      if !open { return Raised(StreamClosed); }
      if n > MAX_READ { return Raised(BadLength); }
      if n == 0 { return Value([]); }
      if n > maxSize {
        r := ReadLarge(n);
        return r;
      }
      if tail - head >= n {
        BufferedFront(buffer[head..tail], wire, n);
        head := head + n;
        return Value(buffer[head - n..head]);
      }
      var result;
      r, result := Collect(n);
    }

    /** Receive straight into `result`, past the (empty) buffer. */
    method ReceiveInto(result: array<byte>, bytesRead: nat) returns (r: Reply<nat>)
      requires Valid() && open && head == tail && bytesRead < result.Length && result != buffer
      modifies this, result
      ensures Valid() && buffer == old(buffer) && head == tail && (old(wire) == [] ==> wire == [])
      ensures r.Value? ==> 0 < r.v <= result.Length - bytesRead && open
                           && result[..bytesRead + r.v] + Pending() == old(result[..bytesRead]) + old(Pending())
                           && partialRead == old(partialRead) && faulted == old(faulted)
      ensures r.Raised? ==> result[..] == old(result[..]) && Pending() == old(Pending())
                            && partialRead == (old(partialRead) || bytesRead > 0)
      ensures r.Raised? ==> if r.e == UnexpectedEof then !open && Pending() == [] && faulted == old(faulted)
                            else r.e == Fault && faulted
    {
      r := RecvInto(result, bytesRead, result.Length);
      if r.Value? && r.v == 0 {
        assert result[..] == old(result[..]);
        HandleFatalEof();
        r := Raised(UnexpectedEof);
      }
      if r.Raised? && bytesRead > 0 {
        partialRead := true;
      }
      assert buffer[head..tail] == [];
    }

    /** A read longer than the buffer size: the buffered bytes first, then straight from
        the socket into the result. */
    method ReadLarge(n: nat) returns (r: Reply<Bytes>)
      requires Valid() && open && n <= MAX_READ
      modifies this, buffer
      ensures Valid() && ReadOutcome(n, r)
    {
      var result := new byte[n];
      ghost var whole := Pending();
      var bytesRead := if n < tail - head then n else tail - head;
      CopyOut(result, 0, bytesRead);
      while bytesRead < n
        invariant Valid() && buffer == old(buffer) && (old(wire) == [] ==> wire == []) && open && bytesRead <= n
        invariant partialRead == old(partialRead) && faulted == old(faulted)
        invariant bytesRead < n ==> head == tail
        invariant whole == result[..bytesRead] + Pending()
      {
        var got := ReceiveInto(result, bytesRead);
        if got.Raised? {
          SplitsAt(whole, result[..bytesRead], Pending());
          return Raised(got.e);
        }
        bytesRead := bytesRead + got.v;
      }
      assert result[..] == result[..n];
      SplitsAt(whole, result[..], Pending());
      return Value(result[..]);
    }

    /** The bytes already received, as a view; none when the buffer is empty. */
    method ReadAvailableView() returns (view: View, none: bool)
      requires Valid()
      ensures none <==> head == tail || !open
      ensures !none ==> view == View(buffer, head, tail) && buffer[view.lo..view.hi] <= Pending()
    {
      if tail - head > 0 && open {
        return View(buffer, head, tail), false;
      }
      return View(buffer, 0, 0), true;
    }

    /** Consume bytes that were looked at through `ReadAvailableView`. */
    method AdvanceHead(n: nat)
      requires Valid() && n <= tail - head
      modifies this`head
      ensures Valid() && head == old(head) + n && Pending() == old(Pending())[n..]
    {
      BufferedFront(buffer[head..tail], wire, n);
      head := head + n;
    }

    method DiscardBufferedLeadingNulls() returns (n: nat)
      requires Valid() && open
      modifies this`head
      ensures Valid() && n <= |old(Pending())| && Pending() == old(Pending())[n..]
      ensures forall i | 0 <= i < n :: old(Pending())[i] == 0
      ensures head == tail || Pending()[0] != 0
    {
      n := 0;
      while head < tail && buffer[head] == 0
        invariant Valid() && head == old(head) + n
        invariant forall i | old(head) <= i < head :: buffer[i] == 0
      {
        head := head + 1;
        n := n + 1;
      }
    }
  }

  /** One call on the stream. `Look` reads the available view and advances past at most
      `k` of its bytes, as the batch fast path does. */
  datatype Call = Read(n: int) | ReadView(n: int) | ReadViewSync(n: int) | Look(k: nat)

  /** `front` and `back` are the two ends of `whole`. */
  predicate Ends(whole: Bytes, front: Bytes, back: Bytes) {
    |front| + |back| <= |whole| && front == whole[..|front|] && back == whole[|whole| - |back|..]
  }

  lemma EndsMore(whole: Bytes, front: Bytes, rest: Bytes, more: Bytes, back: Bytes)
    requires Ends(whole, front, rest) && |front| + |rest| == |whole| && Ends(rest, more, back)
    ensures Ends(whole, front + more, back)
  {
  }

  /** What a call promises: the bytes handed out and the queue are the ends of the old queue,
      with nothing between them unless the call failed and marked the stream. The buffered
      view may hand out nothing. */
  ghost predicate Handed(before: Bytes, r: Reply<Bytes>, after: Bytes, cut: bool) {
    && Ends(before, if r.Value? then r.v else [], after)
    && (r.Value? ==> |r.v| + |after| == |before|)
    && (r.Raised? && |after| < |before| ==> cut)
  }

  /** One call, and the bytes it handed out. */
  method Run(s: NzBufferedStream, call: Call) returns (r: Reply<Bytes>)
    requires s.Valid()
    modifies s, s.buffer
    ensures s.Valid() && s.buffer == old(s.buffer) && (old(s.partialRead) ==> s.partialRead)
    ensures Handed(old(s.Pending()), r, s.Pending(), s.partialRead)
  {
    match call
    case Read(n) =>
      r := s.Read(n);
    case ReadView(n) =>
      var view;
      ghost var bytes;
      view, bytes := s.ReadView(n);
      r := if view.Raised? then Raised(view.e) else Value(view.v.a[view.v.lo..view.v.hi]);
    case ReadViewSync(n) =>
      r := RunSync(s, n);
    case Look(k) =>
      r := RunLook(s, k);
  }

  method RunSync(s: NzBufferedStream, n: int) returns (r: Reply<Bytes>)
    requires s.Valid()
    modifies s`head
    ensures s.Valid() && s.buffer == old(s.buffer) && (old(s.partialRead) ==> s.partialRead)
    ensures Handed(old(s.Pending()), r, s.Pending(), s.partialRead)
  {
    var view, none := s.ReadViewSync(n);
    r := if view.Raised? then Raised(view.e) else Value(if none then [] else view.v.a[view.v.lo..view.v.hi]);
  }

  method RunLook(s: NzBufferedStream, k: nat) returns (r: Reply<Bytes>)
    requires s.Valid()
    modifies s`head
    ensures s.Valid() && s.buffer == old(s.buffer) && (old(s.partialRead) ==> s.partialRead)
    ensures Handed(old(s.Pending()), r, s.Pending(), s.partialRead)
  {
    var view, none := s.ReadAvailableView();
    if none || view.hi - view.lo < k {
      return Value([]);
    }
    var seen := view.a[view.lo..view.lo + k];
    BufferedFront(s.buffer[s.head..s.tail], s.wire, k);
    assert seen == s.buffer[s.head..s.tail][..k];
    s.AdvanceHead(k);
    return Value(seen);
  }

  /** After one more call of a session. */
  lemma OneMoreCall(whole: Bytes, handed: Bytes, here: Bytes, r: Reply<Bytes>, after: Bytes, cut: bool)
    requires Ends(whole, handed, here) && |handed| + |here| == |whole| && Handed(here, r, after, cut)
    ensures Ends(whole, if r.Value? then handed + r.v else handed, after)
    ensures r.Value? ==> |handed + r.v| + |after| == |whole|
    ensures r.Raised? && !cut ==> |handed| + |after| == |whole|
  {
    if r.Value? {
      EndsMore(whole, handed, here, r.v, after);
    } else {
      EndsMore(whole, handed, here, [], after);
      assert handed + [] == handed;
    }
  }

  /** Any mix of calls, for every way the bytes arrive: what was handed out is what the peer
      sent, in order, without loss or repeat, until a call fails; and a failed call that does
      not mark the stream lost nothing. */
  method Session(s: NzBufferedStream, calls: seq<Call>) returns (handed: Bytes, done: nat)
    requires s.Valid()
    modifies s, s.buffer
    ensures s.Valid() && done <= |calls|
    ensures Ends(old(s.Pending()), handed, s.Pending())
    ensures done == |calls| || !s.partialRead ==> |handed| + |s.Pending()| == |old(s.Pending())|
  {
    handed, done := [], 0;
    ghost var whole, here := s.Pending(), s.Pending();
    while done < |calls|
      invariant s.Valid() && s.buffer == old(s.buffer) && done <= |calls| && here == s.Pending()
      invariant Ends(whole, handed, here) && |handed| + |here| == |whole|
    {
      var r := Run(s, calls[done]);
      OneMoreCall(whole, handed, here, r, s.Pending(), s.partialRead);
      if r.Raised? { return; }
      handed := handed + r.v;
      here := s.Pending();
      done := done + 1;
    }
  }
}
