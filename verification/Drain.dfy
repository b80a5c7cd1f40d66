/** `_drain_socket` over the receive buffer: it ends as one of the ways `Drains` allows, and
    where the result reader would end when no row message is followed by a lone padding block. */
module Draining {
  import opened Options
  import opened Wire
  import opened Messages
  import opened Streams
  import opened FrameReads
  import opened DrainAgrees

  /** What the drain can do behind a header with code `c`. */
  ghost predicate DrainsBody(how: Arrival, c: byte, r: Bytes, out: Parse<()>) {
    if IsReady(c) then out == Got((), r)
    else
      match DrainFrame(c, r)
      case Stuck => out == Stuck
      case Got(_, r') =>
        || (MayStay(c, r') && Drains(how, r', out))
        || (MaySkip(how, c, r') && Drains(how, SkipNuls(r'), out))
  }

  /** What the drain can do with a header read ahead, or with none, before `pending`. */
  ghost predicate CanGoOn(how: Arrival, cached: Option<Bytes>, pending: Bytes, out: Parse<()>) {
    Drains(how, if cached.Some? then cached.value + pending else SkipNuls(pending), out)
  }

  /** Every way on from here is a way on from `start`. */
  ghost predicate OnTheWay(how: Arrival, start: Bytes, cached: Option<Bytes>, pending: Bytes) {
    forall out :: CanGoOn(how, cached, pending, out) ==> Drains(how, SkipNuls(start), out)
  }

  ghost predicate InMessage(how: Arrival, start: Bytes, c: byte, pending: Bytes) {
    forall out :: DrainsBody(how, c, pending, out) ==> Drains(how, SkipNuls(start), out)
  }

  /** Under `AllBuffered` nothing is left to receive. */
  ghost predicate Arrived(how: Arrival, s: NzBufferedStream)
    reads s
  {
    how.AllBuffered? ==> s.wire == []
  }

  lemma HeaderTaken(how: Arrival, start: Bytes, cached: Option<Bytes>, pending: Bytes, h: Bytes, r: Bytes)
    requires OnTheWay(how, start, cached, pending)
    requires Take(if cached.Some? then cached.value + pending else SkipNuls(pending), 5) == Got(h, r)
    ensures InMessage(how, start, h[0], r)
  {
    forall out | DrainsBody(how, h[0], r, out)
      ensures Drains(how, SkipNuls(start), out)
    {
      assert CanGoOn(how, cached, pending, out);
    }
  }

  lemma NoHeader(how: Arrival, start: Bytes, cached: Option<Bytes>, pending: Bytes)
    requires OnTheWay(how, start, cached, pending)
    requires Take(if cached.Some? then cached.value + pending else SkipNuls(pending), 5) == Stuck
    ensures Drains(how, SkipNuls(start), Stuck)
  {
    assert CanGoOn(how, cached, pending, Stuck);
  }

  /** Behind a body: any message may skip NUL bytes, a row may also go on at once. */
  lemma BodyTaken(how: Arrival, start: Bytes, c: byte, pending: Bytes)
    requires InMessage(how, start, c, pending) && !IsReady(c)
    ensures DrainFrame(c, pending) == Stuck ==> Drains(how, SkipNuls(start), Stuck)
    ensures DrainFrame(c, pending).Got? && MaySkip(how, c, DrainFrame(c, pending).rest) ==>
              OnTheWay(how, start, None, DrainFrame(c, pending).rest)
    ensures DrainFrame(c, pending).Got? && c == Code('Y') ==>
              var r := DrainFrame(c, pending).rest;
              forall h, r' | Take(r, 5) == Got(h, r') :: InMessage(how, start, h[0], r')
  {
    if DrainFrame(c, pending) == Stuck {
      assert DrainsBody(how, c, pending, Stuck);
    } else {
      var r := DrainFrame(c, pending).rest;
      if MaySkip(how, c, r) {
        forall out | CanGoOn(how, None, r, out)
          ensures Drains(how, SkipNuls(start), out)
        {
          assert DrainsBody(how, c, pending, out);
        }
      }
      if c == Code('Y') {
        forall h, r', out | Take(r, 5) == Got(h, r') && DrainsBody(how, h[0], r', out)
          ensures Drains(how, SkipNuls(start), out)
        {
          assert Drains(how, r, out);
          assert DrainsBody(how, c, pending, out);
        }
      }
    }
  }

  lemma {:induction false} SkipsMore(w: Bytes, n: nat)
    requires n <= |w| && forall i | 0 <= i < n :: w[i] == 0
    ensures SkipNuls(w[n..]) == SkipNuls(w)
  {
    if n > 0 {
      assert w[1..][n - 1..] == w[n..];
      SkipsMore(w[1..], n - 1);
    }
  }

  /** Skip NUL bytes one at a time, then take the rest of a header. */
  method SkipToHeader(s: NzBufferedStream) returns (h: Reply<Bytes>)
    requires s.Valid() && s.open
    modifies s, s.buffer
    ensures Receives(s, h) && Agrees(Take(SkipNuls(old(s.Pending())), 5), h, s.Pending(), s.faulted)
  {
    while true
      invariant s.Valid() && s.open && s.buffer == old(s.buffer)
      invariant (old(s.wire) == [] ==> s.wire == []) && (old(s.faulted) ==> s.faulted)
      invariant SkipNuls(old(s.Pending())) == SkipNuls(s.Pending())
      decreases |s.Pending()|
    {
      ghost var here := s.Pending();
      var b :- ReadN(s, 1);
      if b[0] != 0 {
        ghost var after := s.Pending();
        var more :- ReadN(s, 4);
        assert here[..5] == b + more && here[5..] == s.Pending();
        return Value(b + more);
      }
    }
  }

  /** The header behind a row: five buffered bytes as they are, or NUL bytes skipped first. */
  method HeaderAfterRow(ghost how: Arrival, s: NzBufferedStream, ghost start: Bytes, ghost before: Bytes) returns (h: Reply<Bytes>)
    requires s.Valid() && s.open
    requires InMessage(how, start, Code('Y'), before)
    requires DrainFrame(Code('Y'), before).Got? && DrainFrame(Code('Y'), before).rest == s.Pending()
    requires Arrived(how, s)
    modifies s, s.buffer
    ensures Receives(s, h)
    ensures h.Value? ==> |h.v| == 5 && InMessage(how, start, h.v[0], s.Pending()) && |s.Pending()| < |old(s.Pending())|
    ensures h.Raised? ==> s.faulted || Drains(how, SkipNuls(start), Stuck)
  {
    BodyTaken(how, start, Code('Y'), before);
    var view, none := s.ReadViewSync(5);
    if !none {
      h := Value(view.v.a[view.v.lo..view.v.hi]);
      return;
    }
    h := NextHeader(how, s, start);
  }

  /** The inner loop: row after row until a header that is not a row's, which is kept. */
  method DrainRows(ghost how: Arrival, s: NzBufferedStream, ghost start: Bytes) returns (h: Reply<Bytes>)
    requires s.Valid() && s.open && InMessage(how, start, Code('Y'), s.Pending())
    requires Arrived(how, s)
    modifies s, s.buffer
    ensures Receives(s, h)
    ensures h.Value? ==> |h.v| == 5 && InMessage(how, start, h.v[0], s.Pending()) && |s.Pending()| < |old(s.Pending())|
    ensures h.Raised? ==> s.faulted || Drains(how, SkipNuls(start), Stuck)
  {
    while true
      invariant s.Valid() && s.open && s.buffer == old(s.buffer)
      invariant (old(s.wire) == [] ==> s.wire == []) && (old(s.faulted) ==> s.faulted)
      invariant InMessage(how, start, Code('Y'), s.Pending()) && |s.Pending()| <= |old(s.Pending())|
      decreases |s.Pending()|
    {
      ghost var here := s.Pending();
      BodyTaken(how, start, Code('Y'), here);
      var payload :- ReadRowPayload(s);
      h := HeaderAfterRow(how, s, start, here);
      if h.Raised? || h.v[0] != Code('Y') { return; }
    }
  }

  /** The drain. Its two second deadline is a failure that may come before any message. */
  method DrainSocket(ghost how: Arrival, s: NzBufferedStream) returns (r: Reply<()>)
    requires s.Valid() && s.open
    requires Arrived(how, s)
    modifies s, s.buffer
    ensures s.Valid() && s.buffer == old(s.buffer)
    ensures (old(s.wire) == [] ==> s.wire == []) && (old(s.faulted) ==> s.faulted)
    ensures r.Value? ==> s.open && Drains(how, SkipNuls(old(s.Pending())), Got((), s.Pending()))
    ensures r.Raised? ==> !s.open && (s.faulted || Drains(how, SkipNuls(old(s.Pending())), Stuck))
  {
    r := DrainMessages(how, s);
    if r.Raised? {
      s.open := false;
    }
  }

  method DrainMessages(ghost how: Arrival, s: NzBufferedStream) returns (r: Reply<()>)
    requires s.Valid() && s.open
    requires Arrived(how, s)
    modifies s, s.buffer
    ensures Receives(s, r)
    ensures r.Value? ==> Drains(how, SkipNuls(old(s.Pending())), Got((), s.Pending()))
    ensures r.Raised? ==> s.faulted || Drains(how, SkipNuls(old(s.Pending())), Stuck)
  {
    ghost var start := s.Pending();
    var nuls := s.DiscardBufferedLeadingNulls();
    SkipsMore(start, nuls);
    var cached: Option<Bytes> := None;
    while true
      invariant s.Valid() && s.open && s.buffer == old(s.buffer)
      invariant (old(s.wire) == [] ==> s.wire == []) && (old(s.faulted) ==> s.faulted)
      invariant cached.Some? ==> |cached.value| == 5 && InMessage(how, start, cached.value[0], s.Pending())
      invariant cached.None? ==> OnTheWay(how, start, None, s.Pending())
      decreases |s.Pending()|
    {
      var late: bool := *;
      if late {
        s.faulted := true;
        return Raised(Fault);
      }
      var h: Bytes;
      if cached.Some? {
        h := cached.value;
        cached := None;
      } else {
        h :- NextHeader(how, s, start);
      }
      if IsReady(h[0]) {
        assert DrainsBody(how, h[0], s.Pending(), Got((), s.Pending()));
        return Value(());
      }
      cached :- DrainBody(how, s, start, h[0]);
    }
  }

  /** The body behind a header, and the header behind rows. */
  method DrainBody(ghost how: Arrival, s: NzBufferedStream, ghost start: Bytes, c: byte) returns (r: Reply<Option<Bytes>>)
    requires s.Valid() && s.open && !IsReady(c) && InMessage(how, start, c, s.Pending())
    requires Arrived(how, s)
    modifies s, s.buffer
    ensures Receives(s, r)
    ensures r.Value? && r.v.Some? ==>
              |r.v.value| == 5 && InMessage(how, start, r.v.value[0], s.Pending()) && |s.Pending()| < |old(s.Pending())|
    ensures r.Value? && r.v.None? ==> OnTheWay(how, start, None, s.Pending()) && |s.Pending()| < |old(s.Pending())|
    ensures r.Raised? ==> s.faulted || Drains(how, SkipNuls(start), Stuck)
  {
    if c == Code('Y') {
      var next :- DrainRows(how, s, start);
      return Value(Some(next));
    }
    BodyTaken(how, start, c, s.Pending());
    var payload :- ReadDrainFrame(s, c);
    return Value(None);
  }

  method NextHeader(ghost how: Arrival, s: NzBufferedStream, ghost start: Bytes) returns (h: Reply<Bytes>)
    requires s.Valid() && s.open && OnTheWay(how, start, None, s.Pending())
    requires Arrived(how, s)
    modifies s, s.buffer
    ensures Receives(s, h)
    ensures h.Value? ==> |h.v| == 5 && InMessage(how, start, h.v[0], s.Pending()) && |s.Pending()| < |old(s.Pending())|
    ensures h.Raised? ==> s.faulted || Drains(how, SkipNuls(start), Stuck)
  {
    h := SkipToHeader(s);
    if h.Value? {
      HeaderTaken(how, start, None, old(s.Pending()), h.v, s.Pending());
    } else if Take(SkipNuls(old(s.Pending())), 5) == Stuck {
      NoHeader(how, start, None, old(s.Pending()));
    }
  }

  /** The drain of a well-formed response, however its bytes arrive and whatever part of it
      is buffered: it stops at the byte where the result reader stops, unless a read fails.
      The condition on padding is needed: see `DrainBufferedResponse`. */
  method DrainResponse(s: NzBufferedStream, ghost x: Response) returns (r: Reply<()>)
    requires s.Valid() && s.open && x.Ok() && NoLonePadAfterRow(x.ms) && s.Pending() == x.Wire()
    modifies s, s.buffer
    ensures s.Valid()
    ensures r.Value? ==> ResultEnd(x.Wire()) == Got((), s.Pending()) && s.Pending() == x.next
    ensures r.Raised? ==> s.faulted
  {
    r := DrainSocket(Anyhow, s);
    ParsersAgreeExactly(x);
    if r.Value? {
      DrainConsumesAll(Anyhow, x, Got((), s.Pending()));
    } else if !s.faulted {
      DrainConsumesAll(Anyhow, x, Stuck);
    }
  }

  /** The same when the whole response is in the buffer, for every padding: unless its
      deadline passes, the drain succeeds if and only if no row message is followed by
      exactly one padding block. */
  method DrainBufferedResponse(s: NzBufferedStream, ghost x: Response) returns (r: Reply<()>)
    requires s.Valid() && s.open && x.Ok() && s.Pending() == x.Wire() && s.wire == []
    modifies s, s.buffer
    ensures s.Valid()
    ensures r.Value? ==> NoLonePadAfterRow(x.ms) && ResultEnd(x.Wire()) == Got((), s.Pending())
    ensures r.Raised? ==> s.faulted || !NoLonePadAfterRow(x.ms)
  {
    r := DrainSocket(AllBuffered, s);
    ParsersAgreeExactly(x);
    BufferedDrainExactly(x, if r.Value? then Got((), s.Pending()) else Stuck);
  }
}
