/** Reading message bodies from the stream, as the two protocol parsers do, each method
    against the framing function it implements. */
module FrameReads {
  import opened Wire
  import opened Messages
  import opened Streams

  /** A value is what the parser yields, and the stream stands where the parser stops; an
      error means that the parser is stuck or that a receive failed. */
  ghost predicate Agrees<T>(p: Parse<T>, r: Reply<T>, now: Bytes, faulted: bool) {
    match r
    case Value(v) => p == Got(v, now)
    case Raised(_) => p == Stuck || faulted
  }

  /** What every read keeps; only an error closes the stream. */
  twostate predicate Keeps<T>(s: NzBufferedStream, new r: Reply<T>)
    reads s
  {
    s.Valid() && s.buffer == old(s.buffer) && (old(s.faulted) ==> s.faulted) && (r.Value? ==> s.open)
  }

  /** The same, and no more is left to receive than before. */
  twostate predicate Receives<T>(s: NzBufferedStream, new r: Reply<T>)
    reads s
  {
    Keeps(s, r) && (old(s.wire) == [] ==> s.wire == [])
  }

  method ReadN(s: NzBufferedStream, n: int) returns (r: Reply<Bytes>)
    requires s.Valid() && s.open
    modifies s, s.buffer
    ensures Receives(s, r) && Agrees(Take(old(s.Pending()), n), r, s.Pending(), s.faulted)
  {
    r := s.Read(n);
  }

  /** A body read through the view methods, as row messages are. */
  method ReadNView(s: NzBufferedStream, n: int) returns (r: Reply<Bytes>)
    requires s.Valid() && s.open
    modifies s, s.buffer
    ensures Receives(s, r) && Agrees(Take(old(s.Pending()), n), r, s.Pending(), s.faulted)
  {
    var view, none := s.ReadViewSync(n);
    if view.Raised? { return Raised(view.e); }
    if !none { return Value(view.v.a[view.v.lo..view.v.hi]); }
    ghost var bytes;
    var slow;
    slow, bytes := s.ReadView(n);
    if slow.Raised? { return Raised(slow.e); }
    return Value(slow.v.a[slow.v.lo..slow.v.hi]);
  }

  /** A header read: from the buffer if it is all there, else by `_read`. */
  method ReadNSync(s: NzBufferedStream, n: int) returns (r: Reply<Bytes>)
    requires s.Valid() && s.open
    modifies s, s.buffer
    ensures Receives(s, r) && s.ReadOutcome(n, r)
    ensures Agrees(Take(old(s.Pending()), n), r, s.Pending(), s.faulted)
  {
    var view, none := s.ReadViewSync(n);
    if view.Raised? { return Raised(view.e); }
    if !none { return Value(view.v.a[view.v.lo..view.v.hi]); }
    r := s.Read(n);
  }

  method ReadInt(s: NzBufferedStream) returns (r: Reply<int>)
    requires s.Valid() && s.open
    modifies s, s.buffer
    ensures Receives(s, r) && Agrees(Int(old(s.Pending())), r, s.Pending(), s.faulted)
  {
    var b :- ReadN(s, 4);
    return Value(I32(b));
  }

  method ReadShort(s: NzBufferedStream) returns (r: Reply<int>)
    requires s.Valid() && s.open
    modifies s, s.buffer
    ensures Receives(s, r) && Agrees(Short(old(s.Pending())), r, s.Pending(), s.faulted)
  {
    var b :- ReadN(s, 2);
    return Value(I16(b));
  }

  method ReadSized(s: NzBufferedStream) returns (r: Reply<Bytes>)
    requires s.Valid() && s.open
    modifies s, s.buffer
    ensures Receives(s, r) && Agrees(Sized(old(s.Pending())), r, s.Pending(), s.faulted)
  {
    var n :- ReadInt(s);
    r := ReadN(s, n);
  }

  method ReadDrainSized(s: NzBufferedStream) returns (r: Reply<Bytes>)
    requires s.Valid() && s.open
    modifies s, s.buffer
    ensures Receives(s, r) && Agrees(DrainSized(old(s.Pending())), r, s.Pending(), s.faulted)
  {
    var n :- ReadInt(s);
    if n > 0 {
      r := ReadN(s, n);
    } else {
      r := Value([]);
    }
  }

  method ReadRowPayload(s: NzBufferedStream) returns (r: Reply<Bytes>)
    requires s.Valid() && s.open
    modifies s, s.buffer
    ensures Receives(s, r) && Agrees(RowPayload(old(s.Pending())), r, s.Pending(), s.faulted)
  {
    var inner :- ReadNSync(s, 8);
    r := ReadNView(s, I32(inner[4..8]));
  }

  method ReadUntilNul(s: NzBufferedStream) returns (r: Reply<()>)
    requires s.Valid() && s.open
    modifies s, s.buffer
    ensures Receives(s, r) && Agrees(UntilNul(old(s.Pending())), r, s.Pending(), s.faulted)
  {
    while true
      invariant s.Valid() && s.open && s.buffer == old(s.buffer)
      invariant (old(s.wire) == [] ==> s.wire == []) && (old(s.faulted) ==> s.faulted)
      invariant UntilNul(old(s.Pending())) == UntilNul(s.Pending())
      decreases |s.Pending()|
    {
      var c :- ReadN(s, 1);
      if c[0] == 0 { return Value(()); }
    }
  }

  method ReadFileName(s: NzBufferedStream) returns (r: Reply<()>)
    requires s.Valid() && s.open
    modifies s, s.buffer
    ensures Receives(s, r) && Agrees(FileName(old(s.Pending())), r, s.Pending(), s.faulted)
  {
    var first :- ReadN(s, 1);
    r := ReadUntilNul(s);
  }

  /** The loop of `getFileFromBE` (and of the drain): blocks until an empty one. */
  method ReadFileBlocks(s: NzBufferedStream) returns (r: Reply<()>)
    requires s.Valid() && s.open
    modifies s, s.buffer
    ensures Receives(s, r) && Agrees(FileBlocks(old(s.Pending())), r, s.Pending(), s.faulted)
  {
    while true
      invariant s.Valid() && s.open && s.buffer == old(s.buffer)
      invariant (old(s.wire) == [] ==> s.wire == []) && (old(s.faulted) ==> s.faulted)
      invariant FileBlocks(old(s.Pending())) == FileBlocks(s.Pending())
      decreases |s.Pending()|
    {
      var n :- ReadInt(s);
      if n == 0 { return Value(()); }
      var block :- ReadN(s, n);
    }
  }

  /** The loop of `receiveAndWriteDatatoExternal`. */
  method ReadUnload(s: NzBufferedStream) returns (r: Reply<()>)
    requires s.Valid() && s.open
    modifies s, s.buffer
    ensures Receives(s, r) && Agrees(Unload(old(s.Pending())), r, s.Pending(), s.faulted)
  {
    var lead :- ReadN(s, 4);
    ghost var start := s.Pending();
    assert Unload(old(s.Pending())) == UnloadBlocks(start);
    while true
      invariant s.Valid() && s.open && s.buffer == old(s.buffer)
      invariant (old(s.wire) == [] ==> s.wire == []) && (old(s.faulted) ==> s.faulted)
      invariant UnloadBlocks(start) == UnloadBlocks(s.Pending())
      decreases |s.Pending()|
    {
      ghost var here := s.Pending();
      var status :- ReadInt(s);
      if status == 1 {
        var block :- ReadSized(s);
      } else if status == 3 {
        return Value(());
      } else if status == 2 {
        r := ReadUnloadError(s);
        return;
      } else {
        return Value(());
      }
    }
  }

  function UnloadError(w: Bytes): Parse<()> {
    var (n, r1) :- Short(w);
    var (_, r2) :- Take(r1, n);
    var (m, r3) :- Short(r2);
    var (_, r4) :- Take(r3, m);
    Got((), r4)
  }

  method ReadUnloadError(s: NzBufferedStream) returns (r: Reply<()>)
    requires s.Valid() && s.open
    modifies s, s.buffer
    ensures Receives(s, r) && Agrees(UnloadError(old(s.Pending())), r, s.Pending(), s.faulted)
  {
    var n :- ReadShort(s);
    var message :- ReadN(s, n);
    var m :- ReadShort(s);
    var subject :- ReadN(s, m);
    return Value(());
  }

  /** The reading half of `xferTable`. */
  method ReadLoadRequest(s: NzBufferedStream) returns (r: Reply<()>)
    requires s.Valid() && s.open
    modifies s, s.buffer
    ensures Receives(s, r) && Agrees(LoadRequest(old(s.Pending())), r, s.Pending(), s.faulted)
  {
    var lead :- ReadN(s, 4);
    var name :- ReadFileName(s);
    var host :- ReadInt(s);
    var format :- ReadInt(s);
    var blockSize :- ReadInt(s);
    return Value(());
  }

  method ReadLogDir(s: NzBufferedStream) returns (r: Reply<()>)
    requires s.Valid() && s.open
    modifies s, s.buffer
    ensures Receives(s, r) && Agrees(LogDir(old(s.Pending())), r, s.Pending(), s.faulted)
  {
    var n :- ReadInt(s);
    var dir :- ReadN(s, n - 1);
    var pad :- ReadN(s, 1);
    return Value(());
  }

  method ReadLogFile(s: NzBufferedStream) returns (r: Reply<()>)
    requires s.Valid() && s.open
    modifies s, s.buffer
    ensures Receives(s, r) && Agrees(LogFile(old(s.Pending())), r, s.Pending(), s.faulted)
  {
    var dir :- ReadLogDir(s);
    var name :- ReadFileName(s);
    var kind :- ReadInt(s);
    r := ReadFileBlocks(s);
  }

  method ReadDrainLogFile(s: NzBufferedStream) returns (r: Reply<()>)
    requires s.Valid() && s.open
    modifies s, s.buffer
    ensures Receives(s, r) && Agrees(DrainLogFile(old(s.Pending())), r, s.Pending(), s.faulted)
  {
    var dir :- ReadLogDir(s);
    var name :- ReadUntilNul(s);
    var kind :- ReadInt(s);
    r := ReadFileBlocks(s);
  }

  method ReadOpenFile(s: NzBufferedStream) returns (r: Reply<Bytes>)
    requires s.Valid() && s.open
    modifies s, s.buffer
    ensures Receives(s, r) && Agrees(OpenFile(old(s.Pending())), r, s.Pending(), s.faulted)
  {
    var lead :- ReadN(s, 10);
    var more :- ReadN(s, 16);
    r := ReadSized(s);
  }

  method ReadDrainOpenFile(s: NzBufferedStream) returns (r: Reply<Bytes>)
    requires s.Valid() && s.open
    modifies s, s.buffer
    ensures Receives(s, r) && Agrees(DrainOpenFile(old(s.Pending())), r, s.Pending(), s.faulted)
  {
    var lead :- ReadN(s, 10);
    var more :- ReadN(s, 16);
    r := ReadDrainSized(s);
  }

  method NoValue(r: Reply<()>) returns (b: Reply<Bytes>)
    ensures b == match r case Value(_) => Value([]) case Raised(e) => Raised(e)
  {
    b := if r.Value? then Value([]) else Raised(r.e);
  }

  /** The body of a message, dispatched on its code as `_read_result_frames` does. */
  method ReadFrame(s: NzBufferedStream, c: byte) returns (r: Reply<Bytes>)
    requires s.Valid() && s.open
    modifies s, s.buffer
    ensures Receives(s, r) && Agrees(Frame(c, old(s.Pending())), r, s.Pending(), s.faulted)
  {
    var unit: Reply<()>;
    if c == 0 || IsReady(c) {
      r := Value([]);
    } else if IsSized(c) {
      r := ReadSized(s);
    } else if c == Code('Y') {
      r := ReadRowPayload(s);
    } else if c == Code('u') {
      r := ReadOpenFile(s);
    } else if c == Code('U') {
      unit := ReadUnload(s);
      r := NoValue(unit);
    } else if c == Code('l') {
      unit := ReadLoadRequest(s);
      r := NoValue(unit);
    } else if c == Code('x') {
      r := ReadN(s, 4);
    } else if c == Code('e') {
      unit := ReadLogFile(s);
      r := NoValue(unit);
    } else {
      r := Raised(BadLength);
    }
  }

  /** The body of a message, dispatched on its code as `_drain_socket` does. */
  method ReadDrainFrame(s: NzBufferedStream, c: byte) returns (r: Reply<Bytes>)
    requires s.Valid() && s.open
    modifies s, s.buffer
    ensures Receives(s, r) && Agrees(DrainFrame(c, old(s.Pending())), r, s.Pending(), s.faulted)
  {
    var unit: Reply<()>;
    if c == Code('Y') {
      r := ReadRowPayload(s);
    } else if c == Code('u') {
      r := ReadDrainOpenFile(s);
    } else if c == Code('U') {
      unit := ReadUnload(s);
      r := NoValue(unit);
    } else if c == Code('l') {
      unit := ReadLoadRequest(s);
      r := NoValue(unit);
    } else if c == Code('x') {
      r := ReadN(s, 4);
    } else if c == Code('e') {
      unit := ReadDrainLogFile(s);
      r := NoValue(unit);
    } else {
      r := ReadDrainSized(s);
    }
  }
}
