/** The external-table transfer: a lazy source of rows, or bytes in memory, cut into framed
    blocks; and the loop that puts such blocks together again. */
module ExternalTables {
  import opened Options
  import opened Wire
  import opened Messages
  import opened DrainAgrees
  import opened Streams
  import opened FrameReads
  import opened Rendering

  const SOURCE_PIECE_BYTES := 65536

  const ERROR_FIELD_MAX := 1000

  // ----- frames ----------------------------------------------------------------------------

  /** One data block behind a status word and its length, and what follows. */
  function PutBlock(block: Bytes, r: Bytes): Bytes
    requires |block| < 0x8000_0000
  {
    Enc32(1) + (Enc32(|block|) + (block + r))
  }

  function PutBlocks(blocks: seq<Bytes>, r: Bytes): Bytes
    requires AllFit(blocks)
  {
    if blocks == [] then r else PutBlock(blocks[0], PutBlocks(blocks[1..], r))
  }

  /** The lengths fit the four bytes of the frame. */
  predicate AllFit(blocks: seq<Bytes>) { forall i :: 0 <= i < |blocks| ==> |blocks[i]| < 0x8000_0000 }

  /** The receiver loop reads a block in one piece, so it takes no more than a read does. */
  predicate AllReadable(blocks: seq<Bytes>) { forall i :: 0 <= i < |blocks| ==> |blocks[i]| <= MAX_READ }

  function Flatten(blocks: seq<Bytes>): Bytes { if blocks == [] then [] else blocks[0] + Flatten(blocks[1..]) }

  /** The server's block size is kept: no block is empty or longer. */
  predicate InSize(blocks: seq<Bytes>, blockSize: nat) { forall i :: 0 <= i < |blocks| ==> 0 < |blocks[i]| <= blockSize }

  lemma {:induction false} BlocksThen(blocks: seq<Bytes>, a: Bytes, b: Bytes)
    requires AllFit(blocks)
    ensures PutBlocks(blocks, a) + b == PutBlocks(blocks, a + b)
  {
    if blocks != [] {
      BlocksThen(blocks[1..], a, b);
      var rest := PutBlocks(blocks[1..], a);
      assert (Enc32(1) + (Enc32(|blocks[0]|) + (blocks[0] + rest))) + b ==
             Enc32(1) + (Enc32(|blocks[0]|) + (blocks[0] + (rest + b)));
    }
  }

  lemma {:induction false} BlocksJoin(x: seq<Bytes>, y: seq<Bytes>, r: Bytes)
    requires AllFit(x) && AllFit(y)
    ensures AllFit(x + y) && PutBlocks(x + y, r) == PutBlocks(x, PutBlocks(y, r))
    ensures Flatten(x + y) == Flatten(x) + Flatten(y)
  {
    if x == [] {
      assert x + y == y;
      assert [] + Flatten(y) == Flatten(y);
    } else {
      assert (x + y)[1..] == x[1..] + y;
      BlocksJoin(x[1..], y, r);
      assert x[0] + (Flatten(x[1..]) + Flatten(y)) == (x[0] + Flatten(x[1..])) + Flatten(y);
    }
  }

  // ----- receiving --------------------------------------------------------------------------

  /** How a transfer ends: done, an error of the sender, a status the receiver does not know,
      or no status at all. The receiver returns normally from all of them. */
  datatype Ending = Finished | Reported(message: Bytes, subject: Bytes) | Unexpected(status: int) | BrokenOff

  /** What the receiver loop puts together, and how the transfer ended. */
  datatype Received = Received(data: Bytes, end: Ending)

  function PutEnd(end: Ending, r: Bytes): Bytes
    requires end.Finished? || (end.Reported? && |end.message| < 0x8000 && |end.subject| < 0x8000)
  {
    if end.Finished? then Enc32(3) + r
    else Enc32(2) + (Enc16(|end.message|) + (end.message + (Enc16(|end.subject|) + (end.subject + r))))
  }

  function MoreData(block: Bytes, p: Parse<Received>): Parse<Received> {
    match p
    case Stuck => Stuck
    case Got(x, r) => Got(x.(data := block + x.data), r)
  }

  function EndOf(status: int, w: Bytes): Parse<Received> {
    if status == 3 then Got(Received([], Finished), w)
    else if status == 2 then
      var (n, r1) :- Short(w);
      var (message, r2) :- Take(r1, n);
      var (m, r3) :- Short(r2);
      var (subject, r4) :- Take(r3, m);
      Got(Received([], Reported(message, subject)), r4)
    else Got(Received([], Unexpected(status)), w)
  }

  /** Less than a status word left: the read takes it, finds the end of the stream, and the
      loop ends as if the transfer were done. */
  function Unframe(w: Bytes): Parse<Received>
    decreases |w|
  {
    match Int(w)
    case Stuck => Got(Received([], BrokenOff), [])
    case Got(status, r) =>
      if status == 1 then
        var (block, r') :- Sized(r);
        MoreData(block, Unframe(r'))
      else EndOf(status, r)
  }

  lemma BlockFront(block: Bytes, r: Bytes)
    requires |block| < 0x8000_0000
    ensures Unframe(PutBlock(block, r)) == if |block| <= MAX_READ then MoreData(block, Unframe(r)) else Stuck
  {
    IntFront(1, Enc32(|block|) + (block + r));
    IntFront(|block|, block + r);
    if |block| <= MAX_READ {
      TakeFront(block, r);
    }
  }

  /** The loop takes the frames apart again, if and only if each block can be read in one
      piece (and what follows can be read). */
  lemma {:induction false} BlocksReceived(blocks: seq<Bytes>, r: Bytes)
    requires AllFit(blocks)
    ensures Unframe(PutBlocks(blocks, r)) ==
            if AllReadable(blocks) then MoreData(Flatten(blocks), Unframe(r)) else Stuck
    decreases |blocks|
  {
    if blocks == [] {
      NoData(Unframe(r));
    } else {
      BlocksReceived(blocks[1..], r);
      OneMoreBlock(blocks[0], PutBlocks(blocks[1..], r), Flatten(blocks[1..]), Unframe(r), AllReadable(blocks[1..]));
      ReadableFront(blocks);
    }
  }

  lemma OneMoreBlock(block: Bytes, rest: Bytes, data: Bytes, end: Parse<Received>, readable: bool)
    requires |block| < 0x8000_0000 && Unframe(rest) == if readable then MoreData(data, end) else Stuck
    ensures Unframe(PutBlock(block, rest)) == if |block| <= MAX_READ && readable then MoreData(block + data, end) else Stuck
  {
    BlockFront(block, rest);
    MoreTwice(block, data, end);
  }

  lemma ReadableFront(blocks: seq<Bytes>)
    requires blocks != []
    ensures AllReadable(blocks) <==> |blocks[0]| <= MAX_READ && AllReadable(blocks[1..])
  {
  }

  lemma NoData(p: Parse<Received>)
    ensures MoreData([], p) == p
  {
    if p.Got? {
      assert [] + p.val.data == p.val.data;
    }
  }

  lemma MoreTwice(a: Bytes, b: Bytes, p: Parse<Received>)
    ensures MoreData(a, MoreData(b, p)) == MoreData(a + b, p)
  {
    if p.Got? {
      assert a + (b + p.val.data) == (a + b) + p.val.data;
    }
  }

  lemma EndReceived(end: Ending, r: Bytes)
    requires end.Finished? || (end.Reported? && |end.message| < 0x8000 && |end.subject| < 0x8000)
    ensures Unframe(PutEnd(end, r)) == Got(Received([], end), r)
  {
    if end.Finished? {
      IntFront(3, r);
    } else {
      var r3 := Enc16(|end.subject|) + (end.subject + r);
      IntFront(2, Enc16(|end.message|) + (end.message + r3));
      FieldFront(end.message, r3);
      FieldFront(end.subject, r);
    }
  }

  /** A field behind its two-byte length. */
  lemma FieldFront(b: Bytes, r: Bytes)
    requires |b| < 0x8000
    ensures Short(Enc16(|b|) + (b + r)) == Got(|b|, b + r) && Take(b + r, |b|) == Got(b, r)
  {
    TakeFront(Enc16(|b|), b + r);
    TakeFront(b, r);
  }

  /** `receiveAndWriteDatatoExternal`: the data goes to a file, which is the result here. An
      `Exception` from the read of a status word is logged, and the loop ends; every other
      failure is raised. So a broken connection between two blocks looks like the end of the
      data, with the stream closed; `left` is what such a failure found still pending. */
  method ReceiveBlocks(s: NzBufferedStream) returns (r: Reply<Received>, ghost left: Bytes)
    requires s.Valid() && s.open
    modifies s, s.buffer
    ensures s.Valid() && s.buffer == old(s.buffer) && (old(s.faulted) ==> s.faulted)
    ensures r.Raised? ==> Unframe(old(s.Pending())) == Stuck || s.faulted
    ensures r.Value? && !r.v.end.BrokenOff? ==> s.open && Unframe(old(s.Pending())) == Got(r.v, s.Pending())
    ensures r.Value? && r.v.end.BrokenOff? ==> Unframe(old(s.Pending())) == MoreData(r.v.data, Unframe(left))
    ensures r.Value? && r.v.end.BrokenOff? && !s.faulted ==> !s.open && Unframe(left) == Got(Received([], BrokenOff), [])
  {
    var file: Bytes := [];
    left := s.Pending();
    ghost var whole := Unframe(s.Pending());
    NoData(whole);
    while true
      invariant s.Valid() && s.open && s.buffer == old(s.buffer) && (old(s.faulted) ==> s.faulted)
      invariant whole == MoreData(file, Unframe(s.Pending()))
      decreases |s.Pending()|
    {
      left := s.Pending();
      var status := s.Read(4);
      if status.Raised? {
        var cancelled: bool := *;
        r := if status.e == Fault && cancelled then Raised(Fault) else Value(Received(file, BrokenOff));
        return;
      }
      if I32(status.v) == 1 {
        var block := ReadSized(s);
        if block.Raised? { return Raised(block.e), left; }
        MoreTwice(file, block.v, Unframe(s.Pending()));
        file := file + block.v;
      } else {
        var end := ReceiveEnd(s, I32(status.v));
        assert file + [] == file;
        r := if end.Raised? then Raised(end.e) else Value(Received(file, end.v));
        return;
      }
    }
  }

  method ReceiveEnd(s: NzBufferedStream, status: int) returns (r: Reply<Ending>)
    requires s.Valid() && s.open
    modifies s, s.buffer
    ensures Keeps(s, r)
    ensures r.Value? ==> !r.v.BrokenOff? && EndOf(status, old(s.Pending())) == Got(Received([], r.v), s.Pending())
    ensures r.Raised? ==> EndOf(status, old(s.Pending())) == Stuck || s.faulted
  {
    if status == 3 { return Value(Finished); }
    if status != 2 { return Value(Unexpected(status)); }
    var n :- ReadShort(s);
    var message :- ReadN(s, n);
    var m :- ReadShort(s);
    var subject :- ReadN(s, m);
    return Value(Reported(message, subject));
  }

  // ----- sending ---------------------------------------------------------------------------

  /** The bytes written to the server. */
  class Outbound {
    var sent: Bytes

    constructor ()
      ensures sent == []
    {
      sent := [];
    }

    method Write(b: Bytes)
      modifies this
      ensures sent == old(sent) + b
    {
      sent := sent + b;
    }
  }

  /** What the transfer has sent since `before`: frames of `blocks` that hold `data`. */
  ghost predicate Sent(out: Outbound, before: Bytes, blocks: seq<Bytes>, data: Bytes, blockSize: nat)
    reads out
  {
    Framed(out.sent, before, blocks, data, blockSize)
  }

  predicate Framed(now: Bytes, before: Bytes, blocks: seq<Bytes>, data: Bytes, blockSize: nat) {
    AllFit(blocks) && InSize(blocks, blockSize) && Flatten(blocks) == data && now == before + PutBlocks(blocks, [])
  }

  lemma SentMore(x: seq<Bytes>, y: seq<Bytes>)
    requires AllFit(x) && AllFit(y)
    ensures AllFit(x + y) && PutBlocks(x, []) + PutBlocks(y, []) == PutBlocks(x + y, [])
    ensures Flatten(x + y) == Flatten(x) + Flatten(y)
  {
    BlocksJoin(x, y, []);
    BlocksThen(x, [], PutBlocks(y, []));
    assert [] + PutBlocks(y, []) == PutBlocks(y, []);
  }

  lemma OneBlock(block: Bytes)
    requires |block| < 0x8000_0000
    ensures PutBlocks([block], []) == Enc32(1) + (Enc32(|block|) + block) && Flatten([block]) == block
  {
    assert [block][1..] == [] && block + [] == block;
  }

  /** `_send_chunk`: all blocks of a chunk in one write. `blocks` is what they were cut into. */
  method SendChunk(out: Outbound, data: Bytes, blockSize: nat) returns (ghost blocks: seq<Bytes>)
    requires 0 < blockSize < 0x8000_0000
    modifies out
    ensures Sent(out, old(out.sent), blocks, data, blockSize)
    ensures |data| <= MAX_READ ==> AllReadable(blocks)
  {
    blocks := [];
    var frames: Bytes := [];
    var offset := 0;
    while offset < |data|
      invariant offset <= |data| && out.sent == old(out.sent)
      invariant AllFit(blocks) && InSize(blocks, blockSize)
      invariant |data| <= MAX_READ ==> AllReadable(blocks)
      invariant Flatten(blocks) == data[..offset] && frames == PutBlocks(blocks, [])
    {
      var end := if offset + blockSize <= |data| then offset + blockSize else |data|;
      var block := data[offset..end];
      OneBlock(block);
      SentMore(blocks, [block]);
      frames := frames + (Enc32(1) + (Enc32(|block|) + block));
      blocks := blocks + [block];
      assert data[..offset] + block == data[..end];
      offset := end;
    }
    assert data[..offset] == data;
    if frames != [] {
      out.Write(frames);
    }
    assert old(out.sent) + frames == out.sent;
  }

  /** More data behind what was sent. */
  lemma SentThen(before: Bytes, x: seq<Bytes>, y: seq<Bytes>)
    requires AllFit(x) && AllFit(y)
    ensures AllFit(x + y) && (before + PutBlocks(x, [])) + PutBlocks(y, []) == before + PutBlocks(x + y, [])
    ensures Flatten(x + y) == Flatten(x) + Flatten(y)
  {
    SentMore(x, y);
    assert (before + PutBlocks(x, [])) + PutBlocks(y, []) == before + (PutBlocks(x, []) + PutBlocks(y, []));
  }

  method SendMore(out: Outbound, data: Bytes, blockSize: nat, ghost before: Bytes, ghost blocks: seq<Bytes>, ghost sofar: Bytes)
    returns (ghost blocks': seq<Bytes>)
    requires 0 < blockSize < 0x8000_0000 && Sent(out, before, blocks, sofar, blockSize)
    modifies out
    ensures Sent(out, before, blocks', sofar + data, blockSize)
    ensures |data| <= MAX_READ && AllReadable(blocks) ==> AllReadable(blocks')
  {
    ghost var more := SendChunk(out, data, blockSize);
    SentThen(before, blocks, more);
    blocks' := blocks + more;
  }

  /** The in-memory source of `xferTable`, piece by piece. */
  method SendBytes(out: Outbound, source: Bytes, blockSize: nat) returns (ghost blocks: seq<Bytes>)
    requires 0 < blockSize < 0x8000_0000
    modifies out
    ensures Sent(out, old(out.sent), blocks, source, blockSize) && AllReadable(blocks)
  {
    blocks := [];
    assert out.sent + [] == out.sent;
    var offset := 0;
    while offset < |source|
      invariant offset <= |source| && Sent(out, old(out.sent), blocks, source[..offset], blockSize)
      invariant AllReadable(blocks)
    {
      var end := if offset + SOURCE_PIECE_BYTES <= |source| then offset + SOURCE_PIECE_BYTES else |source|;
      blocks := SendMore(out, source[offset..end], blockSize, old(out.sent), blocks, source[..offset]);
      assert source[..offset] + source[offset..end] == source[..end];
      offset := end;
    }
    assert source[..offset] == source;
  }

  /** How a character is written in the encoding of the load. */
  type Encoder = char -> Bytes

  function Encode(enc: Encoder, t: string): Bytes { if t == "" then [] else enc(t[0]) + Encode(enc, t[1..]) }

  lemma {:induction false} EncodeJoin(enc: Encoder, a: string, b: string)
    ensures Encode(enc, a + b) == Encode(enc, a) + Encode(enc, b)
  {
    if a == "" {
      assert a + b == b && [] + Encode(enc, b) == Encode(enc, b);
    } else {
      assert (a + b)[1..] == a[1..] + b;
      EncodeJoin(enc, a[1..], b);
      assert enc(a[0]) + (Encode(enc, a[1..]) + Encode(enc, b)) == (enc(a[0]) + Encode(enc, a[1..])) + Encode(enc, b);
    }
  }

  /** A batch is the next rows of the source. */
  predicate IsBatch(rows: seq<Row>, done: nat, batch: seq<Row>) {
    done + |batch| <= |rows| && batch == rows[done..done + |batch|]
  }

  /** `_batches` resumed behind `done` rows: it takes rows until a batch is full or the source
      ends. */
  method NextBatch(rows: seq<Row>, done: nat) returns (batch: seq<Row>)
    requires done <= |rows|
    ensures IsBatch(rows, done, batch) && |batch| <= BATCH_ROWS
    ensures |batch| < BATCH_ROWS ==> done + |batch| == |rows|
    ensures done % BATCH_ROWS == 0 ==> (done + |batch|) % BATCH_ROWS == 0 || done + |batch| == |rows|
  {
    batch := [];
    for i := done to |rows|
      invariant done + |batch| == i && IsBatch(rows, done, batch) && |batch| < BATCH_ROWS
    {
      batch := batch + [rows[i]];
      if |batch| >= BATCH_ROWS { return; }
    }
  }

  /** One load: where its bytes start, what is rendered, how, and in blocks of what size. */
  datatype Load = Load(before: Bytes, p: Plan, rows: seq<Row>, enc: Encoder, blockSize: nat) {
    predicate Ok() { p.columns != [] && 0 < blockSize < 0x8000_0000 }

    /** `now` is sent: one rendering of the first `k` rows, in frames. */
    ghost predicate SentUpto(now: Bytes, k: nat)
      requires Ok()
    {
      k <= |rows| && RenderedAs(p, rows[..k], 1).Good?
      && exists blocks :: Framed(now, before, blocks, Encode(enc, RenderedAs(p, rows[..k], 1).text), blockSize)
    }

    /** `e` is the first error of all the rows. */
    ghost predicate FailsWith(e: RowError)
      requires Ok()
    {
      RenderedAs(p, rows, 1) == Bad(e)
    }
  }

  lemma PrefixStep(x: Load, done: nat, batch: seq<Row>)
    requires x.Ok() && IsBatch(x.rows, done, batch)
    ensures var next := RenderedAs(x.p, x.rows[..done + |batch|], 1);
            && next == Then(RenderedAs(x.p, x.rows[..done], 1), RenderedAs(x.p, batch, done + 1))
            && (next.Bad? ==> RenderedAs(x.p, x.rows, 1) == next)
  {
    var rows := x.rows;
    RenderedJoin(x.p, rows[..done], batch, 1);
    assert rows[..done] + batch == rows[..done + |batch|];
    RenderedJoin(x.p, rows[..done + |batch|], rows[done + |batch|..], 1);
    assert rows[..done + |batch|] + rows[done + |batch|..] == rows;
  }

  /** One batch: rendered with its global row numbers, then sent unless a row has an error. */
  method SendBatch(out: Outbound, p: Plan, batch: seq<Row>, done: nat, enc: Encoder, blockSize: nat, ghost x: Load)
    returns (failure: Option<RowError>)
    requires x.Ok() && p == x.p && enc == x.enc && blockSize == x.blockSize
    requires batch != [] && IsBatch(x.rows, done, batch) && x.SentUpto(out.sent, done)
    modifies out
    ensures failure == None ==> x.SentUpto(out.sent, done + |batch|)
    ensures failure.Some? ==> out.sent == old(out.sent) && x.FailsWith(failure.value)
  {
    PrefixStep(x, done, batch);
    var chunk := Render(p, batch, done + 1);
    if chunk.Bad? { return Some(chunk.error); }
    ghost var text := RenderedAs(p, x.rows[..done], 1).text;
    EncodeJoin(enc, text, chunk.text);
    ghost var blocks :| Framed(out.sent, x.before, blocks, Encode(enc, text), blockSize);
    ghost var blocks' := SendMore(out, Encode(enc, chunk.text), blockSize, x.before, blocks, Encode(enc, text));
    assert Framed(out.sent, x.before, blocks', Encode(enc, text + chunk.text), blockSize);
    failure := None;
  }

  /** The next batch of the source, sent; `k'` rows are sent after it. */
  method SendNext(out: Outbound, p: Plan, rows: seq<Row>, k: nat, enc: Encoder, blockSize: nat, ghost x: Load)
    returns (failure: Option<RowError>, k': nat)
    requires x.Ok() && p == x.p && rows == x.rows && enc == x.enc && blockSize == x.blockSize
    requires k < |rows| && x.SentUpto(out.sent, k)
    modifies out
    ensures x.SentUpto(out.sent, k')
    ensures failure.Some? ==> k' == k && x.FailsWith(failure.value)
    ensures failure == None ==> k < k' <= |rows|
    ensures k % BATCH_ROWS == 0 ==> k' % BATCH_ROWS == 0 || (failure == None && k' == |rows|)
  {
    var batch := NextBatch(rows, k);
    failure := SendBatch(out, p, batch, k, enc, blockSize, x);
    k' := if failure.Some? then k else k + |batch|;
  }

  /** Rows taken from the source one at a time, rendered a batch at a time, and sent. Either
      all rows are sent, or whole batches in front of a row that has an error, which is the
      first error of all the rows and carries the row's number in the source. */
  method SendRows(out: Outbound, p: Plan, rows: seq<Row>, enc: Encoder, blockSize: nat, ghost x: Load)
    returns (failure: Option<RowError>, k: nat)
    requires x.Ok() && p == x.p && rows == x.rows && enc == x.enc && blockSize == x.blockSize && x.SentUpto(out.sent, 0)
    modifies out
    ensures x.SentUpto(out.sent, k)
    ensures if failure == None then k == |rows| else k % BATCH_ROWS == 0 && x.FailsWith(failure.value)
  {
    k := 0;
    while k < |rows|
      invariant k <= |rows| && x.SentUpto(out.sent, k) && (k % BATCH_ROWS == 0 || k == |rows|)
    {
      failure, k := SendNext(out, p, rows, k, enc, blockSize, x);
      if failure.Some? { return; }
    }
    failure := None;
  }

  /** At most `ERROR_FIELD_MAX` bytes of an error text. */
  function Cut(b: Bytes): (c: Bytes)
    ensures |c| <= ERROR_FIELD_MAX && c <= b
  {
    if |b| <= ERROR_FIELD_MAX then b else b[..ERROR_FIELD_MAX]
  }

  lemma FramesReceived(blocks: seq<Bytes>, end: Ending, r: Bytes)
    requires AllFit(blocks) && (end.Finished? || (end.Reported? && |end.message| < 0x8000 && |end.subject| < 0x8000))
    ensures Unframe((PutBlocks(blocks, []) + PutEnd(end, [])) + r) ==
            if AllReadable(blocks) then Got(Received(Flatten(blocks), end), r) else Stuck
  {
    BlocksThen(blocks, [], PutEnd(end, []));
    assert [] + PutEnd(end, []) == PutEnd(end, []);
    BlocksThen(blocks, PutEnd(end, []), r);
    EndThen(end, r);
    BlocksReceived(blocks, PutEnd(end, r));
    EndReceived(end, r);
    assert Flatten(blocks) + [] == Flatten(blocks);
  }

  lemma Behind(before: Bytes, x: Bytes, y: Bytes)
    ensures var now := (before + x) + y; now[..|before|] == before && now[|before|..] == x + y
  {
  }

  lemma EndThen(end: Ending, r: Bytes)
    requires end.Finished? || (end.Reported? && |end.message| < 0x8000 && |end.subject| < 0x8000)
    ensures PutEnd(end, []) + r == PutEnd(end, r)
  {
    assert [] + r == r;
    if end.Finished? {
      assert (Enc32(3) + []) + r == Enc32(3) + r;
    } else {
      var a, b, c, d := Enc16(|end.message|), end.message, Enc16(|end.subject|), end.subject;
      assert (Enc32(2) + (a + (b + (c + (d + []))))) + r == Enc32(2) + (a + (b + (c + (d + r))));
    }
  }

  /** The start of a text, the whole of it unless it is too long for an error frame. */
  predicate IsShortened(c: Bytes, b: Bytes) { c <= b && |c| <= ERROR_FIELD_MAX && (|c| < ERROR_FIELD_MAX ==> c == b) }

  /** The transfer is done if and only if no row had an error; otherwise the error is reported,
      with the name of the source. */
  predicate EndsRight(failure: Option<RowError>, report: RowError -> Bytes, name: Bytes, end: Ending) {
    match failure
    case None => end == Finished
    case Some(e) => end.Reported? && IsShortened(end.message, report(e)) && IsShortened(end.subject, name)
  }

  /** The last frame of a transfer. */
  function Closing(failure: Option<RowError>, report: RowError -> Bytes, name: Bytes): (end: Ending)
    ensures EndsRight(failure, report, name, end)
    ensures end.Finished? || (end.Reported? && |end.message| < 0x8000 && |end.subject| < 0x8000)
  {
    if failure == None then Finished else Reported(Cut(report(failure.value)), Cut(name))
  }

  /** `xferTable` with a lazy source of rows. The receiver loop reassembles, from the frames
      and with whatever bytes `r` behind them, one rendering of the rows: of all of them, or
      of whole batches in front of the first row with an error, which is then reported. It
      does so exactly when it can read each block in one piece, so for every block size the
      server asks for up to that. */
  method TransferRows(out: Outbound, p: Plan, rows: seq<Row>, enc: Encoder, serverBlockSize: int, report: RowError -> Bytes,
                      name: Bytes, ghost r: Bytes)
    returns (failure: Option<RowError>, k: nat, ghost blocks: seq<Bytes>, ghost end: Ending)
    requires p.columns != [] && serverBlockSize < 0x8000_0000
    modifies out
    ensures InSize(blocks, if serverBlockSize > 1 then serverBlockSize else 1) && AllFit(blocks)
    ensures serverBlockSize <= MAX_READ ==> AllReadable(blocks)
    ensures EndsRight(failure, report, name, end)
    ensures k <= |rows| && RenderedAs(p, rows[..k], 1).Good?
    ensures |old(out.sent)| <= |out.sent| && out.sent[..|old(out.sent)|] == old(out.sent)
    ensures Unframe(out.sent[|old(out.sent)|..] + r) ==
            if AllReadable(blocks)
            then Got(Received(Encode(enc, RenderedAs(p, rows[..k], 1).text), end), r)
            else Stuck
    ensures if failure == None then k == |rows| else k % BATCH_ROWS == 0 && RenderedAs(p, rows, 1) == Bad(failure.value)
  {
    var blockSize := if serverBlockSize > 1 then serverBlockSize else 1;
    ghost var x := Load(out.sent, p, rows, enc, blockSize);
    NoRowsYet(x, out.sent);
    failure, k := SendRows(out, p, rows, enc, blockSize, x);
    assert rows[..|rows|] == rows;
    blocks :| Framed(out.sent, old(out.sent), blocks, Encode(enc, RenderedAs(p, rows[..k], 1).text), blockSize);
    var closing := Closing(failure, report, name);
    out.Write(PutEnd(closing, []));
    Behind(old(out.sent), PutBlocks(blocks, []), PutEnd(closing, []));
    FramesReceived(blocks, closing, r);
    end := closing;
  }

  lemma NoRowsYet(x: Load, now: Bytes)
    requires x.Ok() && now == x.before
    ensures x.SentUpto(now, 0)
  {
    assert x.rows[..0] == [] && now + [] == now;
    assert RenderedAs(x.p, x.rows[..0], 1) == Good("");
    assert Framed(now, x.before, [], Encode(x.enc, RenderedAs(x.p, x.rows[..0], 1).text), x.blockSize);
  }

  /** The same for a source that is bytes in memory. */
  method TransferBytes(out: Outbound, source: Bytes, serverBlockSize: int, ghost r: Bytes) returns (ghost blocks: seq<Bytes>)
    requires serverBlockSize < 0x8000_0000
    modifies out
    ensures |old(out.sent)| <= |out.sent| && out.sent[..|old(out.sent)|] == old(out.sent)
    ensures Unframe(out.sent[|old(out.sent)|..] + r) == Got(Received(source, Finished), r)
    ensures InSize(blocks, if serverBlockSize > 1 then serverBlockSize else 1)
  {
    var blockSize := if serverBlockSize > 1 then serverBlockSize else 1;
    blocks := SendBytes(out, source, blockSize);
    out.Write(PutEnd(Finished, []));
    Behind(old(out.sent), PutBlocks(blocks, []), PutEnd(Finished, []));
    FramesReceived(blocks, Finished, r);
  }
}
