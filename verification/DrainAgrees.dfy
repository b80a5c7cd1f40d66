/** Well-formed responses, their bytes, and when the result reader and the drain consume
    exactly the same of them. */
module DrainAgrees {
  import opened Wire
  import opened Messages

  datatype UnloadEnd = Done | Failed(message: Bytes, subject: Bytes) | Odd(status: nat)

  /** One message before ReadyForQuery. `tag` is the four bytes after the code. */
  datatype Msg =
    | SizedMsg(code: byte, tag: Bytes, payload: Bytes)
    | RowMsg(tag: Bytes, lead: Bytes, payload: Bytes)
    | OpenFileMsg(tag: Bytes, lead: Bytes, name: Bytes)
    | UnloadMsg(tag: Bytes, lead: Bytes, blocks: seq<Bytes>, end: UnloadEnd)
    | LoadMsg(tag: Bytes, lead: Bytes, name: Bytes, host: nat, format: nat, blockSize: nat)
    | CancelMsg(tag: Bytes, lead: Bytes)
    | LogFileMsg(tag: Bytes, dir: Bytes, name: Bytes, kind: nat, blocks: seq<Bytes>)
    | Padding

  predicate Fits(b: Bytes) { |b| < MAX_READ }

  predicate IsName(b: Bytes) { b != [] && forall i | 0 <= i < |b| :: b[i] != 0 }

  predicate WellFormed(m: Msg) {
    match m
    case SizedMsg(code, tag, payload) => IsSized(code) && |tag| == 4 && Fits(payload)
    case RowMsg(tag, lead, payload) => |tag| == 4 && |lead| == 4 && Fits(payload)
    case OpenFileMsg(tag, lead, name) => |tag| == 4 && |lead| == 26 && Fits(name)
    case UnloadMsg(tag, lead, blocks, end) =>
      |tag| == 4 && |lead| == 4 && (forall b <- blocks :: Fits(b)) &&
      (match end
       case Done => true
       case Failed(message, subject) => |message| < 0x8000 && |subject| < 0x8000
       case Odd(status) => status < 0x8000_0000 && status != 1 && status != 2)
    case LoadMsg(tag, lead, name, host, format, blockSize) =>
      |tag| == 4 && |lead| == 4 && IsName(name) && host < 0x8000_0000 && format < 0x8000_0000 && blockSize < 0x8000_0000
    case CancelMsg(tag, lead) => |tag| == 4 && |lead| == 4
    case LogFileMsg(tag, dir, name, kind, blocks) =>
      |tag| == 4 && Fits(dir) && IsName(name) && kind < 0x8000_0000 && (forall b <- blocks :: b != [] && Fits(b))
    case Padding => true
  }

  // ----- printing: the bytes of a message, followed by `r` -----------------------------------

  function PutSized(p: Bytes, r: Bytes): Bytes
    requires Fits(p)
  {
    Enc32(|p|) + (p + r)
  }

  function PutFileBlocks(bs: seq<Bytes>, r: Bytes): Bytes
    requires forall b <- bs :: Fits(b)
  {
    if bs == [] then Enc32(0) + r else PutSized(bs[0], PutFileBlocks(bs[1..], r))
  }

  function PutUnloadEnd(end: UnloadEnd, r: Bytes): Bytes
    requires end.Failed? ==> |end.message| < 0x8000 && |end.subject| < 0x8000
    requires end.Odd? ==> end.status < 0x8000_0000
  {
    match end
    case Done => Enc32(3) + r
    case Failed(message, subject) => Enc32(2) + (Enc16(|message|) + (message + (Enc16(|subject|) + (subject + r))))
    case Odd(status) => Enc32(status) + r
  }

  function PutUnloadBlocks(bs: seq<Bytes>, end: UnloadEnd, r: Bytes): Bytes
    requires forall b <- bs :: Fits(b)
    requires end.Failed? ==> |end.message| < 0x8000 && |end.subject| < 0x8000
    requires end.Odd? ==> end.status < 0x8000_0000
  {
    if bs == [] then PutUnloadEnd(end, r) else Enc32(1) + PutSized(bs[0], PutUnloadBlocks(bs[1..], end, r))
  }

  function CodeOf(m: Msg): byte {
    match m
    case SizedMsg(code, _, _) => code
    case RowMsg(_, _, _) => Code('Y')
    case OpenFileMsg(_, _, _) => Code('u')
    case UnloadMsg(_, _, _, _) => Code('U')
    case LoadMsg(_, _, _, _, _, _) => Code('l')
    case CancelMsg(_, _) => Code('x')
    case LogFileMsg(_, _, _, _, _) => Code('e')
    case Padding => 0
  }

  function TagOf(m: Msg): Bytes {
    if m.Padding? then [0, 0, 0, 0] else m.tag
  }

  function PutBody(m: Msg, r: Bytes): Bytes
    requires WellFormed(m)
  {
    match m
    case SizedMsg(_, _, payload) => PutSized(payload, r)
    case RowMsg(_, lead, payload) => (lead + Enc32(|payload|)) + (payload + r)
    case OpenFileMsg(_, lead, name) => lead[..10] + (lead[10..] + PutSized(name, r))
    case UnloadMsg(_, lead, blocks, end) => lead + PutUnloadBlocks(blocks, end, r)
    case LoadMsg(_, lead, name, host, format, blockSize) =>
      lead + (name + ([0] + (Enc32(host) + (Enc32(format) + (Enc32(blockSize) + r)))))
    case CancelMsg(_, lead) => lead + r
    case LogFileMsg(_, dir, name, kind, blocks) =>
      Enc32(|dir| + 1) + (dir + ([0] + (name + ([0] + (Enc32(kind) + PutFileBlocks(blocks, r))))))
    case Padding => r
  }

  function Put(m: Msg, r: Bytes): Bytes
    requires WellFormed(m)
  {
    ([CodeOf(m)] + TagOf(m)) + PutBody(m, r)
  }

  function PutAll(ms: seq<Msg>, r: Bytes): Bytes
    requires forall m <- ms :: WellFormed(m)
  {
    if ms == [] then r else Put(ms[0], PutAll(ms[1..], r))
  }

  /** ReadyForQuery (`Z`, or `L`), its tag, and whatever the server sends next. */
  function PutReady(code: byte, tag: Bytes, next: Bytes): Bytes
    requires |tag| == 4
  {
    ([code] + tag) + next
  }

  // ----- both framings invert the printer -------------------------------------------------------

  lemma TakeFront(a: Bytes, r: Bytes)
    requires |a| <= MAX_READ
    ensures Take(a + r, |a|) == Got(a, r)
  {
  }

  lemma SizedFront(p: Bytes, r: Bytes)
    requires Fits(p)
    ensures Int(PutSized(p, r)) == Got(|p|, p + r)
    ensures Sized(PutSized(p, r)) == Got(p, r) && DrainSized(PutSized(p, r)) == Got(p, r)
  {
    TakeFront(Enc32(|p|), p + r);
    TakeFront(p, r);
  }

  lemma IntFront(n: nat, r: Bytes)
    requires n < 0x8000_0000
    ensures Int(Enc32(n) + r) == Got(n, r)
  {
    TakeFront(Enc32(n), r);
  }

  lemma {:induction false} NulFront(name: Bytes, r: Bytes)
    requires forall i | 0 <= i < |name| :: name[i] != 0
    ensures UntilNul(name + ([0] + r)) == Got((), r)
  {
    if name == [] {
      assert name + ([0] + r) == [0] + r;
    } else {
      assert (name + ([0] + r))[1..] == name[1..] + ([0] + r);
      NulFront(name[1..], r);
    }
  }

  lemma NameFront(name: Bytes, r: Bytes)
    requires IsName(name)
    ensures FileName(name + ([0] + r)) == Got((), r)
    ensures UntilNul(name + ([0] + r)) == Got((), r)
  {
    assert name + ([0] + r) == name[..1] + (name[1..] + ([0] + r));
    TakeFront(name[..1], name[1..] + ([0] + r));
    NulFront(name[1..], r);
    NulFront(name, r);
  }

  lemma {:induction false} FileBlocksFront(bs: seq<Bytes>, r: Bytes)
    requires forall b <- bs :: b != [] && Fits(b)
    ensures FileBlocks(PutFileBlocks(bs, r)) == Got((), r)
  {
    if bs == [] {
      IntFront(0, r);
    } else {
      SizedFront(bs[0], PutFileBlocks(bs[1..], r));
      FileBlocksFront(bs[1..], r);
    }
  }

  lemma UnloadEndFront(end: UnloadEnd, r: Bytes)
    requires end.Failed? ==> |end.message| < 0x8000 && |end.subject| < 0x8000
    requires end.Odd? ==> end.status < 0x8000_0000 && end.status != 1 && end.status != 2
    ensures UnloadBlocks(PutUnloadEnd(end, r)) == Got((), r)
  {
    match end
    case Done => IntFront(3, r);
    case Odd(status) => IntFront(status, r);
    case Failed(message, subject) =>
      IntFront(2, Enc16(|message|) + (message + (Enc16(|subject|) + (subject + r))));
      TakeFront(Enc16(|message|), message + (Enc16(|subject|) + (subject + r)));
      TakeFront(message, Enc16(|subject|) + (subject + r));
      TakeFront(Enc16(|subject|), subject + r);
      TakeFront(subject, r);
  }

  lemma {:induction false} UnloadBlocksFront(bs: seq<Bytes>, end: UnloadEnd, r: Bytes)
    requires forall b <- bs :: Fits(b)
    requires end.Failed? ==> |end.message| < 0x8000 && |end.subject| < 0x8000
    requires end.Odd? ==> end.status < 0x8000_0000 && end.status != 1 && end.status != 2
    ensures UnloadBlocks(PutUnloadBlocks(bs, end, r)) == Got((), r)
  {
    if bs == [] {
      UnloadEndFront(end, r);
    } else {
      var tail := PutUnloadBlocks(bs[1..], end, r);
      IntFront(1, PutSized(bs[0], tail));
      SizedFront(bs[0], tail);
      UnloadBlocksFront(bs[1..], end, r);
    }
  }

  lemma LoadFront(m: Msg, r: Bytes)
    requires WellFormed(m) && m.LoadMsg?
    ensures LoadRequest(PutBody(m, r)) == Got((), r)
  {
    var r3 := Enc32(m.blockSize) + r;
    var r2 := Enc32(m.format) + r3;
    var r1 := Enc32(m.host) + r2;
    TakeFront(m.lead, m.name + ([0] + r1));
    NameFront(m.name, r1);
    IntFront(m.host, r2);
    IntFront(m.format, r3);
    IntFront(m.blockSize, r);
  }

  lemma LogFileFront(m: Msg, r: Bytes)
    requires WellFormed(m) && m.LogFileMsg?
    ensures LogFile(PutBody(m, r)) == Got((), r)
    ensures DrainLogFile(PutBody(m, r)) == Got((), r)
  {
    var r3 := Enc32(m.kind) + PutFileBlocks(m.blocks, r);
    var r2 := m.name + ([0] + r3);
    var r1 := [0] + r2;
    IntFront(|m.dir| + 1, m.dir + r1);
    TakeFront(m.dir, r1);
    TakeFront([0], r2);
    NameFront(m.name, r3);
    IntFront(m.kind, PutFileBlocks(m.blocks, r));
    FileBlocksFront(m.blocks, r);
  }

  /** Both parsers take exactly the body of `m`; the drain never sees a padding block as a message. */
  ghost predicate TakesBody(m: Msg, r: Bytes)
    requires WellFormed(m)
  {
    var w := PutBody(m, r);
    && Frame(CodeOf(m), w).Got? && Frame(CodeOf(m), w).rest == r
    && (!m.Padding? ==> DrainFrame(CodeOf(m), w).Got? && DrainFrame(CodeOf(m), w).rest == r)
  }

  lemma SizedBody(m: Msg, r: Bytes)
    requires WellFormed(m) && m.SizedMsg?
    ensures TakesBody(m, r)
  {
    SizedFront(m.payload, r);
  }

  lemma RowBody(m: Msg, r: Bytes)
    requires WellFormed(m) && m.RowMsg?
    ensures TakesBody(m, r)
  {
    TakeFront(m.lead + Enc32(|m.payload|), m.payload + r);
    TakeFront(m.payload, r);
  }

  lemma OpenFileBody(m: Msg, r: Bytes)
    requires WellFormed(m) && m.OpenFileMsg?
    ensures TakesBody(m, r)
  {
    TakeFront(m.lead[..10], m.lead[10..] + PutSized(m.name, r));
    TakeFront(m.lead[10..], PutSized(m.name, r));
    SizedFront(m.name, r);
  }

  lemma UnloadFront(m: Msg, r: Bytes)
    requires WellFormed(m) && m.UnloadMsg?
    ensures Unload(PutBody(m, r)) == Got((), r)
  {
    TakeFront(m.lead, PutUnloadBlocks(m.blocks, m.end, r));
    UnloadBlocksFront(m.blocks, m.end, r);
  }

  lemma UnloadBody(m: Msg, r: Bytes)
    requires WellFormed(m) && m.UnloadMsg?
    ensures TakesBody(m, r)
  {
    UnloadFront(m, r);
    UnloadTaken(PutBody(m, r), r);
  }

  lemma UnloadTaken(w: Bytes, r: Bytes)
    requires Unload(w) == Got((), r)
    ensures Frame(Code('U'), w) == Got([], r) == DrainFrame(Code('U'), w)
  {
  }

  lemma LoadBody(m: Msg, r: Bytes)
    requires WellFormed(m) && m.LoadMsg?
    ensures TakesBody(m, r)
  {
    LoadFront(m, r);
  }

  lemma CancelBody(m: Msg, r: Bytes)
    requires WellFormed(m) && m.CancelMsg?
    ensures TakesBody(m, r)
  {
    TakeFront(m.lead, r);
  }

  lemma LogFileBody(m: Msg, r: Bytes)
    requires WellFormed(m) && m.LogFileMsg?
    ensures TakesBody(m, r)
  {
    LogFileFront(m, r);
    LogFileTaken(PutBody(m, r), r);
  }

  lemma LogFileTaken(w: Bytes, r: Bytes)
    requires LogFile(w) == Got((), r) && DrainLogFile(w) == Got((), r)
    ensures Frame(Code('e'), w) == Got([], r) == DrainFrame(Code('e'), w)
  {
  }

  lemma PaddingBody(m: Msg, r: Bytes)
    requires m.Padding?
    ensures TakesBody(m, r)
  {
  }

  lemma BodyFront(m: Msg, r: Bytes)
    requires WellFormed(m)
    ensures TakesBody(m, r)
  {
    if m.SizedMsg? {
      SizedBody(m, r);
    } else if m.RowMsg? {
      RowBody(m, r);
    } else if m.OpenFileMsg? {
      OpenFileBody(m, r);
    } else if m.UnloadMsg? {
      UnloadBody(m, r);
    } else if m.LoadMsg? {
      LoadBody(m, r);
    } else if m.CancelMsg? {
      CancelBody(m, r);
    } else if m.LogFileMsg? {
      LogFileBody(m, r);
    } else {
      PaddingBody(m, r);
    }
  }

  lemma HeaderFront(m: Msg, r: Bytes)
    requires WellFormed(m)
    ensures Take(Put(m, r), 5) == Got([CodeOf(m)] + TagOf(m), PutBody(m, r))
    ensures !IsReady(CodeOf(m)) && (CodeOf(m) == 0 <==> m.Padding?) && CodeOf(m) < 128
  {
    TakeFront([CodeOf(m)] + TagOf(m), PutBody(m, r));
  }

  // ----- the theorems ---------------------------------------------------------------------------

  /** The result reader frames every well-formed response. */
  lemma {:induction false} ResultConsumesAll(ms: seq<Msg>, code: byte, tag: Bytes, next: Bytes)
    requires forall m <- ms :: WellFormed(m)
    requires |tag| == 4 && IsReady(code)
    ensures ResultEnd(PutAll(ms, PutReady(code, tag, next))) == Got((), next)
  {
    if ms == [] {
      TakeFront([code] + tag, next);
    } else {
      var r := PutAll(ms[1..], PutReady(code, tag, next));
      HeaderFront(ms[0], r);
      BodyFront(ms[0], r);
      ResultConsumesAll(ms[1..], code, tag, next);
    }
  }

  /** How many padding blocks the sequence starts with. */
  function LeadingPads(ms: seq<Msg>): nat {
    if ms != [] && ms[0].Padding? then 1 + LeadingPads(ms[1..]) else 0
  }

  /** No row message is followed by exactly one padding block. */
  predicate NoLonePadAfterRow(ms: seq<Msg>) {
    ms == [] || ((ms[0].RowMsg? ==> LeadingPads(ms[1..]) != 1) && NoLonePadAfterRow(ms[1..]))
  }

  lemma {:induction false} SkipLeadingPads(ms: seq<Msg>, r: Bytes)
    requires forall m <- ms :: WellFormed(m)
    requires r != [] && r[0] != 0
    ensures LeadingPads(ms) <= |ms|
    ensures SkipNuls(PutAll(ms, r)) == PutAll(ms[LeadingPads(ms)..], r)
  {
    if ms != [] {
      var tail := PutAll(ms[1..], r);
      if ms[0].Padding? {
        SkipLeadingPads(ms[1..], r);
        SkipFive(tail);
        assert Put(ms[0], tail) == [0, 0, 0, 0, 0] + tail;
      } else {
        HeaderFront(ms[0], tail);
        assert Put(ms[0], tail)[0] == CodeOf(ms[0]);
      }
    }
  }

  lemma SkipOne(w: Bytes)
    ensures SkipNuls([0] + w) == SkipNuls(w)
  {
    assert ([0] + w)[1..] == w;
  }

  lemma SkipFive(w: Bytes)
    ensures SkipNuls([0, 0, 0, 0, 0] + w) == SkipNuls(w) && SkipNuls([0] + w) == SkipNuls(w)
  {
    var w1: Bytes := [0] + w;
    var w2: Bytes := [0] + w1;
    var w3: Bytes := [0] + w2;
    var w4: Bytes := [0] + w3;
    SkipOne(w);
    SkipOne(w1);
    SkipOne(w2);
    SkipOne(w3);
    SkipOne(w4);
    assert [0, 0, 0, 0, 0] + w == [0] + w4;
  }

  lemma {:induction false} NoLonePadLater(ms: seq<Msg>, k: nat)
    requires NoLonePadAfterRow(ms) && k <= |ms|
    ensures NoLonePadAfterRow(ms[k..])
  {
    if k > 0 {
      assert ms[1..][k - 1..] == ms[k..];
      NoLonePadLater(ms[1..], k - 1);
    }
  }

  /** What the drain does at the first message that is not padding, with more behind it. */
  lemma DrainStep(how: Arrival, m: Msg, tail: Bytes, out: Parse<()>)
    requires WellFormed(m) && !m.Padding? && |tail| >= 5
    ensures SkipNuls(Put(m, tail)) == Put(m, tail)
    ensures Drains(how, Put(m, tail), out) <==>
              || (m.RowMsg? && Drains(how, tail, out))
              || ((m.RowMsg? ==> how.Anyhow?) && Drains(how, SkipNuls(tail), out))
  {
    HeaderFront(m, tail);
    assert Put(m, tail)[0] == CodeOf(m);
    BodyFront(m, tail);
  }

  lemma DrainReady(how: Arrival, code: byte, tag: Bytes, next: Bytes, out: Parse<()>)
    requires |tag| == 4 && IsReady(code)
    ensures SkipNuls(PutReady(code, tag, next)) == PutReady(code, tag, next)
    ensures Drains(how, PutReady(code, tag, next), out) <==> out == Got((), next)
  {
    TakeFront([code] + tag, next);
    assert PutReady(code, tag, next)[0] == code;
  }

  /** Two padding blocks taken as a header: the misread length is zero and the drain is
      back in step at the next message. */
  lemma TwoPadsRealign(how: Arrival, w: Bytes, out: Parse<()>)
    ensures Drains(how, [0, 0, 0, 0, 0] + ([0, 0, 0, 0, 0] + w), out) <==> Drains(how, SkipNuls(w), out)
  {
    var zeros: Bytes := [0, 0, 0, 0];
    TakeFront([0, 0, 0, 0, 0], [0, 0, 0, 0, 0] + w);
    assert [0, 0, 0, 0, 0] + w == zeros + ([0] + w);
    TakeFront(zeros, [0] + w);
    SkipFive(w);
  }

  /** One padding block taken as a header: the code of the next message becomes the top
      byte of a length no read accepts. */
  lemma OnePadDerails(how: Arrival, c: byte, tag: Bytes, w: Bytes, out: Parse<()>)
    requires |tag| == 4 && 48 <= c < 128
    ensures Drains(how, [0, 0, 0, 0, 0] + (([c] + tag) + w), out) <==> out == Stuck
  {
    TakeFront([0, 0, 0, 0, 0], ([c] + tag) + w);
    assert ([c] + tag) + w == ([c] + tag[..3]) + (tag[3..] + w);
    TakeFront([c] + tag[..3], tag[3..] + w);
  }

  lemma {:induction false} LeadingPadsEnd(ms: seq<Msg>)
    ensures LeadingPads(ms) <= |ms|
    ensures LeadingPads(ms) < |ms| ==> !ms[LeadingPads(ms)].Padding?
    ensures forall i | 0 <= i < LeadingPads(ms) :: ms[i].Padding?
  {
    if ms != [] && ms[0].Padding? {
      LeadingPadsEnd(ms[1..]);
    }
  }

  /** A response: messages, then ReadyForQuery with its tag, then what comes next. */
  datatype Response = Response(ms: seq<Msg>, code: byte, tag: Bytes, next: Bytes) {
    ghost predicate Ok() { (forall m <- ms :: WellFormed(m)) && |tag| == 4 && IsReady(code) }

    ghost function Wire(): Bytes
      requires Ok()
    {
      PutAll(ms, PutReady(code, tag, next))
    }

    /** The response without its first `k` messages. */
    function From(k: nat): Response
      requires k <= |ms|
    {
      this.(ms := ms[k..])
    }
  }

  /** `_drain_socket` started at the response can end with `out`. */
  ghost predicate DrainsTo(how: Arrival, x: Response, out: Parse<()>)
    requires x.Ok()
  {
    Drains(how, SkipNuls(x.Wire()), out)
  }

  lemma {:induction false} NeverShort(ms: seq<Msg>, r: Bytes)
    requires (forall m <- ms :: WellFormed(m)) && |r| >= 5
    ensures |PutAll(ms, r)| >= 5
  {
    if ms != [] {
      HeaderFront(ms[0], PutAll(ms[1..], r));
    }
  }

  lemma WireFrom(x: Response, k: nat)
    requires x.Ok() && k < |x.ms|
    ensures x.From(k).Ok() && x.From(k + 1).Ok()
    ensures x.From(k).Wire() == Put(x.ms[k], x.From(k + 1).Wire()) && |x.From(k + 1).Wire()| >= 5
  {
    NeverShort(x.ms[k + 1..], PutReady(x.code, x.tag, x.next));
    assert x.ms[k..][1..] == x.ms[k + 1..];
  }

  lemma SkipsPads(x: Response)
    requires x.Ok()
    ensures LeadingPads(x.ms) <= |x.ms|
    ensures SkipNuls(x.Wire()) == x.From(LeadingPads(x.ms)).Wire()
  {
    assert PutReady(x.code, x.tag, x.next)[0] == x.code;
    SkipLeadingPads(x.ms, PutReady(x.code, x.tag, x.next));
  }

  lemma DrainsPastPads(how: Arrival, x: Response, out: Parse<()>)
    requires x.Ok()
    ensures LeadingPads(x.ms) <= |x.ms| && x.From(LeadingPads(x.ms)).Ok()
    ensures DrainsTo(how, x, out) <==> Drains(how, x.From(LeadingPads(x.ms)).Wire(), out)
  {
    SkipsPads(x);
  }

  /** The end of the response. */
  lemma DrainsAtReady(how: Arrival, x: Response, out: Parse<()>)
    requires x.Ok() && LeadingPads(x.ms) == |x.ms|
    ensures DrainsTo(how, x, out) <==> out == Got((), x.next)
  {
    DrainsPastPads(how, x, out);
    DrainReady(how, x.code, x.tag, x.next, out);
  }

  /** A message that is not a row, or a row that no padding follows: one way on. */
  lemma DrainsPastMessage(how: Arrival, x: Response, k: nat, out: Parse<()>)
    requires x.Ok() && k == LeadingPads(x.ms) < |x.ms|
    requires !x.ms[k].RowMsg? || LeadingPads(x.ms[k + 1..]) == 0
    ensures x.From(k + 1).Ok() && (DrainsTo(how, x, out) <==> DrainsTo(how, x.From(k + 1), out))
  {
    DrainsPastPads(how, x, out);
    LeadingPadsEnd(x.ms);
    WireFrom(x, k);
    DrainStep(how, x.ms[k], x.From(k + 1).Wire(), out);
    if x.ms[k].RowMsg? {
      SkipsPads(x.From(k + 1));
    }
  }

  /** Padding blocks at the front are five NUL bytes each. */
  lemma PadInFront(y: Response)
    requires y.Ok() && LeadingPads(y.ms) >= 1
    ensures y.ms != [] && y.From(1).Ok() && y.Wire() == [0, 0, 0, 0, 0] + y.From(1).Wire()
    ensures LeadingPads(y.From(1).ms) == LeadingPads(y.ms) - 1
  {
    WireFrom(y, 0);
    assert y.From(0) == y;
  }

  lemma AfterManyPads(how: Arrival, y: Response, out: Parse<()>)
    requires y.Ok() && LeadingPads(y.ms) >= 2
    ensures |y.ms| >= 2 && y.From(2).Ok() && (Drains(how, y.Wire(), out) <==> DrainsTo(how, y.From(2), out))
  {
    PadInFront(y);
    PadInFront(y.From(1));
    assert y.From(1).From(1) == y.From(2);
    TwoPadsRealign(how, y.From(2).Wire(), out);
  }

  lemma StartsWithCode(z: Response) returns (c: byte, tag: Bytes, w: Bytes)
    requires z.Ok() && LeadingPads(z.ms) == 0
    ensures |tag| == 4 && 48 <= c < 128 && z.Wire() == ([c] + tag) + w
  {
    if z.ms == [] {
      return z.code, z.tag, z.next;
    }
    WireFrom(z, 0);
    assert z.From(0) == z;
    return CodeOf(z.ms[0]), TagOf(z.ms[0]), PutBody(z.ms[0], z.From(1).Wire());
  }

  lemma AfterLonePad(how: Arrival, y: Response, out: Parse<()>)
    requires y.Ok() && LeadingPads(y.ms) == 1
    ensures Drains(how, y.Wire(), out) <==> out == Stuck
  {
    PadInFront(y);
    var c, tag, w := StartsWithCode(y.From(1));
    OnePadDerails(how, c, tag, w, out);
  }

  /** A row: the drain goes on after skipping the padding, or from the padding itself. */
  lemma DrainsPastRow(how: Arrival, x: Response, k: nat, out: Parse<()>)
    requires x.Ok() && k == LeadingPads(x.ms) < |x.ms| && x.ms[k].RowMsg?
    ensures x.From(k + 1).Ok()
    ensures DrainsTo(how, x, out) <==>
              (how.Anyhow? && DrainsTo(how, x.From(k + 1), out)) || Drains(how, x.From(k + 1).Wire(), out)
  {
    DrainsPastPads(how, x, out);
    WireFrom(x, k);
    DrainStep(how, x.ms[k], x.From(k + 1).Wire(), out);
  }

  // ----- the theorem --------------------------------------------------------------------------

  /** The drain ends where the result reader does, however the bytes arrive, when no row
      message is followed by exactly one padding block. */
  lemma {:induction false} DrainConsumesAll(how: Arrival, x: Response, out: Parse<()>)
    requires x.Ok() && NoLonePadAfterRow(x.ms) && DrainsTo(how, x, out)
    ensures out == Got((), x.next)
    decreases |x.ms|
  {
    LeadingPadsEnd(x.ms);
    var k := LeadingPads(x.ms);
    if k == |x.ms| {
      DrainsAtReady(how, x, out);
    } else {
      NoLonePadLater(x.ms, k);
      assert x.ms[k..][1..] == x.ms[k + 1..];
      var y := x.From(k + 1);
      if !x.ms[k].RowMsg? || LeadingPads(y.ms) == 0 {
        DrainsPastMessage(how, x, k, out);
        DrainConsumesAll(how, y, out);
      } else {
        DrainsPastRow(how, x, k, out);
        if DrainsTo(how, y, out) {
          DrainConsumesAll(how, y, out);
        } else {
          AfterManyPads(how, y, out);
          NoLonePadLater(y.ms, 2);
          DrainConsumesAll(how, y.From(2), out);
        }
      }
    }
  }

  /** Some arrival of the bytes always lets the drain end right. */
  lemma {:induction false} DrainCanFinish(x: Response)
    requires x.Ok()
    ensures DrainsTo(Anyhow, x, Got((), x.next))
    decreases |x.ms|
  {
    LeadingPadsEnd(x.ms);
    var k := LeadingPads(x.ms);
    if k == |x.ms| {
      DrainsAtReady(Anyhow, x, Got((), x.next));
    } else {
      DrainCanFinish(x.From(k + 1));
      if x.ms[k].RowMsg? {
        DrainsPastRow(Anyhow, x, k, Got((), x.next));
      } else {
        DrainsPastMessage(Anyhow, x, k, Got((), x.next));
      }
    }
  }

  lemma {:induction false} LonePadBehindPads(ms: seq<Msg>, k: nat)
    requires k <= LeadingPads(ms)
    ensures k <= |ms| && NoLonePadAfterRow(ms[k..]) == NoLonePadAfterRow(ms)
  {
    if k > 0 {
      LonePadBehindPads(ms[1..], k - 1);
      assert ms[1..][k - 1..] == ms[k..];
    }
  }

  /** With the whole response in the buffer there is no choice: the drain ends where the
      result reader does, or it loses step at a row message followed by exactly one
      padding block, and fails. */
  lemma {:induction false} BufferedDrainExactly(x: Response, out: Parse<()>)
    requires x.Ok()
    ensures DrainsTo(AllBuffered, x, out) <==> out == if NoLonePadAfterRow(x.ms) then Got((), x.next) else Stuck
    decreases |x.ms|
  {
    LeadingPadsEnd(x.ms);
    var k := LeadingPads(x.ms);
    LonePadBehindPads(x.ms, k);
    if k == |x.ms| {
      DrainsAtReady(AllBuffered, x, out);
    } else {
      assert x.ms[k..][1..] == x.ms[k + 1..];
      var y := x.From(k + 1);
      if !x.ms[k].RowMsg? || LeadingPads(y.ms) == 0 {
        DrainsPastMessage(AllBuffered, x, k, out);
        BufferedDrainExactly(y, out);
      } else if LeadingPads(y.ms) == 1 {
        DrainsPastRow(AllBuffered, x, k, out);
        AfterLonePad(AllBuffered, y, out);
      } else {
        DrainsPastRow(AllBuffered, x, k, out);
        AfterManyPads(AllBuffered, y, out);
        LonePadBehindPads(y.ms, 2);
        BufferedDrainExactly(y.From(2), out);
      }
    }
  }

  lemma AgreeWithoutLonePad(how: Arrival, x: Response, out: Parse<()>)
    requires x.Ok() && NoLonePadAfterRow(x.ms)
    ensures DrainsTo(how, x, out) <==> out == Got((), x.next)
  {
    if how.AllBuffered? {
      BufferedDrainExactly(x, out);
    } else {
      DrainCanFinish(x);
      if DrainsTo(how, x, out) {
        DrainConsumesAll(how, x, out);
      }
    }
  }

  /** The two parsers agree on a well-formed response for every arrival of its bytes if and
      only if no row message in it is followed by exactly one padding block. */
  lemma ParsersAgreeExactly(x: Response)
    requires x.Ok()
    ensures ResultEnd(x.Wire()) == Got((), x.next)
    ensures (forall how, out :: DrainsTo(how, x, out) <==> out == ResultEnd(x.Wire())) <==> NoLonePadAfterRow(x.ms)
  {
    ResultConsumesAll(x.ms, x.code, x.tag, x.next);
    if NoLonePadAfterRow(x.ms) {
      forall how, out
        ensures DrainsTo(how, x, out) <==> out == ResultEnd(x.Wire())
      {
        AgreeWithoutLonePad(how, x, out);
      }
    } else {
      BufferedDrainExactly(x, Stuck);
    }
  }
}
