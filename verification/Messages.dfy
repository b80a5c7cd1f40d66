/** The backend messages of one result, as two independent parsers read them: the result
    reader and the drain that discards an orphaned response. */
module Messages {
  import opened Wire

  function Code(c: char): byte
    requires (c as int) < 256
  {
    c as int
  }

  /** Messages that are a length and that many bytes, to the result reader. */
  predicate IsSized(c: byte) {
    c == Code('C') || c == Code('0') || c == Code('A') || c == Code('P') || c == Code('E') || c == Code('T') ||
    c == Code('D') || c == Code('X') || c == Code('N') || c == Code('I') || c == Code('s')
  }

  predicate IsReady(c: byte) { c == Code('Z') || c == Code('L') }

  // ----- pieces of message bodies -------------------------------------------------------

  function Sized(w: Bytes): (p: Parse<Bytes>)
    ensures p.Got? ==> |p.rest| + 4 <= |w|
  {
    var (n, r) :- Int(w);
    Take(r, n)
  }

  /** A row message: eight bytes whose last four are the payload length, then the payload. */
  function RowPayload(w: Bytes): (p: Parse<Bytes>)
    ensures p.Got? ==> |p.rest| + 8 <= |w|
  {
    var (inner, r) :- Take(w, 8);
    Take(r, I32(inner[4..8]))
  }

  /** Characters up to a NUL, which is consumed. */
  function UntilNul(w: Bytes): (p: Parse<()>)
    ensures p.Got? ==> |p.rest| < |w|
  {
    if w == [] then Stuck else if w[0] == 0 then Got((), w[1..]) else UntilNul(w[1..])
  }

  /** The readers take the first character of a file name before they look for a NUL. */
  function FileName(w: Bytes): (p: Parse<()>)
    ensures p.Got? ==> |p.rest| < |w|
  {
    var (_, r) :- Take(w, 1);
    UntilNul(r)
  }

  function FileBlocks(w: Bytes): (p: Parse<()>)
    ensures p.Got? ==> |p.rest| < |w|
  {
    var (n, r) :- Int(w);
    if n == 0 then Got((), r)
    else
      var (_, r') :- Take(r, n);
      FileBlocks(r')
  }

  /** The body of an unload: data blocks, then done, an error report, or an odd status. */
  function UnloadBlocks(w: Bytes): (p: Parse<()>)
    ensures p.Got? ==> |p.rest| < |w|
  {
    var (status, r) :- Int(w);
    if status == 1 then
      var (_, r') :- Sized(r);
      UnloadBlocks(r')
    else if status == 2 then
      var (n, r1) :- Short(r);
      var (_, r2) :- Take(r1, n);
      var (m, r3) :- Short(r2);
      var (_, r4) :- Take(r3, m);
      Got((), r4)
    else Got((), r)
  }

  function Unload(w: Bytes): (p: Parse<()>)
    ensures p.Got? ==> |p.rest| < |w|
  {
    var (_, r) :- Take(w, 4);
    UnloadBlocks(r)
  }

  function LoadRequest(w: Bytes): (p: Parse<()>)
    ensures p.Got? ==> |p.rest| < |w|
  {
    var (_, r1) :- Take(w, 4);
    var (_, r2) :- FileName(r1);
    var (_, r3) :- Int(r2);
    var (_, r4) :- Int(r3);
    var (_, r5) :- Int(r4);
    Got((), r5)
  }

  // ----- the result reader ----------------------------------------------------------------

  /** A directory, with its length and the byte behind it. */
  function LogDir(w: Bytes): (p: Parse<()>)
    ensures p.Got? ==> |p.rest| < |w|
  {
    var (n, r1) :- Int(w);
    var (_, r2) :- Take(r1, n - 1);
    var (_, r3) :- Take(r2, 1);
    Got((), r3)
  }

  function LogFile(w: Bytes): (p: Parse<()>)
    ensures p.Got? ==> |p.rest| < |w|
  {
    var (_, r3) :- LogDir(w);
    var (_, r4) :- FileName(r3);
    var (_, r5) :- Int(r4);
    FileBlocks(r5)
  }

  function NoBytes(p: Parse<()>): Parse<Bytes> {
    match p
    case Got(_, r) => Got([], r)
    case Stuck => Stuck
  }

  function OpenFile(w: Bytes): (p: Parse<Bytes>)
    ensures p.Got? ==> |p.rest| < |w|
  {
    var (_, r1) :- Take(w, 10);
    var (_, r2) :- Take(r1, 16);
    Sized(r2)
  }

  /** What `_read_result_frames` consumes after a five-byte header with code `c`. */
  function Frame(c: byte, w: Bytes): (p: Parse<Bytes>)
    ensures p.Got? ==> |p.rest| <= |w|
  {
    if c == 0 || IsReady(c) then Got([], w)
    else if IsSized(c) then Sized(w)
    else if c == Code('Y') then RowPayload(w)
    else if c == Code('u') then OpenFile(w)
    else if c == Code('U') then NoBytes(Unload(w))
    else if c == Code('l') then NoBytes(LoadRequest(w))
    else if c == Code('x') then Take(w, 4)
    else if c == Code('e') then NoBytes(LogFile(w))
    else Stuck
  }

  /** The bytes after ReadyForQuery, as the result reader frames the stream. */
  function ResultEnd(w: Bytes): (p: Parse<()>)
    decreases |w|
  {
    var (h, r) :- Take(w, 5);
    if IsReady(h[0]) then Got((), r)
    else
      var (_, r') :- Frame(h[0], r);
      ResultEnd(r')
  }

  // ----- the drain --------------------------------------------------------------------------

  function DrainSized(w: Bytes): (p: Parse<Bytes>)
    ensures p.Got? ==> |p.rest| + 4 <= |w|
  {
    var (n, r) :- Int(w);
    if n > 0 then Take(r, n) else Got([], r)
  }

  function DrainOpenFile(w: Bytes): (p: Parse<Bytes>)
    ensures p.Got? ==> |p.rest| < |w|
  {
    var (_, r1) :- Take(w, 10);
    var (_, r2) :- Take(r1, 16);
    DrainSized(r2)
  }

  function DrainLogFile(w: Bytes): (p: Parse<()>)
    ensures p.Got? ==> |p.rest| < |w|
  {
    var (_, r3) :- LogDir(w);
    var (_, r4) :- UntilNul(r3);
    var (_, r5) :- Int(r4);
    FileBlocks(r5)
  }

  function DrainFrame(c: byte, w: Bytes): (p: Parse<Bytes>)
    ensures p.Got? ==> |p.rest| < |w|
  {
    if c == Code('Y') then RowPayload(w)
    else if c == Code('u') then DrainOpenFile(w)
    else if c == Code('U') then NoBytes(Unload(w))
    else if c == Code('l') then NoBytes(LoadRequest(w))
    else if c == Code('x') then Take(w, 4)
    else if c == Code('e') then NoBytes(DrainLogFile(w))
    else DrainSized(w)
  }

  function SkipNuls(w: Bytes): (r: Bytes)
    ensures |r| <= |w| && (r == [] || r[0] != 0)
    ensures w != [] && w[0] != 0 ==> r == w
  {
    if w != [] && w[0] == 0 then SkipNuls(w[1..]) else w
  }

  /** How the response arrives: in any pieces at any time, or all of it (and nothing behind
      it that matters) is in the receive buffer when the drain starts. */
  datatype Arrival = Anyhow | AllBuffered

  /** `_drain_socket` standing at a header can end with `out`. After a row it takes the next
      five bytes as a header if they are already buffered, and skips NUL bytes otherwise;
      which of the two happens depends on how the bytes arrived. */
  ghost predicate Drains(how: Arrival, w: Bytes, out: Parse<()>)
    decreases |w|
  {
    match Take(w, 5)
    case Stuck => out == Stuck
    case Got(h, r) =>
      if IsReady(h[0]) then out == Got((), r)
      else
        match DrainFrame(h[0], r)
        case Stuck => out == Stuck
        case Got(_, r') =>
          || (MayStay(h[0], r') && Drains(how, r', out))
          || (MaySkip(how, h[0], r') && Drains(how, SkipNuls(r'), out))
  }

  /** Behind a row, five buffered bytes are the next header as they are ... */
  predicate MayStay(c: byte, r: Bytes) { c == Code('Y') && |r| >= 5 }

  /** ... and NUL bytes are skipped otherwise. */
  predicate MaySkip(how: Arrival, c: byte, r: Bytes) { c == Code('Y') && how.AllBuffered? ==> |r| < 5 }
}
