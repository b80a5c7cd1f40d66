/** Bytes, big-endian integers and byte-string parsing. */
module Wire {

  type byte = x: int | 0 <= x < 256

  type Bytes = seq<byte>

  /** Longest single read the driver accepts (`MAX_PROTOCOL_READ`). */
  const MAX_READ := 104857600

  /** The outcome of a parser: a value and the bytes after it, or nothing. */
  datatype Parse<+T> = Got(val: T, rest: Bytes) | Stuck {
    predicate IsFailure() { Stuck? }

    function PropagateFailure<U>(): Parse<U>
      requires Stuck?
    {
      Stuck
    }

    function Extract(): (T, Bytes)
      requires Got?
    {
      (val, rest)
    }
  }

  function U32(b: Bytes): nat
    requires |b| == 4
  {
    (((b[0] as int) * 256 + b[1]) * 256 + b[2]) * 256 + b[3]
  }

  /** `struct.unpack("!i")`. */
  function I32(b: Bytes): int
    requires |b| == 4
  {
    if U32(b) < 0x8000_0000 then U32(b) else U32(b) - 0x1_0000_0000
  }

  function Enc32(n: nat): (b: Bytes)
    requires n < 0x8000_0000
    ensures |b| == 4 && I32(b) == n
  {
    [n / 0x100_0000, n / 0x1_0000 % 256, n / 256 % 256, n % 256]
  }

  /** `struct.unpack("!h")`. */
  function I16(b: Bytes): int
    requires |b| == 2
  {
    var u := (b[0] as int) * 256 + b[1];
    if u < 0x8000 then u else u - 0x1_0000
  }

  function Enc16(n: nat): (b: Bytes)
    requires n < 0x8000
    ensures |b| == 2 && I16(b) == n
  {
    [n / 256, n % 256]
  }

  /** Exactly `n` bytes, as `NzBufferedStream.read` accepts `n`. */
  function Take(w: Bytes, n: int): (p: Parse<Bytes>)
    ensures p.Got? ==> |p.rest| + n == |w| && n >= 0
  {
    if 0 <= n <= MAX_READ && n <= |w| then Got(w[..n], w[n..]) else Stuck
  }

  function Int(w: Bytes): (p: Parse<int>)
    ensures p.Got? ==> |p.rest| + 4 == |w|
  {
    var (b, r) :- Take(w, 4);
    Got(I32(b), r)
  }

  function Short(w: Bytes): (p: Parse<int>)
    ensures p.Got? ==> |p.rest| + 2 == |w|
  {
    var (b, r) :- Take(w, 2);
    Got(I16(b), r)
  }
}
