/** Little-endian integers and NUMERIC coefficients, as the Rust and the Python decoder
    compute them. */
module Numbers {
  import opened Division
  import opened Wire

  newtype u128 = x: int | 0 <= x < 0x1_0000_0000_0000_0000_0000_0000_0000_0000

  newtype i128 = x: int |
    -0x8000_0000_0000_0000_0000_0000_0000_0000 <= x < 0x8000_0000_0000_0000_0000_0000_0000_0000

  function Pow256(n: nat): (p: nat)
    ensures p > 0
  {
    if n == 0 then 1 else 256 * Pow256(n - 1)
  }

  function UnsignedLE(b: Bytes): (v: nat)
    ensures v < Pow256(|b|)
  {
    if b == [] then 0
    else
      var low: int := b[0];
      low + 256 * UnsignedLE(b[1..])
  }

  /** `r` is the signed reading of the unsigned `v`, of which there are `modulus` many. */
  predicate IsTwosComplement(r: int, v: nat, modulus: int)
    requires modulus > 0
  {
    -modulus <= 2 * r < modulus && (r == v || r == v - modulus)
  }

  /** `int.from_bytes(b, "little", signed=True)`; no bytes are zero. */
  function SignedLE(b: Bytes): (r: int)
    ensures IsTwosComplement(r, UnsignedLE(b), Pow256(|b|))
  {
    var v, m := UnsignedLE(b), Pow256(|b|);
    if 2 * v >= m && b != [] then v - m else v
  }

  // ----- read_signed -------------------------------------------------------------------------

  /** An unsigned 64-bit word read as signed. */
  function AsI64(u: int): int {
    var w := u % 0x1_0000_0000_0000_0000;
    if w < 0x8000_0000_0000_0000 then w else w - 0x1_0000_0000_0000_0000
  }

  function Pow2(n: nat): (p: nat)
    ensures p > 0
  {
    if n == 0 then 1 else 2 * Pow2(n - 1)
  }

  /** `<<` on `i64` drops the high bits; `>>` on `i64` keeps the sign. */
  function ShiftLeft(v: int, k: nat): int { AsI64(v * Pow2(k)) }

  function ShiftRight(v: int, k: nat): int { v / Pow2(k) }

  function Zeros(n: nat): Bytes { seq(n, _ => 0) }

  lemma {:induction false} ZerosAbove(b: Bytes, n: nat)
    ensures UnsignedLE(b + Zeros(n)) == UnsignedLE(b)
    decreases |b| + n
  {
    if b != [] {
      assert (b + Zeros(n))[1..] == b[1..] + Zeros(n);
      ZerosAbove(b[1..], n);
    } else if n > 0 {
      assert (b + Zeros(n))[1..] == [] + Zeros(n - 1);
      ZerosAbove([], n - 1);
    } else {
      assert b + Zeros(n) == b;
    }
  }

  /** `read_signed`: zero-pad to eight bytes, then shift left and right by the missing bits. */
  function ReadSigned(b: Bytes): int {
    var n := |b|;
    if n == 0 then 0
    else if n >= 8 then AsI64(UnsignedLE(b[..8]))
    else
      SignExtended(AsI64(UnsignedLE(b + Zeros(8 - n))), 64 - 8 * n)
  }

  function SignExtended(v: int, shift: nat): int { ShiftRight(ShiftLeft(v, shift), shift) }

  lemma Powers(n: nat)
    requires n <= 8
    ensures Pow256(n) == [1, 0x100, 0x1_0000, 0x100_0000, 0x1_0000_0000, 0x100_0000_0000, 0x1_0000_0000_0000,
                          0x100_0000_0000_0000, 0x1_0000_0000_0000_0000][n]
    ensures Pow2(8 * n) == Pow256(n)
  {
    if n > 0 {
      Powers(n - 1);
      assert Pow2(8 * n) == 256 * Pow2(8 * (n - 1)) by { EightMore(8 * (n - 1)); }
    }
  }

  lemma EightMore(k: nat)
    ensures Pow2(k + 8) == 256 * Pow2(k)
  {
    assert Pow2(k + 8) == 2 * Pow2(k + 7) == 4 * Pow2(k + 6) == 8 * Pow2(k + 5) == 16 * Pow2(k + 4);
    assert Pow2(k + 4) == 2 * Pow2(k + 3) == 4 * Pow2(k + 2) == 8 * Pow2(k + 1) == 16 * Pow2(k);
  }

  /** Fewer than eight bytes, padded, are a word that is not negative. */
  lemma PaddedWord(b: Bytes)
    requires |b| <= 7
    ensures AsI64(UnsignedLE(b + Zeros(8 - |b|))) == UnsignedLE(b)
  {
    ZerosAbove(b, 8 - |b|);
    Below56(|b|);
    SmallWord(UnsignedLE(b + Zeros(8 - |b|)));
  }

  lemma SmallWord(v: nat)
    requires v < 0x8000_0000_0000_0000
    ensures AsI64(v) == v
  {
  }

  lemma Below56(n: nat)
    requires n <= 7
    ensures Pow256(n) <= 0x100_0000_0000_0000
  {
    Powers(n);
  }

  /** The shifts sign-extend: for every width the result is the two's complement value of
      the bytes, or of the first eight of them. */
  lemma ReadSignedRight(b: Bytes)
    ensures ReadSigned(b) == SignedLE(if |b| > 8 then b[..8] else b)
  {
    if |b| >= 8 {
      Powers(8);
      assert |b| == 8 ==> b[..8] == b;
    } else if |b| > 0 {
      PaddedWord(b);
      ShiftsExtend(UnsignedLE(b), |b|);
    }
  }

  lemma ShiftsExtend(v: nat, n: nat)
    requires 1 <= n <= 7 && v < Pow256(n)
    ensures SignExtended(v, 64 - 8 * n) == if 2 * v >= Pow256(n) then v - Pow256(n) else v
  {
    PowersOf64(n);
    ExtendBy(v, Pow2(64 - 8 * n), Pow256(n));
  }

  lemma PowersOf64(n: nat)
    requires 1 <= n <= 7
    ensures Pow2(64 - 8 * n) * Pow256(n) == 0x1_0000_0000_0000_0000
  {
    Powers(n);
    Powers(8 - n);
    assert 8 * (8 - n) == 64 - 8 * n;
  }

  lemma ExtendBy(v: nat, p: nat, m: nat)
    requires 0 < p && v < m && p * m == 0x1_0000_0000_0000_0000
    ensures AsI64(v * p) / p == if 2 * v >= m then v - m else v
  {
    assert v * p < m * p by { Product(m - v, p); }
    if 2 * v >= m {
      assert 2 * (v * p) >= m * p by { ProductLeast(2 * v - m, p); }
      assert v * p - m * p == (v - m) * p;
      DivUnique((v - m) * p, p, v - m, 0);
    } else {
      assert 2 * (v * p) < m * p by { Product(m - 2 * v, p); }
      DivUnique(v * p, p, v, 0);
    }
  }

  lemma Product(d: nat, p: nat)
    requires d > 0 && p > 0
    ensures d * p > 0
  {
  }

  lemma ProductLeast(d: nat, p: nat)
    ensures d * p >= 0
  {
  }

  // ----- NUMERIC coefficients ------------------------------------------------------------------

  function Word(b: Bytes, i: nat): nat
    requires 4 * i + 4 <= |b|
  {
    UnsignedLE(b[4 * i..4 * i + 4])
  }

  lemma WordRange(b: Bytes, i: nat)
    requires 4 * i + 4 <= |b|
    ensures Word(b, i) < 0x1_0000_0000
  {
    Powers(4);
  }

  /** The first `count` words, most significant word first. */
  function WordsValue(b: Bytes, count: nat): nat
    requires 4 * count <= |b|
  {
    if count == 0 then 0 else WordsValue(b, count - 1) * 0x1_0000_0000 + Word(b, count - 1)
  }

  function Modulus(count: nat): (m: nat)
    ensures m > 0
  {
    if count == 0 then 1 else 0x1_0000_0000 * Modulus(count - 1)
  }

  lemma {:induction false} WordsRange(b: Bytes, count: nat)
    requires 1 <= count <= 4 && 4 * count <= |b|
    ensures WordsValue(b, count) < Modulus(count)
    ensures 2 * WordsValue(b, count) >= Modulus(count) <==> Word(b, 0) >= 0x8000_0000
    ensures Modulus(1) == 0x1_0000_0000 && Modulus(2) == 0x1_0000_0000_0000_0000
    ensures Modulus(3) == 0x1_0000_0000_0000_0000_0000_0000
    ensures Modulus(4) == 0x1_0000_0000_0000_0000_0000_0000_0000_0000
  {
    WordRange(b, count - 1);
    if count > 1 {
      WordsRange(b, count - 1);
    } else {
      assert WordsValue(b, 0) == 0;
    }
  }

  /** The two's complement value of one to four words. */
  function Coefficient(chunk: Bytes): (r: int)
    requires |chunk| % 4 == 0 && 4 <= |chunk| <= 16
    ensures IsTwosComplement(r, WordsValue(chunk, |chunk| / 4), Modulus(|chunk| / 4))
  {
    var v, m := WordsValue(chunk, |chunk| / 4), Modulus(|chunk| / 4);
    WordsRange(chunk, |chunk| / 4);
    if 2 * v >= m then v - m else v
  }

  /** The loop of `coefficient` (Rust): accumulate in 128 unsigned bits. */
  method Accumulate(words: Bytes, count: nat) returns (acc: u128)
    requires 1 <= count <= 4 && 4 * count == |words|
    ensures acc as int == WordsValue(words, count)
  {
    acc := 0;
    for i := 0 to count
      invariant acc as int == WordsValue(words, i)
      invariant i <= 3 ==> acc as int < 0x1_0000_0000_0000_0000_0000_0000
    {
      WordRange(words, i);
      WordsRange(words, i + 1);
      acc := acc * 0x1_0000_0000 + Word(words, i) as u128;
    }
  }

  /** `coefficient` (Rust): accumulate, then reinterpret or subtract. */
  method RustCoefficient(words: Bytes, count: nat) returns (r: i128)
    requires 1 <= count <= 4 && 4 * count == |words|
    ensures r as int == Coefficient(words)
  {
    WordsRange(words, count);
    var acc := Accumulate(words, count);
    if count == 4 {
      r := if acc < 0x8000_0000_0000_0000_0000_0000_0000_0000 then acc as i128
           else (acc as int - 0x1_0000_0000_0000_0000_0000_0000_0000_0000) as i128;
      return;
    }
    WordRange(words, 0);
    if Word(words, 0) / 0x8000_0000 == 1 {
      r := acc as i128 - Modulus(count) as i128;
    } else {
      r := acc as i128;
    }
  }

  lemma SliceOfSlice(b: Bytes, lo: nat, hi: nat, i: nat, j: nat)
    requires lo <= hi <= |b| && i <= j <= hi - lo
    ensures b[lo..hi][i..j] == b[lo + i..lo + j]
  {
    assert forall k | 0 <= k < j - i :: b[lo..hi][i..j][k] == b[lo + i..lo + j][k];
  }

  /** The Python decoder: unbounded integers. */
  method PythonCoefficient(data: Bytes, offset: nat, chunkLen: nat) returns (val: int)
    requires chunkLen % 4 == 0 && 4 <= chunkLen <= 16 && offset + chunkLen <= |data|
    ensures val == Coefficient(data[offset..offset + chunkLen])
  {
    var count := chunkLen / 4;
    ghost var chunk := data[offset..offset + chunkLen];
    var words: seq<nat> := [];
    for i := 0 to count
      invariant |words| == i && forall j :: 0 <= j < i ==> words[j] == Word(chunk, j)
    {
      SliceOfSlice(data, offset, offset + chunkLen, 4 * i, 4 * i + 4);
      words := words + [UnsignedLE(data[offset + 4 * i..offset + 4 * i + 4])];
    }
    val := 0;
    for i := 0 to count
      invariant val == WordsValue(chunk, i)
    {
      val := val * 0x1_0000_0000 + words[i];
    }
    WordsRange(chunk, count);
    if words[0] / 0x8000_0000 != 0 {
      val := val - Modulus(count);
    }
  }
}
