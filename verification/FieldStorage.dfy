/** How the server stores a value in a row, and that both decoders read back what is stored. */
module FieldStorage {
  import opened Options
  import opened Division
  import opened Wire
  import opened Numbers
  import opened Calendar
  import opened Temporal
  import opened Layouts
  import opened RowDecoding

  // ----- integers ------------------------------------------------------------------------

  /** Two's complement in `n` bytes, least significant first. */
  function PutSigned(v: int, n: nat): (b: Bytes)
    ensures |b| == n
    decreases n
  {
    if n == 0 then [] else [v % 256] + PutSigned(v / 256, n - 1)
  }

  /** A signed number of which there are `m` many. */
  predicate Within(v: int, m: int) { -m <= 2 * v < m }

  /** The number has a two's complement form of `n` bytes. */
  predicate Holds(v: int, n: nat) { Within(v, Pow256(n)) }

  /** The bytes of a number, read without a sign. */
  lemma {:induction false} UnsignedBack(v: int, n: nat)
    requires -(Pow256(n) as int) <= v < Pow256(n)
    ensures UnsignedLE(PutSigned(v, n)) == if v < 0 then v + Pow256(n) else v
    decreases n
  {
    if n > 0 {
      UnsignedBack(v / 256, n - 1);
      assert PutSigned(v, n)[1..] == PutSigned(v / 256, n - 1);
    }
  }

  lemma SignedBack(v: int, n: nat)
    requires Holds(v, n)
    ensures SignedLE(PutSigned(v, n)) == v
  {
    UnsignedBack(v, n);
  }

  lemma ReadBack(v: int, n: nat)
    requires Holds(v, n) && n <= 8
    ensures ReadSigned(PutSigned(v, n)) == v
  {
    ReadSignedRight(PutSigned(v, n));
    SignedBack(v, n);
  }

  // ----- NUMERIC -------------------------------------------------------------------------

  /** Two's complement in `count` words, most significant word first. */
  function PutWords(v: int, count: nat): (b: Bytes)
    ensures |b| == 4 * count
    decreases count
  {
    if count == 0 then [] else PutWords(v / 0x1_0000_0000, count - 1) + PutSigned(v % 0x1_0000_0000, 4)
  }

  predicate HoldsWords(v: int, count: nat) { Within(v, Modulus(count)) }

  /** Only the words in front count. */
  lemma {:induction false} WordsOfFront(a: Bytes, b: Bytes, count: nat)
    requires 4 * count <= |a|
    ensures WordsValue(a + b, count) == WordsValue(a, count)
  {
    if count > 0 {
      WordsOfFront(a, b, count - 1);
      assert (a + b)[4 * (count - 1)..4 * count] == a[4 * (count - 1)..4 * count];
    }
  }

  /** The words of `high` and one more word behind them. */
  lemma WordsSnoc(high: Bytes, low: Bytes, count: nat)
    requires count > 0 && |high| == 4 * (count - 1) && |low| == 4
    ensures WordsValue(high + low, count) == 0x1_0000_0000 * WordsValue(high, count - 1) + UnsignedLE(low)
  {
    WordsOfFront(high, low, count - 1);
    assert (high + low)[4 * (count - 1)..4 * count] == low;
  }

  lemma OneMoreWord(v: int, count: nat)
    requires count > 0
    ensures WordsValue(PutWords(v, count), count) ==
            0x1_0000_0000 * WordsValue(PutWords(v / 0x1_0000_0000, count - 1), count - 1) + v % 0x1_0000_0000
  {
    WordsSnoc(PutWords(v / 0x1_0000_0000, count - 1), PutSigned(v % 0x1_0000_0000, 4), count);
    Powers(4);
    UnsignedBack(v % 0x1_0000_0000, 4);
  }

  lemma {:induction false} WordsBack(v: int, count: nat)
    requires -(Modulus(count) as int) <= v < Modulus(count)
    ensures WordsValue(PutWords(v, count), count) == if v < 0 then v + Modulus(count) else v
    decreases count
  {
    if count > 0 {
      WordsBack(v / 0x1_0000_0000, count - 1);
      OneMoreWord(v, count);
    }
  }

  lemma CoefficientIs(chunk: Bytes, v: int)
    requires |chunk| % 4 == 0 && 4 <= |chunk| <= 16 && Within(v, Modulus(|chunk| / 4))
    requires WordsValue(chunk, |chunk| / 4) == if v < 0 then v + Modulus(|chunk| / 4) else v
    ensures Coefficient(chunk) == v
  {
  }

  lemma CoefficientBack(v: int, count: nat)
    requires 1 <= count <= 4 && HoldsWords(v, count)
    ensures Coefficient(PutWords(v, count)) == v
  {
    var b := PutWords(v, count);
    assert |b| / 4 == count;
    WordsBack(v, count);
    CoefficientIs(b, v);
  }

  // ----- what is stored for a value --------------------------------------------------------

  /** `shown` is `stored` without the NULs at its end, filled with spaces up to the width. */
  ghost predicate Padded(stored: string, width: nat, shown: string, n: nat) {
    && n <= |stored| && n <= |shown| && stored[..n] == shown[..n]
    && (n > 0 ==> stored[n - 1] != '\0') && (forall i | n <= i < |stored| :: stored[i] == '\0')
    && (forall i | n <= i < |shown| :: shown[i] == ' ') && |shown| == if n < width then width else n
  }

  ghost predicate ShowsPadded(stored: Option<string>, width: nat, v: FieldValue) {
    v.Text? && stored.Some? && exists n :: Padded(stored.value, width, v.text, n)
  }

  /** Two bytes with the length of the whole piece, low byte first, and the content. */
  predicate IsPiece(b: Bytes) { 2 <= |b| < 0x1_0000 && b[0] == |b| % 256 && b[1] == |b| / 256 }

  ghost predicate StoresPiece(f: Field, codec: Codec, v: FieldValue, content: Bytes) {
    var t := TypeOf(f);
    if t == VARBINARY || t == GEOMETRY then v == Blob(content)
    else if t == NCHAR then ShowsPadded(codec(content, true), if f.size < 0 then 0 else f.size as nat, v)
    else v.Text? && codec(content, t == NVARCHAR) == Some(v.text)
  }

  /** Dates are days, and times microseconds, in the bytes of the column, at most eight. */
  function TemporalWidth(f: Field): nat { if f.size < 0 then 0 else if f.size > 8 then 8 else f.size as nat }

  function DaysSince2000(x: Date): int { Date2J(x) - Date2J(Date(2000, 1, 1)) }

  predicate IsYearOf(x: Date) { IsDate(x) && 1 <= x.y <= 9999 }

  ghost predicate StoresTemporal(f: Field, v: FieldValue, b: Bytes) {
    var n := TemporalWidth(f);
    if TypeOf(f) == DATE then
      v.DateValue? && IsYearOf(v.date) && f.size >= 0 && Holds(DaysSince2000(v.date), n) && b == PutSigned(DaysSince2000(v.date), n)
    else if TypeOf(f) == TIME then
      v.TimeValue? && IsClock(v.time) && f.size >= 0 && Holds(Micros(v.time), n) && b == PutSigned(Micros(v.time), n)
    else
      v.Stamp? && IsYearOf(v.stamp.date) && IsClock(v.stamp.time) && f.size == 8 &&
      b == PutSigned(DaysSince2000(v.stamp.date) * 86400000000 + Micros(v.stamp.time), 8)
  }

  /** The time, at most eight bytes of it, in front, and the months or the zone in the last
      four bytes. */
  predicate StoresPair(f: Field, first: int, last: int, b: Bytes) {
    var n := if f.size >= 12 then 8 else f.size as int - 4;
    && f.size >= 4 && |b| == f.size as int
    && Holds(first, n) && b[..n] == PutSigned(first, n)
    && Holds(last, 4) && b[|b| - 4..] == PutSigned(last, 4)
  }

  predicate StoresNumber(v: FieldValue, n: nat, b: Bytes) { v.Number? && Holds(v.number, n) && b == PutSigned(v.number, n) }

  /** The words of the coefficient; the scale is part of the column's type. */
  predicate StoresNumeric(f: Field, v: FieldValue, b: Bytes) {
    && f.trueSize in [4, 8, 12, 16] && v.Numeric?
    && 0 <= v.scale < 256 && (f.size as int - v.scale) % 256 == 0
    && HoldsWords(v.coefficient, f.trueSize as int / 4) && b == PutWords(v.coefficient, f.trueSize as int / 4)
  }

  /** The bytes `b` are the storage of `v` in a column `f`. */
  ghost predicate Stores(f: Field, codec: Codec, v: FieldValue, b: Bytes) {
    var t := TypeOf(f);
    if t == CHAR then f.size as int == |b| && ShowsPadded(codec(b, false), |b|, v)
    else if IsLengthPrefixed(t) then IsPiece(b) && StoresPiece(f, codec, v, b[2..])
    else if t == INT8 then StoresNumber(v, 8, b)
    else if t == INT then StoresNumber(v, 4, b)
    else if t == INT2 then StoresNumber(v, 2, b)
    else if t == INT1 then StoresNumber(v, 1, b)
    else if t == DOUBLE then |b| == 8 && v == DoubleBits(b)
    else if t == FLOAT then |b| == 4 && v == SingleBits(b)
    else if t == DATE || t == TIME || t == TIMESTAMP then StoresTemporal(f, v, b)
    else if t == NUMERIC then StoresNumeric(f, v, b)
    else if t == BOOL then v.Truth? && b == [if v.truth then 1 else 0]
    else if t == INTERVAL then v.IntervalValue? && StoresPair(f, v.time1, v.month, b)
    else if t == TIMETZ then v.ZonedTime? && StoresPair(f, v.time2, v.zone, b)
    else v == Null && b == []
  }

  // ----- reading it back ---------------------------------------------------------------------

  /** The bytes `b` stand in the row at `off`. */
  predicate At(row: Bytes, off: nat, b: Bytes) { off + |b| <= |row| && row[off..off + |b|] == b }

  lemma {:induction false} StripIs(s: string, n: nat)
    requires n <= |s| && (n > 0 ==> s[n - 1] != '\0') && forall i | n <= i < |s| :: s[i] == '\0'
    ensures StripNuls(s) == s[..n]
    decreases |s|
  {
    if n < |s| {
      StripIs(s[..|s| - 1], n);
      assert s[..|s| - 1][..n] == s[..n];
    } else {
      assert s[..n] == s;
    }
  }

  lemma PadIs(stored: string, width: nat, shown: string, n: nat)
    requires Padded(stored, width, shown, n)
    ensures RustPad(stored, width) == shown
  {
    StripIs(stored, n);
    assert shown == shown[..n] + shown[n..];
    assert shown[n..] == Spaces(|shown| - n);
  }

  lemma PaddedBack(codec: Codec, b: Bytes, client: bool, width: nat, v: FieldValue)
    requires ShowsPadded(codec(b, client), width, v)
    ensures TextOf(codec, b, client, Some(width)) == Some(v)
  {
    var s := codec(b, client).value;
    var n :| Padded(s, width, v.text, n);
    PadIs(s, width, v.text, n);
  }

  /** What every case of reading back says. */
  predicate Back(f: Field, codec: Codec, r: Decoded, b: Bytes, row: Bytes, off: nat) {
    off <= |row| && Extent(f, off, row) == Some(|b|) && Spans(f, off, row) && RustField(f, row, off, codec) == r
  }

  lemma TextBack(f: Field, codec: Codec, v: FieldValue, b: Bytes, row: Bytes, off: nat)
    requires At(row, off, b) && Stores(f, codec, v, b)
    requires TypeOf(f) == CHAR || IsLengthPrefixed(TypeOf(f))
    ensures Back(f, codec, Some(v), b, row, off)
  {
    if TypeOf(f) == CHAR {
      PaddedBack(codec, b, false, |b|, v);
    } else {
      assert b[0] == row[off] && b[1] == row[off + 1];
      assert U16(row, off) == |b|;
      SliceOfSlice(row, off, off + |b|, 2, |b|);
      assert Prefixed(row, off) == b[2..];
      if TypeOf(f) == NCHAR {
        PaddedBack(codec, b[2..], true, if f.size < 0 then 0 else f.size as nat, v);
      }
    }
  }

  lemma Front(row: Bytes, off: nat, b: Bytes, n: nat)
    requires At(row, off, b) && n <= |b|
    ensures row[off..][..n] == b[..n] && row[off..off + n] == b[..n] && (n == |b| ==> b[..n] == b)
  {
    SliceFrom(row, off, n);
    SliceOfSlice(row, off, off + |b|, 0, n);
  }

  lemma NumberBack(f: Field, codec: Codec, v: FieldValue, b: Bytes, row: Bytes, off: nat)
    requires At(row, off, b) && Stores(f, codec, v, b)
    requires TypeOf(f) == INT8 || TypeOf(f) == INT || TypeOf(f) == INT2 || TypeOf(f) == INT1
    ensures Back(f, codec, Some(v), b, row, off)
  {
    Front(row, off, b, |b|);
    SignedBack(v.number, |b|);
  }

  lemma FloatBack(f: Field, codec: Codec, v: FieldValue, b: Bytes, row: Bytes, off: nat)
    requires At(row, off, b) && Stores(f, codec, v, b)
    requires TypeOf(f) == DOUBLE || TypeOf(f) == FLOAT || TypeOf(f) == BOOL
    ensures Back(f, codec, Some(v), b, row, off)
  {
    Front(row, off, b, |b|);
  }

  lemma DayBack(x: Date) returns (days: int)
    requires IsDate(x)
    ensures days == DaysSince2000(x) && J2Date(days + J2000_OFFSET) == x
  {
    days := DaysSince2000(x);
    Epochs(Date(2000, 1, 1), Date(-4713, 11, 24));
    DateRoundTrip(x);
  }

  lemma DateField(f: Field, codec: Codec, b: Bytes, row: Bytes, off: nat, days: int, x: Date)
    requires At(row, off, b) && TypeOf(f) == DATE && f.size >= 0 && |b| == TemporalWidth(f) && ReadSigned(b) == days
    requires J2Date(days + J2000_OFFSET) == x
    ensures Back(f, codec, MakeDate(x), b, row, off)
  {
    Front(row, off, b, |b|);
  }

  lemma DateStored(f: Field, codec: Codec, v: FieldValue, b: Bytes) returns (days: int)
    requires Stores(f, codec, v, b) && TypeOf(f) == DATE
    ensures v.DateValue? && IsYearOf(v.date) && f.size >= 0 && |b| == TemporalWidth(f)
    ensures ReadSigned(b) == days && J2Date(days + J2000_OFFSET) == v.date
  {
    days := DayBack(v.date);
    ReadBack(days, |b|);
  }

  lemma DateBack(f: Field, codec: Codec, v: FieldValue, b: Bytes, row: Bytes, off: nat)
    requires At(row, off, b) && Stores(f, codec, v, b) && TypeOf(f) == DATE
    ensures Back(f, codec, Some(v), b, row, off)
  {
    var days := DateStored(f, codec, v, b);
    DateField(f, codec, b, row, off, days, v.date);
  }

  lemma TimeBack(f: Field, codec: Codec, v: FieldValue, b: Bytes, row: Bytes, off: nat)
    requires At(row, off, b) && Stores(f, codec, v, b) && TypeOf(f) == TIME
    ensures Back(f, codec, Some(v), b, row, off)
  {
    Front(row, off, b, |b|);
    ReadBack(Micros(v.time), |b|);
    ClockIsTime(v.time);
  }

  lemma YearsInRange(x: Date)
    requires IsYearOf(x)
    ensures 0 <= Date2J(x) < 6000000
  {
    assert Quotient(x.m - 14, 12) == if x.m <= 2 then -1 else 0;
  }

  lemma StampField(f: Field, codec: Codec, b: Bytes, row: Bytes, off: nat, micros: int)
    requires At(row, off, b) && TypeOf(f) == TIMESTAMP && f.size == 8 && |b| == 8 && SignedLE(b) == micros
    ensures Back(f, codec, MakeStamp(TimestampParts(micros)), b, row, off)
  {
    Front(row, off, b, 8);
  }

  lemma StampHolds(x: Timestamp)
    requires IsYearOf(x.date) && IsClock(x.time)
    ensures Holds(MicrosSince2000(x), 8) && TimestampParts(MicrosSince2000(x)) == Some(x)
  {
    YearsInRange(x.date);
    ClockIsTime(x.time);
    TimestampOnto(x);
    Powers(8);
  }

  lemma StampStored(f: Field, codec: Codec, v: FieldValue, b: Bytes)
    requires Stores(f, codec, v, b) && TypeOf(f) == TIMESTAMP
    ensures v.Stamp? && IsYearOf(v.stamp.date) && IsClock(v.stamp.time) && f.size == 8 && |b| == 8
    ensures b == PutSigned(MicrosSince2000(v.stamp), 8)
  {
    Epochs(Date(2000, 1, 1), Date(-4713, 11, 24));
  }

  lemma StampBack(f: Field, codec: Codec, v: FieldValue, b: Bytes, row: Bytes, off: nat)
    requires At(row, off, b) && Stores(f, codec, v, b) && TypeOf(f) == TIMESTAMP
    ensures Back(f, codec, Some(v), b, row, off)
  {
    StampStored(f, codec, v, b);
    StampHolds(v.stamp);
    SignedBack(MicrosSince2000(v.stamp), 8);
    StampField(f, codec, b, row, off, MicrosSince2000(v.stamp));
  }

  lemma NumericField(f: Field, codec: Codec, v: FieldValue, b: Bytes, row: Bytes, off: nat)
    requires At(row, off, b) && TypeOf(f) == NUMERIC && f.trueSize in [4, 8, 12, 16] && |b| == f.trueSize as int
    requires v.Numeric? && Coefficient(b) == v.coefficient && f.size as int % 256 == v.scale
    ensures Back(f, codec, Some(v), b, row, off)
  {
    Front(row, off, b, |b|);
    assert |b| / 4 * 4 == |b|;
  }

  lemma ScaleIs(size: int, scale: int)
    requires 0 <= scale < 256 && (size - scale) % 256 == 0
    ensures size % 256 == scale
  {
  }

  lemma NumericBack(f: Field, codec: Codec, v: FieldValue, b: Bytes, row: Bytes, off: nat)
    requires At(row, off, b) && Stores(f, codec, v, b) && TypeOf(f) == NUMERIC
    ensures Back(f, codec, Some(v), b, row, off)
  {
    CoefficientBack(v.coefficient, f.trueSize as int / 4);
    ScaleIs(f.size as int, v.scale);
    NumericField(f, codec, v, b, row, off);
  }

  lemma PairField(f: Field, codec: Codec, b: Bytes, row: Bytes, off: nat, n: nat)
    requires At(row, off, b) && (TypeOf(f) == INTERVAL || TypeOf(f) == TIMETZ) && f.size >= 4 && |b| == f.size as int
    requires n == if f.size >= 12 then 8 else f.size as int - 4
    ensures var first, last := ReadSigned(b[..n]), SignedLE(b[|b| - 4..]);
            Back(f, codec, Some(if TypeOf(f) == INTERVAL then IntervalValue(first, last) else ZonedTime(first, last)), b, row, off)
  {
    Front(row, off, b, n);
    SliceOfSlice(row, off, off + |b|, |b| - 4, |b|);
  }

  lemma PairBack(f: Field, codec: Codec, v: FieldValue, b: Bytes, row: Bytes, off: nat)
    requires At(row, off, b) && Stores(f, codec, v, b) && (TypeOf(f) == INTERVAL || TypeOf(f) == TIMETZ)
    ensures Back(f, codec, Some(v), b, row, off)
  {
    var n := if f.size >= 12 then 8 else f.size as int - 4;
    PairField(f, codec, b, row, off, n);
    ReadBack(if v.IntervalValue? then v.time1 else v.time2, n);
    SignedBack(if v.IntervalValue? then v.month else v.zone, 4);
  }

  /** What is stored for a value is read back as that value, wherever it stands in a row. */
  lemma FieldBack(f: Field, codec: Codec, v: FieldValue, b: Bytes, row: Bytes, off: nat)
    requires At(row, off, b) && Stores(f, codec, v, b)
    ensures Back(f, codec, Some(v), b, row, off)
  {
    var t := TypeOf(f);
    if t == CHAR || IsLengthPrefixed(t) {
      TextBack(f, codec, v, b, row, off);
    } else if t == INT8 || t == INT || t == INT2 || t == INT1 {
      NumberBack(f, codec, v, b, row, off);
    } else if t == DOUBLE || t == FLOAT || t == BOOL {
      FloatBack(f, codec, v, b, row, off);
    } else if t == DATE {
      DateBack(f, codec, v, b, row, off);
    } else if t == TIME {
      TimeBack(f, codec, v, b, row, off);
    } else if t == TIMESTAMP {
      StampBack(f, codec, v, b, row, off);
    } else if t == NUMERIC {
      NumericBack(f, codec, v, b, row, off);
    } else if t == INTERVAL || t == TIMETZ {
      PairBack(f, codec, v, b, row, off);
    }
  }
}
