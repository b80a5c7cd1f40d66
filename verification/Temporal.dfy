/** Clock and timestamp decoding, in the Rust and the Python form. */
module Temporal {
  import opened Options
  import opened Calendar
  import opened Division

  const J2000_OFFSET := 2451545

  const USECS_PER_DAY := 86400000000

  datatype Time = Time(hour: int, minute: int, second: int, us: int)

  datatype Timestamp = Timestamp(date: Date, time: Time)

  // ----- division of Python integers by `/` -------------------------------------------

  /** `q` is `a / b` rounded to a double: within a relative error of one part in 2^53, and
      exact when the quotient is a small integer. */
  predicate RoundsTo(q: real, a: int, b: int)
    requires b > 0
  {
    var err := q * b as real - a as real;
    && (if err < 0.0 then -err else err) * 9007199254740992.0 <= (if a < 0 then -a else a) as real
    && (a % b == 0 && -9007199254740992 < a / b < 9007199254740992 ==> q == (a / b) as real)
  }

  /** Any way to round. */
  ghost predicate IsFloatDivision(div: (int, int) -> real) {
    forall a, b :: b > 0 ==> RoundsTo(div(a, b), a, b)
  }

  function Truncated(q: real): int { if q >= 0.0 then q.Floor else -(-q).Floor }

  lemma NegatedQuotient(q: real, a: int, b: int)
    requires b > 0 && a < 0 && RoundsTo(q, a, b)
    ensures RoundsTo(-q, -a, b)
  {
    assert -q * b as real == -(q * b as real);
    if a % b == 0 {
      DivUnique(-a, b, -(a / b), 0);
    } else {
      DivUnique(-a, b, -(a / b) - 1, b - a % b);
    }
  }

  lemma PositiveQuotient(q: real, a: int, b: int)
    requires b > 0 && 0 <= a < 9007199254740992 && RoundsTo(q, a, b)
    ensures q >= 0.0 && q.Floor == a / b
  {
    QuotientBound(a, b);
    if a % b != 0 {
      Between(q, a, b);
    }
  }

  /** For operands below 2^53, `int(a / b)` is the exact truncated quotient. */
  lemma TruncatedQuotient(q: real, a: int, b: int)
    requires b > 0 && -9007199254740992 < a < 9007199254740992 && RoundsTo(q, a, b)
    ensures Truncated(q) == Quotient(a, b)
  {
    if a >= 0 {
      PositiveQuotient(q, a, b);
    } else {
      NegatedQuotient(q, a, b);
      PositiveQuotient(-q, -a, b);
    }
  }

  /** `q` lies strictly between the neighbouring multiples when it is that near to `a / b`. */
  lemma Between(q: real, a: int, b: int)
    requires b > 0 && 0 < a < 9007199254740992 && a % b != 0
    requires -1.0 < q * b as real - a as real < 1.0
    ensures (a / b) as real < q < (a / b + 1) as real && q.Floor == a / b
  {
    var k := a / b;
    Split(a, b);
    AgainstWhole(q, k, b, k * b);
    AgainstWhole(q, k + 1, b, k * b + b);
  }

  lemma FarAbove(q: real, a: int, b: int, k: nat)
    requires b > 0 && a >= 2 * (b * k) && RoundsTo(q, a, b)
    ensures q >= k as real
  {
    NotNegative(b, k);
    assert 2.0 * (q * b as real) >= a as real;
    AgainstWhole(q, k, b, b * k);
  }

  /** However the division of a large number is rounded, the result is large. */
  lemma FarQuotient(q: real, a: int, b: int, k: nat)
    requires b > 0 && (a >= 2 * (b * k) || -a >= 2 * (b * k)) && RoundsTo(q, a, b)
    ensures a >= 2 * (b * k) > 0 ==> Truncated(q) >= k
    ensures -a >= 2 * (b * k) > 0 ==> Truncated(q) + k <= 0
  {
    if a >= 2 * (b * k) {
      FarAbove(q, a, b, k);
    } else if a < 0 {
      NegatedQuotient(q, a, b);
      FarAbove(-q, -a, b, k);
    }
  }

  // ----- clocks --------------------------------------------------------------------------

  predicate IsClock(t: Time) {
    0 <= t.hour < 24 && 0 <= t.minute < 60 && 0 <= t.second < 60 && 0 <= t.us < 1000000
  }

  function Micros(t: Time): int { ((t.hour * 60 + t.minute) * 60 + t.second) * 1000000 + t.us }

  /** `time_parts` (Rust): microseconds by floor, seconds by truncation. */
  function TimeParts(timeUs: int): Time {
    var secs := Quotient(timeUs, 1000000);
    var minutes := Quotient(secs, 60);
    Time(Quotient(minutes, 60), minutes % 60, secs % 60, timeUs % 1000000)
  }

  /** A time of day is split into a clock and nothing is lost. */
  lemma TimeIsClock(timeUs: int)
    requires 0 <= timeUs < USECS_PER_DAY
    ensures IsClock(TimeParts(timeUs)) && Micros(TimeParts(timeUs)) == timeUs
  {
  }

  lemma ClockIsTime(t: Time)
    requires IsClock(t)
    ensures 0 <= Micros(t) < USECS_PER_DAY && TimeParts(Micros(t)) == t
  {
  }

  /** A negative time never comes back: its microseconds go one way and its seconds the
      other, unless it is a number of hours. */
  lemma NegativeTime(timeUs: int)
    requires timeUs < 0
    ensures Micros(TimeParts(timeUs)) == timeUs <==> timeUs % 3600000000 == 0
  {
    var a := -timeUs;
    var secs := a / 1000000;
    var minutes := secs / 60;
    NegativeRest(a, 1000000);
    NegativeRest(secs, 60);
    NegativeRest(minutes, 60);
    NegativeRest(a, 3600000000);
    HourMultiple(a, secs, minutes, minutes / 60, a % 1000000, secs % 60, minutes % 60);
  }

  lemma NegativeRest(x: int, m: int)
    requires x >= 0 && m > 0
    ensures -x % m == if x % m == 0 then 0 else m - x % m
  {
    assert x == m * (x / m) + x % m;
    if x % m == 0 {
      DivUnique(-x, m, -(x / m), 0);
    } else {
      DivUnique(-x, m, -(x / m) - 1, m - x % m);
    }
  }

  lemma HourMultiple(a: int, s: int, m: int, h: int, us: int, second: int, minute: int)
    requires a == 1000000 * s + us && s == 60 * m + second && m == 60 * h + minute
    requires 0 <= us < 1000000 && 0 <= second < 60 && 0 <= minute < 60
    ensures a % 3600000000 == 0 <==> us == 0 && second == 0 && minute == 0
  {
    DivUnique(a, 3600000000, h, (minute * 60 + second) * 1000000 + us);
  }

  /** `time2struct` (Python) reassigns the value it divides; `div` is float division. */
  method Time2Struct(timeVal: int, div: (int, int) -> real) returns (parts: seq<int>)
    requires IsFloatDivision(div)
    ensures -9007199254740992 < timeVal < 9007199254740992 ==>
              var t := TimeParts(timeVal); parts == [t.hour, t.minute, t.second, t.us]
    ensures |parts| == 4 && (!(-9007199254740992 < timeVal < 9007199254740992) ==> !(0 <= parts[0] < 24))
  {
    var us := timeVal % 1000000;
    var v := Truncated(div(timeVal, 1000000));
    var second := v % 60;
    ghost var v1 := v;
    v := Truncated(div(v, 60));
    var minute := v % 60;
    ghost var v2 := v;
    var hour := Truncated(div(v, 60));
    parts := [hour, minute, second, us];
    if -9007199254740992 < timeVal < 9007199254740992 {
      NearParts(div(timeVal, 1000000), div(v1, 60), div(v2, 60), timeVal, v1, v2);
    } else {
      FarParts(div(timeVal, 1000000), div(v1, 60), div(v2, 60), timeVal, v1, v2);
    }
  }

  lemma NearParts(q1: real, q2: real, q3: real, t: int, v1: int, v2: int)
    requires -9007199254740992 < t < 9007199254740992
    requires RoundsTo(q1, t, 1000000) && RoundsTo(q2, v1, 60) && RoundsTo(q3, v2, 60)
    requires v1 == Truncated(q1) && v2 == Truncated(q2)
    ensures v1 == Quotient(t, 1000000) && v2 == Quotient(v1, 60) && Truncated(q3) == Quotient(v2, 60)
  {
    TruncatedQuotient(q1, t, 1000000);
    TruncatedQuotient(q2, v1, 60);
    TruncatedQuotient(q3, v2, 60);
  }

  lemma FarParts(q1: real, q2: real, q3: real, t: int, v1: int, v2: int)
    requires !(-9007199254740992 < t < 9007199254740992)
    requires RoundsTo(q1, t, 1000000) && RoundsTo(q2, v1, 60) && RoundsTo(q3, v2, 60)
    requires v1 == Truncated(q1) && v2 == Truncated(q2)
    ensures !(0 <= Truncated(q3) < 24)
  {
    FarQuotient(q1, t, 1000000, 4503599627);
    FarQuotient(q2, v1, 60, 37529996);
    FarQuotient(q3, v2, 60, 312749);
  }

  // ----- timestamps ------------------------------------------------------------------------

  /** `timestamp_parts` (Rust). */
  function TimestampParts(micros: int): Option<Timestamp> {
    var days := micros / USECS_PER_DAY;
    var timeUs := micros % USECS_PER_DAY;
    if days < -J2000_OFFSET then None
    else
      var rest := timeUs / 1000000;
      var hour := rest / 3600;
      var rest' := rest - hour * 3600;
      var minute := rest' / 60;
      Some(Timestamp(J2Date(days + J2000_OFFSET), Time(hour, minute, rest' - minute * 60, timeUs % 1000000)))
  }

  function MicrosSince2000(x: Timestamp): int {
    (Date2J(x.date) - J2000_OFFSET) * USECS_PER_DAY + Micros(x.time)
  }

  lemma ClockPart(micros: int)
    requires TimestampParts(micros).Some?
    ensures TimestampParts(micros).value.time == TimeParts(micros % USECS_PER_DAY)
    ensures TimestampParts(micros).value.date == J2Date(micros / USECS_PER_DAY + J2000_OFFSET)
  {
  }

  /** Every timestamp that is accepted is a date and a clock that say exactly its count. */
  lemma TimestampLossless(micros: int)
    ensures TimestampParts(micros).Some? <==> micros >= -J2000_OFFSET * USECS_PER_DAY
    ensures TimestampParts(micros).Some? ==>
              var x := TimestampParts(micros).value;
              IsDate(x.date) && IsClock(x.time) && MicrosSince2000(x) == micros
  {
    if TimestampParts(micros).Some? {
      ClockPart(micros);
      TimeIsClock(micros % USECS_PER_DAY);
      J2DateIsDate(micros / USECS_PER_DAY + J2000_OFFSET);
    }
  }

  /** Every date and clock from Julian day 0 on is the reading of exactly one count. */
  lemma TimestampOnto(x: Timestamp)
    requires IsDate(x.date) && IsClock(x.time) && Date2J(x.date) >= 0
    ensures TimestampParts(MicrosSince2000(x)) == Some(x)
  {
    var micros := MicrosSince2000(x);
    ClockIsTime(x.time);
    assert micros / USECS_PER_DAY == Date2J(x.date) - J2000_OFFSET;
    assert micros % USECS_PER_DAY == Micros(x.time);
    ClockPart(micros);
    DateRoundTrip(x.date);
  }

  /** `timestamp2struct` (Python) gives the same parts; `None` stands for its False. */
  method Timestamp2Struct(dt: int, div: (int, int) -> real) returns (ts: Option<seq<int>>)
    requires IsFloatDivision(div)
    ensures match TimestampParts(dt)
            case None => ts == None
            case Some(x) =>
              ts == Some([x.date.y, x.date.m, x.date.d, x.time.hour, x.time.minute, x.time.second, x.time.us])
  {
    var dateVal := dt / USECS_PER_DAY;
    var timeVal := dt % USECS_PER_DAY;
    if timeVal < 0 {
      timeVal := timeVal + USECS_PER_DAY;
      dateVal := dateVal - 1;
    }
    if dateVal < -J2000_OFFSET { return None; }
    dateVal := dateVal + J2000_OFFSET;
    var parts := J2DateList(dateVal);
    var fraction := timeVal % 1000000;
    TruncatedQuotient(div(timeVal, 1000000), timeVal, 1000000);
    timeVal := Truncated(div(timeVal, 1000000));
    TruncatedQuotient(div(timeVal, 3600), timeVal, 3600);
    var hour := Truncated(div(timeVal, 3600));
    timeVal := timeVal - hour * 3600;
    TruncatedQuotient(div(timeVal, 60), timeVal, 60);
    var minute := Truncated(div(timeVal, 60));
    var second := timeVal - minute * 60;
    ghost var x := TimestampParts(dt).value;
    assert x.time == Time(hour, minute, second, fraction);
    assert parts == [x.date.y, x.date.m, x.date.d];
    var all := parts + [hour, minute, second, fraction];
    assert all == [x.date.y, x.date.m, x.date.d, x.time.hour, x.time.minute, x.time.second, x.time.us];
    ts := Some(all);
  }
}
