/** Julian day numbers and the proleptic Gregorian calendar. */
module Calendar {
  import opened Division

  datatype Date = Date(y: int, m: int, d: int)

  // ----- the calendar, independently of the day numbers ---------------------------------

  predicate IsLeap(y: int) { y % 4 == 0 && (y % 100 != 0 || y % 400 == 0) }

  function DaysInMonth(y: int, m: int): int {
    if m == 2 then if IsLeap(y) then 29 else 28
    else if m == 4 || m == 6 || m == 9 || m == 11 then 30
    else 31
  }

  predicate IsDate(x: Date) { 1 <= x.m <= 12 && 1 <= x.d <= DaysInMonth(x.y, x.m) }

  function NextDay(x: Date): Date {
    if x.d < DaysInMonth(x.y, x.m) then x.(d := x.d + 1)
    else if x.m < 12 then Date(x.y, x.m + 1, 1)
    else Date(x.y + 1, 1, 1)
  }

  // ----- the two conversions ---------------------------------------------------------------

  /** Division that truncates, as `int(a / b)` does for small numbers. */
  function Quotient(a: int, b: int): int
    requires b > 0
  {
    if a >= 0 then a / b else -(-a / b)
  }

  function Date2J(x: Date): int {
    var m12 := Quotient(x.m - 14, 12);
    1461 * (x.y + 4800 + m12) / 4 + 367 * (x.m - 2 - 12 * m12) / 12 - 3 * ((x.y + 4900 + m12) / 100) / 4 + x.d - 32075
  }

  function J2Date(jd: int): Date {
    var l := jd + 68569;
    var n := 4 * l / 146097;
    var l1 := l - (146097 * n + 3) / 4;
    var i := 4000 * (l1 + 1) / 1461001;
    var l2 := l1 + 31 - 1461 * i / 4;
    var j := 80 * l2 / 2447;
    var day := l2 - 2447 * j / 80;
    var l3 := j / 11;
    Date(100 * (n - 49) + i + l3, j + 2 - 12 * l3, day)
  }

  /** The Python function, which updates its locals. */
  method J2DateList(jd: int) returns (date: seq<int>)
    ensures var x := J2Date(jd); date == [x.y, x.m, x.d]
  {
    date := [];
    var lval := jd + 68569;
    var nval := 4 * lval / 146097;
    lval := lval - (146097 * nval + 3) / 4;
    var ival := 4000 * (lval + 1) / 1461001;
    lval := lval + (31 - 1461 * ival / 4);
    var jval := 80 * lval / 2447;
    var day := lval - 2447 * jval / 80;
    lval := jval / 11;
    var month := jval + 2 - 12 * lval;
    var year := 100 * (nval - 49) + ival + lval;
    date := date + [year];
    date := date + [month];
    date := date + [day];
  }

  // ----- centuries, years and months that begin in March ----------------------------------

  /** A day as century, year of the century, month (from March) and day of the month. */
  datatype Parts = Parts(n: int, i: int, j: int, day: int)

  function CenturyStart(n: int): int { (146097 * n + 3) / 4 }

  function YearStart(i: int): int { 1461 * i / 4 }

  function MonthStart(j: int): int { 2447 * j / 80 }

  /** Days since the first of March of year `i`, counted from 31. */
  function DayOfYear(p: Parts): int { MonthStart(p.j) + p.day }

  function DayNumber(p: Parts): int { CenturyStart(p.n) + YearStart(p.i) + DayOfYear(p) - 31 - 68569 }

  function ToDate(p: Parts): Date {
    var l3 := p.j / 11;
    Date(100 * (p.n - 49) + p.i + l3, p.j + 2 - 12 * l3, p.day)
  }

  function OfDate(x: Date): Parts {
    var before := if x.m <= 2 then 1 else 0;
    var y := x.y - before;
    Parts(y / 100 + 49, y % 100, x.m - 2 + 12 * before, x.d)
  }

  /** The leap day is the last day of a year that begins in March. */
  predicate LongYear(n: int, i: int) { i % 4 == 3 && (i != 99 || n % 4 == 0) }

  predicate InRange(p: Parts) {
    0 <= p.i <= 99 && 1 <= p.j <= 12 && IsDate(ToDate(p))
  }

  lemma OfDateToDate(x: Date)
    requires IsDate(x)
    ensures ToDate(OfDate(x)) == x && InRange(OfDate(x))
  {
  }

  /** The month table: where each month starts and how long it is. */
  lemma Months(j: int)
    requires 1 <= j <= 12
    ensures MonthStart(j) == 367 * j / 12
    ensures MonthStart(j) == [30, 61, 91, 122, 152, 183, 214, 244, 275, 305, 336, 367][j - 1]
  {
  }

  lemma LeapAtCentury(n: int)
    ensures IsLeap(100 * n) <==> n % 4 == 0
  {
    DivUnique(100 * n, 100, n, 0);
    DivUnique(100 * n, 4, 25 * n, 0);
    DivUnique(100 * n, 400, n / 4, 100 * (n % 4));
  }

  lemma LeapWithinCentury(n: int, i: int)
    requires 1 <= i <= 99
    ensures IsLeap(100 * n + i) <==> i % 4 == 0
  {
    DivUnique(100 * n + i, 100, n, i);
    DivShift(i, 4, 25 * n);
  }

  lemma FebruaryLength(p: Parts)
    requires 0 <= p.i <= 99 && p.j == 12
    ensures ToDate(p).m == 2 && (IsLeap(ToDate(p).y) <==> LongYear(p.n, p.i))
  {
    assert ToDate(p).y == 100 * (p.n - 49) + (p.i + 1);
    if p.i == 99 {
      LeapAtCentury(p.n - 48);
      DivShift(p.n - 48, 4, 12);
    } else {
      LeapWithinCentury(p.n - 49, p.i + 1);
    }
  }

  /** A day of a month is a day of its year, and a year is as long as its leap day says. */
  lemma DayOfYearRange(p: Parts)
    requires 0 <= p.i <= 99 && 1 <= p.j <= 12
    ensures IsDate(ToDate(p)) ==> 31 <= DayOfYear(p) <= (if LongYear(p.n, p.i) then 396 else 395)
    ensures IsDate(ToDate(p)) ==> 80 * DayOfYear(p) / 2447 == p.j
  {
    Months(p.j);
    if p.j == 12 {
      FebruaryLength(p);
    }
  }

  lemma DayOfMonthRange(n: int, i: int, l2: int)
    requires 0 <= i <= 99 && 31 <= l2 <= (if LongYear(n, i) then 396 else 395)
    ensures var j := 80 * l2 / 2447; 1 <= j <= 12 && InRange(Parts(n, i, j, l2 - MonthStart(j)))
  {
    var j := 80 * l2 / 2447;
    Months(j);
    if j == 12 {
      FebruaryLength(Parts(n, i, j, l2 - MonthStart(j)));
    }
  }

  lemma YearStartIs(i: int)
    ensures YearStart(i) == 365 * i + i / 4
  {
    DivShift(i, 4, 365 * i);
  }

  lemma CenturyStartIs(n: int)
    ensures CenturyStart(n) == 36524 * n + (n + 3) / 4
  {
    DivShift(n + 3, 4, 36524 * n);
  }

  /** The year of the century a day falls in, and the other way round. */
  lemma YearOfDay(n: int, i: int, l1: int)
    requires 0 <= i <= 99 && 31 <= l1 - YearStart(i) + 31 <= (if LongYear(n, i) then 396 else 395)
    ensures 4000 * (l1 + 1) / 1461001 == i
  {
    YearStartIs(i);
    DivIs(4000 * (l1 + 1), 1461001, i);
  }

  lemma DayInYear(n: int, l1: int)
    requires 0 <= l1 < CenturyStart(n + 1) - CenturyStart(n)
    ensures var i := 4000 * (l1 + 1) / 1461001;
            0 <= i <= 99 && 31 <= l1 - YearStart(i) + 31 <= (if LongYear(n, i) then 396 else 395)
  {
    var i := 4000 * (l1 + 1) / 1461001;
    DivIs(4000 * (l1 + 1), 1461001, i);
    YearStartIs(i);
    CenturyLength(n);
  }

  lemma CenturyLength(n: int)
    ensures CenturyStart(n + 1) - CenturyStart(n) == if n % 4 == 0 then 36525 else 36524
  {
    CenturyStartIs(n);
    CenturyStartIs(n + 1);
  }

  lemma CenturyOfDay(n: int, l: int)
    ensures CenturyStart(n) <= l < CenturyStart(n + 1) <==> 4 * l / 146097 == n
  {
    DivIs(4 * l, 146097, n);
    DivIs(146097 * n + 3, 4, CenturyStart(n));
    DivIs(146097 * (n + 1) + 3, 4, CenturyStart(n + 1));
  }

  lemma DayInCentury(p: Parts)
    requires InRange(p)
    ensures 0 <= DayNumber(p) + 68569 - CenturyStart(p.n) < CenturyStart(p.n + 1) - CenturyStart(p.n)
  {
    DayOfYearRange(p);
    CenturyLength(p.n);
    YearStartIs(p.i);
  }

  // ----- the theorems ------------------------------------------------------------------------

  /** The parts `J2Date` computes. */
  function PartsOf(jd: int): Parts {
    var l := jd + 68569;
    var n := 4 * l / 146097;
    var l1 := l - CenturyStart(n);
    var i := 4000 * (l1 + 1) / 1461001;
    var l2 := l1 - YearStart(i) + 31;
    Parts(n, i, 80 * l2 / 2447, l2 - MonthStart(80 * l2 / 2447))
  }

  lemma J2DateParts(jd: int)
    ensures J2Date(jd) == ToDate(PartsOf(jd))
  {
    var p := PartsOf(jd);
    var l1 := jd + 68569 - (146097 * p.n + 3) / 4;
    assert p.i == 4000 * (l1 + 1) / 1461001;
    assert p.j == 80 * (l1 + 31 - 1461 * p.i / 4) / 2447;
  }

  lemma PartsNumber(jd: int)
    ensures DayNumber(PartsOf(jd)) == jd
  {
  }

  lemma PartsInRange(jd: int)
    ensures InRange(PartsOf(jd))
  {
    var l := jd + 68569;
    var n := 4 * l / 146097;
    CenturyOfDay(n, l);
    var l1 := l - CenturyStart(n);
    DayInYear(n, l1);
    var i := 4000 * (l1 + 1) / 1461001;
    DayOfMonthRange(n, i, l1 - YearStart(i) + 31);
  }

  lemma PartsUnique(p: Parts)
    requires InRange(p)
    ensures PartsOf(DayNumber(p)) == p
  {
    var l := DayNumber(p) + 68569;
    DayInCentury(p);
    CenturyOfDay(p.n, l);
    var l1 := l - CenturyStart(p.n);
    DayOfYearRange(p);
    YearOfDay(p.n, p.i, l1);
  }

  /** Days before the year that begins in March of 100(n - 1) + i - 4800. */
  lemma YearsBefore(n: int, i: int)
    requires 0 <= i <= 99
    ensures var y := 100 * (n - 1) + i;
            1461 * y / 4 - 3 * ((y + 100) / 100) / 4 == CenturyStart(n) - 36525 + YearStart(i)
  {
    var y := 100 * (n - 1) + i;
    DivShift(1461 * i, 4, 36525 * (n - 1));
    assert 1461 * y == 4 * (36525 * (n - 1)) + 1461 * i;
    DivUnique(y + 100, 100, n, i);
    CenturyStartIs(n);
    ThreeQuarters(n);
  }

  lemma ThreeQuarters(n: int)
    ensures 3 * n / 4 == n - (n + 3) / 4
  {
    var h, r := n / 4, n % 4;
    DivShift(3 * r, 4, 3 * h);
    DivShift(r + 3, 4, h);
  }

  lemma Date2JIsDayNumber(p: Parts)
    requires InRange(p)
    ensures Date2J(ToDate(p)) == DayNumber(p)
  {
    Months(p.j);
    YearsBefore(p.n, p.i);
    MarchYear(p);
  }

  /** Undoing the shift of the year to March. */
  lemma MarchYear(p: Parts)
    requires 1 <= p.j <= 12
    ensures var x := ToDate(p); var m12 := Quotient(x.m - 14, 12);
            && x.y + 4800 + m12 == 100 * (p.n - 1) + p.i && x.y + 4900 + m12 == 100 * (p.n - 1) + p.i + 100
            && x.m - 2 - 12 * m12 == p.j && x.d == p.day
  {
    assert p.j / 11 == if p.j >= 11 then 1 else 0;
    assert Quotient(ToDate(p).m - 14, 12) == (if p.j >= 11 then -1 else 0);
  }

  /** Every day number is a date, and its own. */
  lemma J2DateIsDate(jd: int)
    ensures IsDate(J2Date(jd))
    ensures Date2J(J2Date(jd)) == jd
  {
    PartsInRange(jd);
    PartsNumber(jd);
    J2DateParts(jd);
    Date2JIsDayNumber(PartsOf(jd));
  }

  /** Every date is the date of its day number. */
  lemma DateRoundTrip(x: Date)
    requires IsDate(x)
    ensures J2Date(Date2J(x)) == x
  {
    OfDateToDate(x);
    var p := OfDate(x);
    Date2JIsDayNumber(p);
    PartsUnique(p);
    J2DateParts(DayNumber(p));
  }

  function NextParts(p: Parts): Parts {
    if p.day < DaysInMonth(ToDate(p).y, ToDate(p).m) then p.(day := p.day + 1)
    else if p.j < 12 then Parts(p.n, p.i, p.j + 1, 1)
    else if p.i < 99 then Parts(p.n, p.i + 1, 1, 1)
    else Parts(p.n + 1, 0, 1, 1)
  }

  lemma NextPartsIsNextDay(p: Parts)
    requires InRange(p)
    ensures InRange(NextParts(p)) && ToDate(NextParts(p)) == NextDay(ToDate(p))
  {
  }

  lemma NextPartsNumber(p: Parts)
    requires InRange(p)
    ensures DayNumber(NextParts(p)) == DayNumber(p) + 1
  {
    Months(p.j);
    if p.day == DaysInMonth(ToDate(p).y, ToDate(p).m) {
      if p.j < 12 {
        Months(p.j + 1);
      } else {
        FebruaryLength(p);
        CenturyLength(p.n);
        YearStartIs(p.i);
        YearStartIs(p.i + 1);
      }
    }
  }

  lemma NextDayNumber(x: Date)
    requires IsDate(x)
    ensures IsDate(NextDay(x)) && Date2J(NextDay(x)) == Date2J(x) + 1
  {
    OfDateToDate(x);
    var p := OfDate(x);
    NextPartsIsNextDay(p);
    NextPartsNumber(p);
    Date2JIsDayNumber(p);
    Date2JIsDayNumber(NextParts(p));
  }

  lemma OnlyDateOf(x: Date, jd: int)
    requires IsDate(x) && Date2J(x) == jd
    ensures J2Date(jd) == x
  {
    DateRoundTrip(x);
  }

  /** The day numbers count the calendar: one more is the next day. */
  lemma J2DateNext(jd: int)
    ensures J2Date(jd + 1) == NextDay(J2Date(jd))
  {
    J2DateIsDate(jd);
    NextDayNumber(J2Date(jd));
    OnlyDateOf(NextDay(J2Date(jd)), jd + 1);
  }

  /** Where the count starts: 1 January 2000 is day 2451545, and day 0 is in 4714 BC. */
  lemma Epochs(first: Date, zero: Date)
    requires first == Date(2000, 1, 1) && zero == Date(-4713, 11, 24)
    ensures Date2J(first) == 2451545 && Date2J(zero) == 0
  {
    assert Quotient(first.m - 14, 12) == -1;
    assert Quotient(zero.m - 14, 12) == 0;
  }
}
