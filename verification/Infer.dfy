/** Column type inference and cell conversion for bulk loads: a type inferred from all rows
    accepts every one of their numbers and truth values. */
module Inference {
  import opened Options
  import opened Decimals
  import opened DelimitedText

  /** A cell of the caller. Other values (floats, dates, binary data) are opaque. */
  datatype Value =
    | NoneValue
    | BoolValue(truth: bool)
    | IntValue(number: int)
    | DecimalValue(decimal: Dec)
    | StrValue(text: string)
    | OtherValue(id: int)

  datatype ColumnType =
    | IntColumn(low: int, high: int)
    | NumericColumn(precision: nat, scale: nat)
    | BoolColumn
    | TextColumn(length: Option<nat>, national: bool)
    | OtherColumn(kind: int)

  datatype InferError = BeyondBigint | BeyondNumeric | NonFinite | TextTooLong

  datatype Inferred = Typed(ctype: ColumnType) | Refused(error: InferError)

  const MAX_VARCHAR_BYTES := 64000

  // ----- inference ---------------------------------------------------------------------------

  predicate IsPlain(v: Value) { v.NoneValue? || v.BoolValue? || v.IntValue? || v.DecimalValue? }

  function NonNull(values: seq<Value>): (s: seq<Value>)
    ensures forall i :: 0 <= i < |s| ==> s[i] in values && !s[i].NoneValue?
    ensures forall v <- values :: !v.NoneValue? ==> v in s
  {
    if values == [] then []
    else (if values[0].NoneValue? then [] else [values[0]]) + NonNull(values[1..])
  }

  predicate AllBool(values: seq<Value>) { forall v <- values :: v.BoolValue? }

  predicate AllInt(values: seq<Value>) { forall v <- values :: v.IntValue? }

  predicate AllNumber(values: seq<Value>) { forall v <- values :: v.IntValue? || v.DecimalValue? }

  function IntType(low: int, high: int): Inferred {
    if -32768 <= low && high <= 32767 then Typed(IntColumn(-32768, 32767))
    else if -2147483648 <= low && high <= 2147483647 then Typed(IntColumn(-2147483648, 2147483647))
    else if -0x8000_0000_0000_0000 <= low && high < 0x8000_0000_0000_0000 then
      Typed(IntColumn(-0x8000_0000_0000_0000, 0x7fff_ffff_ffff_ffff))
    else Refused(BeyondBigint)
  }

  function NumericType(precision: nat, scale: nat): Inferred {
    if precision > 38 then Refused(BeyondNumeric) else Typed(NumericColumn(precision, scale))
  }

  /** `_text_type` for text without characters outside ASCII. */
  function AsciiType(bytes: nat): Inferred {
    if bytes > MAX_VARCHAR_BYTES then Refused(TextTooLong)
    else Typed(TextColumn(Some(if bytes > 1 then bytes else 1), false))
  }

  function Magnitude(n: int): nat { if n < 0 then -n else n }

  /** Integer digits and decimal places that a number asks for. */
  function NumberShape(v: Value): (nat, nat)
    requires HasShape(v)
  {
    if v.IntValue? then (NumDigits(Magnitude(v.number)), 0)
    else
      var d := Normalize(v.decimal);
      Shape(d.coefficient, d.exponent)
  }

  /** `_text_of`. */
  function TextOf(v: Value): string
    requires v.BoolValue? || v.IntValue? || v.DecimalValue?
  {
    match v
    case BoolValue(b) => if b then "true" else "false"
    case IntValue(n) => IntText(n)
    case DecimalValue(d) => if d.Special? then d.name else FixedText(d.negative, d.coefficient, d.exponent)
  }

  function Max(a: int, b: int): int { if a >= b then a else b }

  function Min(a: int, b: int): int { if a <= b then a else b }

  function Least(values: seq<Value>): int
    requires values != [] && AllInt(values)
  {
    if |values| == 1 then values[0].number else Min(Least(values[..|values| - 1]), values[|values| - 1].number)
  }

  function Greatest(values: seq<Value>): int
    requires values != [] && AllInt(values)
  {
    if |values| == 1 then values[0].number else Max(Greatest(values[..|values| - 1]), values[|values| - 1].number)
  }

  predicate AllShaped(values: seq<Value>) { forall v <- values :: HasShape(v) }

  function MostDigits(values: seq<Value>): nat
    requires AllShaped(values)
  {
    if values == [] then 0
    else
      var last := values[|values| - 1];
      assert last in values;
      Max(MostDigits(values[..|values| - 1]), NumberShape(last).0)
  }

  function MostPlaces(values: seq<Value>): nat
    requires AllShaped(values)
  {
    if values == [] then 0
    else
      var last := values[|values| - 1];
      assert last in values;
      Max(MostPlaces(values[..|values| - 1]), NumberShape(last).1)
  }

  function Longest(values: seq<Value>): nat
    requires AllTexts(values)
  {
    if values == [] then 0
    else
      var last := values[|values| - 1];
      assert last in values;
      Max(Longest(values[..|values| - 1]), |TextOf(last)|)
  }

  /** The type of a column without None cells, by what its cells are. */
  function TypeOf(values: seq<Value>): Inferred
    requires AllTexts(values)
  {
    if values == [] then AsciiType(255)
    else if AllBool(values) then Typed(BoolColumn)
    else if AllInt(values) then IntType(Least(values), Greatest(values))
    else if !AllNumber(values) then AsciiType(Longest(values))
    else if !AllShaped(values) then Refused(NonFinite)
    else NumericType(Max(MostDigits(values) + MostPlaces(values), 1), MostPlaces(values))
  }

  /** `_infer_column_type` on a column of None, bool, int and Decimal cells. A type fits every
      cell; a refusal names what no type of the kind can hold. */
  method InferColumnType(values: seq<Value>) returns (r: Inferred)
    requires forall v <- values :: IsPlain(v)
    ensures r == TypeOf(NonNull(values))
    ensures r.Typed? ==> FitsAll(r.ctype, values)
    ensures r.Refused? && r.error == NonFinite ==> exists v <- values :: v.DecimalValue? && v.decimal.Special?
    ensures r.Refused? && r.error == BeyondBigint ==>
              exists v <- values :: v.IntValue? && !(-0x8000_0000_0000_0000 <= v.number < 0x8000_0000_0000_0000)
    ensures r.Refused? && r.error == BeyondNumeric ==> exists p: nat, s: nat :: p > 38 && Needs(NonNull(values), p, s)
    ensures r.Refused? && r.error == TextTooLong ==> TooLong(NonNull(values))
    ensures Chosen(NonNull(values), r)
  {
    var nonNull := NonNull(values);
    if nonNull == [] { return AsciiType(255); }
    if AllBool(nonNull) { return Typed(BoolColumn); }
    if AllInt(nonNull) {
      r := InferInt(nonNull);
    } else if AllNumber(nonNull) {
      r := InferNumeric(nonNull);
    } else {
      r := InferText(nonNull);
    }
  }

  /** The type is of the kind of the cells, and no smaller type of that kind fits them: one of
      the cells needs it. A column without cells becomes text. */
  ghost predicate Chosen(cells: seq<Value>, r: Inferred)
    requires AllTexts(cells)
  {
    if cells == [] then r == Typed(TextColumn(Some(255), false))
    else if AllBool(cells) then r == Typed(BoolColumn)
    else if AllInt(cells) then
      match r
      case Typed(ct) => ct.IntColumn? && SmallestInt(cells, ct.low, ct.high)
      case Refused(error) => error == BeyondBigint
    else if AllNumber(cells) then
      match r
      case Typed(ct) => ct.NumericColumn? && Needs(cells, ct.precision, ct.scale)
      case Refused(error) => error == BeyondNumeric || error == NonFinite
    else
      match r
      case Typed(ct) => ct.TextColumn? && !ct.national && ct.length.Some? && NeedsLength(cells, ct.length.value)
      case Refused(error) => error == TextTooLong
  }

  /** SMALLINT, or INTEGER or BIGINT when a cell is outside the next smaller type. */
  ghost predicate SmallestInt(cells: seq<Value>, low: int, high: int) {
    || (low == -32768 && high == 32767)
    || (low == -2147483648 && high == 2147483647
        && exists v <- cells :: v.IntValue? && !(-32768 <= v.number <= 32767))
    || (low == -0x8000_0000_0000_0000 && high == 0x7fff_ffff_ffff_ffff
        && exists v <- cells :: v.IntValue? && !(-2147483648 <= v.number <= 2147483647))
  }

  ghost predicate NeedsLength(cells: seq<Value>, length: nat)
    requires AllTexts(cells)
  {
    length == 1 || exists v <- cells :: |TextOf(v)| == length
  }

  /** What an inferred type promises about the cells it was inferred from. */
  ghost predicate FitsAll(ct: ColumnType, values: seq<Value>) {
    match ct
    case BoolColumn => forall v <- values :: v.NoneValue? || v.BoolValue?
    case IntColumn(low, high) => forall v <- values :: v.NoneValue? || (v.IntValue? && low <= v.number <= high)
    case NumericColumn(precision, scale) =>
      scale <= precision <= 38 && forall v <- values :: v.NoneValue? || FitsNumeric(v, precision, scale)
    case TextColumn(length, _) =>
      length.Some? && forall v <- values :: v.NoneValue? || (IsPlain(v) && |TextOf(v)| <= length.value)
    case OtherColumn(_) => false
  }

  predicate FitsNumeric(v: Value, precision: nat, scale: nat)
    requires scale <= precision
  {
    && HasShape(v)
    && NumberShape(v).0 <= precision - scale && NumberShape(v).1 <= scale
  }

  lemma {:induction false} LeastIsThere(values: seq<Value>) returns (i: nat)
    requires values != [] && AllInt(values)
    ensures i < |values| && values[i].number == Least(values)
    ensures forall v <- values :: Least(values) <= v.number
  {
    var n := |values| - 1;
    i := 0;
    if n > 0 {
      assert values == values[..n] + [values[n]];
      i := LeastIsThere(values[..n]);
      if values[n].number < values[i].number {
        i := n;
      }
    }
  }

  lemma {:induction false} GreatestIsThere(values: seq<Value>) returns (i: nat)
    requires values != [] && AllInt(values)
    ensures i < |values| && values[i].number == Greatest(values)
    ensures forall v <- values :: v.number <= Greatest(values)
  {
    var n := |values| - 1;
    i := 0;
    if n > 0 {
      assert values == values[..n] + [values[n]];
      i := GreatestIsThere(values[..n]);
      if values[n].number > values[i].number {
        i := n;
      }
    }
  }

  method InferInt(values: seq<Value>) returns (r: Inferred)
    requires values != [] && AllInt(values)
    ensures r == IntType(Least(values), Greatest(values))
    ensures r.Typed? ==> r.ctype.IntColumn? && forall v <- values :: r.ctype.low <= v.number <= r.ctype.high
    ensures r.Typed? ==> SmallestInt(values, r.ctype.low, r.ctype.high)
    ensures r.Refused? ==> r.error == BeyondBigint
                           && exists v <- values :: !(-0x8000_0000_0000_0000 <= v.number < 0x8000_0000_0000_0000)
  {
    var low, high := values[0].number, values[0].number;
    assert values[..1] == [values[0]];
    for i := 0 to |values|
      invariant if i == 0 then low == high == values[0].number
                else low == Least(values[..i]) && high == Greatest(values[..i])
    {
      if values[i].number < low { low := values[i].number; }
      if values[i].number > high { high := values[i].number; }
      assert values[..i + 1][..i] == values[..i];
    }
    assert values[..|values|] == values;
    ghost var i := LeastIsThere(values);
    ghost var j := GreatestIsThere(values);
    assert values[i] in values && values[j] in values;
    r := IntType(low, high);
  }

  lemma {:induction false} MostOfAll(values: seq<Value>)
    requires AllShaped(values)
    ensures forall v <- values :: NumberShape(v).0 <= MostDigits(values) && NumberShape(v).1 <= MostPlaces(values)
    ensures MostDigits(values) > 0 ==> exists v <- values :: HasShape(v) && NumberShape(v).0 == MostDigits(values)
    ensures MostPlaces(values) > 0 ==> exists v <- values :: HasShape(v) && NumberShape(v).1 == MostPlaces(values)
  {
    if values != [] {
      var n := |values| - 1;
      MostOfAll(values[..n]);
      assert values == values[..n] + [values[n]];
      assert values[n] in values;
    }
  }

  lemma NumericFits(values: seq<Value>)
    requires AllShaped(values)
    ensures var s := MostPlaces(values); var p := Max(MostDigits(values) + s, 1);
            Needs(values, p, s) && s <= p && forall v <- values :: FitsNumeric(v, p, s)
  {
    MostOfAll(values);
  }

  method InferNumeric(values: seq<Value>) returns (r: Inferred)
    requires values != [] && AllNumber(values)
    ensures r == if AllShaped(values) then NumericType(Max(MostDigits(values) + MostPlaces(values), 1), MostPlaces(values))
                 else Refused(NonFinite)
    ensures r.Typed? ==> r.ctype.NumericColumn? && r.ctype.scale <= r.ctype.precision <= 38
                         && (forall v <- values :: FitsNumeric(v, r.ctype.precision, r.ctype.scale))
                         && Needs(values, r.ctype.precision, r.ctype.scale)
    ensures r.Refused? ==> (r.error == BeyondNumeric && exists p: nat, s: nat :: p > 38 && Needs(values, p, s))
                           || (r.error == NonFinite && exists v <- values :: v.DecimalValue? && v.decimal.Special?)
  {
    var intDigits: nat, scale: nat := 0, 0;
    for i := 0 to |values|
      invariant AllShaped(values[..i]) && intDigits == MostDigits(values[..i]) && scale == MostPlaces(values[..i])
    {
      assert values[i] in values;
      if values[i].DecimalValue? && values[i].decimal.Special? { return Refused(NonFinite); }
      var (digits, places) := NumberShape(values[i]);
      intDigits := Max(intDigits, digits);
      scale := Max(scale, places);
      assert values[..i + 1] == values[..i] + [values[i]] && values[..i + 1][..i] == values[..i];
    }
    assert values[..|values|] == values;
    NumericFits(values);
    r := NumericType(Max(intDigits + scale, 1), scale);
  }

  /** A column of numbers needs this precision and scale: some cell has as many integer
      digits, and some as many decimal places. */
  ghost predicate Needs(values: seq<Value>, precision: nat, scale: nat) {
    && (scale > 0 ==> exists v <- values :: HasShape(v) && NumberShape(v).1 == scale)
    && (precision > 1 && precision > scale ==> exists v <- values :: HasShape(v) && NumberShape(v).0 == precision - scale)
  }

  predicate HasShape(v: Value) { v.IntValue? || (v.DecimalValue? && v.decimal.Finite?) }

  predicate AllTexts(values: seq<Value>) { forall v <- values :: IsPlain(v) && !v.NoneValue? }

  /** Some cell is longer than any VARCHAR. */
  ghost predicate TooLong(values: seq<Value>) {
    exists v <- values :: IsPlain(v) && !v.NoneValue? && |TextOf(v)| > MAX_VARCHAR_BYTES
  }

  lemma {:induction false} LongestOfAll(values: seq<Value>)
    requires AllTexts(values)
    ensures forall v <- values :: |TextOf(v)| <= Longest(values)
    ensures Longest(values) > MAX_VARCHAR_BYTES ==> TooLong(values)
    ensures Longest(values) > 0 ==> exists v <- values :: |TextOf(v)| == Longest(values)
  {
    if values != [] {
      var n := |values| - 1;
      LongestOfAll(values[..n]);
      assert values == values[..n] + [values[n]];
      assert values[n] in values;
    }
  }

  method InferText(values: seq<Value>) returns (r: Inferred)
    requires values != [] && AllTexts(values)
    ensures r == AsciiType(Longest(values))
    ensures r.Typed? ==> r.ctype.TextColumn? && r.ctype.length.Some?
                         && forall v <- values :: |TextOf(v)| <= r.ctype.length.value
    ensures r.Typed? ==> !r.ctype.national && NeedsLength(values, r.ctype.length.value)
    ensures r.Refused? ==> r.error == TextTooLong && TooLong(values)
  {
    var longest: nat := 0;
    for i := 0 to |values|
      invariant longest == Longest(values[..i])
    {
      assert values[i] in values;
      longest := Max(longest, |TextOf(values[i])|);
      assert values[..i + 1][..i] == values[..i];
    }
    assert values[..|values|] == values;
    LongestOfAll(values);
    r := AsciiType(longest);
  }

  // ----- conversion --------------------------------------------------------------------------

  /** A cell as text, as NULL, or not representable in its column. */
  datatype Converted = AsText(text: string) | AsNull | BadCell

  /** Conversions that are opaque here: strings and other values into typed columns. */
  type Oracle = (ColumnType, Value) -> Converted

  /** How many bytes a text takes in the column's encoding, if it can be encoded. */
  type Sizes = string -> Option<nat>

  function ConvertInt(ct: ColumnType, v: Value, other: Oracle): Converted
    requires ct.IntColumn?
  {
    match v
    case BoolValue(_) => BadCell
    case IntValue(n) => if ct.low <= n <= ct.high then AsText(IntText(n)) else BadCell
    case _ => other(ct, v)
  }

  function ConvertNumeric(ct: ColumnType, v: Value, other: Oracle): Converted
    requires ct.NumericColumn?
  {
    match v
    case BoolValue(_) => BadCell
    case IntValue(n) => ConvertDecimal(ct, Finite(n < 0, Magnitude(n), 0))
    case DecimalValue(d) => if d.Special? then BadCell else ConvertDecimal(ct, d)
    case _ => other(ct, v)
  }

  function ConvertDecimal(ct: ColumnType, d: Dec): Converted
    requires ct.NumericColumn? && d.Finite?
  {
    var number := Normalize(d);
    var (digits, places) := Shape(number.coefficient, number.exponent);
    if places > ct.scale then BadCell
    else if digits > ct.precision as int - ct.scale then BadCell
    else AsText(FixedText(number.negative, number.coefficient, number.exponent))
  }

  function ConvertBool(v: Value, other: Oracle): Converted {
    match v
    case BoolValue(b) => AsText(if b then "1" else "0")
    case IntValue(n) => if n == 0 || n == 1 then AsText(IntText(n)) else BadCell
    case StrValue(_) => other(BoolColumn, v)
    case _ => BadCell
  }

  predicate IsAscii(s: string) { forall i :: 0 <= i < |s| ==> s[i] < 128 as char }

  function ConvertText(ct: ColumnType, v: Value, o: LoadOptions, sizes: Sizes, other: Oracle): Converted
    requires ct.TextColumn?
  {
    match v
    case StrValue(t) => CheckText(ct, t, o, sizes)
    case BoolValue(b) => CheckText(ct, TextOf(v), o, sizes)
    case IntValue(_) => CheckText(ct, TextOf(v), o, sizes)
    case DecimalValue(d) => if d.Special? then BadCell else CheckText(ct, TextOf(v), o, sizes)
    case _ =>
      match other(ct, v)
      case AsText(t) => CheckText(ct, t, o, sizes)
      case x => x
  }

  function CheckText(ct: ColumnType, t: string, o: LoadOptions, sizes: Sizes): Converted
    requires ct.TextColumn?
  {
    if t == NULL_MARKER && o.escape != Some('\\') then BadCell
    else
      var size := if IsAscii(t) then Some(|t|) else if ct.national && sizes(t).Some? then Some(|t|) else sizes(t);
      if size.None? then BadCell
      else if ct.length.Some? && size.value > ct.length.value then BadCell
      else AsText(t)
  }

  function Convert(ct: ColumnType, v: Value, o: LoadOptions, sizes: Sizes, other: Oracle): Converted {
    match ct
    case IntColumn(_, _) => ConvertInt(ct, v, other)
    case NumericColumn(_, _) => ConvertNumeric(ct, v, other)
    case BoolColumn => ConvertBool(v, other)
    case TextColumn(_, _) => ConvertText(ct, v, o, sizes, other)
    case OtherColumn(_) => other(ct, v)
  }

  // ----- soundness -----------------------------------------------------------------------------

  /** The text denotes the value. */
  predicate Denotes(t: string, v: Value) {
    match v
    case BoolValue(b) => t == (if b then "1" else "0") || t == (if b then "true" else "false")
    case IntValue(n) => SameNumber(t, n < 0, Magnitude(n), 0)
    case DecimalValue(d) => d.Finite? && SameNumber(t, d.negative, d.coefficient, d.exponent)
    case _ => true
  }

  /** Which cells of the column their own inferred type accepts: all of them, except integers
      of more than 28 digits that round up to one digit more than any cell has, and the special
      numbers among truth values. */
  predicate Kept(ct: ColumnType, v: Value) {
    match ct
    case NumericColumn(p, s) => v.IntValue? ==> !Carries(Magnitude(v.number)) || NumDigits(Magnitude(v.number)) + s < p
    case TextColumn(_, _) => v.DecimalValue? ==> v.decimal.Finite?
    case _ => true
  }

  lemma SoundNumeric(ct: ColumnType, v: Value, o: LoadOptions, sizes: Sizes, other: Oracle)
    requires ct.NumericColumn? && ct.scale <= ct.precision && FitsNumeric(v, ct.precision, ct.scale)
    ensures Convert(ct, v, o, sizes, other).AsText? <==> Kept(ct, v)
  {
    if v.IntValue? {
      WholeShape(v.number < 0, Magnitude(v.number));
    }
  }

  lemma DigitsAreAscii(s: string)
    requires AllDigits(s)
    ensures IsAscii(s)
  {
    forall i | 0 <= i < |s|
      ensures s[i] < 128 as char
    {
      assert IsDigit(s[i]);
    }
  }

  lemma AsciiJoin(a: string, b: string)
    requires IsAscii(a) && IsAscii(b)
    ensures IsAscii(a + b)
  {
  }

  lemma FixedIsAscii(c: nat, e: int)
    ensures IsAscii(FixedBody(c, e)) && IsDigit(FixedBody(c, e)[0])
  {
    if e >= 0 {
      if c > 0 {
        DigitsAreAscii(NatText(c) + Decimals.Zeros(e));
      }
    } else {
      var all := Padded(c, -e);
      DigitsAreAscii(all[..|all| + e]);
      DigitsAreAscii(all[|all| + e..]);
      AsciiJoin(".", all[|all| + e..]);
      AsciiJoin(all[..|all| + e], "." + all[|all| + e..]);
    }
  }

  lemma TextIsAscii(v: Value)
    requires v.BoolValue? || v.IntValue? || (v.DecimalValue? && v.decimal.Finite?)
    ensures IsAscii(TextOf(v)) && TextOf(v) != NULL_MARKER
  {
    if v.IntValue? {
      DigitsAreAscii(NatText(Magnitude(v.number)));
      AsciiJoin("-", NatText(Magnitude(v.number)));
      assert IsDigit(NatText(Magnitude(v.number))[0]);
      assert TextOf(v)[0] == '-' || IsDigit(TextOf(v)[0]);
    } else if v.DecimalValue? {
      FixedIsAscii(v.decimal.coefficient, v.decimal.exponent);
      AsciiJoin("-", FixedBody(v.decimal.coefficient, v.decimal.exponent));
      assert TextOf(v)[0] == '-' || IsDigit(TextOf(v)[0]);
    }
  }

  /** Inference is sound: every cell that the type was inferred from is then accepted, if and
      only if it is not one of the named exceptions. */
  lemma InferenceSound(ct: ColumnType, values: seq<Value>, v: Value, o: LoadOptions, sizes: Sizes, other: Oracle)
    requires FitsAll(ct, values) && v in values && IsPlain(v) && !v.NoneValue?
    ensures Convert(ct, v, o, sizes, other).AsText? <==> Kept(ct, v)
  {
    if ct.NumericColumn? {
      SoundNumeric(ct, v, o, sizes, other);
    } else if ct.TextColumn? && Kept(ct, v) {
      TextIsAscii(v);
    }
  }

  /** Whether an accepted text denotes the cell: always, except in a NUMERIC column for a
      number of more than 28 digits besides trailing zeros, which was rounded. */
  predicate Exact(ct: ColumnType, v: Value) {
    ct.NumericColumn? ==>
      && (v.IntValue? ==> SignificantDigits(Magnitude(v.number)) <= PRECISION)
      && (v.DecimalValue? ==> v.decimal.Finite? && SignificantDigits(v.decimal.coefficient) <= PRECISION)
  }

  /** What an accepted cell of an inferred column says is the cell's value, if and only if the
      number was not rounded. */
  lemma DenotesExactly(ct: ColumnType, values: seq<Value>, v: Value, o: LoadOptions, sizes: Sizes, other: Oracle)
    requires FitsAll(ct, values) && v in values && IsPlain(v) && !v.NoneValue? && Kept(ct, v)
    ensures Convert(ct, v, o, sizes, other).AsText?
    ensures Denotes(Convert(ct, v, o, sizes, other).text, v) <==> Exact(ct, v)
  {
    InferenceSound(ct, values, v, o, sizes, other);
    if v.IntValue? {
      if ct.NumericColumn? {
        NormalTextExactly(Finite(v.number < 0, Magnitude(v.number), 0));
      } else {
        IntTextDenotes(v.number);
      }
    } else if v.DecimalValue? {
      if ct.NumericColumn? {
        NormalTextExactly(v.decimal);
      } else {
        FixedTextRead(v.decimal.negative, v.decimal.coefficient, v.decimal.exponent);
      }
    }
  }

  /** The promise without exceptions: with at most 28 digits everywhere, every cell of an
      inferred column of numbers and truth values is accepted and denotes its value. */
  lemma InferenceSoundTo28Digits(ct: ColumnType, values: seq<Value>, v: Value, o: LoadOptions, sizes: Sizes, other: Oracle)
    requires FitsAll(ct, values) && v in values && IsPlain(v) && !v.NoneValue?
    requires v.IntValue? ==> NumDigits(Magnitude(v.number)) <= PRECISION
    requires v.DecimalValue? ==> v.decimal.Finite? && NumDigits(v.decimal.coefficient) <= PRECISION
    ensures Convert(ct, v, o, sizes, other).AsText?
    ensures Denotes(Convert(ct, v, o, sizes, other).text, v)
  {
    var c := if v.IntValue? then Magnitude(v.number) else if v.DecimalValue? then v.decimal.coefficient else 0;
    if c > 0 {
      StripSplits(c);
    }
    DenotesExactly(ct, values, v, o, sizes, other);
  }

  lemma MostOfTwo(x: Value, y: Value)
    requires HasShape(x) && HasShape(y)
    ensures MostDigits([x, y]) == Max(NumberShape(x).0, NumberShape(y).0)
    ensures MostPlaces([x, y]) == Max(NumberShape(x).1, NumberShape(y).1)
  {
    assert [x, y][..1] == [x] && [x][..0] == [];
    assert MostDigits([x]) == NumberShape(x).0;
    assert MostPlaces([x]) == NumberShape(x).1;
    assert MostPlaces([x, y]) == Max(MostPlaces([x]), NumberShape(y).1);
  }

  lemma OneAndNines(k: nat, nines: Value)
    requires PRECISION < k <= 38 && nines.IntValue? && NumberShape(nines) == (k, 0)
    ensures TypeOf([DecimalValue(Finite(false, 1, 0)), nines]) == Typed(NumericColumn(k, 0))
  {
    var one := DecimalValue(Finite(false, 1, 0));
    assert Normalize(Finite(false, 1, 0)) == Finite(false, 1, 0) && Shape(1, 0) == (1, 0);
    MostOfTwo(one, nines);
    assert one in [one, nines];
    assert !AllBool([one, nines]) && !AllInt([one, nines]) && AllNumber([one, nines]) && AllShaped([one, nines]);
  }

  lemma TrueAndNaN()
    ensures TypeOf([BoolValue(true), DecimalValue(Special("NaN"))]) == Typed(TextColumn(Some(4), false))
  {
    var truth, nan := BoolValue(true), DecimalValue(Special("NaN"));
    var both := [truth, nan];
    assert both[..1] == [truth] && [truth][..0] == [];
    assert Longest([truth]) == 4;
    assert |TextOf(nan)| == 3;
    assert Longest(both) == 4;
    assert truth in both && nan in both;
    assert !AllBool(both) && !AllInt(both) && !AllNumber(both);
  }

  /** The exceptions exist: a column of one Decimal and a number of nines, and a column of a
      truth value and a NaN. */
  lemma UnsoundColumns(k: nat, o: LoadOptions, sizes: Sizes, other: Oracle)
    requires PRECISION < k <= 38
    ensures var nines := IntValue(Pow10(k) - 1);
            && TypeOf([DecimalValue(Finite(false, 1, 0)), nines]) == Typed(NumericColumn(k, 0))
            && Convert(NumericColumn(k, 0), nines, o, sizes, other) == BadCell
    ensures TypeOf([BoolValue(true), DecimalValue(Special("NaN"))]) == Typed(TextColumn(Some(4), false))
    ensures Convert(TextColumn(Some(4), false), DecimalValue(Special("NaN")), o, sizes, other) == BadCell
  {
    NinesCarry(k);
    var nines := IntValue(Pow10(k) - 1);
    assert Normalize(Finite(false, 1, 0)) == Finite(false, 1, 0);
    assert Shape(1, 0) == (1, 0);
    assert FitsNumeric(nines, k, 0);
    OneAndNines(k, nines);
    TrueAndNaN();
    SoundNumeric(NumericColumn(k, 0), nines, o, sizes, other);
  }
}
