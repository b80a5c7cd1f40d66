/** Row layout: where each field of a row starts, validated before any value is decoded. */
module Layouts {
  import opened Options
  import opened Wire

  newtype i64 = x: int | -0x8000_0000_0000_0000 <= x < 0x8000_0000_0000_0000

  /** Column metadata, one entry per field in descriptor order. */
  datatype Field = Field(phys: i64, ftype: i64, size: i64, trueSize: i64, offset: i64, fixed: i64)

  /** Header values of the tuple descriptor. */
  datatype Shape = Shape(numFields: i64, nullsAllowed: bool, fixedFieldsSize: i64, numVarying: i64)

  datatype Fault =
    | FieldCount
    | FieldHeader
    | MetadataTruncated
    | RowTooShort
    | FixedAreaOffset
    | VaryingCount
    | VaryingTruncated
    | VaryingLength
    | VaryingBeyond
    | PhysicalIndex(index: nat)
    | FixedSize(index: nat)
    | VaryingIndex(index: nat)
    | StartOutside(index: nat)
    | FieldSize(index: nat)
    | FieldBeyond(index: nat)
    | PrefixTruncated(index: nat)
    | NumericWidth(index: nat)

  datatype Result<+T> = Ok(value: T) | Err(fault: Fault) {
    predicate IsFailure() { Err? }

    function PropagateFailure<U>(): Result<U>
      requires Err?
    {
      Err(fault)
    }

    function Extract(): T
      requires Ok?
    {
      value
    }
  }

  const DOUBLE: i64 := 2
  const INT: i64 := 3
  const FLOAT: i64 := 4
  const DATE: i64 := 6
  const NUMERIC: i64 := 7
  const TIME: i64 := 8
  const TIMESTAMP: i64 := 9
  const INTERVAL: i64 := 10
  const TIMETZ: i64 := 11
  const BOOL: i64 := 12
  const INT1: i64 := 13
  const CHAR: i64 := 15
  const VARCHAR: i64 := 16
  const UNKNOWN: i64 := 18
  const INT2: i64 := 19
  const INT8: i64 := 20
  const VARFIXEDCHAR: i64 := 21
  const GEOMETRY: i64 := 22
  const VARBINARY: i64 := 23
  const NCHAR: i64 := 25
  const NVARCHAR: i64 := 26
  const JSON: i64 := 30
  const JSONB: i64 := 31
  const JSONPATH: i64 := 32
  const VECTOR: i64 := 33

  predicate IsLengthPrefixed(t: i64) {
    t == NCHAR || t == NVARCHAR || t == VARCHAR || t == VARFIXEDCHAR || t == GEOMETRY || t == VARBINARY ||
    t == JSON || t == JSONB || t == JSONPATH || t == VECTOR
  }

  function TypeOf(f: Field): i64 { if f.ftype == UNKNOWN then VARCHAR else f.ftype }

  function U16(row: Bytes, at: nat): nat
    requires at + 2 <= |row|
  {
    var high: int := row[at + 1];
    row[at] + 256 * high
  }

  function Bit(b: byte, k: nat): nat
    requires k < 8
  {
    b / [1, 2, 4, 8, 16, 32, 64, 128][k] % 2
  }

  // ----- what a layout is ----------------------------------------------------------------

  /** The bytes of the `k`th varying field and everything behind, by the pointer walk of
      `CTable_i_varFieldPtr`: each length word, rounded up to even, leads to the next field.
      Slices past the end are empty, and a missing length byte counts as zero. */
  function VarFieldPtr(data: Bytes, fixedOffset: nat, varDex: nat): Bytes
    decreases varDex
  {
    if varDex == 0 then DropUpTo(data, fixedOffset)
    else
      var p := VarFieldPtr(data, fixedOffset, varDex - 1);
      var low: int := if |p| > 0 then p[0] else 0;
      var high: int := if |p| > 1 then p[1] else 0;
      var n: int := low + 256 * high;
      if n % 2 == 0 then DropUpTo(p, n) else DropUpTo(p, n + 1)
  }

  function DropUpTo(b: Bytes, n: nat): Bytes { if n <= |b| then b[n..] else [] }

  predicate PieceAt(row: Bytes, fixedOffset: nat, k: nat) {
    var p := VarFieldPtr(row, fixedOffset, k);
    |p| >= 2 && U16(p, 0) >= 2 && U16(p, 0) + U16(p, 0) % 2 <= |p|
  }

  /** The first `n` varying fields are length-prefixed pieces inside the row. */
  ghost predicate Chained(row: Bytes, fixedOffset: nat, n: int) {
    forall k: nat :: k < n ==> PieceAt(row, fixedOffset, k)
  }

  predicate BitmapFits(shape: Shape, row: Bytes) { 2 + (shape.numFields as int + 7) / 8 <= |row| }

  /** Field bit in the NULL bitmap. */
  predicate NullBit(shape: Shape, f: Field, row: Bytes)
    requires BitmapFits(shape, row) && 0 <= f.phys < shape.numFields
  {
    Bit(row[2 + f.phys as int / 8], f.phys as int % 8) == 1
  }

  /** How many bytes of the row the storage of a field spans from `start`; none for a field
      whose metadata or length word is not valid. */
  function Extent(f: Field, start: nat, row: Bytes): Option<nat> {
    var t := TypeOf(f);
    if t == CHAR then if f.size < 0 then None else Some(f.size as nat)
    else if IsLengthPrefixed(t) then
      if start + 2 > |row| || U16(row, start) < 2 then None else Some(U16(row, start))
    else if t == INT8 || t == DOUBLE then Some(8)
    else if t == INT || t == FLOAT then Some(4)
    else if t == INT2 then Some(2)
    else if t == INT1 || t == BOOL then Some(1)
    else if t == DATE || t == TIME || t == TIMESTAMP then
      if f.size < 0 then None else Some(if f.size >= 8 then 8 else f.size as nat)
    else if t == INTERVAL || t == TIMETZ then if f.size < 4 then None else Some(f.size as nat)
    else if t == NUMERIC then
      if f.trueSize < 4 || f.trueSize > 16 || f.trueSize % 4 != 0 then None else Some(f.trueSize as nat)
    else Some(0)
  }

  predicate Spans(f: Field, start: nat, row: Bytes) {
    Extent(f, start, row).Some? && start + Extent(f, start, row).value <= |row|
  }

  /** Where a field that is not NULL starts: fixed fields at their offset, varying fields where
      the pointer walk finds them. */
  ghost predicate StartsAt(shape: Shape, f: Field, row: Bytes, start: nat)
    requires 0 <= shape.fixedFieldsSize
  {
    && start <= |row|
    && f.fixed >= 0
    && (if f.fixed != 0 then start == f.offset as int
        else if shape.numVarying > 0 then
          0 <= f.offset < shape.numVarying && row[start..] == VarFieldPtr(row, shape.fixedFieldsSize as int, f.offset as int)
        else start == shape.fixedFieldsSize as int)
  }

  ghost predicate FieldOk(shape: Shape, f: Field, row: Bytes, start: Option<nat>)
    requires BitmapFits(shape, row) && 0 <= shape.fixedFieldsSize
  {
    && (shape.nullsAllowed ==> 0 <= f.phys < shape.numFields)
    && (start.None? <==> shape.nullsAllowed && NullBit(shape, f, row))
    && (start.Some? ==> StartsAt(shape, f, row, start.value) && Spans(f, start.value, row))
  }

  /** A well laid out row and where its fields start. */
  ghost predicate LaidOut(shape: Shape, fields: seq<Field>, row: Bytes, starts: seq<Option<nat>>) {
    && shape.numFields as int == |fields| && 0 <= shape.fixedFieldsSize && 0 <= shape.numVarying
    && BitmapFits(shape, row)
    && Chained(row, shape.fixedFieldsSize as int, shape.numVarying as int)
    && |starts| == |fields|
    && forall i :: 0 <= i < |fields| ==> FieldOk(shape, fields[i], row, starts[i])
  }

  // ----- the checks, in the order both decoders make them --------------------------------

  /** A length-prefixed piece at `cur` lies inside the row. */
  predicate FitsAt(row: Bytes, cur: nat) {
    cur + 2 <= |row| && U16(row, cur) >= 2 && Next(row, cur) <= |row|
  }

  /** Where the piece behind the one at `cur` starts: lengths are padded to even. */
  function Next(row: Bytes, cur: nat): nat
    requires cur + 2 <= |row|
  {
    cur + U16(row, cur) + U16(row, cur) % 2
  }

  /** The offsets of the next `k` varying fields from `cur` on. */
  function WalkVarying(row: Bytes, cur: nat, k: nat): Result<seq<nat>>
    decreases k
  {
    if k == 0 then Ok([])
    else if FitsAt(row, cur) then Behind([cur], WalkVarying(row, Next(row, cur), k - 1))
    else Err(PieceFault(row, cur))
  }

  function PieceFault(row: Bytes, cur: nat): Fault {
    if cur + 2 > |row| then VaryingTruncated else if U16(row, cur) < 2 then VaryingLength else VaryingBeyond
  }

  function Behind<T>(front: seq<T>, r: Result<seq<T>>): Result<seq<T>> {
    if r.Ok? then Ok(front + r.value) else r
  }

  function ResolveStart(shape: Shape, f: Field, i: nat, offsets: seq<nat>, row: Bytes): Result<nat> {
    var start :- if f.fixed != 0 then if f.fixed < 0 then Err(FixedSize(i)) else Ok(f.offset as int)
                 else if offsets != [] then
                   if f.offset < 0 || f.offset as int >= |offsets| then Err(VaryingIndex(i)) else Ok(offsets[f.offset])
                 else Ok(shape.fixedFieldsSize as int);
    if start < 0 || start > |row| then Err(StartOutside(i)) else Ok(start)
  }

  /** The fault of a field whose storage does not fit. */
  function SpanFault(f: Field, i: nat, start: nat, row: Bytes): Fault {
    var t := TypeOf(f);
    if IsLengthPrefixed(t) then if start + 2 > |row| then PrefixTruncated(i) else FieldBeyond(i)
    else if Extent(f, start, row).Some? then FieldBeyond(i)
    else if t == NUMERIC then NumericWidth(i)
    else FieldSize(i)
  }

  function ResolveField(shape: Shape, f: Field, i: nat, offsets: seq<nat>, row: Bytes): Result<Option<nat>>
    requires BitmapFits(shape, row)
  {
    if shape.nullsAllowed && !(0 <= f.phys < shape.numFields) then Err(PhysicalIndex(i))
    else if shape.nullsAllowed && NullBit(shape, f, row) then Ok(None)
    else
      var start :- ResolveStart(shape, f, i, offsets, row);
      if Spans(f, start, row) then Ok(Some(start)) else Err(SpanFault(f, i, start, row))
  }

  function ResolveFields(shape: Shape, fields: seq<Field>, i: nat, offsets: seq<nat>, row: Bytes): Result<seq<Option<nat>>>
    requires BitmapFits(shape, row) && i <= |fields|
    decreases |fields| - i
  {
    if i == |fields| then Ok([])
    else
      var start :- ResolveField(shape, fields[i], i, offsets, row);
      Behind([start], ResolveFields(shape, fields, i + 1, offsets, row))
  }

  function Resolve(shape: Shape, fields: seq<Field>, row: Bytes): Result<seq<Option<nat>>> {
    if !BitmapFits(shape, row) then Err(RowTooShort)
    else if shape.fixedFieldsSize < 0 then Err(FixedAreaOffset)
    else if shape.numVarying < 0 then Err(VaryingCount)
    else
      var offsets :- WalkVarying(row, shape.fixedFieldsSize as int, shape.numVarying as int);
      ResolveFields(shape, fields, 0, offsets, row)
  }

  // ----- the checks accept exactly the rows that are laid out ----------------------------

  /** The pointer walk stands at `off` after `k` fields. */
  predicate Points(row: Bytes, fixedOffset: nat, k: nat, off: nat) {
    VarFieldPtr(row, fixedOffset, k) == DropUpTo(row, off)
  }

  lemma PointerPiece(row: Bytes, fixedOffset: nat, k: nat, cur: nat)
    requires Points(row, fixedOffset, k, cur)
    ensures PieceAt(row, fixedOffset, k) <==> FitsAt(row, cur)
  {
    var p := DropUpTo(row, cur);
    if cur + 2 <= |row| {
      assert U16(p, 0) == U16(row, cur);
    }
  }

  lemma PointerStep(row: Bytes, fixedOffset: nat, k: nat, cur: nat)
    requires Points(row, fixedOffset, k, cur) && FitsAt(row, cur)
    ensures Points(row, fixedOffset, k + 1, Next(row, cur))
  {
    var p := row[cur..];
    var n := Next(row, cur) - cur;
    assert p[n..] == row[cur + n..];
  }

  /** The pointer walk finds `offs`, in order, from the `k`th field on. */
  predicate AllPoint(row: Bytes, fixedOffset: nat, k: nat, offs: seq<nat>)
    decreases offs
  {
    offs == [] || (offs[0] <= |row| && Points(row, fixedOffset, k, offs[0]) && AllPoint(row, fixedOffset, k + 1, offs[1..]))
  }

  lemma {:induction false} PointAt(row: Bytes, fixedOffset: nat, k: nat, offs: seq<nat>, j: nat)
    requires AllPoint(row, fixedOffset, k, offs) && j < |offs|
    ensures offs[j] <= |row| && Points(row, fixedOffset, k + j, offs[j])
    decreases j
  {
    if j > 0 {
      PointAt(row, fixedOffset, k + 1, offs[1..], j - 1);
    }
  }

  /** The offsets walk finds what the pointer walk finds, and refuses exactly a broken chain. */
  lemma {:induction false} WalkIsPointerWalk(row: Bytes, fixedOffset: nat, k: nat, cur: nat, n: nat)
    requires k <= n && Points(row, fixedOffset, k, cur) && Chained(row, fixedOffset, k)
    ensures WalkVarying(row, cur, n - k).Ok? <==> Chained(row, fixedOffset, n)
    ensures var offs := WalkVarying(row, cur, n - k);
            offs.Ok? ==> |offs.value| == n - k && AllPoint(row, fixedOffset, k, offs.value)
    decreases n - k
  {
    if k < n {
      PointerPiece(row, fixedOffset, k, cur);
      if FitsAt(row, cur) {
        PointerStep(row, fixedOffset, k, cur);
        WalkIsPointerWalk(row, fixedOffset, k + 1, Next(row, cur), n);
        var rest := WalkVarying(row, Next(row, cur), n - k - 1);
        if rest.Ok? {
          assert ([cur] + rest.value)[1..] == rest.value;
        }
      }
    }
  }

  /** What `offsets` are for a row whose chain is not broken. */
  ghost predicate AreOffsets(shape: Shape, offsets: seq<nat>, row: Bytes)
    requires 0 <= shape.fixedFieldsSize
  {
    |offsets| == shape.numVarying as int && AllPoint(row, shape.fixedFieldsSize as int, 0, offsets)
  }

  lemma StartsRight(shape: Shape, f: Field, i: nat, offsets: seq<nat>, row: Bytes, start: nat)
    requires 0 <= shape.fixedFieldsSize && AreOffsets(shape, offsets, row)
    ensures ResolveStart(shape, f, i, offsets, row) == Ok(start) ==> StartsAt(shape, f, row, start)
    ensures StartsAt(shape, f, row, start) ==> ResolveStart(shape, f, i, offsets, row) == Ok(start)
  {
    if f.fixed == 0 && 0 <= f.offset as int < |offsets| {
      var off := offsets[f.offset];
      PointAt(row, shape.fixedFieldsSize as int, 0, offsets, f.offset as int);
      if row[off..] == DropUpTo(row, start) && start <= |row| {
        assert |row[off..]| == |row[start..]|;
      }
    }
  }

  lemma FieldRight(shape: Shape, f: Field, i: nat, offsets: seq<nat>, row: Bytes, start: Option<nat>)
    requires 0 <= shape.fixedFieldsSize && BitmapFits(shape, row) && AreOffsets(shape, offsets, row)
    ensures ResolveField(shape, f, i, offsets, row) == Ok(start) <==> FieldOk(shape, f, row, start)
  {
    if start.Some? {
      StartsRight(shape, f, i, offsets, row, start.value);
    }
  }

  lemma {:induction false} FieldsRight(shape: Shape, fields: seq<Field>, i: nat, offsets: seq<nat>, row: Bytes,
                                       starts: seq<Option<nat>>)
    requires 0 <= shape.fixedFieldsSize && BitmapFits(shape, row) && AreOffsets(shape, offsets, row)
    requires i <= |fields| == |starts|
    ensures ResolveFields(shape, fields, i, offsets, row) == Ok(starts[i..]) <==>
            forall j :: i <= j < |fields| ==> FieldOk(shape, fields[j], row, starts[j])
    decreases |fields| - i
  {
    if i < |fields| {
      FieldRight(shape, fields[i], i, offsets, row, starts[i]);
      FieldsRight(shape, fields, i + 1, offsets, row, starts);
      var first := ResolveField(shape, fields[i], i, offsets, row);
      var rest := ResolveFields(shape, fields, i + 1, offsets, row);
      assert starts[i..][0] == starts[i] && starts[i..][1..] == starts[i + 1..];
      assert starts[i..] == [starts[i]] + starts[i + 1..];
      if first.Ok? && rest.Ok? {
        assert ([first.value] + rest.value)[0] == first.value && ([first.value] + rest.value)[1..] == rest.value;
      }
    } else {
      assert starts[i..] == [];
    }
  }

  lemma {:induction false} FieldsCount(shape: Shape, fields: seq<Field>, i: nat, offsets: seq<nat>, row: Bytes)
    requires BitmapFits(shape, row) && i <= |fields|
    ensures var r := ResolveFields(shape, fields, i, offsets, row); r.Ok? ==> |r.value| == |fields| - i
    decreases |fields| - i
  {
    if i < |fields| {
      FieldsCount(shape, fields, i + 1, offsets, row);
    }
  }

  /** The checks accept a row with these starts if and only if it is laid out so. */
  lemma ResolveRight(shape: Shape, fields: seq<Field>, row: Bytes, starts: seq<Option<nat>>)
    requires shape.numFields as int == |fields|
    ensures Resolve(shape, fields, row) == Ok(starts) <==> LaidOut(shape, fields, row, starts)
  {
    if BitmapFits(shape, row) && shape.fixedFieldsSize >= 0 && shape.numVarying >= 0 {
      var fixedOffset, n := shape.fixedFieldsSize as int, shape.numVarying as int;
      WalkIsPointerWalk(row, fixedOffset, 0, fixedOffset, n);
      var offsets := WalkVarying(row, fixedOffset, n);
      if offsets.Ok? {
        FieldsCount(shape, fields, 0, offsets.value, row);
        if |starts| == |fields| {
          FieldsRight(shape, fields, 0, offsets.value, row, starts);
          assert starts[0..] == starts;
        }
      }
    }
  }

  // ----- the Rust and the Python check ----------------------------------------------------

  /** What `load_metadata` and `resolve_starts` answer. */
  function RustLayout(shape: Shape, metadata: seq<Field>, row: Bytes): Result<seq<Option<nat>>> {
    if shape.numFields < 0 || shape.numVarying < 0 || shape.fixedFieldsSize < 0 then Err(FieldHeader)
    else if |metadata| < shape.numFields as int then Err(MetadataTruncated)
    else Resolve(shape, metadata[..shape.numFields], row)
  }

  /** What `_validate_row_layout` answers. */
  function PythonLayout(shape: Shape, metadata: seq<Field>, row: Bytes): Result<seq<Option<nat>>> {
    if shape.numFields < 0 then Err(FieldCount)
    else if |metadata| < shape.numFields as int then Err(MetadataTruncated)
    else Resolve(shape, metadata[..shape.numFields], row)
  }

  /** Both accept the same rows, namely those that are laid out, with the same starts; and for
      a header without negative numbers they give the same reason. */
  lemma LayoutsAgree(shape: Shape, metadata: seq<Field>, row: Bytes, starts: seq<Option<nat>>)
    ensures RustLayout(shape, metadata, row) == Ok(starts) <==> PythonLayout(shape, metadata, row) == Ok(starts)
    ensures shape.numFields >= 0 && shape.numVarying >= 0 && shape.fixedFieldsSize >= 0 ==>
              RustLayout(shape, metadata, row) == PythonLayout(shape, metadata, row)
    ensures RustLayout(shape, metadata, row) == Ok(starts) <==>
            0 <= shape.numFields as int <= |metadata| && LaidOut(shape, metadata[..shape.numFields], row, starts)
  {
    if 0 <= shape.numFields as int <= |metadata| {
      ResolveRight(shape, metadata[..shape.numFields], row, starts);
    }
  }

  lemma BehindTwice<T>(a: seq<T>, b: seq<T>, r: Result<seq<T>>)
    ensures Behind(a, Behind(b, r)) == Behind(a + b, r)
    ensures Behind([], r) == r
    ensures r == Ok([]) ==> Behind(a, r) == Ok(a)
  {
    if r.Ok? {
      assert a + (b + r.value) == (a + b) + r.value;
      assert [] + r.value == r.value && a + [] == a;
    }
  }

  /** `is_null`. */
  function RustIsNull(shape: Shape, f: Field, i: nat, row: Bytes): (r: Result<bool>)
    requires BitmapFits(shape, row)
    ensures r == if shape.nullsAllowed && !(0 <= f.phys < shape.numFields) then Err(PhysicalIndex(i))
                 else Ok(shape.nullsAllowed && NullBit(shape, f, row))
  {
    if !shape.nullsAllowed then Ok(false)
    else if f.phys < 0 || f.phys >= shape.numFields then Err(PhysicalIndex(i))
    else
      var b := row[(2 + f.phys / 8) as int];
      Ok(Bit(b, (f.phys % 8) as int) == 1)
  }

  /** `check_span`, in 64-bit arithmetic: the type `i64` refuses a sum that does not fit. */
  function RustCheckSpan(i: nat, f: Field, start: i64, len: i64, row: Bytes): (r: Result<()>)
    requires |row| < 0x4000_0000_0000_0000 && len as int == |row| && 0 <= start <= len
    ensures r == if Spans(f, start as int, row) then Ok(()) else Err(SpanFault(f, i, start as int, row))
  {
    var t := TypeOf(f);
    if IsLengthPrefixed(t) then
      if start + 2 > len then Err(PrefixTruncated(i))
      else
        var total := U16(row, start as int) as i64;
        if total < 2 || start + total > len then Err(FieldBeyond(i)) else Ok(())
    else
      var need: i64 :- if t == CHAR then if f.size < 0 then Err(FieldSize(i)) else Ok(f.size)
                       else if t == INT8 || t == DOUBLE then Ok(8)
                       else if t == INT || t == FLOAT then Ok(4)
                       else if t == INT2 then Ok(2)
                       else if t == INT1 || t == BOOL then Ok(1)
                       else if t == DATE || t == TIME || t == TIMESTAMP then
                         if f.size < 0 then Err(FieldSize(i)) else if f.size >= 8 then Ok(8) else Ok(f.size)
                       else if t == INTERVAL || t == TIMETZ then if f.size < 4 then Err(FieldSize(i)) else Ok(f.size)
                       else if t == NUMERIC then
                         if !(4 <= f.trueSize <= 16) || f.trueSize % 4 != 0 then Err(NumericWidth(i)) else Ok(f.trueSize)
                       else Ok(0);
      if need > len - start then Err(FieldBeyond(i)) else Ok(())
  }

  /** The offsets of the varying fields, in 64-bit arithmetic. */
  method RustVaryingOffsets(shape: Shape, row: Bytes) returns (r: Result<seq<i64>>)
    requires 2 <= |row| < 0x4000_0000_0000_0000 && shape.fixedFieldsSize >= 0 && shape.numVarying >= 0
    ensures match WalkVarying(row, shape.fixedFieldsSize as int, shape.numVarying as int)
            case Err(fault) => r == Err(fault)
            case Ok(offsets) => r.Ok? && Widths(r.value, offsets)
  {
    var len := |row| as i64;
    var varOffsets: seq<i64> := [];
    ghost var offsets: seq<nat> := [];
    var cur := shape.fixedFieldsSize;
    ghost var whole := WalkVarying(row, cur as int, shape.numVarying as int);
    BehindTwice([], [], whole);
    for k: i64 := 0 to shape.numVarying
      invariant cur >= 0 && Widths(varOffsets, offsets)
      invariant whole == Behind(offsets, WalkVarying(row, cur as int, (shape.numVarying - k) as int))
    {
      varOffsets := varOffsets + [cur];
      if cur > len - 2 { return Err(VaryingTruncated); }
      var vlen := U16(row, cur as int) as i64;
      if vlen < 2 { return Err(VaryingLength); }
      var next := cur + vlen + vlen % 2;
      if next > len { return Err(VaryingBeyond); }
      BehindTwice(offsets, [cur as int], WalkVarying(row, next as int, (shape.numVarying - k - 1) as int));
      offsets := offsets + [cur as int];
      cur := next;
    }
    BehindTwice(offsets, [], Ok([]));
    r := Ok(varOffsets);
  }

  /** The same numbers, as machine words. */
  predicate Widths(words: seq<i64>, numbers: seq<nat>) {
    |words| == |numbers| && forall i :: 0 <= i < |words| ==> words[i] as int == numbers[i]
  }

  method RustFieldStart(shape: Shape, f: Field, i: nat, varOffsets: seq<i64>, row: Bytes, ghost offsets: seq<nat>)
    returns (r: Result<Option<nat>>)
    requires |row| < 0x4000_0000_0000_0000 && BitmapFits(shape, row) && Widths(varOffsets, offsets)
    ensures r == ResolveField(shape, f, i, offsets, row)
  {
    var len := |row| as i64;
    var isNull :- RustIsNull(shape, f, i, row);
    if isNull { return Ok(None); }
    var start: i64;
    if f.fixed != 0 {
      if f.fixed < 0 { return Err(FixedSize(i)); }
      start := f.offset;
    } else if varOffsets != [] {
      if f.offset < 0 || f.offset as int >= |varOffsets| { return Err(VaryingIndex(i)); }
      start := varOffsets[f.offset];
    } else {
      start := shape.fixedFieldsSize;
    }
    if start < 0 || start > len { return Err(StartOutside(i)); }
    var fits :- RustCheckSpan(i, f, start, len, row);
    return Ok(Some(start as int));
  }

  method RustResolveStarts(shape: Shape, metadata: seq<Field>, row: Bytes) returns (r: Result<seq<Option<nat>>>)
    requires |row| < 0x4000_0000_0000_0000 && |metadata| < 0x4000_0000_0000_0000
    requires shape.numFields < 0x8000_0000 && shape.numVarying < 0x8000_0000 && shape.fixedFieldsSize < 0x8000_0000
    ensures r == RustLayout(shape, metadata, row)
  {
    if shape.numFields < 0 || shape.numVarying < 0 || shape.fixedFieldsSize < 0 { return Err(FieldHeader); }
    if (|metadata| as i64) < shape.numFields { return Err(MetadataTruncated); }
    var fields := metadata[..shape.numFields];
    var bitmaplen := (shape.numFields + 7) / 8;
    if 2 + bitmaplen > |row| as i64 { return Err(RowTooShort); }
    var varOffsets := RustVaryingOffsets(shape, row);
    if varOffsets.Err? { return Err(varOffsets.fault); }
    ghost var offsets := WalkVarying(row, shape.fixedFieldsSize as int, shape.numVarying as int).value;
    var starts: seq<Option<nat>> := [];
    BehindTwice([], [], ResolveFields(shape, fields, 0, offsets, row));
    for i := 0 to |fields|
      invariant ResolveFields(shape, fields, 0, offsets, row) == Behind(starts, ResolveFields(shape, fields, i, offsets, row))
    {
      var start :- RustFieldStart(shape, fields[i], i, varOffsets.value, row, offsets);
      BehindTwice(starts, [start], ResolveFields(shape, fields, i + 1, offsets, row));
      starts := starts + [start];
    }
    BehindTwice(starts, [], Ok([]));
    r := Ok(starts);
  }

  /** `_validate_field_span`, on unbounded integers. */
  method PythonCheckSpan(f: Field, i: nat, start: nat, data: Bytes) returns (r: Result<()>)
    requires start <= |data|
    ensures r == if Spans(f, start, data) then Ok(()) else Err(SpanFault(f, i, start, data))
  {
    var dataLen := |data|;
    var fldtype := TypeOf(f);
    var fldsize := f.size as int;
    var need: int;
    if fldtype == CHAR {
      if fldsize < 0 { return Err(FieldSize(i)); }
      need := fldsize;
    } else if IsLengthPrefixed(fldtype) {
      if start + 2 > dataLen { return Err(PrefixTruncated(i)); }
      var total := U16(data, start);
      return if total < 2 || start + total > dataLen then Err(FieldBeyond(i)) else Ok(());
    } else if fldtype == INT8 || fldtype == DOUBLE {
      need := 8;
    } else if fldtype == INT {
      need := 4;
    } else if fldtype == INT2 {
      need := 2;
    } else if fldtype == INT1 || fldtype == BOOL {
      need := 1;
    } else if fldtype == FLOAT {
      need := 4;
    } else if fldtype == DATE || fldtype == TIME || fldtype == TIMESTAMP {
      if fldsize < 0 { return Err(FieldSize(i)); }
      need := if fldsize >= 8 then 8 else fldsize;
    } else if fldtype == INTERVAL || fldtype == TIMETZ {
      if fldsize < 4 { return Err(FieldSize(i)); }
      need := fldsize;
    } else if fldtype == NUMERIC {
      var chunk := f.trueSize as int;
      if chunk < 4 || chunk > 16 || chunk % 4 != 0 { return Err(NumericWidth(i)); }
      need := chunk;
    } else {
      return Ok(());
    }
    r := if start + need > dataLen then Err(FieldBeyond(i)) else Ok(());
  }

  /** The loop over the varying fields of `_validate_row_layout`. */
  method PythonVaryingOffsets(shape: Shape, data: Bytes) returns (r: Result<seq<nat>>)
    requires shape.fixedFieldsSize >= 0 && shape.numVarying >= 0
    ensures r == WalkVarying(data, shape.fixedFieldsSize as int, shape.numVarying as int)
  {
    var offsets: seq<nat> := [];
    var current: nat := shape.fixedFieldsSize as int;
    var varying: nat := shape.numVarying as int;
    ghost var whole := WalkVarying(data, current, varying);
    BehindTwice([], [], whole);
    for k := 0 to varying
      invariant whole == Behind(offsets, WalkVarying(data, current, varying - k))
    {
      if current + 2 > |data| { return Err(VaryingTruncated); }
      var vlen := U16(data, current);
      if vlen < 2 { return Err(VaryingLength); }
      var next := current + vlen + vlen % 2;
      if next > |data| { return Err(VaryingBeyond); }
      BehindTwice(offsets, [current], WalkVarying(data, next, varying - k - 1));
      offsets := offsets + [current];
      current := next;
    }
    BehindTwice(offsets, [], Ok([]));
    r := Ok(offsets);
  }

  method PythonFieldStart(shape: Shape, f: Field, i: nat, offsets: seq<nat>, data: Bytes) returns (r: Result<Option<nat>>)
    requires BitmapFits(shape, data)
    ensures r == ResolveField(shape, f, i, offsets, data)
  {
    if shape.nullsAllowed {
      if f.phys < 0 || f.phys >= shape.numFields { return Err(PhysicalIndex(i)); }
      if NullBit(shape, f, data) { return Ok(None); }
    }
    var start: int;
    if f.fixed != 0 {
      if f.fixed < 0 { return Err(FixedSize(i)); }
      start := f.offset as int;
    } else if offsets != [] {
      if f.offset < 0 || f.offset as int >= |offsets| { return Err(VaryingIndex(i)); }
      start := offsets[f.offset];
    } else {
      start := shape.fixedFieldsSize as int;
    }
    if start < 0 || start > |data| { return Err(StartOutside(i)); }
    var fits :- PythonCheckSpan(f, i, start, data);
    return Ok(Some(start));
  }

  method PythonValidate(shape: Shape, metadata: seq<Field>, data: Bytes) returns (r: Result<seq<Option<nat>>>)
    ensures r == PythonLayout(shape, metadata, data)
  {
    if shape.numFields < 0 { return Err(FieldCount); }
    if |metadata| < shape.numFields as int { return Err(MetadataTruncated); }
    var bitmaplen := (shape.numFields as int + 7) / 8;
    if 2 + bitmaplen > |data| { return Err(RowTooShort); }
    if shape.fixedFieldsSize < 0 { return Err(FixedAreaOffset); }
    if shape.numVarying < 0 { return Err(VaryingCount); }
    var offsets :- PythonVaryingOffsets(shape, data);
    var fields := metadata[..shape.numFields];
    var starts: seq<Option<nat>> := [];
    BehindTwice([], [], ResolveFields(shape, fields, 0, offsets, data));
    for i := 0 to |fields|
      invariant ResolveFields(shape, fields, 0, offsets, data) == Behind(starts, ResolveFields(shape, fields, i, offsets, data))
    {
      var start :- PythonFieldStart(shape, fields[i], i, offsets, data);
      BehindTwice(starts, [start], ResolveFields(shape, fields, i + 1, offsets, data));
      starts := starts + [start];
    }
    BehindTwice(starts, [], Ok([]));
    r := Ok(starts);
  }
}
