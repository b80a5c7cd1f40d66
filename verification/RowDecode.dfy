/** Decoding the fields of a validated row, in the Rust and the Python form. Every byte a
    decoder touches is inside the row: indexing outside would not verify. */
module RowDecoding {
  import opened Options
  import opened Wire
  import opened Numbers
  import opened Calendar
  import opened Temporal
  import opened Layouts

  /** A text decoder: bytes, and whether they are in the client encoding. */
  type Codec = (Bytes, bool) -> Option<string>

  datatype FieldValue =
    | Null
    | Text(text: string)
    | Blob(bytes: Bytes)
    | Number(number: int)
    | DoubleBits(bits: Bytes)
    | SingleBits(bits: Bytes)
    | DateValue(date: Date)
    | TimeValue(time: Time)
    | Stamp(stamp: Timestamp)
    | Numeric(coefficient: int, scale: int)
    | Truth(truth: bool)
    | IntervalValue(time1: int, month: int)
    | ZonedTime(time2: int, zone: int)

  /** A value, or none where the constructor or the codec raises a value error. */
  type Decoded = Option<FieldValue>

  // ----- text ----------------------------------------------------------------------------

  function StripNuls(s: string): (t: string)
    ensures t <= s && (t != [] ==> t[|t| - 1] != '\0')
    ensures forall i :: |t| <= i < |s| ==> s[i] == '\0'
  {
    if s != [] && s[|s| - 1] == '\0' then StripNuls(s[..|s| - 1]) else s
  }

  function Spaces(n: nat): string { seq(n, _ => ' ') }

  /** `s.ljust(width)`. */
  function PadRight(s: string, width: nat): string { if |s| >= width then s else s + Spaces(width - |s|) }

  /** `pad_text` returns its argument when there is nothing to change. */
  function RustPad(s: string, width: nat): (t: string)
    ensures t == PadRight(StripNuls(s), width)
  {
    var trimmed := StripNuls(s);
    if |trimmed| == |s| && |trimmed| >= width then s
    else trimmed + Spaces(if width > |trimmed| then width - |trimmed| else 0)
  }

  function TextOf(codec: Codec, b: Bytes, client: bool, width: Option<nat>): Decoded {
    match codec(b, client)
    case None => None
    case Some(s) => Some(Text(if width.Some? then RustPad(s, width.value) else s))
  }

  // ----- the datetime constructors accept years 1 to 9999 and a clock below 24 hours ---------

  function MakeDate(x: Date): Decoded { if 1 <= x.y <= 9999 then Some(DateValue(x)) else None }

  function MakeTime(t: Time): Decoded { if 0 <= t.hour < 24 then Some(TimeValue(t)) else None }

  function MakeStamp(t: Option<Timestamp>): Decoded {
    match t
    case None => Some(Null)
    case Some(x) => if 1 <= x.date.y <= 9999 then Some(Stamp(x)) else None
  }

  // ----- decode_field (Rust) -----------------------------------------------------------------

  /** The bytes behind the length word at `off`. */
  function Prefixed(row: Bytes, off: nat): Bytes
    requires off + 2 <= |row| && 2 <= U16(row, off) <= |row| - off
  {
    var cursize := U16(row, off) - 2;
    row[off + 2..off + 2 + cursize]
  }

  function Clamp8(n: i64): nat { if n < 0 then 0 else if n > 8 then 8 else n as int }

  function RustField(f: Field, row: Bytes, off: nat, codec: Codec): Decoded
    requires off <= |row| && Spans(f, off, row)
  {
    var t := TypeOf(f);
    var p := row[off..];
    if t == CHAR then TextOf(codec, row[off..off + f.size as nat], false, Some(f.size as nat))
    else if t == NCHAR then
      TextOf(codec, Prefixed(row, off), true, Some(if f.size < 0 then 0 else f.size as nat))
    else if t == NVARCHAR then TextOf(codec, Prefixed(row, off), true, None)
    else if t == VARBINARY || t == GEOMETRY then Some(Blob(Prefixed(row, off)))
    else if IsLengthPrefixed(t) then TextOf(codec, Prefixed(row, off), false, None)
    else if t == INT8 then Some(Number(SignedLE(p[..8])))
    else if t == INT then Some(Number(SignedLE(row[off..off + 4])))
    else if t == INT2 then Some(Number(SignedLE(p[..2])))
    else if t == INT1 then Some(Number(SignedLE(p[..1])))
    else if t == DOUBLE then Some(DoubleBits(p[..8]))
    else if t == FLOAT then Some(SingleBits(p[..4]))
    else if t == DATE then MakeDate(J2Date(ReadSigned(p[..Clamp8(f.size)]) + J2000_OFFSET))
    else if t == TIME then MakeTime(TimeParts(ReadSigned(p[..Clamp8(f.size)])))
    else if t == TIMESTAMP then
      if f.size != 8 then None else MakeStamp(TimestampParts(SignedLE(p[..8])))
    else if t == NUMERIC then
      var count := f.trueSize as int / 4;
      Some(Numeric(Coefficient(p[..count * 4]), f.size as int % 256))
    else if t == BOOL then Some(Truth(p[0] == 1))
    else if t == INTERVAL then
      var time := ReadSigned(p[..if f.size >= 12 then 8 else f.size as int - 4]);
      var at := off + f.size as int - 4;
      Some(IntervalValue(time, SignedLE(row[at..at + 4])))
    else if t == TIMETZ then
      var time := ReadSigned(p[..if f.size >= 12 then 8 else f.size as int - 4]);
      var at := off + f.size as int - 4;
      Some(ZonedTime(time, SignedLE(row[at..at + 4])))
    else Some(Null)
  }

  // ----- _build_dbos_row_python ----------------------------------------------------------------

  lemma SliceFrom(row: Bytes, off: nat, n: nat)
    requires off + n <= |row|
    ensures row[off..][..n] == row[off..off + n]
  {
  }

  /** A stored integer of `width` bytes, of which at most eight count. */
  method PythonInteger(data: Bytes, offset: nat, width: nat, long: bool) returns (v: int)
    requires offset + (if long then 8 else width) <= |data| && (!long ==> width <= 8)
    ensures v == ReadSigned(data[offset..][..if long then 8 else width])
  {
    var n := if long then 8 else width;
    SliceFrom(data, offset, n);
    ReadSignedRight(data[offset..offset + n]);
    v := SignedLE(data[offset..offset + n]);
  }

  method PythonText(f: Field, data: Bytes, offset: nat, codec: Codec) returns (r: Decoded)
    requires offset <= |data| && Spans(f, offset, data) && (TypeOf(f) == CHAR || IsLengthPrefixed(TypeOf(f)))
    ensures r == RustField(f, data, offset, codec)
  {
    var t := TypeOf(f);
    if t == CHAR {
      var fldlen := f.size as int;
      var value := codec(data[offset..offset + fldlen], false);
      if value.None? { return None; }
      return Some(Text(PadRight(StripNuls(value.value), fldlen)));
    }
    var cursize := U16(data, offset) - 2;
    var stored := data[offset + 2..offset + cursize + 2];
    if t == NCHAR || t == NVARCHAR {
      var value := codec(stored, true);
      if value.None? { return None; }
      var text := value.value;
      if t == NCHAR {
        var width: nat := if f.size < 0 then 0 else f.size as int;
        text := PadRight(StripNuls(text), width);
      }
      return Some(Text(text));
    }
    if t == VARBINARY || t == GEOMETRY { return Some(Blob(stored)); }
    var value := codec(stored, false);
    return if value.None? then None else Some(Text(value.value));
  }

  method PythonTemporal(f: Field, data: Bytes, offset: nat, codec: Codec, div: (int, int) -> real) returns (r: Decoded)
    requires offset <= |data| && Spans(f, offset, data) && IsFloatDivision(div)
    requires TypeOf(f) == DATE || TypeOf(f) == TIME || TypeOf(f) == TIMESTAMP
    ensures r == RustField(f, data, offset, codec)
  {
    var t, fldlen := TypeOf(f), f.size as int;
    var workspace := PythonInteger(data, offset, if fldlen >= 8 then 8 else fldlen, fldlen >= 8);
    if t == DATE {
      var d := J2DateList(workspace + J2000_OFFSET);
      return MakeDate(Date(d[0], d[1], d[2]));
    }
    if t == TIME {
      var v := Time2Struct(workspace, div);
      FarTimeRefused(workspace);
      return MakeTime(Time(v[0], v[1], v[2], v[3]));
    }
    if fldlen != 8 { return None; }
    ReadSignedRight(data[offset..][..8]);
    var ts := Timestamp2Struct(workspace, div);
    if ts.None? { return Some(Null); }
    var x := ts.value;
    return MakeStamp(Some(Timestamp(Date(x[0], x[1], x[2]), Time(x[3], x[4], x[5], x[6]))));
  }

  /** A count that float division does not split exactly is no time of day in either form. */
  lemma FarTimeRefused(t: int)
    ensures !(-9007199254740992 < t < 9007199254740992) ==> MakeTime(TimeParts(t)) == None
  {
  }

  method PythonField(f: Field, data: Bytes, offset: nat, codec: Codec, div: (int, int) -> real) returns (r: Decoded)
    requires offset <= |data| && Spans(f, offset, data) && IsFloatDivision(div)
    ensures r == RustField(f, data, offset, codec)
  {
    var t := TypeOf(f);
    if t == CHAR || IsLengthPrefixed(t) {
      r := PythonText(f, data, offset, codec);
    } else if t == DATE || t == TIME || t == TIMESTAMP {
      r := PythonTemporal(f, data, offset, codec, div);
    } else if t == INT8 {
      SliceFrom(data, offset, 8);
      r := Some(Number(SignedLE(data[offset..offset + 8])));
    } else if t == INT {
      r := Some(Number(SignedLE(data[offset..offset + 4])));
    } else if t == INT2 {
      SliceFrom(data, offset, 2);
      r := Some(Number(SignedLE(data[offset..offset + 2])));
    } else if t == INT1 {
      var v: int := data[offset];
      OneByte(data[offset..][..1]);
      r := Some(Number(if v > 127 then v - 256 else v));
    } else if t == DOUBLE {
      SliceFrom(data, offset, 8);
      r := Some(DoubleBits(data[offset..offset + 8]));
    } else if t == FLOAT {
      SliceFrom(data, offset, 4);
      r := Some(SingleBits(data[offset..offset + 4]));
    } else if t == INTERVAL || t == TIMETZ {
      var fldlen := f.size as int;
      var time := PythonInteger(data, offset, if fldlen >= 12 then 8 else fldlen - 4, fldlen >= 12);
      var at := offset + fldlen - 4;
      var last := SignedLE(data[at..at + 4]);
      r := Some(if t == INTERVAL then IntervalValue(time, last) else ZonedTime(time, last));
    } else if t == NUMERIC {
      var chunkLen := f.trueSize as int;
      SliceFrom(data, offset, chunkLen);
      var val := PythonCoefficient(data, offset, chunkLen);
      r := Some(Numeric(val, f.size as int % 256));
    } else if t == BOOL {
      r := Some(Truth(data[offset] == 1));
    } else {
      r := Some(Null);
    }
  }

  lemma OneByte(b: Bytes)
    requires |b| == 1
    ensures var v: int := b[0]; SignedLE(b) == if v > 127 then v - 256 else v
  {
    assert b[1..] == [];
    Powers(1);
  }

  // ----- whole rows ----------------------------------------------------------------------------

  /** A decoded row; the column of the first value that does not decode, which is deferred;
      or a layout fault, which retires the connection. */
  datatype RowResult = RowOf(values: seq<FieldValue>) | BadColumn(column: nat) | LayoutFault(fault: Fault)

  /** What a validated row means from column `i` on. */
  function ValuesFrom(fields: seq<Field>, starts: seq<Option<nat>>, row: Bytes, codec: Codec, i: nat): RowResult
    requires i <= |fields| == |starts|
    requires forall j :: i <= j < |fields| && starts[j].Some? ==> starts[j].value <= |row| && Spans(fields[j], starts[j].value, row)
    decreases |fields| - i
  {
    if i == |fields| then RowOf([])
    else
      var value := if starts[i].None? then Some(Null) else RustField(fields[i], row, starts[i].value, codec);
      if value.None? then BadColumn(i)
      else
        var rest := ValuesFrom(fields, starts, row, codec, i + 1);
        if rest.RowOf? then RowOf([value.value] + rest.values) else rest
  }

  /** Starts that a layout check may hand on. */
  ghost predicate Fit(fields: seq<Field>, starts: seq<Option<nat>>, row: Bytes) {
    && |fields| == |starts|
    && forall j :: 0 <= j < |fields| && starts[j].Some? ==> starts[j].value <= |row| && Spans(fields[j], starts[j].value, row)
  }

  lemma StartsFit(shape: Shape, metadata: seq<Field>, row: Bytes)
    ensures var r := PythonLayout(shape, metadata, row);
            r.Ok? ==> 0 <= shape.numFields as int <= |metadata| && Fit(metadata[..shape.numFields], r.value, row)
    ensures var r := RustLayout(shape, metadata, row);
            r.Ok? ==> 0 <= shape.numFields as int <= |metadata| && Fit(metadata[..shape.numFields], r.value, row)
  {
    var r := PythonLayout(shape, metadata, row);
    if r.Ok? {
      LayoutsAgree(shape, metadata, row, r.value);
    }
    var r' := RustLayout(shape, metadata, row);
    if r'.Ok? {
      LayoutsAgree(shape, metadata, row, r'.value);
    }
  }

  /** A row means its layout fault, or its values up to the first that does not decode. */
  ghost function Meaning(layout: Result<seq<Option<nat>>>, metadata: seq<Field>, shape: Shape, row: Bytes, codec: Codec): RowResult
    requires layout.Ok? ==> 0 <= shape.numFields as int <= |metadata| && Fit(metadata[..shape.numFields], layout.value, row)
  {
    match layout
    case Err(fault) => LayoutFault(fault)
    case Ok(starts) => ValuesFrom(metadata[..shape.numFields], starts, row, codec, 0)
  }

  function Put(front: seq<FieldValue>, r: RowResult): RowResult {
    if r.RowOf? then RowOf(front + r.values) else r
  }

  lemma PutTwice(front: seq<FieldValue>, v: FieldValue, r: RowResult)
    ensures Put(front, if r.RowOf? then RowOf([v] + r.values) else r) == Put(front + [v], r)
    ensures Put([], r) == r && Put(front, RowOf([])) == RowOf(front)
  {
    if r.RowOf? {
      assert front + ([v] + r.values) == (front + [v]) + r.values;
      assert [] + r.values == r.values;
    }
    assert front + [] == front;
  }

  /** `decode_row` (Rust). */
  method RustRow(shape: Shape, metadata: seq<Field>, row: Bytes, codec: Codec) returns (r: RowResult)
    requires |row| < 0x4000_0000_0000_0000 && |metadata| < 0x4000_0000_0000_0000
    requires shape.numFields < 0x8000_0000 && shape.numVarying < 0x8000_0000 && shape.fixedFieldsSize < 0x8000_0000
    ensures RustLayout(shape, metadata, row).Ok? ==>
              0 <= shape.numFields as int <= |metadata| && Fit(metadata[..shape.numFields], RustLayout(shape, metadata, row).value, row)
    ensures r == Meaning(RustLayout(shape, metadata, row), metadata, shape, row, codec)
  {
    StartsFit(shape, metadata, row);
    var layout := RustResolveStarts(shape, metadata, row);
    if layout.Err? { return LayoutFault(layout.fault); }
    var fields, starts := metadata[..shape.numFields], layout.value;
    var out: seq<FieldValue> := [];
    PutTwice([], Null, ValuesFrom(fields, starts, row, codec, 0));
    for i := 0 to |fields|
      invariant ValuesFrom(fields, starts, row, codec, 0) == Put(out, ValuesFrom(fields, starts, row, codec, i))
    {
      var value: Decoded := Some(Null);
      if starts[i].Some? {
        value := RustField(fields[i], row, starts[i].value, codec);
      }
      if value.None? { return BadColumn(i); }
      PutTwice(out, value.value, ValuesFrom(fields, starts, row, codec, i + 1));
      out := out + [value.value];
    }
    PutTwice(out, Null, RowOf([]));
    r := RowOf(out);
  }

  /** `_build_dbos_row_python`. */
  method PythonRow(shape: Shape, metadata: seq<Field>, data: Bytes, codec: Codec, div: (int, int) -> real)
    returns (r: RowResult)
    requires IsFloatDivision(div)
    ensures PythonLayout(shape, metadata, data).Ok? ==>
              0 <= shape.numFields as int <= |metadata| && Fit(metadata[..shape.numFields], PythonLayout(shape, metadata, data).value, data)
    ensures r == Meaning(PythonLayout(shape, metadata, data), metadata, shape, data, codec)
  {
    StartsFit(shape, metadata, data);
    var layout := PythonValidate(shape, metadata, data);
    if layout.Err? { return LayoutFault(layout.fault); }
    var fields, starts := metadata[..shape.numFields], layout.value;
    var row: seq<FieldValue> := [];
    PutTwice([], Null, ValuesFrom(fields, starts, data, codec, 0));
    for i := 0 to |fields|
      invariant ValuesFrom(fields, starts, data, codec, 0) == Put(row, ValuesFrom(fields, starts, data, codec, i))
    {
      var value: Decoded := Some(Null);
      if starts[i].Some? {
        value := PythonField(fields[i], data, starts[i].value, codec, div);
      }
      if value.None? { return BadColumn(i); }
      PutTwice(row, value.value, ValuesFrom(fields, starts, data, codec, i + 1));
      row := row + [value.value];
    }
    PutTwice(row, Null, RowOf([]));
    r := RowOf(row);
  }

  /** The two decoders, run on the same row of the same result: the same values, or the same
      column that does not decode, or a layout fault from both. */
  method BothDecoders(shape: Shape, metadata: seq<Field>, row: Bytes, codec: Codec, div: (int, int) -> real)
    returns (rust: RowResult, python: RowResult)
    requires |row| < 0x4000_0000_0000_0000 && |metadata| < 0x4000_0000_0000_0000 && IsFloatDivision(div)
    requires shape.numFields < 0x8000_0000 && shape.numVarying < 0x8000_0000 && shape.fixedFieldsSize < 0x8000_0000
    ensures rust == python || (rust.LayoutFault? && python.LayoutFault?)
    ensures rust != python ==> shape.numFields < 0 || shape.numVarying < 0 || shape.fixedFieldsSize < 0
    ensures rust.LayoutFault? <==> PythonLayout(shape, metadata, row).Err?
  {
    rust := RustRow(shape, metadata, row, codec);
    python := PythonRow(shape, metadata, row, codec, div);
    var layout := RustLayout(shape, metadata, row);
    if layout.Ok? {
      LayoutsAgree(shape, metadata, row, layout.value);
    } else {
      var other := PythonLayout(shape, metadata, row);
      if other.Ok? {
        LayoutsAgree(shape, metadata, row, other.value);
      } else {
        LayoutsAgree(shape, metadata, row, []);
      }
    }
    if layout.Ok? {
      NoFault(metadata[..shape.numFields], layout.value, row, codec, 0);
    }
  }

  lemma {:induction false} NoFault(fields: seq<Field>, starts: seq<Option<nat>>, row: Bytes, codec: Codec, i: nat)
    requires i <= |fields| && Fit(fields, starts, row)
    ensures !ValuesFrom(fields, starts, row, codec, i).LayoutFault?
    decreases |fields| - i
  {
    if i < |fields| {
      NoFault(fields, starts, row, codec, i + 1);
    }
  }
}
