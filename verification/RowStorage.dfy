/** How the server lays out a row of optional values, and that both decoders give them back. */
module RowStorage {
  import opened Options
  import opened Division
  import opened Wire
  import opened Numbers
  import opened Temporal
  import opened Layouts
  import opened RowDecoding
  import opened FieldStorage

  /** What is stored in each column; none for NULL. */
  type Cells = seq<Option<Bytes>>

  // ----- printing a row --------------------------------------------------------------------

  /** The column with this physical number is NULL. */
  predicate IsNull(fields: seq<Field>, cells: Cells, p: nat)
    requires |fields| == |cells|
  {
    exists i | 0 <= i < |fields| :: fields[i].phys as int == p && cells[i].None?
  }

  function Flag(fields: seq<Field>, cells: Cells, p: nat): nat
    requires |fields| == |cells|
  {
    if IsNull(fields, cells, p) then 1 else 0
  }

  /** Eight columns, the first in the lowest bit. */
  function BitmapByte(fields: seq<Field>, cells: Cells, j: nat): byte
    requires |fields| == |cells|
  {
    Flag(fields, cells, 8 * j) + 2 * Flag(fields, cells, 8 * j + 1) + 4 * Flag(fields, cells, 8 * j + 2) +
    8 * Flag(fields, cells, 8 * j + 3) + 16 * Flag(fields, cells, 8 * j + 4) + 32 * Flag(fields, cells, 8 * j + 5) +
    64 * Flag(fields, cells, 8 * j + 6) + 128 * Flag(fields, cells, 8 * j + 7)
  }

  function BitmapSize(fields: seq<Field>): nat { (|fields| + 7) / 8 }

  function Bitmap(fields: seq<Field>, cells: Cells, n: nat): (b: Bytes)
    requires |fields| == |cells|
    ensures |b| == n && forall j | 0 <= j < n :: b[j] == BitmapByte(fields, cells, j)
  {
    if n == 0 then [] else Bitmap(fields, cells, n - 1) + [BitmapByte(fields, cells, n - 1)]
  }

  function Overwrite(a: Bytes, at: nat, b: Bytes): (r: Bytes)
    requires at + |b| <= |a|
    ensures |r| == |a|
  {
    a[..at] + b + a[at + |b|..]
  }

  predicate IsFixedCell(f: Field, cell: Option<Bytes>) { f.fixed > 0 && cell.Some? }

  /** A fixed column lies between the bitmap and the varying area. */
  predicate InFixedArea(shape: Shape, fields: seq<Field>, f: Field, b: Bytes) {
    2 + BitmapSize(fields) <= f.offset as int && f.offset as int + |b| <= shape.fixedFieldsSize as int
  }

  predicate Apart(f: Field, a: Bytes, g: Field, b: Bytes) {
    f.offset as int + |a| <= g.offset as int || g.offset as int + |b| <= f.offset as int
  }

  /** The columns that the printer and the decoders are told about: physical numbers and
      varying numbers are used once, and the stored cells fit beside each other. */
  ghost predicate Described(shape: Shape, fields: seq<Field>, cells: Cells) {
    && shape.numFields as int == |fields| == |cells| && shape.numVarying >= 0
    && 2 + BitmapSize(fields) <= shape.fixedFieldsSize as int
    && (forall i | 0 <= i < |fields| :: DescribedOne(shape, fields, fields[i], cells[i]))
    && (forall i, j | 0 <= i < j < |fields| :: DescribedTwo(fields[i], cells[i], fields[j], cells[j]))
  }

  predicate DescribedOne(shape: Shape, fields: seq<Field>, f: Field, cell: Option<Bytes>) {
    && 0 <= f.phys as int < |fields| && f.fixed >= 0
    && (cell.None? ==> shape.nullsAllowed)
    && (f.fixed == 0 ==> 0 <= f.offset < shape.numVarying && (cell.Some? ==> IsPiece(cell.value)))
    && (IsFixedCell(f, cell) ==> InFixedArea(shape, fields, f, cell.value))
  }

  predicate DescribedTwo(f: Field, a: Option<Bytes>, g: Field, b: Option<Bytes>) {
    && f.phys != g.phys
    && (f.fixed == 0 && g.fixed == 0 ==> f.offset != g.offset)
    && (IsFixedCell(f, a) && IsFixedCell(g, b) ==> Apart(f, a.value, g, b.value))
  }

  /** The fixed columns before number `n`, each at its offset. */
  function Place(shape: Shape, fields: seq<Field>, cells: Cells, n: nat, area: Bytes): (r: Bytes)
    requires Described(shape, fields, cells) && n <= |fields| && |area| == shape.fixedFieldsSize as int
    ensures |r| == |area|
  {
    if n == 0 then area
    else
      var a := Place(shape, fields, cells, n - 1, area);
      if IsFixedCell(fields[n - 1], cells[n - 1]) then Overwrite(a, fields[n - 1].offset as int, cells[n - 1].value) else a
  }

  /** What stands for varying column number `k`: its piece, or an empty one for NULL. */
  function PieceOf(fields: seq<Field>, cells: Cells, k: nat): Bytes
    requires |fields| == |cells|
  {
    if fields == [] then [2, 0]
    else if fields[0].fixed == 0 && fields[0].offset as int == k && cells[0].Some? then cells[0].value
    else PieceOf(fields[1..], cells[1..], k)
  }

  function Even(b: Bytes): Bytes { if |b| % 2 == 0 then b else b + [0] }

  /** The varying columns from number `k` to `n`, each padded to an even length. */
  function PutVarying(fields: seq<Field>, cells: Cells, k: nat, n: nat): Bytes
    requires |fields| == |cells| && k <= n
    decreases n - k
  {
    if k == n then [] else Even(PieceOf(fields, cells, k)) + PutVarying(fields, cells, k + 1, n)
  }

  /** Two bytes of header, the NULL bitmap, the fixed and the varying columns. */
  function PutRow(shape: Shape, fields: seq<Field>, cells: Cells, header: Bytes): Bytes
    requires Described(shape, fields, cells) && |header| == 2
  {
    var front := header + Bitmap(fields, cells, BitmapSize(fields));
    Place(shape, fields, cells, |fields|, front + Zeros(shape.fixedFieldsSize as int - |front|)) +
    PutVarying(fields, cells, 0, shape.numVarying as int)
  }

  // ----- the bitmap ------------------------------------------------------------------------

  /** The bit with weight `w`, between the lower bits and the higher ones. */
  lemma BitAt(x: nat, w: nat, low: nat, bit: nat, high: nat)
    requires x == w * (bit + 2 * high) + low && low < w && bit <= 1
    ensures x / w % 2 == bit
  {
    DivUnique(x, w, bit + 2 * high, low);
  }

  lemma BitOf(a: nat, b: nat, c: nat, d: nat, e: nat, f: nat, g: nat, h: nat, k: nat)
    requires a <= 1 && b <= 1 && c <= 1 && d <= 1 && e <= 1 && f <= 1 && g <= 1 && h <= 1 && k < 8
    ensures Bit(a + 2 * b + 4 * c + 8 * d + 16 * e + 32 * f + 64 * g + 128 * h, k) == [a, b, c, d, e, f, g, h][k]
  {
    var x := a + 2 * b + 4 * c + 8 * d + 16 * e + 32 * f + 64 * g + 128 * h;
    BitAt(x, 1, 0, a, b + 2 * c + 4 * d + 8 * e + 16 * f + 32 * g + 64 * h);
    BitAt(x, 2, a, b, c + 2 * d + 4 * e + 8 * f + 16 * g + 32 * h);
    BitAt(x, 4, a + 2 * b, c, d + 2 * e + 4 * f + 8 * g + 16 * h);
    BitAt(x, 8, a + 2 * b + 4 * c, d, e + 2 * f + 4 * g + 8 * h);
    BitAt(x, 16, a + 2 * b + 4 * c + 8 * d, e, f + 2 * g + 4 * h);
    BitAt(x, 32, a + 2 * b + 4 * c + 8 * d + 16 * e, f, g + 2 * h);
    BitAt(x, 64, a + 2 * b + 4 * c + 8 * d + 16 * e + 32 * f, g, h);
    BitAt(x, 128, a + 2 * b + 4 * c + 8 * d + 16 * e + 32 * f + 64 * g, h, 0);
    assert [1, 2, 4, 8, 16, 32, 64, 128][k] ==
           if k == 0 then 1 else if k == 1 then 2 else if k == 2 then 4 else if k == 3 then 8 else if k == 4 then 16
           else if k == 5 then 32 else if k == 6 then 64 else 128;
  }

  /** The flags of the eight columns of a byte. */
  function Flags(fields: seq<Field>, cells: Cells, j: nat): seq<nat>
    requires |fields| == |cells|
  {
    [Flag(fields, cells, 8 * j), Flag(fields, cells, 8 * j + 1), Flag(fields, cells, 8 * j + 2), Flag(fields, cells, 8 * j + 3),
     Flag(fields, cells, 8 * j + 4), Flag(fields, cells, 8 * j + 5), Flag(fields, cells, 8 * j + 6), Flag(fields, cells, 8 * j + 7)]
  }

  lemma FlagAt(fields: seq<Field>, cells: Cells, j: nat, k: nat)
    requires |fields| == |cells| && k < 8
    ensures Flags(fields, cells, j)[k] == Flag(fields, cells, 8 * j + k)
  {
  }

  lemma BitmapBit(fields: seq<Field>, cells: Cells, p: nat)
    requires |fields| == |cells|
    ensures Bit(BitmapByte(fields, cells, p / 8), p % 8) == Flag(fields, cells, p)
  {
    var f := Flags(fields, cells, p / 8);
    BitOf(f[0], f[1], f[2], f[3], f[4], f[5], f[6], f[7], p % 8);
    assert f == [f[0], f[1], f[2], f[3], f[4], f[5], f[6], f[7]];
    FlagAt(fields, cells, p / 8, p % 8);
    assert p == 8 * (p / 8) + p % 8;
  }

  lemma NullOnce(shape: Shape, fields: seq<Field>, cells: Cells, i: nat)
    requires Described(shape, fields, cells) && i < |fields|
    ensures fields[i].phys >= 0 && (IsNull(fields, cells, fields[i].phys as int) <==> cells[i].None?)
  {
    assert DescribedOne(shape, fields, fields[i], cells[i]);
    forall j | 0 <= j < |fields| && fields[j].phys == fields[i].phys
      ensures j == i
    {
      assert j < i ==> DescribedTwo(fields[j], cells[j], fields[i], cells[i]);
      assert i < j ==> DescribedTwo(fields[i], cells[i], fields[j], cells[j]);
    }
  }

  // ----- the fixed area --------------------------------------------------------------------

  lemma OverwriteAt(a: Bytes, at: nat, b: Bytes, p: nat)
    requires at + |b| <= |a| && p < |a|
    ensures Overwrite(a, at, b)[p] == if at <= p < at + |b| then b[p - at] else a[p]
  {
  }

  /** A fixed column stays where it was put, and the header and the bitmap stay. */
  lemma {:induction false} Placed(shape: Shape, fields: seq<Field>, cells: Cells, n: nat, area: Bytes, i: nat, p: nat)
    requires Described(shape, fields, cells) && n <= |fields| && |area| == shape.fixedFieldsSize as int && p < |area|
    ensures p < 2 + BitmapSize(fields) ==> Place(shape, fields, cells, n, area)[p] == area[p]
    ensures i < n && IsFixedCell(fields[i], cells[i]) && fields[i].offset as int <= p < fields[i].offset as int + |cells[i].value| ==>
              Place(shape, fields, cells, n, area)[p] == cells[i].value[p - fields[i].offset as int]
  {
    if n > 0 {
      var m := n - 1;
      Placed(shape, fields, cells, m, area, i, p);
      if IsFixedCell(fields[m], cells[m]) {
        assert DescribedOne(shape, fields, fields[m], cells[m]);
        OverwriteAt(Place(shape, fields, cells, m, area), fields[m].offset as int, cells[m].value, p);
        assert i < m ==> DescribedTwo(fields[i], cells[i], fields[m], cells[m]);
      }
    }
  }

  // ----- the varying area ------------------------------------------------------------------

  /** What is stored for a varying column is a piece. */
  ghost predicate ArePieces(fields: seq<Field>, cells: Cells)
    requires |fields| == |cells|
  {
    forall i | 0 <= i < |fields| :: fields[i].fixed == 0 && cells[i].Some? ==> IsPiece(cells[i].value)
  }

  lemma {:induction false} PieceFits(fields: seq<Field>, cells: Cells, k: nat)
    requires |fields| == |cells|
    requires ArePieces(fields, cells)
    ensures IsPiece(PieceOf(fields, cells, k))
  {
    if fields != [] {
      PieceFits(fields[1..], cells[1..], k);
    }
  }

  lemma {:induction false} PieceIs(fields: seq<Field>, cells: Cells, i: nat)
    requires |fields| == |cells| && i < |fields| && fields[i].fixed == 0 && fields[i].offset >= 0 && cells[i].Some?
    requires forall j | 0 <= j < |fields| && j != i :: fields[j].fixed == 0 ==> fields[j].offset != fields[i].offset
    ensures PieceOf(fields, cells, fields[i].offset as int) == cells[i].value
  {
    if i > 0 {
      PieceIs(fields[1..], cells[1..], i - 1);
    }
  }

  lemma PieceRead(b: Bytes, rest: Bytes)
    requires IsPiece(b)
    ensures var p := Even(b) + rest;
            |p| >= 2 && U16(p, 0) == |b| && |b| + |b| % 2 == |Even(b)| && DropUpTo(p, |b| + |b| % 2) == rest
  {
    var p := Even(b) + rest;
    assert p[0] == b[0] && p[1] == b[1];
  }

  lemma PieceStands(fields: seq<Field>, cells: Cells, row: Bytes, area: nat, k: nat, n: nat)
    requires |fields| == |cells| && k < n && IsPiece(PieceOf(fields, cells, k))
    requires VarFieldPtr(row, area, k) == PutVarying(fields, cells, k, n)
    ensures PieceAt(row, area, k)
    ensures VarFieldPtr(row, area, k + 1) == PutVarying(fields, cells, k + 1, n)
  {
    var b, rest := PieceOf(fields, cells, k), PutVarying(fields, cells, k + 1, n);
    PieceRead(b, rest);
    assert VarFieldPtr(row, area, k) == Even(b) + rest;
    PointerOn(row, area, k, b, rest);
  }

  lemma WalkOn(row: Bytes, area: nat, k: nat, p: Bytes)
    requires VarFieldPtr(row, area, k) == p && |p| >= 2
    ensures VarFieldPtr(row, area, k + 1) == DropUpTo(p, U16(p, 0) + U16(p, 0) % 2)
  {
    var low: int := p[0];
    var high: int := p[1];
    var n := low + 256 * high;
    assert n == U16(p, 0);
    assert VarFieldPtr(row, area, k + 1) == if n % 2 == 0 then DropUpTo(p, n) else DropUpTo(p, n + 1);
  }

  lemma PointerOn(row: Bytes, area: nat, k: nat, b: Bytes, rest: Bytes)
    requires IsPiece(b) && VarFieldPtr(row, area, k) == Even(b) + rest
    ensures VarFieldPtr(row, area, k + 1) == rest
  {
    PieceRead(b, rest);
    WalkOn(row, area, k, Even(b) + rest);
  }

  /** The pointer walk finds the pieces one behind the other. */
  lemma {:induction false} WalkFinds(fields: seq<Field>, cells: Cells, row: Bytes, area: nat, k: nat, n: nat)
    requires |fields| == |cells| && k <= n && area <= |row| && row[area..] == PutVarying(fields, cells, 0, n)
    requires ArePieces(fields, cells)
    ensures VarFieldPtr(row, area, k) == PutVarying(fields, cells, k, n)
    decreases k
  {
    if k > 0 {
      var j := k - 1;
      WalkFinds(fields, cells, row, area, j, n);
      PieceFits(fields, cells, j);
      PieceStands(fields, cells, row, area, j, n);
    }
  }

  lemma AllPiecesStand(fields: seq<Field>, cells: Cells, row: Bytes, area: nat, n: nat)
    requires |fields| == |cells| && area <= |row| && row[area..] == PutVarying(fields, cells, 0, n)
    requires ArePieces(fields, cells)
    ensures Chained(row, area, n)
  {
    forall k: nat | k < n
      ensures PieceAt(row, area, k)
    {
      WalkFinds(fields, cells, row, area, k, n);
      PieceFits(fields, cells, k);
      PieceStands(fields, cells, row, area, k, n);
    }
  }

  /** How far behind the start of the varying area column number `k` stands. */
  function Before(fields: seq<Field>, cells: Cells, k: nat): nat
    requires |fields| == |cells|
  {
    if k == 0 then 0 else Before(fields, cells, k - 1) + |Even(PieceOf(fields, cells, k - 1))|
  }

  lemma {:induction false} VaryingFrom(fields: seq<Field>, cells: Cells, row: Bytes, area: nat, k: nat, n: nat)
    requires |fields| == |cells| && k <= n && area <= |row| && row[area..] == PutVarying(fields, cells, 0, n)
    ensures area + Before(fields, cells, k) <= |row|
    ensures row[area + Before(fields, cells, k)..] == PutVarying(fields, cells, k, n)
    decreases k
  {
    if k > 0 {
      var j := k - 1;
      VaryingFrom(fields, cells, row, area, j, n);
      var at, b, rest := area + Before(fields, cells, j), Even(PieceOf(fields, cells, j)), PutVarying(fields, cells, k, n);
      assert PutVarying(fields, cells, j, n) == b + rest;
      Behind(row, at, b, rest);
      assert area + Before(fields, cells, k) == at + |b|;
    }
  }

  lemma Behind(row: Bytes, at: nat, b: Bytes, rest: Bytes)
    requires at <= |row| && row[at..] == b + rest
    ensures at + |b| <= |row| && row[at + |b|..] == rest && row[at..at + |b|] == b
  {
    assert row[at + |b|..] == row[at..][|b|..];
    SliceFrom(row, at, |b|);
  }

  // ----- the whole row -----------------------------------------------------------------------

  function StartOf(shape: Shape, fields: seq<Field>, cells: Cells, i: nat): Option<nat>
    requires Described(shape, fields, cells) && i < |fields|
  {
    var f := fields[i];
    assert DescribedOne(shape, fields, f, cells[i]);
    if cells[i].None? then None
    else if f.fixed > 0 then Some(f.offset as nat)
    else Some(shape.fixedFieldsSize as int + Before(fields, cells, f.offset as int))
  }

  function Starts(shape: Shape, fields: seq<Field>, cells: Cells): (starts: seq<Option<nat>>)
    requires Described(shape, fields, cells)
    ensures |starts| == |fields| && forall i | 0 <= i < |fields| :: starts[i] == StartOf(shape, fields, cells, i)
  {
    seq(|fields|, i requires 0 <= i < |fields| => StartOf(shape, fields, cells, i))
  }

  function FrontArea(shape: Shape, fields: seq<Field>, cells: Cells, header: Bytes): (area: Bytes)
    requires Described(shape, fields, cells) && |header| == 2
    ensures |area| == shape.fixedFieldsSize as int
  {
    var front := header + Bitmap(fields, cells, BitmapSize(fields));
    front + Zeros(shape.fixedFieldsSize as int - |front|)
  }

  lemma FrontByte(shape: Shape, fields: seq<Field>, cells: Cells, header: Bytes, q: nat)
    requires Described(shape, fields, cells) && |header| == 2 && q < BitmapSize(fields)
    ensures FrontArea(shape, fields, cells, header)[2 + q] == BitmapByte(fields, cells, q)
  {
    var bitmap := Bitmap(fields, cells, BitmapSize(fields));
    assert (header + bitmap)[2 + q] == bitmap[q];
  }

  lemma RowParts(shape: Shape, fields: seq<Field>, cells: Cells, header: Bytes)
    requires Described(shape, fields, cells) && |header| == 2
    ensures var row, size := PutRow(shape, fields, cells, header), shape.fixedFieldsSize as int;
            && size <= |row| && row[size..] == PutVarying(fields, cells, 0, shape.numVarying as int)
            && row[..size] == Place(shape, fields, cells, |fields|, FrontArea(shape, fields, cells, header))
  {
  }

  lemma BitmapStands(shape: Shape, fields: seq<Field>, cells: Cells, header: Bytes, q: nat)
    requires Described(shape, fields, cells) && |header| == 2 && q < BitmapSize(fields)
    ensures var row := PutRow(shape, fields, cells, header); 2 + q < |row| && row[2 + q] == BitmapByte(fields, cells, q)
  {
    var row, area := PutRow(shape, fields, cells, header), FrontArea(shape, fields, cells, header);
    RowParts(shape, fields, cells, header);
    FrontByte(shape, fields, cells, header, q);
    Placed(shape, fields, cells, |fields|, area, 0, 2 + q);
    assert row[2 + q] == row[..shape.fixedFieldsSize as int][2 + q];
  }

  /** The bit with the physical number of a column is set if and only if the column is NULL. */
  lemma NullBitIs(shape: Shape, fields: seq<Field>, cells: Cells, header: Bytes, i: nat)
    requires Described(shape, fields, cells) && |header| == 2 && i < |fields|
    ensures var row := PutRow(shape, fields, cells, header);
            BitmapFits(shape, row) && 0 <= fields[i].phys < shape.numFields && (NullBit(shape, fields[i], row) <==> cells[i].None?)
  {
    assert DescribedOne(shape, fields, fields[i], cells[i]);
    RowParts(shape, fields, cells, header);
    BitmapStands(shape, fields, cells, header, fields[i].phys as int / 8);
    BitmapBit(fields, cells, fields[i].phys as int);
    NullOnce(shape, fields, cells, i);
  }

  lemma FixedCellAt(shape: Shape, fields: seq<Field>, cells: Cells, header: Bytes, i: nat)
    requires Described(shape, fields, cells) && |header| == 2 && i < |fields| && IsFixedCell(fields[i], cells[i])
    ensures var row := PutRow(shape, fields, cells, header);
            fields[i].offset >= 0 && At(row, fields[i].offset as int, cells[i].value)
            && StartsAt(shape, fields[i], row, fields[i].offset as int)
  {
    var row, area := PutRow(shape, fields, cells, header), FrontArea(shape, fields, cells, header);
    var off, b, size := fields[i].offset as int, cells[i].value, shape.fixedFieldsSize as int;
    RowParts(shape, fields, cells, header);
    assert DescribedOne(shape, fields, fields[i], cells[i]);
    forall p | off <= p < off + |b|
      ensures row[p] == b[p - off]
    {
      Placed(shape, fields, cells, |fields|, area, i, p);
      assert row[p] == row[..size][p];
    }
  }

  lemma OtherOffsets(shape: Shape, fields: seq<Field>, cells: Cells, i: nat)
    requires Described(shape, fields, cells) && i < |fields| && fields[i].fixed == 0
    ensures ArePieces(fields, cells) && 0 <= fields[i].offset < shape.numVarying
    ensures forall j | 0 <= j < |fields| && j != i :: fields[j].fixed == 0 ==> fields[j].offset != fields[i].offset
  {
    assert DescribedOne(shape, fields, fields[i], cells[i]);
    assert forall j | 0 <= j < |fields| :: DescribedOne(shape, fields, fields[j], cells[j]);
    forall j | 0 <= j < |fields| && j != i && fields[j].fixed == 0
      ensures fields[j].offset != fields[i].offset
    {
      assert j < i ==> DescribedTwo(fields[j], cells[j], fields[i], cells[i]);
      assert i < j ==> DescribedTwo(fields[i], cells[i], fields[j], cells[j]);
    }
  }

  lemma PieceFound(fields: seq<Field>, cells: Cells, row: Bytes, area: nat, k: nat, n: nat)
    requires |fields| == |cells| && k < n && area <= |row| && row[area..] == PutVarying(fields, cells, 0, n)
    requires ArePieces(fields, cells)
    ensures var at := area + Before(fields, cells, k);
            at <= |row| && row[at..] == VarFieldPtr(row, area, k) && At(row, at, PieceOf(fields, cells, k))
  {
    var at, b := area + Before(fields, cells, k), PieceOf(fields, cells, k);
    WalkFinds(fields, cells, row, area, k, n);
    VaryingFrom(fields, cells, row, area, k, n);
    Behind(row, at, Even(b), PutVarying(fields, cells, k + 1, n));
    SliceOfSlice(row, at, at + |Even(b)|, 0, |b|);
  }

  lemma VaryingPieceAt(shape: Shape, fields: seq<Field>, cells: Cells, header: Bytes, k: nat)
    requires Described(shape, fields, cells) && |header| == 2 && k < shape.numVarying as int && ArePieces(fields, cells)
    ensures var row, size := PutRow(shape, fields, cells, header), shape.fixedFieldsSize as int;
            var at := size + Before(fields, cells, k);
            at <= |row| && row[at..] == VarFieldPtr(row, size, k) && At(row, at, PieceOf(fields, cells, k))
  {
    RowParts(shape, fields, cells, header);
    PieceFound(fields, cells, PutRow(shape, fields, cells, header), shape.fixedFieldsSize as int, k, shape.numVarying as int);
  }

  lemma VaryingCellAt(shape: Shape, fields: seq<Field>, cells: Cells, header: Bytes, i: nat)
    requires Described(shape, fields, cells) && |header| == 2 && i < |fields| && fields[i].fixed == 0 && cells[i].Some?
    ensures var row, start := PutRow(shape, fields, cells, header), StartOf(shape, fields, cells, i);
            start.Some? && At(row, start.value, cells[i].value) && StartsAt(shape, fields[i], row, start.value)
  {
    OtherOffsets(shape, fields, cells, i);
    PieceIs(fields, cells, i);
    VaryingPieceAt(shape, fields, cells, header, fields[i].offset as int);
  }

  /** The values of a row, NULL where nothing is stored. */
  ghost predicate StoresAll(fields: seq<Field>, codec: Codec, values: seq<FieldValue>, cells: Cells) {
    && |fields| == |values| == |cells|
    && forall i | 0 <= i < |fields| ::
         if cells[i].None? then values[i] == Null else Stores(fields[i], codec, values[i], cells[i].value)
  }

  /** Each stored value stands where the decoders look for it, and they read it there. */
  lemma CellBack(shape: Shape, fields: seq<Field>, cells: Cells, header: Bytes, codec: Codec, values: seq<FieldValue>, i: nat)
    requires Described(shape, fields, cells) && |header| == 2 && StoresAll(fields, codec, values, cells)
    requires i < |fields| && cells[i].Some?
    ensures var row, start := PutRow(shape, fields, cells, header), StartOf(shape, fields, cells, i);
            start.Some? && StartsAt(shape, fields[i], row, start.value)
            && Back(fields[i], codec, Some(values[i]), cells[i].value, row, start.value)
  {
    assert DescribedOne(shape, fields, fields[i], cells[i]);
    if fields[i].fixed > 0 {
      FixedCellAt(shape, fields, cells, header, i);
    } else {
      VaryingCellAt(shape, fields, cells, header, i);
    }
    FieldBack(fields[i], codec, values[i], cells[i].value, PutRow(shape, fields, cells, header),
              StartOf(shape, fields, cells, i).value);
  }

  lemma FieldLaidOut(shape: Shape, fields: seq<Field>, cells: Cells, header: Bytes, codec: Codec, values: seq<FieldValue>, i: nat)
    requires Described(shape, fields, cells) && |header| == 2 && StoresAll(fields, codec, values, cells) && i < |fields|
    ensures BitmapFits(shape, PutRow(shape, fields, cells, header))
    ensures FieldOk(shape, fields[i], PutRow(shape, fields, cells, header), StartOf(shape, fields, cells, i))
  {
    assert DescribedOne(shape, fields, fields[i], cells[i]);
    NullBitIs(shape, fields, cells, header, i);
    if cells[i].Some? {
      CellBack(shape, fields, cells, header, codec, values, i);
    }
  }

  lemma RowLaidOut(shape: Shape, fields: seq<Field>, cells: Cells, header: Bytes, codec: Codec, values: seq<FieldValue>)
    requires Described(shape, fields, cells) && |header| == 2 && StoresAll(fields, codec, values, cells)
    ensures LaidOut(shape, fields, PutRow(shape, fields, cells, header), Starts(shape, fields, cells))
  {
    var row := PutRow(shape, fields, cells, header);
    RowParts(shape, fields, cells, header);
    assert ArePieces(fields, cells) by {
      assert forall j | 0 <= j < |fields| :: DescribedOne(shape, fields, fields[j], cells[j]);
    }
    AllPiecesStand(fields, cells, row, shape.fixedFieldsSize as int, shape.numVarying as int);
    forall i | 0 <= i < |fields|
      ensures FieldOk(shape, fields[i], row, Starts(shape, fields, cells)[i])
    {
      FieldLaidOut(shape, fields, cells, header, codec, values, i);
    }
  }

  lemma ValueBack(shape: Shape, fields: seq<Field>, cells: Cells, header: Bytes, codec: Codec, values: seq<FieldValue>, i: nat)
    requires Described(shape, fields, cells) && |header| == 2 && StoresAll(fields, codec, values, cells) && i < |fields|
    ensures var row, start := PutRow(shape, fields, cells, header), Starts(shape, fields, cells)[i];
            if start.None? then values[i] == Null
            else start.value <= |row| && Spans(fields[i], start.value, row)
                 && RustField(fields[i], row, start.value, codec) == Some(values[i])
  {
    if cells[i].Some? {
      CellBack(shape, fields, cells, header, codec, values, i);
    }
  }

  lemma {:induction false} ValuesBack(shape: Shape, fields: seq<Field>, cells: Cells, header: Bytes, codec: Codec,
                                      values: seq<FieldValue>, i: nat)
    requires Described(shape, fields, cells) && |header| == 2 && StoresAll(fields, codec, values, cells) && i <= |fields|
    requires Fit(fields, Starts(shape, fields, cells), PutRow(shape, fields, cells, header))
    ensures ValuesFrom(fields, Starts(shape, fields, cells), PutRow(shape, fields, cells, header), codec, i) == RowOf(values[i..])
    decreases |fields| - i
  {
    if i < |fields| {
      ValuesBack(shape, fields, cells, header, codec, values, i + 1);
      assert [values[i]] + values[i + 1..] == values[i..];
      ValueBack(shape, fields, cells, header, codec, values, i);
    }
  }

  /** A printed row means the values that were printed, to both decoders. */
  lemma RowBack(shape: Shape, metadata: seq<Field>, cells: Cells, header: Bytes, codec: Codec, values: seq<FieldValue>)
    requires 0 <= shape.numFields as int <= |metadata| && |header| == 2
    requires var fields := metadata[..shape.numFields]; Described(shape, fields, cells) && StoresAll(fields, codec, values, cells)
    ensures var fields := metadata[..shape.numFields];
            var row, starts := PutRow(shape, fields, cells, header), Starts(shape, fields, cells);
            && RustLayout(shape, metadata, row) == Ok(starts) && PythonLayout(shape, metadata, row) == Ok(starts)
            && Fit(fields, starts, row) && Meaning(Ok(starts), metadata, shape, row, codec) == RowOf(values)
  {
    var fields := metadata[..shape.numFields];
    var row, starts := PutRow(shape, fields, cells, header), Starts(shape, fields, cells);
    RowLaidOut(shape, fields, cells, header, codec, values);
    LayoutsAgree(shape, metadata, row, starts);
    StartsFit(shape, metadata, row);
    ValuesBack(shape, fields, cells, header, codec, values, 0);
    assert values[0..] == values;
  }

  /** Both decoders, run on a row that the server laid out: they give back its values. */
  method DecodeStored(shape: Shape, metadata: seq<Field>, ghost cells: Cells, row: Bytes, codec: Codec, div: (int, int) -> real,
                      ghost values: seq<FieldValue>)
    returns (rust: RowResult, python: RowResult)
    requires |row| < 0x4000_0000_0000_0000 && |metadata| < 0x4000_0000_0000_0000 && IsFloatDivision(div)
    requires shape.numFields < 0x8000_0000 && shape.numVarying < 0x8000_0000 && shape.fixedFieldsSize < 0x8000_0000
    requires 0 <= shape.numFields as int <= |metadata| && |row| >= 2
    requires var fields := metadata[..shape.numFields];
             && Described(shape, fields, cells) && StoresAll(fields, codec, values, cells)
             && row == PutRow(shape, fields, cells, row[..2])
    ensures rust == python == RowOf(values)
  {
    RowBack(shape, metadata, cells, row[..2], codec, values);
    rust := RustRow(shape, metadata, row, codec);
    python := PythonRow(shape, metadata, row, codec, div);
  }
}
