/** What a bulk load stores, told by the values the caller passed: which value goes to which
    column, and what the reader of the transfer format finds there. */
module LoadedValues {
  import opened Options
  import opened Decimals
  import opened DelimitedText
  import opened Inference
  import opened Rendering

  // ----- the value of a cell -----------------------------------------------------------------

  /** The first name of the column that is a key, and its value. */
  ghost predicate IsUnderName(m: map<string, Value>, names: seq<string>, v: Value, k: nat) {
    k < |names| && names[k] in m && m[names[k]] == v && forall j | 0 <= j < k :: names[j] !in m
  }

  predicate HasName(m: map<string, Value>, names: seq<string>) { exists k | 0 <= k < |names| :: names[k] in m }

  /** The value of column `i`: by position in a list, by name in a dictionary. */
  ghost predicate IsValueAt(p: Plan, row: Row, i: nat, v: Value)
    requires i < |p.columns|
  {
    match row
    case Values(vs) => |vs| == |p.columns| && v == vs[i]
    case Keyed(m) => exists k :: IsUnderName(m, p.columns[i].lookupNames, v, k)
    case Unusable => false
  }

  /** A row has one value for each column. */
  predicate Matches(p: Plan, row: Row) {
    match row
    case Values(vs) => |vs| == |p.columns|
    case Keyed(m) => |m| == |p.columns| && forall i | 0 <= i < |p.columns| :: HasName(m, p.columns[i].lookupNames)
    case Unusable => false
  }

  lemma {:induction false} FirstKeyIs(m: map<string, Value>, names: seq<string>)
    ensures FirstKey(m, names).Some? <==> HasName(m, names)
    ensures FirstKey(m, names).Some? ==> exists k :: IsUnderName(m, names, FirstKey(m, names).value, k)
  {
    if names != [] {
      if names[0] in m {
        assert IsUnderName(m, names, m[names[0]], 0);
      } else {
        FirstKeyIs(m, names[1..]);
        if FirstKey(m, names[1..]).Some? {
          var k: nat :| IsUnderName(m, names[1..], FirstKey(m, names[1..]).value, k);
          LaterName(m, names, FirstKey(m, names[1..]).value, k);
        }
        assert HasName(m, names[1..]) ==> HasName(m, names) by { NameBehind(m, names); }
        assert HasName(m, names) ==> HasName(m, names[1..]) by { NameBehind(m, names); }
      }
    }
  }

  lemma LaterName(m: map<string, Value>, names: seq<string>, v: Value, k: nat)
    requires names != [] && names[0] !in m && IsUnderName(m, names[1..], v, k)
    ensures IsUnderName(m, names, v, k + 1)
  {
    assert forall j | 1 <= j < |names| :: names[j] == names[1..][j - 1];
  }

  lemma NameBehind(m: map<string, Value>, names: seq<string>)
    requires names != [] && names[0] !in m
    ensures HasName(m, names) <==> HasName(m, names[1..])
  {
    assert forall j | 1 <= j < |names| :: names[j] == names[1..][j - 1];
    if HasName(m, names) {
      var k :| 0 <= k < |names| && names[k] in m;
      assert names[1..][k - 1] in m;
    }
  }

  lemma {:induction false} PickAllIs(m: map<string, Value>, columns: seq<Column>)
    ensures PickAll(m, columns).Some? <==> forall i | 0 <= i < |columns| :: HasName(m, columns[i].lookupNames)
    ensures PickAll(m, columns).Some? ==>
              forall i | 0 <= i < |columns| :: FirstKey(m, columns[i].lookupNames) == Some(PickAll(m, columns).value[i])
  {
    if columns != [] {
      FirstKeyIs(m, columns[0].lookupNames);
      PickAllIs(m, columns[1..]);
      assert forall i | 1 <= i < |columns| :: columns[i] == columns[1..][i - 1];
    }
  }

  /** The rows that are refused are the rows that do not match the columns, and every other
      row gives each column its own value. */
  lemma PickedRight(p: Plan, row: Row)
    ensures PickValues(p, row).Some? <==> Matches(p, row)
    ensures PickValues(p, row).Some? ==> forall i | 0 <= i < |p.columns| :: IsValueAt(p, row, i, PickValues(p, row).value[i])
  {
    if row.Keyed? && |row.byKey| == |p.columns| {
      PickAllIs(row.byKey, p.columns);
      forall i | 0 <= i < |p.columns| && PickValues(p, row).Some?
        ensures IsValueAt(p, row, i, PickValues(p, row).value[i])
      {
        FirstKeyIs(row.byKey, p.columns[i].lookupNames);
      }
    }
  }

  // ----- the cell of a value -----------------------------------------------------------------

  lemma {:induction false} CellsAre(p: Plan, vs: seq<Value>, i: nat)
    requires i <= |vs| == |p.columns|
    ensures CellsFrom(p, vs, i).Cells? <==> forall j | i <= j < |vs| :: CellOf(p, p.columns[j], vs[j]).Some?
    ensures CellsFrom(p, vs, i).Cells? ==>
              forall j | i <= j < |vs| :: CellOf(p, p.columns[j], vs[j]) == Some(CellsFrom(p, vs, i).cells[j - i])
    decreases |vs| - i
  {
    if i < |vs| {
      CellsAre(p, vs, i + 1);
    }
  }

  lemma {:induction false} TableRow(p: Plan, rows: seq<Row>, number: nat, k: nat)
    requires p.columns != [] && k < |rows| && TableOf(p, rows, number).IsTable?
    ensures RowMeaning(p, rows[k], number + k) == IsCells(TableOf(p, rows, number).table[k])
    decreases k
  {
    if k > 0 {
      TableRow(p, rows[1..], number + 1, k - 1);
    }
  }

  // ----- what arrives --------------------------------------------------------------------------

  /** The conversions that the model spells out: truth values, integers and strings in text
      columns, and numbers in columns of numbers. */
  predicate Spelled(ct: ColumnType, v: Value) {
    match v
    case BoolValue(_) => !ct.OtherColumn?
    case IntValue(_) => !ct.OtherColumn? && Exact(ct, v)
    case DecimalValue(_) => (ct.NumericColumn? || ct.TextColumn?) && Exact(ct, v)
    case _ => false
  }

  /** What must stand in a column for a value of the caller: NULL for None, a string itself in
      a text column, and a text that denotes a number or a truth value. */
  predicate Arrives(ct: ColumnType, v: Value, cell: Cell) {
    && (v.NoneValue? ==> cell == None)
    && (v.StrValue? && ct.TextColumn? ==> cell == Some(v.text))
    && (Spelled(ct, v) ==> cell.Some? && Denotes(cell.value, v))
    && (v.BoolValue? && ct.BoolColumn? ==> cell == Some(if v.truth then "1" else "0"))
    && (v.BoolValue? && ct.TextColumn? ==> cell == Some(if v.truth then "true" else "false"))
  }

  /** The opaque converters never turn a value into NULL. */
  ghost predicate NeverNull(other: Oracle) { forall ct: ColumnType, v: Value :: other(ct, v) != AsNull }

  lemma NumberArrives(p: Plan, column: Column, v: Value, cell: Cell)
    requires CellOf(p, column, v) == Some(cell) && Spelled(column.ctype, v)
    ensures cell.Some? && Denotes(cell.value, v)
  {
    var ct := column.ctype;
    if v.IntValue? && ct.NumericColumn? {
      NormalTextExactly(Finite(v.number < 0, Magnitude(v.number), 0));
    } else if v.IntValue? {
      IntTextDenotes(v.number);
    } else if v.DecimalValue? && ct.NumericColumn? {
      NormalTextExactly(v.decimal);
    } else if v.DecimalValue? {
      FixedTextRead(v.decimal.negative, v.decimal.coefficient, v.decimal.exponent);
    }
  }

  lemma CellArrives(p: Plan, column: Column, v: Value, cell: Cell)
    requires CellOf(p, column, v) == Some(cell)
    ensures Arrives(column.ctype, v, cell)
    ensures NeverNull(p.other) ==> (cell == None <==> v.NoneValue?)
  {
    if Spelled(column.ctype, v) {
      NumberArrives(p, column, v, cell);
    }
  }

  /** The cell at row `k` and column `i` holds what the caller's value there must become. */
  ghost predicate HoldsValueAt(p: Plan, rows: seq<Row>, k: nat, i: nat, cell: Cell)
    requires k < |rows| && i < |p.columns|
  {
    exists v ::
      && IsValueAt(p, rows[k], i, v) && Arrives(p.columns[i].ctype, v, cell)
      && (NeverNull(p.other) ==> (cell == None <==> v.NoneValue?))
  }

  lemma RowArrives(p: Plan, rows: seq<Row>, k: nat, number: nat, cells: seq<Cell>, i: nat)
    requires k < |rows| && RowMeaning(p, rows[k], number) == IsCells(cells) && i < |p.columns|
    ensures HoldsValueAt(p, rows, k, i, cells[i])
  {
    var vs := PickValues(p, rows[k]).value;
    PickedRight(p, rows[k]);
    CellsAre(p, vs, 0);
    assert CellOf(p, p.columns[i], vs[i]) == Some(cells[i - 0]);
    CellArrives(p, p.columns[i], vs[i], cells[i]);
  }

  ghost predicate HoldsAll(p: Plan, rows: seq<Row>, table: seq<seq<Cell>>) {
    && |table| == |rows| && (forall k | 0 <= k < |rows| :: |table[k]| == |p.columns|)
    && forall k, i | 0 <= k < |rows| && 0 <= i < |p.columns| :: HoldsValueAt(p, rows, k, i, table[k][i])
  }

  /** Bulk load, end to end: if the rows are rendered, the reader of the format finds as many
      rows and columns, and in each of them the value the caller has for that row and column. */
  lemma LoadArrives(p: Plan, rows: seq<Row>)
    requires p.columns != [] && Built(p.options) && Safe(p.options) && Faithful(p.other)
    requires RenderedAs(p, rows, 1).Good?
    ensures var got := ReadTable(p.options, RenderedAs(p, rows, 1).text);
            got.Some? && HoldsAll(p, rows, got.value)
  {
    LoadRoundTrip(p, rows);
    var table := TableOf(p, rows, 1).table;
    forall k | 0 <= k < |rows|
      ensures |table[k]| == |p.columns| && RowMeaning(p, rows[k], 1 + k) == IsCells(table[k])
    {
      TableRow(p, rows, 1, k);
    }
    forall k, i | 0 <= k < |rows| && 0 <= i < |p.columns|
      ensures HoldsValueAt(p, rows, k, i, table[k][i])
    {
      RowArrives(p, rows, k, 1 + k, table[k], i);
    }
  }

  // ----- which rows are rendered -----------------------------------------------------------------

  /** The size of a text against the column's length: characters of ASCII text and in national
      columns, encoded bytes otherwise; none for text that cannot be encoded. */
  predicate HasSize(ct: ColumnType, t: string, sizes: Sizes, size: nat)
    requires ct.TextColumn?
  {
    if IsAscii(t) then size == |t|
    else sizes(t).Some? && size == if ct.national then |t| else sizes(t).value
  }

  /** A string is refused if and only if it has no size, or is longer than its column, or is
      the marker where NULL could not be told from it, or has a special character that nothing
      escapes. */
  lemma StringAcceptedExactly(p: Plan, column: Column, t: string)
    requires column.ctype.TextColumn?
    ensures CellOf(p, column, StrValue(t)).Some? <==>
              && (exists size: nat :: HasSize(column.ctype, t, p.sizes, size)
                                      && (column.ctype.length.Some? ==> size <= column.ctype.length.value))
              && (t == NULL_MARKER ==> p.options.escape == Some('\\'))
              && (p.options.escape.None? ==> !HasSpecial(p.options, t))
  {
    var ct := column.ctype;
    if IsAscii(t) {
      assert HasSize(ct, t, p.sizes, |t|);
    } else if p.sizes(t).Some? {
      assert HasSize(ct, t, p.sizes, if ct.national then |t| else p.sizes(t).value);
    }
  }

  /** A row is rendered if and only if it matches the columns and each value of it has a cell. */
  ghost predicate RowAccepted(p: Plan, row: Row) {
    && Matches(p, row)
    && forall i, v | 0 <= i < |p.columns| && IsValueAt(p, row, i, v) :: CellOf(p, p.columns[i], v).Some?
  }

  lemma OneValue(p: Plan, row: Row, i: nat, v: Value, v': Value)
    requires i < |p.columns| && IsValueAt(p, row, i, v) && IsValueAt(p, row, i, v')
    ensures v == v'
  {
    if row.Keyed? {
      var names := p.columns[i].lookupNames;
      var k: nat :| IsUnderName(row.byKey, names, v, k);
      var k': nat :| IsUnderName(row.byKey, names, v', k');
      assert k == k';
    }
  }

  lemma RowAcceptedExactly(p: Plan, row: Row, number: nat)
    ensures RowMeaning(p, row, number).IsCells? <==> RowAccepted(p, row)
  {
    PickedRight(p, row);
    var picked := PickValues(p, row);
    if picked.Some? {
      CellsAre(p, picked.value, 0);
      forall i, v | 0 <= i < |p.columns| && IsValueAt(p, row, i, v)
        ensures v == picked.value[i]
      {
        OneValue(p, row, i, v, picked.value[i]);
      }
      assert forall i | 0 <= i < |p.columns| :: IsValueAt(p, row, i, picked.value[i]);
    }
  }

  /** The load is rendered if and only if every row of it is. */
  lemma {:induction false} LoadAcceptedExactly(p: Plan, rows: seq<Row>, number: nat)
    requires p.columns != []
    ensures RenderedAs(p, rows, number).Good? <==> forall row <- rows :: RowAccepted(p, row)
  {
    if rows != [] {
      RowAcceptedExactly(p, rows[0], number);
      LoadAcceptedExactly(p, rows[1..], number + 1);
      assert rows == [rows[0]] + rows[1..];
    }
  }

  /** The value of column `i` can be represented there. */
  ghost predicate HasCellAt(p: Plan, row: Row, i: nat)
    requires i < |p.columns|
  {
    exists v :: IsValueAt(p, row, i, v) && CellOf(p, p.columns[i], v).Some?
  }

  /** An error names its row, and the first column whose value has no cell. */
  ghost predicate Names(p: Plan, row: Row, number: nat, e: RowError) {
    match e
    case BadRow(n) => n == number && !Matches(p, row)
    case BadCellAt(n, c) =>
      n == number && Matches(p, row) && c < |p.columns| && !HasCellAt(p, row, c) && forall i | 0 <= i < c :: HasCellAt(p, row, i)
  }

  lemma {:induction false} FirstWithoutCell(p: Plan, vs: seq<Value>, i: nat)
    requires i <= |vs| == |p.columns| && CellsFrom(p, vs, i).NoCell?
    ensures var c := CellsFrom(p, vs, i).column;
            && i <= c < |vs| && CellOf(p, p.columns[c], vs[c]).None?
            && forall j | i <= j < c :: CellOf(p, p.columns[j], vs[j]).Some?
    decreases |vs| - i
  {
    if CellOf(p, p.columns[i], vs[i]).Some? {
      FirstWithoutCell(p, vs, i + 1);
    }
  }

  lemma RowErrorNamed(p: Plan, row: Row, number: nat)
    requires RowMeaning(p, row, number).IsError?
    ensures Names(p, row, number, RowMeaning(p, row, number).error)
  {
    PickedRight(p, row);
    var picked := PickValues(p, row);
    if picked.Some? {
      FirstWithoutCell(p, picked.value, 0);
      var c := CellsFrom(p, picked.value, 0).column;
      forall v | IsValueAt(p, row, c, v)
        ensures v == picked.value[c]
      {
        OneValue(p, row, c, v, picked.value[c]);
      }
      forall i | 0 <= i < c
        ensures HasCellAt(p, row, i)
      {
        assert IsValueAt(p, row, i, picked.value[i]);
      }
    }
  }

  /** The error names row `k`, and every row in front of it is rendered. */
  ghost predicate FirstNamed(p: Plan, rows: seq<Row>, number: nat, e: RowError, k: nat) {
    k < |rows| && Names(p, rows[k], number + k, e) && forall row <- rows[..k] :: RowAccepted(p, row)
  }

  lemma NamedLater(p: Plan, rows: seq<Row>, number: nat, e: RowError, k: nat)
    requires rows != [] && RowAccepted(p, rows[0]) && FirstNamed(p, rows[1..], number + 1, e, k)
    ensures FirstNamed(p, rows, number, e, k + 1)
  {
    assert rows[1..][k] == rows[k + 1] && number + 1 + k == number + (k + 1);
    assert rows[..k + 1] == [rows[0]] + rows[1..][..k];
  }

  /** The first row that is not rendered is the one that the error names. */
  lemma {:induction false} FirstErrorNamed(p: Plan, rows: seq<Row>, number: nat)
    requires p.columns != [] && RenderedAs(p, rows, number).Bad?
    ensures exists k: nat :: FirstNamed(p, rows, number, RenderedAs(p, rows, number).error, k)
  {
    var e := RenderedAs(p, rows, number).error;
    if RowMeaning(p, rows[0], number).IsError? {
      RowErrorNamed(p, rows[0], number);
      assert FirstNamed(p, rows, number, e, 0);
    } else {
      RowAcceptedExactly(p, rows[0], number);
      FirstErrorNamed(p, rows[1..], number + 1);
      var k: nat :| FirstNamed(p, rows[1..], number + 1, e, k);
      NamedLater(p, rows, number, e, k);
    }
  }

  // ----- which numbers a NUMERIC column takes ------------------------------------------------------

  /** The number is so many units of the last decimal place, and they have at most `precision`
      digits. */
  predicate IsUnits(c: nat, e: int, precision: nat, scale: nat, m: nat) {
    m < Pow10(precision) && SameValue(c, e, m, 0 - scale)
  }

  lemma {:induction false} DigitsScaled(c: nat, k: nat)
    requires c > 0
    ensures NumDigits(c * Pow10(k)) == NumDigits(c) + k
    decreases k
  {
    if k > 0 {
      var x := c * Pow10(k - 1);
      assert x > 0 by { NotZero(c, Pow10(k - 1)); }
      assert c * Pow10(k) == 10 * x;
      DigitsScaled(c, k - 1);
    }
  }

  lemma NotZero(a: nat, b: nat)
    requires a > 0 && b > 0
    ensures a * b > 0
  {
  }

  lemma BelowPower(c: nat, k: nat, p: nat)
    requires c > 0
    ensures c * Pow10(k) < Pow10(p) <==> NumDigits(c) + k <= p
  {
    DigitsScaled(c, k);
    NotZero(c, Pow10(k));
    if p > 0 {
      DigitsBound(c * Pow10(k), p);
    }
  }

  /** A coefficient that does not end in zero is a multiple of ten to no power but the zeroth. */
  lemma NoMultiple(c: nat, m: nat, k: nat)
    requires c % 10 != 0 && k > 0
    ensures c != m * Pow10(k)
  {
    assert m * Pow10(k) == 10 * (m * Pow10(k - 1));
  }

  lemma StrippedUnits(c: nat, e: int, precision: nat, scale: nat)
    requires c % 10 != 0 && scale <= precision
    ensures var (digits, places) := Shape(c, e);
            (places <= scale && digits <= precision - scale) <==> exists m :: IsUnits(c, e, precision, scale, m)
  {
    if e + scale >= 0 {
      BelowPower(c, e + scale, precision);
      assert SameValue(c, e, c * Pow10(e + scale), 0 - scale);
      assert IsUnits(c, e, precision, scale, c * Pow10(e + scale)) <==> NumDigits(c) + (e + scale) <= precision;
    } else {
      forall m
        ensures !IsUnits(c, e, precision, scale, m)
      {
        NoMultiple(c, m, 0 - scale - e);
      }
    }
  }

  lemma ZeroUnits(e: int, precision: nat, scale: nat)
    ensures IsUnits(0, e, precision, scale, 0)
  {
  }

  lemma UnitsOfBoth(c: nat, e: int, c': nat, e': int, precision: nat, scale: nat, m: nat)
    requires SameValue(c, e, c', e')
    ensures IsUnits(c, e, precision, scale, m) <==> IsUnits(c', e', precision, scale, m)
  {
    Swapped(m, 0 - scale, c, e);
    Swapped(m, 0 - scale, c', e');
    SameThrough(m, 0 - scale, c, e, c', e');
  }

  lemma SameUnits(c: nat, e: int, c': nat, e': int, precision: nat, scale: nat)
    requires SameValue(c, e, c', e')
    ensures (exists m :: IsUnits(c, e, precision, scale, m)) <==> exists m :: IsUnits(c', e', precision, scale, m)
  {
    if m: nat :| IsUnits(c, e, precision, scale, m) {
      UnitsOfBoth(c, e, c', e', precision, scale, m);
    } else if m: nat :| IsUnits(c', e', precision, scale, m) {
      UnitsOfBoth(c, e, c', e', precision, scale, m);
    }
  }

  lemma Swapped(a: nat, d: int, b: nat, e: int)
    ensures SameValue(a, d, b, e) <==> SameValue(b, e, a, d)
  {
  }

  /** A number of at most 28 significant digits is accepted by a NUMERIC column if and only if the
      column can hold it, except that zero is refused by a column without integer digits. */
  lemma NumericAcceptedExactly(ct: ColumnType, d: Dec)
    requires ct.NumericColumn? && ct.scale <= ct.precision && d.Finite? && SignificantDigits(d.coefficient) <= PRECISION
    ensures ConvertDecimal(ct, d).AsText? <==>
              && (exists m :: IsUnits(d.coefficient, d.exponent, ct.precision, ct.scale, m))
              && (d.coefficient == 0 ==> ct.scale < ct.precision)
  {
    var n := Normalize(d);
    NormalizeExactly(d);
    SameUnits(d.coefficient, d.exponent, n.coefficient, n.exponent, ct.precision, ct.scale);
    if n.coefficient == 0 {
      ZeroUnits(n.exponent, ct.precision, ct.scale);
    } else {
      StrippedUnits(n.coefficient, n.exponent, ct.precision, ct.scale);
    }
  }
}
