/** Rendering rows as delimited text, all at once or lazily in batches. */
module Rendering {
  import opened Options
  import opened Decimals
  import opened DelimitedText
  import opened Inference

  const BATCH_ROWS := 4096

  /** A target column; `lookupNames` are the keys of a dictionary row that match it. */
  datatype Column = Column(lookupNames: seq<string>, ctype: ColumnType)

  /** A row of the caller: values in order, values by key, or nothing usable. */
  datatype Row = Values(values: seq<Value>) | Keyed(byKey: map<string, Value>) | Unusable

  /** What is reported: a row that does not match the columns, or a cell, with its row number. */
  datatype RowError = BadRow(number: nat) | BadCellAt(number: nat, column: nat)

  datatype Rendered = Good(text: string) | Bad(error: RowError)

  /** The columns, options and conversions of one load. */
  datatype Plan = Plan(columns: seq<Column>, options: LoadOptions, sizes: Sizes, other: Oracle)

  // ----- what a row means ------------------------------------------------------------------

  function FirstKey(m: map<string, Value>, keys: seq<string>): Option<Value> {
    if keys == [] then None else if keys[0] in m then Some(m[keys[0]]) else FirstKey(m, keys[1..])
  }

  function PickAll(m: map<string, Value>, columns: seq<Column>): (vs: Option<seq<Value>>)
    ensures vs.Some? ==> |vs.value| == |columns|
  {
    if columns == [] then Some([])
    else
      match FirstKey(m, columns[0].lookupNames)
      case None => None
      case Some(v) =>
        match PickAll(m, columns[1..])
        case None => None
        case Some(vs) => Some([v] + vs)
  }

  /** `_values`. */
  function PickValues(p: Plan, row: Row): (vs: Option<seq<Value>>)
    ensures vs.Some? ==> |vs.value| == |p.columns|
  {
    match row
    case Unusable => None
    case Values(vs) => if |vs| == |p.columns| then Some(vs) else None
    case Keyed(m) => if |m| == |p.columns| then PickAll(m, p.columns) else None
  }

  predicate HasSpecial(o: LoadOptions, t: string) { exists i :: 0 <= i < |t| && IsSpecial(o, t[i]) }

  /** The cell a value becomes, or none if it cannot be represented. */
  function CellOf(p: Plan, column: Column, v: Value): Option<Cell> {
    if v.NoneValue? then Some(None)
    else
      match Convert(column.ctype, v, p.options, p.sizes, p.other)
      case BadCell => None
      case AsNull => Some(None)
      case AsText(t) => if p.options.escape.None? && HasSpecial(p.options, t) then None else Some(Some(t))
  }

  /** The cells of a row from column `i` on, or the first column that has none. */
  datatype RowCells = Cells(cells: seq<Cell>) | NoCell(column: nat)

  function CellsFrom(p: Plan, vs: seq<Value>, i: nat): (r: RowCells)
    requires i <= |vs| == |p.columns|
    ensures r.Cells? ==> |r.cells| == |vs| - i
    decreases |vs| - i
  {
    if i == |vs| then Cells([])
    else
      match CellOf(p, p.columns[i], vs[i])
      case None => NoCell(i)
      case Some(cell) =>
        match CellsFrom(p, vs, i + 1)
        case NoCell(k) => NoCell(k)
        case Cells(rest) => Cells([cell] + rest)
  }

  /** A row as cells, or its error. */
  datatype Meaning = IsCells(cells: seq<Cell>) | IsError(error: RowError)

  function RowMeaning(p: Plan, row: Row, number: nat): (m: Meaning)
    ensures m.IsCells? ==> |m.cells| == |p.columns|
  {
    match PickValues(p, row)
    case None => IsError(BadRow(number))
    case Some(vs) =>
      match CellsFrom(p, vs, 0)
      case NoCell(k) => IsError(BadCellAt(number, k))
      case Cells(cells) => IsCells(cells)
  }

  /** All rows as a table, or the error of the first row that has one; rows are numbered
      from `number` on. */
  datatype TableMeaning = IsTable(table: seq<seq<Cell>>) | HasError(error: RowError)

  function TableOf(p: Plan, rows: seq<Row>, number: nat): (m: TableMeaning)
    requires p.columns != []
    ensures m.IsTable? ==> |m.table| == |rows| && forall i :: 0 <= i < |m.table| ==> m.table[i] != []
  {
    if rows == [] then IsTable([])
    else
      match RowMeaning(p, rows[0], number)
      case IsError(e) => HasError(e)
      case IsCells(cells) =>
        match TableOf(p, rows[1..], number + 1)
        case HasError(e) => HasError(e)
        case IsTable(table) => IsTable([cells] + table)
  }

  /** The text of the rows, or their error. */
  function RenderedAs(p: Plan, rows: seq<Row>, number: nat): Rendered
    requires p.columns != []
  {
    match TableOf(p, rows, number)
    case HasError(e) => Bad(e)
    case IsTable(table) => Good(PutTable(p.options, table))
  }

  // ----- joining ---------------------------------------------------------------------------

  /** `sep.join(parts)`. */
  function Join(sep: string, parts: seq<string>): string {
    if parts == [] then "" else if |parts| == 1 then parts[0] else parts[0] + (sep + Join(sep, parts[1..]))
  }

  function Fields(o: LoadOptions, cells: seq<Cell>): (s: seq<string>)
    ensures |s| == |cells|
  {
    seq(|cells|, i requires 0 <= i < |cells| => Field(o, cells[i]))
  }

  lemma {:induction false} JoinedRow(o: LoadOptions, cells: seq<Cell>, r: string)
    requires cells != []
    ensures Join([o.delimiter], Fields(o, cells)) + (['\n'] + r) == PutRow(o, cells, r)
    decreases |cells|
  {
    if |cells| > 1 {
      JoinedRow(o, cells[1..], r);
      assert Fields(o, cells)[1..] == Fields(o, cells[1..]);
      var rest := Join([o.delimiter], Fields(o, cells[1..]));
      Regroup(Field(o, cells[0]), [o.delimiter], rest, ['\n'] + r);
    }
  }

  lemma Regroup(a: string, b: string, c: string, d: string)
    ensures (a + (b + c)) + d == a + (b + (c + d))
  {
  }

  function Lines(o: LoadOptions, table: seq<seq<Cell>>): (s: seq<string>)
    ensures |s| == |table|
  {
    seq(|table|, i requires 0 <= i < |table| => Join([o.delimiter], Fields(o, table[i])))
  }

  lemma {:induction false} JoinedLines(o: LoadOptions, table: seq<seq<Cell>>)
    requires table != [] && forall i :: 0 <= i < |table| ==> table[i] != []
    ensures Join("\n", Lines(o, table)) + "\n" == PutTable(o, table)
    decreases |table|
  {
    var first := Join([o.delimiter], Fields(o, table[0]));
    JoinedRow(o, table[0], PutTable(o, table[1..]));
    if |table| == 1 {
      assert "\n" + "" == "\n";
      assert PutTable(o, table[1..]) == "";
    } else {
      JoinedLines(o, table[1..]);
      assert Lines(o, table)[1..] == Lines(o, table[1..]);
      var rest := Join("\n", Lines(o, table[1..]));
      Regroup(first, "\n", rest, "\n");
    }
  }

  // ----- the renderer ----------------------------------------------------------------------

  function Front(cells: seq<Cell>, r: RowCells): RowCells {
    if r.Cells? then Cells(cells + r.cells) else r
  }

  lemma FrontTwice(cells: seq<Cell>, cell: Cell, r: RowCells)
    ensures Front(cells, Front([cell], r)) == Front(cells + [cell], r)
    ensures Front([], r) == r && Front(cells, Cells([])) == Cells(cells)
  {
    if r.Cells? {
      assert cells + ([cell] + r.cells) == (cells + [cell]) + r.cells;
      assert [] + r.cells == r.cells;
    }
    assert cells + [] == cells;
  }

  /** `_line`. */
  method Line(p: Plan, row: Row, number: nat) returns (r: Rendered)
    ensures match RowMeaning(p, row, number)
            case IsError(e) => r == Bad(e)
            case IsCells(cells) => r == Good(Join([p.options.delimiter], Fields(p.options, cells)))
  {
    var picked := PickValues(p, row);
    if picked.None? { return Bad(BadRow(number)); }
    var values := picked.value;
    var fields: seq<string> := [];
    ghost var cells: seq<Cell> := [];
    FrontTwice([], None, CellsFrom(p, values, 0));
    for i := 0 to |values|
      invariant CellsFrom(p, values, 0) == Front(cells, CellsFrom(p, values, i))
      invariant fields == Fields(p.options, cells)
    {
      var cell := CellOf(p, p.columns[i], values[i]);
      if cell.None? { return Bad(BadCellAt(number, i)); }
      FrontTwice(cells, cell.value, CellsFrom(p, values, i + 1));
      fields := fields + [Field(p.options, cell.value)];
      cells := cells + [cell.value];
    }
    FrontTwice(cells, None, Cells([]));
    r := Good(Join([p.options.delimiter], fields));
  }

  function Before(table: seq<seq<Cell>>, m: TableMeaning): TableMeaning {
    if m.IsTable? then IsTable(table + m.table) else m
  }

  lemma BeforeTwice(table: seq<seq<Cell>>, cells: seq<Cell>, m: TableMeaning)
    ensures Before(table, Before([cells], m)) == Before(table + [cells], m)
    ensures Before([], m) == m && Before(table, IsTable([])) == IsTable(table)
  {
    if m.IsTable? {
      assert table + ([cells] + m.table) == (table + [cells]) + m.table;
      assert [] + m.table == m.table;
    }
    assert table + [] == table;
  }

  /** The first `i` rows are the lines of `table`, and the rest are still to come. */
  ghost predicate LinesTo(p: Plan, rows: seq<Row>, number: nat, i: nat, table: seq<seq<Cell>>)
    requires p.columns != []
  {
    && i <= |rows| && |table| == i && (forall j :: 0 <= j < i ==> table[j] != [])
    && TableOf(p, rows, number) == Before(table, TableOf(p, rows[i..], number + i))
  }

  lemma NextLine(p: Plan, rows: seq<Row>, number: nat, i: nat, table: seq<seq<Cell>>)
    requires p.columns != [] && LinesTo(p, rows, number, i, table) && i < |rows|
    ensures match RowMeaning(p, rows[i], number + i)
            case IsError(e) => RenderedAs(p, rows, number) == Bad(e)
            case IsCells(cells) => LinesTo(p, rows, number, i + 1, table + [cells])
  {
    var m := RowMeaning(p, rows[i], number + i);
    assert rows[i..][0] == rows[i] && rows[i..][1..] == rows[i + 1..];
    if m.IsCells? {
      BeforeTwice(table, m.cells, TableOf(p, rows[i + 1..], number + i + 1));
    }
  }

  lemma AllLines(p: Plan, rows: seq<Row>, number: nat, table: seq<seq<Cell>>)
    requires p.columns != [] && rows != [] && LinesTo(p, rows, number, |rows|, table)
    ensures RenderedAs(p, rows, number) == Good(Join("\n", Lines(p.options, table)) + "\n")
  {
    assert rows[|rows|..] == [];
    BeforeTwice(table, [], IsTable([]));
    JoinedLines(p.options, table);
  }

  /** `render`: the lines joined and ended, or the first error with its row number. */
  method Render(p: Plan, rows: seq<Row>, firstNumber: nat) returns (r: Rendered)
    requires p.columns != []
    ensures r == RenderedAs(p, rows, firstNumber)
  {
    if rows == [] { return Good(""); }
    var lines: seq<string> := [];
    ghost var table: seq<seq<Cell>> := [];
    NoLines(p, rows, firstNumber);
    for i := 0 to |rows|
      invariant LinesTo(p, rows, firstNumber, i, table) && lines == Lines(p.options, table)
    {
      var line := Line(p, rows[i], firstNumber + i);
      NextLine(p, rows, firstNumber, i, table);
      if line.Bad? { return Bad(line.error); }
      ghost var cells := RowMeaning(p, rows[i], firstNumber + i).cells;
      lines := lines + [line.text];
      table := table + [cells];
    }
    AllLines(p, rows, firstNumber, table);
    r := Good(Join("\n", lines) + "\n");
  }

  lemma NoLines(p: Plan, rows: seq<Row>, number: nat)
    requires p.columns != []
    ensures LinesTo(p, rows, number, 0, [])
  {
    assert rows[0..] == rows;
    BeforeTwice([], [], TableOf(p, rows, number));
  }

  // ----- batches ---------------------------------------------------------------------------

  lemma {:induction false} RowThen(o: LoadOptions, cells: seq<Cell>, a: string, b: string)
    requires cells != []
    ensures PutRow(o, cells, a) + b == PutRow(o, cells, a + b)
    decreases |cells|
  {
    if |cells| == 1 {
      Regroup(Field(o, cells[0]), ['\n'], a, b);
    } else {
      RowThen(o, cells[1..], a, b);
      Regroup(Field(o, cells[0]), [o.delimiter], PutRow(o, cells[1..], a), b);
    }
  }

  /** Rendering in two parts: the second part goes on counting. */
  function Then(a: Rendered, b: Rendered): Rendered {
    if a.Bad? then a else if b.Bad? then b else Good(a.text + b.text)
  }

  lemma {:induction false} RenderedJoin(p: Plan, a: seq<Row>, b: seq<Row>, number: nat)
    requires p.columns != []
    ensures RenderedAs(p, a + b, number) == Then(RenderedAs(p, a, number), RenderedAs(p, b, number + |a|))
    decreases |a|
  {
    if a == [] {
      assert a + b == b;
      assert forall t: string :: "" + t == t;
    } else {
      assert (a + b)[1..] == a[1..] + b;
      RenderedJoin(p, a[1..], b, number + 1);
      var first := RowMeaning(p, a[0], number);
      if first.IsCells? {
        MoreRows(p, a, number);
        MoreRows(p, a + b, number);
        var x, y := RenderedAs(p, a[1..], number + 1), RenderedAs(p, b, number + |a|);
        if x.Good? && y.Good? {
          RowThen(p.options, first.cells, x.text, y.text);
        }
      }
    }
  }

  lemma MoreRows(p: Plan, rows: seq<Row>, number: nat)
    requires p.columns != [] && rows != [] && RowMeaning(p, rows[0], number).IsCells?
    ensures var cells := RowMeaning(p, rows[0], number).cells;
            var rest := RenderedAs(p, rows[1..], number + 1);
            cells != [] && RenderedAs(p, rows, number) == if rest.Bad? then rest else Good(PutRow(p.options, cells, rest.text))
  {
    var rest := TableOf(p, rows[1..], number + 1);
    if rest.IsTable? {
      var cells := RowMeaning(p, rows[0], number).cells;
      assert ([cells] + rest.table)[1..] == rest.table;
    }
  }

  // ----- end to end ------------------------------------------------------------------------

  /** The converters that are opaque here (dates, times, floats, strings into typed columns)
      never print the NULL marker. */
  ghost predicate Faithful(other: Oracle) {
    forall ct: ColumnType, v: Value :: !ct.TextColumn? && other(ct, v).AsText? ==> other(ct, v).text != NULL_MARKER
  }

  /** Only a text column can print the marker as a text, and only behind a backslash escape. */
  lemma CellOfOk(p: Plan, column: Column, v: Value)
    requires Built(p.options) && Faithful(p.other) && CellOf(p, column, v).Some?
    ensures CellOk(p.options, CellOf(p, column, v).value)
  {
    if v.IntValue? {
      TextIsAscii(v);
      if column.ctype.NumericColumn? {
        NumberIsNotMarker(Finite(v.number < 0, Magnitude(v.number), 0));
      }
    } else if v.DecimalValue? && v.decimal.Finite? {
      NumberIsNotMarker(v.decimal);
    }
  }

  lemma NumberIsNotMarker(d: Dec)
    requires d.Finite?
    ensures var n := Normalize(d); FixedText(n.negative, n.coefficient, n.exponent) != NULL_MARKER
  {
    var n := Normalize(d);
    TextIsAscii(DecimalValue(n));
  }

  lemma {:induction false} CellsFromOk(p: Plan, vs: seq<Value>, i: nat)
    requires Built(p.options) && Faithful(p.other) && i <= |vs| == |p.columns|
    ensures var r := CellsFrom(p, vs, i); r.Cells? ==> forall j :: 0 <= j < |r.cells| ==> CellOk(p.options, r.cells[j])
    decreases |vs| - i
  {
    if i < |vs| && CellsFrom(p, vs, i).Cells? {
      CellOfOk(p, p.columns[i], vs[i]);
      CellsFromOk(p, vs, i + 1);
    }
  }

  lemma {:induction false} TableOfOk(p: Plan, rows: seq<Row>, number: nat)
    requires p.columns != [] && Built(p.options) && Faithful(p.other) && TableOf(p, rows, number).IsTable?
    ensures TableOk(p.options, TableOf(p, rows, number).table)
  {
    if rows != [] {
      var picked := PickValues(p, rows[0]);
      CellsFromOk(p, picked.value, 0);
      TableOfOk(p, rows[1..], number + 1);
    }
  }

  /** Bulk text round trip: whatever rows were accepted, the reader of the format gets back
      exactly the converted texts and the NULLs, when NULL is no part of the syntax. */
  lemma LoadRoundTrip(p: Plan, rows: seq<Row>)
    requires p.columns != [] && Built(p.options) && Safe(p.options) && Faithful(p.other)
    requires RenderedAs(p, rows, 1).Good?
    ensures ReadTable(p.options, RenderedAs(p, rows, 1).text) == Some(TableOf(p, rows, 1).table)
  {
    TableOfOk(p, rows, 1);
    RoundTrip(p.options, TableOf(p, rows, 1).table);
  }
}
