/** The text a bulk load sends: one row per line, fields joined by the delimiter, a marker for
    NULL, and an escape character in front of what would end a field or a line. The reader is
    written from that format; the printer from the driver. */
module DelimitedText {
  import opened Options

  const NULL_MARKER := "\\N"

  datatype LoadOptions = LoadOptions(delimiter: char, escape: Option<char>)

  /** What `build_options` accepts. */
  function BuildOptions(delimiter: string, escape: Option<string>): Option<LoadOptions> {
    if |delimiter| != 1 || delimiter[0] in "\r\n" then None
    else
      match escape
      case None => Some(LoadOptions(delimiter[0], None))
      case Some(e) =>
        if |e| != 1 || e[0] in "\r\n" || e == delimiter then None
        else Some(LoadOptions(delimiter[0], Some(e[0])))
  }

  predicate Built(o: LoadOptions) {
    o.delimiter !in "\r\n" && (o.escape.Some? ==> o.escape.value !in "\r\n" && o.escape.value != o.delimiter)
  }

  lemma BuildsExactly(o: LoadOptions)
    ensures Built(o) <==> exists d, e :: BuildOptions(d, e) == Some(o)
  {
    if Built(o) {
      assert BuildOptions([o.delimiter], if o.escape.Some? then Some([o.escape.value]) else None) == Some(o);
    }
  }

  // ----- the printer -----------------------------------------------------------------------

  predicate IsSpecial(o: LoadOptions, c: char) {
    c == o.delimiter || c == '\n' || c == '\r' || o.escape == Some(c)
  }

  /** `str.translate` with the escape table; without an escape character the text as it is. */
  function Escape(o: LoadOptions, t: string): string {
    if t == "" then "" else EscapedChar(o, t[0]) + Escape(o, t[1..])
  }

  function EscapedChar(o: LoadOptions, c: char): string {
    if o.escape.Some? && IsSpecial(o, c) then [o.escape.value, c] else [c]
  }

  /** A cell is NULL or a text. */
  type Cell = Option<string>

  /** The cells that are rendered: without an escape character no text with a special
      character, and the marker as a text only where it can be told from NULL. */
  predicate CellOk(o: LoadOptions, c: Cell) {
    c.Some? ==>
      && (o.escape.None? ==> forall i :: 0 <= i < |c.value| ==> !IsSpecial(o, c.value[i]))
      && (c.value == NULL_MARKER ==> o.escape == Some('\\'))
  }

  function Field(o: LoadOptions, c: Cell): string { if c.None? then NULL_MARKER else Escape(o, c.value) }

  /** The fields of one line, the line end, and what follows. */
  function PutRow(o: LoadOptions, row: seq<Cell>, r: string): string
    requires row != []
  {
    if |row| == 1 then Field(o, row[0]) + (['\n'] + r)
    else Field(o, row[0]) + ([o.delimiter] + PutRow(o, row[1..], r))
  }

  function PutTable(o: LoadOptions, table: seq<seq<Cell>>): string
    requires forall i :: 0 <= i < |table| ==> table[i] != []
  {
    if table == [] then "" else PutRow(o, table[0], PutTable(o, table[1..]))
  }

  // ----- the reader ------------------------------------------------------------------------

  /** A field as it stands, its text, the character that ended it, and the rest. */
  datatype RawField = RawField(raw: string, text: string, end: char, rest: string)

  /** Up to a delimiter or line feed that is not escaped. A bare CR or a missing end of line
      is malformed. */
  function ReadField(o: LoadOptions, s: string): (f: Option<RawField>)
    ensures f.Some? ==> |f.value.rest| < |s|
  {
    if s == "" then None
    else if o.escape == Some(s[0]) then
      if |s| < 2 then None else Longer([s[0], s[1]], [s[1]], ReadField(o, s[2..]))
    else if s[0] == o.delimiter || s[0] == '\n' then Some(RawField("", "", s[0], s[1..]))
    else if s[0] == '\r' then None
    else Longer([s[0]], [s[0]], ReadField(o, s[1..]))
  }

  function Longer(raw: string, text: string, f: Option<RawField>): Option<RawField> {
    match f
    case None => None
    case Some(x) => Some(x.(raw := raw + x.raw, text := text + x.text))
  }

  /** NULL is told from the raw field, before escapes are taken out. */
  function FieldCell(f: RawField): Cell { if f.raw == NULL_MARKER then None else Some(f.text) }

  datatype RawRow = RawRow(cells: seq<Cell>, rest: string)

  function ReadRow(o: LoadOptions, s: string): (x: Option<RawRow>)
    ensures x.Some? ==> |x.value.rest| < |s|
    decreases |s|
  {
    match ReadField(o, s)
    case None => None
    case Some(f) =>
      var cell := FieldCell(f);
      if f.end == '\n' then Some(RawRow([cell], f.rest))
      else
        match ReadRow(o, f.rest)
        case None => None
        case Some(x) => Some(RawRow([cell] + x.cells, x.rest))
  }

  function ReadTable(o: LoadOptions, s: string): Option<seq<seq<Cell>>>
    decreases |s|
  {
    if s == "" then Some([])
    else
      match ReadRow(o, s)
      case None => None
      case Some(x) =>
        match ReadTable(o, x.rest)
        case None => None
        case Some(rows) => Some([x.cells] + rows)
  }

  // ----- the round trip ----------------------------------------------------------------------

  /** The options under which NULL is never part of the syntax. */
  predicate Safe(o: LoadOptions) { o.delimiter !in NULL_MARKER && o.escape != Some('N') }

  predicate IsEnd(o: LoadOptions, c: char) { c == o.delimiter || c == '\n' }

  lemma {:induction false} TextFront(o: LoadOptions, t: string, end: char, r: string)
    requires Built(o) && IsEnd(o, end)
    requires o.escape.None? ==> forall i :: 0 <= i < |t| ==> !IsSpecial(o, t[i])
    ensures ReadField(o, Escape(o, t) + ([end] + r)) == Some(RawField(Escape(o, t), t, end, r))
  {
    if t == "" {
      var s := Escape(o, t) + ([end] + r);
      assert s == [end] + r && s[1..] == r;
    } else {
      TextFront(o, t[1..], end, r);
      OneMoreCharacter(o, t[0], Escape(o, t[1..]) + ([end] + r));
      assert [t[0]] + t[1..] == t;
      Reassociated(EscapedChar(o, t[0]), Escape(o, t[1..]), [end] + r);
    }
  }

  lemma Reassociated(a: string, b: string, c: string)
    ensures (a + b) + c == a + (b + c)
  {
  }

  lemma OneMoreCharacter(o: LoadOptions, c: char, rest: string)
    requires Built(o) && (o.escape.None? ==> !IsSpecial(o, c))
    ensures ReadField(o, EscapedChar(o, c) + rest) == Longer(EscapedChar(o, c), [c], ReadField(o, rest))
  {
    var s := EscapedChar(o, c) + rest;
    if o.escape.Some? && IsSpecial(o, c) {
      assert s[0] == o.escape.value && s[1] == c && s[2..] == rest;
    } else {
      assert s[0] == c && s[1..] == rest;
    }
  }

  lemma NullFront(o: LoadOptions, end: char, r: string)
    requires Built(o) && Safe(o) && IsEnd(o, end)
    ensures ReadField(o, NULL_MARKER + ([end] + r)).Some?
    ensures var f := ReadField(o, NULL_MARKER + ([end] + r)).value; f.raw == NULL_MARKER && f.end == end && f.rest == r
  {
    var s := NULL_MARKER + ([end] + r);
    assert s[2..] == [end] + r && s[1..] == ['N'] + ([end] + r) && s[1..][1..] == [end] + r;
    assert ([end] + r)[1..] == r;
    assert ReadField(o, [end] + r) == Some(RawField("", "", end, r));
    if o.escape != Some('\\') {
      assert ReadField(o, s[1..]) == Longer(['N'], ['N'], ReadField(o, [end] + r));
    }
  }

  lemma {:induction false} EscapeGrows(o: LoadOptions, t: string)
    ensures |Escape(o, t)| >= |t|
  {
    if t != "" {
      EscapeGrows(o, t[1..]);
    }
  }

  lemma OneCharacter(o: LoadOptions, t: string)
    ensures Escape(o, t) == "N" ==> t == "N"
  {
    if t != "" {
      EscapeGrows(o, t[1..]);
      assert t == [t[0]] + t[1..];
    }
  }

  /** Escaping never produces the NULL marker. */
  lemma NeverMarker(o: LoadOptions, t: string)
    requires Built(o) && Safe(o) && CellOk(o, Some(t))
    ensures Escape(o, t) != NULL_MARKER
  {
    if t != "" {
      var e, more := Escape(o, t), Escape(o, t[1..]);
      if o.escape.Some? && IsSpecial(o, t[0]) {
        assert e[0] == o.escape.value && e[1] == t[0];
      } else {
        assert e[0] == t[0] && e[1..] == more;
        OneCharacter(o, t[1..]);
        assert t == [t[0]] + t[1..];
      }
    }
  }

  lemma CellFront(o: LoadOptions, c: Cell, end: char, r: string)
    requires Built(o) && Safe(o) && CellOk(o, c) && IsEnd(o, end)
    ensures ReadField(o, Field(o, c) + ([end] + r)).Some?
    ensures var f := ReadField(o, Field(o, c) + ([end] + r)).value;
            f.end == end && f.rest == r && (f.raw == NULL_MARKER <==> c.None?) && (c.Some? ==> f.text == c.value)
  {
    if c.None? {
      NullFront(o, end, r);
    } else {
      TextFront(o, c.value, end, r);
      NeverMarker(o, c.value);
    }
  }

  /** Rows whose cells can all be rendered. */
  predicate RowOk(o: LoadOptions, row: seq<Cell>) { row != [] && forall i :: 0 <= i < |row| ==> CellOk(o, row[i]) }

  predicate TableOk(o: LoadOptions, table: seq<seq<Cell>>) { forall i :: 0 <= i < |table| ==> RowOk(o, table[i]) }

  /** The first field of a line. */
  lemma FirstField(o: LoadOptions, row: seq<Cell>, r: string)
    requires Built(o) && Safe(o) && RowOk(o, row)
    ensures ReadField(o, PutRow(o, row, r)).Some?
    ensures var f := ReadField(o, PutRow(o, row, r)).value;
            && FieldCell(f) == row[0]
            && (if |row| == 1 then f.end == '\n' && f.rest == r else f.end == o.delimiter && f.rest == PutRow(o, row[1..], r))
  {
    if |row| == 1 {
      CellFront(o, row[0], '\n', r);
    } else {
      CellFront(o, row[0], o.delimiter, PutRow(o, row[1..], r));
    }
  }

  lemma {:induction false} RowFront(o: LoadOptions, row: seq<Cell>, r: string)
    requires Built(o) && Safe(o) && RowOk(o, row)
    ensures ReadRow(o, PutRow(o, row, r)) == Some(RawRow(row, r))
    decreases |row|
  {
    FirstField(o, row, r);
    if |row| == 1 {
      assert [row[0]] == row;
    } else {
      RowFront(o, row[1..], r);
      assert [row[0]] + row[1..] == row;
    }
  }

  /** The reader recovers every text and every NULL. */
  lemma {:induction false} RoundTrip(o: LoadOptions, table: seq<seq<Cell>>)
    requires Built(o) && Safe(o) && TableOk(o, table)
    ensures ReadTable(o, PutTable(o, table)) == Some(table)
    decreases |table|
  {
    if table != [] {
      var r := PutTable(o, table[1..]);
      RoundTrip(o, table[1..]);
      RowFront(o, table[0], r);
      assert PutRow(o, table[0], r) != "";
      assert [table[0]] + table[1..] == table;
    }
  }

  // ----- the condition is needed -----------------------------------------------------------------

  /** A table that does not come back under unsafe options. */
  function Broken(o: LoadOptions): seq<seq<Cell>> {
    if o.delimiter == 'N' && o.escape == Some('\\') then [[Some("N")]] else [[None]]
  }

  lemma BrokenIsBroken(o: LoadOptions)
    requires Built(o) && !Safe(o)
    ensures TableOk(o, Broken(o)) && ReadTable(o, PutTable(o, Broken(o))) != Some(Broken(o))
  {
    var s := PutTable(o, Broken(o));
    assert PutTable(o, Broken(o)[1..]) == "";
    if o.delimiter == 'N' && o.escape == Some('\\') {
      assert Escape(o, "N") == "\\N";
      assert s == "\\N\n" && s[2..] == "\n";
      assert ReadField(o, s).value.raw == NULL_MARKER;
    } else {
      assert s == "\\N\n" && s[1..] == "N\n" && s[1..][1..] == "\n" && s[1..][2..] == "";
      if o.delimiter == '\\' {
        assert ReadField(o, s).value.raw == "";
      } else if o.escape == Some('N') {
        assert ReadField(o, s[1..]) == None;
      } else {
        assert ReadField(o, s[1..]) == Some(RawField("", "", 'N', "\n"));
        assert ReadField(o, s).value.raw == "\\";
      }
    }
  }

  /** The options `build_options` accepts bring every table back if and only if the delimiter
      is neither a backslash nor `N` and the escape character is not `N`. */
  lemma RoundTripExactly(o: LoadOptions)
    requires Built(o)
    ensures (forall table | TableOk(o, table) :: ReadTable(o, PutTable(o, table)) == Some(table)) <==> Safe(o)
  {
    if Safe(o) {
      forall table | TableOk(o, table)
        ensures ReadTable(o, PutTable(o, table)) == Some(table)
      {
        RoundTrip(o, table);
      }
    } else {
      BrokenIsBroken(o);
    }
  }
}
