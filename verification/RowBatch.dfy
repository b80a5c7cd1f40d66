/** The batch fast path: decode the row messages that happen to be buffered. */
module RowBatches {
  import opened Options
  import opened Wire
  import opened Messages
  import opened ResultItems

  /** The payload range of the next complete row message at `pos`, if there is one. */
  function NextRowFrame(buf: Bytes, pos: nat): (r: Option<(nat, nat)>)
    ensures r.Some? ==> r.value.0 == pos + 13 && r.value.0 + r.value.1 <= |buf|
  {
    if pos > |buf| then None
    else
      var rest := buf[pos..];
      if |rest| < 13 || rest[0] != Code('Y') then None
      else
        var len := U32(rest[9..13]);
        if len > |rest| - 13 then None else Some((pos + 13, len))
  }

  /** A complete buffered row message is what the one-at-a-time reader would take next,
      whatever bytes follow the buffer. */
  lemma FrameIsRow(buf: Bytes, more: Bytes, pos: nat)
    requires NextRowFrame(buf, pos).Some? && |buf| <= MAX_READ
    ensures var (start, len) := NextRowFrame(buf, pos).value;
            var w := buf[pos..] + more;
            Take(w, 5).Got? && Take(w, 5).val[0] == Code('Y')
            && Frame(Code('Y'), Take(w, 5).rest) == Got(buf[start..start + len], buf[start + len..] + more)
  {
    var (start, len) := NextRowFrame(buf, pos).value;
    var w := buf[pos..] + more;
    var r := w[5..];
    assert r[..8] == buf[pos + 5..pos + 13];
    assert r[..8][4..8] == buf[pos + 9..pos + 13] == buf[pos..][9..13];
    assert r[8..][..len] == buf[start..start + len];
    assert r[8..][len..] == buf[start + len..] + more;
  }

  function AsItems(rows: seq<RowValue>): (items: seq<Item>)
    ensures |items| == |rows| && NoReady(items)
  {
    seq(|rows|, i requires 0 <= i < |rows| => RowItem(rows[i]))
  }

  lemma {:induction false} RowsOfAsItems(rows: seq<RowValue>)
    ensures RowsOf(AsItems(rows)) == rows && FirstBad(AsItems(rows)) == None && LastError(AsItems(rows)) == None
  {
    if rows != [] {
      assert AsItems(rows)[1..] == AsItems(rows[1..]);
      RowsOfAsItems(rows[1..]);
    }
  }

  lemma AfterRows(x: Holding, rows: seq<RowValue>)
    ensures After(x, AsItems(rows)) == x.(rows := x.rows + rows)
  {
    RowsOfAsItems(rows);
  }

  /** What a batch over `data` means: with the bytes `more` after it, the rows it decoded are
      the next messages and the bytes it consumed are theirs. */
  ghost predicate Decodes(dec: Decoders, d: Desc, data: Bytes, more: Bytes, rows: seq<RowValue>, consumed: nat)
    requires consumed <= |data|
  {
    Reads(dec, d, data + more, AsItems(rows), d, data[consumed..] + more)
  }

  /** `batch_rows`: stops at the first message that is not a complete row message, and in
      front of a row whose value does not decode. A layout fault is an error. The method
      sees `data` only; `more` stands for whatever the server sends after it. */
  method BatchRows(dec: Decoders, d: Desc, data: Bytes, ghost more: Bytes)
    returns (rows: seq<RowValue>, consumed: nat, fault: bool)
    requires |data| <= MAX_READ
    ensures consumed <= |data| && (rows == [] ==> consumed == 0)
    ensures Decodes(dec, d, data, more, rows, consumed)
    ensures fault ==> Items(dec, d, data + more) == Stuck
    ensures !fault && NextRowFrame(data, consumed).Some? ==>
              var (start, len) := NextRowFrame(data, consumed).value;
              dec.dbos(d.dbos, data[start..start + len]).BadValue?
  {
    rows, consumed, fault := [], 0, false;
    assert data[0..] == data;
    while true
      invariant consumed <= |data| && (rows == [] ==> consumed == 0)
      invariant Decodes(dec, d, data, more, rows, consumed)
      decreases |data| - consumed
    {
      var next := NextRowFrame(data, consumed);
      if next.None? { return; }
      var (start, len) := next.value;
      var decoded := dec.dbos(d.dbos, data[start..start + len]);
      if decoded.BadValue? { return; }
      if decoded.BadLayout? {
        FaultySoStuck(dec, d, data, more, rows, consumed);
        fault := true;
        return;
      }
      OneMoreRow(dec, d, data, more, rows, consumed, decoded.row);
      rows := rows + [decoded.row];
      consumed := start + len;
    }
  }

  lemma OneMoreRow(dec: Decoders, d: Desc, data: Bytes, more: Bytes, rows: seq<RowValue>, pos: nat, row: RowValue)
    requires |data| <= MAX_READ && pos <= |data| && Decodes(dec, d, data, more, rows, pos)
    requires NextRowFrame(data, pos).Some?
    requires var (start, len) := NextRowFrame(data, pos).value; dec.dbos(d.dbos, data[start..start + len]) == Row(row)
    ensures var (start, len) := NextRowFrame(data, pos).value; Decodes(dec, d, data, more, rows + [row], start + len)
  {
    var (start, len) := NextRowFrame(data, pos).value;
    FrameIsRow(data, more, pos);
    ReadsOne(dec, d, data[pos..] + more, RowItem(row), d, data[start + len..] + more);
    ReadsJoin(dec, d, data + more, AsItems(rows), d, data[pos..] + more, [RowItem(row)], d, data[start + len..] + more);
    assert AsItems(rows + [row]) == AsItems(rows) + [RowItem(row)];
  }

  lemma FaultySoStuck(dec: Decoders, d: Desc, data: Bytes, more: Bytes, rows: seq<RowValue>, pos: nat)
    requires |data| <= MAX_READ && pos <= |data| && Decodes(dec, d, data, more, rows, pos)
    requires NextRowFrame(data, pos).Some?
    requires var (start, len) := NextRowFrame(data, pos).value; dec.dbos(d.dbos, data[start..start + len]).BadLayout?
    ensures Items(dec, d, data + more) == Stuck
  {
    FrameIsRow(data, more, pos);
    ItemsAfter(dec, d, data + more, AsItems(rows), d, data[pos..] + more);
  }
}
