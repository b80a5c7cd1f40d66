/** Iterating over a cursor, which ends at CommandComplete: when the first value error that
    `fetchall` raises reaches a caller who iterates. */
module Iterating {
  import opened Options
  import opened Wire
  import opened Streams
  import opened FrameReads
  import opened ResultItems
  import opened ResultReaders
  import opened Fetching

  predicate HasRow(items: seq<Item>) { exists i :: 0 <= i < |items| && items[i].RowItem? }

  lemma {:induction false} RowsFound(items: seq<Item>)
    requires !HasRow(items) && !HasEmptyQuery(items)
    ensures RowsOf(items) == []
  {
    if items != [] {
      assert !items[0].RowItem? && !items[0].EmptyQuery?;
      assert forall i | 0 <= i < |items[1..]| :: items[1..][i] == items[i + 1];
      RowsFound(items[1..]);
    }
  }

  /** How one `_anext_internal` ends. */
  datatype Turn =
    | Next(row: RowValue)
    | StopAtComplete
    | StopAtReady
    | RaiseServer(text: Bytes)
    | RaiseValue(error: RowError)
    | ReadFails(e: Error)

  /** What was iterated (`rows`) and is held after `read`, of a result that began with `x0`.
      Only a row of an empty query lets iteration pass a CommandComplete. */
  ghost predicate Iterated(reader: ResultReader, x0: Holding, rows: seq<RowValue>, read: seq<Item>)
    reads reader
  {
    && Holding(rows + reader.cachedRows, reader.deferred, reader.error) == After(x0, read)
    && (!HasEmptyQuery(read) ==> !HasComplete(read))
  }

  /** `read` is where a turn stands in a result that began at `d0`, `w0`. */
  ghost predicate Stands(reader: ResultReader, d0: Desc, w0: Bytes, read: seq<Item>)
    requires reader.Valid()
    reads reader, reader.stream, reader.stream.buffer
  {
    NoReady(read) && FirstError(read) == None && Reads(reader.dec, d0, w0, read, reader.desc, reader.Unread())
  }

  /** How a turn must end when `read` is what was read in all. */
  ghost predicate TurnRight(t: Turn, x0: Holding, rows: seq<RowValue>, read: seq<Item>, reader: ResultReader, d0: Desc, w0: Bytes)
    requires reader.Valid()
    reads reader, reader.stream, reader.stream.buffer
  {
    match t
    case Next(row) => Stands(reader, d0, w0, read) && Iterated(reader, x0, rows + [row], read)
    case StopAtComplete =>
      && Stands(reader, d0, w0, read) && read != [] && read[|read| - 1].Complete?
      && Holding(rows, reader.deferred, reader.error) == After(x0, read) && reader.cachedRows == []
    case StopAtReady =>
      && Items(reader.dec, d0, w0) == Got(read, reader.Unread())
      && FirstError(read) == None && First(x0.deferred, FirstBad(read)) == None
      && (!HasEmptyQuery(read) ==> !HasComplete(read) && rows == x0.rows + RowsOf(read))
    case RaiseValue(e) =>
      && Items(reader.dec, d0, w0) == Got(read, reader.Unread())
      && FirstError(read) == None && First(x0.deferred, FirstBad(read)) == Some(e)
      && (!HasEmptyQuery(read) ==> !HasComplete(read))
    case RaiseServer(text) => Items(reader.dec, d0, w0) == Got(read, reader.Unread()) && FirstError(read) == Some(text)
    case ReadFails(_) => Items(reader.dec, d0, w0) == Stuck || reader.stream.faulted
  }

  method PopRow(reader: ResultReader) returns (row: RowValue)
    requires reader.Valid() && reader.cachedRows != []
    modifies reader`cachedRows
    ensures reader.Valid() && [row] + reader.cachedRows == old(reader.cachedRows)
  {
    row := reader.cachedRows[0];
    reader.cachedRows := reader.cachedRows[1..];
  }

  /** The rows of a turn: one more, or the state after which there is none. */
  method Turned(reader: ResultReader, ghost x0: Holding, ghost rows: seq<RowValue>, ghost read: seq<Item>, ghost d0: Desc,
                ghost w0: Bytes)
    returns (t: Turn, ghost read': seq<Item>)
    requires reader.Valid() && reader.stream.open && x0.error == None
    requires Stands(reader, d0, w0, read) && Iterated(reader, x0, rows, read)
    modifies reader, reader.stream, reader.stream.buffer
    ensures reader.Valid() && (old(reader.stream.faulted) ==> reader.stream.faulted)
    ensures TurnRight(t, x0, rows, read', reader, d0, w0)
    ensures t.Next? ==> reader.stream.open && reader.stream.buffer == old(reader.stream.buffer)
    ensures t.Next? ==> |reader.Unread()| < |old(reader.Unread())|
                        || (reader.Unread() == old(reader.Unread()) && |reader.cachedRows| < |old(reader.cachedRows)|)
  {
    read' := read;
    if reader.cachedRows != [] {
      var row := PopRow(reader);
      assert (rows + [row]) + reader.cachedRows == rows + old(reader.cachedRows);
      assert reader.Unread() == old(reader.Unread());
      return Next(row), read;
    }
    while true
      invariant reader.Valid() && reader.stream.open && reader.stream.buffer == old(reader.stream.buffer)
      invariant old(reader.stream.faulted) ==> reader.stream.faulted
      invariant Stands(reader, d0, w0, read') && Iterated(reader, x0, rows, read')
      invariant |reader.Unread()| <= |old(reader.Unread())|
      invariant !HasEmptyQuery(read') ==> reader.cachedRows == []
      decreases |reader.Unread()|
    {
      var st;
      st, read' := NextStand(reader, x0, rows, read', d0, w0);
      if st.Raised? { return ReadFails(st.e), read'; }
      if (st.v.DataRow? || st.v.DataBatch?) && reader.cachedRows != [] {
        label Popping:
        var row := PopRow(reader);
        assert (rows + [row]) + reader.cachedRows == rows + old@Popping(reader.cachedRows);
        assert reader.Unread() == old@Popping(reader.Unread());
        return Next(row), read';
      }
      if st.v.CommandComplete? && reader.cachedRows == [] {
        assert rows + [] == rows;
        return StopAtComplete, read';
      }
      if st.v.ReadyForQuery? {
        t := AtReady(reader, x0, rows, read', d0, w0);
        return;
      }
      if st.v.ErrorState? {
        var text := reader.error.value;
        var f;
        f, read' := FailAfterDrain(reader, text, read', d0, w0);
        return if f.ReadFailure? then ReadFails(f.e) else RaiseServer(text), read';
      }
    }
  }

  /** The next state of a result and what was read up to it. */
  method NextStand(reader: ResultReader, ghost x0: Holding, ghost rows: seq<RowValue>, ghost read: seq<Item>, ghost d0: Desc,
                   ghost w0: Bytes)
    returns (r: Reply<State>, ghost read': seq<Item>)
    requires reader.Valid() && reader.stream.open && x0.error == None
    requires Stands(reader, d0, w0, read) && Iterated(reader, x0, rows, read)
    modifies reader, reader.stream, reader.stream.buffer
    ensures reader.Valid() && Keeps(reader.stream, r)
    ensures r.Raised? ==> Items(reader.dec, d0, w0) == Stuck || reader.stream.faulted
    ensures r.Value? ==> Holding(rows + reader.cachedRows, reader.deferred, reader.error) == After(x0, read')
                         && read' != [] && (r.v.CommandComplete? ==> read'[|read'| - 1].Complete?)
                         && Reads(reader.dec, d0, w0, read', reader.desc, reader.Unread())
    ensures r.Value? && HasEmptyQuery(read) ==> HasEmptyQuery(read')
    ensures r.Value? && !r.v.CommandComplete? ==> (!HasEmptyQuery(read') ==> !HasComplete(read'))
    ensures r.Value? && !r.v.ReadyForQuery? ==> NoReady(read') && |reader.Unread()| < |old(reader.Unread())|
    ensures r.Value? && !r.v.ErrorState? ==> FirstError(read') == None && reader.error == None
    ensures r.Value? && r.v.ErrorState? ==> reader.error.Some? && FirstError(read') == reader.error
    ensures r.Value? && r.v.ReadyForQuery? ==> Items(reader.dec, d0, w0) == Got(read', reader.Unread())
    ensures r.Value? && !r.v.DataRow? && !r.v.DataBatch? && !HasEmptyQuery(read') ==> reader.cachedRows == old(reader.cachedRows)
  {
    ghost var items;
    r, items := NextStateOf(reader, read, d0, w0);
    read' := read + items;
    if r.Raised? { return; }
    FetchedMore(x0, read, rows, old(reader.Held()), items);
    NextRead(x0, read, items, r.v);
    HasJoin(read, items);
    if !HasRow(items) && !HasEmptyQuery(items) {
      RowsFound(items);
    }
  }

  /** At ReadyForQuery the deferred value error is raised. */
  method AtReady(reader: ResultReader, ghost x0: Holding, ghost rows: seq<RowValue>, ghost read: seq<Item>, ghost d0: Desc,
                 ghost w0: Bytes)
    returns (t: Turn)
    requires reader.Valid() && reader.error == None && FirstError(read) == None
    requires Items(reader.dec, d0, w0) == Got(read, reader.Unread())
    requires Iterated(reader, x0, rows, read) && (!HasEmptyQuery(read) ==> reader.cachedRows == [])
    modifies reader`deferred
    ensures reader.Valid() && TurnRight(t, x0, rows, read, reader, d0, w0)
    ensures t.StopAtReady? || t.RaiseValue?
  {
    var e := reader.TakeDeferredDecodeError();
    assert reader.Unread() == old(reader.Unread());
    assert rows + [] == rows;
    t := if e.Some? then RaiseValue(e.value) else StopAtReady;
  }

  /** `async for row in cursor` on an open result. If no empty query is in it, iteration ends
      normally behind the first CommandComplete, with every row before it and the first value
      error still pending; the value error is raised only by a result without one. */
  method Iterate(reader: ResultReader) returns (rows: seq<RowValue>, t: Turn, ghost read: seq<Item>)
    requires reader.Valid() && reader.stream.open && reader.error == None
    modifies reader, reader.stream, reader.stream.buffer
    ensures reader.Valid() && !t.Next? && (old(reader.stream.faulted) ==> reader.stream.faulted)
    ensures TurnRight(t, old(reader.Held()), rows, read, reader, old(reader.desc), old(reader.Unread()))
  {
    rows, read := [], [];
    ghost var d0, w0, x0 := reader.desc, reader.Unread(), reader.Held();
    AfterJoin(x0, [], []);
    assert [] + reader.cachedRows == reader.cachedRows;
    while true
      invariant reader.Valid() && reader.stream.open && reader.stream.buffer == old(reader.stream.buffer)
      invariant old(reader.stream.faulted) ==> reader.stream.faulted
      invariant Stands(reader, d0, w0, read) && Iterated(reader, x0, rows, read)
      decreases |reader.Unread()|, |reader.cachedRows|
    {
      t, read := Turned(reader, x0, rows, read, d0, w0);
      if !t.Next? { return; }
      rows := rows + [t.row];
    }
  }

  /** When a value that does not decode reaches a caller who iterates: in a result without a
      server error or an empty query, if and only if the server sends no CommandComplete.
      (`fetchall` raises it either way.) */
  lemma IterationRaisesExactly(t: Turn, x0: Holding, rows: seq<RowValue>, read: seq<Item>, reader: ResultReader, d0: Desc,
                               w0: Bytes)
    requires reader.Valid() && TurnRight(t, x0, rows, read, reader, d0, w0) && !t.Next? && !t.ReadFails?
    requires Items(reader.dec, d0, w0).Got? && !HasServerError(Items(reader.dec, d0, w0).val)
    requires !HasEmptyQuery(Items(reader.dec, d0, w0).val)
    ensures var all := Items(reader.dec, d0, w0).val;
            && (t.RaiseValue? <==> First(x0.deferred, FirstBad(all)).Some? && !HasComplete(all))
            && (t.StopAtComplete? <==> HasComplete(all))
            && (t.StopAtComplete? ==> reader.deferred == First(x0.deferred, FirstBad(read)) && read <= all)
  {
    var all := Items(reader.dec, d0, w0).val;
    ErrorsFound(all);
    if t.StopAtComplete? {
      ItemsAfter(reader.dec, d0, w0, read, reader.desc, reader.Unread());
      HasJoin(read, all[|read|..]);
      assert all == read + all[|read|..];
    }
  }
}
