/** Consuming a whole result: draining the generator, and `fetchall`. */
module Fetching {
  import opened Options
  import opened Wire
  import opened Streams
  import opened FrameReads
  import opened ResultItems
  import opened ResultReaders

  /** Read the result to its end (`drain_protocol_generator`). For every content of the wire,
      every way the bytes arrive, and with or without the batch fast path, this delivers the
      rows, the first value error and the final position of reading one message at a time. */
  method ReadAll(reader: ResultReader) returns (r: Reply<()>)
    requires reader.Valid() && reader.stream.open
    modifies reader, reader.stream, reader.stream.buffer
    ensures reader.Valid() && Keeps(reader.stream, r)
    ensures r.Value? ==>
              var p := Items(reader.dec, old(reader.desc), old(reader.Unread()));
              p.Got? && reader.Unread() == p.rest && reader.Delivers(p.val)
    ensures r.Raised? ==> Items(reader.dec, old(reader.desc), old(reader.Unread())) == Stuck || reader.stream.faulted
  {
    ghost var done: seq<Item> := [];
    ghost var d0, w0 := reader.desc, reader.Unread();
    while true
      invariant reader.Valid() && reader.stream.open && reader.stream.buffer == old(reader.stream.buffer)
      invariant old(reader.stream.faulted) ==> reader.stream.faulted
      invariant reader.Delivers(done) && NoReady(done)
      invariant Reads(reader.dec, d0, w0, done, reader.desc, reader.Unread())
      decreases |reader.Unread()|
    {
      ghost var items;
      var st;
      st, items := NextStateOf(reader, done, d0, w0);
      AfterJoin(old(reader.Held()), done, items);
      if st.Raised? { return Raised(st.e); }
      if st.v.ReadyForQuery? { return Value(()); }
      done := done + items;
    }
  }

  /** `NextState` within a result that began at `d0`, `w0` and of which `done` was read. */
  method NextStateOf(reader: ResultReader, ghost done: seq<Item>, ghost d0: Desc, ghost w0: Bytes)
    returns (r: Reply<State>, ghost items: seq<Item>)
    requires reader.Valid() && reader.stream.open && NoReady(done)
    requires Reads(reader.dec, d0, w0, done, reader.desc, reader.Unread())
    modifies reader, reader.stream, reader.stream.buffer
    ensures reader.Valid() && Keeps(reader.stream, r) && reader.Delivers(items)
    ensures r.Value? ==> Announces(items, r.v) && Reads(reader.dec, d0, w0, done + items, reader.desc, reader.Unread())
    ensures r.Value? && r.v.ReadyForQuery? ==> Items(reader.dec, d0, w0) == Got(done + items, reader.Unread())
    ensures r.Value? && !r.v.ReadyForQuery? ==> |reader.Unread()| < |old(reader.Unread())|
    ensures r.Raised? ==> Items(reader.dec, d0, w0) == Stuck || reader.stream.faulted
  {
    r, items := reader.NextState();
    if r.Value? {
      OneStateOn(reader.dec, d0, w0, done, old(reader.desc), old(reader.Unread()), items, r.v, reader.desc, reader.Unread());
    } else if Items(reader.dec, old(reader.desc), old(reader.Unread())) == Stuck {
      StuckAfter(reader.dec, d0, w0, done, old(reader.desc), old(reader.Unread()));
    }
  }

  lemma OneStateOn(dec: Decoders, d0: Desc, w0: Bytes, done: seq<Item>, d: Desc, w: Bytes, items: seq<Item>, st: State,
                   d': Desc, w': Bytes)
    requires Reads(dec, d0, w0, done, d, w) && NoReady(done)
    requires Reads(dec, d, w, items, d', w') && Announces(items, st)
    ensures Reads(dec, d0, w0, done + items, d', w')
    ensures if st.ReadyForQuery? then Items(dec, d0, w0) == Got(done + items, w') else |w'| < |w|
  {
    ReadsJoin(dec, d0, w0, done, d, w, items, d', w');
    ReadsShrinks(dec, d, w, items, d', w');
    if st.ReadyForQuery? {
      EndsReady(dec, d0, w0, done, items, d', w');
    }
  }

  lemma StillNoReady(done: seq<Item>, quiet: seq<Item>)
    requires NoReady(done) && AllQuiet(quiet)
    ensures NoReady(done + quiet)
  {
  }

  lemma SplitLast(done: seq<Item>, items: seq<Item>)
    requires items != [] && items[|items| - 1].Ready?
    ensures done + items == (done + items[..|items| - 1]) + [Ready]
  {
    assert items == items[..|items| - 1] + [Ready];
  }

  lemma EndsReady(dec: Decoders, d0: Desc, w0: Bytes, done: seq<Item>, items: seq<Item>, d': Desc, w': Bytes)
    requires Reads(dec, d0, w0, done + items, d', w') && NoReady(done)
    requires items != [] && items[|items| - 1].Ready? && AllQuiet(items[..|items| - 1])
    ensures Items(dec, d0, w0) == Got(done + items, w')
  {
    var quiet := items[..|items| - 1];
    StillNoReady(done, quiet);
    SplitLast(done, items);
    ReadsToReady(dec, d0, w0, done + quiet, d', w');
  }

  lemma {:induction false} ReadsShrinks(dec: Decoders, d: Desc, w: Bytes, items: seq<Item>, d': Desc, w': Bytes)
    requires Reads(dec, d, w, items, d', w')
    ensures |w'| + |items| <= |w|
    decreases |items|
  {
    if items != [] {
      var m := One(dec, d, w);
      ReadsShrinks(dec, m.val.d, m.rest, items[1..], d', w');
    }
  }

  // ----- what a list of messages holds ---------------------------------------------------

  lemma HasJoin(a: seq<Item>, b: seq<Item>)
    ensures HasServerError(a + b) <==> HasServerError(a) || HasServerError(b)
    ensures HasDescribe(a + b) <==> HasDescribe(a) || HasDescribe(b)
    ensures HasComplete(a + b) <==> HasComplete(a) || HasComplete(b)
    ensures HasEmptyQuery(a + b) <==> HasEmptyQuery(a) || HasEmptyQuery(b)
  {
    var c := a + b;
    assert forall i | 0 <= i < |a| :: c[i] == a[i];
    assert forall i | 0 <= i < |b| :: c[|a| + i] == b[i];
    assert forall i | |a| <= i < |c| :: c[i] == b[i - |a|];
  }

  lemma {:induction false} ErrorsFound(items: seq<Item>)
    ensures LastError(items).Some? <==> HasServerError(items)
    ensures FirstError(items).Some? <==> HasServerError(items)
  {
    if items != [] {
      ErrorsFound(items[1..]);
      HasJoin([items[0]], items[1..]);
      assert [items[0]] + items[1..] == items;
      assert [items[0]][0] == items[0];
    }
  }

  /** The rows that wait in the cache after `read`: those of empty queries behind the last row
      message, because `fetchall` empties the cache only at a row message. */
  function Waiting(read: seq<Item>): seq<RowValue> {
    if read == [] || IsData(read[|read| - 1]) then []
    else Waiting(read[..|read| - 1]) + RowsOf([read[|read| - 1]])
  }

  lemma {:induction false} WaitingMore(done: seq<Item>, items: seq<Item>)
    requires !HasData(items)
    ensures Waiting(done + items) == Waiting(done) + RowsOf(items)
    decreases |items|
  {
    if items == [] {
      assert done + items == done;
    } else {
      var n := |items| - 1;
      assert !IsData(items[n]) && forall i | 0 <= i < n :: items[..n][i] == items[i];
      assert (done + items)[..|done| + n] == done + items[..n];
      WaitingMore(done, items[..n]);
      RowsJoin(items[..n], [items[n]]);
      assert items[..n] + [items[n]] == items;
      assert (Waiting(done) + RowsOf(items[..n])) + RowsOf([items[n]]) == Waiting(done) + (RowsOf(items[..n]) + RowsOf([items[n]]));
    }
  }

  lemma {:induction false} NothingWaits(read: seq<Item>)
    requires !HasEmptyQuery(read)
    ensures Waiting(read) == []
    decreases |read|
  {
    if read != [] && !IsData(read[|read| - 1]) {
      var n := |read| - 1;
      assert !read[n].EmptyQuery? && forall i | 0 <= i < n :: read[..n][i] == read[i];
      NothingWaits(read[..n]);
      assert RowsOf([read[n]]) == [];
    }
  }

  // ----- fetchall -------------------------------------------------------------------------

  /** How `fetchall` ends: the rows; the rows before the next result set; the error of the
      server; the first value that did not decode; or a failed read. */
  datatype Fetched =
    | Rows(rows: seq<RowValue>)
    | NextResult(rows: seq<RowValue>)
    | ServerFailure(text: Bytes)
    | ValueFailure(error: RowError)
    | ReadFailure(e: Error)

  /** What is fetched and what is held after `done`, of a result that began with `x0`. */
  ghost predicate HasFetched(reader: ResultReader, x0: Holding, rows: seq<RowValue>, done: seq<Item>)
    reads reader
  {
    && Holding(rows + reader.cachedRows, reader.deferred, reader.error) == After(x0, done)
    && reader.cachedRows == Waiting(done)
  }

  lemma FetchedMore(x0: Holding, done: seq<Item>, rows: seq<RowValue>, x: Holding, items: seq<Item>)
    requires x.(rows := rows + x.rows) == After(x0, done)
    ensures After(x, items).(rows := rows + After(x, items).rows) == After(x0, done + items)
  {
    AfterJoin(x0, done, items);
    assert rows + (x.rows + RowsOf(items)) == (rows + x.rows) + RowsOf(items);
  }

  /** One turn of the loop: the next state, and its rows moved out of the cache. */
  method FetchStep(reader: ResultReader, ghost x0: Holding, rows: seq<RowValue>, ghost done: seq<Item>, ghost d0: Desc,
                   ghost w0: Bytes)
    returns (r: Reply<State>, rows': seq<RowValue>, ghost items: seq<Item>)
    requires reader.Valid() && reader.stream.open && NoReady(done)
    requires Reads(reader.dec, d0, w0, done, reader.desc, reader.Unread()) && HasFetched(reader, x0, rows, done)
    modifies reader, reader.stream, reader.stream.buffer
    ensures reader.Valid() && Keeps(reader.stream, r)
    ensures r.Value? ==> Announces(items, r.v) && Reads(reader.dec, d0, w0, done + items, reader.desc, reader.Unread())
                         && HasFetched(reader, x0, rows', done + items)
    ensures r.Value? && !HasEmptyQuery(done + items) ==> reader.cachedRows == []
    ensures r.Value? && r.v.ReadyForQuery? ==> Items(reader.dec, d0, w0) == Got(done + items, reader.Unread())
    ensures r.Value? && !r.v.ReadyForQuery? ==> |reader.Unread()| < |old(reader.Unread())|
    ensures r.Raised? ==> Items(reader.dec, d0, w0) == Stuck || reader.stream.faulted
  {
    rows' := rows;
    r, items := NextStateOf(reader, done, d0, w0);
    if r.Raised? { return; }
    FetchedMore(x0, done, rows, old(reader.Held()), items);
    if r.v.DataRow? || r.v.DataBatch? {
      rows' := rows + reader.cachedRows;
      label Before:
      reader.cachedRows := [];
      assert reader.Unread() == old@Before(reader.Unread());
      assert rows' + [] == rows';
      assert (done + items)[|done + items| - 1] == items[|items| - 1];
    } else {
      WaitingMore(done, items);
    }
    if !HasEmptyQuery(done + items) {
      NothingWaits(done + items);
    }
  }

  /** The end of a result whose messages are `read`, with `before` the error deferred so far:
      an error of the server, else the first value error, else every row. */
  ghost predicate FetchedRight(f: Fetched, read: seq<Item>, before: Option<RowError>) {
    match f
    case ServerFailure(text) => exists k: nat :: FirstErrorAt(read, text, k)
    case ValueFailure(e) => Undisturbed(read) && First(before, FirstBad(read)) == Some(e)
    case Rows(_) => Undisturbed(read) && First(before, FirstBad(read)) == None
    case NextResult(_) => read != [] && read[|read| - 1].Describe? && Undisturbed(read[..|read| - 1])
    case ReadFailure(_) => false
  }

  /** No error of the server and no description. */
  predicate Undisturbed(read: seq<Item>) { forall item <- read :: !item.ServerError? && !item.Describe? }

  /** The first error of the server is message `k`, and no description is in front of it. */
  predicate FirstErrorAt(read: seq<Item>, text: Bytes, k: nat) {
    k < |read| && read[k] == ServerError(text) && Undisturbed(read[..k])
  }

  /** `fetchall` on an open result, without native rows or with them. Unless a receive fails
      or the wire is malformed, it ends as the messages on the wire say, and the stream
      stands behind ReadyForQuery, or behind the description of the next result set. */
  method FetchAll(reader: ResultReader) returns (f: Fetched, ghost read: seq<Item>)
    requires reader.Valid() && reader.stream.open && reader.error == None
    modifies reader, reader.stream, reader.stream.buffer
    ensures reader.Valid() && (old(reader.stream.faulted) ==> reader.stream.faulted)
    ensures f.ReadFailure? ==> Items(reader.dec, old(reader.desc), old(reader.Unread())) == Stuck || reader.stream.faulted
    ensures !f.ReadFailure? ==> FetchedRight(f, read, old(reader.deferred))
    ensures !f.ReadFailure? ==>
              if f.NextResult? then
                Reads(reader.dec, old(reader.desc), old(reader.Unread()), read, reader.desc, reader.Unread()) && NoReady(read)
              else Items(reader.dec, old(reader.desc), old(reader.Unread())) == Got(read, reader.Unread())
    ensures f.Rows? || f.NextResult? ==>
              && f.rows + reader.cachedRows == old(reader.cachedRows) + RowsOf(read)
              && reader.cachedRows == Waiting(read)
              && (!HasEmptyQuery(read) ==> reader.cachedRows == [])
  {
    read := [];
    ghost var d0, w0, x0 := reader.desc, reader.Unread(), reader.Held();
    var rows := reader.cachedRows;
    reader.cachedRows := [];
    assert reader.Unread() == w0;
    AfterJoin(x0, [], []);
    while true
      invariant reader.Valid() && reader.stream.open && reader.stream.buffer == old(reader.stream.buffer)
      invariant old(reader.stream.faulted) ==> reader.stream.faulted
      invariant NoReady(read) && FirstError(read) == None && Undisturbed(read)
      invariant Reads(reader.dec, d0, w0, read, reader.desc, reader.Unread())
      invariant HasFetched(reader, x0, rows, read)
      decreases |reader.Unread()|
    {
      ghost var items;
      var st;
      st, rows, items := FetchStep(reader, x0, rows, read, d0, w0);
      if st.Raised? { return ReadFailure(st.e), read; }
      NextRead(x0, read, items, st.v);
      EndsUndisturbed(read, items, st.v);
      if st.v.ErrorState? {
        var text := reader.error.value;
        ghost var done := read + items;
        f, read := FailAfterDrain(reader, text, done, d0, w0);
        StillFirst(done, text, read);
        return;
      }
      read := read + items;
      if st.v.RowDescription? {
        return NextResult(rows), read;
      }
      if st.v.ReadyForQuery? {
        label Here:
        var e := reader.TakeDeferredDecodeError();
        assert reader.Unread() == old@Here(reader.Unread());
        return if e.Some? then ValueFailure(e.value) else Rows(rows), read;
      }
    }
  }

  lemma OneError(items: seq<Item>, st: State)
    requires Announces(items, st) && st.ErrorState?
    ensures FirstError(items).Some? && FirstError(items) == LastError(items)
  {
    var quiet, item := items[..|items| - 1], items[|items| - 1];
    LoneError(quiet, item);
    assert quiet + [item] == items;
  }

  lemma NextError(x0: Holding, read: seq<Item>, items: seq<Item>, st: State)
    requires FirstError(read) == None && x0.error == None && Announces(items, st) && st.ErrorState?
    ensures After(x0, read + items).error.Some? && FirstError(read + items) == After(x0, read + items).error
  {
    RowsJoin(read, items);
    OneError(items, st);
  }

  lemma NextWithoutError(x0: Holding, read: seq<Item>, items: seq<Item>, st: State)
    requires FirstError(read) == None && x0.error == None && Announces(items, st) && !st.ErrorState?
    ensures FirstError(read + items) == None && After(x0, read + items).error == None
  {
    RowsJoin(read, items);
    ErrorsFound(read);
    ErrorsFound(items);
  }

  /** What one more state means for the errors. */
  lemma NextRead(x0: Holding, read: seq<Item>, items: seq<Item>, st: State)
    requires FirstError(read) == None && x0.error == None && Announces(items, st) && NoReady(read)
    ensures !st.ErrorState? ==> FirstError(read + items) == None && After(x0, read + items).error == None
    ensures st.ErrorState? ==> After(x0, read + items).error.Some? && FirstError(read + items) == After(x0, read + items).error
    ensures st.RowDescription? ==> HasDescribe(read + items)
    ensures !st.ReadyForQuery? ==> NoReady(read + items)
  {
    if st.ErrorState? {
      NextError(x0, read, items, st);
    } else {
      NextWithoutError(x0, read, items, st);
      if st.RowDescription? {
        HasJoin(read, items);
      }
    }
  }

  /** What one more state means for where the loop ends. */
  lemma EndsUndisturbed(read: seq<Item>, items: seq<Item>, st: State)
    requires Undisturbed(read) && Announces(items, st)
    ensures !st.ErrorState? && !st.RowDescription? ==> Undisturbed(read + items)
    ensures st.RowDescription? ==> var all := read + items; all[|all| - 1].Describe? && Undisturbed(all[..|all| - 1])
    ensures st.ErrorState? ==> FirstError(read + items).Some?
                               && FirstErrorAt(read + items, FirstError(read + items).value, |read + items| - 1)
  {
    assert (read + items)[..|read + items| - 1] == read + items[..|items| - 1];
    if st.ErrorState? {
      var quiet, item := items[..|items| - 1], items[|items| - 1];
      assert quiet + [item] == items;
      LoneError(quiet, item);
      RowsJoin(read, items);
      NoErrorFound(read);
    }
  }

  lemma StillFirst(done: seq<Item>, text: Bytes, read: seq<Item>)
    requires done != []
    ensures FirstErrorAt(done, text, |done| - 1) && done <= read ==> exists k: nat :: FirstErrorAt(read, text, k)
  {
    if FirstErrorAt(done, text, |done| - 1) && done <= read {
      assert read[..|done| - 1] == done[..|done| - 1];
      assert FirstErrorAt(read, text, |done| - 1);
    }
  }

  lemma {:induction false} NoErrorFound(read: seq<Item>)
    requires Undisturbed(read)
    ensures FirstError(read) == None
  {
    if read != [] {
      assert !read[0].ServerError? && forall i | 0 <= i < |read| - 1 :: read[1..][i] == read[i + 1];
      NoErrorFound(read[1..]);
    }
  }

  lemma {:induction false} LoneError(quiet: seq<Item>, item: Item)
    requires AllQuiet(quiet) && item.ServerError?
    ensures FirstError(quiet + [item]) == LastError(quiet + [item]) == Some(item.text)
  {
    if quiet == [] {
      assert [] + [item] == [item] && [item][1..] == [];
    } else {
      assert (quiet + [item])[1..] == quiet[1..] + [item];
      assert (quiet + [item])[0] == quiet[0] && quiet[0] in quiet;
      LoneError(quiet[1..], item);
    }
  }

  /** The ERROR branch: the rest of the result is drained before the error is raised. */
  method FailAfterDrain(reader: ResultReader, text: Bytes, ghost done: seq<Item>, ghost d0: Desc, ghost w0: Bytes)
    returns (f: Fetched, ghost read: seq<Item>)
    requires reader.Valid() && reader.stream.open && NoReady(done) && FirstError(done) == Some(text)
    requires Reads(reader.dec, d0, w0, done, reader.desc, reader.Unread())
    modifies reader, reader.stream, reader.stream.buffer
    ensures reader.Valid() && (old(reader.stream.faulted) ==> reader.stream.faulted)
    ensures f.ReadFailure? || f == ServerFailure(text)
    ensures f.ServerFailure? ==> Items(reader.dec, d0, w0) == Got(read, reader.Unread()) && FirstError(read) == Some(text)
    ensures f.ServerFailure? ==> done <= read
    ensures f.ReadFailure? ==> Items(reader.dec, d0, w0) == Stuck || reader.stream.faulted
  {
    ItemsAfter(reader.dec, d0, w0, done, reader.desc, reader.Unread());
    ghost var rest := Items(reader.dec, reader.desc, reader.Unread());
    read := done;
    var end := ReadAll(reader);
    if end.Raised? { return ReadFailure(end.e), read; }
    read := done + rest.val;
    RowsJoin(done, rest.val);
    f := ServerFailure(text);
  }
}
