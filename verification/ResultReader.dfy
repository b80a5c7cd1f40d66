/** The result reader over the receive buffer, with the batch fast path: whatever the peer's
    bytes are and however they arrive, it delivers what reading one message at a time means. */
module ResultReaders {
  import opened Options
  import opened Wire
  import opened Messages
  import opened Streams
  import opened FrameReads
  import opened ResultItems
  import opened RowBatches

  /** The states the result generator yields. */
  datatype State = DataRow | DataBatch | RowDescription | CommandComplete | ErrorState | Notice | Extab | ReadyForQuery

  class ResultReader {
    const dec: Decoders
    const native: bool
    const stream: NzBufferedStream
    var desc: Desc
    var cachedHeader: Option<Bytes>
    var cachedRows: seq<RowValue>
    var deferred: Option<RowError>
    var error: Option<Bytes>
    var frameInProgress: bool

    ghost predicate Valid()
      reads this, stream
    {
      && stream.Valid() && stream.buffer.Length <= MAX_READ
      && (cachedHeader.Some? ==> |cachedHeader.value| == 5)
    }

    /** The bytes of the messages that were not delivered yet. */
    ghost function Unread(): Bytes
      reads this, stream, stream.buffer
      requires Valid()
    {
      (if cachedHeader.Some? then cachedHeader.value else []) + stream.Pending()
    }

    constructor (dec: Decoders, native: bool, stream: NzBufferedStream, desc: Desc)
      requires stream.Valid() && stream.buffer.Length <= MAX_READ
      ensures Valid() && this.stream == stream && this.dec == dec && this.desc == desc
      ensures Unread() == stream.Pending() && cachedRows == [] && deferred == None && error == None
    {
      this.dec, this.native, this.stream, this.desc := dec, native, stream, desc;
      cachedHeader, cachedRows, deferred, error, frameInProgress := None, [], None, None, false;
    }

    /** `_defer_decode_error`: only the first value error is kept. */
    method DeferDecodeError(e: RowError)
      modifies this`deferred
      ensures deferred == First(old(deferred), Some(e))
    {
      if deferred.None? { deferred := Some(e); }
    }

    /** `_take_deferred_decode_error`: a server error takes precedence. */
    method TakeDeferredDecodeError() returns (e: Option<RowError>)
      modifies this`deferred
      ensures deferred == None && e == if error.Some? then None else old(deferred)
    {
      e := if error.Some? then None else deferred;
      deferred := None;
    }

    /** The next header: the one read ahead, or five bytes from the stream. Nothing of the
        message is consumed before, so a failure that reads nothing leaves the stream at a
        message boundary. */
    method TakeHeader() returns (h: Reply<Bytes>)
      requires Valid() && stream.open
      modifies this`cachedHeader, this`frameInProgress, stream, stream.buffer
      ensures Valid() && Keeps(stream, h)
      ensures h.Value? ==> frameInProgress && cachedHeader == None && Take(old(Unread()), 5) == Got(h.v, stream.Pending())
      ensures h.Raised? ==> Take(old(Unread()), 5) == Stuck || stream.faulted
      ensures h.Raised? ==> !frameInProgress && (stream.partialRead || Unread() == old(Unread()))
    {
      if cachedHeader.Some? {
        h := Value(cachedHeader.value);
        assert old(Unread())[..5] == h.v && old(Unread())[5..] == stream.Pending();
        cachedHeader := None;
      } else {
        frameInProgress := false;
        assert old(Unread()) == stream.Pending();
        h := stream.Read(5);
        if h.Raised? {
          assert Unread() == stream.Pending();
          return;
        }
      }
      frameInProgress := true;
    }

    /** Decode the row messages that happen to be buffered. */
    method TakeBatch() returns (ok: bool, ghost rows: seq<RowValue>)
      requires Valid() && stream.open && cachedHeader == None
      modifies this`cachedRows, stream`head
      ensures Valid()
      ensures Reads(dec, desc, old(stream.Pending()), AsItems(rows), desc, stream.Pending())
      ensures cachedRows == old(cachedRows) + rows
      ensures !ok ==> Items(dec, desc, old(stream.Pending())) == Stuck
    {
      rows := [];
      var view, none := stream.ReadAvailableView();
      if native && !none && view.hi - view.lo > 13 {
        var data := view.a[view.lo..view.hi];
        ghost var more := stream.wire;
        var got, consumed, fault := BatchRows(dec, desc, data, more);
        if fault { return false, []; }
        if got != [] {
          cachedRows := cachedRows + got;
          stream.AdvanceHead(consumed);
          rows := got;
          assert stream.Pending() == data[consumed..] + more;
        }
      }
      ok := true;
    }

    function Held(): Holding
      reads this
    {
      Holding(cachedRows, deferred, error)
    }

    /** The effect of delivering `items`. */
    twostate predicate Delivers(items: seq<Item>)
      reads this
    {
      Held() == After(old(Held()), items)
    }

    method Deliver(item: Item)
      modifies this`cachedRows, this`deferred, this`error
      ensures Delivers([item])
    {
      AfterOne(old(Held()), item);
      match item
      case RowItem(row) => cachedRows := cachedRows + [row];
      case EmptyQuery(row) => cachedRows := cachedRows + [row];
      case BadItem(e) => DeferDecodeError(e);
      case ServerError(text) => error := Some(text);
      case _ =>
    }

    /** One message: header, body, handler. */
    method TakeMessage() returns (r: Reply<byte>, item: Item)
      requires Valid() && stream.open
      modifies this, stream, stream.buffer
      ensures Valid() && Keeps(stream, r)
      ensures r.Value? ==> cachedHeader == None && frameInProgress == !item.Ready?
                           && One(dec, old(desc), old(Unread())) == Got(Message(item, desc), stream.Pending())
                           && Delivers([item]) && (r.v == Code('Y') ==> item.RowItem? || item.BadItem?)
      ensures r.Raised? ==> (One(dec, old(desc), old(Unread())) == Stuck || stream.faulted) && Delivers([])
      ensures r.Raised? && !frameInProgress && !stream.partialRead ==> Unread() == old(Unread()) && desc == old(desc)
    {
      item := Quiet;
      var h :- TakeHeader();
      var p :- ReadFrame(stream, h[0]);
      var meaning := Interpret(dec, desc, h[0], p);
      if meaning.None? { return Raised(BadLength), item; }
      item := meaning.value;
      desc := NextDesc(dec, desc, h[0], p);
      Deliver(item);
      frameInProgress := !item.Ready?;
      return Value(h[0]), item;
    }

    /** After a row message: the buffered rows behind it, then the next header. */
    method AfterRow() returns (r: Reply<()>, ghost rows: seq<RowValue>)
      requires Valid() && stream.open && cachedHeader == None && frameInProgress
      modifies this`cachedRows, this`cachedHeader, this`frameInProgress, stream, stream.buffer
      ensures Valid() && Keeps(stream, r) && cachedRows == old(cachedRows) + rows
      ensures r.Value? ==> Reads(dec, desc, old(Unread()), AsItems(rows), desc, Unread())
      ensures r.Raised? ==> Items(dec, desc, old(Unread())) == Stuck || stream.faulted
      ensures r.Raised? && !frameInProgress && !stream.partialRead ==>
                Reads(dec, desc, old(Unread()), AsItems(rows), desc, Unread())
    {
      assert Unread() == stream.Pending();
      var ok;
      ok, rows := TakeBatch();
      if !ok { return Raised(BadLength), rows; }
      ghost var here := stream.Pending();
      frameInProgress := false;
      var h := ReadNSync(stream, 5);
      if h.Raised? {
        ItemsAfter(dec, desc, old(stream.Pending()), AsItems(rows), desc, here);
        assert Unread() == stream.Pending();
        return Raised(h.e), rows;
      }
      cachedHeader := Some(h.v);
      assert Unread() == here;
      return Value(()), rows;
    }

    /** One more message of a result that began at `d0`, `w0`. */
    method TakeMessageAfter(ghost items: seq<Item>, ghost d0: Desc, ghost w0: Bytes) returns (r: Reply<byte>, item: Item)
      requires Valid() && stream.open && NoReady(items) && Reads(dec, d0, w0, items, desc, Unread())
      modifies this, stream, stream.buffer
      ensures Valid() && Keeps(stream, r)
      ensures r.Value? ==> cachedHeader == None && frameInProgress == !item.Ready? && Delivers([item])
                           && (r.v == Code('Y') ==> item.RowItem? || item.BadItem?)
                           && Reads(dec, d0, w0, items + [item], desc, Unread()) && |Unread()| < |old(Unread())|
      ensures r.Raised? ==> (Items(dec, d0, w0) == Stuck || stream.faulted) && Delivers([])
      ensures r.Raised? && !frameInProgress && !stream.partialRead ==> Unread() == old(Unread()) && desc == old(desc)
    {
      r, item := TakeMessage();
      if r.Value? {
        assert Unread() == stream.Pending();
        ReadsSnoc(dec, d0, w0, items, old(desc), old(Unread()), item, desc, Unread());
      } else if One(dec, old(desc), old(Unread())) == Stuck {
        StuckAfter(dec, d0, w0, items, old(desc), old(Unread()));
      }
    }

    /** The rows behind a row message of a result that began at `d0`, `w0`. */
    method AfterRowOf(ghost items: seq<Item>, ghost d0: Desc, ghost w0: Bytes) returns (r: Reply<()>, ghost rows: seq<RowValue>)
      requires Valid() && stream.open && cachedHeader == None && frameInProgress
      requires NoReady(items) && Reads(dec, d0, w0, items, desc, Unread())
      modifies this`cachedRows, this`cachedHeader, this`frameInProgress, stream, stream.buffer
      ensures Valid() && Keeps(stream, r) && cachedRows == old(cachedRows) + rows
      ensures r.Value? ==> Reads(dec, d0, w0, items + AsItems(rows), desc, Unread())
      ensures r.Raised? ==> Items(dec, d0, w0) == Stuck || stream.faulted
      ensures r.Raised? && !frameInProgress && !stream.partialRead ==>
                Reads(dec, d0, w0, items + AsItems(rows), desc, Unread())
    {
      r, rows := AfterRow();
      if Items(dec, desc, old(Unread())) == Stuck {
        StuckAfter(dec, d0, w0, items, desc, old(Unread()));
      }
      if Reads(dec, desc, old(Unread()), AsItems(rows), desc, Unread()) {
        ReadsJoin(dec, d0, w0, items, desc, old(Unread()), AsItems(rows), desc, Unread());
      }
    }

    /** Messages up to the first that makes the generator yield. */
    method TakeUntilYield() returns (r: Reply<byte>, item: Item, ghost quiet: seq<Item>)
      requires Valid() && stream.open
      modifies this, stream, stream.buffer
      ensures Valid() && Keeps(stream, r) && AllQuiet(quiet)
      ensures r.Value? ==> cachedHeader == None && frameInProgress == !item.Ready?
                           && Delivers(quiet + [item]) && (r.v == Code('Y') ==> item.RowItem? || item.BadItem?)
                           && Reads(dec, old(desc), old(Unread()), quiet + [item], desc, Unread())
      ensures r.Raised? ==> (Items(dec, old(desc), old(Unread())) == Stuck || stream.faulted) && Delivers(quiet)
      ensures r.Raised? && !frameInProgress && !stream.partialRead ==>
                Reads(dec, old(desc), old(Unread()), quiet, desc, Unread())
    {
      quiet := [];
      while true
        invariant Valid() && stream.open && stream.buffer == old(stream.buffer) && (old(stream.faulted) ==> stream.faulted)
        invariant Delivers(quiet) && AllQuiet(quiet)
        invariant Reads(dec, old(desc), old(Unread()), quiet, desc, Unread())
        decreases |Unread()|
      {
        r, item := TakeMessageAfter(quiet, old(desc), old(Unread()));
        AfterJoin(old(Held()), quiet, [item]);
        AfterJoin(old(Held()), [], []);
        AfterJoin(old(Held()), quiet, []);
        assert quiet + [] == quiet;
        if r.Raised? { return; }
        if !item.Quiet? || r.v == Code('N') || r.v == Code('U') || r.v == Code('l') || r.v == Code('x') { return; }
        quiet := quiet + [item];
      }
    }

    /** The generator: messages up to the next state it yields. `items` is what was read. */
    method NextState() returns (r: Reply<State>, ghost items: seq<Item>)
      requires Valid() && stream.open
      modifies this, stream, stream.buffer
      ensures Valid() && Keeps(stream, r) && Delivers(items)
      ensures r.Value? ==> Reads(dec, old(desc), old(Unread()), items, desc, Unread()) && Announces(items, r.v)
      ensures r.Raised? ==> Items(dec, old(desc), old(Unread())) == Stuck || stream.faulted
      ensures r.Raised? && !frameInProgress && !stream.partialRead ==>
                Reads(dec, old(desc), old(Unread()), items, desc, Unread())
    {
      ghost var quiet;
      var c, item;
      c, item, quiet := TakeUntilYield();
      if c.Raised? { return Raised(c.e), quiet; }
      items := quiet + [item];
      if c.v == Code('Y') {
        ghost var rows;
        var next;
        next, rows := AfterRowOf(items, old(desc), old(Unread()));
        AfterJoin(old(Held()), items, AsItems(rows));
        AfterRows(After(old(Held()), items), rows);
        AnnouncesRows(quiet, item, rows);
        assert Delivers(items + AsItems(rows));
        return if next.Raised? then Raised(next.e) else Value(DataBatch), items + AsItems(rows);
      }
      r := Value(StateOf(item, c.v));
      AnnouncesOne(quiet, item, c.v);
    }
  }

  function StateOf(item: Item, c: byte): State {
    match item
    case Ready => ReadyForQuery
    case RowItem(_) => DataRow
    case BadItem(_) => DataRow
    case EmptyQuery(_) => Notice
    case Describe => RowDescription
    case Complete(_) => CommandComplete
    case ServerError(_) => ErrorState
    case Quiet => if c == Code('N') then Notice else Extab
  }

  predicate AllQuiet(items: seq<Item>) { forall i <- items :: i.Quiet? }

  predicate HasDescribe(items: seq<Item>) { exists i :: 0 <= i < |items| && items[i].Describe? }

  predicate HasServerError(items: seq<Item>) { exists i :: 0 <= i < |items| && items[i].ServerError? }

  predicate HasComplete(items: seq<Item>) { exists i :: 0 <= i < |items| && items[i].Complete? }

  predicate HasEmptyQuery(items: seq<Item>) { exists i :: 0 <= i < |items| && items[i].EmptyQuery? }

  /** A row message, whether or not its values decode. */
  predicate IsData(item: Item) { item.RowItem? || item.BadItem? }

  predicate HasData(items: seq<Item>) { exists i :: 0 <= i < |items| && IsData(items[i]) }

  /** What a yielded state says about the messages read for it. */
  predicate Announces(items: seq<Item>, st: State) {
    && items != []
    && (st.ReadyForQuery? ==> items[|items| - 1].Ready? && AllQuiet(items[..|items| - 1]))
    && (st.ErrorState? ==> items[|items| - 1].ServerError? && AllQuiet(items[..|items| - 1]))
    && (st.CommandComplete? ==> items[|items| - 1].Complete? && AllQuiet(items[..|items| - 1]))
    && (st.RowDescription? ==> items[|items| - 1].Describe? && AllQuiet(items[..|items| - 1]))
    && (!st.ReadyForQuery? ==> NoReady(items))
    && (st.RowDescription? <==> HasDescribe(items))
    && (st.ErrorState? <==> HasServerError(items))
    && (st.CommandComplete? <==> HasComplete(items))
    && (HasEmptyQuery(items) ==> st.Notice?)
    && (HasData(items) <==> st.DataRow? || st.DataBatch?)
    && (HasData(items) ==> IsData(items[|items| - 1]))
  }

  lemma AnnouncesOne(quiet: seq<Item>, item: Item, c: byte)
    requires AllQuiet(quiet)
    ensures Announces(quiet + [item], StateOf(item, c))
  {
    var items := quiet + [item];
    assert items[|quiet|] == item;
    assert items[..|items| - 1] == quiet;
    assert forall i | 0 <= i < |quiet| :: items[i] in quiet;
  }

  lemma AnnouncesRows(quiet: seq<Item>, item: Item, rows: seq<RowValue>)
    requires AllQuiet(quiet) && (item.RowItem? || item.BadItem?)
    ensures Announces((quiet + [item]) + AsItems(rows), DataBatch) && NoReady(quiet + [item])
  {
    var items := (quiet + [item]) + AsItems(rows);
    assert forall i | 0 <= i < |items| :: items[i] in quiet || items[i] == item || items[i].RowItem?;
    assert items[|quiet|] == item;
    assert rows != [] ==> items[|items| - 1] == AsItems(rows)[|rows| - 1];
  }
}
