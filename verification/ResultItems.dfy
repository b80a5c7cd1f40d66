/** What a result means, read one message at a time: the rows, the values that do not
    decode, and the other events, in wire order. */
module ResultItems {
  import opened Options
  import opened Wire
  import opened Messages

  /** Decoded values are opaque: any bytes stand for a row or an error. */
  type RowValue = Bytes

  type RowError = Bytes

  /** A row payload decodes, holds a value that does not decode, or is not laid out as the
      descriptor says (which retires the connection). */
  datatype Decoded = Row(row: RowValue) | BadValue(error: RowError) | BadLayout

  /** What the meaning of later messages depends on: the column descriptors (the last `X`
      and `T` payloads) and the transaction state, which is opaque here. */
  datatype Desc = Desc(dbos: Bytes, text: Bytes, tx: Bytes)

  /** The message handlers, as arbitrary functions: row decoders of descriptor and payload,
      which descriptors are well formed, the next transaction state, and whether a command
      tag reports a failed transaction. */
  datatype Decoders = Decoders(dbos: (Bytes, Bytes) -> Decoded, text: (Bytes, Bytes) -> Decoded, emptyRow: RowValue,
                               goodDbos: Bytes -> bool, goodText: Bytes -> bool,
                               nextTx: (Bytes, byte, Bytes) -> Bytes, failsTx: (Bytes, Bytes) -> bool)

  datatype Item =
    | RowItem(row: RowValue)
    | BadItem(error: RowError)
    | Describe
    | Complete(tag: Bytes)
    | ServerError(text: Bytes)
    | EmptyQuery(row: RowValue)
    | Quiet
    | Ready

  function OfDecoded(x: Decoded): Option<Item> {
    match x
    case Row(row) => Some(RowItem(row))
    case BadValue(error) => Some(BadItem(error))
    case BadLayout => None
  }

  /** The meaning of a message with code `c` and payload `p`; none for a framing fault. */
  function Interpret(dec: Decoders, d: Desc, c: byte, p: Bytes): Option<Item> {
    if IsReady(c) then Some(Ready)
    else if c == Code('Y') then OfDecoded(dec.dbos(d.dbos, p))
    else if c == Code('D') then OfDecoded(dec.text(d.text, p))
    else if c == Code('X') then if dec.goodDbos(p) then Some(Describe) else None
    else if c == Code('T') then if dec.goodText(p) then Some(Describe) else None
    else if c == Code('C') then Some(if dec.failsTx(d.tx, p) then ServerError(p) else Complete(p))
    else if c == Code('E') then Some(ServerError(p))
    else if c == Code('I') then Some(EmptyQuery(dec.emptyRow))
    else Some(Quiet)
  }

  function NextDesc(dec: Decoders, d: Desc, c: byte, p: Bytes): Desc {
    if c == Code('X') then d.(dbos := p)
    else if c == Code('T') then d.(text := p)
    else if c == Code('C') || c == Code('E') then d.(tx := dec.nextTx(d.tx, c, p))
    else d
  }

  datatype Message = Message(item: Item, d: Desc)

  /** The body of one message after its header. */
  function Body(dec: Decoders, d: Desc, c: byte, w: Bytes): (m: Parse<Message>)
    ensures m.Got? ==> |m.rest| <= |w|
  {
    var (p, r) :- Frame(c, w);
    match Interpret(dec, d, c, p)
    case None => Stuck
    case Some(item) => Got(Message(item, NextDesc(dec, d, c, p)), r)
  }

  /** One whole message. */
  function One(dec: Decoders, d: Desc, w: Bytes): (m: Parse<Message>)
    ensures m.Got? ==> |m.rest| + 5 <= |w|
  {
    var (h, r) :- Take(w, 5);
    Body(dec, d, h[0], r)
  }

  /** Everything up to and including ReadyForQuery. */
  function Items(dec: Decoders, d: Desc, w: Bytes): Parse<seq<Item>>
    decreases |w|
  {
    var (m, r) :- One(dec, d, w);
    if m.item.Ready? then Got([Ready], r) else Prepend([m.item], Items(dec, m.d, r))
  }

  function Prepend(items: seq<Item>, p: Parse<seq<Item>>): Parse<seq<Item>> {
    match p
    case Stuck => Stuck
    case Got(more, r) => Got(items + more, r)
  }

  /** Reading `items` takes the stream `w` with descriptors `d` to `w'` with `d'`. */
  ghost predicate Reads(dec: Decoders, d: Desc, w: Bytes, items: seq<Item>, d': Desc, w': Bytes)
    decreases |items|
  {
    if items == [] then d == d' && w == w'
    else
      match One(dec, d, w)
      case Stuck => false
      case Got(m, r) => m.item == items[0] && Reads(dec, m.d, r, items[1..], d', w')
  }

  function RowsOf(items: seq<Item>): seq<RowValue> {
    if items == [] then []
    else (if items[0].RowItem? || items[0].EmptyQuery? then [items[0].row] else []) + RowsOf(items[1..])
  }

  function FirstBad(items: seq<Item>): Option<RowError> {
    if items == [] then None else if items[0].BadItem? then Some(items[0].error) else FirstBad(items[1..])
  }

  /** The first of two, if there is one. */
  function First(a: Option<Bytes>, b: Option<Bytes>): Option<Bytes> { if a.Some? then a else b }

  function LastError(items: seq<Item>): Option<Bytes> {
    if items == [] then None
    else
      var later := LastError(items[1..]);
      if later.Some? then later else if items[0].ServerError? then Some(items[0].text) else None
  }

  function FirstError(items: seq<Item>): Option<Bytes> {
    if items == [] then None else if items[0].ServerError? then Some(items[0].text) else FirstError(items[1..])
  }

  predicate NoReady(items: seq<Item>) { forall i <- items :: !i.Ready? }

  // ----- reading in parts --------------------------------------------------------------

  lemma {:induction false} RowsJoin(a: seq<Item>, b: seq<Item>)
    ensures RowsOf(a + b) == RowsOf(a) + RowsOf(b)
    ensures FirstBad(a + b) == First(FirstBad(a), FirstBad(b))
    ensures LastError(a + b) == First(LastError(b), LastError(a))
    ensures FirstError(a + b) == First(FirstError(a), FirstError(b))
  {
    if a == [] {
      assert a + b == b;
    } else {
      assert (a + b)[1..] == a[1..] + b;
      RowsJoin(a[1..], b);
    }
  }

  /** What a consumer holds: the rows, the first value error, the last server error. */
  datatype Holding = Holding(rows: seq<RowValue>, deferred: Option<RowError>, error: Option<Bytes>)

  function After(x: Holding, items: seq<Item>): Holding {
    Holding(x.rows + RowsOf(items), First(x.deferred, FirstBad(items)), First(LastError(items), x.error))
  }

  lemma AfterJoin(x: Holding, a: seq<Item>, b: seq<Item>)
    ensures After(x, a + b) == After(After(x, a), b)
    ensures After(x, []) == x
  {
    RowsJoin(a, b);
  }

  lemma AfterOne(x: Holding, item: Item)
    ensures After(x, [item]) == match item
                                case RowItem(row) => x.(rows := x.rows + [row])
                                case EmptyQuery(row) => x.(rows := x.rows + [row])
                                case BadItem(e) => x.(deferred := First(x.deferred, Some(e)))
                                case ServerError(text) => x.(error := Some(text))
                                case _ => x
  {
    assert [item][0] == item && [item][1..] == [];
    assert RowsOf([item]) == if item.RowItem? || item.EmptyQuery? then [item.row] else [];
    assert FirstBad([item]) == if item.BadItem? then Some(item.error) else None;
    assert LastError([item]) == if item.ServerError? then Some(item.text) else None;
  }

  lemma {:induction false} ReadsJoin(dec: Decoders, d: Desc, w: Bytes, a: seq<Item>, d1: Desc, w1: Bytes,
                                     b: seq<Item>, d2: Desc, w2: Bytes)
    requires Reads(dec, d, w, a, d1, w1) && Reads(dec, d1, w1, b, d2, w2)
    ensures Reads(dec, d, w, a + b, d2, w2)
    decreases |a|
  {
    if a == [] {
      assert a + b == b;
    } else {
      var m := One(dec, d, w);
      assert (a + b)[1..] == a[1..] + b;
      ReadsJoin(dec, m.val.d, m.rest, a[1..], d1, w1, b, d2, w2);
    }
  }

  lemma ReadsOne(dec: Decoders, d: Desc, w: Bytes, item: Item, d': Desc, w': Bytes)
    ensures Reads(dec, d, w, [item], d', w') <==> One(dec, d, w) == Got(Message(item, d'), w')
  {
    assert [item][1..] == [];
    match One(dec, d, w)
    case Stuck =>
    case Got(m, r) => assert Reads(dec, m.d, r, [item][1..], d', w') <==> m.d == d' && r == w';
  }

  lemma PrependTwice(a: seq<Item>, b: seq<Item>, p: Parse<seq<Item>>)
    ensures Prepend(a, Prepend(b, p)) == Prepend(a + b, p)
    ensures Prepend([], p) == p
  {
    match p
    case Stuck =>
    case Got(more, r) =>
      assert a + (b + more) == (a + b) + more;
      assert [] + more == more;
  }

  /** Reading part of a result and then the rest is reading the result. */
  lemma {:induction false} ItemsAfter(dec: Decoders, d: Desc, w: Bytes, items: seq<Item>, d': Desc, w': Bytes)
    requires Reads(dec, d, w, items, d', w') && NoReady(items)
    ensures Items(dec, d, w) == Prepend(items, Items(dec, d', w'))
    decreases |items|
  {
    if items == [] {
      PrependTwice([], [], Items(dec, d', w'));
    } else {
      var m := One(dec, d, w);
      ItemsAfter(dec, m.val.d, m.rest, items[1..], d', w');
      PrependTwice([items[0]], items[1..], Items(dec, d', w'));
      assert [items[0]] + items[1..] == items;
    }
  }

  lemma StuckAfter(dec: Decoders, d: Desc, w: Bytes, items: seq<Item>, d': Desc, w': Bytes)
    requires Reads(dec, d, w, items, d', w') && NoReady(items)
    requires One(dec, d', w') == Stuck || Items(dec, d', w') == Stuck
    ensures Items(dec, d, w) == Stuck
  {
    ItemsAfter(dec, d, w, items, d', w');
  }

  /** Reading up to ReadyForQuery is reading the whole result. */
  lemma ReadsToReady(dec: Decoders, d: Desc, w: Bytes, items: seq<Item>, d': Desc, w': Bytes)
    requires Reads(dec, d, w, items + [Ready], d', w') && NoReady(items)
    ensures Items(dec, d, w) == Got(items + [Ready], w')
    decreases |items|
  {
    if items == [] {
      assert [] + [Ready] == [Ready];
      ReadsOne(dec, d, w, Ready, d', w');
    } else {
      var m := One(dec, d, w);
      assert (items + [Ready])[1..] == items[1..] + [Ready];
      ReadsToReady(dec, m.val.d, m.rest, items[1..], d', w');
      assert [items[0]] + (items[1..] + [Ready]) == items + [Ready];
    }
  }

  /** One more message read. */
  lemma ReadsSnoc(dec: Decoders, d0: Desc, w0: Bytes, items: seq<Item>, d: Desc, w: Bytes, item: Item, d': Desc, w': Bytes)
    requires Reads(dec, d0, w0, items, d, w) && One(dec, d, w) == Got(Message(item, d'), w')
    ensures Reads(dec, d0, w0, items + [item], d', w') && |w'| < |w|
  {
    ReadsOne(dec, d, w, item, d', w');
    ReadsJoin(dec, d0, w0, items, d, w, [item], d', w');
  }

  /** The meaning of a result and its framing end at the same byte. */
  lemma {:induction false} ItemsEndAtResultEnd(dec: Decoders, d: Desc, w: Bytes)
    ensures Items(dec, d, w).Got? ==> ResultEnd(w) == Got((), Items(dec, d, w).rest)
    decreases |w|
  {
    var h := Take(w, 5);
    if h.Got? && !IsReady(h.val[0]) {
      var m := One(dec, d, w);
      if m.Got? {
        ItemsEndAtResultEnd(dec, m.val.d, m.rest);
      }
    }
  }
}
