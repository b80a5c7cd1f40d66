/** What `fetchall` answers to a response, told by the messages of the response alone. */
module Answers {
  import opened Options
  import opened Wire
  import opened Messages
  import opened Streams
  import opened DrainAgrees
  import opened ResultItems
  import opened ResultReaders
  import opened Fetching

  // ----- what a message tells, behind the messages `before` it -------------------------------

  predicate IsA(m: Msg, c: char)
    requires (c as int) < 256
  {
    m.SizedMsg? && m.code == Code(c)
  }

  /** The payload of the last message of this kind. */
  function LastPayload(ms: seq<Msg>, c: char, start: Bytes): Bytes
    requires (c as int) < 256
  {
    if ms == [] then start
    else if IsA(ms[|ms| - 1], c) then ms[|ms| - 1].payload
    else LastPayload(ms[..|ms| - 1], c, start)
  }

  /** The transaction state: each command tag and each error moves it on. */
  function TxAfter(dec: Decoders, tx: Bytes, ms: seq<Msg>): Bytes {
    if ms == [] then tx
    else
      var m, now := ms[|ms| - 1], TxAfter(dec, tx, ms[..|ms| - 1]);
      if IsA(m, 'C') || IsA(m, 'E') then dec.nextTx(now, m.code, m.payload) else now
  }

  /** A row: of the last `X` descriptor for a row message, of the last `T` descriptor for a data
      message, and the one row of an empty query. */
  function Values(dec: Decoders, d: Desc, before: seq<Msg>, m: Msg): Option<Decoded> {
    if m.RowMsg? then Some(dec.dbos(LastPayload(before, 'X', d.dbos), m.payload))
    else if IsA(m, 'D') then Some(dec.text(LastPayload(before, 'T', d.text), m.payload))
    else if IsA(m, 'I') then Some(Row(dec.emptyRow))
    else None
  }

  /** An error of the server: an error message, or the tag of a failed transaction. */
  predicate Fails(dec: Decoders, d: Desc, before: seq<Msg>, m: Msg) {
    IsA(m, 'E') || (IsA(m, 'C') && dec.failsTx(TxAfter(dec, d.tx, before), m.payload))
  }

  predicate Describes(m: Msg) { IsA(m, 'X') || IsA(m, 'T') }

  /** A row that is not laid out as described, or a malformed description. */
  predicate Faulty(dec: Decoders, d: Desc, before: seq<Msg>, m: Msg) {
    || Values(dec, d, before, m) == Some(BadLayout)
    || (IsA(m, 'X') && !dec.goodDbos(m.payload))
    || (IsA(m, 'T') && !dec.goodText(m.payload))
  }

  // ----- what a list of messages tells -------------------------------------------------------

  function RowOf(v: Option<Decoded>): seq<RowValue> { if v.Some? && v.value.Row? then [v.value.row] else [] }

  function BadOf(v: Option<Decoded>): Option<RowError> {
    if v.Some? && v.value.BadValue? then Some(v.value.error) else None
  }

  function RowsTold(dec: Decoders, d: Desc, ms: seq<Msg>): seq<RowValue> {
    if ms == [] then []
    else
      var before := ms[..|ms| - 1];
      RowsTold(dec, d, before) + RowOf(Values(dec, d, before, ms[|ms| - 1]))
  }

  function FirstBadTold(dec: Decoders, d: Desc, ms: seq<Msg>): Option<RowError> {
    if ms == [] then None
    else
      var before := ms[..|ms| - 1];
      First(FirstBadTold(dec, d, before), BadOf(Values(dec, d, before, ms[|ms| - 1])))
  }

  function LastErrorTold(dec: Decoders, d: Desc, ms: seq<Msg>): Option<Bytes> {
    if ms == [] then None
    else if Fails(dec, d, ms[..|ms| - 1], ms[|ms| - 1]) then Some(ms[|ms| - 1].payload)
    else LastErrorTold(dec, d, ms[..|ms| - 1])
  }

  /** The rows of empty queries behind the last row. */
  function RowsWaiting(dec: Decoders, ms: seq<Msg>): seq<RowValue> {
    if ms == [] || ms[|ms| - 1].RowMsg? || IsA(ms[|ms| - 1], 'D') then []
    else RowsWaiting(dec, ms[..|ms| - 1]) + (if IsA(ms[|ms| - 1], 'I') then [dec.emptyRow] else [])
  }

  predicate FailsAt(dec: Decoders, d: Desc, ms: seq<Msg>, i: nat)
    requires i < |ms|
  {
    Fails(dec, d, ms[..i], ms[i])
  }

  predicate FaultyAt(dec: Decoders, d: Desc, ms: seq<Msg>, i: nat)
    requires i < |ms|
  {
    Faulty(dec, d, ms[..i], ms[i])
  }

  /** No fault in the first `n` messages. */
  predicate Sound(dec: Decoders, d: Desc, ms: seq<Msg>, n: nat)
    requires n <= |ms|
  {
    forall i | 0 <= i < n :: !FaultyAt(dec, d, ms, i)
  }

  /** No error and no description in the first `n` messages. */
  predicate Calm(dec: Decoders, d: Desc, ms: seq<Msg>, n: nat)
    requires n <= |ms|
  {
    forall i | 0 <= i < n :: !FailsAt(dec, d, ms, i) && !Describes(ms[i])
  }

  // ----- the reader's list of messages ---------------------------------------------------------

  function DescAfter(dec: Decoders, d: Desc, ms: seq<Msg>): Desc {
    Desc(LastPayload(ms, 'X', d.dbos), LastPayload(ms, 'T', d.text), TxAfter(dec, d.tx, ms))
  }

  predicate Tells(dec: Decoders, d: Desc, before: seq<Msg>, m: Msg, item: Item) {
    var v := Values(dec, d, before, m);
    && !Faulty(dec, d, before, m) && !item.Ready?
    && (item.ServerError? <==> Fails(dec, d, before, m)) && (item.ServerError? ==> item.text == m.payload)
    && (item.Describe? <==> Describes(m))
    && (item.RowItem? <==> !IsA(m, 'I') && v.Some? && v.value.Row?) && (item.RowItem? ==> item.row == v.value.row)
    && (item.EmptyQuery? <==> IsA(m, 'I')) && (item.EmptyQuery? ==> item.row == dec.emptyRow)
    && (item.BadItem? <==> v.Some? && v.value.BadValue?) && (item.BadItem? ==> item.error == v.value.error)
    && (item.Complete? <==> IsA(m, 'C') && !Fails(dec, d, before, m)) && (item.Complete? ==> item.tag == m.payload)
  }

  lemma PayloadFront(m: Msg, r: Bytes)
    requires WellFormed(m)
    ensures Frame(CodeOf(m), PutBody(m, r)).Got? && Frame(CodeOf(m), PutBody(m, r)).rest == r
    ensures m.SizedMsg? || m.RowMsg? ==> Frame(CodeOf(m), PutBody(m, r)).val == m.payload
  {
    BodyFront(m, r);
    if m.SizedMsg? {
      SizedFront(m.payload, r);
    } else if m.RowMsg? {
      TakeFront(m.lead + Enc32(|m.payload|), m.payload + r);
      TakeFront(m.payload, r);
    }
  }

  /** The meaning the reader finds in a payload is what the message tells. */
  lemma InterpretTells(dec: Decoders, d: Desc, before: seq<Msg>, m: Msg, p: Bytes)
    requires WellFormed(m) && (m.SizedMsg? || m.RowMsg? ==> p == m.payload)
    ensures var meaning := Interpret(dec, DescAfter(dec, d, before), CodeOf(m), p);
            if Faulty(dec, d, before, m) then meaning.None? else meaning.Some? && Tells(dec, d, before, m, meaning.value)
  {
  }

  lemma NextDescTells(dec: Decoders, d: Desc, before: seq<Msg>, m: Msg, p: Bytes)
    requires WellFormed(m) && (m.SizedMsg? || m.RowMsg? ==> p == m.payload)
    ensures NextDesc(dec, DescAfter(dec, d, before), CodeOf(m), p) == DescAfter(dec, d, before + [m])
  {
    assert (before + [m])[..|before|] == before;
  }

  lemma OneTells(dec: Decoders, d: Desc, before: seq<Msg>, m: Msg, r: Bytes)
    requires WellFormed(m)
    ensures var one := One(dec, DescAfter(dec, d, before), Put(m, r));
            if Faulty(dec, d, before, m) then one == Stuck
            else one.Got? && one.rest == r && one.val.d == DescAfter(dec, d, before + [m]) && Tells(dec, d, before, m, one.val.item)
  {
    HeaderFront(m, r);
    PayloadFront(m, r);
    var p := Frame(CodeOf(m), PutBody(m, r)).val;
    InterpretTells(dec, d, before, m, p);
    NextDescTells(dec, d, before, m, p);
  }

  predicate TellsAt(dec: Decoders, d: Desc, ms: seq<Msg>, i: nat, item: Item)
    requires i < |ms|
  {
    Tells(dec, d, ms[..i], ms[i], item)
  }

  lemma OneAt(dec: Decoders, d: Desc, x: Response, k: nat)
    requires x.Ok() && k < |x.ms|
    ensures x.From(k).Ok() && x.From(k + 1).Ok()
    ensures var one := One(dec, DescAfter(dec, d, x.ms[..k]), x.From(k).Wire());
            if FaultyAt(dec, d, x.ms, k) then one == Stuck
            else one.Got? && one.rest == x.From(k + 1).Wire() && one.val.d == DescAfter(dec, d, x.ms[..k + 1])
                 && TellsAt(dec, d, x.ms, k, one.val.item)
  {
    WireFrom(x, k);
    OneTells(dec, d, x.ms[..k], x.ms[k], x.From(k + 1).Wire());
    assert x.ms[..k] + [x.ms[k]] == x.ms[..k + 1];
  }

  lemma OneAtEnd(dec: Decoders, d: Desc, x: Response)
    requires x.Ok()
    ensures One(dec, d, x.From(|x.ms|).Wire()) == Got(Message(Ready, d), x.next)
  {
    TakeFront([x.code] + x.tag, x.next);
  }

  /** The list tells the messages from number `k` on, one by one. */
  predicate TellFrom(dec: Decoders, d: Desc, ms: seq<Msg>, k: nat, read: seq<Item>) {
    k + |read| <= |ms| && forall i | 0 <= i < |read| :: TellsAt(dec, d, ms, k + i, read[i])
  }

  lemma TellCons(dec: Decoders, d: Desc, ms: seq<Msg>, k: nat, item: Item, read: seq<Item>)
    requires k < |ms| && TellsAt(dec, d, ms, k, item) && TellFrom(dec, d, ms, k + 1, read)
    ensures TellFrom(dec, d, ms, k, [item] + read)
  {
    forall i | 0 <= i < |[item] + read|
      ensures TellsAt(dec, d, ms, k + i, ([item] + read)[i])
    {
      if i > 0 {
        assert ([item] + read)[i] == read[i - 1];
        assert TellsAt(dec, d, ms, k + 1 + (i - 1), read[i - 1]);
      }
    }
  }

  /** The list is read whole and tells the messages from number `k` on. */
  predicate WholeFrom(dec: Decoders, d: Desc, ms: seq<Msg>, k: nat, next: Bytes, all: Parse<seq<Item>>) {
    && all.Got? && all.rest == next
    && all.val != [] && all.val[|all.val| - 1].Ready?
    && k + |all.val| == |ms| + 1 && TellFrom(dec, d, ms, k, all.val[..|all.val| - 1])
  }

  lemma WholeCons(dec: Decoders, d: Desc, ms: seq<Msg>, k: nat, next: Bytes, item: Item, all: Parse<seq<Item>>)
    requires k < |ms| && TellsAt(dec, d, ms, k, item) && WholeFrom(dec, d, ms, k + 1, next, all)
    ensures WholeFrom(dec, d, ms, k, next, Prepend([item], all))
  {
    TellCons(dec, d, ms, k, item, all.val[..|all.val| - 1]);
    var more := [item] + all.val;
    assert more[..|more| - 1] == [item] + all.val[..|all.val| - 1];
  }

  /** The rest of the response: read if and only if no message in it has a fault, and then
      message by message. */
  lemma {:induction false} ItemsTell(dec: Decoders, d: Desc, x: Response, k: nat)
    requires x.Ok() && k <= |x.ms| && Sound(dec, d, x.ms, k)
    ensures x.From(k).Ok()
    ensures var all := Items(dec, DescAfter(dec, d, x.ms[..k]), x.From(k).Wire());
            if Sound(dec, d, x.ms, |x.ms|) then WholeFrom(dec, d, x.ms, k, x.next, all) else all == Stuck
    decreases |x.ms| - k
  {
    if k == |x.ms| {
      OneAtEnd(dec, DescAfter(dec, d, x.ms[..k]), x);
    } else {
      OneAt(dec, d, x, k);
      if !FaultyAt(dec, d, x.ms, k) {
        ItemsTell(dec, d, x, k + 1);
        var one := One(dec, DescAfter(dec, d, x.ms[..k]), x.From(k).Wire());
        var rest := Items(dec, one.val.d, one.rest);
        if rest.Got? {
          WholeCons(dec, d, x.ms, k, x.next, one.val.item, rest);
        }
      }
    }
  }

  /** A message of a list that was read comes in front of ReadyForQuery. */
  lemma ReadsHead(dec: Decoders, d: Desc, x: Response, k: nat, read: seq<Item>, d': Desc, w': Bytes)
    requires x.Ok() && k <= |x.ms| && x.From(k).Ok() && read != [] && NoReady(read)
    requires Reads(dec, DescAfter(dec, d, x.ms[..k]), x.From(k).Wire(), read, d', w')
    ensures k < |x.ms| && x.From(k + 1).Ok() && TellsAt(dec, d, x.ms, k, read[0]) && NoReady(read[1..])
    ensures Reads(dec, DescAfter(dec, d, x.ms[..k + 1]), x.From(k + 1).Wire(), read[1..], d', w')
  {
    assert read[0] in read && forall item <- read[1..] :: item in read;
    if k == |x.ms| {
      OneAtEnd(dec, DescAfter(dec, d, x.ms[..k]), x);
    } else {
      OneAt(dec, d, x, k);
    }
  }

  /** Part of a response, read message by message. */
  lemma {:induction false} ReadsTell(dec: Decoders, d: Desc, x: Response, k: nat, n: nat, read: seq<Item>, d': Desc, w': Bytes)
    requires x.Ok() && k <= |x.ms| && x.From(k).Ok() && n == k + |read|
    requires Reads(dec, DescAfter(dec, d, x.ms[..k]), x.From(k).Wire(), read, d', w') && NoReady(read)
    ensures TellFrom(dec, d, x.ms, k, read) && x.From(n).Ok() && w' == x.From(n).Wire()
    decreases |read|
  {
    if read != [] {
      ReadsHead(dec, d, x, k, read, d', w');
      ReadsTell(dec, d, x, k + 1, n, read[1..], d', w');
      TellCons(dec, d, x.ms, k, read[0], read[1..]);
      assert [read[0]] + read[1..] == read;
    }
  }

  // ----- rows and errors of the list, told by the messages --------------------------------------

  lemma TellLast(dec: Decoders, d: Desc, ms: seq<Msg>, read: seq<Item>)
    requires TellFrom(dec, d, ms, 0, read) && read != []
    ensures var n := |read| - 1;
            TellFrom(dec, d, ms, 0, read[..n]) && TellsAt(dec, d, ms, n, read[n]) && read[..n] + [read[n]] == read
  {
    assert TellsAt(dec, d, ms, 0 + (|read| - 1), read[|read| - 1]);
  }

  lemma LoneRow(dec: Decoders, d: Desc, before: seq<Msg>, m: Msg, item: Item)
    requires Tells(dec, d, before, m, item)
    ensures RowsOf([item]) == RowOf(Values(dec, d, before, m)) && FirstBad([item]) == BadOf(Values(dec, d, before, m))
  {
    assert [item][1..] == [];
  }

  lemma OneMoreTold(dec: Decoders, d: Desc, ms: seq<Msg>, n: nat)
    requires n < |ms|
    ensures RowsTold(dec, d, ms[..n + 1]) == RowsTold(dec, d, ms[..n]) + RowOf(Values(dec, d, ms[..n], ms[n]))
    ensures FirstBadTold(dec, d, ms[..n + 1]) == First(FirstBadTold(dec, d, ms[..n]), BadOf(Values(dec, d, ms[..n], ms[n])))
  {
    assert ms[..n + 1][..n] == ms[..n];
  }

  lemma {:induction false} RowsTell(dec: Decoders, d: Desc, ms: seq<Msg>, read: seq<Item>)
    requires TellFrom(dec, d, ms, 0, read)
    ensures RowsOf(read) == RowsTold(dec, d, ms[..|read|]) && FirstBad(read) == FirstBadTold(dec, d, ms[..|read|])
    decreases |read|
  {
    if read != [] {
      var n := |read| - 1;
      TellLast(dec, d, ms, read);
      RowsTell(dec, d, ms, read[..n]);
      RowsJoin(read[..n], [read[n]]);
      LoneRow(dec, d, ms[..n], ms[n], read[n]);
      OneMoreTold(dec, d, ms, n);
    }
  }

  lemma {:induction false} WaitingTell(dec: Decoders, d: Desc, ms: seq<Msg>, read: seq<Item>)
    requires TellFrom(dec, d, ms, 0, read)
    ensures Waiting(read) == RowsWaiting(dec, ms[..|read|])
    decreases |read|
  {
    if read != [] {
      var n := |read| - 1;
      TellLast(dec, d, ms, read);
      WaitingTell(dec, d, ms, read[..n]);
      assert ms[..n + 1][..n] == ms[..n];
      LoneRow(dec, d, ms[..n], ms[n], read[n]);
    }
  }

  lemma CalmMore(dec: Decoders, d: Desc, ms: seq<Msg>, front: seq<Item>, item: Item)
    requires |front| < |ms| && TellsAt(dec, d, ms, |front|, item)
    ensures Undisturbed(front + [item]) <==> Undisturbed(front) && !FailsAt(dec, d, ms, |front|) && !Describes(ms[|front|])
  {
    var all := front + [item];
    assert forall i | 0 <= i < |front| :: all[i] == front[i];
    assert all[|front|] == item;
    if Undisturbed(all) {
      assert item in all && forall it <- front :: it in all;
    } else if Undisturbed(front) {
      assert forall it <- all :: it in front || it == item;
    }
  }

  lemma {:induction false} CalmTell(dec: Decoders, d: Desc, ms: seq<Msg>, read: seq<Item>)
    requires TellFrom(dec, d, ms, 0, read)
    ensures Undisturbed(read) <==> Calm(dec, d, ms, |read|)
    ensures Sound(dec, d, ms, |read|)
    decreases |read|
  {
    if read != [] {
      TellLast(dec, d, ms, read);
      CalmTell(dec, d, ms, read[..|read| - 1]);
      CalmMore(dec, d, ms, read[..|read| - 1], read[|read| - 1]);
    }
  }

  lemma {:induction false} ErrorTell(dec: Decoders, d: Desc, ms: seq<Msg>, read: seq<Item>)
    requires TellFrom(dec, d, ms, 0, read)
    ensures LastError(read) == LastErrorTold(dec, d, ms[..|read|])
    decreases |read|
  {
    if read != [] {
      var n := |read| - 1;
      TellLast(dec, d, ms, read);
      ErrorTell(dec, d, ms, read[..n]);
      RowsJoin(read[..n], [read[n]]);
      assert ms[..n + 1][..n] == ms[..n] && LastError([read[n]][1..]) == None;
    }
  }

  // ----- fetchall --------------------------------------------------------------------------------

  /** The first error of the server is message `i`, and no description is in front of it. */
  predicate ErrorAt(dec: Decoders, d: Desc, x: Response, p: Bytes, i: nat) {
    i < |x.ms| && FailsAt(dec, d, x.ms, i) && Calm(dec, d, x.ms, i) && x.ms[i].payload == p
  }

  /** The first description is message `i`; no error is in front of it, and what is left is
      behind it. */
  ghost predicate NextAt(dec: Decoders, d: Desc, x: Response, unread: Bytes, i: nat) {
    && i < |x.ms| && Describes(x.ms[i]) && Calm(dec, d, x.ms, i) && Sound(dec, d, x.ms, i + 1)
    && x.From(i + 1).Ok() && unread == x.From(i + 1).Wire()
  }

  /** The rows given and the rows kept, of the first `n` messages. */
  predicate Given(dec: Decoders, d: Desc, x: Response, n: nat, cached: seq<RowValue>, rows: seq<RowValue>, left: seq<RowValue>)
    requires n <= |x.ms|
  {
    rows + left == cached + RowsTold(dec, d, x.ms[..n]) && left == RowsWaiting(dec, x.ms[..n])
  }

  /** No fault, no error and no description in the whole response. */
  predicate Clear(dec: Decoders, d: Desc, x: Response) {
    Sound(dec, d, x.ms, |x.ms|) && Calm(dec, d, x.ms, |x.ms|)
  }

  /** The answer the messages of `x` call for, behind a bookkeeping that held the value error
      `deferred` and the rows `cached`; `left` are the rows kept for later and `unread` the
      bytes that stay on the wire. */
  ghost predicate Answers(dec: Decoders, d: Desc, x: Response, deferred: Option<RowError>, cached: seq<RowValue>,
                          f: Fetched, left: seq<RowValue>, unread: Bytes)
  {
    match f
    case ServerFailure(p) =>
      Sound(dec, d, x.ms, |x.ms|) && unread == x.next && exists i: nat :: ErrorAt(dec, d, x, p, i)
    case NextResult(rows) =>
      exists i: nat :: NextAt(dec, d, x, unread, i) && Given(dec, d, x, i, cached, rows, left)
    case ValueFailure(e) =>
      Clear(dec, d, x) && unread == x.next && First(deferred, FirstBadTold(dec, d, x.ms)) == Some(e)
    case Rows(rows) =>
      && Clear(dec, d, x) && unread == x.next && First(deferred, FirstBadTold(dec, d, x.ms)) == None
      && Given(dec, d, x, |x.ms|, cached, rows, left)
    case ReadFailure(_) => !Sound(dec, d, x.ms, |x.ms|)
  }

  lemma SplitAtReady(read: seq<Item>)
    requires read != [] && read[|read| - 1].Ready?
    ensures var front := read[..|read| - 1];
            RowsOf(read) == RowsOf(front) && FirstBad(read) == FirstBad(front) && Waiting(read) == Waiting(front)
            && (Undisturbed(read) <==> Undisturbed(front))
  {
    var front := read[..|read| - 1];
    assert read == front + [Ready];
    RowsJoin(front, [Ready]);
    assert forall item <- read :: item in front || item == Ready;
    assert forall item <- front :: item in read;
  }

  lemma AnswersAtReady(dec: Decoders, d: Desc, x: Response, deferred: Option<RowError>, cached: seq<RowValue>, f: Fetched,
                       left: seq<RowValue>, read: seq<Item>)
    requires x.Ok() && WholeFrom(dec, d, x.ms, 0, x.next, Got(read, x.next)) && (f.Rows? || f.ValueFailure?)
    requires FetchedRight(f, read, deferred)
    requires f.Rows? ==> f.rows + left == cached + RowsOf(read) && left == Waiting(read)
    ensures Answers(dec, d, x, deferred, cached, f, left, x.next)
  {
    var front := read[..|read| - 1];
    SplitAtReady(read);
    RowsTell(dec, d, x.ms, front);
    WaitingTell(dec, d, x.ms, front);
    CalmTell(dec, d, x.ms, front);
    assert x.ms[..|x.ms|] == x.ms;
  }

  lemma AnswersError(dec: Decoders, d: Desc, x: Response, deferred: Option<RowError>, cached: seq<RowValue>, f: Fetched,
                     left: seq<RowValue>, read: seq<Item>)
    requires x.Ok() && WholeFrom(dec, d, x.ms, 0, x.next, Got(read, x.next)) && f.ServerFailure?
    requires FetchedRight(f, read, deferred)
    ensures Answers(dec, d, x, deferred, cached, f, left, x.next)
  {
    var front := read[..|read| - 1];
    var k: nat :| FirstErrorAt(read, f.text, k);
    assert !read[k].Ready?;
    assert front[..k] == read[..k] && TellsAt(dec, d, x.ms, 0 + k, front[k]);
    assert TellFrom(dec, d, x.ms, 0, front[..k]) by {
      assert forall i | 0 <= i < k :: front[..k][i] == front[i];
    }
    CalmTell(dec, d, x.ms, front[..k]);
    CalmTell(dec, d, x.ms, front);
    assert ErrorAt(dec, d, x, f.text, k);
  }

  lemma AnswersNextResult(dec: Decoders, d: Desc, x: Response, deferred: Option<RowError>, cached: seq<RowValue>, f: Fetched,
                          left: seq<RowValue>, read: seq<Item>)
    requires x.Ok() && TellFrom(dec, d, x.ms, 0, read) && f.NextResult? && FetchedRight(f, read, deferred)
    requires f.rows + left == cached + RowsOf(read) && left == Waiting(read)
    requires x.From(|read|).Ok()
    ensures Answers(dec, d, x, deferred, cached, f, left, x.From(|read|).Wire())
  {
    var n := |read| - 1;
    TellLast(dec, d, x.ms, read);
    CalmTell(dec, d, x.ms, read[..n]);
    CalmTell(dec, d, x.ms, read);
    assert NextAt(dec, d, x, x.From(|read|).Wire(), n);
    GivenInFront(dec, d, x, read, cached, f.rows, left);
  }

  lemma GivenInFront(dec: Decoders, d: Desc, x: Response, read: seq<Item>, cached: seq<RowValue>, rows: seq<RowValue>,
                     left: seq<RowValue>)
    requires TellFrom(dec, d, x.ms, 0, read) && read != [] && read[|read| - 1].Describe?
    requires rows + left == cached + RowsOf(read) && left == Waiting(read)
    ensures Given(dec, d, x, |read| - 1, cached, rows, left)
  {
    TellLast(dec, d, x.ms, read);
    NothingInDescription(read);
    RowsTell(dec, d, x.ms, read[..|read| - 1]);
    WaitingTell(dec, d, x.ms, read[..|read| - 1]);
  }

  lemma NothingInDescription(read: seq<Item>)
    requires read != [] && read[|read| - 1].Describe?
    ensures RowsOf(read) == RowsOf(read[..|read| - 1]) && Waiting(read) == Waiting(read[..|read| - 1])
  {
    var n := |read| - 1;
    assert read[..n] + [read[n]] == read && RowsOf([read[n]]) == [];
    RowsJoin(read[..n], [read[n]]);
  }

  /** `fetchall` in front of a whole response, in any pieces and with the batch fast path or
      without it: unless a receive fails, it answers what the messages tell. It stands behind
      ReadyForQuery, or behind the description of the next result set. */
  method FetchResponse(reader: ResultReader, ghost x: Response) returns (f: Fetched)
    requires reader.Valid() && reader.stream.open && reader.error == None
    requires x.Ok() && reader.Unread() == x.Wire()
    modifies reader, reader.stream, reader.stream.buffer
    ensures reader.Valid()
    ensures f.ReadFailure? ==> reader.stream.faulted || !Sound(reader.dec, old(reader.desc), x.ms, |x.ms|)
    ensures !f.ReadFailure? ==> Answers(reader.dec, old(reader.desc), x, old(reader.deferred), old(reader.cachedRows), f,
                                        reader.cachedRows, reader.Unread())
  {
    ghost var dec, d, read := reader.dec, reader.desc, [];
    assert x.ms[..0] == [] && x.From(0) == x;
    ItemsTell(dec, d, x, 0);
    f, read := FetchAll(reader);
    if f.NextResult? {
      ReadsTell(dec, d, x, 0, |read|, read, reader.desc, reader.Unread());
      AnswersNextResult(dec, d, x, old(reader.deferred), old(reader.cachedRows), f, reader.cachedRows, read);
    } else if f.ServerFailure? {
      AnswersError(dec, d, x, old(reader.deferred), old(reader.cachedRows), f, reader.cachedRows, read);
    } else if !f.ReadFailure? {
      AnswersAtReady(dec, d, x, old(reader.deferred), old(reader.cachedRows), f, reader.cachedRows, read);
    }
  }

  lemma OneFront<T>(a: seq<T>, b: seq<T>, c: seq<T>)
    requires a + c == b + c
    ensures a == b
  {
    assert a == (a + c)[..|a|] && b == (b + c)[..|b|];
  }

  /** Message `i` is the first error or description. */
  predicate IsStop(dec: Decoders, d: Desc, ms: seq<Msg>, i: nat) {
    i < |ms| && Calm(dec, d, ms, i) && (FailsAt(dec, d, ms, i) || Describes(ms[i]))
  }

  lemma OneStop(dec: Decoders, d: Desc, ms: seq<Msg>, i: nat, j: nat)
    requires IsStop(dec, d, ms, i)
    ensures !Calm(dec, d, ms, |ms|) && (IsStop(dec, d, ms, j) ==> i == j)
    ensures !(FailsAt(dec, d, ms, i) && Describes(ms[i]))
  {
  }

  /** What kind of answer it is depends on the first stop. */
  lemma AnswerAtStop(dec: Decoders, d: Desc, x: Response, deferred: Option<RowError>, cached: seq<RowValue>, f: Fetched,
                     left: seq<RowValue>, unread: Bytes, i: nat)
    requires x.Ok() && !f.ReadFailure? && Answers(dec, d, x, deferred, cached, f, left, unread) && IsStop(dec, d, x.ms, i)
    ensures if FailsAt(dec, d, x.ms, i) then f == ServerFailure(x.ms[i].payload) && unread == x.next
            else f.NextResult? && NextAt(dec, d, x, unread, i) && Given(dec, d, x, i, cached, f.rows, left)
  {
    OneStop(dec, d, x.ms, i, i);
    if f.ServerFailure? {
      var j: nat :| ErrorAt(dec, d, x, f.text, j);
      OneStop(dec, d, x.ms, i, j);
    } else if f.NextResult? {
      var j: nat :| NextAt(dec, d, x, unread, j) && Given(dec, d, x, j, cached, f.rows, left);
      OneStop(dec, d, x.ms, i, j);
    }
  }

  lemma AnswerWithoutStop(dec: Decoders, d: Desc, x: Response, deferred: Option<RowError>, cached: seq<RowValue>, f: Fetched,
                          left: seq<RowValue>, unread: Bytes)
    requires x.Ok() && !f.ReadFailure? && Answers(dec, d, x, deferred, cached, f, left, unread)
    requires forall i: nat :: !IsStop(dec, d, x.ms, i)
    ensures f.Rows? || f.ValueFailure?
  {
    if f.ServerFailure? {
      var i: nat :| ErrorAt(dec, d, x, f.text, i);
      assert IsStop(dec, d, x.ms, i);
    } else if f.NextResult? {
      var i: nat :| NextAt(dec, d, x, unread, i) && Given(dec, d, x, i, cached, f.rows, left);
      assert IsStop(dec, d, x.ms, i);
    }
  }

  /** The messages call for one answer only. */
  lemma OneAnswer(dec: Decoders, d: Desc, x: Response, deferred: Option<RowError>, cached: seq<RowValue>, f: Fetched,
                  left: seq<RowValue>, unread: Bytes, f': Fetched, left': seq<RowValue>, unread': Bytes)
    requires x.Ok() && !f.ReadFailure? && !f'.ReadFailure?
    requires Answers(dec, d, x, deferred, cached, f, left, unread) && Answers(dec, d, x, deferred, cached, f', left', unread')
    ensures f == f' && unread == unread' && (f.Rows? || f.NextResult? ==> left == left')
  {
    if i: nat :| IsStop(dec, d, x.ms, i) {
      AnswerAtStop(dec, d, x, deferred, cached, f, left, unread, i);
      AnswerAtStop(dec, d, x, deferred, cached, f', left', unread', i);
    } else {
      AnswerWithoutStop(dec, d, x, deferred, cached, f, left, unread);
      AnswerWithoutStop(dec, d, x, deferred, cached, f', left', unread');
    }
    if (f.Rows? && f'.Rows?) || (f.NextResult? && f'.NextResult?) {
      OneFront(f.rows, f'.rows, left);
    }
  }

  // ----- the generator run to its end ----------------------------------------------------------

  lemma HoldsTold(dec: Decoders, d: Desc, x: Response, all: Parse<seq<Item>>, h: Holding)
    requires WholeFrom(dec, d, x.ms, 0, x.next, all)
    ensures After(h, all.val) == Holding(h.rows + RowsTold(dec, d, x.ms), First(h.deferred, FirstBadTold(dec, d, x.ms)),
                                         First(LastErrorTold(dec, d, x.ms), h.error))
  {
    var front := all.val[..|all.val| - 1];
    assert x.ms[..|front|] == x.ms && all.val == front + [Ready];
    RowsTell(dec, d, x.ms, front);
    ErrorTell(dec, d, x.ms, front);
    AfterJoin(h, front, [Ready]);
    AfterOne(After(h, front), Ready);
  }

  /** The generator run to its end in front of a whole response: it holds every row, the first
      value error and the last error of the server that the messages tell, and stands behind
      ReadyForQuery. */
  method ReadResponse(reader: ResultReader, ghost x: Response) returns (r: Reply<()>)
    requires reader.Valid() && reader.stream.open && x.Ok() && reader.Unread() == x.Wire()
    modifies reader, reader.stream, reader.stream.buffer
    ensures reader.Valid()
    ensures r.Raised? ==> reader.stream.faulted || !Sound(reader.dec, old(reader.desc), x.ms, |x.ms|)
    ensures r.Value? ==>
              && Sound(reader.dec, old(reader.desc), x.ms, |x.ms|) && reader.Unread() == x.next
              && reader.cachedRows == old(reader.cachedRows) + RowsTold(reader.dec, old(reader.desc), x.ms)
              && reader.deferred == First(old(reader.deferred), FirstBadTold(reader.dec, old(reader.desc), x.ms))
              && reader.error == First(LastErrorTold(reader.dec, old(reader.desc), x.ms), old(reader.error))
  {
    ghost var dec, d, w := reader.dec, reader.desc, reader.Unread();
    assert x.ms[..0] == [] && x.From(0) == x;
    ItemsTell(dec, d, x, 0);
    r := ReadAll(reader);
    if r.Value? {
      HoldsTold(dec, d, x, Items(dec, d, w), old(reader.Held()));
    }
  }
}
