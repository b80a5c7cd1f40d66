/** Parameters are put into a query in two passes: question marks become numbered markers,
    and a second lexer replaces the markers by SQL literals. When the second pass reads what
    the first one meant. */
module Params {
  import opened Options
  import opened Decimals

  // ----- the shared lexical grammar --------------------------------------------------------

  /** Where the scanners are: outside, in a text literal, a quoted name, or a comment. */
  datatype State = Outside | InText | InName | InLine | InBlock

  /** Without a parameter: the next state, and how many characters (one or two) are copied. */
  function Lex(st: State, s: string): (r: (State, nat))
    requires s != ""
    ensures 1 <= r.1 <= 2 && r.1 <= |s|
  {
    var c := s[0];
    var next := if |s| > 1 then Some(s[1]) else None;
    match st
    case Outside =>
      if c == '\'' then (InText, 1)
      else if c == '"' then (InName, 1)
      else if c == '-' && next == Some('-') then (InLine, 2)
      else if c == '/' && next == Some('*') then (InBlock, 2)
      else (Outside, 1)
    case InText => if c == '\'' then if next == Some('\'') then (InText, 2) else (Outside, 1) else (InText, 1)
    case InName => if c == '"' then (Outside, 1) else (InName, 1)
    case InLine => if c == '\n' then (Outside, 1) else (InLine, 1)
    case InBlock => if c == '*' && next == Some('/') then (Outside, 2) else (InBlock, 1)
  }

  /** Digits outside ASCII: which characters `isdigit` accepts, and their value if `int`
      knows one. */
  datatype Unicode = Unicode(isDigit: char -> bool, value: char -> Option<Ten>)

  type Ten = x: int | 0 <= x < 10

  predicate IsDig(u: Unicode, c: char) { IsDigit(c) || (c >= 128 as char && u.isDigit(c)) }

  function DigitOf(u: Unicode, c: char): Option<Ten> {
    if IsDigit(c) then Some(c as int - '0' as int) else u.value(c)
  }

  /** `int(s)` for a run of digits. */
  function RunValue(u: Unicode, s: string): Option<nat> {
    if s == "" then Some(0)
    else
      match RunValue(u, s[..|s| - 1])
      case None => None
      case Some(v) =>
        match DigitOf(u, s[|s| - 1])
        case None => None
        case Some(d) => Some(10 * v + d)
  }

  function RunLength(u: Unicode, s: string): (n: nat)
    ensures n <= |s| && (n < |s| ==> !IsDig(u, s[n]))
    ensures forall i :: 0 <= i < n ==> IsDig(u, s[i])
  {
    if s == "" || !IsDig(u, s[0]) then 0 else 1 + RunLength(u, s[1..])
  }

  // ----- pieces ------------------------------------------------------------------------------

  /** A query is characters and parameters; a marker that is no number has no index. */
  datatype Piece = Char(c: char) | Param(index: Option<nat>)

  function Copied(s: string): (p: seq<Piece>)
    ensures |p| == |s|
  {
    seq(|s|, i requires 0 <= i < |s| => Char(s[i]))
  }

  /** What the caller means: the question marks outside are the parameters, in order. */
  function Meant(st: State, q: string, count: nat): seq<Piece>
    decreases |q|
  {
    if q == "" then []
    else if st == Outside && q[0] == '?' then [Param(Some(count + 1))] + Meant(Outside, q[1..], count + 1)
    else
      var (st', n) := Lex(st, q);
      Copied(q[..n]) + Meant(st', q[n..], count)
  }

  function Marks(st: State, q: string): nat
    decreases |q|
  {
    if q == "" then 0
    else if st == Outside && q[0] == '?' then 1 + Marks(Outside, q[1..])
    else Marks(Lex(st, q).0, q[Lex(st, q).1..])
  }

  /** What the first pass prints. */
  function Converted(st: State, q: string, count: nat): string
    decreases |q|
  {
    if q == "" then ""
    else if st == Outside && q[0] == '?' then ("$" + NatText(count + 1)) + Converted(Outside, q[1..], count + 1)
    else
      var (st', n) := Lex(st, q);
      q[..n] + Converted(st', q[n..], count)
  }

  predicate AtMarker(u: Unicode, st: State, s: string) {
    st == Outside && |s| > 1 && s[0] == '$' && IsDig(u, s[1])
  }

  /** What the second pass reads. */
  function Read(u: Unicode, st: State, s: string): seq<Piece>
    decreases |s|
  {
    if s == "" then []
    else if AtMarker(u, st, s) then
      var j := 1 + RunLength(u, s[1..]);
      [Param(RunValue(u, s[1..j]))] + Read(u, Outside, s[j..])
    else
      var (st', n) := Lex(st, s);
      Copied(s[..n]) + Read(u, st', s[n..])
  }

  /** Outside literals, names and comments there is no `$` in front of a digit, and no
      question mark is followed by a digit. */
  predicate Clean(u: Unicode, st: State, q: string)
    decreases |q|
  {
    if q == "" then true
    else if st == Outside && q[0] == '?' then !(|q| > 1 && IsDig(u, q[1])) && Clean(u, Outside, q[1..])
    else !AtMarker(u, st, q) && Clean(u, Lex(st, q).0, q[Lex(st, q).1..])
  }

  // ----- the second pass reads what was meant, exactly on clean queries ----------------------

  /** The first character the first pass prints: the same, or `$` for a question mark. */
  lemma FirstConverted(st: State, q: string, count: nat)
    requires q != ""
    ensures var t := Converted(st, q, count);
            t != "" && t[0] == if st == Outside && q[0] == '?' then '$' else q[0]
  {
    if !(st == Outside && q[0] == '?') {
      var n := Lex(st, q).1;
      assert Converted(st, q, count)[0] == q[..n][0];
    }
  }

  /** Away from question marks both passes take the same step. */
  lemma SameStep(u: Unicode, st: State, q: string, count: nat)
    requires q != "" && !(st == Outside && q[0] == '?')
    ensures var t := Converted(st, q, count); var (st', n) := Lex(st, q);
            && t != "" && Lex(st, t) == (st', n) && t[..n] == q[..n] && t[n..] == Converted(st', q[n..], count)
            && (AtMarker(u, st, t) <==> AtMarker(u, st, q))
  {
    var t := Converted(st, q, count);
    var (st', n) := Lex(st, q);
    assert t == q[..n] + Converted(st', q[n..], count);
    if n == 1 && |q| > 1 {
      FirstConverted(st', q[1..], count);
      assert t[1] == Converted(st', q[1..], count)[0];
    } else if n == 2 {
      assert t[0] == q[0] && t[1] == q[1];
    }
  }

  lemma {:induction false} RunJoin(u: Unicode, a: string, b: string)
    requires AllDigits(a)
    ensures RunLength(u, a + b) == |a| + RunLength(u, b)
  {
    if a == "" {
      assert a + b == b;
    } else {
      assert (a + b)[1..] == a[1..] + b;
      RunJoin(u, a[1..], b);
    }
  }

  lemma {:induction false} RunAscii(u: Unicode, s: string)
    requires AllDigits(s)
    ensures RunValue(u, s) == Some(DigitsValue(s))
  {
    if s != "" {
      RunAscii(u, s[..|s| - 1]);
    }
  }

  /** More digits are another number. */
  lemma {:induction false} RunGrows(u: Unicode, a: string, more: string)
    requires AllDigits(a) && DigitsValue(a) >= 1
    ensures var v := RunValue(u, a + more); v.Some? ==> v.value >= DigitsValue(a) && (more != "" ==> v.value > DigitsValue(a))
    decreases |more|
  {
    if more == "" {
      assert a + more == a;
      RunAscii(u, a);
    } else {
      assert (a + more)[..|a + more| - 1] == a + more[..|more| - 1];
      RunGrows(u, a, more[..|more| - 1]);
    }
  }

  lemma ReadsMarker(u: Unicode, s: string, i: nat)
    requires i < |s| && AtMarker(u, Outside, s[i..])
    ensures var j := i + 1 + RunLength(u, s[i + 1..]);
            j <= |s| && Read(u, Outside, s[i..]) == [Param(RunValue(u, s[i + 1..j]))] + Read(u, Outside, s[j..])
  {
    var here := s[i..];
    var j := i + 1 + RunLength(u, s[i + 1..]);
    assert here[1..] == s[i + 1..] && here[1..j - i] == s[i + 1..j] && here[j - i..] == s[j..];
  }

  lemma MarkerRun(u: Unicode, t: string, d: string, rest: string)
    requires d != "" && AllDigits(d) && t == ("$" + d) + rest
    ensures AtMarker(u, Outside, t) && t[1..] == d + rest
    ensures RunLength(u, t[1..]) == |d| + RunLength(u, rest)
  {
    assert t[0] == '$' && t[1] == d[0] && IsDigit(d[0]);
    assert t[1..] == d + rest;
    RunJoin(u, d, rest);
  }

  lemma MarkerSlices(d: string, rest: string, m: nat)
    requires m <= |rest|
    ensures var t := ("$" + d) + rest; t[1..1 + |d| + m] == d + rest[..m] && t[1 + |d| + m..] == rest[m..]
  {
  }

  lemma ReadsSplit(u: Unicode, t: string, digits: string, more: string)
    requires AtMarker(u, Outside, t) && RunLength(u, t[1..]) == |digits| < |t|
    requires t[1..1 + |digits|] == digits && t[1 + |digits|..] == more
    ensures Read(u, Outside, t) == [Param(RunValue(u, digits))] + Read(u, Outside, more)
  {
  }

  lemma MarkerTaken(u: Unicode, t: string, d: string, rest: string)
    requires d != "" && AllDigits(d) && t == ("$" + d) + rest
    ensures var m := RunLength(u, rest);
            Read(u, Outside, t) == [Param(RunValue(u, d + rest[..m]))] + Read(u, Outside, rest[m..])
  {
    var m := RunLength(u, rest);
    MarkerRun(u, t, d, rest);
    MarkerSlices(d, rest, m);
    ReadsSplit(u, t, d + rest[..m], rest[m..]);
  }

  /** The marker of the `k`th question mark is read as parameter `k` unless a digit follows. */
  lemma MarkerRead(u: Unicode, k: nat, rest: string)
    requires k >= 1
    ensures var p := Read(u, Outside, ("$" + NatText(k)) + rest);
            if rest != "" && IsDig(u, rest[0]) then p != [] && p[0] != Param(Some(k))
            else p == [Param(Some(k))] + Read(u, Outside, rest)
  {
    var m := RunLength(u, rest);
    MarkerTaken(u, ("$" + NatText(k)) + rest, NatText(k), rest);
    NatTextRead(k);
    if rest != "" && IsDig(u, rest[0]) {
      RunGrows(u, NatText(k), rest[..m]);
    } else {
      RunAscii(u, NatText(k));
      assert NatText(k) + rest[..0] == NatText(k);
    }
  }

  lemma SameFront<T>(front: seq<T>, a: seq<T>, b: seq<T>)
    ensures front + a == front + b <==> a == b
  {
    if front + a == front + b {
      assert (front + a)[|front|..] == a && (front + b)[|front|..] == b;
    }
  }

  /** The second pass reads the pieces the caller meant if and only if the query is clean. */
  lemma {:induction false} SecondPassReadsFirst(u: Unicode, st: State, q: string, count: nat)
    ensures Read(u, st, Converted(st, q, count)) == Meant(st, q, count) <==> Clean(u, st, q)
    decreases |q|
  {
    if q == "" {
    } else if st == Outside && q[0] == '?' {
      var rest := Converted(Outside, q[1..], count + 1);
      MarkerRead(u, count + 1, rest);
      if |q| > 1 {
        FirstConverted(Outside, q[1..], count + 1);
      }
      SecondPassReadsFirst(u, Outside, q[1..], count + 1);
      SameFront([Param(Some(count + 1))], Read(u, Outside, rest), Meant(Outside, q[1..], count + 1));
    } else {
      SameStep(u, st, q, count);
      var (st', n) := Lex(st, q);
      if AtMarker(u, st, q) {
        assert Meant(st, q, count)[0] == Char('$');
      } else {
        SecondPassReadsFirst(u, st', q[n..], count);
        SameFront(Copied(q[..n]), Read(u, st', Converted(st', q[n..], count)), Meant(st', q[n..], count));
      }
    }
  }

  // ----- rendering -----------------------------------------------------------------------------

  /** The text with the literals in place and the largest parameter number used, or the first
      failure: a marker that is no number, a parameter that was not supplied, or a value that
      has no literal (`None` in the arguments). */
  datatype Rendered = Good(text: string, maxIndex: nat) | BadInteger | NoParameter(index: nat) | NoLiteral(index: nat)

  function Fill(pieces: seq<Piece>, args: seq<Option<string>>, maxIndex: nat): Rendered {
    if pieces == [] then Good("", maxIndex)
    else
      match pieces[0]
      case Char(c) => Behind([c], Fill(pieces[1..], args, maxIndex))
      case Param(None) => BadInteger
      case Param(Some(k)) =>
        if k == 0 || k > |args| then NoParameter(k)
        else if args[k - 1].None? then NoLiteral(k)
        else Behind(args[k - 1].value, Fill(pieces[1..], args, if k > maxIndex then k else maxIndex))
  }

  function Behind(front: string, r: Rendered): Rendered { if r.Good? then r.(text := front + r.text) else r }

  lemma BehindTwice(a: string, b: string, r: Rendered)
    ensures Behind(a, Behind(b, r)) == Behind(a + b, r)
    ensures Behind("", r) == r && Behind(a, Good("", 0)) == Good(a, 0)
  {
    if r.Good? {
      assert a + (b + r.text) == (a + b) + r.text;
      assert "" + r.text == r.text;
    }
    assert a + "" == a;
  }

  lemma {:induction false} FillCopied(s: string, pieces: seq<Piece>, args: seq<Option<string>>, maxIndex: nat)
    ensures Fill(Copied(s) + pieces, args, maxIndex) == Behind(s, Fill(pieces, args, maxIndex))
  {
    if s == "" {
      assert Copied(s) + pieces == pieces;
      BehindTwice("", "", Fill(pieces, args, maxIndex));
    } else {
      assert (Copied(s) + pieces)[1..] == Copied(s[1..]) + pieces;
      FillCopied(s[1..], pieces, args, maxIndex);
      BehindTwice([s[0]], s[1..], Fill(pieces, args, maxIndex));
      assert [s[0]] + s[1..] == s;
    }
  }

  // ----- the two scanners ------------------------------------------------------------------------

  /** One step of either scanner that copies: the branches on the state. */
  method CopyStep(st: State, s: string, i: nat) returns (st': State, n: nat)
    requires i < |s|
    ensures (st', n) == Lex(st, s[i..])
  {
    var c := s[i];
    var next := if i + 1 < |s| then Some(s[i + 1]) else None;
    assert s[i..][0] == c && (i + 1 < |s| ==> s[i..][1] == s[i + 1]);
    st', n := st, 1;
    if st == Outside {
      if c == '\'' {
        st' := InText;
      } else if c == '"' {
        st' := InName;
      } else if c == '-' && next == Some('-') {
        st', n := InLine, 2;
      } else if c == '/' && next == Some('*') {
        st', n := InBlock, 2;
      }
    } else if st == InText {
      if c == '\'' {
        if next == Some('\'') {
          n := 2;
        } else {
          st' := Outside;
        }
      }
    } else if st == InName {
      if c == '"' {
        st' := Outside;
      }
    } else if st == InLine {
      if c == '\n' {
        st' := Outside;
      }
    } else {
      if c == '*' && next == Some('/') {
        st', n := Outside, 2;
      }
    }
  }

  /** `convert_paramstyle` in the qmark style. */
  method ConvertQmark(query: string) returns (output: string)
    ensures output == Converted(Outside, query, 0)
  {
    output := "";
    var st, i, count := Outside, 0, 0;
    assert query[0..] == query && "" + Converted(Outside, query, 0) == Converted(Outside, query, 0);
    while i < |query|
      invariant i <= |query| && Converted(Outside, query, 0) == output + Converted(st, query[i..], count)
    {
      assert query[i..][0] == query[i];
      ghost var rest := Converted(st, query[i..], count);
      if st == Outside && query[i] == '?' {
        count := count + 1;
        assert query[i..][1..] == query[i + 1..];
        assert rest == ("$" + NatText(count)) + Converted(Outside, query[i + 1..], count);
        Regroup(output, "$" + NatText(count), Converted(Outside, query[i + 1..], count));
        output := output + ("$" + NatText(count));
        i := i + 1;
      } else {
        var st', n := CopyStep(st, query, i);
        assert query[i..][..n] == query[i..i + n] && query[i..][n..] == query[i + n..];
        Regroup(output, query[i..i + n], Converted(st', query[i + n..], count));
        output := output + query[i..i + n];
        st, i := st', i + n;
      }
    }
    assert output + "" == output;
  }

  lemma Regroup(a: string, b: string, c: string)
    ensures a + (b + c) == (a + b) + c
  {
  }

  /** What is left to fill from position `i` on. */
  function FillFrom(u: Unicode, st: State, s: string, i: nat, args: seq<Option<string>>, maxIndex: nat): Rendered
    requires i <= |s|
  {
    Fill(Read(u, st, s[i..]), args, maxIndex)
  }

  /** A marker in front of `more`, filled in. */
  function FillMarker(index: Option<nat>, more: seq<Piece>, args: seq<Option<string>>, maxIndex: nat): Rendered {
    match index
    case None => BadInteger
    case Some(k) =>
      if k == 0 || k > |args| then NoParameter(k)
      else if args[k - 1].None? then NoLiteral(k)
      else Behind(args[k - 1].value, Fill(more, args, if k > maxIndex then k else maxIndex))
  }

  lemma FillsMarker(index: Option<nat>, more: seq<Piece>, args: seq<Option<string>>, maxIndex: nat)
    ensures Fill([Param(index)] + more, args, maxIndex) == FillMarker(index, more, args, maxIndex)
  {
    assert ([Param(index)] + more)[1..] == more;
  }

  lemma MarkerStep(u: Unicode, s: string, i: nat, args: seq<Option<string>>, maxIndex: nat)
    requires i < |s| && AtMarker(u, Outside, s[i..])
    ensures var j := i + 1 + RunLength(u, s[i + 1..]);
            j <= |s| && FillFrom(u, Outside, s, i, args, maxIndex) ==
                        FillMarker(RunValue(u, s[i + 1..j]), Read(u, Outside, s[j..]), args, maxIndex)
  {
    var j := i + 1 + RunLength(u, s[i + 1..]);
    ReadsMarker(u, s, i);
    FillsMarker(RunValue(u, s[i + 1..j]), Read(u, Outside, s[j..]), args, maxIndex);
  }

  lemma ReadsCopied(u: Unicode, st: State, s: string, i: nat)
    requires i < |s| && !AtMarker(u, st, s[i..])
    ensures var (st', n) := Lex(st, s[i..]);
            Read(u, st, s[i..]) == Copied(s[i..i + n]) + Read(u, st', s[i + n..])
  {
    var n := Lex(st, s[i..]).1;
    assert s[i..][..n] == s[i..i + n] && s[i..][n..] == s[i + n..];
  }

  lemma CopiedStep(u: Unicode, st: State, s: string, i: nat, args: seq<Option<string>>, maxIndex: nat)
    requires i < |s| && !AtMarker(u, st, s[i..])
    ensures var (st', n) := Lex(st, s[i..]);
            FillFrom(u, st, s, i, args, maxIndex) == Behind(s[i..i + n], FillFrom(u, st', s, i + n, args, maxIndex))
  {
    var (st', n) := Lex(st, s[i..]);
    ReadsCopied(u, st, s, i);
    FillCopied(s[i..i + n], Read(u, st', s[i + n..]), args, maxIndex);
  }

  /** At a marker: its literal, or the failure. */
  method TakeMarker(u: Unicode, s: string, i: nat, args: seq<Option<string>>, maxIndex: nat)
    returns (failure: Option<Rendered>, literal: string, j: nat, maxIndex': nat)
    requires i < |s| && AtMarker(u, Outside, s[i..])
    ensures i < j <= |s|
    ensures failure.Some? ==> !failure.value.Good? && FillFrom(u, Outside, s, i, args, maxIndex) == failure.value
    ensures failure == None ==>
              FillFrom(u, Outside, s, i, args, maxIndex) == Behind(literal, FillFrom(u, Outside, s, j, args, maxIndex'))
  {
    failure, literal, maxIndex' := None, "", maxIndex;
    MarkerStep(u, s, i, args, maxIndex);
    j := RunEnd(u, s, i + 1);
    var index := RunValue(u, s[i + 1..j]);
    if index.None? {
      failure := Some(BadInteger);
    } else if index.value <= 0 || index.value > |args| {
      failure := Some(NoParameter(index.value));
    } else if args[index.value - 1].None? {
      failure := Some(NoLiteral(index.value));
    } else {
      maxIndex' := if index.value > maxIndex then index.value else maxIndex;
      literal := args[index.value - 1].value;
    }
  }

  method TakeCopied(u: Unicode, st: State, s: string, i: nat, ghost args: seq<Option<string>>, ghost maxIndex: nat)
    returns (st': State, j: nat)
    requires i < |s| && !AtMarker(u, st, s[i..])
    ensures i < j <= |s|
    ensures FillFrom(u, st, s, i, args, maxIndex) == Behind(s[i..j], FillFrom(u, st', s, j, args, maxIndex))
  {
    CopiedStep(u, st, s, i, args, maxIndex);
    var n;
    st', n := CopyStep(st, s, i);
    j := i + n;
  }

  /** `render_prepared_statement`; `args` are the SQL literals of the values. */
  method RenderPrepared(u: Unicode, statement: string, args: seq<Option<string>>) returns (r: Rendered)
    ensures r == Fill(Read(u, Outside, statement), args, 0)
  {
    var output := "";
    var st, i, maxIndex: nat := Outside, 0, 0;
    assert statement[0..] == statement;
    BehindTwice("", "", FillFrom(u, st, statement, 0, args, 0));
    while i < |statement|
      invariant i <= |statement|
      invariant FillFrom(u, Outside, statement, 0, args, 0) == Behind(output, FillFrom(u, st, statement, i, args, maxIndex))
    {
      if st == Outside && statement[i] == '$' && i + 1 < |statement| && IsDig(u, statement[i + 1]) {
        var failure, literal, j, maxIndex' := TakeMarker(u, statement, i, args, maxIndex);
        if failure.Some? { return failure.value; }
        BehindTwice(output, literal, FillFrom(u, Outside, statement, j, args, maxIndex'));
        output, i, maxIndex := output + literal, j, maxIndex';
      } else {
        var st', j := TakeCopied(u, st, statement, i, args, maxIndex);
        BehindTwice(output, statement[i..j], FillFrom(u, st', statement, j, args, maxIndex));
        output, st, i := output + statement[i..j], st', j;
      }
    }
    assert output + "" == output;
    r := Good(output, maxIndex);
  }

  /** The end of a run of digits. */
  method RunEnd(u: Unicode, s: string, from: nat) returns (j: nat)
    requires from <= |s|
    ensures j == from + RunLength(u, s[from..]) && j <= |s|
  {
    j := from;
    while j < |s| && IsDig(u, s[j])
      invariant from <= j <= |s| && from + RunLength(u, s[from..]) == j + RunLength(u, s[j..])
    {
      assert s[j..][0] == s[j] && s[j..][1..] == s[j + 1..];
      j := j + 1;
    }
    assert j < |s| ==> s[j..][0] == s[j];
  }

  // ----- direct substitution -----------------------------------------------------------------------

  /** The query with the literal of the next argument for each question mark outside. */
  function Substituted(st: State, q: string, args: seq<string>): string
    requires Marks(st, q) <= |args|
    decreases |q|
  {
    if q == "" then ""
    else if st == Outside && q[0] == '?' then args[0] + Substituted(Outside, q[1..], args[1..])
    else
      var (st', n) := Lex(st, q);
      q[..n] + Substituted(st', q[n..], args)
  }

  function Literals(args: seq<string>): (r: seq<Option<string>>)
    ensures |r| == |args|
  {
    seq(|args|, i requires 0 <= i < |args| => Some(args[i]))
  }

  lemma {:induction false} FillMeant(st: State, q: string, count: nat, args: seq<string>)
    requires count <= |args|
    ensures var r := Fill(Meant(st, q, count), Literals(args), count);
            if count + Marks(st, q) <= |args| then r == Good(Substituted(st, q, args[count..]), count + Marks(st, q))
            else r == NoParameter(|args| + 1)
    decreases |q|
  {
    if q == "" {
    } else if st == Outside && q[0] == '?' {
      var rest := Meant(Outside, q[1..], count + 1);
      assert ([Param(Some(count + 1))] + rest)[1..] == rest;
      if count < |args| {
        FillMeant(Outside, q[1..], count + 1, args);
        assert args[count..][0] == args[count] && args[count..][1..] == args[count + 1..];
      }
    } else {
      var (st', n) := Lex(st, q);
      FillCopied(q[..n], Meant(st', q[n..], count), Literals(args), count);
      FillMeant(st', q[n..], count, args);
    }
  }

  /** Two passes are direct substitution, on clean queries with enough arguments: the `i`th
      question mark outside becomes the `i`th literal, everything else is copied, nothing in a
      literal is read again, and the largest index is the number of question marks. */
  lemma TwoPassesSubstitute(u: Unicode, q: string, args: seq<string>)
    requires Clean(u, Outside, q)
    ensures var r := Fill(Read(u, Outside, Converted(Outside, q, 0)), Literals(args), 0);
            if Marks(Outside, q) <= |args| then r == Good(Substituted(Outside, q, args), Marks(Outside, q))
            else r == NoParameter(|args| + 1)
  {
    SecondPassReadsFirst(u, Outside, q, 0);
    FillMeant(Outside, q, 0, args);
    assert args[0..] == args;
  }

  lemma {:induction false} NoMarks(st: State, q: string, count: nat)
    requires Marks(st, q) == 0
    ensures Converted(st, q, count) == q && Substituted(st, q, []) == q
    decreases |q|
  {
    if q != "" {
      var (st', n) := Lex(st, q);
      NoMarks(st', q[n..], count);
      assert q[..n] + q[n..] == q;
    }
  }

  /** What `Prepare` does with a query: both passes and the check of the number of values. */
  function Prepared(u: Unicode, q: string, args: seq<string>): Option<string> {
    var statement := Converted(Outside, q, 0);
    var r := Fill(Read(u, Outside, statement), Literals(args), 0);
    if !r.Good? || |args| != r.maxIndex then None
    else if r.maxIndex == 0 then Some(statement)
    else Some(r.text)
  }

  /** What it should do: direct substitution when there is a value for every question mark
      and no more. */
  function Wanted(q: string, args: seq<string>): Option<string> {
    if |args| == Marks(Outside, q) then Some(Substituted(Outside, q, args)) else None
  }

  /** `Prepare`. On a clean query it succeeds if and only if there is a value for every
      question mark and no more. */
  method Prepare(u: Unicode, query: string, args: seq<string>) returns (r: Option<string>)
    ensures r == Prepared(u, query, args)
    ensures Clean(u, Outside, query) ==> r == Wanted(query, args)
  {
    var statement := ConvertQmark(query);
    var rendered := RenderPrepared(u, statement, Literals(args));
    if Clean(u, Outside, query) {
      CleanIsWanted(u, query, args);
    }
    if !rendered.Good? { return None; }
    if |args| != rendered.maxIndex { return None; }
    if rendered.maxIndex == 0 { return Some(statement); }
    return Some(rendered.text);
  }

  lemma CleanIsWanted(u: Unicode, q: string, args: seq<string>)
    requires Clean(u, Outside, q)
    ensures Prepared(u, q, args) == Wanted(q, args)
  {
    TwoPassesSubstitute(u, q, args);
    if |args| == Marks(Outside, q) == 0 {
      NoMarks(Outside, q, 0);
      assert args == [];
    }
  }

  /** Digits outside are copied, so a run of them is the same before and after the first pass. */
  lemma {:induction false} DigitsKept(u: Unicode, q: string, count: nat)
    ensures var m := RunLength(u, q); var t := Converted(Outside, q, count);
            RunLength(u, t) == m && m <= |t| && t[m..] == Converted(Outside, q[m..], count)
    decreases |q|
  {
    var t := Converted(Outside, q, count);
    if q != "" {
      FirstConverted(Outside, q, count);
      if IsDig(u, q[0]) {
        assert Lex(Outside, q) == (Outside, 1);
        assert t == q[..1] + Converted(Outside, q[1..], count);
        assert t[1..] == Converted(Outside, q[1..], count);
        DigitsKept(u, q[1..], count);
        var m := RunLength(u, q[1..]);
        assert q[1..][m..] == q[m + 1..] && t[1..][m..] == t[m + 1..];
      }
    }
  }

  /** A marker, and the digits that are read along with it. */
  lemma MarkerSwallows(u: Unicode, q: string, count: nat, k: nat)
    requires k >= 1
    ensures var m := RunLength(u, q); var s := ("$" + NatText(k)) + Converted(Outside, q, count);
            |Read(u, Outside, s)| == 1 + |Read(u, Outside, Converted(Outside, q[m..], count))|
  {
    NatTextRead(k);
    MarkerTaken(u, ("$" + NatText(k)) + Converted(Outside, q, count), NatText(k), Converted(Outside, q, count));
    DigitsKept(u, q, count);
  }

  /** A `$` of the query in front of digits, likewise. */
  lemma DollarSwallows(u: Unicode, q: string, count: nat)
    requires AtMarker(u, Outside, q)
    ensures var j := 1 + RunLength(u, q[1..]); var s := Converted(Outside, q, count);
            2 <= j <= |q| && |Read(u, Outside, s)| == 1 + |Read(u, Outside, Converted(Outside, q[j..], count))|
  {
    var s := Converted(Outside, q, count);
    SameStep(u, Outside, q, count);
    assert Lex(Outside, q) == (Outside, 1) && s[1..] == Converted(Outside, q[1..], count);
    DigitsKept(u, q[1..], count);
    var m := RunLength(u, q[1..]);
    assert s[1..][m..] == s[m + 1..] && q[1..][m..] == q[m + 1..];
  }

  lemma CopiesAsMany(u: Unicode, st: State, q: string, count: nat)
    requires q != "" && !(st == Outside && q[0] == '?') && !AtMarker(u, st, q)
    ensures var (st', n) := Lex(st, q);
            |Read(u, st, Converted(st, q, count))| == n + |Read(u, st', Converted(st', q[n..], count))|
  {
    SameStep(u, st, q, count);
  }

  /** The second pass reads one piece for each character of the query, exactly when the query
      is clean; otherwise it reads fewer. */
  lemma {:induction false} FewerPieces(u: Unicode, st: State, q: string, count: nat)
    ensures |Read(u, st, Converted(st, q, count))| <= |q|
    ensures |Read(u, st, Converted(st, q, count))| == |q| <==> Clean(u, st, q)
    decreases |q|
  {
    if q == "" {
    } else if st == Outside && q[0] == '?' {
      var m := RunLength(u, q[1..]);
      MarkerSwallows(u, q[1..], count + 1, count + 1);
      assert q[1..][m..] == q[m + 1..];
      FewerPieces(u, Outside, q[m + 1..], count + 1);
      assert m == 0 <==> !(|q| > 1 && IsDig(u, q[1]));
    } else if AtMarker(u, st, q) {
      DollarSwallows(u, q, count);
      FewerPieces(u, Outside, q[1 + RunLength(u, q[1..])..], count);
    } else {
      var (st', n) := Lex(st, q);
      CopiesAsMany(u, st, q, count);
      FewerPieces(u, st', q[n..], count);
    }
  }

  predicate Single(args: seq<string>) { forall i :: 0 <= i < |args| ==> |args[i]| == 1 }

  /** With one-character literals the text is as long as its pieces. */
  lemma {:induction false} FillLength(pieces: seq<Piece>, args: seq<string>, maxIndex: nat)
    requires Single(args)
    ensures var r := Fill(pieces, Literals(args), maxIndex); r.Good? ==> |r.text| == |pieces|
    decreases |pieces|
  {
    if pieces != [] && (pieces[0].Char? || pieces[0].index.Some?) {
      var k := if pieces[0].Char? then 0 else pieces[0].index.value;
      FillLength(pieces[1..], args, if k > maxIndex then k else maxIndex);
    }
  }

  lemma {:induction false} SubstitutedLength(st: State, q: string, args: seq<string>)
    requires Single(args) && Marks(st, q) <= |args|
    ensures |Substituted(st, q, args)| == |q|
    decreases |q|
  {
    if q == "" {
    } else if st == Outside && q[0] == '?' {
      SubstitutedLength(Outside, q[1..], args[1..]);
    } else {
      var (st', n) := Lex(st, q);
      SubstitutedLength(st', q[n..], args);
    }
  }

  /** Without values nothing but characters can be filled in. */
  lemma {:induction false} NoValuesNoMarkers(u: Unicode, st: State, s: string, maxIndex: nat)
    requires Fill(Read(u, st, s), [], maxIndex).Good?
    ensures |Read(u, st, s)| == |s|
    decreases |s|
  {
    if s != "" && !AtMarker(u, st, s) {
      var (st', n) := Lex(st, s);
      FillCopied(s[..n], Read(u, st', s[n..]), [], maxIndex);
      NoValuesNoMarkers(u, st', s[n..], maxIndex);
    }
  }

  /** On a query that is not clean, values with one-character literals are misplaced. */
  lemma UncleanIsNotWanted(u: Unicode, q: string, args: seq<string>)
    requires !Clean(u, Outside, q) && Single(args) && |args| == Marks(Outside, q)
    ensures Prepared(u, q, args) != Wanted(q, args)
  {
    var statement := Converted(Outside, q, 0);
    var r := Fill(Read(u, Outside, statement), Literals(args), 0);
    FewerPieces(u, Outside, q, 0);
    SubstitutedLength(Outside, q, args);
    FillLength(Read(u, Outside, statement), args, 0);
    if r.Good? && |args| == r.maxIndex == 0 {
      NoMarks(Outside, q, 0);
      assert Literals(args) == [];
      NoValuesNoMarkers(u, Outside, statement, 0);
    }
  }

  /** The two passes and the count check are direct substitution for every choice of values if
      and only if the query is clean. */
  lemma PrepareExactly(u: Unicode, q: string)
    ensures (forall args :: Prepared(u, q, args) == Wanted(q, args)) <==> Clean(u, Outside, q)
  {
    if Clean(u, Outside, q) {
      forall args
        ensures Prepared(u, q, args) == Wanted(q, args)
      {
        CleanIsWanted(u, q, args);
      }
    } else {
      UncleanIsNotWanted(u, q, seq(Marks(Outside, q), _ => "x"));
    }
  }
}
