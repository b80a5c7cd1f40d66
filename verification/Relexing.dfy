/** The query with its parameters in place, read again by the same lexical grammar: when each
    literal stands alone and the query around it is read as it was written. */
module Relexing {
  import opened Options
  import opened Decimals
  import opened Params

  // ----- text literals -----------------------------------------------------------------------------

  function Doubled(s: string): string {
    if s == "" then "" else (if s[0] == '\'' then "''" else [s[0]]) + Doubled(s[1..])
  }

  /** `_quote_text_literal`: a NUL has no literal, because it would end the statement. */
  function QuoteText(value: string): (r: Option<string>)
    ensures r.None? <==> '\0' in value
  {
    if '\0' in value then None else Some("'" + (Doubled(value) + "'"))
  }

  /** A text literal read by the lexer above: its value, and the text where it is outside again. */
  function ReadText(s: string): Option<(string, string)>
    requires s != "" && s[0] == '\''
  {
    ReadInText(s[1..])
  }

  function ReadInText(s: string): Option<(string, string)> {
    if s == "" then None
    else
      var (st, n) := Lex(InText, s);
      if st == Outside then Some(("", s[1..]))
      else
        match ReadInText(s[n..])
        case None => None
        case Some((v, rest)) => Some(([s[0]] + v, rest))
  }

  lemma {:induction false} InTextRead(value: string, rest: string)
    ensures ReadInText(Doubled(value) + ("'" + rest)) == Some((value, rest)) <==> rest == "" || rest[0] != '\''
  {
    var s := Doubled(value) + ("'" + rest);
    if value == "" {
      assert s == "'" + rest && s[1..] == rest;
    } else {
      var more := Doubled(value[1..]) + ("'" + rest);
      InTextRead(value[1..], rest);
      assert [value[0]] + value[1..] == value;
      if value[0] == '\'' {
        assert s == "''" + more && s[2..] == more;
      } else {
        assert s == [value[0]] + more && s[1..] == more;
      }
    }
  }

  /** A text parameter is one literal with its value, whatever it contains, and the lexer is
      outside again exactly behind it, if and only if no apostrophe follows. */
  lemma TextLiteralRead(value: string, rest: string)
    requires '\0' !in value
    ensures var s := QuoteText(value).value + rest;
            && s[0] == '\''
            && (ReadText(s) == Some((value, rest)) <==> rest == "" || rest[0] != '\'')
  {
    var s := QuoteText(value).value + rest;
    assert s[1..] == Doubled(value) + ("'" + rest);
    InTextRead(value, rest);
  }

  // ----- reading the substituted query again ------------------------------------------------------

  /** The state of the lexer when it stands exactly behind the first `k` characters. */
  function StateAt(st: State, s: string, k: nat): Option<State>
    requires k <= |s|
    decreases k
  {
    if k == 0 then Some(st)
    else
      var (st', n) := Lex(st, s);
      if n > k then None else StateAt(st', s[n..], k - n)
  }

  /** A literal by itself: the lexer is outside again at its end. */
  predicate IsLiteral(a: string) { a != "" && StateAt(Outside, a, |a|) == Some(Outside) }

  predicate AllLiterals(args: seq<string>) { forall i :: 0 <= i < |args| ==> IsLiteral(args[i]) }

  /** The substituted query read again: each character of the query is read in its state, and
      each literal as if it stood alone, with whatever now follows them. */
  predicate InStep(st: State, q: string, args: seq<string>)
    requires Marks(st, q) <= |args|
    decreases |q|
  {
    if q == "" then true
    else if st == Outside && q[0] == '?' then
      var rest := Substituted(Outside, q[1..], args[1..]);
      StateAt(Outside, args[0] + rest, |args[0]|) == Some(Outside) && InStep(Outside, q[1..], args[1..])
    else
      var (st', n) := Lex(st, q);
      Lex(st, q[..n] + Substituted(st', q[n..], args)) == (st', n) && InStep(st', q[n..], args)
  }

  lemma OneTokenOn(st: State, front: string, rest: string)
    requires front != "" && Lex(st, front + rest).1 == |front|
    ensures StateAt(st, front + rest, |front + rest|) == StateAt(Lex(st, front + rest).0, rest, |rest|)
  {
    assert (front + rest)[|front|..] == rest;
  }

  /** It then ends in the state in which the query ends. */
  lemma {:induction false} InStepToTheEnd(st: State, q: string, args: seq<string>)
    requires Marks(st, q) <= |args| && AllLiterals(args) && InStep(st, q, args)
    ensures var t := Substituted(st, q, args); StateAt(st, t, |t|) == StateAt(st, q, |q|)
    decreases |q|
  {
    if q == "" {
    } else if st == Outside && q[0] == '?' {
      var rest := Substituted(Outside, q[1..], args[1..]);
      InStepToTheEnd(Outside, q[1..], args[1..]);
      StateAtJoin(Outside, args[0], rest, Outside);
    } else {
      var (st', n) := Lex(st, q);
      InStepToTheEnd(st', q[n..], args);
      OneTokenOn(st, q[..n], Substituted(st', q[n..], args));
    }
  }

  lemma {:induction false} StateAtJoin(st: State, a: string, rest: string, st': State)
    requires StateAt(st, a + rest, |a|) == Some(st')
    ensures StateAt(st, a + rest, |a + rest|) == StateAt(st', rest, |rest|)
    decreases |a|
  {
    if a == "" {
      assert a + rest == rest;
    } else {
      var n := Lex(st, a + rest).1;
      assert (a + rest)[n..] == a[n..] + rest;
      StateAtJoin(Lex(st, a + rest).0, a[n..], rest, st');
    }
  }

  /** With `d` behind it, `c` is no longer read alone. */
  predicate Sticks(st: State, c: char, d: Option<char>) {
    || (st == Outside && c == '-' && d == Some('-'))
    || (st == Outside && c == '/' && d == Some('*'))
    || (st == InText && c == '\'' && d == Some('\''))
    || (st == InBlock && c == '*' && d == Some('/'))
  }

  function First(s: string): Option<char> { if s == "" then None else Some(s[0]) }

  /** The state in which the last character is read, if it is read alone. */
  function Tail(st: State, s: string): Option<State>
    requires s != ""
    decreases |s|
  {
    var (st', n) := Lex(st, s);
    if n < |s| then Tail(st', s[n..]) else if n == 1 then Some(st) else None
  }

  /** The end of literal `a` does not stick to `d`. */
  predicate EndsBefore(a: string, d: Option<char>)
    requires a != ""
  {
    var tail := Tail(Outside, a);
    tail.Some? ==> !Sticks(tail.value, a[|a| - 1], d)
  }

  /** The first character of the substituted query. */
  function FirstOf(st: State, q: string, args: seq<string>): Option<char>
    requires Marks(st, q) <= |args| && AllLiterals(args)
  {
    if st == Outside && q != "" && q[0] == '?' then First(args[0]) else First(q)
  }

  /** No literal sticks to the character in front of it or to the one behind it. */
  predicate Seams(st: State, q: string, args: seq<string>)
    requires Marks(st, q) <= |args| && AllLiterals(args)
    decreases |q|
  {
    if q == "" then true
    else if st == Outside && q[0] == '?' then
      EndsBefore(args[0], FirstOf(Outside, q[1..], args[1..])) && Seams(Outside, q[1..], args[1..])
    else
      var (st', n) := Lex(st, q);
      && (n == 1 && st' == Outside && |q| > 1 && q[1] == '?' ==>
            assert q[1..][0] == '?' && Marks(Outside, q[1..]) >= 1;
            !Sticks(st, q[0], First(args[0])))
      && Seams(st', q[n..], args)
  }

  lemma FirstIsThat(st: State, q: string, args: seq<string>)
    requires Marks(st, q) <= |args| && AllLiterals(args)
    ensures First(Substituted(st, q, args)) == FirstOf(st, q, args)
  {
    if q != "" && !(st == Outside && q[0] == '?') {
      assert Substituted(st, q, args)[0] == q[..Lex(st, q).1][0];
    }
  }

  /** What one character is read as depends only on whether the next one sticks to it. */
  lemma ReadAlone(st: State, s: string, c: char, rest: string)
    requires s != "" && s[0] == c && Lex(st, s).1 == 1
    ensures Lex(st, [c] + rest) == Lex(st, s) <==> !Sticks(st, c, First(rest))
    ensures Sticks(st, c, First(rest)) ==> Lex(st, [c] + rest).1 == 2
  {
    var t := [c] + rest;
    assert t[0] == c && (rest != "" ==> t[1] == rest[0]);
  }

  lemma LexInside(st: State, a: string, rest: string)
    requires |a| > 1
    ensures Lex(st, a + rest) == Lex(st, a) && (a + rest)[Lex(st, a).1..] == a[Lex(st, a).1..] + rest
  {
    assert (a + rest)[0] == a[0] && (a + rest)[1] == a[1];
  }

  lemma {:induction false} LiteralThen(st: State, a: string, rest: string, end: State)
    requires a != "" && StateAt(st, a, |a|) == Some(end)
    ensures var tail := Tail(st, a);
            StateAt(st, a + rest, |a|) == Some(end) <==> (tail.Some? ==> !Sticks(tail.value, a[|a| - 1], First(rest)))
    decreases |a|
  {
    if |a| == 1 {
      ReadAlone(st, a, a[0], rest);
      assert a + rest == [a[0]] + rest;
    } else {
      var (st', n) := Lex(st, a);
      LexInside(st, a, rest);
      if n < |a| {
        LiteralThen(st', a[n..], rest, end);
      }
    }
  }

  lemma CopiedThen(st: State, q: string, args: seq<string>)
    requires q != "" && !(st == Outside && q[0] == '?') && Marks(st, q) <= |args| && AllLiterals(args)
    ensures var (st', n) := Lex(st, q);
            Lex(st, q[..n] + Substituted(st', q[n..], args)) == (st', n) <==>
            (n == 1 && st' == Outside && |q| > 1 && q[1] == '?' ==>
               assert q[1..][0] == '?' && Marks(Outside, q[1..]) >= 1;
               !Sticks(st, q[0], First(args[0])))
  {
    var (st', n) := Lex(st, q);
    var rest := Substituted(st', q[n..], args);
    if n == 1 {
      FirstIsThat(st', q[1..], args);
      assert q[..1] == [q[0]];
      ReadAlone(st, q, q[0], rest);
      assert q == [q[0]] + q[1..];
      ReadAlone(st, q, q[0], q[1..]);
    } else {
      assert (q[..n] + rest)[0] == q[0] && (q[..n] + rest)[1] == q[1];
    }
  }

  /** Reading the substituted query again stays in step with the query if and only if no
      literal sticks to a neighbour. */
  lemma {:induction false} InStepExactly(st: State, q: string, args: seq<string>)
    requires Marks(st, q) <= |args| && AllLiterals(args)
    ensures InStep(st, q, args) <==> Seams(st, q, args)
    decreases |q|
  {
    if q == "" {
    } else if st == Outside && q[0] == '?' {
      FirstIsThat(Outside, q[1..], args[1..]);
      LiteralThen(Outside, args[0], Substituted(Outside, q[1..], args[1..]), Outside);
      InStepExactly(Outside, q[1..], args[1..]);
    } else {
      var (st', n) := Lex(st, q);
      CopiedThen(st, q, args);
      InStepExactly(st', q[n..], args);
    }
  }

  lemma {:induction false} QuotedTail(value: string)
    ensures var s := Doubled(value) + "'"; StateAt(InText, s, |s|) == Some(Outside) && Tail(InText, s) == Some(InText)
  {
    var s := Doubled(value) + "'";
    if value == "" {
      assert s == "'";
    } else {
      var more := Doubled(value[1..]) + "'";
      QuotedTail(value[1..]);
      if value[0] == '\'' {
        assert s == "''" + more && s[2..] == more;
      } else {
        assert s == [value[0]] + more && s[1..] == more;
      }
    }
  }

  /** A text literal sticks exactly to apostrophes: to the closing one of a literal in front of
      it, and to any behind it. */
  lemma QuotedSeams(value: string, st: State, c: char, d: Option<char>)
    requires '\0' !in value
    ensures var a := QuoteText(value).value;
            && IsLiteral(a)
            && (Sticks(st, c, First(a)) <==> st == InText && c == '\'')
            && (EndsBefore(a, d) <==> d != Some('\''))
  {
    var a := QuoteText(value).value;
    QuotedTail(value);
    assert a[1..] == Doubled(value) + "'";
    assert Lex(Outside, a) == (InText, 1);
  }

  lemma {:induction false} DigitsTail(s: string)
    requires s != "" && AllDigits(s)
    ensures StateAt(Outside, s, |s|) == Some(Outside) && Tail(Outside, s) == Some(Outside)
  {
    assert IsDigit(s[0]) && Lex(Outside, s) == (Outside, 1);
    if |s| > 1 {
      DigitsTail(s[1..]);
    }
  }

  /** An integer sticks to a minus sign in front of it when it is negative, and to nothing
      behind it. */
  lemma NumberSeams(n: int, st: State, c: char, d: Option<char>)
    ensures var a := IntText(n);
            && IsLiteral(a)
            && (Sticks(st, c, First(a)) <==> n < 0 && st == Outside && c == '-')
            && EndsBefore(a, d)
  {
    var a := IntText(n);
    var body := NatText(if n < 0 then -n else n);
    NatTextRead(if n < 0 then -n else n);
    assert IsDigit(body[0]) && IsDigit(body[|body| - 1]);
    DigitsTail(body);
    if n < 0 {
      assert a[1..] == body && a[0] == '-' && a[1] == body[0];
      assert Lex(Outside, a) == (Outside, 1);
    }
  }

  lemma MinusSticks()
    ensures Marks(Outside, "5-?") == 1 && Substituted(Outside, "5-?", ["-1"]) == "5--1"
    ensures !InStep(Outside, "5-?", ["-1"]) && StateAt(Outside, "5--1", 3) == Some(InLine)
  {
    assert "5-?"[1..] == "-?" && "-?"[1..] == "?" && "?"[1..] == "";
    assert Substituted(Outside, "?", ["-1"]) == "-1";
    assert "-" + "-1" == "--1" && Substituted(Outside, "-?", ["-1"]) == "--1";
    assert "5" + "--1" == "5--1";
    assert "5--1"[1..] == "--1" && "--1"[2..] == "1";
  }

  lemma ApostrophesStick()
    ensures Marks(Outside, "?'x'") == 1 && Substituted(Outside, "?'x'", ["'a'"]) == "'a''x'"
    ensures !InStep(Outside, "?'x'", ["'a'"])
  {
    assert "?'x'"[1..] == "'x'" && ["'a'"][1..] == [];
    assert "'x'"[1..] == "x'" && "x'"[1..] == "'" && "'"[1..] == "";
    assert Substituted(InText, "'", []) == "'";
    assert "x" + "'" == "x'" && Substituted(InText, "x'", []) == "x'";
    assert "'" + "x'" == "'x'" && Substituted(Outside, "'x'", []) == "'x'";
    assert "'a'" + "'x'" == "'a''x'";
    assert "'a''x'"[1..] == "a''x'" && "a''x'"[1..] == "''x'";
    assert StateAt(InText, "''x'", 1) == None;
    assert StateAt(InText, "a''x'", 2) == None;
    assert StateAt(Outside, "'a''x'", 3) == None;
  }

  /** A subtraction of a negative parameter opens a comment, and a text in front of a text
      literal runs into it. */
  lemma LiteralsThatStick()
    ensures Marks(Outside, "5-?") == 1 && Substituted(Outside, "5-?", ["-1"]) == "5--1"
    ensures !InStep(Outside, "5-?", ["-1"]) && StateAt(Outside, "5--1", 3) == Some(InLine)
    ensures Marks(Outside, "?'x'") == 1 && Substituted(Outside, "?'x'", ["'a'"]) == "'a''x'"
    ensures !InStep(Outside, "?'x'", ["'a'"])
  {
    MinusSticks();
    ApostrophesStick();
  }
}
