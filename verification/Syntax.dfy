/** What is outside in a query, by the syntax of the things a question mark can hide in: line
    and block comments, quoted names and text literals. A query built of these and of marks
    gets its values at its marks. */
module Syntax {
  import opened Options
  import opened Params

  /** The lexer goes through `s`, with `q` behind it, from `st` to `st'`, and meets no mark and
      no `$` outside. */
  predicate Passes(st: State, s: string, q: string, st': State)
    decreases |s|
  {
    if s == "" then st == st'
    else
      && (st == Outside ==> s[0] != '?' && s[0] != '$')
      && var (st1, n) := Lex(st, s + q);
         n <= |s| && Passes(st1, s[n..], q, st')
  }

  lemma Slices(s: string, q: string, n: nat)
    requires n <= |s|
    ensures (s + q)[..n] == s[..n] && (s + q)[n..] == s[n..] + q && s[..n] + s[n..] == s
  {
  }

  lemma PassesOne(st: State, s: string, q: string, st': State)
    requires s != "" && Passes(st, s, q, st')
    ensures var (st1, n) := Lex(st, s + q);
            && n <= |s| && Passes(st1, s[n..], q, st')
            && (s + q)[..n] == s[..n] && (s + q)[n..] == s[n..] + q && (s + q)[0] == s[0] && s[..n] + s[n..] == s
  {
    Slices(s, q, Lex(st, s + q).1);
  }

  lemma CopiedInTwo(s: string, n: nat, more: seq<Piece>)
    requires n <= |s|
    ensures Copied(s[..n]) + (Copied(s[n..]) + more) == Copied(s) + more
  {
  }

  lemma MeantOne(st: State, t: string, count: nat)
    requires t != "" && !(st == Outside && t[0] == '?')
    ensures var (st1, n) := Lex(st, t); Meant(st, t, count) == Copied(t[..n]) + Meant(st1, t[n..], count)
  {
  }

  /** Then `s` is text: no mark is in it, ... */
  lemma {:induction false} PassedMeant(st: State, s: string, q: string, st': State, count: nat)
    requires Passes(st, s, q, st')
    ensures Meant(st, s + q, count) == Copied(s) + Meant(st', q, count)
    decreases |s|
  {
    if s == "" {
      assert s + q == q && Copied(s) + Meant(st', q, count) == Meant(st', q, count);
    } else {
      var (st1, n) := Lex(st, s + q);
      PassesOne(st, s, q, st');
      MeantOne(st, s + q, count);
      PassedMeant(st1, s[n..], q, st', count);
      CopiedInTwo(s, n, Meant(st', q, count));
    }
  }

  /** ... no marker of its own, ... */
  lemma {:induction false} PassedMarks(u: Unicode, st: State, s: string, q: string, st': State)
    requires Passes(st, s, q, st')
    ensures Marks(st, s + q) == Marks(st', q) && (Clean(u, st, s + q) <==> Clean(u, st', q))
    decreases |s|
  {
    if s == "" {
      assert s + q == q;
    } else {
      var (st1, n) := Lex(st, s + q);
      PassesOne(st, s, q, st');
      PassedMarks(u, st1, s[n..], q, st');
    }
  }

  /** ... and no value is put into it. */
  lemma {:induction false} PassedValues(st: State, s: string, q: string, st': State, args: seq<string>)
    requires Passes(st, s, q, st') && Marks(st', q) <= |args| && Marks(st, s + q) <= |args|
    ensures Substituted(st, s + q, args) == s + Substituted(st', q, args)
    decreases |s|
  {
    if s == "" {
      assert s + q == q;
    } else {
      var (st1, n) := Lex(st, s + q);
      PassesOne(st, s, q, st');
      PassedValues(st1, s[n..], q, st', args);
      Regroup(s[..n], s[n..], Substituted(st', q, args));
    }
  }

  lemma PassesMore(st: State, a: string, s: string, q: string, st1: State, st': State)
    requires a != "" && (st == Outside ==> a[0] != '?' && a[0] != '$')
    requires Lex(st, (a + s) + q) == (st1, |a|) && Passes(st1, s, q, st')
    ensures Passes(st, a + s, q, st')
  {
    assert (a + s)[|a|..] == s;
  }

  // ----- the constructs ----------------------------------------------------------------------

  lemma {:induction false} LineBody(c: string, q: string)
    requires '\n' !in c
    ensures Passes(InLine, c + "\n", q, Outside)
  {
    if c == "" {
      assert c + "\n" == "\n" && ("\n" + q)[0] == '\n';
    } else {
      LineBody(c[1..], q);
      assert [c[0]] + (c[1..] + "\n") == c + "\n";
      assert ((c + "\n") + q)[0] == c[0];
      PassesMore(InLine, [c[0]], c[1..] + "\n", q, InLine, Outside);
    }
  }

  /** A line comment ends behind its line feed. */
  lemma LineComment(c: string, q: string)
    requires '\n' !in c
    ensures Passes(Outside, "--" + (c + "\n"), q, Outside)
  {
    LineBody(c, q);
    var s := ("--" + (c + "\n")) + q;
    assert s[0] == '-' && s[1] == '-';
    PassesMore(Outside, "--", c + "\n", q, InLine, Outside);
  }

  predicate Holds(s: string, a: char, b: char) { exists i :: 0 <= i < |s| - 1 && s[i] == a && s[i + 1] == b }

  lemma {:induction false} BlockBody(c: string, q: string)
    requires !Holds(c + "*", '*', '/')
    ensures Passes(InBlock, c + "*/", q, Outside)
  {
    if c == "" {
      assert c + "*/" == "*/" && ("*/" + q)[0] == '*' && ("*/" + q)[1] == '/';
      assert "*/"[2..] == "";
    } else {
      assert (c + "*")[0] == c[0] && (c + "*")[1] == (c[1..] + "*")[0];
      assert forall i | 0 <= i < |c| :: (c[1..] + "*")[i] == (c + "*")[i + 1];
      BlockBody(c[1..], q);
      assert [c[0]] + (c[1..] + "*/") == c + "*/";
      var s := (c + "*/") + q;
      assert s[0] == c[0] && s[1] == (c + "*")[1];
      PassesMore(InBlock, [c[0]], c[1..] + "*/", q, InBlock, Outside);
    }
  }

  /** A block comment ends behind the first `*` and `/` after it; it does not nest. */
  lemma BlockComment(c: string, q: string)
    requires !Holds(c + "*", '*', '/')
    ensures Passes(Outside, "/*" + (c + "*/"), q, Outside)
  {
    BlockBody(c, q);
    var s := ("/*" + (c + "*/")) + q;
    assert s[0] == '/' && s[1] == '*';
    PassesMore(Outside, "/*", c + "*/", q, InBlock, Outside);
  }

  lemma {:induction false} NameBody(name: string, q: string)
    requires '"' !in name
    ensures Passes(InName, name + "\"", q, Outside)
  {
    if name == "" {
      assert name + "\"" == "\"" && ("\"" + q)[0] == '"';
    } else {
      NameBody(name[1..], q);
      assert [name[0]] + (name[1..] + "\"") == name + "\"";
      assert ((name + "\"") + q)[0] == name[0];
      PassesMore(InName, [name[0]], name[1..] + "\"", q, InName, Outside);
    }
  }

  lemma QuotedName(name: string, q: string)
    requires '"' !in name
    ensures Passes(Outside, "\"" + (name + "\""), q, Outside)
  {
    NameBody(name, q);
    assert (("\"" + (name + "\"")) + q)[0] == '"';
    PassesMore(Outside, "\"", name + "\"", q, InName, Outside);
  }

  /** Apostrophes inside a text literal are written twice. */
  function Twice(value: string): string {
    if value == "" then "" else (if value[0] == '\'' then "''" else [value[0]]) + Twice(value[1..])
  }

  lemma {:induction false} TextBody(value: string, q: string)
    requires q == "" || q[0] != '\''
    ensures Passes(InText, Twice(value) + "'", q, Outside)
  {
    if value == "" {
      assert Twice(value) + "'" == "'" && ("'" + q)[0] == '\'' && (q != "" ==> ("'" + q)[1] == q[0]);
    } else {
      TextBody(value[1..], q);
      var front := if value[0] == '\'' then "''" else [value[0]];
      assert front + (Twice(value[1..]) + "'") == Twice(value) + "'";
      var s := (Twice(value) + "'") + q;
      assert s[0] == front[0] && (|front| == 2 ==> s[1] == front[1]);
      PassesMore(InText, front, Twice(value[1..]) + "'", q, InText, Outside);
    }
  }

  lemma TextLiteral(value: string, q: string)
    requires q == "" || q[0] != '\''
    ensures Passes(Outside, "'" + (Twice(value) + "'"), q, Outside)
  {
    TextBody(value, q);
    assert (("'" + (Twice(value) + "'")) + q)[0] == '\'';
    PassesMore(Outside, "'", Twice(value) + "'", q, InText, Outside);
  }

  // ----- constructs that the query ends in ---------------------------------------------------

  lemma {:induction false} OpenLineBody(c: string)
    requires '\n' !in c
    ensures Passes(InLine, c, "", InLine)
  {
    if c != "" {
      OpenLineBody(c[1..]);
      assert [c[0]] + c[1..] == c && (c + "")[0] == c[0];
      PassesMore(InLine, [c[0]], c[1..], "", InLine, InLine);
    }
  }

  lemma {:induction false} OpenBlockBody(c: string)
    requires !Holds(c, '*', '/')
    ensures Passes(InBlock, c, "", InBlock)
  {
    if c != "" {
      assert forall i | 0 <= i < |c| - 1 :: c[1..][i] == c[i + 1];
      OpenBlockBody(c[1..]);
      assert [c[0]] + c[1..] == c && c + "" == c;
      PassesMore(InBlock, [c[0]], c[1..], "", InBlock, InBlock);
    }
  }

  lemma {:induction false} OpenNameBody(c: string)
    requires '"' !in c
    ensures Passes(InName, c, "", InName)
  {
    if c != "" {
      OpenNameBody(c[1..]);
      assert [c[0]] + c[1..] == c && (c + "")[0] == c[0];
      PassesMore(InName, [c[0]], c[1..], "", InName, InName);
    }
  }

  lemma {:induction false} OpenTextBody(value: string)
    ensures Passes(InText, Twice(value), "", InText)
  {
    if value != "" {
      OpenTextBody(value[1..]);
      var front := if value[0] == '\'' then "''" else [value[0]];
      assert front + Twice(value[1..]) == Twice(value);
      var s := Twice(value) + "";
      assert s[0] == front[0] && (|front| == 2 ==> s[1] == front[1]);
      PassesMore(InText, front, Twice(value[1..]), "", InText, InText);
    }
  }

  /** A character that opens nothing, with `q` behind it. */
  predicate Opens(c: char, q: string) {
    c == '\'' || c == '"' || (q != "" && ((c == '-' && q[0] == '-') || (c == '/' && q[0] == '*')))
  }

  lemma OneCharacter(c: char, q: string)
    requires c != '?' && c != '$' && !Opens(c, q)
    ensures Passes(Outside, [c], q, Outside)
  {
    assert ([c] + q)[0] == c && (q != "" ==> ([c] + q)[1] == q[0]);
  }

  // ----- queries built of them ---------------------------------------------------------------

  datatype Part = Mark | Line(c: string) | Block(c: string) | Name(name: string) | Literal(value: string) | Plain(ch: char)

  function PutPart(p: Part): string {
    match p
    case Mark => "?"
    case Line(c) => "--" + (c + "\n")
    case Block(c) => "/*" + (c + "*/")
    case Name(name) => "\"" + (name + "\"")
    case Literal(value) => "'" + (Twice(value) + "'")
    case Plain(ch) => [ch]
  }

  /** How the query ends: outside, or in something that is never closed. */
  datatype End = Closed | OpenLine(c: string) | OpenBlock(c: string) | OpenName(name: string) | OpenLiteral(value: string)

  function PutEnd(e: End): string {
    match e
    case Closed => ""
    case OpenLine(c) => "--" + c
    case OpenBlock(c) => "/*" + c
    case OpenName(name) => "\"" + name
    case OpenLiteral(value) => "'" + Twice(value)
  }

  predicate EndFits(e: End) {
    match e
    case OpenLine(c) => '\n' !in c
    case OpenBlock(c) => !Holds(c, '*', '/')
    case OpenName(name) => '"' !in name
    case _ => true
  }

  function PutParts(ps: seq<Part>, e: End): string {
    if ps == [] then PutEnd(e) else PutPart(ps[0]) + PutParts(ps[1..], e)
  }

  /** The part can be written there, with `q` behind it, and a marker stays what it is. */
  predicate Fits(u: Unicode, p: Part, q: string) {
    match p
    case Mark => q == "" || !IsDig(u, q[0])
    case Line(c) => '\n' !in c
    case Block(c) => !Holds(c + "*", '*', '/')
    case Name(name) => '"' !in name
    case Literal(_) => q == "" || q[0] != '\''
    case Plain(ch) => ch != '?' && !Opens(ch, q) && (ch == '$' ==> q == "" || !IsDig(u, q[0]))
  }

  predicate AllFit(u: Unicode, ps: seq<Part>, e: End) {
    if ps == [] then EndFits(e) else Fits(u, ps[0], PutParts(ps[1..], e)) && AllFit(u, ps[1..], e)
  }

  function CountMarks(ps: seq<Part>): nat {
    if ps == [] then 0 else (if ps[0].Mark? then 1 else 0) + CountMarks(ps[1..])
  }

  /** The `i`th value at the `i`th mark, everything else as it is. */
  function WithValues(ps: seq<Part>, e: End, args: seq<string>): string
    requires CountMarks(ps) <= |args|
  {
    if ps == [] then PutEnd(e)
    else if ps[0].Mark? then args[0] + WithValues(ps[1..], e, args[1..])
    else PutPart(ps[0]) + WithValues(ps[1..], e, args)
  }

  /** What a query holds: its marks, that it is clean, and where its values go. */
  ghost predicate Understood(u: Unicode, q: string, ps: seq<Part>, e: End, args: seq<string>) {
    && Marks(Outside, q) == CountMarks(ps) && Clean(u, Outside, q)
    && (CountMarks(ps) <= |args| ==> Substituted(Outside, q, args) == WithValues(ps, e, args))
  }

  lemma PartPasses(u: Unicode, p: Part, q: string)
    requires Fits(u, p, q) && !p.Mark? && p != Plain('$')
    ensures Passes(Outside, PutPart(p), q, Outside)
  {
    match p
    case Line(c) => LineComment(c, q);
    case Block(c) => BlockComment(c, q);
    case Name(name) => QuotedName(name, q);
    case Literal(value) => TextLiteral(value, q);
    case Plain(ch) => OneCharacter(ch, q);
  }

  /** Behind each construct the query goes on outside; the construct itself is copied, whatever
      question marks and quotes it holds. */
  lemma OutsideAgain(u: Unicode, p: Part, q: string, count: nat)
    requires Fits(u, p, q) && !p.Mark?
    ensures Meant(Outside, PutPart(p) + q, count) == Copied(PutPart(p)) + Meant(Outside, q, count)
  {
    if p == Plain('$') {
      assert ("$" + q)[0] == '$' && ("$" + q)[1..] == q && ("$" + q)[..1] == "$";
    } else {
      PartPasses(u, p, q);
      PassedMeant(Outside, PutPart(p), q, Outside, count);
    }
  }

  lemma EndPasses(e: End) returns (st: State)
    requires EndFits(e) && !e.Closed?
    ensures Passes(Outside, PutEnd(e), "", st)
  {
    match e
    case OpenLine(c) =>
      st := InLine;
      OpenLineBody(c);
      assert (("--" + c) + "")[0] == '-' && (("--" + c) + "")[1] == '-';
      PassesMore(Outside, "--", c, "", InLine, InLine);
    case OpenBlock(c) =>
      st := InBlock;
      OpenBlockBody(c);
      assert (("/*" + c) + "")[0] == '/' && (("/*" + c) + "")[1] == '*';
      PassesMore(Outside, "/*", c, "", InBlock, InBlock);
    case OpenName(name) =>
      st := InName;
      OpenNameBody(name);
      assert (("\"" + name) + "")[0] == '"';
      PassesMore(Outside, "\"", name, "", InName, InName);
    case OpenLiteral(value) =>
      st := InText;
      OpenTextBody(value);
      assert (("'" + Twice(value)) + "")[0] == '\'';
      PassesMore(Outside, "'", Twice(value), "", InText, InText);
  }

  /** A comment, name or literal that is never closed holds the rest of the query. */
  lemma OpenEndIsText(e: End, count: nat)
    requires EndFits(e)
    ensures Meant(Outside, PutEnd(e), count) == Copied(PutEnd(e))
  {
    if !e.Closed? {
      var st := EndPasses(e);
      PassedMeant(Outside, PutEnd(e), "", st, count);
      assert PutEnd(e) + "" == PutEnd(e) && Copied(PutEnd(e)) + [] == Copied(PutEnd(e));
    }
  }

  lemma EndUnderstood(u: Unicode, e: End, args: seq<string>)
    requires EndFits(e)
    ensures Understood(u, PutEnd(e), [], e, args)
  {
    if !e.Closed? {
      var st := EndPasses(e);
      PassedMarks(u, Outside, PutEnd(e), "", st);
      assert PutEnd(e) + "" == PutEnd(e);
      PassedValues(Outside, PutEnd(e), "", st, args);
    }
  }

  lemma MarkUnderstood(u: Unicode, rest: string, ps: seq<Part>, e: End, args: seq<string>)
    requires ps != [] && ps[0].Mark? && Fits(u, Mark, rest)
    requires Understood(u, rest, ps[1..], e, if args == [] then [] else args[1..])
    ensures Understood(u, "?" + rest, ps, e, args)
  {
    assert ("?" + rest)[0] == '?' && ("?" + rest)[1..] == rest;
    assert rest != "" ==> ("?" + rest)[1] == rest[0];
  }

  lemma DollarUnderstood(u: Unicode, rest: string, ps: seq<Part>, e: End, args: seq<string>)
    requires ps != [] && ps[0] == Plain('$') && Fits(u, ps[0], rest) && Understood(u, rest, ps[1..], e, args)
    ensures Understood(u, "$" + rest, ps, e, args)
  {
    var q := "$" + rest;
    assert q[0] == '$' && q[1..] == rest && q[..1] == "$" && (rest != "" ==> q[1] == rest[0]);
    assert Lex(Outside, q) == (Outside, 1);
  }

  lemma {:induction false} PartsUnderstood(u: Unicode, ps: seq<Part>, e: End, args: seq<string>)
    requires AllFit(u, ps, e)
    ensures Understood(u, PutParts(ps, e), ps, e, args)
    decreases |ps|
  {
    if ps == [] {
      EndUnderstood(u, e, args);
    } else {
      var rest := PutParts(ps[1..], e);
      if ps[0].Mark? {
        PartsUnderstood(u, ps[1..], e, if args == [] then [] else args[1..]);
        MarkUnderstood(u, rest, ps, e, args);
      } else if ps[0] == Plain('$') {
        PartsUnderstood(u, ps[1..], e, args);
        DollarUnderstood(u, rest, ps, e, args);
      } else {
        PartsUnderstood(u, ps[1..], e, args);
        PartPasses(u, ps[0], rest);
        PassedMarks(u, Outside, PutPart(ps[0]), rest, Outside);
        if CountMarks(ps) <= |args| {
          PassedValues(Outside, PutPart(ps[0]), rest, Outside, args);
        }
      }
    }
  }

  /** `Prepare` on a query built of comments, names, literals, other characters and marks: with
      one value for each mark, the `i`th value stands at the `i`th mark and everything else is
      as it was written; with more or fewer values it fails. */
  lemma PreparePlaces(u: Unicode, ps: seq<Part>, e: End, args: seq<string>)
    requires AllFit(u, ps, e)
    ensures Prepared(u, PutParts(ps, e), args) == if |args| == CountMarks(ps) then Some(WithValues(ps, e, args)) else None
  {
    PartsUnderstood(u, ps, e, args);
    CleanIsWanted(u, PutParts(ps, e), args);
  }

  /** A mark below a line comment gets its value. */
  lemma MarkBelowAComment(u: Unicode)
    ensures Prepared(u, "--\n?", ["1"]) == Some("--\n1")
  {
    var ps := [Line(""), Mark];
    assert PutParts([Mark], Closed) == "?" && ps[1..] == [Mark] && [Mark][1..] == [];
    assert PutParts(ps, Closed) == "--\n?";
    assert CountMarks([Mark]) == 1 && CountMarks(ps) == 1;
    assert WithValues([Mark], Closed, ["1"]) == "1" && WithValues(ps, Closed, ["1"]) == "--\n1";
    PreparePlaces(u, ps, Closed, ["1"]);
  }
}
