/** Identifier paths: quoting names, joining them with dots, and taking a path apart again. */
module IdentifierPaths {
  import opened Options

  /** The reserved words, and which characters outside ASCII are white space. */
  datatype Words = Words(reserved: set<string>, isSpace: char -> bool)

  predicate IsSpace(w: Words, c: char) { c in " \t\n\r" || c == 11 as char || c == 12 as char || 28 as char <= c <= 31 as char || (c >= 128 as char && w.isSpace(c)) }

  predicate IsUpper(c: char) { 'A' <= c <= 'Z' || c == '_' }

  predicate AllSimple(s: string) { forall i :: 0 <= i < |s| ==> IsUpper(s[i]) || '0' <= s[i] <= '9' }

  predicate IsRegular(s: string) { s != "" && IsUpper(s[0]) && AllSimple(s) }

  /** The regular expression ends in `$`, which also matches before a final line feed. */
  predicate MatchesSimple(s: string) {
    IsRegular(s) || (s != "" && s[|s| - 1] == '\n' && IsRegular(s[..|s| - 1]))
  }

  // ----- printing ------------------------------------------------------------------------------

  function Doubled(s: string): string {
    if s == "" then "" else (if s[0] == '"' then "\"\"" else [s[0]]) + Doubled(s[1..])
  }

  predicate IsBare(w: Words, name: string) { MatchesSimple(name) && name[0] != '_' && name !in w.reserved }

  /** `quote_netezza_ident`. */
  function Quote(w: Words, name: string): string {
    if name == "" || IsBare(w, name) then name else "\"" + (Doubled(name) + "\"")
  }

  /** The quoted names, joined with dots, and what follows. */
  function PutPath(w: Words, names: seq<string>): string
    requires names != []
  {
    if |names| == 1 then Quote(w, names[0]) else Quote(w, names[0]) + ("." + PutPath(w, names[1..]))
  }

  // ----- taking apart ----------------------------------------------------------------------------

  /** The first loop: cut at dots outside quotes. */
  function RawParts(s: string, quoted: bool, current: string): Option<seq<string>>
    decreases |s|
  {
    if s == "" then if quoted then None else Some([current])
    else if s[0] == '"' then
      if quoted && |s| > 1 && s[1] == '"' then RawParts(s[2..], quoted, current + "\"\"")
      else RawParts(s[1..], !quoted, current + "\"")
    else if s[0] == '.' && !quoted then Behind(current, RawParts(s[1..], false, ""))
    else RawParts(s[1..], quoted, current + [s[0]])
  }

  function Behind(part: string, r: Option<seq<string>>): Option<seq<string>> {
    if r.None? then None else Some([part] + r.value)
  }

  function StripFront(w: Words, s: string): string {
    if s != "" && IsSpace(w, s[0]) then StripFront(w, s[1..]) else s
  }

  function StripBack(w: Words, s: string): string {
    if s != "" && IsSpace(w, s[|s| - 1]) then StripBack(w, s[..|s| - 1]) else s
  }

  function Strip(w: Words, s: string): string { StripBack(w, StripFront(w, s)) }

  /** The inner loop: every quote inside must be doubled. */
  function Unquoted(s: string): Option<string> {
    if s == "" then Some("")
    else if s[0] == '"' then if |s| < 2 || s[1] != '"' then None else Grow('"', Unquoted(s[2..]))
    else Grow(s[0], Unquoted(s[1..]))
  }

  function Grow(c: char, r: Option<string>): Option<string> {
    if r.None? then None else Some([c] + r.value)
  }

  function PartName(w: Words, raw: string): Option<string> {
    var part := Strip(w, raw);
    if part == "" || part[0] != '"' then if '"' in part then None else Some(part)
    else if |part| < 2 || part[|part| - 1] != '"' then None
    else Unquoted(part[1..|part| - 1])
  }

  function PartNames(w: Words, raws: seq<string>): Option<seq<string>> {
    if raws == [] then Some([])
    else
      match PartName(w, raws[0])
      case None => None
      case Some(name) => Behind(name, PartNames(w, raws[1..]))
  }

  /** One to three names, of which only the middle one of three may be empty. */
  predicate IsPath(names: seq<string>) {
    && 1 <= |names| <= 3
    && ((forall i :: 0 <= i < |names| ==> names[i] != "") || (|names| == 3 && names[0] != "" && names[1] == "" && names[2] != ""))
  }

  /** `_split_identifier_path`; none for its ValueError. */
  function Split(w: Words, value: string): Option<seq<string>> {
    match RawParts(value, false, "")
    case None => None
    case Some(raws) =>
      match PartNames(w, raws)
      case None => None
      case Some(names) => if IsPath(names) then Some(names) else None
  }

  // ----- the round trip ------------------------------------------------------------------------

  lemma {:induction false} InsideQuotes(name: string, rest: string, current: string)
    requires rest == "" || rest[0] != '"'
    ensures RawParts(Doubled(name) + ("\"" + rest), true, current) == RawParts(rest, false, current + (Doubled(name) + "\""))
    decreases |name|
  {
    var s := Doubled(name) + ("\"" + rest);
    if name == "" {
      assert s == "\"" + rest && s[1..] == rest;
      assert "" + "\"" == "\"";
    } else {
      var more := Doubled(name[1..]) + ("\"" + rest);
      if name[0] == '"' {
        assert s == "\"\"" + more && s[2..] == more;
        InsideQuotes(name[1..], rest, current + "\"\"");
        assert (current + "\"\"") + (Doubled(name[1..]) + "\"") == current + (Doubled(name) + "\"");
      } else {
        assert s == [name[0]] + more && s[1..] == more;
        InsideQuotes(name[1..], rest, current + [name[0]]);
        assert (current + [name[0]]) + (Doubled(name[1..]) + "\"") == current + (Doubled(name) + "\"");
      }
    }
  }

  lemma {:induction false} BarePart(name: string, rest: string, current: string)
    requires '"' !in name && '.' !in name
    ensures RawParts(name + rest, false, current) == RawParts(rest, false, current + name)
    decreases |name|
  {
    if name == "" {
      assert name + rest == rest && current + name == current;
    } else {
      assert (name + rest)[1..] == name[1..] + rest;
      BarePart(name[1..], rest, current + [name[0]]);
      assert (current + [name[0]]) + name[1..] == current + name;
    }
  }

  lemma SimpleHasNoMarks(name: string)
    requires MatchesSimple(name)
    ensures '"' !in name && '.' !in name
  {
    forall i | 0 <= i < |name|
      ensures name[i] != '"' && name[i] != '.'
    {
      if !IsRegular(name) && i < |name| - 1 {
        assert name[..|name| - 1][i] == name[i];
      }
    }
  }

  lemma QuotedPart(name: string, rest: string)
    requires rest == "" || rest[0] == '.'
    ensures var part := "\"" + (Doubled(name) + "\""); RawParts(part + rest, false, "") == RawParts(rest, false, part)
  {
    var part := "\"" + (Doubled(name) + "\"");
    var s := part + rest;
    assert s[0] == '"' && s[1..] == Doubled(name) + ("\"" + rest);
    assert "" + "\"" == "\"";
    assert RawParts(s, false, "") == RawParts(s[1..], true, "\"");
    InsideQuotes(name, rest, "\"");
  }

  lemma PartRead(w: Words, name: string, rest: string)
    requires rest == "" || rest[0] == '.'
    ensures RawParts(Quote(w, name) + rest, false, "") == RawParts(rest, false, Quote(w, name))
  {
    if name == "" || IsBare(w, name) {
      if name != "" {
        SimpleHasNoMarks(name);
      }
      BarePart(name, rest, "");
      assert "" + name == name;
    } else {
      QuotedPart(name, rest);
    }
  }

  function Quotes(w: Words, names: seq<string>): (r: seq<string>)
    ensures |r| == |names|
  {
    if names == [] then [] else [Quote(w, names[0])] + Quotes(w, names[1..])
  }

  /** The first loop cuts the path where the names were joined. */
  lemma {:induction false} PathCut(w: Words, names: seq<string>)
    requires names != []
    ensures RawParts(PutPath(w, names), false, "") == Some(Quotes(w, names))
  {
    if |names| == 1 {
      var first := Quote(w, names[0]);
      PartRead(w, names[0], "");
      assert first + "" == first;
      assert RawParts("", false, first) == Some([first]);
      assert Quotes(w, names[1..]) == [];
      assert [first] + [] == [first];
    } else {
      var rest := "." + PutPath(w, names[1..]);
      PartRead(w, names[0], rest);
      assert rest[1..] == PutPath(w, names[1..]);
      PathCut(w, names[1..]);
    }
  }

  lemma {:induction false} UnquotedDoubled(name: string)
    ensures Unquoted(Doubled(name)) == Some(name)
  {
    if name != "" {
      UnquotedDoubled(name[1..]);
      assert [name[0]] + name[1..] == name;
      if name[0] == '"' {
        assert Doubled(name)[2..] == Doubled(name[1..]);
      } else {
        assert Doubled(name)[1..] == Doubled(name[1..]);
      }
    }
  }

  /** Printed bare although it ends in a line feed: the one kind of name that is not kept. */
  predicate LosesLineFeed(w: Words, name: string) { IsBare(w, name) && name[|name| - 1] == '\n' }

  lemma RegularIsTight(w: Words, name: string)
    requires IsRegular(name)
    ensures !IsSpace(w, name[0]) && !IsSpace(w, name[|name| - 1])
  {
  }

  lemma BareRead(w: Words, name: string)
    requires IsBare(w, name)
    ensures PartName(w, name) == Some(if LosesLineFeed(w, name) then name[..|name| - 1] else name)
  {
    SimpleHasNoMarks(name);
    var kept := if LosesLineFeed(w, name) then name[..|name| - 1] else name;
    assert IsRegular(kept) && name[0] == kept[0];
    RegularIsTight(w, kept);
    assert StripFront(w, name) == name;
    assert StripBack(w, kept) == kept;
    assert Strip(w, name) == kept;
    assert '"' !in kept;
  }

  lemma QuotesStay(w: Words, inner: string)
    ensures var part := "\"" + (inner + "\"");
            && |part| >= 2 && part[0] == '"' && part[|part| - 1] == '"' && part[1..|part| - 1] == inner && Strip(w, part) == part
  {
    var part := "\"" + (inner + "\"");
    assert part[|part| - 1] == '"' && !IsSpace(w, '"');
  }

  lemma QuotedRead(w: Words, name: string)
    requires name != "" && !IsBare(w, name)
    ensures PartName(w, Quote(w, name)) == Some(name)
  {
    var part := Quote(w, name);
    QuotesStay(w, Doubled(name));
    UnquotedDoubled(name);
  }

  function Kept(w: Words, name: string): string { if LosesLineFeed(w, name) then name[..|name| - 1] else name }

  lemma NameRead(w: Words, name: string)
    ensures PartName(w, Quote(w, name)) == Some(Kept(w, name))
    ensures Kept(w, name) == "" <==> name == ""
  {
    if name == "" {
      assert Strip(w, "") == "";
    } else if IsBare(w, name) {
      BareRead(w, name);
    } else {
      QuotedRead(w, name);
    }
  }

  function KeptAll(w: Words, names: seq<string>): (r: seq<string>)
    ensures |r| == |names| && forall i :: 0 <= i < |names| ==> r[i] == Kept(w, names[i])
  {
    if names == [] then [] else [Kept(w, names[0])] + KeptAll(w, names[1..])
  }

  // ----- what the database reads ------------------------------------------------------------------

  predicate IsLetter(c: char) { 'A' <= c <= 'Z' || 'a' <= c <= 'z' }

  predicate IsWord(t: string) {
    t != "" && IsLetter(t[0]) && forall i | 0 <= i < |t| :: IsLetter(t[i]) || '0' <= t[i] <= '9' || t[i] == '_'
  }

  function Folded(t: string): (r: string)
    ensures |r| == |t|
  {
    seq(|t|, i requires 0 <= i < |t| => if 'a' <= t[i] <= 'z' then (t[i] as int - 32) as char else t[i])
  }

  /** An identifier in a statement: between quotes as it stands, else a word folded to upper
      case, which must not be reserved. */
  function IdentifierOf(w: Words, t: string): Option<string> {
    if t != "" && t[0] == '"' then
      if |t| >= 2 && t[|t| - 1] == '"' then Unquoted(t[1..|t| - 1]) else None
    else if IsWord(t) && Folded(t) !in w.reserved then Some(Folded(t))
    else None
  }

  lemma FoldedWord(name: string)
    requires IsWord(name)
    ensures Folded(name) == name <==> forall i | 0 <= i < |name| :: !('a' <= name[i] <= 'z')
  {
    if Folded(name) == name {
      forall i | 0 <= i < |name|
        ensures !('a' <= name[i] <= 'z')
      {
        assert Folded(name)[i] == name[i];
      }
    }
  }

  lemma BareExactly(w: Words, name: string)
    requires name != "" && name[|name| - 1] != '\n'
    ensures IsBare(w, name) <==> IsWord(name) && Folded(name) == name && name !in w.reserved
  {
    if IsWord(name) {
      FoldedWord(name);
    }
  }

  /** The database reads a printed name as that name, but for the line feed that a bare name may
      end in; and a name that it reads bare is not put in quotes. */
  lemma QuotedWhenRequired(w: Words, name: string)
    requires name != ""
    ensures IdentifierOf(w, Quote(w, name)) == Some(name) <==> !LosesLineFeed(w, name)
    ensures IdentifierOf(w, name) == Some(name) && name[0] != '"' ==> Quote(w, name) == name
  {
    if name[|name| - 1] != '\n' {
      BareExactly(w, name);
    }
    if !IsBare(w, name) {
      QuotesStay(w, Doubled(name));
      UnquotedDoubled(name);
    }
  }

  lemma {:induction false} NamesRead(w: Words, names: seq<string>)
    ensures PartNames(w, Quotes(w, names)) == Some(KeptAll(w, names))
  {
    if names != [] {
      NameRead(w, names[0]);
      NamesRead(w, names[1..]);
      assert Quotes(w, names)[1..] == Quotes(w, names[1..]);
    }
  }

  /** Splitting a path of quoted names gives the names back if and only if there are one to
      three of them, only the middle one of three is empty, and none is a bare name with a
      line feed behind it; dots, spaces and quotes in names do not matter. */
  lemma PathRoundTripExactly(w: Words, names: seq<string>)
    requires names != []
    ensures Split(w, PutPath(w, names)) == Some(names) <==>
            IsPath(names) && forall i :: 0 <= i < |names| ==> !LosesLineFeed(w, names[i])
  {
    PathCut(w, names);
    NamesRead(w, names);
    var kept := KeptAll(w, names);
    forall i | 0 <= i < |names|
      ensures kept[i] == "" <==> names[i] == ""
    {
      NameRead(w, names[i]);
    }
    if kept == names {
      forall i | 0 <= i < |names|
        ensures !LosesLineFeed(w, names[i])
      {
        assert kept[i] == names[i];
      }
    }
  }

  /** Different lists of names have different paths, unless a name loses its line feed. */
  lemma PathsDiffer(w: Words, a: seq<string>, b: seq<string>)
    requires a != [] && b != [] && PutPath(w, a) == PutPath(w, b)
    ensures KeptAll(w, a) == KeptAll(w, b)
  {
    PathCut(w, a);
    PathCut(w, b);
    NamesRead(w, a);
    NamesRead(w, b);
  }

  // ----- the loops ---------------------------------------------------------------------------------

  /** The first loop of `_split_identifier_path`. */
  method CutPath(value: string) returns (r: Option<seq<string>>)
    ensures r == RawParts(value, false, "")
  {
    var rawParts: seq<string> := [];
    var current, quoted, index := "", false, 0;
    assert value[0..] == value;
    InFront([], [], RawParts(value, false, ""));
    while index < |value|
      invariant index <= |value|
      invariant RawParts(value, false, "") == Ahead(rawParts, RawParts(value[index..], quoted, current))
    {
      var c := value[index];
      ghost var here := value[index..];
      assert here[0] == c && here[1..] == value[index + 1..] && (index + 1 < |value| ==> here[1] == value[index + 1]);
      if c == '"' {
        if quoted && index + 1 < |value| && value[index + 1] == '"' {
          assert here[2..] == value[index + 2..];
          current := current + "\"\"";
          index := index + 1;
        } else {
          current := current + "\"";
          quoted := !quoted;
        }
      } else if c == '.' && !quoted {
        InFront(rawParts, current, RawParts(value[index + 1..], false, ""));
        rawParts := rawParts + [current];
        current := "";
      } else {
        current := current + [c];
      }
      index := index + 1;
    }
    if quoted { return None; }
    return Some(rawParts + [current]);
  }

  function Ahead(front: seq<string>, r: Option<seq<string>>): Option<seq<string>> {
    if r.None? then None else Some(front + r.value)
  }

  lemma InFront(front: seq<string>, part: string, r: Option<seq<string>>)
    ensures Ahead(front, Behind(part, r)) == Ahead(front + [part], r)
    ensures Ahead([], r) == r
  {
    if r.Some? {
      assert front + ([part] + r.value) == (front + [part]) + r.value;
      assert [] + r.value == r.value;
    }
  }

  /** The inner loop: the name between the outer quotes of `part`. */
  method UnquotePart(part: string) returns (r: Option<string>)
    requires |part| >= 2
    ensures r == Unquoted(part[1..|part| - 1])
  {
    var identifier, index := "", 1;
    ghost var inner := part[1..|part| - 1];
    assert "" + (if Unquoted(inner).Some? then Unquoted(inner).value else "") == (if Unquoted(inner).Some? then Unquoted(inner).value else "");
    while index < |part| - 1
      invariant 1 <= index <= |part| - 1
      invariant Unquoted(inner) == Longer(identifier, Unquoted(part[index..|part| - 1]))
    {
      ghost var here := part[index..|part| - 1];
      assert here[0] == part[index] && here[1..] == part[index + 1..|part| - 1];
      if part[index] == '"' {
        if index + 1 >= |part| - 1 || part[index + 1] != '"' { return None; }
        assert here[1] == part[index + 1] && here[2..] == part[index + 2..|part| - 1];
        OneLonger(identifier, '"', Unquoted(here[2..]));
        identifier := identifier + "\"";
        index := index + 2;
      } else {
        OneLonger(identifier, part[index], Unquoted(here[1..]));
        identifier := identifier + [part[index]];
        index := index + 1;
      }
    }
    assert identifier + "" == identifier;
    return Some(identifier);
  }

  function Longer(front: string, r: Option<string>): Option<string> {
    if r.None? then None else Some(front + r.value)
  }

  lemma OneLonger(front: string, c: char, r: Option<string>)
    ensures Longer(front, Grow(c, r)) == Longer(front + [c], r)
  {
    if r.Some? {
      assert front + ([c] + r.value) == (front + [c]) + r.value;
    }
  }

  /** `_split_identifier_path`. */
  method SplitIdentifierPath(w: Words, value: string) returns (r: Option<seq<string>>)
    ensures r == Split(w, value)
  {
    var raws := CutPath(value);
    if raws.None? { return None; }
    var parts: seq<string> := [];
    assert raws.value[0..] == raws.value;
    InFront([], [], PartNames(w, raws.value));
    for i := 0 to |raws.value|
      invariant PartNames(w, raws.value) == Ahead(parts, PartNames(w, raws.value[i..]))
    {
      assert raws.value[i..][0] == raws.value[i] && raws.value[i..][1..] == raws.value[i + 1..];
      var part := Strip(w, raws.value[i]);
      var name: Option<string>;
      if part == "" || part[0] != '"' {
        name := if '"' in part then None else Some(part);
      } else if |part| < 2 || part[|part| - 1] != '"' {
        name := None;
      } else {
        name := UnquotePart(part);
      }
      if name.None? { return None; }
      InFront(parts, name.value, PartNames(w, raws.value[i + 1..]));
      parts := parts + [name.value];
    }
    assert parts + [] == parts;
    return if IsPath(parts) then Some(parts) else None;
  }
}
