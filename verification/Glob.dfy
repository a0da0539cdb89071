/**
 Path patterns. `patternToRegExp` writes the source of a regular expression; here that
 source is written the same way, read back as a regular expression, given the usual
 meaning of one, and compared with a direct matcher for globs.
 */
module Glob {

  datatype Option<T> = None | Some(value: T)

  // ---------------------------------------------------------------- the compiler

  const SPECIAL := "|\\{}()[]^$+?."

  function EscapeRegExp(c: char): string { if c in SPECIAL then ['\\', c] else [c] }

  /** What one turn of the compiler writes, and where it leaves off. */
  function Piece(pattern: string, i: nat): (r: (string, nat))
    requires i < |pattern|
    ensures i < r.1 <= |pattern|
  {
    if pattern[i] == '*' && i + 1 < |pattern| && pattern[i + 1] == '*' then
      if i + 2 < |pattern| && pattern[i + 2] == '/' then ("(?:.*/)?", i + 3) else (".*", i + 2)
    else if pattern[i] == '*' then ("[^/]*", i + 1)
    else if pattern[i] == '?' then ("[^/]", i + 1)
    else (EscapeRegExp(pattern[i]), i + 1)
  }

  /** The source text for the pattern from `i` on. */
  function Compiled(pattern: string, i: nat): string
    requires i <= |pattern|
    decreases |pattern| - i
  {
    if i == |pattern| then "" else Piece(pattern, i).0 + Compiled(pattern, Piece(pattern, i).1)
  }

  lemma PieceFirst(pattern: string, i: nat, before: string)
    requires i < |pattern|
    ensures (before + Piece(pattern, i).0) + Compiled(pattern, Piece(pattern, i).1) == before + Compiled(pattern, i)
  {}

  method PatternToRegExp(pattern: string) returns (source: string)
    ensures source == "^" + Compiled(pattern, 0) + "$"
  {
    source := "^";
    var i := 0;
    while i < |pattern|
      invariant 0 <= i <= |pattern|
      invariant source + Compiled(pattern, i) == "^" + Compiled(pattern, 0)
    {
      var c := pattern[i];
      ghost var was, at := source, i;
      if c == '*' && i + 1 < |pattern| && pattern[i + 1] == '*' {
        if i + 2 < |pattern| && pattern[i + 2] == '/' {
          source := source + "(?:.*/)?";
          i := i + 2;
        } else {
          source := source + ".*";
          i := i + 1;
        }
      } else if c == '*' {
        source := source + "[^/]*";
      } else if c == '?' {
        source := source + "[^/]";
      } else {
        source := source + EscapeRegExp(c);
      }
      i := i + 1;
      assert (source, i) == (was + Piece(pattern, at).0, Piece(pattern, at).1);
      PieceFirst(pattern, at, was);
    }
    assert source + "" == source;
    source := source + "$";
  }

  // ---------------------------------------------------------------- regular expressions

  /** The terms such a source can contain. */
  datatype Atom = OptionalDirs | AnyRun | SegmentRun | SegmentChar | Literal(c: char)

  /** The characters with a meaning in a regular expression: `SyntaxCharacter` of ECMA-262, section 22.2.1. */
  const SYNTAX_CHARACTERS := "^$\\.*+?()[]{}|"

  /** Reading one term off the front of a source. */
  function ReadAtom(s: string): Option<(Atom, nat)> {
    if "(?:.*/)?" <= s then Some((OptionalDirs, 8))
    else if ".*" <= s then Some((AnyRun, 2))
    else if "[^/]*" <= s then Some((SegmentRun, 5))
    else if "[^/]" <= s then Some((SegmentChar, 4))
    else if |s| >= 2 && s[0] == '\\' && s[1] in SYNTAX_CHARACTERS then Some((Literal(s[1]), 2))
    else if |s| >= 1 && s[0] !in SYNTAX_CHARACTERS then Some((Literal(s[0]), 1))
    else None
  }

  function ReadTerms(s: string): Option<seq<Atom>>
    decreases |s|
  {
    if s == "" then Some([])
    else
      var a := ReadAtom(s);
      if a.None? || a.value.1 > |s| || a.value.1 == 0 then None
      else
        var rest := ReadTerms(s[a.value.1..]);
        if rest.None? then None else Some([a.value.0] + rest.value)
  }

  predicate LineTerminator(c: char) { c == '\n' || c == '\r' || c == '\U{2028}' || c == '\U{2029}' }

  predicate DotRun(s: string) { forall k :: 0 <= k < |s| ==> !LineTerminator(s[k]) }

  predicate SlashFree(s: string) { forall k :: 0 <= k < |s| ==> s[k] != '/' }

  /** The texts one term stands for. */
  predicate Denotes(a: Atom, s: string) {
    match a
    case OptionalDirs => s == "" || (s[|s| - 1] == '/' && DotRun(s[..|s| - 1]))
    case AnyRun => DotRun(s)
    case SegmentRun => SlashFree(s)
    case SegmentChar => |s| == 1 && s[0] != '/'
    case Literal(c) => s == [c]
  }

  /** An anchored expression accepts `s` when `s` splits into texts of its terms. */
  ghost predicate Accepts(atoms: seq<Atom>, s: string) {
    if |atoms| == 0 then s == ""
    else exists k :: 0 <= k <= |s| && Denotes(atoms[0], s[..k]) && Accepts(atoms[1..], s[k..])
  }

  ghost predicate SplitsAt(atoms: seq<Atom>, s: string, k: int)
    requires |atoms| > 0
  {
    0 <= k <= |s| && Denotes(atoms[0], s[..k]) && Accepts(atoms[1..], s[k..])
  }

  lemma SplitOf(atoms: seq<Atom>, s: string) returns (k: int)
    requires |atoms| > 0 && Accepts(atoms, s)
    ensures SplitsAt(atoms, s, k)
  {
    k :| 0 <= k <= |s| && Denotes(atoms[0], s[..k]) && Accepts(atoms[1..], s[k..]);
  }

  /** `new RegExp(source).test(path)` for a source of this form. */
  ghost predicate RegExpTest(source: string, path: string) {
    && |source| >= 2 && source[0] == '^' && source[|source| - 1] == '$'
    && var terms := ReadTerms(source[1..|source| - 1]);
       terms.Some? && Accepts(terms.value, path)
  }

  // ---------------------------------------------------------------- the direct matcher

  /** Glob matching, character by character, with the pattern read from `i`. */
  predicate Matches(pattern: string, i: nat, s: string)
    requires i <= |pattern|
    decreases |pattern| - i, |s|, 0
  {
    if i == |pattern| then s == ""
    else if pattern[i] == '*' && i + 1 < |pattern| && pattern[i + 1] == '*' then
      if i + 2 < |pattern| && pattern[i + 2] == '/' then MatchesBelow(pattern, i + 3, s)
      else Matches(pattern, i + 2, s) || (s != "" && Matches(pattern, i, s[1..]))
    else if pattern[i] == '*' then
      Matches(pattern, i + 1, s) || (s != "" && s[0] != '/' && Matches(pattern, i, s[1..]))
    else if pattern[i] == '?' then s != "" && s[0] != '/' && Matches(pattern, i + 1, s[1..])
    else s != "" && s[0] == pattern[i] && Matches(pattern, i + 1, s[1..])
  }

  /** The rest of the pattern matches here, or in some directory further down. */
  predicate MatchesBelow(pattern: string, i: nat, s: string)
    requires i <= |pattern|
    decreases |pattern| - i, |s|, 1
  {
    Matches(pattern, i, s) || exists k :: 0 <= k < |s| && s[k] == '/' && MatchesBelow(pattern, i, s[k + 1..])
  }

  // ---------------------------------------------------------------- compilation keeps the meaning

  function AtomsOf(pattern: string, i: nat): seq<Atom>
    requires i <= |pattern|
    decreases |pattern| - i
  {
    if i == |pattern| then []
    else if pattern[i] == '*' && i + 1 < |pattern| && pattern[i + 1] == '*' then
      if i + 2 < |pattern| && pattern[i + 2] == '/' then [OptionalDirs] + AtomsOf(pattern, i + 3)
      else [AnyRun] + AtomsOf(pattern, i + 2)
    else if pattern[i] == '*' then [SegmentRun] + AtomsOf(pattern, i + 1)
    else if pattern[i] == '?' then [SegmentChar] + AtomsOf(pattern, i + 1)
    else [Literal(pattern[i])] + AtomsOf(pattern, i + 1)
  }

  lemma ReadsBack(a: Atom, text: string, rest: string)
    requires match a {
               case OptionalDirs => text == "(?:.*/)?"
               case AnyRun => text == ".*"
               case SegmentRun => text == "[^/]*"
               case SegmentChar => text == "[^/]" && !("*" <= rest)
               case Literal(c) => text == EscapeRegExp(c) && c != '*'
             }
    ensures ReadAtom(text + rest) == Some((a, |text|))
  {
    var s := text + rest;
    assert s[0] == text[0] && (|text| > 1 ==> s[1] == text[1]);
    assert s[..|text|] == text;
    if a.OptionalDirs? {
      assert "(?:.*/)?" <= s;
    } else if a.AnyRun? {
      assert s[0] == '.';
      assert ".*" <= s;
    } else if a.SegmentRun? {
      assert s[0] == '[';
      assert "[^/]*" <= s;
    } else if a.SegmentChar? {
      assert s[0] == '[' && "[^/]" <= s;
      assert |s| > 4 ==> s[4] == rest[0];
      assert !("[^/]*" <= s);
    }
  }

  lemma NoStarAhead(pattern: string, i: nat)
    requires i <= |pattern|
    ensures !("*" <= Compiled(pattern, i))
  {
    if i < |pattern| {
      if pattern[i] != '*' && pattern[i] != '?' {
        assert EscapeRegExp(pattern[i])[0] != '*';
      }
      assert Compiled(pattern, i)[0] != '*';
    }
  }

  lemma ReadTermsCons(a: Atom, text: string, rest: string)
    requires |text| > 0 && ReadAtom(text + rest) == Some((a, |text|))
    ensures ReadTerms(text + rest) ==
            if ReadTerms(rest).None? then None else Some([a] + ReadTerms(rest).value)
  {
    assert (text + rest)[|text|..] == rest;
  }

  /** The source of a pattern reads back as the terms of the pattern: escaping is right. */
  lemma {:induction false} CompiledReadsBack(pattern: string, i: nat)
    requires i <= |pattern|
    ensures ReadTerms(Compiled(pattern, i)) == Some(AtomsOf(pattern, i))
    decreases |pattern| - i
  {
    if i < |pattern| {
      var atoms := AtomsOf(pattern, i);
      var a := atoms[0];
      var next := if a.OptionalDirs? then i + 3 else if a.AnyRun? then i + 2 else i + 1;
      var rest := Compiled(pattern, next);
      var text := match a {
        case OptionalDirs => "(?:.*/)?"
        case AnyRun => ".*"
        case SegmentRun => "[^/]*"
        case SegmentChar => "[^/]"
        case Literal(c) => EscapeRegExp(c)
      };
      assert Compiled(pattern, i) == text + rest;
      assert atoms == [a] + AtomsOf(pattern, next);
      NoStarAhead(pattern, next);
      CompiledReadsBack(pattern, next);
      ReadsBack(a, text, rest);
      ReadTermsCons(a, text, rest);
    }
  }

  /** A run that may be extended by its first character. */
  lemma RunUnfolds(atoms: seq<Atom>, s: string)
    requires |atoms| > 0 && (atoms[0].AnyRun? || atoms[0].SegmentRun?)
    ensures Accepts(atoms, s) <==>
            Accepts(atoms[1..], s) || (s != "" && Denotes(atoms[0], s[..1]) && Accepts(atoms, s[1..]))
  {
    if Accepts(atoms, s) {
      RunShrinks(atoms, s);
    }
    if Accepts(atoms[1..], s) {
      assert s[0..] == s && s[..0] == "";
      assert SplitsAt(atoms, s, 0);
    }
    if s != "" && Denotes(atoms[0], s[..1]) && Accepts(atoms, s[1..]) {
      RunGrows(atoms, s);
    }
  }

  lemma RunShrinks(atoms: seq<Atom>, s: string)
    requires |atoms| > 0 && (atoms[0].AnyRun? || atoms[0].SegmentRun?) && Accepts(atoms, s)
    ensures Accepts(atoms[1..], s) || (s != "" && Denotes(atoms[0], s[..1]) && Accepts(atoms, s[1..]))
  {
    var k := SplitOf(atoms, s);
    if k == 0 {
      assert s[0..] == s;
    } else {
      RunSplits(atoms[0], s, k);
      hide Denotes;
      assert s[1..][k - 1..] == s[k..];
      assert SplitsAt(atoms, s[1..], k - 1);
      SplitAccepts(atoms, s[1..], k - 1);
    }
  }

  lemma SplitAccepts(atoms: seq<Atom>, s: string, k: int)
    requires |atoms| > 0 && SplitsAt(atoms, s, k)
    ensures Accepts(atoms, s)
  {}

  lemma RunSplits(a: Atom, s: string, k: nat)
    requires (a.AnyRun? || a.SegmentRun?) && 0 < k <= |s| && Denotes(a, s[..k])
    ensures Denotes(a, s[..1]) && Denotes(a, s[1..][..k - 1])
  {
    assert s[1..][..k - 1] == s[..k][1..];
    assert s[..1][0] == s[..k][0];
  }

  lemma RunGrows(atoms: seq<Atom>, s: string)
    requires |atoms| > 0 && (atoms[0].AnyRun? || atoms[0].SegmentRun?)
    requires s != "" && Denotes(atoms[0], s[..1]) && Accepts(atoms, s[1..])
    ensures Accepts(atoms, s)
  {
    var k := SplitOf(atoms, s[1..]);
    assert s[..k + 1] == s[..1] + s[1..][..k];
    assert s[k + 1..] == s[1..][k..];
    assert SplitsAt(atoms, s, k + 1);
  }

  lemma CharUnfolds(atoms: seq<Atom>, s: string)
    requires |atoms| > 0 && (atoms[0].SegmentChar? || atoms[0].Literal?)
    ensures Accepts(atoms, s) <==> s != "" && Denotes(atoms[0], s[..1]) && Accepts(atoms[1..], s[1..])
  {
    if Accepts(atoms, s) {
      var k := SplitOf(atoms, s);
      assert k == 1;
    }
    if s != "" && Denotes(atoms[0], s[..1]) && Accepts(atoms[1..], s[1..]) {
      assert SplitsAt(atoms, s, 1);
    }
  }

  /** Skipping optional directories is skipping past some slash, or not at all. */
  lemma {:induction false} DirsUnfold(atoms: seq<Atom>, s: string)
    requires |atoms| > 0 && atoms[0].OptionalDirs? && DotRun(s)
    ensures Accepts(atoms, s) <==>
            Accepts(atoms[1..], s) || exists k :: 0 <= k < |s| && s[k] == '/' && Accepts(atoms[1..], s[k + 1..])
  {
    if Accepts(atoms, s) {
      var k := SplitOf(atoms, s);
      if k == 0 {
        assert s[0..] == s;
      } else {
        assert s[k - 1] == '/' && s[k - 1 + 1..] == s[k..];
      }
    }
    if Accepts(atoms[1..], s) {
      assert s[0..] == s && s[..0] == "";
      assert SplitsAt(atoms, s, 0);
    }
    if k :| 0 <= k < |s| && s[k] == '/' && Accepts(atoms[1..], s[k + 1..]) {
      assert s[..k + 1][..k] == s[..k];
      assert SplitsAt(atoms, s, k + 1);
    }
  }

  lemma DotTail(s: string)
    requires DotRun(s)
    ensures s != "" ==> DotRun(s[1..])
  {}

  /** The matcher's step, by the first term of the pattern. */
  lemma MatchesUnfolds(pattern: string, i: nat, s: string)
    requires i < |pattern| && DotRun(s)
    ensures var a := AtomsOf(pattern, i)[0];
            if a.OptionalDirs? then i + 3 <= |pattern| && (Matches(pattern, i, s) <==> MatchesBelow(pattern, i + 3, s))
            else if a.AnyRun? || a.SegmentRun? then
              var next := if a.AnyRun? then i + 2 else i + 1;
              && next <= |pattern|
              && (Matches(pattern, i, s) <==>
                    Matches(pattern, next, s) || (s != "" && Denotes(a, s[..1]) && Matches(pattern, i, s[1..])))
            else Matches(pattern, i, s) <==> s != "" && Denotes(a, s[..1]) && Matches(pattern, i + 1, s[1..])
  {}

  lemma {:induction false} MatchesIffAccepts(pattern: string, i: nat, s: string)
    requires i <= |pattern| && DotRun(s)
    ensures Matches(pattern, i, s) <==> Accepts(AtomsOf(pattern, i), s)
    decreases |pattern| - i, |s|, 0
  {
    hide Denotes, DotRun;
    if i == |pattern| {
      assert AtomsOf(pattern, i) == [];
    } else {
      var atoms := AtomsOf(pattern, i);
      var a := atoms[0];
      var next := if a.OptionalDirs? then i + 3 else if a.AnyRun? then i + 2 else i + 1;
      assert atoms[1..] == AtomsOf(pattern, next);
      DotTail(s);
      MatchesUnfolds(pattern, i, s);
      hide Matches, Accepts, AtomsOf;
      if a.OptionalDirs? {
        BelowIffAccepts(pattern, next, s);
        DirsUnfold(atoms, s);
      } else if a.AnyRun? || a.SegmentRun? {
        RunUnfolds(atoms, s);
        MatchesIffAccepts(pattern, next, s);
        if s != "" {
          MatchesIffAccepts(pattern, i, s[1..]);
        }
      } else {
        CharUnfolds(atoms, s);
        if s != "" {
          MatchesIffAccepts(pattern, next, s[1..]);
        }
      }
    }
  }

  ghost predicate AcceptsBelow(atoms: seq<Atom>, s: string) {
    Accepts(atoms, s) || exists k :: 0 <= k < |s| && s[k] == '/' && Accepts(atoms, s[k + 1..])
  }

  lemma {:induction false} BelowIffAccepts(pattern: string, i: nat, s: string)
    requires i <= |pattern| && DotRun(s)
    ensures MatchesBelow(pattern, i, s) <==> AcceptsBelow(AtomsOf(pattern, i), s)
    decreases |pattern| - i, |s|, 1
  {
    var atoms := AtomsOf(pattern, i);
    MatchesIffAccepts(pattern, i, s);
    forall k | 0 <= k < |s| && s[k] == '/'
      ensures MatchesBelow(pattern, i, s[k + 1..]) <==> AcceptsBelow(atoms, s[k + 1..])
    {
      BelowIffAccepts(pattern, i, s[k + 1..]);
    }
    if k :| 0 <= k < |s| && s[k] == '/' && MatchesBelow(pattern, i, s[k + 1..]) {
      if !Accepts(atoms, s[k + 1..]) {
        var m :| 0 <= m < |s[k + 1..]| && s[k + 1..][m] == '/' && Accepts(atoms, s[k + 1..][m + 1..]);
        assert s[k + 1..][m + 1..] == s[k + 1 + m + 1..];
        assert s[k + 1 + m] == '/';
      }
    }
  }

  /** For every pattern and every path without line terminators, the expression decides the glob. */
  lemma RegExpDecidesGlob(pattern: string, path: string)
    requires DotRun(path)
    ensures RegExpTest("^" + Compiled(pattern, 0) + "$", path) <==> Matches(pattern, 0, path)
  {
    var source := "^" + Compiled(pattern, 0) + "$";
    assert source[1..|source| - 1] == Compiled(pattern, 0);
    CompiledReadsBack(pattern, 0);
    MatchesIffAccepts(pattern, 0, path);
  }

  /** `**` matches every path. */
  lemma {:induction false} StarsMatchAll(s: string)
    ensures Matches("**", 0, s)
    decreases |s|
  {
    if s == "" {
      assert Matches("**", 2, s);
    } else {
      StarsMatchAll(s[1..]);
    }
  }

  /** Its expression accepts the paths without line terminators. */
  lemma StarsAccept(s: string)
    ensures RegExpTest("^" + Compiled("**", 0) + "$", s) <==> DotRun(s)
  {
    var source, atoms := "^" + Compiled("**", 0) + "$", AtomsOf("**", 0);
    assert source[1..|source| - 1] == Compiled("**", 0);
    CompiledReadsBack("**", 0);
    assert atoms == [AnyRun] + [] && atoms[1..] == [];
    if Accepts(atoms, s) {
      var k := SplitOf(atoms, s);
      assert k == |s| && s[..k] == s;
    }
    if DotRun(s) {
      assert s[..|s|] == s && s[|s|..] == "";
      SplitAccepts(atoms, s, |s|);
    }
  }

  /** The condition is exact: every expression decides its glob on a path without line terminators, and on no other. */
  lemma RegExpDecidesEveryGlobIff(path: string)
    ensures (forall pattern :: RegExpTest("^" + Compiled(pattern, 0) + "$", path) <==> Matches(pattern, 0, path))
            <==> DotRun(path)
  {
    if DotRun(path) {
      forall pattern ensures RegExpTest("^" + Compiled(pattern, 0) + "$", path) <==> Matches(pattern, 0, path) {
        RegExpDecidesGlob(pattern, path);
      }
    } else {
      StarsMatchAll(path);
      StarsAccept(path);
    }
  }
}
