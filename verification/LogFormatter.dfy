/**
 The deploy-log formatter: a stream transform that cuts its input into lines. Texts are
 UTF-16 code units. A written string reaches the transform as UTF-8 bytes, so a surrogate
 pair split between two writes is lost; otherwise a text may be split anywhere. What one
 line is turned into (`JSON.parse`, the level mapping, `JSON.stringify`) is a parameter.
 */
module LogFormatter {
  import opened Chunker
  import Trimming

  /** What `JSON.parse` and `isPinoLine` make of a line. */
  datatype Parsed = Unparsable | NotPino | Pino(deployLine: Text)

  const LINE_BREAK: Text := [NEWLINE]

  const REPLACEMENT: CodeUnit := 0xFFFD

  predicate High(u: CodeUnit) { 0xD800 <= u <= 0xDBFF }
  predicate Low(u: CodeUnit) { 0xDC00 <= u <= 0xDFFF }

  /** The length of the first character: two units for a surrogate pair. */
  function Width(t: Text): (n: nat)
    requires t != []
    ensures 1 <= n <= |t|
  {
    if High(t[0]) && |t| > 1 && Low(t[1]) then 2 else 1
  }

  function DecodedFirst(t: Text): Text
    requires t != []
  {
    if Width(t) == 2 then [t[0], t[1]] else if High(t[0]) || Low(t[0]) then [REPLACEMENT] else [t[0]]
  }

  /**
   What the transform reads of a written string: the stream encodes it as UTF-8, where a
   surrogate without its partner becomes U+FFFD, and `chunkToUtf8Text` decodes the bytes.
   */
  function Decoded(t: Text): Text
    decreases |t|
  {
    if t == [] then [] else DecodedFirst(t) + Decoded(t[Width(t)..])
  }

  /** A surrogate without its partner. */
  predicate Lone(t: Text, k: nat)
    requires k < |t|
  {
    || (0xD800 <= t[k] <= 0xDBFF && !(k + 1 < |t| && 0xDC00 <= t[k + 1] <= 0xDFFF))
    || (0xDC00 <= t[k] <= 0xDFFF && !(k > 0 && 0xD800 <= t[k - 1] <= 0xDBFF))
  }

  /** Decoding replaces each surrogate that has no partner, and leaves every other unit where it is. */
  lemma {:induction false} DecodedAt(t: Text)
    ensures |Decoded(t)| == |t|
    ensures forall k :: 0 <= k < |t| ==> Decoded(t)[k] == if Lone(t, k) then 0xFFFD else t[k]
    decreases |t|
  {
    if t != [] {
      var w := Width(t);
      DecodedAt(t[w..]);
      DecodedStep(t);
      hide Decoded;
      FirstAt(t);
      forall k | 0 <= k < |t| ensures Decoded(t)[k] == if Lone(t, k) then 0xFFFD else t[k] {
        if k >= w {
          LoneLater(t, w, k);
          assert Decoded(t)[k] == Decoded(t[w..])[k - w] && t[w..][k - w] == t[k];
          hide Lone;
        }
      }
    }
  }

  lemma FirstAt(t: Text)
    requires t != []
    ensures |DecodedFirst(t)| == Width(t)
    ensures forall k :: 0 <= k < Width(t) ==> DecodedFirst(t)[k] == if Lone(t, k) then 0xFFFD else t[k]
  {}

  lemma LoneLater(t: Text, w: nat, k: nat)
    requires t != [] && w == Width(t) && w <= k < |t|
    ensures Lone(t[w..], k - w) <==> Lone(t, k)
  {
    assert t[w..][k - w] == t[k] && (k + 1 < |t| ==> t[w..][k - w + 1] == t[k + 1]) && (k > w ==> t[w..][k - w - 1] == t[k - 1]);
  }

  /** The index of the first newline, or the length of the text. */
  function LineEnd(t: Text): (n: nat)
    ensures n <= |t|
    ensures forall k :: 0 <= k < n ==> t[k] != NEWLINE
    ensures n < |t| ==> t[n] == NEWLINE
  {
    if t == [] then 0 else if t[0] == NEWLINE then 0 else 1 + LineEnd(t[1..])
  }

  /** The complete lines of a text, without their newlines. */
  function Lines(t: Text): seq<Text>
    decreases |t|
  {
    var n := LineEnd(t);
    if n == |t| then [] else [t[..n]] + Lines(t[n + 1..])
  }

  /** What follows the last newline. */
  function Rest(t: Text): (r: Text)
    ensures LineEnd(r) == |r|
    decreases |t|
  {
    var n := LineEnd(t);
    if n == |t| then t else Rest(t[n + 1..])
  }

  predicate Blank(line: Text) { |Trim(line)| == 0 }

  /** One complete line of output. */
  function Convert(parse: Text -> Parsed, line: Text): Text {
    if Blank(line) then LINE_BREAK
    else match parse(line)
      case Pino(deployLine) => deployLine + LINE_BREAK
      case _ => line + LINE_BREAK
  }

  function ConvertAll(parse: Text -> Parsed, lines: seq<Text>): seq<Text> {
    if lines == [] then [] else [Convert(parse, lines[0])] + ConvertAll(parse, lines[1..])
  }

  /** The per-line conversion of a whole text, a blank remainder dropped. */
  function WholeOutput(parse: Text -> Parsed, t: Text): seq<Text> {
    ConvertAll(parse, Lines(t)) + (if Blank(Rest(t)) then [] else [Convert(parse, Rest(t))])
  }

  /** Nothing but white space. */
  predicate OnlySpace(t: Text) { forall k :: 0 <= k < |t| ==> IsWhite(t[k]) }

  predicate OneLine(t: Text) { 10 !in t }

  /**
   What becomes of one line: its deploy form when it is a log record, the line itself when
   it is not or cannot be parsed, and an empty line for white space. Without its newline,
   at the end of the stream, it is treated alike, except that white space is dropped.
   */
  lemma LineOutput(parse: Text -> Parsed, line: Text)
    requires OneLine(line)
    ensures OnlySpace(line) ==> WholeOutput(parse, line + [10]) == [[10]] && WholeOutput(parse, line) == []
    ensures !OnlySpace(line) && parse(line).Pino? ==>
              WholeOutput(parse, line + [10]) == WholeOutput(parse, line) == [parse(line).deployLine + [10]]
    ensures !OnlySpace(line) && !parse(line).Pino? ==>
              WholeOutput(parse, line + [10]) == WholeOutput(parse, line) == [line + [10]]
  {
    hide Trim;
    Trimming.BlankIff(line);
    Trimming.BlankIff([]);
    WholeOfLine(parse, line);
  }

  /** The first line of a text is put out before the rest and apart from it. */
  lemma LineByLine(parse: Text -> Parsed, line: Text, rest: Text)
    requires OneLine(line)
    ensures WholeOutput(parse, line + [10] + rest) == WholeOutput(parse, line + [10]) + WholeOutput(parse, rest)
  {
    hide Trim, Convert;
    Trimming.BlankIff([]);
    WholeOfLine(parse, line);
    LinesOfLine(line, rest);
    ConvertCons(parse, line, Lines(rest));
    hide Lines, Rest, ConvertAll, Blank;
    var first, later := [Convert(parse, line)], ConvertAll(parse, Lines(rest));
    var last := if Blank(Rest(rest)) then [] else [Convert(parse, Rest(rest))];
    assert (first + later) + last == first + (later + last);
  }

  lemma LinesOfLine(line: Text, rest: Text)
    requires OneLine(line)
    ensures Lines(line + [10] + rest) == [line] + Lines(rest) && Rest(line + [10] + rest) == Rest(rest)
    ensures Lines(line) == [] && Rest(line) == line
  {
    var t := line + [10] + rest;
    assert t[|line|] == NEWLINE && forall k :: 0 <= k < |line| ==> t[k] == line[k];
    assert LineEnd(t) == |line| && LineEnd(line) == |line|;
    assert t[..|line|] == line && t[|line| + 1..] == rest;
  }

  lemma WholeOfLine(parse: Text -> Parsed, line: Text)
    requires OneLine(line)
    ensures Blank([])
    ensures WholeOutput(parse, line + [10]) == [Convert(parse, line)]
    ensures WholeOutput(parse, line) == if Blank(line) then [] else [Convert(parse, line)]
  {
    hide Convert;
    LinesOfLine(line, []);
    assert line + [10] + [] == line + [10];
    assert Lines([]) == [] && Rest([]) == [];
    ConvertCons(parse, line, []);
  }

  /** Converting the first line leaves the others to convert. */
  lemma NextLine(parse: Text -> Parsed, t: Text, pushed: seq<Text>)
    requires LineEnd(t) < |t|
    ensures var n := LineEnd(t);
            && (pushed + [Convert(parse, t[..n])]) + ConvertAll(parse, Lines(t[n + 1..])) == pushed + ConvertAll(parse, Lines(t))
            && Rest(t[n + 1..]) == Rest(t)
  {
    hide Lines, Rest, Convert, ConvertAll;
    FirstLine(t);
    var n := LineEnd(t);
    hide LineEnd;
    ConvertCons(parse, t[..n], Lines(t[n + 1..]));
    var first, later := [Convert(parse, t[..n])], ConvertAll(parse, Lines(t[n + 1..]));
    assert pushed + (first + later) == (pushed + first) + later;
  }

  lemma ConvertCons(parse: Text -> Parsed, line: Text, rest: seq<Text>)
    ensures ConvertAll(parse, [line] + rest) == [Convert(parse, line)] + ConvertAll(parse, rest)
  {
    assert ([line] + rest)[1..] == rest;
  }

  lemma NoLine(parse: Text -> Parsed, t: Text, pushed: seq<Text>)
    requires LineEnd(t) == |t|
    ensures pushed + ConvertAll(parse, Lines(t)) == pushed && Rest(t) == t
  {}

  class DeployLogFormatter {
    const parse: Text -> Parsed
    var buffered: Text
    /** Everything handed to `push`, in order. */
    var pushed: seq<Text>

    constructor (parse: Text -> Parsed)
      ensures this.parse == parse && buffered == [] && pushed == []
    {
      this.parse := parse;
      buffered := [];
      pushed := [];
    }

    method Transform(chunk: Text)
      modifies this
      ensures pushed == old(pushed) + ConvertAll(parse, Lines(old(buffered) + Decoded(chunk)))
      ensures buffered == Rest(old(buffered) + Decoded(chunk))
    {
      hide Lines, Rest, ConvertAll, LineEnd, Trim, Decoded;
      var text := Decoded(chunk);
      buffered := buffered + text;
      ghost var all := buffered;
      var nl := LineEnd(buffered);
      while nl < |buffered|
        invariant nl == LineEnd(buffered)
        invariant pushed + ConvertAll(parse, Lines(buffered)) == old(pushed) + ConvertAll(parse, Lines(all))
        invariant Rest(buffered) == Rest(all)
        decreases |buffered|
      {
        var line := buffered[..nl];
        ghost var done := pushed;
        NextLine(parse, buffered, pushed);
        buffered := buffered[nl + 1..];
        if |Trim(line)| == 0 {
          pushed := pushed + [LINE_BREAK];
        } else {
          match parse(line) {
            case Unparsable => pushed := pushed + [line + LINE_BREAK];
            case NotPino => pushed := pushed + [line + LINE_BREAK];
            case Pino(deployLine) => pushed := pushed + [deployLine + LINE_BREAK];
          }
        }
        assert pushed == done + [Convert(parse, line)];
        nl := LineEnd(buffered);
      }
      NoLine(parse, buffered, pushed);
    }

    method Flush()
      modifies this
      ensures pushed == old(pushed) +
                        (if Blank(old(buffered)) then [] else [Convert(parse, old(buffered))])
      ensures buffered == if Blank(old(buffered)) then old(buffered) else []
    {
      if |Trim(buffered)| == 0 {
        return;
      }
      var line := buffered;
      buffered := [];
      match parse(line) {
        case Unparsable => pushed := pushed + [line + LINE_BREAK];
        case NotPino => pushed := pushed + [line + LINE_BREAK];
        case Pino(deployLine) => pushed := pushed + [deployLine + LINE_BREAK];
      }
    }
  }

  /** A stream: every write through `Transform`, then `Flush`. */
  method Pipe(parse: Text -> Parsed, chunks: seq<Text>) returns (out: seq<Text>)
    ensures out == WholeOutput(parse, Pieces(chunks))
  {
    var f := new DeployLogFormatter(parse);
    for i := 0 to |chunks|
      invariant f.parse == parse
      invariant f.pushed == ConvertAll(parse, Lines(Pieces(chunks[..i])))
      invariant f.buffered == Rest(Pieces(chunks[..i]))
    {
      assert chunks[..i + 1][..i] == chunks[..i];
      LinesSplit(Pieces(chunks[..i]), Decoded(chunks[i]));
      ConvertSplit(parse, Lines(Pieces(chunks[..i])), Lines(f.buffered + Decoded(chunks[i])));
      hide Lines, Rest, ConvertAll, Decoded;
      f.Transform(chunks[i]);
    }
    assert chunks[..|chunks|] == chunks;
    f.Flush();
    out := f.pushed;
  }

  /** All writes together, as written. */
  function Concat(chunks: seq<Text>): Text {
    if chunks == [] then [] else Concat(chunks[..|chunks| - 1]) + chunks[|chunks| - 1]
  }

  /** All writes together, as read. */
  function Pieces(chunks: seq<Text>): Text {
    if chunks == [] then [] else Pieces(chunks[..|chunks| - 1]) + Decoded(chunks[|chunks| - 1])
  }

  lemma {:induction false} ConvertSplit(parse: Text -> Parsed, a: seq<Text>, b: seq<Text>)
    ensures ConvertAll(parse, a + b) == ConvertAll(parse, a) + ConvertAll(parse, b)
  {
    if a == [] {
      assert a + b == b;
    } else {
      assert (a + b)[1..] == a[1..] + b;
      ConvertSplit(parse, a[1..], b);
    }
  }

  /** The lines of a text in two parts: those of the first, then those of its remainder and the second. */
  lemma {:induction false} LinesSplit(a: Text, b: Text)
    ensures Lines(a + b) == Lines(a) + Lines(Rest(a) + b)
    ensures Rest(a + b) == Rest(Rest(a) + b)
    decreases |a|
  {
    hide Lines, Rest;
    FirstLine(a);
    var n := LineEnd(a);
    if n < |a| {
      LineEndPrefix(a, b);
      FirstLine(a + b);
      hide LineEnd;
      assert (a + b)[..n] == a[..n] && (a + b)[n + 1..] == a[n + 1..] + b;
      LinesSplit(a[n + 1..], b);
      AssocLines([a[..n]], Lines(a[n + 1..]), Lines(Rest(a) + b));
    }
  }

  lemma AssocLines(a: seq<Text>, b: seq<Text>, c: seq<Text>)
    ensures (a + b) + c == a + (b + c)
  {
  }

  lemma LineEndPrefix(a: Text, b: Text)
    requires LineEnd(a) < |a|
    ensures LineEnd(a + b) == LineEnd(a)
  {
    var n, m := LineEnd(a), LineEnd(a + b);
    assert (a + b)[n] == a[n];
    assert forall k :: 0 <= k < n ==> (a + b)[k] == a[k];
  }

  function Unlines(lines: seq<Text>): Text { if lines == [] then [] else lines[0] + LINE_BREAK + Unlines(lines[1..]) }

  lemma FirstLine(t: Text)
    ensures LineEnd(t) == |t| ==> Lines(t) == [] && Rest(t) == t && Unlines([]) == []
    ensures LineEnd(t) < |t| ==>
              && t == t[..LineEnd(t)] + LINE_BREAK + t[LineEnd(t) + 1..]
              && Lines(t) == [t[..LineEnd(t)]] + Lines(t[LineEnd(t) + 1..])
              && Rest(t) == Rest(t[LineEnd(t) + 1..])
  {
    FirstLineText(t);
    hide LineEnd;
  }

  lemma FirstLineText(t: Text)
    ensures LineEnd(t) < |t| ==> t == t[..LineEnd(t)] + LINE_BREAK + t[LineEnd(t) + 1..]
  {
    CutAt(t, LineEnd(t));
  }

  lemma CutAt(t: Text, n: nat)
    requires n <= |t|
    ensures n < |t| ==> t == t[..n] + [t[n]] + t[n + 1..]
  {}

  lemma UnlinesCons(line: Text, lines: seq<Text>, rest: Text)
    ensures Unlines([line] + lines) + rest == line + LINE_BREAK + (Unlines(lines) + rest)
  {
    assert ([line] + lines)[1..] == lines;
    assert Unlines([line] + lines) == line + LINE_BREAK + Unlines(lines);
  }

  /** Cutting loses nothing: the lines and the remainder are the text, and none holds a newline. */
  lemma {:induction false} LinesRebuild(t: Text)
    ensures Unlines(Lines(t)) + Rest(t) == t
    ensures forall k :: 0 <= k < |Lines(t)| ==> NEWLINE !in Lines(t)[k]
    decreases |t|
  {
    hide Lines, Rest, Unlines;
    FirstLine(t);
    var n := LineEnd(t);
    if n < |t| {
      LinesRebuild(t[n + 1..]);
      UnlinesCons(t[..n], Lines(t[n + 1..]), Rest(t[n + 1..]));
    }
  }

  // ---------------------------------------------------------------- splitting a text

  /** The boundary falls inside a surrogate pair. */
  predicate SplitsPair(a: Text, b: Text) { a != [] && b != [] && High(a[|a| - 1]) && Low(b[0]) }

  /** Some write ends inside a surrogate pair that the next one completes. */
  ghost predicate SplitsSomePair(chunks: seq<Text>) {
    exists i :: 0 <= i < |chunks| && SplitsPair(Concat(chunks[..i]), chunks[i])
  }

  /** How many replacement characters a text holds. */
  function Lost(t: Text): nat { if t == [] then 0 else (if t[0] == REPLACEMENT then 1 else 0) + Lost(t[1..]) }

  lemma {:induction false} LostAppend(a: Text, b: Text)
    ensures Lost(a + b) == Lost(a) + Lost(b)
  {
    if a == [] {
      assert a + b == b;
    } else {
      assert (a + b)[1..] == a[1..] + b;
      LostAppend(a[1..], b);
    }
  }

  lemma {:induction false} DecodedAppend(a: Text, b: Text)
    requires !SplitsPair(a, b)
    ensures Decoded(a + b) == Decoded(a) + Decoded(b)
    decreases |a|
  {
    hide Decoded, DecodedFirst, Width, SplitsPair;
    if a == [] {
      DecodedNothing();
      assert a + b == b && [] + Decoded(b) == Decoded(b);
    } else {
      var n := Width(a);
      FirstOfAppend(a, b);
      DecodedStep(a);
      DecodedStep(a + b);
      DecodedAppend(a[n..], b);
      Assoc(DecodedFirst(a), Decoded(a[n..]), Decoded(b));
    }
  }

  lemma DecodedNothing()
    ensures Decoded([]) == []
  {}

  lemma DecodedStep(t: Text)
    requires t != []
    ensures Decoded(t) == DecodedFirst(t) + Decoded(t[Width(t)..])
  {}

  lemma FirstOfAppend(a: Text, b: Text)
    requires a != [] && !SplitsPair(a, b)
    ensures Width(a + b) == Width(a) && DecodedFirst(a + b) == DecodedFirst(a)
    ensures (a + b)[Width(a)..] == a[Width(a)..] + b
    ensures !SplitsPair(a[Width(a)..], b)
  {
    assert |a| == 1 && |b| > 0 ==> (a + b)[1] == b[0];
    assert |a| > 1 ==> (a + b)[1] == a[1];
  }

  lemma PairDecodes(hi: CodeUnit, lo: CodeUnit, rest: Text)
    requires High(hi) && Low(lo)
    ensures Decoded([hi, lo] + rest) == [hi, lo] + Decoded(rest)
    ensures Decoded([hi]) == [REPLACEMENT] && Decoded([lo] + rest) == [REPLACEMENT] + Decoded(rest)
  {
    assert ([hi, lo] + rest)[2..] == rest && Width([hi, lo] + rest) == 2;
    assert [hi][1..] == [] && ([lo] + rest)[1..] == rest;
  }

  lemma DecodedAround(before: Text, hi: CodeUnit, lo: CodeUnit, after: Text)
    requires High(hi) && Low(lo)
    ensures Decoded(before + [hi]) == Decoded(before) + [REPLACEMENT]
    ensures Decoded([lo] + after) == [REPLACEMENT] + Decoded(after)
    ensures Decoded(before + ([hi, lo] + after)) == Decoded(before) + ([hi, lo] + Decoded(after))
  {
    PairDecodes(hi, lo, after);
    hide Decoded;
    DecodedAppend(before, [hi]);
    DecodedAppend(before, [hi, lo] + after);
  }

  lemma LostAround(x: Text, hi: CodeUnit, lo: CodeUnit, y: Text)
    requires High(hi) && Low(lo)
    ensures Lost((x + [REPLACEMENT]) + ([REPLACEMENT] + y)) == Lost(x + ([hi, lo] + y)) + 2
  {
    hide Lost;
    assert (x + [REPLACEMENT]) + ([REPLACEMENT] + y) == x + ([REPLACEMENT, REPLACEMENT] + y);
    LostAppend(x, [REPLACEMENT, REPLACEMENT] + y);
    LostAppend(x, [hi, lo] + y);
    LostTwo(REPLACEMENT, REPLACEMENT, y);
    LostTwo(hi, lo, y);
  }

  /** Inside a pair, two characters are lost that the whole text keeps. */
  lemma DecodedSplit(a: Text, b: Text)
    requires SplitsPair(a, b)
    ensures Lost(Decoded(a) + Decoded(b)) == Lost(Decoded(a + b)) + 2
  {
    hide Decoded, Lost;
    var n := |a| - 1;
    var before, hi, lo, after := a[..n], a[n], b[0], b[1..];
    DecodedAround(before, hi, lo, after);
    LostAround(Decoded(before), hi, lo, Decoded(after));
    assert a == before + [hi];
    assert b == [lo] + after;
    assert a + b == before + ([hi, lo] + after);
  }

  lemma LostTwo(u: CodeUnit, v: CodeUnit, rest: Text)
    ensures Lost([u, v] + rest) == (if u == REPLACEMENT then 1 else 0) + (if v == REPLACEMENT then 1 else 0) + Lost(rest)
  {
    assert ([u, v] + rest)[1..] == [v] + rest && ([v] + rest)[1..] == rest;
  }

  /** Written without splitting a pair, a text is read whole; otherwise more of it is lost. */
  lemma {:induction false} PiecesOf(chunks: seq<Text>)
    ensures !SplitsSomePair(chunks) ==> Pieces(chunks) == Decoded(Concat(chunks))
    ensures Lost(Pieces(chunks)) >= Lost(Decoded(Concat(chunks)))
    ensures SplitsSomePair(chunks) ==> Lost(Pieces(chunks)) > Lost(Decoded(Concat(chunks)))
  {
    if chunks != [] {
      var n := |chunks| - 1;
      var init, last := chunks[..n], chunks[n];
      PiecesOf(init);
      SplitsLast(chunks);
      LostAppend(Pieces(init), Decoded(last));
      LostAppend(Decoded(Concat(init)), Decoded(last));
      if SplitsPair(Concat(init), last) {
        DecodedSplit(Concat(init), last);
      } else {
        DecodedAppend(Concat(init), last);
      }
    }
  }

  lemma SplitsLast(chunks: seq<Text>)
    requires chunks != []
    ensures var n := |chunks| - 1;
            SplitsSomePair(chunks) <==> SplitsSomePair(chunks[..n]) || SplitsPair(Concat(chunks[..n]), chunks[n])
  {
    var n := |chunks| - 1;
    hide Concat, SplitsPair;
    forall i | 0 <= i < n ensures chunks[..n][..i] == chunks[..i] && chunks[..n][i] == chunks[i] {}
  }

  /** The replacement characters of an output. */
  function LostIn(out: seq<Text>): nat { if out == [] then 0 else Lost(out[0]) + LostIn(out[1..]) }

  lemma {:induction false} LostInAppend(a: seq<Text>, b: seq<Text>)
    ensures LostIn(a + b) == LostIn(a) + LostIn(b)
  {
    if a == [] {
      assert a + b == b;
    } else {
      assert (a + b)[1..] == a[1..] + b;
      LostInAppend(a[1..], b);
    }
  }

  lemma {:induction false} BlankLosesNothing(line: Text)
    requires Solid(line) == []
    ensures Lost(line) == 0
  {
    if line != [] {
      BlankLosesNothing(line[1..]);
    }
  }

  /** A line that is no log record is passed on as it is, or is blank. */
  lemma LostInLine(parse: Text -> Parsed, line: Text)
    requires parse(line) == NotPino
    ensures Lost(Convert(parse, line)) == Lost(line)
    ensures Blank(line) ==> Lost(line) == 0
  {
    SolidTrim(line);
    if Blank(line) {
      BlankLosesNothing(line);
    }
    LostAppend(line, LINE_BREAK);
  }

  lemma {:induction false} LostInLines(parse: Text -> Parsed, lines: seq<Text>)
    requires forall t :: parse(t) == NotPino
    ensures LostIn(ConvertAll(parse, lines)) == Lost(Unlines(lines))
  {
    if lines != [] {
      LostInLines(parse, lines[1..]);
      LostInLine(parse, lines[0]);
      LostAppend(lines[0] + LINE_BREAK, Unlines(lines[1..]));
      LostAppend(lines[0], LINE_BREAK);
    }
  }

  lemma LostInWhole(parse: Text -> Parsed, t: Text)
    requires forall u :: parse(u) == NotPino
    ensures LostIn(WholeOutput(parse, t)) == Lost(t)
  {
    LinesRebuild(t);
    LostInLines(parse, Lines(t));
    LostInLine(parse, Rest(t));
    LostAppend(Unlines(Lines(t)), Rest(t));
    hide Lines, Rest, ConvertAll, Unlines, Convert;
    var last := if Blank(Rest(t)) then [] else [Convert(parse, Rest(t))];
    LostInAppend(ConvertAll(parse, Lines(t)), last);
    assert last != [] ==> last[1..] == [];
  }

  /**
   The output is that of the whole text, for everything lines may be turned into, exactly
   when no write ends inside a surrogate pair.
   */
  lemma SplittingMattersIff(chunks: seq<Text>)
    ensures (forall parse :: WholeOutput(parse, Pieces(chunks)) == WholeOutput(parse, Decoded(Concat(chunks))))
            <==> !SplitsSomePair(chunks)
  {
    PiecesOf(chunks);
    if SplitsSomePair(chunks) {
      var plain: Text -> Parsed := t => NotPino;
      LostInWhole(plain, Pieces(chunks));
      LostInWhole(plain, Decoded(Concat(chunks)));
      assert WholeOutput(plain, Pieces(chunks)) != WholeOutput(plain, Decoded(Concat(chunks)));
    }
  }
}
