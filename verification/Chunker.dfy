/**
 The line-window chunker. Text is a sequence of UTF-16 code units, as `length` and `slice`
 see it. The loops are proved equal to functions on values, and the functions are proved
 to lose no text, to respect the size limit and to report true line ranges.
 */
module Chunker {

  /** A code unit, by its number. */
  type CodeUnit = int
  type Text = seq<CodeUnit>

  datatype Option<T> = None | Some(value: T)

  const DEFAULT_CHUNK_LINES := 80
  const DEFAULT_OVERLAP_LINES := 10
  const DEFAULT_MAX_CHUNK_CHARS := 8000

  const NEWLINE: CodeUnit := 10
  const RETURN: CodeUnit := 13

  datatype ChunkingOptions = ChunkingOptions(
    chunkLines: Option<int>,
    overlapLines: Option<int>,
    maxChunkChars: Option<int>)

  datatype Chunk = Chunk(chunkIndex: nat, startLine: int, endLine: int, text: Text)

  function Max(a: int, b: int): int { if a > b then a else b }
  function Min(a: int, b: int): int { if a < b then a else b }

  function Or(o: Option<int>, default: int): int { if o.Some? then o.value else default }

  function NormalizedChunkLines(o: ChunkingOptions): int { Max(1, Or(o.chunkLines, DEFAULT_CHUNK_LINES)) }

  function NormalizedOverlapLines(o: ChunkingOptions): int {
    Min(Max(0, Or(o.overlapLines, DEFAULT_OVERLAP_LINES)), Max(0, NormalizedChunkLines(o) - 1))
  }

  function NormalizedMaxChunkChars(o: ChunkingOptions): int { Max(1, Or(o.maxChunkChars, DEFAULT_MAX_CHUNK_CHARS)) }

  // ---------------------------------------------------------------- text

  /** The white space and line terminators that `trim` removes. */
  predicate IsWhite(c: CodeUnit) {
    9 <= c <= 13 || c == 0x20 || c == 0xA0 || c == 0x1680 || 0x2000 <= c <= 0x200A
    || c == 0x2028 || c == 0x2029 || c == 0x202F || c == 0x205F || c == 0x3000 || c == 0xFEFF
  }

  function TrimStart(t: Text): Text { if |t| > 0 && IsWhite(t[0]) then TrimStart(t[1..]) else t }

  function TrimEnd(t: Text): Text { if |t| > 0 && IsWhite(t[|t| - 1]) then TrimEnd(t[..|t| - 1]) else t }

  function Trim(t: Text): Text { TrimEnd(TrimStart(t)) }

  function Join(lines: seq<Text>): Text {
    if |lines| == 0 then [] else if |lines| == 1 then lines[0] else lines[0] + [NEWLINE] + Join(lines[1..])
  }

  /** Splitting at a line feed with an optional carriage return before it. */
  function SplitLines(t: Text): (lines: seq<Text>)
    ensures |lines| > 0
  {
    if |t| == 0 then [[]]
    else if t[0] == NEWLINE then [[]] + SplitLines(t[1..])
    else if t[0] == RETURN && |t| > 1 && t[1] == NEWLINE then [[]] + SplitLines(t[2..])
    else
      var rest := SplitLines(t[1..]);
      [[t[0]] + rest[0]] + rest[1..]
  }

  /** The text with all white space removed. */
  function Solid(t: Text): Text {
    if |t| == 0 then [] else (if IsWhite(t[0]) then [] else [t[0]]) + Solid(t[1..])
  }

  function SolidLines(lines: seq<Text>): Text {
    if |lines| == 0 then [] else Solid(lines[0]) + SolidLines(lines[1..])
  }

  function SolidTexts(chunks: seq<Chunk>): Text {
    if |chunks| == 0 then [] else SolidTexts(chunks[..|chunks| - 1]) + Solid(chunks[|chunks| - 1].text)
  }

  lemma {:induction false} SolidAppend(a: Text, b: Text)
    ensures Solid(a + b) == Solid(a) + Solid(b)
  {
    if |a| == 0 {
      assert a + b == b;
    } else {
      assert (a + b)[1..] == a[1..] + b;
      SolidAppend(a[1..], b);
    }
  }

  lemma {:induction false} SolidTrimStart(t: Text)
    ensures Solid(TrimStart(t)) == Solid(t) && |TrimStart(t)| <= |t|
  {
    if |t| > 0 && IsWhite(t[0]) {
      SolidTrimStart(t[1..]);
    }
  }

  lemma {:induction false} SolidTrimEnd(t: Text)
    ensures Solid(TrimEnd(t)) == Solid(t) && |TrimEnd(t)| <= |t|
  {
    if |t| > 0 && IsWhite(t[|t| - 1]) {
      SolidTrimEnd(t[..|t| - 1]);
      SolidAppend(t[..|t| - 1], [t[|t| - 1]]);
      assert t[..|t| - 1] + [t[|t| - 1]] == t;
    }
  }

  lemma SolidTrim(t: Text)
    ensures Solid(Trim(t)) == Solid(t) && |Trim(t)| <= |t|
  {
    SolidTrimStart(t);
    SolidTrimEnd(TrimStart(t));
  }

  lemma {:induction false} SolidJoin(lines: seq<Text>)
    ensures Solid(Join(lines)) == SolidLines(lines)
  {
    if |lines| == 1 {
      assert SolidLines(lines[1..]) == [];
    } else if |lines| > 1 {
      SolidJoin(lines[1..]);
      SolidAppend(lines[0] + [NEWLINE], Join(lines[1..]));
      SolidAppend(lines[0], [NEWLINE]);
    }
  }

  lemma {:induction false} SolidLinesAppend(a: seq<Text>, b: seq<Text>)
    ensures SolidLines(a + b) == SolidLines(a) + SolidLines(b)
  {
    if |a| == 0 {
      assert a + b == b;
    } else {
      assert (a + b)[1..] == a[1..] + b;
      SolidLinesAppend(a[1..], b);
    }
  }

  lemma SolidOneLine(line: Text)
    ensures SolidLines([line]) == Solid(line)
  {
    assert [line][1..] == [];
  }

  /** Splitting into lines drops nothing but white space. */
  lemma {:induction false} SolidSplit(t: Text)
    ensures SolidLines(SplitLines(t)) == Solid(t)
  {
    if |t| > 0 {
      if t[0] == NEWLINE {
        SolidSplit(t[1..]);
        EmptyLineFirst(SplitLines(t[1..]));
      } else if t[0] == RETURN && |t| > 1 && t[1] == NEWLINE {
        SolidSplit(t[2..]);
        EmptyLineFirst(SplitLines(t[2..]));
        assert t[1..][1..] == t[2..];
        assert Solid(t) == Solid(t[1..]) == Solid(t[2..]);
      } else {
        SolidSplit(t[1..]);
        LongerLineFirst(t[0], SplitLines(t[1..]));
        hide SplitLines;
        SolidAppend([t[0]], t[1..]);
        assert t == [t[0]] + t[1..];
      }
    }
  }

  lemma EmptyLineFirst(rest: seq<Text>)
    ensures SolidLines([[]] + rest) == SolidLines(rest)
  {
    assert ([[]] + rest)[1..] == rest;
  }

  lemma SolidLinesCons(line: Text, rest: seq<Text>)
    ensures SolidLines([line] + rest) == Solid(line) + SolidLines(rest)
  {
    assert ([line] + rest)[1..] == rest;
  }

  lemma LongerLineFirst(c: CodeUnit, rest: seq<Text>)
    requires |rest| > 0
    ensures SolidLines([[c] + rest[0]] + rest[1..]) == Solid([c]) + SolidLines(rest)
  {
    hide Solid, SolidLines;
    SolidAppend([c], rest[0]);
    SolidLinesCons([c] + rest[0], rest[1..]);
    SolidLinesCons(rest[0], rest[1..]);
    assert rest == [rest[0]] + rest[1..];
    Assoc(Solid([c]), Solid(rest[0]), SolidLines(rest[1..]));
  }

  // ---------------------------------------------------------------- bounded pieces of a window

  function PushChunk(chunks: seq<Chunk>, lines: seq<Text>, startLine: int, endLine: int): seq<Chunk> {
    var text := Trim(Join(lines));
    if |text| == 0 then chunks else chunks + [Chunk(|chunks|, startLine, endLine, text)]
  }

  datatype Acc = Acc(chunks: seq<Chunk>, buffer: seq<Text>, bufferStartLine: int)

  function FlushBuffer(a: Acc, endLine: int): Acc {
    Acc(PushChunk(a.chunks, a.buffer, a.bufferStartLine, endLine), [], a.bufferStartLine)
  }

  function Slices(chunks: seq<Chunk>, line: Text, offset: nat, max: int, n: int): seq<Chunk>
    requires max >= 1
    decreases |line| - offset
  {
    if offset >= |line| then chunks
    else Slices(PushChunk(chunks, [line[offset..Min(offset + max, |line|)]], n, n), line, offset + max, max, n)
  }

  function TakeLine(a: Acc, line: Text, n: int, max: int): Acc
    requires max >= 1
  {
    if |line| > max then
      var a1 := if |a.buffer| > 0 then FlushBuffer(a, n - 1) else a;
      Acc(Slices(a1.chunks, line, 0, max, n), a1.buffer, n + 1)
    else
      var candidate := Trim(Join(a.buffer + [line]));
      var a1 := if |candidate| > max && |a.buffer| > 0 then FlushBuffer(a, n - 1).(bufferStartLine := n) else a;
      var a2 := if |a1.buffer| == 0 then a1.(bufferStartLine := n) else a1;
      a2.(buffer := a2.buffer + [line])
  }

  function TakeLines(chunks: seq<Chunk>, lines: seq<Text>, max: int, startLine: int, k: nat): Acc
    requires max >= 1 && k <= |lines|
  {
    if k == 0 then Acc(chunks, [], startLine)
    else TakeLine(TakeLines(chunks, lines, max, startLine, k - 1), lines[k - 1], startLine + k - 1, max)
  }

  function Bounded(chunks: seq<Chunk>, lines: seq<Text>, max: int, startLine: int): seq<Chunk>
    requires max >= 1
  {
    var a := TakeLines(chunks, lines, max, startLine, |lines|);
    if |a.buffer| > 0 then FlushBuffer(a, startLine + |lines| - 1).chunks else a.chunks
  }

  /** The chunk is the trim of exactly its lines, or a trimmed slice of one over-long line. */
  ghost predicate FromLines(lines: seq<Text>, startLine: int, max: int, c: Chunk) {
    && 1 <= |c.text| <= max
    && startLine <= c.startLine <= c.endLine < startLine + |lines|
    && (c.text == Trim(Join(lines[c.startLine - startLine..c.endLine - startLine + 1]))
        || (c.startLine == c.endLine && SliceOf(lines[c.startLine - startLine], max, c.text)))
  }

  ghost predicate SliceOf(line: Text, max: int, text: Text) {
    |line| > max && exists from, to :: 0 <= from < to <= |line| && to - from <= max && text == Trim(line[from..to])
  }

  ghost predicate Indexed(chunks: seq<Chunk>) { forall i :: 0 <= i < |chunks| ==> chunks[i].chunkIndex == i }

  ghost predicate AllFrom(chunks: seq<Chunk>, from: nat, lines: seq<Text>, startLine: int, max: int) {
    forall i :: from <= i < |chunks| ==> FromLines(lines, startLine, max, chunks[i])
  }

  lemma PushConserves(chunks: seq<Chunk>, lines: seq<Text>, startLine: int, endLine: int)
    ensures SolidTexts(PushChunk(chunks, lines, startLine, endLine)) == SolidTexts(chunks) + SolidLines(lines)
  {
    var text := Trim(Join(lines));
    SolidTrim(Join(lines));
    SolidJoin(lines);
    if |text| > 0 {
      var more := PushChunk(chunks, lines, startLine, endLine);
      assert more[..|more| - 1] == chunks;
    }
  }

  /** The extension of a chunk list by chunks with a property of their own. */
  ghost predicate Extends(r: seq<Chunk>, chunks: seq<Chunk>, lines: seq<Text>, startLine: int, max: int) {
    && chunks <= r && Indexed(r)
    && forall i :: |chunks| <= i < |r| ==> FromLines(lines, startLine, max, r[i])
  }

  lemma ExtendsSelf(a: seq<Chunk>, lines: seq<Text>, startLine: int, max: int)
    requires Indexed(a)
    ensures Extends(a, a, lines, startLine, max)
  {}

  lemma ExtendsTrans(a: seq<Chunk>, b: seq<Chunk>, c: seq<Chunk>, lines: seq<Text>, startLine: int, max: int)
    requires Extends(b, a, lines, startLine, max) && Extends(c, b, lines, startLine, max)
    ensures Extends(c, a, lines, startLine, max)
  {
    forall i | |a| <= i < |c| ensures FromLines(lines, startLine, max, c[i]) {
      if i < |b| {
        assert c[i] == b[i];
      }
    }
  }

  lemma PushExtends(chunks: seq<Chunk>, piece: seq<Text>, from: int, to: int, lines: seq<Text>, startLine: int, max: int)
    requires Indexed(chunks)
    requires |Trim(Join(piece))| > 0 ==> FromLines(lines, startLine, max, Chunk(|chunks|, from, to, Trim(Join(piece))))
    ensures Extends(PushChunk(chunks, piece, from, to), chunks, lines, startLine, max)
  {}

  lemma SlicePiece(lines: seq<Text>, k: nat, offset: nat, max: int, startLine: int, index: nat)
    requires max >= 1 && k < |lines| && |lines[k]| > max && offset < |lines[k]|
    ensures var line := lines[k];
            var piece := line[offset..Min(offset + max, |line|)];
            |Trim(piece)| > 0 ==> FromLines(lines, startLine, max, Chunk(index, startLine + k, startLine + k, Trim(piece)))
  {
    var line := lines[k];
    var end := Min(offset + max, |line|);
    SolidTrim(line[offset..end]);
    if |Trim(line[offset..end])| > 0 {
      assert SliceOf(line, max, Trim(line[offset..end]));
    }
  }

  lemma {:induction false} SlicesExtend(chunks: seq<Chunk>, lines: seq<Text>, k: nat, offset: nat, max: int, startLine: int)
    requires max >= 1 && k < |lines| && |lines[k]| > max && Indexed(chunks)
    ensures Extends(Slices(chunks, lines[k], offset, max, startLine + k), chunks, lines, startLine, max)
    decreases |lines[k]| - offset
  {
    var line, n := lines[k], startLine + k;
    if offset < |line| {
      var piece := line[offset..Min(offset + max, |line|)];
      var more := PushChunk(chunks, [piece], n, n);
      assert Join([piece]) == piece;
      SlicePiece(lines, k, offset, max, startLine, |chunks|);
      PushExtends(chunks, [piece], n, n, lines, startLine, max);
      SlicesExtend(more, lines, k, offset + max, max, startLine);
      ExtendsTrans(chunks, more, Slices(chunks, line, offset, max, n), lines, startLine, max);
    }
  }

  lemma Assoc(a: Text, b: Text, c: Text)
    ensures (a + b) + c == a + (b + c)
  {}

  lemma {:induction false} SlicesConserve(chunks: seq<Chunk>, line: Text, offset: nat, max: int, n: int)
    requires max >= 1
    ensures SolidTexts(Slices(chunks, line, offset, max, n)) == SolidTexts(chunks) + Solid(line[Min(offset, |line|)..])
    decreases |line| - offset
  {
    hide Solid, SolidLines, SolidTexts, PushChunk, Trim, Join;
    if offset < |line| {
      var end := Min(offset + max, |line|);
      var piece := line[offset..end];
      PushConserves(chunks, [piece], n, n);
      SolidOneLine(piece);
      SlicesConserve(PushChunk(chunks, [piece], n, n), line, offset + max, max, n);
      SolidAppend(piece, line[end..]);
      assert line[offset..] == piece + line[end..];
      Assoc(SolidTexts(chunks), Solid(piece), Solid(line[end..]));
    } else {
      SolidNothing();
      assert line[|line|..] == [];
    }
  }

  lemma SolidNothing()
    ensures Solid([]) == []
  {}

  /** The buffer holds the last lines taken, from its recorded start, and still fits. */
  ghost predicate BufferHolds(a: Acc, lines: seq<Text>, max: int, startLine: int, k: nat)
    requires k <= |lines|
  {
    && |a.buffer| <= k && a.buffer == lines[k - |a.buffer|..k]
    && (|a.buffer| > 0 ==> a.bufferStartLine == startLine + k - |a.buffer|)
    && |Trim(Join(a.buffer))| <= max
  }

  lemma FlushExtends(a: Acc, lines: seq<Text>, max: int, startLine: int, k: nat)
    requires max >= 1 && k <= |lines| && BufferHolds(a, lines, max, startLine, k) && |a.buffer| > 0 && Indexed(a.chunks)
    ensures Extends(FlushBuffer(a, startLine + k - 1).chunks, a.chunks, lines, startLine, max)
  {
    hide Trim, Join, SliceOf;
    var from, to := a.bufferStartLine, startLine + k - 1;
    assert lines[from - startLine..to - startLine + 1] == a.buffer;
    PushExtends(a.chunks, a.buffer, from, to, lines, startLine, max);
  }

  function Flushed(a: Acc, line: Text, n: int, max: int): Acc {
    if |a.buffer| > 0 && (|line| > max || |Trim(Join(a.buffer + [line]))| > max) then FlushBuffer(a, n - 1) else a
  }

  lemma TakeLineBuffer(a: Acc, lines: seq<Text>, max: int, startLine: int, k: nat)
    requires max >= 1 && k < |lines| && BufferHolds(a, lines, max, startLine, k)
    ensures BufferHolds(TakeLine(a, lines[k], startLine + k, max), lines, max, startLine, k + 1)
  {
    var line := lines[k];
    NoText();
    OneLine(line);
    hide Trim, Join, PushChunk, Slices;
    if |line| <= max {
      var kept := Flushed(a, line, startLine + k, max).buffer;
      assert lines[k - |kept|..k + 1] == lines[k - |kept|..k] + [line];
    }
  }

  lemma NoText()
    ensures Trim(Join([])) == []
  {}

  lemma OneLine(line: Text)
    ensures [] + [line] == [line] && Join([line]) == line && |Trim(Join([line]))| <= |line|
  {
    SolidTrim(line);
  }

  lemma TakeLineExtends(a: Acc, lines: seq<Text>, max: int, startLine: int, k: nat)
    requires max >= 1 && k < |lines| && BufferHolds(a, lines, max, startLine, k) && Indexed(a.chunks)
    ensures Extends(TakeLine(a, lines[k], startLine + k, max).chunks, a.chunks, lines, startLine, max)
  {
    hide Trim, Join, FromLines, Slices, PushChunk, Indexed;
    var line, n := lines[k], startLine + k;
    var a1 := Flushed(a, line, n, max);
    ExtendsSelf(a.chunks, lines, startLine, max);
    if |a.buffer| > 0 {
      FlushExtends(a, lines, max, startLine, k);
    }
    assert Extends(a1.chunks, a.chunks, lines, startLine, max);
    if |line| > max {
      SlicesExtend(a1.chunks, lines, k, 0, max, startLine);
      ExtendsTrans(a.chunks, a1.chunks, TakeLine(a, line, n, max).chunks, lines, startLine, max);
    }
  }

  lemma FlushedConserves(a: Acc, line: Text, n: int, max: int)
    ensures var a1 := Flushed(a, line, n, max);
            SolidTexts(a1.chunks) + SolidLines(a1.buffer) == SolidTexts(a.chunks) + SolidLines(a.buffer)
  {
    hide Solid, SolidLines, SolidTexts, PushChunk, Trim, Join;
    PushConserves(a.chunks, a.buffer, a.bufferStartLine, n - 1);
    NoSolid(SolidTexts(FlushBuffer(a, n - 1).chunks));
  }

  lemma TakeLineConserves(a: Acc, line: Text, max: int, n: int)
    requires max >= 1
    ensures var a' := TakeLine(a, line, n, max);
            SolidTexts(a'.chunks) + SolidLines(a'.buffer) == SolidTexts(a.chunks) + SolidLines(a.buffer) + Solid(line)
  {
    hide Solid, SolidLines, SolidTexts, PushChunk, Trim, Join, Slices;
    var a1 := Flushed(a, line, n, max);
    FlushedConserves(a, line, n, max);
    NoSolid(SolidTexts(a1.chunks));
    if |line| > max {
      SlicesConserve(a1.chunks, line, 0, max, n);
      assert line[0..] == line;
      NoSolid(SolidTexts(Slices(a1.chunks, line, 0, max, n)));
    } else {
      SolidLinesAppend(a1.buffer, [line]);
      SolidOneLine(line);
      Assoc(SolidTexts(a1.chunks), SolidLines(a1.buffer), Solid(line));
    }
  }

  lemma NoSolid(t: Text)
    ensures SolidLines([]) == [] && t + [] == t
  {}

  lemma {:induction false} TakeLinesHold(chunks: seq<Chunk>, lines: seq<Text>, max: int, startLine: int, k: nat)
    requires max >= 1 && k <= |lines| && Indexed(chunks)
    ensures var a := TakeLines(chunks, lines, max, startLine, k);
            BufferHolds(a, lines, max, startLine, k) && Extends(a.chunks, chunks, lines, startLine, max)
  {
    hide TakeLine, FromLines;
    if k == 0 {
      assert Trim(Join([])) == [];
    } else {
      TakeLinesHold(chunks, lines, max, startLine, k - 1);
      var a := TakeLines(chunks, lines, max, startLine, k - 1);
      TakeLineBuffer(a, lines, max, startLine, k - 1);
      TakeLineExtends(a, lines, max, startLine, k - 1);
      ExtendsTrans(chunks, a.chunks, TakeLine(a, lines[k - 1], startLine + k - 1, max).chunks, lines, startLine, max);
    }
  }

  lemma {:induction false} TakeLinesConserve(chunks: seq<Chunk>, lines: seq<Text>, max: int, startLine: int, k: nat)
    requires max >= 1 && k <= |lines|
    ensures var a := TakeLines(chunks, lines, max, startLine, k);
            SolidTexts(a.chunks) + SolidLines(a.buffer) == SolidTexts(chunks) + SolidLines(lines[..k])
  {
    hide TakeLine, Solid, SolidLines, SolidTexts;
    if k == 0 {
      assert lines[..0] == [];
    } else {
      TakeLinesConserve(chunks, lines, max, startLine, k - 1);
      TakeLineConserves(TakeLines(chunks, lines, max, startLine, k - 1), lines[k - 1], max, startLine + k - 1);
      assert lines[..k] == lines[..k - 1] + [lines[k - 1]];
      SolidLinesAppend(lines[..k - 1], [lines[k - 1]]);
      SolidOneLine(lines[k - 1]);
      Assoc(SolidTexts(chunks), SolidLines(lines[..k - 1]), Solid(lines[k - 1]));
    }
  }

  /** One window: every chunk is in bounds and true to its lines. */
  lemma BoundedExtends(chunks: seq<Chunk>, lines: seq<Text>, max: int, startLine: int)
    requires max >= 1 && Indexed(chunks)
    ensures Extends(Bounded(chunks, lines, max, startLine), chunks, lines, startLine, max)
  {
    hide TakeLines, FromLines, PushChunk;
    var a := TakeLines(chunks, lines, max, startLine, |lines|);
    TakeLinesHold(chunks, lines, max, startLine, |lines|);
    if |a.buffer| > 0 {
      FlushExtends(a, lines, max, startLine, |lines|);
      ExtendsTrans(chunks, a.chunks, Bounded(chunks, lines, max, startLine), lines, startLine, max);
    }
  }

  /** One window: the chunk texts carry everything but white space. */
  lemma BoundedConserves(chunks: seq<Chunk>, lines: seq<Text>, max: int, startLine: int)
    requires max >= 1
    ensures SolidTexts(Bounded(chunks, lines, max, startLine)) == SolidTexts(chunks) + SolidLines(lines)
  {
    hide TakeLines, SolidLines, SolidTexts, Solid, PushChunk;
    var a := TakeLines(chunks, lines, max, startLine, |lines|);
    TakeLinesConserve(chunks, lines, max, startLine, |lines|);
    assert lines[..|lines|] == lines;
    if |a.buffer| > 0 {
      PushConserves(a.chunks, a.buffer, a.bufferStartLine, startLine + |lines| - 1);
    } else {
      NoSolid(SolidTexts(a.chunks));
    }
  }

  method PushSlices(chunks: seq<Chunk>, line: Text, maxChunkChars: int, lineNumber: int) returns (r: seq<Chunk>)
    requires maxChunkChars >= 1
    ensures r == Slices(chunks, line, 0, maxChunkChars, lineNumber)
  {
    hide PushChunk;
    r := chunks;
    var offset := 0;
    while offset < |line|
      invariant offset >= 0
      invariant Slices(r, line, offset, maxChunkChars, lineNumber) == Slices(chunks, line, 0, maxChunkChars, lineNumber)
    {
      r := PushChunk(r, [line[offset..Min(offset + maxChunkChars, |line|)]], lineNumber, lineNumber);
      offset := offset + maxChunkChars;
    }
  }

  method PushBoundedLineChunks(chunks: seq<Chunk>, lines: seq<Text>, maxChunkChars: int, startLine: int)
    returns (r: seq<Chunk>)
    requires maxChunkChars >= 1
    ensures r == Bounded(chunks, lines, maxChunkChars, startLine)
  {
    hide PushChunk, Trim, Join, Slices;
    r := chunks;
    var buffer: seq<Text> := [];
    var bufferStartLine := startLine;
    var index := 0;
    while index < |lines|
      invariant 0 <= index <= |lines|
      invariant Acc(r, buffer, bufferStartLine) == TakeLines(chunks, lines, maxChunkChars, startLine, index)
    {
      var line := lines[index];
      var lineNumber := startLine + index;
      index := index + 1;
      ghost var before := Acc(r, buffer, bufferStartLine);
      assert TakeLines(chunks, lines, maxChunkChars, startLine, index) == TakeLine(before, line, lineNumber, maxChunkChars);
      if |line| > maxChunkChars {
        if |buffer| > 0 {
          r := PushChunk(r, buffer, bufferStartLine, lineNumber - 1);
          buffer := [];
        }
        r := PushSlices(r, line, maxChunkChars, lineNumber);
        bufferStartLine := lineNumber + 1;
        continue;
      }
      var candidate := Trim(Join(buffer + [line]));
      if |candidate| > maxChunkChars && |buffer| > 0 {
        r := PushChunk(r, buffer, bufferStartLine, lineNumber - 1);
        buffer := [];
        bufferStartLine := lineNumber;
      }
      if |buffer| == 0 {
        bufferStartLine := lineNumber;
      }
      buffer := buffer + [line];
    }
    if |buffer| > 0 {
      r := PushChunk(r, buffer, bufferStartLine, startLine + |lines| - 1);
    }
  }

  // ---------------------------------------------------------------- windows

  datatype Window = Window(start: nat, end: nat)

  function Windows(lines: nat, chunkLines: int, overlap: int, start: nat): seq<Window>
    requires chunkLines > overlap >= 0
    decreases lines - start
  {
    if start >= lines then []
    else
      var end := Min(start + chunkLines, lines);
      [Window(start, end)] + (if end >= lines then [] else Windows(lines, chunkLines, overlap, start + chunkLines - overlap))
  }

  lemma {:induction false} WindowAt(lines: nat, chunkLines: int, overlap: int, start: nat, i: nat)
    requires chunkLines > overlap >= 0 && start < lines && i < |Windows(lines, chunkLines, overlap, start)|
    ensures var ws := Windows(lines, chunkLines, overlap, start);
            && ws[0].start == start
            && ws[i].start < ws[i].end <= lines
            && (if i + 1 < |ws| then
                  ws[i].end == ws[i].start + chunkLines && ws[i + 1].start == ws[i].end - overlap
                else ws[i].end == lines <= ws[i].start + chunkLines)
    decreases lines - start
  {
    var ws := Windows(lines, chunkLines, overlap, start);
    var next := start + chunkLines - overlap;
    if start + chunkLines < lines {
      var rest := Windows(lines, chunkLines, overlap, next);
      if i == 0 {
        WindowAt(lines, chunkLines, overlap, next, 0);
      } else {
        WindowAt(lines, chunkLines, overlap, next, i - 1);
        assert ws[i] == rest[i - 1];
        assert i + 1 < |ws| ==> ws[i + 1] == rest[i];
      }
    }
  }

  /** No window is empty, and none has more than `chunkLines` lines. */
  ghost predicate Sized(ws: seq<Window>, lines: nat, chunkLines: int) {
    forall i :: 0 <= i < |ws| ==> ws[i].start < ws[i].end <= lines && ws[i].end <= ws[i].start + chunkLines
  }

  /** Neighbouring windows share exactly `overlap` lines, and all but the last are full. */
  ghost predicate Overlapping(ws: seq<Window>, chunkLines: int, overlap: int) {
    forall i :: 0 <= i < |ws| ==> SharesNext(ws, i, chunkLines, overlap)
  }

  predicate SharesNext(ws: seq<Window>, i: int, chunkLines: int, overlap: int)
    requires 0 <= i < |ws|
  {
    i + 1 < |ws| ==> ws[i].end - ws[i + 1].start == overlap && ws[i].end == ws[i].start + chunkLines
  }

  /** The windows cover every line, and neighbours share exactly `overlap` lines. */
  lemma WindowsCover(lines: nat, chunkLines: int, overlap: int)
    requires chunkLines > overlap >= 0 && lines > 0
    ensures var ws := Windows(lines, chunkLines, overlap, 0);
            && |ws| > 0 && ws[0].start == 0 && ws[|ws| - 1].end == lines
            && Sized(ws, lines, chunkLines) && Overlapping(ws, chunkLines, overlap)
  {
    hide Windows;
    WindowsFrom(lines, chunkLines, overlap, 0);
    var ws := Windows(lines, chunkLines, overlap, 0);
    WindowAt(lines, chunkLines, overlap, 0, 0);
    WindowAt(lines, chunkLines, overlap, 0, |ws| - 1);
    forall i | 0 <= i < |ws| ensures ws[i].start < ws[i].end <= lines && ws[i].end <= ws[i].start + chunkLines {
      WindowAt(lines, chunkLines, overlap, 0, i);
    }
    forall i | 0 <= i < |ws| ensures SharesNext(ws, i, chunkLines, overlap) {
      WindowAt(lines, chunkLines, overlap, 0, i);
    }
  }

  lemma {:induction false} EveryLineInAWindow(lines: nat, chunkLines: int, overlap: int, start: nat, l: nat)
    requires chunkLines > overlap >= 0 && start <= l < lines
    ensures exists i :: 0 <= i < |Windows(lines, chunkLines, overlap, start)|
              && Windows(lines, chunkLines, overlap, start)[i].start <= l < Windows(lines, chunkLines, overlap, start)[i].end
    decreases lines - start
  {
    var ws := Windows(lines, chunkLines, overlap, start);
    if l < ws[0].end {
      assert ws[0].start <= l < ws[0].end;
    } else {
      var next := start + chunkLines - overlap;
      EveryLineInAWindow(lines, chunkLines, overlap, next, l);
      var rest := Windows(lines, chunkLines, overlap, next);
      var i :| 0 <= i < |rest| && rest[i].start <= l < rest[i].end;
      assert ws[i + 1] == rest[i];
    }
  }

  function CountSuspicious(sample: Text): nat {
    if |sample| == 0 then 0
    else
      var c := sample[|sample| - 1];
      CountSuspicious(sample[..|sample| - 1]) + (if c < 9 || (c > 13 && c < 32) then 1 else 0)
  }

  predicate IsProbablyBinary(content: Text) {
    var sample := content[..Min(4096, |content|)];
    0 in content || (|sample| > 0 && CountSuspicious(sample) * 10 > |sample|)
  }

  method IsProbablyBinaryContent(content: Text) returns (binary: bool)
    ensures binary == IsProbablyBinary(content)
  {
    if 0 in content {
      return true;
    }
    var sample := content[..Min(4096, |content|)];
    if |sample| == 0 {
      return false;
    }
    var suspicious := 0;
    for i := 0 to |sample|
      invariant suspicious == CountSuspicious(sample[..i])
    {
      assert sample[..i + 1][..i] == sample[..i];
      if sample[i] < 9 || (sample[i] > 13 && sample[i] < 32) {
        suspicious := suspicious + 1;
      }
    }
    assert sample[..|sample|] == sample;
    return suspicious * 10 > |sample|;
  }

  /** The chunks after the first `k` windows. */
  function AfterWindows(lines: seq<Text>, ws: seq<Window>, max: int, baseStartLine: int, k: nat): seq<Chunk>
    requires max >= 1 && k <= |ws|
    requires forall i :: 0 <= i < |ws| ==> ws[i].start <= ws[i].end <= |lines|
  {
    if k == 0 then []
    else
      var w := ws[k - 1];
      Bounded(AfterWindows(lines, ws, max, baseStartLine, k - 1), lines[w.start..w.end], max, baseStartLine + w.start)
  }

  function FileWindows(content: Text, o: ChunkingOptions): (ws: seq<Window>)
    ensures |ws| > 0 && forall i :: 0 <= i < |ws| ==> ws[i].start <= ws[i].end <= |SplitLines(content)|
  {
    WindowsCover(|SplitLines(content)|, NormalizedChunkLines(o), NormalizedOverlapLines(o));
    Windows(|SplitLines(content)|, NormalizedChunkLines(o), NormalizedOverlapLines(o), 0)
  }

  function Chunks(content: Text, o: ChunkingOptions, baseStartLine: int): seq<Chunk> {
    if IsProbablyBinary(content) then []
    else
      var ws := FileWindows(content, o);
      AfterWindows(SplitLines(content), ws, NormalizedMaxChunkChars(o), baseStartLine, |ws|)
  }

  /** Whatever the options are, windows have lines and move forward, and pieces may have text. */
  lemma OptionsUsable(o: ChunkingOptions)
    ensures NormalizedMaxChunkChars(o) >= 1
    ensures 0 <= NormalizedOverlapLines(o) < NormalizedChunkLines(o)
    ensures o.chunkLines == None ==> NormalizedChunkLines(o) == 80
    ensures o.maxChunkChars == None ==> NormalizedMaxChunkChars(o) == 8000
    ensures o.overlapLines == None && NormalizedChunkLines(o) > 10 ==> NormalizedOverlapLines(o) == 10
    ensures forall n :: o.chunkLines == Some(n) && n >= 1 ==> NormalizedChunkLines(o) == n
    ensures forall n :: o.maxChunkChars == Some(n) && n >= 1 ==> NormalizedMaxChunkChars(o) == n
    ensures forall n :: o.overlapLines == Some(n) && 0 <= n < NormalizedChunkLines(o) ==> NormalizedOverlapLines(o) == n
  {}

  lemma WindowsFrom(lines: nat, chunkLines: int, overlap: int, start: nat)
    requires chunkLines > overlap >= 0 && start < lines
    ensures var end := Min(start + chunkLines, lines);
            Windows(lines, chunkLines, overlap, start)
            == [Window(start, end)]
               + if end >= lines then [] else Windows(lines, chunkLines, overlap, start + chunkLines - overlap)
    ensures |Windows(lines, chunkLines, overlap, start)| > 0
  {}

  method ChunkFileWithLineWindows(content: Text, o: ChunkingOptions, baseStartLine: int) returns (chunks: seq<Chunk>)
    ensures chunks == Chunks(content, o, baseStartLine)
  {
    hide Bounded, SplitLines, IsProbablyBinary, Windows, NormalizedMaxChunkChars, NormalizedChunkLines, NormalizedOverlapLines;
    var binary := IsProbablyBinaryContent(content);
    if binary {
      return [];
    }
    OptionsUsable(o);
    var chunkLines := NormalizedChunkLines(o);
    var overlapLines := NormalizedOverlapLines(o);
    var maxChunkChars := NormalizedMaxChunkChars(o);
    var step := chunkLines - overlapLines;
    var lines := SplitLines(content);
    chunks := [];
    ghost var ws := FileWindows(content, o);
    ghost var k := 0;
    var start := 0;
    while start < |lines|
      invariant 0 <= k < |ws| && 0 <= start < |lines|
      invariant ws[k..] == Windows(|lines|, chunkLines, overlapLines, start)
      invariant chunks == AfterWindows(lines, ws, maxChunkChars, baseStartLine, k)
      decreases |lines| - start
    {
      var endExclusive := Min(start + chunkLines, |lines|);
      WindowsFrom(|lines|, chunkLines, overlapLines, start);
      assert ws[k..][0] == ws[k] == Window(start, endExclusive);
      chunks := PushBoundedLineChunks(chunks, lines[start..endExclusive], maxChunkChars, baseStartLine + start);
      assert ws[k..][1..] == ws[k + 1..];
      k := k + 1;
      if endExclusive >= |lines| {
        assert ws[k..] == [];
        break;
      }
      start := start + step;
      WindowsFrom(|lines|, chunkLines, overlapLines, start);
    }
  }

  /** What window `k` (from 1) contributes carries exactly its text and comes from its lines. */
  lemma WindowContributes(lines: seq<Text>, ws: seq<Window>, max: int, base: int, k: nat)
    requires max >= 1 && 0 < k <= |ws|
    requires forall i :: 0 <= i < |ws| ==> ws[i].start <= ws[i].end <= |lines|
    ensures var before, after := AfterWindows(lines, ws, max, base, k - 1), AfterWindows(lines, ws, max, base, k);
            var own := lines[ws[k - 1].start..ws[k - 1].end];
            && SolidTexts(after) == SolidTexts(before) + SolidLines(own)
            && Extends(after, before, own, base + ws[k - 1].start, max)
  {
    hide Bounded, FromLines, SolidTexts, SolidLines;
    var before, w := AfterWindows(lines, ws, max, base, k - 1), ws[k - 1];
    WindowsIndexed(lines, ws, max, base, k - 1);
    BoundedConserves(before, lines[w.start..w.end], max, base + w.start);
    BoundedExtends(before, lines[w.start..w.end], max, base + w.start);
  }

  lemma {:induction false} WindowsIndexed(lines: seq<Text>, ws: seq<Window>, max: int, base: int, k: nat)
    requires max >= 1 && k <= |ws|
    requires forall i :: 0 <= i < |ws| ==> ws[i].start <= ws[i].end <= |lines|
    ensures Indexed(AfterWindows(lines, ws, max, base, k))
    ensures AllFrom(AfterWindows(lines, ws, max, base, k), 0, lines, base, max)
  {
    hide Bounded, FromLines;
    if k > 0 {
      WindowsIndexed(lines, ws, max, base, k - 1);
      var before, w := AfterWindows(lines, ws, max, base, k - 1), ws[k - 1];
      BoundedExtends(before, lines[w.start..w.end], max, base + w.start);
      var after := AfterWindows(lines, ws, max, base, k);
      forall i | 0 <= i < |after| ensures FromLines(lines, base, max, after[i]) {
        if i < |before| {
          assert after[i] == before[i];
        } else {
          FromWindow(lines, w, base, max, after[i]);
        }
      }
    }
  }

  lemma FromWindow(lines: seq<Text>, w: Window, base: int, max: int, c: Chunk)
    requires w.start <= w.end <= |lines| && FromLines(lines[w.start..w.end], base + w.start, max, c)
    ensures FromLines(lines, base, max, c)
  {
    var own, start := lines[w.start..w.end], base + w.start;
    SliceOfSlice(lines, w.start, w.end, c.startLine - start, c.endLine - start + 1);
    assert own[c.startLine - start] == lines[c.startLine - base];
  }

  lemma SliceOfSlice(lines: seq<Text>, from: nat, to: nat, i: int, j: int)
    requires from <= to <= |lines| && 0 <= i <= j <= to - from
    ensures lines[from..to][i..j] == lines[from + i..from + j]
  {
    var a, b := lines[from..to][i..j], lines[from + i..from + j];
    assert |a| == |b| && forall k :: 0 <= k < |a| ==> a[k] == b[k];
  }

  /** Every chunk of a file, for every text and every setting of the options. */
  lemma ChunksAreSound(content: Text, o: ChunkingOptions, base: int)
    ensures var chunks := Chunks(content, o, base);
            && Indexed(chunks)
            && AllFrom(chunks, 0, SplitLines(content), base, NormalizedMaxChunkChars(o))
  {
    if !IsProbablyBinary(content) {
      var ws := FileWindows(content, o);
      WindowsIndexed(SplitLines(content), ws, NormalizedMaxChunkChars(o), base, |ws|);
    }
  }

  /** Without overlap the chunk texts together are the whole file, white space aside. */
  lemma ChunksConserveText(content: Text, o: ChunkingOptions, base: int)
    requires !IsProbablyBinary(content) && NormalizedOverlapLines(o) == 0
    ensures SolidTexts(Chunks(content, o, base)) == Solid(content)
  {
    hide SplitLines, Windows, Solid, SolidLines, SolidTexts, AfterWindows, IsProbablyBinary;
    var lines, ws := SplitLines(content), FileWindows(content, o);
    WindowsCover(|lines|, NormalizedChunkLines(o), 0);
    WindowsConserve(lines, ws, NormalizedChunkLines(o), NormalizedMaxChunkChars(o), base, |ws|);
    assert lines[..|lines|] == lines;
    SolidSplit(content);
  }

  lemma SolidNoChunks()
    ensures SolidTexts([]) == []
  {}

  lemma {:induction false} WindowsConserve(lines: seq<Text>, ws: seq<Window>, chunkLines: int, max: int, base: int, k: nat)
    requires max >= 1 && 0 < k <= |ws| && ws[0].start == 0
    requires forall i :: 0 <= i < |ws| ==> ws[i].start <= ws[i].end <= |lines|
    requires Overlapping(ws, chunkLines, 0)
    ensures SolidTexts(AfterWindows(lines, ws, max, base, k)) == SolidLines(lines[..ws[k - 1].end])
  {
    hide Bounded, SolidLines, SolidTexts;
    var w := ws[k - 1];
    WindowContributes(lines, ws, max, base, k);
    if k == 1 {
      assert lines[w.start..w.end] == lines[..w.end];
      SolidNoChunks();
    } else {
      WindowsConserve(lines, ws, chunkLines, max, base, k - 1);
      assert SharesNext(ws, k - 2, chunkLines, 0);
      SolidLinesAppend(lines[..w.start], lines[w.start..w.end]);
      assert lines[..w.end] == lines[..w.start] + lines[w.start..w.end];
    }
  }
}
