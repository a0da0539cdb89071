/**
 What the cut of a window into chunks is, said without the loop: the packing of its lines
 into pieces that take as many lines as fit. There is exactly one, and its pieces that are
 not blank, trimmed and numbered, are the chunks.
 */
module Packing {
  import opened Chunker
  import opened Trimming

  /** Consecutive lines taken together, or one line that is too long. */
  datatype Piece = Whole(from: nat, to: nat) | Long(at: nat)

  function First(p: Piece): nat { if p.Whole? then p.from else p.at }

  function Next(p: Piece): nat { if p.Whole? then p.to else p.at + 1 }

  function End(ps: seq<Piece>): nat { if ps == [] then 0 else Next(ps[|ps| - 1]) }

  predicate Proper(lines: seq<Text>, max: int, p: Piece) {
    match p
    case Long(at) => at < |lines| && |lines[at]| > max
    case Whole(from, to) =>
      && from < to <= |lines| && |Trim(Join(lines[from..to]))| <= max
      && forall i :: from <= i < to ==> |lines[i]| <= max
  }

  /** Line `to` would make the piece too long. */
  predicate Full(lines: seq<Text>, max: int, p: Piece) {
    p.Whole? && p.from <= p.to < |lines| && |Trim(Join(lines[p.from..p.to + 1]))| > max
  }

  /** The pieces lie end to end, and a piece followed by another is full unless an over-long line follows. */
  ghost predicate EndToEnd(lines: seq<Text>, max: int, ps: seq<Piece>) {
    forall j :: 0 <= j < |ps| ==>
                  && Proper(lines, max, ps[j])
                  && First(ps[j]) == End(ps[..j])
                  && (j + 1 < |ps| && ps[j].Whole? && ps[j + 1].Whole? ==> Full(lines, max, ps[j]))
  }

  ghost predicate Packed(lines: seq<Text>, max: int, ps: seq<Piece>) {
    EndToEnd(lines, max, ps) && End(ps) == |lines|
  }

  // ---------------------------------------------------------------- the chunks of a packing

  datatype Span = Span(first: int, last: int, text: Text)

  /** An over-long line, cut every `max` characters. */
  function Cuts(line: Text, max: int, n: int): seq<Span>
    requires max >= 1
  {
    if |line| == 0 then []
    else if |line| <= max then [Span(n, n, line)]
    else [Span(n, n, line[..max])] + Cuts(line[max..], max, n)
  }

  function SpansOf(lines: seq<Text>, max: int, startLine: int, p: Piece): seq<Span>
    requires max >= 1 && Proper(lines, max, p)
  {
    match p
    case Whole(from, to) => [Span(startLine + from, startLine + to - 1, Join(lines[from..to]))]
    case Long(at) => Cuts(lines[at], max, startLine + at)
  }

  ghost function Spans(lines: seq<Text>, max: int, startLine: int, ps: seq<Piece>): seq<Span>
    requires max >= 1 && EndToEnd(lines, max, ps)
  {
    if ps == [] then []
    else
      Prefix(lines, max, ps, |ps| - 1);
      Spans(lines, max, startLine, ps[..|ps| - 1]) + SpansOf(lines, max, startLine, ps[|ps| - 1])
  }

  /** Trimmed, without the blank ones, numbered on from the chunks before. */
  function Emitted(chunks: seq<Chunk>, spans: seq<Span>): seq<Chunk> {
    if spans == [] then chunks
    else
      var before, s := Emitted(chunks, spans[..|spans| - 1]), spans[|spans| - 1];
      if forall k :: 0 <= k < |s.text| ==> IsWhite(s.text[k]) then before
      else before + [Chunk(|before|, s.first, s.last, Trim(s.text))]
  }

  lemma Prefix(lines: seq<Text>, max: int, ps: seq<Piece>, n: nat)
    requires EndToEnd(lines, max, ps) && n <= |ps|
    ensures EndToEnd(lines, max, ps[..n])
  {
    forall j | 0 <= j < n
      ensures Proper(lines, max, ps[..n][j]) && First(ps[..n][j]) == End(ps[..n][..j])
      ensures j + 1 < n && ps[..n][j].Whole? && ps[..n][j + 1].Whole? ==> Full(lines, max, ps[..n][j])
    {
      assert ps[..n][..j] == ps[..j] && ps[..n][j] == ps[j];
    }
  }

  // ---------------------------------------------------------------- longer windows

  lemma {:induction false} JoinPrefix(a: seq<Text>, b: seq<Text>)
    requires |a| > 0
    ensures Join(a) <= Join(a + b)
  {
    if |a| == 1 {
      assert b == [] ==> a + b == a;
      assert |b| > 0 ==> (a + b)[0] == a[0] && Join(a + b) == a[0] + [NEWLINE] + Join((a + b)[1..]);
    } else {
      assert (a + b)[0] == a[0] && (a + b)[1..] == a[1..] + b;
      JoinPrefix(a[1..], b);
    }
  }

  lemma LongerIsLonger(lines: seq<Text>, from: nat, mid: nat, to: nat)
    requires from < mid <= to <= |lines|
    ensures |Trim(Join(lines[from..mid]))| <= |Trim(Join(lines[from..to]))|
  {
    assert lines[from..to] == lines[from..mid] + lines[mid..to];
    JoinPrefix(lines[from..mid], lines[mid..to]);
    var a, b := Join(lines[from..mid]), Join(lines[from..to]);
    assert b == a + b[|a|..];
    TrimMonotone(a, b[|a|..]);
  }

  // ---------------------------------------------------------------- one packing at most

  /** What a packing says of one piece. */
  lemma PieceIs(lines: seq<Text>, max: int, ps: seq<Piece>, j: nat)
    requires Packed(lines, max, ps) && j < |ps|
    ensures Proper(lines, max, ps[j]) && First(ps[j]) == End(ps[..j])
    ensures j + 1 == |ps| ==> Next(ps[j]) == |lines|
    ensures j + 1 < |ps| ==>
              && First(ps[j + 1]) == Next(ps[j]) && Proper(lines, max, ps[j + 1])
              && (ps[j].Whole? && ps[j + 1].Whole? ==> Full(lines, max, ps[j]))
  {
    hide Proper, Full, First;
    assert ps[..j + 1][j] == ps[j];
  }

  lemma SamePiece(lines: seq<Text>, max: int, ps: seq<Piece>, qs: seq<Piece>, j: nat)
    requires Packed(lines, max, ps) && Packed(lines, max, qs)
    requires j < |ps| && j < |qs| && ps[..j] == qs[..j]
    requires ps[j].Whole? && qs[j].Whole?
    ensures qs[j].to <= ps[j].to
  {
    hide Trim, Join, Packed, End;
    PieceIs(lines, max, ps, j);
    PieceIs(lines, max, qs, j);
    if ps[j].to < qs[j].to {
      assert |lines[ps[j].to]| <= max;
      LongerIsLonger(lines, ps[j].from, ps[j].to + 1, qs[j].to);
    }
  }

  lemma {:induction false} SamePrefix(lines: seq<Text>, max: int, ps: seq<Piece>, qs: seq<Piece>, n: nat)
    requires Packed(lines, max, ps) && Packed(lines, max, qs) && n <= |ps|
    ensures n <= |qs| && ps[..n] == qs[..n]
  {
    hide Trim, Join, Full, EndToEnd;
    if n > 0 {
      var j := n - 1;
      SamePrefix(lines, max, ps, qs, j);
      PieceIs(lines, max, ps, j);
      assert j == |qs| ==> End(qs[..j]) == |lines| by { WholePrefix(qs); }
      assert First(ps[j]) < |lines|;
      PieceIs(lines, max, qs, j);
      if ps[j].Whole? && qs[j].Whole? {
        SamePiece(lines, max, ps, qs, j);
        SamePiece(lines, max, qs, ps, j);
      }
      assert ps[j] == qs[j];
      assert ps[..n] == ps[..j] + [ps[j]] && qs[..n] == qs[..j] + [qs[j]];
    }
  }

  lemma WholePrefix(qs: seq<Piece>)
    ensures qs[..|qs|] == qs
  {}

  lemma PackingIsUnique(lines: seq<Text>, max: int, ps: seq<Piece>, qs: seq<Piece>)
    requires Packed(lines, max, ps) && Packed(lines, max, qs)
    ensures ps == qs
  {
    hide Packed;
    SamePrefix(lines, max, ps, qs, |ps|);
    SamePrefix(lines, max, qs, ps, |qs|);
  }

  // ---------------------------------------------------------------- the loop packs

  lemma PushIsEmit(chunks: seq<Chunk>, spans: seq<Span>, piece: seq<Text>, first: int, last: int)
    ensures PushChunk(Emitted(chunks, spans), piece, first, last) == Emitted(chunks, spans + [Span(first, last, Join(piece))])
  {
    var more := spans + [Span(first, last, Join(piece))];
    assert more[..|more| - 1] == spans;
    BlankIff(Join(piece));
  }

  lemma {:induction false} SlicesAreCuts(chunks: seq<Chunk>, spans: seq<Span>, line: Text, offset: nat, max: int, n: int)
    requires max >= 1
    ensures Slices(Emitted(chunks, spans), line, offset, max, n)
            == Emitted(chunks, spans + Cuts(line[Min(offset, |line|)..], max, n))
    decreases |line| - offset
  {
    hide PushChunk, Emitted;
    var rest := line[Min(offset, |line|)..];
    if offset >= |line| {
      assert spans + Cuts(rest, max, n) == spans;
    } else {
      var piece := line[offset..Min(offset + max, |line|)];
      var s := Span(n, n, piece);
      PushIsEmit(chunks, spans, [piece], n, n);
      SlicesAreCuts(chunks, spans + [s], line, offset + max, max, n);
      CutFirst(line, offset, max, n);
      assert (spans + [s]) + Cuts(line[Min(offset + max, |line|)..], max, n) == spans + Cuts(rest, max, n);
    }
  }

  lemma CutFirst(line: Text, offset: nat, max: int, n: int)
    requires max >= 1 && offset < |line|
    ensures var end := Min(offset + max, |line|);
            Cuts(line[offset..], max, n) == [Span(n, n, line[offset..end])] + Cuts(line[end..], max, n)
  {
    if offset + max < |line| {
      assert line[offset..][..max] == line[offset..offset + max] && line[offset..][max..] == line[offset + max..];
    } else {
      assert line[|line|..] == [] && line[offset..|line|] == line[offset..];
    }
  }

  lemma Append(lines: seq<Text>, max: int, startLine: int, ps: seq<Piece>, p: Piece)
    requires max >= 1 && EndToEnd(lines, max, ps) && Proper(lines, max, p) && First(p) == End(ps)
    requires ps != [] && ps[|ps| - 1].Whole? && p.Whole? ==> Full(lines, max, ps[|ps| - 1])
    ensures EndToEnd(lines, max, ps + [p]) && End(ps + [p]) == Next(p)
    ensures Spans(lines, max, startLine, ps + [p]) == Spans(lines, max, startLine, ps) + SpansOf(lines, max, startLine, p)
  {
    hide Proper, Full;
    var more := ps + [p];
    assert more[..|ps|] == ps;
    forall j | 0 <= j < |more|
      ensures Proper(lines, max, more[j]) && First(more[j]) == End(more[..j])
      ensures j + 1 < |more| && more[j].Whole? && more[j + 1].Whole? ==> Full(lines, max, more[j])
    {
      if j < |ps| {
        assert more[..j] == ps[..j] && more[j] == ps[j];
      }
    }
  }

  /** The pieces so far, with the buffer as the piece still open. */
  ghost predicate Packing(chunks: seq<Chunk>, lines: seq<Text>, max: int, startLine: int, k: nat, ps: seq<Piece>, a: Acc)
    requires max >= 1 && k <= |lines|
  {
    && EndToEnd(lines, max, ps) && |a.buffer| <= k && End(ps) == k - |a.buffer|
    && a.chunks == Emitted(chunks, Spans(lines, max, startLine, ps))
    && (|a.buffer| > 0 ==>
          && a.buffer == lines[End(ps)..k] && a.bufferStartLine == startLine + End(ps)
          && Proper(lines, max, Whole(End(ps), k)))
    && (ps != [] && ps[|ps| - 1].Whole? ==> |a.buffer| > 0 && Full(lines, max, ps[|ps| - 1]))
  }

  /** Flushing the buffer closes the open piece. */
  lemma Close(chunks: seq<Chunk>, lines: seq<Text>, max: int, startLine: int, k: nat, ps: seq<Piece>, a: Acc)
    requires max >= 1 && k <= |lines| && Packing(chunks, lines, max, startLine, k, ps, a) && |a.buffer| > 0
    ensures var more := ps + [Whole(End(ps), k)];
            && EndToEnd(lines, max, more) && End(more) == k
            && FlushBuffer(a, startLine + k - 1).chunks == Emitted(chunks, Spans(lines, max, startLine, more))
  {
    hide Trim, Join, Emitted, PushChunk, Full, EndToEnd, Proper, Spans;
    Append(lines, max, startLine, ps, Whole(End(ps), k));
    PushIsEmit(chunks, Spans(lines, max, startLine, ps), a.buffer, a.bufferStartLine, startLine + k - 1);
  }

  lemma {:induction false} LinesPack(chunks: seq<Chunk>, lines: seq<Text>, max: int, startLine: int, k: nat)
    returns (ps: seq<Piece>)
    requires max >= 1 && k <= |lines|
    ensures Packing(chunks, lines, max, startLine, k, ps, TakeLines(chunks, lines, max, startLine, k))
  {
    hide Packing, TakeLine;
    if k == 0 {
      ps := [];
      NothingPacked(chunks, lines, max, startLine);
    } else {
      ps := LinesPack(chunks, lines, max, startLine, k - 1);
      ps := LinePacks(chunks, lines, max, startLine, k - 1, ps, TakeLines(chunks, lines, max, startLine, k - 1));
    }
  }

  lemma NothingPacked(chunks: seq<Chunk>, lines: seq<Text>, max: int, startLine: int)
    requires max >= 1
    ensures Packing(chunks, lines, max, startLine, 0, [], Acc(chunks, [], startLine))
  {}

  lemma LinePacks(chunks: seq<Chunk>, lines: seq<Text>, max: int, startLine: int, k: nat, ps: seq<Piece>, a: Acc)
    returns (qs: seq<Piece>)
    requires max >= 1 && k < |lines| && Packing(chunks, lines, max, startLine, k, ps, a)
    ensures Packing(chunks, lines, max, startLine, k + 1, qs, TakeLine(a, lines[k], startLine + k, max))
  {
    hide Packing, TakeLine;
    if |lines[k]| > max {
      qs := LongLinePacks(chunks, lines, max, startLine, k, ps, a);
    } else if |a.buffer| > 0 && |Trim(Join(a.buffer + [lines[k]]))| > max {
      qs := OverflowPacks(chunks, lines, max, startLine, k, ps, a);
    } else {
      qs := ps;
      FittingLinePacks(chunks, lines, max, startLine, k, ps, a);
    }
  }

  lemma OverflowPacks(chunks: seq<Chunk>, lines: seq<Text>, max: int, startLine: int, k: nat, ps: seq<Piece>, a: Acc)
    returns (qs: seq<Piece>)
    requires max >= 1 && k < |lines| && Packing(chunks, lines, max, startLine, k, ps, a)
    requires |lines[k]| <= max && |a.buffer| > 0 && |Trim(Join(a.buffer + [lines[k]]))| > max
    ensures Packing(chunks, lines, max, startLine, k + 1, qs, TakeLine(a, lines[k], startLine + k, max))
  {
    hide Trim, Join, Emitted, PushChunk, Slices, Spans, SpansOf, EndToEnd;
    Close(chunks, lines, max, startLine, k, ps, a);
    assert a.buffer + [lines[k]] == lines[End(ps)..k + 1];
    qs := ps + [Whole(End(ps), k)];
    assert Full(lines, max, Whole(End(ps), k));
    assert Proper(lines, max, Whole(k, k + 1)) && lines[k..k + 1] == [lines[k]] by { ShortLine(lines, k); }
    TakeOverflow(a, lines[k], startLine + k, max);
    hide Full, Proper, TakeLine, FlushBuffer;
  }

  lemma TakeOverflow(a: Acc, line: Text, n: int, max: int)
    requires max >= |line| && max >= 1 && |a.buffer| > 0 && |Trim(Join(a.buffer + [line]))| > max
    ensures TakeLine(a, line, n, max) == Acc(FlushBuffer(a, n - 1).chunks, [line], n)
  {
    hide Trim, Join, PushChunk;
  }

  lemma FittingLinePacks(chunks: seq<Chunk>, lines: seq<Text>, max: int, startLine: int, k: nat, ps: seq<Piece>, a: Acc)
    requires max >= 1 && k < |lines| && Packing(chunks, lines, max, startLine, k, ps, a)
    requires |lines[k]| <= max && (|a.buffer| > 0 ==> |Trim(Join(a.buffer + [lines[k]]))| <= max)
    ensures Packing(chunks, lines, max, startLine, k + 1, ps, TakeLine(a, lines[k], startLine + k, max))
  {
    hide Trim, Join, Emitted, PushChunk, Slices, Spans, SpansOf, EndToEnd, Full;
    ShortLine(lines, k);
    assert a.buffer + [lines[k]] == lines[End(ps)..k + 1];
  }

  lemma ShortLine(lines: seq<Text>, k: nat)
    requires k < |lines|
    ensures lines[k..k + 1] == [lines[k]] && [] + [lines[k]] == [lines[k]]
    ensures |Trim(Join([lines[k]]))| <= |lines[k]|
  {
    OneLine(lines[k]);
  }

  lemma LongLinePacks(chunks: seq<Chunk>, lines: seq<Text>, max: int, startLine: int, k: nat, ps: seq<Piece>, a: Acc)
    returns (qs: seq<Piece>)
    requires max >= 1 && k < |lines| && Packing(chunks, lines, max, startLine, k, ps, a) && |lines[k]| > max
    ensures Packing(chunks, lines, max, startLine, k + 1, qs, TakeLine(a, lines[k], startLine + k, max))
  {
    hide Trim, Join, Emitted, PushChunk, Slices, Spans, EndToEnd;
    var line, n := lines[k], startLine + k;
    qs := ps;
    if |a.buffer| > 0 {
      Close(chunks, lines, max, startLine, k, ps, a);
      qs := ps + [Whole(End(ps), k)];
    }
    Append(lines, max, startLine, qs, Long(k));
    SlicesAreCuts(chunks, Spans(lines, max, startLine, qs), line, 0, max, n);
    assert line[0..] == line;
    qs := qs + [Long(k)];
  }

  lemma WindowPacks(chunks: seq<Chunk>, lines: seq<Text>, max: int, startLine: int) returns (ps: seq<Piece>)
    requires max >= 1
    ensures Packed(lines, max, ps)
    ensures Bounded(chunks, lines, max, startLine) == Emitted(chunks, Spans(lines, max, startLine, ps))
  {
    hide TakeLines, Trim, Join, Emitted, PushChunk, Spans, EndToEnd;
    ps := LinesPack(chunks, lines, max, startLine, |lines|);
    var a := TakeLines(chunks, lines, max, startLine, |lines|);
    if |a.buffer| > 0 {
      Close(chunks, lines, max, startLine, |lines|, ps, a);
      ps := ps + [Whole(End(ps), |lines|)];
    }
  }

  /** A window has one packing, and its chunks are what the packing emits. */
  lemma BoundedIsPacking(chunks: seq<Chunk>, lines: seq<Text>, max: int, startLine: int)
    requires max >= 1
    ensures exists ps :: Packed(lines, max, ps)
    ensures forall ps :: Packed(lines, max, ps) ==>
              Bounded(chunks, lines, max, startLine) == Emitted(chunks, Spans(lines, max, startLine, ps))
  {
    hide Bounded, EndToEnd, Emitted, Spans;
    var qs := WindowPacks(chunks, lines, max, startLine);
    forall ps | Packed(lines, max, ps)
      ensures Bounded(chunks, lines, max, startLine) == Emitted(chunks, Spans(lines, max, startLine, ps))
    {
      PackingIsUnique(lines, max, ps, qs);
    }
  }

  /** A window that fits is one chunk: its trimmed text, from its first line to its last. */
  lemma FittingWindowIsOneChunk(chunks: seq<Chunk>, lines: seq<Text>, max: int, startLine: int)
    requires max >= 1 && |lines| > 0 && forall i :: 0 <= i < |lines| ==> |lines[i]| <= max
    requires 1 <= |Trim(Join(lines))| <= max
    ensures Bounded(chunks, lines, max, startLine)
            == chunks + [Chunk(|chunks|, startLine, startLine + |lines| - 1, Trim(Join(lines)))]
  {
    hide Bounded, Trim, Join, Emitted, Spans, Packed;
    OnePiece(lines, max, startLine);
    BoundedIsPacking(chunks, lines, max, startLine);
    OneSpan(chunks, Span(startLine, startLine + |lines| - 1, Join(lines)));
  }

  lemma OnePiece(lines: seq<Text>, max: int, startLine: int)
    requires max >= 1 && |lines| > 0 && forall i :: 0 <= i < |lines| ==> |lines[i]| <= max
    requires |Trim(Join(lines))| <= max
    ensures Packed(lines, max, [Whole(0, |lines|)])
    ensures Spans(lines, max, startLine, [Whole(0, |lines|)]) == [Span(startLine, startLine + |lines| - 1, Join(lines))]
  {
    hide Trim, Join, Full, Spans, EndToEnd;
    var none: seq<Piece> := [];
    assert lines[0..|lines|] == lines;
    assert Proper(lines, max, Whole(0, |lines|));
    hide Proper;
    NoPieces(lines, max, startLine);
    Append(lines, max, startLine, none, Whole(0, |lines|));
    assert none + [Whole(0, |lines|)] == [Whole(0, |lines|)];
  }

  lemma NoPieces(lines: seq<Text>, max: int, startLine: int)
    requires max >= 1
    ensures EndToEnd(lines, max, []) && Spans(lines, max, startLine, []) == []
  {}

  lemma OneSpan(chunks: seq<Chunk>, s: Span)
    requires |Trim(s.text)| > 0
    ensures Emitted(chunks, [s]) == chunks + [Chunk(|chunks|, s.first, s.last, Trim(s.text))]
  {
    BlankIff(s.text);
    hide Trim;
    assert [s][..0] == [];
  }

  /** A file whose text fits one window and one chunk is one chunk. */
  lemma SmallFileIsOneChunk(content: Text, o: ChunkingOptions, base: int)
    requires !IsProbablyBinary(content)
    requires var lines := SplitLines(content);
             && |lines| <= NormalizedChunkLines(o)
             && (forall i :: 0 <= i < |lines| ==> |lines[i]| <= NormalizedMaxChunkChars(o))
             && 1 <= |Trim(Join(lines))| <= NormalizedMaxChunkChars(o)
    ensures var lines := SplitLines(content);
            Chunks(content, o, base) == [Chunk(0, base, base + |lines| - 1, Trim(Join(lines)))]
  {
    hide Bounded, Trim, Join, SplitLines, IsProbablyBinary;
    var lines, max := SplitLines(content), NormalizedMaxChunkChars(o);
    assert FileWindows(content, o) == [Window(0, |lines|)];
    assert lines[0..|lines|] == lines;
    FittingWindowIsOneChunk([], lines, max, base);
    assert AfterWindows(lines, [Window(0, |lines|)], max, base, 0) == [];
  }

  // ---------------------------------------------------------------- lines

  /** The text without the carriage returns that stand before a line feed. */
  function DropReturns(t: Text): Text {
    if |t| == 0 then []
    else (if t[0] == 13 && |t| > 1 && t[1] == 10 then [] else [t[0]]) + DropReturns(t[1..])
  }

  /** The lines have no line feed, and put together again they are the text, carriage returns before line feeds aside. */
  lemma {:induction false} LinesAreTheText(t: Text)
    ensures Join(SplitLines(t)) == DropReturns(t)
    ensures forall i :: 0 <= i < |SplitLines(t)| ==> 10 !in SplitLines(t)[i]
  {
    hide Join;
    if |t| == 0 {
      assert Join([[]]) == [] by { OneLine([]); }
    } else if t[0] == NEWLINE {
      LinesAreTheText(t[1..]);
      JoinCons([], SplitLines(t[1..]));
      NoReturn(t);
    } else if t[0] == RETURN && |t| > 1 && t[1] == NEWLINE {
      LinesAreTheText(t[2..]);
      JoinCons([], SplitLines(t[2..]));
      NoReturn(t[1..]);
      assert t[1..][1..] == t[2..];
    } else {
      LinesAreTheText(t[1..]);
      JoinFirst(t[0], SplitLines(t[1..]));
    }
  }

  lemma NoReturn(t: Text)
    requires |t| > 0 && t[0] == 10
    ensures DropReturns(t) == [10] + DropReturns(t[1..])
  {}

  lemma JoinCons(line: Text, rest: seq<Text>)
    requires |rest| > 0
    ensures Join([line] + rest) == line + [10] + Join(rest)
  {
    assert ([line] + rest)[1..] == rest;
  }

  lemma JoinFirst(c: CodeUnit, rest: seq<Text>)
    requires |rest| > 0
    ensures Join([[c] + rest[0]] + rest[1..]) == [c] + Join(rest)
  {
    if |rest| > 1 {
      assert ([[c] + rest[0]] + rest[1..])[1..] == rest[1..];
    }
  }

  // ---------------------------------------------------------------- binary content

  /** Text without control characters is not taken for binary; a NUL always is. */
  lemma TextIsNotBinary(content: Text)
    ensures (forall k :: 0 <= k < |content| ==> content[k] in {9, 10, 11, 12, 13} || content[k] >= 32) ==> !IsProbablyBinary(content)
    ensures 0 in content ==> IsProbablyBinary(content)
  {
    if forall k :: 0 <= k < |content| ==> content[k] in {9, 10, 11, 12, 13} || content[k] >= 32 {
      NothingSuspicious(content[..Min(4096, |content|)]);
    }
  }

  /** The control characters among the first 4096, tabs, line ends and the like aside. */
  ghost function ControlsAt(content: Text): set<nat> {
    set k: nat | k < |content| && k < 4096 && (content[k] < 9 || 14 <= content[k] <= 31)
  }

  /** Binary is: a NUL anywhere, or more than a tenth of the first 4096 characters are control characters. */
  lemma BinaryIff(content: Text)
    ensures IsProbablyBinary(content) <==> 0 in content || 10 * |ControlsAt(content)| > Min(4096, |content|)
  {
    var n := Min(4096, |content|);
    CountIsSize(content[..n]);
    assert ControlsAt(content[..n]) == ControlsAt(content);
  }

  lemma {:induction false} CountIsSize(sample: Text)
    requires |sample| <= 4096
    ensures CountSuspicious(sample) == |ControlsAt(sample)|
  {
    if |sample| == 0 {
      assert ControlsAt(sample) == {};
    } else {
      var n := |sample| - 1;
      CountIsSize(sample[..n]);
      var c := sample[n];
      assert ControlsAt(sample) == ControlsAt(sample[..n]) + if c < 9 || 14 <= c <= 31 then {n} else {};
    }
  }

  lemma {:induction false} NothingSuspicious(sample: Text)
    requires forall k :: 0 <= k < |sample| ==> sample[k] in {9, 10, 11, 12, 13} || sample[k] >= 32
    ensures CountSuspicious(sample) == 0
  {
    if |sample| > 0 {
      NothingSuspicious(sample[..|sample| - 1]);
    }
  }
}
