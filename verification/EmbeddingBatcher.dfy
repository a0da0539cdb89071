/**
 The embedding batcher of a full index, and the pool of file workers that feeds it.
 Concurrent `add` calls share one current batch and give up control at every flush, so a
 call is cut into sections; the results hold for every interleaving of the sections, of
 the embedding tasks and of the final flush.
 */
module EmbeddingBatcher {

  /** Chunk `index` of file `file`; `chars` is the length of its text. */
  datatype Chunk = Chunk(file: nat, index: nat, chars: nat)

  datatype Limits = Limits(batchSize: nat, batchMaxChars: nat)

  /** `pushed` is history: every chunk put into the current batch, in order. */
  datatype Batcher = Batcher(current: seq<Chunk>, currentChars: nat, scheduled: seq<seq<Chunk>>, pushed: seq<Chunk>)

  predicate Positive(limits: Limits) { limits.batchSize >= 1 && limits.batchMaxChars >= 1 }

  function PositiveIntegerOption(value: int): (r: nat)
    ensures r >= 1 && (value >= 1 ==> r == value)
  {
    if value < 1 then 1 else value
  }

  const EMPTY := Batcher([], 0, [], [])

  function Chars(chunks: seq<Chunk>): nat {
    if |chunks| == 0 then 0 else Chars(chunks[..|chunks| - 1]) + chunks[|chunks| - 1].chars
  }

  function Flat(batches: seq<seq<Chunk>>): seq<Chunk> {
    if |batches| == 0 then [] else Flat(batches[..|batches| - 1]) + batches[|batches| - 1]
  }

  // ---------------------------------------------------------------- sections of `add`

  predicate FlushesBefore(limits: Limits, b: Batcher, c: Chunk) {
    |b.current| > 0 && (|b.current| >= limits.batchSize || b.currentChars + c.chars > limits.batchMaxChars)
  }

  predicate FlushesAfter(limits: Limits, b: Batcher) {
    |b.current| >= limits.batchSize || b.currentChars >= limits.batchMaxChars
  }

  function Flush(b: Batcher): Batcher {
    if |b.current| == 0 then b else Batcher([], 0, b.scheduled + [b.current], b.pushed)
  }

  function Push(b: Batcher, c: Chunk): Batcher {
    b.(current := b.current + [c], currentChars := b.currentChars + c.chars, pushed := b.pushed + [c])
  }

  /** Where an `add` call stands: `pushNext` once the flush before a chunk has been awaited. */
  datatype Section = Section(b: Batcher, at: nat, pushNext: bool, awaiting: bool)

  /** From one await to the next, or to the end of the call. */
  function RunSection(limits: Limits, b: Batcher, chunks: seq<Chunk>, at: nat, pushNext: bool): Section
    requires at <= |chunks|
    decreases |chunks| - at
  {
    if at == |chunks| then Section(b, at, false, false)
    else if !pushNext && FlushesBefore(limits, b, chunks[at]) then Section(Flush(b), at, true, true)
    else
      var b1 := Push(b, chunks[at]);
      if FlushesAfter(limits, b1) then Section(Flush(b1), at + 1, false, true)
      else RunSection(limits, b1, chunks, at + 1, false)
  }

  /** Every scheduled batch is non-empty and within the limits, up to its last chunk. */
  ghost predicate BatchFits(limits: Limits, batch: seq<Chunk>) {
    1 <= |batch| <= limits.batchSize && Chars(batch[..|batch| - 1]) < limits.batchMaxChars
  }

  ghost predicate AllFit(limits: Limits, batches: seq<seq<Chunk>>) {
    forall i :: 0 <= i < |batches| ==> BatchFits(limits, batches[i])
  }

  /** Nothing is lost, repeated or reordered. */
  ghost predicate InOrder(b: Batcher) { Flat(b.scheduled) + b.current == b.pushed && b.currentChars == Chars(b.current) }

  ghost predicate BatchInv(limits: Limits, b: Batcher) {
    && InOrder(b)
    && |b.current| < limits.batchSize && Chars(b.current) < limits.batchMaxChars
    && AllFit(limits, b.scheduled)
  }

  lemma FlushInOrder(b: Batcher)
    requires InOrder(b)
    ensures InOrder(Flush(b))
  {
    if |b.current| > 0 {
      var s := Flush(b).scheduled;
      assert s[..|s| - 1] == b.scheduled && s[|s| - 1] == b.current;
    }
  }

  lemma FlushAllFit(limits: Limits, b: Batcher)
    requires AllFit(limits, b.scheduled) && (|b.current| > 0 ==> BatchFits(limits, b.current))
    ensures AllFit(limits, Flush(b).scheduled)
  {
    hide BatchFits;
  }

  lemma FlushKeeps(limits: Limits, b: Batcher)
    requires Positive(limits) && InOrder(b) && AllFit(limits, b.scheduled)
    requires |b.current| > 0 ==> BatchFits(limits, b.current)
    ensures BatchInv(limits, Flush(b)) && Flush(b).current == []
    ensures b.scheduled <= Flush(b).scheduled
  {
    FlushInOrder(b);
    FlushAllFit(limits, b);
    hide InOrder, AllFit, BatchFits;
  }

  lemma CurrentFits(limits: Limits, b: Batcher)
    requires BatchInv(limits, b) && |b.current| > 0
    ensures BatchFits(limits, b.current) && Chars(b.current) <= limits.batchMaxChars
  {
    assert b.current[..|b.current| - 1] + [b.current[|b.current| - 1]] == b.current;
  }

  lemma CharsSnoc(chunks: seq<Chunk>, c: Chunk)
    ensures Chars(chunks + [c]) == Chars(chunks) + c.chars
  {
    assert (chunks + [c])[..|chunks|] == chunks;
  }

  lemma PushInOrder(b: Batcher, c: Chunk)
    requires InOrder(b)
    ensures InOrder(Push(b, c))
  {
    CharsSnoc(b.current, c);
    hide Flat, Chars;
  }

  /** One more chunk: the batch still fits, and stays open unless it is now to be flushed. */
  lemma PushFits(limits: Limits, b: Batcher, c: Chunk)
    requires Positive(limits) && BatchInv(limits, b)
    ensures var b1 := Push(b, c);
            && InOrder(b1) && b1.scheduled == b.scheduled && BatchFits(limits, b1.current)
            && (!FlushesAfter(limits, b1) ==> BatchInv(limits, b1))
  {
    PushInOrder(b, c);
    var b1 := Push(b, c);
    assert b1.current[..|b1.current| - 1] == b.current;
    assert b1.currentChars == Chars(b1.current);
    hide InOrder, AllFit, Chars;
  }

  lemma {:induction false} SectionKeeps(limits: Limits, b: Batcher, chunks: seq<Chunk>, at: nat, pushNext: bool)
    requires Positive(limits) && BatchInv(limits, b) && at <= |chunks|
    ensures var r := RunSection(limits, b, chunks, at, pushNext);
            && BatchInv(limits, r.b) && b.scheduled <= r.b.scheduled
            && at <= r.at <= |chunks| && r.b.pushed == b.pushed + chunks[at..r.at]
            && (!r.awaiting ==> r.at == |chunks|)
            && (r.pushNext ==> r.awaiting && r.at < |chunks|)
    decreases |chunks| - at
  {
    hide InOrder, AllFit, Chars, BatchFits;
    if at < |chunks| {
      if !pushNext && FlushesBefore(limits, b, chunks[at]) {
        CurrentFits(limits, b);
        FlushKeeps(limits, b);
      } else {
        var b1 := Push(b, chunks[at]);
        PushFits(limits, b, chunks[at]);
        assert chunks[at..at + 1] == [chunks[at]];
        if FlushesAfter(limits, b1) {
          FlushKeeps(limits, b1);
        } else {
          SectionKeeps(limits, b1, chunks, at + 1, false);
          var r := RunSection(limits, b1, chunks, at + 1, false);
          assert chunks[at..r.at] == [chunks[at]] + chunks[at + 1..r.at];
        }
      }
    }
  }

  // ---------------------------------------------------------------- batches are closed only when they must be

  /** No room for another chunk, whatever its length. */
  predicate Full(limits: Limits, batch: seq<Chunk>) { |batch| == limits.batchSize || Chars(batch) >= limits.batchMaxChars }

  /** A section between two awaits closes at most one batch: a full one, or one the chunk to come would overflow. */
  lemma {:induction false} SectionClosesFull(limits: Limits, b: Batcher, chunks: seq<Chunk>, at: nat, pushNext: bool)
    requires Positive(limits) && BatchInv(limits, b) && at <= |chunks|
    ensures var r := RunSection(limits, b, chunks, at, pushNext);
            if !r.awaiting then r.b.scheduled == b.scheduled
            else
              && |r.b.scheduled| == |b.scheduled| + 1 && r.b.scheduled[..|b.scheduled|] == b.scheduled
              && var closed := r.b.scheduled[|b.scheduled|];
                 if r.pushNext then at <= r.at < |chunks| && Chars(closed) + chunks[r.at].chars > limits.batchMaxChars
                 else Full(limits, closed)
    decreases |chunks| - at
  {
    hide AllFit, Chars, BatchFits;
    if at < |chunks| && (pushNext || !FlushesBefore(limits, b, chunks[at])) {
      var b1 := Push(b, chunks[at]);
      PushFits(limits, b, chunks[at]);
      assert |b1.current| <= limits.batchSize;
      if !FlushesAfter(limits, b1) {
        SectionClosesFull(limits, b1, chunks, at + 1, false);
      }
    }
  }

  /** With one caller, every batch was full or would have been overflowed by the chunk after it. */
  predicate ClosedInTime(limits: Limits, b: Batcher) {
    forall i :: 0 <= i < |b.scheduled| ==> FullOrOverflowed(limits, b.scheduled + [b.current], i)
  }

  predicate FullOrOverflowed(limits: Limits, batches: seq<seq<Chunk>>, i: int)
    requires 0 <= i < |batches| - 1
  {
    || Full(limits, batches[i])
    || (|batches[i + 1]| > 0 && Chars(batches[i]) + batches[i + 1][0].chars > limits.batchMaxChars)
  }

  lemma ClosedAfterFlush(limits: Limits, b: Batcher, c: Chunk)
    requires ClosedInTime(limits, b) && |b.current| > 0 && Chars(b.current) + c.chars > limits.batchMaxChars
    ensures ClosedInTime(limits, Push(Flush(b), c))
  {
    hide Full, Chars;
    var b1 := Push(Flush(b), c);
    forall i | 0 <= i < |b1.scheduled| ensures FullOrOverflowed(limits, b1.scheduled + [b1.current], i) {
      assert i < |b.scheduled| ==> FullOrOverflowed(limits, b.scheduled + [b.current], i);
    }
  }

  lemma ClosedAfterPush(limits: Limits, b: Batcher, c: Chunk)
    requires ClosedInTime(limits, b)
    ensures ClosedInTime(limits, Push(b, c))
  {
    hide Full, Chars;
    var b1 := Push(b, c);
    forall i | 0 <= i < |b1.scheduled| ensures FullOrOverflowed(limits, b1.scheduled + [b1.current], i) {
      assert FullOrOverflowed(limits, b.scheduled + [b.current], i);
    }
  }

  lemma ClosedAfterFull(limits: Limits, b: Batcher)
    requires ClosedInTime(limits, b) && Full(limits, b.current)
    ensures ClosedInTime(limits, Flush(b))
  {
    hide Full, Chars;
    var b1 := Flush(b);
    forall i | 0 <= i < |b1.scheduled| ensures FullOrOverflowed(limits, b1.scheduled + [b1.current], i) {
      assert i < |b.scheduled| ==> FullOrOverflowed(limits, b.scheduled + [b.current], i);
    }
  }

  lemma AddOneCloses(limits: Limits, b: Batcher, c: Chunk)
    requires Positive(limits) && BatchInv(limits, b) && ClosedInTime(limits, b)
    ensures ClosedInTime(limits, AddOne(limits, b, c, false))
  {
    hide AllFit, ClosedInTime;
    var ready := if FlushesBefore(limits, b, c) then Flush(b) else b;
    var b1 := Push(ready, c);
    CharsSnoc(ready.current, c);
    assert InOrder(b1) by {
      FlushInOrder(b);
      PushInOrder(ready, c);
    }
    hide Flat;
    assert Chars([]) == 0;
    if FlushesBefore(limits, b, c) {
      ClosedAfterFlush(limits, b, c);
    } else {
      ClosedAfterPush(limits, b, c);
    }
    hide Chars;
    if FlushesAfter(limits, b1) {
      assert |b1.current| <= limits.batchSize;
      ClosedAfterFull(limits, b1);
    }
  }

  // ---------------------------------------------------------------- a single caller

  /** The rest of an `add` call when no other call interferes. */
  function AddAlone(limits: Limits, b: Batcher, chunks: seq<Chunk>, at: nat, pushNext: bool): Batcher
    requires at <= |chunks|
    decreases |chunks| - at
  {
    if at == |chunks| then b
    else
      AddAlone(limits, AddOne(limits, b, chunks[at], pushNext), chunks, at + 1, false)
  }

  function AddOne(limits: Limits, b: Batcher, c: Chunk, pushNext: bool): Batcher {
    var b1 := Push(if !pushNext && FlushesBefore(limits, b, c) then Flush(b) else b, c);
    if FlushesAfter(limits, b1) then Flush(b1) else b1
  }

  /** Running the sections of a call one after the other is running the call. */
  lemma {:induction false} SectionsMakeTheCall(limits: Limits, b: Batcher, chunks: seq<Chunk>, at: nat, pushNext: bool)
    requires at <= |chunks|
    ensures var r := RunSection(limits, b, chunks, at, pushNext);
            && at <= r.at <= |chunks|
            && AddAlone(limits, b, chunks, at, pushNext)
               == if r.awaiting then AddAlone(limits, r.b, chunks, r.at, r.pushNext) else r.b
    decreases |chunks| - at
  {
    if at < |chunks| && (pushNext || !FlushesBefore(limits, b, chunks[at])) {
      var b1 := Push(b, chunks[at]);
      if !FlushesAfter(limits, b1) {
        SectionsMakeTheCall(limits, b1, chunks, at + 1, false);
      }
    }
  }

  ghost predicate WithinOrSingle(limits: Limits, batch: seq<Chunk>) {
    Chars(batch) <= limits.batchMaxChars || |batch| == 1
  }

  /** The closure, with one caller: its captured variables are the fields. */
  class SoloBatcher {
    const limits: Limits
    var currentBatch: seq<Chunk>
    var currentBatchChars: nat
    var scheduled: seq<seq<Chunk>>
    ghost var pushed: seq<Chunk>

    constructor (embeddingBatchSize: int, embeddingBatchMaxChars: int)
      ensures Positive(limits) && State() == EMPTY
    {
      limits := Limits(PositiveIntegerOption(embeddingBatchSize), PositiveIntegerOption(embeddingBatchMaxChars));
      currentBatch, currentBatchChars, scheduled, pushed := [], 0, [], [];
    }

    ghost function State(): Batcher
      reads this
    {
      Batcher(currentBatch, currentBatchChars, scheduled, pushed)
    }

    ghost predicate Valid()
      reads this
    {
      SoloInv(limits, State())
    }

    method FlushCurrentBatch()
      modifies this
      ensures State() == Flush(old(State()))
    {
      if |currentBatch| == 0 {
        return;
      }
      scheduled := scheduled + [currentBatch];
      currentBatch := [];
      currentBatchChars := 0;
    }

    /** One turn of the loop of `add`. */
    method AddChunk(chunk: Chunk)
      modifies this
      ensures State() == AddOne(limits, old(State()), chunk, false)
    {
      if |currentBatch| > 0
          && (|currentBatch| >= limits.batchSize || currentBatchChars + chunk.chars > limits.batchMaxChars) {
        FlushCurrentBatch();
      }
      currentBatch := currentBatch + [chunk];
      currentBatchChars := currentBatchChars + chunk.chars;
      pushed := pushed + [chunk];
      if |currentBatch| >= limits.batchSize || currentBatchChars >= limits.batchMaxChars {
        FlushCurrentBatch();
      }
    }

    /** With one caller, every batch is within the character limit or a single chunk. */
    method Add(chunks: seq<Chunk>)
      requires Valid()
      modifies this
      ensures Valid()
      ensures State() == AddAlone(limits, old(State()), chunks, 0, false)
      ensures pushed == old(pushed) + chunks && old(scheduled) <= scheduled
      ensures old(ClosedInTime(limits, State())) ==> ClosedInTime(limits, State())
    {
      for at := 0 to |chunks|
        invariant Valid()
        invariant AddAlone(limits, State(), chunks, at, false) == AddAlone(limits, old(State()), chunks, 0, false)
        invariant pushed == old(pushed) + chunks[..at] && old(scheduled) <= scheduled
        invariant old(ClosedInTime(limits, State())) ==> ClosedInTime(limits, State())
      {
        if ClosedInTime(limits, State()) {
          AddOneCloses(limits, State(), chunks[at]);
        }
        assert chunks[..at + 1] == chunks[..at] + [chunks[at]];
        SoloStepKeeps(limits, State(), chunks[at]);
        AddChunk(chunks[at]);
      }
      assert chunks[..|chunks|] == chunks;
    }
  }

  ghost predicate AllSolo(limits: Limits, batches: seq<seq<Chunk>>) {
    forall i :: 0 <= i < |batches| ==> WithinOrSingle(limits, batches[i])
  }

  ghost predicate SoloInv(limits: Limits, b: Batcher) {
    Positive(limits) && BatchInv(limits, b) && AllSolo(limits, b.scheduled)
  }

  lemma FlushAllSolo(limits: Limits, b: Batcher)
    requires AllSolo(limits, b.scheduled) && (|b.current| > 0 ==> WithinOrSingle(limits, b.current))
    ensures AllSolo(limits, Flush(b).scheduled)
  {
    hide WithinOrSingle;
  }

  lemma CurrentSolo(limits: Limits, b: Batcher)
    requires BatchInv(limits, b)
    ensures WithinOrSingle(limits, b.current)
  {
    hide InOrder, AllFit, Chars;
  }

  lemma FlushSolo(limits: Limits, b: Batcher)
    requires SoloInv(limits, b)
    ensures SoloInv(limits, Flush(b)) && Flush(b).current == [] && b.scheduled <= Flush(b).scheduled
    ensures Flush(b).pushed == b.pushed
  {
    CurrentSolo(limits, b);
    FlushAllSolo(limits, b);
    if |b.current| > 0 {
      CurrentFits(limits, b);
    }
    hide InOrder, AllFit, AllSolo, Chars, BatchFits, WithinOrSingle;
    FlushKeeps(limits, b);
  }

  lemma SoloStepKeeps(limits: Limits, b: Batcher, c: Chunk)
    requires SoloInv(limits, b)
    ensures var b' := AddOne(limits, b, c, false);
            SoloInv(limits, b') && b'.pushed == b.pushed + [c] && b.scheduled <= b'.scheduled
  {
    var ready := if FlushesBefore(limits, b, c) then Flush(b) else b;
    FlushSolo(limits, b);
    assert SoloInv(limits, ready) && b.scheduled <= ready.scheduled && ready.pushed == b.pushed;
    var b1 := Push(ready, c);
    PushFits(limits, ready, c);
    PushAfterRoom(limits, ready, c);
    hide InOrder, AllFit, AllSolo, Chars, BatchFits, WithinOrSingle;
    if FlushesAfter(limits, b1) {
      FlushKeeps(limits, b1);
      FlushAllSolo(limits, b1);
    }
  }

  /** The chunk that does not overflow the current batch leaves it fitting, or alone. */
  lemma PushAfterRoom(limits: Limits, b: Batcher, c: Chunk)
    requires Positive(limits) && BatchInv(limits, b) && !FlushesBefore(limits, b, c)
    ensures WithinOrSingle(limits, Push(b, c).current)
  {
    CharsSnoc(b.current, c);
    hide Flat, Chars, AllFit;
  }
}
