/**
 A full index as it runs: a pool of workers takes files off a shared index, reads them and
 adds their chunks to the batcher; every scheduled batch is an embedding task; at the end
 `flush` waits for the tasks. Events of workers and tasks interleave freely.
 */
module FullIndexRun {
  import opened EmbeddingBatcher

  datatype Stage = Embedding | Upserted | Counted | Fulfilled

  datatype Worker =
    | Idle
    | Reading(file: nat)
    | Adding(file: nat, at: nat, pushNext: bool)
    | Done
  {
    predicate Holds(f: nat) { (Reading? || Adding?) && file == f }
  }

  datatype FlushStage = NotCalled | Racing | AwaitingAll(tasks: set<nat>) | Returned

  /** `files[i]` lists the text lengths of the chunks of file i; `stored` is what the store received. */
  datatype Run = Run(
    limits: Limits,
    files: seq<seq<nat>>,
    workers: map<nat, Worker>,
    nextIndex: nat,
    b: Batcher,
    stages: seq<Stage>,
    processedChunks: nat,
    manifest: seq<nat>,
    chunkCount: nat,
    stored: multiset<Chunk>,
    flush: FlushStage)

  datatype Event =
    | TakeFile(w: nat)
    | FileRead(w: nat)
    | AddResumed(w: nat)
    | UpsertDone(task: nat)
    | CountDone(task: nat)
    | TaskFulfilled(task: nat)
    | FlushCalled
    | RaceWon
    | AllSettled

  function ChunksOf(files: seq<seq<nat>>, i: nat): seq<Chunk>
    requires i < |files|
  {
    seq(|files[i]|, k requires 0 <= k < |files[i]| => Chunk(i, k, files[i][k]))
  }

  function WorkerCount(concurrency: int, files: nat): nat {
    var wanted := if concurrency < 1 then 1 else concurrency;
    if wanted < files then wanted else files
  }

  function Initial(limits: Limits, files: seq<seq<nat>>, concurrency: int): Run {
    Run(limits, files, IdleWorkers(WorkerCount(concurrency, |files|)), 0, EMPTY, [], 0, [], 0, multiset{}, NotCalled)
  }

  function IdleWorkers(n: nat): map<nat, Worker> {
    if n == 0 then map[] else IdleWorkers(n - 1)[n - 1 := Idle]
  }

  function Grown(stages: seq<Stage>, n: nat): seq<Stage> {
    stages + seq(if |stages| <= n then n - |stages| else 0, _ => Embedding)
  }

  ghost predicate Enabled(s: Run, e: Event) {
    match e
    case TakeFile(w) => w in s.workers && s.workers[w].Idle?
    case FileRead(w) => w in s.workers && s.workers[w].Reading? && s.workers[w].file < |s.files|
    case AddResumed(w) =>
      && w in s.workers && s.workers[w].Adding? && s.workers[w].file < |s.files|
      && s.workers[w].at <= |s.files[s.workers[w].file]|
    case UpsertDone(t) => t < |s.stages| == |s.b.scheduled| && s.stages[t].Embedding?
    case CountDone(t) => t < |s.stages| == |s.b.scheduled| && s.stages[t].Upserted?
    case TaskFulfilled(t) => t < |s.stages| && s.stages[t].Counted?
    case FlushCalled => s.flush.NotCalled? && forall w :: w in s.workers ==> s.workers[w].Done?
    case RaceWon => s.flush.Racing?
    case AllSettled =>
      s.flush.AwaitingAll? && forall t :: t in s.flush.tasks && t < |s.stages| ==> s.stages[t].Fulfilled?
  }

  /** One section of an `add` call of worker `w`. */
  function AddSection(s: Run, w: nat, file: nat, at: nat, pushNext: bool): Run
    requires file < |s.files| && at <= |s.files[file]|
  {
    var r := RunSection(s.limits, s.b, ChunksOf(s.files, file), at, pushNext);
    s.(b := r.b, stages := Grown(s.stages, |r.b.scheduled|),
       workers := s.workers[w := if r.awaiting then Adding(file, r.at, r.pushNext) else Idle])
  }

  /** The section that follows the read: quota passed, the file goes into the manifest. */
  function AfterRead(s: Run, w: nat): Run
    requires Enabled(s, FileRead(w))
  {
    var file := s.workers[w].file;
    if |s.files[file]| == 0 then s.(workers := s.workers[w := Idle])
    else
      AddSection(s.(manifest := s.manifest + [file], chunkCount := s.chunkCount + |s.files[file]|), w, file, 0, false)
  }

  function Unsettled(s: Run): set<nat> { set t | 0 <= t < |s.stages| && !s.stages[t].Fulfilled? }

  function Next(s: Run, e: Event): Run
    requires Enabled(s, e)
  {
    match e
    case TakeFile(w) =>
      if s.nextIndex < |s.files| then s.(workers := s.workers[w := Reading(s.nextIndex)], nextIndex := s.nextIndex + 1)
      else s.(workers := s.workers[w := Done])
    case FileRead(w) => AfterRead(s, w)
    case AddResumed(w) => AddSection(s, w, s.workers[w].file, s.workers[w].at, s.workers[w].pushNext)
    case UpsertDone(t) => s.(stages := s.stages[t := Upserted], stored := s.stored + multiset(s.b.scheduled[t]))
    case CountDone(t) =>
      s.(stages := s.stages[t := Counted], processedChunks := s.processedChunks + |s.b.scheduled[t]|)
    case TaskFulfilled(t) => s.(stages := s.stages[t := Fulfilled])
    case FlushCalled => s.(b := Flush(s.b), stages := Grown(s.stages, |Flush(s.b).scheduled|), flush := Racing)
    case RaceWon => s.(flush := AwaitingAll(Unsettled(s)))
    case AllSettled => s.(flush := Returned)
  }

  ghost predicate Runs(s: Run, events: seq<Event>)
    decreases |events|
  {
    |events| == 0 || (Enabled(s, events[0]) && Runs(Next(s, events[0]), events[1..]))
  }

  ghost function Final(s: Run, events: seq<Event>): Run
    requires Runs(s, events)
    decreases |events|
  {
    if |events| == 0 then s else Final(Next(s, events[0]), events[1..])
  }

  // ---------------------------------------------------------------- what every run keeps

  ghost predicate Batched(s: Run) {
    Positive(s.limits) && BatchInv(s.limits, s.b) && |s.stages| == |s.b.scheduled|
  }

  ghost predicate WorkersApart(s: Run) {
    && s.nextIndex <= |s.files|
    && (forall w :: w in s.workers && (s.workers[w].Reading? || s.workers[w].Adding?) ==> s.workers[w].file < s.nextIndex)
    && (forall w :: w in s.workers && s.workers[w].Adding? ==> s.workers[w].at <= |s.files[s.workers[w].file]|)
    && (forall w, u, f | w in s.workers && u in s.workers && s.workers[w].Holds(f) && s.workers[u].Holds(f) :: w == u)
    && (forall w :: w in s.workers && s.workers[w].Done? ==> s.nextIndex == |s.files|)
  }

  ghost predicate IsChunk(files: seq<seq<nat>>, c: Chunk) {
    c.file < |files| && c.index < |files[c.file]| && c.chars == files[c.file][c.index]
  }

  /** A chunk has been pushed iff its file was taken and its worker, if any, is past it. */
  ghost predicate Reached(s: Run, c: Chunk) {
    && IsChunk(s.files, c) && c.file < s.nextIndex
    && forall w :: w in s.workers && s.workers[w].Holds(c.file) ==> s.workers[w].Adding? && c.index < s.workers[w].at
  }

  ghost predicate Unique<T(!new)>(xs: seq<T>) { forall i, j :: 0 <= i < j < |xs| ==> xs[i] != xs[j] }

  ghost predicate PushedOnce(s: Run) {
    Unique(s.b.pushed) && forall c :: c in s.b.pushed <==> Reached(s, c)
  }

  ghost predicate Listed(s: Run, i: nat) {
    && i < s.nextIndex && i < |s.files| && |s.files[i]| > 0
    && forall w :: w in s.workers ==> s.workers[w] != Reading(i)
  }

  function Lengths(files: seq<seq<nat>>, list: seq<nat>): nat
    requires forall k :: 0 <= k < |list| ==> list[k] < |files|
  {
    var n := |list| - 1;
    if n < 0 then 0 else Lengths(files, list[..n]) + |files[list[n]]|
  }

  ghost predicate ManifestExact(s: Run) {
    && Unique(s.manifest) && (forall i: nat :: i in s.manifest <==> Listed(s, i))
    && (forall k :: 0 <= k < |s.manifest| ==> s.manifest[k] < |s.files|)
    && s.chunkCount == Lengths(s.files, s.manifest)
  }

  function StoredAt(batch: seq<Chunk>, stage: Stage): multiset<Chunk> {
    if stage.Embedding? then multiset{} else multiset(batch)
  }

  function CountedAt(batch: seq<Chunk>, stage: Stage): nat {
    if stage.Counted? || stage.Fulfilled? then |batch| else 0
  }

  function StoredBy(scheduled: seq<seq<Chunk>>, stages: seq<Stage>): multiset<Chunk>
    requires |scheduled| == |stages|
  {
    var n := |stages| - 1;
    if n < 0 then multiset{} else StoredBy(scheduled[..n], stages[..n]) + StoredAt(scheduled[n], stages[n])
  }

  function CountedBy(scheduled: seq<seq<Chunk>>, stages: seq<Stage>): nat
    requires |scheduled| == |stages|
  {
    var n := |stages| - 1;
    if n < 0 then 0 else CountedBy(scheduled[..n], stages[..n]) + CountedAt(scheduled[n], stages[n])
  }

  ghost predicate TasksCounted(s: Run) {
    && |s.stages| == |s.b.scheduled|
    && s.stored == StoredBy(s.b.scheduled, s.stages)
    && s.processedChunks == CountedBy(s.b.scheduled, s.stages)
  }

  ghost predicate FlushOrdered(s: Run) {
    && (!s.flush.NotCalled? ==> s.b.current == [] && forall w :: w in s.workers ==> s.workers[w].Done?)
    && (s.flush.AwaitingAll? ==> Unsettled(s) <= s.flush.tasks)
    && (s.flush.Returned? ==> Unsettled(s) == {})
    && (|s.files| > 0 ==> s.workers != map[])
  }

  ghost predicate Inv(s: Run) {
    Batched(s) && WorkersApart(s) && PushedOnce(s) && ManifestExact(s) && TasksCounted(s) && FlushOrdered(s)
  }

  // ---------------------------------------------------------------- tasks

  lemma {:induction false} GrownTasks(scheduled: seq<seq<Chunk>>, stages: seq<Stage>, more: seq<seq<Chunk>>)
    requires |scheduled| == |stages| && scheduled <= more
    ensures |Grown(stages, |more|)| == |more|
    ensures StoredBy(more, Grown(stages, |more|)) == StoredBy(scheduled, stages)
    ensures CountedBy(more, Grown(stages, |more|)) == CountedBy(scheduled, stages)
    decreases |more|
  {
    hide StoredBy, CountedBy;
    var grown := Grown(stages, |more|);
    if |more| == |scheduled| {
      assert grown == stages && more == scheduled;
    } else {
      var n := |more| - 1;
      GrownTasks(scheduled, stages, more[..n]);
      assert Grown(stages, n) == grown[..n] && grown[n] == Embedding;
      StoredLast(more, grown);
      CountedLast(more, grown);
    }
  }

  lemma CountedLast(scheduled: seq<seq<Chunk>>, stages: seq<Stage>)
    requires |scheduled| == |stages| > 0
    ensures var n := |stages| - 1;
            CountedBy(scheduled, stages) == CountedBy(scheduled[..n], stages[..n]) + CountedAt(scheduled[n], stages[n])
  {}

  lemma {:induction false} StageCounts(scheduled: seq<seq<Chunk>>, stages: seq<Stage>, t: nat, stage: Stage)
    requires |scheduled| == |stages| && t < |stages|
    ensures CountedBy(scheduled, stages[t := stage]) + CountedAt(scheduled[t], stages[t])
            == CountedBy(scheduled, stages) + CountedAt(scheduled[t], stage)
    decreases |stages|
  {
    var n, s' := |stages| - 1, stages[t := stage];
    if t < n {
      StageCounts(scheduled[..n], stages[..n], t, stage);
      assert s'[..n] == stages[..n][t := stage];
    } else {
      assert s'[..n] == stages[..n];
    }
  }

  lemma {:induction false} StageStores(scheduled: seq<seq<Chunk>>, stages: seq<Stage>, t: nat, stage: Stage)
    requires |scheduled| == |stages| && t < |stages|
    ensures StoredBy(scheduled, stages[t := stage]) + StoredAt(scheduled[t], stages[t])
            == StoredBy(scheduled, stages) + StoredAt(scheduled[t], stage)
    decreases |stages|
  {
    hide StoredBy, StoredAt;
    var n, s' := |stages| - 1, stages[t := stage];
    StoredLast(scheduled, stages);
    StoredLast(scheduled, s');
    if t < n {
      StageStores(scheduled[..n], stages[..n], t, stage);
      assert s'[..n] == stages[..n][t := stage];
      assert s'[n] == stages[n];
      Regroup(StoredBy(scheduled[..n], s'[..n]), StoredAt(scheduled[t], stages[t]),
              StoredBy(scheduled[..n], stages[..n]), StoredAt(scheduled[t], stage), StoredAt(scheduled[n], stages[n]));
    } else {
      assert s'[..n] == stages[..n];
      SwapLast(StoredBy(scheduled[..n], stages[..n]), StoredAt(scheduled[n], stages[n]), StoredAt(scheduled[n], stage));
    }
  }

  lemma StoredLast(scheduled: seq<seq<Chunk>>, stages: seq<Stage>)
    requires |scheduled| == |stages| > 0
    ensures var n := |stages| - 1;
            StoredBy(scheduled, stages) == StoredBy(scheduled[..n], stages[..n]) + StoredAt(scheduled[n], stages[n])
  {}

  lemma SwapLast(a: multiset<Chunk>, b: multiset<Chunk>, c: multiset<Chunk>)
    ensures (a + c) + b == (a + b) + c
  {}

  lemma Regroup(a: multiset<Chunk>, b: multiset<Chunk>, c: multiset<Chunk>, d: multiset<Chunk>, e: multiset<Chunk>)
    requires a + b == c + d
    ensures (a + e) + b == (c + e) + d
  {
    assert (a + e) + b == (a + b) + e;
    assert (c + e) + d == (c + d) + e;
  }

  lemma {:induction false} AllStored(scheduled: seq<seq<Chunk>>, stages: seq<Stage>)
    requires |scheduled| == |stages| && forall t :: 0 <= t < |stages| ==> stages[t].Fulfilled?
    ensures StoredBy(scheduled, stages) == multiset(Flat(scheduled))
    ensures CountedBy(scheduled, stages) == |Flat(scheduled)|
  {
    if |stages| > 0 {
      AllStored(scheduled[..|stages| - 1], stages[..|stages| - 1]);
    }
  }

  lemma SamePlaces(s: Run, s': Run)
    requires PushedOnce(s) && ManifestExact(s) && WorkersApart(s)
    requires s'.workers == s.workers && s'.nextIndex == s.nextIndex && s'.files == s.files
    requires s'.b.pushed == s.b.pushed && s'.manifest == s.manifest && s'.chunkCount == s.chunkCount
    ensures PushedOnce(s') && ManifestExact(s') && WorkersApart(s')
  {
    forall c ensures Reached(s', c) <==> Reached(s, c) {}
    forall i: nat ensures Listed(s', i) <==> Listed(s, i) {}
  }

  lemma CancelRight(a: multiset<Chunk>, b: multiset<Chunk>, c: multiset<Chunk>)
    requires a + b == c + b
    ensures a == c
  {
    assert a == (a + b) - b && c == (c + b) - b;
  }

  lemma StageMoves(scheduled: seq<seq<Chunk>>, stages: seq<Stage>, t: nat, stage: Stage)
    requires |scheduled| == |stages| && t < |stages|
    requires match stages[t] {
               case Embedding => stage.Upserted?
               case Upserted => stage.Counted?
               case Counted => stage.Fulfilled?
               case Fulfilled => false
             }
    ensures StoredBy(scheduled, stages[t := stage])
            == StoredBy(scheduled, stages) + (if stage.Upserted? then multiset(scheduled[t]) else multiset{})
    ensures CountedBy(scheduled, stages[t := stage])
            == CountedBy(scheduled, stages) + (if stage.Counted? then |scheduled[t]| else 0)
  {
    StageCounts(scheduled, stages, t, stage);
    StageStores(scheduled, stages, t, stage);
    var before, after := StoredBy(scheduled, stages), StoredBy(scheduled, stages[t := stage]);
    if stage.Upserted? {
      assert after + multiset{} == after;
    } else {
      CancelRight(after, multiset(scheduled[t]), before);
      assert before + multiset{} == before;
    }
  }

  lemma TaskEventCounts(s: Run, e: Event)
    requires Batched(s) && TasksCounted(s) && Enabled(s, e) && (e.UpsertDone? || e.CountDone? || e.TaskFulfilled?)
    ensures TasksCounted(Next(s, e))
  {
    StageMoves(s.b.scheduled, s.stages, e.task, Next(s, e).stages[e.task]);
    assert s.stored + multiset{} == s.stored;
  }

  lemma TaskEventFlush(s: Run, e: Event)
    requires FlushOrdered(s) && Enabled(s, e) && (e.UpsertDone? || e.CountDone? || e.TaskFulfilled?)
    ensures FlushOrdered(Next(s, e))
  {
    assert Unsettled(Next(s, e)) <= Unsettled(s);
  }

  lemma TaskEventKeeps(s: Run, e: Event)
    requires Inv(s) && Enabled(s, e) && (e.UpsertDone? || e.CountDone? || e.TaskFulfilled?)
    ensures Inv(Next(s, e))
  {
    TaskEventCounts(s, e);
    TaskEventFlush(s, e);
    SamePlaces(s, Next(s, e));
  }

  // ---------------------------------------------------------------- workers

  /** Where a section leaves its worker: at `end` of the file, or done with it. */
  predicate LeftAt(files: seq<seq<nat>>, worker: Worker, file: nat, end: nat)
    requires file < |files|
  {
    match worker
    case Adding(f, a, _) => f == file && a == end
    case Idle => end == |files[file]|
    case _ => false
  }

  /** What one section of `add` does to the batcher and to the tasks. */
  lemma SectionFacts(s: Run, w: nat, file: nat, at: nat, pushNext: bool) returns (end: nat)
    requires Batched(s) && TasksCounted(s) && file < |s.files| && at <= |s.files[file]|
    ensures at <= end <= |s.files[file]|
    ensures var s' := AddSection(s, w, file, at, pushNext);
            && Batched(s') && TasksCounted(s') && LeftAt(s.files, s'.workers[w], file, end)
            && s'.b.pushed == s.b.pushed + ChunksOf(s.files, file)[at..end]
  {
    hide BatchInv, StoredBy, CountedBy;
    SectionKeeps(s.limits, s.b, ChunksOf(s.files, file), at, pushNext);
    var r := RunSection(s.limits, s.b, ChunksOf(s.files, file), at, pushNext);
    GrownTasks(s.b.scheduled, s.stages, r.b.scheduled);
    end := r.at;
    hide RunSection;
  }

  /** One worker went on with its file, up to `end`; files, counter and the other workers are as they were. */
  ghost predicate OneAdds(s: Run, s': Run, w: nat, file: nat, at: nat, end: nat) {
    && w in s.workers && s.workers[w].Holds(file) && file < |s.files|
    && (if s.workers[w].Adding? then s.workers[w].at == at else at == 0)
    && at <= end <= |s.files[file]| && s'.files == s.files && s'.nextIndex == s.nextIndex
    && s'.workers.Keys == s.workers.Keys
    && (forall u :: u in s.workers && u != w ==> s'.workers[u] == s.workers[u])
    && LeftAt(s.files, s'.workers[w], file, end)
  }

  /** The chunks a section pushes are new, and they are exactly the ones now reached. */
  lemma SectionPushesOnce(s: Run, s': Run, w: nat, file: nat, at: nat, end: nat)
    requires WorkersApart(s) && PushedOnce(s) && OneAdds(s, s', w, file, at, end)
    requires s'.b.pushed == s.b.pushed + ChunksOf(s.files, file)[at..end]
    ensures PushedOnce(s')
  {
    var added := ChunksOf(s.files, file)[at..end];
    forall c ensures Reached(s', c) <==> Reached(s, c) || c in added {
      SectionReaches(s, s', w, file, at, end, c);
    }
    forall k | 0 <= k < |added| ensures added[k] !in s.b.pushed {
      assert added[k] == Chunk(file, at + k, s.files[file][at + k]);
      assert !Reached(s, added[k]);
    }
    hide WorkersApart, OneAdds, Reached;
  }

  lemma SectionReaches(s: Run, s': Run, w: nat, file: nat, at: nat, end: nat, c: Chunk)
    requires WorkersApart(s) && OneAdds(s, s', w, file, at, end)
    ensures Reached(s', c) <==> Reached(s, c) || c in ChunksOf(s.files, file)[at..end]
  {
    var added := ChunksOf(s.files, file)[at..end];
    if c.file == file {
      AloneWith(s, w, file);
      assert c in added <==> IsChunk(s.files, c) && at <= c.index < end by {
        if IsChunk(s.files, c) && at <= c.index < end {
          assert added[c.index - at] == c;
        }
      }
      hide WorkersApart;
      assert Reached(s, c) <==> IsChunk(s.files, c) && s.workers[w].Adding? && c.index < at;
      assert Reached(s', c) <==> IsChunk(s.files, c) && c.index < end;
    } else {
      hide WorkersApart;
      forall u | u in s.workers ensures s'.workers[u].Holds(c.file) <==> s.workers[u].Holds(c.file) {}
    }
  }

  lemma AloneWith(s: Run, w: nat, file: nat)
    requires WorkersApart(s) && w in s.workers && s.workers[w].Holds(file)
    ensures file < s.nextIndex && forall u :: u in s.workers && u != w ==> !s.workers[u].Holds(file)
  {}

  lemma AddResumedKeeps(s: Run, w: nat)
    requires Inv(s) && Enabled(s, AddResumed(w))
    ensures Inv(Next(s, AddResumed(w)))
  {
    var a := s.workers[w];
    var s' := AddSection(s, w, a.file, a.at, a.pushNext);
    var end := SectionFacts(s, w, a.file, a.at, a.pushNext);
    assert FlushOrdered(s');
    hide Batched, WorkersApart, PushedOnce, ManifestExact, TasksCounted, FlushOrdered, RunSection;
    assert a.Holds(a.file);
    SectionPushesOnce(s, s', w, a.file, a.at, end);
    ApartAfter(s, s', w, a.file);
    SameListing(s, s', w);
  }

  lemma ApartAfter(s: Run, s': Run, w: nat, file: nat)
    requires WorkersApart(s) && w in s.workers && s.workers[w].Holds(file)
    requires s'.files == s.files && s'.nextIndex == s.nextIndex && s'.workers.Keys == s.workers.Keys
    requires forall u :: u in s.workers && u != w ==> s'.workers[u] == s.workers[u]
    requires s'.workers[w].Idle? || (s'.workers[w].Adding? && s'.workers[w].file == file && s'.workers[w].at <= |s.files[file]|)
    ensures WorkersApart(s')
  {
    assert file < s.nextIndex;
    forall u, v, f | u in s'.workers && v in s'.workers && s'.workers[u].Holds(f) && s'.workers[v].Holds(f)
      ensures u == v
    {
      assert s.workers[u].Holds(f) && s.workers[v].Holds(f);
    }
  }

  /** A section of a worker that was adding changes no entry of the manifest. */
  lemma SameListing(s: Run, s': Run, w: nat)
    requires s'.files == s.files && s'.nextIndex == s.nextIndex && s'.workers.Keys == s.workers.Keys
    requires ManifestExact(s) && w in s.workers && !s.workers[w].Reading? && !s'.workers[w].Reading?
    requires s'.manifest == s.manifest && s'.chunkCount == s.chunkCount
    requires forall u :: u in s.workers && u != w ==> s'.workers[u] == s.workers[u]
    ensures ManifestExact(s')
  {
    forall i: nat ensures Listed(s', i) <==> Listed(s, i) {
      assert forall u :: u in s.workers ==> (s'.workers[u] == Reading(i) <==> s.workers[u] == Reading(i));
    }
  }

  lemma ReadListing(s: Run, s': Run, w: nat)
    requires WorkersApart(s) && ManifestExact(s) && w in s.workers && s.workers[w].Reading?
    requires s'.files == s.files && s'.nextIndex == s.nextIndex && s'.workers.Keys == s.workers.Keys
    requires !s'.workers[w].Reading?
    requires forall u :: u in s.workers && u != w ==> s'.workers[u] == s.workers[u]
    requires var f := s.workers[w].file;
             if |s.files[f]| == 0 then s'.manifest == s.manifest && s'.chunkCount == s.chunkCount
             else s'.manifest == s.manifest + [f] && s'.chunkCount == s.chunkCount + |s.files[f]|
    ensures ManifestExact(s')
  {
    var f := s.workers[w].file;
    assert s.workers[w].Holds(f);
    forall i: nat ensures Listed(s', i) <==> Listed(s, i) || (i == f && |s.files[f]| > 0) {
      forall u | u in s.workers && u != w ensures s'.workers[u] == s.workers[u] && s'.workers[u] != Reading(f) {
        assert !s.workers[u].Holds(f);
      }
    }
    assert !Listed(s, f);
    assert f !in s.manifest;
    if |s.files[f]| > 0 {
      assert s'.manifest[..|s'.manifest| - 1] == s.manifest;
    }
  }

  /** The section that follows a read adds the file's first chunks. */
  lemma FirstSection(s: Run, s1: Run, w: nat, file: nat)
    requires WorkersApart(s) && PushedOnce(s) && Batched(s1) && TasksCounted(s1) && file < |s.files|
    requires w in s.workers && s.workers[w] == Reading(file)
    requires s1 == s.(manifest := s1.manifest, chunkCount := s1.chunkCount)
    ensures var s' := AddSection(s1, w, file, 0, false);
            && Batched(s') && TasksCounted(s') && PushedOnce(s')
            && exists end :: 0 <= end <= |s.files[file]| && LeftAt(s.files, s'.workers[w], file, end)
  {
    hide Batched, WorkersApart, PushedOnce, TasksCounted, RunSection;
    var end := SectionFacts(s1, w, file, 0, false);
    SectionPushesOnce(s, AddSection(s1, w, file, 0, false), w, file, 0, end);
  }

  lemma FileReadKeeps(s: Run, w: nat)
    requires Inv(s) && Enabled(s, FileRead(w))
    ensures Inv(AfterRead(s, w))
  {
    var file := s.workers[w].file;
    var s' := AfterRead(s, w);
    assert s.workers[w].Holds(file) && FlushOrdered(s');
    assert file < |s.files|;
    var s1 := s.(manifest := s'.manifest, chunkCount := s'.chunkCount);
    assert Batched(s1) && TasksCounted(s1);
    if |s.files[file]| == 0 {
      assert s'.b.pushed == s.b.pushed + ChunksOf(s.files, file)[0..0];
      hide Batched, WorkersApart, PushedOnce, ManifestExact, TasksCounted, FlushOrdered, RunSection;
      SectionPushesOnce(s, s', w, file, 0, 0);
    } else {
      hide Batched, WorkersApart, PushedOnce, ManifestExact, TasksCounted, FlushOrdered, RunSection;
      FirstSection(s, s1, w, file);
    }
    hide Batched, WorkersApart, PushedOnce, ManifestExact, TasksCounted, FlushOrdered, RunSection;
    ApartAfter(s, s', w, file);
    ReadListing(s, s', w);
  }

  lemma TakeFileApart(s: Run, w: nat)
    requires WorkersApart(s) && Enabled(s, TakeFile(w))
    ensures WorkersApart(Next(s, TakeFile(w)))
  {
    var s' := Next(s, TakeFile(w));
    forall u, v, f | u in s'.workers && v in s'.workers && s'.workers[u].Holds(f) && s'.workers[v].Holds(f)
      ensures u == v
    {
      assert u != w ==> s.workers[u].Holds(f);
      assert v != w ==> s.workers[v].Holds(f);
    }
  }

  lemma TakeFilePlaces(s: Run, w: nat)
    requires WorkersApart(s) && PushedOnce(s) && ManifestExact(s) && Enabled(s, TakeFile(w))
    ensures PushedOnce(Next(s, TakeFile(w))) && ManifestExact(Next(s, TakeFile(w)))
  {
    var s' := Next(s, TakeFile(w));
    forall u | u in s.workers && u != w ensures s'.workers[u] == s.workers[u] {}
    assert PushedOnce(s') by {
      hide ManifestExact;
      forall c ensures Reached(s', c) <==> Reached(s, c) {
        if c.file == s.nextIndex < |s.files| {
          assert s'.workers[w].Holds(c.file);
        }
      }
      hide Reached;
    }
    hide PushedOnce, Reached;
    forall i: nat ensures Listed(s', i) <==> Listed(s, i) {
      if i == s.nextIndex < |s.files| {
        assert s'.workers[w] == Reading(i);
      }
    }
    hide Listed;
  }

  lemma TakeFileKeeps(s: Run, w: nat)
    requires Inv(s) && Enabled(s, TakeFile(w))
    ensures Inv(Next(s, TakeFile(w)))
  {
    TakeFileApart(s, w);
    TakeFilePlaces(s, w);
    assert FlushOrdered(Next(s, TakeFile(w)));
  }

  lemma FlushCalledBatches(s: Run)
    requires Batched(s) && TasksCounted(s)
    ensures var s' := s.(b := Flush(s.b), stages := Grown(s.stages, |Flush(s.b).scheduled|), flush := Racing);
            Batched(s') && TasksCounted(s') && s'.b.current == [] && s'.b.pushed == s.b.pushed
  {
    if |s.b.current| > 0 {
      CurrentFits(s.limits, s.b);
    }
    FlushKeeps(s.limits, s.b);
    GrownTasks(s.b.scheduled, s.stages, Flush(s.b).scheduled);
  }

  lemma FlushEventKeeps(s: Run, e: Event)
    requires Inv(s) && Enabled(s, e) && (e.FlushCalled? || e.RaceWon? || e.AllSettled?)
    ensures Inv(Next(s, e))
  {
    var s' := Next(s, e);
    FlushCalledBatches(s);
    SamePlaces(s, s');
  }

  lemma StepKeeps(s: Run, e: Event)
    requires Inv(s) && Enabled(s, e)
    ensures Inv(Next(s, e))
  {
    match e
    case TakeFile(w) => TakeFileKeeps(s, w);
    case FileRead(w) => FileReadKeeps(s, w);
    case AddResumed(w) => AddResumedKeeps(s, w);
    case UpsertDone(_) => TaskEventKeeps(s, e);
    case CountDone(_) => TaskEventKeeps(s, e);
    case TaskFulfilled(_) => TaskEventKeeps(s, e);
    case FlushCalled => FlushEventKeeps(s, e);
    case RaceWon => FlushEventKeeps(s, e);
    case AllSettled => FlushEventKeeps(s, e);
  }

  /** Batches in order, sizes, and every other part of `Inv`, under any interleaving. */
  lemma {:induction false} RunKeeps(s: Run, events: seq<Event>)
    requires Inv(s) && Runs(s, events)
    ensures Inv(Final(s, events)) && Final(s, events).files == s.files
    decreases |events|
  {
    if |events| > 0 {
      StepKeeps(s, events[0]);
      RunKeeps(Next(s, events[0]), events[1..]);
    }
  }

  lemma {:induction false} IdleWorkersIdle(n: nat)
    ensures forall w :: w in IdleWorkers(n) <==> 0 <= w < n
    ensures forall w :: w in IdleWorkers(n) ==> IdleWorkers(n)[w].Idle?
  {
    if n > 0 {
      IdleWorkersIdle(n - 1);
    }
  }

  lemma InitialInv(limits: Limits, files: seq<seq<nat>>, concurrency: int)
    requires Positive(limits)
    ensures Inv(Initial(limits, files, concurrency))
  {
    var n := WorkerCount(concurrency, |files|);
    IdleWorkersIdle(n);
    if |files| > 0 {
      assert 0 in IdleWorkers(n);
    }
  }

  /** The pool has one worker at least, the requested number at most, and never more than files. */
  lemma PoolSize(limits: Limits, files: seq<seq<nat>>, concurrency: int, w: nat)
    ensures w in Initial(limits, files, concurrency).workers <==> w < |files| && (w < concurrency || w == 0)
  {
    IdleWorkersIdle(WorkerCount(concurrency, |files|));
  }

  // ---------------------------------------------------------------- the end of a run

  lemma {:induction false} FilesChunks(files: seq<seq<nat>>, list: seq<nat>, chunks: set<Chunk>)
    requires Unique(list) && forall k :: 0 <= k < |list| ==> list[k] < |files|
    requires forall c :: c in chunks <==> IsChunk(files, c) && c.file in list
    ensures |chunks| == Lengths(files, list)
    decreases |list|
  {
    if |list| == 0 {
      assert chunks == {};
    } else {
      var n := |list| - 1;
      var f, rest := list[n], list[..n];
      assert f in list && f !in rest && forall i :: i in list <==> i in rest || i == f;
      var mine := set c | c in chunks && c.file == f;
      FilesChunks(files, rest, chunks - mine);
      FileChunks(files, f, |files[f]|, mine);
    }
  }

  lemma {:induction false} FileChunks(files: seq<seq<nat>>, f: nat, n: nat, chunks: set<Chunk>)
    requires f < |files| && n <= |files[f]|
    requires forall c :: c in chunks <==> IsChunk(files, c) && c.file == f && c.index < n
    ensures |chunks| == n
  {
    if n == 0 {
      assert chunks == {};
    } else {
      var last := Chunk(f, n - 1, files[f][n - 1]);
      assert last in chunks;
      FileChunks(files, f, n - 1, chunks - {last});
    }
  }

  lemma {:induction false} UniqueSize(chunks: seq<Chunk>)
    requires Unique(chunks)
    ensures |set c | c in chunks| == |chunks|
    ensures forall c :: multiset(chunks)[c] == if c in chunks then 1 else 0
  {
    var all := set c | c in chunks;
    if |chunks| == 0 {
      assert all == {};
    } else {
      var n := |chunks| - 1;
      var init, last := chunks[..n], chunks[n];
      assert last !in init;
      UniqueSize(init);
      assert chunks == init + [last];
      hide Unique;
      LastMember(init, last);
      assert multiset(chunks) == multiset(init)[last := multiset(init)[last] + 1];
    }
  }

  lemma LastMember(init: seq<Chunk>, last: Chunk)
    requires last !in init
    ensures (set c | c in init + [last]) == (set c | c in init) + {last}
    ensures forall c :: c in init + [last] <==> c in init || c == last
  {}

  lemma FlushedIsDone(s: Run)
    requires Inv(s) && s.flush.Returned?
    ensures s.stored == multiset(s.b.pushed) && Flat(s.b.scheduled) == s.b.pushed
    ensures s.processedChunks == |s.b.pushed|
    ensures s.nextIndex == |s.files| && forall w :: w in s.workers ==> s.workers[w].Done?
  {
    assert FlushOrdered(s) && TasksCounted(s) && Batched(s) && WorkersApart(s);
    hide Inv;
    assert s.nextIndex == |s.files| && forall w :: w in s.workers ==> s.workers[w].Done? by {
      if |s.files| > 0 {
        var w :| w in s.workers;
        assert s.workers[w].Done?;
      }
    }
    hide WorkersApart;
    forall t | 0 <= t < |s.stages| ensures s.stages[t].Fulfilled? {
      assert t !in Unsettled(s);
    }
    hide Unsettled, FlushOrdered;
    AllStored(s.b.scheduled, s.stages);
    assert Flat(s.b.scheduled) + [] == Flat(s.b.scheduled);
  }

  /**
   When `flush` has returned, every chunk of every file was stored exactly once, the
   progress counter equals the total, and the manifest lists exactly the files with chunks.
   */
  lemma FlushedRunIsComplete(limits: Limits, files: seq<seq<nat>>, concurrency: int, events: seq<Event>)
    requires Positive(limits) && Runs(Initial(limits, files, concurrency), events)
    requires Final(Initial(limits, files, concurrency), events).flush.Returned?
    ensures var s := Final(Initial(limits, files, concurrency), events);
            && (forall c :: s.stored[c] == if IsChunk(files, c) then 1 else 0)
            && Flat(s.b.scheduled) == s.b.pushed
            && s.processedChunks == s.chunkCount == |s.b.pushed|
            && Unique(s.manifest) && (forall i: nat :: i in s.manifest <==> i < |files| && |files[i]| > 0)
  {
    hide Runs, Final, Inv;
    InitialInv(limits, files, concurrency);
    RunKeeps(Initial(limits, files, concurrency), events);
    InvDone(Final(Initial(limits, files, concurrency), events));
  }

  lemma InvDone(s: Run)
    requires Inv(s) && s.flush.Returned?
    ensures (forall c :: s.stored[c] == if IsChunk(s.files, c) then 1 else 0)
    ensures Flat(s.b.scheduled) == s.b.pushed
    ensures s.processedChunks == s.chunkCount == |s.b.pushed|
    ensures Unique(s.manifest) && (forall i: nat :: i in s.manifest <==> i < |s.files| && |s.files[i]| > 0)
  {
    FlushedIsDone(s);
    DonePlaces(s);
    assert PushedOnce(s) && ManifestExact(s);
    hide Inv, Listed, Reached;
    UniqueSize(s.b.pushed);
    FilesChunks(s.files, s.manifest, set c | c in s.b.pushed);
  }

  lemma DonePlaces(s: Run)
    requires s.nextIndex == |s.files| && forall w :: w in s.workers ==> s.workers[w].Done?
    ensures forall c :: Reached(s, c) <==> IsChunk(s.files, c)
    ensures forall i: nat :: Listed(s, i) <==> i < |s.files| && |s.files[i]| > 0
  {}
}
