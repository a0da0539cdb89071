/**
 Runs of one durable-queue process: what its workers may rely on about their rows, the
 number of attempts of a row, and that finished rows stay finished.
 */
module DurableQueue {
  import opened JobTable
  import opened IndexingWorkers

  // ---------------------------------------------------------------- rows in hand

  predicate RunsJob(worker: Worker) { worker.Processing? || (worker.Marked? && worker.claimed) }

  /** The row is as the scan read it. */
  predicate StillAsFound(jobs: Jobs, f: Found) { IsPending(jobs, f.jobId) && FoundRow(jobs, f.jobId) == f }

  /** What a worker may rely on about its rows. */
  predicate WorkerHeld(jobs: Jobs, worker: Worker) {
    && (RunsJob(worker) ==>
          && IsRunning(jobs, worker.jobId) && jobs[worker.jobId].payloadRepoKey == worker.key
          && jobs[worker.jobId].repoKey == Some(worker.key)
          && jobs[worker.jobId].attempts == worker.attempts + 1)
    && (worker.Marking? ==> StillAsFound(jobs, Found(worker.jobId, worker.key, worker.attempts)))
    && (worker.Selected? ==> forall k :: 0 <= k < |worker.rows| ==> StillAsFound(jobs, worker.rows[k]))
  }

  ghost predicate Held(s: Process) {
    forall w :: w in s.workers ==> WorkerHeld(s.jobs, s.workers[w])
  }

  /** The row is one that a worker has selected, is about to claim, or is running. */
  predicate InHand(s: Process, id: string) {
    exists w :: w in s.workers && HasRow(s.workers[w], id)
  }

  predicate HasRow(worker: Worker, id: string) {
    || ((RunsJob(worker) || worker.Marking?) && worker.jobId == id)
    || (worker.Selected? && exists k :: 0 <= k < |worker.rows| && worker.rows[k].jobId == id)
  }

  lemma HeldDrain(s: Process)
    requires Held(s) && forall w :: w in s.workers ==> w < s.nextWorker
    ensures Held(Drain(s))
  {
    var workerCapacity := s.concurrency - s.activeWorkerCount;
    if workerCapacity > 0 {
      HeldStart(s.(drainRequested := false), workerCapacity);
    }
  }

  lemma {:induction false} HeldStart(s: Process, n: nat)
    requires Held(s) && forall w :: w in s.workers ==> w < s.nextWorker
    ensures Held(StartWorkers(s, n))
    decreases n
  {
    if n > 0 {
      HeldStart(StartWorker(s), n - 1);
    }
  }

  /** No other worker has the row that `w` is running. */
  lemma RowIsMine(s: Process, w: nat, u: nat)
    requires Orderly(s) && Held(s) && Is(s, w) && Is(s, u) && u != w
    requires s.workers[w].Processing?
    ensures !HasRow(s.workers[u], s.workers[w].jobId)
  {
    assert s.workers[w].HoldsKey() && s.workers[w].key in s.runningRepoKeys;
    assert WorkerHeld(s.jobs, s.workers[w]) && WorkerHeld(s.jobs, s.workers[u]);
    if s.workers[u].Processing? {
      assert s.workers[u].HoldsKey();
    }
  }

  /** A worker keeps its rows when the table keeps them. */
  lemma HeldKept(jobs: Jobs, jobs': Jobs, worker: Worker)
    requires WorkerHeld(jobs, worker)
    requires forall id :: HasRow(worker, id) ==> id in jobs' && id in jobs && jobs'[id] == jobs[id]
    ensures WorkerHeld(jobs', worker)
  {
    if worker.Selected? {
      forall k | 0 <= k < |worker.rows| ensures StillAsFound(jobs', worker.rows[k]) {
        assert HasRow(worker, worker.rows[k].jobId);
      }
    } else if RunsJob(worker) || worker.Marking? {
      assert HasRow(worker, worker.jobId);
    }
  }

  lemma HeldAfterJob(s: Process, w: nat, status: Status, now: nat, worker: Worker)
    requires Orderly(s) && Held(s) && Is(s, w) && s.workers[w].Processing? && worker.Finishing?
    ensures Held(Set(s.(jobs := SetStatus(s.jobs, s.workers[w].jobId, status, now)), w, worker))
  {
    hide Orderly;
    var s' := Set(s.(jobs := SetStatus(s.jobs, s.workers[w].jobId, status, now)), w, worker);
    forall u | u in s'.workers ensures WorkerHeld(s'.jobs, s'.workers[u]) {
      if u != w {
        RowIsMine(s, w, u);
        HeldRows(s.jobs, s.workers[u]);
        hide HasRow;
        HeldKept(s.jobs, s'.jobs, s.workers[u]);
      }
    }
  }

  lemma HeldRows(jobs: Jobs, worker: Worker)
    requires WorkerHeld(jobs, worker)
    ensures forall id :: HasRow(worker, id) ==> id in jobs && (jobs[id].status.Pending? || jobs[id].status.Running?)
  {}

  /** Only the holder of the lock has pending rows in hand; others have at most a job. */
  lemma OthersRun(s: Process, w: nat, u: nat)
    requires Locked(s) && Is(s, w) && s.workers[w].InSection() && Is(s, u) && u != w
    ensures !s.workers[u].InSection()
  {}

  lemma HeldMark(s: Process, w: nat, claimId: nat, now: nat)
    requires Orderly(s) && Held(s) && Enabled(s, Mark(w, claimId, now))
    ensures Held(MarkedBy(s, w, claimId, now))
  {
    var s', m := MarkedBy(s, w, claimId, now), s.workers[w];
    ClaimSucceedsIff(s.jobs, m.jobId, claimId, m.key, now);
    assert WorkerHeld(s.jobs, m);
    forall u | u in s'.workers ensures WorkerHeld(s'.jobs, s'.workers[u]) {
      if u == w {
        hide RunningFor, Orderly, Held;
      } else {
        OthersRun(s, w, u);
        assert WorkerHeld(s.jobs, s.workers[u]);
        hide Claim, Orderly;
        HeldKept(s.jobs, s'.jobs, s.workers[u]);
      }
    }
  }

  lemma HeldSelect(s: Process, w: nat)
    requires Held(s) && Is(s, w) && s.workers[w].Scanning?
    ensures Held(PageSelected(s, w))
  {
    SelectOutcome(s, w);
    hide PageRows, Page;
    forall u | u in s.workers && u != w ensures WorkerHeld(s.jobs, PageSelected(s, w).workers[u]) {
      assert WorkerHeld(s.jobs, s.workers[u]);
    }
  }

  lemma HeldConsider(s: Process, w: nat)
    requires Held(s) && Enabled(s, Consider(w))
    ensures Held(Considered(s, w))
  {
    ConsiderOutcome(s, w);
    assert WorkerHeld(s.jobs, s.workers[w]);
    hide Considered, StillAsFound;
    forall u | u in s.workers && u != w ensures WorkerHeld(s.jobs, Considered(s, w).workers[u]) {
      assert WorkerHeld(s.jobs, s.workers[u]);
    }
  }

  lemma HeldTable(s: Process, s': Process)
    requires Held(s) && s'.workers == s.workers
    requires forall w, id :: w in s.workers && HasRow(s.workers[w], id) && id in s.jobs ==> id in s'.jobs && s'.jobs[id] == s.jobs[id]
    ensures Held(s')
  {
    forall u | u in s'.workers ensures WorkerHeld(s'.jobs, s'.workers[u]) {
      assert WorkerHeld(s.jobs, s.workers[u]);
      HeldRows(s.jobs, s.workers[u]);
      hide HasRow, WorkerHeld;
      HeldKept(s.jobs, s'.jobs, s.workers[u]);
    }
  }

  lemma HeldReset(s: Process, cutoff: nat, now: nat)
    requires Held(s) && OnlyDeadRows(s, cutoff)
    ensures Held(s.(jobs := ResetStale(s.jobs, cutoff, now)))
  {
    forall w, id | w in s.workers && HasRow(s.workers[w], id) && id in s.jobs
      ensures ResetStale(s.jobs, cutoff, now)[id] == s.jobs[id]
    {
      assert WorkerHeld(s.jobs, s.workers[w]);
    }
    hide HasRow;
    HeldTable(s, s.(jobs := ResetStale(s.jobs, cutoff, now)));
  }

  lemma HeldCleanup(s: Process, cutoff: nat)
    requires Held(s)
    ensures Held(s.(jobs := Cleanup(s.jobs, cutoff)))
  {
    forall w, id | w in s.workers && HasRow(s.workers[w], id) && id in s.jobs
      ensures id in Cleanup(s.jobs, cutoff) && Cleanup(s.jobs, cutoff)[id] == s.jobs[id]
    {
      HeldRows(s.jobs, s.workers[w]);
    }
    hide HasRow;
    HeldTable(s, s.(jobs := Cleanup(s.jobs, cutoff)));
  }

  lemma HeldMoves(s: Process, s': Process, w: nat)
    requires Held(s) && s'.jobs == s.jobs && Is(s, w)
    requires s'.workers.Keys <= s.workers.Keys && forall u :: u in s'.workers && u != w ==> s'.workers[u] == s.workers[u]
    requires w in s'.workers ==> WorkerHeld(s.jobs, s'.workers[w])
    ensures Held(s')
  {
    hide WorkerHeld;
  }

  lemma HeldMoveEvent(s: Process, e: Event)
    requires Held(s) && Enabled(s, e)
    requires e.Acquire? || e.Resume? || e.ReleaseKey? || e.DatabaseError?
    ensures Held(Next(s, e))
  {
    assert WorkerHeld(s.jobs, s.workers[e.w]);
    HeldMoves(s, Next(s, e), e.w);
  }

  lemma HeldExit(s: Process, w: nat)
    requires Orderly(s) && Held(s) && Enabled(s, Exit(w))
    ensures Held(Exited(s, w))
  {
    var s1 := WithoutWorker(s, w);
    assert forall u :: u in s1.workers ==> u < s1.nextWorker;
    HeldMoves(s, s1, w);
    hide Held, Orderly, Drain;
    if s.drainRequested {
      HeldDrain(s1);
    }
  }

  lemma StepHeld(s: Process, e: Event)
    requires Orderly(s) && Held(s) && Enabled(s, e) && !e.OtherProcess?
    ensures Held(Next(s, e))
  {
    if e.DrainCall? {
      assert forall u :: u in s.workers ==> u < s.nextWorker;
      hide Orderly, Drain;
      HeldDrain(s.(inFlight := s.inFlight - 1));
    } else if e.Succeed? {
      HeldAfterJob(s, e.w, Completed, e.now, Finishing(s.workers[e.w].key));
    } else if e.JobError? {
      var attempt := s.workers[e.w].attempts + 1;
      HeldAfterJob(s, e.w, if attempt < s.maxAttempts then Pending else Failed, e.now, Finishing(s.workers[e.w].key));
    } else {
      hide Orderly, Held, Drain, PageSelected, Considered, MarkedBy, Exited;
      StepHeldOther(s, e);
    }
  }

  lemma StepHeldOther(s: Process, e: Event)
    requires Orderly(s) && Held(s) && Enabled(s, e)
    requires !e.OtherProcess? && !e.DrainCall? && !e.Succeed? && !e.JobError?
    ensures Held(Next(s, e))
  {
    if e.SelectPage? { HeldSelect(s, e.w); }
    else if e.Consider? { HeldConsider(s, e.w); }
    else if e.Mark? { HeldMark(s, e.w, e.claimId, e.now); }
    else if e.Exit? { HeldExit(s, e.w); }
    else if e.StaleReset? { HeldReset(s, e.cutoff, e.now); }
    else if e.CleanupEvent? { HeldCleanup(s, e.cutoff); }
    else if e.Insert? { HeldInsert(s, e); }
    else if e.Restart? { assert Next(s, e).workers == map[]; }
    else { HeldMoveEvent(s, e); }
  }

  lemma HeldInsert(s: Process, e: Event)
    requires Held(s) && Enabled(s, e) && e.Insert?
    ensures Held(Next(s, e))
  {
    hide HasRow;
    HeldTable(s, Next(s, e));
  }

  // ---------------------------------------------------------------- the table after an event

  function TableAfter(s: Process, e: Event): Jobs
    requires Enabled(s, e)
  {
    match e
    case Insert(id, repoKey, _, now) => Enqueue(s.jobs, id, repoKey, now)
    case Mark(w, claimId, now) => Claim(s.jobs, s.workers[w].jobId, claimId, s.workers[w].key, now).jobs
    case Succeed(w, now) => SetStatus(s.jobs, s.workers[w].jobId, Completed, now)
    case JobError(w, now) =>
      SetStatus(s.jobs, s.workers[w].jobId, if s.workers[w].attempts + 1 < s.maxAttempts then Pending else Failed, now)
    case CleanupEvent(cutoff) => Cleanup(s.jobs, cutoff)
    case StaleReset(cutoff, now) => ResetStale(s.jobs, cutoff, now)
    case OtherProcess(newJobs, _) => newJobs
    case _ => s.jobs
  }

  lemma DrainKeepsTable(s: Process)
    ensures Drain(s).jobs == s.jobs && Drain(s).order == s.order && Drain(s).maxAttempts == s.maxAttempts
    ensures Drain(s).concurrency == s.concurrency && Drain(s).inFlight == s.inFlight
    ensures Drain(s).runningRepoKeys == s.runningRepoKeys
  {
    var workerCapacity := s.concurrency - s.activeWorkerCount;
    if workerCapacity > 0 {
      StartWorkersCounts(s.(drainRequested := false), workerCapacity);
    }
  }

  lemma JobsAfter(s: Process, e: Event)
    requires Enabled(s, e)
    ensures Next(s, e).jobs == TableAfter(s, e) && Next(s, e).maxAttempts == s.maxAttempts
    ensures !e.Insert? && !e.OtherProcess? ==> Next(s, e).order == s.order
  {
    hide Drain, SetStatus, Claim, Cleanup, ResetStale, Enqueue, PageRows;
    if e.DrainCall? {
      DrainKeepsTable(s.(inFlight := s.inFlight - 1));
    } else if e.Exit? {
      DrainKeepsTable(WithoutWorker(s, e.w));
    } else if e.Consider? {
      ConsiderOutcome(s, e.w);
    }
  }

  // ---------------------------------------------------------------- bounded attempts

  /** Attempts count claims, and only a stale reset buys an attempt beyond the limit. */
  predicate RowBounded(row: Row, maxAttempts: nat) {
    && row.attempts == row.claims
    && row.attempts <= maxAttempts + row.resets
    && (row.status.Pending? ==> row.attempts < maxAttempts + row.resets)
  }

  ghost predicate Bounded(s: Process) {
    s.maxAttempts >= 1 && TableBounded(s.jobs, s.maxAttempts)
  }

  ghost predicate TableBounded(jobs: Jobs, maxAttempts: nat) {
    forall id :: id in jobs ==> RowBounded(jobs[id], maxAttempts)
  }

  lemma JobEndBounded(s: Process, w: nat, status: Status, now: nat)
    requires Held(s) && Bounded(s) && Is(s, w) && s.workers[w].Processing?
    requires status.Pending? ==> s.workers[w].attempts + 1 < s.maxAttempts
    ensures TableBounded(SetStatus(s.jobs, s.workers[w].jobId, status, now), s.maxAttempts)
  {
    assert WorkerHeld(s.jobs, s.workers[w]);
  }

  lemma StepBounded(s: Process, e: Event)
    requires Held(s) && Bounded(s) && Enabled(s, e) && !e.OtherProcess?
    ensures Bounded(Next(s, e))
  {
    JobsAfter(s, e);
    hide Next, Held, Enabled, TableBounded;
    if e.Succeed? {
      JobEndBounded(s, e.w, Completed, e.now);
    } else if e.JobError? {
      JobEndBounded(s, e.w, if s.workers[e.w].attempts + 1 < s.maxAttempts then Pending else Failed, e.now);
    } else {
      TableStepBounded(s, e);
    }
  }

  lemma TableStepBounded(s: Process, e: Event)
    requires Bounded(s) && Enabled(s, e) && !e.OtherProcess? && !e.Succeed? && !e.JobError?
    ensures TableBounded(TableAfter(s, e), s.maxAttempts)
  {
    hide Enabled, RunningFor;
  }

  /** A completed or failed row keeps its status; only the retention cleanup removes it. */
  lemma StepTerminal(s: Process, e: Event, id: string)
    requires Held(s) && Enabled(s, e) && !e.OtherProcess?
    requires id in s.jobs && (s.jobs[id].status.Completed? || s.jobs[id].status.Failed?)
    ensures id in Next(s, e).jobs ==> Next(s, e).jobs[id].status == s.jobs[id].status
    ensures !e.CleanupEvent? ==> id in Next(s, e).jobs
  {
    JobsAfter(s, e);
    hide Next, RunningFor;
    if e.JobError? || e.Succeed? {
      assert WorkerHeld(s.jobs, s.workers[e.w]);
    }
  }

  /**
   With one process at a time, restarts and failing statements included, a row is claimed
   at most `maxAttempts` times plus once for every stale reset it suffered.
   */
  lemma {:induction false} AttemptsBounded(s: Process, events: seq<Event>)
    requires Orderly(s) && Held(s) && Bounded(s) && Runs(s, events)
    requires forall i :: 0 <= i < |events| ==> !events[i].OtherProcess?
    ensures var s' := Final(s, events); Orderly(s') && Held(s') && Bounded(s')
    decreases |events|
  {
    hide Orderly, Held, Bounded, Next, Enabled;
    if |events| > 0 {
      StepOrderly(s, events[0]);
      StepHeld(s, events[0]);
      StepBounded(s, events[0]);
      AttemptsBounded(Next(s, events[0]), events[1..]);
    }
  }

  lemma {:induction false} TerminalForever(s: Process, events: seq<Event>, id: string)
    requires Orderly(s) && Held(s) && Runs(s, events)
    requires forall i :: 0 <= i < |events| ==> !events[i].OtherProcess? && !events[i].CleanupEvent?
    requires id in s.jobs && (s.jobs[id].status.Completed? || s.jobs[id].status.Failed?)
    ensures id in Final(s, events).jobs && Final(s, events).jobs[id].status == s.jobs[id].status
    decreases |events|
  {
    hide Orderly, Held, Next, Enabled;
    if |events| > 0 {
      StepOrderly(s, events[0]);
      StepHeld(s, events[0]);
      StepTerminal(s, events[0], id);
      TerminalForever(Next(s, events[0]), events[1..], id);
    }
  }
}
