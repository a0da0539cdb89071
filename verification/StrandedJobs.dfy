/**
 Which pending jobs a durable-queue process may leave behind. None, as long as every claim
 can succeed, which is a condition on the table; a claim that fails in the last live worker
 strands whatever is pending.
 */
module StrandedJobs {
  import opened JobTable
  import opened IndexingWorkers
  import opened DurableQueue

  // ---------------------------------------------------------------- whose rows are running

  predicate Owns(worker: Worker, id: string, row: Row) {
    RunsJob(worker) && worker.jobId == id && row.repoKey == Some(worker.key)
  }

  ghost predicate OwnedRow(s: Process, id: string)
    requires id in s.jobs
  {
    exists w :: w in s.workers && Owns(s.workers[w], id, s.jobs[id])
  }

  /** A running row of no worker of this process: another process's, or left by a crash. */
  ghost predicate Foreign(s: Process, id: string) { IsRunning(s.jobs, id) && !OwnedRow(s, id) }

  /** A row that this process has still to run, or is running. */
  ghost predicate Live(s: Process, id: string) { IsPending(s.jobs, id) || (IsRunning(s.jobs, id) && OwnedRow(s, id)) }

  /** No foreign running row has the repository of a live one. */
  ghost predicate Clear(s: Process) {
    forall i, j :: Foreign(s, i) && Live(s, j) ==> s.jobs[i].repoKey != Some(s.jobs[j].payloadRepoKey)
  }

  ghost predicate RowsListed(s: Process) { Listed(s.jobs, s.order) }

  /** The scan sees every row, and a row is keyed by its repository or not yet. */
  ghost predicate Listed(jobs: Jobs, order: seq<string>) {
    forall id :: id in jobs ==>
      id in order && (jobs[id].repoKey == None || jobs[id].repoKey == Some(jobs[id].payloadRepoKey))
  }

  /** A claim succeeds exactly when no foreign running row has its repository's key. */
  lemma ClaimSucceedsUnlessForeign(s: Process, w: nat)
    requires Orderly(s) && Held(s) && RowsListed(s) && Is(s, w) && s.workers[w].Marking?
    ensures Claimable(s.jobs, s.workers[w].jobId, s.workers[w].key)
            <==> forall i :: Foreign(s, i) ==> s.jobs[i].repoKey != Some(s.workers[w].key)
  {
    var key := s.workers[w].key;
    assert WorkerHeld(s.jobs, s.workers[w]);
    if forall i :: Foreign(s, i) ==> s.jobs[i].repoKey != Some(key) {
      forall id | id in s.jobs && s.jobs[id].status.Running? ensures s.jobs[id].repoKey != Some(key) {
        assert IsRunning(s.jobs, id);
        if OwnedRow(s, id) {
          OwnedElsewhere(s, w, id);
        }
      }
    }
  }

  lemma OwnedElsewhere(s: Process, w: nat, id: string)
    requires Orderly(s) && Is(s, w) && s.workers[w].Marking? && id in s.jobs && OwnedRow(s, id)
    ensures s.jobs[id].repoKey != Some(s.workers[w].key)
  {
    var u :| u in s.workers && Owns(s.workers[u], id, s.jobs[id]);
    if s.workers[u].Processing? {
      assert s.workers[u].HoldsKey();
    } else {
      assert s.workers[w].InSection() && s.workers[u].InSection();
    }
  }

  /** Foreign and live rows come from foreign and live rows. */
  ghost predicate NoneJoins(s: Process, s': Process) {
    && (forall i :: Foreign(s', i) ==> Foreign(s, i) && s'.jobs[i].repoKey == s.jobs[i].repoKey)
    && (forall j :: Live(s', j) ==> Live(s, j) && s'.jobs[j].payloadRepoKey == s.jobs[j].payloadRepoKey)
  }

  lemma NoneJoinsClear(s: Process, s': Process)
    requires Clear(s) && NoneJoins(s, s')
    ensures Clear(s')
  {
    hide Foreign, Live;
  }

  /** Workers that run a job still do, and no others. */
  ghost predicate SameRunners(s: Process, s': Process) {
    && (forall w :: w in s.workers && RunsJob(s.workers[w]) ==>
          w in s'.workers && RunsJob(s'.workers[w])
          && s'.workers[w].jobId == s.workers[w].jobId && s'.workers[w].key == s.workers[w].key)
    && (forall w :: w in s'.workers && RunsJob(s'.workers[w]) ==>
          w in s.workers && RunsJob(s.workers[w])
          && s'.workers[w].jobId == s.workers[w].jobId && s'.workers[w].key == s.workers[w].key)
  }

  lemma SameOwned(s: Process, s': Process, id: string)
    requires SameRunners(s, s') && s'.jobs == s.jobs && id in s.jobs
    ensures OwnedRow(s, id) <==> OwnedRow(s', id)
  {
    if OwnedRow(s, id) {
      var w :| w in s.workers && Owns(s.workers[w], id, s.jobs[id]);
      assert Owns(s'.workers[w], id, s'.jobs[id]);
    }
    if OwnedRow(s', id) {
      var w :| w in s'.workers && Owns(s'.workers[w], id, s'.jobs[id]);
      assert Owns(s.workers[w], id, s.jobs[id]);
    }
  }

  lemma RunnersJoin(s: Process, s': Process)
    requires SameRunners(s, s') && s'.jobs == s.jobs
    ensures NoneJoins(s, s')
  {
    hide SameRunners, OwnedRow;
    forall id | id in s.jobs ensures OwnedRow(s, id) <==> OwnedRow(s', id) {
      SameOwned(s, s', id);
    }
  }

  lemma DrainRunners(s: Process)
    requires forall w :: w in s.workers ==> w < s.nextWorker
    ensures SameRunners(s, Drain(s))
  {
    var workerCapacity := s.concurrency - s.activeWorkerCount;
    if workerCapacity > 0 {
      StartedRunners(s.(drainRequested := false), workerCapacity);
    }
  }

  lemma {:induction false} StartedRunners(s: Process, n: nat)
    requires forall w :: w in s.workers ==> w < s.nextWorker
    ensures SameRunners(s, StartWorkers(s, n))
    decreases n
  {
    if n > 0 {
      StartedRunners(StartWorker(s), n - 1);
    }
  }

  lemma WorkersBelow(s: Process)
    requires Orderly(s)
    ensures forall u :: u in s.workers ==> u < s.nextWorker
  {}

  lemma ExitRunners(s: Process, w: nat)
    requires Orderly(s) && Enabled(s, Exit(w))
    ensures SameRunners(s, Exited(s, w))
  {
    hide Orderly, Drain, SameRunners;
    var s1 := WithoutWorker(s, w);
    WorkersBelow(s);
    SelfRunners(s1);
    if s.drainRequested {
      DrainRunners(s1);
    }
    LeaverRunners(s, s1, Exited(s, w), w);
  }

  lemma SelfRunners(s: Process)
    ensures SameRunners(s, s)
  {}

  /** A leaving worker runs nothing, so what is the same without it is the same. */
  lemma LeaverRunners(s: Process, s1: Process, s': Process, w: nat)
    requires Is(s, w) && s.workers[w].Exiting? && s1.workers == s.workers - {w} && SameRunners(s1, s')
    ensures SameRunners(s, s')
  {
    forall u | u in s.workers && RunsJob(s.workers[u])
      ensures u in s'.workers && RunsJob(s'.workers[u])
              && s'.workers[u].jobId == s.workers[u].jobId && s'.workers[u].key == s.workers[u].key
    {
      assert u in s1.workers && s1.workers[u] == s.workers[u];
    }
  }

  predicate Moves(e: Event) {
    e.DrainCall? || e.Acquire? || e.SelectPage? || e.Consider? || e.Resume? || e.ReleaseKey? || e.Exit?
  }

  lemma MoveRunners(s: Process, e: Event)
    requires Orderly(s) && Enabled(s, e) && Moves(e)
    ensures SameRunners(s, Next(s, e))
  {
    if e.DrainCall? {
      assert forall u :: u in s.workers ==> u < s.nextWorker;
      hide Orderly, Drain;
      DrainRunners(s.(inFlight := s.inFlight - 1));
    } else if e.Exit? {
      ExitRunners(s, e.w);
      hide Orderly, SameRunners, Exited;
    } else {
      hide Orderly;
      SectionRunners(s, e);
    }
  }

  /** One worker changed, and runs what it ran, or nothing as before. */
  lemma OneMoves(s: Process, s': Process, w: nat)
    requires Is(s, w) && Is(s', w) && s'.workers == s.workers[w := s'.workers[w]]
    requires RunsJob(s'.workers[w]) <==> RunsJob(s.workers[w])
    requires RunsJob(s.workers[w]) ==>
               s'.workers[w].jobId == s.workers[w].jobId && s'.workers[w].key == s.workers[w].key
    ensures SameRunners(s, s')
  {
    hide RunsJob;
  }

  lemma SectionRunners(s: Process, e: Event)
    requires Enabled(s, e) && Moves(e) && !e.DrainCall? && !e.Exit?
    ensures SameRunners(s, Next(s, e))
  {
    hide Page, PageRows;
    if e.Consider? {
      ConsiderOutcome(s, e.w);
      hide Considered;
      OneMoves(s, Next(s, e), e.w);
    } else {
      OneMoves(s, Next(s, e), e.w);
    }
  }

  lemma MoveJoins(s: Process, e: Event)
    requires Orderly(s) && Enabled(s, e) && Moves(e)
    ensures NoneJoins(s, Next(s, e))
  {
    JobsAfter(s, e);
    MoveRunners(s, e);
    RunnersJoin(s, Next(s, e));
  }

  lemma MarkJoins(s: Process, w: nat, claimId: nat, now: nat)
    requires Held(s) && Enabled(s, Mark(w, claimId, now))
    requires Claimable(s.jobs, s.workers[w].jobId, s.workers[w].key)
    ensures NoneJoins(s, MarkedBy(s, w, claimId, now))
  {
    var s', m := MarkedBy(s, w, claimId, now), s.workers[w];
    ClaimSucceedsIff(s.jobs, m.jobId, claimId, m.key, now);
    assert WorkerHeld(s.jobs, m);
    assert Owns(s'.workers[w], m.jobId, s'.jobs[m.jobId]);
    forall id | id in s.jobs && id != m.jobId ensures OwnedRow(s, id) <==> OwnedRow(s', id) {
      MarkOwns(s, s', w, id);
    }
    hide Claimable, WorkerHeld, OwnedRow;
  }

  lemma MarkOwns(s: Process, s': Process, w: nat, id: string)
    requires Is(s, w) && s.workers[w].Marking? && Is(s', w) && s'.workers == s.workers[w := s'.workers[w]]
    requires id in s.jobs && id in s'.jobs && s'.jobs[id] == s.jobs[id] && id != s.workers[w].jobId
    requires s'.workers[w].Marked? && s'.workers[w].jobId == s.workers[w].jobId
    ensures OwnedRow(s, id) <==> OwnedRow(s', id)
  {
    if OwnedRow(s, id) {
      var u :| u in s.workers && Owns(s.workers[u], id, s.jobs[id]);
      assert Owns(s'.workers[u], id, s'.jobs[id]);
    }
    if OwnedRow(s', id) {
      var u :| u in s'.workers && Owns(s'.workers[u], id, s'.jobs[id]);
      assert Owns(s.workers[u], id, s.jobs[id]);
    }
  }

  lemma JobEndJoins(s: Process, w: nat, status: Status, now: nat, worker: Worker)
    requires Held(s) && Is(s, w) && s.workers[w].Processing? && worker.Finishing? && !status.Running?
    ensures NoneJoins(s, Set(s.(jobs := SetStatus(s.jobs, s.workers[w].jobId, status, now)), w, worker))
  {
    var s', p := Set(s.(jobs := SetStatus(s.jobs, s.workers[w].jobId, status, now)), w, worker), s.workers[w];
    assert WorkerHeld(s.jobs, p);
    assert Owns(p, p.jobId, s.jobs[p.jobId]);
    forall id | id in s.jobs && id != p.jobId ensures OwnedRow(s, id) <==> OwnedRow(s', id) {
      EndOwns(s, s', w, id);
    }
    hide WorkerHeld, Held;
    forall id | id in s.jobs && id != p.jobId ensures s'.jobs[id] == s.jobs[id] {}
  }

  lemma EndOwns(s: Process, s': Process, w: nat, id: string)
    requires Is(s, w) && s.workers[w].Processing? && Is(s', w) && s'.workers == s.workers[w := s'.workers[w]]
    requires id in s.jobs && id in s'.jobs && s'.jobs[id] == s.jobs[id] && id != s.workers[w].jobId
    requires s'.workers[w].Finishing?
    ensures OwnedRow(s, id) <==> OwnedRow(s', id)
  {
    if OwnedRow(s, id) {
      var u :| u in s.workers && Owns(s.workers[u], id, s.jobs[id]);
      assert Owns(s'.workers[u], id, s'.jobs[id]);
    }
    if OwnedRow(s', id) {
      var u :| u in s'.workers && Owns(s'.workers[u], id, s'.jobs[id]);
      assert Owns(s.workers[u], id, s.jobs[id]);
    }
  }

  lemma TableShrinkJoins(s: Process, s': Process)
    requires s'.workers == s.workers
    requires forall id :: id in s'.jobs ==> id in s.jobs && s'.jobs[id] == s.jobs[id]
    ensures NoneJoins(s, s')
  {
    forall id | id in s'.jobs ensures OwnedRow(s, id) <==> OwnedRow(s', id) {}
    hide OwnedRow;
  }

  /** The events of this process that leave the foreign and the live rows what they were, or fewer. */
  predicate Internal(e: Event) { Moves(e) || e.Mark? || e.Succeed? || e.JobError? || e.CleanupEvent? }

  lemma InternalJoins(s: Process, e: Event)
    requires Orderly(s) && Held(s) && Enabled(s, e) && Internal(e)
    requires e.Mark? ==> Claimable(s.jobs, s.workers[e.w].jobId, s.workers[e.w].key)
    ensures NoneJoins(s, Next(s, e))
  {
    if Moves(e) {
      MoveJoins(s, e);
    } else {
      hide Orderly, Held, NoneJoins, MarkedBy, SetStatus;
      if e.Mark? {
        MarkJoins(s, e.w, e.claimId, e.now);
      } else if e.Succeed? {
        JobEndJoins(s, e.w, Completed, e.now, Finishing(s.workers[e.w].key));
      } else if e.JobError? {
        var attempt := s.workers[e.w].attempts + 1;
        JobEndJoins(s, e.w, if attempt < s.maxAttempts then Pending else Failed, e.now, Finishing(s.workers[e.w].key));
      } else {
        TableShrinkJoins(s, Next(s, e));
      }
    }
  }

  // ---------------------------------------------------------------- no stranded job

  /** Someone is going to look at the pending rows again. */
  ghost predicate Covered(s: Process) {
    s.inFlight > 0 || s.drainRequested || exists w :: w in s.workers && s.workers[w].WillScan()
  }

  ghost predicate BackedUp(s: Process) {
    exists w :: w in s.workers && (s.workers[w].HoldsKey() || s.workers[w].WaitLock?)
  }

  ghost predicate AnyPending(s: Process) { exists id :: IsPending(s.jobs, id) }

  /** A scan has just begun, or has read a first page with rows. */
  predicate BeginsScan(worker: Worker) {
    worker == Scanning(0) || (worker.Selected? && worker.offset == 0 && |worker.rows| > 0)
  }

  ghost predicate ScanBegun(s: Process) { exists w :: w in s.workers && BeginsScan(s.workers[w]) }

  predicate LaterPage(worker: Worker) {
    (worker.Scanning? && worker.offset > 0) || (worker.Selected? && worker.offset > 0)
  }

  ghost predicate LaterPagesBacked(s: Process) {
    forall w :: w in s.workers && LaterPage(s.workers[w]) ==> BackedUp(s)
  }

  /** A pending row is covered, unless a scan has just begun; a later page is always backed up. */
  ghost predicate Attended(s: Process) {
    (AnyPending(s) ==> Covered(s) || ScanBegun(s)) && LaterPagesBacked(s)
  }

  /**
   What another process may do to the table: it leaves the rows in hand alone, adds no
   pending row (whoever adds one drains itself), and starts no job of a repository with live rows.
   */
  ghost predicate Tame(s: Process, newJobs: Jobs, newOrder: seq<string>) {
    && (forall id :: InHand(s, id) && id in s.jobs ==> id in newJobs && newJobs[id] == s.jobs[id])
    && (forall id :: IsPending(newJobs, id) ==> IsPending(s.jobs, id))
    && Listed(newJobs, newOrder)
    && Clear(s.(jobs := newJobs, order := newOrder))
  }

  /** The events under which no job is stranded: conditions on the table and on the rows in hand. */
  ghost predicate Quiet(s: Process, e: Event)
    requires Enabled(s, e)
  {
    match e
    case DatabaseError(_) => false
    case Insert(id, repoKey, _, _) => id !in s.jobs ==> forall i :: Foreign(s, i) ==> s.jobs[i].repoKey != Some(repoKey)
    // Stale rows are reset by `start()`, before the drain it ends with.
    case StaleReset(cutoff, now) => (s.inFlight > 0 || ResetStale(s.jobs, cutoff, now) == s.jobs) && Clear(Next(s, e))
    case Restart => Clear(Next(s, e))
    case OtherProcess(newJobs, newOrder) => Tame(s, newJobs, newOrder)
    case _ => true
  }

  ghost predicate QuietRun(s: Process, events: seq<Event>)
    requires Runs(s, events)
    decreases |events|
  {
    |events| == 0 || (Quiet(s, events[0]) && QuietRun(Next(s, events[0]), events[1..]))
  }

  ghost predicate ClaimsSucceed(s: Process) {
    forall w :: w in s.workers && s.workers[w].Marked? ==> s.workers[w].claimed
  }

  ghost predicate TableSound(s: Process) { Held(s) && RowsListed(s) && ClaimsSucceed(s) && Clear(s) }

  ghost predicate NoLoss(s: Process) { Orderly(s) && TableSound(s) && Attended(s) }

  // ---------------------------------------------------------------- claims succeed, rows stay listed

  lemma ClearClaims(s: Process, w: nat)
    requires Orderly(s) && TableSound(s) && Is(s, w) && s.workers[w].Marking?
    ensures Claimable(s.jobs, s.workers[w].jobId, s.workers[w].key)
  {
    assert WorkerHeld(s.jobs, s.workers[w]);
    assert Live(s, s.workers[w].jobId);
    hide Orderly;
    ClaimSucceedsUnlessForeign(s, w);
  }

  lemma DrainMarks(s: Process)
    requires ClaimsSucceed(s) && forall w :: w in s.workers ==> w < s.nextWorker
    ensures ClaimsSucceed(Drain(s))
  {
    var workerCapacity := s.concurrency - s.activeWorkerCount;
    if workerCapacity > 0 {
      StartedMarks(s.(drainRequested := false), workerCapacity);
    }
  }

  lemma {:induction false} StartedMarks(s: Process, n: nat)
    requires ClaimsSucceed(s) && forall w :: w in s.workers ==> w < s.nextWorker
    ensures ClaimsSucceed(StartWorkers(s, n))
    decreases n
  {
    if n > 0 {
      StartedMarks(StartWorker(s), n - 1);
    }
  }

  /** One worker changed, and is not left with a failed claim. */
  lemma OneMarks(s: Process, s': Process, w: nat)
    requires ClaimsSucceed(s) && Is(s', w) && s'.workers == s.workers[w := s'.workers[w]]
    requires s'.workers[w].Marked? ==> s'.workers[w].claimed
    ensures ClaimsSucceed(s')
  {}

  lemma ExitMarks(s: Process, w: nat)
    requires Orderly(s) && ClaimsSucceed(s) && Enabled(s, Exit(w))
    ensures ClaimsSucceed(Exited(s, w))
  {
    var s1 := WithoutWorker(s, w);
    assert forall u :: u in s1.workers ==> u < s1.nextWorker;
    assert ClaimsSucceed(s1);
    hide Orderly, Drain, ClaimsSucceed, Enabled;
    if s.drainRequested {
      DrainMarks(s1);
    }
  }

  lemma StepMarks(s: Process, e: Event)
    requires Orderly(s) && ClaimsSucceed(s) && Enabled(s, e)
    requires e.Mark? ==> Claimable(s.jobs, s.workers[e.w].jobId, s.workers[e.w].key)
    ensures ClaimsSucceed(Next(s, e))
  {
    if e.DrainCall? {
      assert forall u :: u in s.workers ==> u < s.nextWorker;
      hide Orderly, Drain;
      DrainMarks(s.(inFlight := s.inFlight - 1));
    } else if e.Exit? {
      ExitMarks(s, e.w);
    } else if e.Consider? {
      hide Orderly, Considered, ClaimsSucceed;
      ConsiderOutcome(s, e.w);
      OneMarks(s, Considered(s, e.w), e.w);
    } else if e.Mark? {
      hide Orderly, ClaimsSucceed;
      ClaimSucceedsIff(s.jobs, s.workers[e.w].jobId, e.claimId, s.workers[e.w].key, e.now);
      OneMarks(s, MarkedBy(s, e.w, e.claimId, e.now), e.w);
    } else {
      hide Orderly;
      OtherMarks(s, e);
    }
  }

  lemma OtherMarks(s: Process, e: Event)
    requires ClaimsSucceed(s) && Enabled(s, e)
    requires !e.DrainCall? && !e.Exit? && !e.Consider? && !e.Mark?
    ensures ClaimsSucceed(Next(s, e))
  {
    hide PageRows, SetStatus, ClaimsSucceed;
    if e.Acquire? || e.SelectPage? || e.Resume? || e.Succeed? || e.JobError? || e.ReleaseKey? || e.DatabaseError? {
      OneMarks(s, Next(s, e), e.w);
    } else {
      TableMarks(s, Next(s, e));
    }
  }

  lemma TableMarks(s: Process, s': Process)
    requires ClaimsSucceed(s) && (s'.workers == s.workers || s'.workers == map[])
    ensures ClaimsSucceed(s')
  {}

  lemma InsertListed(s: Process, id: string, repoKey: string, position: nat, now: nat)
    requires RowsListed(s) && position <= |s.order|
    ensures RowsListed(Inserted(s, id, repoKey, position, now))
  {
    var s' := Inserted(s, id, repoKey, position, now);
    if id !in s.jobs {
      assert s'.order[position] == id;
      assert s.order == s.order[..position] + s.order[position..];
    }
  }

  lemma StepListed(s: Process, e: Event)
    requires Held(s) && RowsListed(s) && Enabled(s, e) && !e.OtherProcess?
    ensures RowsListed(Next(s, e))
  {
    if e.Insert? {
      InsertListed(s, e.id, e.repoKey, e.position, e.now);
    } else {
      JobsAfter(s, e);
      hide Next, RunningFor;
      if e.Mark? {
        assert WorkerHeld(s.jobs, s.workers[e.w]);
      }
    }
  }

  // ---------------------------------------------------------------- the foreign rows stay clear

  lemma InsertJoins(s: Process, e: Event)
    requires Enabled(s, e) && e.Insert? && Clear(s) && Quiet(s, e)
    ensures Clear(Next(s, e))
    ensures forall i :: Foreign(Next(s, e), i) ==> Foreign(s, i)
  {
    var s' := Next(s, e);
    forall id | id in s.jobs ensures id in s'.jobs && s'.jobs[id] == s.jobs[id] && (OwnedRow(s, id) <==> OwnedRow(s', id)) {}
    hide OwnedRow;
  }

  lemma StepClear(s: Process, e: Event)
    requires Orderly(s) && TableSound(s) && Enabled(s, e) && Quiet(s, e)
    ensures Clear(Next(s, e))
  {
    if e.Insert? {
      InsertJoins(s, e);
    } else if Internal(e) {
      if e.Mark? {
        ClearClaims(s, e.w);
      }
      InternalJoins(s, e);
      hide Next, Orderly, Held;
      NoneJoinsClear(s, Next(s, e));
    }
  }

  lemma TameHeld(s: Process, newJobs: Jobs, newOrder: seq<string>)
    requires Held(s) && Tame(s, newJobs, newOrder)
    ensures Held(s.(jobs := newJobs, order := newOrder))
  {
    forall w, id | w in s.workers && HasRow(s.workers[w], id) && id in s.jobs
      ensures id in newJobs && newJobs[id] == s.jobs[id]
    {
      assert InHand(s, id);
    }
    hide HasRow;
    HeldTable(s, s.(jobs := newJobs, order := newOrder));
  }

  lemma StepSound(s: Process, e: Event)
    requires Orderly(s) && TableSound(s) && Enabled(s, e) && Quiet(s, e)
    ensures TableSound(Next(s, e))
  {
    if e.Mark? {
      ClearClaims(s, e.w);
    }
    StepMarks(s, e);
    StepClear(s, e);
    if e.OtherProcess? {
      TameHeld(s, e.newJobs, e.newOrder);
    } else {
      StepHeld(s, e);
      StepListed(s, e);
    }
  }

  // ---------------------------------------------------------------- attendance, event by event

  lemma DrainAttends(s: Process)
    requires forall w :: w in s.workers ==> w < s.nextWorker
    requires LaterPagesBacked(s)
    ensures Covered(Drain(s)) && Attended(Drain(s))
  {
    var workerCapacity := s.concurrency - s.activeWorkerCount;
    var s' := Drain(s);
    if workerCapacity > 0 {
      StartWorkersCounts(s.(drainRequested := false), workerCapacity);
      assert s'.workers[s.nextWorker].WillScan();
      assert BackedUp(s');
    } else {
      assert s'.workers == s.workers;
      assert BackedUp(s) ==> BackedUp(s');
    }
  }

  /** A worker changed that neither covered nor backed up anything. */
  lemma CoverKept(s: Process, s': Process, w: nat)
    requires Is(s, w) && !s.workers[w].WillScan()
    requires forall u :: u in s.workers && u != w ==> u in s'.workers && s'.workers[u] == s.workers[u]
    requires s'.inFlight == s.inFlight && s'.drainRequested == s.drainRequested
    ensures Covered(s) ==> Covered(s')
    ensures BackedUp(s) ==> BackedUp(s')
  {
    if BackedUp(s) {
      var u :| u in s.workers && (s.workers[u].HoldsKey() || s.workers[u].WaitLock?);
      assert s'.workers[u] == s.workers[u];
    }
  }

  /** The holder of the lock is alone in its section: only it can be scanning. */
  lemma OnlyScanner(s: Process, w: nat)
    requires Locked(s) && Is(s, w) && s.workers[w].InSection()
    ensures forall u :: u in s.workers && u != w ==> !BeginsScan(s.workers[u]) && !LaterPage(s.workers[u])
  {
    forall u | u in s.workers && u != w ensures !BeginsScan(s.workers[u]) && !LaterPage(s.workers[u]) {
      OthersRun(s, w, u);
    }
  }

  /** The scanner moved on: only it can be on a later page. */
  lemma ScannerMoves(s: Process, s': Process, w: nat)
    requires Is(s, w) && Is(s', w) && s'.workers == s.workers[w := s'.workers[w]] && !s.workers[w].WillScan()
    requires s'.inFlight == s.inFlight && s'.drainRequested == s.drainRequested && s'.jobs == s.jobs
    requires forall u :: u in s.workers && u != w ==> !BeginsScan(s.workers[u]) && !LaterPage(s.workers[u])
    requires LaterPage(s'.workers[w]) ==> BackedUp(s)
    requires AnyPending(s) ==> Covered(s) || BeginsScan(s'.workers[w]) || s'.workers[w].WillScan()
    ensures Attended(s')
  {
    CoverKept(s, s', w);
    if s'.workers[w].WillScan() {
      MarkingCovers(s', w);
    }
    hide BackedUp, Covered, BeginsScan, LaterPage;
    assert BeginsScan(s'.workers[w]) ==> ScanBegun(s');
    forall u | u in s'.workers && LaterPage(s'.workers[u]) ensures BackedUp(s') {
      if u != w {
        assert s'.workers[u] == s.workers[u];
      }
    }
  }

  /** Before the scanner moves: what is pending is covered, or the scan has just begun with it. */
  lemma ScannerCovers(s: Process, w: nat)
    requires Orderly(s) && Attended(s) && Is(s, w) && s.workers[w].InSection()
    ensures forall u :: u in s.workers && u != w ==> !BeginsScan(s.workers[u]) && !LaterPage(s.workers[u])
    ensures AnyPending(s) ==> Covered(s) || BeginsScan(s.workers[w])
    ensures LaterPage(s.workers[w]) ==> BackedUp(s)
  {
    OnlyScanner(s, w);
    hide Orderly, BackedUp, Covered, BeginsScan, LaterPage, AnyPending;
  }

  lemma SelectAttends(s: Process, w: nat)
    requires Orderly(s) && RowsListed(s) && Attended(s) && Enabled(s, SelectPage(w))
    ensures Attended(PageSelected(s, w))
  {
    SelectOutcome(s, w);
    ScannerCovers(s, w);
    hide Orderly, PageRows, Page, Covered, BackedUp, Attended;
    if AnyPending(s) && !Covered(s) {
      var id :| IsPending(s.jobs, id);
      assert id in s.order;
    }
    ScannerMoves(s, PageSelected(s, w), w);
  }

  lemma HolderCovers(s: Process, k: string)
    requires KeysOwned(s) && k in s.runningRepoKeys
    ensures Covered(s) && BackedUp(s)
  {
    var u :| u in s.workers && s.workers[u].HoldsKey() && s.workers[u].key == k;
    assert s.workers[u].WillScan();
  }

  /** After a page the worker is about to claim, or the page was empty, or some worker holds a key. */
  lemma ConsiderLeaves(s: Process, w: nat)
    requires Is(s, w) && s.workers[w].Selected? && |s.lock| > 0
    ensures var s', rows := Considered(s, w), s.workers[w].rows;
            && Is(s', w) && s'.workers == s.workers[w := s'.workers[w]]
            && s'.inFlight == s.inFlight && s'.drainRequested == s.drainRequested && s'.jobs == s.jobs
            && (s'.workers[w].WillScan() || (|rows| == 0 && s'.workers[w].Exiting?) || exists k :: k in s.runningRepoKeys)
  {
    ConsiderOutcome(s, w);
    hide Considered;
  }

  lemma ConsiderAttends(s: Process, w: nat)
    requires Orderly(s) && Attended(s) && Enabled(s, Consider(w))
    ensures Attended(Considered(s, w))
  {
    ScannerCovers(s, w);
    ConsiderLeaves(s, w);
    if k :| k in s.runningRepoKeys {
      HolderCovers(s, k);
    }
    hide Orderly, Considered, Covered, BackedUp, Attended, Enabled;
    ScannerMoves(s, Considered(s, w), w);
  }

  lemma MarkingCovers(s: Process, w: nat)
    requires Is(s, w) && s.workers[w].WillScan()
    ensures Covered(s)
  {}

  lemma AcquireAttends(s: Process, w: nat)
    requires Orderly(s) && Attended(s) && Enabled(s, Acquire(w))
    ensures Attended(Next(s, Acquire(w)))
  {
    var s' := Next(s, Acquire(w));
    assert BeginsScan(s'.workers[w]);
    forall u | u in s'.workers ensures !LaterPage(s'.workers[u]) {
      if u != w {
        assert s.lock[0] == w;
        assert !s.workers[u].InSection();
      }
    }
  }

  /** A worker that is going to scan again covers every pending row. */
  lemma WillScanAttends(s: Process, s': Process, w: nat)
    requires Is(s, w) && Is(s', w) && s'.workers == s.workers[w := s'.workers[w]]
    requires s'.workers[w].WillScan()
    requires LaterPagesBacked(s)
    requires s'.workers[w].HoldsKey() || s'.workers[w].WaitLock? || forall u :: u in s.workers && u != w ==> !LaterPage(s.workers[u])
    ensures Attended(s')
  {
    MarkingCovers(s', w);
    hide Covered, AnyPending, ScanBegun;
    if s'.workers[w].HoldsKey() || s'.workers[w].WaitLock? {
      assert BackedUp(s');
      hide BackedUp;
    } else {
      hide BackedUp;
      forall u | u in s'.workers ensures !LaterPage(s'.workers[u]) {
        if u != w {
          assert s'.workers[u] == s.workers[u];
        }
      }
    }
  }

  lemma RunnerAttends(s: Process, e: Event)
    requires Orderly(s) && ClaimsSucceed(s) && Attended(s) && Enabled(s, e)
    requires e.Mark? || e.Resume? || e.Succeed? || e.JobError? || e.ReleaseKey?
    requires e.Mark? ==> Claimable(s.jobs, s.workers[e.w].jobId, s.workers[e.w].key)
    ensures Attended(Next(s, e))
  {
    assert LaterPagesBacked(s);
    if e.Mark? {
      ClaimSucceedsIff(s.jobs, s.workers[e.w].jobId, e.claimId, s.workers[e.w].key, e.now);
      OnlyScanner(s, e.w);
    }
    hide Orderly, Attended, LaterPagesBacked, Claim, SetStatus;
    WillScanAttends(s, Next(s, e), e.w);
  }

  lemma ExitAttends(s: Process, w: nat)
    requires Orderly(s) && Attended(s) && Enabled(s, Exit(w))
    ensures Attended(Exited(s, w))
  {
    LeftAttended(s, w);
    hide Attended, Drain, Enabled, LaterPagesBacked;
    if s.drainRequested {
      hide Orderly;
      DrainAttends(WithoutWorker(s, w));
    }
  }

  /** What is left when a worker leaves: later pages are backed, and without a drain to come, all is attended. */
  lemma LeftAttended(s: Process, w: nat)
    requires Orderly(s) && Attended(s) && Enabled(s, Exit(w))
    ensures var s1 := WithoutWorker(s, w);
            && (forall u :: u in s1.workers ==> u < s1.nextWorker)
            && LaterPagesBacked(s1) && (!s.drainRequested ==> Attended(s1))
  {
    hide Orderly, BackedUp, Covered, ScanBegun, BeginsScan;
    var s1 := WithoutWorker(s, w);
    WorkersBelow(s);
    assert !BeginsScan(s.workers[w]) && !s.workers[w].WillScan() by { ExitingScansNot(s.workers[w]); }
    CoverKept(s, s1, w);
    ScanKept(s, s1, w);
    assert AnyPending(s1) ==> AnyPending(s);
  }

  lemma ExitingScansNot(worker: Worker)
    requires worker.Exiting?
    ensures !BeginsScan(worker) && !worker.WillScan()
  {}

  lemma ScanKept(s: Process, s1: Process, w: nat)
    requires Is(s, w) && !BeginsScan(s.workers[w])
    requires forall u :: u in s.workers && u != w ==> u in s1.workers && s1.workers[u] == s.workers[u]
    ensures ScanBegun(s) ==> ScanBegun(s1)
  {}

  /** The table changed, the workers did not. */
  lemma TableAttends(s: Process, s': Process)
    requires Attended(s) && s'.workers == s.workers && s'.drainRequested == s.drainRequested && s'.inFlight >= s.inFlight
    requires s'.inFlight > 0 || (AnyPending(s') ==> AnyPending(s))
    ensures Attended(s')
  {
    assert BackedUp(s) <==> BackedUp(s');
  }

  lemma StepAttended(s: Process, e: Event)
    requires NoLoss(s) && Enabled(s, e) && Quiet(s, e)
    ensures Attended(Next(s, e))
  {
    if e.Mark? {
      ClearClaims(s, e.w);
    }
    if e.OtherProcess? {
      assert AnyPending(Next(s, e)) ==> AnyPending(s);
    }
    hide Orderly, Attended, Held, RowsListed, Clear, ClaimsSucceed, Tame, Foreign, PageSelected, Considered, Exited, Drain;
    if e.DrainCall? { DrainCallAttends(s); }
    else if e.SelectPage? { SelectAttends(s, e.w); }
    else if e.Consider? { ConsiderAttends(s, e.w); }
    else if e.Exit? { ExitAttends(s, e.w); }
    else if e.Acquire? { AcquireAttends(s, e.w); }
    else if e.Mark? || e.Resume? || e.Succeed? || e.JobError? || e.ReleaseKey? { RunnerAttends(s, e); }
    else if e.Restart? { RestartAttends(s); }
    else { TableEventAttends(s, e); }
  }

  lemma DrainCallAttends(s: Process)
    requires Orderly(s) && Attended(s) && Enabled(s, DrainCall)
    ensures Attended(Next(s, DrainCall))
  {
    var s1 := s.(inFlight := s.inFlight - 1);
    assert BackedUp(s) ==> BackedUp(s1);
    DrainAttends(s1);
  }

  lemma RestartAttends(s: Process)
    ensures Attended(Next(s, Restart))
  {}

  lemma TableEventAttends(s: Process, e: Event)
    requires Attended(s) && Enabled(s, e) && (e.Insert? || e.CleanupEvent? || e.StaleReset? || e.OtherProcess?)
    requires e.StaleReset? ==> s.inFlight > 0 || ResetStale(s.jobs, e.cutoff, e.now) == s.jobs
    requires e.OtherProcess? ==> (AnyPending(Next(s, e)) ==> AnyPending(s))
    ensures Attended(Next(s, e))
  {
    hide Attended;
    if e.CleanupEvent? {
      assert forall id :: IsPending(Next(s, e).jobs, id) ==> IsPending(s.jobs, id);
    }
    TableAttends(s, Next(s, e));
  }

  lemma StepNoLoss(s: Process, e: Event)
    requires NoLoss(s) && Enabled(s, e) && Quiet(s, e)
    ensures NoLoss(Next(s, e))
  {
    StepOrderly(s, e);
    StepSound(s, e);
    StepAttended(s, e);
  }

  lemma {:induction false} RunNoLoss(s: Process, events: seq<Event>)
    requires NoLoss(s) && Runs(s, events) && QuietRun(s, events)
    ensures NoLoss(Final(s, events))
    decreases |events|
  {
    hide NoLoss, Quiet, Next, Enabled;
    if |events| > 0 {
      StepNoLoss(s, events[0]);
      RunNoLoss(Next(s, events[0]), events[1..]);
    }
  }

  /**
   No wakeup is lost: whenever no worker is live and no enqueue is between its insert and
   its drain, no row is pending. Running rows of other processes and of crashed ones may be
   there, as long as no pending or inserted row has the key of one. The first drain belongs
   to `start()`.
   */
  lemma NoStrandedJob(jobs: Jobs, order: seq<string>, concurrency: nat, maxAttempts: nat, events: seq<Event>)
    requires concurrency >= 1 && Listed(jobs, order)
    requires forall i, j :: IsRunning(jobs, i) && IsPending(jobs, j) ==> jobs[i].repoKey != Some(jobs[j].payloadRepoKey)
    requires Runs(Booted(jobs, order, concurrency, maxAttempts), events)
    requires QuietRun(Booted(jobs, order, concurrency, maxAttempts), events)
    ensures var s := Final(Booted(jobs, order, concurrency, maxAttempts), events);
            s.activeWorkerCount == 0 && s.inFlight == 0 ==> forall id :: !IsPending(s.jobs, id)
  {
    var s0 := Booted(jobs, order, concurrency, maxAttempts);
    BootedNoLoss(jobs, order, concurrency, maxAttempts);
    RunNoLoss(s0, events);
    var s := Final(s0, events);
    if s.activeWorkerCount == 0 && s.inFlight == 0 {
      NothingLeft(s);
    }
  }

  lemma BootedNoLoss(jobs: Jobs, order: seq<string>, concurrency: nat, maxAttempts: nat)
    requires concurrency >= 1 && Listed(jobs, order)
    requires forall i, j :: IsRunning(jobs, i) && IsPending(jobs, j) ==> jobs[i].repoKey != Some(jobs[j].payloadRepoKey)
    ensures NoLoss(Booted(jobs, order, concurrency, maxAttempts))
  {}

  lemma NothingLeft(s: Process)
    requires NoLoss(s) && s.activeWorkerCount == 0 && s.inFlight == 0
    ensures forall id :: !IsPending(s.jobs, id)
  {
    assert s.workers.Keys == {};
    assert !AnyPending(s);
  }

  // ---------------------------------------------------------------- a process by itself

  /** Database calls succeed, no other process touches the table, and nothing restarts. */
  predicate Undisturbed(e: Event) { !e.DatabaseError? && !e.OtherProcess? && !e.Restart? }

  ghost predicate NoForeign(s: Process) { forall id :: !Foreign(s, id) }

  lemma ResetHitsNothing(s: Process, cutoff: nat, now: nat)
    requires NoForeign(s) && OnlyDeadRows(s, cutoff)
    ensures ResetStale(s.jobs, cutoff, now) == s.jobs
  {
    forall id | id in s.jobs ensures !IsStale(s.jobs[id], cutoff) {
      if IsRunning(s.jobs, id) {
        assert !Foreign(s, id);
        var w :| w in s.workers && Owns(s.workers[w], id, s.jobs[id]);
      }
    }
  }

  lemma UndisturbedIsQuiet(s: Process, e: Event)
    requires NoLoss(s) && NoForeign(s) && Enabled(s, e) && Undisturbed(e)
    ensures Quiet(s, e) && NoForeign(Next(s, e))
  {
    if e.StaleReset? {
      ResetHitsNothing(s, e.cutoff, e.now);
      assert Next(s, e) == s;
    } else if e.Insert? {
      InsertJoins(s, e);
    } else {
      if e.Mark? {
        ClearClaims(s, e.w);
      }
      InternalJoins(s, e);
    }
  }

  lemma {:induction false} UndisturbedRunIsQuiet(s: Process, events: seq<Event>)
    requires NoLoss(s) && NoForeign(s) && Runs(s, events)
    requires forall i :: 0 <= i < |events| ==> Undisturbed(events[i])
    ensures QuietRun(s, events)
    decreases |events|
  {
    hide NoLoss, NoForeign, Quiet, Next, Enabled;
    if |events| > 0 {
      UndisturbedIsQuiet(s, events[0]);
      StepNoLoss(s, events[0]);
      UndisturbedRunIsQuiet(Next(s, events[0]), events[1..]);
    }
  }

  /** By itself, and started without running rows, a process needs no further condition. */
  lemma NoStrandedJobAlone(jobs: Jobs, order: seq<string>, concurrency: nat, maxAttempts: nat, events: seq<Event>)
    requires concurrency >= 1 && Listed(jobs, order)
    requires forall id :: !IsRunning(jobs, id)
    requires Runs(Booted(jobs, order, concurrency, maxAttempts), events)
    requires forall i :: 0 <= i < |events| ==> Undisturbed(events[i])
    ensures var s := Final(Booted(jobs, order, concurrency, maxAttempts), events);
            s.activeWorkerCount == 0 && s.inFlight == 0 ==> forall id :: !IsPending(s.jobs, id)
  {
    BootedNoLoss(jobs, order, concurrency, maxAttempts);
    UndisturbedRunIsQuiet(Booted(jobs, order, concurrency, maxAttempts), events);
    NoStrandedJob(jobs, order, concurrency, maxAttempts, events);
  }

  // ---------------------------------------------------------------- what another process may do

  /** A delete of a repository's waiting rows is tame exactly when none of them is in a worker's hands. */
  lemma DeleteIsTameIff(s: Process, repoKey: string)
    requires Held(s) && RowsListed(s) && Clear(s)
    ensures Tame(s, DeleteNonRunning(s.jobs, repoKey), s.order)
            <==> forall id :: InHand(s, id) && IsPending(s.jobs, id) ==> s.jobs[id].repoKey != Some(repoKey)
  {
    hide InHand, Held, Clear;
    var newJobs := DeleteNonRunning(s.jobs, repoKey);
    var s' := s.(jobs := newJobs, order := s.order);
    TableShrinkJoins(s, s');
    NoneJoinsClear(s, s');
    forall id | InHand(s, id) && id in s.jobs ensures IsPending(s.jobs, id) || IsRunning(s.jobs, id) {
      InHandLive(s, id);
    }
    hide NoneJoins;
  }

  lemma InHandLive(s: Process, id: string)
    requires Held(s) && InHand(s, id)
    ensures IsPending(s.jobs, id) || IsRunning(s.jobs, id)
  {
    var w :| w in s.workers && HasRow(s.workers[w], id);
    HeldRows(s.jobs, s.workers[w]);
  }

  /**
   A claim by another process is tame exactly when its row is in no worker's hands here and
   no other row of its repository is waiting.
   */
  lemma ClaimElsewhereIsTameIff(s: Process, id: string, claimId: nat, now: nat)
    requires Held(s) && RowsListed(s) && Clear(s)
    requires id in s.jobs && Claimable(s.jobs, id, s.jobs[id].payloadRepoKey)
    ensures Tame(s, Claim(s.jobs, id, claimId, s.jobs[id].payloadRepoKey, now).jobs, s.order)
            <==> !InHand(s, id)
                 && forall j :: IsPending(s.jobs, j) && j != id ==> s.jobs[j].payloadRepoKey != s.jobs[id].payloadRepoKey
  {
    hide InHand, Held, Clear;
    var key := s.jobs[id].payloadRepoKey;
    var newJobs := Claim(s.jobs, id, claimId, key, now).jobs;
    var s' := s.(jobs := newJobs, order := s.order);
    TakenTable(s.jobs, s.order, id, claimId, now);
    hide Claim, Claimable, Listed;
    if !InHand(s, id) {
      TakenElsewhere(s, s', id, key);
    }
  }

  lemma TakenTable(jobs: Jobs, order: seq<string>, id: string, claimId: nat, now: nat)
    requires id in jobs && Claimable(jobs, id, jobs[id].payloadRepoKey) && Listed(jobs, order)
    ensures var newJobs := Claim(jobs, id, claimId, jobs[id].payloadRepoKey, now).jobs;
            && id in newJobs && newJobs == jobs[id := newJobs[id]]
            && IsRunning(newJobs, id) && newJobs[id].repoKey == Some(jobs[id].payloadRepoKey)
            && IsPending(jobs, id) && !RunningFor(jobs, jobs[id].payloadRepoKey) && newJobs[id] != jobs[id]
            && Listed(newJobs, order) && forall j :: IsPending(newJobs, j) ==> IsPending(jobs, j)
  {
    hide RunningFor;
  }

  lemma TakenElsewhere(s: Process, s': Process, id: string, key: string)
    requires Held(s) && Clear(s) && Listed(s.jobs, s.order) && !InHand(s, id) && IsPending(s.jobs, id) && !RunningFor(s.jobs, key)
    requires s.jobs[id].payloadRepoKey == key
    requires s'.workers == s.workers && id in s'.jobs && s'.jobs == s.jobs[id := s'.jobs[id]]
    requires IsRunning(s'.jobs, id) && s'.jobs[id].repoKey == Some(key)
    ensures Clear(s') <==> forall j :: IsPending(s.jobs, j) && j != id ==> s.jobs[j].payloadRepoKey != key
  {
    forall w | w in s.workers ensures !Owns(s.workers[w], id, s'.jobs[id]) {
      if RunsJob(s.workers[w]) && s.workers[w].jobId == id {
        assert HasRow(s.workers[w], id);
      }
    }
    assert Foreign(s', id);
    forall i | i in s.jobs && i != id ensures OwnedRow(s, i) <==> OwnedRow(s', i) {}
    forall j | IsRunning(s.jobs, j) && OwnedRow(s, j) ensures s.jobs[j].payloadRepoKey != key {
      var w :| w in s.workers && Owns(s.workers[w], j, s.jobs[j]);
      assert WorkerHeld(s.jobs, s.workers[w]);
    }
    hide OwnedRow, Held, RunningFor;
    if Clear(s') {
      forall j | IsPending(s.jobs, j) && j != id ensures s.jobs[j].payloadRepoKey != key {
        assert Live(s', j);
      }
    }
    if forall j :: IsPending(s.jobs, j) && j != id ==> s.jobs[j].payloadRepoKey != key {
      forall i, j | Foreign(s', i) && Live(s', j) ensures s'.jobs[i].repoKey != Some(s'.jobs[j].payloadRepoKey) {
        assert Live(s, j);
        assert i != id ==> Foreign(s, i);
      }
    }
  }

  // ---------------------------------------------------------------- a claim that fails

  lemma RunCons(s: Process, e: Event, rest: seq<Event>)
    requires Enabled(s, e) && Runs(Next(s, e), rest)
    ensures Runs(s, [e] + rest) && Final(s, [e] + rest) == Final(Next(s, e), rest)
  {
    assert ([e] + rest)[1..] == rest;
  }

  lemma RunTwo(s: Process, e: Event, f: Event)
    requires Enabled(s, e) && Enabled(Next(s, e), f)
    ensures Runs(s, [e, f]) && Final(s, [e, f]) == Next(Next(s, e), f)
  {
    hide Next, Enabled;
    RunCons(Next(s, e), f, []);
    assert [f] + [] == [f];
    RunCons(s, e, [f]);
    assert [e] + [f] == [e, f];
  }

  lemma RunThree(s: Process, e: Event, f: Event, g: Event)
    requires Enabled(s, e) && Enabled(Next(s, e), f) && Enabled(Next(Next(s, e), f), g)
    ensures Runs(s, [e, f, g]) && Final(s, [e, f, g]) == Next(Next(Next(s, e), f), g)
  {
    hide Next, Enabled;
    RunTwo(Next(s, e), f, g);
    RunCons(s, e, [f, g]);
    assert [e] + [f, g] == [e, f, g];
  }

  /** Only this worker is left, it is about to claim, and nothing else is going to drain. */
  ghost predicate LastClaim(s: Process, w: nat) {
    && Orderly(s) && s.workers.Keys == {w} && s.workers[w].Marking? && s.inFlight == 0 && !s.drainRequested
  }

  /**
   Where the condition fails: the last live worker ends after its claim, with every pending
   row left pending, exactly when the claim cannot succeed.
   */
  lemma LastClaimStrandsIff(s: Process, w: nat, claimId: nat, now: nat)
    requires LastClaim(s, w) && Enabled(s, Mark(w, claimId, now))
    ensures var events := [Mark(w, claimId, now), Resume(w)];
            && Runs(s, events)
            && Is(Final(s, events), w)
            && (Final(s, events).workers[w].Exiting? <==> !Claimable(s.jobs, s.workers[w].jobId, s.workers[w].key))
    ensures !Claimable(s.jobs, s.workers[w].jobId, s.workers[w].key) ==>
              var events := [Mark(w, claimId, now), Resume(w), Exit(w)];
              && Runs(s, events)
              && var s' := Final(s, events);
                 s'.jobs == s.jobs && s'.workers == map[] && s'.activeWorkerCount == 0 && s'.inFlight == 0
  {
    LastClaimSteps(s, w, claimId, now);
    hide Next, Enabled, Claimable, LastClaim, Runs, Final;
    var s1 := Next(s, Mark(w, claimId, now));
    RunTwo(s, Mark(w, claimId, now), Resume(w));
    if !Claimable(s.jobs, s.workers[w].jobId, s.workers[w].key) {
      RunThree(s, Mark(w, claimId, now), Resume(w), Exit(w));
    }
  }

  lemma LastClaimSteps(s: Process, w: nat, claimId: nat, now: nat)
    requires LastClaim(s, w) && Enabled(s, Mark(w, claimId, now))
    ensures var s1 := Next(s, Mark(w, claimId, now));
            && Enabled(s1, Resume(w)) && Is(Next(s1, Resume(w)), w)
            && (Next(s1, Resume(w)).workers[w].Exiting? <==> !Claimable(s.jobs, s.workers[w].jobId, s.workers[w].key))
            && (!Claimable(s.jobs, s.workers[w].jobId, s.workers[w].key) ==>
                  && Enabled(Next(s1, Resume(w)), Exit(w))
                  && var s' := Next(Next(s1, Resume(w)), Exit(w));
                     s'.jobs == s.jobs && s'.workers == map[] && s'.activeWorkerCount == 0 && s'.inFlight == 0)
  {
    var m := s.workers[w];
    ClaimSucceedsIff(s.jobs, m.jobId, claimId, m.key, now);
    assert |s.lock| > 0 && s.activeWorkerCount == 1 by { LastHolds(s, w); }
    hide Claimable, Claim, LastClaim;
    assert s.workers.Keys == {w} && s.inFlight == 0 && !s.drainRequested by { LastHolds(s, w); }
    var s2 := Next(Next(s, Mark(w, claimId, now)), Resume(w));
    assert s2.workers.Keys == {w};
    assert s2.workers - {w} == map[];
  }

  lemma LastHolds(s: Process, w: nat)
    requires LastClaim(s, w)
    ensures |s.lock| > 0 && s.activeWorkerCount == 1 && s.workers.Keys == {w} && s.inFlight == 0 && !s.drainRequested
  {
    assert s.workers[w].InSection();
  }

  /** With its row still there, the claim fails, and strands, exactly when a foreign running row has the key. */
  lemma LastClaimFailsIffForeign(s: Process, w: nat)
    requires LastClaim(s, w) && Held(s) && RowsListed(s)
    ensures !Claimable(s.jobs, s.workers[w].jobId, s.workers[w].key)
            <==> exists i :: Foreign(s, i) && s.jobs[i].repoKey == Some(s.workers[w].key)
  {
    ClaimSucceedsUnlessForeign(s, w);
  }

  // ---------------------------------------------------------------- two ways to get there

  function FreshRow(repoKey: string): Row { Row(Pending, 0, repoKey, Some(repoKey), None, 0, 0, 0) }

  /** One worker allowed, and about to claim the first pending row. */
  function FirstClaim(jobs: Jobs, order: seq<string>, id: string): Process
    requires id in jobs
  {
    Booted(jobs, order, 1, 3).(activeWorkerCount := 1, lock := [0], nextWorker := 1, inFlight := 0,
                               workers := map[0 := Marking(id, jobs[id].payloadRepoKey, jobs[id].attempts)])
  }

  function WithWorker(jobs: Jobs, order: seq<string>, worker: Worker): Process {
    Booted(jobs, order, 1, 3).(activeWorkerCount := 1, lock := [0], nextWorker := 1, inFlight := 0, workers := map[0 := worker])
  }

  lemma FirstDrain(jobs: Jobs, order: seq<string>)
    ensures Enabled(Booted(jobs, order, 1, 3), DrainCall)
    ensures Next(Booted(jobs, order, 1, 3), DrainCall) == WithWorker(jobs, order, WaitLock)
  {
    var s0 := Booted(jobs, order, 1, 3).(inFlight := 0);
    assert Drain(s0) == StartWorkers(s0, 1) == StartWorker(s0);
  }

  lemma FirstAcquire(jobs: Jobs, order: seq<string>)
    ensures var s := WithWorker(jobs, order, WaitLock);
            Enabled(s, Acquire(0)) && Next(s, Acquire(0)) == WithWorker(jobs, order, Scanning(0))
  {}

  lemma FirstSelect(jobs: Jobs, order: seq<string>, id: string) returns (rows: seq<Found>)
    requires PendingIds(jobs, order) != [] && PendingIds(jobs, order)[0] == id && id in jobs
    ensures |rows| > 0 && rows[0] == FoundRow(jobs, id)
    ensures var s := WithWorker(jobs, order, Scanning(0));
            Enabled(s, SelectPage(0)) && Next(s, SelectPage(0)) == WithWorker(jobs, order, Selected(0, rows))
  {
    var s := WithWorker(jobs, order, Scanning(0));
    assert Page(s, 0)[0] == id;
    rows := PageRows(s, 0);
    assert rows[0] == FoundRow(jobs, id);
    hide PageRows, Page;
    assert Next(s, SelectPage(0)).workers == map[0 := Selected(0, rows)];
  }

  lemma FirstConsider(jobs: Jobs, order: seq<string>, id: string, rows: seq<Found>)
    requires id in jobs && |rows| > 0 && rows[0] == FoundRow(jobs, id)
    ensures var s := WithWorker(jobs, order, Selected(0, rows));
            Enabled(s, Consider(0)) && Next(s, Consider(0)) == FirstClaim(jobs, order, id)
  {
    assert FirstUnlocked(rows, {}) == 0;
    hide FirstUnlocked;
    assert Next(WithWorker(jobs, order, Selected(0, rows)), Consider(0)).workers
           == map[0 := Marking(id, jobs[id].payloadRepoKey, jobs[id].attempts)];
  }

  /** A process with one worker reaches its first claim, whatever the table. */
  lemma ReachesClaim(jobs: Jobs, order: seq<string>, id: string)
    requires PendingIds(jobs, order) != [] && PendingIds(jobs, order)[0] == id && id in jobs
    ensures var s0 := Booted(jobs, order, 1, 3);
            && Runs(s0, [DrainCall, Acquire(0), SelectPage(0), Consider(0)])
            && Final(s0, [DrainCall, Acquire(0), SelectPage(0), Consider(0)]) == FirstClaim(jobs, order, id)
  {
    hide Next, Enabled, Booted, WithWorker, FirstClaim, FoundRow, PendingIds, Runs, Final;
    FirstDrain(jobs, order);
    FirstAcquire(jobs, order);
    var rows := FirstSelect(jobs, order, id);
    FirstConsider(jobs, order, id, rows);
    RunThree(WithWorker(jobs, order, WaitLock), Acquire(0), SelectPage(0), Consider(0));
    RunCons(Booted(jobs, order, 1, 3), DrainCall, [Acquire(0), SelectPage(0), Consider(0)]);
    assert [DrainCall] + [Acquire(0), SelectPage(0), Consider(0)] == [DrainCall, Acquire(0), SelectPage(0), Consider(0)];
  }

  lemma FirstClaimIsLast(jobs: Jobs, order: seq<string>, id: string)
    requires id in jobs
    ensures LastClaim(FirstClaim(jobs, order, id), 0)
  {}

  function Orphaned(): Jobs {
    map["a" := FreshRow("1/1").(status := Running, attempts := 1, claims := 1, claimId := Some(0)),
        "b" := FreshRow("1/1"), "c" := FreshRow("1/2")]
  }

  /**
   A running row left by a crash, not yet stale when the process starts again: the claim of
   its repository's next job fails, the worker ends, and a job of a free repository is left.
   */
  lemma OrphanStrands()
    ensures var s0, s := Booted(Orphaned(), ["a", "b", "c"], 1, 3), FirstClaim(Orphaned(), ["a", "b", "c"], "b");
            && Runs(s0, [DrainCall, Acquire(0), SelectPage(0), Consider(0)])
            && Final(s0, [DrainCall, Acquire(0), SelectPage(0), Consider(0)]) == s
            && Runs(s, [Mark(0, 7, 0), Resume(0), Exit(0)])
            && var s' := Final(s, [Mark(0, 7, 0), Resume(0), Exit(0)]);
               s'.activeWorkerCount == 0 && s'.inFlight == 0 && IsPending(s'.jobs, "c") && !RunningFor(s'.jobs, "1/2")
  {
    hide Orphaned, PendingIds, RunningFor, LastClaim, Next, Runs, Final, Claimable;
    var jobs := Orphaned();
    OrphanedTable();
    ReachesClaim(jobs, ["a", "b", "c"], "b");
    FirstClaimIsLast(jobs, ["a", "b", "c"], "b");
    LastClaimStrandsIff(FirstClaim(jobs, ["a", "b", "c"], "b"), 0, 7, 0);
  }

  lemma OrphanedTable()
    ensures var jobs := Orphaned();
            && "b" in jobs && jobs["b"].payloadRepoKey == "1/1"
            && PendingIds(jobs, ["a", "b", "c"]) != [] && PendingIds(jobs, ["a", "b", "c"])[0] == "b"
            && IsPending(jobs, "c") && !RunningFor(jobs, "1/2") && !Claimable(jobs, "b", "1/1")
            && forall i :: i in jobs ==> jobs[i].claimId != Some(7)
  {
    Letters();
    var jobs := Orphaned();
    assert ["a", "b", "c"][1..] == ["b", "c"];
    assert PendingIds(jobs, ["a", "b", "c"]) == PendingIds(jobs, ["b", "c"]);
    assert IsRunning(jobs, "a") && jobs["a"].repoKey == Some("1/1");
  }

  lemma Letters()
    ensures "a" != "b" && "a" != "c" && "b" != "c" && "1/1" != "1/2"
  {
    assert "a"[0] != "b"[0] && "a"[0] != "c"[0] && "b"[0] != "c"[0] && "1/1"[2] != "1/2"[2];
  }

  function TwoPending(): Jobs { map["a" := FreshRow("1/1"), "b" := FreshRow("1/2")] }

  /**
   `deleteRepositoryJobs` of another process removes the row a worker is about to claim:
   the claim fails, the worker ends, and the other pending row is left with nobody to run it.
   */
  lemma DeleteDuringClaimStrands()
    ensures var s0, s1 := Booted(TwoPending(), ["a", "b"], 1, 3), FirstClaim(TwoPending(), ["a", "b"], "a");
            var s2 := Next(s1, OtherProcess(DeleteNonRunning(TwoPending(), "1/1"), ["b"]));
            && Runs(s0, [DrainCall, Acquire(0), SelectPage(0), Consider(0)])
            && Final(s0, [DrainCall, Acquire(0), SelectPage(0), Consider(0)]) == s1
            && Runs(s2, [Mark(0, 7, 0), Resume(0), Exit(0)])
            && var s' := Final(s2, [Mark(0, 7, 0), Resume(0), Exit(0)]);
               s'.activeWorkerCount == 0 && s'.inFlight == 0 && IsPending(s'.jobs, "b")
  {
    hide TwoPending, PendingIds, RunningFor, LastClaim, Runs, Final, DeleteNonRunning, Orderly;
    TwoPendingTable();
    ReachesClaim(TwoPending(), ["a", "b"], "a");
    FirstClaimIsLast(TwoPending(), ["a", "b"], "a");
    var s1 := FirstClaim(TwoPending(), ["a", "b"], "a");
    var jobs := DeleteNonRunning(TwoPending(), "1/1");
    LastClaimElsewhere(s1, 0, jobs, ["b"]);
    LastClaimStrandsIff(s1.(jobs := jobs, order := ["b"]), 0, 7, 0);
  }

  lemma LastClaimElsewhere(s: Process, w: nat, jobs: Jobs, order: seq<string>)
    requires LastClaim(s, w)
    ensures LastClaim(s.(jobs := jobs, order := order), w)
  {
    hide Orderly;
    SameWorkersOrderly(s, s.(jobs := jobs, order := order));
  }

  lemma TwoPendingTable()
    ensures var jobs := DeleteNonRunning(TwoPending(), "1/1");
            && "a" in TwoPending() && TwoPending()["a"].payloadRepoKey == "1/1"
            && PendingIds(TwoPending(), ["a", "b"]) != [] && PendingIds(TwoPending(), ["a", "b"])[0] == "a"
            && "a" !in jobs && IsPending(jobs, "b") && forall i :: i in jobs ==> jobs[i].claimId != Some(7)
  {
    Letters();
    assert ["a", "b"][1..] == ["b"];
  }
}
