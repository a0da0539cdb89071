/**
 One process of the durable queue: its drain workers, the claim lock, the repository keys
 it is running, and the shared job table. One event is one statement, or the code between
 two awaits. `order` lists the rows by creation time; the clock may place a new row anywhere.
 */
module IndexingWorkers {
  import opened JobTable

  const JOB_CLAIM_SCAN_LIMIT := 50

  /** A pending row as the scan reads it. */
  datatype Found = Found(jobId: string, key: string, attempts: nat)

  /** `Selected`: a page has been read, and the code after that select is still to run. */
  datatype Worker =
    | WaitLock
    | Scanning(offset: nat)
    | Selected(offset: nat, rows: seq<Found>)
    | Marking(jobId: string, key: string, attempts: nat)
    | Marked(jobId: string, key: string, attempts: nat, claimed: bool)
    | Processing(jobId: string, key: string, attempts: nat)
    | Finishing(key: string)
    | Exiting
  {
    predicate InSection() { Scanning? || Selected? || Marking? || Marked? }
    predicate HoldsKey() { Processing? || Finishing? }
    /** Will scan again from the start, or is about to run a job and then scan again. */
    predicate WillScan() { WaitLock? || Marking? || (Marked? && claimed) || HoldsKey() }
  }

  datatype Process = Process(
    jobs: Jobs,
    order: seq<string>,
    concurrency: nat,
    maxAttempts: nat,
    activeWorkerCount: int,
    drainRequested: bool,
    lock: seq<nat>,
    runningRepoKeys: set<string>,
    workers: map<nat, Worker>,
    nextWorker: nat,
    inFlight: nat)

  datatype Event =
    | Insert(id: string, repoKey: string, position: nat, now: nat)
    | DrainCall
    | Acquire(w: nat)
    | SelectPage(w: nat)
    | Consider(w: nat)
    | Mark(w: nat, claimId: nat, now: nat)
    | Resume(w: nat)
    | Succeed(w: nat, now: nat)
    | JobError(w: nat, now: nat)
    | ReleaseKey(w: nat)
    | Exit(w: nat)
    | CleanupEvent(cutoff: nat)
    | StaleReset(cutoff: nat, now: nat)
    | Restart
    | DatabaseError(w: nat)
    | OtherProcess(newJobs: Jobs, newOrder: seq<string>)

  // ---------------------------------------------------------------- what the events do

  function PendingIds(jobs: Jobs, order: seq<string>): seq<string> {
    if |order| == 0 then []
    else if IsPending(jobs, order[0]) then [order[0]] + PendingIds(jobs, order[1..])
    else PendingIds(jobs, order[1..])
  }

  function Page(s: Process, offset: nat): seq<string> {
    var pending := PendingIds(s.jobs, s.order);
    if offset >= |pending| then []
    else pending[offset..if offset + JOB_CLAIM_SCAN_LIMIT <= |pending| then offset + JOB_CLAIM_SCAN_LIMIT else |pending|]
  }

  function FoundRow(jobs: Jobs, id: string): Found
    requires id in jobs
  {
    Found(id, jobs[id].payloadRepoKey, jobs[id].attempts)
  }

  /** What the select of a page returns. */
  function PageRows(s: Process, offset: nat): (rows: seq<Found>)
    ensures |rows| == |Page(s, offset)|
    ensures forall k :: 0 <= k < |rows| ==> Page(s, offset)[k] in s.jobs && rows[k] == FoundRow(s.jobs, Page(s, offset)[k])
  {
    PagePending(s, offset);
    var ids := Page(s, offset);
    seq(|ids|, k requires 0 <= k < |ids| => FoundRow(s.jobs, ids[k]))
  }

  /** The first row of the page whose repository this process is not running, or -1. */
  function FirstUnlocked(rows: seq<Found>, running: set<string>): (i: int)
    ensures -1 <= i < |rows|
    ensures i >= 0 ==> rows[i].key !in running
    ensures i < 0 ==> forall k :: 0 <= k < |rows| ==> rows[k].key in running
  {
    if |rows| == 0 then -1
    else if rows[0].key !in running then 0
    else
      var i := FirstUnlocked(rows[1..], running);
      assert forall k :: 1 <= k < |rows| ==> rows[k] == rows[1..][k - 1];
      if i < 0 then -1 else i + 1
  }

  function StartWorkers(s: Process, n: nat): Process
    decreases n
  {
    if n == 0 then s else StartWorkers(StartWorker(s), n - 1)
  }

  /** A new worker runs up to its place in the queue for the claim lock. */
  function StartWorker(s: Process): Process {
    s.(activeWorkerCount := s.activeWorkerCount + 1,
       workers := s.workers[s.nextWorker := WaitLock],
       lock := s.lock + [s.nextWorker],
       nextWorker := s.nextWorker + 1)
  }

  function Drain(s: Process): Process {
    var workerCapacity := s.concurrency - s.activeWorkerCount;
    if workerCapacity <= 0 then s.(drainRequested := true)
    else StartWorkers(s.(drainRequested := false), workerCapacity)
  }

  function Set(s: Process, w: nat, worker: Worker): Process { s.(workers := s.workers[w := worker]) }

  function Unlock(s: Process): Process
    requires |s.lock| > 0
  {
    s.(lock := s.lock[1..])
  }

  predicate Is(s: Process, w: nat) { w in s.workers }

  /** Which rows a stale reset may hit: never one that a worker of this process is running. */
  ghost predicate OnlyDeadRows(s: Process, cutoff: nat) {
    forall w :: w in s.workers && (s.workers[w].Processing? || s.workers[w].Marked?) ==>
      s.workers[w].jobId in s.jobs ==> !IsStale(s.jobs[s.workers[w].jobId], cutoff)
  }

  ghost predicate Enabled(s: Process, e: Event) {
    match e
    case Insert(_, _, position, _) => position <= |s.order|
    case DrainCall => s.inFlight > 0
    case Acquire(w) => Is(s, w) && s.workers[w].WaitLock? && |s.lock| > 0 && s.lock[0] == w
    case SelectPage(w) => Is(s, w) && s.workers[w].Scanning?
    case Consider(w) => Is(s, w) && s.workers[w].Selected? && |s.lock| > 0
    case Mark(w, claimId, _) =>
      Is(s, w) && s.workers[w].Marking? && forall i :: i in s.jobs ==> s.jobs[i].claimId != Some(claimId)
    case Resume(w) => Is(s, w) && s.workers[w].Marked? && |s.lock| > 0
    case Succeed(w, _) => Is(s, w) && s.workers[w].Processing?
    case JobError(w, _) => Is(s, w) && s.workers[w].Processing?
    case ReleaseKey(w) => Is(s, w) && s.workers[w].Finishing?
    case Exit(w) => Is(s, w) && s.workers[w].Exiting?
    case StaleReset(cutoff, _) => OnlyDeadRows(s, cutoff)
    case DatabaseError(w) =>
      Is(s, w) && (s.workers[w].HoldsKey() || (s.workers[w].InSection() && |s.lock| > 0))
    case CleanupEvent(_) => true
    case Restart => true
    case OtherProcess(_, _) => true
  }

  lemma {:induction false} PendingIdsPending(jobs: Jobs, order: seq<string>)
    ensures forall id :: id in PendingIds(jobs, order) <==> id in order && IsPending(jobs, id)
  {
    if |order| > 0 {
      PendingIdsPending(jobs, order[1..]);
      assert forall id :: id in order <==> id == order[0] || id in order[1..];
    }
  }

  lemma PagePending(s: Process, offset: nat)
    ensures forall k :: 0 <= k < |Page(s, offset)| ==> IsPending(s.jobs, Page(s, offset)[k])
    ensures |Page(s, 0)| == 0 ==> forall id :: id in s.order ==> !IsPending(s.jobs, id)
  {
    var pending := PendingIds(s.jobs, s.order);
    PendingIdsPending(s.jobs, s.order);
    forall k | 0 <= k < |Page(s, offset)| ensures IsPending(s.jobs, Page(s, offset)[k]) {
      assert Page(s, offset)[k] == pending[offset + k];
      assert pending[offset + k] in pending;
    }
  }

  function PageSelected(s: Process, w: nat): Process
    requires Is(s, w) && s.workers[w].Scanning?
  {
    Set(s, w, Selected(s.workers[w].offset, PageRows(s, s.workers[w].offset)))
  }

  function Considered(s: Process, w: nat): Process
    requires Is(s, w) && s.workers[w].Selected? && |s.lock| > 0
  {
    var offset, rows := s.workers[w].offset, s.workers[w].rows;
    var i := FirstUnlocked(rows, s.runningRepoKeys);
    if i >= 0 then Set(s, w, Marking(rows[i].jobId, rows[i].key, rows[i].attempts))
    else if |rows| < JOB_CLAIM_SCAN_LIMIT then Set(Unlock(s), w, Exiting)
    else Set(s, w, Scanning(offset + JOB_CLAIM_SCAN_LIMIT))
  }

  function MarkedBy(s: Process, w: nat, claimId: nat, now: nat): Process
    requires Is(s, w) && s.workers[w].Marking?
  {
    var m := s.workers[w];
    var r := Claim(s.jobs, m.jobId, claimId, m.key, now);
    Set(s.(jobs := r.jobs), w, Marked(m.jobId, m.key, m.attempts, r.claimed))
  }

  function Resumed(s: Process, w: nat): Process
    requires Is(s, w) && s.workers[w].Marked? && |s.lock| > 0
  {
    var m := s.workers[w];
    if m.claimed then
      Set(Unlock(s).(runningRepoKeys := s.runningRepoKeys + {m.key}), w, Processing(m.jobId, m.key, m.attempts))
    else Set(Unlock(s), w, Exiting)
  }

  function AfterError(s: Process, w: nat, now: nat): Process
    requires Is(s, w) && s.workers[w].Processing?
  {
    var p := s.workers[w];
    var attempt := p.attempts + 1;
    var status := if attempt < s.maxAttempts then Pending else Failed;
    Set(s.(jobs := SetStatus(s.jobs, p.jobId, status, now)), w, Finishing(p.key))
  }

  /** The worker is gone; a remembered drain is still to come. */
  function WithoutWorker(s: Process, w: nat): Process {
    s.(activeWorkerCount := s.activeWorkerCount - 1, workers := s.workers - {w})
  }

  function Exited(s: Process, w: nat): Process {
    if s.drainRequested then Drain(WithoutWorker(s, w)) else WithoutWorker(s, w)
  }

  function OnDatabaseError(s: Process, w: nat): Process
    requires Is(s, w) && (s.workers[w].HoldsKey() || (s.workers[w].InSection() && |s.lock| > 0))
  {
    if s.workers[w].HoldsKey() then
      Set(s.(runningRepoKeys := s.runningRepoKeys - {s.workers[w].key}), w, Exiting)
    else Set(Unlock(s), w, Exiting)
  }

  function Inserted(s: Process, id: string, repoKey: string, position: nat, now: nat): Process
    requires position <= |s.order|
  {
    s.(jobs := Enqueue(s.jobs, id, repoKey, now),
       order := if id in s.jobs then s.order else s.order[..position] + [id] + s.order[position..],
       inFlight := s.inFlight + 1)
  }

  function ReleasedKey(s: Process, w: nat): Process
    requires Is(s, w) && s.workers[w].Finishing?
  {
    Set(s.(runningRepoKeys := s.runningRepoKeys - {s.workers[w].key}, lock := s.lock + [w]), w, WaitLock)
  }

  function Next(s: Process, e: Event): Process
    requires Enabled(s, e)
  {
    match e
    case Insert(id, repoKey, position, now) => Inserted(s, id, repoKey, position, now)
    case DrainCall => Drain(s.(inFlight := s.inFlight - 1))
    case Acquire(w) => Set(s, w, Scanning(0))
    case SelectPage(w) => PageSelected(s, w)
    case Consider(w) => Considered(s, w)
    case Mark(w, claimId, now) => MarkedBy(s, w, claimId, now)
    case Resume(w) => Resumed(s, w)
    case Succeed(w, now) =>
      Set(s.(jobs := SetStatus(s.jobs, s.workers[w].jobId, Completed, now)), w, Finishing(s.workers[w].key))
    case JobError(w, now) => AfterError(s, w, now)
    case ReleaseKey(w) => ReleasedKey(s, w)
    case Exit(w) => Exited(s, w)
    case CleanupEvent(cutoff) => s.(jobs := Cleanup(s.jobs, cutoff))
    case StaleReset(cutoff, now) => s.(jobs := ResetStale(s.jobs, cutoff, now))
    // A new process starts with nothing but the table, and `start()` is going to drain.
    case Restart =>
      s.(activeWorkerCount := 0, drainRequested := false, lock := [], runningRepoKeys := {},
         workers := map[], nextWorker := 0, inFlight := 1)
    case DatabaseError(w) => OnDatabaseError(s, w)
    case OtherProcess(newJobs, newOrder) => s.(jobs := newJobs, order := newOrder)
  }

  function Booted(jobs: Jobs, order: seq<string>, concurrency: nat, maxAttempts: nat): Process {
    Process(jobs, order, concurrency, maxAttempts, 0, false, [], {}, map[], 0, 1)
  }

  ghost predicate Runs(s: Process, events: seq<Event>)
    decreases |events|
  {
    |events| == 0 || (Enabled(s, events[0]) && Runs(Next(s, events[0]), events[1..]))
  }

  ghost function Final(s: Process, events: seq<Event>): Process
    requires Runs(s, events)
    decreases |events|
  {
    if |events| == 0 then s else Final(Next(s, events[0]), events[1..])
  }

  // ---------------------------------------------------------------- the object's own bookkeeping

  /** Worker counting as the object does it, between awaits. */
  class DrainControl {
    const concurrency: nat
    var activeWorkerCount: int
    var drainRequested: bool

    constructor (concurrency: int)
      ensures this.concurrency >= 1 && (concurrency >= 1 ==> this.concurrency == concurrency)
      ensures activeWorkerCount == 0 && !drainRequested
    {
      this.concurrency := if concurrency < 1 then 1 else concurrency;
      activeWorkerCount, drainRequested := 0, false;
    }

    ghost predicate Mirrors(s: Process)
      reads this
    {
      concurrency == s.concurrency && activeWorkerCount == s.activeWorkerCount && drainRequested == s.drainRequested
    }

    /** Returns the number of workers started. */
    method DrainNow(ghost s: Process) returns (started: nat)
      requires Mirrors(s)
      modifies this
      ensures Mirrors(Drain(s))
      ensures started == Drain(s).nextWorker - s.nextWorker
    {
      var workerCapacity := concurrency - activeWorkerCount;
      started := 0;
      if workerCapacity <= 0 {
        drainRequested := true;
        return;
      }
      drainRequested := false;
      StartWorkersCounts(s.(drainRequested := false), workerCapacity);
      for i := 0 to workerCapacity
        invariant started == i && activeWorkerCount == s.activeWorkerCount + i && !drainRequested
      {
        activeWorkerCount := activeWorkerCount + 1;
        started := started + 1;
      }
    }

    method WorkerDone(ghost s: Process, ghost w: nat) returns (started: nat)
      requires Mirrors(s)
      modifies this
      ensures Mirrors(Exited(s, w))
    {
      activeWorkerCount := activeWorkerCount - 1;
      started := 0;
      if drainRequested {
        started := DrainNow(WithoutWorker(s, w));
      }
    }
  }

  lemma {:induction false} StartWorkersCounts(s: Process, n: nat)
    ensures var s' := StartWorkers(s, n);
            && s'.activeWorkerCount == s.activeWorkerCount + n && s'.nextWorker == s.nextWorker + n
            && s' == s.(activeWorkerCount := s'.activeWorkerCount, nextWorker := s'.nextWorker,
                        workers := s'.workers, lock := s'.lock)
            && (forall w :: w in s.workers && w < s.nextWorker ==> w in s'.workers && s'.workers[w] == s.workers[w])
            && (n > 0 ==> s.nextWorker in s'.workers && s'.workers[s.nextWorker].WaitLock?)
    decreases n
  {
    if n > 0 {
      StartWorkersCounts(StartWorker(s), n - 1);
    }
  }

  // ---------------------------------------------------------------- the lock and the keys

  ghost predicate Locked(s: Process) {
    && (forall i :: 0 <= i < |s.lock| ==> s.lock[i] in s.workers)
    && (forall i :: 0 < i < |s.lock| ==> s.workers[s.lock[i]].WaitLock?)
    && (|s.lock| > 0 ==> s.workers[s.lock[0]].WaitLock? || s.workers[s.lock[0]].InSection())
    && (forall i, j :: 0 <= i < j < |s.lock| ==> s.lock[i] != s.lock[j])
    && (forall w :: w in s.workers && s.workers[w].InSection() ==> |s.lock| > 0 && s.lock[0] == w)
    && (forall w :: w in s.workers && s.workers[w].WaitLock? ==> w in s.lock)
  }

  /** The keys of the process are the keys of its busy workers, one worker each. */
  ghost predicate KeysOwned(s: Process) { KeysIn(s) && KeysBacked(s) && KeysApart(s) && KeysFree(s) }

  ghost predicate KeysIn(s: Process) {
    forall w :: w in s.workers && s.workers[w].HoldsKey() ==> s.workers[w].key in s.runningRepoKeys
  }

  ghost predicate KeysBacked(s: Process) {
    forall k :: k in s.runningRepoKeys ==> exists w :: w in s.workers && s.workers[w].HoldsKey() && s.workers[w].key == k
  }

  ghost predicate KeysApart(s: Process) {
    forall w, u | w in s.workers && u in s.workers && s.workers[w].HoldsKey() && s.workers[u].HoldsKey() ::
      s.workers[w].key == s.workers[u].key ==> w == u
  }

  ghost predicate KeysFree(s: Process) {
    forall w :: w in s.workers && (s.workers[w].Marking? || s.workers[w].Marked?) ==>
      s.workers[w].key !in s.runningRepoKeys
  }

  ghost predicate WorkersCounted(s: Process) {
    && s.concurrency >= 1
    && s.activeWorkerCount == |s.workers.Keys| <= s.concurrency
    && (s.drainRequested ==> s.activeWorkerCount == s.concurrency)
    && (forall w :: w in s.workers ==> w < s.nextWorker)
  }

  ghost predicate Orderly(s: Process) { Locked(s) && KeysOwned(s) && WorkersCounted(s) }

  lemma StartWorkerOrderly(s: Process)
    requires Orderly(s) && s.activeWorkerCount < s.concurrency && !s.drainRequested
    ensures Orderly(StartWorker(s))
  {
    StartedLocked(s, StartWorker(s), s.nextWorker);
    StartedKeys(s, StartWorker(s), s.nextWorker);
    StartedCounted(s, StartWorker(s), s.nextWorker);
  }

  lemma {:induction false} StartWorkersOrderly(s: Process, n: nat)
    requires Orderly(s) && s.activeWorkerCount + n <= s.concurrency && !s.drainRequested
    ensures Orderly(StartWorkers(s, n))
    decreases n
  {
    hide Locked, KeysOwned, WorkersCounted;
    if n > 0 {
      StartWorkerOrderly(s);
      StartWorkersOrderly(StartWorker(s), n - 1);
    }
  }

  lemma StartedCounted(s: Process, s1: Process, w: nat)
    requires WorkersCounted(s) && s.activeWorkerCount < s.concurrency && !s1.drainRequested
    requires w == s.nextWorker && s1.nextWorker == w + 1 && s1.concurrency == s.concurrency
    requires s1.activeWorkerCount == s.activeWorkerCount + 1 && s1.workers == s.workers[w := WaitLock]
    ensures WorkersCounted(s1)
  {
    assert s1.workers.Keys == s.workers.Keys + {w};
  }

  lemma StartedLocked(s: Process, s1: Process, w: nat)
    requires Locked(s) && w !in s.workers && s1.workers == s.workers[w := WaitLock] && s1.lock == s.lock + [w]
    ensures Locked(s1)
  {
    forall i | 0 <= i < |s.lock| ensures s1.lock[i] == s.lock[i] && s.lock[i] != w {}
    forall u | u in s1.workers && s1.workers[u].WaitLock? ensures u in s1.lock {
      if u == w {
        assert s1.lock[|s.lock|] == w;
      } else {
        assert u in s.lock;
      }
    }
  }

  lemma StartedKeys(s: Process, s1: Process, w: nat)
    requires KeysOwned(s) && w !in s.workers && s1.workers == s.workers[w := WaitLock]
    requires s1.runningRepoKeys == s.runningRepoKeys
    ensures KeysOwned(s1)
  {
    forall k | k in s1.runningRepoKeys
      ensures exists u :: u in s1.workers && s1.workers[u].HoldsKey() && s1.workers[u].key == k
    {
      var u :| u in s.workers && s.workers[u].HoldsKey() && s.workers[u].key == k;
      assert s1.workers[u] == s.workers[u];
    }
  }

  lemma DrainOrderly(s: Process)
    requires Locked(s) && KeysOwned(s)
    requires s.concurrency >= 1 && s.activeWorkerCount == |s.workers.Keys| <= s.concurrency
    requires forall w :: w in s.workers ==> w < s.nextWorker
    ensures Orderly(Drain(s))
  {
    if s.concurrency - s.activeWorkerCount > 0 {
      var s1 := s.(drainRequested := false);
      assert Locked(s1) && KeysOwned(s1);
      hide Locked, KeysOwned;
      StartWorkersOrderly(s1, s.concurrency - s.activeWorkerCount);
    }
  }

  /** Every key of the process but those given is still backed. */
  lemma BackedStill(s: Process, s1: Process, w: nat, k: string)
    requires KeysBacked(s) && k in s.runningRepoKeys
    requires forall u :: u in s.workers && u != w ==> u in s1.workers && s1.workers[u] == s.workers[u]
    requires w in s.workers && s.workers[w].HoldsKey() && s.workers[w].key == k ==>
               w in s1.workers && s1.workers[w].HoldsKey() && s1.workers[w].key == k
    ensures exists u :: u in s1.workers && s1.workers[u].HoldsKey() && s1.workers[u].key == k
  {
    var u :| u in s.workers && s.workers[u].HoldsKey() && s.workers[u].key == k;
    assert u in s1.workers && s1.workers[u].HoldsKey() && s1.workers[u].key == k;
  }

  /** A worker that changes state outside the lock and without touching the keys. */
  lemma KeysKept(s: Process, s1: Process, w: nat)
    requires KeysOwned(s) && Is(s, w) && s1.workers.Keys == s.workers.Keys
    requires forall u :: u in s.workers && u != w ==> s1.workers[u] == s.workers[u]
    requires s1.runningRepoKeys == s.runningRepoKeys
    requires s.workers[w].HoldsKey() == s1.workers[w].HoldsKey()
    requires s.workers[w].HoldsKey() ==> s.workers[w].key == s1.workers[w].key
    requires s1.workers[w].Marking? || s1.workers[w].Marked? ==> s1.workers[w].key !in s.runningRepoKeys
    ensures KeysOwned(s1)
  {
    assert KeysApart(s1) by { hide KeysBacked, KeysFree, KeysIn; }
    assert KeysBacked(s1) by {
      hide KeysApart, KeysFree, KeysIn;
      forall k | k in s1.runningRepoKeys
        ensures exists u :: u in s1.workers && s1.workers[u].HoldsKey() && s1.workers[u].key == k
      {
        hide KeysBacked;
        BackedStill(s, s1, w, k);
      }
    }
    hide KeysApart, KeysBacked;
  }

  lemma KeyAdded(s: Process, s1: Process, w: nat)
    requires KeysOwned(s) && Locked(s) && Is(s, w) && s.workers[w].Marked?
    requires s1.workers == s.workers[w := Processing(s.workers[w].jobId, s.workers[w].key, s.workers[w].attempts)]
    requires s1.runningRepoKeys == s.runningRepoKeys + {s.workers[w].key}
    ensures KeysOwned(s1)
  {
    assert s.workers[w].InSection();
    forall u | u in s1.workers && u != w ensures s1.workers[u] == s.workers[u] && !s.workers[u].InSection() {}
    hide Locked;
    assert s1.workers[w].HoldsKey() && s1.workers[w].key == s.workers[w].key;
    assert KeysBacked(s1) by {
      hide KeysApart, KeysFree, KeysIn;
      forall k | k in s1.runningRepoKeys
        ensures exists u :: u in s1.workers && s1.workers[u].HoldsKey() && s1.workers[u].key == k
      {
        hide KeysBacked;
        if k != s.workers[w].key {
          BackedStill(s, s1, w, k);
        }
      }
    }
    hide KeysBacked;
  }

  lemma KeyRemoved(s: Process, s1: Process, w: nat)
    requires KeysOwned(s) && Is(s, w) && s.workers[w].HoldsKey()
    requires s1.workers.Keys == s.workers.Keys && !s1.workers[w].HoldsKey()
    requires !s1.workers[w].Marking? && !s1.workers[w].Marked?
    requires forall u :: u in s.workers && u != w ==> s1.workers[u] == s.workers[u]
    requires s1.runningRepoKeys == s.runningRepoKeys - {s.workers[w].key}
    ensures KeysOwned(s1)
  {
    assert KeysBacked(s1) by {
      hide KeysApart, KeysFree, KeysIn;
      forall k | k in s1.runningRepoKeys
        ensures exists u :: u in s1.workers && s1.workers[u].HoldsKey() && s1.workers[u].key == k
      {
        hide KeysBacked;
        BackedStill(s, s1, w, k);
      }
    }
    hide KeysBacked;
  }

  /** The holder of the lock moves on inside its section. */
  lemma HolderMoves(s: Process, s1: Process, w: nat)
    requires Locked(s) && Is(s, w) && |s.lock| > 0 && s.lock[0] == w
    requires s1.lock == s.lock && w in s1.workers && s1.workers == s.workers[w := s1.workers[w]]
    requires s1.workers[w].InSection()
    ensures Locked(s1)
  {
    forall u | u in s1.workers && u != w ensures !s1.workers[u].InSection() {
      assert !s.workers[u].InSection();
    }
  }

  /** The holder leaves its section and the next in line may enter. */
  lemma HolderLeaves(s: Process, s1: Process, w: nat)
    requires Locked(s) && Is(s, w) && s.workers[w].InSection()
    requires |s.lock| > 0 && s1.lock == s.lock[1..] && w in s1.workers && s1.workers == s.workers[w := s1.workers[w]]
    requires !s1.workers[w].InSection() && !s1.workers[w].WaitLock?
    ensures Locked(s1)
  {
    assert s.lock[0] == w;
    forall i | 0 <= i < |s1.lock| ensures s1.lock[i] == s.lock[i + 1] && s1.lock[i] != w {}
    forall u | u in s1.workers && u != w ensures !s1.workers[u].InSection() {
      assert !s.workers[u].InSection();
    }
    forall u | u in s1.workers && s1.workers[u].WaitLock? ensures u in s1.lock {
      var i :| 0 <= i < |s.lock| && s.lock[i] == u;
      assert s1.lock[i - 1] == u;
    }
  }

  /** A worker outside the lock changes state and stays outside. */
  lemma OutsiderMoves(s: Process, s1: Process, w: nat)
    requires Locked(s) && Is(s, w) && s1.lock == s.lock && w in s1.workers && s1.workers == s.workers[w := s1.workers[w]]
    requires !s.workers[w].InSection() && !s.workers[w].WaitLock?
    requires !s1.workers[w].InSection() && !s1.workers[w].WaitLock?
    ensures Locked(s1)
  {
    forall i | 0 <= i < |s.lock| ensures s.lock[i] != w {}
  }

  lemma Queues(s: Process, s1: Process, w: nat)
    requires Locked(s) && Is(s, w) && s1.lock == s.lock + [w] && s1.workers == s.workers[w := WaitLock]
    requires !s.workers[w].InSection() && !s.workers[w].WaitLock?
    ensures Locked(s1)
  {
    forall i | 0 <= i < |s.lock| ensures s1.lock[i] == s.lock[i] && s.lock[i] != w {}
    assert s1.lock[|s.lock|] == w;
    forall u | u in s1.workers && s1.workers[u].WaitLock? ensures u in s1.lock {
      if u != w {
        assert u in s.lock;
      }
    }
  }

  lemma ExitLocked(s: Process, w: nat)
    requires Locked(s) && Is(s, w) && s.workers[w].Exiting?
    ensures Locked(WithoutWorker(s, w))
  {
    forall i | 0 <= i < |s.lock| ensures s.lock[i] != w {}
  }

  lemma ExitKeys(s: Process, w: nat)
    requires KeysOwned(s) && Is(s, w) && s.workers[w].Exiting?
    ensures KeysOwned(WithoutWorker(s, w))
  {
    var s1 := WithoutWorker(s, w);
    assert KeysBacked(s1) by {
      hide KeysApart, KeysFree, KeysIn;
      forall k | k in s1.runningRepoKeys
        ensures exists u :: u in s1.workers && s1.workers[u].HoldsKey() && s1.workers[u].key == k
      {
        hide KeysBacked;
        BackedStill(s, s1, w, k);
      }
    }
    hide KeysBacked;
  }

  lemma ExitOrderly(s: Process, w: nat)
    requires Orderly(s) && Is(s, w) && s.workers[w].Exiting?
    ensures Orderly(Exited(s, w))
  {
    var s1 := WithoutWorker(s, w);
    ExitLocked(s, w);
    ExitKeys(s, w);
    assert s1.workers.Keys == s.workers.Keys - {w};
    hide Locked, KeysOwned, Drain;
    if s.drainRequested {
      DrainOrderly(s1);
    }
  }

  /** What a page holds: rows pending when it was read, and none only when no later row was. */
  lemma SelectOutcome(s: Process, w: nat)
    requires Is(s, w) && s.workers[w].Scanning?
    ensures var rows := PageSelected(s, w).workers[w].rows;
            && (forall k :: 0 <= k < |rows| ==> IsPending(s.jobs, rows[k].jobId) && rows[k] == FoundRow(s.jobs, rows[k].jobId))
            && (s.workers[w].offset == 0 && |rows| == 0 ==> forall id :: id in s.order ==> !IsPending(s.jobs, id))
  {
    PagePending(s, s.workers[w].offset);
  }

  /** What a page leads to: a claim of a row whose repository is free, the next page, or the end. */
  lemma ConsiderOutcome(s: Process, w: nat)
    requires Is(s, w) && s.workers[w].Selected? && |s.lock| > 0
    ensures var s1, rows := Considered(s, w), s.workers[w].rows;
            && s1.workers.Keys == s.workers.Keys && s1.workers == s.workers[w := s1.workers[w]]
            && s1 == s.(lock := s1.lock, workers := s1.workers)
            && s1.lock == (if s1.workers[w].Exiting? then s.lock[1..] else s.lock)
            && match s1.workers[w] {
                 case Marking(id, key, attempts) => key !in s.runningRepoKeys && Found(id, key, attempts) in rows
                 case Scanning(offset) => offset > 0 && exists k :: k in s.runningRepoKeys
                 case Exiting => |rows| == 0 || exists k :: k in s.runningRepoKeys
                 case _ => false
               }
  {
    var rows := s.workers[w].rows;
    if FirstUnlocked(rows, s.runningRepoKeys) < 0 && |rows| > 0 {
      assert rows[0].key in s.runningRepoKeys;
    }
  }

  /** The holder of the lock moves inside its section, and at most the table changes with it. */
  lemma SectionMoveOrderly(s: Process, s1: Process, w: nat)
    requires Orderly(s) && Is(s, w) && |s.lock| > 0 && s.lock[0] == w && w in s1.workers
    requires s1 == s.(jobs := s1.jobs, workers := s.workers[w := s1.workers[w]])
    requires s1.workers[w].InSection() && !s.workers[w].HoldsKey()
    requires s1.workers[w].Marking? || s1.workers[w].Marked? ==> s1.workers[w].key !in s.runningRepoKeys
    ensures Orderly(s1)
  {
    hide Locked, KeysOwned;
    assert s1.workers.Keys == s.workers.Keys;
    KeysKept(s, s1, w);
    HolderMoves(s, s1, w);
  }

  /** The holder leaves its section without a key. */
  lemma SectionLeftOrderly(s: Process, s1: Process, w: nat)
    requires Orderly(s) && Is(s, w) && s.workers[w].InSection() && |s.lock| > 0 && w in s1.workers
    requires s1 == s.(lock := s.lock[1..], workers := s.workers[w := s1.workers[w]])
    requires s1.workers[w].Exiting?
    ensures Orderly(s1)
  {
    hide Locked, KeysOwned;
    assert s1.workers.Keys == s.workers.Keys;
    KeysKept(s, s1, w);
    HolderLeaves(s, s1, w);
  }

  lemma ConsiderOrderly(s: Process, w: nat)
    requires Orderly(s) && Enabled(s, Consider(w))
    ensures Orderly(Considered(s, w))
  {
    var s1 := Considered(s, w);
    ConsiderOutcome(s, w);
    SectionHolds(s, w);
    hide Considered, Orderly;
    if s1.workers[w].Exiting? { SectionLeftOrderly(s, s1, w); } else { SectionMoveOrderly(s, s1, w); }
  }

  lemma ResumeOrderly(s: Process, w: nat)
    requires Orderly(s) && Enabled(s, Resume(w))
    ensures Orderly(Resumed(s, w))
  {
    hide Locked, KeysOwned;
    var s1 := Resumed(s, w);
    if s.workers[w].claimed {
      ResumeUnlocks(s, w);
      ResumeKeys(s, w);
      assert s1.workers.Keys == s.workers.Keys;
    } else {
      SectionLeftOrderly(s, s1, w);
    }
  }

  lemma ResumeUnlocks(s: Process, w: nat)
    requires Locked(s) && Enabled(s, Resume(w))
    ensures Locked(Resumed(s, w))
  {
    hide Locked;
    var s1 := Resumed(s, w);
    assert s1.workers == s.workers[w := s1.workers[w]];
    HolderLeaves(s, s1, w);
  }

  lemma ResumeKeys(s: Process, w: nat)
    requires Locked(s) && KeysOwned(s) && Enabled(s, Resume(w))
    ensures KeysOwned(Resumed(s, w))
  {
    hide Locked, KeysOwned;
    var s1 := Resumed(s, w);
    assert s1.workers.Keys == s.workers.Keys;
    if s.workers[w].claimed { KeyAdded(s, s1, w); } else { KeysKept(s, s1, w); }
  }

  lemma ErrorOrderly(s: Process, w: nat)
    requires Orderly(s) && Enabled(s, DatabaseError(w))
    ensures Orderly(OnDatabaseError(s, w))
  {
    hide Locked, KeysOwned;
    var s1 := OnDatabaseError(s, w);
    assert s1.workers == s.workers[w := s1.workers[w]];
    assert s1.workers.Keys == s.workers.Keys;
    if s.workers[w].HoldsKey() {
      OutsiderMoves(s, s1, w);
      KeyRemoved(s, s1, w);
    } else {
      HolderLeaves(s, s1, w);
      KeysKept(s, s1, w);
    }
  }

  lemma SectionHolds(s: Process, w: nat)
    requires Orderly(s) && Is(s, w) && s.workers[w].InSection()
    ensures |s.lock| > 0 && s.lock[0] == w
    ensures s.workers[w].Marking? || s.workers[w].Marked? ==> s.workers[w].key !in s.runningRepoKeys
  {}

  lemma MarkOrderly(s: Process, e: Event)
    requires Orderly(s) && Enabled(s, e) && e.Mark?
    ensures Orderly(Next(s, e))
  {
    SectionHolds(s, e.w);
    hide Orderly, Claim;
    SectionMoveOrderly(s, Next(s, e), e.w);
  }

  lemma SelectOrderly(s: Process, e: Event)
    requires Orderly(s) && Enabled(s, e) && e.SelectPage?
    ensures Orderly(Next(s, e))
  {
    SectionHolds(s, e.w);
    hide Orderly, PageRows;
    SectionMoveOrderly(s, Next(s, e), e.w);
  }

  lemma AcquireOrderly(s: Process, e: Event)
    requires Orderly(s) && Enabled(s, e) && e.Acquire?
    ensures Orderly(Next(s, e))
  {
    hide Orderly;
    SectionMoveOrderly(s, Next(s, e), e.w);
  }

  lemma BusyEventOrderly(s: Process, e: Event)
    requires Orderly(s) && Enabled(s, e) && (e.Succeed? || e.JobError?)
    ensures Orderly(Next(s, e))
  {
    hide Locked, KeysOwned, SetStatus;
    var s1 := Next(s, e);
    assert s1.workers == s.workers[e.w := s1.workers[e.w]] && s1.workers.Keys == s.workers.Keys;
    KeysKept(s, s1, e.w);
    OutsiderMoves(s, s1, e.w);
  }

  lemma ReleaseOrderly(s: Process, w: nat)
    requires Orderly(s) && Enabled(s, ReleaseKey(w))
    ensures Orderly(ReleasedKey(s, w))
  {
    hide Locked, KeysOwned;
    var s1 := ReleasedKey(s, w);
    assert s1.workers.Keys == s.workers.Keys;
    Queues(s, s1, w);
    KeyRemoved(s, s1, w);
  }

  lemma SameWorkersOrderly(s: Process, s1: Process)
    requires Orderly(s)
    requires s1 == s.(jobs := s1.jobs, order := s1.order, inFlight := s1.inFlight)
    ensures Orderly(s1)
  {
    assert Locked(s1);
    hide Locked;
    assert KeysOwned(s1);
  }

  lemma DrainCallOrderly(s: Process)
    requires Orderly(s) && Enabled(s, DrainCall)
    ensures Orderly(Next(s, DrainCall))
  {
    hide Locked, KeysOwned, Drain;
    SameWorkersOrderly(s, s.(inFlight := s.inFlight - 1));
    DrainOrderly(s.(inFlight := s.inFlight - 1));
  }

  lemma RestartOrderly(s: Process)
    requires Orderly(s)
    ensures Orderly(Next(s, Restart))
  {
    NobodyOrderly(Next(s, Restart));
  }

  lemma NobodyOrderly(s: Process)
    requires s.workers == map[] && s.lock == [] && s.runningRepoKeys == {} && s.activeWorkerCount == 0
    requires s.concurrency >= 1 && !s.drainRequested
    ensures Orderly(s)
  {}

  lemma InsertOrderly(s: Process, e: Event)
    requires Orderly(s) && Enabled(s, e) && e.Insert?
    ensures Orderly(Next(s, e))
  {
    hide Orderly;
    SameWorkersOrderly(s, Next(s, e));
  }

  lemma StepOrderly(s: Process, e: Event)
    requires Orderly(s) && Enabled(s, e)
    ensures Orderly(Next(s, e))
  {
    hide Orderly, Drain, PageSelected, Considered, MarkedBy, Resumed, AfterError, Exited, OnDatabaseError, Inserted, ReleasedKey;
    match e
    case DrainCall => DrainCallOrderly(s);
    case SelectPage(_) => SelectOrderly(s, e);
    case Consider(w) => ConsiderOrderly(s, w);
    case Resume(w) => ResumeOrderly(s, w);
    case Exit(w) => ExitOrderly(s, w);
    case DatabaseError(w) => ErrorOrderly(s, w);
    case Acquire(_) => AcquireOrderly(s, e);
    case Mark(_, _, _) => MarkOrderly(s, e);
    case Succeed(_, _) => BusyEventOrderly(s, e);
    case JobError(_, _) => BusyEventOrderly(s, e);
    case ReleaseKey(w) => ReleaseOrderly(s, w);
    case Restart => RestartOrderly(s);
    case Insert(_, _, _, _) => InsertOrderly(s, e);
    case CleanupEvent(_) => SameWorkersOrderly(s, Next(s, e));
    case StaleReset(_, _) => SameWorkersOrderly(s, Next(s, e));
    case OtherProcess(_, _) => SameWorkersOrderly(s, Next(s, e));
  }

  /**
   Inside one process no two workers ever run jobs of one repository, whatever other
   processes and failing statements do.
   */
  lemma {:induction false} WorkersExclude(s: Process, events: seq<Event>)
    requires Orderly(s) && Runs(s, events)
    ensures var s' := Final(s, events);
            && Orderly(s')
            && forall w, u | w in s'.workers && u in s'.workers && s'.workers[w].HoldsKey() && s'.workers[u].HoldsKey() ::
                 w != u ==> s'.workers[w].key != s'.workers[u].key
    decreases |events|
  {
    if |events| > 0 {
      StepOrderly(s, events[0]);
      WorkersExclude(Next(s, events[0]), events[1..]);
    }
  }
}
