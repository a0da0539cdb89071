/**
 The in-memory indexing queue. `Queue` is the state of the object; the class below changes
 it in place and is proved equal to the functions on it. `System` adds the jobs in flight,
 the callers of `deleteRepositoryJobs` and the history needed to state what a run keeps.
 One event is the code between two awaits.
 */
module MemoryQueue {

  datatype Option<T> = None | Some(value: T)

  /** `ticket` is history: the number of jobs pushed before this one. */
  datatype Job = Job(jobId: string, repoKey: string, ticket: nat)

  type Caller = nat

  datatype Queue = Queue(
    jobs: seq<Job>,
    activeCount: int,
    runningRepoKeys: set<string>,
    repoIdleWaiters: map<string, seq<Caller>>)

  // ---------------------------------------------------------------- queue operations on values

  /** The first queued job whose repository is idle, or -1. */
  function FirstIdle(jobs: seq<Job>, running: set<string>): (i: int)
    ensures -1 <= i < |jobs|
    ensures i >= 0 ==> jobs[i].repoKey !in running && forall k :: 0 <= k < i ==> jobs[k].repoKey in running
    ensures i < 0 ==> forall k :: 0 <= k < |jobs| ==> jobs[k].repoKey in running
  {
    if |jobs| == 0 then -1
    else if jobs[0].repoKey !in running then 0
    else
      var i := FirstIdle(jobs[1..], running);
      assert forall k :: 1 <= k < |jobs| ==> jobs[k] == jobs[1..][k - 1];
      if i < 0 then -1 else i + 1
  }

  function Start(q: Queue, i: int): Queue
    requires 0 <= i < |q.jobs|
  {
    q.(jobs := q.jobs[..i] + q.jobs[i + 1..],
       activeCount := q.activeCount + 1,
       runningRepoKeys := q.runningRepoKeys + {q.jobs[i].repoKey})
  }

  lemma DrainFull(q: Queue, concurrency: nat)
    requires q.activeCount >= concurrency
    ensures Drain(q, concurrency) == Drained(q, [])
  {}

  lemma StartIs(q: Queue, i: int)
    requires 0 <= i < |q.jobs|
    ensures Start(q, i) ==
            Queue(q.jobs[..i] + q.jobs[i + 1..], q.activeCount + 1,
                  q.runningRepoKeys + {q.jobs[i].repoKey}, q.repoIdleWaiters)
  {}

  lemma DrainOnce(q: Queue, concurrency: nat)
    requires q.activeCount < concurrency
    ensures var i := FirstIdle(q.jobs, q.runningRepoKeys);
            if i < 0 then Drain(q, concurrency) == Drained(q, [])
            else
              && Drain(q, concurrency).queue == Drain(Start(q, i), concurrency).queue
              && Drain(q, concurrency).started == [q.jobs[i]] + Drain(Start(q, i), concurrency).started
  {}

  datatype Drained = Drained(queue: Queue, started: seq<Job>)

  function Drain(q: Queue, concurrency: nat): Drained
    decreases |q.jobs|
  {
    var i := FirstIdle(q.jobs, q.runningRepoKeys);
    if q.activeCount >= concurrency || i < 0 then Drained(q, [])
    else
      var d := Drain(Start(q, i), concurrency);
      Drained(d.queue, [q.jobs[i]] + d.started)
  }

  function Without(jobs: seq<Job>, repoKey: string): seq<Job> {
    if |jobs| == 0 then []
    else if jobs[0].repoKey == repoKey then Without(jobs[1..], repoKey)
    else [jobs[0]] + Without(jobs[1..], repoKey)
  }

  function Only(jobs: seq<Job>, repoKey: string): set<Job> { set j | j in jobs && j.repoKey == repoKey }

  function WaitersFor(q: Queue, repoKey: string): seq<Caller> {
    if repoKey in q.repoIdleWaiters then q.repoIdleWaiters[repoKey] else []
  }

  function AddWaiter(q: Queue, repoKey: string, caller: Caller): Queue {
    q.(repoIdleWaiters := q.repoIdleWaiters[repoKey := WaitersFor(q, repoKey) + [caller]])
  }

  function Release(q: Queue, repoKey: string): Queue {
    q.(runningRepoKeys := q.runningRepoKeys - {repoKey},
       repoIdleWaiters := q.repoIdleWaiters - {repoKey},
       activeCount := q.activeCount - 1)
  }

  // ---------------------------------------------------------------- the object

  class InMemoryIndexingQueue {
    const concurrency: nat
    var jobs: seq<Job>
    var activeCount: int
    var runningRepoKeys: set<string>
    var repoIdleWaiters: map<string, seq<Caller>>

    constructor (concurrency: Option<real>)
      ensures this.concurrency >= 1
      ensures concurrency.Some? && concurrency.value >= 1.0 ==>
                this.concurrency as real <= concurrency.value < this.concurrency as real + 1.0
      ensures concurrency.None? || concurrency.value < 1.0 ==> this.concurrency == 1
      ensures State() == Queue([], 0, {}, map[])
    {
      var floor := if concurrency.None? then 1 else concurrency.value.Floor;
      this.concurrency := if floor < 1 then 1 else floor;
      jobs, activeCount, runningRepoKeys, repoIdleWaiters := [], 0, {}, map[];
    }

    function State(): Queue
      reads this
    {
      Queue(jobs, activeCount, runningRepoKeys, repoIdleWaiters)
    }

    method FindNext() returns (nextIndex: int)
      ensures nextIndex == FirstIdle(jobs, runningRepoKeys)
    {
      for k := 0 to |jobs|
        invariant forall m :: 0 <= m < k ==> jobs[m].repoKey in runningRepoKeys
      {
        if jobs[k].repoKey !in runningRepoKeys {
          return k;
        }
      }
      return -1;
    }

    method DrainJobs() returns (started: seq<Job>)
      modifies this
      ensures Drained(State(), started) == Drain(old(State()), concurrency)
    {
      hide FirstIdle, Start, Drain;
      started := [];
      ghost var all := Drain(State(), concurrency);
      ghost var rest := all.started;
      while activeCount < concurrency
        invariant Drain(State(), concurrency) == Drained(all.queue, rest)
        invariant started + rest == all.started
        decreases |jobs|
      {
        ghost var before := State();
        var nextIndex := FindNext();
        DrainOnce(before, concurrency);
        if nextIndex < 0 {
          return;
        }
        var item := jobs[nextIndex];
        jobs := jobs[..nextIndex] + jobs[nextIndex + 1..];
        activeCount := activeCount + 1;
        runningRepoKeys := runningRepoKeys + {item.repoKey};
        StartIs(before, nextIndex);
        ghost var later := Drain(State(), concurrency).started;
        assert rest == [item] + later && (started + [item]) + later == started + ([item] + later);
        started := started + [item];
        rest := later;
      }
      DrainFull(State(), concurrency);
    }

    /** The rest of `enqueue`, once the progress record exists. */
    method Push(job: Job) returns (started: seq<Job>)
      modifies this
      ensures Drained(State(), started) == Drain(Pushed(old(State()), job), concurrency)
    {
      jobs := jobs + [job];
      started := DrainJobs();
    }

    /** The `finally` block of a processed job. */
    method Finish(repoKey: string) returns (resolved: seq<Caller>, started: seq<Job>)
      modifies this
      ensures resolved == WaitersFor(old(State()), repoKey)
      ensures Drained(State(), started) == Drain(Release(old(State()), repoKey), concurrency)
    {
      hide Drain;
      runningRepoKeys := runningRepoKeys - {repoKey};
      if repoKey in repoIdleWaiters {
        resolved := repoIdleWaiters[repoKey];
        repoIdleWaiters := repoIdleWaiters - {repoKey};
      } else {
        resolved := [];
        assert repoIdleWaiters - {repoKey} == repoIdleWaiters;
      }
      activeCount := activeCount - 1;
      assert State() == Release(old(State()), repoKey);
      hide Release;
      started := DrainJobs();
    }

    method DeleteQueuedRepositoryJobs(repoKey: string) returns (deleted: nat)
      modifies this`jobs
      ensures jobs == Without(old(jobs), repoKey)
      ensures deleted == |old(jobs)| - |jobs|
    {
      deleted := 0;
      ghost var all := jobs;
      var index := |jobs| - 1;
      while index >= 0
        invariant -1 <= index < |all|
        invariant jobs == all[..index + 1] + Without(all[index + 1..], repoKey)
        invariant deleted == |all| - |jobs|
      {
        var item := jobs[index];
        WithoutStep(all, index, repoKey);
        hide Without;
        if item.repoKey == repoKey {
          jobs := jobs[..index] + jobs[index + 1..];
          deleted := deleted + 1;
        }
        index := index - 1;
      }
      assert all[..0] == [] && all[0..] == all;
    }

    /** True when the repository is idle now; otherwise the caller has been registered. */
    method WaitForRepoIdle(repoKey: string, caller: Caller) returns (idle: bool)
      modifies this`repoIdleWaiters
      ensures idle == (repoKey !in runningRepoKeys)
      ensures State() == if idle then old(State()) else AddWaiter(old(State()), repoKey, caller)
    {
      if repoKey !in runningRepoKeys {
        return true;
      }
      var waiters := if repoKey in repoIdleWaiters then repoIdleWaiters[repoKey] else [];
      repoIdleWaiters := repoIdleWaiters[repoKey := waiters + [caller]];
      return false;
    }

    /** `deleteRepositoryJobs` up to its first await. */
    method DeleteBegin(repoKey: string, caller: Caller) returns (deleted: nat, idle: bool)
      modifies this
      ensures DeleteTurn(State(), deleted, idle) == BeginDelete(old(State()), repoKey, caller)
    {
      deleted := DeleteQueuedRepositoryJobs(repoKey);
      idle := WaitForRepoIdle(repoKey, caller);
    }

    /** From the end of that await to the return, or to the next await. */
    method DeleteResume(repoKey: string, caller: Caller) returns (deleted: nat, done: bool)
      modifies this
      ensures DeleteTurn(State(), deleted, done) == BeginDelete(old(State()), repoKey, caller)
    {
      deleted := DeleteQueuedRepositoryJobs(repoKey);
      if repoKey !in runningRepoKeys {
        return deleted, true;
      }
      WithoutTwice(old(jobs), repoKey);
      var again := DeleteQueuedRepositoryJobs(repoKey);
      deleted := deleted + again;
      done := WaitForRepoIdle(repoKey, caller);
    }
  }

  function Pushed(q: Queue, job: Job): Queue { q.(jobs := q.jobs + [job]) }

  datatype DeleteTurn = DeleteTurn(queue: Queue, deleted: int, idle: bool)

  function BeginDelete(q: Queue, repoKey: string, caller: Caller): DeleteTurn {
    var q1 := q.(jobs := Without(q.jobs, repoKey));
    var idle := repoKey !in q.runningRepoKeys;
    DeleteTurn(if idle then q1 else AddWaiter(q1, repoKey, caller), |q.jobs| - |q1.jobs|, idle)
  }

  // ---------------------------------------------------------------- the system around it

  datatype At = Waiting | Ready | Returned

  datatype Client = Client(repoKey: string, deleted: int, at: At)

  datatype Removal = Removal(caller: Caller, job: Job)

  datatype System = System(
    queue: Queue,
    concurrency: nat,
    active: map<string, Job>,
    clients: map<Caller, Client>,
    pushed: seq<Job>,
    started: seq<Job>,
    finished: set<Job>,
    removals: set<Removal>)

  datatype Event =
    | Enqueued(jobId: string, repoKey: string)
    | Finished(repoKey: string)
    | DeleteCalled(caller: Caller, repoKey: string)
    | DeleteResumed(caller: Caller)

  predicate Enabled(s: System, e: Event) {
    match e
    case Enqueued(_, _) => true
    case Finished(repoKey) => repoKey in s.active
    case DeleteCalled(caller, _) => caller !in s.clients
    case DeleteResumed(caller) => caller in s.clients && s.clients[caller].at.Ready?
  }

  function Keyed(started: seq<Job>): map<string, Job> {
    if |started| == 0 then map[] else map[started[0].repoKey := started[0]] + Keyed(started[1..])
  }

  function WithDrain(s: System): System {
    var d := Drain(s.queue, s.concurrency);
    s.(queue := d.queue, started := s.started + d.started, active := s.active + Keyed(d.started))
  }

  function Resolved(clients: map<Caller, Client>, callers: seq<Caller>): map<Caller, Client> {
    map c | c in clients :: if c in callers then clients[c].(at := Ready) else clients[c]
  }

  function AfterDelete(s: System, caller: Caller, client: Client, idleMeans: At): System {
    var turn := BeginDelete(s.queue, client.repoKey, caller);
    s.(queue := turn.queue,
       clients := s.clients[caller := client.(deleted := client.deleted + turn.deleted,
                                              at := if turn.idle then idleMeans else Waiting)],
       removals := s.removals + set j | j in Only(s.queue.jobs, client.repoKey) :: Removal(caller, j))
  }

  function Next(s: System, e: Event): System
    requires Enabled(s, e)
  {
    match e
    case Enqueued(jobId, repoKey) =>
      var job := Job(jobId, repoKey, |s.pushed|);
      WithDrain(WithPushed(s, job))
    case Finished(repoKey) => WithDrain(Ended(s, repoKey))
    case DeleteCalled(caller, repoKey) => AfterDelete(s, caller, Client(repoKey, 0, Ready), Ready)
    case DeleteResumed(caller) => AfterDelete(s, caller, s.clients[caller], Returned)
  }

  function Ended(s: System, repoKey: string): System
    requires repoKey in s.active
  {
    s.(queue := Release(s.queue, repoKey),
       clients := Resolved(s.clients, WaitersFor(s.queue, repoKey)),
       active := s.active - {repoKey},
       finished := s.finished + {s.active[repoKey]})
  }

  function Initial(concurrency: nat): System {
    System(Queue([], 0, {}, map[]), concurrency, map[], map[], [], [], {}, {})
  }

  predicate Runs(s: System, events: seq<Event>)
    decreases |events|
  {
    |events| == 0 || (Enabled(s, events[0]) && Runs(Next(s, events[0]), events[1..]))
  }

  function Final(s: System, events: seq<Event>): System
    requires Runs(s, events)
    decreases |events|
  {
    if |events| == 0 then s else Final(Next(s, events[0]), events[1..])
  }

  // ---------------------------------------------------------------- what every run keeps

  /** One running job per repository, counted exactly, within the limit. */
  ghost predicate Counted(s: System) {
    && s.queue.activeCount == |s.queue.runningRepoKeys| <= s.concurrency
    && s.active.Keys == s.queue.runningRepoKeys
    && forall k :: k in s.active ==> s.active[k].repoKey == k
  }

  /** No capacity is left unused while a queued job could start. */
  ghost predicate Saturated(s: System) {
    s.queue.activeCount == s.concurrency
    || forall j :: j in s.queue.jobs ==> j.repoKey in s.queue.runningRepoKeys
  }

  function Elements(jobs: seq<Job>): set<Job> { set j | j in jobs }

  function ActiveJobs(s: System): set<Job> { set k | k in s.active :: s.active[k] }

  function RemovedJobs(s: System): set<Job> { set r | r in s.removals :: r.job }

  ghost predicate Ascending(jobs: seq<Job>) {
    forall i, j :: 0 <= i < j < |jobs| ==> jobs[i].ticket < jobs[j].ticket
  }

  ghost predicate Ticketed(pushed: seq<Job>) {
    forall i :: 0 <= i < |pushed| ==> pushed[i].ticket == i
  }

  /** Every pushed job is in exactly one place: queued, running, finished or deleted. */
  ghost predicate Conserved(s: System) {
    && Elements(s.pushed) == Elements(s.queue.jobs) + ActiveJobs(s) + s.finished + RemovedJobs(s)
    && Elements(s.queue.jobs) !! ActiveJobs(s) !! s.finished !! RemovedJobs(s)
    && (forall r, r' :: r in s.removals && r' in s.removals && r.job == r'.job ==> r == r')
  }

  /** The jobs of one repository start in the order they were pushed. */
  ghost predicate InOrder(s: System) {
    Ticketed(s.pushed) && Ascending(s.queue.jobs) && StartsAscend(s.started) && StartedFirst(s.started, s.queue.jobs)
    && TicketsBelow(s.started, |s.pushed|) && TicketsBelow(s.queue.jobs, |s.pushed|)
  }

  ghost predicate StartsAscend(started: seq<Job>) {
    forall i, j :: 0 <= i < j < |started| && started[i].repoKey == started[j].repoKey ==>
                     started[i].ticket < started[j].ticket
  }

  ghost predicate StartedFirst(started: seq<Job>, jobs: seq<Job>) {
    forall a, b :: a in started && b in jobs && a.repoKey == b.repoKey ==> a.ticket < b.ticket
  }

  ghost predicate TicketsBelow(jobs: seq<Job>, n: nat) { forall a :: a in jobs ==> a.ticket < n }

  /** Idle waiters exist only for running repositories, and no waiting caller is forgotten. */
  ghost predicate WaitersLive(s: System) { WaitersRun(s) && WaitersKnown(s) && WaitingListed(s) }

  ghost predicate WaitersRun(s: System) {
    forall k :: k in s.queue.repoIdleWaiters ==> k in s.queue.runningRepoKeys
  }

  ghost predicate WaitersKnown(s: System) {
    forall k, c :: k in s.queue.repoIdleWaiters && c in s.queue.repoIdleWaiters[k] ==>
                     c in s.clients && s.clients[c].at.Waiting? && s.clients[c].repoKey == k
  }

  ghost predicate WaitingListed(s: System) {
    forall c :: c in s.clients && s.clients[c].at.Waiting? ==> c in WaitersFor(s.queue, s.clients[c].repoKey)
  }

  function RemovedBy(s: System, c: Caller): set<Removal> { set r | r in s.removals && r.caller == c }

  /** A caller's count is the number of jobs it removed, all of its repository. */
  ghost predicate CountsExact(s: System) {
    && (forall c :: c in s.clients ==> s.clients[c].deleted == |RemovedBy(s, c)|)
    && (forall r :: r in s.removals ==> r.caller in s.clients && r.job.repoKey == s.clients[r.caller].repoKey)
  }

  ghost predicate Settled(s: System) {
    s.concurrency >= 1 && Counted(s) && Conserved(s) && InOrder(s) && WaitersLive(s) && CountsExact(s)
  }

  ghost predicate Inv(s: System) { Settled(s) && Saturated(s) }

  function StartOne(s: System, i: int): System
    requires 0 <= i < |s.queue.jobs|
  {
    var job := s.queue.jobs[i];
    s.(queue := Start(s.queue, i), started := s.started + [job], active := s.active[job.repoKey := job])
  }

  lemma ElementsSplice(jobs: seq<Job>, i: int)
    requires 0 <= i < |jobs| && Ascending(jobs)
    ensures var rest := jobs[..i] + jobs[i + 1..];
            Ascending(rest) && jobs[i] in Elements(jobs) && Elements(rest) == Elements(jobs) - {jobs[i]}
  {
    var rest := jobs[..i] + jobs[i + 1..];
    assert forall k :: 0 <= k < |rest| ==> rest[k] == if k < i then jobs[k] else jobs[k + 1];
    assert Ascending(rest) && jobs[i] !in rest;
    hide Ascending;
    forall j | j in Elements(jobs) - {jobs[i]} ensures j in rest {
      var k :| 0 <= k < |jobs| && jobs[k] == j;
      assert rest[if k < i then k else k - 1] == j;
    }
  }

  lemma ActivePlus(s: System, job: Job)
    requires job.repoKey !in s.active
    ensures ActiveJobs(s.(active := s.active[job.repoKey := job])) == ActiveJobs(s) + {job}
  {
    var s' := s.(active := s.active[job.repoKey := job]);
    forall j | j in ActiveJobs(s) + {job} ensures j in ActiveJobs(s') {
      if j != job {
        var k :| k in s.active && s.active[k] == j;
        assert s'.active[k] == j;
      } else {
        assert s'.active[job.repoKey] == job;
      }
    }
  }

  lemma StartOneConserves(s: System, i: int)
    requires Conserved(s) && Ascending(s.queue.jobs) && 0 <= i < |s.queue.jobs|
    requires s.queue.jobs[i].repoKey !in s.active
    ensures Conserved(StartOne(s, i))
  {
    var s', job := StartOne(s, i), s.queue.jobs[i];
    ElementsSplice(s.queue.jobs, i);
    ActivePlus(s, job);
    assert ActiveJobs(s') == ActiveJobs(s) + {job};
    assert RemovedJobs(s') == RemovedJobs(s);
  }

  /** The first idle job comes before every other job of its repository. */
  lemma FirstIdleFirst(jobs: seq<Job>, running: set<string>, i: int)
    requires Ascending(jobs) && 0 <= i < |jobs| && i == FirstIdle(jobs, running)
    ensures forall b :: b in jobs[..i] + jobs[i + 1..] ==>
              b in jobs && (b.repoKey == jobs[i].repoKey ==> jobs[i].ticket < b.ticket)
  {
    ElementsSplice(jobs, i);
    forall b | b in jobs[..i] + jobs[i + 1..] ensures b in jobs && (b.repoKey == jobs[i].repoKey ==> jobs[i].ticket < b.ticket) {
      assert b in Elements(jobs) - {jobs[i]};
      var k :| 0 <= k < |jobs| && jobs[k] == b;
      assert b.repoKey == jobs[i].repoKey ==> k > i;
    }
  }

  lemma StartOneInOrder(s: System, i: int)
    requires InOrder(s) && 0 <= i < |s.queue.jobs|
    requires i == FirstIdle(s.queue.jobs, s.queue.runningRepoKeys)
    ensures InOrder(StartOne(s, i))
  {
    var s', jobs := StartOne(s, i), s.queue.jobs;
    ElementsSplice(jobs, i);
    FirstIdleFirst(jobs, s.queue.runningRepoKeys, i);
    hide FirstIdle, Ticketed, Ascending, Elements;
    assert StartsAscend(s'.started) by { hide TicketsBelow; }
    hide StartsAscend;
    assert StartedFirst(s'.started, s'.queue.jobs) by { hide TicketsBelow; }
    hide StartedFirst;
  }

  lemma SameCounts(s: System, s': System)
    requires CountsExact(s) && s'.removals == s.removals && s'.clients.Keys == s.clients.Keys
    requires forall c :: c in s.clients ==>
               s'.clients[c].deleted == s.clients[c].deleted && s'.clients[c].repoKey == s.clients[c].repoKey
    ensures CountsExact(s')
  {
    forall c ensures RemovedBy(s', c) == RemovedBy(s, c) {}
  }

  lemma StartOneWaits(s: System, i: int)
    requires Counted(s) && WaitersLive(s) && 0 <= i < |s.queue.jobs| && s.queue.activeCount < s.concurrency
    requires s.queue.jobs[i].repoKey !in s.queue.runningRepoKeys
    ensures Counted(StartOne(s, i)) && WaitersLive(StartOne(s, i))
  {
    var s' := StartOne(s, i);
    assert Counted(s') by { hide WaitersLive; }
    hide Counted;
    forall k ensures WaitersFor(s'.queue, k) == WaitersFor(s.queue, k) {}
  }

  lemma StartOneKeeps(s: System, i: int)
    requires Settled(s) && 0 <= i < |s.queue.jobs| && s.queue.activeCount < s.concurrency
    requires i == FirstIdle(s.queue.jobs, s.queue.runningRepoKeys)
    ensures Settled(StartOne(s, i))
  {
    StartOneConserves(s, i);
    StartOneInOrder(s, i);
    StartOneWaits(s, i);
    SameCounts(s, StartOne(s, i));
  }

  lemma DrainUnrolls(s: System)
    ensures var i := FirstIdle(s.queue.jobs, s.queue.runningRepoKeys);
            WithDrain(s) == if s.queue.activeCount >= s.concurrency || i < 0 then s else WithDrain(StartOne(s, i))
  {
    hide Drain, FirstIdle, Keyed;
    var i := FirstIdle(s.queue.jobs, s.queue.runningRepoKeys);
    if s.queue.activeCount >= s.concurrency {
      DrainFull(s.queue, s.concurrency);
      NothingKeyed(s);
    } else {
      DrainOnce(s.queue, s.concurrency);
      if i < 0 {
        NothingKeyed(s);
      } else {
        FirstKeyed(s, s.queue.jobs[i], Drain(Start(s.queue, i), s.concurrency).started);
      }
    }
  }

  lemma NothingKeyed(s: System)
    ensures s.started + [] == s.started && s.active + Keyed([]) == s.active
  {}

  lemma FirstKeyed(s: System, job: Job, rest: seq<Job>)
    ensures s.started + ([job] + rest) == s.started + [job] + rest
    ensures s.active + Keyed([job] + rest) == s.active[job.repoKey := job] + Keyed(rest)
  {
    assert ([job] + rest)[1..] == rest;
    assert s.active + (map[job.repoKey := job] + Keyed(rest)) == s.active[job.repoKey := job] + Keyed(rest);
  }

  lemma {:induction false} DrainKeeps(s: System)
    requires Settled(s)
    ensures Inv(WithDrain(s))
    decreases |s.queue.jobs|
  {
    var i := FirstIdle(s.queue.jobs, s.queue.runningRepoKeys);
    DrainUnrolls(s);
    if s.queue.activeCount < s.concurrency && i >= 0 {
      StartOneKeeps(s, i);
      DrainKeeps(StartOne(s, i));
    }
  }

  function WithPushed(s: System, job: Job): System {
    s.(queue := Pushed(s.queue, job), pushed := s.pushed + [job])
  }

  lemma EnqueueConserves(s: System, job: Job)
    requires Conserved(s) && job !in Elements(s.pushed)
    ensures Conserved(WithPushed(s, job))
  {
    var s' := WithPushed(s, job);
    assert ActiveJobs(s') == ActiveJobs(s) && RemovedJobs(s') == RemovedJobs(s);
    assert Elements(s'.pushed) == Elements(s.pushed) + {job};
    assert Elements(s'.queue.jobs) == Elements(s.queue.jobs) + {job};
    hide ActiveJobs, RemovedJobs, Elements;
  }

  lemma EnqueueInOrder(s: System, job: Job)
    requires InOrder(s) && job.ticket == |s.pushed|
    ensures InOrder(WithPushed(s, job)) && job !in Elements(s.pushed)
  {
    assert forall b :: b in WithPushed(s, job).queue.jobs ==> b in s.queue.jobs || b == job;
  }

  lemma EnqueueWaits(s: System, job: Job)
    requires WaitersLive(s)
    ensures WaitersLive(WithPushed(s, job))
  {
    assert forall k :: WaitersFor(WithPushed(s, job).queue, k) == WaitersFor(s.queue, k);
  }

  lemma EnqueueSettled(s: System, job: Job)
    requires Settled(s) && job.ticket == |s.pushed|
    ensures Settled(WithPushed(s, job))
  {
    hide Conserved, InOrder, WaitersLive, CountsExact, Elements;
    EnqueueInOrder(s, job);
    EnqueueConserves(s, job);
    EnqueueWaits(s, job);
    SameCounts(s, WithPushed(s, job));
  }

  lemma EndedConserves(s: System, repoKey: string)
    requires Conserved(s) && Counted(s) && repoKey in s.active
    ensures Conserved(Ended(s, repoKey))
  {
    var s', job := Ended(s, repoKey), s.active[repoKey];
    assert job in ActiveJobs(s);
    assert ActiveJobs(s') == ActiveJobs(s) - {job} by {
      forall j | j in ActiveJobs(s) - {job} ensures j in ActiveJobs(s') {
        var k :| k in s.active && s.active[k] == j;
        assert s'.active[k] == j;
      }
    }
    assert RemovedJobs(s') == RemovedJobs(s);
  }

  lemma EndedCounted(s: System, repoKey: string)
    requires Counted(s) && repoKey in s.active
    ensures Counted(Ended(s, repoKey))
  {
    assert Ended(s, repoKey).active.Keys == s.active.Keys - {repoKey};
  }

  lemma EndedWaits(s: System, repoKey: string)
    requires WaitersLive(s) && repoKey in s.active
    ensures WaitersLive(Ended(s, repoKey))
  {
    var s', woken := Ended(s, repoKey), WaitersFor(s.queue, repoKey);
    forall c | c in woken ensures c in s.clients && s.clients[c].repoKey == repoKey {}
    forall k, c | k in s'.queue.repoIdleWaiters && c in s'.queue.repoIdleWaiters[k]
      ensures c in s'.clients && s'.clients[c].at.Waiting? && s'.clients[c].repoKey == k
    {
      assert c in s.queue.repoIdleWaiters[k] && k != repoKey;
      assert c !in woken;
    }
    forall c | c in s'.clients && s'.clients[c].at.Waiting?
      ensures c in WaitersFor(s'.queue, s'.clients[c].repoKey)
    {
      assert c !in woken && s.clients[c].at.Waiting?;
      assert c in WaitersFor(s.queue, s.clients[c].repoKey);
    }
  }

  lemma EndedSettled(s: System, repoKey: string)
    requires Settled(s) && repoKey in s.active
    ensures Settled(Ended(s, repoKey))
  {
    EndedConserves(s, repoKey);
    EndedCounted(s, repoKey);
    EndedWaits(s, repoKey);
    SameCounts(s, Ended(s, repoKey));
  }

  lemma SpliceAt(front: seq<Job>, x: Job, later: seq<Job>)
    ensures var s, n := front + [x] + later, |front|;
            s[n] == x && s[..n] + s[n + 1..] == front + later && s == front + ([x] + later)
  {}

  /** One step of the loop that removes the jobs of a repository from the back. */
  lemma WithoutStep(all: seq<Job>, index: nat, repoKey: string)
    requires index < |all|
    ensures var later := Without(all[index + 1..], repoKey);
            && (all[..index + 1] + later)[index] == all[index]
            && Without(all[index..], repoKey) == (if all[index].repoKey == repoKey then later else [all[index]] + later)
            && (all[..index + 1] + later)[..index] + (all[..index + 1] + later)[index + 1..] == all[..index] + later
            && all[..index + 1] + later == all[..index] + ([all[index]] + later)
  {
    var later := Without(all[index + 1..], repoKey);
    assert Without(all[index..], repoKey) == (if all[index].repoKey == repoKey then later else [all[index]] + later) by {
      assert all[index..][0] == all[index] && all[index..][1..] == all[index + 1..];
    }
    hide Without;
    SpliceAt(all[..index], all[index], later);
    assert all[..index + 1] == all[..index] + [all[index]];
  }

  lemma {:induction false} WithoutElements(jobs: seq<Job>, repoKey: string)
    ensures Elements(Without(jobs, repoKey)) == Elements(jobs) - Only(jobs, repoKey)
  {
    if |jobs| == 0 {
      assert Elements(jobs) == {};
    } else {
      WithoutElements(jobs[1..], repoKey);
      assert Elements(jobs) == {jobs[0]} + Elements(jobs[1..]);
      assert Elements([jobs[0]] + Without(jobs[1..], repoKey)) == {jobs[0]} + Elements(Without(jobs[1..], repoKey));
    }
  }

  lemma {:induction false} WithoutAscending(jobs: seq<Job>, repoKey: string)
    requires Ascending(jobs)
    ensures Ascending(Without(jobs, repoKey))
  {
    if |jobs| > 0 {
      assert Ascending(jobs[1..]);
      WithoutAscending(jobs[1..], repoKey);
      WithoutElements(jobs[1..], repoKey);
      var rest := Without(jobs[1..], repoKey);
      forall k | 0 <= k < |rest| ensures jobs[0].ticket < rest[k].ticket {
        assert rest[k] in Elements(rest);
        var m :| 0 <= m < |jobs[1..]| && jobs[1..][m] == rest[k];
        assert jobs[m + 1] == rest[k];
      }
    }
  }

  lemma {:induction false} WithoutSize(jobs: seq<Job>, repoKey: string)
    requires Ascending(jobs)
    ensures |Only(jobs, repoKey)| == |jobs| - |Without(jobs, repoKey)|
  {
    if |jobs| > 0 {
      OnlyCons(jobs, repoKey);
      hide Ascending, Only;
      WithoutSize(jobs[1..], repoKey);
    }
  }

  lemma OnlyCons(jobs: seq<Job>, repoKey: string)
    requires Ascending(jobs) && |jobs| > 0
    ensures Ascending(jobs[1..]) && jobs[0] !in Only(jobs[1..], repoKey)
    ensures Only(jobs, repoKey) ==
            Only(jobs[1..], repoKey) + (if jobs[0].repoKey == repoKey then {jobs[0]} else {})
  {
    assert jobs == [jobs[0]] + jobs[1..];
    assert jobs[0] !in jobs[1..];
  }

  lemma {:induction false} WithoutTwice(jobs: seq<Job>, repoKey: string)
    ensures Without(Without(jobs, repoKey), repoKey) == Without(jobs, repoKey)
  {
    if |jobs| > 0 {
      WithoutTwice(jobs[1..], repoKey);
    }
  }

  function Taken(s: System, caller: Caller, repoKey: string): set<Removal> {
    set j | j in Only(s.queue.jobs, repoKey) :: Removal(caller, j)
  }

  lemma DeleteConserves(s: System, caller: Caller, client: Client, idleMeans: At)
    requires Conserved(s)
    ensures Conserved(AfterDelete(s, caller, client, idleMeans))
  {
    var s' := AfterDelete(s, caller, client, idleMeans);
    var gone := Only(s.queue.jobs, client.repoKey);
    WithoutElements(s.queue.jobs, client.repoKey);
    assert gone <= Elements(s.queue.jobs);
    assert ActiveJobs(s') == ActiveJobs(s);
    assert RemovedJobs(s') == RemovedJobs(s) + gone by {
      forall j | j in gone ensures j in RemovedJobs(s') {
        assert Removal(caller, j) in s'.removals;
      }
      forall j | j in RemovedJobs(s) ensures j in RemovedJobs(s') {
        var r :| r in s.removals && r.job == j;
        assert r in s'.removals;
      }
    }
    forall r, r' | r in s'.removals && r' in s'.removals && r.job == r'.job ensures r == r' {
      assert r in s.removals ==> r.job in RemovedJobs(s);
      assert r' in s.removals ==> r'.job in RemovedJobs(s);
    }
  }

  lemma {:induction false} TakenSize(jobs: set<Job>, removals: set<Removal>, caller: Caller)
    requires removals == set j | j in jobs :: Removal(caller, j)
    ensures |removals| == |jobs|
    decreases jobs
  {
    if jobs != {} {
      var j :| j in jobs;
      TakenSize(jobs - {j}, removals - {Removal(caller, j)}, caller);
    }
  }

  lemma DeleteTakes(s: System, caller: Caller, client: Client, idleMeans: At)
    requires Conserved(s) && Ascending(s.queue.jobs)
    ensures var s' := AfterDelete(s, caller, client, idleMeans);
            && (forall c :: c != caller ==> RemovedBy(s', c) == RemovedBy(s, c))
            && |RemovedBy(s', caller)| == |RemovedBy(s, caller)| + |s.queue.jobs| - |s'.queue.jobs|
  {
    var s' := AfterDelete(s, caller, client, idleMeans);
    var taken := Taken(s, caller, client.repoKey);
    WithoutSize(s.queue.jobs, client.repoKey);
    TakenSize(Only(s.queue.jobs, client.repoKey), taken, caller);
    assert RemovedBy(s', caller) == RemovedBy(s, caller) + taken;
    forall r | r in RemovedBy(s, caller) ensures r !in taken {
      assert r.job in RemovedJobs(s);
    }
  }

  lemma DeleteCounts(s: System, caller: Caller, client: Client, idleMeans: At)
    requires Conserved(s) && CountsExact(s) && Ascending(s.queue.jobs)
    requires if caller in s.clients then client == s.clients[caller] else client.deleted == 0
    ensures CountsExact(AfterDelete(s, caller, client, idleMeans))
  {
    DeleteTakes(s, caller, client, idleMeans);
    if caller !in s.clients {
      assert RemovedBy(s, caller) == {};
    }
  }

  lemma TurnWaiters(q: Queue, repoKey: string, caller: Caller)
    ensures var turn := BeginDelete(q, repoKey, caller);
            && turn.queue.runningRepoKeys == q.runningRepoKeys
            && (turn.idle <==> repoKey !in q.runningRepoKeys)
            && turn.queue.repoIdleWaiters
               == if turn.idle then q.repoIdleWaiters
                  else q.repoIdleWaiters[repoKey := WaitersFor(q, repoKey) + [caller]]
  {}

  lemma DeleteWaits(s: System, caller: Caller, client: Client, idleMeans: At)
    requires WaitersLive(s) && !idleMeans.Waiting?
    requires caller in s.clients ==> client == s.clients[caller] && client.at.Ready?
    ensures WaitersLive(AfterDelete(s, caller, client, idleMeans))
  {
    TurnWaiters(s.queue, client.repoKey, caller);
    hide BeginDelete, Only;
    var s' := AfterDelete(s, caller, client, idleMeans);
    assert WaitersRun(s') by { hide WaitersKnown, WaitingListed; }
    assert WaitersKnown(s') by { hide WaitersRun; }
    hide WaitersRun, WaitersKnown;
    forall k | k != client.repoKey ensures WaitersFor(s'.queue, k) == WaitersFor(s.queue, k) {}
    forall c | c in WaitersFor(s.queue, client.repoKey) ensures c in WaitersFor(s'.queue, client.repoKey) {}
    if client.repoKey in s.queue.runningRepoKeys {
      assert WaitersFor(s'.queue, client.repoKey) == WaitersFor(s.queue, client.repoKey) + [caller];
      assert caller in WaitersFor(s'.queue, client.repoKey);
    }
    hide WaitersFor;
  }

  lemma DeleteKeeps(s: System, caller: Caller, client: Client, idleMeans: At)
    requires Inv(s) && !idleMeans.Waiting?
    requires if caller in s.clients then client == s.clients[caller] && client.at.Ready? else client.deleted == 0
    ensures Inv(AfterDelete(s, caller, client, idleMeans))
  {
    var s' := AfterDelete(s, caller, client, idleMeans);
    DeleteConserves(s, caller, client, idleMeans);
    DeleteCounts(s, caller, client, idleMeans);
    DeleteWaits(s, caller, client, idleMeans);
    WithoutAscending(s.queue.jobs, client.repoKey);
    WithoutElements(s.queue.jobs, client.repoKey);
    forall j | j in s'.queue.jobs ensures j in s.queue.jobs {
      assert j in Elements(s'.queue.jobs);
    }
    assert Counted(s');
    assert InOrder(s');
    assert Saturated(s');
  }

  lemma StepKeeps(s: System, e: Event)
    requires Inv(s) && Enabled(s, e)
    ensures Inv(Next(s, e))
  {
    match e
    case Enqueued(jobId, repoKey) =>
      var job := Job(jobId, repoKey, |s.pushed|);
      EnqueueSettled(s, job);
      DrainKeeps(WithPushed(s, job));
    case Finished(repoKey) =>
      EndedSettled(s, repoKey);
      DrainKeeps(Ended(s, repoKey));
    case DeleteCalled(caller, repoKey) => DeleteKeeps(s, caller, Client(repoKey, 0, Ready), Ready);
    case DeleteResumed(caller) => DeleteKeeps(s, caller, s.clients[caller], Returned);
  }

  /** The invariant holds after every run of handlers, whatever their order. */
  lemma {:induction false} RunKeeps(s: System, events: seq<Event>)
    requires Inv(s) && Runs(s, events)
    ensures Inv(Final(s, events))
    decreases |events|
  {
    if |events| > 0 {
      StepKeeps(s, events[0]);
      RunKeeps(Next(s, events[0]), events[1..]);
    }
  }

  lemma InitialInv(concurrency: nat)
    requires concurrency >= 1
    ensures Inv(Initial(concurrency))
  {}

  /**
   `deleteRepositoryJobs` returns only when its repository has no queued and no running
   job, and the number it returns is the number of jobs it removed.
   */
  lemma DeleteReturnsIdle(concurrency: nat, events: seq<Event>, caller: Caller)
    requires concurrency >= 1 && Runs(Initial(concurrency), events)
    requires Enabled(Final(Initial(concurrency), events), DeleteResumed(caller))
    ensures var s' := Next(Final(Initial(concurrency), events), DeleteResumed(caller));
            var client := s'.clients[caller];
            && (client.at.Returned? ==>
                  && client.repoKey !in s'.queue.runningRepoKeys && client.repoKey !in s'.active
                  && (forall j :: j in s'.queue.jobs ==> j.repoKey != client.repoKey)
                  && client.deleted == |RemovedBy(s', caller)|)
            && (!client.at.Returned? ==> client.at.Waiting? && client.repoKey in s'.active)
  {
    InitialInv(concurrency);
    RunKeeps(Initial(concurrency), events);
    var s := Final(Initial(concurrency), events);
    StepKeeps(s, DeleteResumed(caller));
    var s' := Next(s, DeleteResumed(caller));
    WithoutElements(s.queue.jobs, s.clients[caller].repoKey);
    forall j | j in s'.queue.jobs ensures j.repoKey != s.clients[caller].repoKey {
      assert j in Elements(s'.queue.jobs);
    }
  }

  /** Finishing a job wakes every caller waiting for its repository. */
  lemma FinishWakesEveryWaiter(s: System, repoKey: string, caller: Caller)
    requires Inv(s) && repoKey in s.active
    requires caller in s.clients && s.clients[caller].at.Waiting? && s.clients[caller].repoKey == repoKey
    ensures Next(s, Finished(repoKey)).clients[caller].at.Ready?
  {}
}
