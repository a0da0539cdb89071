/**
 The stored job table. Each statement is one transaction, so an interleaving of any number
 of processes is a sequence of statements. The main result: at most one job per repository
 is running, in every state of every such sequence.
 */
module JobTable {

  datatype Option<T> = None | Some(value: T)

  datatype Status = Pending | Running | Completed | Failed

  /** `claims` and `resets` are history: successful claims, and stale resets suffered. */
  datatype Row = Row(
    status: Status,
    attempts: nat,
    payloadRepoKey: string,
    repoKey: Option<string>,
    claimId: Option<nat>,
    updatedAt: nat,
    claims: nat,
    resets: nat)

  type Jobs = map<string, Row>

  predicate IsRunning(t: Jobs, id: string) { id in t && t[id].status.Running? }

  predicate IsPending(t: Jobs, id: string) { id in t && t[id].status.Pending? }

  predicate RunningFor(t: Jobs, repoKey: string) {
    exists id :: id in t && t[id].status.Running? && t[id].repoKey == Some(repoKey)
  }

  function Enqueue(t: Jobs, id: string, repoKey: string, now: nat): Jobs {
    if id in t then t else t[id := Row(Pending, 0, repoKey, Some(repoKey), None, now, 0, 0)]
  }

  predicate Claimable(t: Jobs, id: string, repoKey: string) {
    && IsPending(t, id)
    && (t[id].repoKey == Some(repoKey) || t[id].repoKey == None)
    && !RunningFor(t, repoKey)
  }

  function ClaimUpdate(t: Jobs, id: string, claimId: nat, repoKey: string, now: nat): Jobs {
    if Claimable(t, id, repoKey) then
      t[id := t[id].(status := Running, attempts := t[id].attempts + 1, claimId := Some(claimId),
                     repoKey := Some(repoKey), updatedAt := now, claims := t[id].claims + 1)]
    else t
  }

  /** The closing select of the claim: does the row carry this claim? */
  predicate Verified(t: Jobs, id: string, claimId: nat, repoKey: string) {
    IsRunning(t, id) && t[id].claimId == Some(claimId) && t[id].repoKey == Some(repoKey)
  }

  datatype ClaimResult = ClaimResult(jobs: Jobs, claimed: bool)

  function Claim(t: Jobs, id: string, claimId: nat, repoKey: string, now: nat): ClaimResult {
    var t' := ClaimUpdate(t, id, claimId, repoKey, now);
    ClaimResult(t', Verified(t', id, claimId, repoKey))
  }

  function SetStatus(t: Jobs, id: string, status: Status, now: nat): Jobs {
    if id in t then t[id := t[id].(status := status, claimId := None, updatedAt := now)] else t
  }

  predicate IsStale(r: Row, cutoff: nat) { r.status.Running? && r.updatedAt < cutoff }

  function ResetRow(r: Row, cutoff: nat, now: nat): Row {
    if IsStale(r, cutoff) then r.(status := Pending, claimId := None, updatedAt := now, resets := r.resets + 1) else r
  }

  function ResetStale(t: Jobs, cutoff: nat, now: nat): Jobs {
    map id | id in t :: ResetRow(t[id], cutoff, now)
  }

  function Cleanup(t: Jobs, cutoff: nat): Jobs {
    map id | id in t && !(t[id].updatedAt < cutoff && (t[id].status.Completed? || t[id].status.Failed?)) :: t[id]
  }

  function DeleteNonRunning(t: Jobs, repoKey: string): Jobs {
    map id | id in t && !(t[id].repoKey == Some(repoKey) && !t[id].status.Running?) :: t[id]
  }

  function DeleteRepository(t: Jobs, repoKey: string): Jobs {
    map id | id in t && t[id].repoKey != Some(repoKey) :: t[id]
  }

  // ---------------------------------------------------------------- any sequence of statements

  datatype Statement =
    | DoEnqueue(id: string, repoKey: string)
    | DoClaim(id: string, claimId: nat, repoKey: string)
    | DoComplete(id: string)
    | DoFail(id: string)
    | DoRetry(id: string)
    | DoReset(cutoff: nat)
    | DoCleanup(cutoff: nat)
    | DoDeleteNonRunning(repoKey: string)
    | DoDeleteRepository(repoKey: string)

  datatype Timed = Timed(statement: Statement, now: nat)

  function Execute(t: Jobs, e: Timed): Jobs {
    match e.statement
    case DoEnqueue(id, repoKey) => Enqueue(t, id, repoKey, e.now)
    case DoClaim(id, claimId, repoKey) => Claim(t, id, claimId, repoKey, e.now).jobs
    case DoComplete(id) => SetStatus(t, id, Completed, e.now)
    case DoFail(id) => SetStatus(t, id, Failed, e.now)
    case DoRetry(id) => SetStatus(t, id, Pending, e.now)
    case DoReset(cutoff) => ResetStale(t, cutoff, e.now)
    case DoCleanup(cutoff) => Cleanup(t, cutoff)
    case DoDeleteNonRunning(repoKey) => DeleteNonRunning(t, repoKey)
    case DoDeleteRepository(repoKey) => DeleteRepository(t, repoKey)
  }

  function ExecuteAll(t: Jobs, log: seq<Timed>): Jobs
    decreases |log|
  {
    if |log| == 0 then t else ExecuteAll(Execute(t, log[0]), log[1..])
  }

  ghost predicate OneRunningPerRepo(t: Jobs) {
    forall i, j :: IsRunning(t, i) && IsRunning(t, j) && t[i].repoKey == t[j].repoKey ==> i == j
  }

  lemma StatementKeepsOneRunning(t: Jobs, e: Timed)
    requires OneRunningPerRepo(t)
    ensures OneRunningPerRepo(Execute(t, e))
  {
    var t' := Execute(t, e);
    if e.statement.DoClaim? {
      var id, repoKey := e.statement.id, e.statement.repoKey;
      if Claimable(t, id, repoKey) {
        forall j | IsRunning(t', j) && j != id ensures t'[j].repoKey != Some(repoKey) {
          assert IsRunning(t, j);
        }
      }
    } else {
      forall j | IsRunning(t', j) ensures IsRunning(t, j) && t'[j].repoKey == t[j].repoKey {}
    }
  }

  /** Whatever any number of processes interleave, no key is in the key column of two running rows. */
  lemma {:induction false} NeverTwoRunning(t: Jobs, log: seq<Timed>)
    requires OneRunningPerRepo(t)
    ensures OneRunningPerRepo(ExecuteAll(t, log))
    decreases |log|
  {
    if |log| > 0 {
      StatementKeepsOneRunning(t, log[0]);
      NeverTwoRunning(Execute(t, log[0]), log[1..]);
    }
  }

  // ---------------------------------------------------------------- from the key column to the repository

  /** The property meant: at most one running job of each repository, whatever the key column says. */
  ghost predicate OneJobPerRepo(t: Jobs) {
    forall i, j :: IsRunning(t, i) && IsRunning(t, j) && t[i].payloadRepoKey == t[j].payloadRepoKey ==> i == j
  }

  /** A job id is made from the job, so it fixes the repository of the payload. */
  ghost predicate PayloadsOf(repoOf: string -> string, t: Jobs) { forall id :: id in t ==> t[id].payloadRepoKey == repoOf(id) }

  /** Enqueue stores the payload of its id, and a claim asks with the key it read from the payload. */
  predicate AsksItsRepo(repoOf: string -> string, e: Timed) {
    match e.statement
    case DoEnqueue(id, repoKey) => repoKey == repoOf(id)
    case DoClaim(id, _, repoKey) => repoKey == repoOf(id)
    case _ => true
  }

  /** Every running row is keyed by its own repository. */
  ghost predicate RunningKeyed(t: Jobs) { forall i :: IsRunning(t, i) ==> t[i].repoKey == Some(t[i].payloadRepoKey) }

  lemma StatementKeepsOneJob(repoOf: string -> string, t: Jobs, e: Timed)
    requires OneJobPerRepo(t) && RunningKeyed(t) && PayloadsOf(repoOf, t) && AsksItsRepo(repoOf, e)
    ensures OneJobPerRepo(Execute(t, e)) && RunningKeyed(Execute(t, e)) && PayloadsOf(repoOf, Execute(t, e))
  {
    var t' := Execute(t, e);
    if e.statement.DoClaim? {
      var id, repoKey := e.statement.id, e.statement.repoKey;
      if Claimable(t, id, repoKey) {
        forall j | IsRunning(t', j) && j != id ensures t'[j].payloadRepoKey != repoKey {
          assert IsRunning(t, j);
        }
      }
    } else {
      forall j | IsRunning(t', j) ensures IsRunning(t, j) && t'[j] == t[j] {}
    }
  }

  /** Over every interleaving of any processes at most one job of each repository is running. */
  lemma {:induction false} NeverTwoJobsOfARepository(repoOf: string -> string, t: Jobs, log: seq<Timed>)
    requires OneJobPerRepo(t) && RunningKeyed(t) && PayloadsOf(repoOf, t)
    requires forall i :: 0 <= i < |log| ==> AsksItsRepo(repoOf, log[i])
    ensures OneJobPerRepo(ExecuteAll(t, log)) && RunningKeyed(ExecuteAll(t, log))
    decreases |log|
  {
    if |log| > 0 {
      StatementKeepsOneJob(repoOf, t, log[0]);
      forall i | 0 <= i < |log[1..]| ensures AsksItsRepo(repoOf, log[1..][i]) {
        assert log[1..][i] == log[i + 1];
      }
      NeverTwoJobsOfARepository(repoOf, Execute(t, log[0]), log[1..]);
    }
  }

  /** Running, of this repository, and without a key: what an older version may have left. */
  predicate KeylessRunning(t: Jobs, repoKey: string) {
    exists i :: i in t && t[i].status.Running? && t[i].repoKey == None && t[i].payloadRepoKey == repoKey
  }

  /**
   The hypothesis on keys is what this needs: a claim that takes its row leaves one running
   job per repository exactly when no keyless row of its repository is running.
   */
  lemma ClaimKeepsOneJobIff(t: Jobs, id: string, claimId: nat, now: nat)
    requires OneJobPerRepo(t)
    requires forall i :: IsRunning(t, i) ==> t[i].repoKey == None || t[i].repoKey == Some(t[i].payloadRepoKey)
    requires id in t && Claimable(t, id, t[id].payloadRepoKey)
    ensures OneJobPerRepo(Claim(t, id, claimId, t[id].payloadRepoKey, now).jobs)
            <==> !KeylessRunning(t, t[id].payloadRepoKey)
  {
    var repoKey := t[id].payloadRepoKey;
    var t' := Claim(t, id, claimId, repoKey, now).jobs;
    if KeylessRunning(t, repoKey) {
      var i :| i in t && t[i].status.Running? && t[i].repoKey == None && t[i].payloadRepoKey == repoKey;
      assert IsRunning(t', i) && IsRunning(t', id);
    } else {
      forall j | IsRunning(t', j) && j != id ensures t'[j].payloadRepoKey != repoKey {
        assert IsRunning(t, j);
      }
    }
  }

  /** Such a row does not stop a claim: afterwards two jobs of one repository run. */
  lemma KeylessRunningRowIsNotExcluded(repoKey: string)
    ensures var old_ := Row(Running, 1, repoKey, None, Some(0), 0, 1, 0);
            var t: Jobs := map["a" := old_, "b" := Row(Pending, 0, repoKey, Some(repoKey), None, 0, 0, 0)];
            var r := Claim(t, "b", 1, repoKey, 0);
            r.claimed && OneJobPerRepo(t) && OneRunningPerRepo(r.jobs) && !OneJobPerRepo(r.jobs)
  {
    assert "a" != "b" by { assert "a"[0] != "b"[0]; }
    var t: Jobs := map["a" := Row(Running, 1, repoKey, None, Some(0), 0, 1, 0),
                       "b" := Row(Pending, 0, repoKey, Some(repoKey), None, 0, 0, 0)];
    var r := Claim(t, "b", 1, repoKey, 0);
    assert IsRunning(r.jobs, "a") && IsRunning(r.jobs, "b");
  }

  /** With a fresh claim id, success means exactly that this claim took the row. */
  lemma ClaimSucceedsIff(t: Jobs, id: string, claimId: nat, repoKey: string, now: nat)
    requires forall i :: i in t ==> t[i].claimId != Some(claimId)
    ensures var r := Claim(t, id, claimId, repoKey, now);
            && (r.claimed <==>
                  && id in t && t[id].status == Pending && (t[id].repoKey == Some(repoKey) || t[id].repoKey == None)
                  && forall other :: other in t && t[other].status == Running ==> t[other].repoKey != Some(repoKey))
            && (r.claimed <==> Claimable(t, id, repoKey))
            && (r.claimed ==> r.jobs[id].claimId == Some(claimId) && r.jobs[id].status.Running?
                              && r.jobs[id].attempts == t[id].attempts + 1
                              && r.jobs[id].updatedAt == now && r.jobs[id].repoKey == Some(repoKey))
            && (!r.claimed ==> r.jobs == t)
            && (forall i :: i != id && i in t ==> i in r.jobs && r.jobs[i] == t[i])
  {}

  /** Executing a claim again, with the same id, repeats its answer and changes nothing. */
  lemma ClaimIdempotent(t: Jobs, id: string, claimId: nat, repoKey: string, now: nat, later: nat)
    ensures var r := Claim(t, id, claimId, repoKey, now);
            Claim(r.jobs, id, claimId, repoKey, later) == r
  {
    var r := Claim(t, id, claimId, repoKey, now);
    if Claimable(t, id, repoKey) {
      assert !IsPending(r.jobs, id);
    }
  }
}
