/**
 How jobs end: what the end of a job writes, which runs end a row completed or failed, and
 which rows the stale reset and the retention cleanup take.
 */
module JobOutcomes {
  import opened JobTable
  import opened IndexingWorkers
  import opened DurableQueue

  // ---------------------------------------------------------------- one event

  /** The event ends the job of this row. */
  predicate Ends(s: Process, e: Event, id: string) {
    (e.Succeed? || e.JobError?) && e.w in s.workers && s.workers[e.w].Processing? && s.workers[e.w].jobId == id
  }

  /** It was the last attempt allowed. */
  predicate GivesUp(s: Process, e: Event, id: string) {
    Ends(s, e, id) && e.JobError? && s.workers[e.w].attempts + 1 >= s.maxAttempts
  }

  /**
   The end of a job: a success completes the running row, an error returns it to pending
   while it has attempts left and fails it otherwise. The claim is gone, and no other row changes.
   */
  lemma JobEnds(s: Process, e: Event, id: string)
    requires Held(s) && Enabled(s, e) && Ends(s, e, id)
    ensures id in s.jobs && s.jobs[id].status == Running && s.jobs[id].attempts == s.workers[e.w].attempts + 1
    ensures var status := if e.Succeed? then Completed else if s.jobs[id].attempts < s.maxAttempts then Pending else Failed;
            Next(s, e).jobs == s.jobs[id := s.jobs[id].(status := status, claimId := None, updatedAt := e.now)]
    ensures Next(s, e).workers == s.workers[e.w := Finishing(s.workers[e.w].key)]
  {
    assert WorkerHeld(s.jobs, s.workers[e.w]);
  }

  predicate IsCompleted(s: Process, id: string) { id in s.jobs && s.jobs[id].status == Completed }
  predicate IsFailed(s: Process, id: string) { id in s.jobs && s.jobs[id].status == Failed }

  /** A row becomes completed by a success of its own job alone, and failed by the error of its last attempt alone. */
  lemma StepOutcome(s: Process, e: Event, id: string)
    requires Held(s) && Enabled(s, e) && !e.OtherProcess?
    ensures IsCompleted(Next(s, e), id) ==> IsCompleted(s, id) || (Ends(s, e, id) && e.Succeed?)
    ensures !e.CleanupEvent? ==> (IsCompleted(s, id) || (Ends(s, e, id) && e.Succeed?) ==> IsCompleted(Next(s, e), id))
    ensures IsFailed(Next(s, e), id) ==> IsFailed(s, id) || GivesUp(s, e, id)
    ensures !e.CleanupEvent? ==> (IsFailed(s, id) || GivesUp(s, e, id) ==> IsFailed(Next(s, e), id))
  {
    if Ends(s, e, id) {
      JobEnds(s, e, id);
    } else {
      if IsCompleted(s, id) || IsFailed(s, id) {
        StepTerminal(s, e, id);
      }
      JobsAfter(s, e);
      hide Next, RunningFor, Held;
    }
  }

  // ---------------------------------------------------------------- runs

  ghost predicate Succeeded(s: Process, events: seq<Event>, id: string)
    requires Runs(s, events)
    decreases |events|
  {
    |events| > 0 && ((Ends(s, events[0], id) && events[0].Succeed?) || Succeeded(Next(s, events[0]), events[1..], id))
  }

  ghost predicate GaveUp(s: Process, events: seq<Event>, id: string)
    requires Runs(s, events)
    decreases |events|
  {
    |events| > 0 && (GivesUp(s, events[0], id) || GaveUp(Next(s, events[0]), events[1..], id))
  }

  /**
   Over every run of one process at a time, restarts, resets and failing statements
   included: a row that ends completed had a success, one that ends failed had an error on
   its last allowed attempt, and without a retention cleanup the converses hold.
   */
  lemma {:induction false} OutcomeIff(s: Process, events: seq<Event>, id: string)
    requires Orderly(s) && Held(s) && Runs(s, events)
    requires forall i :: 0 <= i < |events| ==> !events[i].OtherProcess?
    ensures IsCompleted(Final(s, events), id) ==> IsCompleted(s, id) || Succeeded(s, events, id)
    ensures IsFailed(Final(s, events), id) ==> IsFailed(s, id) || GaveUp(s, events, id)
    ensures (forall i :: 0 <= i < |events| ==> !events[i].CleanupEvent?) ==>
              && (IsCompleted(s, id) || Succeeded(s, events, id) ==> IsCompleted(Final(s, events), id))
              && (IsFailed(s, id) || GaveUp(s, events, id) ==> IsFailed(Final(s, events), id))
    decreases |events|
  {
    hide Orderly, Held, Next, Enabled, IsCompleted, IsFailed, Ends, GivesUp;
    if |events| > 0 {
      StepOrderly(s, events[0]);
      StepHeld(s, events[0]);
      StepOutcome(s, events[0], id);
      OutcomeIff(Next(s, events[0]), events[1..], id);
    }
  }

  /** No row is both: of a job that started unfinished, at most one of the two ends happens in a run. */
  lemma OneOutcome(s: Process, events: seq<Event>, id: string)
    requires Orderly(s) && Held(s) && Runs(s, events)
    requires forall i :: 0 <= i < |events| ==> !events[i].OtherProcess? && !events[i].CleanupEvent?
    ensures !(Succeeded(s, events, id) && GaveUp(s, events, id))
  {
    hide Orderly, Held, Runs, Final;
    OutcomeIff(s, events, id);
  }

  /** A failed row used up its attempts. */
  ghost predicate FailedAreExhausted(s: Process) {
    forall id :: IsFailed(s, id) ==> s.jobs[id].attempts >= s.maxAttempts
  }

  lemma StepExhausted(s: Process, e: Event)
    requires Held(s) && FailedAreExhausted(s) && Enabled(s, e) && !e.OtherProcess?
    ensures FailedAreExhausted(Next(s, e))
  {
    var s' := Next(s, e);
    forall id | IsFailed(s', id) ensures s'.jobs[id].attempts >= s'.maxAttempts {
      StepOutcome(s, e, id);
      if GivesUp(s, e, id) {
        JobEnds(s, e, id);
      } else {
        JobsAfter(s, e);
        FailedRowKept(s, e, id);
      }
    }
  }

  lemma FailedRowKept(s: Process, e: Event, id: string)
    requires Held(s) && Enabled(s, e) && !e.OtherProcess? && IsFailed(s, id) && IsFailed(Next(s, e), id)
    ensures Next(s, e).jobs[id].attempts == s.jobs[id].attempts && Next(s, e).maxAttempts == s.maxAttempts
  {
    JobsAfter(s, e);
    hide Next, RunningFor;
    if e.JobError? || e.Succeed? {
      assert WorkerHeld(s.jobs, s.workers[e.w]);
    }
  }

  lemma {:induction false} FailedOnlyExhausted(s: Process, events: seq<Event>)
    requires Orderly(s) && Held(s) && FailedAreExhausted(s) && Runs(s, events)
    requires forall i :: 0 <= i < |events| ==> !events[i].OtherProcess?
    ensures FailedAreExhausted(Final(s, events))
    decreases |events|
  {
    hide Orderly, Held, Next, Enabled, FailedAreExhausted;
    if |events| > 0 {
      StepOrderly(s, events[0]);
      StepHeld(s, events[0]);
      StepExhausted(s, events[0]);
      FailedOnlyExhausted(Next(s, events[0]), events[1..]);
    }
  }

  // ---------------------------------------------------------------- reset and retention

  /** What no reset and no cleanup changes. */
  predicate SameJob(a: Row, b: Row) {
    a.attempts == b.attempts && a.payloadRepoKey == b.payloadRepoKey && a.repoKey == b.repoKey && a.claims == b.claims
  }

  /**
   A reset returns exactly the running rows not updated since the cutoff to pending and
   takes their claims; such a row can be claimed at once exactly when no running row of its
   repository was updated since.
   */
  lemma ResetReturnsTheStale(t: Jobs, cutoff: nat, now: nat, id: string)
    requires id in t
    ensures var t' := ResetStale(t, cutoff, now);
            && t'.Keys == t.Keys && SameJob(t'[id], t[id])
            && (IsRunning(t', id) <==> t[id].status == Running && t[id].updatedAt >= cutoff)
            && (IsPending(t', id) <==> t[id].status == Pending || (t[id].status == Running && t[id].updatedAt < cutoff))
            && (t[id].status == Running && t[id].updatedAt < cutoff ==> t'[id].claimId == None && t'[id].updatedAt == now)
            && (!(t[id].status == Running && t[id].updatedAt < cutoff) ==> t'[id] == t[id])
    ensures t[id].status == Running && t[id].updatedAt < cutoff && t[id].repoKey.Some? ==>
              (Claimable(ResetStale(t, cutoff, now), id, t[id].repoKey.value) <==>
               forall other :: other in t && t[other].status == Running && t[other].repoKey == t[id].repoKey ==> t[other].updatedAt < cutoff)
  {
    var t' := ResetStale(t, cutoff, now);
    if t[id].status == Running && t[id].updatedAt < cutoff && t[id].repoKey.Some? {
      forall other | other in t && t[other].status == Running && t[other].repoKey == t[id].repoKey && t[other].updatedAt >= cutoff
        ensures RunningFor(t', t[id].repoKey.value)
      {
        assert other in t' && t'[other].status.Running?;
      }
    }
  }

  /** The worker of a reset row has lost it: its claim no longer verifies. */
  lemma ResetRevokesClaim(t: Jobs, cutoff: nat, now: nat, id: string, claimId: nat, repoKey: string)
    requires Verified(t, id, claimId, repoKey)
    ensures Verified(ResetStale(t, cutoff, now), id, claimId, repoKey) <==> t[id].updatedAt >= cutoff
  {}

  /** The cleanup removes exactly the finished rows not updated since the cutoff, so it frees no repository and loses no work. */
  lemma CleanupTakesTheFinished(t: Jobs, cutoff: nat)
    ensures var t' := Cleanup(t, cutoff);
            && (forall id :: id in t' <==> id in t && !((t[id].status == Completed || t[id].status == Failed) && t[id].updatedAt < cutoff))
            && (forall id :: id in t' ==> t'[id] == t[id])
            && (forall id :: (IsPending(t', id) <==> IsPending(t, id)) && (IsRunning(t', id) <==> IsRunning(t, id)))
            && forall id, repoKey :: Claimable(t', id, repoKey) <==> Claimable(t, id, repoKey)
  {
    var t' := Cleanup(t, cutoff);
    forall repoKey ensures RunningFor(t', repoKey) <==> RunningFor(t, repoKey) {
      if RunningFor(t, repoKey) {
        var id :| id in t && t[id].status.Running? && t[id].repoKey == Some(repoKey);
        assert id in t';
      }
    }
    hide RunningFor;
  }

  /** What the two deletes leave of a repository's rows: those running, and none. */
  lemma DeletesLeave(t: Jobs, repoKey: string, id: string)
    ensures id in DeleteNonRunning(t, repoKey) <==> id in t && (t[id].repoKey != Some(repoKey) || t[id].status == Running)
    ensures id in DeleteNonRunning(t, repoKey) ==> DeleteNonRunning(t, repoKey)[id] == t[id]
    ensures id in DeleteRepository(t, repoKey) <==> id in t && t[id].repoKey != Some(repoKey)
    ensures id in DeleteRepository(t, repoKey) ==> DeleteRepository(t, repoKey)[id] == t[id]
    ensures !RunningFor(DeleteRepository(t, repoKey), repoKey)
  {}

  /** A new row waits with all its attempts; enqueueing an id again changes nothing. */
  lemma EnqueueAdds(t: Jobs, id: string, repoKey: string, now: nat)
    ensures id in t ==> Enqueue(t, id, repoKey, now) == t
    ensures id !in t ==>
              && Enqueue(t, id, repoKey, now).Keys == t.Keys + {id}
              && Enqueue(t, id, repoKey, now)[id].status == Pending && Enqueue(t, id, repoKey, now)[id].attempts == 0
              && (Claimable(Enqueue(t, id, repoKey, now), id, repoKey) <==> !RunningFor(t, repoKey))
    ensures forall other :: other in t ==> other in Enqueue(t, id, repoKey, now) && Enqueue(t, id, repoKey, now)[other] == t[other]
  {
    if id !in t {
      var t' := Enqueue(t, id, repoKey, now);
      if RunningFor(t, repoKey) {
        var other :| other in t && t[other].status.Running? && t[other].repoKey == Some(repoKey);
        assert other in t' && t'[other] == t[other];
      }
    }
  }
}
