/**
 Which row an undisturbed scan claims: page after page, the first pending row in order of
 creation whose repository the process is not running, however many pages lie before it.
 */
module ClaimScan {
  import opened JobTable
  import opened IndexingWorkers

  /** The row waits, and its repository is not being run by this process. */
  predicate Free(s: Process, id: string) {
    id in s.jobs && s.jobs[id].status == Pending && s.jobs[id].payloadRepoKey !in s.runningRepoKeys
  }

  function PagesLeft(s: Process, offset: nat): nat {
    var n := |PendingIds(s.jobs, s.order)|;
    if offset <= n then n - offset else 0
  }

  /** The scan of one worker from its offset on, when nothing else happens. */
  function Scan(s: Process, w: nat): Process
    requires w in s.workers && s.workers[w].Scanning? && |s.lock| > 0
    decreases PagesLeft(s, s.workers[w].offset)
  {
    var s' := Considered(PageSelected(s, w), w);
    if s'.workers[w].Scanning? then Scan(s', w) else s'
  }

  function FirstFree(s: Process, ids: seq<string>): Option<string> {
    if ids == [] then None else if Free(s, ids[0]) then Some(ids[0]) else FirstFree(s, ids[1..])
  }

  lemma {:induction false} FirstFreeIs(s: Process, ids: seq<string>, i: nat)
    requires i < |ids| && Free(s, ids[i]) && forall j :: 0 <= j < i ==> !Free(s, ids[j])
    ensures FirstFree(s, ids) == Some(ids[i])
  {
    if i > 0 {
      FirstFreeIs(s, ids[1..], i - 1);
    }
  }

  lemma {:induction false} NoneFree(s: Process, ids: seq<string>)
    requires forall j :: 0 <= j < |ids| ==> !Free(s, ids[j])
    ensures FirstFree(s, ids) == None
  {
    if ids != [] {
      NoneFree(s, ids[1..]);
    }
  }

  lemma {:induction false} FirstFreeAppend(s: Process, a: seq<string>, b: seq<string>)
    ensures FirstFree(s, a + b) == if FirstFree(s, a).Some? then FirstFree(s, a) else FirstFree(s, b)
  {
    if a == [] {
      assert a + b == b;
    } else {
      assert (a + b)[0] == a[0] && (a + b)[1..] == a[1..] + b;
      FirstFreeAppend(s, a[1..], b);
    }
  }

  lemma {:induction false} FirstFreePending(s: Process, order: seq<string>)
    ensures FirstFree(s, PendingIds(s.jobs, order)) == FirstFree(s, order)
  {
    if order != [] {
      FirstFreePending(s, order[1..]);
      var rest := PendingIds(s.jobs, order[1..]);
      assert ([order[0]] + rest)[1..] == rest;
    }
  }

  lemma {:induction false} FirstFreeOfPage(s: Process, ids: seq<string>, rows: seq<Found>)
    requires |rows| == |ids|
    requires forall k :: 0 <= k < |ids| ==> IsPending(s.jobs, ids[k]) && rows[k] == FoundRow(s.jobs, ids[k])
    ensures var i := FirstUnlocked(rows, s.runningRepoKeys);
            FirstFree(s, ids) == if i < 0 then None else Some(ids[i])
  {
    if ids != [] && rows[0].key in s.runningRepoKeys {
      FirstFreeOfPage(s, ids[1..], rows[1..]);
    }
  }

  /** What one page decides. */
  lemma PageDecides(s: Process, w: nat)
    requires w in s.workers && s.workers[w].Scanning? && |s.lock| > 0
    ensures var s' := Considered(PageSelected(s, w), w);
            var offset, pending := s.workers[w].offset, PendingIds(s.jobs, s.order);
            var page := Page(s, offset);
            match FirstFree(s, page)
            case Some(id) =>
              id in s.jobs && s' == s.(workers := s.workers[w := Marking(id, s.jobs[id].payloadRepoKey, s.jobs[id].attempts)])
            case None =>
              if |page| < 50 then s' == s.(workers := s.workers[w := Exiting], lock := s.lock[1..])
              else
                && s' == s.(workers := s.workers[w := Scanning(offset + 50)])
                && offset + 50 <= |pending| && page == pending[offset..offset + 50]
  {
    hide PendingIds, Page, PageRows, FirstUnlocked, FirstFree, Considered;
    var offset := s.workers[w].offset;
    PagePending(s, offset);
    PageSize(s, offset);
    FirstFreeOfPage(s, Page(s, offset), PageRows(s, offset));
    ConsideredIs(s, w, offset, PageRows(s, offset));
  }

  lemma ConsideredIs(s: Process, w: nat, offset: nat, rows: seq<Found>)
    requires w in s.workers && |s.lock| > 0
    ensures var s' := Considered(Set(s, w, Selected(offset, rows)), w);
            var i := FirstUnlocked(rows, s.runningRepoKeys);
            if i >= 0 then s' == s.(workers := s.workers[w := Marking(rows[i].jobId, rows[i].key, rows[i].attempts)])
            else if |rows| < 50 then s' == s.(workers := s.workers[w := Exiting], lock := s.lock[1..])
            else s' == s.(workers := s.workers[w := Scanning(offset + 50)])
  {
    hide FirstUnlocked;
    var i := FirstUnlocked(rows, s.runningRepoKeys);
    SetAgain(s.workers, w, Selected(offset, rows),
             if i >= 0 then Marking(rows[i].jobId, rows[i].key, rows[i].attempts)
             else if |rows| < 50 then Exiting else Scanning(offset + 50));
  }

  lemma SetAgain(workers: map<nat, Worker>, w: nat, a: Worker, b: Worker)
    ensures workers[w := a][w := b] == workers[w := b]
  {
  }

  lemma PageSize(s: Process, offset: nat)
    ensures var pending := PendingIds(s.jobs, s.order);
            && |Page(s, offset)| <= 50
            && (|Page(s, offset)| >= 50 ==> offset + 50 <= |pending| && Page(s, offset) == pending[offset..offset + 50])
            && (|Page(s, offset)| < 50 && offset <= |pending| ==> Page(s, offset) == pending[offset..])
  {}

  lemma CutPage(pending: seq<string>, offset: nat)
    requires offset + 50 <= |pending|
    ensures pending[offset..] == pending[offset..offset + 50] + pending[offset + 50..]
  {}

  lemma {:induction false} ScanFrom(s: Process, w: nat)
    requires w in s.workers && s.workers[w].Scanning? && |s.lock| > 0
    requires s.workers[w].offset <= |PendingIds(s.jobs, s.order)|
    ensures match FirstFree(s, PendingIds(s.jobs, s.order)[s.workers[w].offset..])
            case Some(id) =>
              id in s.jobs && Scan(s, w) == s.(workers := s.workers[w := Marking(id, s.jobs[id].payloadRepoKey, s.jobs[id].attempts)])
            case None => Scan(s, w) == s.(workers := s.workers[w := Exiting], lock := s.lock[1..])
    decreases PagesLeft(s, s.workers[w].offset)
  {
    hide PendingIds, Page, PageRows, Considered;
    var offset, pending := s.workers[w].offset, PendingIds(s.jobs, s.order);
    var page, s' := Page(s, offset), Considered(PageSelected(s, w), w);
    PageDecides(s, w);
    PageSize(s, offset);
    if |page| >= 50 {
      CutPage(pending, offset);
      FirstFreeAppend(s, page, pending[offset + 50..]);
      if FirstFree(s, page).None? {
        SameFree(s, s', pending[offset + 50..]);
        ScanFrom(s', w);
        var first := FirstFree(s, pending[offset + 50..]);
        SetAgain(s.workers, w, Scanning(offset + 50), if first.None? then Exiting else Scan(s', w).workers[w]);
      }
    }
  }

  lemma {:induction false} SameFree(s: Process, s': Process, ids: seq<string>)
    requires s'.jobs == s.jobs && s'.runningRepoKeys == s.runningRepoKeys
    ensures FirstFree(s', ids) == FirstFree(s, ids)
  {
    if ids != [] {
      SameFree(s, s', ids[1..]);
    }
  }

  /**
   A worker that scans undisturbed goes on to claim the first free row in order of creation;
   when no row is free it gives the lock back and ends. Nothing else changes.
   */
  lemma ScanClaimsFirst(s: Process, w: nat)
    requires w in s.workers && s.workers[w] == Scanning(0) && |s.lock| > 0
    ensures forall i :: 0 <= i < |s.order| && Free(s, s.order[i]) && (forall j :: 0 <= j < i ==> !Free(s, s.order[j])) ==>
              Scan(s, w) == s.(workers := s.workers[w := Marking(s.order[i], s.jobs[s.order[i]].payloadRepoKey, s.jobs[s.order[i]].attempts)])
    ensures (forall i :: 0 <= i < |s.order| ==> !Free(s, s.order[i])) ==>
              Scan(s, w) == s.(workers := s.workers[w := Exiting], lock := s.lock[1..])
  {
    hide Scan, PendingIds, Free;
    var pending := PendingIds(s.jobs, s.order);
    assert pending[0..] == pending;
    ScanFrom(s, w);
    FirstFreePending(s, s.order);
    forall i | 0 <= i < |s.order| && Free(s, s.order[i]) && (forall j :: 0 <= j < i ==> !Free(s, s.order[j]))
      ensures FirstFree(s, s.order) == Some(s.order[i])
    {
      FirstFreeIs(s, s.order, i);
    }
    if forall i :: 0 <= i < |s.order| ==> !Free(s, s.order[i]) {
      NoneFree(s, s.order);
    }
  }

  /** A drain starts as many workers as there is room for, each in line for the lock, and remembers itself otherwise. */
  lemma DrainFills(s: Process)
    ensures var s' := Drain(s);
            if s.activeWorkerCount >= s.concurrency then s' == s.(drainRequested := true)
            else
              && s'.activeWorkerCount == s.concurrency && !s'.drainRequested
              && s'.nextWorker == s.nextWorker + (s.concurrency - s.activeWorkerCount)
              && s'.lock == s.lock + seq(s.concurrency - s.activeWorkerCount, k => s.nextWorker + k)
              && forall u :: s.nextWorker <= u < s'.nextWorker ==> u in s'.workers && s'.workers[u] == WaitLock
  {
    if s.activeWorkerCount < s.concurrency {
      Started(s.(drainRequested := false), s.concurrency - s.activeWorkerCount);
    }
  }

  lemma {:induction false} Started(s: Process, n: nat)
    ensures var s' := StartWorkers(s, n);
            && s'.activeWorkerCount == s.activeWorkerCount + n && s'.drainRequested == s.drainRequested
            && s'.nextWorker == s.nextWorker + n
            && s'.lock == s.lock + seq(n, k => s.nextWorker + k)
            && (forall u :: s.nextWorker <= u < s'.nextWorker ==> u in s'.workers && s'.workers[u] == WaitLock)
            && (forall u :: u < s.nextWorker && u in s.workers ==> u in s'.workers && s'.workers[u] == s.workers[u])
    decreases n
  {
    if n > 0 {
      var s1 := StartWorker(s);
      Started(s1, n - 1);
      assert [s.nextWorker] + seq(n - 1, k => s1.nextWorker + k) == seq(n, k => s.nextWorker + k);
      assert s.lock + [s.nextWorker] + seq(n - 1, k => s1.nextWorker + k) == s.lock + ([s.nextWorker] + seq(n - 1, k => s1.nextWorker + k));
    }
  }
}
