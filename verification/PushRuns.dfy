/**
 Pushes over time: attempts that succeed, that crash anywhere, that are repeated after they
 had already finished, and pushes that are given up after their last attempt. A completed
 push leaves the collection and the manifest of a full index exactly when the state before
 it agreed wherever its diff does not reach; after a push that was given up it may not.
 */
module PushRuns {
  import Paths
  import Chunker
  import PrefixScan
  import opened RepoModel
  import opened RepoAgreement
  import opened RepoIndexer

  /** Agreement of a whole state with a tree. */
  ghost predicate Agrees(cfg: Config, tree: Tree, s: State) {
    && SettingsOf(cfg, tree).Some? && s.manifest.Some?
    && PointsAgree(SettingsOf(cfg, tree).value, tree, s.points)
    && FilesAgree(SettingsOf(cfg, tree).value, tree, s.manifest.value.files)
  }

  ghost function EnvOf(cfg: Config, push: Push): Env
    requires SettingsOf(cfg, push.tree).Some?
  {
    Env(SettingsOf(cfg, push.tree).value, push.tree, push.after, cfg.chunksQuota)
  }

  /** Every process cuts text into chunks numbered 0..n-1. */
  ghost predicate WellConfigured(cfg: Config) {
    forall c :: cfg.settingsFor(c).Some? ==> WellChunked(cfg.settingsFor(c).value)
  }

  /** The push compares the tree `a` with its own. */
  ghost predicate Follows(cfg: Config, a: Tree, push: Push) {
    && WellFormed(a) && WellFormed(push.tree)
    && (SettingsOf(cfg, push.tree).Some? ==> ValidDiff(SettingsOf(cfg, push.tree).value, a, push.tree, push.changed))
  }

  // ---------------------------------------------------------------- crashes

  /** An entry cut off in the middle: some of its deletions done, some of its rows written. */
  ghost predicate MidEntry(env: Env, points: Points, cf: ChangedFile, points': Points) {
    exists gone: set<Id>, added: Points :: PartOfEntry(env, points, cf, gone, added, points')
  }

  ghost predicate PartOfEntry(env: Env, points: Points, cf: ChangedFile, gone: set<Id>, added: Points, points': Points) {
    && (forall id :: id in gone ==> Touches(cf, id.path))
    && (added == map[] || (PrepareChanged(env, cf).Some? && added.Keys <= EntryRows(env, cf).Keys))
    && points' == (points - gone) + added
  }

  ghost function EntryRows(env: Env, cf: ChangedFile): Points
    requires PrepareChanged(env, cf).Some?
  {
    Rows(env.after, cf.filename, PrepareChanged(env, cf).value.file.blobSha, PrepareChanged(env, cf).value.chunks)
  }

  /** Some entries applied, and perhaps part of the next one. */
  ghost predicate CutOff(env: Env, p: Progress, cs: seq<ChangedFile>, points': Points) {
    exists i :: 0 <= i <= |cs| && CutOffAt(env, p, cs, i, points')
  }

  ghost predicate CutOffAt(env: Env, p: Progress, cs: seq<ChangedFile>, i: nat, points': Points)
    requires i <= |cs|
  {
    && Run(env, p, cs[..i]).Continue?
    && (|| points' == Run(env, p, cs[..i]).p.points
        || (i < |cs| && MidEntry(env, Run(env, p, cs[..i]).p.points, cs[i], points')))
  }

  /** A crash leaves the manifest; a full index under way may leave any points. */
  ghost predicate Crashed(cfg: Config, s: State, push: Push, s': State) {
    && s'.manifest == s.manifest
    && (|| FallsBack(cfg, s.manifest, push)
        || s' == s
        || (&& SettingsOf(cfg, push.tree).Some?
            && CutOff(EnvOf(cfg, push), Progress(s.points, s.manifest.value.files, InitialCount(s)), push.changed, s'.points)))
  }

  lemma MidEntryKeeps(env: Env, points: Points, cf: ChangedFile, points': Points, path: string)
    requires MidEntry(env, points, cf, points') && !Touches(cf, path)
    requires !Removes(cf) ==> Paths.PathSegmentsForPath(cf.filename) != []
    ensures At(points', path) == At(points, path)
  {
    hide Rows;
    var gone: set<Id>, added: Points :| PartOfEntry(env, points, cf, gone, added, points');
    if added != map[] {
      RowsPath(env.after, cf.filename, PrepareChanged(env, cf).value.file.blobSha, PrepareChanged(env, cf).value.chunks);
    }
    assert forall id :: id in added ==> id.path == cf.filename && Touches(cf, cf.filename);
  }

  lemma UntouchedPrefix(cs: seq<ChangedFile>, i: nat, path: string)
    requires i <= |cs| && LastTouch(cs, path).None?
    ensures LastTouch(cs[..i], path).None?
    ensures i < |cs| ==> !Touches(cs[i], path)
  {
    hide Touches, LastTouch;
    LastTouchIs(cs, path);
    LastTouchIs(cs[..i], path);
  }

  /** Wherever a run of entries is cut off, the paths that no entry touches keep their points. */
  lemma CutOffKeeps(env: Env, p: Progress, cs: seq<ChangedFile>, points': Points, path: string)
    requires CutOff(env, p, cs, points') && NamesHaveSegments(cs) && LastTouch(cs, path).None?
    ensures At(points', path) == At(p.points, path)
  {
    hide Run, LastTouch, At, Touches, MidEntry;
    var i :| 0 <= i <= |cs| && CutOffAt(env, p, cs, i, points');
    UntouchedPrefix(cs, i, path);
    assert NamesHaveSegments(cs[..i]);
    LastTouchDecides(env, p, cs[..i], path);
    var q := Run(env, p, cs[..i]).p;
    if points' != q.points {
      MidEntryKeeps(env, q.points, cs[i], points', path);
    }
  }

  /** Stopping on the chunk quota is being cut off after the deletions of an entry. */
  lemma {:induction false} QuotaStopKeeps(env: Env, p: Progress, cs: seq<ChangedFile>, path: string)
    requires Run(env, p, cs).ChunkQuota? && NamesHaveSegments(cs) && LastTouch(cs, path).None?
    ensures At(Run(env, p, cs).points, path) == At(p.points, path)
    decreases |cs|
  {
    UntouchedPrefix(cs, 0, path);
    UntouchedTail(cs, path);
    hide At, Touches, LastTouch;
    if Step(env, p, cs[0]).Continue? {
      StepPoints(env, p, cs[0], path);
      QuotaStopKeeps(env, Step(env, p, cs[0]).p, cs[1..], path);
    } else {
      DeletedForAt(p.points, cs[0], path);
    }
  }

  lemma UntouchedTail(cs: seq<ChangedFile>, path: string)
    requires cs != [] && LastTouch(cs, path).None?
    ensures LastTouch(cs[1..], path).None?
  {}

  // ---------------------------------------------------------------- completing a push

  /** From here, completing the push gives agreement with its tree. */
  ghost predicate Recoverable(cfg: Config, s: State, push: Push) {
    || FallsBack(cfg, s.manifest, push)
    || SettingsOf(cfg, push.tree).None?
    || (var settings := SettingsOf(cfg, push.tree).value;
        && UntouchedAgree(settings, push.tree, s.points, push.changed)
        && UnmentionedAgree(settings, push.tree, s.manifest.value.files, push.changed))
  }

  lemma AgreementRecovers(cfg: Config, s: State, push: Push)
    requires Agrees(cfg, push.tree, s)
    ensures Recoverable(cfg, s, push)
  {}

  /**
   A push that reports success leaves the state of a full index exactly when it was answered
   with one, or collection and manifest agreed before wherever its entries do not reach.
   */
  lemma CompletedPushAgreesIff(cfg: Config, a: Tree, s: State, push: Push, s': State, r: Result)
    requires WellConfigured(cfg) && Follows(cfg, a, push)
    requires Pushed(cfg, s, push, s', r) && r.Ready?
    ensures Agrees(cfg, push.tree, s') <==> Recoverable(cfg, s, push)
  {
    if FallsBack(cfg, s.manifest, push) {
      FullFilesAgree(SettingsOf(cfg, push.tree).value, push.tree);
    } else {
      var settings := SettingsOf(cfg, push.tree).value;
      hide FallsBack, FullIndexed, Run, PointsAgree, FilesAgree, UntouchedAgree, UnmentionedAgree, ValidDiff, WellFormed;
      var p := Progress(s.points, s.manifest.value.files, InitialCount(s));
      ValidIsSound(settings, a, push.tree, push.changed);
      ValidDiffIsRight(settings, a, push.tree, push.changed);
      PointsAgreeIff(EnvOf(cfg, push), p, push.changed);
      FilesAgreeIff(EnvOf(cfg, push), p, push.changed);
    }
  }

  lemma ValidIsSound(settings: Settings, a: Tree, b: Tree, cs: seq<ChangedFile>)
    requires ValidDiff(settings, a, b, cs)
    ensures Sound(b, cs) && NamesHaveSegments(cs)
  {}

  // ---------------------------------------------------------------- what keeps a state recoverable

  lemma UntouchedStays(settings: Settings, tree: Tree, before: Points, after: Points, cs: seq<ChangedFile>)
    requires UntouchedAgree(settings, tree, before, cs)
    requires forall path :: LastTouch(cs, path).None? ==> At(after, path) == At(before, path)
    ensures UntouchedAgree(settings, tree, after, cs)
  {
    hide At, LastTouch, Rows;
    forall path | LastTouch(cs, path).None? ensures PointsAgreeAt(settings, tree, after, path) {
      assert PointsAgreeAt(settings, tree, before, path);
    }
  }

  lemma CrashRecovers(cfg: Config, a: Tree, s: State, push: Push, s': State)
    requires Follows(cfg, a, push) && Recoverable(cfg, s, push) && Crashed(cfg, s, push, s')
    ensures Recoverable(cfg, s', push)
  {
    hide LastTouch, LastMention, At, CutOff, ShouldFallbackToFullIndex, TooManyOrConfig;
    if !FallsBack(cfg, s.manifest, push) && SettingsOf(cfg, push.tree).Some? && s' != s {
      var env, p := EnvOf(cfg, push), Progress(s.points, s.manifest.value.files, InitialCount(s));
      forall path | LastTouch(push.changed, path).None? ensures At(s'.points, path) == At(s.points, path) {
        CutOffKeeps(env, p, push.changed, s'.points, path);
      }
      UntouchedStays(env.settings, push.tree, s.points, s'.points, push.changed);
    }
  }

  lemma StoppedPushKeeps(cfg: Config, settings: Settings, s: State, push: Push, s': State, r: Result)
    requires s.manifest.Some? && SettingsOf(cfg, push.tree) == Some(settings)
    requires Incremental(cfg, settings, s, push, s', r) && !r.Ready? && NamesHaveSegments(push.changed)
    ensures s'.manifest == s.manifest
    ensures forall path :: LastTouch(push.changed, path).None? ==> At(s'.points, path) == At(s.points, path)
  {
    hide LastTouch, At, Run, Projected, Sum;
    if s' != s {
      var env, p := EnvOf(cfg, push), Progress(s.points, s.manifest.value.files, InitialCount(s));
      forall path | LastTouch(push.changed, path).None? ensures At(s'.points, path) == At(s.points, path) {
        QuotaStopKeeps(env, p, push.changed, path);
      }
    }
  }

  lemma UnfinishedRecovers(cfg: Config, a: Tree, s: State, push: Push, s': State, r: Result)
    requires WellConfigured(cfg) && Follows(cfg, a, push)
    requires Recoverable(cfg, s, push) && Pushed(cfg, s, push, s', r)
    ensures Recoverable(cfg, s', push)
  {
    if r.Ready? {
      hide *;
      CompletedPushAgreesIff(cfg, a, s, push, s', r);
      AgreementRecovers(cfg, s', push);
    } else {
      hide LastTouch, LastMention, At, Incremental, UntouchedAgree, UnmentionedAgree, PointsAgree, FullFiles, Sum;
      if !FallsBack(cfg, s.manifest, push) && SettingsOf(cfg, push.tree).Some? {
        var settings := SettingsOf(cfg, push.tree).value;
        StoppedPushKeeps(cfg, settings, s, push, s', r);
        UntouchedStays(settings, push.tree, s.points, s'.points, push.changed);
      }
    }
  }

  /** The state left by one push is where the next one may start. */
  lemma NextPushRecovers(cfg: Config, a: Tree, s: State, push: Push)
    requires Agrees(cfg, a, s) && Follows(cfg, a, push)
    ensures Recoverable(cfg, s, push)
  {
    if !FallsBack(cfg, s.manifest, push) && SettingsOf(cfg, push.tree).Some? {
      var cs := push.changed;
      ConfigUnchanged(cfg, a, push);
      AgreementCarriesOver(SettingsOf(cfg, push.tree).value, a, push.tree, cs, s.points, s.manifest.value.files);
    }
  }

  /** Without an entry that names the configuration file, both trees are indexed with the same settings. */
  lemma ConfigUnchanged(cfg: Config, a: Tree, push: Push)
    requires Covering(a, push.tree, push.changed)
    requires !TooManyOrConfig(cfg, push.changed)
    ensures SettingsOf(cfg, a) == SettingsOf(cfg, push.tree)
  {
    var cs, b := push.changed, push.tree;
    forall i | 0 <= i < |cs| ensures !Mentions(cs[i], REPO_CONFIG_PATH) {
      assert !ChangesRepoConfig(cs[i]);
    }
    assert !Reindexed(cs, REPO_CONFIG_PATH);
    assert REPO_CONFIG_PATH in a ==> REPO_CONFIG_PATH in b;
    assert ContentAt(a, REPO_CONFIG_PATH) == ContentAt(b, REPO_CONFIG_PATH);
  }

  // ---------------------------------------------------------------- runs

  /**
   How an attempt ends: the push completed and acknowledged; an error, which may also be one
   after the push had completed; or the process gone.
   */
  datatype Fate = Done | Failed | Died

  datatype Attempt = Attempt(after: State, fate: Fate)

  ghost predicate Attempted(cfg: Config, s: State, push: Push, t: Attempt) {
    if t.fate.Done? then exists r :: Pushed(cfg, s, push, t.after, r) && r.Ready?
    else Crashed(cfg, s, push, t.after) || exists r :: Pushed(cfg, s, push, t.after, r)
  }

  /** An error in the last attempt allowed: the job fails permanently, and the next one runs. */
  predicate GivesUp(maxAttempts: nat, tried: nat, t: Attempt) { t.fate.Failed? && tried + 1 >= maxAttempts }

  predicate MovesOn(maxAttempts: nat, tried: nat, t: Attempt) { t.fate.Done? || GivesUp(maxAttempts, tried, t) }

  /** The attempts work through the pushes in order, each until it is done or given up; `tried` counts those before. */
  ghost predicate Carries(cfg: Config, maxAttempts: nat, tried: nat, s: State, pushes: seq<Push>, attempts: seq<Attempt>, last: State)
    decreases |attempts|
  {
    if attempts == [] then pushes == [] && last == s
    else
      && pushes != []
      && Attempted(cfg, s, pushes[0], attempts[0])
      && if MovesOn(maxAttempts, tried, attempts[0]) then
           Carries(cfg, maxAttempts, 0, attempts[0].after, pushes[1..], attempts[1..], last)
         else Carries(cfg, maxAttempts, tried + 1, attempts[0].after, pushes, attempts[1..], last)
  }

  /** Each push compares the tree before it with its own. */
  ghost predicate Chained(cfg: Config, a: Tree, pushes: seq<Push>)
    decreases |pushes|
  {
    pushes != [] ==> Follows(cfg, a, pushes[0]) && Chained(cfg, pushes[0].tree, pushes[1..])
  }

  function LastTree(a: Tree, pushes: seq<Push>): Tree { if pushes == [] then a else pushes[|pushes| - 1].tree }

  /** After every completed push the state agrees with its tree. */
  ghost predicate EachDoneAgrees(cfg: Config, maxAttempts: nat, tried: nat, pushes: seq<Push>, attempts: seq<Attempt>)
    decreases |attempts|
  {
    attempts != [] && pushes != [] ==>
      && (attempts[0].fate.Done? ==> Agrees(cfg, pushes[0].tree, attempts[0].after))
      && if MovesOn(maxAttempts, tried, attempts[0]) then
           EachDoneAgrees(cfg, maxAttempts, 0, pushes[1..], attempts[1..])
         else EachDoneAgrees(cfg, maxAttempts, tried + 1, pushes, attempts[1..])
  }

  /** Before every completing attempt the state is recoverable. */
  ghost predicate EachDoneRecovers(cfg: Config, maxAttempts: nat, tried: nat, s: State, pushes: seq<Push>, attempts: seq<Attempt>)
    decreases |attempts|
  {
    attempts != [] && pushes != [] ==>
      && (attempts[0].fate.Done? ==> Recoverable(cfg, s, pushes[0]))
      && if MovesOn(maxAttempts, tried, attempts[0]) then
           EachDoneRecovers(cfg, maxAttempts, 0, attempts[0].after, pushes[1..], attempts[1..])
         else EachDoneRecovers(cfg, maxAttempts, tried + 1, attempts[0].after, pushes, attempts[1..])
  }

  /**
   Over any run, pushes given up included: every completed push agrees with its tree exactly
   when every completing attempt started from a recoverable state.
   */
  lemma {:induction false} RunAgreesIff(cfg: Config, maxAttempts: nat, tried: nat, a: Tree, s: State,
                                        pushes: seq<Push>, attempts: seq<Attempt>, last: State)
    requires WellConfigured(cfg) && Chained(cfg, a, pushes) && Carries(cfg, maxAttempts, tried, s, pushes, attempts, last)
    ensures EachDoneAgrees(cfg, maxAttempts, tried, pushes, attempts)
            <==> EachDoneRecovers(cfg, maxAttempts, tried, s, pushes, attempts)
    decreases |attempts|
  {
    hide Recoverable, Agrees, Pushed, Crashed, Follows, WellConfigured;
    if attempts != [] {
      var push, t := pushes[0], attempts[0];
      if t.fate.Done? {
        var r :| Pushed(cfg, s, push, t.after, r) && r.Ready?;
        CompletedPushAgreesIff(cfg, a, s, push, t.after, r);
      }
      if MovesOn(maxAttempts, tried, t) {
        RunAgreesIff(cfg, maxAttempts, 0, push.tree, t.after, pushes[1..], attempts[1..], last);
      } else {
        RunAgreesIff(cfg, maxAttempts, tried + 1, a, t.after, pushes, attempts[1..], last);
      }
    }
  }

  /** Every push given up is followed by one that is answered with a full index. */
  ghost predicate Healed(cfg: Config, maxAttempts: nat, tried: nat, pushes: seq<Push>, attempts: seq<Attempt>)
    decreases |attempts|
  {
    attempts != [] && pushes != [] ==>
      && (GivesUp(maxAttempts, tried, attempts[0]) ==>
            |pushes| > 1 && FallsBack(cfg, attempts[0].after.manifest, pushes[1]))
      && if MovesOn(maxAttempts, tried, attempts[0]) then
           Healed(cfg, maxAttempts, 0, pushes[1..], attempts[1..])
         else Healed(cfg, maxAttempts, tried + 1, pushes, attempts[1..])
  }

  lemma AttemptRecovers(cfg: Config, a: Tree, s: State, push: Push, t: Attempt)
    requires WellConfigured(cfg) && Follows(cfg, a, push) && Recoverable(cfg, s, push) && Attempted(cfg, s, push, t)
    ensures if t.fate.Done? then Agrees(cfg, push.tree, t.after) else Recoverable(cfg, t.after, push)
  {
    hide Recoverable, Agrees, Pushed, Crashed, Follows, WellConfigured;
    if t.fate.Done? {
      var r :| Pushed(cfg, s, push, t.after, r) && r.Ready?;
      CompletedPushAgreesIff(cfg, a, s, push, t.after, r);
    } else if Crashed(cfg, s, push, t.after) {
      CrashRecovers(cfg, a, s, push, t.after);
    } else {
      var r :| Pushed(cfg, s, push, t.after, r);
      UnfinishedRecovers(cfg, a, s, push, t.after, r);
    }
  }

  /** The state is where the first of the pushes may start, or agrees when there is none. */
  ghost predicate MayStart(cfg: Config, a: Tree, s: State, pushes: seq<Push>) {
    if pushes == [] then Agrees(cfg, a, s) else Recoverable(cfg, s, pushes[0])
  }

  lemma DoneReady(cfg: Config, a: Tree, s: State, pushes: seq<Push>)
    requires Chained(cfg, a, pushes) && Agrees(cfg, a, s)
    ensures MayStart(cfg, a, s, pushes)
  {
    hide Agrees, Recoverable, Follows;
    if pushes != [] {
      NextPushRecovers(cfg, a, s, pushes[0]);
    }
  }

  /**
   Any number of pushes, each attempted any number of times, with crashes anywhere and with
   attempts repeated after they had finished, and every push given up followed by a full
   index: once the last one is done, the state agrees with a full index of its tree.
   */
  lemma {:induction false} RunsConverge(cfg: Config, maxAttempts: nat, tried: nat, a: Tree, s: State,
                                        pushes: seq<Push>, attempts: seq<Attempt>, last: State)
    requires WellConfigured(cfg) && Chained(cfg, a, pushes) && Carries(cfg, maxAttempts, tried, s, pushes, attempts, last)
    requires Healed(cfg, maxAttempts, tried, pushes, attempts)
    requires MayStart(cfg, a, s, pushes)
    ensures Agrees(cfg, LastTree(a, pushes), last)
    decreases |attempts|
  {
    hide Agrees, Attempted, Follows, WellConfigured, FallsBack;
    if attempts != [] {
      var push, t := pushes[0], attempts[0];
      AttemptRecovers(cfg, a, s, push, t);
      if MovesOn(maxAttempts, tried, t) {
        if t.fate.Done? {
          DoneReady(cfg, push.tree, t.after, pushes[1..]);
        } else {
          assert FallsBack(cfg, t.after.manifest, pushes[1]);
          assert Recoverable(cfg, t.after, pushes[1..][0]);
        }
        RunsConverge(cfg, maxAttempts, 0, push.tree, t.after, pushes[1..], attempts[1..], last);
      } else {
        RunsConverge(cfg, maxAttempts, tried + 1, a, t.after, pushes, attempts[1..], last);
      }
    }
  }

  // ---------------------------------------------------------------- quota stops

  /** Where a run of entries stops does not depend on the collection. */
  lemma {:induction false} StopIgnoresPoints(env: Env, p: Progress, q: Progress, cs: seq<ChangedFile>)
    requires q.files == p.files && q.count == p.count
    ensures Run(env, q, cs).Continue? <==> Run(env, p, cs).Continue?
    decreases |cs|
  {
    if cs != [] {
      StepIgnoresPoints(env, p, q, cs[0]);
      hide Step;
      if Step(env, p, cs[0]).Continue? {
        StopIgnoresPoints(env, Step(env, p, cs[0]).p, Step(env, q, cs[0]).p, cs[1..]);
      }
    }
  }

  lemma StepIgnoresPoints(env: Env, p: Progress, q: Progress, cf: ChangedFile)
    requires q.files == p.files && q.count == p.count
    ensures Step(env, q, cf).Continue? <==> Step(env, p, cf).Continue?
    ensures Step(env, p, cf).Continue? ==>
              Step(env, q, cf).p.files == Step(env, p, cf).p.files && Step(env, q, cf).p.count == Step(env, p, cf).p.count
  {
    hide DeletedFor, FilesFor, CountFor, PrepareChanged, Rows;
  }

  /** The manifest alone says how many chunks there are. */
  ghost predicate CountedManifest(s: State) { s.manifest.Some? ==> AllCounted(s.manifest.value.files) }

  /**
   A push that stops on a quota, or on its configuration, stops alike in every later attempt,
   whatever crashes did to the collection in between, and keeps the manifest.
   */
  lemma StopRepeats(cfg: Config, s: State, push: Push, s': State, r: Result, t: State, t': State, q: Result)
    requires Pushed(cfg, s, push, s', r) && !r.Ready? && CountedManifest(s)
    requires t.manifest == s.manifest && Pushed(cfg, t, push, t', q)
    ensures q == r && s'.manifest == s.manifest && t'.manifest == s.manifest
  {
    hide FallsBack, Sum, Projected, FullFiles, Candidates;
    if !FallsBack(cfg, s.manifest, push) && SettingsOf(cfg, push.tree).Some? {
      hide FallsBack, Run, FullIndexed;
      NotFallingBack(cfg, s.manifest, push);
      StopIgnoresPoints(EnvOf(cfg, push), Progress(s.points, s.manifest.value.files, InitialCount(s)),
                        Progress(t.points, t.manifest.value.files, InitialCount(t)), push.changed);
    } else {
      NotFallingBack(cfg, s.manifest, push);
    }
  }

  lemma NotFallingBack(cfg: Config, manifest: Option<Manifest>, push: Push)
    ensures FallsBack(cfg, manifest, push) || manifest.Some?
  {}

  /** The push stops, from any collection under this manifest. */
  ghost predicate Stops(cfg: Config, manifest: Option<Manifest>, push: Push) {
    forall s: State, s': State, r: Result :: s.manifest == manifest && Pushed(cfg, s, push, s', r) ==> !r.Ready? && s'.manifest == manifest
  }

  /** The first push of the run is never done: its attempts end with the one that gives it up. */
  ghost predicate FirstGivenUp(maxAttempts: nat, tried: nat, attempts: seq<Attempt>)
    decreases |attempts|
  {
    attempts != [] && !attempts[0].fate.Done?
    && (GivesUp(maxAttempts, tried, attempts[0]) || FirstGivenUp(maxAttempts, tried + 1, attempts[1..]))
  }

  /** Attempt `n` fails as the last one allowed; those before it were cut short, or failed with attempts left. */
  predicate GivenUpAt(maxAttempts: nat, tried: nat, attempts: seq<Attempt>, n: nat) {
    && n < |attempts| && attempts[n].fate == Failed && tried + n + 1 >= maxAttempts
    && forall m :: 0 <= m < n ==>
                     attempts[m].fate != Done && (attempts[m].fate == Failed ==> tried + m + 1 < maxAttempts)
  }

  /** Giving up takes the attempts allowed, neither fewer nor more, those cut short by a crash aside. */
  lemma {:induction false} GivenUpAtTheLimit(maxAttempts: nat, tried: nat, attempts: seq<Attempt>)
    ensures FirstGivenUp(maxAttempts, tried, attempts) <==> exists n: nat :: GivenUpAt(maxAttempts, tried, attempts, n)
    decreases |attempts|
  {
    if attempts != [] && !attempts[0].fate.Done? && !GivesUp(maxAttempts, tried, attempts[0]) {
      var later, rest := tried + 1, attempts[1..];
      GivenUpAtTheLimit(maxAttempts, later, rest);
      if n: nat :| GivenUpAt(maxAttempts, later, rest, n) {
        assert GivenUpAt(maxAttempts, tried, attempts, n + 1) by {
          forall m | 0 < m < n + 1 ensures attempts[m] == rest[m - 1] {}
        }
      }
      if n: nat :| GivenUpAt(maxAttempts, tried, attempts, n) {
        assert n > 0 && GivenUpAt(maxAttempts, later, rest, n - 1);
      }
    } else if attempts != [] && GivesUp(maxAttempts, tried, attempts[0]) {
      assert GivenUpAt(maxAttempts, tried, attempts, 0);
    }
  }

  lemma StoppedOnceStops(cfg: Config, s: State, push: Push, s': State, r: Result)
    requires Pushed(cfg, s, push, s', r) && !r.Ready? && CountedManifest(s)
    ensures Stops(cfg, s.manifest, push)
  {
    hide Pushed;
    forall t: State, t': State, q: Result | t.manifest == s.manifest && Pushed(cfg, t, push, t', q) ensures !q.Ready? && t'.manifest == s.manifest {
      StopRepeats(cfg, s, push, s', r, t, t', q);
    }
  }

  /** A push that stops is given up, under its old manifest, and the rest of the run starts from there. */
  lemma {:induction false} StoppedPushIsGivenUp(cfg: Config, maxAttempts: nat, tried: nat, s: State,
                                                pushes: seq<Push>, attempts: seq<Attempt>, last: State)
    requires Carries(cfg, maxAttempts, tried, s, pushes, attempts, last) && pushes != []
    requires Stops(cfg, s.manifest, pushes[0])
    ensures FirstGivenUp(maxAttempts, tried, attempts)
    decreases |attempts|
  {
    hide Pushed;
    var t := attempts[0];
    assert t.after.manifest == s.manifest;
    if !MovesOn(maxAttempts, tried, t) {
      StoppedPushIsGivenUp(cfg, maxAttempts, tried + 1, t.after, pushes, attempts[1..], last);
    }
  }

  // ---------------------------------------------------------------- after a push that was given up

  /** A full index gives the path the same blob and chunks in both trees, or none in either. */
  ghost predicate SameIndexed(s: Settings, a: Tree, t: Settings, b: Tree, path: string) {
    && (FullyIndexed(s, a, path) <==> FullyIndexed(t, b, path))
    && (FullyIndexed(s, a, path) ==>
          a[path].sha == b[path].sha && s.chunk(path, a[path].content) == t.chunk(path, b[path].content))
  }

  /** The same manifest entry, or none in either. */
  ghost predicate SameListed(s: Settings, a: Tree, t: Settings, b: Tree, path: string) {
    && (FullyIndexed(s, a, path) <==> FullyIndexed(t, b, path))
    && (FullyIndexed(s, a, path) ==>
          a[path].sha == b[path].sha && |s.chunk(path, a[path].content)| == |t.chunk(path, b[path].content)|)
  }

  lemma RowsTell(ref: string, path: string, sha: string, chunks: seq<Chunker.Chunk>,
                 ref': string, sha': string, chunks': seq<Chunker.Chunk>)
    requires forall k :: 0 <= k < |chunks| ==> chunks[k].chunkIndex == k
    requires forall k :: 0 <= k < |chunks'| ==> chunks'[k].chunkIndex == k
    requires |chunks| > 0 && Rows(ref, path, sha, chunks) == Rows(ref', path, sha', chunks')
    ensures sha == sha' && chunks == chunks'
  {
    RowsAre(ref, path, sha, chunks);
    RowsAre(ref', path, sha', chunks');
    var rows := Rows(ref, path, sha, chunks);
    hide Rows;
    assert Id(ref, path, sha, 0) in rows;
    forall k | 0 <= k < |chunks| ensures chunks[k] == chunks'[k] {
      assert Id(ref, path, sha, k) in rows;
      assert rows[Id(ref, path, sha, k)] == Payload(chunks[k].startLine, chunks[k].endLine, chunks[k].text);
    }
  }

  /** Points that agree with one tree at a path agree with another there exactly when the path is indexed alike. */
  lemma PointsCarryIff(s: Settings, a: Tree, t: Settings, b: Tree, points: Points, path: string)
    requires WellChunked(s) && WellChunked(t) && PointsAgreeAt(s, a, points, path)
    ensures PointsAgreeAt(t, b, points, path) <==> SameIndexed(s, a, t, b, path)
  {
    hide At, Rows;
    if FullyIndexed(s, a, path) {
      var ref :| At(points, path) == Rows(ref, path, a[path].sha, s.chunk(path, a[path].content));
      RowsNotEmpty(s, path, ref, a[path]);
      if FullyIndexed(t, b, path) && HoldsChunks(points, path, t, b[path]) {
        var ref' :| At(points, path) == Rows(ref', path, b[path].sha, t.chunk(path, b[path].content));
        RowsTell(ref, path, a[path].sha, s.chunk(path, a[path].content),
                 ref', b[path].sha, t.chunk(path, b[path].content));
      }
    } else if FullyIndexed(t, b, path) {
      forall ref ensures Rows(ref, path, b[path].sha, t.chunk(path, b[path].content)) != map[] {
        RowsNotEmpty(t, path, ref, b[path]);
      }
    }
  }

  lemma FilesCarryIff(s: Settings, a: Tree, t: Settings, b: Tree, files: Files, path: string)
    requires FilesAgreeAt(s, a, files, path)
    ensures FilesAgreeAt(t, b, files, path) <==> SameListed(s, a, t, b, path)
  {}

  /**
   After pushes that were given up the manifest is still that of an older tree, and so is the
   collection wherever they left it alone. The next push that completes without a full index
   agrees with its own tree exactly when the two trees index alike every path its diff does
   not reach.
   */
  lemma AfterGivenUpIff(cfg: Config, base: Tree, a: Tree, s: State, push: Push, s': State, r: Result)
    requires WellConfigured(cfg) && Follows(cfg, a, push) && SettingsOf(cfg, base).Some? && s.manifest.Some?
    requires UntouchedAgree(SettingsOf(cfg, base).value, base, s.points, push.changed)
    requires FilesAgree(SettingsOf(cfg, base).value, base, s.manifest.value.files)
    requires !FallsBack(cfg, s.manifest, push) && Pushed(cfg, s, push, s', r) && r.Ready?
    ensures var old_, new_ := SettingsOf(cfg, base).value, SettingsOf(cfg, push.tree).value;
            Agrees(cfg, push.tree, s') <==>
            && (forall path :: LastTouch(push.changed, path).None? ==> SameIndexed(old_, base, new_, push.tree, path))
            && (forall path :: LastMention(push.changed, path).None? ==> SameListed(old_, base, new_, push.tree, path))
  {
    CompletedPushAgreesIff(cfg, a, s, push, s', r);
    var old_, new_ := SettingsOf(cfg, base).value, SettingsOf(cfg, push.tree).value;
    hide Agrees, SameIndexed, SameListed, LastTouch, LastMention, PointsAgreeAt, FilesAgreeAt, FallsBack, Follows, Pushed;
    forall path | LastTouch(push.changed, path).None?
      ensures PointsAgreeAt(new_, push.tree, s.points, path) <==> SameIndexed(old_, base, new_, push.tree, path)
    {
      PointsCarryIff(old_, base, new_, push.tree, s.points, path);
    }
    forall path
      ensures FilesAgreeAt(new_, push.tree, s.manifest.value.files, path) <==> SameListed(old_, base, new_, push.tree, path)
    {
      FilesCarryIff(old_, base, new_, push.tree, s.manifest.value.files, path);
    }
  }

  function EmptyManifest(settings: Settings): Manifest { Manifest(map[], settings.fingerprint, "refs/heads/main", "0") }

  /**
   One file is added by a push that the chunk quota stops, and the next push, which changes
   nothing, is reported ready: the file is in its tree and not in the collection.
   */
  lemma GivenUpPushIsLost(cfg: Config, settings: Settings, x: Blob, add: Push, more: Push, s1: State, r1: Result, s2: State, r2: Result)
    requires WellConfigured(cfg) && cfg.settingsFor(None) == Some(settings)
    requires cfg.filesQuota == None && cfg.chunksQuota == Some(0) && cfg.maxChangedFiles >= 1
    requires settings.indexable("a") && |settings.chunk("a", x.content)| > 0 && x.size == None
    requires add.tree == more.tree == map["a" := x]
    requires add.changed == [ChangedFile("a", None, "added", Some(x.sha))] && more.changed == []
    requires !ShouldFallbackToFullIndex(add) && !ShouldFallbackToFullIndex(more)
    requires Pushed(cfg, State(map[], Some(EmptyManifest(settings))), add, s1, r1)
    requires Pushed(cfg, s1, more, s2, r2)
    ensures r1 == ChunksQuotaExceeded && r2.Ready? && FullyIndexed(settings, more.tree, "a")
    ensures At(s2.points, "a") == map[] && !Agrees(cfg, more.tree, s2)
  {
    var s := State(map[], Some(EmptyManifest(settings)));
    assert ContentAt(add.tree, REPO_CONFIG_PATH) == None by { assert "a"[0] != REPO_CONFIG_PATH[0]; }
    AddStops(cfg, settings, x, add, s1, r1);
    var p := Progress(s1.points, map[], 0);
    assert InitialCount(s1) == 0;
    assert Run(EnvOf(cfg, more), p, []) == Continue(p);
    assert s2.points == map[];
    RowsNotEmptyAt(settings, x);
    assert !PointsAgreeAt(settings, more.tree, s2.points, "a");
  }

  lemma AddStops(cfg: Config, settings: Settings, x: Blob, add: Push, s1: State, r1: Result)
    requires cfg.settingsFor(None) == Some(settings)
    requires cfg.filesQuota == None && cfg.chunksQuota == Some(0) && cfg.maxChangedFiles >= 1
    requires settings.indexable("a") && |settings.chunk("a", x.content)| > 0
    requires add.tree == map["a" := x] && ContentAt(add.tree, REPO_CONFIG_PATH) == None
    requires add.changed == [ChangedFile("a", None, "added", Some(x.sha))]
    requires !ShouldFallbackToFullIndex(add)
    requires Pushed(cfg, State(map[], Some(EmptyManifest(settings))), add, s1, r1)
    ensures r1 == ChunksQuotaExceeded && s1 == State(map[], Some(EmptyManifest(settings)))
  {
    var s, env, cf := State(map[], Some(EmptyManifest(settings))), EnvOf(cfg, add), add.changed[0];
    assert "a" != REPO_CONFIG_PATH by { assert "a"[0] != REPO_CONFIG_PATH[0]; }
    assert !Removes(cf) by { AddedIsNoRemoval(); }
    assert InitialCount(s) == 0;
    EntryStops(env, cf, x);
    hide Step, Removes, Run;
    RunOne(env, Progress(map[], map[], 0), cf);
    assert add.changed == [cf];
  }

  lemma EntryStops(env: Env, cf: ChangedFile, x: Blob)
    requires env.tree == map["a" := x] && env.chunkQuota == Some(0) && !Removes(cf) && !HasPrevious(cf) && cf.filename == "a"
    requires env.settings.indexable("a") && |env.settings.chunk("a", x.content)| > 0
    ensures Step(env, Progress(map[], map[], 0), cf) == ChunkQuota(map[])
  {
    assert DeletedFor(map[], cf) == map[];
  }

  lemma AddedIsNoRemoval()
    ensures PrefixScan.Lowered("added") != "removed" && PrefixScan.Lowered("added") != "deleted"
  {
    assert PrefixScan.Lowered("added")[0] == 'a' && "removed"[0] == 'r' && "deleted"[0] == 'd';
  }

  lemma RowsNotEmptyAt(settings: Settings, x: Blob)
    requires WellChunked(settings) && |settings.chunk("a", x.content)| > 0
    ensures forall ref :: Rows(ref, "a", x.sha, settings.chunk("a", x.content)) != map[]
  {
    forall ref ensures Rows(ref, "a", x.sha, settings.chunk("a", x.content)) != map[] {
      RowsNotEmpty(settings, "a", ref, x);
    }
  }
}
