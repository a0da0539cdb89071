/**
 The indexer of one repository's default-branch collection: full index, incremental push
 with its fallbacks, and the quota bookkeeping of the push loop. Database and GitHub calls
 succeed unless the outcome says otherwise; a call that throws is a crash in `PushRuns`.
 */
module RepoIndexer {
  import opened Paths
  import opened RepoModel
  import opened RepoAgreement
  import Chunker

  const REPO_CONFIG_PATH := ".ydb-qdrant-code-indexer.json"
  const GITHUB_COMPARE_FILES_CAP := 300

  /** `settingsFor` parses and merges the repository's configuration file; `None` where that throws. */
  datatype Config = Config(
    settingsFor: Option<Content> -> Option<Settings>,
    maxChangedFiles: int,
    filesQuota: Option<nat>,
    chunksQuota: Option<nat>)

  datatype State = State(points: Points, manifest: Option<Manifest>)

  /** A push, with the tree at `after` and the comparison of `before` with it. */
  datatype Push = Push(
    before: string, after: string, ref: string, defaultBranch: string,
    created: bool, forced: bool, deleted: bool,
    tree: Tree, changed: seq<ChangedFile>)

  datatype Result =
    | Ready(chunkCount: nat, lastIndexedSha: string)
    | InvalidConfig
    | FilesQuotaExceeded
    | ChunksQuotaExceeded

  function SettingsOf(cfg: Config, tree: Tree): Option<Settings> { cfg.settingsFor(ContentAt(tree, REPO_CONFIG_PATH)) }

  // ---------------------------------------------------------------- counting chunks

  ghost function Sum(files: Files): nat
    decreases |files|
  {
    if files == map[] then 0 else var path :| path in files; Counted(files[path]) + Sum(files - {path})
  }

  lemma {:induction false} SumRemove(files: Files, path: string)
    requires path in files
    ensures Sum(files) == Counted(files[path]) + Sum(files - {path})
    decreases |files|
  {
    var first :| first in files && Sum(files) == Counted(files[first]) + Sum(files - {first});
    if first != path {
      SumRemove(files - {first}, path);
      SumRemove(files - {path}, first);
      assert files - {first} - {path} == files - {path} - {first};
    }
  }

  lemma SumInsert(files: Files, path: string, file: ManifestFile)
    requires path !in files
    ensures Sum(files[path := file]) == Sum(files) + Counted(file)
  {
    SumRemove(files[path := file], path);
    assert files[path := file] - {path} == files;
  }

  /** Taking an entry out takes its count out, exactly: the `Math.max(0, ...)` does nothing. */
  lemma SubtractIsExact(files: Files, path: string)
    ensures Subtract(Sum(files), files, path) == Sum(files - {path})
    ensures path in files ==> Sum(files) >= Counted(files[path])
  {
    if path in files {
      SumRemove(files, path);
    } else {
      assert files - {path} == files;
    }
  }

  lemma CountForIsSum(files: Files, cf: ChangedFile)
    ensures CountFor(Sum(files), files, cf) == Sum(FilesFor(files, cf)) <= Sum(files)
  {
    if HasPrevious(cf) {
      SubtractIsExact(files, cf.previousFilename.value);
      SubtractIsExact(files - {cf.previousFilename.value}, cf.filename);
    } else {
      SubtractIsExact(files, cf.filename);
    }
  }

  /** One entry keeps the running count equal to the sum over the manifest being built. */
  lemma StepCounts(env: Env, p: Progress, cf: ChangedFile)
    requires p.count == Sum(p.files) && Step(env, p, cf).Continue?
    ensures var q := Step(env, p, cf).p;
            && q.count == Sum(q.files)
            && (env.chunkQuota.Some? && PrepareChanged(env, cf).Some? ==> Sum(q.files) <= env.chunkQuota.value)
            && (env.chunkQuota.Some? && Sum(p.files) <= env.chunkQuota.value ==> Sum(q.files) <= env.chunkQuota.value)
  {
    hide Sum, CountFor, DeletedFor, Rows;
    CountForIsSum(p.files, cf);
    var prepared := PrepareChanged(env, cf);
    if prepared.Some? {
      SumInsert(FilesFor(p.files, cf), cf.filename, prepared.value.file);
      PreparedCounts(env, cf);
    }
  }

  lemma PreparedCounts(env: Env, cf: ChangedFile)
    requires PrepareChanged(env, cf).Some?
    ensures PrepareChanged(env, cf).value.file.chunkCount == Some(|PrepareChanged(env, cf).value.chunks|)
  {}

  lemma {:induction false} RunSplit(env: Env, p: Progress, a: seq<ChangedFile>, b: seq<ChangedFile>)
    requires Run(env, p, a).Continue?
    ensures Run(env, p, a + b) == Run(env, Run(env, p, a).p, b)
    decreases |a|
  {
    hide Step;
    if a == [] {
      assert a + b == b;
    } else {
      assert (a + b)[1..] == a[1..] + b && (a + b)[0] == a[0];
      RunSplit(env, Step(env, p, a[0]).p, a[1..], b);
    }
  }

  /**
   At every iteration of the push loop the running count is the sum over the entries so
   far, is within the quota after each indexed file, and never leaves the quota once in it.
   */
  lemma {:induction false} QuotaBookkeeping(env: Env, p: Progress, cs: seq<ChangedFile>, i: nat)
    requires p.count == Sum(p.files) && i <= |cs| && Run(env, p, cs[..i]).Continue?
    ensures var q := Run(env, p, cs[..i]).p;
            && q.count == Sum(q.files)
            && (env.chunkQuota.Some? && i > 0 && PrepareChanged(env, cs[i - 1]).Some? ==> Sum(q.files) <= env.chunkQuota.value)
            && (env.chunkQuota.Some? && Sum(p.files) <= env.chunkQuota.value ==> Sum(q.files) <= env.chunkQuota.value)
    decreases i
  {
    hide Step, Sum;
    if i > 0 {
      RunStopsEarly(env, p, cs[..i - 1], [cs[i - 1]]);
      assert cs[..i] == cs[..i - 1] + [cs[i - 1]];
      QuotaBookkeeping(env, p, cs, i - 1);
      RunSplit(env, p, cs[..i - 1], [cs[i - 1]]);
      RunOne(env, Run(env, p, cs[..i - 1]).p, cs[i - 1]);
      StepCounts(env, Run(env, p, cs[..i - 1]).p, cs[i - 1]);
    }
  }

  lemma RunOne(env: Env, p: Progress, cf: ChangedFile)
    ensures Run(env, p, [cf]) == Step(env, p, cf)
  {
    hide Step;
    assert [cf][1..] == [];
    assert Step(env, p, cf).Continue? ==> Run(env, Step(env, p, cf).p, []) == Step(env, p, cf);
  }

  lemma {:induction false} RunStopsEarly(env: Env, p: Progress, a: seq<ChangedFile>, b: seq<ChangedFile>)
    ensures Run(env, p, a + b).Continue? ==> Run(env, p, a).Continue?
    decreases |a|
  {
    hide Step;
    if a != [] {
      assert (a + b)[1..] == a[1..] + b && (a + b)[0] == a[0];
      if Step(env, p, a[0]).Continue? {
        RunStopsEarly(env, Step(env, p, a[0]).p, a[1..], b);
      }
    }
  }

  // ---------------------------------------------------------------- the file quota

  function ProjectOne(s: Settings, after: string, files: Files, cf: ChangedFile): Files {
    if !Removes(cf) && s.indexable(cf.filename) then
      FilesFor(files, cf)[cf.filename := ManifestFile(if cf.sha.Some? then cf.sha.value else after, None)]
    else FilesFor(files, cf)
  }

  function Projected(s: Settings, after: string, files: Files, cs: seq<ChangedFile>): Files
    decreases |cs|
  {
    if cs == [] then files else Projected(s, after, ProjectOne(s, after, files, cs[0]), cs[1..])
  }

  /** The final manifest's paths are among the projected ones, whichever files cannot be read or cut. */
  lemma {:induction false} ManifestWithinProjection(env: Env, p: Progress, cs: seq<ChangedFile>, projected: Files)
    requires p.files.Keys <= projected.Keys && Run(env, p, cs).Continue?
    ensures Run(env, p, cs).p.files.Keys <= Projected(env.settings, env.after, projected, cs).Keys
    decreases |cs|
  {
    if cs != [] {
      StepWithinProjection(env, p, cs[0], projected);
      hide Step, ProjectOne;
      ManifestWithinProjection(env, Step(env, p, cs[0]).p, cs[1..], ProjectOne(env.settings, env.after, projected, cs[0]));
    }
  }

  lemma StepWithinProjection(env: Env, p: Progress, cf: ChangedFile, projected: Files)
    requires p.files.Keys <= projected.Keys && Step(env, p, cf).Continue?
    ensures Step(env, p, cf).p.files.Keys <= ProjectOne(env.settings, env.after, projected, cf).Keys
  {
    hide DeletedFor, Rows, CountFor;
    assert PrepareChanged(env, cf).Some? ==> !Removes(cf) && env.settings.indexable(cf.filename);
    hide PrepareChanged;
    assert FilesFor(p.files, cf).Keys <= FilesFor(projected, cf).Keys;
  }

  lemma {:induction false} SubsetSize<T>(a: set<T>, b: set<T>)
    requires a <= b
    ensures |a| <= |b|
  {
    if a != {} {
      var x :| x in a;
      SubsetSize(a - {x}, b - {x});
    }
  }

  /** So a push that passes the file quota saves a manifest within it. */
  lemma FilesQuotaBoundsManifest(env: Env, p: Progress, cs: seq<ChangedFile>, quota: Option<nat>)
    requires quota.Some? ==> |Projected(env.settings, env.after, p.files, cs)| <= quota.value
    requires Run(env, p, cs).Continue?
    ensures quota.Some? ==> |Run(env, p, cs).p.files| <= quota.value
  {
    ManifestWithinProjection(env, p, cs, p.files);
    var kept, projected := Run(env, p, cs).p.files, Projected(env.settings, env.after, p.files, cs);
    SubsetSize(kept.Keys, projected.Keys);
    assert |kept| == |kept.Keys| && |projected| == |projected.Keys|;
  }

  // ---------------------------------------------------------------- points and manifest count alike

  /** Every listed path has as many points as its entry counts, and every point is listed. */
  ghost predicate CountsMatch(points: Points, files: Files) {
    && (forall path :: path in files ==> |At(points, path)| == Counted(files[path]))
    && (forall id :: id in points ==> id.path in files)
  }

  /** Then the number of points is the sum over the manifest. */
  lemma {:induction false} PointsAreSum(points: Points, files: Files)
    requires CountsMatch(points, files)
    ensures |points| == Sum(files)
    decreases |files|
  {
    if files == map[] {
      assert points == map[];
    } else {
      var path :| path in files;
      var others := map id | id in points && id.path != path :: points[id];
      OthersMatch(points, files, path);
      PointsAreSum(others, files - {path});
      SumRemove(files, path);
      PartSizes(points, path, others);
    }
  }

  lemma OthersMatch(points: Points, files: Files, path: string)
    requires CountsMatch(points, files) && path in files
    ensures CountsMatch(map id | id in points && id.path != path :: points[id], files - {path})
  {
    var others := map id | id in points && id.path != path :: points[id];
    forall q | q in files - {path} ensures |At(others, q)| == Counted(files[q]) {
      assert At(others, q) == At(points, q);
    }
  }

  lemma PartSizes(points: Points, path: string, others: Points)
    requires others == map id | id in points && id.path != path :: points[id]
    ensures |points| == |At(points, path)| + |others|
  {
    assert points.Keys == At(points, path).Keys + others.Keys;
    assert At(points, path).Keys !! others.Keys;
    assert |points| == |points.Keys| && |others| == |others.Keys| && |At(points, path)| == |At(points, path).Keys|;
  }

  /** In agreement the two sources of the chunk count, collection and manifest, say the same. */
  lemma AgreementCounts(s: Settings, tree: Tree, points: Points, files: Files)
    requires WellChunked(s) && PointsAgree(s, tree, points) && FilesAgree(s, tree, files)
    ensures |points| == Sum(files)
  {
    forall path | path in files ensures |At(points, path)| == Counted(files[path]) {
      PathCounts(s, tree, points, files, path);
    }
    forall id | id in points ensures id.path in files {
      assert id in At(points, id.path);
      assert PointsAgreeAt(s, tree, points, id.path) && FilesAgreeAt(s, tree, files, id.path);
    }
    PointsAreSum(points, files);
  }

  lemma PathCounts(s: Settings, tree: Tree, points: Points, files: Files, path: string)
    requires WellChunked(s) && path in files
    requires PointsAgree(s, tree, points) && FilesAgree(s, tree, files)
    ensures |At(points, path)| == Counted(files[path])
  {
    assert PointsAgreeAt(s, tree, points, path) && FilesAgreeAt(s, tree, files, path);
    var chunks := s.chunk(path, tree[path].content);
    var ref :| At(points, path) == Rows(ref, path, tree[path].sha, chunks);
    RowsAre(ref, path, tree[path].sha, chunks);
  }

  // ---------------------------------------------------------------- what the operations do

  /** The manifest of a full index. */
  ghost function FullFiles(s: Settings, tree: Tree): Files {
    map path | path in tree && FullyIndexed(s, tree, path) ::
      ManifestFile(tree[path].sha, Some(|s.chunk(path, tree[path].content)|))
  }

  function ShouldIndex(s: Settings, tree: Tree, path: string): bool
    requires path in tree
  {
    s.indexable(path) && !(tree[path].size.Some? && tree[path].size.value > s.maxFileBytes)
  }

  function Candidates(s: Settings, tree: Tree): set<string> { set path | path in tree && ShouldIndex(s, tree, path) }

  ghost predicate FullIndexed(cfg: Config, s: State, tree: Tree, ref: string, sha: string, s': State, r: Result) {
    var settings := SettingsOf(cfg, tree);
    if settings.None? then s' == s && r == InvalidConfig
    else if cfg.filesQuota.Some? && |Candidates(settings.value, tree)| > cfg.filesQuota.value then s' == s && r == FilesQuotaExceeded
    else if cfg.chunksQuota.Some? && Sum(FullFiles(settings.value, tree)) > cfg.chunksQuota.value then
      && s'.manifest == s.manifest && r == ChunksQuotaExceeded
      && forall id :: id in s'.points ==> id.ref == sha && FullyIndexed(settings.value, tree, id.path)
    else
      && r == Ready(Sum(FullFiles(settings.value, tree)), sha)
      && s'.manifest == Some(Manifest(FullFiles(settings.value, tree), settings.value.fingerprint, ref, sha))
      && PointsAgree(settings.value, tree, s'.points)
      && forall id :: id in s'.points ==> id.ref == sha
  }

  predicate AllZero(sha: string) { |sha| > 0 && forall k :: 0 <= k < |sha| ==> sha[k] == '0' }

  function BranchNameFromRef(ref: string): Option<string> {
    if "refs/heads/" <= ref && |ref| > |"refs/heads/"| then Some(ref[|"refs/heads/"|..]) else None
  }

  predicate ShouldFallbackToFullIndex(push: Push) {
    if push.created || push.forced || AllZero(push.before) then true
    else if push.deleted then false
    else BranchNameFromRef(push.ref) != Some(push.defaultBranch)
  }

  predicate ChangesRepoConfig(cf: ChangedFile) {
    cf.filename == REPO_CONFIG_PATH || cf.previousFilename == Some(REPO_CONFIG_PATH)
  }

  predicate TooManyOrConfig(cfg: Config, changed: seq<ChangedFile>) {
    || |changed| > cfg.maxChangedFiles || |changed| >= GITHUB_COMPARE_FILES_CAP
    || exists i :: 0 <= i < |changed| && ChangesRepoConfig(changed[i])
  }

  /** The push is answered with a full index of the tree at `after`. */
  ghost predicate FallsBack(cfg: Config, manifest: Option<Manifest>, push: Push) {
    || ShouldFallbackToFullIndex(push)
    || manifest.None?
    || (&& SettingsOf(cfg, push.tree).Some?
        && (manifest.value.fingerprint != SettingsOf(cfg, push.tree).value.fingerprint || TooManyOrConfig(cfg, push.changed)))
  }

  predicate AllCounted(files: Files) { forall path :: path in files ==> files[path].chunkCount.Some? }

  ghost function InitialCount(s: State): nat
    requires s.manifest.Some?
  {
    if AllCounted(s.manifest.value.files) then Sum(s.manifest.value.files) else |s.points|
  }

  ghost predicate Incremental(cfg: Config, settings: Settings, s: State, push: Push, s': State, r: Result)
    requires s.manifest.Some?
  {
    var files := s.manifest.value.files;
    if cfg.filesQuota.Some? && |Projected(settings, push.after, files, push.changed)| > cfg.filesQuota.value then
      s' == s && r == FilesQuotaExceeded
    else
      var env := Env(settings, push.tree, push.after, cfg.chunksQuota);
      match Run(env, Progress(s.points, files, InitialCount(s)), push.changed)
      case ChunkQuota(points) => s' == State(points, s.manifest) && r == ChunksQuotaExceeded
      case Continue(q) =>
        && s' == State(q.points, Some(Manifest(q.files, settings.fingerprint, push.ref, push.after)))
        && r == Ready(|q.points|, push.after)
  }

  /** What one push does to the repository's state. */
  ghost predicate Pushed(cfg: Config, s: State, push: Push, s': State, r: Result) {
    var settings := SettingsOf(cfg, push.tree);
    if FallsBack(cfg, s.manifest, push) then
      FullIndexed(cfg, s, push.tree, push.defaultBranch, push.after, s', r)
    else if settings.None? then s' == s && r == InvalidConfig
    else Incremental(cfg, settings.value, s, push, s', r)
  }

  // ---------------------------------------------------------------- the operations

  datatype Applied = Nothing | Indexed(file: ManifestFile, chunkCount: nat) | QuotaStop

  class RepoIndexer {
    const cfg: Config
    var points: Points
    var manifest: Option<Manifest>

    constructor (cfg: Config, points: Points, manifest: Option<Manifest>)
      ensures this.cfg == cfg && this.points == points && this.manifest == manifest
    {
      this.cfg := cfg;
      this.points := points;
      this.manifest := manifest;
    }

    function Now(): State
      reads this
    {
      State(points, manifest)
    }

    method UpsertChunks(ref: string, path: string, blobSha: string, chunks: seq<Chunker.Chunk>)
      modifies this`points
      ensures points == old(points) + Rows(ref, path, blobSha, chunks)
    {
      var i := 0;
      assert chunks[..0] == [];
      while i < |chunks|
        invariant 0 <= i <= |chunks|
        invariant points == old(points) + Rows(ref, path, blobSha, chunks[..i])
      {
        var c := chunks[i];
        assert chunks[..i + 1][..i] == chunks[..i] && chunks[..i + 1][i] == c;
        points := points[Id(ref, path, blobSha, c.chunkIndex) := Payload(c.startLine, c.endLine, c.text)];
        i := i + 1;
      }
      assert chunks[..|chunks|] == chunks;
    }

    method IndexSingleFile(env: Env, cf: ChangedFile, currentChunkCount: nat) returns (r: Applied)
      requires !Removes(cf)
      modifies this`points
      ensures match PrepareChanged(env, cf)
              case None => r == Nothing && points == old(points)
              case Some(x) =>
                if env.chunkQuota.Some? && currentChunkCount + |x.chunks| > env.chunkQuota.value then r == QuotaStop && points == old(points)
                else
                  && r == Indexed(x.file, |x.chunks|)
                  && points == old(points) + Rows(env.after, cf.filename, x.file.blobSha, x.chunks)
    {
      var blobSha := if cf.sha.Some? then cf.sha.value else env.after;
      var prepared := Prepare(env.settings, cf.filename, blobSha, ContentAt(env.tree, cf.filename));
      if prepared.None? {
        return Nothing;
      }
      if OverQuota(env.chunkQuota, currentChunkCount + |prepared.value.chunks|) {
        return QuotaStop;
      }
      UpsertChunks(env.after, cf.filename, prepared.value.file.blobSha, prepared.value.chunks);
      r := Indexed(prepared.value.file, |prepared.value.chunks|);
    }

    method ApplyChangedFile(env: Env, cf: ChangedFile, currentChunkCount: nat) returns (r: Applied)
      modifies this`points
      ensures match PrepareChanged(env, cf)
              case None => r == Nothing && points == DeletedFor(old(points), cf)
              case Some(x) =>
                if env.chunkQuota.Some? && currentChunkCount + |x.chunks| > env.chunkQuota.value then
                  r == QuotaStop && points == DeletedFor(old(points), cf)
                else
                  && r == Indexed(x.file, |x.chunks|)
                  && points == DeletedFor(old(points), cf) + Rows(env.after, cf.filename, x.file.blobSha, x.chunks)
    {
      if HasPrevious(cf) {
        points := DeletePath(points, cf.previousFilename.value);
      }
      if Removes(cf) {
        points := DeletePath(points, cf.filename);
        return Nothing;
      }
      points := DeletePath(points, cf.filename);
      r := IndexSingleFile(env, cf, currentChunkCount);
    }

    method CurrentManifestChunkCount(m: Manifest) returns (count: nat)
      ensures count == if AllCounted(m.files) then Sum(m.files) else |points|
    {
      if !AllCounted(m.files) {
        return |points|;
      }
      count := 0;
      var rest := m.files;
      while rest != map[]
        invariant count + Sum(rest) == Sum(m.files)
        decreases |rest|
      {
        var path :| path in rest;
        SumRemove(rest, path);
        count := count + Counted(rest[path]);
        rest := rest - {path};
      }
    }

    method ProjectFiles(settings: Settings, after: string, files: Files, changed: seq<ChangedFile>) returns (projected: Files)
      ensures projected == Projected(settings, after, files, changed)
    {
      projected := files;
      for i := 0 to |changed|
        invariant Projected(settings, after, projected, changed[i..]) == Projected(settings, after, files, changed)
      {
        var cf := changed[i];
        assert changed[i..][1..] == changed[i + 1..];
        if HasPrevious(cf) {
          projected := projected - {cf.previousFilename.value};
        }
        projected := projected - {cf.filename};
        if !Removes(cf) && settings.indexable(cf.filename) {
          projected := projected[cf.filename := ManifestFile(if cf.sha.Some? then cf.sha.value else after, None)];
        }
      }
    }

    method FullIndex(tree: Tree, ref: string, sha: string) returns (r: Result)
      modifies this
      ensures FullIndexed(cfg, old(Now()), tree, ref, sha, Now(), r)
    {
      var settings := SettingsOf(cfg, tree);
      if settings.None? {
        return InvalidConfig;
      }
      var s := settings.value;
      var candidates := Candidates(s, tree);
      if OverQuota(cfg.filesQuota, |candidates|) {
        return FilesQuotaExceeded;
      }
      r := IndexCandidates(tree, s, ref, sha);
    }

    /** Whole files, in any order: the workers of the pool take them as they come. */
    method IndexCandidates(tree: Tree, s: Settings, ref: string, sha: string) returns (r: Result)
      requires SettingsOf(cfg, tree) == Some(s) && (cfg.filesQuota.Some? ==> |Candidates(s, tree)| <= cfg.filesQuota.value)
      modifies this
      ensures FullIndexed(cfg, old(Now()), tree, ref, sha, Now(), r)
    {
      hide FullFiles, Sum, FullRows, PointsDone, FilesDone, Rows, Prepare, PointsAgree, FullyIndexed, FullIndexed;
      ghost var start := Now();
      var candidates := Candidates(s, tree);
      var files: Files := map[];
      var chunkCount: nat := 0;
      var rest := candidates;
      points := map[];
      NothingDone(s, tree, sha);
      assert candidates - rest == {};
      while rest != {}
        invariant rest <= candidates
        invariant manifest == old(manifest)
        invariant PointsDone(s, tree, candidates - rest, sha, points)
        invariant FilesDone(s, tree, candidates - rest, files)
        invariant chunkCount == Sum(files) && (cfg.chunksQuota.Some? ==> chunkCount <= cfg.chunksQuota.value)
        decreases |rest|
      {
        var path :| path in rest;
        var prepared := Prepare(s, path, tree[path].sha, ContentAt(tree, path));
        ghost var done := candidates - rest;
        PreparedIsFull(s, tree, sha, path);
        NextPoints(s, tree, done, sha, points, path);
        NextFiles(s, tree, done, files, path);
        rest := rest - {path};
        assert candidates - rest == done + {path};
        if prepared.Some? {
          if OverQuota(cfg.chunksQuota, chunkCount + |prepared.value.chunks|) {
            DonePointsIndexed(s, tree, done, sha, points);
            FullStops(cfg, s, start, tree, ref, sha, points);
            return ChunksQuotaExceeded;
          }
          files := files[path := prepared.value.file];
          chunkCount := chunkCount + |prepared.value.chunks|;
          UpsertChunks(sha, path, prepared.value.file.blobSha, prepared.value.chunks);
        } else {
          assert points + map[] == points;
        }
      }
      assert candidates - rest == candidates;
      WholeIndexed(s, tree, sha, points, files);
      DonePointsIndexed(s, tree, candidates, sha, points);
      FullDone(cfg, s, start, tree, ref, sha, points);
      manifest := Some(Manifest(files, s.fingerprint, ref, sha));
      r := Ready(chunkCount, sha);
    }

    method IncrementalPush(push: Push) returns (r: Result)
      requires !ShouldFallbackToFullIndex(push)
      modifies this
      ensures Pushed(cfg, old(Now()), push, Now(), r)
    {
      if manifest.None? {
        r := FullIndex(push.tree, push.defaultBranch, push.after);
        return;
      }
      var current := manifest.value;
      var settings := SettingsOf(cfg, push.tree);
      if settings.None? {
        return InvalidConfig;
      }
      var s := settings.value;
      if current.fingerprint != s.fingerprint {
        r := FullIndex(push.tree, push.defaultBranch, push.after);
        return;
      }
      if TooManyOrConfig(cfg, push.changed) {
        r := FullIndex(push.tree, push.defaultBranch, push.after);
        return;
      }
      r := ApplyChanges(s, current, push);
    }

    method ApplyChanges(s: Settings, current: Manifest, push: Push) returns (r: Result)
      requires manifest == Some(current)
      modifies this
      ensures Incremental(cfg, s, old(Now()), push, Now(), r)
    {
      hide Incremental, Projected, Step, Sum, AllCounted;
      var changed, filesByPath := push.changed, current.files;
      var projected := ProjectFiles(s, push.after, filesByPath, changed);
      if OverQuota(cfg.filesQuota, |projected|) {
        RejectedHere(cfg, s, Now(), push);
        return FilesQuotaExceeded;
      }
      var env := Env(s, push.tree, push.after, cfg.chunksQuota);
      var currentChunkCount: nat := CurrentManifestChunkCount(current);
      ghost var start := Progress(points, filesByPath, currentChunkCount);
      for i := 0 to |changed|
        invariant manifest == old(manifest)
        invariant Run(env, Progress(points, filesByPath, currentChunkCount), changed[i..]) == Run(env, start, changed)
      {
        var stop;
        assert changed[i..][0] == changed[i] && changed[i..][1..] == changed[i + 1..];
        stop, filesByPath, currentChunkCount := ApplyEntry(env, changed[i], filesByPath, currentChunkCount);
        if stop {
          StoppedHere(cfg, s, State(start.points, Some(current)), push, env, start, State(points, manifest));
          return ChunksQuotaExceeded;
        }
      }
      assert changed[|changed|..] == [];
      FinishedHere(cfg, s, State(start.points, Some(current)), push, env, start, Progress(points, filesByPath, currentChunkCount));
      manifest := Some(Manifest(filesByPath, s.fingerprint, push.ref, push.after));
      r := Ready(|points|, push.after);
    }

    /** One turn of the push loop. */
    method ApplyEntry(env: Env, cf: ChangedFile, files: Files, count: nat)
      returns (stop: bool, filesByPath: Files, currentChunkCount: nat)
      modifies this`points
      ensures match Step(env, Progress(old(points), files, count), cf)
              case Continue(q) => !stop && Progress(points, filesByPath, currentChunkCount) == q
              case ChunkQuota(left) => stop && points == left
    {
      hide DeletePath, Rows, PrepareChanged, Subtract;
      stop, filesByPath, currentChunkCount := false, files, count;
      if HasPrevious(cf) {
        currentChunkCount := Subtract(currentChunkCount, filesByPath, cf.previousFilename.value);
        filesByPath := filesByPath - {cf.previousFilename.value};
      }
      currentChunkCount := Subtract(currentChunkCount, filesByPath, cf.filename);
      filesByPath := filesByPath - {cf.filename};
      var applied := ApplyChangedFile(env, cf, currentChunkCount);
      if applied.QuotaStop? {
        stop := true;
      } else if applied.Indexed? {
        filesByPath := filesByPath[cf.filename := applied.file];
        currentChunkCount := currentChunkCount + applied.chunkCount;
      }
    }

    /** A push job. */
    method ProcessPush(push: Push) returns (r: Result)
      modifies this
      ensures Pushed(cfg, old(Now()), push, Now(), r)
    {
      if ShouldFallbackToFullIndex(push) {
        r := FullIndex(push.tree, push.defaultBranch, push.after);
        return;
      }
      r := IncrementalPush(push);
    }
  }

  lemma FullStops(cfg: Config, settings: Settings, s: State, tree: Tree, ref: string, sha: string, points: Points)
    requires SettingsOf(cfg, tree) == Some(settings)
    requires cfg.filesQuota.Some? ==> |Candidates(settings, tree)| <= cfg.filesQuota.value
    requires cfg.chunksQuota.Some? && Sum(FullFiles(settings, tree)) > cfg.chunksQuota.value
    requires forall id :: id in points ==> id.ref == sha && FullyIndexed(settings, tree, id.path)
    ensures FullIndexed(cfg, s, tree, ref, sha, State(points, s.manifest), ChunksQuotaExceeded)
  {}

  lemma FullDone(cfg: Config, settings: Settings, s: State, tree: Tree, ref: string, sha: string, points: Points)
    requires SettingsOf(cfg, tree) == Some(settings)
    requires cfg.filesQuota.Some? ==> |Candidates(settings, tree)| <= cfg.filesQuota.value
    requires cfg.chunksQuota.Some? ==> Sum(FullFiles(settings, tree)) <= cfg.chunksQuota.value
    requires PointsAgree(settings, tree, points) && forall id :: id in points ==> id.ref == sha
    ensures FullIndexed(cfg, s, tree, ref, sha,
                        State(points, Some(Manifest(FullFiles(settings, tree), settings.fingerprint, ref, sha))),
                        Ready(Sum(FullFiles(settings, tree)), sha))
  {}

  lemma RejectedHere(cfg: Config, settings: Settings, s: State, push: Push)
    requires s.manifest.Some?
    requires cfg.filesQuota.Some? && |Projected(settings, push.after, s.manifest.value.files, push.changed)| > cfg.filesQuota.value
    ensures Incremental(cfg, settings, s, push, s, FilesQuotaExceeded)
  {}

  lemma StoppedHere(cfg: Config, settings: Settings, s: State, push: Push, env: Env, start: Progress, s': State)
    requires s.manifest.Some?
    requires env == Env(settings, push.tree, push.after, cfg.chunksQuota)
    requires start == Progress(s.points, s.manifest.value.files, InitialCount(s))
    requires cfg.filesQuota.Some? ==> |Projected(settings, push.after, s.manifest.value.files, push.changed)| <= cfg.filesQuota.value
    requires Run(env, start, push.changed) == ChunkQuota(s'.points) && s'.manifest == s.manifest
    ensures Incremental(cfg, settings, s, push, s', ChunksQuotaExceeded)
  {}

  lemma FinishedHere(cfg: Config, settings: Settings, s: State, push: Push, env: Env, start: Progress, q: Progress)
    requires s.manifest.Some?
    requires env == Env(settings, push.tree, push.after, cfg.chunksQuota)
    requires start == Progress(s.points, s.manifest.value.files, InitialCount(s))
    requires cfg.filesQuota.Some? ==> |Projected(settings, push.after, s.manifest.value.files, push.changed)| <= cfg.filesQuota.value
    requires Run(env, start, push.changed) == Continue(q)
    ensures Incremental(cfg, settings, s, push,
                        State(q.points, Some(Manifest(q.files, settings.fingerprint, push.ref, push.after))),
                        Ready(|q.points|, push.after))
  {}

  // ---------------------------------------------------------------- the loop of the full index

  ghost function FullRows(s: Settings, tree: Tree, sha: string, path: string): Points {
    if FullyIndexed(s, tree, path) then Rows(sha, path, tree[path].sha, s.chunk(path, tree[path].content)) else map[]
  }

  /** The collection holds exactly the files done so far. */
  ghost predicate PointsDone(s: Settings, tree: Tree, done: set<string>, sha: string, points: Points) {
    forall path :: At(points, path) == if path in done then FullRows(s, tree, sha, path) else map[]
  }

  /** And so does the manifest. */
  ghost predicate FilesDone(s: Settings, tree: Tree, done: set<string>, files: Files) {
    files == map path | path in FullFiles(s, tree) && path in done :: FullFiles(s, tree)[path]
  }

  lemma NothingDone(s: Settings, tree: Tree, sha: string)
    ensures PointsDone(s, tree, {}, sha, map[]) && FilesDone(s, tree, {}, map[]) && Sum(map[]) == 0
  {}

  lemma DonePointsIndexed(s: Settings, tree: Tree, done: set<string>, sha: string, points: Points)
    requires PointsDone(s, tree, done, sha, points)
    ensures forall id :: id in points ==> id.ref == sha && FullyIndexed(s, tree, id.path)
  {
    forall id | id in points ensures id.ref == sha && FullyIndexed(s, tree, id.path) {
      assert id in At(points, id.path);
      if FullyIndexed(s, tree, id.path) {
        RowsPath(sha, id.path, tree[id.path].sha, s.chunk(id.path, tree[id.path].content));
      }
    }
  }

  lemma NextPoints(s: Settings, tree: Tree, done: set<string>, sha: string, points: Points, path: string)
    requires PointsDone(s, tree, done, sha, points) && path !in done
    ensures PointsDone(s, tree, done + {path}, sha, points + FullRows(s, tree, sha, path))
  {
    var rows := FullRows(s, tree, sha, path);
    if FullyIndexed(s, tree, path) {
      RowsPath(sha, path, tree[path].sha, s.chunk(path, tree[path].content));
    }
    hide FullRows, At;
    assert At(points, path) == map[];
    forall q ensures At(points + rows, q) == if q in done + {path} then FullRows(s, tree, sha, q) else map[] {
      RowsAt(points, rows, path, q);
    }
  }

  /** Reading and cutting a candidate is indexing it fully. */
  lemma PreparedIsFull(s: Settings, tree: Tree, sha: string, path: string)
    requires path in tree && ShouldIndex(s, tree, path)
    ensures match Prepare(s, path, tree[path].sha, ContentAt(tree, path))
            case None => path !in FullFiles(s, tree) && FullRows(s, tree, sha, path) == map[]
            case Some(x) =>
              && path in FullFiles(s, tree) && FullFiles(s, tree)[path] == x.file && Counted(x.file) == |x.chunks|
              && FullRows(s, tree, sha, path) == Rows(sha, path, x.file.blobSha, x.chunks)
  {}

  lemma NextFiles(s: Settings, tree: Tree, done: set<string>, files: Files, path: string)
    requires FilesDone(s, tree, done, files) && path !in done
    ensures path !in files
    ensures path in FullFiles(s, tree) ==>
              && FilesDone(s, tree, done + {path}, files[path := FullFiles(s, tree)[path]])
              && Sum(files[path := FullFiles(s, tree)[path]]) == Sum(files) + Counted(FullFiles(s, tree)[path])
              && Sum(files[path := FullFiles(s, tree)[path]]) <= Sum(FullFiles(s, tree))
    ensures path !in FullFiles(s, tree) ==> FilesDone(s, tree, done + {path}, files)
  {
    hide FullFiles, Sum;
    if path in FullFiles(s, tree) {
      var next := files[path := FullFiles(s, tree)[path]];
      SumInsert(files, path, FullFiles(s, tree)[path]);
      SumMonotone(next, FullFiles(s, tree));
    }
  }

  lemma {:induction false} SumMonotone(part: Files, whole: Files)
    requires part.Keys <= whole.Keys && forall path :: path in part ==> part[path] == whole[path]
    ensures Sum(part) <= Sum(whole)
    decreases |part|
  {
    if part != map[] {
      var path :| path in part;
      SumRemove(part, path);
      SumRemove(whole, path);
      SumMonotone(part - {path}, whole - {path});
    }
  }

  lemma WholeIndexed(s: Settings, tree: Tree, sha: string, points: Points, files: Files)
    requires PointsDone(s, tree, Candidates(s, tree), sha, points) && FilesDone(s, tree, Candidates(s, tree), files)
    ensures files == FullFiles(s, tree) && PointsAgree(s, tree, points)
  {
    forall path ensures PointsAgreeAt(s, tree, points, path) {
      assert FullyIndexed(s, tree, path) ==> path in Candidates(s, tree);
      assert At(points, path) == FullRows(s, tree, sha, path);
    }
  }

  /** The manifest of a full index agrees with its tree. */
  lemma FullFilesAgree(s: Settings, tree: Tree)
    ensures FilesAgree(s, tree, FullFiles(s, tree))
  {
    forall path ensures FilesAgreeAt(s, tree, FullFiles(s, tree), path) {}
  }
}
