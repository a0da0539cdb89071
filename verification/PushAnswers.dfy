/**
 What a push and a full index answer, in numbers and literals: when a quota stops them, when
 a push is answered with a full index, and under which ids an indexed file is stored.
 */
module PushAnswers {
  import opened Paths
  import opened RepoModel
  import opened RepoAgreement
  import opened RepoIndexer
  import Chunker
  import PrefixScan

  // ---------------------------------------------------------------- where a run stops

  /** The manifest without the paths the entry names. */
  function Without(files: Files, cf: ChangedFile): Files {
    map path | path in files && path != cf.filename && !(cf.previousFilename == Some(path) && path != "") :: files[path]
  }

  /** What the manifest would be before entry `i`, had nothing stopped the run. */
  function Unstopped(env: Env, p: Progress, cs: seq<ChangedFile>, i: nat): Files
    requires i <= |cs|
  {
    NoQuotaContinues(env.(chunkQuota := None), p, cs[..i]);
    Run(env.(chunkQuota := None), p, cs[..i]).p.files
  }

  /** Entry `i` indexes a file whose chunks, with those of the files it leaves, are more than the quota. */
  ghost predicate Overflows(env: Env, p: Progress, cs: seq<ChangedFile>, i: nat)
    requires i < |cs| && env.chunkQuota.Some?
  {
    && PrepareChanged(env, cs[i]).Some?
    && Sum(Without(Unstopped(env, p, cs, i), cs[i])) + |PrepareChanged(env, cs[i]).value.chunks| > env.chunkQuota.value
  }

  lemma WithoutIs(files: Files, cf: ChangedFile)
    ensures Without(files, cf) == FilesFor(files, cf)
  {}

  lemma OverflowsFirst(env: Env, p: Progress, cs: seq<ChangedFile>)
    requires p.count == Sum(p.files) && |cs| > 0
    ensures Step(env, p, cs[0]).ChunkQuota? <==> env.chunkQuota.Some? && Overflows(env, p, cs, 0)
    ensures Step(env, p, cs[0]).Continue? ==> Step(env.(chunkQuota := None), p, cs[0]) == Step(env, p, cs[0])
  {
    hide Sum, CountFor, FilesFor, DeletedFor, Rows;
    assert cs[..0] == [];
    CountForIsSum(p.files, cs[0]);
    WithoutIs(p.files, cs[0]);
    assert PrepareChanged(env.(chunkQuota := None), cs[0]) == PrepareChanged(env, cs[0]);
  }

  lemma OverflowsLater(env: Env, p: Progress, cs: seq<ChangedFile>, i: nat)
    requires i + 1 < |cs| && env.chunkQuota.Some? && Step(env, p, cs[0]).Continue?
    requires Step(env, p, cs[0]) == Step(env.(chunkQuota := None), p, cs[0])
    ensures Overflows(env, p, cs, i + 1) <==> Overflows(env, Step(env, p, cs[0]).p, cs[1..], i)
  {
    hide Sum, Step, Without, PrepareChanged;
    assert cs[..i + 1][0] == cs[0] && cs[..i + 1][1..] == cs[1..][..i] && cs[1..][i] == cs[i + 1];
  }

  /**
   With exact counts, the chunk quota stops a run exactly when some entry overflows it, in
   a manifest that no quota has cut short.
   */
  lemma {:induction false} RunStopsIff(env: Env, p: Progress, cs: seq<ChangedFile>)
    requires p.count == Sum(p.files)
    ensures Run(env, p, cs).ChunkQuota? <==>
            env.chunkQuota.Some? && exists i :: 0 <= i < |cs| && Overflows(env, p, cs, i)
    decreases |cs|
  {
    hide Sum, Step, Overflows;
    if cs != [] {
      OverflowsFirst(env, p, cs);
      if Step(env, p, cs[0]).Continue? {
        var q := Step(env, p, cs[0]).p;
        StepCounts(env, p, cs[0]);
        RunStopsIff(env, q, cs[1..]);
        if env.chunkQuota.Some? {
          forall i | 0 <= i < |cs| - 1 ensures Overflows(env, p, cs, i + 1) <==> Overflows(env, q, cs[1..], i) {
            OverflowsLater(env, p, cs, i);
          }
          if i :| 0 <= i < |cs| && Overflows(env, p, cs, i) {
            assert i > 0;
            assert Overflows(env, q, cs[1..], i - 1);
          }
          if i :| 0 <= i < |cs[1..]| && Overflows(env, q, cs[1..], i) {
            assert Overflows(env, p, cs, i + 1);
          }
        }
      }
    }
  }

  /**
   The projection of the file quota, entry by entry: a path is counted when no entry names
   it and the manifest has it, or when the last entry that names it is its own, is no
   removal, and the path is indexable.
   */
  lemma {:induction false} ProjectedDecides(s: Settings, after: string, files: Files, cs: seq<ChangedFile>, path: string)
    ensures var last := LastMention(cs, path);
            path in Projected(s, after, files, cs) <==>
            if last.None? then path in files
            else last.value.filename == path && !Removes(last.value) && s.indexable(path)
    decreases |cs|
  {
    if cs != [] {
      hide Removes;
      ProjectedDecides(s, after, ProjectOne(s, after, files, cs[0]), cs[1..], path);
    }
  }

  // ---------------------------------------------------------------- the answers

  /** The files a full index would read. */
  ghost function Readable(s: Settings, tree: Tree): set<string> {
    set path | path in tree && s.indexable(path) && (tree[path].size == None || tree[path].size.value <= s.maxFileBytes)
  }

  /** The files it indexes, with the number of their chunks. */
  ghost function ChunkCounts(s: Settings, tree: Tree): Files {
    map path | path in Readable(s, tree) && |s.chunk(path, tree[path].content)| > 0 ::
      ManifestFile(tree[path].sha, Some(|s.chunk(path, tree[path].content)|))
  }

  ghost predicate TooMany(quota: Option<nat>, n: int) { exists limit :: quota == Some(limit) && n > limit }

  /** A full index answers by these numbers, in this order. */
  lemma FullIndexAnswers(cfg: Config, s: State, tree: Tree, ref: string, sha: string, s': State, r: Result)
    requires FullIndexed(cfg, s, tree, ref, sha, s', r)
    ensures var settings := cfg.settingsFor(if ".ydb-qdrant-code-indexer.json" in tree
                                            then Some(tree[".ydb-qdrant-code-indexer.json"].content) else None);
            && (r.InvalidConfig? <==> settings == None)
            && (r.FilesQuotaExceeded? <==> settings.Some? && TooMany(cfg.filesQuota, |Readable(settings.value, tree)|))
            && (r.ChunksQuotaExceeded? <==>
                  && settings.Some? && !TooMany(cfg.filesQuota, |Readable(settings.value, tree)|)
                  && TooMany(cfg.chunksQuota, Sum(ChunkCounts(settings.value, tree))))
            && (r.Ready? ==> r == Ready(Sum(ChunkCounts(settings.value, tree)), sha)
                             && s'.manifest == Some(Manifest(ChunkCounts(settings.value, tree), settings.value.fingerprint, ref, sha)))
            && (!r.Ready? ==> s'.manifest == s.manifest)
  {
    hide Sum;
    if SettingsOf(cfg, tree).Some? {
      var settings := SettingsOf(cfg, tree).value;
      assert Readable(settings, tree) == Candidates(settings, tree);
      assert ChunkCounts(settings, tree) == FullFiles(settings, tree);
    }
  }

  /** And the files counted are those of the answer: quotas bound the collection too. */
  lemma FullIndexWithinQuota(cfg: Config, s: State, tree: Tree, ref: string, sha: string, s': State, r: Result)
    requires FullIndexed(cfg, s, tree, ref, sha, s', r) && r.Ready?
    requires WellChunked(SettingsOf(cfg, tree).value)
    ensures cfg.chunksQuota.Some? ==> |s'.points| <= cfg.chunksQuota.value
    ensures cfg.filesQuota.Some? ==> |s'.manifest.value.files| <= cfg.filesQuota.value
    ensures |s'.points| == r.chunkCount
  {
    hide Sum, WellChunked, PointsAgree, FilesAgree;
    var settings := SettingsOf(cfg, tree).value;
    FullFilesAgree(settings, tree);
    AgreementCounts(settings, tree, s'.points, FullFiles(settings, tree));
    SubsetSize(FullFiles(settings, tree).Keys, Candidates(settings, tree));
    assert |FullFiles(settings, tree)| == |FullFiles(settings, tree).Keys|;
  }

  /** The push asks for a full index: what GitHub says of it, the manifest, or its diff. */
  ghost predicate AsksForFull(cfg: Config, manifest: Option<Manifest>, push: Push) {
    || push.created || push.forced
    || (push.before != "" && forall c :: c in push.before ==> c == '0')
    || (!push.deleted && !(push.defaultBranch != "" && push.ref == "refs/heads/" + push.defaultBranch))
    || manifest == None
    || exists settings :: SettingsOf(cfg, push.tree) == Some(settings)
         && (|| manifest.value.fingerprint != settings.fingerprint
             || |push.changed| > cfg.maxChangedFiles || |push.changed| >= 300
             || exists cf :: cf in push.changed && NamesConfig(cf))
  }

  predicate NamesConfig(cf: ChangedFile) {
    cf.filename == ".ydb-qdrant-code-indexer.json" || cf.previousFilename == Some(".ydb-qdrant-code-indexer.json")
  }

  lemma BranchIs(ref: string, branch: string)
    ensures BranchNameFromRef(ref) == Some(branch) <==> branch != "" && ref == "refs/heads/" + branch
  {
    if branch != "" && ref == "refs/heads/" + branch {
      assert ref[|"refs/heads/"|..] == branch;
    }
    if "refs/heads/" <= ref {
      assert ref == "refs/heads/" + ref[|"refs/heads/"|..];
    }
  }

  lemma ZerosOnly(sha: string)
    ensures AllZero(sha) <==> sha != "" && forall c :: c in sha ==> c == '0'
  {
    if sha != "" && forall c :: c in sha ==> c == '0' {
      forall k | 0 <= k < |sha| ensures sha[k] == '0' {
        assert sha[k] in sha;
      }
    }
  }

  lemma FallsBackIff(cfg: Config, manifest: Option<Manifest>, push: Push)
    ensures FallsBack(cfg, manifest, push) <==> AsksForFull(cfg, manifest, push)
  {
    BranchIs(push.ref, push.defaultBranch);
    hide BranchNameFromRef;
    ZerosOnly(push.before);
    hide AllZero;
    assert (exists i :: 0 <= i < |push.changed| && ChangesRepoConfig(push.changed[i]))
           <==> (exists cf :: cf in push.changed && NamesConfig(cf)) by {
      if i :| 0 <= i < |push.changed| && ChangesRepoConfig(push.changed[i]) {
        assert NamesConfig(push.changed[i]);
      }
      if cf :| cf in push.changed && NamesConfig(cf) {
        assert ChangesRepoConfig(cf);
      }
    }
  }

  /**
   A push is a full index exactly when it asks for one; otherwise its answers, too, go by
   the numbers.
   */
  lemma PushAnswers(cfg: Config, s: State, push: Push, s': State, r: Result)
    requires Pushed(cfg, s, push, s', r)
    ensures AsksForFull(cfg, s.manifest, push) ==> FullIndexed(cfg, s, push.tree, push.defaultBranch, push.after, s', r)
    ensures !AsksForFull(cfg, s.manifest, push) ==>
              && s.manifest.Some?
              && (r.InvalidConfig? <==> SettingsOf(cfg, push.tree) == None)
              && (r.InvalidConfig? || r.FilesQuotaExceeded? ==> s' == s)
              && (r.FilesQuotaExceeded? <==> SettingsOf(cfg, push.tree).Some? && TooMany(cfg.filesQuota, ProjectedCount(cfg, s, push)))
              && (r.Ready? ==> r == Ready(|s'.points|, push.after) && s'.manifest.Some?
                               && s'.manifest.value.sha == push.after && s'.manifest.value.ref == push.ref
                               && Some(s'.manifest.value.fingerprint) == Fingerprint(SettingsOf(cfg, push.tree)))
              && (!r.Ready? ==> s'.manifest == s.manifest)
  {
    hide FullIndexed, Projected, Run, AsksForFull, Sum;
    FallsBackIff(cfg, s.manifest, push);
    assert s.manifest == None ==> FallsBack(cfg, s.manifest, push);
    hide FallsBack;
  }

  function Fingerprint(settings: Option<Settings>): Option<string> {
    if settings.Some? then Some(settings.value.fingerprint) else None
  }

  ghost function ProjectedCount(cfg: Config, s: State, push: Push): nat
    requires s.manifest.Some? && SettingsOf(cfg, push.tree).Some?
  {
    |Projected(SettingsOf(cfg, push.tree).value, push.after, s.manifest.value.files, push.changed)|
  }

  /**
   The count a push starts from is the sum over the manifest where every entry has its
   count, and the number of stored points where one has none.
   */
  lemma CountsFrom(cfg: Config, s: State, push: Push, s': State, r: Result, n: nat)
    requires Pushed(cfg, s, push, s', r) && !AsksForFull(cfg, s.manifest, push)
    requires s.manifest.Some? && (r.ChunksQuotaExceeded? || r.Ready?)
    requires if exists path :: path in s.manifest.value.files && s.manifest.value.files[path].chunkCount == None
             then n == |s.points| else n == Sum(s.manifest.value.files)
    ensures SettingsOf(cfg, push.tree).Some?
    ensures var env := Env(SettingsOf(cfg, push.tree).value, push.tree, push.after, cfg.chunksQuota);
            r.ChunksQuotaExceeded? <==> Run(env, Progress(s.points, s.manifest.value.files, n), push.changed).ChunkQuota?
  {
    hide Projected, Run, AsksForFull, Sum;
    FallsBackIff(cfg, s.manifest, push);
    hide FallsBack;
  }

  /** From a state whose chunks are counted, the chunk quota refuses a push exactly when an entry overflows it. */
  lemma ChunksQuotaIff(cfg: Config, s: State, push: Push, s': State, r: Result)
    requires Pushed(cfg, s, push, s', r) && !AsksForFull(cfg, s.manifest, push)
    requires s.manifest.Some? && (AllCounted(s.manifest.value.files) || |s.points| == Sum(s.manifest.value.files))
    ensures SettingsOf(cfg, push.tree).Some? ==>
              var files := s.manifest.value.files;
              var env := Env(SettingsOf(cfg, push.tree).value, push.tree, push.after, cfg.chunksQuota);
              (r.ChunksQuotaExceeded? <==>
                 && !TooMany(cfg.filesQuota, ProjectedCount(cfg, s, push)) && cfg.chunksQuota.Some?
                 && exists i :: 0 <= i < |push.changed| && Overflows(env, Progress(s.points, files, Sum(files)), push.changed, i))
  {
    hide Projected, Run, AsksForFull, Sum, Overflows, AllCounted;
    FallsBackIff(cfg, s.manifest, push);
    if SettingsOf(cfg, push.tree).Some? {
      var files := s.manifest.value.files;
      var env := Env(SettingsOf(cfg, push.tree).value, push.tree, push.after, cfg.chunksQuota);
      RunStopsIff(env, Progress(s.points, files, Sum(files)), push.changed);
    }
    hide FallsBack;
  }

  // ---------------------------------------------------------------- one entry

  /** The words of a status that mean removal, in any case, and those GitHub uses for the rest. */
  lemma StatusWords(cf: ChangedFile)
    ensures cf.status in ["removed", "deleted", "Removed", "DELETED"] ==> Removes(cf)
    ensures cf.status in ["added", "modified", "renamed", "copied", "changed", "unchanged", ""] ==> !Removes(cf)
  {
    var low := PrefixScan.Lowered(cf.status);
    if cf.status in ["removed", "Removed"] {
      assert low == "removed";
    } else if cf.status in ["deleted", "DELETED"] {
      assert low == "deleted";
    } else if cf.status in ["added", "modified", "renamed", "copied", "changed", "unchanged", ""] {
      assert |"removed"| == 7 && |"deleted"| == 7;
      assert |low| == 7 ==> low[0] == cf.status[0] && low[2] == cf.status[2];
      assert "removed"[0] == 'r' && "deleted"[0] == 'd' && "removed"[2] == 'm' && "deleted"[2] == 'l';
      assert "renamed"[2] == 'n' && "changed"[0] == 'c';
      assert |"added"| == 5 && |"modified"| == 8 && |"copied"| == 6 && |"unchanged"| == 9;
    }
  }

  /**
   An entry that indexes stores one point per chunk of its file, under the new commit's name
   and the entry's blob (the commit's name where it has none), and nothing else at that path.
   */
  lemma EntryIndexes(env: Env, p: Progress, cf: ChangedFile, id: Id)
    requires Step(env, p, cf).Continue? && WellChunked(env.settings)
    requires !Removes(cf) && PathSegmentsForPath(cf.filename) != [] && id.path == cf.filename
    ensures var q := Step(env, p, cf).p;
            var sha := if cf.sha.Some? then cf.sha.value else env.after;
            if env.settings.indexable(cf.filename) && cf.filename in env.tree then
              var chunks := env.settings.chunk(cf.filename, env.tree[cf.filename].content);
              && (id in q.points <==> id.ref == env.after && id.blobSha == sha && id.chunkIndex < |chunks|)
              && (id in q.points ==> q.points[id] == Payload(chunks[id.chunkIndex].startLine, chunks[id.chunkIndex].endLine, chunks[id.chunkIndex].text))
              && Entry(q.files, cf.filename) == if |chunks| > 0 then Some(ManifestFile(sha, Some(|chunks|))) else None
            else id !in q.points && cf.filename !in q.files
  {
    StepPoints(env, p, cf, cf.filename);
    StepFiles(env, p, cf, cf.filename);
    hide Step, Rows;
    var q := Step(env, p, cf).p;
    assert id in q.points <==> id in At(q.points, cf.filename);
    assert id in q.points ==> q.points[id] == At(q.points, cf.filename)[id];
    if env.settings.indexable(cf.filename) && cf.filename in env.tree {
      var chunks := env.settings.chunk(cf.filename, env.tree[cf.filename].content);
      RowsAre(env.after, cf.filename, if cf.sha.Some? then cf.sha.value else env.after, chunks);
    }
  }
}
