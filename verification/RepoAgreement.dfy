/**
 When a collection and a manifest agree with a full index of a tree, and when applying a
 diff one entry at a time brings them from agreeing with one tree to agreeing with the next.
 */
module RepoAgreement {
  import opened Paths
  import opened RepoModel
  import PrefixScan

  // ---------------------------------------------------------------- agreement

  /** A full index gives the file chunks: admitted by path and size, and not cut into nothing. */
  predicate FullyIndexed(s: Settings, tree: Tree, path: string) {
    && path in tree
    && s.indexable(path)
    && (tree[path].size.Some? ==> tree[path].size.value <= s.maxFileBytes)
    && |s.chunk(path, tree[path].content)| > 0
  }

  /** The points of the path are its chunks, once each, under one ref. */
  ghost predicate HoldsChunks(points: Points, path: string, s: Settings, blob: Blob) {
    exists ref :: At(points, path) == Rows(ref, path, blob.sha, s.chunk(path, blob.content))
  }

  ghost predicate PointsAgreeAt(s: Settings, tree: Tree, points: Points, path: string) {
    if FullyIndexed(s, tree, path) then HoldsChunks(points, path, s, tree[path]) else At(points, path) == map[]
  }

  ghost predicate FilesAgreeAt(s: Settings, tree: Tree, files: Files, path: string) {
    Entry(files, path) ==
    if FullyIndexed(s, tree, path) then
      Some(ManifestFile(tree[path].sha, Some(|s.chunk(path, tree[path].content)|)))
    else None
  }

  /** The collection is the one a full index of the tree leaves, refs aside. */
  ghost predicate PointsAgree(s: Settings, tree: Tree, points: Points) {
    forall path :: PointsAgreeAt(s, tree, points, path)
  }

  ghost predicate FilesAgree(s: Settings, tree: Tree, files: Files) {
    forall path :: FilesAgreeAt(s, tree, files, path)
  }

  /** The collection agrees wherever the entries do not reach. */
  ghost predicate UntouchedAgree(s: Settings, tree: Tree, points: Points, cs: seq<ChangedFile>) {
    forall path :: LastTouch(cs, path).None? ==> PointsAgreeAt(s, tree, points, path)
  }

  ghost predicate UnmentionedAgree(s: Settings, tree: Tree, files: Files, cs: seq<ChangedFile>) {
    forall path :: LastMention(cs, path).None? ==> FilesAgreeAt(s, tree, files, path)
  }

  // ---------------------------------------------------------------- what agreement determines

  datatype View = View(blobSha: string, chunkIndex: nat, payload: Payload)

  ghost function Views(points: Points, path: string): set<View> {
    set id | id in At(points, path) :: View(id.blobSha, id.chunkIndex, points[id])
  }

  lemma RowsViews(s: Settings, points: Points, path: string, ref: string, blob: Blob, v: View)
    requires WellChunked(s) && At(points, path) == Rows(ref, path, blob.sha, s.chunk(path, blob.content))
    ensures var chunks := s.chunk(path, blob.content);
            v in Views(points, path) <==>
            && v.blobSha == blob.sha && v.chunkIndex < |chunks|
            && v.payload == Payload(chunks[v.chunkIndex].startLine, chunks[v.chunkIndex].endLine, chunks[v.chunkIndex].text)
  {
    var chunks := s.chunk(path, blob.content);
    RowsAre(ref, path, blob.sha, chunks);
    if v.chunkIndex < |chunks| {
      var id := Id(ref, path, blob.sha, v.chunkIndex);
      assert id in At(points, path) && At(points, path)[id] == points[id];
    }
    if v in Views(points, path) {
      var id :| id in At(points, path) && v == View(id.blobSha, id.chunkIndex, points[id]);
      assert At(points, path)[id] == points[id];
    }
  }

  /** Two collections agreeing with one tree hold, for every path, the same chunks in as many points. */
  lemma AgreementDetermines(s: Settings, tree: Tree, a: Points, b: Points, fa: Files, fb: Files)
    requires WellChunked(s)
    requires PointsAgree(s, tree, a) && PointsAgree(s, tree, b) && FilesAgree(s, tree, fa) && FilesAgree(s, tree, fb)
    ensures fa == fb
    ensures forall path :: Views(a, path) == Views(b, path) && |At(a, path)| == |At(b, path)|
  {
    forall path ensures Entry(fa, path) == Entry(fb, path) {
      assert FilesAgreeAt(s, tree, fa, path) && FilesAgreeAt(s, tree, fb, path);
    }
    SameEntries(fa, fb);
    forall path ensures Views(a, path) == Views(b, path) && |At(a, path)| == |At(b, path)| {
      assert PointsAgreeAt(s, tree, a, path) && PointsAgreeAt(s, tree, b, path);
      if FullyIndexed(s, tree, path) {
        var blob := tree[path];
        var chunks := s.chunk(path, blob.content);
        var ra :| At(a, path) == Rows(ra, path, blob.sha, chunks);
        var rb :| At(b, path) == Rows(rb, path, blob.sha, chunks);
        RowsAre(ra, path, blob.sha, chunks);
        RowsAre(rb, path, blob.sha, chunks);
        forall v ensures v in Views(a, path) <==> v in Views(b, path) {
          RowsViews(s, a, path, ra, blob, v);
          RowsViews(s, b, path, rb, blob, v);
        }
      }
    }
  }

  lemma SameEntries(fa: Files, fb: Files)
    requires forall path :: Entry(fa, path) == Entry(fb, path)
    ensures fa == fb
  {
    forall path ensures path in fa <==> path in fb {
      assert Entry(fa, path) == Entry(fb, path);
    }
    forall path | path in fa ensures fa[path] == fb[path] {
      assert Entry(fa, path) == Entry(fb, path);
    }
  }

  // ---------------------------------------------------------------- diffs

  /** Entries that index name a file of the new tree and give its blob. */
  ghost predicate Sound(b: Tree, cs: seq<ChangedFile>) {
    forall i :: 0 <= i < |cs| && !Removes(cs[i]) ==>
                  && cs[i].filename in b && PathSegmentsForPath(cs[i].filename) != []
                  && cs[i].sha == Some(b[cs[i].filename].sha)
  }

  ghost predicate Reindexed(cs: seq<ChangedFile>, path: string) {
    exists i :: 0 <= i < |cs| && !Removes(cs[i]) && cs[i].filename == path
  }

  /** Every path on which the trees differ is named. */
  ghost predicate Covering(a: Tree, b: Tree, cs: seq<ChangedFile>) {
    && (forall path :: path in b && (path !in a || a[path] != b[path]) ==> Reindexed(cs, path))
    && (forall path :: path in a && path !in b ==> exists i :: 0 <= i < |cs| && Mentions(cs[i], path))
  }

  ghost predicate ProperPaths(tree: Tree) { forall path :: path in tree ==> PathSegmentsForPath(path) != [] }

  /** The entry indexes the path. */
  ghost predicate Indexes(s: Settings, b: Tree, cf: ChangedFile, path: string) {
    && !Removes(cf) && cf.filename == path && path in b
    && s.indexable(path) && |s.chunk(path, b[path].content)| > 0
  }

  /** The last entry that deletes a path indexes it exactly when a full index would. */
  ghost predicate LastTouchRight(s: Settings, b: Tree, cs: seq<ChangedFile>) {
    forall path :: LastTouch(cs, path).Some? ==>
                     (Indexes(s, b, LastTouch(cs, path).value, path) <==> FullyIndexed(s, b, path))
  }

  ghost predicate LastMentionRight(s: Settings, b: Tree, cs: seq<ChangedFile>) {
    forall path :: LastMention(cs, path).Some? ==>
                     (Indexes(s, b, LastMention(cs, path).value, path) <==> FullyIndexed(s, b, path))
  }

  lemma MentionTouches(cf: ChangedFile, path: string)
    requires Mentions(cf, path) && PathSegmentsForPath(path) != []
    ensures Touches(cf, path)
  {}

  /** A path no entry touches is the same file in both trees. */
  lemma UntouchedIsUnchanged(a: Tree, b: Tree, cs: seq<ChangedFile>, path: string)
    requires Covering(a, b, cs) && ProperPaths(a) && ProperPaths(b)
    requires LastTouch(cs, path).None? || LastMention(cs, path).None?
    ensures (path in a <==> path in b) && (path in a ==> a[path] == b[path])
  {
    hide Touches;
    LastTouchIs(cs, path);
    LastMentionIs(cs, path);
    if path in b && (path !in a || a[path] != b[path]) {
      var i :| 0 <= i < |cs| && !Removes(cs[i]) && cs[i].filename == path;
      assert Mentions(cs[i], path);
      MentionTouches(cs[i], path);
    }
    if path in a && path !in b {
      var i :| 0 <= i < |cs| && Mentions(cs[i], path);
      MentionTouches(cs[i], path);
    }
  }

  /** What an entry leaves at a path it touches, in terms of the new tree. */
  lemma LeftIs(env: Env, cs: seq<ChangedFile>, cf: ChangedFile, path: string)
    requires Sound(env.tree, cs) && cf in cs && WellChunked(env.settings)
    ensures Indexes(env.settings, env.tree, cf, path) ==>
              && Left(env, cf, path)
                 == Rows(env.after, path, env.tree[path].sha, env.settings.chunk(path, env.tree[path].content))
              && LeftInManifest(env, cf, path)
                 == Some(ManifestFile(env.tree[path].sha, Some(|env.settings.chunk(path, env.tree[path].content)|)))
    ensures !Indexes(env.settings, env.tree, cf, path) ==>
              Left(env, cf, path) == map[] && LeftInManifest(env, cf, path) == None
  {
    var i :| 0 <= i < |cs| && cs[i] == cf;
  }

  lemma RowsNotEmpty(s: Settings, path: string, ref: string, blob: Blob)
    requires WellChunked(s) && |s.chunk(path, blob.content)| > 0
    ensures Rows(ref, path, blob.sha, s.chunk(path, blob.content)) != map[]
  {
    RowsAre(ref, path, blob.sha, s.chunk(path, blob.content));
    assert Id(ref, path, blob.sha, 0) in Rows(ref, path, blob.sha, s.chunk(path, blob.content));
  }

  /** Points at a touched path are right exactly when the last touch is. */
  lemma TouchedAgreesIff(env: Env, cs: seq<ChangedFile>, cf: ChangedFile, points: Points, path: string)
    requires Sound(env.tree, cs) && cf in cs && WellChunked(env.settings)
    requires At(points, path) == Left(env, cf, path)
    ensures PointsAgreeAt(env.settings, env.tree, points, path)
            <==> (Indexes(env.settings, env.tree, cf, path) <==> FullyIndexed(env.settings, env.tree, path))
  {
    LeftIs(env, cs, cf, path);
    hide Rows, Left, At;
    if path in env.tree && |env.settings.chunk(path, env.tree[path].content)| > 0 {
      forall ref ensures Rows(ref, path, env.tree[path].sha, env.settings.chunk(path, env.tree[path].content)) != map[] {
        RowsNotEmpty(env.settings, path, ref, env.tree[path]);
      }
    }
  }

  lemma MentionedAgreesIff(env: Env, cs: seq<ChangedFile>, cf: ChangedFile, files: Files, path: string)
    requires Sound(env.tree, cs) && cf in cs && WellChunked(env.settings)
    requires Entry(files, path) == LeftInManifest(env, cf, path)
    ensures FilesAgreeAt(env.settings, env.tree, files, path)
            <==> (Indexes(env.settings, env.tree, cf, path) <==> FullyIndexed(env.settings, env.tree, path))
  {
    LeftIs(env, cs, cf, path);
  }

  /** Agreement with the old tree is agreement with the new one wherever the diff does not reach. */
  lemma AgreementCarriesOver(s: Settings, a: Tree, b: Tree, cs: seq<ChangedFile>, points: Points, files: Files)
    requires Covering(a, b, cs) && ProperPaths(a) && ProperPaths(b)
    requires PointsAgree(s, a, points) && FilesAgree(s, a, files)
    ensures UntouchedAgree(s, b, points, cs) && UnmentionedAgree(s, b, files, cs)
  {
    hide At, Rows, Covering, LastTouch, LastMention, Entry;
    forall path | LastTouch(cs, path).None? ensures PointsAgreeAt(s, b, points, path) {
      assert PointsAgreeAt(s, a, points, path);
      UntouchedIsUnchanged(a, b, cs, path);
    }
    forall path | LastMention(cs, path).None? ensures FilesAgreeAt(s, b, files, path) {
      assert FilesAgreeAt(s, a, files, path);
      UntouchedIsUnchanged(a, b, cs, path);
    }
  }

  /**
   The collection after the run agrees with the new tree exactly when every last touch is
   right and it agreed before wherever no entry reaches.
   */
  lemma PointsAgreeIff(env: Env, p: Progress, cs: seq<ChangedFile>)
    requires WellChunked(env.settings) && Sound(env.tree, cs)
    requires Run(env, p, cs).Continue?
    ensures PointsAgree(env.settings, env.tree, Run(env, p, cs).p.points)
            <==> LastTouchRight(env.settings, env.tree, cs) && UntouchedAgree(env.settings, env.tree, p.points, cs)
  {
    hide Run, Left, At, Rows, Indexes, FullyIndexed;
    var after := Run(env, p, cs).p.points;
    forall path
      ensures PointsAgreeAt(env.settings, env.tree, after, path) <==>
              if LastTouch(cs, path).Some? then
                Indexes(env.settings, env.tree, LastTouch(cs, path).value, path)
                <==> FullyIndexed(env.settings, env.tree, path)
              else PointsAgreeAt(env.settings, env.tree, p.points, path)
    {
      LastTouchDecides(env, p, cs, path);
      LastTouchIs(cs, path);
      if LastTouch(cs, path).Some? {
        TouchedAgreesIff(env, cs, LastTouch(cs, path).value, after, path);
      }
    }
    hide PointsAgreeAt, LastTouch;
  }

  /** The same for the manifest, with mentions for touches. */
  lemma FilesAgreeIff(env: Env, p: Progress, cs: seq<ChangedFile>)
    requires WellChunked(env.settings) && Sound(env.tree, cs)
    requires Run(env, p, cs).Continue?
    ensures FilesAgree(env.settings, env.tree, Run(env, p, cs).p.files)
            <==> LastMentionRight(env.settings, env.tree, cs) && UnmentionedAgree(env.settings, env.tree, p.files, cs)
  {
    hide Run, LeftInManifest, Entry, Indexes, FullyIndexed;
    var after := Run(env, p, cs).p.files;
    forall path
      ensures FilesAgreeAt(env.settings, env.tree, after, path) <==>
              if LastMention(cs, path).Some? then
                Indexes(env.settings, env.tree, LastMention(cs, path).value, path)
                <==> FullyIndexed(env.settings, env.tree, path)
              else FilesAgreeAt(env.settings, env.tree, p.files, path)
    {
      LastMentionDecides(env, p, cs, path);
      LastMentionIs(cs, path);
      if LastMention(cs, path).Some? {
        MentionedAgreesIff(env, cs, LastMention(cs, path).value, after, path);
      }
    }
    hide FilesAgreeAt, LastMention;
  }

  /**
   From agreement with the old tree, for every diff that names each difference and indexes
   from the new tree: the run ends in agreement with the new tree exactly when the last
   entry to delete, and the last to mention, each path treats it as a full index would.
   */
  lemma IncrementalAgreesIff(env: Env, a: Tree, p: Progress, cs: seq<ChangedFile>)
    requires WellChunked(env.settings) && ProperPaths(a) && ProperPaths(env.tree)
    requires Sound(env.tree, cs) && Covering(a, env.tree, cs)
    requires PointsAgree(env.settings, a, p.points) && FilesAgree(env.settings, a, p.files)
    requires Run(env, p, cs).Continue?
    ensures PointsAgree(env.settings, env.tree, Run(env, p, cs).p.points)
            && FilesAgree(env.settings, env.tree, Run(env, p, cs).p.files)
            <==> LastTouchRight(env.settings, env.tree, cs) && LastMentionRight(env.settings, env.tree, cs)
  {
    AgreementCarriesOver(env.settings, a, env.tree, cs, p.points, p.files);
    PointsAgreeIff(env, p, cs);
    FilesAgreeIff(env, p, cs);
  }

  // ---------------------------------------------------------------- diffs that are always right

  /** A tree Git could hold: no file's path lies below another file's. */
  ghost predicate WellFormed(tree: Tree) {
    && ProperPaths(tree)
    && forall p, q :: p in tree && q in tree && PathSegmentsForPath(q) <= PathSegmentsForPath(p) ==> p == q
  }

  /** Removed and left-behind names were files of the old tree, and are gone or indexed again. */
  ghost predicate FaithfulDeletions(a: Tree, b: Tree, cs: seq<ChangedFile>) {
    forall i :: 0 <= i < |cs| ==>
                  && (Removes(cs[i]) ==> cs[i].filename in a && cs[i].filename !in b)
                  && (HasPrevious(cs[i]) ==>
                        && cs[i].previousFilename.value in a
                        && (cs[i].previousFilename.value in b ==> Reindexed(cs, cs[i].previousFilename.value)))
  }

  /** No entry deletes, later, what an earlier one indexed. */
  ghost predicate NoLaterDeletion(cs: seq<ChangedFile>) {
    forall i, j :: 0 <= i < j < |cs| && !Removes(cs[i]) ==> !Touches(cs[j], cs[i].filename)
  }

  /** Every file to index is within the size limit. */
  ghost predicate SizesWithin(s: Settings, b: Tree, cs: seq<ChangedFile>) {
    forall i :: 0 <= i < |cs| && !Removes(cs[i]) && cs[i].filename in b && b[cs[i].filename].size.Some? ==>
                  b[cs[i].filename].size.value <= s.maxFileBytes
  }

  ghost predicate ValidDiff(s: Settings, a: Tree, b: Tree, cs: seq<ChangedFile>) {
    && Sound(b, cs) && Covering(a, b, cs) && FaithfulDeletions(a, b, cs)
    && NoLaterDeletion(cs) && SizesWithin(s, b, cs)
  }

  /** A file of the new tree that an entry deletes is indexed by some entry. */
  lemma DeletedIsReindexed(s: Settings, a: Tree, b: Tree, cs: seq<ChangedFile>, j: int, path: string)
    requires ValidDiff(s, a, b, cs) && WellFormed(a) && WellFormed(b)
    requires 0 <= j < |cs| && path in b && Touches(cs[j], path)
    ensures Reindexed(cs, path)
  {
    hide PathSegmentsForPath;
    if path in a {
      if HasPrevious(cs[j]) && DeletesAt(cs[j].previousFilename.value, path) {
        assert cs[j].previousFilename.value == path;
      } else if Removes(cs[j]) {
        assert false;
      } else {
        assert cs[j].filename in b && cs[j].filename == path;
      }
    }
  }

  lemma LastTouchOfValid(s: Settings, a: Tree, b: Tree, cs: seq<ChangedFile>, path: string)
    requires ValidDiff(s, a, b, cs) && WellFormed(a) && WellFormed(b)
    ensures LastTouch(cs, path).Some? && path in b ==>
              !Removes(LastTouch(cs, path).value) && LastTouch(cs, path).value.filename == path
    ensures LastMention(cs, path).Some? && path in b ==>
              !Removes(LastMention(cs, path).value) && LastMention(cs, path).value.filename == path
    ensures path in b && (LastTouch(cs, path).Some? || LastMention(cs, path).Some?) ==>
              b[path].size.Some? ==> b[path].size.value <= s.maxFileBytes
  {
    hide PathSegmentsForPath, Touches, Mentions, Removes;
    LastTouchIs(cs, path);
    LastMentionIs(cs, path);
    if path in b && (LastTouch(cs, path).Some? || LastMention(cs, path).Some?) {
      if LastTouch(cs, path).Some? {
        var j :| 0 <= j < |cs| && LastTouch(cs, path).value == cs[j] && Touches(cs[j], path)
                 && forall i :: j < i < |cs| ==> !Touches(cs[i], path);
        DeletedIsReindexed(s, a, b, cs, j, path);
      } else {
        var m :| 0 <= m < |cs| && LastMention(cs, path).value == cs[m] && Mentions(cs[m], path)
                 && forall i :: m < i < |cs| ==> !Mentions(cs[i], path);
        MentionTouches(cs[m], path);
        assert false;
      }
      var k :| 0 <= k < |cs| && !Removes(cs[k]) && cs[k].filename == path;
      NothingAfter(cs, k);
      LastIs(cs, k, path);
    }
  }

  lemma NothingAfter(cs: seq<ChangedFile>, k: int)
    requires NoLaterDeletion(cs) && 0 <= k < |cs| && !Removes(cs[k])
    ensures forall j :: k < j < |cs| ==> !Touches(cs[j], cs[k].filename)
    ensures PathSegmentsForPath(cs[k].filename) != [] ==>
              forall j :: k < j < |cs| ==> !Mentions(cs[j], cs[k].filename)
  {
    if PathSegmentsForPath(cs[k].filename) != [] {
      forall j | k < j < |cs| ensures !Mentions(cs[j], cs[k].filename) {
        if Mentions(cs[j], cs[k].filename) {
          MentionTouches(cs[j], cs[k].filename);
        }
      }
    }
  }

  lemma LastIs(cs: seq<ChangedFile>, k: int, path: string)
    requires 0 <= k < |cs| && cs[k].filename == path && PathSegmentsForPath(path) != []
    requires forall j :: k < j < |cs| ==> !Touches(cs[j], path) && !Mentions(cs[j], path)
    ensures LastTouch(cs, path) == Some(cs[k]) && LastMention(cs, path) == Some(cs[k])
  {
    assert Mentions(cs[k], path);
    MentionTouches(cs[k], path);
    hide Touches, Mentions, LastTouch, LastMention, PathSegmentsForPath;
    LastTouchAt(cs, k, path);
    LastMentionAt(cs, k, path);
  }

  lemma LastTouchAt(cs: seq<ChangedFile>, k: int, path: string)
    requires 0 <= k < |cs| && Touches(cs[k], path) && forall j :: k < j < |cs| ==> !Touches(cs[j], path)
    ensures LastTouch(cs, path) == Some(cs[k])
  {
    hide Touches, LastTouch;
    LastTouchIs(cs, path);
  }

  lemma LastMentionAt(cs: seq<ChangedFile>, k: int, path: string)
    requires 0 <= k < |cs| && Mentions(cs[k], path) && forall j :: k < j < |cs| ==> !Mentions(cs[j], path)
    ensures LastMention(cs, path) == Some(cs[k])
  {
    hide Mentions, LastMention;
    LastMentionIs(cs, path);
  }

  /** A valid diff in a safe order makes every last touch and last mention right. */
  lemma ValidDiffIsRight(s: Settings, a: Tree, b: Tree, cs: seq<ChangedFile>)
    requires ValidDiff(s, a, b, cs) && WellFormed(a) && WellFormed(b)
    ensures LastTouchRight(s, b, cs) && LastMentionRight(s, b, cs)
  {
    forall path
      ensures LastTouch(cs, path).Some? ==>
                (Indexes(s, b, LastTouch(cs, path).value, path) <==> FullyIndexed(s, b, path))
      ensures LastMention(cs, path).Some? ==>
                (Indexes(s, b, LastMention(cs, path).value, path) <==> FullyIndexed(s, b, path))
    {
      hide LastTouch, LastMention, ValidDiff, WellFormed;
      LastTouchOfValid(s, a, b, cs, path);
    }
  }

  /** Incremental refines full: for a valid diff the run ends where a full index of the new tree would. */
  lemma IncrementalRefinesFull(env: Env, a: Tree, p: Progress, cs: seq<ChangedFile>)
    requires WellChunked(env.settings) && WellFormed(a) && WellFormed(env.tree)
    requires ValidDiff(env.settings, a, env.tree, cs)
    requires PointsAgree(env.settings, a, p.points) && FilesAgree(env.settings, a, p.files)
    requires Run(env, p, cs).Continue?
    ensures PointsAgree(env.settings, env.tree, Run(env, p, cs).p.points)
    ensures FilesAgree(env.settings, env.tree, Run(env, p, cs).p.files)
  {
    ValidDiffIsRight(env.settings, a, env.tree, cs);
    IncrementalAgreesIff(env, a, p, cs);
  }

  // ---------------------------------------------------------------- diffs that go wrong

  function Renamed(from: string, to: string, sha: string): ChangedFile {
    ChangedFile(to, Some(from), "renamed", Some(sha))
  }

  /** `a` and `b` exchanged, reported as two renames (which takes rename detection across rewritten files). */
  function Swap(x: Blob, y: Blob): seq<ChangedFile> { [Renamed("a", "b", x.sha), Renamed("b", "a", y.sha)] }

  lemma SwapIsDiff(x: Blob, y: Blob)
    requires x != y
    ensures var prior, next := map["a" := x, "b" := y], map["a" := y, "b" := x];
            && WellFormed(prior) && WellFormed(next) && Sound(next, Swap(x, y)) && Covering(prior, next, Swap(x, y))
  {
    SingleLetters();
    NotRemoval();
    hide PathSegmentsForPath, Removes;
    var cs := Swap(x, y);
    assert cs[0].filename == "b" && cs[1].filename == "a";
    assert Reindexed(cs, "a") && Reindexed(cs, "b");
  }

  lemma SwapTouches(x: Blob, y: Blob)
    ensures LastTouch(Swap(x, y), "b") == Some(Swap(x, y)[1])
  {
    SingleLetters();
    hide PathSegmentsForPath;
    var cs := Swap(x, y);
    assert Touches(cs[1], "b");
    TouchLast([cs[0]], cs[1], "b");
    assert [cs[0]] + [cs[1]] == cs;
  }

  /** The last entry, when it touches the path, is the last to touch it. */
  lemma {:induction false} TouchLast(cs: seq<ChangedFile>, cf: ChangedFile, path: string)
    requires Touches(cf, path)
    ensures LastTouch(cs + [cf], path) == Some(cf)
  {
    hide Touches;
    if cs == [] {
      assert cs + [cf] == [cf] && [cf][1..] == [];
    } else {
      assert (cs + [cf])[1..] == cs[1..] + [cf];
      TouchLast(cs[1..], cf, path);
    }
  }

  /** The second entry deletes what the first indexed: `b` is lost, though every difference is reported. */
  lemma SwapLosesAFile(s: Settings, x: Blob, y: Blob, after: string, p: Progress)
    requires x != y && x.size == None && y.size == None && WellChunked(s)
    requires s.indexable("a") && s.indexable("b") && |s.chunk("b", x.content)| > 0
    ensures var prior, next := map["a" := x, "b" := y], map["a" := y, "b" := x];
            var r := Run(Env(s, next, after, None), p, Swap(x, y));
            && WellFormed(prior) && WellFormed(next) && Sound(next, Swap(x, y)) && Covering(prior, next, Swap(x, y))
            && FullyIndexed(s, next, "b")
            && r.Continue? && At(r.p.points, "b") == map[] && !PointsAgree(s, next, r.p.points)
  {
    SwapIsDiff(x, y);
    SwapTouches(x, y);
    hide WellFormed, Sound, Covering, LastTouch, Run, At, PointsAgree, WellChunked;
    TouchLoses(Env(s, map["a" := y, "b" := x], after, None), p, Swap(x, y), "b");
  }

  /** A file of the new tree whose last deletion is not its own entry is missing after the run. */
  lemma TouchLoses(env: Env, p: Progress, cs: seq<ChangedFile>, path: string)
    requires WellChunked(env.settings) && Sound(env.tree, cs) && env.chunkQuota == None
    requires FullyIndexed(env.settings, env.tree, path)
    requires LastTouch(cs, path).Some? && LastTouch(cs, path).value.filename != path
    ensures Run(env, p, cs).Continue?
    ensures At(Run(env, p, cs).p.points, path) == map[]
    ensures !PointsAgree(env.settings, env.tree, Run(env, p, cs).p.points)
  {
    NoQuotaContinues(env, p, cs);
    LastTouchDecides(env, p, cs, path);
    hide Run, LastTouch;
    PointsAgreeIff(env, p, cs);
  }

  lemma {:induction false} NoQuotaContinues(env: Env, p: Progress, cs: seq<ChangedFile>)
    requires env.chunkQuota == None
    ensures Run(env, p, cs).Continue?
    decreases |cs|
  {
    if cs != [] {
      NoQuotaContinues(env, Step(env, p, cs[0]).p, cs[1..]);
    }
  }

  lemma SingleLetters()
    ensures PathSegmentsForPath("a") == ["a"] && PathSegmentsForPath("b") == ["b"]
    ensures "a" != "b" && !(["a"] <= ["b"]) && !(["b"] <= ["a"])
  {
    assert "a"[0] != "b"[0] && ["a"][0] != ["b"][0];
    SplitSlashFree("a");
    SplitSlashFree("b");
    assert [""][1..] == [] && ["a"][1..] == [] && ["b"][1..] == [];
  }

  lemma NotRemoval()
    ensures forall from, to, sha :: !Removes(Renamed(from, to, sha)) && !Removes(ChangedFile(to, Some(from), "copied", Some(sha)))
  {
    assert PrefixScan.Lowered("renamed")[2] == 'n' && PrefixScan.Lowered("copied")[0] == 'c';
    assert "removed"[2] == 'm' && "deleted"[2] == 'l' && "removed"[0] == 'r' && "deleted"[0] == 'd';
  }

  /** `a` copied to `b`, with the source named as the previous file. */
  function Copied(x: Blob): seq<ChangedFile> { [ChangedFile("b", Some("a"), "copied", Some(x.sha))] }

  lemma CopyIsDiff(x: Blob)
    ensures var prior, next := map["a" := x], map["a" := x, "b" := x];
            && WellFormed(prior) && WellFormed(next) && Sound(next, Copied(x)) && Covering(prior, next, Copied(x))
  {
    SingleLetters();
    NotRemoval();
    hide PathSegmentsForPath, Removes;
    var cs := Copied(x);
    assert cs[0].filename == "b";
    assert Reindexed(cs, "b");
  }

  lemma CopyTouches(x: Blob)
    ensures LastTouch(Copied(x), "a") == Some(Copied(x)[0])
  {
    SingleLetters();
    hide PathSegmentsForPath;
    var cs := Copied(x);
    assert Touches(cs[0], "a");
    TouchLast([], cs[0], "a");
    assert [] + [cs[0]] == cs;
  }

  /** The source of the copy stays in the tree and leaves the collection. */
  lemma CopyLosesItsSource(s: Settings, x: Blob, after: string, p: Progress)
    requires x.size == None && s.indexable("a") && |s.chunk("a", x.content)| > 0 && WellChunked(s)
    ensures var prior, next := map["a" := x], map["a" := x, "b" := x];
            var r := Run(Env(s, next, after, None), p, Copied(x));
            && WellFormed(prior) && WellFormed(next) && Sound(next, Copied(x)) && Covering(prior, next, Copied(x))
            && FullyIndexed(s, next, "a")
            && r.Continue? && At(r.p.points, "a") == map[] && !PointsAgree(s, next, r.p.points)
  {
    CopyIsDiff(x);
    CopyTouches(x);
    hide WellFormed, Sound, Covering, LastTouch, Run, At, PointsAgree, WellChunked;
    TouchLoses(Env(s, map["a" := x, "b" := x], after, None), p, Copied(x), "a");
  }
}
