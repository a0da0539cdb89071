/**
 One repository's collection and manifest as values, and what applying one changed file
 does to them. A point's id stands for the hash of its repository, ref, path, blob and
 chunk index; the repository is fixed, and the hash is taken as injective.
 */
module RepoModel {
  import opened Paths
  import Chunker
  import PointTables
  import PrefixScan

  datatype Option<T> = None | Some(value: T)

  type Content = Chunker.Text

  datatype Blob = Blob(sha: string, size: Option<nat>, content: Content)

  /** The files of one commit. */
  type Tree = map<string, Blob>

  /** Repository configuration merged with the process's own: what to index, how to cut it. */
  datatype Settings = Settings(
    indexable: string -> bool,
    maxFileBytes: nat,
    chunk: (string, Content) -> seq<Chunker.Chunk>,
    fingerprint: string)

  /** Every chunker numbers its chunks 0..n-1. */
  ghost predicate WellChunked(s: Settings) {
    forall path, content, k :: 0 <= k < |s.chunk(path, content)| ==> s.chunk(path, content)[k].chunkIndex == k
  }

  datatype Id = Id(ref: string, path: string, blobSha: string, chunkIndex: nat)
  datatype Payload = Payload(startLine: int, endLine: int, text: Content)
  type Points = map<Id, Payload>

  datatype ManifestFile = ManifestFile(blobSha: string, chunkCount: Option<nat>)
  type Files = map<string, ManifestFile>
  datatype Manifest = Manifest(files: Files, fingerprint: string, ref: string, sha: string)

  datatype ChangedFile = ChangedFile(filename: string, previousFilename: Option<string>, status: string, sha: Option<string>)

  predicate Removes(cf: ChangedFile) {
    PrefixScan.Lowered(cf.status) == "removed" || PrefixScan.Lowered(cf.status) == "deleted"
  }

  predicate HasPrevious(cf: ChangedFile) { cf.previousFilename.Some? && cf.previousFilename.value != "" }

  /** What a push works with: settings, contents and name of the commit, chunk quota. */
  datatype Env = Env(settings: Settings, tree: Tree, after: string, chunkQuota: Option<nat>)

  // ---------------------------------------------------------------- the collection

  /** `deletePath`: every point at or below the path; nothing when the path has no segments. */
  function DeletePath(points: Points, path: string): Points {
    var segments := PathSegmentsForPath(path);
    if segments == [] then points
    else map id | id in points && !(segments <= PathSegmentsForPath(id.path)) :: points[id]
  }

  /** The rows of a file's chunks, later ones overwriting earlier ones. */
  function Rows(ref: string, path: string, blobSha: string, chunks: seq<Chunker.Chunk>): Points {
    if chunks == [] then map[]
    else
      var c := chunks[|chunks| - 1];
      Rows(ref, path, blobSha, chunks[..|chunks| - 1])
        [Id(ref, path, blobSha, c.chunkIndex) := Payload(c.startLine, c.endLine, c.text)]
  }

  lemma {:induction false} RowsAre(ref: string, path: string, blobSha: string, chunks: seq<Chunker.Chunk>)
    requires forall k :: 0 <= k < |chunks| ==> chunks[k].chunkIndex == k
    ensures var rows := Rows(ref, path, blobSha, chunks);
            && (forall id :: id in rows <==>
                  id.ref == ref && id.path == path && id.blobSha == blobSha && id.chunkIndex < |chunks|)
            && (forall id :: id in rows ==>
                  rows[id] == Payload(chunks[id.chunkIndex].startLine, chunks[id.chunkIndex].endLine, chunks[id.chunkIndex].text))
            && |rows| == |chunks|
  {
    if chunks != [] {
      var n := |chunks| - 1;
      RowsAre(ref, path, blobSha, chunks[..n]);
      assert Id(ref, path, blobSha, n) !in Rows(ref, path, blobSha, chunks[..n]);
    }
  }

  /** The points of one path. */
  function At(points: Points, path: string): Points {
    map id | id in points && id.path == path :: points[id]
  }

  // ---------------------------------------------------------------- one file

  datatype Prepared = Prepared(file: ManifestFile, chunks: seq<Chunker.Chunk>)

  /** `readAndChunkSingleFile`. */
  function Prepare(s: Settings, path: string, blobSha: string, content: Option<Content>): Option<Prepared> {
    if !s.indexable(path) then None
    else if content.None? then None
    else
      var chunks := s.chunk(path, content.value);
      if |chunks| == 0 then None else Some(Prepared(ManifestFile(blobSha, Some(|chunks|)), chunks))
  }

  function ContentAt(tree: Tree, path: string): Option<Content> {
    if path in tree then Some(tree[path].content) else None
  }

  function PrepareChanged(env: Env, cf: ChangedFile): Option<Prepared> {
    if Removes(cf) then None
    else Prepare(env.settings, cf.filename, if cf.sha.Some? then cf.sha.value else env.after, ContentAt(env.tree, cf.filename))
  }

  // ---------------------------------------------------------------- one changed file

  datatype Progress = Progress(points: Points, files: Files, count: nat)

  /** Either the loop goes on, or the chunk quota stops it with the collection as it then is. */
  datatype Outcome = Continue(p: Progress) | ChunkQuota(points: Points)

  /** The chunks a manifest entry accounts for. */
  function Counted(file: ManifestFile): nat { if file.chunkCount.Some? then file.chunkCount.value else 0 }

  /** `subtractManifestChunkCount`, with its `Math.max(0, ...)`. */
  function Subtract(count: nat, files: Files, path: string): nat {
    if path !in files then count
    else if count < Counted(files[path]) then 0 else count - Counted(files[path])
  }

  function DeletedFor(points: Points, cf: ChangedFile): Points {
    DeletePath(if HasPrevious(cf) then DeletePath(points, cf.previousFilename.value) else points, cf.filename)
  }

  function FilesFor(files: Files, cf: ChangedFile): Files {
    (if HasPrevious(cf) then files - {cf.previousFilename.value} else files) - {cf.filename}
  }

  function CountFor(count: nat, files: Files, cf: ChangedFile): nat {
    if HasPrevious(cf) then
      Subtract(Subtract(count, files, cf.previousFilename.value), files - {cf.previousFilename.value}, cf.filename)
    else Subtract(count, files, cf.filename)
  }

  predicate OverQuota(quota: Option<nat>, count: nat) { quota.Some? && count > quota.value }

  function Step(env: Env, p: Progress, cf: ChangedFile): Outcome {
    var points, files, count := DeletedFor(p.points, cf), FilesFor(p.files, cf), CountFor(p.count, p.files, cf);
    var prepared := PrepareChanged(env, cf);
    if prepared.None? then Continue(Progress(points, files, count))
    else if OverQuota(env.chunkQuota, count + |prepared.value.chunks|) then ChunkQuota(points)
    else
      Continue(Progress(
        points + Rows(env.after, cf.filename, prepared.value.file.blobSha, prepared.value.chunks),
        files[cf.filename := prepared.value.file],
        count + |prepared.value.chunks|))
  }

  /** The changed files one after the other. */
  function Run(env: Env, p: Progress, cs: seq<ChangedFile>): Outcome
    decreases |cs|
  {
    if cs == [] then Continue(p)
    else match Step(env, p, cs[0])
      case Continue(q) => Run(env, q, cs[1..])
      case ChunkQuota(points) => ChunkQuota(points)
  }

  // ---------------------------------------------------------------- what a run means for one path

  /** Deleting `q` deletes `path`. */
  predicate DeletesAt(q: string, path: string) {
    PathSegmentsForPath(q) != [] && PathSegmentsForPath(q) <= PathSegmentsForPath(path)
  }

  /** The entry deletes the points of `path`. */
  predicate Touches(cf: ChangedFile, path: string) {
    (HasPrevious(cf) && DeletesAt(cf.previousFilename.value, path)) || DeletesAt(cf.filename, path)
  }

  /** The entry drops `path` from the manifest. */
  predicate Mentions(cf: ChangedFile, path: string) {
    (HasPrevious(cf) && cf.previousFilename.value == path) || cf.filename == path
  }

  function LastTouch(cs: seq<ChangedFile>, path: string): Option<ChangedFile> {
    if cs == [] then None
    else
      var later := LastTouch(cs[1..], path);
      if later.Some? then later else if Touches(cs[0], path) then Some(cs[0]) else None
  }

  function LastMention(cs: seq<ChangedFile>, path: string): Option<ChangedFile> {
    if cs == [] then None
    else
      var later := LastMention(cs[1..], path);
      if later.Some? then later else if Mentions(cs[0], path) then Some(cs[0]) else None
  }

  /** The points the entry leaves at a path it touches. */
  function Left(env: Env, cf: ChangedFile, path: string): Points {
    var prepared := PrepareChanged(env, cf);
    if cf.filename == path && prepared.Some? then
      Rows(env.after, path, prepared.value.file.blobSha, prepared.value.chunks)
    else map[]
  }

  function LeftInManifest(env: Env, cf: ChangedFile, path: string): Option<ManifestFile> {
    var prepared := PrepareChanged(env, cf);
    if cf.filename == path && prepared.Some? then Some(prepared.value.file) else None
  }

  function Entry(files: Files, path: string): Option<ManifestFile> {
    if path in files then Some(files[path]) else None
  }

  /** Files that are indexed have a name with segments, so re-indexing starts from nothing. */
  ghost predicate NamesHaveSegments(cs: seq<ChangedFile>) {
    forall i :: 0 <= i < |cs| && !Removes(cs[i]) ==> PathSegmentsForPath(cs[i].filename) != []
  }

  lemma DeletePathAt(points: Points, q: string, path: string)
    ensures At(DeletePath(points, q), path) == if DeletesAt(q, path) then map[] else At(points, path)
  {}

  lemma DeletedForAt(points: Points, cf: ChangedFile, path: string)
    ensures At(DeletedFor(points, cf), path) == if Touches(cf, path) then map[] else At(points, path)
  {
    hide DeletePath, DeletesAt;
    var before := if HasPrevious(cf) then DeletePath(points, cf.previousFilename.value) else points;
    if HasPrevious(cf) {
      DeletePathAt(points, cf.previousFilename.value, path);
    }
    DeletePathAt(before, cf.filename, path);
  }

  lemma RowsAt(points: Points, rows: Points, filename: string, path: string)
    requires forall id :: id in rows ==> id.path == filename
    requires At(points, filename) == map[]
    ensures At(points + rows, path) == if path == filename then rows else At(points, path)
  {
    if path == filename {
      forall id ensures id in At(points + rows, path) <==> id in rows {
        assert id in points && id.path == filename ==> id in At(points, filename);
      }
    }
  }

  lemma {:induction false} RowsPath(ref: string, path: string, blobSha: string, chunks: seq<Chunker.Chunk>)
    ensures forall id :: id in Rows(ref, path, blobSha, chunks) ==> id.path == path && id.ref == ref
  {
    if chunks != [] {
      RowsPath(ref, path, blobSha, chunks[..|chunks| - 1]);
    }
  }

  /** One entry replaces the points of the paths it touches and leaves all others. */
  lemma StepPoints(env: Env, p: Progress, cf: ChangedFile, path: string)
    requires Step(env, p, cf).Continue?
    requires !Removes(cf) ==> PathSegmentsForPath(cf.filename) != []
    ensures At(Step(env, p, cf).p.points, path) == if Touches(cf, path) then Left(env, cf, path) else At(p.points, path)
  {
    hide DeletedFor, Rows, FilesFor, CountFor, At;
    var prepared := PrepareChanged(env, cf);
    DeletedForAt(p.points, cf, path);
    if prepared.Some? {
      var rows := Rows(env.after, cf.filename, prepared.value.file.blobSha, prepared.value.chunks);
      RowsPath(env.after, cf.filename, prepared.value.file.blobSha, prepared.value.chunks);
      DeletedForAt(p.points, cf, cf.filename);
      RowsAt(DeletedFor(p.points, cf), rows, cf.filename, path);
    }
  }

  lemma StepFiles(env: Env, p: Progress, cf: ChangedFile, path: string)
    requires Step(env, p, cf).Continue?
    ensures Entry(Step(env, p, cf).p.files, path)
            == if Mentions(cf, path) then LeftInManifest(env, cf, path) else Entry(p.files, path)
  {
    hide DeletedFor, Rows, CountFor, PrepareChanged;
  }

  /** After a run, the last entry that touches a path decides its points; an untouched path keeps them. */
  lemma {:induction false} LastTouchDecides(env: Env, p: Progress, cs: seq<ChangedFile>, path: string)
    requires Run(env, p, cs).Continue? && NamesHaveSegments(cs)
    ensures var last := LastTouch(cs, path);
            At(Run(env, p, cs).p.points, path)
            == if last.Some? then Left(env, last.value, path) else At(p.points, path)
    decreases |cs|
  {
    hide Step, Left, Touches, At;
    if cs != [] {
      StepPoints(env, p, cs[0], path);
      forall i | 0 <= i < |cs[1..]| && !Removes(cs[1..][i]) ensures PathSegmentsForPath(cs[1..][i].filename) != [] {
        assert cs[1..][i] == cs[i + 1];
      }
      LastTouchDecides(env, Step(env, p, cs[0]).p, cs[1..], path);
    }
  }

  lemma {:induction false} LastMentionDecides(env: Env, p: Progress, cs: seq<ChangedFile>, path: string)
    requires Run(env, p, cs).Continue?
    ensures var last := LastMention(cs, path);
            Entry(Run(env, p, cs).p.files, path)
            == if last.Some? then LeftInManifest(env, last.value, path) else Entry(p.files, path)
    decreases |cs|
  {
    hide Step, LeftInManifest, Mentions, Entry;
    if cs != [] {
      StepFiles(env, p, cs[0], path);
      LastMentionDecides(env, Step(env, p, cs[0]).p, cs[1..], path);
    }
  }

  lemma {:induction false} LastTouchIs(cs: seq<ChangedFile>, path: string)
    ensures LastTouch(cs, path).None? <==> forall i :: 0 <= i < |cs| ==> !Touches(cs[i], path)
    ensures LastTouch(cs, path).Some? ==>
              exists i :: 0 <= i < |cs| && LastTouch(cs, path).value == cs[i] && Touches(cs[i], path)
                          && forall j :: i < j < |cs| ==> !Touches(cs[j], path)
  {
    hide Touches;
    if cs != [] {
      LastTouchIs(cs[1..], path);
      if LastTouch(cs[1..], path).Some? {
        var i :| 0 <= i < |cs[1..]| && LastTouch(cs[1..], path).value == cs[1..][i] && Touches(cs[1..][i], path)
                 && forall j :: i < j < |cs[1..]| ==> !Touches(cs[1..][j], path);
        assert cs[i + 1] == cs[1..][i];
        forall j | i + 1 < j < |cs| ensures !Touches(cs[j], path) {
          assert cs[j] == cs[1..][j - 1];
        }
      } else {
        forall j | 0 < j < |cs| ensures !Touches(cs[j], path) {
          assert cs[j] == cs[1..][j - 1];
        }
      }
    }
  }

  lemma {:induction false} LastMentionIs(cs: seq<ChangedFile>, path: string)
    ensures LastMention(cs, path).None? <==> forall i :: 0 <= i < |cs| ==> !Mentions(cs[i], path)
    ensures LastMention(cs, path).Some? ==>
              exists i :: 0 <= i < |cs| && LastMention(cs, path).value == cs[i] && Mentions(cs[i], path)
                          && forall j :: i < j < |cs| ==> !Mentions(cs[j], path)
  {
    hide Mentions;
    if cs != [] {
      LastMentionIs(cs[1..], path);
      if LastMention(cs[1..], path).Some? {
        var i :| 0 <= i < |cs[1..]| && LastMention(cs[1..], path).value == cs[1..][i] && Mentions(cs[1..][i], path)
                 && forall j :: i < j < |cs[1..]| ==> !Mentions(cs[1..][j], path);
        assert cs[i + 1] == cs[1..][i];
        forall j | i + 1 < j < |cs| ensures !Mentions(cs[j], path) {
          assert cs[j] == cs[1..][j - 1];
        }
      } else {
        forall j | 0 < j < |cs| ensures !Mentions(cs[j], path) {
          assert cs[j] == cs[1..][j - 1];
        }
      }
    }
  }

  /** The collection as its rows in the points table: an id is stored under its hash, with the segments of its path. */
  ghost predicate StoredIn(t: PointTables.Tables, c: string, idOf: Id -> string, points: Points) {
    && (forall id :: id in points <==> PointTables.Key(c, idOf(id)) in t.points)
    && (forall id :: id in points ==> t.points[PointTables.Key(c, idOf(id))] == PathSegmentsForPath(id.path))
    && (forall k :: k in t.points && k.collection == c ==> exists id :: k.id == idOf(id))
  }

  /**
   `DeletePath` is what the delete by path segments does to the two tables: after any run in
   which ids carry their paths, the tables that hold the collection hold, after the delete,
   the collection without the path, and every other collection as it was.
   */
  lemma TableDeleteIsDeletePath(pathOf: PointTables.Key -> seq<string>, events: seq<PointTables.Event>, c: string,
                                idOf: Id -> string, points: Points, path: string)
    requires PointTables.Runs(PointTables.EMPTY_STORE, events)
    requires forall i :: 0 <= i < |events| ==> PointTables.CarriesPath(pathOf, events[i])
    requires PathSegmentsForPath(path) != []
    requires StoredIn(PointTables.Final(PointTables.EMPTY_STORE, events).tables, c, idOf, points)
    ensures var t := PointTables.Final(PointTables.EMPTY_STORE, events).tables;
            var rows := PointTables.Matching(t, c, PointTables.Prefixes([PathSegmentsForPath(path)]));
            && StoredIn(PointTables.DeleteRows(t, rows), c, idOf, DeletePath(points, path))
            && forall k: PointTables.Key :: k.collection != c ==>
                 (k in PointTables.DeleteRows(t, rows).points <==> k in t.points)
  {
    hide PathSegmentsForPath, PointTables.Runs, PointTables.Final, PointTables.DeleteRows, PointTables.Matching, PointTables.Prefixes, PointTables.CarriesPath, StoredIn, DeletePath;
    var segments := PathSegmentsForPath(path);
    var t := PointTables.Final(PointTables.EMPTY_STORE, events).tables;
    PointTables.SubtreeDeleteIsExact(pathOf, events, c, [segments]);
    forall s ensures PointTables.UnderSome([segments], s) <==> segments <= s {
      assert [segments][0] == segments;
    }
    hide PointTables.UnderSome, PointTables.SearchSelects;
    StoredWithout(t, PointTables.DeleteRows(t, PointTables.Matching(t, c, PointTables.Prefixes([segments]))), c, idOf, points, path);
  }

  lemma StoredWithout(t: PointTables.Tables, t': PointTables.Tables, c: string, idOf: Id -> string, points: Points, path: string)
    requires StoredIn(t, c, idOf, points) && PathSegmentsForPath(path) != []
    requires forall k :: k in t'.points <==>
               k in t.points && !(k.collection == c && PathSegmentsForPath(path) <= t.points[k])
    requires forall k :: k in t'.points ==> t'.points[k] == t.points[k]
    ensures StoredIn(t', c, idOf, DeletePath(points, path))
  {
    hide PathSegmentsForPath;
  }

  /** The line-window chunker numbers its chunks as every chunker must. */
  lemma LineWindowsAreWellChunked(s: Settings, o: Chunker.ChunkingOptions)
    requires forall path, content :: s.chunk(path, content) == Chunker.Chunks(content, o, 1)
    ensures WellChunked(s)
  {
    forall path, content, k | 0 <= k < |s.chunk(path, content)|
      ensures s.chunk(path, content)[k].chunkIndex == k
    {
      Chunker.ChunksAreSound(content, o, 1);
    }
  }
}
