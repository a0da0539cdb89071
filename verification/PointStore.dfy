/** The delete loops over the two tables, as they run against the stored rows. */
module PointStore {
  import opened Paths
  import opened PointTables

  datatype DeleteOutcome = Deleted(count: nat) | EmptyPathSegments

  ghost predicate Distinct(paths: seq<seq<string>>) {
    forall i, j :: 0 <= i < j < |paths| ==> PathSegmentsToPrefix(paths[i]) != PathSegmentsToPrefix(paths[j])
  }

  function Concat(chunks: seq<seq<seq<string>>>): seq<seq<string>> {
    if |chunks| == 0 then [] else Concat(chunks[..|chunks| - 1]) + chunks[|chunks| - 1]
  }

  /** Which rows a LIMIT clause returns is the database's choice; only their number is fixed. */
  method SelectUpTo<T(==)>(rows: set<T>, limit: nat) returns (batch: set<T>)
    ensures batch <= rows && |batch| == Min(limit, |rows|)
  {
    batch := {};
    var rest := rows;
    while |batch| < limit && rest != {}
      invariant batch + rest == rows && batch !! rest
      invariant |batch| <= limit && |batch| + |rest| == |rows|
      decreases rest
    {
      var row :| row in rest;
      batch, rest := batch + {row}, rest - {row};
    }
  }

  /** The path at `i` is the first one with its encoded prefix. */
  ghost predicate First(paths: seq<seq<string>>, i: int)
    requires 0 <= i < |paths|
  {
    forall j :: 0 <= j < i ==> PathSegmentsToPrefix(paths[j]) != PathSegmentsToPrefix(paths[i])
  }

  ghost predicate FirstOccurrence(paths: seq<seq<string>>, p: seq<string>) {
    exists i :: 0 <= i < |paths| && paths[i] == p && First(paths, i)
  }

  lemma FirstIff(paths: seq<seq<string>>, n: nat)
    requires n < |paths|
    ensures First(paths, n) <==> PathSegmentsToPrefix(paths[n]) !in Prefixes(paths[..n])
  {
    hide PathSegmentsToPrefix;
    forall j | 0 <= j < n ensures PathSegmentsToPrefix(paths[j]) in Prefixes(paths[..n]) {
      assert paths[..n][j] == paths[j];
    }
  }

  method DedupePathSegmentsPaths(paths: seq<seq<string>>) returns (uniquePaths: seq<seq<string>>)
    ensures Distinct(uniquePaths)
    ensures Prefixes(uniquePaths) == Prefixes(paths)
    ensures forall p :: p in uniquePaths <==> FirstOccurrence(paths, p)
  {
    var seenPrefixes: set<string> := {};
    uniquePaths := [];
    for n := 0 to |paths|
      invariant Distinct(uniquePaths)
      invariant seenPrefixes == Prefixes(uniquePaths) == Prefixes(paths[..n])
      invariant forall p :: p in uniquePaths <==> exists i :: 0 <= i < n && paths[i] == p && First(paths, i)
    {
      var prefix := PathSegmentsToPrefix(paths[n]);
      PrefixesSnoc(paths[..n], paths[n]);
      assert paths[..n + 1] == paths[..n] + [paths[n]];
      FirstIff(paths, n);
      hide PathSegmentsToPrefix, Prefixes, First;
      if prefix !in seenPrefixes {
        PrefixesSnoc(uniquePaths, paths[n]);
        seenPrefixes := seenPrefixes + {prefix};
        uniquePaths := uniquePaths + [paths[n]];
      }
    }
    assert paths[..|paths|] == paths;
  }

  /** Non-empty paths are dropped only when they are equal to one that is kept. */
  lemma {:induction false} DedupeKeepsEveryPath(paths: seq<seq<string>>, i: int)
    requires 0 <= i < |paths|
    requires forall p :: p in paths ==> |p| > 0
    ensures FirstOccurrence(paths, paths[i])
    decreases i
  {
    if !First(paths, i) {
      var j :| 0 <= j < i && PathSegmentsToPrefix(paths[j]) == PathSegmentsToPrefix(paths[i]);
      PrefixInjective(paths[j], paths[i]);
      DedupeKeepsEveryPath(paths, j);
    }
  }

  lemma PrefixesSnoc(paths: seq<seq<string>>, p: seq<string>)
    ensures Prefixes(paths + [p]) == Prefixes(paths) + {PathSegmentsToPrefix(p)}
  {
    var all := paths + [p];
    forall q | q in Prefixes(paths) ensures q in Prefixes(all) {
      var i :| 0 <= i < |paths| && q == PathSegmentsToPrefix(paths[i]);
      assert all[i] == paths[i];
    }
    assert all[|paths|] == p;
  }

  /** Slices of at most `size` paths: together they are the list, so no path is in two of them. */
  method SliceIntoChunks(uniquePaths: seq<seq<string>>, size: nat) returns (chunks: seq<seq<seq<string>>>)
    requires size > 0
    ensures Concat(chunks) == uniquePaths
    ensures forall i :: 0 <= i < |chunks| ==> 0 < |chunks[i]| <= size
    ensures forall i :: 0 <= i < |chunks| - 1 ==> |chunks[i]| == size
  {
    chunks := [];
    var chunkStart := 0;
    while chunkStart < |uniquePaths|
      invariant Concat(chunks) == uniquePaths[..Min(chunkStart, |uniquePaths|)]
      invariant forall i :: 0 <= i < |chunks| ==> 0 < |chunks[i]| <= size
      invariant forall i :: 0 <= i < |chunks| && (i < |chunks| - 1 || chunkStart < |uniquePaths|) ==> |chunks[i]| == size
    {
      var chunk := uniquePaths[chunkStart..Min(chunkStart + size, |uniquePaths|)];
      assert (chunks + [chunk])[..|chunks|] == chunks;
      assert uniquePaths[..chunkStart] + chunk == uniquePaths[..chunkStart + |chunk|];
      chunks := chunks + [chunk];
      chunkStart := chunkStart + size;
    }
  }

  lemma {:induction false} ConcatHolds(chunks: seq<seq<seq<string>>>, i: int, a: int)
    requires 0 <= i < |chunks| && 0 <= a < |chunks[i]|
    ensures exists k :: 0 <= k < |Concat(chunks)| && Concat(chunks)[k] == chunks[i][a]
  {
    var init := chunks[..|chunks| - 1];
    if i < |chunks| - 1 {
      ConcatHolds(init, i, a);
      var k :| 0 <= k < |Concat(init)| && Concat(init)[k] == init[i][a];
      assert Concat(chunks)[k] == chunks[i][a];
    } else {
      assert Concat(chunks)[|Concat(init)| + a] == chunks[i][a];
    }
  }

  lemma {:induction false} ConcatHoldsPrefix(chunks: seq<seq<seq<string>>>, i: int)
    requires 0 <= i <= |chunks|
    ensures Concat(chunks[..i]) <= Concat(chunks)
    decreases |chunks|
  {
    if i < |chunks| {
      var init := chunks[..|chunks| - 1];
      assert init[..i] == chunks[..i];
      ConcatHoldsPrefix(init, i);
    } else {
      assert chunks[..i] == chunks;
    }
  }

  /** Chunks of a list of distinct paths match disjoint sets of stored prefixes. */
  lemma {:induction false} ChunksAreDisjoint(chunks: seq<seq<seq<string>>>, i: int, j: int)
    requires Distinct(Concat(chunks)) && 0 <= i < j < |chunks|
    ensures Prefixes(chunks[i]) !! Prefixes(chunks[j])
  {
    var init, last := chunks[..|chunks| - 1], chunks[|chunks| - 1];
    var all := Concat(chunks);
    assert Concat(init) == all[..|Concat(init)|];
    if j < |chunks| - 1 {
      forall k, l | 0 <= k < l < |Concat(init)|
        ensures PathSegmentsToPrefix(Concat(init)[k]) != PathSegmentsToPrefix(Concat(init)[l])
      {
        assert all[k] == Concat(init)[k] && all[l] == Concat(init)[l];
      }
      ChunksAreDisjoint(init, i, j);
    } else {
      forall a, b | 0 <= a < |chunks[i]| && 0 <= b < |last|
        ensures PathSegmentsToPrefix(chunks[i][a]) != PathSegmentsToPrefix(last[b])
      {
        ConcatHolds(init, i, a);
        var k :| 0 <= k < |Concat(init)| && Concat(init)[k] == init[i][a];
        assert all[k] == chunks[i][a] && all[|Concat(init)| + b] == last[b];
      }
    }
  }

  lemma MatchingAfter(t: Tables, c: string, prefixes: set<string>, gone: set<LookupRow>)
    ensures Matching(DeleteRows(t, gone), c, prefixes) == Matching(t, c, prefixes) - gone
  {}

  lemma MatchingNow(t: Tables, c: string, prefixes: set<string>)
    ensures (set r | r in t.lookup && r.collection == c && r.filePath in prefixes) == Matching(t, c, prefixes)
  {}

  lemma DeletedNow(t: Tables, rows: set<LookupRow>)
    ensures DeleteRows(t, rows) == Tables(t.points - Owners(rows), t.lookup - rows)
  {}

  lemma BatchCounts(all: set<LookupRow>, gone: set<LookupRow>, batch: set<LookupRow>)
    requires gone <= all && batch <= all - gone
    ensures |gone + batch| == |gone| + |batch|
    ensures |all - gone| == |all - (gone + batch)| + |batch|
  {
    assert all - gone == (all - (gone + batch)) + batch;
  }

  class Store {
    var points: map<Key, seq<string>>
    var lookup: set<LookupRow>

    constructor ()
      ensures State() == Tables(map[], {})
    {
      points, lookup := map[], {};
    }

    function State(): Tables
      reads this
    {
      Tables(points, lookup)
    }

    /** Delete by id is one statement over both tables. */
    method DeletePoints(c: string, ids: set<string>)
      modifies this
      ensures State() == DeleteIds(old(State()), c, ids)
      ensures forall k :: k in points <==> k in old(points) && !(k.collection == c && k.id in ids)
      ensures forall k :: k in points ==> points[k] == old(points)[k]
      ensures forall r :: r in lookup <==> r in old(lookup) && !(r.collection == c && r.id in ids)
      ensures old(Complete(State())) ==> Complete(State())
    {
      ghost var t := State();
      points := map k | k in points && !(k.collection == c && k.id in ids) :: points[k];
      lookup := set r | r in lookup && !(r.collection == c && r.id in ids);
      if Complete(t) {
        forall k | k in points ensures RowsOf(k, points[k]) <= lookup {
          assert RowsOf(k, t.points[k]) <= t.lookup;
        }
      }
    }

    /** Batches of at most `batchLimit` rows, until a batch comes back empty. */
    method DeletePointsByPathSegmentsChunked(c: string, prefixes: set<string>, batchLimit: nat) returns (deleted: nat)
      requires batchLimit > 0
      modifies this
      ensures deleted == |old(Matching(State(), c, prefixes))|
      ensures State() == DeleteRows(old(State()), old(Matching(State(), c, prefixes)))
      ensures Matching(State(), c, prefixes) == {}
    {
      hide DeleteRows, Matching, Owners;
      ghost var t := State();
      ghost var all := Matching(t, c, prefixes);
      ghost var gone: set<LookupRow> := {};
      deleted := 0;
      NothingMatches(t, c);
      while true
        invariant gone <= all && deleted == |gone|
        invariant State() == DeleteRows(t, gone)
        decreases |all - gone|
      {
        MatchingAfter(t, c, prefixes, gone);
        var matching := set r | r in lookup && r.collection == c && r.filePath in prefixes;
        MatchingNow(State(), c, prefixes);
        var toDelete := SelectUpTo(matching, batchLimit);
        DeleteRowsTwice(t, gone, toDelete);
        DeletedNow(State(), toDelete);
        points := points - Owners(toDelete);
        lookup := lookup - toDelete;
        var batchDeleted := |toDelete|;
        if batchDeleted <= 0 {
          assert toDelete == {} && gone + toDelete == gone;
          break;
        }
        BatchCounts(all, gone, toDelete);
        gone := gone + toDelete;
        deleted := deleted + batchDeleted;
      }
      MatchingAfter(t, c, prefixes, gone);
      assert all - gone == {};
      assert gone == all;
    }

    /**
     Batches of three chunks; an empty path makes its own chunk fail, and the call fails
     once the rest of that batch is done. One order of the chunks: `InterleavingsAgree`
     covers every other.
     */
    method DeletePointsByPathSegments(c: string, paths: seq<seq<string>>, batchLimit: nat)
      returns (outcome: DeleteOutcome)
      requires batchLimit > 0
      modifies this
      ensures outcome.EmptyPathSegments? <==> FirstOccurrence(paths, [])
      ensures outcome.Deleted? ==>
                && outcome.count == |old(Matching(State(), c, Prefixes(paths)))|
                && State() == DeleteRows(old(State()), old(Matching(State(), c, Prefixes(paths))))
      ensures PartlyDeleted(old(State()), State(), old(Matching(State(), c, Prefixes(paths))))
    {
      hide PathSegmentsToPrefix, Distinct, Concat, DeleteRows, Matching, Prefixes;
      var uniquePaths := DedupePathSegmentsPaths(paths);
      var chunks := SliceIntoChunks(uniquePaths, DELETE_FILTER_PATHS_CHUNK_SIZE);
      ghost var t := State();
      ghost var gone: set<LookupRow> := {};
      var deleted, batchStart := 0, 0;
      assert chunks[..0] == [];
      NothingMatches(t, c);
      while batchStart < |chunks|
        invariant 0 <= batchStart <= |chunks|
        invariant gone <= Matching(t, c, Prefixes(paths)) && State() == DeleteRows(t, gone)
        invariant [] !in Concat(chunks[..batchStart])
        invariant deleted == |Matching(t, c, Prefixes(Concat(chunks[..batchStart])))|
        invariant State() == DeleteRows(t, Matching(t, c, Prefixes(Concat(chunks[..batchStart]))))
      {
        var i, failed := batchStart, false;
        while i < Min(batchStart + DELETE_FILTER_PATHS_CHUNK_CONCURRENCY, |chunks|)
          invariant batchStart <= i <= Min(batchStart + DELETE_FILTER_PATHS_CHUNK_CONCURRENCY, |chunks|)
          invariant gone <= Matching(t, c, Prefixes(paths)) && State() == DeleteRows(t, gone)
          invariant failed <==> [] in Concat(chunks[..i])
          invariant !failed ==>
                      && deleted == |Matching(t, c, Prefixes(Concat(chunks[..i])))|
                      && State() == DeleteRows(t, Matching(t, c, Prefixes(Concat(chunks[..i]))))
        {
          assert chunks[..i + 1][..i] == chunks[..i];
          EmptyPathSoFar(chunks, i);
          if [] in chunks[i] {
            failed := true;
          } else {
            ChunkWithin(chunks, i);
            MoreGone(t, c, Prefixes(paths), gone, Prefixes(chunks[i]));
            gone := gone + Matching(State(), c, Prefixes(chunks[i]));
            var n := DeletePointsByPathSegmentsChunked(c, Prefixes(chunks[i]), batchLimit);
            NextChunk(t, c, chunks[..i], chunks[i], chunks[..i + 1]);
            deleted := deleted + n;
          }
          i := i + 1;
        }
        if failed {
          ConcatHoldsPrefix(chunks, i);
          return EmptyPathSegments;
        }
        batchStart := i;
      }
      assert chunks[..batchStart] == chunks;
      outcome := Deleted(deleted);
    }

    /** At most `MAX_ITERATIONS` batches: what is over that stays. */
    method DeletePointsForCollectionInChunks(c: string)
      modifies this`points
      ensures points.Keys <= old(points.Keys)
      ensures forall k :: k in points ==> points[k] == old(points)[k]
      ensures forall k :: k in old(points) && k.collection != c ==> k in points
      ensures |PointsIn(State(), c)| == OverLimit(|PointsIn(old(State()), c)|)
    {
      ghost var t := State();
      var iterations := 0;
      while iterations < MAX_ITERATIONS
        invariant 0 <= iterations <= MAX_ITERATIONS
        invariant points.Keys <= t.points.Keys && lookup == t.lookup
        invariant forall k :: k in points ==> points[k] == t.points[k]
        invariant forall k :: k in t.points && k.collection != c ==> k in points
        invariant var n := |PointsIn(t, c)| - iterations * DELETE_COLLECTION_BATCH_SIZE;
                  |PointsIn(State(), c)| == if n < 0 then 0 else n
      {
        ghost var before := State();
        iterations := iterations + 1;
        var rows := set k | k in points && k.collection == c;
        assert rows == PointsIn(before, c);
        var ids := SelectUpTo(rows, DELETE_COLLECTION_BATCH_SIZE);
        if |ids| == 0 {
          break;
        }
        points := points - ids;
        assert PointsIn(State(), c) == PointsIn(before, c) - ids;
      }
    }

    method DeleteLookupRowsForCollectionInChunks(c: string)
      modifies this`lookup
      ensures lookup <= old(lookup)
      ensures forall r :: r in old(lookup) && r.collection != c ==> r in lookup
      ensures |RowsIn(State(), c)| == OverLimit(|RowsIn(old(State()), c)|)
    {
      ghost var t := State();
      var iterations := 0;
      while iterations < MAX_ITERATIONS
        invariant 0 <= iterations <= MAX_ITERATIONS
        invariant points == t.points && lookup <= t.lookup
        invariant forall r :: r in t.lookup && r.collection != c ==> r in lookup
        invariant var n := |RowsIn(t, c)| - iterations * DELETE_COLLECTION_BATCH_SIZE;
                  |RowsIn(State(), c)| == if n < 0 then 0 else n
      {
        ghost var before := State();
        iterations := iterations + 1;
        var rows := set r | r in lookup && r.collection == c;
        assert rows == RowsIn(before, c);
        var lookupRows := SelectUpTo(rows, DELETE_COLLECTION_BATCH_SIZE);
        if |lookupRows| == 0 {
          break;
        }
        lookup := lookup - lookupRows;
        assert RowsIn(State(), c) == RowsIn(before, c) - lookupRows;
      }
    }

    /** The fallback of the collection delete: points first, then their lookup rows. */
    method ClearCollectionInChunks(c: string)
      modifies this
      ensures ClearedInChunks(old(State()), State(), c)
      ensures old(Complete(State())) && |PointsIn(old(State()), c)| <= CLEARABLE_POINTS ==> Complete(State())
    {
      DeletePointsForCollectionInChunks(c);
      DeleteLookupRowsForCollectionInChunks(c);
      if old(Complete(State())) && |PointsIn(old(State()), c)| <= CLEARABLE_POINTS {
        ClearWithinLimit(old(State()), State(), c);
      }
    }
  }

  function OverLimit(n: nat): nat { if n <= CLEARABLE_POINTS then 0 else n - CLEARABLE_POINTS }

  ghost predicate ClearedInChunks(t: Tables, t': Tables, c: string) {
    && t'.points.Keys <= t.points.Keys && t'.lookup <= t.lookup
    && (forall k :: k in t'.points ==> t'.points[k] == t.points[k])
    && (forall k :: k in t.points && k.collection != c ==> k in t'.points)
    && (forall r :: r in t.lookup && r.collection != c ==> r in t'.lookup)
    && |PointsIn(t', c)| == OverLimit(|PointsIn(t, c)|)
    && |RowsIn(t', c)| == OverLimit(|RowsIn(t, c)|)
  }

  /** Some of the given rows, and the points they belong to, are gone; nothing else is. */
  ghost predicate PartlyDeleted(t: Tables, t': Tables, rows: set<LookupRow>) {
    exists gone: set<LookupRow> :: gone <= rows && t' == DeleteRows(t, gone)
  }

  lemma MoreGone(t: Tables, c: string, all: set<string>, gone: set<LookupRow>, some: set<string>)
    requires gone <= Matching(t, c, all) && some <= all
    ensures var more := Matching(DeleteRows(t, gone), c, some);
            && gone + more <= Matching(t, c, all)
            && DeleteRows(DeleteRows(t, gone), more) == DeleteRows(t, gone + more)
  {
    DeleteRowsTwice(t, gone, Matching(DeleteRows(t, gone), c, some));
  }

  lemma ChunkWithin(chunks: seq<seq<seq<string>>>, i: nat)
    requires i < |chunks|
    ensures Prefixes(chunks[i]) <= Prefixes(Concat(chunks))
  {
    hide PathSegmentsToPrefix, Concat;
    forall a | 0 <= a < |chunks[i]| ensures PathSegmentsToPrefix(chunks[i][a]) in Prefixes(Concat(chunks)) {
      ConcatHolds(chunks, i, a);
    }
  }

  lemma EmptyPathSoFar(chunks: seq<seq<seq<string>>>, i: nat)
    requires i < |chunks|
    ensures [] in Concat(chunks[..i + 1]) <==> [] in Concat(chunks[..i]) || [] in chunks[i]
  {
    assert chunks[..i + 1][..i] == chunks[..i];
  }

  lemma NothingMatches(t: Tables, c: string)
    ensures Concat([]) == [] && Matching(t, c, Prefixes([])) == {} && DeleteRows(t, {}) == t
  {
    assert Owners({}) == {};
  }

  lemma NextChunk(t: Tables, c: string, done: seq<seq<seq<string>>>, chunk: seq<seq<string>>,
                  upTo: seq<seq<seq<string>>>)
    requires upTo == done + [chunk]
    ensures var a := Matching(t, c, Prefixes(Concat(done)));
            var t1 := DeleteRows(t, a);
            var b := Matching(t1, c, Prefixes(chunk));
            var both := Matching(t, c, Prefixes(Concat(upTo)));
            DeleteRows(t1, b) == DeleteRows(t, both) && |both| == |a| + |b|
  {
    var a := Matching(t, c, Prefixes(Concat(done)));
    var b := Matching(DeleteRows(t, a), c, Prefixes(chunk));
    assert upTo[..|upTo| - 1] == done;
    PrefixesAppend(Concat(done), chunk);
    assert Matching(t, c, Prefixes(Concat(upTo))) == a + b;
    DeleteRowsTwice(t, a, b);
    assert a !! b;
  }

  lemma PrefixesAppend(a: seq<seq<string>>, b: seq<seq<string>>)
    ensures Prefixes(a + b) == Prefixes(a) + Prefixes(b)
  {
    var all := a + b;
    forall q | q in Prefixes(a) ensures q in Prefixes(all) {
      var i :| 0 <= i < |a| && q == PathSegmentsToPrefix(a[i]);
      assert all[i] == a[i];
    }
    forall q | q in Prefixes(b) ensures q in Prefixes(all) {
      var i :| 0 <= i < |b| && q == PathSegmentsToPrefix(b[i]);
      assert all[|a| + i] == b[i];
    }
  }

  lemma ClearWithinLimit(t: Tables, t': Tables, c: string)
    requires Complete(t) && ClearedInChunks(t, t', c) && |PointsIn(t, c)| <= CLEARABLE_POINTS
    ensures Complete(t')
  {
    forall k | k in t'.points ensures RowsOf(k, t'.points[k]) <= t'.lookup {
      assert k !in PointsIn(t', c);
      assert RowsOf(k, t.points[k]) <= t.lookup;
    }
  }

  /**
   The limit is exact. When every point of the collection has a path and the lookup rows fit
   in one clear, completeness survives the clear if and only if the points fit as well.
   */
  lemma ClearKeepsCompletenessIff(t: Tables, t': Tables, c: string)
    requires Complete(t) && ClearedInChunks(t, t', c)
    requires forall k :: k in t.points && k.collection == c ==> PathSegmentsToPrefix(t.points[k]) != ""
    requires |RowsIn(t, c)| <= CLEARABLE_POINTS
    ensures Complete(t') <==> |PointsIn(t, c)| <= CLEARABLE_POINTS
  {
    if |PointsIn(t, c)| <= CLEARABLE_POINTS {
      ClearWithinLimit(t, t', c);
    } else {
      assert |PointsIn(t', c)| > 0;
      var k :| k in PointsIn(t', c);
      var path := PathSegmentsToPrefix(t'.points[k]);
      ExpandedIff(path, path);
      var r := LookupRow(c, path, k.id);
      assert r in RowsOf(k, t'.points[k]);
      assert r !in RowsIn(t', c);
      assert !(RowsOf(k, t'.points[k]) <= t'.lookup);
    }
  }
}
