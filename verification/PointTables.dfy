/**
 The points table and its path lookup table, as two sets of rows. Every database
 statement is one atomic change; a crash may fall between any two of them. The main
 results: the lookup table stays complete over every run, and deleting by path removes
 exactly the points that search would find under that path.
 */
module PointTables {
  import opened Paths

  datatype Key = Key(collection: string, id: string)

  datatype LookupRow = LookupRow(collection: string, filePath: string, id: string) {
    function Owner(): Key { Key(collection, id) }
  }

  /** `segments == []` stands for a payload without usable path segments. */
  datatype UpsertPoint = UpsertPoint(id: string, segments: seq<string>)

  datatype Tables = Tables(points: map<Key, seq<string>>, lookup: set<LookupRow>)

  const DELETE_COLLECTION_BATCH_SIZE := 10000
  const MAX_ITERATIONS := 10000
  const CLEARABLE_POINTS := 100_000_000
  const DELETE_FILTER_PATHS_CHUNK_SIZE := 250
  const DELETE_FILTER_PATHS_CHUNK_CONCURRENCY := 3

  // ---------------------------------------------------------------- statements

  function RowsOf(k: Key, segments: seq<string>): set<LookupRow> {
    set q | q in Expanded(PathSegmentsToPrefix(segments)) :: LookupRow(k.collection, q, k.id)
  }

  function LookupRowsFor(c: string, batch: seq<UpsertPoint>): set<LookupRow> {
    if |batch| == 0 then {}
    else RowsOf(Key(c, batch[0].id), batch[0].segments) + LookupRowsFor(c, batch[1..])
  }

  function SyncLookup(t: Tables, c: string, batch: seq<UpsertPoint>): Tables {
    t.(lookup := t.lookup + LookupRowsFor(c, batch))
  }

  function BulkUpsert(t: Tables, c: string, batch: seq<UpsertPoint>): Tables
    decreases |batch|
  {
    if |batch| == 0 then t
    else BulkUpsert(t.(points := t.points[Key(c, batch[0].id) := batch[0].segments]), c, batch[1..])
  }

  function DeleteIds(t: Tables, c: string, ids: set<string>): Tables {
    Tables(map k | k in t.points && !(k.collection == c && k.id in ids) :: t.points[k],
           set r | r in t.lookup && !(r.collection == c && r.id in ids))
  }

  function Owners(rows: set<LookupRow>): set<Key> { set r | r in rows :: r.Owner() }

  /** One batch of the delete by path: the selected rows, and the points they name. */
  function DeleteRows(t: Tables, rows: set<LookupRow>): Tables {
    Tables(t.points - Owners(rows), t.lookup - rows)
  }

  function Matching(t: Tables, c: string, prefixes: set<string>): set<LookupRow> {
    set r | r in t.lookup && r.collection == c && r.filePath in prefixes
  }

  function PointsIn(t: Tables, c: string): set<Key> { set k | k in t.points && k.collection == c }

  function RowsIn(t: Tables, c: string): set<LookupRow> { set r | r in t.lookup && r.collection == c }

  // ---------------------------------------------------------------- completeness over runs

  /** Every stored point has a lookup row for each of its path prefixes. */
  ghost predicate Complete(t: Tables) {
    forall k :: k in t.points ==> RowsOf(k, t.points[k]) <= t.lookup
  }

  datatype Phase =
    | Idle
    | Synced(batch: seq<UpsertPoint>)
    | Clearing(iterations: nat)
    | ClearingLookup

  datatype Store = Store(tables: Tables, phases: map<string, Phase>) {
    function At(c: string): Phase { if c in phases then phases[c] else Idle }
    function To(c: string, phase: Phase, t: Tables): Store { Store(t, phases[c := phase]) }
  }

  datatype Event =
    | Sync(c: string, batch: seq<UpsertPoint>)
    | Bulk(c: string)
    | Crash(c: string)
    | ById(c: string, ids: set<string>)
    | ByRows(c: string, rows: set<LookupRow>)
    | BeginClear(c: string)
    | BatchErase(c: string, keys: set<Key>)
    | ClearChunk(c: string, keys: set<Key>)
    | PointsCleared(c: string)
    | LookupChunk(c: string, rows: set<LookupRow>)
    | ClearEnd(c: string)

  /** Operations on one collection do not interleave; different collections do, freely. */
  ghost predicate Enabled(s: Store, e: Event) {
    match e
    case Sync(c, _) => s.At(c).Idle?
    case Bulk(c) => s.At(c).Synced?
    case Crash(_) => true
    case ById(c, _) => s.At(c).Idle?
    case ByRows(c, rows) => s.At(c).Idle? && rows <= RowsIn(s.tables, c)
    case BeginClear(c) => s.At(c).Idle? && |PointsIn(s.tables, c)| <= CLEARABLE_POINTS
    // A failing BATCH DELETE may have removed any part of the collection.
    case BatchErase(c, keys) => s.At(c) == Clearing(0) && keys <= PointsIn(s.tables, c)
    case ClearChunk(c, keys) =>
      && s.At(c).Clearing? && s.At(c).iterations < MAX_ITERATIONS
      && keys <= PointsIn(s.tables, c)
      && |keys| == Min(DELETE_COLLECTION_BATCH_SIZE, |PointsIn(s.tables, c)|)
    case PointsCleared(c) =>
      s.At(c).Clearing? && (PointsIn(s.tables, c) == {} || s.At(c).iterations == MAX_ITERATIONS)
    case LookupChunk(c, rows) => s.At(c).ClearingLookup? && rows <= RowsIn(s.tables, c)
    case ClearEnd(c) => s.At(c).ClearingLookup?
  }

  function Min(a: int, b: int): int { if a < b then a else b }

  ghost function Next(s: Store, e: Event): Store
    requires Enabled(s, e)
  {
    var t := s.tables;
    match e
    case Sync(c, batch) => s.To(c, Synced(batch), SyncLookup(t, c, batch))
    case Bulk(c) => s.To(c, Idle, BulkUpsert(t, c, s.At(c).batch))
    case Crash(c) => s.To(c, Idle, t)
    case ById(c, ids) => s.To(c, Idle, DeleteIds(t, c, ids))
    case ByRows(c, rows) => s.To(c, Idle, DeleteRows(t, rows))
    case BeginClear(c) => s.To(c, Clearing(0), t)
    case BatchErase(c, keys) => s.To(c, Clearing(0), t.(points := t.points - keys))
    case ClearChunk(c, keys) => s.To(c, Clearing(s.At(c).iterations + 1), t.(points := t.points - keys))
    case PointsCleared(c) => s.To(c, ClearingLookup, t)
    case LookupChunk(c, rows) => s.To(c, ClearingLookup, t.(lookup := t.lookup - rows))
    case ClearEnd(c) => s.To(c, Idle, t)
  }

  ghost predicate Runs(s: Store, events: seq<Event>)
    decreases |events|
  {
    |events| == 0 || (Enabled(s, events[0]) && Runs(Next(s, events[0]), events[1..]))
  }

  ghost function Final(s: Store, events: seq<Event>): Store
    requires Runs(s, events)
    decreases |events|
  {
    if |events| == 0 then s else Final(Next(s, events[0]), events[1..])
  }

  const EMPTY_STORE := Store(Tables(map[], {}), map[])

  ghost predicate PhaseHolds(t: Tables, c: string, phase: Phase) {
    match phase
    case Idle => true
    case Synced(batch) => LookupRowsFor(c, batch) <= t.lookup
    case Clearing(n) => |PointsIn(t, c)| <= (MAX_ITERATIONS - n) * DELETE_COLLECTION_BATCH_SIZE
    case ClearingLookup => PointsIn(t, c) == {}
  }

  ghost predicate Inv(s: Store) {
    Complete(s.tables) && forall c :: PhaseHolds(s.tables, c, s.At(c))
  }

  lemma {:induction false} BulkUpsertKeeps(t: Tables, c: string, batch: seq<UpsertPoint>)
    requires Complete(t) && LookupRowsFor(c, batch) <= t.lookup
    ensures Complete(BulkUpsert(t, c, batch))
    ensures BulkUpsert(t, c, batch).lookup == t.lookup
    ensures forall d :: d != c ==> PointsIn(BulkUpsert(t, c, batch), d) == PointsIn(t, d)
    decreases |batch|
  {
    if |batch| > 0 {
      var k := Key(c, batch[0].id);
      var t1 := t.(points := t.points[k := batch[0].segments]);
      forall j | j in t1.points ensures RowsOf(j, t1.points[j]) <= t1.lookup {
        if j != k {
          assert RowsOf(j, t.points[j]) <= t.lookup;
        }
      }
      BulkUpsertKeeps(t1, c, batch[1..]);
      forall d | d != c ensures PointsIn(t1, d) == PointsIn(t, d) {}
    }
  }

  lemma ShrinkKeepsPhase(t: Tables, t': Tables, c: string, phase: Phase)
    requires PhaseHolds(t, c, phase)
    requires PointsIn(t', c) <= PointsIn(t, c)
    requires phase.Synced? ==> RowsIn(t, c) <= t'.lookup
    ensures PhaseHolds(t', c, phase)
  {
    if phase.Clearing? {
      CardinalityMonotone(PointsIn(t', c), PointsIn(t, c));
    }
    if phase.Synced? {
      RowsBelong(c, phase.batch);
    }
  }

  lemma {:induction false} RowsBelong(c: string, batch: seq<UpsertPoint>)
    ensures forall r :: r in LookupRowsFor(c, batch) ==> r.collection == c
  {
    if |batch| > 0 {
      RowsBelong(c, batch[1..]);
    }
  }

  lemma {:induction false} CardinalityMonotone<T>(a: set<T>, b: set<T>)
    requires a <= b
    ensures |a| <= |b|
  {
    assert b == a + (b - a);
  }

  lemma OthersKeepPhase(s: Store, e: Event, d: string)
    requires Inv(s) && Enabled(s, e) && d != e.c
    ensures PhaseHolds(Next(s, e).tables, d, Next(s, e).At(d))
  {
    var t, t' := s.tables, Next(s, e).tables;
    assert PhaseHolds(t, d, s.At(d));
    if e.Bulk? {
      BulkUpsertKeeps(t, e.c, s.At(e.c).batch);
    }
    assert PointsIn(t', d) <= PointsIn(t, d);
    assert RowsIn(t, d) <= t'.lookup;
    ShrinkKeepsPhase(t, t', d, s.At(d));
  }

  lemma OwnPhase(s: Store, e: Event)
    requires Inv(s) && Enabled(s, e)
    ensures PhaseHolds(Next(s, e).tables, e.c, Next(s, e).At(e.c))
  {
    var t, t' := s.tables, Next(s, e).tables;
    assert PhaseHolds(t, e.c, s.At(e.c));
    match e
    case BatchErase(c, keys) =>
      CardinalityMonotone(PointsIn(t', c), PointsIn(t, c));
    case ClearChunk(c, keys) =>
      assert PointsIn(t', c) == PointsIn(t, c) - keys;
    case PointsCleared(c) =>
    case _ =>
  }

  lemma StepComplete(s: Store, e: Event)
    requires Inv(s) && Enabled(s, e)
    ensures Complete(Next(s, e).tables)
  {
    var t, t' := s.tables, Next(s, e).tables;
    assert PhaseHolds(t, e.c, s.At(e.c));
    if e.Bulk? {
      BulkUpsertKeeps(t, e.c, s.At(e.c).batch);
    } else {
      forall k | k in t'.points ensures RowsOf(k, t'.points[k]) <= t'.lookup {
        assert k in t.points && t'.points[k] == t.points[k];
        assert RowsOf(k, t.points[k]) <= t.lookup;
        assert e.LookupChunk? ==> k !in PointsIn(t, e.c);
        forall r | r in RowsOf(k, t.points[k]) ensures r in t'.lookup {
          assert r.Owner() == k;
        }
      }
    }
  }

  lemma StepKeeps(s: Store, e: Event)
    requires Inv(s) && Enabled(s, e)
    ensures Inv(Next(s, e))
  {
    StepComplete(s, e);
    forall d ensures PhaseHolds(Next(s, e).tables, d, Next(s, e).At(d)) {
      if d == e.c { OwnPhase(s, e); } else { OthersKeepPhase(s, e, d); }
    }
  }

  /** After any run, crashes included, no stored point is missing from the lookup table. */
  lemma {:induction false} LookupStaysComplete(s: Store, events: seq<Event>)
    requires Inv(s) && Runs(s, events)
    ensures Inv(Final(s, events)) && Complete(Final(s, events).tables)
    decreases |events|
  {
    if |events| > 0 {
      StepKeeps(s, events[0]);
      LookupStaysComplete(Next(s, events[0]), events[1..]);
    }
  }

  lemma EmptyStoreComplete()
    ensures Inv(EMPTY_STORE)
  {}

  // ---------------------------------------------------------------- exactness of subtree delete

  /** The write hypothesis: an id always carries the same path, and that path is not empty. */
  ghost predicate CarriesPath(pathOf: Key -> seq<string>, e: Event) {
    e.Sync? ==> BatchCarriesPath(pathOf, e.c, e.batch)
  }

  ghost predicate BatchCarriesPath(pathOf: Key -> seq<string>, c: string, batch: seq<UpsertPoint>) {
    forall i :: 0 <= i < |batch| ==>
      && batch[i].segments == pathOf(Key(c, batch[i].id))
      && PathSegmentsToPrefix(batch[i].segments) != ""
  }

  ghost predicate Honest(pathOf: Key -> seq<string>, s: Store) {
    && (forall k :: k in s.tables.points ==>
          s.tables.points[k] == pathOf(k) && PathSegmentsToPrefix(pathOf(k)) != "")
    && (forall r :: r in s.tables.lookup ==> r in RowsOf(r.Owner(), pathOf(r.Owner())))
    && (forall c :: s.At(c).Synced? ==> BatchCarriesPath(pathOf, c, s.At(c).batch))
  }

  lemma {:induction false} LookupRowsHonest(pathOf: Key -> seq<string>, c: string, batch: seq<UpsertPoint>)
    requires BatchCarriesPath(pathOf, c, batch)
    ensures forall r :: r in LookupRowsFor(c, batch) ==> r in RowsOf(r.Owner(), pathOf(r.Owner()))
  {
    if |batch| > 0 {
      assert BatchCarriesPath(pathOf, c, batch[1..]);
      LookupRowsHonest(pathOf, c, batch[1..]);
      assert batch[0].segments == pathOf(Key(c, batch[0].id));
    }
  }

  lemma {:induction false} BulkUpsertHonest(pathOf: Key -> seq<string>, t: Tables, c: string, batch: seq<UpsertPoint>)
    requires BatchCarriesPath(pathOf, c, batch)
    requires forall k :: k in t.points ==> t.points[k] == pathOf(k) && PathSegmentsToPrefix(pathOf(k)) != ""
    ensures var t' := BulkUpsert(t, c, batch);
            t'.lookup == t.lookup &&
            forall k :: k in t'.points ==> t'.points[k] == pathOf(k) && PathSegmentsToPrefix(pathOf(k)) != ""
    decreases |batch|
  {
    if |batch| > 0 {
      assert batch[0].segments == pathOf(Key(c, batch[0].id));
      assert BatchCarriesPath(pathOf, c, batch[1..]);
      BulkUpsertHonest(pathOf, t.(points := t.points[Key(c, batch[0].id) := batch[0].segments]), c, batch[1..]);
    }
  }

  lemma StepHonest(pathOf: Key -> seq<string>, s: Store, e: Event)
    requires Honest(pathOf, s) && Enabled(s, e) && CarriesPath(pathOf, e)
    ensures Honest(pathOf, Next(s, e))
  {
    if e.Sync? {
      LookupRowsHonest(pathOf, e.c, e.batch);
    }
    if e.Bulk? {
      BulkUpsertHonest(pathOf, s.tables, e.c, s.At(e.c).batch);
    }
    var s' := Next(s, e);
    forall c | s'.At(c).Synced? ensures BatchCarriesPath(pathOf, c, s'.At(c).batch) {
      if c != e.c {
        assert s'.At(c) == s.At(c);
      }
    }
  }

  lemma {:induction false} RunHonest(pathOf: Key -> seq<string>, s: Store, events: seq<Event>)
    requires Honest(pathOf, s) && Runs(s, events)
    requires forall i :: 0 <= i < |events| ==> CarriesPath(pathOf, events[i])
    ensures Honest(pathOf, Final(s, events))
    decreases |events|
  {
    if |events| > 0 {
      StepHonest(pathOf, s, events[0]);
      RunHonest(pathOf, Next(s, events[0]), events[1..]);
    }
  }

  function Prefixes(paths: seq<seq<string>>): set<string> {
    set i | 0 <= i < |paths| :: PathSegmentsToPrefix(paths[i])
  }

  /** What search and retrieval select: the stored prefix equals a requested one, or lies below it. */
  ghost predicate SearchSelects(paths: seq<seq<string>>, segments: seq<string>) {
    exists i :: 0 <= i < |paths| && AtOrBelow(PathSegmentsToPrefix(segments), PathSegmentsToPrefix(paths[i]))
  }

  ghost predicate UnderSome(paths: seq<seq<string>>, segments: seq<string>) {
    exists i :: 0 <= i < |paths| && paths[i] <= segments
  }

  lemma SearchSelectsIffUnderSome(paths: seq<seq<string>>, segments: seq<string>)
    requires PathSegmentsToPrefix(segments) != ""
    requires forall i :: 0 <= i < |paths| ==> |paths[i]| > 0
    ensures SearchSelects(paths, segments) <==> UnderSome(paths, segments)
  {
    forall i | 0 <= i < |paths|
      ensures AtOrBelow(PathSegmentsToPrefix(segments), PathSegmentsToPrefix(paths[i])) <==> paths[i] <= segments
    {
      AtOrBelowIffListPrefix(paths[i], segments);
    }
  }

  lemma DeletedIffUnderSome(pathOf: Key -> seq<string>, s: Store, c: string, paths: seq<seq<string>>, k: Key)
    requires Inv(s) && Honest(pathOf, s) && k in s.tables.points
    requires forall i :: 0 <= i < |paths| ==> |paths[i]| > 0
    ensures k in Owners(Matching(s.tables, c, Prefixes(paths)))
            <==> k.collection == c && UnderSome(paths, s.tables.points[k])
  {
    var t := s.tables;
    var rows := Matching(t, c, Prefixes(paths));
    var segments := t.points[k];
    if k in Owners(rows) {
      var r :| r in rows && r.Owner() == k;
      assert r in RowsOf(k, pathOf(k));
      var i :| 0 <= i < |paths| && r.filePath == PathSegmentsToPrefix(paths[i]);
      LookupMatchIffListPrefix(paths[i], segments);
    }
    if k.collection == c && UnderSome(paths, segments) {
      var i :| 0 <= i < |paths| && paths[i] <= segments;
      LookupMatchIffListPrefix(paths[i], segments);
      var r := LookupRow(c, PathSegmentsToPrefix(paths[i]), k.id);
      assert RowsOf(k, segments) <= t.lookup;
      assert r in rows;
      assert r.Owner() == k;
    }
  }

  /**
   Deleting by paths, at any point of any run that keeps each id on one path, removes from
   the collection exactly the points search would select, and touches no other point.
   */
  lemma SubtreeDeleteIsExact(pathOf: Key -> seq<string>, events: seq<Event>, c: string, paths: seq<seq<string>>)
    requires Runs(EMPTY_STORE, events)
    requires forall i :: 0 <= i < |events| ==> CarriesPath(pathOf, events[i])
    requires forall i :: 0 <= i < |paths| ==> |paths[i]| > 0
    ensures var t := Final(EMPTY_STORE, events).tables;
            var t' := DeleteRows(t, Matching(t, c, Prefixes(paths)));
            && (forall k :: k in t'.points <==>
                  k in t.points && !(k.collection == c && UnderSome(paths, t.points[k])))
            && (forall k :: k in t.points ==> (SearchSelects(paths, t.points[k]) <==> UnderSome(paths, t.points[k])))
            && (forall k :: k in t'.points ==> t'.points[k] == t.points[k])
  {
    EmptyStoreComplete();
    LookupStaysComplete(EMPTY_STORE, events);
    RunHonest(pathOf, EMPTY_STORE, events);
    var s := Final(EMPTY_STORE, events);
    forall k | k in s.tables.points
      ensures k in Owners(Matching(s.tables, c, Prefixes(paths)))
              <==> k.collection == c && UnderSome(paths, s.tables.points[k])
      ensures SearchSelects(paths, s.tables.points[k]) <==> UnderSome(paths, s.tables.points[k])
    {
      DeletedIffUnderSome(pathOf, s, c, paths, k);
      SearchSelectsIffUnderSome(paths, s.tables.points[k]);
    }
  }

  lemma RunCons(s: Store, e: Event, rest: seq<Event>)
    requires Enabled(s, e) && Runs(Next(s, e), rest)
    ensures Runs(s, [e] + rest) && Final(s, [e] + rest) == Final(Next(s, e), rest)
  {
    assert ([e] + rest)[1..] == rest;
  }

  /** Storing one point, from a state where its collection is idle. */
  lemma StoreOne(s: Store, c: string, p: UpsertPoint)
    requires s.At(c).Idle?
    ensures Runs(s, [Sync(c, [p]), Bulk(c)])
    ensures var s' := Final(s, [Sync(c, [p]), Bulk(c)]);
            && s'.At(c).Idle? && s'.tables.points == s.tables.points[Key(c, p.id) := p.segments]
            && s'.tables.lookup == s.tables.lookup + RowsOf(Key(c, p.id), p.segments)
  {
    hide Expanded, PathSegmentsToPrefix;
    var s1 := Next(s, Sync(c, [p]));
    assert [p][1..] == [];
    assert LookupRowsFor(c, [p]) == RowsOf(Key(c, p.id), p.segments) + LookupRowsFor(c, []);
    var t1 := s1.tables.(points := s1.tables.points[Key(c, p.id) := p.segments]);
    assert BulkUpsert(t1, c, []) == t1 && BulkUpsert(s1.tables, c, [p]) == BulkUpsert(t1, c, [p][1..]);
    assert Next(s1, Bulk(c)).tables == t1;
    assert Runs(Next(s1, Bulk(c)), []);
    RunCons(s1, Bulk(c), []);
    assert [Bulk(c)] + [] == [Bulk(c)];
    RunCons(s, Sync(c, [p]), [Bulk(c)]);
    assert [Sync(c, [p])] + [Bulk(c)] == [Sync(c, [p]), Bulk(c)];
  }

  lemma {:induction false} RunAppend(s: Store, a: seq<Event>, b: seq<Event>)
    requires Runs(s, a) && Runs(Final(s, a), b)
    ensures Runs(s, a + b) && Final(s, a + b) == Final(Final(s, a), b)
    decreases |a|
  {
    hide Enabled, Next;
    if |a| == 0 {
      assert a + b == b;
    } else {
      assert (a + b)[0] == a[0] && (a + b)[1..] == a[1..] + b;
      RunAppend(Next(s, a[0]), a[1..], b);
    }
  }

  /**
   Without the write hypothesis exactness fails: a point moved from path `a` to path `b`
   keeps its old lookup row, and deleting `a` takes the point at `b` with it.
   */
  lemma MovedPointIsDeletedByItsOldPath(c: string)
    ensures var events := [Sync(c, [UpsertPoint("1", ["a"])]), Bulk(c)] + [Sync(c, [UpsertPoint("1", ["b"])]), Bulk(c)];
            && Runs(EMPTY_STORE, events)
            && var t := Final(EMPTY_STORE, events).tables;
               && Key(c, "1") in t.points && t.points[Key(c, "1")] == ["b"]
               && !UnderSome([["a"]], ["b"])
               && Key(c, "1") !in DeleteRows(t, Matching(t, c, Prefixes([["a"]]))).points
  {
    var first, second, k := [Sync(c, [UpsertPoint("1", ["a"])]), Bulk(c)], [Sync(c, [UpsertPoint("1", ["b"])]), Bulk(c)], Key(c, "1");
    hide Runs, Final, RowsOf;
    StoreOne(EMPTY_STORE, c, UpsertPoint("1", ["a"]));
    var s2 := Final(EMPTY_STORE, first);
    StoreOne(s2, c, UpsertPoint("1", ["b"]));
    RunAppend(EMPTY_STORE, first, second);
    var t := Final(s2, second).tables;
    OwnRow(k);
    StrayRow(t, c);
    assert "a"[0] != "b"[0] && ["a"][0] != ["b"][0];
  }

  lemma OwnRow(k: Key)
    ensures LookupRow(k.collection, PathSegmentsToPrefix(["a"]), k.id) in RowsOf(k, ["a"])
  {
    LookupMatchIffListPrefix(["a"], ["a"]) by {
      assert EncodedSegments(["a"]) == [Encode("a")];
      assert Encode("a") == "a" by { assert "a"[1..] == ""; }
    }
  }

  lemma StrayRow(t: Tables, c: string)
    requires LookupRow(c, PathSegmentsToPrefix(["a"]), "1") in t.lookup
    ensures Key(c, "1") !in DeleteRows(t, Matching(t, c, Prefixes([["a"]]))).points
  {
    hide PathSegmentsToPrefix;
    var r := LookupRow(c, PathSegmentsToPrefix(["a"]), "1");
    assert [["a"]][0] == ["a"];
    assert r in Matching(t, c, Prefixes([["a"]]));
    assert r.Owner() == Key(c, "1");
  }

  // ---------------------------------------------------------------- any interleaving of delete chunks

  datatype BatchStep = BatchStep(chunk: nat, rows: set<LookupRow>)

  /** Delete loops of several chunks, interleaved: each step is one batch of one chunk. */
  ghost predicate BatchRun(t: Tables, c: string, chunks: seq<set<string>>, steps: seq<BatchStep>)
    decreases |steps|
  {
    if |steps| == 0 then forall i :: 0 <= i < |chunks| ==> Matching(t, c, chunks[i]) == {}
    else
      && steps[0].chunk < |chunks|
      && steps[0].rows <= Matching(t, c, chunks[steps[0].chunk])
      && BatchRun(DeleteRows(t, steps[0].rows), c, chunks, steps[1..])
  }

  ghost function BatchResult(t: Tables, steps: seq<BatchStep>): Tables
    decreases |steps|
  {
    if |steps| == 0 then t else BatchResult(DeleteRows(t, steps[0].rows), steps[1..])
  }

  ghost function DeletedBy(steps: seq<BatchStep>, chunk: nat): nat {
    if |steps| == 0 then 0
    else (if steps[0].chunk == chunk then |steps[0].rows| else 0) + DeletedBy(steps[1..], chunk)
  }

  ghost function AllPrefixes(chunks: seq<set<string>>): set<string> {
    set i, q | 0 <= i < |chunks| && q in chunks[i] :: q
  }

  lemma DeleteRowsTwice(t: Tables, a: set<LookupRow>, b: set<LookupRow>)
    ensures DeleteRows(DeleteRows(t, a), b) == DeleteRows(t, a + b)
  {
    assert Owners(a + b) == Owners(a) + Owners(b);
    assert t.points - Owners(a) - Owners(b) == t.points - (Owners(a) + Owners(b));
  }

  lemma StepSplitsMatching(t: Tables, c: string, chunks: seq<set<string>>, step: BatchStep)
    requires step.chunk < |chunks| && step.rows <= Matching(t, c, chunks[step.chunk])
    ensures var all := Matching(t, c, AllPrefixes(chunks));
            step.rows <= all && Matching(DeleteRows(t, step.rows), c, AllPrefixes(chunks)) == all - step.rows
  {
    forall r | r in step.rows ensures r.filePath in AllPrefixes(chunks) {
      assert r.filePath in chunks[step.chunk];
    }
  }

  /** The final tables do not depend on the interleaving. */
  lemma {:induction false} InterleavingsAgree(t: Tables, c: string, chunks: seq<set<string>>, steps: seq<BatchStep>)
    requires BatchRun(t, c, chunks, steps)
    ensures BatchResult(t, steps) == DeleteRows(t, Matching(t, c, AllPrefixes(chunks)))
    decreases |steps|
  {
    var all := Matching(t, c, AllPrefixes(chunks));
    if |steps| == 0 {
      forall r | r in t.lookup && r.collection == c ensures r.filePath !in AllPrefixes(chunks) {
        forall i | 0 <= i < |chunks| ensures r.filePath !in chunks[i] {
          assert r !in Matching(t, c, chunks[i]);
        }
      }
      assert all == {};
      assert t.points - Owners({}) == t.points;
    } else {
      var rows := steps[0].rows;
      StepSplitsMatching(t, c, chunks, steps[0]);
      InterleavingsAgree(DeleteRows(t, rows), c, chunks, steps[1..]);
      assert rows + (all - rows) == all;
      DeleteRowsTwice(t, rows, all - rows);
    }
  }

  /** Neither does the count each chunk reports, as chunks share no path. */
  lemma {:induction false} InterleavingsCountAlike(t: Tables, c: string, chunks: seq<set<string>>,
        steps: seq<BatchStep>, i: nat)
    requires BatchRun(t, c, chunks, steps) && i < |chunks|
    requires forall i, j :: 0 <= i < j < |chunks| ==> chunks[i] !! chunks[j]
    ensures DeletedBy(steps, i) == |Matching(t, c, chunks[i])|
    decreases |steps|
  {
    if |steps| > 0 {
      var rows, chunk := steps[0].rows, steps[0].chunk;
      var t1, mine := DeleteRows(t, rows), Matching(t, c, chunks[i]);
      InterleavingsCountAlike(t1, c, chunks, steps[1..], i);
      assert Matching(t1, c, chunks[i]) == mine - rows;
      if i == chunk {
        assert |mine - rows| == |mine| - |rows|;
      } else {
        assert chunks[i] !! chunks[chunk];
        assert mine - rows == mine;
      }
    }
  }
}
