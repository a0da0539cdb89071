/**
 When deleting by paths is exact: in every reachable state, for every list of paths, exactly
 when no stored point has a lookup row outside its own path. Storing an id again keeps that
 exactly when the new path extends the old one.
 */
module ExactDelete {
  import opened Paths
  import opened PointTables

  /** Deleting the paths removes the points of the collection under them, and no others. */
  ghost predicate ExactFor(t: Tables, c: string, paths: seq<seq<string>>) {
    forall k :: k in t.points ==>
      (k in DeleteRows(t, Matching(t, c, Prefixes(paths))).points
       <==> !(k.collection == c && UnderSome(paths, t.points[k])))
  }

  ghost predicate AlwaysExact(t: Tables, c: string) {
    forall paths: seq<seq<string>> :: (forall i :: 0 <= i < |paths| ==> |paths[i]| > 0) ==> ExactFor(t, c, paths)
  }

  /** Each lookup row of a stored point of the collection is for one of that point's own prefixes. */
  ghost predicate OwnRows(t: Tables, c: string) {
    forall r :: r in t.lookup && r.collection == c && r.Owner() in t.points ==> r in RowsOf(r.Owner(), t.points[r.Owner()])
  }

  ghost predicate PathsStored(t: Tables, c: string) {
    forall k :: k in t.points && k.collection == c ==> PathSegmentsToPrefix(t.points[k]) != ""
  }

  /** Every lookup row is for some list of segments. */
  ghost predicate RowsEncoded(t: Tables) { forall r :: r in t.lookup ==> EncodesSome(r.filePath) }

  ghost predicate EncodesSome(q: string) { exists segments: seq<string> :: |segments| > 0 && q == PathSegmentsToPrefix(segments) }

  // ---------------------------------------------------------------- rows are encoded

  lemma ExpandedEncodes(segments: seq<string>, q: string)
    requires q in Expanded(PathSegmentsToPrefix(segments))
    ensures EncodesSome(q)
  {
    hide Split, Encode, Join;
    assert |segments| > 0 by { ExpandedNotEmpty(segments, q); }
    SplitOfPrefix(segments);
    var parts := EncodedSegments(segments);
    var i :| 0 <= i < |parts| && q == Join(parts[..i + 1]);
    EncodedFront(segments, i + 1);
    assert q == PathSegmentsToPrefix(segments[..i + 1]);
  }

  lemma ExpandedNotEmpty(segments: seq<string>, q: string)
    requires q in Expanded(PathSegmentsToPrefix(segments))
    ensures |segments| > 0
  {}

  lemma EncodedFront(segments: seq<string>, n: nat)
    requires n <= |segments|
    ensures EncodedSegments(segments)[..n] == EncodedSegments(segments[..n])
  {
    hide Encode;
  }

  lemma {:induction false} LookupRowsEncoded(c: string, batch: seq<UpsertPoint>)
    ensures forall r :: r in LookupRowsFor(c, batch) ==> EncodesSome(r.filePath)
  {
    hide Expanded, PathSegmentsToPrefix, EncodesSome;
    if |batch| > 0 {
      LookupRowsEncoded(c, batch[1..]);
      forall r | r in RowsOf(Key(c, batch[0].id), batch[0].segments) ensures EncodesSome(r.filePath) {
        ExpandedEncodes(batch[0].segments, r.filePath);
      }
    }
  }

  lemma {:induction false} BulkKeepsLookup(t: Tables, c: string, batch: seq<UpsertPoint>)
    ensures BulkUpsert(t, c, batch).lookup == t.lookup
    decreases |batch|
  {
    if |batch| > 0 {
      BulkKeepsLookup(t.(points := t.points[Key(c, batch[0].id) := batch[0].segments]), c, batch[1..]);
    }
  }

  lemma StepEncoded(s: Store, e: Event)
    requires RowsEncoded(s.tables) && PointTables.Enabled(s, e)
    ensures RowsEncoded(Next(s, e).tables)
  {
    hide EncodesSome;
    if e.Sync? {
      LookupRowsEncoded(e.c, e.batch);
    } else if e.Bulk? {
      BulkKeepsLookup(s.tables, e.c, s.At(e.c).batch);
    }
  }

  lemma {:induction false} RunEncoded(s: Store, events: seq<Event>)
    requires RowsEncoded(s.tables) && Runs(s, events)
    ensures RowsEncoded(Final(s, events).tables)
    decreases |events|
  {
    hide Next, RowsEncoded;
    if |events| > 0 {
      StepEncoded(s, events[0]);
      RunEncoded(Next(s, events[0]), events[1..]);
    }
  }

  // ---------------------------------------------------------------- the exact condition

  /** A row for a requested path belongs to a point of the collection; own rows are those under it. */
  lemma OwnRowsExact(t: Tables, c: string, paths: seq<seq<string>>, k: Key)
    requires Complete(t) && OwnRows(t, c) && PathsStored(t, c) && k in t.points
    requires forall i :: 0 <= i < |paths| ==> |paths[i]| > 0
    ensures k in Owners(Matching(t, c, Prefixes(paths))) <==> k.collection == c && UnderSome(paths, t.points[k])
  {
    var rows := Matching(t, c, Prefixes(paths));
    var segments := t.points[k];
    hide PathSegmentsToPrefix, Expanded, Complete, PathsStored;
    if k in Owners(rows) {
      var r :| r in rows && r.Owner() == k;
      assert r in RowsOf(k, segments);
      var i :| 0 <= i < |paths| && r.filePath == PathSegmentsToPrefix(paths[i]);
      StoredSegments(t, c, k);
      LookupMatchIffListPrefix(paths[i], segments);
    }
    if k.collection == c && UnderSome(paths, segments) {
      var i :| 0 <= i < |paths| && paths[i] <= segments;
      StoredSegments(t, c, k);
      LookupMatchIffListPrefix(paths[i], segments);
      var r := LookupRow(c, PathSegmentsToPrefix(paths[i]), k.id);
      assert r in RowsOf(k, segments);
      CompleteHas(t, k, r);
      assert r in rows && r.Owner() == k;
    }
  }

  lemma StoredSegments(t: Tables, c: string, k: Key)
    requires PathsStored(t, c) && k in t.points && k.collection == c
    ensures |t.points[k]| > 0 && PathSegmentsToPrefix(t.points[k]) != ""
  {}

  lemma CompleteHas(t: Tables, k: Key, r: LookupRow)
    requires Complete(t) && k in t.points && r in RowsOf(k, t.points[k])
    ensures r in t.lookup
  {}

  /** A row outside its point's path makes the delete of the path it is for wrong. */
  lemma StrayRowDeletes(t: Tables, c: string, r: LookupRow, segments: seq<string>)
    requires PathsStored(t, c) && r in t.lookup && r.collection == c && r.Owner() in t.points
    requires |segments| > 0 && r.filePath == PathSegmentsToPrefix(segments)
    requires ExactFor(t, c, [segments])
    ensures r in RowsOf(r.Owner(), t.points[r.Owner()])
  {
    hide PathSegmentsToPrefix, Expanded, PathsStored;
    var k := r.Owner();
    assert [segments][0] == segments;
    assert r in Matching(t, c, Prefixes([segments]));
    assert k in Owners(Matching(t, c, Prefixes([segments])));
    assert segments <= t.points[k];
    StoredSegments(t, c, k);
    LookupMatchIffListPrefix(segments, t.points[k]);
  }

  lemma ExactIffOwnRows(t: Tables, c: string)
    requires Complete(t) && RowsEncoded(t) && PathsStored(t, c)
    ensures AlwaysExact(t, c) <==> OwnRows(t, c)
  {
    if OwnRows(t, c) {
      forall paths: seq<seq<string>> | forall i :: 0 <= i < |paths| ==> |paths[i]| > 0 ensures ExactFor(t, c, paths) {
        hide UnderSome, Matching, Prefixes, OwnRows;
        forall k | k in t.points
          ensures k in DeleteRows(t, Matching(t, c, Prefixes(paths))).points
                  <==> !(k.collection == c && UnderSome(paths, t.points[k]))
        {
          OwnRowsExact(t, c, paths, k);
        }
      }
    }
    if AlwaysExact(t, c) {
      forall r | r in t.lookup && r.collection == c && r.Owner() in t.points
        ensures r in RowsOf(r.Owner(), t.points[r.Owner()])
      {
        hide RowsOf, ExactFor, PathSegmentsToPrefix, Complete, PathsStored;
        var segments: seq<string> :| |segments| > 0 && r.filePath == PathSegmentsToPrefix(segments);
        assert ExactFor(t, c, [segments]);
        StrayRowDeletes(t, c, r, segments);
      }
    }
  }

  /**
   After every run, whatever paths its points were stored under: if the stored paths of the
   collection are not empty, deleting is exact for every list of paths exactly when each
   lookup row of a stored point is for one of that point's own prefixes.
   */
  lemma DeleteIsExactIff(events: seq<Event>, c: string)
    requires Runs(EMPTY_STORE, events) && PathsStored(Final(EMPTY_STORE, events).tables, c)
    ensures AlwaysExact(Final(EMPTY_STORE, events).tables, c) <==> OwnRows(Final(EMPTY_STORE, events).tables, c)
  {
    hide AlwaysExact, OwnRows, PathsStored;
    EmptyStoreComplete();
    LookupStaysComplete(EMPTY_STORE, events);
    RunEncoded(EMPTY_STORE, events);
    ExactIffOwnRows(Final(EMPTY_STORE, events).tables, c);
  }

  // ---------------------------------------------------------------- deleting by id

  /** `t'` is `t` without the listed ids of the collection: their points, and their lookup rows. */
  ghost predicate WithoutIds(t: Tables, t': Tables, c: string, ids: set<string>) {
    && (forall k :: k in t'.points <==> k in t.points && !(k.collection == c && k.id in ids))
    && (forall k :: k in t'.points ==> t'.points[k] == t.points[k])
    && (forall r :: r in t'.lookup <==> r in t.lookup && !(r.collection == c && r.id in ids))
  }

  /** A delete by path takes the point. */
  ghost predicate TakenBy(t: Tables, c: string, paths: seq<seq<string>>, k: Key) {
    k in t.points && k !in DeleteRows(t, Matching(t, c, Prefixes(paths))).points
  }

  /**
   After every run a delete by id removes the listed points of its collection with all their
   rows, and nothing else: every other point stays, and deletes by path treat it as before.
   */
  lemma DeleteByIdIsExact(events: seq<Event>, c: string, ids: set<string>)
    requires Runs(EMPTY_STORE, events) && PointTables.Enabled(Final(EMPTY_STORE, events), ById(c, ids))
    ensures var t, t' := Final(EMPTY_STORE, events).tables, Next(Final(EMPTY_STORE, events), ById(c, ids)).tables;
            && WithoutIds(t, t', c, ids) && Complete(t')
            && forall k, d, paths :: k in t'.points ==> (TakenBy(t', d, paths, k) <==> TakenBy(t, d, paths, k))
  {
    hide Prefixes;
    EmptyStoreComplete();
    LookupStaysComplete(EMPTY_STORE, events);
    var s := Final(EMPTY_STORE, events);
    StepComplete(s, ById(c, ids));
    var t, t' := s.tables, Next(s, ById(c, ids)).tables;
    hide Complete, Runs, Final, Inv;
    forall k, d: string, paths: seq<seq<string>> | k in t'.points ensures TakenBy(t', d, paths, k) <==> TakenBy(t, d, paths, k) {
      TakenAlike(t, t', c, ids, d, paths, k);
    }
  }

  lemma TakenAlike(t: Tables, t': Tables, c: string, ids: set<string>, d: string, paths: seq<seq<string>>, k: Key)
    requires WithoutIds(t, t', c, ids) && k in t'.points
    ensures TakenBy(t', d, paths, k) <==> TakenBy(t, d, paths, k)
  {
    hide Prefixes;
    var rows, rows' := Matching(t, d, Prefixes(paths)), Matching(t', d, Prefixes(paths));
    if k in Owners(rows) {
      var r :| r in rows && r.Owner() == k;
      assert r in rows';
    }
    if k in Owners(rows') {
      var r :| r in rows' && r.Owner() == k;
      assert r in rows;
    }
  }

  /** Nothing of the point is stored, and no write of it is under way. */
  ghost predicate Absent(s: Store, k: Key) {
    && k !in s.tables.points
    && (forall r :: r in s.tables.lookup ==> r.Owner() != k)
    && (s.At(k.collection).Synced? ==> !Carries(s.At(k.collection).batch, k.id))
  }

  predicate Carries(batch: seq<UpsertPoint>, id: string) { exists i :: 0 <= i < |batch| && batch[i].id == id }

  /** What an upsert of a batch stores: each id with the path of its last occurrence, every other point as it was. */
  lemma {:induction false} BulkStoresTheLast(t: Tables, c: string, batch: seq<UpsertPoint>, k: Key)
    ensures var t' := BulkUpsert(t, c, batch);
            && (k in t'.points <==> k in t.points || (k.collection == c && Carries(batch, k.id)))
            && (!(k.collection == c && Carries(batch, k.id)) && k in t.points ==> t'.points[k] == t.points[k])
            && (forall i :: 0 <= i < |batch| && k == Key(c, batch[i].id) && !Carries(batch[i + 1..], k.id) ==>
                  t'.points[k] == batch[i].segments)
    decreases |batch|
  {
    if |batch| > 0 {
      var t1 := t.(points := t.points[Key(c, batch[0].id) := batch[0].segments]);
      BulkStoresTheLast(t1, c, batch[1..], k);
      CarriesCons(batch, k.id);
      assert batch[0 + 1..] == batch[1..];
      forall i | 1 <= i < |batch| ensures batch[1..][i - 1] == batch[i] && batch[1..][i..] == batch[i + 1..] {}
      hide Carries;
    }
  }

  lemma CarriesCons(batch: seq<UpsertPoint>, id: string)
    requires |batch| > 0
    ensures Carries(batch, id) <==> batch[0].id == id || Carries(batch[1..], id)
  {
    if Carries(batch, id) && batch[0].id != id {
      var i :| 0 <= i < |batch| && batch[i].id == id;
      assert batch[1..][i - 1].id == id;
    }
    if i :| 0 <= i < |batch[1..]| && batch[1..][i].id == id {
      assert batch[i + 1].id == id;
    }
  }

  lemma {:induction false} RowsOfCarried(c: string, batch: seq<UpsertPoint>, r: LookupRow)
    requires r in LookupRowsFor(c, batch)
    ensures r.collection == c && Carries(batch, r.id)
  {
    hide Expanded, PathSegmentsToPrefix;
    CarriesCons(batch, r.id);
    if r !in RowsOf(Key(c, batch[0].id), batch[0].segments) {
      RowsOfCarried(c, batch[1..], r);
    }
  }

  lemma StepAbsent(s: Store, e: Event, k: Key)
    requires Absent(s, k) && PointTables.Enabled(s, e)
    requires e.Sync? && e.c == k.collection ==> !Carries(e.batch, k.id)
    ensures Absent(Next(s, e), k)
  {
    hide Carries;
    if e.Sync? {
      forall r | r in LookupRowsFor(e.c, e.batch) ensures r.Owner() != k {
        RowsOfCarried(e.c, e.batch, r);
      }
    } else if e.Bulk? {
      BulkStoresTheLast(s.tables, e.c, s.At(e.c).batch, k);
      BulkKeepsLookup(s.tables, e.c, s.At(e.c).batch);
    }
  }

  /** A deleted id is gone for good: until a batch carries it again, no run brings back the point or a row of it. */
  lemma {:induction false} DeletedStaysDeleted(s: Store, events: seq<Event>, k: Key)
    requires Absent(s, k) && Runs(s, events)
    requires forall i :: 0 <= i < |events| && events[i].Sync? && events[i].c == k.collection ==> !Carries(events[i].batch, k.id)
    ensures Absent(Final(s, events), k)
    decreases |events|
  {
    hide Absent, Next, PointTables.Enabled;
    if |events| > 0 {
      StepAbsent(s, events[0], k);
      DeletedStaysDeleted(Next(s, events[0]), events[1..], k);
    }
  }

  lemma DeletedIsAbsent(s: Store, c: string, ids: set<string>, id: string)
    requires PointTables.Enabled(s, ById(c, ids)) && id in ids
    ensures Absent(Next(s, ById(c, ids)), Key(c, id))
  {}

  // ---------------------------------------------------------------- storing an id again

  function Stored(t: Tables, c: string, p: UpsertPoint): Tables { BulkUpsert(SyncLookup(t, c, [p]), c, [p]) }

  lemma StoredIs(t: Tables, c: string, p: UpsertPoint)
    ensures Stored(t, c, p)
            == Tables(t.points[Key(c, p.id) := p.segments], t.lookup + RowsOf(Key(c, p.id), p.segments))
  {
    assert [p][1..] == [];
    assert LookupRowsFor(c, [p]) == RowsOf(Key(c, p.id), p.segments) + LookupRowsFor(c, []);
    var t1 := SyncLookup(t, c, [p]).(points := t.points[Key(c, p.id) := p.segments]);
    assert BulkUpsert(t1, c, []) == t1;
  }

  lemma ExtensionKeepsRows(k: Key, old_: seq<string>, new_: seq<string>)
    requires |old_| > 0 && old_ <= new_ && PathSegmentsToPrefix(old_) != "" && PathSegmentsToPrefix(new_) != ""
    ensures RowsOf(k, old_) <= RowsOf(k, new_)
  {
    var p, s := PathSegmentsToPrefix(old_), PathSegmentsToPrefix(new_);
    AtOrBelowIffListPrefix(old_, new_);
    hide PathSegmentsToPrefix, Expanded;
    forall q | q in Expanded(p) ensures q in Expanded(s) {
      ExpandedIff(p, q);
      ExpandedIff(s, q);
      assert q + "/" <= p && p + "/" <= s ==> q + "/" <= s;
    }
  }

  /** Storing an id again under another path keeps every row at home exactly when the path extends the old one. */
  lemma MoveKeepsOwnRowsIff(t: Tables, c: string, p: UpsertPoint)
    requires Complete(t) && OwnRows(t, c) && Key(c, p.id) in t.points
    requires PathSegmentsToPrefix(t.points[Key(c, p.id)]) != "" && PathSegmentsToPrefix(p.segments) != ""
    ensures OwnRows(Stored(t, c, p), c) <==> t.points[Key(c, p.id)] <= p.segments
  {
    var k, old_ := Key(c, p.id), t.points[Key(c, p.id)];
    var t' := Stored(t, c, p);
    StoredIs(t, c, p);
    hide Stored, PathSegmentsToPrefix, Expanded;
    assert |old_| > 0 && |p.segments| > 0 by { NotEmpty(old_); NotEmpty(p.segments); }
    if old_ <= p.segments {
      ExtensionKeepsRows(k, old_, p.segments);
    } else {
      var r := LookupRow(c, PathSegmentsToPrefix(old_), p.id);
      LookupMatchIffListPrefix(old_, old_);
      assert r in RowsOf(k, old_) && r in t'.lookup && r.Owner() == k;
      LookupMatchIffListPrefix(old_, p.segments);
      assert r !in RowsOf(k, p.segments);
    }
  }

  lemma NotEmpty(segments: seq<string>)
    requires PathSegmentsToPrefix(segments) != ""
    ensures |segments| > 0
  {}

  /**
   From a state where deletes are exact, storing an id again keeps them exact, for every list
   of paths, exactly when the new path extends the one it was stored under.
   */
  lemma MoveKeepsExactIff(t: Tables, c: string, p: UpsertPoint)
    requires Complete(t) && RowsEncoded(t) && PathsStored(t, c) && AlwaysExact(t, c)
    requires Key(c, p.id) in t.points && PathSegmentsToPrefix(p.segments) != ""
    ensures AlwaysExact(Stored(t, c, p), c) <==> t.points[Key(c, p.id)] <= p.segments
  {
    hide AlwaysExact, OwnRows, PathSegmentsToPrefix, RowsOf;
    ExactIffOwnRows(t, c);
    MoveKeepsOwnRowsIff(t, c, p);
    StoredIs(t, c, p);
    forall r | r in RowsOf(Key(c, p.id), p.segments) ensures EncodesSome(r.filePath) {
      RowEncodes(Key(c, p.id), p.segments, r);
    }
    ExactIffOwnRows(Stored(t, c, p), c);
  }

  lemma RowEncodes(k: Key, segments: seq<string>, r: LookupRow)
    requires r in RowsOf(k, segments)
    ensures EncodesSome(r.filePath)
  {
    ExpandedEncodes(segments, r.filePath);
  }
}
