/**
 Listing the files of a Git tree. The host answers either with the whole tree, already
 flattened, or, when that answer is truncated, one directory at a time; the client then
 walks the directories with a queue.
 */
module TreeListing {
  import Paths

  datatype Option<T> = None | Some(value: T)

  /** An item of a tree answer; a field that is no string (or no number) is `None`. */
  datatype Item = Item(path: Option<string>, sha: Option<string>, kind: Option<string>, size: Option<int>)

  datatype Entry = Entry(path: string, sha: string, size: Option<int>)

  datatype Result = Ok(files: seq<Entry>) | HttpError

  /** The trees the host can serve, by name: a missing one is answered with an error. */
  type Store = map<string, seq<Item>>

  /** An item the traversal looks at. */
  predicate Usable(item: Item) { item.path.Some? && item.sha.Some? && item.kind.Some? }

  predicate IsTree(item: Item) { Usable(item) && item.kind.value == "tree" }

  function PathOf(prefix: string, name: string): string { if prefix != "" then prefix + "/" + name else name }

  /** No tree contains itself, at any depth: every subtree ranks below its parent. */
  ghost predicate Acyclic(store: Store, rank: string -> nat) {
    forall sha, k :: sha in store && 0 <= k < |store[sha]| && IsTree(store[sha][k]) ==>
                       rank(store[sha][k].sha.value) < rank(sha)
  }

  // ---------------------------------------------------------------- the flattened answer

  /** The host's recursive answer, in depth-first order: every item with its full path. */
  ghost function Flat(store: Store, rank: string -> nat, sha: string, prefix: string): seq<Item>
    requires Acyclic(store, rank)
    decreases rank(sha), 1, 0
  {
    if sha in store then FlatFrom(store, rank, sha, 0, prefix) else []
  }

  ghost function FlatFrom(store: Store, rank: string -> nat, sha: string, k: nat, prefix: string): seq<Item>
    requires Acyclic(store, rank) && sha in store && k <= |store[sha]|
    decreases rank(sha), 0, |store[sha]| - k
  {
    if k == |store[sha]| then []
    else FlatItem(store, rank, sha, k, prefix) + FlatFrom(store, rank, sha, k + 1, prefix)
  }

  ghost function FlatItem(store: Store, rank: string -> nat, sha: string, k: nat, prefix: string): seq<Item>
    requires Acyclic(store, rank) && sha in store && k < |store[sha]|
    decreases rank(sha), 0, 0
  {
    var item := store[sha][k];
    var full := if item.path.Some? then item.(path := Some(PathOf(prefix, item.path.value))) else item;
    [full] + if IsTree(item) then Flat(store, rank, item.sha.value, full.path.value) else []
  }

  function ToEntry(item: Item): Entry
    requires item.path.Some?
  {
    Entry(item.path.value, if item.sha.Some? then item.sha.value else "", item.size)
  }

  predicate Kept(item: Item) {
    item.kind == Some("blob") && item.path.Some? && item.sha.Some? && |item.sha.value| > 0
  }

  function KeptEntry(item: Item): seq<Entry> { if Kept(item) then [ToEntry(item)] else [] }

  /** `treeFiles`. */
  function TreeFiles(items: seq<Item>): seq<Entry> {
    if items == [] then [] else KeptEntry(items[0]) + TreeFiles(items[1..])
  }

  // ---------------------------------------------------------------- what the traversal should find

  /** The files below a tree, as a bag. */
  ghost function Files(store: Store, rank: string -> nat, sha: string, prefix: string): multiset<Entry>
    requires Acyclic(store, rank)
    decreases rank(sha), 1, 0
  {
    if sha in store then FilesFrom(store, rank, sha, 0, prefix) else multiset{}
  }

  ghost function FilesFrom(store: Store, rank: string -> nat, sha: string, k: nat, prefix: string): multiset<Entry>
    requires Acyclic(store, rank) && sha in store && k <= |store[sha]|
    decreases rank(sha), 0, |store[sha]| - k
  {
    if k == |store[sha]| then multiset{}
    else FilesItem(store, rank, sha, k, prefix) + FilesFrom(store, rank, sha, k + 1, prefix)
  }

  ghost function FilesItem(store: Store, rank: string -> nat, sha: string, k: nat, prefix: string): multiset<Entry>
    requires Acyclic(store, rank) && sha in store && k < |store[sha]|
    decreases rank(sha), 0, 0
  {
    var item := store[sha][k];
    if IsTree(item) then Files(store, rank, item.sha.value, PathOf(prefix, item.path.value))
    else if Usable(item) && item.kind.value == "blob" then
      multiset{Entry(PathOf(prefix, item.path.value), item.sha.value, item.size)}
    else multiset{}
  }

  /** Every tree below is served. */
  ghost predicate Served(store: Store, rank: string -> nat, sha: string)
    requires Acyclic(store, rank)
    decreases rank(sha), 1, 0
  {
    sha in store && ServedFrom(store, rank, sha, 0)
  }

  ghost predicate ServedFrom(store: Store, rank: string -> nat, sha: string, k: nat)
    requires Acyclic(store, rank) && sha in store && k <= |store[sha]|
    decreases rank(sha), 0, |store[sha]| - k
  {
    k < |store[sha]| ==>
      && (IsTree(store[sha][k]) ==> Served(store, rank, store[sha][k].sha.value))
      && ServedFrom(store, rank, sha, k + 1)
  }

  /** How many trees are still to be fetched, counting repetitions. */
  ghost function Weight(store: Store, rank: string -> nat, sha: string): nat
    requires Acyclic(store, rank)
    decreases rank(sha), 1, 0
  {
    1 + if sha in store then WeightFrom(store, rank, sha, 0) else 0
  }

  ghost function WeightFrom(store: Store, rank: string -> nat, sha: string, k: nat): nat
    requires Acyclic(store, rank) && sha in store && k <= |store[sha]|
    decreases rank(sha), 0, |store[sha]| - k
  {
    if k == |store[sha]| then 0
    else
      (if IsTree(store[sha][k]) then Weight(store, rank, store[sha][k].sha.value) else 0)
      + WeightFrom(store, rank, sha, k + 1)
  }

  // ---------------------------------------------------------------- routes

  /** A way from a tree down to a file: which item to take, tree after tree. */
  predicate IsRoute(store: Store, sha: string, ks: seq<nat>)
    decreases |ks|
  {
    && |ks| > 0 && sha in store && ks[0] < |store[sha]|
    && var item := store[sha][ks[0]];
       && item.path.Some? && item.sha.Some?
       && if |ks| == 1 then item.kind == Some("blob")
          else item.kind == Some("tree") && IsRoute(store, item.sha.value, ks[1..])
  }

  function Names(store: Store, sha: string, ks: seq<nat>): (names: seq<string>)
    requires IsRoute(store, sha, ks)
    ensures names != []
    decreases |ks|
  {
    var item := store[sha][ks[0]];
    [item.path.value] + if |ks| == 1 then [] else Names(store, item.sha.value, ks[1..])
  }

  function Target(store: Store, sha: string, ks: seq<nat>): Item
    requires IsRoute(store, sha, ks)
    decreases |ks|
  {
    var item := store[sha][ks[0]];
    if |ks| == 1 then item else Target(store, item.sha.value, ks[1..])
  }

  /** Names put together, which leaves out empty ones in front. */
  function Joined(names: seq<string>): string {
    if names == [] || names[0] != "" then Paths.Join(names) else Joined(names[1..])
  }

  /** The route leads to a file listed as the entry. */
  predicate LeadsTo(store: Store, sha: string, ks: seq<nat>, e: Entry) {
    && IsRoute(store, sha, ks)
    && e.path == Joined(Names(store, sha, ks))
    && Some(e.sha) == Target(store, sha, ks).sha && e.size == Target(store, sha, ks).size
  }

  ghost function Routes(store: Store, rank: string -> nat, sha: string): set<seq<nat>>
    requires Acyclic(store, rank)
    decreases rank(sha), 1, 0
  {
    if sha in store then RoutesFrom(store, rank, sha, 0) else {}
  }

  ghost function RoutesFrom(store: Store, rank: string -> nat, sha: string, k: nat): set<seq<nat>>
    requires Acyclic(store, rank) && sha in store && k <= |store[sha]|
    decreases rank(sha), 0, |store[sha]| - k
  {
    if k == |store[sha]| then {} else RoutesItem(store, rank, sha, k) + RoutesFrom(store, rank, sha, k + 1)
  }

  ghost function RoutesItem(store: Store, rank: string -> nat, sha: string, k: nat): set<seq<nat>>
    requires Acyclic(store, rank) && sha in store && k < |store[sha]|
    decreases rank(sha), 0, 0
  {
    var item := store[sha][k];
    if IsTree(item) then set ks | ks in Routes(store, rank, item.sha.value) :: [k] + ks
    else if Usable(item) && item.kind.value == "blob" then {[k]}
    else {}
  }

  /** `Routes` is the set of all routes. */
  lemma {:induction false} RoutesAre(store: Store, rank: string -> nat, sha: string, ks: seq<nat>)
    requires Acyclic(store, rank)
    ensures ks in Routes(store, rank, sha) <==> IsRoute(store, sha, ks)
    decreases rank(sha), 1, 0
  {
    if sha in store {
      RoutesFromAre(store, rank, sha, 0, ks);
    }
  }

  lemma {:induction false} RoutesFromAre(store: Store, rank: string -> nat, sha: string, k: nat, ks: seq<nat>)
    requires Acyclic(store, rank) && sha in store && k <= |store[sha]|
    ensures ks in RoutesFrom(store, rank, sha, k) <==> IsRoute(store, sha, ks) && ks[0] >= k
    decreases rank(sha), 0, |store[sha]| - k
  {
    hide RoutesItem, Usable;
    if k < |store[sha]| {
      RoutesItemAre(store, rank, sha, k, ks);
      RoutesFromAre(store, rank, sha, k + 1, ks);
    }
  }

  lemma {:induction false} RoutesItemAre(store: Store, rank: string -> nat, sha: string, k: nat, ks: seq<nat>)
    requires Acyclic(store, rank) && sha in store && k < |store[sha]|
    ensures ks in RoutesItem(store, rank, sha, k) <==> IsRoute(store, sha, ks) && ks[0] == k
    decreases rank(sha), 0, 0
  {
    var item := store[sha][k];
    assert "tree"[0] != "blob"[0];
    if IsTree(item) {
      if ks != [] && ks[0] == k {
        RoutesAre(store, rank, item.sha.value, ks[1..]);
        assert ks == [k] + ks[1..];
        assert ks in RoutesItem(store, rank, sha, k) <==> ks[1..] in Routes(store, rank, item.sha.value) by {
          if ks in RoutesItem(store, rank, sha, k) {
            var tail :| tail in Routes(store, rank, item.sha.value) && ks == [k] + tail;
            assert ks[1..] == tail;
          }
        }
      }
    } else {
      assert |ks| == 1 && ks[0] == k ==> ks == [k];
    }
  }

  /** Below a directory the names follow its path; at the root they stand alone. */
  function Under(prefix: string, names: seq<string>): string
  {
    if prefix == "" then Joined(names) else prefix + "/" + Paths.Join(names)
  }

  ghost predicate LeadsBelow(store: Store, sha: string, prefix: string, ks: seq<nat>, e: Entry) {
    && IsRoute(store, sha, ks)
    && e.path == Under(prefix, Names(store, sha, ks))
    && Some(e.sha) == Target(store, sha, ks).sha && e.size == Target(store, sha, ks).size
  }

  ghost function Leading(store: Store, sha: string, prefix: string, routes: set<seq<nat>>, e: Entry): set<seq<nat>> {
    set ks | ks in routes && LeadsBelow(store, sha, prefix, ks, e)
  }

  lemma UnderCons(prefix: string, name: string, names: seq<string>)
    ensures Under(prefix, [name]) == PathOf(prefix, name)
    ensures names != [] ==> Under(prefix, [name] + names) == Under(PathOf(prefix, name), names)
  {
    hide Paths.Join;
    assert [name][1..] == [] && [name][0] == name;
    JoinFew(name);
    assert Joined([]) == "" && Joined([name]) == name;
    if names != [] {
      assert ([name] + names)[1..] == names && ([name] + names)[0] == name;
      Paths.JoinCons(name, names);
      if prefix != "" {
        assert |PathOf(prefix, name)| > 0;
        assert prefix + "/" + (name + "/" + Paths.Join(names)) == prefix + "/" + name + "/" + Paths.Join(names);
      }
    }
  }

  lemma JoinFew(name: string)
    ensures Paths.Join([]) == "" && Paths.Join([name]) == name
  {
  }

  /** The bag of files below a tree counts the routes to each. */
  lemma {:induction false} FilesCountRoutes(store: Store, rank: string -> nat, sha: string, prefix: string, e: Entry)
    requires Acyclic(store, rank)
    ensures Files(store, rank, sha, prefix)[e] == |Leading(store, sha, prefix, Routes(store, rank, sha), e)|
    decreases rank(sha), 1, 0
  {
    if sha in store {
      FilesFromCountRoutes(store, rank, sha, 0, prefix, e);
    } else {
      assert Leading(store, sha, prefix, {}, e) == {};
    }
  }

  lemma {:induction false} FilesFromCountRoutes(store: Store, rank: string -> nat, sha: string, k: nat, prefix: string, e: Entry)
    requires Acyclic(store, rank) && sha in store && k <= |store[sha]|
    ensures FilesFrom(store, rank, sha, k, prefix)[e] == |Leading(store, sha, prefix, RoutesFrom(store, rank, sha, k), e)|
    decreases rank(sha), 0, |store[sha]| - k
  {
    hide FilesItem, RoutesItem, LeadsBelow, Usable;
    if k < |store[sha]| {
      FilesItemCountRoutes(store, rank, sha, k, prefix, e);
      FilesFromCountRoutes(store, rank, sha, k + 1, prefix, e);
      var here, later := RoutesItem(store, rank, sha, k), RoutesFrom(store, rank, sha, k + 1);
      forall ks | ks in here ensures ks !in later {
        RoutesItemAre(store, rank, sha, k, ks);
        RoutesFromAre(store, rank, sha, k + 1, ks);
      }
      LeadingUnion(store, sha, prefix, here, later, e);
    } else {
      assert Leading(store, sha, prefix, {}, e) == {};
    }
  }

  lemma LeadingUnion(store: Store, sha: string, prefix: string, a: set<seq<nat>>, b: set<seq<nat>>, e: Entry)
    requires forall ks :: ks in a ==> ks !in b
    ensures |Leading(store, sha, prefix, a + b, e)| == |Leading(store, sha, prefix, a, e)| + |Leading(store, sha, prefix, b, e)|
  {
    hide LeadsBelow;
    assert Leading(store, sha, prefix, a + b, e) == Leading(store, sha, prefix, a, e) + Leading(store, sha, prefix, b, e);
    assert Leading(store, sha, prefix, a, e) !! Leading(store, sha, prefix, b, e);
  }

  lemma {:induction false} FilesItemCountRoutes(store: Store, rank: string -> nat, sha: string, k: nat, prefix: string, e: Entry)
    requires Acyclic(store, rank) && sha in store && k < |store[sha]|
    ensures FilesItem(store, rank, sha, k, prefix)[e] == |Leading(store, sha, prefix, RoutesItem(store, rank, sha, k), e)|
    decreases rank(sha), 0, 0
  {
    var item := store[sha][k];
    var routes := RoutesItem(store, rank, sha, k);
    if IsTree(item) {
      var path, below := PathOf(prefix, item.path.value), Routes(store, rank, item.sha.value);
      FilesCountRoutes(store, rank, item.sha.value, path, e);
      forall ks ensures [k] + ks in Leading(store, sha, prefix, routes, e) <==> ks in Leading(store, item.sha.value, path, below, e) {
        BelowItem(store, rank, sha, k, prefix, ks, e);
      }
      hide Leading;
      FirstAdded(Leading(store, item.sha.value, path, below, e), Leading(store, sha, prefix, routes, e), k);
    } else if Usable(item) && item.kind.value == "blob" {
      UnderCons(prefix, item.path.value, []);
      assert IsRoute(store, sha, [k]) && Names(store, sha, [k]) == [item.path.value] && Target(store, sha, [k]) == item;
      assert LeadsBelow(store, sha, prefix, [k], e) <==> e == Entry(PathOf(prefix, item.path.value), item.sha.value, item.size);
      assert Leading(store, sha, prefix, routes, e) == if LeadsBelow(store, sha, prefix, [k], e) then {[k]} else {};
    } else {
      assert Leading(store, sha, prefix, routes, e) == {};
    }
  }

  lemma BelowItem(store: Store, rank: string -> nat, sha: string, k: nat, prefix: string, ks: seq<nat>, e: Entry)
    requires Acyclic(store, rank) && sha in store && k < |store[sha]| && IsTree(store[sha][k])
    ensures var item := store[sha][k];
            [k] + ks in Leading(store, sha, prefix, RoutesItem(store, rank, sha, k), e)
            <==> ks in Leading(store, item.sha.value, PathOf(prefix, item.path.value), Routes(store, rank, item.sha.value), e)
  {
    var item := store[sha][k];
    assert ([k] + ks)[1..] == ks;
    RoutesAre(store, rank, item.sha.value, ks);
    RoutesItemAre(store, rank, sha, k, [k] + ks);
    if IsRoute(store, item.sha.value, ks) {
      UnderCons(prefix, item.path.value, Names(store, item.sha.value, ks));
    }
  }

  /** Putting one step in front of every route keeps their number. */
  lemma FirstAdded(below: set<seq<nat>>, routes: set<seq<nat>>, k: nat)
    requires forall ks :: [k] + ks in routes <==> ks in below
    requires forall ks :: ks in routes ==> ks != [] && ks[0] == k
    ensures |below| == |routes|
  {
    forall ks | ks in routes ensures ks[1..] in below {
      assert ks == [k] + ks[1..];
    }
    SameSize(below, routes, k);
  }

  lemma {:induction false} SameSize(below: set<seq<nat>>, routes: set<seq<nat>>, k: nat)
    requires forall ks :: ks in below ==> [k] + ks in routes
    requires forall ks :: ks in routes ==> ks != [] && ks[0] == k && ks[1..] in below
    ensures |below| == |routes|
  {
    if routes == {} {
      if ks :| ks in below {
        assert false;
      }
    } else {
      var first :| first in routes;
      assert first == [k] + first[1..];
      forall ks | ks in routes - {first} ensures ks[1..] != first[1..] {
        assert ks == [k] + ks[1..];
      }
      SameSize(below - {first[1..]}, routes - {first}, k);
    }
  }

  /**
   The files below a tree, for every store: an entry occurs as often as there are routes to
   a blob of its sha and size whose names, joined, are its path.
   */
  lemma FilesAreRoutes(store: Store, rank: string -> nat, ref: string, e: Entry)
    requires Acyclic(store, rank)
    ensures Files(store, rank, ref, "")[e] == |set ks | ks in Routes(store, rank, ref) && LeadsTo(store, ref, ks, e)|
    ensures forall ks :: ks in Routes(store, rank, ref) <==> IsRoute(store, ref, ks)
    ensures e in Files(store, rank, ref, "") <==> exists ks :: LeadsTo(store, ref, ks, e)
  {
    forall ks ensures ks in Routes(store, rank, ref) <==> IsRoute(store, ref, ks) {
      RoutesAre(store, rank, ref, ks);
    }
    FilesCountRoutes(store, rank, ref, "", e);
    var leading := set ks | ks in Routes(store, rank, ref) && LeadsTo(store, ref, ks, e);
    assert leading == Leading(store, ref, "", Routes(store, rank, ref), e);
    if ks :| LeadsTo(store, ref, ks, e) {
      assert ks in leading;
    }
    if |leading| > 0 {
      var ks :| ks in leading;
    }
  }

  /** With a name in front the path is simply the names between slashes. */
  lemma JoinedIsJoin(store: Store, ref: string, ks: seq<nat>)
    requires IsRoute(store, ref, ks) && Names(store, ref, ks)[0] != ""
    ensures Joined(Names(store, ref, ks)) == Paths.Join(Names(store, ref, ks))
  {}

  // ---------------------------------------------------------------- the queue

  datatype Pending = Pending(pathPrefix: string, sha: string)

  ghost function QueueFiles(store: Store, rank: string -> nat, queue: seq<Pending>): multiset<Entry>
    requires Acyclic(store, rank)
  {
    if queue == [] then multiset{}
    else Files(store, rank, queue[0].sha, queue[0].pathPrefix) + QueueFiles(store, rank, queue[1..])
  }

  ghost predicate QueueServed(store: Store, rank: string -> nat, queue: seq<Pending>)
    requires Acyclic(store, rank)
  {
    queue != [] ==> Served(store, rank, queue[0].sha) && QueueServed(store, rank, queue[1..])
  }

  ghost function QueueWeight(store: Store, rank: string -> nat, queue: seq<Pending>): nat
    requires Acyclic(store, rank)
  {
    if queue == [] then 0 else Weight(store, rank, queue[0].sha) + QueueWeight(store, rank, queue[1..])
  }

  lemma {:induction false} Enqueued(store: Store, rank: string -> nat, queue: seq<Pending>, p: Pending)
    requires Acyclic(store, rank)
    ensures QueueFiles(store, rank, queue + [p])
            == QueueFiles(store, rank, queue) + Files(store, rank, p.sha, p.pathPrefix)
    ensures QueueServed(store, rank, queue + [p]) <==> QueueServed(store, rank, queue) && Served(store, rank, p.sha)
    ensures QueueWeight(store, rank, queue + [p]) == QueueWeight(store, rank, queue) + Weight(store, rank, p.sha)
  {
    hide Files, Served, Weight;
    if queue == [] {
      assert queue + [p] == [p] && [p][1..] == [];
    } else {
      assert (queue + [p])[1..] == queue[1..] + [p];
      Enqueued(store, rank, queue[1..], p);
    }
  }

  /** The item loop for one tree answer: files found so far, queue so far. */
  method VisitItems(store: Store, ghost rank: string -> nat, current: Pending, queue0: seq<Pending>, files0: seq<Entry>)
    returns (queue: seq<Pending>, files: seq<Entry>)
    requires Acyclic(store, rank) && current.sha in store
    ensures multiset(files) + QueueFiles(store, rank, queue)
            == multiset(files0) + QueueFiles(store, rank, queue0) + Files(store, rank, current.sha, current.pathPrefix)
    ensures QueueServed(store, rank, queue) <==> QueueServed(store, rank, queue0) && Served(store, rank, current.sha)
    ensures QueueWeight(store, rank, queue) + 1 == QueueWeight(store, rank, queue0) + Weight(store, rank, current.sha)
  {
    hide QueueFiles, QueueServed, QueueWeight;
    var tree := store[current.sha];
    queue, files := queue0, files0;
    for k := 0 to |tree|
      invariant multiset(files) + QueueFiles(store, rank, queue)
                + FilesFrom(store, rank, current.sha, k, current.pathPrefix)
                == multiset(files0) + QueueFiles(store, rank, queue0)
                   + Files(store, rank, current.sha, current.pathPrefix)
      invariant QueueServed(store, rank, queue) && ServedFrom(store, rank, current.sha, k) <==>
                QueueServed(store, rank, queue0) && Served(store, rank, current.sha)
      invariant QueueWeight(store, rank, queue) + WeightFrom(store, rank, current.sha, k) + 1
                == QueueWeight(store, rank, queue0) + Weight(store, rank, current.sha)
    {
      var item := tree[k];
      if !item.path.Some? || !item.sha.Some? || !item.kind.Some? {
        continue;
      }
      var path := PathOf(current.pathPrefix, item.path.value);
      if item.kind.value == "tree" {
        Enqueued(store, rank, queue, Pending(path, item.sha.value));
        queue := queue + [Pending(path, item.sha.value)];
        continue;
      }
      if item.kind.value == "blob" {
        files := files + [Entry(path, item.sha.value, item.size)];
      }
    }
  }

  method ListRepositoryFiles(store: Store, ghost rank: string -> nat, ref: string, truncated: bool, recursive: seq<Item>)
    returns (r: Result)
    requires Acyclic(store, rank)
    ensures !truncated ==> r == Ok(TreeFiles(recursive))
    ensures truncated ==> (r.Ok? <==> Served(store, rank, ref))
    ensures truncated && r.Ok? ==> multiset(r.files) == Files(store, rank, ref, "")
    ensures truncated && r.Ok? ==> forall e :: e in r.files <==> exists ks :: LeadsTo(store, ref, ks, e)
  {
    if !truncated {
      return Ok(TreeFiles(recursive));
    }
    var files: seq<Entry> := [];
    var queue := [Pending("", ref)];
    Enqueued(store, rank, [], Pending("", ref));
    assert [] + [Pending("", ref)] == queue;
    while |queue| > 0
      invariant multiset(files) + QueueFiles(store, rank, queue) == Files(store, rank, ref, "")
      invariant QueueServed(store, rank, queue) <==> Served(store, rank, ref)
      decreases QueueWeight(store, rank, queue)
    {
      var current := queue[0];
      if current.sha !in store {
        return HttpError;
      }
      queue, files := VisitItems(store, rank, current, queue[1..], files);
    }
    r := Ok(files);
    forall e ensures e in files <==> exists ks :: LeadsTo(store, ref, ks, e) {
      FilesAreRoutes(store, rank, ref, e);
      assert e in files <==> e in multiset(files);
    }
  }

  // ---------------------------------------------------------------- the two listings agree

  lemma TreeFilesCons(items: seq<Item>)
    ensures TreeFiles(items) == if items == [] then [] else KeptEntry(items[0]) + TreeFiles(items[1..])
  {}

  lemma {:induction false} TreeFilesAppend(a: seq<Item>, b: seq<Item>)
    ensures TreeFiles(a + b) == TreeFiles(a) + TreeFiles(b)
  {
    hide KeptEntry, TreeFiles;
    TreeFilesCons(a);
    if a == [] {
      assert a + b == b && TreeFiles([]) + TreeFiles(b) == TreeFiles(b);
    } else {
      TreeFilesCons(a + b);
      assert (a + b)[0] == a[0] && (a + b)[1..] == a[1..] + b;
      TreeFilesAppend(a[1..], b);
    }
  }

  /** How often an entry is listed from the flattened answer. */
  ghost function Listed(items: seq<Item>, e: Entry): nat { multiset(TreeFiles(items))[e] }

  /** `treeFiles` of the flattened answer is the traversal's bag without the entries that have no sha. */
  lemma {:induction false} FlatListing(store: Store, rank: string -> nat, sha: string, prefix: string, e: Entry)
    requires Acyclic(store, rank)
    ensures Listed(Flat(store, rank, sha, prefix), e) == if e.sha == "" then 0 else Files(store, rank, sha, prefix)[e]
    decreases rank(sha), 1, 0
  {
    if sha in store {
      FlatListingFrom(store, rank, sha, 0, prefix, e);
    }
  }

  lemma {:induction false} FlatListingFrom(store: Store, rank: string -> nat, sha: string, k: nat, prefix: string, e: Entry)
    requires Acyclic(store, rank) && sha in store && k <= |store[sha]|
    ensures Listed(FlatFrom(store, rank, sha, k, prefix), e)
            == if e.sha == "" then 0 else FilesFrom(store, rank, sha, k, prefix)[e]
    decreases rank(sha), 0, |store[sha]| - k
  {
    hide FlatItem, FilesItem, TreeFiles, Kept, ToEntry;
    if k < |store[sha]| {
      FlatListingItem(store, rank, sha, k, prefix, e);
      FlatListingFrom(store, rank, sha, k + 1, prefix, e);
      ListedAppend(FlatItem(store, rank, sha, k, prefix), FlatFrom(store, rank, sha, k + 1, prefix), e);
    } else {
      assert Listed([], e) == 0 by { NothingListed(e); }
    }
  }

  lemma NothingListed(e: Entry)
    ensures Listed([], e) == 0
  {}

  lemma ListedAppend(a: seq<Item>, b: seq<Item>, e: Entry)
    ensures Listed(a + b, e) == Listed(a, e) + Listed(b, e)
  {
    TreeFilesAppend(a, b);
  }

  lemma {:induction false} FlatListingItem(store: Store, rank: string -> nat, sha: string, k: nat, prefix: string, e: Entry)
    requires Acyclic(store, rank) && sha in store && k < |store[sha]|
    ensures Listed(FlatItem(store, rank, sha, k, prefix), e)
            == if e.sha == "" then 0 else FilesItem(store, rank, sha, k, prefix)[e]
    decreases rank(sha), 0, 0
  {
    var item := store[sha][k];
    var full := if item.path.Some? then item.(path := Some(PathOf(prefix, item.path.value))) else item;
    assert TreeFiles([full]) == if Kept(full) then [ToEntry(full)] else [];
    if IsTree(item) {
      FlatListing(store, rank, item.sha.value, full.path.value, e);
      TreeFilesAppend([full], Flat(store, rank, item.sha.value, full.path.value));
    } else {
      assert FlatItem(store, rank, sha, k, prefix) == [full];
    }
  }

  /** The traversal and the flattened listing are the same bag exactly when no file it finds has an empty sha. */
  lemma TraversalIsFlatListingIff(store: Store, rank: string -> nat, ref: string)
    requires Acyclic(store, rank)
    ensures multiset(TreeFiles(Flat(store, rank, ref, ""))) == Files(store, rank, ref, "")
            <==> forall e :: e in Files(store, rank, ref, "") ==> e.sha != ""
  {
    var flat, files := multiset(TreeFiles(Flat(store, rank, ref, ""))), Files(store, rank, ref, "");
    forall e: Entry ensures flat[e] == if e.sha == "" then 0 else files[e] {
      FlatListing(store, rank, ref, "", e);
    }
    if forall e :: e in files ==> e.sha != "" {
      forall e: Entry ensures flat[e] == files[e] {
        if e.sha == "" {
          assert e !in files;
        }
      }
    }
    if flat == files {
      forall e | e in files ensures e.sha != "" {
        assert flat[e] > 0;
      }
    }
  }
}
