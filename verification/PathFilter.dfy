/**
 The `pathSegments.<i>` filter: what the index store builds and what the points service
 recognises as a list of paths, over JSON-like values.
 */
module PathFilter {
  import opened Decimals

  datatype Option<T> = None | Some(value: T)

  datatype Value = Undefined | Null | Number(n: int) | Str(s: string) | Arr(items: seq<Value>) | Obj(fields: map<string, Value>)

  /** `typeof v === "object" && v !== null`. */
  predicate IsObject(v: Value) { v.Arr? || v.Obj? }

  /** Reading a named property; the names used here are no properties of arrays. */
  function Field(v: Value, name: string): Value {
    if v.Obj? && name in v.fields then v.fields[name] else Undefined
  }

  const KEY := "pathSegments."

  // ---------------------------------------------------------------- building

  function Condition(segment: string, index: nat): Value {
    Obj(map["key" := Str(KEY + Decimal(index)), "match" := Obj(map["value" := Str(segment)])])
  }

  function Conditions(segments: seq<string>): (r: seq<Value>)
    ensures |r| == |segments|
  {
    seq(|segments|, i requires 0 <= i < |segments| => Condition(segments[i], i))
  }

  /** `pathSegmentsFilter`. */
  function PathSegmentsFilter(segments: seq<string>): Value { Obj(map["must" := Arr(Conditions(segments))]) }

  // ---------------------------------------------------------------- parsing

  datatype Pair = Pair(idx: nat, value: string)

  /** The key as `/^pathSegments\.(\d+)$/` reads it. */
  function KeyIndex(key: string): Option<nat> {
    if KEY <= key && |key| > |KEY| && Digits(key[|KEY|..]) then Some(ReadDecimal(key[|KEY|..])) else None
  }

  /** One condition of a `must` list. */
  function ReadCondition(cond: Value): Option<Pair> {
    if !IsObject(cond) then None
    else if !Field(cond, "key").Str? then None
    else
      var idx := KeyIndex(Field(cond, "key").s);
      if idx.None? then None
      else if !IsObject(Field(cond, "match")) then None
      else if !Field(Field(cond, "match"), "value").Str? then None
      else Some(Pair(idx.value, Field(Field(cond, "match"), "value").s))
  }

  /** The stable sort by index. */
  function Insert(sorted: seq<Pair>, p: Pair): seq<Pair> {
    if sorted == [] then [p]
    else if p.idx < sorted[0].idx then [p] + sorted
    else [sorted[0]] + Insert(sorted[1..], p)
  }

  function SortByIdx(pairs: seq<Pair>): seq<Pair> {
    if pairs == [] then [] else Insert(SortByIdx(pairs[..|pairs| - 1]), pairs[|pairs| - 1])
  }

  function Values(pairs: seq<Pair>): (r: seq<string>)
    ensures |r| == |pairs|
  {
    seq(|pairs|, i requires 0 <= i < |pairs| => pairs[i].value)
  }

  ghost function Mapped<T, U>(f: T -> U, s: seq<T>): (r: seq<U>)
    ensures |r| == |s| && forall k :: 0 <= k < |s| ==> r[k] == f(s[k])
  {
    if s == [] then [] else [f(s[0])] + Mapped(f, s[1..])
  }

  ghost function Idxs(pairs: seq<Pair>): (r: seq<nat>) { Mapped((p: Pair) => p.idx, pairs) }

  ghost predicate AllWellFormed(conds: seq<Value>) { forall k :: 0 <= k < |conds| ==> ReadCondition(conds[k]).Some? }

  ghost function PairOf(cond: Value): Pair {
    if ReadCondition(cond).Some? then ReadCondition(cond).value else Pair(0, "")
  }

  ghost function Pairs(conds: seq<Value>): (r: seq<Pair>)
    ensures |r| == |conds|
  {
    Mapped(PairOf, conds)
  }

  ghost function Upto(n: nat): (r: seq<nat>)
    ensures |r| == n
  {
    seq(n, i => i)
  }

  /** The indexes are 0..n-1, each once, in any order. */
  ghost predicate Contiguous(pairs: seq<Pair>) { multiset(Idxs(pairs)) == multiset(Upto(|pairs|)) }

  /** `extractMust` answers with a path: some well-formed conditions with contiguous indexes. */
  ghost predicate MustAccepted(must: Value) {
    && must.Arr? && |must.items| > 0
    && AllWellFormed(must.items) && Contiguous(Pairs(must.items))
  }

  /** Every condition's value stands where its index says. */
  ghost predicate Places(pairs: seq<Pair>, path: seq<string>) {
    |path| == |pairs| && forall k :: 0 <= k < |pairs| ==> pairs[k].idx < |path| && path[pairs[k].idx] == pairs[k].value
  }

  /**
   What a condition must look like to be read: an object whose key is `pathSegments.` and a
   digit or more, and whose match is an object with a text. Nothing else is read.
   */
  lemma ReadIff(cond: Value)
    ensures ReadCondition(cond).Some? <==>
            && cond.Obj? && "key" in cond.fields && "match" in cond.fields
            && cond.fields["match"].Obj? && "value" in cond.fields["match"].fields && cond.fields["match"].fields["value"].Str?
            && cond.fields["key"].Str?
            && exists digits :: IsNumeral(digits) && cond.fields["key"].s == "pathSegments." + digits
    ensures ReadCondition(cond).Some? ==> ReadCondition(cond).value.value == cond.fields["match"].fields["value"].s
  {
    if cond.Obj? && "key" in cond.fields && cond.fields["key"].Str? {
      KeyIndexIff(cond.fields["key"].s);
      hide KeyIndex;
    }
  }

  predicate IsNumeral(digits: string) { digits != "" && forall k :: 0 <= k < |digits| ==> digits[k] in "0123456789" }

  lemma KeyIndexIff(key: string)
    ensures KeyIndex(key).Some? <==> exists digits :: IsNumeral(digits) && key == "pathSegments." + digits
  {
    hide ReadDecimal;
    if KeyIndex(key).Some? {
      var digits := key[|KEY|..];
      assert IsNumeral(digits) && key == "pathSegments." + digits;
    }
    if digits :| IsNumeral(digits) && key == "pathSegments." + digits {
      assert key[|KEY|..] == digits;
    }
  }

  /** So a list that is accepted has such a key in every condition. */
  lemma AcceptedKeys(must: Value, k: nat)
    requires MustAccepted(must) && k < |must.items|
    ensures must.items[k].Obj? && "key" in must.items[k].fields && must.items[k].fields["key"].Str?
    ensures exists digits :: IsNumeral(digits) && must.items[k].fields["key"].s == "pathSegments." + digits
  {
    hide ReadCondition, Contiguous;
    ReadIff(must.items[k]);
  }

  method ExtractMust(must: Value) returns (r: Option<seq<string>>)
    ensures r.Some? <==> MustAccepted(must)
    ensures r.Some? ==> Places(Pairs(must.items), r.value)
  {
    hide ReadCondition, SortByIdx, Contiguous, Pairs, Places;
    if !must.Arr? || |must.items| == 0 {
      return None;
    }
    var conds := must.items;
    var pairs: seq<Pair> := [];
    for k := 0 to |conds|
      invariant |pairs| == k
      invariant forall j :: 0 <= j < k ==> ReadCondition(conds[j]) == Some(pairs[j])
    {
      var p := ReadCondition(conds[k]);
      if p.None? {
        return None;
      }
      pairs := pairs + [p.value];
    }
    var sorted := SortByIdx(pairs);
    SortingDecides(must, pairs, sorted);
    for i := 0 to |sorted|
      invariant forall j :: 0 <= j < i ==> sorted[j].idx == j
    {
      if sorted[i].idx != i {
        return None;
      }
    }
    r := Some(Values(sorted));
  }

  lemma SortingDecides(must: Value, pairs: seq<Pair>, sorted: seq<Pair>)
    requires must.Arr? && |must.items| > 0 && |pairs| == |must.items|
    requires forall j :: 0 <= j < |pairs| ==> ReadCondition(must.items[j]) == Some(pairs[j])
    requires sorted == SortByIdx(pairs)
    ensures |sorted| == |pairs|
    ensures MustAccepted(must) <==> forall i :: 0 <= i < |sorted| ==> sorted[i].idx == i
    ensures (forall i :: 0 <= i < |sorted| ==> sorted[i].idx == i) ==> Places(Pairs(must.items), Values(sorted))
  {
    hide SortByIdx, Contiguous, Sorted, Places, ReadCondition;
    assert AllWellFormed(must.items) && pairs == Pairs(must.items);
    hide Pairs;
    SortSorts(pairs);
    SortedContiguousIff(pairs, sorted);
    if forall i :: 0 <= i < |sorted| ==> sorted[i].idx == i {
      PlacedBySorting(pairs, sorted);
    }
  }

  /** What `parsePathSegmentsFilterToPaths` should say of a filter. */
  ghost predicate GroupsAccepted(groups: seq<Value>) {
    |groups| > 0 && forall k :: 0 <= k < |groups| ==> IsObject(groups[k]) && MustAccepted(Field(groups[k], "must"))
  }

  method ParsePathSegmentsFilterToPaths(filter: Value) returns (r: Option<seq<seq<string>>>)
    ensures r.Some? <==>
            if Field(filter, "must") != Undefined then MustAccepted(Field(filter, "must"))
            else Field(filter, "should").Arr? && GroupsAccepted(Field(filter, "should").items)
    ensures r.Some? && Field(filter, "must") != Undefined ==>
              |r.value| == 1 && Places(Pairs(Field(filter, "must").items), r.value[0])
    ensures r.Some? && Field(filter, "must") == Undefined ==>
              && |r.value| == |Field(filter, "should").items|
              && forall k :: 0 <= k < |r.value| ==>
                   Places(Pairs(Field(Field(filter, "should").items[k], "must").items), r.value[k])
  {
    if !IsObject(filter) {
      return None;
    }
    if Field(filter, "must") != Undefined {
      var path := ExtractMust(Field(filter, "must"));
      return if path.Some? then Some([path.value]) else None;
    }
    var should := Field(filter, "should");
    if should != Undefined {
      if !should.Arr? || |should.items| == 0 {
        return None;
      }
      var paths: seq<seq<string>> := [];
      for k := 0 to |should.items|
        invariant |paths| == k
        invariant forall j :: 0 <= j < k ==>
                    IsObject(should.items[j]) && MustAccepted(Field(should.items[j], "must"))
        invariant forall j :: 0 <= j < k ==> Places(Pairs(Field(should.items[j], "must").items), paths[j])
      {
        if !IsObject(should.items[k]) {
          return None;
        }
        var path := ExtractMust(Field(should.items[k], "must"));
        if path.None? {
          return None;
        }
        paths := paths + [path.value];
      }
      return Some(paths);
    }
    return None;
  }

  // ---------------------------------------------------------------- sorting

  ghost predicate Sorted(pairs: seq<Pair>) { forall i, j :: 0 <= i < j < |pairs| ==> pairs[i].idx <= pairs[j].idx }

  lemma HeadTail<T>(s: seq<T>)
    requires s != []
    ensures multiset(s) == multiset{s[0]} + multiset(s[1..])
  {
    assert s == [s[0]] + s[1..];
  }

  lemma {:induction false} InsertBag(sorted: seq<Pair>, p: Pair)
    ensures multiset(Insert(sorted, p)) == multiset(sorted) + multiset{p}
  {
    if sorted != [] {
      HeadTail(sorted);
      if p.idx >= sorted[0].idx {
        InsertBag(sorted[1..], p);
      }
    }
  }

  lemma {:induction false} InsertSorts(sorted: seq<Pair>, p: Pair)
    requires Sorted(sorted)
    ensures Sorted(Insert(sorted, p))
  {
    if sorted != [] && p.idx >= sorted[0].idx {
      InsertSorts(sorted[1..], p);
      InsertBag(sorted[1..], p);
      var rest := Insert(sorted[1..], p);
      forall j | 0 <= j < |rest| ensures sorted[0].idx <= rest[j].idx {
        assert rest[j] in multiset(rest);
        assert rest[j] == p || rest[j] in sorted[1..];
      }
    }
  }

  lemma {:induction false} SortSorts(pairs: seq<Pair>)
    ensures Sorted(SortByIdx(pairs)) && multiset(SortByIdx(pairs)) == multiset(pairs)
    ensures |SortByIdx(pairs)| == |pairs|
  {
    if pairs != [] {
      var m := |pairs| - 1;
      assert pairs == pairs[..m] + [pairs[m]];
      SortSorts(pairs[..m]);
      InsertSorts(SortByIdx(pairs[..m]), pairs[m]);
      InsertBag(SortByIdx(pairs[..m]), pairs[m]);
    }
    assert |SortByIdx(pairs)| == |multiset(SortByIdx(pairs))|;
    assert |pairs| == |multiset(pairs)|;
  }

  lemma CancelBag<T>(x: T, rest: multiset<T>, before: multiset<T>, after: multiset<T>)
    requires before + (multiset{x} + after) == multiset{x} + rest
    ensures before + after == rest
  {
    assert before + after == (before + (multiset{x} + after)) - multiset{x};
    assert rest == (multiset{x} + rest) - multiset{x};
  }

  lemma TakeOut<T>(x: T, rest: seq<T>, b: seq<T>) returns (before: seq<T>, after: seq<T>)
    requires multiset(b) == multiset{x} + multiset(rest)
    ensures b == before + ([x] + after)
    ensures multiset(before + after) == multiset(rest)
  {
    assert x in multiset(b);
    assert x in b;
    var k :| 0 <= k < |b| && b[k] == x;
    before, after := b[..k], b[k + 1..];
    assert b == before + ([x] + after);
    assert multiset(b) == multiset(before) + (multiset{x} + multiset(after));
    CancelBag(x, multiset(rest), multiset(before), multiset(after));
    assert multiset(before + after) == multiset(before) + multiset(after);
  }

  lemma {:induction false} MappedAppend<T, U>(f: T -> U, a: seq<T>, b: seq<T>)
    ensures Mapped(f, a + b) == Mapped(f, a) + Mapped(f, b)
  {}

  /** Mapping a permutation permutes the images. */
  lemma {:induction false} MappedPermutes<T, U>(f: T -> U, a: seq<T>, b: seq<T>)
    requires multiset(a) == multiset(b)
    ensures multiset(Mapped(f, a)) == multiset(Mapped(f, b))
    decreases |a|
  {
    if a == [] {
      assert |b| == |multiset(b)|;
    } else {
      HeadTail(a);
      var before, after := TakeOut(a[0], a[1..], b);
      MappedPermutes(f, a[1..], before + after);
      MappedCons(f, a[0], a[1..]);
      HeadTail(Mapped(f, a));
      MappedAround(f, before, a[0], after);
      SpliceBag(Mapped(f, before), f(a[0]), Mapped(f, after));
      hide Mapped;
      assert a == [a[0]] + a[1..];
    }
  }

  lemma MappedAround<T, U>(f: T -> U, before: seq<T>, x: T, after: seq<T>)
    ensures Mapped(f, before + ([x] + after)) == Mapped(f, before) + ([f(x)] + Mapped(f, after))
    ensures Mapped(f, before + after) == Mapped(f, before) + Mapped(f, after)
  {
    hide Mapped;
    MappedAppend(f, before, [x] + after);
    MappedAppend(f, before, after);
    MappedCons(f, x, after);
  }

  lemma MappedCons<T, U>(f: T -> U, x: T, rest: seq<T>)
    ensures Mapped(f, [x] + rest) == [f(x)] + Mapped(f, rest)
  {
    assert ([x] + rest)[1..] == rest;
  }

  lemma SpliceBag<U>(before: seq<U>, x: U, after: seq<U>)
    ensures multiset(before + ([x] + after)) == multiset{x} + multiset(before + after)
  {}

  lemma IdxsPermute(a: seq<Pair>, b: seq<Pair>)
    requires multiset(a) == multiset(b)
    ensures multiset(Idxs(a)) == multiset(Idxs(b))
  {
    MappedPermutes((p: Pair) => p.idx, a, b);
  }

  ghost predicate NonDecreasing(s: seq<nat>) { forall i, j :: 0 <= i < j < |s| ==> s[i] <= s[j] }

  lemma HeadsAgree(a: seq<nat>, b: seq<nat>)
    requires a != [] && b != [] && multiset(a) == multiset(b)
    requires NonDecreasing(a) && NonDecreasing(b)
    ensures a[0] == b[0] && multiset(a[1..]) == multiset(b[1..])
    ensures NonDecreasing(a[1..]) && NonDecreasing(b[1..])
  {
    assert a[0] in multiset(b) && b[0] in multiset(a);
    var i :| 0 <= i < |a| && a[i] == b[0];
    var j :| 0 <= j < |b| && b[j] == a[0];
    assert a[0] == b[0];
    HeadTail(a);
    HeadTail(b);
    CancelBag(a[0], multiset(b[1..]), multiset{}, multiset(a[1..]));
  }

  lemma {:induction false} SortedEqual(a: seq<nat>, b: seq<nat>)
    requires multiset(a) == multiset(b) && NonDecreasing(a) && NonDecreasing(b)
    ensures a == b
    decreases |a|
  {
    hide NonDecreasing;
    assert |a| == |multiset(a)| && |b| == |multiset(b)|;
    if |a| > 0 {
      HeadsAgree(a, b);
      SortedEqual(a[1..], b[1..]);
      assert a == [a[0]] + a[1..] && b == [b[0]] + b[1..];
    }
  }

  /** Sorted by index, the pairs stand at 0..n-1 exactly when their indexes are a permutation of that. */
  lemma SortedContiguousIff(pairs: seq<Pair>, sorted: seq<Pair>)
    requires Sorted(sorted) && multiset(sorted) == multiset(pairs) && |sorted| == |pairs|
    ensures Contiguous(pairs) <==> forall i :: 0 <= i < |sorted| ==> sorted[i].idx == i
  {
    IdxsPermute(sorted, pairs);
    if Contiguous(pairs) {
      SortedEqual(Idxs(sorted), Upto(|pairs|));
      assert forall i :: 0 <= i < |sorted| ==> Idxs(sorted)[i] == sorted[i].idx;
    }
    if forall i :: 0 <= i < |sorted| ==> sorted[i].idx == i {
      assert Idxs(sorted) == Upto(|pairs|);
    }
  }

  lemma PlacedBySorting(pairs: seq<Pair>, sorted: seq<Pair>)
    requires multiset(sorted) == multiset(pairs) && |sorted| == |pairs|
    requires forall i :: 0 <= i < |sorted| ==> sorted[i].idx == i
    ensures Places(pairs, Values(sorted))
  {
    forall k | 0 <= k < |pairs|
      ensures pairs[k].idx < |sorted| && sorted[pairs[k].idx] == pairs[k]
    {
      assert pairs[k] in multiset(sorted);
      assert pairs[k] in sorted;
    }
  }

  // ---------------------------------------------------------------- the round trip

  lemma ReadsItsCondition(segment: string, index: nat)
    ensures ReadCondition(Condition(segment, index)) == Some(Pair(index, segment))
  {
    var key := KEY + Decimal(index);
    assert key[|KEY|..] == Decimal(index);
    DecimalDigits(index);
    ReadsItsDecimal(index);
  }

  lemma WellFormedPermutes(a: seq<Value>, b: seq<Value>)
    requires multiset(a) == multiset(b) && AllWellFormed(a)
    ensures AllWellFormed(b) && multiset(Pairs(a)) == multiset(Pairs(b))
  {
    forall k | 0 <= k < |b| ensures ReadCondition(b[k]).Some? {
      assert b[k] in multiset(a);
    }
    MappedPermutes(PairOf, a, b);
  }

  /** A permutation of the conditions built for a path is accepted, and can only be read as that path. */
  lemma PermutedFilterMeansItsPath(segments: seq<string>, conds: seq<Value>, path: seq<string>)
    requires segments != [] && multiset(conds) == multiset(Conditions(segments))
    ensures MustAccepted(Arr(conds))
    ensures Places(Pairs(conds), path) ==> path == segments
  {
    var built := Conditions(segments);
    forall k | 0 <= k < |built| ensures ReadCondition(built[k]) == Some(Pair(k, segments[k])) {
      ReadsItsCondition(segments[k], k);
    }
    WellFormedPermutes(built, conds);
    assert |conds| == |multiset(conds)| && |built| == |multiset(built)|;
    IdxsPermute(Pairs(built), Pairs(conds));
    assert Idxs(Pairs(built)) == Upto(|built|);
    if Places(Pairs(conds), path) {
      forall k | 0 <= k < |segments| ensures path[k] == segments[k] {
        assert Pairs(built)[k] in multiset(Pairs(conds));
        assert Pair(k, segments[k]) in Pairs(conds);
      }
    }
  }

  /** The round trip through the parser, in any order of the conditions, alone or as one of several groups. */
  method RoundTrip(segments: seq<string>, conds: seq<Value>) returns (r: Option<seq<seq<string>>>)
    requires segments != [] && multiset(conds) == multiset(Conditions(segments))
    ensures r == Some([segments])
  {
    var filter := Obj(map["must" := Arr(conds)]);
    r := ParsePathSegmentsFilterToPaths(filter);
    PermutedFilterMeansItsPath(segments, conds, segments);
    assert Field(filter, "must") == Arr(conds);
    PermutedFilterMeansItsPath(segments, conds, r.value[0]);
    assert r.value == [r.value[0]];
  }

  method RoundTripGroups(paths: seq<seq<string>>, groups: seq<seq<Value>>) returns (r: Option<seq<seq<string>>>)
    requires |groups| == |paths| > 0
    requires forall k :: 0 <= k < |paths| ==>
               paths[k] != [] && multiset(groups[k]) == multiset(Conditions(paths[k]))
    ensures r == Some(paths)
  {
    var should := seq(|groups|, k requires 0 <= k < |groups| => Obj(map["must" := Arr(groups[k])]));
    var filter := Obj(map["should" := Arr(should)]);
    r := ParsePathSegmentsFilterToPaths(filter);
    assert Field(filter, "must") == Undefined && Field(filter, "should") == Arr(should);
    forall k | 0 <= k < |should| ensures Field(should[k], "must") == Arr(groups[k]) && MustAccepted(Arr(groups[k])) {
      PermutedFilterMeansItsPath(paths[k], groups[k], paths[k]);
    }
    assert GroupsAccepted(should);
    forall k | 0 <= k < |should| ensures r.value[k] == paths[k] {
      PermutedFilterMeansItsPath(paths[k], groups[k], r.value[k]);
    }
    assert r.value == paths;
  }
}
