/**
 Listing the collections of one repository: as a key-range scan of the stored manifest
 table, as a filter of an in-memory map, and through the names given to collections.
 Texts are sequences of Unicode scalar values; the table orders its UTF-8 keys, and so
 its texts, by code point.
 */
module PrefixScan {
  import opened Decimals

  datatype Option<T> = None | Some(value: T)

  // ---------------------------------------------------------------- the two orders

  /** Code-point order, which is the order of UTF-8 keys. */
  predicate Less(a: string, b: string) {
    if b == "" then false
    else if a == "" then true
    else a[0] < b[0] || (a[0] == b[0] && Less(a[1..], b[1..]))
  }

  /** The UTF-16 code units of a text. */
  function Units(s: string): seq<int> {
    if s == "" then []
    else
      var c := s[0] as int;
      (if c < 0x1_0000 then [c] else [0xD800 + (c - 0x1_0000) / 0x400, 0xDC00 + (c - 0x1_0000) % 0x400])
      + Units(s[1..])
  }

  predicate UnitsLess(a: seq<int>, b: seq<int>) {
    if b == [] then false
    else if a == [] then true
    else a[0] < b[0] || (a[0] == b[0] && UnitsLess(a[1..], b[1..]))
  }

  /** The order of `Array.prototype.sort`. */
  predicate UnitOrder(a: string, b: string) { UnitsLess(Units(a), Units(b)) }

  predicate Bmp(s: string) { forall k :: 0 <= k < |s| ==> s[k] as int < 0x1_0000 }

  /** Beyond U+FFFF, where UTF-16 uses surrogates. */
  predicate Astral(c: char) { c as int >= 0x1_0000 }

  /** Above the surrogates, and still one code unit. */
  predicate HighBmp(c: char) { 0xE000 <= c as int < 0x1_0000 }

  /** Where the texts first differ, one goes on beyond U+FFFF and the other above the surrogates. */
  predicate Crossed(a: string, b: string) {
    a != "" && b != "" &&
    if a[0] == b[0] then Crossed(a[1..], b[1..]) else (Astral(a[0]) && HighBmp(b[0])) || (HighBmp(a[0]) && Astral(b[0]))
  }

  lemma UnitsOfFirst(s: string)
    requires s != ""
    ensures !Astral(s[0]) ==> Units(s) == [s[0] as int] + Units(s[1..])
    ensures Astral(s[0]) ==>
              && |Units(s)| >= 2 && 0xD800 <= Units(s)[0] <= 0xDBFF && Units(s)[2..] == Units(s[1..])
              && Units(s)[0] == 0xD800 + (s[0] as int - 0x1_0000) / 0x400
              && Units(s)[1] == 0xDC00 + (s[0] as int - 0x1_0000) % 0x400
  {}

  lemma TwoUnits(u: seq<int>, v: seq<int>)
    requires |u| >= 2 && |v| >= 2
    ensures UnitsLess(u, v)
            <==> u[0] < v[0] || (u[0] == v[0] && (u[1] < v[1] || (u[1] == v[1] && UnitsLess(u[2..], v[2..]))))
  {
    assert u[1..][0] == u[1] && v[1..][0] == v[1];
    assert u[1..][1..] == u[2..] && v[1..][1..] == v[2..];
    assert UnitsLess(u[1..], v[1..]) <==> u[1] < v[1] || (u[1] == v[1] && UnitsLess(u[2..], v[2..]));
  }

  lemma DifferentFirst(a: string, b: string)
    requires a != "" && b != "" && a[0] != b[0]
    ensures (UnitOrder(a, b) <==> a[0] < b[0]) <==> !Crossed(a, b)
  {
    UnitsOfFirst(a);
    UnitsOfFirst(b);
    hide Units;
    var x, y := a[0] as int, b[0] as int;
    assert a[0] < b[0] <==> x < y;
    if Astral(a[0]) && Astral(b[0]) {
      AstralOrder(x - 0x1_0000, y - 0x1_0000);
      TwoUnits(Units(a), Units(b));
    }
  }

  lemma AstralOrder(x: nat, y: nat)
    requires x != y
    ensures x < y <==> x / 0x400 < y / 0x400 || (x / 0x400 == y / 0x400 && x % 0x400 < y % 0x400)
    ensures x / 0x400 != y / 0x400 || x % 0x400 != y % 0x400
  {}

  lemma SameFirst(a: string, b: string)
    requires a != "" && b != "" && a[0] == b[0]
    ensures UnitOrder(a, b) <==> UnitOrder(a[1..], b[1..])
  {
    UnitsOfFirst(a);
    UnitsOfFirst(b);
    var u, v := Units(a), Units(b);
    hide Units;
    if Astral(a[0]) {
      TwoUnits(u, v);
    } else {
      assert u[1..] == Units(a[1..]) && v[1..] == Units(b[1..]);
    }
  }

  /** Code-point order and code-unit order say the same of two texts exactly when these do not cross. */
  lemma {:induction false} OrdersAgreeIff(a: string, b: string)
    ensures (UnitOrder(a, b) <==> Less(a, b)) <==> !Crossed(a, b)
  {
    if a != "" && b != "" {
      if a[0] == b[0] {
        SameFirst(a, b);
        OrdersAgreeIff(a[1..], b[1..]);
      } else {
        DifferentFirst(a, b);
      }
    } else {
      EmptyUnits(a);
      EmptyUnits(b);
    }
  }

  lemma EmptyUnits(s: string)
    ensures Units(s) == [] <==> s == ""
  {}

  /** Without characters beyond U+FFFF the two orders are one. */
  lemma OrdersAgree(a: string, b: string)
    requires Bmp(a) && Bmp(b)
    ensures UnitOrder(a, b) <==> Less(a, b)
  {
    OrdersAgreeIff(a, b);
    BmpNotCrossed(a, b);
  }

  lemma {:induction false} BmpNotCrossed(a: string, b: string)
    requires Bmp(a) && Bmp(b)
    ensures !Crossed(a, b)
  {
    if a != "" && b != "" && a[0] == b[0] {
      BmpNotCrossed(a[1..], b[1..]);
    }
  }

  lemma {:induction false} LessStrict(a: string, b: string)
    ensures !(Less(a, b) && Less(b, a)) && (Less(a, b) || Less(b, a) || a == b)
    decreases |a|
  {
    if a != "" && b != "" {
      LessStrict(a[1..], b[1..]);
      assert a == [a[0]] + a[1..] && b == [b[0]] + b[1..];
    }
  }

  lemma {:induction false} LessTrans(a: string, b: string, c: string)
    requires Less(a, b) && Less(b, c)
    ensures Less(a, c)
    decreases |b|
  {
    if a != "" && b[0] == c[0] && a[0] == b[0] {
      LessTrans(a[1..], b[1..], c[1..]);
    }
  }

  lemma {:induction false} LessCancel(common: string, a: string, b: string)
    ensures Less(common + a, common + b) <==> Less(a, b)
  {
    if common == "" {
      assert common + a == a && common + b == b;
    } else {
      assert (common + a)[1..] == common[1..] + a && (common + b)[1..] == common[1..] + b;
      LessCancel(common[1..], a, b);
    }
  }

  // ---------------------------------------------------------------- the upper bound of a prefix

  /** Whether adding one to a character's code point gives another character. */
  predicate HasSuccessor(c: char) { c as int != 0xD7FF && c as int != 0x10FFFF }

  /**
   `stringPrefixUpperBound`. `None` where the source has no text to send: it throws past
   U+10FFFF, and past U+D7FF it builds a lone surrogate, which is not UTF-8 text.
   */
  function UpperBound(prefix: string): Option<string> {
    if prefix == "" then Some("\U{10ffff}")
    else
      var last := prefix[|prefix| - 1];
      if HasSuccessor(last) then Some(prefix[..|prefix| - 1] + [(last as int + 1) as char]) else None
  }

  /** The condition of the scan: `key >= prefix AND key < end`. */
  predicate InRange(key: string, prefix: string, end: string) { !Less(key, prefix) && Less(key, end) }

  lemma {:induction false} RangeOfNonEmpty(key: string, prefix: string)
    requires prefix != "" && UpperBound(prefix).Some?
    ensures InRange(key, prefix, UpperBound(prefix).value) <==> prefix <= key
  {
    var end := UpperBound(prefix).value;
    if key != "" {
      if |prefix| == 1 {
        assert prefix[1..] == "" && end[1..] == "";
        assert Less(key, end) <==> key[0] < end[0];
        assert Less(key, prefix) <==> key[0] < prefix[0];
        assert end[0] as int == prefix[0] as int + 1;
        assert key[0] < end[0] <==> key[0] as int < prefix[0] as int + 1;
        assert key[0] == prefix[0] <==> key[0] as int == prefix[0] as int;
        assert prefix <= key <==> prefix[0] == key[0];
      } else {
        assert UpperBound(prefix[1..]).value == end[1..];
        RangeOfNonEmpty(key[1..], prefix[1..]);
        assert prefix <= key <==> prefix[0] == key[0] && prefix[1..] <= key[1..] by {
          if prefix[0] == key[0] && prefix[1..] <= key[1..] {
            assert prefix == [prefix[0]] + prefix[1..] && key == [key[0]] + key[1..];
          }
        }
      }
    }
  }

  /** Where there is an upper bound, the range is the prefix filter exactly when the prefix is not empty. */
  lemma RangeIsPrefixFilterIff(prefix: string)
    requires UpperBound(prefix).Some?
    ensures (forall key :: InRange(key, prefix, UpperBound(prefix).value) <==> prefix <= key) <==> prefix != ""
  {
    if prefix == "" {
      var key := "\U{10ffff}";
      assert Less("", "") == false && key[1..] == "";
      assert !InRange(key, prefix, UpperBound(prefix).value) && prefix <= key;
    } else {
      forall key ensures InRange(key, prefix, UpperBound(prefix).value) <==> prefix <= key {
        RangeOfNonEmpty(key, prefix);
      }
    }
  }

  // ---------------------------------------------------------------- the two listings

  ghost predicate Ascending(items: seq<string>) {
    forall i, j :: 0 <= i < j < |items| ==> Less(items[i], items[j])
  }

  ghost predicate UnitAscending(items: seq<string>) {
    forall i, j :: 0 <= i < j < |items| ==> UnitOrder(items[i], items[j])
  }

  function ManifestId(userUid: string, collection: string): string { userUid + "/" + collection }

  function Sliced(ids: seq<string>, n: nat): (r: seq<string>)
    ensures |r| == |ids|
  {
    seq(|ids|, i requires 0 <= i < |ids| => if n <= |ids[i]| then ids[i][n..] else "")
  }

  /** The stored listing: range scan, ordered by key, the user part cut off. */
  ghost predicate StoredListing(keys: set<string>, userUid: string, prefix: string, out: seq<string>) {
    var start := ManifestId(userUid, prefix);
    && UpperBound(start).Some?
    && exists ids: seq<string> ::
         && Ascending(ids)
         && (forall id :: id in ids <==> id in keys && InRange(id, start, UpperBound(start).value))
         && out == Sliced(ids, |userUid| + 1)
  }

  /** The in-memory listing: prefix filter, the user part cut off, then sorted. */
  ghost predicate MemoryListing(keys: set<string>, userUid: string, prefix: string, out: seq<string>) {
    && UnitAscending(out)
    && forall c :: c in out <==> ManifestId(userUid, c) in keys && prefix <= c
  }

  lemma {:induction false} SortedUnique(a: seq<string>, b: seq<string>)
    requires Ascending(a) && Ascending(b)
    requires forall x :: x in a <==> x in b
    ensures a == b
  {
    assert |b| > 0 ==> b[0] in b;
    if |a| > 0 {
      assert a[0] in b;
      assert b[0] in a;
      var i :| 0 <= i < |b| && b[i] == a[0];
      var j :| 0 <= j < |a| && a[j] == b[0];
      LessStrict(a[0], b[0]);
      assert a[0] == b[0];
      forall x ensures x in a[1..] <==> x in b[1..] {
        TailMember(a, x);
        TailMember(b, x);
      }
      SortedUnique(a[1..], b[1..]);
      assert a == [a[0]] + a[1..] && b == [b[0]] + b[1..];
    }
  }

  lemma TailMember(a: seq<string>, x: string)
    requires |a| > 0 && Ascending(a)
    ensures x in a[1..] <==> x in a && x != a[0]
  {
    if x in a && x != a[0] {
      var k :| 0 <= k < |a| && a[k] == x;
      assert a[1..][k - 1] == x;
    }
    if x in a[1..] {
      var k :| 0 <= k < |a[1..]| && a[1..][k] == x;
      assert a[k + 1] == x && Less(a[0], a[k + 1]);
      LessStrict(x, x);
    }
  }

  lemma IdPrefix(userUid: string, prefix: string, id: string)
    ensures ManifestId(userUid, prefix) <= id <==>
            |userUid| + 1 <= |id| && id == ManifestId(userUid, id[|userUid| + 1..]) && prefix <= id[|userUid| + 1..]
  {
    var n := |userUid| + 1;
    var start := ManifestId(userUid, prefix);
    assert start[..n] == userUid + "/" && start[n..] == prefix;
    if start <= id {
      assert id[..n] == start[..n];
      assert id == id[..n] + id[n..];
      assert prefix == id[n..][..|prefix|];
    }
    if n <= |id| && id == ManifestId(userUid, id[n..]) && prefix <= id[n..] {
      assert id == (userUid + "/") + prefix + id[n..][|prefix|..];
    }
  }

  lemma CutKeepsOrder(userUid: string, a: string, b: string)
    requires |userUid| + 1 <= |a| && a == ManifestId(userUid, a[|userUid| + 1..])
    requires |userUid| + 1 <= |b| && b == ManifestId(userUid, b[|userUid| + 1..])
    requires Less(a, b)
    ensures Less(a[|userUid| + 1..], b[|userUid| + 1..])
  {
    LessCancel(userUid + "/", a[|userUid| + 1..], b[|userUid| + 1..]);
  }

  /** Both listings give the same collections in the same order when no key leaves the BMP. */
  lemma ListingsAgree(keys: set<string>, userUid: string, prefix: string, stored: seq<string>, listed: seq<string>)
    requires forall k :: k in keys ==> Bmp(k)
    requires StoredListing(keys, userUid, prefix, stored) && MemoryListing(keys, userUid, prefix, listed)
    ensures stored == listed
  {
    var start, n := ManifestId(userUid, prefix), |userUid| + 1;
    var ids: seq<string> :| && Ascending(ids)
                            && (forall id :: id in ids <==> id in keys && InRange(id, start, UpperBound(start).value))
                            && stored == Sliced(ids, n);
    forall k | 0 <= k < |ids|
      ensures n <= |ids[k]| && ids[k] == ManifestId(userUid, stored[k]) && prefix <= stored[k] && stored[k] == ids[k][n..]
    {
      assert ids[k] in ids;
      RangeOfNonEmpty(ids[k], start);
      IdPrefix(userUid, prefix, ids[k]);
    }
    forall i, j | 0 <= i < j < |stored| ensures Less(stored[i], stored[j]) {
      CutKeepsOrder(userUid, ids[i], ids[j]);
    }
    forall i, j | 0 <= i < j < |listed| ensures Less(listed[i], listed[j]) {
      assert listed[i] in listed && listed[j] in listed;
      BmpTail(userUid, listed[i]);
      BmpTail(userUid, listed[j]);
      OrdersAgree(listed[i], listed[j]);
    }
    forall c ensures c in stored <==> c in listed {
      if c in stored {
        var k :| 0 <= k < |stored| && stored[k] == c;
        assert ids[k] in ids;
      }
      if c in listed {
        var id := ManifestId(userUid, c);
        assert id[n..] == c;
        IdPrefix(userUid, prefix, id);
        RangeOfNonEmpty(id, start);
        assert id in ids;
        var k :| 0 <= k < |ids| && ids[k] == id;
        assert stored[k] == c;
      }
    }
    SortedUnique(stored, listed);
  }

  lemma BmpTail(userUid: string, c: string)
    requires Bmp(ManifestId(userUid, c))
    ensures Bmp(c)
  {
    forall k | 0 <= k < |c| ensures c[k] as int < 0x1_0000 {
      assert ManifestId(userUid, c)[|userUid| + 1 + k] == c[k];
    }
  }

  // ---------------------------------------------------------------- names

  predicate Alnum(c: char) { 'a' <= c <= 'z' || 'A' <= c <= 'Z' || '0' <= c <= '9' }

  function Cleaned(s: string): (r: string)
    ensures |r| == |s| && forall k :: 0 <= k < |r| ==> Alnum(r[k]) || r[k] == '_'
  {
    seq(|s|, k requires 0 <= k < |s| => if Alnum(s[k]) then s[k] else '_')
  }

  /** `replace(/_+/g, "_")`. */
  function Collapsed(s: string): string {
    if |s| < 2 then s
    else if s[0] == '_' && s[1] == '_' then Collapsed(s[1..])
    else [s[0]] + Collapsed(s[1..])
  }

  function ToLower(c: char): char { if 'A' <= c <= 'Z' then (c as int + 32) as char else c }

  function Lowered(s: string): (r: string)
    ensures |r| == |s| && forall k :: 0 <= k < |r| ==> r[k] == ToLower(s[k])
  {
    seq(|s|, k requires 0 <= k < |s| => ToLower(s[k]))
  }

  function TrimLeft(s: string): string { if s != "" && s[0] == '_' then TrimLeft(s[1..]) else s }

  function TrimRight(s: string): string
  {
    if s != "" && s[|s| - 1] == '_' then TrimRight(s[..|s| - 1]) else s
  }

  function SanitizeIdentifier(value: string): string {
    var lowered := TrimRight(TrimLeft(Lowered(Collapsed(Cleaned(value)))));
    if lowered != "" then lowered else "index"
  }

  predicate NameChar(c: char) { 'a' <= c <= 'z' || '0' <= c <= '9' || c == '_' }

  ghost predicate NoDouble(s: string) { forall k, j :: 0 <= k && j == k + 1 && j < |s| ==> !(s[k] == '_' && s[j] == '_') }

  /** A name that needs no cleaning. */
  ghost predicate CleanName(s: string) {
    && s != "" && s[0] != '_' && s[|s| - 1] != '_'
    && (forall k :: 0 <= k < |s| ==> NameChar(s[k]))
    && NoDouble(s)
  }

  lemma {:induction false} CollapsedId(s: string)
    requires NoDouble(s)
    ensures Collapsed(s) == s
  {
    if |s| >= 2 {
      forall k, j | 0 <= k && j == k + 1 && j < |s[1..]| ensures !(s[1..][k] == '_' && s[1..][j] == '_') {
        assert s[1..][k] == s[k + 1] && s[1..][j] == s[j + 1];
      }
      CollapsedId(s[1..]);
    }
  }

  lemma SanitizeKeepsClean(s: string)
    requires CleanName(s)
    ensures SanitizeIdentifier(s) == s
  {
    assert Cleaned(s) == s;
    CollapsedId(s);
    assert Lowered(s) == s;
  }

  lemma {:induction false} CollapsedNoDouble(s: string)
    requires forall k :: 0 <= k < |s| ==> Alnum(s[k]) || s[k] == '_'
    ensures var r := Collapsed(s);
            NoDouble(r) && (forall k :: 0 <= k < |r| ==> Alnum(r[k]) || r[k] == '_') && (s != "" ==> r != "" && r[0] == s[0])
  {
    if |s| >= 2 {
      CollapsedNoDouble(s[1..]);
    }
  }

  lemma {:induction false} TrimmedIsClean(s: string)
    requires NoDouble(s) && forall k :: 0 <= k < |s| ==> NameChar(s[k])
    ensures var r := TrimRight(TrimLeft(s)); r == "" || CleanName(r)
    decreases |s|
  {
    if s != "" && s[0] == '_' {
      var t := s[1..];
      forall k, j | 0 <= k && j == k + 1 && j < |t| ensures !(t[k] == '_' && t[j] == '_') {
        assert t[k] == s[k + 1] && t[j] == s[j + 1];
      }
      TrimmedIsClean(t);
    } else {
      RightTrimmedIsClean(s);
    }
  }

  lemma {:induction false} RightTrimmedIsClean(s: string)
    requires NoDouble(s) && (s == "" || s[0] != '_') && forall k :: 0 <= k < |s| ==> NameChar(s[k])
    ensures TrimRight(s) == "" || CleanName(TrimRight(s))
  {
    if s != "" && s[|s| - 1] == '_' {
      RightTrimmedIsClean(s[..|s| - 1]);
    }
  }

  /** Every sanitized identifier is clean, so sanitizing twice is sanitizing once. */
  lemma SanitizeIsClean(value: string)
    ensures CleanName(SanitizeIdentifier(value))
    ensures SanitizeIdentifier(SanitizeIdentifier(value)) == SanitizeIdentifier(value)
  {
    CollapsedNoDouble(Cleaned(value));
    var c := Collapsed(Cleaned(value));
    forall k | 0 <= k < |c| ensures NameChar(Lowered(c)[k]) && (Lowered(c)[k] == '_' <==> c[k] == '_') {}
    forall k, j | 0 <= k && j == k + 1 && j < |c| ensures !(Lowered(c)[k] == '_' && Lowered(c)[j] == '_') {
      assert !(c[k] == '_' && c[j] == '_');
    }
    TrimmedIsClean(Lowered(c));
    SanitizeKeepsClean(SanitizeIdentifier(value));
  }

  function RepoName(repoId: nat): string { "gh_repo_" + Decimal(repoId) }

  function UserUidForInstallation(installationId: nat): string {
    SanitizeIdentifier("gh_installation_" + Decimal(installationId))
  }

  function DefaultBranchCollection(repoId: nat): string { SanitizeIdentifier(RepoName(repoId) + "_default") }

  function PullRequestCollection(repoId: nat, prNumber: nat): string {
    SanitizeIdentifier(RepoName(repoId) + "_pr_" + Decimal(prNumber))
  }

  function RepoCollectionPrefix(repoId: nat): string { SanitizeIdentifier(RepoName(repoId)) + "_" }

  /** The collections of a repository. */
  ghost predicate CollectionOf(repoId: nat, collection: string) {
    collection == DefaultBranchCollection(repoId) || exists n: nat :: collection == PullRequestCollection(repoId, n)
  }

  lemma NumberedIsClean(head: string, n: nat)
    requires CleanName(head + "0")
    ensures CleanName(head + Decimal(n))
  {
    DecimalDigits(n);
    var s, d, h := head + Decimal(n), Decimal(n), |head|;
    forall k | 0 <= k < |s| ensures NameChar(s[k]) {
      if k < h {
        assert (head + "0")[k] == s[k];
      }
    }
    forall k, j | 0 <= k && j == k + 1 && j < |s| ensures !(s[k] == '_' && s[j] == '_') {
      if j < h {
        assert (head + "0")[k] == s[k] && (head + "0")[j] == s[j];
      }
    }
    assert s[0] == (head + "0")[0] || h == 0;
    assert s[|s| - 1] == d[|d| - 1];
  }

  /** A clean word after `_` keeps a clean name clean. */
  lemma JoinedIsClean(a: string, b: string)
    requires CleanName(a) && CleanName(b)
    ensures CleanName(a + "_" + b)
  {
    var s, m := a + "_" + b, |a|;
    assert s[|s| - 1] == b[|b| - 1];
    forall k | 0 <= k < |s| ensures NameChar(s[k]) {
      assert k > m ==> s[k] == b[k - m - 1];
    }
    forall k, j | 0 <= k && j == k + 1 && j < |s| ensures !(s[k] == '_' && s[j] == '_') {
      if j < m {
        assert s[k] == a[k] && s[j] == a[j];
      } else if j == m {
        assert s[k] == a[|a| - 1];
      } else if k == m {
        assert s[j] == b[0];
      } else {
        assert s[k] == b[k - m - 1] && s[j] == b[j - m - 1];
      }
    }
  }

  lemma NamesAreClean(repoId: nat)
    ensures CleanName(RepoName(repoId))
    ensures DefaultBranchCollection(repoId) == RepoName(repoId) + "_" + "default"
    ensures forall n: nat :: PullRequestCollection(repoId, n) == RepoName(repoId) + "_" + ("pr_" + Decimal(n))
    ensures RepoCollectionPrefix(repoId) == RepoName(repoId) + "_"
  {
    hide SanitizeIdentifier, Decimal;
    NumberIsClean("gh_repo_", repoId);
    SanitizeKeepsClean(RepoName(repoId));
    assert CleanName("default");
    hide CleanName;
    JoinedIsClean(RepoName(repoId), "default");
    assert RepoName(repoId) + "_default" == RepoName(repoId) + "_" + "default";
    SanitizeKeepsClean(RepoName(repoId) + "_default");
    forall n: nat ensures PullRequestCollection(repoId, n) == RepoName(repoId) + "_" + ("pr_" + Decimal(n)) {
      PullRequestIsClean(repoId, n);
    }
  }

  lemma PullRequestIsClean(repoId: nat, n: nat)
    requires CleanName(RepoName(repoId))
    ensures PullRequestCollection(repoId, n) == RepoName(repoId) + "_" + ("pr_" + Decimal(n))
  {
    hide SanitizeIdentifier, Decimal, RepoName;
    NumberIsClean("pr_", n);
    hide CleanName;
    JoinedIsClean(RepoName(repoId), "pr_" + Decimal(n));
    assert RepoName(repoId) + "_pr_" + Decimal(n) == RepoName(repoId) + "_" + ("pr_" + Decimal(n));
    SanitizeKeepsClean(RepoName(repoId) + "_pr_" + Decimal(n));
  }

  lemma NumberIsClean(head: string, n: nat)
    requires head == "gh_repo_" || head == "pr_"
    ensures CleanName(head + Decimal(n))
  {
    NumberedIsClean(head, n);
  }

  ghost predicate FirstAt(s: string, c: char, n: nat) {
    n < |s| && s[n] == c && forall k :: 0 <= k < n ==> s[k] != c
  }

  /** Where two texts built as digits, `_`, rest agree, their digits agree. */
  lemma DigitsBeforeUnderscore(a: string, x: string, b: string, y: string)
    requires Digits(a) && Digits(b)
    requires a + "_" + x == b + "_" + y
    ensures a == b
  {
    var s, t := a + "_" + x, b + "_" + y;
    assert s[|a|] == '_' && t[|b|] == '_';
    assert FirstAt(s, '_', |a|) && FirstAt(t, '_', |b|);
    assert s[..|a|] == a && t[..|b|] == b;
  }

  lemma SameNumber(head: string, m: nat, x: string, n: nat, y: string)
    requires head + Decimal(m) + "_" + x == head + Decimal(n) + "_" + y
    ensures m == n
  {
    hide Decimal;
    DecimalDigits(m);
    DecimalDigits(n);
    var a, b := Decimal(m), Decimal(n);
    assert (head + a + "_" + x)[|head|..] == a + "_" + x;
    assert (head + b + "_" + y)[|head|..] == b + "_" + y;
    DigitsBeforeUnderscore(a, x, b, y);
    DecimalInjective(m, n);
  }

  lemma CollectionRest(repoId: nat, collection: string) returns (rest: string)
    requires CollectionOf(repoId, collection)
    ensures collection == RepoName(repoId) + "_" + rest
  {
    NamesAreClean(repoId);
    if collection == DefaultBranchCollection(repoId) {
      rest := "default";
    } else {
      var n: nat :| collection == PullRequestCollection(repoId, n);
      rest := "pr_" + Decimal(n);
    }
  }

  /** A collection carries the prefix of its own repository and of no other. */
  lemma PrefixSelectsRepo(repoId: nat, other: nat, collection: string)
    requires CollectionOf(other, collection)
    ensures RepoCollectionPrefix(repoId) <= collection <==> repoId == other
  {
    hide Decimal, SanitizeIdentifier, CollectionOf;
    NamesAreClean(repoId);
    var rest := CollectionRest(other, collection);
    var prefix := RepoName(repoId) + "_";
    if prefix <= collection {
      var tail := collection[|prefix|..];
      assert collection == RepoName(repoId) + "_" + tail;
      SameNumber("gh_repo_", repoId, tail, other, rest);
    }
  }

  lemma UserUidIsClean(installationId: nat)
    ensures UserUidForInstallation(installationId) == "gh_installation_" + Decimal(installationId)
    ensures forall k :: 0 <= k < |UserUidForInstallation(installationId)| ==>
                          UserUidForInstallation(installationId)[k] != '/'
  {
    NumberedIsClean("gh_installation_", installationId);
    SanitizeKeepsClean("gh_installation_" + Decimal(installationId));
  }

  /** A manifest key starts with the keys of a repository exactly when it belongs to it. */
  lemma KeySelectsRepo(inst: nat, repoId: nat, otherInst: nat, other: nat, collection: string)
    requires CollectionOf(other, collection)
    ensures ManifestId(UserUidForInstallation(inst), RepoCollectionPrefix(repoId))
            <= ManifestId(UserUidForInstallation(otherInst), collection)
            <==> inst == otherInst && repoId == other
  {
    var u, v := UserUidForInstallation(inst), UserUidForInstallation(otherInst);
    UserUidIsClean(inst);
    UserUidIsClean(otherInst);
    PrefixSelectsRepo(repoId, other, collection);
    var start, id := ManifestId(u, RepoCollectionPrefix(repoId)), ManifestId(v, collection);
    if start <= id {
      assert FirstAt(start, '/', |u|) && FirstAt(id, '/', |v|);
      assert FirstAt(id, '/', |u|);
      assert u == id[..|u|] && v == id[..|v|];
      assert u[|"gh_installation_"|..] == Decimal(inst) && v[|"gh_installation_"|..] == Decimal(otherInst);
      DecimalInjective(inst, otherInst);
    }
    IdPrefix(u, RepoCollectionPrefix(repoId), id);
    if u == v {
      assert id[|u| + 1..] == collection;
    }
  }

  /** The names in full: sanitizing leaves the numbered ones as they are written. */
  lemma NamesAreSpelled(installationId: nat, repoId: nat, n: nat)
    ensures UserUidForInstallation(installationId) == "gh_installation_" + Decimal(installationId)
    ensures DefaultBranchCollection(repoId) == "gh_repo_" + Decimal(repoId) + "_default"
    ensures PullRequestCollection(repoId, n) == "gh_repo_" + Decimal(repoId) + "_pr_" + Decimal(n)
    ensures RepoCollectionPrefix(repoId) == "gh_repo_" + Decimal(repoId) + "_"
  {
    hide SanitizeIdentifier, Decimal;
    NamesAreClean(repoId);
    UserUidIsClean(installationId);
  }

  /** The scan of a repository's keys always has its upper bound, and finds exactly the keys with the prefix. */
  lemma RepoScanHasBound(installationId: nat, repoId: nat)
    ensures var start := ManifestId(UserUidForInstallation(installationId), RepoCollectionPrefix(repoId));
            && start == "gh_installation_" + Decimal(installationId) + "/gh_repo_" + Decimal(repoId) + "_"
            && UpperBound(start) == Some("gh_installation_" + Decimal(installationId) + "/gh_repo_" + Decimal(repoId) + "`")
            && forall key :: InRange(key, start, UpperBound(start).value) <==> start <= key
  {
    hide Decimal, InRange, UpperBound;
    NamesAreSpelled(installationId, repoId, 0);
    hide UserUidForInstallation, RepoCollectionPrefix;
    var before := "gh_installation_" + Decimal(installationId) + "/gh_repo_" + Decimal(repoId);
    assert ManifestId(UserUidForInstallation(installationId), RepoCollectionPrefix(repoId)) == before + "_" by {
      Reassociate("gh_installation_" + Decimal(installationId), "gh_repo_", Decimal(repoId));
    }
    BoundOf(before);
    RangeIsPrefixFilterIff(before + "_");
  }

  lemma Reassociate(user: string, head: string, number: string)
    requires head == "gh_repo_"
    ensures ManifestId(user, head + number + "_") == user + "/gh_repo_" + number + "_"
  {
    assert "/" + head == "/gh_repo_";
    assert ManifestId(user, head + number + "_") == user + ("/" + head) + number + "_";
  }

  lemma BoundOf(before: string)
    ensures UpperBound(before + "_") == Some(before + "`")
  {
    assert (before + "_")[|before|] == '_' && (before + "_")[..|before|] == before && '_' as int + 1 == '`' as int;
  }

  // ---------------------------------------------------------------- removing a repository

  function Insert(items: seq<string>, x: string): seq<string> {
    if items == [] then [x]
    else if UnitOrder(x, items[0]) then [x] + items
    else [items[0]] + Insert(items[1..], x)
  }

  lemma {:induction false} UnitsTotal(a: seq<int>, b: seq<int>)
    ensures !(UnitsLess(a, b) && UnitsLess(b, a)) && (UnitsLess(a, b) || UnitsLess(b, a) || a == b)
    decreases |a|
  {
    if a != [] && b != [] {
      UnitsTotal(a[1..], b[1..]);
      assert a == [a[0]] + a[1..] && b == [b[0]] + b[1..];
    }
  }

  lemma {:induction false} UnitsTrans(a: seq<int>, b: seq<int>, c: seq<int>)
    requires UnitsLess(a, b) && UnitsLess(b, c)
    ensures UnitsLess(a, c)
    decreases |b|
  {
    if a != [] && b[0] == c[0] && a[0] == b[0] {
      UnitsTrans(a[1..], b[1..], c[1..]);
    }
  }

  lemma {:induction false} UnitsInjective(a: string, b: string)
    requires Units(a) == Units(b)
    ensures a == b
  {
    if a != "" && b != "" {
      var x, y := a[0] as int, b[0] as int;
      assert Units(a)[0] == Units(b)[0];
      if x >= 0x1_0000 {
        assert Units(a)[0] == 0xD800 + (x - 0x1_0000) / 0x400 && 0xD800 <= Units(a)[0] <= 0xDBFF;
        assert Units(a)[1] == 0xDC00 + (x - 0x1_0000) % 0x400;
        assert y >= 0x1_0000;
        assert Units(b)[1] == 0xDC00 + (y - 0x1_0000) % 0x400;
        assert Units(a)[2..] == Units(a[1..]) && Units(b)[2..] == Units(b[1..]);
      } else {
        assert y < 0x1_0000;
        assert Units(a)[1..] == Units(a[1..]) && Units(b)[1..] == Units(b[1..]);
      }
      UnitsInjective(a[1..], b[1..]);
      assert a == [a[0]] + a[1..] && b == [b[0]] + b[1..];
    }
  }

  lemma {:induction false} InsertSorted(items: seq<string>, x: string)
    requires UnitAscending(items) && x !in items
    ensures UnitAscending(Insert(items, x))
    ensures forall y :: y in Insert(items, x) <==> y == x || y in items
  {
    if items != [] {
      assert items == [items[0]] + items[1..];
      if UnitOrder(x, items[0]) {
        forall j | 0 <= j < |items| ensures UnitOrder(x, items[j]) {
          if j > 0 {
            UnitsTrans(Units(x), Units(items[0]), Units(items[j]));
          }
        }
      } else {
        InsertSorted(items[1..], x);
        var rest := Insert(items[1..], x);
        forall j | 0 <= j < |rest| ensures UnitOrder(items[0], rest[j]) {
          assert rest[j] in rest;
          if rest[j] == x {
            UnitsTotal(Units(x), Units(items[0]));
            if Units(x) == Units(items[0]) {
              UnitsInjective(x, items[0]);
            }
          } else {
            var k :| 0 <= k < |items[1..]| && items[1..][k] == rest[j];
            assert items[k + 1] == rest[j];
          }
        }
      }
    }
  }

  /** The manifests and collections of one process, and the in-memory manifest store's operations. */
  class RepoCollections<Manifest> {
    var manifests: map<string, Manifest>
    var collections: set<(string, string)>

    constructor ()
      ensures manifests == map[] && collections == {}
    {
      manifests := map[];
      collections := {};
    }

    method ListCollectionsByPrefix(userUid: string, collectionPrefix: string) returns (out: seq<string>)
      ensures MemoryListing(manifests.Keys, userUid, collectionPrefix, out)
    {
      out := [];
      var keyPrefix := ManifestId(userUid, collectionPrefix);
      var rest := manifests.Keys;
      while rest != {}
        invariant rest <= manifests.Keys
        invariant UnitAscending(out)
        invariant forall c :: c in out <==>
                                && ManifestId(userUid, c) in manifests.Keys && ManifestId(userUid, c) !in rest
                                && collectionPrefix <= c
      {
        var key :| key in rest;
        IdPrefix(userUid, collectionPrefix, key);
        ghost var was := out;
        if keyPrefix <= key {
          var c := key[|userUid| + 1..];
          InsertSorted(out, c);
          out := Insert(out, c);
        }
        forall c ensures ManifestId(userUid, c) == key <==> |userUid| + 1 <= |key| && key == ManifestId(userUid, key[|userUid| + 1..]) && c == key[|userUid| + 1..] {
          assert ManifestId(userUid, c)[|userUid| + 1..] == c;
        }
        rest := rest - {key};
      }
    }

    method DeleteRepoCollections(installationId: nat, repoId: nat)
      modifies this
      ensures manifests == map k | k in old(manifests) && !Doomed(installationId, repoId, k) :: old(manifests)[k]
      ensures collections == set p | p in old(collections) && !Dropped(old(manifests).Keys, installationId, repoId, p)
    {
      var unique := UniqueCollections(installationId, repoId);
      var userUid := UserUidForInstallation(installationId);
      hide *;
      assert unique[..0] == [];
      NothingRemoved(old(manifests), userUid);
      for i := 0 to |unique|
        invariant manifests == Without(old(manifests), Ids(userUid, unique[..i]))
        invariant collections == set p | p in old(collections) && !(p.0 == userUid && p.1 in unique[..i])
      {
        assert unique[..i + 1] == unique[..i] + [unique[i]];
        IdsAppend(userUid, unique[..i], unique[i]);
        WithoutOne(old(manifests), Ids(userUid, unique[..i]), ManifestId(userUid, unique[i]));
        collections := collections - {(userUid, unique[i])};
        manifests := manifests - {ManifestId(userUid, unique[i])};
      }
      assert unique[..|unique|] == unique;
      RemovedTogether(old(manifests), old(collections), installationId, repoId, unique);
    }

    method UniqueCollections(installationId: nat, repoId: nat) returns (unique: seq<string>)
      ensures ToRemove(manifests.Keys, installationId, repoId, unique)
    {
      var listed := ListCollectionsByPrefix(UserUidForInstallation(installationId), RepoCollectionPrefix(repoId));
      var def := DefaultBranchCollection(repoId);
      if def in listed {
        unique := listed;
      } else {
        InsertSorted(listed, def);
        unique := Insert(listed, def);
      }
    }
  }

  /** The manifest keys a repository's removal covers. */
  ghost predicate Doomed(installationId: nat, repoId: nat, key: string) {
    || key == ManifestId(UserUidForInstallation(installationId), DefaultBranchCollection(repoId))
    || ManifestId(UserUidForInstallation(installationId), RepoCollectionPrefix(repoId)) <= key
  }

  /** The stored collections a repository's removal deletes. */
  ghost predicate Dropped(keys: set<string>, installationId: nat, repoId: nat, p: (string, string)) {
    && p.0 == UserUidForInstallation(installationId)
    && (|| p.1 == DefaultBranchCollection(repoId)
        || (ManifestId(p.0, p.1) in keys && RepoCollectionPrefix(repoId) <= p.1))
  }

  ghost function Without<T>(m: map<string, T>, keys: set<string>): map<string, T> {
    map k | k in m && k !in keys :: m[k]
  }

  lemma NothingRemoved<T>(m: map<string, T>, userUid: string)
    ensures Without(m, Ids(userUid, [])) == m
  {}

  lemma WithoutOne<T>(m: map<string, T>, keys: set<string>, key: string)
    ensures Without(m, keys) - {key} == Without(m, keys + {key})
  {}

  lemma RemovedTogether<T>(m: map<string, T>, stored: set<(string, string)>, installationId: nat, repoId: nat, names: seq<string>)
    requires ToRemove(m.Keys, installationId, repoId, names)
    ensures Without(m, Ids(UserUidForInstallation(installationId), names))
            == map k | k in m && !Doomed(installationId, repoId, k) :: m[k]
    ensures (set p | p in stored && !(p.0 == UserUidForInstallation(installationId) && p.1 in names))
            == set p | p in stored && !Dropped(m.Keys, installationId, repoId, p)
  {
    forall k | k in m
      ensures k in Ids(UserUidForInstallation(installationId), names) <==> Doomed(installationId, repoId, k)
    {
      DoomedIffListed(m.Keys, installationId, repoId, names, k);
    }
  }

  ghost predicate ToRemove(keys: set<string>, installationId: nat, repoId: nat, names: seq<string>) {
    forall c :: c in names <==>
      || c == DefaultBranchCollection(repoId)
      || (ManifestId(UserUidForInstallation(installationId), c) in keys && RepoCollectionPrefix(repoId) <= c)
  }

  lemma DoomedIffListed(keys: set<string>, installationId: nat, repoId: nat, names: seq<string>, key: string)
    requires ToRemove(keys, installationId, repoId, names) && key in keys
    ensures key in Ids(UserUidForInstallation(installationId), names) <==> Doomed(installationId, repoId, key)
  {
    hide SanitizeIdentifier;
    var userUid := UserUidForInstallation(installationId);
    var prefix := RepoCollectionPrefix(repoId);
    IdPrefix(userUid, prefix, key);
    if key in Ids(userUid, names) {
      var c :| c in names && key == ManifestId(userUid, c);
      assert ManifestId(userUid, c)[|userUid| + 1..] == c;
    }
    if ManifestId(userUid, prefix) <= key {
      assert key[|userUid| + 1..] in names;
    }
  }

  lemma IdsAppend(userUid: string, names: seq<string>, name: string)
    ensures Ids(userUid, names + [name]) == Ids(userUid, names) + {ManifestId(userUid, name)}
  {}

  ghost function Ids(userUid: string, names: seq<string>): set<string> {
    set c | c in names :: ManifestId(userUid, c)
  }

  /**
   In a table whose keys all come from installations and repositories, the keys that
   `DeleteRepoCollections` removes are the keys of that repository: every one, no other.
   */
  lemma RemovesExactlyTheRepo(key: string, inst: nat, repoId: nat, otherInst: nat, other: nat, collection: string)
    requires CollectionOf(other, collection) && key == ManifestId(UserUidForInstallation(otherInst), collection)
    ensures Doomed(inst, repoId, key) <==> inst == otherInst && repoId == other
  {
    KeySelectsRepo(inst, repoId, otherInst, other, collection);
    KeySelectsRepo(inst, repoId, inst, repoId, DefaultBranchCollection(repoId));
  }
}
