/**
 Paths as the store sees them: a list of segments, its percent-encoded join, and the
 ancestor prefixes of that join. The main results say that exact matching on the
 expanded prefixes decides "is a list prefix of", for every list of segments.
 */
module Paths {

  // ---------------------------------------------------------------- split and join

  function Join(parts: seq<string>): string {
    if |parts| == 0 then "" else if |parts| == 1 then parts[0] else parts[0] + "/" + Join(parts[1..])
  }

  function Split(s: string): (parts: seq<string>)
    ensures |parts| > 0
  {
    if s == "" then [""]
    else
      var rest := Split(s[1..]);
      if s[0] == '/' then [""] + rest else [[s[0]] + rest[0]] + rest[1..]
  }

  predicate SlashFree(s: string) { '/' !in s }

  lemma {:induction false} JoinCons(part: string, rest: seq<string>)
    requires |rest| > 0
    ensures Join([part] + rest) == part + "/" + Join(rest)
  {
    assert ([part] + rest)[1..] == rest;
  }

  lemma {:induction false} JoinAppend(a: seq<string>, b: seq<string>)
    requires |a| > 0 && |b| > 0
    ensures Join(a + b) == Join(a) + "/" + Join(b)
  {
    if |a| == 1 {
      assert a == [a[0]];
      JoinCons(a[0], b);
    } else {
      assert a + b == [a[0]] + (a[1..] + b);
      JoinCons(a[0], a[1..] + b);
      JoinAppend(a[1..], b);
      assert a == [a[0]] + a[1..];
    }
  }

  lemma {:induction false} JoinOfSplit(s: string)
    ensures Join(Split(s)) == s
  {
    if s != "" {
      var rest := Split(s[1..]);
      JoinOfSplit(s[1..]);
      if s[0] == '/' {
        JoinCons("", rest);
        assert s == "/" + s[1..];
      } else {
        var parts := Split(s);
        if |rest| > 1 {
          assert parts == [[s[0]] + rest[0]] + rest[1..];
          JoinCons([s[0]] + rest[0], rest[1..]);
          assert rest == [rest[0]] + rest[1..];
          JoinCons(rest[0], rest[1..]);
        }
        assert s == [s[0]] + s[1..];
      }
    }
  }

  lemma {:induction false} SplitAppend(q: string, t: string)
    ensures Split(q + "/" + t) == Split(q) + Split(t)
  {
    var s := q + "/" + t;
    if q == "" {
      assert s[1..] == t;
    } else {
      assert s[1..] == q[1..] + "/" + t;
      SplitAppend(q[1..], t);
    }
  }

  lemma {:induction false} SplitSlashFree(s: string)
    requires SlashFree(s)
    ensures Split(s) == [s]
  {
    if s != "" {
      assert s[0] in s && forall c :: c in s[1..] ==> c in s;
      SplitSlashFree(s[1..]);
      assert s == [s[0]] + s[1..];
    }
  }

  lemma {:induction false} SplitOfJoin(parts: seq<string>)
    requires |parts| > 0
    requires forall i :: 0 <= i < |parts| ==> SlashFree(parts[i])
    ensures Split(Join(parts)) == parts
  {
    SplitSlashFree(parts[0]);
    if |parts| > 1 {
      SplitOfJoin(parts[1..]);
      SplitAppend(parts[0], Join(parts[1..]));
    }
  }

  // ---------------------------------------------------------------- prefix expansion

  /** The predicate that search applies to a stored path: equal to `q`, or below it. */
  predicate AtOrBelow(s: string, q: string) { s == q || q + "/" <= s }

  function Expanded(s: string): seq<string> {
    if s == "" then [] else var parts := Split(s); seq(|parts|, i requires 0 <= i < |parts| => Join(parts[..i + 1]))
  }

  method ExpandPathPrefixes(pathPrefix: string) returns (prefixes: seq<string>)
    ensures prefixes == Expanded(pathPrefix)
    ensures forall q :: q in prefixes <==> pathPrefix != "" && AtOrBelow(pathPrefix, q)
  {
    if pathPrefix == "" {
      return [];
    }
    var parts := Split(pathPrefix);
    prefixes := [];
    var index := 1;
    while index <= |parts|
      invariant 1 <= index <= |parts| + 1
      invariant |prefixes| == index - 1
      invariant forall k :: 0 <= k < index - 1 ==> prefixes[k] == Join(parts[..k + 1])
    {
      prefixes := prefixes + [Join(parts[..index])];
      index := index + 1;
    }
    forall q {
      ExpandedIff(pathPrefix, q);
    }
  }

  lemma ExpandedIff(s: string, q: string)
    ensures q in Expanded(s) <==> s != "" && AtOrBelow(s, q)
  {
    hide Split, Join;
    if s != "" {
      if q in Expanded(s) {
        var i :| 0 <= i < |Split(s)| && q == Join(Split(s)[..i + 1]);
        FrontIsAbove(s, i);
      }
      if AtOrBelow(s, q) {
        AboveIsFront(s, q);
        assert Expanded(s)[|Split(q)| - 1] == q;
      }
    }
  }

  lemma FrontIsAbove(s: string, i: nat)
    requires i < |Split(s)|
    ensures AtOrBelow(s, Join(Split(s)[..i + 1]))
  {
    hide Split, Join;
    var parts := Split(s);
    JoinOfSplit(s);
    if i + 1 == |parts| {
      assert parts[..i + 1] == parts;
    } else {
      assert parts == parts[..i + 1] + parts[i + 1..];
      JoinAppend(parts[..i + 1], parts[i + 1..]);
    }
  }

  lemma AboveIsFront(s: string, q: string)
    requires AtOrBelow(s, q)
    ensures |Split(q)| <= |Split(s)| && q == Join(Split(s)[..|Split(q)|])
  {
    hide Split, Join;
    JoinOfSplit(q);
    AboveIsFrontOf(s, q);
    assert Split(s)[..|Split(q)|] == Split(q);
  }

  // ---------------------------------------------------------------- percent encoding

  predicate Unreserved(c: char) {
    'A' <= c <= 'Z' || 'a' <= c <= 'z' || '0' <= c <= '9' || c in "-_.!~*'()"
  }

  function Utf8(cp: int): (bytes: seq<int>)
    requires 0 <= cp < 0x110000
    ensures 1 <= |bytes| <= 4
    ensures forall i :: 0 <= i < |bytes| ==> 0 <= bytes[i] < 256
  {
    if cp < 0x80 then [cp]
    else if cp < 0x800 then [0xC0 + cp / 64, 0x80 + cp % 64]
    else if cp < 0x10000 then [0xE0 + cp / 4096, 0x80 + cp / 64 % 64, 0x80 + cp % 64]
    else [0xF0 + cp / 262144, 0x80 + cp / 4096 % 64, 0x80 + cp / 64 % 64, 0x80 + cp % 64]
  }

  function HexDigit(n: int): char
    requires 0 <= n < 16
  {
    if n < 10 then '0' + n as char else 'A' + (n - 10) as char
  }

  function PercentByte(b: int): string
    requires 0 <= b < 256
  {
    ['%', HexDigit(b / 16), HexDigit(b % 16)]
  }

  function PercentBytes(bytes: seq<int>): string
    requires forall i :: 0 <= i < |bytes| ==> 0 <= bytes[i] < 256
  {
    if |bytes| == 0 then "" else PercentByte(bytes[0]) + PercentBytes(bytes[1..])
  }

  function EncodeChar(c: char): string {
    if Unreserved(c) then [c] else PercentBytes(Utf8(c as int))
  }

  /** `encodeURIComponent`, on well-formed text. */
  function Encode(s: string): string {
    if s == "" then "" else EncodeChar(s[0]) + Encode(s[1..])
  }

  lemma {:induction false} PercentBytesSlashFree(bytes: seq<int>)
    requires forall i :: 0 <= i < |bytes| ==> 0 <= bytes[i] < 256
    ensures SlashFree(PercentBytes(bytes))
  {
    if |bytes| > 0 {
      PercentBytesSlashFree(bytes[1..]);
    }
  }

  lemma {:induction false} EncodeSlashFree(s: string)
    ensures SlashFree(Encode(s))
  {
    if s != "" {
      EncodeSlashFree(s[1..]);
      if !Unreserved(s[0]) {
        PercentBytesSlashFree(Utf8(s[0] as int));
      }
    }
  }

  lemma PercentByteInjective(a: int, b: int)
    requires 0 <= a < 256 && 0 <= b < 256
    requires PercentByte(a) == PercentByte(b)
    ensures a == b
  {
    var x, y := PercentByte(a), PercentByte(b);
    assert x[1] == y[1] && x[2] == y[2];
  }

  /** UTF-8 is a prefix code: the lead byte fixes the length, and the bytes fix the code point. */
  lemma {:induction false} PercentBytesPrefixFree(a: seq<int>, b: seq<int>, x: string, y: string)
    requires forall i :: 0 <= i < |a| ==> 0 <= a[i] < 256
    requires forall i :: 0 <= i < |b| ==> 0 <= b[i] < 256
    requires |a| == |b|
    requires PercentBytes(a) + x == PercentBytes(b) + y
    ensures a == b && x == y
  {
    if |a| == 0 {
      assert x == PercentBytes(a) + x && y == PercentBytes(b) + y;
    } else {
      var p, q := PercentBytes(a) + x, PercentBytes(b) + y;
      assert p == PercentByte(a[0]) + (PercentBytes(a[1..]) + x);
      assert q == PercentByte(b[0]) + (PercentBytes(b[1..]) + y);
      assert PercentByte(a[0]) == p[..3] == q[..3] == PercentByte(b[0]);
      PercentByteInjective(a[0], b[0]);
      assert PercentBytes(a[1..]) + x == p[3..] == q[3..] == PercentBytes(b[1..]) + y;
      PercentBytesPrefixFree(a[1..], b[1..], x, y);
      assert a == [a[0]] + a[1..] && b == [b[0]] + b[1..];
    }
  }

  lemma Utf8LeadFixesLength(m: int, n: int)
    requires 0 <= m < 0x110000 && 0 <= n < 0x110000
    requires Utf8(m)[0] == Utf8(n)[0]
    ensures |Utf8(m)| == |Utf8(n)|
  {}

  lemma Utf8Injective(m: int, n: int)
    requires 0 <= m < 0x110000 && 0 <= n < 0x110000
    requires Utf8(m) == Utf8(n)
    ensures m == n
  {
    Utf8Value(m);
    Utf8Value(n);
  }

  /** The code point back from its bytes. */
  function FromUtf8(bytes: seq<int>): int {
    if |bytes| == 1 then bytes[0]
    else if |bytes| == 2 then (bytes[0] - 0xC0) * 64 + (bytes[1] - 0x80)
    else if |bytes| == 3 then ((bytes[0] - 0xE0) * 64 + (bytes[1] - 0x80)) * 64 + (bytes[2] - 0x80)
    else if |bytes| == 4 then
      (((bytes[0] - 0xF0) * 64 + (bytes[1] - 0x80)) * 64 + (bytes[2] - 0x80)) * 64 + (bytes[3] - 0x80)
    else 0
  }

  lemma Utf8Value(cp: int)
    requires 0 <= cp < 0x110000
    ensures FromUtf8(Utf8(cp)) == cp
  {
    assert cp / 64 == cp / 4096 * 64 + cp / 64 % 64;
    assert cp / 4096 == cp / 262144 * 64 + cp / 4096 % 64;
  }

  lemma EncodeCharPrefixFree(c: char, d: char, x: string, y: string)
    requires EncodeChar(c) + x == EncodeChar(d) + y
    ensures c == d && x == y
  {
    var p, q := EncodeChar(c) + x, EncodeChar(d) + y;
    assert p[0] == q[0];
    if Unreserved(c) {
      assert x == p[1..] && y == q[1..];
    } else {
      var a, b := Utf8(c as int), Utf8(d as int);
      assert PercentByte(a[0]) == p[..3] == q[..3] == PercentByte(b[0]);
      PercentByteInjective(a[0], b[0]);
      Utf8LeadFixesLength(c as int, d as int);
      PercentBytesPrefixFree(a, b, x, y);
      Utf8Injective(c as int, d as int);
    }
  }

  lemma {:induction false} EncodeInjective(s: string, t: string)
    requires Encode(s) == Encode(t)
    ensures s == t
  {
    if s != "" && t != "" {
      EncodeCharPrefixFree(s[0], t[0], Encode(s[1..]), Encode(t[1..]));
      EncodeInjective(s[1..], t[1..]);
      assert s == [s[0]] + s[1..] && t == [t[0]] + t[1..];
    }
  }

  lemma {:induction false} EncodeAppend(s: string, t: string)
    ensures Encode(s + t) == Encode(s) + Encode(t)
  {
    if s == "" {
      assert s + t == t;
    } else {
      assert (s + t)[0] == s[0] && (s + t)[1..] == s[1..] + t;
      EncodeAppend(s[1..], t);
    }
  }

  /** Letters, digits and nine marks. */
  predicate StandsForItself(c: char) {
    || 'A' <= c <= 'Z' || 'a' <= c <= 'z' || '0' <= c <= '9'
    || c == '-' || c == '_' || c == '.' || c == '!' || c == '~' || c == '*' || c == '\'' || c == '(' || c == ')'
  }

  lemma UnreservedIs(c: char)
    ensures Unreserved(c) <==> StandsForItself(c)
  {
    var marks := "-_.!~*'()";
    assert |marks| == 9;
    assert marks[0] == '-' && marks[1] == '_' && marks[2] == '.' && marks[3] == '!' && marks[4] == '~';
    assert marks[5] == '*' && marks[6] == '\'' && marks[7] == '(' && marks[8] == ')';
  }

  /** Encoding goes character by character: some stand for themselves, `/` and any other is percent-encoded UTF-8. */
  lemma EncodeIs(c: char, rest: string)
    ensures Encode([c] + rest) == Encode([c]) + Encode(rest)
    ensures Encode([c]) == [c] <==> StandsForItself(c)
    ensures Encode("/") == "%2F"
  {
    EncodeAppend([c], rest);
    EncodeOne(c);
    UnreservedIs(c);
    if !Unreserved(c) {
      PercentFirst(Utf8(c as int));
    }
    EncodeOne('/');
    UnreservedIs('/');
    assert PercentBytes([0x2F]) == PercentByte(0x2F) + "" && HexDigit(15) == 'F';
  }

  lemma PercentFirst(bytes: seq<int>)
    requires |bytes| > 0 && forall i :: 0 <= i < |bytes| ==> 0 <= bytes[i] < 256
    ensures |PercentBytes(bytes)| > 1
  {}

  lemma EncodeOne(c: char)
    ensures Encode([c]) == EncodeChar(c)
  {
    assert [c][1..] == "" && EncodeChar(c) + "" == EncodeChar(c);
  }

  /** Bytes are written as `%` and two upper-case hexadecimal digits: U+20AC, of three bytes. */
  lemma EuroSign()
    ensures Encode("\U{20ac}") == "%E2%82%AC"
  {
    EncodeOne('\U{20ac}');
    UnreservedIs('\U{20ac}');
    hide PercentBytes;
    assert Utf8(0x20AC) == [0xE2, 0x82, 0xAC];
    ThreeBytes(0xE2, 0x82, 0xAC);
    assert PercentByte(0xE2) == "%E2" && PercentByte(0x82) == "%82" && PercentByte(0xAC) == "%AC";
    assert "%E2" + "%82" + "%AC" == "%E2%82%AC";
  }

  lemma ThreeBytes(a: int, b: int, c: int)
    requires 0 <= a < 256 && 0 <= b < 256 && 0 <= c < 256
    ensures PercentBytes([a, b, c]) == PercentByte(a) + PercentByte(b) + PercentByte(c)
  {
    assert [a, b, c][1..] == [b, c] && [b, c][1..] == [c] && [c][1..] == [];
    assert PercentBytes([c]) == PercentByte(c);
    assert PercentBytes([b, c]) == PercentByte(b) + PercentBytes([c]);
  }

  // ---------------------------------------------------------------- segment lists

  function EncodedSegments(segments: seq<string>): seq<string> {
    seq(|segments|, i requires 0 <= i < |segments| => Encode(segments[i]))
  }

  function PathSegmentsToPrefix(segments: seq<string>): string {
    Join(EncodedSegments(segments))
  }

  lemma SplitOfPrefix(segments: seq<string>)
    requires |segments| > 0
    ensures Split(PathSegmentsToPrefix(segments)) == EncodedSegments(segments)
  {
    var parts := EncodedSegments(segments);
    forall i | 0 <= i < |parts| ensures SlashFree(parts[i]) {
      EncodeSlashFree(segments[i]);
    }
    SplitOfJoin(parts);
  }

  lemma EncodedPrefixIsPrefix(r: seq<string>, s: seq<string>)
    requires EncodedSegments(r) <= EncodedSegments(s)
    ensures r <= s
  {
    var er, es := EncodedSegments(r), EncodedSegments(s);
    forall i | 0 <= i < |r| ensures r[i] == s[i] {
      assert er[i] == es[i];
      EncodeInjective(r[i], s[i]);
    }
  }

  /** The stored-path predicate on encoded prefixes is exactly "list prefix" on segments. */
  lemma AtOrBelowIffListPrefix(r: seq<string>, s: seq<string>)
    requires |r| > 0 && |s| > 0
    ensures AtOrBelow(PathSegmentsToPrefix(s), PathSegmentsToPrefix(r)) <==> r <= s
  {
    if AtOrBelow(PathSegmentsToPrefix(s), PathSegmentsToPrefix(r)) {
      BelowIsListPrefix(r, s);
    }
    if r <= s && r != s {
      ListPrefixIsBelow(r, s);
    }
  }

  lemma BelowIsListPrefix(r: seq<string>, s: seq<string>)
    requires |r| > 0 && |s| > 0 && AtOrBelow(PathSegmentsToPrefix(s), PathSegmentsToPrefix(r))
    ensures r <= s
  {
    var pr, ps := PathSegmentsToPrefix(r), PathSegmentsToPrefix(s);
    SplitOfPrefix(r);
    SplitOfPrefix(s);
    hide Split, Join, EncodedSegments, PathSegmentsToPrefix;
    AboveIsFrontOf(ps, pr);
    EncodedPrefixIsPrefix(r, s);
  }

  lemma AboveIsFrontOf(s: string, q: string)
    requires AtOrBelow(s, q)
    ensures Split(q) <= Split(s)
  {
    hide Split;
    if s != q {
      var t := s[|q| + 1..];
      assert s == q + "/" + t;
      SplitAppend(q, t);
    }
  }

  lemma ListPrefixIsBelow(r: seq<string>, s: seq<string>)
    requires |r| > 0 && r <= s && r != s
    ensures AtOrBelow(PathSegmentsToPrefix(s), PathSegmentsToPrefix(r))
  {
    hide Join, Encode;
    var rest := s[|r|..];
    assert EncodedSegments(s) == EncodedSegments(r) + EncodedSegments(rest);
    JoinAppend(EncodedSegments(r), EncodedSegments(rest));
  }

  /** Exact matching on the lookup rows of a path decides the same question. */
  lemma LookupMatchIffListPrefix(r: seq<string>, s: seq<string>)
    requires |r| > 0 && |s| > 0 && PathSegmentsToPrefix(s) != ""
    ensures PathSegmentsToPrefix(r) in Expanded(PathSegmentsToPrefix(s)) <==> r <= s
  {
    ExpandedIff(PathSegmentsToPrefix(s), PathSegmentsToPrefix(r));
    AtOrBelowIffListPrefix(r, s);
  }

  lemma PrefixInjective(r: seq<string>, s: seq<string>)
    requires |r| > 0 && |s| > 0
    requires PathSegmentsToPrefix(r) == PathSegmentsToPrefix(s)
    ensures r == s
  {
    AtOrBelowIffListPrefix(r, s);
    AtOrBelowIffListPrefix(s, r);
  }

  // ---------------------------------------------------------------- repository paths

  function NonEmpty(parts: seq<string>): seq<string> {
    if |parts| == 0 then []
    else if parts[0] == "" then NonEmpty(parts[1..])
    else [parts[0]] + NonEmpty(parts[1..])
  }

  function PathSegmentsForPath(path: string): seq<string> { NonEmpty(Split(path)) }

  /** A path as Git stores it: no empty component. */
  predicate CleanPath(path: string) {
    forall i :: 0 <= i < |Split(path)| ==> Split(path)[i] != ""
  }

  lemma {:induction false} NonEmptyKeepsAll(parts: seq<string>)
    requires forall i :: 0 <= i < |parts| ==> parts[i] != ""
    ensures NonEmpty(parts) == parts
  {
    if |parts| > 0 {
      NonEmptyKeepsAll(parts[1..]);
    }
  }

  lemma CleanPathSegments(path: string)
    requires CleanPath(path)
    ensures |PathSegmentsForPath(path)| > 0
    ensures Join(PathSegmentsForPath(path)) == path
  {
    NonEmptyKeepsAll(Split(path));
    JoinOfSplit(path);
  }
}
