/** What `trim` takes away: the white space at both ends, and nothing else. */
module Trimming {
  import opened Chunker

  /** Visible ASCII, and the letters of the scripts between the blocks that hold other spaces. */
  predicate Printable(c: CodeUnit) { 0x21 <= c <= 0x7E || 0xA1 <= c < 0x1680 || 0x3001 <= c < 0xFEFF }

  /** Among the ASCII characters white space is these six; no printable character is. */
  lemma WhiteIs(c: CodeUnit)
    ensures 0 <= c < 128 ==> (IsWhite(c) <==> c in [9, 10, 11, 12, 13, 32])
    ensures Printable(c) ==> !IsWhite(c)
  {}

  /** Printable text survives whole where only white space may be lost. */
  lemma {:induction false} SolidKeepsPrintable(t: Text)
    requires forall k :: 0 <= k < |t| ==> Printable(t[k])
    ensures Solid(t) == t
  {
    if |t| > 0 {
      SolidKeepsPrintable(t[1..]);
      assert t == [t[0]] + t[1..];
    }
  }

  /** Trimming cuts white space off both ends, and no more. */
  lemma TrimIs(t: Text) returns (i: nat, j: nat)
    ensures i <= j <= |t| && Trim(t) == t[i..j]
    ensures forall k :: 0 <= k < |t| && (k < i || j <= k) ==> IsWhite(t[k])
    ensures i < j ==> !IsWhite(t[i]) && !IsWhite(t[j - 1])
  {
    i := TrimStartIs(t);
    var n := TrimEndIs(t[i..]);
    j := i + n;
    assert t[i..][..n] == t[i..j];
    forall k | j <= k < |t| ensures IsWhite(t[k]) {
      assert t[k] == t[i..][k - i];
    }
    assert i < j ==> t[i..][n - 1] == t[j - 1];
  }

  lemma {:induction false} TrimStartIs(t: Text) returns (i: nat)
    ensures i <= |t| && TrimStart(t) == t[i..]
    ensures forall k :: 0 <= k < i ==> IsWhite(t[k])
    ensures i < |t| ==> !IsWhite(t[i])
  {
    if |t| > 0 && IsWhite(t[0]) {
      i := TrimStartIs(t[1..]);
      assert t[1..][i..] == t[i + 1..];
      forall k | 0 <= k < i + 1 ensures IsWhite(t[k]) {
        assert k > 0 ==> t[k] == t[1..][k - 1];
      }
      assert i + 1 < |t| ==> t[i + 1] == t[1..][i];
      i := i + 1;
    } else {
      i := 0;
    }
  }

  lemma {:induction false} TrimEndIs(t: Text) returns (n: nat)
    ensures n <= |t| && TrimEnd(t) == t[..n]
    ensures forall k :: n <= k < |t| ==> IsWhite(t[k])
    ensures n > 0 ==> !IsWhite(t[n - 1])
  {
    if |t| > 0 && IsWhite(t[|t| - 1]) {
      n := TrimEndIs(t[..|t| - 1]);
      assert t[..|t| - 1][..n] == t[..n];
      forall k | n <= k < |t| ensures IsWhite(t[k]) {
        assert k < |t| - 1 ==> t[k] == t[..|t| - 1][k];
      }
    } else {
      n := |t|;
    }
  }

  lemma BlankIff(t: Text)
    ensures |Trim(t)| == 0 <==> forall k :: 0 <= k < |t| ==> IsWhite(t[k])
  {
    var i, j := TrimIs(t);
    hide Trim;
    if i < j {
      assert !IsWhite(t[i]);
    }
  }

  /** More text after it never makes a trimmed text shorter. */
  lemma TrimMonotone(a: Text, b: Text)
    ensures |Trim(a)| <= |Trim(a + b)|
  {
    var i, j := TrimIs(a);
    var m, n := TrimIs(a + b);
    hide Trim, IsWhite;
    if i < j {
      assert (a + b)[i] == a[i] && (a + b)[j - 1] == a[j - 1];
      assert m <= i && j <= n;
    }
  }
}
