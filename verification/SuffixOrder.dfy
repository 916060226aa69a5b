/** The order on the suffixes of one byte string, addressed by their start. */
module SuffixOrder {
  import opened Bytes

  /** Suffix i is smaller than suffix j; suffix |s| is the empty one. */
  ghost predicate SufLess(s: seq<Byte>, i: nat, j: nat)
    decreases |s| - i
  {
    if |s| <= j then false
    else if |s| <= i then true
    else s[i] < s[j] || (s[i] == s[j] && SufLess(s, i + 1, j + 1))
  }

  lemma {:induction false} SufLessIsLexLess(s: seq<Byte>, i: nat, j: nat)
    requires i <= |s| && j <= |s|
    ensures SufLess(s, i, j) <==> LexLess(s[i..], s[j..])
    decreases |s| - i
  {
    if i < |s| && j < |s| && s[i] == s[j] {
      SufLessIsLexLess(s, i + 1, j + 1);
      assert s[i..][1..] == s[i + 1..] && s[j..][1..] == s[j + 1..];
    }
  }

  /** Suffixes i and j both have at least h symbols and agree on the first h. */
  ghost predicate Agree(s: seq<Byte>, i: int, j: int, h: nat) {
    0 <= i && 0 <= j && i + h <= |s| && j + h <= |s| && s[i..i + h] == s[j..j + h]
  }

  lemma AgreeExtend(s: seq<Byte>, i: nat, j: nat, h: nat)
    requires Agree(s, i, j, h) && Agree(s, i + h, j + h, h)
    ensures Agree(s, i, j, 2 * h)
  {
    assert s[i..i + 2 * h] == s[i..i + h] + s[i + h..i + h + h];
    assert s[j..j + 2 * h] == s[j..j + h] + s[j + h..j + h + h];
  }

  lemma {:induction false} LessAfterAgreement(s: seq<Byte>, i: nat, j: nat, h: nat)
    requires Agree(s, i, j, h) && SufLess(s, i + h, j + h)
    ensures SufLess(s, i, j)
    decreases h
  {
    if h > 0 {
      assert s[i] == s[i..i + h][0] && s[j] == s[j..j + h][0];
      assert s[i + 1..i + h] == s[i..i + h][1..] && s[j + 1..j + h] == s[j..j + h][1..];
      LessAfterAgreement(s, i + 1, j + 1, h - 1);
    }
  }

  /** a lists every suffix of s exactly once, in strictly increasing order. */
  ghost predicate IsSuffixArray(s: seq<Byte>, a: seq<int>) {
    && |a| == |s| + 1
    && (forall k :: 0 <= k <= |s| ==> 0 <= a[k] <= |s|)
    && (forall i :: 0 <= i <= |s| ==> i in a)
    && (forall k, m :: 0 <= k < m <= |s| ==> LexLess(s[a[k]..], s[a[m]..]))
  }

  /** A string has only one suffix array, so sorting it has only one answer. */
  lemma SuffixArrayUnique(s: seq<Byte>, a: seq<int>, b: seq<int>)
    requires IsSuffixArray(s, a) && IsSuffixArray(s, b)
    ensures a == b
  {
    SuffixArrayAgrees(s, a, b, |s| + 1);
  }

  lemma {:induction false} SuffixArrayAgrees(s: seq<Byte>, a: seq<int>, b: seq<int>, k: nat)
    requires IsSuffixArray(s, a) && IsSuffixArray(s, b) && k <= |s| + 1
    ensures a[..k] == b[..k]
  {
    if k > 0 {
      SuffixArrayAgrees(s, a, b, k - 1);
      RankNotBefore(s, a, b, k - 1);
      RankNotBefore(s, b, a, k - 1);
      assert a[k - 1] == b[k - 1] by {
        if a[k - 1] != b[k - 1] {
          LexAsymmetric(s[a[k - 1]..], s[b[k - 1]..]);
        }
      }
    }
  }

  lemma RankNotBefore(s: seq<Byte>, a: seq<int>, b: seq<int>, k: nat)
    requires IsSuffixArray(s, a) && IsSuffixArray(s, b) && k <= |s| && a[..k] == b[..k]
    ensures a[k] == b[k] || LexLess(s[a[k]..], s[b[k]..])
  {
    assert b[k] in a;
    var m :| 0 <= m <= |s| && a[m] == b[k];
    if m < k {
      assert b[m] == a[..k][m] == a[m];
      LexAsymmetric(s[b[m]..], s[b[k]..]);
      assert false;
    }
  }
}
