/** The first pass of the suffix sort: suffixes bucketed by their first byte. */
module BucketSort {
  import opened Bytes
  import opened SuffixOrder
  import opened SortInvariant

  /** Occurrences of c among the first m bytes. */
  function Occ(s: seq<Byte>, c: int, m: nat): (r: nat)
    requires m <= |s|
  {
    if m == 0 then 0 else Occ(s, c, m - 1) + if s[m - 1] == c then 1 else 0
  }

  /** Bytes smaller than c among the first m. */
  function Smaller(s: seq<Byte>, c: nat, m: nat): (r: nat)
    requires m <= |s|
  {
    if c == 0 then 0 else Smaller(s, c - 1, m) + Occ(s, c - 1, m)
  }

  function Less(s: seq<Byte>, c: nat): (r: nat) {
    Smaller(s, c, |s|)
  }

  /** The last position of bucket c. */
  function End(s: seq<Byte>, c: int): (r: nat)
    requires 0 <= c
  {
    Less(s, c + 1)
  }

  lemma {:induction false} SmallerStep(s: seq<Byte>, c: nat, m: nat)
    requires 0 < m <= |s|
    ensures Smaller(s, c, m) == Smaller(s, c, m - 1) + if s[m - 1] < c then 1 else 0
  {
    if c > 0 { SmallerStep(s, c - 1, m); }
  }

  lemma {:induction false} SmallerAll(s: seq<Byte>, m: nat)
    requires m <= |s|
    ensures Smaller(s, 256, m) == m
  {
    if m > 0 {
      SmallerStep(s, 256, m);
      SmallerAll(s, m - 1);
    } else {
      SmallerNone(s, 256);
    }
  }

  lemma {:induction false} SmallerNone(s: seq<Byte>, c: nat)
    ensures Smaller(s, c, 0) == 0
  {
    if c > 0 { SmallerNone(s, c - 1); }
  }

  lemma {:induction false} LessMonotone(s: seq<Byte>, c: nat, d: nat)
    requires c <= d
    ensures Less(s, c) <= Less(s, d)
  {
    if c < d { LessMonotone(s, c, d - 1); }
  }

  lemma {:induction false} OccMonotone(s: seq<Byte>, c: int, i: nat, j: nat)
    requires i <= j <= |s|
    ensures Occ(s, c, i) <= Occ(s, c, j)
  {
    if i < j { OccMonotone(s, c, i, j - 1); }
  }

  /** A byte that occurs makes its bucket non-empty, within the whole array. */
  lemma BucketBounds(s: seq<Byte>, t: nat)
    requires t < |s|
    ensures Less(s, s[t]) + Occ(s, s[t], t) < End(s, s[t]) <= |s|
  {
    OccMonotone(s, s[t], t + 1, |s|);
    LessMonotone(s, s[t] as int + 1, 256);
    SmallerAll(s, |s|);
  }

  /** The bucket that owns position k. */
  lemma {:induction false} FindBucket(s: seq<Byte>, k: nat, d: nat) returns (c: nat)
    requires 0 < k <= Less(s, d)
    ensures c < d && Less(s, c) < k <= Less(s, c + 1)
  {
    if k <= Less(s, d - 1) { c := FindBucket(s, k, d - 1); } else { c := d - 1; }
  }

  /** Position k holds a suffix among the first m that starts with c and belongs there. */
  ghost predicate Holds(s: seq<Byte>, I: seq<int>, c: int, k: nat, m: nat)
    requires m <= |s| && k < |I|
  {
    0 <= I[k] < m && s[I[k]] == c && Rank(s, I[k]) == k
  }

  /** Suffix t has been put in its place. */
  ghost predicate Placed(s: seq<Byte>, I: seq<int>, t: nat)
    requires t < |s|
  {
    0 < Rank(s, t) <= |s| && Rank(s, t) < |I| && I[Rank(s, t)] == t
  }

  /** Every bucket c has its positions up to b[c] filled, with the suffixes among the first m. */
  ghost predicate Filled(s: seq<Byte>, I: seq<int>, b: seq<int>, m: nat)
    requires |b| == 256 && |I| == |s| + 1 && m <= |s|
  {
    && (forall c :: 0 <= c < 256 ==> b[c] == Less(s, c) + Occ(s, c, m))
    && (forall c, k {:trigger Holds(s, I, c, k, m)} ::
          0 <= c < 256 && Less(s, c) < k <= b[c] && k <= |s| ==> Holds(s, I, c, k, m))
    && (forall t {:trigger Placed(s, I, t)} :: 0 <= t < m ==> Placed(s, I, t))
  }

  /** Where the bucket pass puts suffix t. */
  function Rank(s: seq<Byte>, t: nat): (r: nat)
    requires t < |s|
  {
    Less(s, s[t]) + Occ(s, s[t], t) + 1
  }

  lemma RankInjective(s: seq<Byte>, t: nat, u: nat)
    requires t < |s| && u < |s| && Rank(s, t) == Rank(s, u)
    ensures t == u
  {
    BucketBounds(s, t);
    BucketBounds(s, u);
    if s[t] < s[u] {
      LessMonotone(s, s[t] as int + 1, s[u]);
    } else if s[u] < s[t] {
      LessMonotone(s, s[u] as int + 1, s[t]);
    } else if t < u {
      OccMonotone(s, s[t], t + 1, u);
    } else if u < t {
      OccMonotone(s, s[t], u + 1, t);
    }
  }

  lemma NoneFilled(s: seq<Byte>, I: seq<int>, b: seq<int>)
    requires |b| == 256 && |I| == |s| + 1 && forall c :: 0 <= c < 256 ==> b[c] == Less(s, c)
    ensures Filled(s, I, b, 0)
  {
  }

  lemma FilledEnds(s: seq<Byte>, I: seq<int>, b: seq<int>)
    requires |b| == 256 && |I| == |s| + 1 && Filled(s, I, b, |s|)
    ensures forall c :: 0 <= c < 256 ==> b[c] == End(s, c)
  {
  }

  lemma PlaceNext(s: seq<Byte>, I: seq<int>, b: seq<int>, m: nat)
    requires |b| == 256 && |I| == |s| + 1 && m < |s| && Filled(s, I, b, m)
    ensures var c := s[m]; 0 <= b[c] < |s| && Filled(s, I[b[c] + 1 := m], b[c := b[c] + 1], m + 1)
  {
    BucketBounds(s, m);
    var c0: int := s[m];
    var I', b' := I[b[c0] + 1 := m], b[c0 := b[c0] + 1];
    var m' := m + 1;
    forall c, k | 0 <= c < 256 && Less(s, c) < k <= b'[c] && k <= |s|
      ensures Holds(s, I', c, k, m')
    {
      if k != b'[c0] {
        assert Holds(s, I, c, k, m);
      } else if c < c0 {
        OccMonotone(s, c, m, |s|);
        LessMonotone(s, c + 1, c0);
      } else if c > c0 {
        LessMonotone(s, c0 + 1, c);
      }
    }
    forall t | 0 <= t < m + 1
      ensures Placed(s, I', t)
    {
      if t < m {
        assert Placed(s, I, t);
        if Rank(s, t) == Rank(s, m) { RankInjective(s, t, m); }
      }
    }
  }

  /** Counts the bytes and turns the counts into the starts of the buckets. */
  method BucketStarts(s: seq<Byte>) returns (buckets: array<int>)
    ensures fresh(buckets) && buckets.Length == 256
    ensures forall c :: 0 <= c < 256 ==> buckets[c] == Less(s, c)
  {
    buckets := new int[256];
    var i := 0;
    while i < 256
      invariant i <= 256 && forall c :: 0 <= c < i ==> buckets[c] == 0
    {
      buckets[i] := 0;
      i := i + 1;
    }
    i := 0;
    while i < |s|
      invariant i <= |s| && forall c :: 0 <= c < 256 ==> buckets[c] == Occ(s, c, i)
    {
      buckets[s[i]] := buckets[s[i]] + 1;
      i := i + 1;
    }
    i := 1;
    assert Less(s, 1) == Smaller(s, 0, |s|) + Occ(s, 0, |s|);
    while i < 256
      invariant 1 <= i <= 256
      invariant forall c :: 0 <= c < i ==> buckets[c] == Less(s, c + 1)
      invariant forall c :: i <= c < 256 ==> buckets[c] == Occ(s, c, |s|)
    {
      buckets[i] := buckets[i] + buckets[i - 1];
      i := i + 1;
    }
    i := 255;
    while i > 0
      invariant 0 <= i <= 255
      invariant forall c :: 0 <= c <= i ==> buckets[c] == Less(s, c + 1)
      invariant forall c :: i < c < 256 ==> buckets[c] == Less(s, c)
    {
      buckets[i] := buckets[i - 1];
      i := i - 1;
    }
    buckets[0] := 0;
  }

  /** The permutation the bucket pass produces, with its inverse. */
  ghost predicate Bucketed(s: seq<Byte>, v: seq<int>, p: seq<int>, q: seq<int>) {
    && |v| == |s| + 1 && Inverse(|s|, p, q)
    && p[0] == |s| && v[|s|] == 0
    && (forall t :: 0 <= t < |s| ==> v[t] == End(s, s[t]) && Less(s, s[t]) < q[t] <= v[t] <= |s|)
    && (forall c, k {:trigger InBucket(s, c, k)} ::
          0 <= c < 256 && 0 < k <= |s| && InBucket(s, c, k) ==> p[k] < |s| && s[p[k]] == c)
  }

  ghost predicate InBucket(s: seq<Byte>, c: nat, k: nat) {
    Less(s, c) < k <= End(s, c)
  }

  lemma FilledIsBucketed(s: seq<Byte>, I: seq<int>, b: seq<int>, v: seq<int>) returns (p: seq<int>, q: seq<int>)
    requires |b| == 256 && |I| == |s| + 1 && Filled(s, I, b, |s|)
    requires |v| == |s| + 1 && v[|s|] == 0 && forall t :: 0 <= t < |s| ==> v[t] == b[s[t]]
    ensures p == I[0 := |s|] && Bucketed(s, v, p, q)
  {
    var n := |s|;
    p := I[0 := n];
    q := seq(n + 1, t requires 0 <= t <= n => if t < n then Rank(s, t) else 0);
    forall t | 0 <= t < n
      ensures v[t] == End(s, s[t]) && Less(s, s[t]) < q[t] <= v[t] <= n && p[q[t]] == t
    {
      FilledSuffix(s, I, b, v, t);
    }
    forall k | 0 < k <= n
      ensures 0 <= p[k] < n && q[p[k]] == k
    {
      SmallerAll(s, n);
      var c := FindBucket(s, k, 256);
      FilledRank(s, I, b, c, k);
    }
    forall c, k | 0 <= c < 256 && 0 < k <= n && InBucket(s, c, k)
      ensures p[k] < n && s[p[k]] == c
    {
      FilledRank(s, I, b, c, k);
    }
  }

  lemma FilledSuffix(s: seq<Byte>, I: seq<int>, b: seq<int>, v: seq<int>, t: nat)
    requires |b| == 256 && |I| == |s| + 1 && Filled(s, I, b, |s|)
    requires |v| == |s| + 1 && t < |s| && v[t] == b[s[t]]
    ensures v[t] == End(s, s[t]) && Less(s, s[t]) < Rank(s, t) <= v[t] <= |s| && I[Rank(s, t)] == t
  {
    BucketBounds(s, t);
    assert Placed(s, I, t);
  }

  /** A filled position holds the suffix whose rank it is. */
  lemma FilledRank(s: seq<Byte>, I: seq<int>, b: seq<int>, c: nat, k: nat)
    requires |b| == 256 && |I| == |s| + 1 && Filled(s, I, b, |s|)
    requires c < 256 && Less(s, c) < k <= End(s, c) && k <= |s|
    ensures 0 <= I[k] < |s| && s[I[k]] == c && Rank(s, I[k]) == k
  {
    assert b[c] == End(s, c);
    assert Holds(s, I, c, k, |s|);
  }

  /** I is the bucketed permutation, except that some one-member groups are marked finished. */
  ghost predicate Marked(n: nat, I: seq<int>, v: seq<int>, p: seq<int>)
    requires |I| == |v| == |p| == n + 1 && forall k :: 0 <= k <= n ==> 0 <= p[k] <= n
  {
    && I[0] == -1
    && (forall k :: 0 < k <= n ==> I[k] == p[k] || I[k] == -1)
    && (forall k {:trigger Alone(v, p, k)} :: 0 < k <= n && I[k] != p[k] ==> Alone(v, p, k))
  }

  lemma BucketedGroups(s: seq<Byte>, v: seq<int>, p: seq<int>, q: seq<int>)
    requires Bucketed(s, v, p, q)
    ensures Groups(|s|, v, p)
  {
    var n := |s|;
    forall k | 0 < k <= n
      ensures p[k] < n && Less(s, s[p[k]]) < k <= v[p[k]] == End(s, s[p[k]]) <= n
    {
      assert q[p[k]] == k;
    }
    forall k, m | 0 <= k <= m <= n && m <= v[p[k]]
      ensures SameGroup(v, p, k, m)
    {
      if k > 0 { assert InBucket(s, s[p[k]], m); }
    }
  }

  lemma BucketedOrder(s: seq<Byte>, v: seq<int>, p: seq<int>, q: seq<int>)
    requires Bucketed(s, v, p, q)
    ensures Ordered(s, v) && Coarse(s, v, 1)
  {
    var n := |s|;
    forall i, j | 0 <= i <= n && 0 <= j <= n && v[i] < v[j]
      ensures SufLess(s, i, j)
    {
      if i < n && s[j] <= s[i] { LessMonotone(s, s[j] as int + 1, s[i] as int + 1); }
    }
    forall i, j | 0 <= i <= n && 0 <= j <= n && i != j && v[i] == v[j]
      ensures Agree(s, i, j, 1)
    {
      if i < n && j < n && s[i] != s[j] {
        var a, b := if s[i] < s[j] then i else j, if s[i] < s[j] then j else i;
        LessMonotone(s, s[a] as int + 1, s[b]);
      }
    }
  }

  /** The one member of a bucket that is one position long is alone. */
  lemma SingleAlone(s: seq<Byte>, v: seq<int>, p: seq<int>, q: seq<int>, c: nat)
    requires Bucketed(s, v, p, q) && c < 256 && End(s, c) == Less(s, c) + 1
    ensures End(s, c) <= |s| && Alone(v, p, End(s, c))
  {
    var k := End(s, c);
    LessMonotone(s, c + 1, 256);
    SmallerAll(s, |s|);
    assert InBucket(s, c, k);
    if k > 1 && v[p[k - 1]] == k {
      assert q[p[k - 1]] == k - 1;
      var d: int := s[p[k - 1]];
      if d < c { LessMonotone(s, d + 1, c); } else if c < d { LessMonotone(s, c + 1, d); }
    }
  }

  /** Byte 0 occurs exactly once: its bucket has one member, and is not looked at when buckets are marked. */
  predicate LoneZero(s: seq<Byte>) {
    Occ(s, 0, |s|) == 1
  }

  /** After the bucket pass negative entries mark exactly the groups with one member, except that position 1
      is not marked where it should be if byte 0 occurs exactly once. */
  ghost predicate MarksBuckets(s: seq<Byte>, I: seq<int>, v: seq<int>, p: seq<int>)
    requires |I| == |p| && forall m :: 0 <= m < |p| ==> 0 <= p[m] < |v|
  {
    forall k {:trigger Alone(v, p, k)} ::
      0 <= k < |I| ==> ((I[k] < 0 <==> Alone(v, p, k)) <==> !(k == 1 && LoneZero(s)))
  }

  /** All buckets with one member are marked, but for that of byte 0. */
  ghost predicate SinglesMarked(s: seq<Byte>, I: seq<int>)
    requires |I| == |s| + 1
  {
    forall c {:trigger End(s, c)} :: 0 < c < 256 && End(s, c) == Less(s, c) + 1 && End(s, c) <= |s| ==> I[End(s, c)] < 0
  }

  /** A suffix that is alone is the one member of its bucket. */
  lemma AloneSingle(s: seq<Byte>, v: seq<int>, p: seq<int>, q: seq<int>, k: nat) returns (c: nat)
    requires Bucketed(s, v, p, q) && 0 < k <= |s| && Alone(v, p, k)
    ensures c < 256 && End(s, c) == k == Less(s, c) + 1
  {
    assert q[p[k]] == k;
    c := s[p[k]];
    if Less(s, c) + 1 < k {
      assert InBucket(s, c, k - 1);
    }
  }

  lemma BucketsMarked(s: seq<Byte>, I: seq<int>, v: seq<int>, p: seq<int>, q: seq<int>)
    requires Bucketed(s, v, p, q) && |I| == |s| + 1 && Marked(|s|, I, v, p) && SinglesMarked(s, I)
    requires |s| > 0 ==> I[1] >= 0 || !LoneZero(s)
    ensures MarksBuckets(s, I, v, p)
  {
    assert q[p[0]] == 0;
    assert Less(s, 1) == Smaller(s, 0, |s|) + Occ(s, 0, |s|);
    forall k {:trigger Alone(v, p, k)} | 0 < k <= |s|
      ensures (I[k] < 0 <==> Alone(v, p, k)) <==> !(k == 1 && LoneZero(s))
    {
      assert q[p[k]] == k;
      if Alone(v, p, k) {
        var c := AloneSingle(s, v, p, q, k);
        if c > 0 { LessMonotone(s, 1, c); }
      }
      if k == 1 && LoneZero(s) { SingleAlone(s, v, p, q, 0); }
    }
  }

  /** The bucket pass establishes the invariant for h = 1. */
  lemma BucketedInv(s: seq<Byte>, I: seq<int>, v: seq<int>, p: seq<int>, q: seq<int>)
    requires Bucketed(s, v, p, q) && |I| == |s| + 1 && Marked(|s|, I, v, p)
    ensures Inv(s, I, v, p, q, 1, 0)
  {
    BucketedGroups(s, v, p, q);
    BucketedOrder(s, v, p, q);
    assert q[p[0]] == 0;
    assert forall k :: 0 < k <= |s| ==> p[k] < |s| by {
      assert forall k :: 0 < k <= |s| ==> q[p[k]] == k;
    }
    forall k | 0 <= k <= |s| && I[k] < 0
      ensures RunAt(I, k) && Alone(v, p, k)
    {
      if k > 0 { assert Alone(v, p, k); }
    }
  }
}
