/** bsdiff's suffix sort: three-way splitting of groups inside a prefix-doubling loop. */
module SuffixSort {
  import opened Bytes
  import opened SuffixOrder
  import opened SortInvariant
  import opened KeyCount
  import opened BucketSort

  /** keys[m] is the sort key of the suffix at position m: the group of what follows its
      first h symbols. */
  ghost predicate KeysOf(keys: seq<int>, I: seq<int>, v: seq<int>, h: nat, lo: nat, hi: nat) {
    |keys| == |I| && hi <= |I| && forall m :: lo <= m < hi ==> 0 <= I[m] && I[m] + h < |v| && keys[m] == v[I[m] + h]
  }

  lemma KeysSwapped(keys: seq<int>, I: seq<int>, v: seq<int>, h: nat, lo: nat, hi: nat, x: nat, y: nat)
    requires KeysOf(keys, I, v, h, lo, hi) && lo <= x < hi && lo <= y < hi
    ensures KeysOf(Swapped(keys, x, y), Swapped(I, x, y), v, h, lo, hi)
  {
  }

  /** Exchanges two entries. */
  method SwapEntries(I: array<int>, x: nat, y: nat, ghost I0: seq<int>, ghost sw: Swaps) returns (ghost sw': Swaps)
    requires x < I.Length && y < I.Length && I[..] == AfterSwaps(I0, sw)
    modifies I
    ensures sw' == Then(sw, x, y)
    ensures I[..] == AfterSwaps(I0, sw') == Swapped(old(I[..]), x, y)
  {
    sw' := Then(sw, x, y);
    var tmp := I[x];
    I[x] := I[y];
    I[y] := tmp;
    assert I[..] == Swapped(old(I[..]), x, y);
  }

  /** The first pass over a stretch: where the equal keys and the larger keys will begin. */
  method CountSides(I: array<int>, V: array<int>, lo: nat, hi: nat, h: nat, x: int, ghost keys: seq<int>)
    returns (jj: nat, kk: nat)
    requires lo <= hi && KeysOf(keys, I[..], V[..], h, lo, hi)
    ensures jj == lo + Count(keys, x, -1, lo, hi) && kk == jj + Count(keys, x, 0, lo, hi) && kk <= hi
  {
    jj, kk := 0, 0;
    var i := lo;
    while i < hi
      invariant lo <= i <= hi
      invariant jj == Count(keys, x, -1, lo, i) && kk == Count(keys, x, 0, lo, i)
    {
      assert I[i] == I[..][i];
      if V[I[i] + h] < x { jj := jj + 1; }
      if V[I[i] + h] == x { kk := kk + 1; }
      i := i + 1;
    }
    CountTotal(keys, x, lo, hi);
    jj := jj + lo;
    kk := kk + jj;
  }

  /** A stretch in the middle of its partition, with the keys of its entries. */
  ghost predicate Sweeping(keys: seq<int>, I: seq<int>, v: seq<int>, h: nat, x: int, lo: nat, hi: nat, jj: nat, kk: nat,
                           i: nat, j: nat, k: nat) {
    KeysOf(keys, I, v, h, lo, hi) && Zones(keys, x, lo, hi, jj, kk, i, j, k)
  }

  /** An entry that is not smaller than the pivot moves into the equal or the larger zone. */
  lemma FrontSwap(keys: seq<int>, I: seq<int>, v: seq<int>, h: nat, x: int, lo: nat, hi: nat, jj: nat, kk: nat,
                  i: nat, j: nat, k: nat, equal: bool) returns (keys': seq<int>)
    requires Sweeping(keys, I, v, h, x, lo, hi, jj, kk, i, j, k) && i < jj
    requires if equal then v[I[i] + h] == x else v[I[i] + h] > x
    ensures equal ==> jj + j < kk && Sweeping(keys', Swapped(I, i, jj + j), v, h, x, lo, hi, jj, kk, i, j + 1, k)
    ensures !equal ==> kk + k < hi && Sweeping(keys', Swapped(I, i, kk + k), v, h, x, lo, hi, jj, kk, i, j, k + 1)
  {
    if equal {
      SwapIntoEqual(keys, x, lo, hi, jj, kk, i, j, k);
      KeysSwapped(keys, I, v, h, lo, hi, i, jj + j);
      keys' := Swapped(keys, i, jj + j);
    } else {
      SwapIntoLarge(keys, x, lo, hi, jj, kk, i, j, k, i);
      KeysSwapped(keys, I, v, h, lo, hi, i, kk + k);
      keys' := Swapped(keys, i, kk + k);
    }
  }

  /** An entry of the middle zone that is not equal to the pivot moves into the larger zone. */
  lemma MiddleSwap(keys: seq<int>, I: seq<int>, v: seq<int>, h: nat, x: int, lo: nat, hi: nat, jj: nat, kk: nat,
                   j: nat, k: nat) returns (keys': seq<int>)
    requires Sweeping(keys, I, v, h, x, lo, hi, jj, kk, jj, j, k) && jj + j < kk && v[I[jj + j] + h] != x
    ensures kk + k < hi && Sweeping(keys', Swapped(I, jj + j, kk + k), v, h, x, lo, hi, jj, kk, jj, j, k + 1)
  {
    ZoneHasRoom(keys, x, lo, hi, jj, kk, jj, j, k, jj + j);
    SwapIntoLarge(keys, x, lo, hi, jj, kk, jj, j, k, jj + j);
    KeysSwapped(keys, I, v, h, lo, hi, jj + j, kk + k);
    keys' := Swapped(keys, jj + j, kk + k);
  }

  /** The first sweep: clears everything but smaller keys from the front zone. */
  method SweepFront(I: array<int>, V: array<int>, lo: nat, hi: nat, h: nat, x: int, jj: nat, kk: nat,
                    ghost keys0: seq<int>)
    returns (j: nat, k: nat, ghost keys: seq<int>, ghost sw: Swaps)
    requires I != V && Sweeping(keys0, I[..], V[..], h, x, lo, hi, jj, kk, lo, 0, 0)
    modifies I
    ensures I[..] == AfterSwaps(old(I[..]), sw) && Within(sw, lo, hi)
    ensures Sweeping(keys, I[..], V[..], h, x, lo, hi, jj, kk, jj, j, k)
  {
    ghost var v, I0 := V[..], I[..];
    keys, sw, j, k := keys0, NoSwap, 0, 0;
    var i := lo;
    while i < jj
      invariant V[..] == v && I[..] == AfterSwaps(I0, sw) && Within(sw, lo, hi)
      invariant lo <= i <= jj && jj + j <= kk && kk + k <= hi
      invariant Sweeping(keys, I[..], v, h, x, lo, hi, jj, kk, i, j, k)
      decreases jj - i + kk - j + hi - k
    {
      i, j, k, keys, sw := SweepFrontEntry(I, V, lo, hi, h, x, jj, kk, i, j, k, keys, I0, sw);
    }
  }

  /** The first sweep's next entry. */
  method SweepFrontEntry(I: array<int>, V: array<int>, lo: nat, hi: nat, h: nat, x: int, jj: nat, kk: nat,
                         i: nat, j: nat, k: nat, ghost keys: seq<int>, ghost I0: seq<int>, ghost sw: Swaps)
    returns (i': nat, j': nat, k': nat, ghost keys': seq<int>, ghost sw': Swaps)
    requires I != V && i < jj && I[..] == AfterSwaps(I0, sw) && Within(sw, lo, hi)
    requires Sweeping(keys, I[..], V[..], h, x, lo, hi, jj, kk, i, j, k)
    modifies I
    ensures i <= i' <= jj && j <= j' && jj + j' <= kk && k <= k' && kk + k' <= hi && i + j + k < i' + j' + k'
    ensures I[..] == AfterSwaps(I0, sw') && Within(sw', lo, hi)
    ensures Sweeping(keys', I[..], V[..], h, x, lo, hi, jj, kk, i', j', k')
  {
    hide AfterSwaps, Swapped;
    var key := V[I[i] + h];
    i', j', k', keys', sw' := i, j, k, keys, sw;
    if key < x {
      i' := i + 1;
    } else if key == x {
      keys' := FrontSwap(keys, I[..], V[..], h, x, lo, hi, jj, kk, i, j, k, true);
      sw' := SwapEntries(I, i, jj + j, I0, sw);
      j' := j + 1;
    } else {
      keys' := FrontSwap(keys, I[..], V[..], h, x, lo, hi, jj, kk, i, j, k, false);
      sw' := SwapEntries(I, i, kk + k, I0, sw);
      k' := k + 1;
    }
  }

  /** The second sweep: clears the larger keys from the middle zone. */
  method SweepMiddle(I: array<int>, V: array<int>, lo: nat, hi: nat, h: nat, x: int, jj: nat, kk: nat, j0: nat, k0: nat,
                     ghost keys0: seq<int>, ghost I0: seq<int>, ghost sw0: Swaps)
    returns (k: nat, ghost keys: seq<int>, ghost sw: Swaps)
    requires I != V && jj + j0 <= kk
    requires I[..] == AfterSwaps(I0, sw0) && Within(sw0, lo, hi)
    requires Sweeping(keys0, I[..], V[..], h, x, lo, hi, jj, kk, jj, j0, k0)
    modifies I
    ensures I[..] == AfterSwaps(I0, sw) && Within(sw, lo, hi)
    ensures Sweeping(keys, I[..], V[..], h, x, lo, hi, jj, kk, jj, kk - jj, k)
  {
    ghost var v := V[..];
    var j := j0;
    k, keys, sw := k0, keys0, sw0;
    while jj + j < kk
      invariant V[..] == v && I[..] == AfterSwaps(I0, sw) && Within(sw, lo, hi)
      invariant jj + j <= kk && kk + k <= hi
      invariant Sweeping(keys, I[..], v, h, x, lo, hi, jj, kk, jj, j, k)
      decreases kk - j + hi - k
    {
      j, k, keys, sw := SweepMiddleEntry(I, V, lo, hi, h, x, jj, kk, j, k, keys, I0, sw);
    }
  }

  /** The second sweep's next entry. */
  method SweepMiddleEntry(I: array<int>, V: array<int>, lo: nat, hi: nat, h: nat, x: int, jj: nat, kk: nat,
                          j: nat, k: nat, ghost keys: seq<int>, ghost I0: seq<int>, ghost sw: Swaps)
    returns (j': nat, k': nat, ghost keys': seq<int>, ghost sw': Swaps)
    requires I != V && jj + j < kk && I[..] == AfterSwaps(I0, sw) && Within(sw, lo, hi)
    requires Sweeping(keys, I[..], V[..], h, x, lo, hi, jj, kk, jj, j, k)
    modifies I
    ensures j <= j' && jj + j' <= kk && k <= k' && kk + k' <= hi && j + k < j' + k'
    ensures I[..] == AfterSwaps(I0, sw') && Within(sw', lo, hi)
    ensures Sweeping(keys', I[..], V[..], h, x, lo, hi, jj, kk, jj, j', k')
  {
    j', k', keys', sw' := j, k, keys, sw;
    if V[I[jj + j] + h] == x {
      j' := j + 1;
    } else {
      keys' := MiddleSwap(keys, I[..], V[..], h, x, lo, hi, jj, kk, j, k);
      sw' := SwapEntries(I, jj + j, kk + k, I0, sw);
      k' := k + 1;
    }
  }

  /** The stretch lo..hi holds keys below x, then equal to x from jj, then above x from kk. */
  ghost predicate Parted(I: seq<int>, v: seq<int>, h: nat, lo: nat, hi: nat, x: int, jj: nat, kk: nat) {
    && lo <= jj <= kk <= hi <= |I|
    && (forall m :: lo <= m < hi ==> 0 <= I[m] && I[m] + h < |v|)
    && (forall m :: lo <= m < jj ==> v[I[m] + h] < x)
    && (forall m :: jj <= m < kk ==> v[I[m] + h] == x)
    && (forall m :: kk <= m < hi ==> v[I[m] + h] > x)
  }

  /** Rearranges a stretch into keys below, equal to and above the key of its middle entry. */
  method Partition(I: array<int>, V: array<int>, lo: nat, hi: nat, h: nat, ghost keys0: seq<int>)
    returns (jj: nat, kk: nat, ghost x: int, ghost sw: Swaps)
    requires I != V && lo < hi && KeysOf(keys0, I[..], V[..], h, lo, hi)
    modifies I
    ensures I[..] == AfterSwaps(old(I[..]), sw) && Within(sw, lo, hi)
    ensures jj < kk && Parted(I[..], V[..], h, lo, hi, x, jj, kk)
  {
    var mid := lo + (hi - lo) / 2;
    ghost var I0 := I[..];
    assert I[mid] == I0[mid];
    var pivot := V[I[mid] + h];
    x := pivot;
    jj, kk := CountSides(I, V, lo, hi, h, pivot, keys0);
    CountAtLeast(keys0, x, 0, lo, hi, lo, lo, mid);
    var j, k;
    ghost var keys;
    j, k, keys, sw := SweepFront(I, V, lo, hi, h, pivot, jj, kk, keys0);
    k, keys, sw := SweepMiddle(I, V, lo, hi, h, pivot, jj, kk, j, k, keys, I0, sw);
    ZonesComplete(keys, x, lo, hi, jj, kk, k);
    assert Parted(I[..], V[..], h, lo, hi, x, jj, kk);
  }

  ghost predicate Smallest(keys: seq<int>, x: int, lo: nat, mid: nat, hi: nat) {
    && lo <= mid <= hi <= |keys|
    && (forall m :: lo <= m < mid ==> keys[m] == x)
    && (forall m :: mid <= m < hi ==> keys[m] > x)
  }

  ghost predicate Selecting(keys: seq<int>, I: seq<int>, v: seq<int>, h: nat, x: int, lo: nat, mid: nat, at: nat,
                            hi: nat) {
    KeysOf(keys, I, v, h, lo, hi) && Smallest(keys, x, lo, mid, at) && at <= hi
  }

  /** An entry at or below the least key so far moves to the front part, which restarts when it is below. */
  lemma SelectSwap(keys: seq<int>, I: seq<int>, v: seq<int>, h: nat, x: int, lo: nat, mid: nat, at: nat, hi: nat)
    returns (keys': seq<int>)
    requires Selecting(keys, I, v, h, x, lo, mid, at, hi) && at < hi && v[I[at] + h] <= x
    ensures var to := if v[I[at] + h] < x then lo else mid;
            Selecting(keys', Swapped(I, to, at), v, h, v[I[at] + h], lo, to + 1, at + 1, hi)
  {
    var to := if v[I[at] + h] < x then lo else mid;
    KeysSwapped(keys, I, v, h, lo, hi, to, at);
    keys' := Swapped(keys, to, at);
  }

  lemma SmallestParts(keys: seq<int>, I: seq<int>, v: seq<int>, h: nat, x: int, lo: nat, mid: nat, hi: nat)
    requires Selecting(keys, I, v, h, x, lo, mid, hi, hi)
    ensures Parted(I, v, h, lo, hi, x, lo, mid)
  {
  }

  /** One round of the selection used on short stretches: moves the smallest keys to the front. */
  method SelectSmallest(I: array<int>, V: array<int>, lo: nat, hi: nat, h: nat, ghost keys0: seq<int>)
    returns (j: nat, ghost x: int, ghost sw: Swaps)
    requires I != V && lo < hi && KeysOf(keys0, I[..], V[..], h, lo, hi)
    modifies I
    ensures I[..] == AfterSwaps(old(I[..]), sw) && Within(sw, lo, hi)
    ensures 0 < j && Parted(I[..], V[..], h, lo, hi, x, lo, lo + j)
  {
    ghost var v, I0, keys := V[..], I[..], keys0;
    assert I[lo] == I0[lo];
    var least := V[I[lo] + h];
    var i := 1;
    j, sw := 1, NoSwap;
    while lo + i < hi
      invariant V[..] == v && I[..] == AfterSwaps(I0, sw) && Within(sw, lo, hi)
      invariant 0 < j <= i && lo + i <= hi
      invariant Selecting(keys, I[..], v, h, least, lo, lo + j, lo + i, hi)
    {
      least, j, keys, sw := SelectEntry(I, V, lo, hi, h, i, least, j, keys, I0, sw);
      i := i + 1;
    }
    x := least;
    SmallestParts(keys, I[..], v, h, least, lo, lo + j, hi);
  }

  /** The selection's next entry. */
  method SelectEntry(I: array<int>, V: array<int>, lo: nat, hi: nat, h: nat, i: nat, least: int, j: nat,
                     ghost keys: seq<int>, ghost I0: seq<int>, ghost sw: Swaps)
    returns (least': int, j': nat, ghost keys': seq<int>, ghost sw': Swaps)
    requires I != V && 0 < j <= i && lo + i < hi && I[..] == AfterSwaps(I0, sw) && Within(sw, lo, hi)
    requires Selecting(keys, I[..], V[..], h, least, lo, lo + j, lo + i, hi)
    modifies I
    ensures 0 < j' <= i + 1 && I[..] == AfterSwaps(I0, sw') && Within(sw', lo, hi)
    ensures Selecting(keys', I[..], V[..], h, least', lo, lo + j', lo + i + 1, hi)
  {
    hide AfterSwaps, Swapped;
    assert I[lo + i] == I[..][lo + i];
    var key := V[I[lo + i] + h];
    least', j', keys', sw' := least, j, keys, sw;
    if key <= least {
      keys' := SelectSwap(keys, I[..], V[..], h, least, lo, lo + j, lo + i, hi);
    }
    if key < least' {
      least', j' := key, 0;
    }
    if key == least' {
      sw' := SwapEntries(I, lo + j', lo + i, I0, sw);
      j' := j' + 1;
    }
  }

  /** The positions jj..kk are ready to become a group of their own. */
  ghost predicate Separate(s: seq<Byte>, p: seq<int>, h: nat, jj: nat, kk: nat, end: nat)
    requires kk <= end <= |p| && forall k :: 0 <= k < |p| ==> 0 <= p[k]
  {
    && (forall k, m {:trigger AgreeTwice(s, p[k], p[m], h)} ::
         jj <= k < kk && jj <= m < kk && k != m ==> AgreeTwice(s, p[k], p[m], h))
    && Below(s, p, jj, kk, end)
  }

  /** A stretch lo..hi of an unfinished group whose members precede the rest of that group. */
  ghost predicate Segment(s: seq<Byte>, I: seq<int>, v: seq<int>, p: seq<int>, q: seq<int>, h: nat, lo: nat, hi: nat) {
    && Inv(s, I, v, p, q, h, lo)
    && lo < hi <= |s| + 1
    && hi - 1 <= v[p[lo]]
    && (forall k :: lo <= k < hi ==> I[k] >= 0)
    && Below(s, p, lo, hi, v[p[lo]] + 1)
  }

  /** Position m holds what it held; if it lies behind the stretch, so does its group number. */
  ghost predicate SameAt(I0: seq<int>, v0: seq<int>, p0: seq<int>, I: seq<int>, v: seq<int>, p: seq<int>, m: nat,
                         hi: nat) {
    && m < |I0| == |v0| == |p0| == |I| == |v| == |p|
    && I[m] == I0[m] && p[m] == p0[m]
    && (m >= hi ==> 0 <= p[m] < |v| && v[p[m]] == v0[p[m]])
  }

  /** Nothing outside lo..hi moved, and no group behind it was renumbered. */
  ghost predicate Kept(I0: seq<int>, v0: seq<int>, p0: seq<int>, I: seq<int>, v: seq<int>, p: seq<int>, lo: nat,
                       hi: nat) {
    && |I0| == |v0| == |p0| == |I| == |v| == |p| && lo <= hi <= |I0|
    && forall m {:trigger SameAt(I0, v0, p0, I, v, p, m, hi)} ::
         0 <= m < |p| && !(lo <= m < hi) ==> SameAt(I0, v0, p0, I, v, p, m, hi)
  }

  lemma SegmentKeys(s: seq<Byte>, I: seq<int>, v: seq<int>, p: seq<int>, q: seq<int>, h: nat, lo: nat, hi: nat)
    returns (keys: seq<int>)
    requires Segment(s, I, v, p, q, h, lo, hi)
    ensures KeysOf(keys, I, v, h, lo, hi)
  {
    keys := seq(|I|, m requires 0 <= m < |I| => if lo <= m < hi && 0 <= I[m] && I[m] + h < |v| then v[I[m] + h] else 0);
  }

  /** What is left of a segment from jj on: a group jj..kk to close, then a segment kk..hi. */
  ghost predicate Ready(s: seq<Byte>, I: seq<int>, v: seq<int>, p: seq<int>, h: nat, jj: nat, kk: nat, hi: nat,
                        g: nat) {
    && |I| == |v| == |p| == |s| + 1 && jj < kk <= hi <= g + 1 <= |s| + 1
    && (forall k :: 0 <= k <= |s| ==> 0 <= p[k] <= |s|)
    && (forall k :: jj <= k <= g ==> v[p[k]] == g)
    && (forall k :: jj <= k < hi ==> I[k] >= 0)
    && Separate(s, p, h, jj, kk, g + 1)
    && Below(s, p, kk, hi, g + 1)
  }

  /** After a stretch was shuffled and parted, its front is a segment and the rest is ready. */
  lemma CutSegment(s: seq<Byte>, I0: seq<int>, v: seq<int>, p0: seq<int>, q0: seq<int>, h: nat, lo: nat, hi: nat,
                   I: seq<int>, sw: Swaps, x: int, jj: nat, kk: nat) returns (p: seq<int>, q: seq<int>)
    requires Segment(s, I0, v, p0, q0, h, lo, hi)
    requires I == AfterSwaps(I0, sw) && Within(sw, lo, hi) && Parted(I, v, h, lo, hi, x, jj, kk) && jj < kk
    ensures Inv(s, I, v, p, q, h, lo) && Kept(I0, v, p0, I, v, p, lo, hi)
    ensures lo < jj ==> Segment(s, I, v, p, q, h, lo, jj)
    ensures Ready(s, I, v, p, h, jj, kk, hi, v[p0[lo]])
  {
    hide AfterSwaps;
    p, q := SwapsShuffle(|s|, I0, p0, q0, lo, hi - lo, sw);
    ShuffleKeepsInv(s, I0, v, p0, q0, h, I, p, q, lo, hi - lo);
    CutReady(s, I0, v, p0, q0, h, lo, hi, I, p, q, x, jj, kk);
  }

  /** What the keys of two members of the group say about their suffixes. */
  ghost predicate CutFact(s: seq<Byte>, v: seq<int>, p: seq<int>, h: nat, hi: nat, k: nat, m: nat)
    requires |v| == |p| == |s| + 1 && k <= |s| && m <= |s|
    requires 0 <= p[k] && p[k] + h <= |s| && 0 <= p[m] && (m < hi ==> p[m] + h <= |s|)
  {
    && (m >= hi || v[p[k] + h] < v[p[m] + h] ==> SufLess(s, p[k], p[m]))
    && (m < hi && v[p[k] + h] == v[p[m] + h] ==> AgreeTwice(s, p[k], p[m], h))
  }

  lemma CutReady(s: seq<Byte>, I0: seq<int>, v: seq<int>, p0: seq<int>, q0: seq<int>, h: nat, lo: nat, hi: nat,
                 I: seq<int>, p: seq<int>, q: seq<int>, x: int, jj: nat, kk: nat)
    requires Segment(s, I0, v, p0, q0, h, lo, hi) && Shuffled(|s|, I0, p0, I, p, q, lo, hi - lo)
    requires forall k :: 0 <= k <= |s| ==> v[p[k]] == v[p0[k]]
    requires Parted(I, v, h, lo, hi, x, jj, kk) && jj < kk
    ensures Below(s, p, lo, jj, v[p0[lo]] + 1)
    ensures Ready(s, I, v, p, h, jj, kk, hi, v[p0[lo]])
  {
    var g := v[p0[lo]];
    GroupSolid(|s|, v, p0, lo);
    assert forall k :: lo <= k < hi ==> I[k] == p[k];
    assert forall k :: lo <= k <= g ==> v[p[k]] == v[p0[k]] == g;
    forall k, m | lo <= k < hi && lo <= m <= g && k != m
      ensures CutFact(s, v, p, h, hi, k, m)
    {
      CutPair(s, I0, v, p0, q0, h, lo, hi, I, p, q, k, m);
    }
    CutParts(s, I, v, p, h, lo, hi, x, jj, kk, g);
  }

  lemma CutPair(s: seq<Byte>, I0: seq<int>, v: seq<int>, p0: seq<int>, q0: seq<int>, h: nat, lo: nat, hi: nat,
                I: seq<int>, p: seq<int>, q: seq<int>, k: nat, m: nat)
    requires |v| == |s| + 1 && Inverse(|s|, p0, q0) && Ordered(s, v) && Coarse(s, v, h)
    requires lo <= k < hi && lo <= |s| && lo <= m <= v[p0[lo]] <= |s| && k != m && Below(s, p0, lo, hi, v[p0[lo]] + 1)
    requires Shuffled(|s|, I0, p0, I, p, q, lo, hi - lo)
    requires v[p[k]] == v[p[m]] && p[k] + h <= |s| && (m < hi ==> p[m] + h <= |s|)
    ensures CutFact(s, v, p, h, hi, k, m)
  {
    if m >= hi {
      ShuffledMembers(|s|, I0, p0, q0, I, p, q, lo, hi - lo, k);
      assert p0[q0[p[k]]] == p[k] && p[m] == p0[m];
    } else {
      assert q[p[k]] == k && q[p[m]] == m;
      KeyOrder(s, v, h, p[k], p[m]);
    }
  }

  lemma CutParts(s: seq<Byte>, I: seq<int>, v: seq<int>, p: seq<int>, h: nat, lo: nat, hi: nat, x: int, jj: nat,
                 kk: nat, g: nat)
    requires |I| == |v| == |p| == |s| + 1 && hi - 1 <= g <= |s| && (forall k :: 0 <= k <= |s| ==> 0 <= p[k] <= |s|)
    requires Parted(I, v, h, lo, hi, x, jj, kk) && forall k :: lo <= k < hi ==> I[k] == p[k]
    requires forall k, m {:trigger CutFact(s, v, p, h, hi, k, m)} ::
               lo <= k < hi && lo <= m <= g && k != m ==> CutFact(s, v, p, h, hi, k, m)
    ensures Below(s, p, lo, jj, g + 1) && Below(s, p, kk, hi, g + 1) && Separate(s, p, h, jj, kk, g + 1)
  {
    assert forall k :: lo <= k < hi ==> v[I[k] + h] == v[p[k] + h];
    forall k, m | (lo <= k < jj && jj <= m <= g) || (kk <= k < hi && hi <= m <= g) || (jj <= k < kk && kk <= m <= g)
      ensures SufLess(s, p[k], p[m])
    {
      assert CutFact(s, v, p, h, hi, k, m);
    }
    forall k, m | jj <= k < kk && jj <= m < kk && k != m
      ensures AgreeTwice(s, p[k], p[m], h)
    {
      assert CutFact(s, v, p, h, hi, k, m);
    }
  }

  /** Numbers the suffixes at the positions jj..kk. */
  method NumberGroup(I: array<int>, V: array<int>, jj: nat, kk: nat, ghost p: seq<int>, ghost q: seq<int>)
    requires I != V && jj < kk <= I.Length == V.Length && Inverse(I.Length - 1, p, q)
    requires forall k :: jj <= k < kk ==> I[k] == p[k]
    modifies V
    ensures Regrouped(old(V[..]), V[..], p, q, jj, kk - 1)
  {
    ghost var v := V[..];
    var i := 0;
    while i < kk - jj
      invariant i <= kk - jj
      invariant forall t :: 0 <= t < |v| && jj <= q[t] < jj + i ==> V[t] == kk - 1
      invariant forall t :: 0 <= t < |v| && !(jj <= q[t] < jj + i) ==> V[t] == v[t]
    {
      assert I[jj + i] == p[jj + i] && q[p[jj + i]] == jj + i;
      V[I[jj + i]] := kk - 1;
      i := i + 1;
    }
  }

  /** Numbers the positions jj..kk as one group, and marks it finished if it has one member. */
  method CloseGroup(I: array<int>, V: array<int>, jj: nat, kk: nat, h: nat,
                    ghost s: seq<Byte>, ghost p: seq<int>, ghost q: seq<int>, ghost hi: nat, ghost g: nat)
    requires I != V && Inv(s, I[..], V[..], p, q, h, jj) && Ready(s, I[..], V[..], p, h, jj, kk, hi, g)
    modifies I, V
    ensures Inv(s, I[..], V[..], p, q, h, kk)
    ensures Kept(old(I[..]), old(V[..]), p, I[..], V[..], p, jj, kk)
    ensures kk < hi ==> Segment(s, I[..], V[..], p, q, h, kk, hi)
  {
    ghost var I0, v := I[..], V[..];
    assert forall k :: jj <= k < kk ==> I0[k] == p[k] && I[k] == I0[k];
    NumberGroup(I, V, jj, kk, p, q);
    if jj == kk - 1 { I[jj] := -1; }
    assert I[..] == if jj == kk - 1 then I0[jj := -1] else I0;
    CloseKeepsAll(s, I0, v, I[..], V[..], p, q, h, jj, kk, hi, g);
  }

  lemma CloseKeepsAll(s: seq<Byte>, I0: seq<int>, v: seq<int>, I: seq<int>, v': seq<int>, p: seq<int>, q: seq<int>,
                      h: nat, jj: nat, kk: nat, hi: nat, g: nat)
    requires Inv(s, I0, v, p, q, h, jj) && Ready(s, I0, v, p, h, jj, kk, hi, g)
    requires |v'| == |v| && Regrouped(v, v', p, q, jj, kk - 1) && I == if jj == kk - 1 then I0[jj := -1] else I0
    ensures Inv(s, I, v', p, q, h, kk) && Kept(I0, v, p, I, v', p, jj, kk)
    ensures kk < hi ==> Segment(s, I, v', p, q, h, kk, hi)
  {
    RegroupKeepsInv(s, I0, v, p, q, h, jj, kk - 1, v', I);
    RegroupKeepsRest(|s|, I0, v, p, q, jj, kk, I, v');
    RestIsSegment(s, I0, v, I, v', p, q, h, jj, kk, hi, g);
  }

  lemma RestIsSegment(s: seq<Byte>, I0: seq<int>, v0: seq<int>, I: seq<int>, v: seq<int>, p: seq<int>, q: seq<int>,
                      h: nat, jj: nat, kk: nat, hi: nat, g: nat)
    requires Ready(s, I0, v0, p, h, jj, kk, hi, g) && Kept(I0, v0, p, I, v, p, jj, kk) && Inv(s, I, v, p, q, h, kk)
    ensures kk < hi ==> Segment(s, I, v, p, q, h, kk, hi)
  {
    forall k | kk <= k < hi
      ensures I[k] >= 0
    {
      assert SameAt(I0, v0, p, I, v, p, k, kk);
    }
    if kk < hi { assert SameAt(I0, v0, p, I, v, p, kk, kk); }
  }

  lemma RegroupKeepsRest(n: nat, I0: seq<int>, v: seq<int>, p: seq<int>, q: seq<int>, jj: nat, kk: nat,
                         I: seq<int>, v': seq<int>)
    requires Inverse(n, p, q) && |I0| == |v| == |v'| == n + 1 && jj < kk <= n + 1
    requires Regrouped(v, v', p, q, jj, kk - 1) && I == if jj == kk - 1 then I0[jj := -1] else I0
    ensures Kept(I0, v, p, I, v', p, jj, kk)
  {
  }

  lemma KeptTrans(I0: seq<int>, v0: seq<int>, p0: seq<int>, I1: seq<int>, v1: seq<int>, p1: seq<int>,
                  I: seq<int>, v: seq<int>, p: seq<int>, lo: nat, mid: nat, mid': nat, hi: nat, end: nat)
    requires lo <= mid && mid' <= end && hi <= end && lo <= end <= |I0|
    requires Kept(I0, v0, p0, I1, v1, p1, lo, mid') && Kept(I1, v1, p1, I, v, p, mid, hi)
    ensures Kept(I0, v0, p0, I, v, p, lo, end)
  {
    forall m | 0 <= m < |p| && !(lo <= m < end)
      ensures SameAt(I0, v0, p0, I, v, p, m, end)
    {
      assert SameAt(I0, v0, p0, I1, v1, p1, m, mid') && SameAt(I1, v1, p1, I, v, p, m, hi);
    }
  }

  lemma KeptReady(s: seq<Byte>, I0: seq<int>, v0: seq<int>, p0: seq<int>, I: seq<int>, v: seq<int>, p: seq<int>,
                  q: seq<int>, h: nat, lo: nat, jj: nat, kk: nat, hi: nat, g: nat)
    requires Ready(s, I0, v0, p0, h, jj, kk, hi, g) && Kept(I0, v0, p0, I, v, p, lo, jj) && Inverse(|s|, p, q)
    ensures Ready(s, I, v, p, h, jj, kk, hi, g)
  {
    forall k | jj <= k <= g
      ensures p[k] == p0[k] && v[p[k]] == g && (k < hi ==> I[k] >= 0)
    {
      assert SameAt(I0, v0, p0, I, v, p, k, jj);
    }
  }

  /** Refines the stretch start..start+len of a group to agreement on 2h symbols. */
  method Split(I: array<int>, V: array<int>, start: nat, len: nat, h: nat,
               ghost s: seq<Byte>, ghost p0: seq<int>, ghost q0: seq<int>)
    returns (ghost p: seq<int>, ghost q: seq<int>)
    requires I != V && Segment(s, I[..], V[..], p0, q0, h, start, start + len)
    modifies I, V
    ensures Inv(s, I[..], V[..], p, q, h, start + len)
    ensures Kept(old(I[..]), old(V[..]), p0, I[..], V[..], p, start, start + len)
    decreases len, 0
  {
    hide Ready, Kept;
    if len < 16 {
      p, q := SplitShort(I, V, start, len, h, s, p0, q0);
      return;
    }
    ghost var I0, v0, g := I[..], V[..], V[p0[start]];
    var jj, kk;
    jj, kk, p, q := PartitionSegment(I, V, start, start + len, h, s, p0, q0);
    ghost var I1, p1 := I[..], p;
    p, q := SplitFront(I, V, start, jj, kk, start + len, h, s, p, q, g);
    ghost var I2, v2, p2 := I[..], V[..], p;
    CloseGroup(I, V, jj, kk, h, s, p, q, start + len, g);
    ghost var I3, v3 := I[..], V[..];
    p, q := SplitBack(I, V, kk, start + len, h, s, p, q);
    KeptChain(I0, v0, p0, I1, p1, I2, v2, p2, I3, v3, I[..], V[..], p, start, jj, kk, start + len);
  }

  lemma KeptChain(I0: seq<int>, v0: seq<int>, p0: seq<int>, I1: seq<int>, p1: seq<int>, I2: seq<int>, v2: seq<int>,
                  p2: seq<int>, I3: seq<int>, v3: seq<int>, I: seq<int>, v: seq<int>, p: seq<int>, lo: nat, jj: nat,
                  kk: nat, hi: nat)
    requires lo <= jj <= kk <= hi
    requires Kept(I0, v0, p0, I1, v0, p1, lo, hi) && Kept(I1, v0, p1, I2, v2, p2, lo, jj)
    requires Kept(I2, v2, p2, I3, v3, p2, jj, kk) && Kept(I3, v3, p2, I, v, p, kk, hi)
    ensures Kept(I0, v0, p0, I, v, p, lo, hi)
  {
    KeptTrans(I2, v2, p2, I3, v3, p2, I, v, p, jj, kk, kk, hi, hi);
    KeptTrans(I1, v0, p1, I2, v2, p2, I, v, p, lo, jj, jj, hi, hi);
    KeptTrans(I0, v0, p0, I1, v0, p1, I, v, p, lo, lo, hi, hi, hi);
  }

  /** Partitions a segment by the key of its middle entry. */
  method PartitionSegment(I: array<int>, V: array<int>, lo: nat, hi: nat, h: nat,
                          ghost s: seq<Byte>, ghost p0: seq<int>, ghost q0: seq<int>)
    returns (jj: nat, kk: nat, ghost p: seq<int>, ghost q: seq<int>)
    requires I != V && Segment(s, I[..], V[..], p0, q0, h, lo, hi)
    modifies I
    ensures Inv(s, I[..], V[..], p, q, h, lo) && Kept(old(I[..]), V[..], p0, I[..], V[..], p, lo, hi)
    ensures lo <= jj
    ensures lo < jj ==> Segment(s, I[..], V[..], p, q, h, lo, jj)
    ensures Ready(s, I[..], V[..], p, h, jj, kk, hi, old(V[p0[lo]]))
  {
    ghost var I0, v := I[..], V[..];
    ghost var keys := SegmentKeys(s, I0, v, p0, q0, h, lo, hi);
    ghost var x, sw;
    jj, kk, x, sw := Partition(I, V, lo, hi, h, keys);
    p, q := CutSegment(s, I0, v, p0, q0, h, lo, hi, I[..], sw, x, jj, kk);
    assert V[..] == v;
  }

  method SplitFront(I: array<int>, V: array<int>, start: nat, jj: nat, kk: nat, hi: nat, h: nat,
                    ghost s: seq<Byte>, ghost p0: seq<int>, ghost q0: seq<int>, ghost g: nat)
    returns (ghost p: seq<int>, ghost q: seq<int>)
    requires I != V && start <= jj && Inv(s, I[..], V[..], p0, q0, h, start)
    requires start < jj ==> Segment(s, I[..], V[..], p0, q0, h, start, jj)
    requires Ready(s, I[..], V[..], p0, h, jj, kk, hi, g)
    modifies I, V
    ensures Inv(s, I[..], V[..], p, q, h, jj) && Ready(s, I[..], V[..], p, h, jj, kk, hi, g)
    ensures Kept(old(I[..]), old(V[..]), p0, I[..], V[..], p, start, jj)
    decreases jj - start, 1
  {
    p, q := p0, q0;
    if jj > start {
      p, q := Split(I, V, start, jj - start, h, s, p, q);
      KeptReady(s, old(I[..]), old(V[..]), p0, I[..], V[..], p, q, h, start, jj, kk, hi, g);
    }
  }

  method SplitBack(I: array<int>, V: array<int>, kk: nat, hi: nat, h: nat,
                   ghost s: seq<Byte>, ghost p0: seq<int>, ghost q0: seq<int>)
    returns (ghost p: seq<int>, ghost q: seq<int>)
    requires I != V && kk <= hi && Inv(s, I[..], V[..], p0, q0, h, kk)
    requires kk < hi ==> Segment(s, I[..], V[..], p0, q0, h, kk, hi)
    modifies I, V
    ensures Inv(s, I[..], V[..], p, q, h, hi)
    ensures Kept(old(I[..]), old(V[..]), p0, I[..], V[..], p, kk, hi)
    decreases hi - kk, 1
  {
    p, q := p0, q0;
    if hi > kk {
      p, q := Split(I, V, kk, hi - kk, h, s, p, q);
    }
  }

  /** The selection sort used on fewer than 16 entries. */
  method SplitShort(I: array<int>, V: array<int>, start: nat, len: nat, h: nat,
                    ghost s: seq<Byte>, ghost p0: seq<int>, ghost q0: seq<int>)
    returns (ghost p: seq<int>, ghost q: seq<int>)
    requires I != V && Segment(s, I[..], V[..], p0, q0, h, start, start + len)
    modifies I, V
    ensures Inv(s, I[..], V[..], p, q, h, start + len)
    ensures Kept(old(I[..]), old(V[..]), p0, I[..], V[..], p, start, start + len)
  {
    hide Below, Groups, Refined, Marks;
    ghost var I0, v0, hi := I[..], V[..], start + len;
    ghost var I1, v1 := I0, v0;
    p, q := p0, q0;
    var k := start;
    while k < start + len
      invariant start <= k <= hi && I[..] == I1 && V[..] == v1
      invariant Kept(I0, v0, p0, I1, v1, p, start, hi)
      invariant Inv(s, I1, v1, p, q, h, k)
      invariant k < hi ==> Segment(s, I1, v1, p, q, h, k, hi)
    {
      var j;
      ghost var p1, I2, v2 := p, I1, v1;
      j, p, q, I1, v1 := SplitShortRound(I, V, k, start + len, h, s, p, q);
      KeptTrans(I0, v0, p0, I2, v2, p1, I1, v1, p, start, k, hi, hi, hi);
      k := k + j;
    }
  }

  /** One round: selects the smallest keys and closes their group. */
  method SplitShortRound(I: array<int>, V: array<int>, k: nat, hi: nat, h: nat,
                         ghost s: seq<Byte>, ghost p1: seq<int>, ghost q1: seq<int>)
    returns (j: nat, ghost p: seq<int>, ghost q: seq<int>, ghost I': seq<int>, ghost v': seq<int>)
    requires I != V && Segment(s, I[..], V[..], p1, q1, h, k, hi)
    modifies I, V
    ensures 0 < j && k + j <= hi && I[..] == I' && V[..] == v'
    ensures Kept(old(I[..]), old(V[..]), p1, I', v', p, k, hi)
    ensures Inv(s, I', v', p, q, h, k + j)
    ensures k + j < hi ==> Segment(s, I', v', p, q, h, k + j, hi)
  {
    hide Below, SameAt, Ordered, Marks, AfterSwaps, Parted;
    ghost var I1, v1, g := I[..], V[..], V[p1[k]];
    ghost var keys := SegmentKeys(s, I1, v1, p1, q1, h, k, hi);
    ghost var x, sw;
    j, x, sw := SelectSmallest(I, V, k, hi, h, keys);
    ghost var I2 := I[..];
    p, q := CutSegment(s, I1, v1, p1, q1, h, k, hi, I2, sw, x, k, k + j);
    CloseGroup(I, V, k, k + j, h, s, p, q, hi, g);
    I', v' := I[..], V[..];
    KeptTrans(I1, v1, p1, I2, v1, p, I', v', p, k, k, hi, k + j, hi);
  }

  /** Every position is put into the bucket of its byte. */
  method PlaceAll(I: array<int>, buckets: array<int>, oldData: seq<Byte>)
    requires I != buckets && I.Length == |oldData| + 1 && buckets.Length == 256
    requires Filled(oldData, I[..], buckets[..], 0)
    modifies I, buckets
    ensures Filled(oldData, I[..], buckets[..], |oldData|)
  {
    hide Filled;
    for i := 0 to |oldData|
      invariant Filled(oldData, I[..], buckets[..], i)
    {
      PlaceNext(oldData, I[..], buckets[..], i);
      ghost var I0, b0 := I[..], buckets[..];
      buckets[oldData[i]] := buckets[oldData[i]] + 1;
      I[buckets[oldData[i]]] := i;
      assert I[..] == I0[b0[oldData[i]] + 1 := i] && buckets[..] == b0[oldData[i] := b0[oldData[i]] + 1];
    }
  }


  /** The bucket pass: sorts the suffixes by their first byte. */
  method SortByFirstByte(I: array<int>, V: array<int>, oldData: seq<Byte>)
    returns (ghost p: seq<int>, ghost q: seq<int>)
    requires I != V && I.Length == V.Length == |oldData| + 1
    modifies I, V
    ensures Inv(oldData, I[..], V[..], p, q, 1, 0) && I[0] < 0 && MarksBuckets(oldData, I[..], V[..], p)
  {
    hide Inv, MarksBuckets, Marked, SinglesMarked, Bucketed;
    hide Filled;
    var n := |oldData|;
    var buckets := BucketStarts(oldData);
    NoneFilled(oldData, I[..], buckets[..]);
    PlaceAll(I, buckets, oldData);
    ghost var filled, ends := I[..], buckets[..];
    I[0] := n;
    var i := 0;
    while i < n
      invariant 0 <= i <= n && I[..] == filled[0 := n] && buckets[..] == ends
      invariant forall t :: 0 <= t < i ==> V[t] == buckets[oldData[t]]
    {
      V[i] := buckets[oldData[i]];
      i := i + 1;
    }
    V[n] := 0;
    p, q := FilledIsBucketed(oldData, filled, ends, V[..]);
    FilledEnds(oldData, filled, ends);
    MarkSingles(I, V, buckets, oldData, p, q);
    BucketedInv(oldData, I[..], V[..], p, q);
    BucketsMarked(oldData, I[..], V[..], p, q);
  }

  /** Marks the buckets with one member; bucket 0 is never looked at. */
  method MarkSingles(I: array<int>, V: array<int>, buckets: array<int>, oldData: seq<Byte>, ghost p: seq<int>,
                     ghost q: seq<int>)
    requires I != V && I != buckets && I.Length == |oldData| + 1 && buckets.Length == 256
    requires Bucketed(oldData, V[..], p, q) && I[..] == p
    requires forall c :: 0 <= c < 256 ==> buckets[c] == End(oldData, c)
    modifies I
    ensures Marked(|oldData|, I[..], V[..], p) && SinglesMarked(oldData, I[..]) && I[0] < 0
    ensures |oldData| > 0 && LoneZero(oldData) ==> I[1] >= 0
  {
    hide Occ, Alone;
    var i := 1;
    while i < 256
      invariant 1 <= i <= 256
      invariant forall c {:trigger End(oldData, c)} ::
                  0 < c < i && End(oldData, c) == Less(oldData, c) + 1 && End(oldData, c) <= |oldData| ==>
                      I[End(oldData, c)] < 0
      invariant |oldData| > 0 && LoneZero(oldData) ==> I[1] >= 0
      invariant forall k :: 0 < k <= |oldData| ==> I[k] == p[k] || I[k] == -1
      invariant forall k {:trigger Alone(V[..], p, k)} :: 0 < k <= |oldData| && I[k] != p[k] ==> Alone(V[..], p, k)
    {
      if buckets[i] == buckets[i - 1] + 1 {
        SingleAlone(oldData, V[..], p, q, i);
        LessMonotone(oldData, 1, i);
        I[buckets[i]] := -1;
      }
      i := i + 1;
    }
    I[0] := -1;
  }

  /** Records the length of the finished run that ends at i in its first entry. */
  method RecordRun(I: array<int>, i: nat, len: nat, ghost s: seq<Byte>, ghost v: seq<int>, ghost p: seq<int>,
                   ghost q: seq<int>, ghost h: nat)
    requires Inv(s, I[..], v, p, q, h, i) && len <= i && forall k :: i - len <= k < i ==> I[k] < 0
    modifies I
    ensures Inv(s, I[..], v, p, q, h, i)
    ensures I[..] == if len > 0 then old(I[..])[i - len := 0 - len] else old(I[..])
  {
    if len > 0 {
      MergeRun(s, I[..], v, p, q, h, i, i - len, len);
      ghost var I0 := I[..];
      I[i - len] := 0 - len;
      assert I[..] == I0[i - len := 0 - len];
    }
  }

  /** Splits the unfinished group that starts at i. */
  method SplitGroup(I: array<int>, V: array<int>, i: nat, h: nat, ghost s: seq<Byte>, ghost p0: seq<int>,
                    ghost q0: seq<int>)
    returns (len: nat, ghost p: seq<int>, ghost q: seq<int>)
    requires I != V && Inv(s, I[..], V[..], p0, q0, h, i) && 0 < i <= |s| && I[i] >= 0
    modifies I, V
    ensures 0 < len && I[0] == old(I[0]) && Inv(s, I[..], V[..], p, q, h, i + len)
  {
    ghost var I1, v1 := I[..], V[..];
    GroupIsSegment(s, I1, v1, p0, q0, h, i);
    assert p0[i] == I1[i];
    len := V[I[i]] + 1 - i;
    p, q := Split(I, V, i, len, h, s, p0, q0);
    assert SameAt(I1, v1, p0, I[..], V[..], p, 0, i + len);
  }

  ghost predicate AllDone(I: seq<int>) {
    forall k :: 0 <= k < |I| ==> I[k] < 0
  }

  /** One pass of the doubling loop: splits every unfinished group and merges finished runs. */
  method DoublingPass(I: array<int>, V: array<int>, h: nat, ghost s: seq<Byte>, ghost p0: seq<int>, ghost q0: seq<int>)
    returns (ghost p: seq<int>, ghost q: seq<int>)
    requires I != V && h > 0 && Inv(s, I[..], V[..], p0, q0, h, 0) && I[0] < 0
    modifies I, V
    ensures Inv(s, I[..], V[..], p, q, 2 * h, 0) && I[0] < 0 && MarksAlone(I[..], V[..], p)
    ensures AllDone(old(I[..])) ==> I[0] == -(|s| + 1)
  {
    hide Marks;
    ghost var done := AllDone(I[..]);
    var n := I.Length - 1;
    var len := 0;
    var i := 0;
    p, q := p0, q0;
    while i < n + 1
      invariant 0 <= i <= n + 1 && 0 <= len <= i && I[0] < 0
      invariant Inv(s, I[..], V[..], p, q, h, i)
      invariant forall k :: i - len <= k < i ==> I[k] < 0
      invariant done ==> len == i && AllDone(I[..])
      decreases n + 1 - i
    {
      if I[i] < 0 {
        SkipRun(s, I[..], V[..], p, q, h, i, -I[i]);
        len := len - I[i];
        i := i - I[i];
      } else {
        RecordRun(I, i, len, s, V[..], p, q, h);
        len, p, q := SplitGroup(I, V, i, h, s, p, q);
        i := i + len;
        len := 0;
      }
    }
    RecordRun(I, i, len, s, V[..], p, q, h);
    PassDone(s, I[..], V[..], p, q, h);
  }

  /** Scanning over a finished run. */
  lemma SkipRun(s: seq<Byte>, I: seq<int>, v: seq<int>, p: seq<int>, q: seq<int>, h: nat, i: nat, r: nat)
    requires Inv(s, I, v, p, q, h, i) && i <= |s| && I[i] == 0 - r && r > 0
    ensures i + r <= |s| + 1 && Inv(s, I, v, p, q, h, i + r)
    ensures forall k :: i <= k < i + r ==> I[k] < 0
  {
    assert RunAt(I, i);
    forall k | i <= k < i + r
      ensures v[p[k]] == k
    {
      assert Alone(v, p, k);
    }
    forall k, m | 0 <= k < i + r && 0 <= m < i + r && k != m && v[p[k]] == v[p[m]]
      ensures AgreeTwice(s, p[k], p[m], h)
    {
      assert k < i && m < i;
    }
  }

  /** Writing the joint length of adjacent finished runs into their first entry. */
  lemma MergeRun(s: seq<Byte>, I: seq<int>, v: seq<int>, p: seq<int>, q: seq<int>, h: nat, bd: nat, at: nat, len: nat)
    requires Inv(s, I, v, p, q, h, bd) && at + len <= |s| + 1 && len > 0
    requires forall k :: at <= k < at + len ==> I[k] < 0
    ensures Inv(s, I[at := 0 - len], v, p, q, h, bd)
  {
    var I' := I[at := 0 - len];
    forall k | 0 <= k < |I'| && I'[k] < 0
      ensures RunAt(I', k)
    {
      if k != at { assert RunAt(I, k); }
    }
  }

  /** A live entry met at the boundary starts a whole group of live entries. */
  lemma GroupIsSegment(s: seq<Byte>, I: seq<int>, v: seq<int>, p: seq<int>, q: seq<int>, h: nat, i: nat)
    requires Inv(s, I, v, p, q, h, i) && i <= |s| && I[i] >= 0
    ensures Segment(s, I, v, p, q, h, i, v[p[i]] + 1)
  {
    GroupSolid(|s|, v, p, i);
    forall k | i <= k <= v[p[i]]
      ensures I[k] >= 0
    {
      assert k > i ==> v[p[k]] == v[p[k - 1]];
      assert k > i ==> !Alone(v, p, k);
    }
  }

  /** After a whole pass every group agrees on twice as many symbols. */
  lemma PassDone(s: seq<Byte>, I: seq<int>, v: seq<int>, p: seq<int>, q: seq<int>, h: nat)
    requires Inv(s, I, v, p, q, h, |s| + 1)
    ensures Inv(s, I, v, p, q, 2 * h, 0) && MarksAlone(I, v, p)
  {
    forall i, j | 0 <= i <= |s| && 0 <= j <= |s| && i != j && v[i] == v[j]
      ensures Agree(s, i, j, 2 * h)
    {
      assert p[q[i]] == i && p[q[j]] == j;
      assert AgreeTwice(s, p[q[i]], p[q[j]], h);
    }
  }

  /** The whole sort: leaves the suffix array of oldData in I. */
  method QSufSort(I: array<int>, V: array<int>, oldData: seq<Byte>)
    requires I != V && I.Length == V.Length == |oldData| + 1
    modifies I, V
    ensures IsSuffixArray(oldData, I[..])
  {
    var n := |oldData|;
    ghost var p, q := SortByFirstByte(I, V, oldData);
    var h := 1;
    while I[0] != -(n + 1)
      invariant h > 0 && I[0] < 0 && Inv(oldData, I[..], V[..], p, q, h, 0)
      invariant if h == 1 then MarksBuckets(oldData, I[..], V[..], p) else MarksAlone(I[..], V[..], p)
      decreases if h <= n then n + 1 - h else 0, if I[0] == -(n + 1) then 0 else 1
    {
      ghost var I0 := I[..];
      if h > n { NothingLive(oldData, I[..], V[..], p, q, h); }
      p, q := DoublingPass(I, V, h, oldData, p, q);
      h := h + h;
    }
    SortedGroups(oldData, I[..], V[..], p, q, h);
    ListByRank(I, V, n, p, q);
  }

  /** The file [0] when the first pass begins: the suffix at position 1 is alone and not marked. */
  lemma LoneZeroUnmarked()
    ensures Inv([0], [-1, 0], [1, 0], [1, 0], [1, 0], 1, 0) && LoneZero([0])
    ensures MarksBuckets([0], [-1, 0], [1, 0], [1, 0]) && !MarksAlone([-1, 0], [1, 0], [1, 0])
  {
    hide Inv, MarksBuckets, MarksAlone;
    LoneZeroStart([0], [-1, 0], [1, 0], [1, 0]);
  }

  lemma LoneZeroStart(s: seq<Byte>, I: seq<int>, v: seq<int>, p: seq<int>)
    requires |s| == 1 && s[0] == 0 && |I| == |v| == |p| == 2
    requires I[0] == -1 && I[1] == 0 && v[0] == p[0] == 1 && v[1] == p[1] == 0
    ensures Inv(s, I, v, p, p, 1, 0) && LoneZero(s) && MarksBuckets(s, I, v, p) && !MarksAlone(I, v, p)
  {
    hide Occ;
    LoneZeroCount(s);
    assert Alone(v, p, 1) && Alone(v, p, 0);
    assert RunAt(I, 0);
    assert SufLess(s, 1, 0);
  }

  lemma LoneZeroCount(s: seq<Byte>)
    requires |s| == 1 && s[0] == 0
    ensures LoneZero(s)
  {
    assert Occ(s, 0, 1) == Occ(s, 0, 0) + 1;
  }

  /** Turns the ranks in V into the list of suffixes in I. */
  method ListByRank(I: array<int>, V: array<int>, n: nat, ghost p: seq<int>, ghost q: seq<int>)
    requires I != V && I.Length == V.Length == n + 1 && Inverse(n, p, q) && V[..] == q
    modifies I
    ensures I[..] == p
  {
    var i := 0;
    while i < n + 1
      invariant 0 <= i <= n + 1 && V[..] == q
      invariant forall k :: 0 <= k <= n && p[k] < i ==> I[k] == p[k]
    {
      assert V[i] == q[i];
      I[V[i]] := i;
      i := i + 1;
    }
  }

  lemma NothingLive(s: seq<Byte>, I: seq<int>, v: seq<int>, p: seq<int>, q: seq<int>, h: nat)
    requires Inv(s, I, v, p, q, h, 0) && h > |s|
    ensures AllDone(I)
  {
  }

  /** One run over everything: each group number is a position, and the order is final. */
  lemma SortedGroups(s: seq<Byte>, I: seq<int>, v: seq<int>, p: seq<int>, q: seq<int>, h: nat)
    requires Inv(s, I, v, p, q, h, 0) && I[0] == -(|s| + 1)
    ensures v == q
    ensures IsSuffixArray(s, p)
  {
    assert RunAt(I, 0);
    forall k | 0 <= k <= |s|
      ensures v[p[k]] == k
    {
      assert Alone(v, p, k);
    }
    forall i | 0 <= i <= |s|
      ensures v[i] == q[i] && i in p
    {
      assert p[q[i]] == i;
    }
    forall k, m | 0 <= k < m <= |s|
      ensures LexLess(s[p[k]..], s[p[m]..])
    {
      assert SufLess(s, p[k], p[m]);
      SufLessIsLexLess(s, p[k], p[m]);
    }
  }
}
