/** The invariant of the prefix-doubling suffix sort, and how each of its steps keeps it.

    p is the ghost permutation the sort is refining (p[k] is the suffix now at position k)
    and q its inverse. v[i] is the group number of suffix i: the last position of its group.
    Groups in front of position bd already agree on 2h symbols, the others on h. */
module SortInvariant {
  import opened Bytes
  import opened SuffixOrder
  import opened KeyCount

  ghost predicate Inverse(n: nat, p: seq<int>, q: seq<int>) {
    && |p| == n + 1 && |q| == n + 1
    && (forall k :: 0 <= k <= n ==> 0 <= p[k] <= n && q[p[k]] == k)
    && (forall i :: 0 <= i <= n ==> 0 <= q[i] <= n && p[q[i]] == i)
  }

  ghost predicate SameGroup(v: seq<int>, p: seq<int>, k: nat, m: nat)
    requires k < |p| && m < |p| && 0 <= p[k] < |v| && 0 <= p[m] < |v|
  {
    v[p[m]] == v[p[k]]
  }

  /** The group of position k ends at position v[p[k]], and runs of equal groups are solid. */
  ghost predicate Groups(n: nat, v: seq<int>, p: seq<int>)
    requires |p| == n + 1 && |v| == n + 1 && forall k :: 0 <= k <= n ==> 0 <= p[k] <= n
  {
    && (forall k :: 0 <= k <= n ==> k <= v[p[k]] <= n)
    && (forall k, m {:trigger SameGroup(v, p, k, m)} :: 0 <= k <= m <= n && m <= v[p[k]] ==> SameGroup(v, p, k, m))
  }

  lemma GroupSolid(n: nat, v: seq<int>, p: seq<int>, a: nat)
    requires |p| == n + 1 && |v| == n + 1 && (forall k :: 0 <= k <= n ==> 0 <= p[k] <= n) && Groups(n, v, p) && a <= n
    ensures forall k :: a <= k <= v[p[a]] ==> v[p[k]] == v[p[a]]
  {
    forall k | a <= k <= v[p[a]]
      ensures v[p[k]] == v[p[a]]
    {
      assert SameGroup(v, p, a, k);
    }
  }

  ghost predicate Ordered(s: seq<Byte>, v: seq<int>)
    requires |v| == |s| + 1
  {
    forall i, j {:trigger SufLess(s, i, j)} :: 0 <= i <= |s| && 0 <= j <= |s| && v[i] < v[j] ==> SufLess(s, i, j)
  }

  ghost predicate Coarse(s: seq<Byte>, v: seq<int>, h: nat)
    requires |v| == |s| + 1
  {
    forall i, j {:trigger Agree(s, i, j, h)} ::
      0 <= i <= |s| && 0 <= j <= |s| && i != j && v[i] == v[j] ==> Agree(s, i, j, h)
  }

  ghost predicate AgreeTwice(s: seq<Byte>, i: int, j: int, h: nat) {
    Agree(s, i, j, 2 * h)
  }

  ghost predicate Refined(s: seq<Byte>, v: seq<int>, p: seq<int>, h: nat, bd: nat)
    requires |v| == |s| + 1 && |p| == |s| + 1 && bd <= |s| + 1
    requires forall k :: 0 <= k <= |s| ==> 0 <= p[k] <= |s|
  {
    && (forall k :: 0 <= k < bd ==> v[p[k]] < bd)
    && (forall k, m {:trigger AgreeTwice(s, p[k], p[m], h)} ::
         0 <= k < bd && 0 <= m < bd && k != m && v[p[k]] == v[p[m]] ==> AgreeTwice(s, p[k], p[m], h))
  }

  /** Position k is a group of its own. */
  ghost predicate Alone(v: seq<int>, p: seq<int>, k: nat)
    requires k < |p| && forall m :: 0 <= m < |p| ==> 0 <= p[m] < |v|
  {
    v[p[k]] == k && (k > 0 ==> v[p[k - 1]] != k)
  }

  /** A non-negative entry is live: it names its suffix, which still has h (or 2h) symbols.
      A negative entry stands for a suffix already in its final place: the suffix is alone in its group,
      and in front of bd every suffix that is alone is marked. */
  ghost predicate Marks(n: nat, I: seq<int>, v: seq<int>, p: seq<int>, h: nat, bd: nat)
    requires |p| == n + 1 && |v| == n + 1 && |I| == n + 1 && forall k :: 0 <= k <= n ==> 0 <= p[k] <= n
  {
    && (forall k :: 0 <= k <= n && I[k] >= 0 ==> I[k] == p[k] && p[k] + h <= n && (k < bd ==> p[k] + 2 * h <= n))
    && (forall k {:trigger Alone(v, p, k)} :: 0 <= k <= n && I[k] < 0 ==> Alone(v, p, k))
    && (forall k {:trigger Alone(v, p, k)} :: 0 <= k < bd && k <= n && Alone(v, p, k) ==> I[k] < 0)
  }

  /** Negative entries mark exactly the groups with one member. */
  ghost predicate MarksAlone(I: seq<int>, v: seq<int>, p: seq<int>)
    requires |I| == |p| && forall m :: 0 <= m < |p| ==> 0 <= p[m] < |v|
  {
    forall k {:trigger Alone(v, p, k)} :: 0 <= k < |I| ==> (I[k] < 0 <==> Alone(v, p, k))
  }

  /** A negative entry -r at k stands for r finished positions from k on. */
  ghost predicate Runs(I: seq<int>) {
    forall k {:trigger RunAt(I, k)} :: 0 <= k < |I| && I[k] < 0 ==> RunAt(I, k)
  }

  ghost predicate RunAt(I: seq<int>, k: nat)
    requires k < |I|
  {
    k - I[k] <= |I| && forall m :: k <= m < k - I[k] ==> I[m] < 0
  }

  ghost predicate Inv(s: seq<Byte>, I: seq<int>, v: seq<int>, p: seq<int>, q: seq<int>, h: nat, bd: nat) {
    && |I| == |s| + 1 && |v| == |s| + 1 && bd <= |s| + 1
    && Inverse(|s|, p, q)
    && Groups(|s|, v, p)
    && Ordered(s, v)
    && Coarse(s, v, h)
    && Refined(s, v, p, h, bd)
    && Marks(|s|, I, v, p, h, bd)
    && Runs(I)
  }

  /** Every suffix in positions lo..mid precedes every suffix in positions mid..hi. */
  ghost predicate Below(s: seq<Byte>, p: seq<int>, lo: nat, mid: nat, hi: nat)
    requires hi <= |p| && forall k :: 0 <= k < |p| ==> 0 <= p[k]
  {
    forall k, m {:trigger SufLess(s, p[k], p[m])} :: lo <= k < mid && mid <= m < hi ==> SufLess(s, p[k], p[m])
  }

  ghost predicate SameOutside(a: seq<int>, b: seq<int>, start: nat, len: nat) {
    |a| == |b| && forall k :: 0 <= k < |a| && !(start <= k < start + len) ==> a[k] == b[k]
  }

  /** The stretch start..start+len names its suffixes, and only it may differ from I0 and p0. */
  ghost predicate Shuffled(n: nat, I0: seq<int>, p0: seq<int>, I: seq<int>, p: seq<int>, q: seq<int>, start: nat,
                           len: nat) {
    && start + len <= n + 1
    && |I| == n + 1
    && Inverse(n, p, q)
    && SameOutside(I0, I, start, len) && SameOutside(p0, p, start, len)
    && forall k :: start <= k < start + len ==> I[k] == p[k]
  }

  lemma SwapKeepsShuffled(n: nat, I0: seq<int>, p0: seq<int>, I: seq<int>, p: seq<int>, q: seq<int>, start: nat,
                          len: nat, x: nat, y: nat)
    requires Shuffled(n, I0, p0, I, p, q, start, len)
    requires start <= x < start + len && start <= y < start + len
    ensures Shuffled(n, I0, p0, Swapped(I, x, y), Swapped(p, x, y), q[p[x] := y][p[y] := x], start, len)
  {
  }

  /** A run of exchanges, last one outermost. */
  datatype Swaps = NoSwap | Then(before: Swaps, x: nat, y: nat)

  ghost predicate Within(sw: Swaps, lo: nat, hi: nat) {
    sw.Then? ==> lo <= sw.x < hi && lo <= sw.y < hi && Within(sw.before, lo, hi)
  }

  ghost function AfterSwaps(a: seq<int>, sw: Swaps): (r: seq<int>)
    ensures |r| == |a|
  {
    if sw.Then? && sw.x < |a| && sw.y < |a| then Swapped(AfterSwaps(a, sw.before), sw.x, sw.y) else a
  }

  /** A run of exchanges inside a stretch only shuffles the stretch. */
  lemma {:induction false} SwapsShuffle(n: nat, I0: seq<int>, p0: seq<int>, q0: seq<int>, start: nat, len: nat,
                                        sw: Swaps)
    returns (p: seq<int>, q: seq<int>)
    requires Shuffled(n, I0, p0, I0, p0, q0, start, len) && Within(sw, start, start + len)
    ensures Shuffled(n, I0, p0, AfterSwaps(I0, sw), p, q, start, len)
  {
    if sw.NoSwap? {
      p, q := p0, q0;
    } else {
      p, q := SwapsShuffle(n, I0, p0, q0, start, len, sw.before);
      SwapKeepsShuffled(n, I0, p0, AfterSwaps(I0, sw.before), p, q, start, len, sw.x, sw.y);
      p, q := Swapped(p, sw.x, sw.y), q[p[sw.x] := sw.y][p[sw.y] := sw.x];
    }
  }

  /** Shuffling keeps the members of the stretch together. */
  lemma ShuffledMembers(n: nat, I0: seq<int>, p0: seq<int>, q0: seq<int>, I: seq<int>, p: seq<int>, q: seq<int>,
                        start: nat, len: nat, k: nat)
    requires Inverse(n, p0, q0) && Shuffled(n, I0, p0, I, p, q, start, len)
    requires start <= k < start + len
    ensures start <= q0[p[k]] < start + len
  {
    var m := q0[p[k]];
    assert p0[m] == p[k];
    assert q[p[m]] == m && q[p[k]] == k;
  }

  /** Shuffling live members of one unfinished group keeps the invariant. */
  lemma ShuffleKeepsInv(s: seq<Byte>, I0: seq<int>, v: seq<int>, p0: seq<int>, q0: seq<int>, h: nat,
                        I: seq<int>, p: seq<int>, q: seq<int>, start: nat, len: nat)
    requires Inv(s, I0, v, p0, q0, h, start)
    requires Shuffled(|s|, I0, p0, I, p, q, start, len) && 0 < len
    requires start + len - 1 <= v[p0[start]] && forall k :: start <= k < start + len ==> I0[k] >= 0
    ensures forall k :: 0 <= k <= |s| ==> v[p[k]] == v[p0[k]]
    ensures Inv(s, I, v, p, q, h, start)
  {
    var n := |s|;
    GroupSolid(n, v, p0, start);
    forall k | start <= k < start + len
      ensures v[p[k]] == v[p0[k]] && p[k] + h <= n
    {
      ShuffledMembers(n, I0, p0, q0, I, p, q, start, len, k);
      assert p0[q0[p[k]]] == p[k];
    }
    ShuffleGroups(n, v, p0, p);
    assert Refined(s, v, p, h, start) by {
      assert forall k :: 0 <= k < start ==> p[k] == p0[k];
    }
    forall k | 0 <= k <= n && I[k] < 0
      ensures RunAt(I, k)
    {
      assert RunAt(I0, k);
    }
    ShuffleMarks(n, I0, v, p0, I, p, h, start, len);
  }

  lemma ShuffleMarks(n: nat, I0: seq<int>, v: seq<int>, p0: seq<int>, I: seq<int>, p: seq<int>, h: nat, start: nat,
                     len: nat)
    requires |p0| == n + 1 && |p| == n + 1 && |v| == n + 1 && |I0| == n + 1 && |I| == n + 1 && start + len <= n + 1
    requires forall k :: 0 <= k <= n ==> 0 <= p[k] <= n && 0 <= p0[k] <= n && v[p[k]] == v[p0[k]]
    requires Marks(n, I0, v, p0, h, start)
    requires SameOutside(I0, I, start, len) && SameOutside(p0, p, start, len)
    requires forall k :: start <= k < start + len ==> I[k] == p[k] && p[k] + h <= n
    ensures Marks(n, I, v, p, h, start)
  {
    forall k | 0 <= k <= n
      ensures Alone(v, p, k) == Alone(v, p0, k)
    {
    }
    assert forall k :: 0 <= k < start ==> I[k] == I0[k] && p[k] == p0[k];
  }

  lemma ShuffleGroups(n: nat, v: seq<int>, p0: seq<int>, p: seq<int>)
    requires |p| == n + 1 && |p0| == n + 1 && |v| == n + 1
    requires forall k :: 0 <= k <= n ==> 0 <= p[k] <= n && 0 <= p0[k] <= n && v[p[k]] == v[p0[k]]
    requires Groups(n, v, p0)
    ensures Groups(n, v, p)
  {
    forall k, m | 0 <= k <= m <= n && m <= v[p[k]]
      ensures SameGroup(v, p, k, m)
    {
      assert SameGroup(v, p0, k, m);
    }
  }

  /** Two members of one group, compared by the group of what follows their first h symbols. */
  lemma KeyOrder(s: seq<Byte>, v: seq<int>, h: nat, i: nat, j: nat)
    requires |v| == |s| + 1 && Ordered(s, v) && Coarse(s, v, h)
    requires i <= |s| && j <= |s| && v[i] == v[j] && i + h <= |s| && j + h <= |s|
    ensures v[i + h] < v[j + h] ==> SufLess(s, i, j)
    ensures v[i + h] == v[j + h] && i != j ==> AgreeTwice(s, i, j, h)
  {
    if v[i + h] < v[j + h] {
      assert i != j;
      LessAfterAgreement(s, i, j, h);
    } else if v[i + h] == v[j + h] && i != j {
      assert i + h != j + h;
      AgreeExtend(s, i, j, h);
    }
  }

  /** v' gives the positions a..b the group number b. */
  ghost predicate Regrouped(v: seq<int>, v': seq<int>, p: seq<int>, q: seq<int>, a: nat, b: nat)
    requires |v| == |v'| == |p| == |q| && a <= b < |p|
    requires forall k :: 0 <= k < |p| ==> 0 <= p[k] < |p|
  {
    && (forall i :: 0 <= i < |v| && a <= q[i] <= b ==> v'[i] == b)
    && (forall i :: 0 <= i < |v| && !(a <= q[i] <= b) ==> v'[i] == v[i])
  }

  /** Cutting the positions a..b off the front of an unfinished group. */
  lemma RegroupKeepsInv(s: seq<Byte>, I: seq<int>, v: seq<int>, p: seq<int>, q: seq<int>, h: nat,
                        a: nat, b: nat, v': seq<int>, I': seq<int>)
    requires Inv(s, I, v, p, q, h, a)
    requires a <= b <= |s| && b <= v[p[a]]
    requires forall k :: a <= k <= b ==> I[k] >= 0
    requires forall k, m :: a <= k <= b && a <= m <= b && k != m ==> AgreeTwice(s, p[k], p[m], h)
    requires Below(s, p, a, b + 1, v[p[a]] + 1)
    requires |v'| == |v| && Regrouped(v, v', p, q, a, b)
    requires I' == if a == b then I[a := -1] else I
    ensures Inv(s, I', v', p, q, h, b + 1)
  {
    RegroupGroups(|s|, v, p, q, a, b, v');
    RegroupOrder(s, v, p, q, h, a, b, v');
    RegroupMarks(s, I, v, p, q, h, a, b, v', I');
  }

  lemma RegroupOrder(s: seq<Byte>, v: seq<int>, p: seq<int>, q: seq<int>, h: nat, a: nat, b: nat, v': seq<int>)
    requires |v| == |s| + 1 && a <= |s| + 1 && Inverse(|s|, p, q) && Groups(|s|, v, p)
    requires Ordered(s, v) && Coarse(s, v, h) && Refined(s, v, p, h, a)
    requires a <= b <= |s| && b <= v[p[a]] && Below(s, p, a, b + 1, v[p[a]] + 1)
    requires forall k, m :: a <= k <= b && a <= m <= b && k != m ==> AgreeTwice(s, p[k], p[m], h)
    requires |v'| == |v| && Regrouped(v, v', p, q, a, b)
    ensures Ordered(s, v') && Coarse(s, v', h)
    ensures Refined(s, v', p, h, b + 1)
  {
    var n := |s|;
    forall i, j | 0 <= i <= n && 0 <= j <= n && v'[i] < v'[j]
      ensures SufLess(s, i, j)
    {
      RegroupOrdered(s, v, p, q, h, a, b, v', i, j);
    }
    forall i, j | 0 <= i <= n && 0 <= j <= n && i != j && v'[i] == v'[j]
      ensures Agree(s, i, j, h)
    {
      RegroupAgree(s, v, p, q, h, a, b, v', i, j);
    }
    forall k, m | 0 <= k < b + 1 && 0 <= m < b + 1 && k != m && v'[p[k]] == v'[p[m]]
      ensures AgreeTwice(s, p[k], p[m], h)
    {
      assert q[p[k]] == k && q[p[m]] == m;
      RegroupAgree(s, v, p, q, h, a, b, v', p[k], p[m]);
    }
    RegroupGroups(n, v, p, q, a, b, v');
  }

  lemma RegroupGroups(n: nat, v: seq<int>, p: seq<int>, q: seq<int>, a: nat, b: nat, v': seq<int>)
    requires Inverse(n, p, q) && |v| == |v'| == n + 1 && Groups(n, v, p)
    requires a <= b <= n && b <= v[p[a]] && Regrouped(v, v', p, q, a, b)
    requires forall k :: 0 <= k < a ==> v[p[k]] < a
    ensures Groups(n, v', p)
    ensures forall k :: 0 <= k < b + 1 ==> v'[p[k]] < b + 1
  {
    assert forall k :: 0 <= k <= n ==> v'[p[k]] == if a <= k <= b then b else v[p[k]];
    GroupSolid(n, v, p, a);
    forall k, m | 0 <= k <= m <= n && m <= v'[p[k]]
      ensures SameGroup(v', p, k, m)
    {
      assert SameGroup(v, p, k, m);
    }
  }

  lemma RegroupAt(n: nat, v: seq<int>, p: seq<int>, q: seq<int>, a: nat, b: nat, v': seq<int>)
    requires Inverse(n, p, q) && |v| == |v'| == n + 1 && a <= b <= n && Regrouped(v, v', p, q, a, b)
    ensures forall k :: 0 <= k <= n ==> v'[p[k]] == if a <= k <= b then b else v[p[k]]
  {
  }

  /** Which groups have one member after the positions a..b were cut off the group of a. */
  lemma RegroupAlone(n: nat, v: seq<int>, p: seq<int>, a: nat, b: nat, v': seq<int>, k: nat)
    requires |v| == |v'| == |p| == n + 1 && a <= b <= n && k <= n && forall m :: 0 <= m <= n ==> 0 <= p[m] <= n
    requires forall m :: 0 <= m <= n ==> v'[p[m]] == if a <= m <= b then b else v[p[m]]
    requires forall m :: a <= m <= v[p[a]] ==> m <= n && v[p[m]] == v[p[a]]
    requires b <= v[p[a]] && (forall m :: 0 <= m < a ==> v[p[m]] < a)
    ensures k < a ==> Alone(v', p, k) == Alone(v, p, k)
    ensures a <= k <= b ==> (Alone(v', p, k) <==> a == b)
    ensures k > b && Alone(v, p, k) ==> Alone(v', p, k)
  {
  }

  lemma RegroupMarks(s: seq<Byte>, I: seq<int>, v: seq<int>, p: seq<int>, q: seq<int>, h: nat,
                     a: nat, b: nat, v': seq<int>, I': seq<int>)
    requires Inv(s, I, v, p, q, h, a)
    requires a <= b <= |s| && b <= v[p[a]]
    requires forall k :: a <= k <= b ==> I[k] >= 0
    requires forall k, m :: a <= k <= b && a <= m <= b && k != m ==> AgreeTwice(s, p[k], p[m], h)
    requires |v'| == |v| && Regrouped(v, v', p, q, a, b)
    requires I' == if a == b then I[a := -1] else I
    ensures Marks(|s|, I', v', p, h, b + 1) && Runs(I')
  {
    GroupSolid(|s|, v, p, a);
    RegroupAt(|s|, v, p, q, a, b, v');
    forall k | 0 <= k <= |s|
      ensures (I'[k] < 0 ==> Alone(v', p, k)) && (k <= b && Alone(v', p, k) ==> I'[k] < 0)
    {
      RegroupAlone(|s|, v, p, a, b, v', k);
      assert Alone(v, p, k) == Alone(v, p, k);
    }
    forall k | 0 <= k <= |s| && I'[k] < 0
      ensures RunAt(I', k)
    {
      if !(a == b == k) { assert RunAt(I, k); }
    }
    forall k | 0 <= k <= |s| && I'[k] >= 0
      ensures I'[k] == p[k] && p[k] + h <= |s| && (k < b + 1 ==> p[k] + 2 * h <= |s|)
    {
      if a <= k <= b {
        var m := if k == a then b else a;
        assert Agree(s, p[k], p[m], 2 * h) by { assert AgreeTwice(s, p[k], p[m], h); }
      }
    }
  }

  lemma RegroupOrdered(s: seq<Byte>, v: seq<int>, p: seq<int>, q: seq<int>, h: nat,
                       a: nat, b: nat, v': seq<int>, i: nat, j: nat)
    requires |v| == |s| + 1 && a <= |s| + 1 && Inverse(|s|, p, q) && Groups(|s|, v, p) && Ordered(s, v)
             && Refined(s, v, p, h, a)
    requires a <= b <= |s| && b <= v[p[a]] && Below(s, p, a, b + 1, v[p[a]] + 1)
    requires |v'| == |v| && Regrouped(v, v', p, q, a, b)
    requires i <= |s| && j <= |s| && v'[i] < v'[j]
    ensures SufLess(s, i, j)
  {
    var g, x, y := v[p[a]], q[i], q[j];
    assert p[x] == i && p[y] == j;
    GroupSolid(|s|, v, p, a);
    if a <= x <= b {
      assert v[i] == g && (y <= g ==> b < y);
    }
  }

  lemma RegroupAgree(s: seq<Byte>, v: seq<int>, p: seq<int>, q: seq<int>, h: nat,
                     a: nat, b: nat, v': seq<int>, i: nat, j: nat)
    requires |v| == |s| + 1 && a <= |s| + 1 && Inverse(|s|, p, q) && Groups(|s|, v, p) && Coarse(s, v, h)
             && Refined(s, v, p, h, a)
    requires a <= b <= |s| && b <= v[p[a]]
    requires forall k, m :: a <= k <= b && a <= m <= b && k != m ==> AgreeTwice(s, p[k], p[m], h)
    requires |v'| == |v| && Regrouped(v, v', p, q, a, b)
    requires i <= |s| && j <= |s| && i != j && v'[i] == v'[j]
    ensures Agree(s, i, j, h)
    ensures q[i] <= b && q[j] <= b ==> AgreeTwice(s, i, j, h)
  {
    var g, x, y := v[p[a]], q[i], q[j];
    assert p[x] == i && p[y] == j;
    OnlyInside(|s|, v, p, a, b, x);
    OnlyInside(|s|, v, p, a, b, y);
    if !(a <= x <= b) && x <= b && y <= b {
      assert AgreeTwice(s, p[x], p[y], h);
    }
  }

  /** No position outside a..b is numbered b, unless it lies in the old group of a. */
  lemma OnlyInside(n: nat, v: seq<int>, p: seq<int>, a: nat, b: nat, y: nat)
    requires |p| == n + 1 && |v| == n + 1 && (forall k :: 0 <= k <= n ==> 0 <= p[k] <= n) && Groups(n, v, p)
    requires a <= b <= n && b <= v[p[a]] && y <= n && (forall k :: 0 <= k < a ==> v[p[k]] < a)
    ensures if a <= y <= b then v[p[y]] == v[p[a]] else v[p[y]] != b
  {
    GroupSolid(n, v, p, a);
  }
}
