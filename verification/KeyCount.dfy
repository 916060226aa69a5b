/** How many keys lie on one side of a pivot: the bookkeeping behind an in-place partition. */
module KeyCount {

  function Side(key: int, pivot: int): (r: int) {
    if key < pivot then -1 else if key == pivot then 0 else 1
  }

  function Swapped(a: seq<int>, x: nat, y: nat): (r: seq<int>)
    requires x < |a| && y < |a|
  {
    a[x := a[y]][y := a[x]]
  }

  /** The number of keys on side c of the pivot from lo up to m. */
  function Count(keys: seq<int>, pivot: int, c: int, lo: nat, m: nat): (r: nat)
    requires lo <= m <= |keys|
  {
    if m == lo then 0
    else Count(keys, pivot, c, lo, m - 1) + if Side(keys[m - 1], pivot) == c then 1 else 0
  }

  lemma {:induction false} CountTotal(keys: seq<int>, pivot: int, lo: nat, m: nat)
    requires lo <= m <= |keys|
    ensures Count(keys, pivot, -1, lo, m) + Count(keys, pivot, 0, lo, m) + Count(keys, pivot, 1, lo, m) == m - lo
  {
    if m > lo { CountTotal(keys, pivot, lo, m - 1); }
  }

  lemma {:induction false} CountUpdate(keys: seq<int>, pivot: int, c: int, lo: nat, m: nat, i: nat, key: int)
    requires lo <= m <= |keys| && lo <= i < |keys|
    ensures Count(keys[i := key], pivot, c, lo, m) ==
            Count(keys, pivot, c, lo, m)
            + if i < m then (if Side(key, pivot) == c then 1 else 0) - (if Side(keys[i], pivot) == c then 1 else 0)
                else 0
  {
    if m > lo { CountUpdate(keys, pivot, c, lo, m - 1, i, key); }
  }

  /** Exchanging two keys changes no count. */
  lemma CountSwap(keys: seq<int>, pivot: int, c: int, lo: nat, hi: nat, x: nat, y: nat)
    requires lo <= x < hi <= |keys| && lo <= y < hi
    ensures Count(Swapped(keys, x, y), pivot, c, lo, hi) == Count(keys, pivot, c, lo, hi)
  {
    CountUpdate(keys, pivot, c, lo, hi, x, keys[y]);
    CountUpdate(keys[x := keys[y]], pivot, c, lo, hi, y, keys[x]);
  }

  /** A stretch a..b filled with side c, and one more such key at i. */
  lemma {:induction false} CountAtLeast(keys: seq<int>, pivot: int, c: int, lo: nat, m: nat, a: nat, b: nat, i: nat)
    requires lo <= m <= |keys| && lo <= a <= b <= |keys| && lo <= i < |keys| && !(a <= i < b)
    requires Side(keys[i], pivot) == c && forall t :: a <= t < b ==> Side(keys[t], pivot) == c
    ensures Count(keys, pivot, c, lo, m) >= (if m <= a then 0 else if m <= b then m - a else b - a) + if i < m then 1
            else 0
  {
    if m > lo { CountAtLeast(keys, pivot, c, lo, m - 1, a, b, i); }
  }

  /** The three-way partition of lo..hi under way: lo..i holds small keys, jj..jj+j keys
      equal to the pivot, kk..kk+k large keys; jj and kk are where the zones will begin. */
  ghost predicate Zones(keys: seq<int>, pivot: int, lo: nat, hi: nat, jj: nat, kk: nat, i: nat, j: nat, k: nat) {
    && lo <= i <= jj && jj + j <= kk && kk + k <= hi <= |keys|
    && Count(keys, pivot, -1, lo, hi) == jj - lo && Count(keys, pivot, 0, lo, hi) == kk - jj
    && (forall t :: lo <= t < i ==> keys[t] < pivot)
    && (forall t :: jj <= t < jj + j ==> keys[t] == pivot)
    && (forall t :: kk <= t < kk + k ==> keys[t] > pivot)
  }

  /** A key found outside its zone proves that zone still has room. */
  lemma ZoneHasRoom(keys: seq<int>, pivot: int, lo: nat, hi: nat, jj: nat, kk: nat, i: nat, j: nat, k: nat, t: nat)
    requires Zones(keys, pivot, lo, hi, jj, kk, i, j, k) && lo <= t < hi
    ensures keys[t] < pivot && i <= t ==> i < jj
    ensures keys[t] == pivot && !(jj <= t < jj + j) ==> jj + j < kk
    ensures keys[t] > pivot && !(kk <= t < kk + k) ==> kk + k < hi
  {
    CountTotal(keys, pivot, lo, hi);
    if keys[t] < pivot && i <= t {
      CountAtLeast(keys, pivot, -1, lo, hi, lo, i, t);
    } else if keys[t] == pivot && !(jj <= t < jj + j) {
      CountAtLeast(keys, pivot, 0, lo, hi, jj, jj + j, t);
    } else if keys[t] > pivot && !(kk <= t < kk + k) {
      CountAtLeast(keys, pivot, 1, lo, hi, kk, kk + k, t);
    }
  }

  lemma SwapIntoEqual(keys: seq<int>, pivot: int, lo: nat, hi: nat, jj: nat, kk: nat, i: nat, j: nat, k: nat)
    requires Zones(keys, pivot, lo, hi, jj, kk, i, j, k) && i < jj && keys[i] == pivot
    ensures jj + j < kk && Zones(Swapped(keys, i, jj + j), pivot, lo, hi, jj, kk, i, j + 1, k)
  {
    ZoneHasRoom(keys, pivot, lo, hi, jj, kk, i, j, k, i);
    CountSwap(keys, pivot, -1, lo, hi, i, jj + j);
    CountSwap(keys, pivot, 0, lo, hi, i, jj + j);
  }

  lemma SwapIntoLarge(keys: seq<int>, pivot: int, lo: nat, hi: nat, jj: nat, kk: nat, i: nat, j: nat, k: nat, t: nat)
    requires Zones(keys, pivot, lo, hi, jj, kk, i, j, k) && i <= t < kk && keys[t] > pivot
    ensures kk + k < hi && Zones(Swapped(keys, t, kk + k), pivot, lo, hi, jj, kk, i, j, k + 1)
  {
    ZoneHasRoom(keys, pivot, lo, hi, jj, kk, i, j, k, t);
    CountSwap(keys, pivot, -1, lo, hi, t, kk + k);
    CountSwap(keys, pivot, 0, lo, hi, t, kk + k);
  }

  /** When the small and the equal zone are full, everything behind them is large. */
  lemma ZonesComplete(keys: seq<int>, pivot: int, lo: nat, hi: nat, jj: nat, kk: nat, k: nat)
    requires jj <= kk && Zones(keys, pivot, lo, hi, jj, kk, jj, kk - jj, k)
    ensures forall t :: kk <= t < hi ==> keys[t] > pivot
  {
    forall t | kk <= t < hi
      ensures keys[t] > pivot
    {
      ZoneHasRoom(keys, pivot, lo, hi, jj, kk, jj, kk - jj, k, t);
    }
  }
}
