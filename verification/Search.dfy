/** Binary search of a suffix array for a match of the front of a pattern. */
module Search {
  import opened Bytes
  import opened SuffixOrder

  /** The length of the longest common prefix. */
  function Lcp(a: seq<Byte>, b: seq<Byte>): (r: nat)
    ensures r <= |a| && r <= |b| && a[..r] == b[..r]
    ensures r < |a| && r < |b| ==> a[r] != b[r]
  {
    if a == [] || b == [] || a[0] != b[0] then 0
    else
      var r := 1 + Lcp(a[1..], b[1..]);
      assert a[..r] == [a[0]] + a[1..][..r - 1] && b[..r] == [b[0]] + b[1..][..r - 1];
      r
  }

  /** The sign of the first difference, looking no further than the shorter string. */
  function CompareFronts(a: seq<Byte>, b: seq<Byte>): (r: int) {
    if a == [] || b == [] then 0
    else if a[0] != b[0] then (if a[0] < b[0] then -1 else 1)
    else CompareFronts(a[1..], b[1..])
  }

  method MatchLen(oldData: seq<Byte>, newData: seq<Byte>) returns (i: nat)
    ensures i == Lcp(oldData, newData)
  {
    i := 0;
    while i < |oldData| && i < |newData|
      invariant i <= |oldData| && i <= |newData|
      invariant Lcp(oldData, newData) == i + Lcp(oldData[i..], newData[i..])
    {
      if oldData[i] != newData[i] { break; }
      assert oldData[i..][1..] == oldData[i + 1..] && newData[i..][1..] == newData[i + 1..];
      i := i + 1;
    }
  }

  ghost predicate Candidates(I: seq<int>, oldData: seq<Byte>) {
    |I| == |oldData| + 1 && forall k :: 0 <= k < |I| ==> 0 <= I[k] <= |oldData|
  }

  datatype Match = Match(len: nat, pos: nat)

  /** The match the search ends on, by recursion on the window st..en. */
  function Find(I: seq<int>, oldData: seq<Byte>, newData: seq<Byte>, st: nat, en: nat): (m: Match)
    requires Candidates(I, oldData) && st <= en <= |oldData|
    ensures m.pos <= |oldData| && m.len == Lcp(oldData[m.pos..], newData)
    decreases en - st
  {
    if en - st < 2 then
      var x, y := Lcp(oldData[I[st]..], newData), Lcp(oldData[I[en]..], newData);
      if x > y then Match(x, I[st]) else Match(y, I[en])
    else
      var x := st + (en - st) / 2;
      if CompareFronts(oldData[I[x]..], newData) < 0 then Find(I, oldData, newData, x, en)
          else Find(I, oldData, newData, st, x)
  }

  method Search(I: seq<int>, oldData: seq<Byte>, newData: seq<Byte>, st: nat, en: nat) returns (len: nat, pos: nat)
    requires Candidates(I, oldData) && st <= en <= |oldData|
    ensures Match(len, pos) == Find(I, oldData, newData, st, en)
    decreases en - st
  {
    if en - st < 2 {
      var x := MatchLen(oldData[I[st]..], newData);
      var y := MatchLen(oldData[I[en]..], newData);
      if x > y {
        pos := I[st];
        return x, pos;
      } else {
        pos := I[en];
        return y, pos;
      }
    }
    var x := st + (en - st) / 2;
    if CompareFronts(oldData[I[x]..], newData) < 0 {
      len, pos := Search(I, oldData, newData, x, en);
    } else {
      len, pos := Search(I, oldData, newData, st, x);
    }
  }

  /** No position of oldData matches more of the pattern than len. */
  ghost predicate Longest(oldData: seq<Byte>, newData: seq<Byte>, len: nat) {
    forall t :: 0 <= t <= |oldData| ==> Lcp(oldData[t..], newData) <= len
  }

  /** Suffix t of oldData is not empty and is a proper prefix of the pattern. */
  ghost predicate Truncated(oldData: seq<Byte>, newData: seq<Byte>, t: nat) {
    t < |oldData| && |oldData| - t < |newData| && oldData[t..] == newData[..|oldData| - t]
  }

  /** len is the longest match, or at least as long as some suffix that ran out too early. */
  ghost predicate Settled(oldData: seq<Byte>, newData: seq<Byte>, len: nat) {
    Longest(oldData, newData, len) || exists t :: Truncated(oldData, newData, t) && |oldData| - t <= len
  }

  lemma {:induction false} LcpMonotoneBelow(u: seq<Byte>, v: seq<Byte>, w: seq<Byte>)
    requires (u == v || LexLess(u, v)) && LexLess(v, w)
    ensures Lcp(u, w) <= Lcp(v, w)
  {
    if u != [] && v != [] && u[0] == v[0] == w[0] {
      assert u != v ==> u[1..] != v[1..] || LexLess(u[1..], v[1..]);
      LcpMonotoneBelow(u[1..], v[1..], w[1..]);
    }
  }

  lemma {:induction false} LcpMonotoneAbove(u: seq<Byte>, v: seq<Byte>, w: seq<Byte>)
    requires (u == v || LexLess(v, u)) && LexLess(w, v)
    ensures Lcp(u, w) <= Lcp(v, w)
  {
    if w != [] && v[0] == w[0] && u[0] == v[0] {
      LcpMonotoneAbove(u[1..], v[1..], w[1..]);
    }
  }

  lemma {:induction false} FrontsDecide(a: seq<Byte>, b: seq<Byte>)
    ensures CompareFronts(a, b) < 0 ==> LexLess(a, b)
    ensures CompareFronts(a, b) > 0 ==> LexLess(b, a)
    ensures CompareFronts(a, b) == 0 ==> (Lcp(a, b) == |a| && a <= b) || (Lcp(a, b) == |b| && b <= a)
  {
    if a != [] && b != [] && a[0] == b[0] {
      FrontsDecide(a[1..], b[1..]);
      assert a == [a[0]] + a[1..] && b == [b[0]] + b[1..];
    }
  }

  /** What the search knows about its window: st lies before the pattern, en does not. */
  ghost predicate Window(I: seq<int>, oldData: seq<Byte>, newData: seq<Byte>, st: nat, en: nat)
    requires Candidates(I, oldData) && st <= en <= |oldData|
  {
    && (st < en || |oldData| == 0)
    && (st == 0 || CompareFronts(oldData[I[st]..], newData) < 0)
    && (en == |oldData| || CompareFronts(oldData[I[en]..], newData) >= 0)
  }

  /** In any window the search either finds the longest match, or stops at a suffix of oldData
      that runs out before the pattern does, and matches at least that much. */
  lemma {:induction false} FindLongest(I: seq<int>, oldData: seq<Byte>, newData: seq<Byte>, st: nat, en: nat)
    requires Candidates(I, oldData) && IsSuffixArray(oldData, I) && st <= en <= |oldData|
             && Window(I, oldData, newData, st, en)
    ensures Settled(oldData, newData, Find(I, oldData, newData, st, en).len)
    decreases en - st
  {
    if en - st < 2 {
      NarrowWindow(I, oldData, newData, st, en);
    } else {
      var st', en' := FindStep(I, oldData, newData, st, en);
      FindLongest(I, oldData, newData, st', en');
    }
  }

  /** The upper end of the last window. */
  function LastHigh(I: seq<int>, oldData: seq<Byte>, newData: seq<Byte>, st: nat, en: nat): (r: nat)
    requires Candidates(I, oldData) && st <= en <= |oldData|
    ensures st <= r <= en
    decreases en - st
  {
    if en - st < 2 then en
    else
      var x := st + (en - st) / 2;
      if CompareFronts(oldData[I[x]..], newData) < 0 then LastHigh(I, oldData, newData, x, en)
      else LastHigh(I, oldData, newData, st, x)
  }

  /** One halving of the window changes neither the answer, nor where it ends, nor what is known about the window. */
  lemma FindStep(I: seq<int>, oldData: seq<Byte>, newData: seq<Byte>, st: nat, en: nat) returns (st': nat, en': nat)
    requires Candidates(I, oldData) && st + 2 <= en <= |oldData| && Window(I, oldData, newData, st, en)
    ensures st <= st' <= en' <= en && en' - st' < en - st && Window(I, oldData, newData, st', en')
    ensures Find(I, oldData, newData, st, en) == Find(I, oldData, newData, st', en')
    ensures LastHigh(I, oldData, newData, st, en) == LastHigh(I, oldData, newData, st', en')
  {
    hide Lcp, CompareFronts;
    var x := st + (en - st) / 2;
    if CompareFronts(oldData[I[x]..], newData) < 0 {
      st', en' := x, en;
    } else {
      st', en' := st, x;
    }
  }

  lemma NarrowWindow(I: seq<int>, oldData: seq<Byte>, newData: seq<Byte>, st: nat, en: nat)
    requires Candidates(I, oldData) && IsSuffixArray(oldData, I) && st <= en < st + 2 && en <= |oldData|
             && Window(I, oldData, newData, st, en)
    ensures Settled(oldData, newData, Find(I, oldData, newData, st, en).len)
  {
    var len := Find(I, oldData, newData, st, en).len;
    if forall t :: Truncated(oldData, newData, t) ==> |oldData| - t > len {
      forall t | 0 <= t <= |oldData|
        ensures Lcp(oldData[t..], newData) <= len
      {
        assert t in I;
        var k :| 0 <= k <= |oldData| && I[k] == t;
        if k <= st { LeftOfWindow(I, oldData, newData, st, k); } else { RightOfWindow(I, oldData, newData, en, k); }
      }
    }
  }

  lemma LeftOfWindow(I: seq<int>, oldData: seq<Byte>, newData: seq<Byte>, st: nat, k: nat)
    requires Candidates(I, oldData) && IsSuffixArray(oldData, I) && k <= st <= |oldData|
    requires st == 0 || CompareFronts(oldData[I[st]..], newData) < 0
    ensures Lcp(oldData[I[k]..], newData) <= Lcp(oldData[I[st]..], newData)
  {
    if st > 0 {
      FrontsDecide(oldData[I[st]..], newData);
      LcpMonotoneBelow(oldData[I[k]..], oldData[I[st]..], newData);
    }
  }

  lemma RightOfWindow(I: seq<int>, oldData: seq<Byte>, newData: seq<Byte>, en: nat, k: nat)
    requires Candidates(I, oldData) && IsSuffixArray(oldData, I) && 0 < en <= k <= |oldData|
    requires en == |oldData| || CompareFronts(oldData[I[en]..], newData) >= 0
    ensures Lcp(oldData[I[k]..], newData) <= Lcp(oldData[I[en]..], newData)
            || (Truncated(oldData, newData, I[en]) && |oldData| - I[en] <= Lcp(oldData[I[en]..], newData))
  {
    var e := oldData[I[en]..];
    if en < k {
      FrontsDecide(e, newData);
      if CompareFronts(e, newData) > 0 {
        LcpMonotoneAbove(oldData[I[k]..], e, newData);
      } else if |newData| > |e| {
        assert LexLess(oldData[I[0]..], e);
      }
    }
  }

  /** The search over all of oldData finds the longest match, unless a suffix of oldData is a proper
      prefix of the pattern and a longer match lies elsewhere. */
  lemma SearchLongest(I: seq<int>, oldData: seq<Byte>, newData: seq<Byte>)
    requires IsSuffixArray(oldData, I)
    requires forall t :: Truncated(oldData, newData, t) ==> Longest(oldData, newData, |oldData| - t)
    ensures Longest(oldData, newData, Find(I, oldData, newData, 0, |oldData|).len)
  {
    FindLongest(I, oldData, newData, 0, |oldData|);
    var len := Find(I, oldData, newData, 0, |oldData|).len;
    if t :| Truncated(oldData, newData, t) && |oldData| - t <= len {
      assert Longest(oldData, newData, |oldData| - t);
    }
  }

  /** The suffix ran out before the pattern did, and something matches more. */
  ghost predicate Misled(oldData: seq<Byte>, newData: seq<Byte>, t: nat) {
    Truncated(oldData, newData, t) && !Longest(oldData, newData, |oldData| - t)
  }

  /** When the search finds the longest match: if and only if the suffix at the upper end of its last window does not
      mislead it. */
  lemma {:induction false} FindExactly(I: seq<int>, oldData: seq<Byte>, newData: seq<Byte>, st: nat, en: nat)
    requires Candidates(I, oldData) && IsSuffixArray(oldData, I) && st <= en <= |oldData|
             && Window(I, oldData, newData, st, en)
    ensures Longest(oldData, newData, Find(I, oldData, newData, st, en).len)
            <==> !Misled(oldData, newData, I[LastHigh(I, oldData, newData, st, en)])
    decreases en - st
  {
    if en - st < 2 {
      NarrowExactly(I, oldData, newData, st, en);
    } else {
      var st', en' := FindStep(I, oldData, newData, st, en);
      FindExactly(I, oldData, newData, st', en');
    }
  }

  lemma {:induction false} LcpBelowFront(u: seq<Byte>, e: seq<Byte>, w: seq<Byte>)
    requires (u == e || LexLess(u, e)) && e <= w
    ensures Lcp(u, w) <= |e| && Lcp(e, w) == |e|
    decreases |e|
  {
    if u != [] && e != [] && u[0] == e[0] {
      assert u != e ==> u[1..] != e[1..];
      LcpBelowFront(u[1..], e[1..], w[1..]);
    } else if e != [] {
      LcpBelowFront([], e[1..], w[1..]);
    }
  }

  lemma NarrowExactly(I: seq<int>, oldData: seq<Byte>, newData: seq<Byte>, st: nat, en: nat)
    requires Candidates(I, oldData) && IsSuffixArray(oldData, I) && st <= en < st + 2 && en <= |oldData|
             && Window(I, oldData, newData, st, en)
    ensures Longest(oldData, newData, Find(I, oldData, newData, st, en).len) <==> !Misled(oldData, newData, I[en])
  {
    var len, e := Find(I, oldData, newData, st, en).len, I[en];
    if Truncated(oldData, newData, e) {
      LcpBelowFront(oldData[I[st]..], oldData[e..], newData);
      LcpBelowFront(oldData[e..], oldData[e..], newData);
      assert len == |oldData| - e;
    } else {
      forall t | 0 <= t <= |oldData|
        ensures Lcp(oldData[t..], newData) <= len
      {
        assert t in I;
        var k :| 0 <= k <= |oldData| && I[k] == t;
        if k <= st { LeftOfWindow(I, oldData, newData, st, k); } else { RightOfWindow(I, oldData, newData, en, k); }
      }
    }
  }

  /** In "aba" the search for "abb" stops at the last byte, although "ab" matches at the front. */
  lemma SearchCanMissLongest()
    ensures var oldData, newData, I := [97, 98, 97], [97, 98, 98], [3, 2, 0, 1];
            IsSuffixArray(oldData, I) && Find(I, oldData, newData, 0, 3) == Match(1, 2) && !Longest(oldData, newData, 1)
  {
    hide Lcp;
    var oldData: seq<Byte>, newData: seq<Byte>, I := [97, 98, 97], [97, 98, 98], [3, 2, 0, 1];
    assert oldData[3..] == [] && oldData[2..] == [97] && oldData[0..] == [97, 98, 97] && oldData[1..] == [98, 97];
    assert LexLess([97], [97, 98, 97]) && LexLess([97, 98, 97], [98, 97]) && LexLess([97], [98, 97]);
    assert I[0] == 3 && I[1] == 2 && I[2] == 0 && I[3] == 1;
    assert forall i :: 0 <= i <= 3 ==> i in I;
    assert CompareFronts([97], newData) == 0;
    assert Lcp([], newData) == 0 && Lcp([97], newData) == 1;
    assert Find(I, oldData, newData, 0, 3) == Find(I, oldData, newData, 0, 1);
    assert oldData[1..] == [98, 97] && newData[1..] == [98, 98];
    assert Lcp(oldData[1..], newData[1..]) >= 1;
    assert Lcp(oldData[0..], newData) >= 2;
  }
}
