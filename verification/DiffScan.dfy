/** What the scan over the new file finds and emits: where it stops, what lengths it chooses there, and which script
    comes of that. */
module DiffScan {
  import opened Bytes
  import opened SuffixOrder
  import opened PatchStreams
  import Search

  /** Positions t below m at which newData[a + t] equals oldData[b + t]. */
  function Agreeing(oldData: seq<Byte>, newData: seq<Byte>, b: int, a: int, m: nat): (r: nat)
    ensures r <= m
  {
    if m == 0 then 0
    else Agreeing(oldData, newData, b, a, m - 1)
         + if 0 <= a + m - 1 < |newData| && 0 <= b + m - 1 < |oldData|
             && newData[a + m - 1] == oldData[b + m - 1] then 1 else 0
  }

  /** The same for the m positions before a and b. */
  function AgreeingBack(oldData: seq<Byte>, newData: seq<Byte>, b: int, a: int, m: nat): (r: nat)
    ensures r <= m
  {
    Agreeing(oldData, newData, b - m, a - m, m)
  }

  /** Bytes of the new file from `from` up to s that agree with the old file at offset off. */
  function Score(oldData: seq<Byte>, newData: seq<Byte>, off: int, from: nat, s: nat): (r: nat)
    requires from <= s <= |newData|
    ensures r <= s - from
  {
    Agreeing(oldData, newData, from + off, from, s - from)
  }

  /** All agree if and only if the two stretches are equal. */
  lemma {:induction false} AgreeingAll(oldData: seq<Byte>, newData: seq<Byte>, b: nat, a: nat, m: nat)
    requires b + m <= |oldData| && a + m <= |newData|
    ensures Agreeing(oldData, newData, b, a, m) == m <==> newData[a..a + m] == oldData[b..b + m]
  {
    if m > 0 {
      AgreeingAll(oldData, newData, b, a, m - 1);
      var p, q := newData[a..a + m], oldData[b..b + m];
      assert newData[a..a + m - 1] == p[..m - 1] && oldData[b..b + m - 1] == q[..m - 1];
      assert p == p[..m - 1] + [p[m - 1]] && q == q[..m - 1] + [q[m - 1]];
    }
  }

  /** Stretches are counted part by part, from either side. */
  lemma {:induction false} AgreeingParts(oldData: seq<Byte>, newData: seq<Byte>, b: int, a: int, k: nat, m: nat)
    ensures Agreeing(oldData, newData, b, a, k + m)
            == Agreeing(oldData, newData, b, a, k) + Agreeing(oldData, newData, b + k, a + k, m)
  {
    if m > 0 { AgreeingParts(oldData, newData, b, a, k, m - 1); }
  }

  // ----- Where the scan stops -----

  /** The match that is found for the front of the rest of the new file. */
  function MatchAt(I: seq<int>, oldData: seq<Byte>, newData: seq<Byte>, s: nat): (m: Search.Match)
    requires Search.Candidates(I, oldData) && s <= |newData|
    ensures s + m.len <= |newData|
  {
    Search.Find(I, oldData, newData[s..], 0, |oldData|)
  }

  /** How far the matches reach that start from `from` on, up to s. */
  function Reach(I: seq<int>, oldData: seq<Byte>, newData: seq<Byte>, from: nat, s: nat): (r: nat)
    requires Search.Candidates(I, oldData) && from <= s <= |newData|
    ensures from <= r <= |newData| && s <= r + 1
    ensures forall t :: from <= t < s ==> t + MatchAt(I, oldData, newData, t).len <= r
  {
    if s == from then from
    else
      var r, end := Reach(I, oldData, newData, from, s - 1), s - 1 + MatchAt(I, oldData, newData, s - 1).len;
      if r < end then end else r
  }

  /** The bytes from s to where the matches reach that agree at offset off. */
  function OldScore(I: seq<int>, oldData: seq<Byte>, newData: seq<Byte>, off: int, from: nat, s: nat): (r: int)
    requires Search.Candidates(I, oldData) && from <= s < |newData|
  {
    Score(oldData, newData, off, from, Reach(I, oldData, newData, from, s + 1)) - Score(oldData, newData, off, from, s)
  }

  /** The match at s is worth a stop: it beats what agrees at the current offset by more than 8 bytes, or it is just
      what agrees there. */
  ghost predicate WorthAt(I: seq<int>, oldData: seq<Byte>, newData: seq<Byte>, off: int, from: nat, s: nat)
    requires Search.Candidates(I, oldData) && from <= s < |newData|
  {
    var len, score := MatchAt(I, oldData, newData, s).len, OldScore(I, oldData, newData, off, from, s);
    (len == score && len != 0) || len > score + 8
  }

  /** The scan from `from` on stops at the first place that is worth it, or at the end; m is the last match found,
      which is the one before if there was nothing to scan. */
  ghost predicate StopsAt(I: seq<int>, oldData: seq<Byte>, newData: seq<Byte>, off: int, from: nat,
                          before: Search.Match, scan: nat, m: Search.Match)
    requires Search.Candidates(I, oldData) && from <= |newData|
  {
    && from <= scan <= |newData|
    && (forall s :: from <= s < scan ==> !WorthAt(I, oldData, newData, off, from, s))
    && (scan < |newData| ==> WorthAt(I, oldData, newData, off, from, scan) && m == MatchAt(I, oldData, newData, scan))
    && (from < scan == |newData| ==> m == MatchAt(I, oldData, newData, scan - 1))
    && (from == scan == |newData| ==> m == before)
  }

  /** One more place to scan: what the counters of the loop become. */
  lemma ReachNext(I: seq<int>, oldData: seq<Byte>, newData: seq<Byte>, off: int, from: nat, s: nat)
    requires Search.Candidates(I, oldData) && from <= s < |newData|
    ensures var r, end := Reach(I, oldData, newData, from, s), s + MatchAt(I, oldData, newData, s).len;
            Reach(I, oldData, newData, from, s + 1) == if r < end then end else r
    ensures Score(oldData, newData, off, from, s + 1)
            == Score(oldData, newData, off, from, s)
               + if 0 <= s + off < |oldData| && newData[s] == oldData[s + off] then 1 else 0
  {
    hide MatchAt;
  }

  /** The test that the loop makes. */
  lemma WorthWhen(I: seq<int>, oldData: seq<Byte>, newData: seq<Byte>, off: int, from: nat, s: nat, len: nat,
                  score: int)
    requires Search.Candidates(I, oldData) && from <= s < |newData| && len == MatchAt(I, oldData, newData, s).len
    requires score == Score(oldData, newData, off, from, Reach(I, oldData, newData, from, s + 1))
                      - Score(oldData, newData, off, from, s)
    ensures score == OldScore(I, oldData, newData, off, from, s)
    ensures WorthAt(I, oldData, newData, off, from, s) <==> (len == score && len != 0) || len > score + 8
  {
    hide MatchAt, Score, Reach;
  }

  // ----- What lengths it chooses -----

  /** f is the shortest length with the best balance of agreeing bytes, over all allowed lengths. */
  ghost predicate BestForward(oldData: seq<Byte>, newData: seq<Byte>, lastscan: nat, lastpos: nat, scan: nat, f: nat) {
    && lastscan + f <= scan && lastpos + f <= |oldData|
    && forall k: nat :: lastscan + k <= scan && lastpos + k <= |oldData| ==>
         var best := 2 * Agreeing(oldData, newData, lastpos, lastscan, f) - f;
         2 * Agreeing(oldData, newData, lastpos, lastscan, k) - k <= best
         && (k < f ==> 2 * Agreeing(oldData, newData, lastpos, lastscan, k) - k < best)
  }

  /** The same backwards from a match; at the end of the new file there is none. */
  ghost predicate BestBackward(oldData: seq<Byte>, newData: seq<Byte>, lastscan: nat, scan: nat, pos: nat, b: nat) {
    if scan >= |newData| then b == 0
    else
      && lastscan + b <= scan && b <= pos
      && forall k: nat :: lastscan + k <= scan && k <= pos ==>
           var best := 2 * AgreeingBack(oldData, newData, pos, scan, b) - b;
           2 * AgreeingBack(oldData, newData, pos, scan, k) - k <= best
           && (k < b ==> 2 * AgreeingBack(oldData, newData, pos, scan, k) - k < best)
  }

  /** What dividing an overlap behind its first k bytes gains, when those are made from oldData at p and the others
      at q. */
  function Gain(oldData: seq<Byte>, newData: seq<Byte>, a: nat, p: nat, q: nat, k: nat): (r: int) {
    Agreeing(oldData, newData, p, a, k) - Agreeing(oldData, newData, q, a, k)
  }

  /** lens is the first of the points that divide the overlap best. */
  ghost predicate BestCut(oldData: seq<Byte>, newData: seq<Byte>, a: nat, p: nat, q: nat, overlap: nat, lens: nat) {
    && lens <= overlap
    && forall k: nat :: k <= overlap ==>
         && Gain(oldData, newData, a, p, q, k) <= Gain(oldData, newData, a, p, q, lens)
         && (k < lens ==> Gain(oldData, newData, a, p, q, k) < Gain(oldData, newData, a, p, q, lens))
  }

  /** A step: behind lastscan, made from oldData at lastpos, lenf bytes are kept of the last match; the new one, at
      scan and pos, reaches back by lenb. */
  datatype Stop = Stop(lastscan: nat, lastpos: nat, scan: nat, pos: nat, lenf: nat, lenb: nat)

  ghost predicate InFiles(oldData: seq<Byte>, newData: seq<Byte>, s: Stop) {
    && s.lastpos + s.lenf <= |oldData| && s.lenb <= s.pos <= |oldData|
    && s.lastscan + s.lenf + s.lenb <= s.scan <= |newData|
  }

  /** The lengths are the best extensions f and b, cut at the best point if these overlap. */
  ghost predicate Divided(oldData: seq<Byte>, newData: seq<Byte>, s: Stop, f: nat, b: nat)
    requires s.lastscan + f <= s.scan && s.lastpos + f <= |oldData| && s.lastscan + b <= s.scan && b <= s.pos
  {
    var overlap := s.lastscan + f + b - s.scan;
    if overlap <= 0 then s.lenf == f && s.lenb == b
    else
      && s.lenb <= b && s.lenf == f + (b - s.lenb) - overlap
      && BestCut(oldData, newData, s.scan - b, s.lastpos + f - overlap, s.pos - b, overlap, b - s.lenb)
  }

  ghost predicate Chosen(oldData: seq<Byte>, newData: seq<Byte>, s: Stop) {
    exists f: nat, b: nat ::
      && BestForward(oldData, newData, s.lastscan, s.lastpos, s.scan, f)
      && BestBackward(oldData, newData, s.lastscan, s.scan, s.pos, b)
      && s.lastscan + b <= s.scan && b <= s.pos && s.lastscan + f <= s.scan && s.lastpos + f <= |oldData|
      && Divided(oldData, newData, s, f, b)
  }

  /** No byte is inserted that a match could have kept: where bytes are inserted, the first of them is not the one that
      the last match would go on with, and the last not the one before the new match. */
  lemma GapTight(oldData: seq<Byte>, newData: seq<Byte>, s: Stop)
    requires InFiles(oldData, newData, s) && Chosen(oldData, newData, s) && s.lastscan + s.lenf < s.scan - s.lenb
    ensures s.lastpos + s.lenf < |oldData| ==> newData[s.lastscan + s.lenf] != oldData[s.lastpos + s.lenf]
    ensures s.scan < |newData| && s.lenb < s.pos ==> newData[s.scan - s.lenb - 1] != oldData[s.pos - s.lenb - 1]
  {
    hide BestForward, BestBackward, BestCut;
    var f: nat, b: nat :| BestForward(oldData, newData, s.lastscan, s.lastpos, s.scan, f)
      && BestBackward(oldData, newData, s.lastscan, s.scan, s.pos, b)
      && s.lastscan + b <= s.scan && b <= s.pos && s.lastscan + f <= s.scan && s.lastpos + f <= |oldData|
      && Divided(oldData, newData, s, f, b);
    ForwardStops(oldData, newData, s.lastscan, s.lastpos, s.scan, f);
    BackwardStops(oldData, newData, s.lastscan, s.scan, s.pos, b);
  }

  lemma ForwardStops(oldData: seq<Byte>, newData: seq<Byte>, lastscan: nat, lastpos: nat, scan: nat, f: nat)
    requires BestForward(oldData, newData, lastscan, lastpos, scan, f) && scan <= |newData|
    ensures lastscan + f < scan && lastpos + f < |oldData| ==> newData[lastscan + f] != oldData[lastpos + f]
  {
    if lastscan + f < scan && lastpos + f < |oldData| {
      var more := Agreeing(oldData, newData, lastpos, lastscan, f + 1);
      assert 2 * more - (f + 1) <= 2 * Agreeing(oldData, newData, lastpos, lastscan, f) - f;
    }
  }

  lemma BackwardStops(oldData: seq<Byte>, newData: seq<Byte>, lastscan: nat, scan: nat, pos: nat, b: nat)
    requires BestBackward(oldData, newData, lastscan, scan, pos, b) && pos <= |oldData|
    ensures scan < |newData| && lastscan + b < scan && b < pos ==> newData[scan - b - 1] != oldData[pos - b - 1]
  {
    if scan < |newData| && lastscan + b < scan && b < pos {
      AgreeingParts(oldData, newData, pos - b - 1, scan - b - 1, 1, b);
      var more := AgreeingBack(oldData, newData, pos, scan, b + 1);
      assert 2 * more - (b + 1) <= 2 * AgreeingBack(oldData, newData, pos, scan, b) - b;
    }
  }

  // ----- The whole scan -----

  /** The scan so far, one stop after the other. A stop whose match is just what agrees at the current offset makes
      no step. */
  datatype History = Begin | Went(before: History, scan: nat, found: Search.Match, step: Option<Stop>)

  /** Where the scan goes on. */
  function From(h: History): (r: nat) {
    if h.Begin? then 0 else h.scan + h.found.len
  }

  function Found(h: History): (r: Search.Match) {
    if h.Begin? then Search.Match(0, 0) else h.found
  }

  /** The offset of the last match that made a step. */
  function Offset(h: History): (r: int) {
    if h.Begin? then 0 else if h.step.Some? then h.found.pos - h.scan else Offset(h.before)
  }

  /** How far the steps cover the new file. */
  function LastScan(h: History): (r: int) {
    if h.Begin? then 0 else if h.step.Some? then h.scan - h.step.value.lenb else LastScan(h.before)
  }

  /** Where in the old file the last match begins. */
  function LastPos(h: History): (r: int) {
    if h.Begin? then 0 else if h.step.Some? then h.found.pos - h.step.value.lenb else LastPos(h.before)
  }

  function Stopped(h: History): (r: nat) {
    if h.Begin? then 0 else h.scan
  }

  /** One more stop is the right one, and makes the right step. */
  ghost predicate GoesOn(I: seq<int>, oldData: seq<Byte>, newData: seq<Byte>, h: History)
    requires Search.Candidates(I, oldData) && h.Went?
  {
    var b := h.before;
    && Stopped(b) < |newData| && From(b) <= |newData|
    && StopsAt(I, oldData, newData, Offset(b), From(b), Found(b), h.scan, h.found)
    && (h.step.None?
        <==> h.scan < |newData| && h.found.len == OldScore(I, oldData, newData, Offset(b), From(b), h.scan))
    && (h.step.Some? ==>
          var s := h.step.value;
          && s.lastscan == LastScan(b) && s.lastpos == LastPos(b) && s.scan == h.scan && s.pos == h.found.pos
          && InFiles(oldData, newData, s) && Chosen(oldData, newData, s))
  }

  ghost predicate Scanned(I: seq<int>, oldData: seq<Byte>, newData: seq<Byte>, h: History)
    requires Search.Candidates(I, oldData)
  {
    h.Begin? || (Scanned(I, oldData, newData, h.before) && GoesOn(I, oldData, newData, h))
  }

  /** The differences that make newData from a on out of oldData from b on. */
  function Differences(oldData: seq<Byte>, newData: seq<Byte>, b: nat, a: nat, n: nat): (r: seq<Byte>)
    requires b + n <= |oldData| && a + n <= |newData|
    ensures |r| == n
  {
    seq(n, i requires 0 <= i < n => (newData[a + i] as int - oldData[b + i]) % 256)
  }

  lemma DifferencesNext(oldData: seq<Byte>, newData: seq<Byte>, b: nat, a: nat, n: nat)
    requires b + n < |oldData| && a + n < |newData|
    ensures Differences(oldData, newData, b, a, n + 1)
            == Differences(oldData, newData, b, a, n) + [(newData[a + n] as int - oldData[b + n]) % 256]
  {
  }

  function StepOf(oldData: seq<Byte>, newData: seq<Byte>, s: Stop): (r: Step)
    requires InFiles(oldData, newData, s)
  {
    Step(Differences(oldData, newData, s.lastpos, s.lastscan, s.lenf), newData[s.lastscan + s.lenf..s.scan - s.lenb],
         (s.pos - s.lenb) - (s.lastpos + s.lenf))
  }

  ghost predicate AllInFiles(oldData: seq<Byte>, newData: seq<Byte>, h: History) {
    h.Begin? || (AllInFiles(oldData, newData, h.before) && (h.step.Some? ==> InFiles(oldData, newData, h.step.value)))
  }

  /** The script that the scan emits. */
  ghost function ScriptOf(oldData: seq<Byte>, newData: seq<Byte>, h: History): (r: Script)
    requires AllInFiles(oldData, newData, h)
  {
    if h.Begin? then Empty
    else if h.step.None? then ScriptOf(oldData, newData, h.before)
    else Append(ScriptOf(oldData, newData, h.before), StepOf(oldData, newData, h.step.value))
  }

  lemma {:induction false} ScannedInFiles(I: seq<int>, oldData: seq<Byte>, newData: seq<Byte>, h: History)
    requires Search.Candidates(I, oldData) && Scanned(I, oldData, newData, h)
    ensures AllInFiles(oldData, newData, h)
  {
    if h.Went? { ScannedInFiles(I, oldData, newData, h.before); }
  }

  /** The script is the one that bsdiff emits for these files. */
  ghost predicate Emits(I: seq<int>, oldData: seq<Byte>, newData: seq<Byte>, script: Script)
    requires Search.Candidates(I, oldData)
  {
    exists h :: Scanned(I, oldData, newData, h) && Stopped(h) == |newData|
                && AllInFiles(oldData, newData, h) && script == ScriptOf(oldData, newData, h)
  }

  function Stops(h: History): (r: nat) {
    if h.Begin? then 0 else 1 + Stops(h.before)
  }

  /** The first n stops. */
  function First(h: History, n: nat): (r: History)
    requires n <= Stops(h)
  {
    if Stops(h) == n then h else First(h.before, n)
  }

  // ----- No better match is passed over -----

  /** A match of this length at s beats what agrees with the old file at b, over that length or more, by at most that
      much. */
  ghost predicate BeatsBy(oldData: seq<Byte>, newData: seq<Byte>, b: int, s: nat, len: nat, most: nat) {
    exists m: nat :: len <= m && s + m <= |newData| && len <= Agreeing(oldData, newData, b, s, m) + most
  }

  /** Place s was weighed in the last turn of the scan: it went past s since what it found there beats what agrees at
      the offset it had by 8 bytes at most, or it stopped there or before; where it stopped at a match and made no
      step, the match beats nothing. */
  ghost predicate Weighed(I: seq<int>, oldData: seq<Byte>, newData: seq<Byte>, h: History, s: nat)
    requires Search.Candidates(I, oldData) && h.Went? && s < |newData|
  {
    var len, off := MatchAt(I, oldData, newData, s).len, Offset(h.before);
    && From(h.before) <= s < From(h)
    && (s < h.scan ==> BeatsBy(oldData, newData, off + s, s, len, 8))
    && (s == h.scan && h.step.None? ==> BeatsBy(oldData, newData, off + s, s, len, 0))
  }

  lemma {:induction false} NonePassedOver(I: seq<int>, oldData: seq<Byte>, newData: seq<Byte>, h: History, s: nat)
    returns (n: nat)
    requires Search.Candidates(I, oldData) && Scanned(I, oldData, newData, h) && s < |newData| && s < From(h)
    ensures 0 < n <= Stops(h) && First(h, n).Went? && Weighed(I, oldData, newData, First(h, n), s)
  {
    hide StopsAt, OldScore, MatchAt, Agreeing;
    if s < From(h.before) {
      n := NonePassedOver(I, oldData, newData, h.before, s);
    } else {
      n := Stops(h);
      StopWeighed(I, oldData, newData, h, s);
    }
  }

  lemma StopWeighed(I: seq<int>, oldData: seq<Byte>, newData: seq<Byte>, h: History, s: nat)
    requires Search.Candidates(I, oldData) && h.Went? && GoesOn(I, oldData, newData, h)
    requires s < |newData| && From(h.before) <= s < From(h)
    ensures Weighed(I, oldData, newData, h, s)
  {
    hide MatchAt, OldScore, Chosen, BeatsBy;
    if s <= h.scan {
      var off, from := Offset(h.before), From(h.before);
      ScoreBeats(I, oldData, newData, off, from, s);
      assert s < h.scan ==> !WorthAt(I, oldData, newData, off, from, s);
    }
  }

  lemma ScoreBeats(I: seq<int>, oldData: seq<Byte>, newData: seq<Byte>, off: int, from: nat, s: nat)
    requires Search.Candidates(I, oldData) && from <= s < |newData|
    ensures var len, score := MatchAt(I, oldData, newData, s).len, OldScore(I, oldData, newData, off, from, s);
            && (len <= score + 8 ==> BeatsBy(oldData, newData, off + s, s, len, 8))
            && (len <= score ==> BeatsBy(oldData, newData, off + s, s, len, 0))
  {
    hide Agreeing;
    var m: nat := Reach(I, oldData, newData, from, s + 1) - s;
    AgreeingParts(oldData, newData, from + off, from, s - from, m);
    assert OldScore(I, oldData, newData, off, from, s) == Agreeing(oldData, newData, off + s, s, m);
  }

  // ----- There is one such script -----

  lemma FirstBestForward(oldData: seq<Byte>, newData: seq<Byte>, lastscan: nat, lastpos: nat, scan: nat, f: nat, g: nat)
    requires BestForward(oldData, newData, lastscan, lastpos, scan, f)
    requires BestForward(oldData, newData, lastscan, lastpos, scan, g)
    ensures f == g
  {
    assert Agreeing(oldData, newData, lastpos, lastscan, f) <= f
        && Agreeing(oldData, newData, lastpos, lastscan, g) <= g;
  }

  lemma FirstBestBackward(oldData: seq<Byte>, newData: seq<Byte>, lastscan: nat, scan: nat, pos: nat, f: nat, g: nat)
    requires BestBackward(oldData, newData, lastscan, scan, pos, f)
    requires BestBackward(oldData, newData, lastscan, scan, pos, g)
    ensures f == g
  {
    assert AgreeingBack(oldData, newData, pos, scan, f) <= f && AgreeingBack(oldData, newData, pos, scan, g) <= g;
  }

  lemma ChosenOnce(oldData: seq<Byte>, newData: seq<Byte>, s: Stop, t: Stop)
    requires Chosen(oldData, newData, s) && Chosen(oldData, newData, t)
    requires t == s.(lenf := t.lenf, lenb := t.lenb)
    ensures s == t
  {
    hide BestForward, BestBackward, Gain, Agreeing, AgreeingBack;
    var f: nat, b: nat :| BestForward(oldData, newData, s.lastscan, s.lastpos, s.scan, f)
      && BestBackward(oldData, newData, s.lastscan, s.scan, s.pos, b)
      && s.lastscan + b <= s.scan && b <= s.pos && s.lastscan + f <= s.scan && s.lastpos + f <= |oldData|
      && Divided(oldData, newData, s, f, b);
    var g: nat, c: nat :| BestForward(oldData, newData, t.lastscan, t.lastpos, t.scan, g)
      && BestBackward(oldData, newData, t.lastscan, t.scan, t.pos, c)
      && t.lastscan + c <= t.scan && c <= t.pos && t.lastscan + g <= t.scan && t.lastpos + g <= |oldData|
      && Divided(oldData, newData, t, g, c);
    FirstBestForward(oldData, newData, s.lastscan, s.lastpos, s.scan, f, g);
    FirstBestBackward(oldData, newData, s.lastscan, s.scan, s.pos, b, c);
    var overlap := s.lastscan + f + b - s.scan;
    if overlap > 0 {
      var k, m := b - s.lenb, b - t.lenb;
      var a, p, q := s.scan - b, s.lastpos + f - overlap, s.pos - b;
      assert BestCut(oldData, newData, a, p, q, overlap, k) && BestCut(oldData, newData, a, p, q, overlap, m);
      assert Gain(oldData, newData, a, p, q, k) == Gain(oldData, newData, a, p, q, m);
    }
  }

  /** From the same place the scan goes on in one way only. */
  lemma GoesOnOnce(I: seq<int>, oldData: seq<Byte>, newData: seq<Byte>, h: History, g: History)
    requires Search.Candidates(I, oldData) && h.Went? && g.Went? && h.before == g.before
    requires GoesOn(I, oldData, newData, h) && GoesOn(I, oldData, newData, g)
    ensures h == g
  {
    hide WorthAt, Chosen, OldScore, MatchAt;
    assert h.scan == g.scan && h.found == g.found;
    if h.step.Some? { ChosenOnce(oldData, newData, h.step.value, g.step.value); }
  }

  lemma {:induction false} SameFirst(I: seq<int>, oldData: seq<Byte>, newData: seq<Byte>, h: History, g: History)
    requires Search.Candidates(I, oldData) && Scanned(I, oldData, newData, h) && Scanned(I, oldData, newData, g)
    requires Stops(h) <= Stops(g)
    ensures h == First(g, Stops(h)) && (Stops(h) < Stops(g) ==> Stopped(h) < |newData|)
  {
    hide GoesOn;
    if Stops(h) == Stops(g) {
      if h.Went? {
        SameFirst(I, oldData, newData, h.before, g.before);
        GoesOnOnce(I, oldData, newData, h, g);
      }
    } else {
      SameFirst(I, oldData, newData, h, g.before);
      if Stops(h) == Stops(g.before) { StoppedBefore(I, oldData, newData, g); }
    }
  }

  lemma StoppedBefore(I: seq<int>, oldData: seq<Byte>, newData: seq<Byte>, h: History)
    requires Search.Candidates(I, oldData) && h.Went? && GoesOn(I, oldData, newData, h)
    ensures Stopped(h.before) < |newData|
  {
  }

  /** Two files and a suffix array leave one script. */
  lemma EmitsOnce(I: seq<int>, oldData: seq<Byte>, newData: seq<Byte>, p: Script, q: Script)
    requires Search.Candidates(I, oldData) && Emits(I, oldData, newData, p) && Emits(I, oldData, newData, q)
    ensures p == q
  {
    hide Scanned;
    var h :| Scanned(I, oldData, newData, h) && Stopped(h) == |newData|
      && AllInFiles(oldData, newData, h) && p == ScriptOf(oldData, newData, h);
    var g :| Scanned(I, oldData, newData, g) && Stopped(g) == |newData|
      && AllInFiles(oldData, newData, g) && q == ScriptOf(oldData, newData, g);
    if Stops(h) <= Stops(g) {
      SameFirst(I, oldData, newData, h, g);
    } else {
      SameFirst(I, oldData, newData, g, h);
    }
  }

  // ----- A new file that is a front part of the old one -----

  lemma AllAgree(oldData: seq<Byte>, newData: seq<Byte>, a: nat, m: nat)
    requires newData <= oldData && a + m <= |newData|
    ensures Agreeing(oldData, newData, a, a, m) == m
  {
    AgreeingAll(oldData, newData, a, a, m);
  }

  /** At offset 0 no match beats what agrees already. */
  lemma NoneBetter(I: seq<int>, oldData: seq<Byte>, newData: seq<Byte>, from: nat, s: nat)
    requires Search.Candidates(I, oldData) && newData <= oldData && from <= s < |newData|
    ensures OldScore(I, oldData, newData, 0, from, s) >= MatchAt(I, oldData, newData, s).len
  {
    hide MatchAt;
    AllAgree(oldData, newData, from, s - from);
    AllAgree(oldData, newData, from, Reach(I, oldData, newData, from, s + 1) - from);
  }

  /** So no step is made before the end. */
  lemma {:induction false} NoStep(I: seq<int>, oldData: seq<Byte>, newData: seq<Byte>, h: History)
    requires Search.Candidates(I, oldData) && newData <= oldData && Scanned(I, oldData, newData, h)
    requires Stopped(h) < |newData|
    ensures Offset(h) == 0 && LastScan(h) == 0 && LastPos(h) == 0
    ensures AllInFiles(oldData, newData, h) && ScriptOf(oldData, newData, h) == Empty
  {
    hide OldScore, MatchAt, Chosen;
    if h.Went? {
      NoStep(I, oldData, newData, h.before);
      NoneBetter(I, oldData, newData, From(h.before), h.scan);
      NotBeaten(I, oldData, newData, 0, From(h.before), h.scan);
    }
  }

  lemma NotBeaten(I: seq<int>, oldData: seq<Byte>, newData: seq<Byte>, off: int, from: nat, s: nat)
    requires Search.Candidates(I, oldData) && from <= s < |newData| && WorthAt(I, oldData, newData, off, from, s)
    requires OldScore(I, oldData, newData, off, from, s) >= MatchAt(I, oldData, newData, s).len
    ensures MatchAt(I, oldData, newData, s).len == OldScore(I, oldData, newData, off, from, s)
  {
  }

  lemma WholeKept(oldData: seq<Byte>, newData: seq<Byte>, s: Stop)
    requires newData <= oldData && Chosen(oldData, newData, s)
    requires s.lastscan == 0 && s.lastpos == 0 && s.scan == |newData|
    ensures s.lenf == |newData| && s.lenb == 0
  {
    var f: nat, b: nat :| BestForward(oldData, newData, s.lastscan, s.lastpos, s.scan, f)
      && BestBackward(oldData, newData, s.lastscan, s.scan, s.pos, b)
      && s.lastscan + b <= s.scan && b <= s.pos && s.lastscan + f <= s.scan && s.lastpos + f <= |oldData|
      && Divided(oldData, newData, s, f, b);
    AllAgree(oldData, newData, 0, |newData|);
    AllAgree(oldData, newData, 0, f);
  }

  function Zeros(n: nat): (r: seq<Byte>)
    ensures |r| == n
  {
    seq(n, i => 0)
  }

  lemma {:induction false} ZeroDifferences(oldData: seq<Byte>, newData: seq<Byte>, n: nat)
    requires newData <= oldData && n <= |newData|
    ensures Differences(oldData, newData, 0, 0, n) == Zeros(n)
  {
    forall i | 0 <= i < n
      ensures Differences(oldData, newData, 0, 0, n)[i] == 0
    {
      assert newData[i] == oldData[i];
    }
  }

  /** A new file that is a front part of the old one, as when both are equal, is made of the old file alone: one step
      with no differences, and nothing inserted. */
  lemma FrontKept(I: seq<int>, oldData: seq<Byte>, newData: seq<Byte>, script: Script)
    requires Search.Candidates(I, oldData) && newData <= oldData && Emits(I, oldData, newData, script)
    ensures if newData == [] then script == Empty
            else
              exists z ::
                -|newData| <= z <= |oldData| - |newData| && script == Run(Step(Zeros(|newData|), [], z), Empty)
    ensures Diff(script) == Zeros(|newData|) && Extra(script) == []
  {
    hide GoesOn, Scanned;
    var h :| Scanned(I, oldData, newData, h) && Stopped(h) == |newData|
      && AllInFiles(oldData, newData, h) && script == ScriptOf(oldData, newData, h);
    if newData == [] {
      EmptyScan(I, oldData, newData, h);
    } else {
      var s := LastStep(I, oldData, newData, h);
      ZeroDifferences(oldData, newData, |newData|);
      OneStep(StepOf(oldData, newData, s));
    }
  }

  lemma EmptyScan(I: seq<int>, oldData: seq<Byte>, newData: seq<Byte>, h: History)
    requires Search.Candidates(I, oldData) && newData == [] && Scanned(I, oldData, newData, h)
    ensures h.Begin?
  {
  }

  /** The one step of the scan. */
  lemma LastStep(I: seq<int>, oldData: seq<Byte>, newData: seq<Byte>, h: History) returns (s: Stop)
    requires Search.Candidates(I, oldData) && newData <= oldData && newData != []
    requires Scanned(I, oldData, newData, h) && Stopped(h) == |newData| && AllInFiles(oldData, newData, h)
    ensures InFiles(oldData, newData, s) && s == Stop(0, 0, |newData|, s.pos, |newData|, 0)
    ensures ScriptOf(oldData, newData, h) == Append(Empty, StepOf(oldData, newData, s))
  {
    hide Chosen, OldScore, StopsAt, Append, StepOf;
    NoStep(I, oldData, newData, h.before);
    s := h.step.value;
    WholeKept(oldData, newData, s);
  }

  lemma OneStep(t: Step)
    requires t.e == []
    ensures Append(Empty, t) == Run(t, Empty) && Diff(Run(t, Empty)) == t.d && Extra(Run(t, Empty)) == []
  {
    assert t.d + [] == t.d;
  }
}
