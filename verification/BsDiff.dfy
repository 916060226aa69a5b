/** Making a bsdiff patch: the scan over the new file and the script it emits. */
module BsDiff {
  import opened Bytes
  import opened Offsets
  import opened SuffixOrder
  import opened PatchStreams
  import opened DiffScan
  import opened BsPatch
  import Search
  import SuffixSort

  /** Extends the previous match forwards: the length with the best balance of agreeing bytes. */
  method ExtendForward(oldData: seq<Byte>, newData: seq<Byte>, lastscan: nat, lastpos: nat, scan: nat)
    returns (lenf: nat)
    requires lastscan <= scan <= |newData| && lastpos <= |oldData|
    ensures BestForward(oldData, newData, lastscan, lastpos, scan, lenf)
  {
    var s, Sf, i := 0, 0, 0;
    lenf := 0;
    while lastscan + i < scan && lastpos + i < |oldData|
      invariant 0 <= i <= scan - lastscan && lastpos + i <= |oldData| && lenf <= i
      invariant s == Agreeing(oldData, newData, lastpos, lastscan, i)
                && Sf == Agreeing(oldData, newData, lastpos, lastscan, lenf)
      invariant forall k: nat :: k <= i ==> 2 * Agreeing(oldData, newData, lastpos, lastscan, k) - k <= 2 * Sf - lenf
      invariant forall k: nat :: k < lenf ==> 2 * Agreeing(oldData, newData, lastpos, lastscan, k) - k < 2 * Sf - lenf
    {
      if oldData[lastpos + i] == newData[lastscan + i] { s := s + 1; }
      i := i + 1;
      if s * 2 - i > Sf * 2 - lenf { Sf := s; lenf := i; }
    }
  }

  /** Extends the new match backwards in the same way. */
  method ExtendBackward(oldData: seq<Byte>, newData: seq<Byte>, lastscan: nat, scan: nat, pos: nat) returns (lenb: nat)
    requires lastscan <= scan < |newData| && pos <= |oldData|
    ensures BestBackward(oldData, newData, lastscan, scan, pos, lenb)
  {
    var s, Sb, i := 0, 0, 1;
    lenb := 0;
    while scan >= lastscan + i && pos >= i
      invariant 1 <= i <= scan - lastscan + 1 && i <= pos + 1 && lenb < i
      invariant s == AgreeingBack(oldData, newData, pos, scan, i - 1)
                && Sb == AgreeingBack(oldData, newData, pos, scan, lenb)
      invariant forall k: nat :: k < i ==> 2 * AgreeingBack(oldData, newData, pos, scan, k) - k <= 2 * Sb - lenb
      invariant forall k: nat :: k < lenb ==> 2 * AgreeingBack(oldData, newData, pos, scan, k) - k < 2 * Sb - lenb
    {
      AgreeingParts(oldData, newData, pos - i, scan - i, 1, i - 1);
      if oldData[pos - i] == newData[scan - i] { s := s + 1; }
      if s * 2 - i > Sb * 2 - lenb { Sb := s; lenb := i; }
      i := i + 1;
    }
  }

  /** Where two overlapping extensions are best divided: the first overlap bytes agree with oldData
      at p, or with oldData at q, and the cut maximises the bytes that agree on their own side. */
  method DivideOverlap(oldData: seq<Byte>, newData: seq<Byte>, a: nat, p: nat, q: nat, overlap: nat) returns (lens: nat)
    requires a + overlap <= |newData| && p + overlap <= |oldData| && q + overlap <= |oldData|
    ensures BestCut(oldData, newData, a, p, q, overlap, lens)
  {
    var s, Ss, i := 0, 0, 0;
    lens := 0;
    while i < overlap
      invariant 0 <= i <= overlap && lens <= i
      invariant s == Gain(oldData, newData, a, p, q, i) && Ss == Gain(oldData, newData, a, p, q, lens)
      invariant forall k: nat :: k <= i ==> Gain(oldData, newData, a, p, q, k) <= Ss
      invariant forall k: nat :: k < lens ==> Gain(oldData, newData, a, p, q, k) < Ss
    {
      if newData[a + i] == oldData[p + i] { s := s + 1; }
      if newData[a + i] == oldData[q + i] { s := s - 1; }
      if s > Ss { Ss := s; lens := i + 1; }
      i := i + 1;
    }
  }

  /** How one scan for the next match ended: at the end of the new file, or at a match that
      beats the bytes that already agree at the current offset. */
  datatype Scan = Scan(scan: nat, len: nat, pos: nat, oldscore: int)

  ghost predicate Worthwhile(m: Scan) {
    (m.len == m.oldscore && m.len != 0) || m.len > m.oldscore + 8
  }

  /** Counts the bytes from sc up to end that agree at the current offset. */
  method CountAgreeing(oldData: seq<Byte>, newData: seq<Byte>, scan0: nat, lastoffset: int, sc0: nat, end: nat)
    returns (n: nat)
    requires scan0 <= sc0 <= end <= |newData| && 0 <= scan0 + lastoffset
    ensures n == Score(oldData, newData, lastoffset, scan0, end) - Score(oldData, newData, lastoffset, scan0, sc0)
  {
    n := 0;
    var sc := sc0;
    while sc < end
      invariant sc0 <= sc <= end
      invariant n == Score(oldData, newData, lastoffset, scan0, sc) - Score(oldData, newData, lastoffset, scan0, sc0)
    {
      if sc + lastoffset < |oldData| && oldData[sc + lastoffset] == newData[sc] { n := n + 1; }
      sc := sc + 1;
    }
  }

  /** A match really matches, and could not be longer where it stands. */
  ghost predicate Matches(oldData: seq<Byte>, newData: seq<Byte>, scan: nat, len: nat, pos: nat) {
    && scan + len <= |newData| && pos + len <= |oldData|
    && newData[scan..scan + len] == oldData[pos..pos + len]
    && (scan + len < |newData| && pos + len < |oldData| ==> newData[scan + len] != oldData[pos + len])
  }

  lemma NoReach(I: seq<int>, oldData: seq<Byte>, newData: seq<Byte>, from: nat)
    requires Search.Candidates(I, oldData) && from <= |newData|
    ensures Reach(I, oldData, newData, from, from) == from
  {
  }

  method BestMatch(I: seq<int>, oldData: seq<Byte>, newData: seq<Byte>, scan: nat) returns (len: nat, pos: nat)
    requires Search.Candidates(I, oldData) && scan <= |newData|
    ensures Matches(oldData, newData, scan, len, pos)
    ensures Search.Match(len, pos) == MatchAt(I, oldData, newData, scan)
  {
    len, pos := Search.Search(I, oldData, newData[scan..], 0, |oldData|);
    assert newData[scan..][..len] == newData[scan..scan + len] && oldData[pos..][..len] == oldData[pos..pos + len];
  }

  /** Looks for the next position whose match is worth a step; sc is how far agreeing bytes
      have been counted. */
  method ScanForward(I: seq<int>, oldData: seq<Byte>, newData: seq<Byte>, scan0: nat, len0: nat, pos0: nat,
                     lastoffset: int)
    returns (m: Scan, ghost sc: nat)
    requires Search.Candidates(I, oldData) && scan0 <= |newData| && 0 <= scan0 + lastoffset && pos0 <= |oldData|
    ensures scan0 <= m.scan <= |newData| && m.pos <= |oldData| && scan0 <= sc <= |newData|
    ensures m.oldscore == Score(oldData, newData, lastoffset, scan0, sc)
            - Score(oldData, newData, lastoffset, scan0, m.scan)
    ensures StopsAt(I, oldData, newData, lastoffset, scan0, Search.Match(len0, pos0), m.scan,
                    Search.Match(m.len, m.pos))
    ensures m.scan < |newData| ==> m.oldscore == OldScore(I, oldData, newData, lastoffset, scan0, m.scan)
    ensures m.scan < |newData| ==>
              && Worthwhile(m) && m.scan + m.len <= sc
              && Matches(oldData, newData, m.scan, m.len, m.pos)
              && (m.len > 0 || scan0 < m.scan)
  {
    hide MatchAt, Score, Reach, OldScore, WorthAt, Matches;
    NoReach(I, oldData, newData, scan0);
    var scan: nat, len, pos := scan0, len0, pos0;
    var oldscore: int := 0;
    var scsc := scan0;
    while scan < |newData|
      invariant scan0 <= scan <= |newData| && 0 <= len && 0 <= pos <= |oldData| && scan0 <= scsc <= |newData|
      invariant scsc == Reach(I, oldData, newData, scan0, scan)
      invariant forall s :: scan0 <= s < scan ==> !WorthAt(I, oldData, newData, lastoffset, scan0, s)
      invariant if scan == scan0 then (len, pos) == (len0, pos0)
                else Search.Match(len, pos) == MatchAt(I, oldData, newData, scan - 1)
      invariant oldscore == Score(oldData, newData, lastoffset, scan0, scsc)
                - Score(oldData, newData, lastoffset, scan0, scan)
    {
      len, pos := BestMatch(I, oldData, newData, scan);
      if scsc < scan + len {
        var more := CountAgreeing(oldData, newData, scan0, lastoffset, scsc, scan + len);
        oldscore, scsc := oldscore + more, scan + len;
      }
      ReachNext(I, oldData, newData, lastoffset, scan0, scan);
      WorthWhen(I, oldData, newData, lastoffset, scan0, scan, len, oldscore);
      m := Scan(scan, len, pos, oldscore);
      if (len == oldscore && len != 0) || len > oldscore + 8 { return m, scsc; }
      if scan + lastoffset < |oldData| && oldData[scan + lastoffset] == newData[scan] { oldscore := oldscore - 1; }
      scan := scan + 1;
    }
    return Scan(scan, len, pos, oldscore), scsc;
  }

  /** Writes the differences of lenf bytes behind the first dblen bytes of db. */
  method WriteDiff(db: array<Byte>, dblen: nat, oldData: seq<Byte>, newData: seq<Byte>, lastscan: nat, lastpos: nat,
                   lenf: nat)
    requires dblen + lenf <= db.Length && lastscan + lenf <= |newData| && lastpos + lenf <= |oldData|
    modifies db
    ensures db[..dblen] == old(db[..dblen])
    ensures db[dblen..dblen + lenf] == Differences(oldData, newData, lastpos, lastscan, lenf)
    ensures AddOld(oldData, db[dblen..dblen + lenf], lastpos) == newData[lastscan..lastscan + lenf]
  {
    hide AddOld, Differences;
    var i := 0;
    while i < lenf
      invariant i <= lenf && db[..dblen] == old(db[..dblen])
      invariant db[dblen..dblen + i] == Differences(oldData, newData, lastpos, lastscan, i)
    {
      ghost var d := db[dblen..dblen + i];
      db[dblen + i] := (newData[lastscan + i] as int - oldData[lastpos + i]) % 256;
      assert db[dblen..dblen + i + 1] == d + [db[dblen + i]];
      DifferencesNext(oldData, newData, lastpos, lastscan, i);
      i := i + 1;
    }
    AddDifferences(oldData, newData, lastpos, lastscan, lenf);
  }

  /** One more difference makes one more byte of the new file. */
  lemma OneMore(oldData: seq<Byte>, newData: seq<Byte>, a: nat, b: nat, d: seq<Byte>)
    requires a + |d| < |newData| && b + |d| < |oldData| && AddOld(oldData, d, b) == newData[a..a + |d|]
    ensures AddOld(oldData, d + [(newData[a + |d|] as int - oldData[b + |d|]) % 256], b) == newData[a..a + |d| + 1]
  {
    var e := (newData[a + |d|] as int - oldData[b + |d|]) % 256;
    assert (d + [e])[..|d|] == d;
  }

  /** Adding the old bytes to the differences gives the new bytes back. */
  lemma {:induction false} AddDifferences(oldData: seq<Byte>, newData: seq<Byte>, b: nat, a: nat, n: nat)
    requires b + n <= |oldData| && a + n <= |newData|
    ensures AddOld(oldData, Differences(oldData, newData, b, a, n), b) == newData[a..a + n]
  {
    if n > 0 {
      AddDifferences(oldData, newData, b, a, n - 1);
      DifferencesNext(oldData, newData, b, a, n - 1);
      OneMore(oldData, newData, a, b, Differences(oldData, newData, b, a, n - 1));
    }
  }

  /** Copies a stretch of the new file behind the first eblen bytes of eb. */
  method WriteExtra(eb: array<Byte>, eblen: nat, newData: seq<Byte>, from: nat, n: nat)
    requires eblen + n <= eb.Length && from + n <= |newData|
    modifies eb
    ensures eb[..eblen] == old(eb[..eblen]) && eb[eblen..eblen + n] == newData[from..from + n]
  {
    var i := 0;
    while i < n
      invariant i <= n && eb[..eblen] == old(eb[..eblen]) && eb[eblen..eblen + i] == newData[from..from + i]
    {
      ghost var e := eb[eblen..eblen + i];
      eb[eblen + i] := newData[from + i];
      assert eb[eblen..eblen + i + 1] == e + [eb[eblen + i]];
      assert newData[from..from + i + 1] == newData[from..from + i] + [newData[from + i]];
      i := i + 1;
    }
  }

  /** The buffers hold the script emitted so far, which writes the new file up to lastscan. */
  ghost predicate Emitted(oldData: seq<Byte>, newData: seq<Byte>, script: Script, ctrl: seq<Byte>, diff: seq<Byte>,
                          extra: seq<Byte>, lastscan: nat, lastpos: nat)
  {
    && lastscan <= |newData| && lastpos <= |oldData|
    && ctrl == Ctrl(script) && diff == Diff(script) && extra == Extra(script)
    && Output(oldData, script, 0) == newData[..lastscan] && Landing(script, 0) == lastpos
    && |diff| + |extra| == lastscan
    && (Countable(diff, extra) ==> Encodable(script)) && AllNeeded(script, |newData|)
  }

  /** Both blocks are short enough for BZ2_bzWrite, which takes their lengths as an int. */
  predicate Countable(diff: seq<Byte>, extra: seq<Byte>) {
    |diff| < INT_LIMIT && |extra| < INT_LIMIT
  }

  ghost predicate StepFor(oldData: seq<Byte>, newData: seq<Byte>, lastscan: nat, lastpos: nat, t: Step) {
    && lastscan < |newData| && lastscan + |t.d| + |t.e| <= |newData|
    && lastpos + |t.d| <= |oldData| && 0 <= Next(t, lastpos) <= |oldData|
    && AddOld(oldData, t.d, lastpos) == newData[lastscan..lastscan + |t.d|]
    && t.e == newData[lastscan + |t.d|..lastscan + |t.d| + |t.e|]
  }

  /** One more step keeps the buffers in line with the script. */
  lemma EmitKeeps(oldData: seq<Byte>, newData: seq<Byte>, script: Script, ctrl: seq<Byte>, diff: seq<Byte>,
                  extra: seq<Byte>, lastscan: nat, lastpos: nat, t: Step)
    requires Emitted(oldData, newData, script, ctrl, diff, extra, lastscan, lastpos)
    requires |oldData| < SIGNED_LIMIT && StepFor(oldData, newData, lastscan, lastpos, t)
    ensures Emitted(oldData, newData, Append(script, t), ctrl + Record(t), diff + t.d, extra + t.e,
                    lastscan + |t.d| + |t.e|, Next(t, lastpos))
  {
    hide AllNeeded, Encodable, Ctrl, Diff, Extra, Output, Landing, Append, Record;
    AppendStreams(script, t);
    AppendOutput(oldData, script, 0, t);
    AppendNeeded(oldData, script, 0, t, |newData|);
    NewPrefix(newData, lastscan, AddOld(oldData, t.d, lastpos), t.e);
    StepEncodable(script, diff, extra, t);
  }

  lemma StepEncodable(script: Script, diff: seq<Byte>, extra: seq<Byte>, t: Step)
    requires (Countable(diff, extra) ==> Encodable(script)) && -SIGNED_LIMIT < t.z < SIGNED_LIMIT
    ensures Countable(diff + t.d, extra + t.e) ==> Encodable(Append(script, t))
  {
    if Countable(diff + t.d, extra + t.e) { AppendEncodable(script, t); }
  }

  lemma NewPrefix(newData: seq<Byte>, n: nat, a: seq<Byte>, e: seq<Byte>)
    requires n + |a| + |e| <= |newData| && a == newData[n..n + |a|] && e == newData[n + |a|..n + |a| + |e|]
    ensures newData[..n] + (a + e) == newData[..n + |a| + |e|]
  {
  }

  /** How much of the last match to keep (lenf) and how far back the new one reaches (lenb). */
  method ChooseLengths(oldData: seq<Byte>, newData: seq<Byte>, lastscan: nat, lastpos: nat, scan: nat, pos: nat)
    returns (lenf: nat, lenb: nat)
    requires lastscan <= scan <= |newData| && lastpos <= |oldData| && pos <= |oldData|
    ensures var s := Stop(lastscan, lastpos, scan, pos, lenf, lenb);
            InFiles(oldData, newData, s) && Chosen(oldData, newData, s)
    ensures scan == |newData| ==> lenb == 0
  {
    hide BestCut, Agreeing, AgreeingBack;
    lenf := ExtendForward(oldData, newData, lastscan, lastpos, scan);
    lenb := 0;
    if scan < |newData| {
      lenb := ExtendBackward(oldData, newData, lastscan, scan, pos);
    }
    if lastscan + lenf > scan - lenb {
      var overlap := (lastscan + lenf) - (scan - lenb);
      var lens := DivideOverlap(oldData, newData, scan - lenb, lastpos + lenf - overlap, pos - lenb, overlap);
      ghost var f, b := lenf, lenb;
      lenf := lenf + lens - overlap;
      lenb := lenb - lens;
      assert Divided(oldData, newData, Stop(lastscan, lastpos, scan, pos, lenf, lenb), f, b);
    } else {
      assert Divided(oldData, newData, Stop(lastscan, lastpos, scan, pos, lenf, lenb), lenf, lenb);
    }
  }

  /** Emits one step: differences against the last match, then the bytes no match covers. */
  method EmitStep(oldData: seq<Byte>, newData: seq<Byte>, scan: nat, pos: nat, lastscan: nat, lastpos: nat,
                  db: array<Byte>, dblen: nat, eb: array<Byte>, eblen: nat)
    returns (lenf: nat, lenb: nat, ghost t: Step)
    requires db != eb && db.Length == |newData| + 1 && eb.Length == |newData| + 1 && dblen + eblen == lastscan
    requires lastscan < |newData| && lastscan <= scan <= |newData| && pos <= |oldData| && lastpos <= |oldData|
    modifies db, eb
    ensures lenb <= pos && lastscan + lenf <= scan - lenb && (scan == |newData| ==> lenb == 0)
    ensures var s := Stop(lastscan, lastpos, scan, pos, lenf, lenb);
            InFiles(oldData, newData, s) && Chosen(oldData, newData, s) && t == StepOf(oldData, newData, s)
    ensures StepFor(oldData, newData, lastscan, lastpos, t)
    ensures db[..dblen + lenf] == old(db[..dblen]) + t.d && eb[..eblen + |t.e|] == old(eb[..eblen]) + t.e
  {
    hide AddOld, Chosen, Differences, StepFor;
    lenf, lenb := ChooseLengths(oldData, newData, lastscan, lastpos, scan, pos);
    ghost var s := Stop(lastscan, lastpos, scan, pos, lenf, lenb);
    t := StepOf(oldData, newData, s);
    StepSuits(oldData, newData, s);
    WriteDiff(db, dblen, oldData, newData, lastscan, lastpos, lenf);
    WriteExtra(eb, eblen, newData, lastscan + lenf, (scan - lenb) - (lastscan + lenf));
    Behind(db[..dblen + lenf], old(db[..dblen]), t.d);
    Behind(eb[..eblen + |t.e|], old(eb[..eblen]), t.e);
  }

  lemma StepSuits(oldData: seq<Byte>, newData: seq<Byte>, s: Stop)
    requires InFiles(oldData, newData, s) && s.lastscan < |newData|
    ensures StepFor(oldData, newData, s.lastscan, s.lastpos, StepOf(oldData, newData, s))
  {
    hide AddOld, Differences;
    AddDifferences(oldData, newData, s.lastpos, s.lastscan, s.lenf);
  }

  lemma Behind(w: seq<Byte>, before: seq<Byte>, more: seq<Byte>)
    requires |w| == |before| + |more| && w[..|before|] == before && w[|before|..] == more
    ensures w == before + more
  {
  }

  /** The state between two steps: how far the new file is covered, and what has been written. */
  datatype Progress = Progress(lastscan: nat, lastpos: nat, dblen: nat, eblen: nat, ctrl: seq<Byte>)

  ghost predicate Consistent(oldData: seq<Byte>, newData: seq<Byte>, script: Script, st: Progress, diff: seq<Byte>,
                             extra: seq<Byte>) {
    && Emitted(oldData, newData, script, st.ctrl, diff, extra, st.lastscan, st.lastpos)
    && |diff| == st.dblen && |extra| == st.eblen
  }

  /** Emits a step and records it. */
  method EmitNext(oldData: seq<Byte>, newData: seq<Byte>, scan: nat, pos: nat, st: Progress, db: array<Byte>,
                  eb: array<Byte>, ghost script: Script, ghost D: seq<Byte>, ghost E: seq<Byte>)
    returns (st': Progress, ghost script': Script, ghost D': seq<Byte>, ghost E': seq<Byte>, ghost s: Stop)
    requires db != eb && db.Length == |newData| + 1 && eb.Length == |newData| + 1
    requires |oldData| < SIGNED_LIMIT
    requires Consistent(oldData, newData, script, st, D, E) && db[..st.dblen] == D && eb[..st.eblen] == E
    requires st.lastscan < |newData| && st.lastscan <= scan <= |newData| && pos <= |oldData|
    modifies db, eb
    ensures Consistent(oldData, newData, script', st', D', E') && st'.dblen + st'.eblen <= |newData|
    ensures db[..st'.dblen] == D' && eb[..st'.eblen] == E'
    ensures st'.lastscan <= scan && (scan == |newData| ==> st'.lastscan == scan)
    ensures s == Stop(st.lastscan, st.lastpos, scan, pos, s.lenf, s.lenb)
    ensures st'.lastscan == scan - s.lenb && st'.lastpos == pos - s.lenb
    ensures InFiles(oldData, newData, s) && Chosen(oldData, newData, s)
            && script' == Append(script, StepOf(oldData, newData, s))
  {
    hide OffOut, Chosen, Differences, Append;
    var lenf, lenb;
    ghost var t;
    lenf, lenb, t := EmitStep(oldData, newData, scan, pos, st.lastscan, st.lastpos, db, st.dblen, eb, st.eblen);
    var y := (scan - lenb) - (st.lastscan + lenf);
    var z := (pos - lenb) - (st.lastpos + lenf);
    st' := Progress(scan - lenb, pos - lenb, st.dblen + lenf, st.eblen + y,
                    st.ctrl + (OffOut(lenf) + OffOut(y) + OffOut(z)));
    s := Stop(st.lastscan, st.lastpos, scan, pos, lenf, lenb);
    script', D', E' := Append(script, t), D + t.d, E + t.e;
    EmitRecorded(oldData, newData, script, st, D, E, t, st');
  }

  lemma EmitRecorded(oldData: seq<Byte>, newData: seq<Byte>, script: Script, st: Progress, D: seq<Byte>, E: seq<Byte>,
                     t: Step, st': Progress)
    requires Consistent(oldData, newData, script, st, D, E)
    requires StepFor(oldData, newData, st.lastscan, st.lastpos, t) && st.lastscan < |newData|
    requires |oldData| < SIGNED_LIMIT
    requires 0 <= st.lastpos + |t.d| + t.z <= |oldData|
    requires st' == Progress(st.lastscan + |t.d| + |t.e|, Next(t, st.lastpos), st.dblen + |t.d|, st.eblen + |t.e|,
                             st.ctrl + Record(t))
    ensures Consistent(oldData, newData, Append(script, t), st', D + t.d, E + t.e)
    ensures st'.dblen + st'.eblen <= |newData|
  {
    EmitKeeps(oldData, newData, script, st.ctrl, D, E, st.lastscan, st.lastpos, t);
  }

  /** The whole scan: the three streams of the script that it emits, which turns oldData into newData. */
  method ScanNew(oldData: seq<Byte>, newData: seq<Byte>, I: seq<int>)
    returns (ctrl: seq<Byte>, diff: seq<Byte>, extra: seq<Byte>, ghost script: Script)
    requires Search.Candidates(I, oldData) && |oldData| < SIGNED_LIMIT
    ensures ctrl == Ctrl(script) && diff == Diff(script) && extra == Extra(script)
    ensures Emits(I, oldData, newData, script)
    ensures Output(oldData, script, 0) == newData && |diff| + |extra| == |newData|
    ensures (Countable(diff, extra) ==> Encodable(script)) && AllNeeded(script, |newData|)
  {
    hide Chosen, StopsAt, OldScore, Matches, Emitted, Ctrl, Output;
    var db, eb := new Byte[|newData| + 1], new Byte[|newData| + 1];
    var m, lastoffset: int := Scan(0, 0, 0, 0), 0;
    var st := Progress(0, 0, 0, 0, []);
    script := Empty;
    ghost var h, D: seq<Byte>, E: seq<Byte> := Begin, [], [];
    NothingEmitted(oldData, newData);
    while m.scan < |newData|
      invariant st.lastscan <= m.scan <= |newData| && m.pos <= |oldData| && st.dblen + st.eblen <= |newData|
      invariant (m.scan < |newData| ==> m.scan + m.len <= |newData|) && 0 <= m.scan + lastoffset
      invariant m.scan == |newData| ==> st.lastscan == |newData|
      invariant db[..st.dblen] == D && eb[..st.eblen] == E
      invariant Consistent(oldData, newData, script, st, D, E)
      invariant Follows(I, oldData, newData, h, m, lastoffset, st, script)
      decreases if m.scan < |newData| then |newData| + 1 - m.scan - m.len else 0
    {
      ghost var sc, before, step := 0, h, None;
      m, sc := ScanForward(I, oldData, newData, m.scan + m.len, m.len, m.pos, lastoffset);
      if m.len != m.oldscore || m.scan == |newData| {
        ghost var s;
        st, script, D, E, s := EmitNext(oldData, newData, m.scan, m.pos, st, db, eb, script, D, E);
        lastoffset := m.pos - m.scan;
        step := Some(s);
      }
      h := Went(before, m.scan, Search.Match(m.len, m.pos), step);
    }
    ctrl, diff, extra := st.ctrl, db[..st.dblen], eb[..st.eblen];
    AllEmitted(oldData, newData, script, st, D, E);
  }

  /** The variables of the scan say what its history says. */
  ghost predicate Follows(I: seq<int>, oldData: seq<Byte>, newData: seq<Byte>, h: History, m: Scan, lastoffset: int,
                          st: Progress, script: Script)
    requires Search.Candidates(I, oldData)
  {
    && Scanned(I, oldData, newData, h) && AllInFiles(oldData, newData, h) && script == ScriptOf(oldData, newData, h)
    && Stopped(h) == m.scan && Found(h) == Search.Match(m.len, m.pos)
    && Offset(h) == lastoffset && LastScan(h) == st.lastscan && LastPos(h) == st.lastpos
  }

  lemma NothingEmitted(oldData: seq<Byte>, newData: seq<Byte>)
    ensures Emitted(oldData, newData, Empty, [], [], [], 0, 0)
  {
  }

  lemma AllEmitted(oldData: seq<Byte>, newData: seq<Byte>, script: Script, st: Progress, D: seq<Byte>, E: seq<Byte>)
    requires Consistent(oldData, newData, script, st, D, E) && st.lastscan == |newData|
    ensures st.ctrl == Ctrl(script) && D == Diff(script) && E == Extra(script)
    ensures Output(oldData, script, 0) == newData && |D| + |E| == |newData|
    ensures (Countable(D, E) ==> Encodable(script)) && AllNeeded(script, |newData|)
  {
    assert newData[..|newData|] == newData;
  }

  /** Wherever the patch lies in a file, applying it to oldData gives newData and reads each of
      the three streams to its end. */
  ghost predicate Rebuilds(c: Coder, oldData: seq<Byte>, newData: seq<Byte>, patch: seq<Byte>) {
    forall before: seq<Byte>, after: seq<Byte> {:trigger before + patch + after} ::
      PatchFile(oldData, before + patch + after, |before|, c.unpack) == Done(newData, [], [], [])
  }

  /** What BZ2_bzWrite makes of a block: it refuses a length that reads as negative in 32 bits. */
  function PackBlock(c: Coder, block: seq<Byte>): (r: Option<seq<Byte>>)
    ensures |block| < INT_LIMIT ==> r == Some(c.pack(block))
  {
    var len := |block| % UINT_LIMIT;
    assert block[..|block|] == block;
    if len >= INT_LIMIT then None else Some(c.pack(block[..len]))
  }

  /** Makes the patch file of the script that the scan emits. The suffix array is computed on the first call for
      oldData and reused. The program gives up when a block is too long to be written; a patch that it does write is
      good if and only if both blocks are counted right, as they are whenever the new file is shorter than 2^31
      bytes. */
  method BsDiff(oldData: seq<Byte>, newData: seq<Byte>, cached: Option<seq<int>>, c: Coder)
    returns (patch: Option<seq<Byte>>, I: seq<int>, ghost script: Script)
    requires |oldData| < SIGNED_LIMIT && |newData| < SIGNED_LIMIT
    requires cached.Some? ==> Search.Candidates(cached.value, oldData)
    ensures Search.Candidates(I, oldData)
    ensures if cached.Some? then I == cached.value else IsSuffixArray(oldData, I)
    ensures Emits(I, oldData, newData, script) && |Diff(script)| + |Extra(script)| == |newData|
    ensures patch.Some? ==> patch.value == StoredCut(c, script, |newData|)
    ensures Countable(Diff(script), Extra(script)) ==> patch.Some?
    ensures patch.Some? && Faithful(c) && |patch.value| < SIGNED_LIMIT ==>
              (Rebuilds(c, oldData, newData, patch.value) <==> Countable(Diff(script), Extra(script)))
  {
    hide Emits, Countable;
    if cached.None? {
      var J, V := new int[|oldData| + 1], new int[|oldData| + 1];
      SuffixSort.QSufSort(J, V, oldData);
      I := J[..];
    } else {
      I := cached.value;
    }
    var ctrl, db, eb;
    ctrl, db, eb, script := ScanNew(oldData, newData, I);
    var cb, dp, ep := c.pack(ctrl), PackBlock(c, db), PackBlock(c, eb);
    Packed(c, db, eb);
    if dp.None? || ep.None? { return None, I, script; }
    var header := BSDIFF_MAGIC + OffOut(|cb|) + OffOut(|dp.value|) + OffOut(|newData|);
    patch := Some(header + cb + dp.value + ep.value);
    if Faithful(c) && |patch.value| < SIGNED_LIMIT {
      StoredRebuilds(c, oldData, newData, script, patch.value);
    }
  }

  lemma Packed(c: Coder, diff: seq<Byte>, extra: seq<Byte>)
    ensures Countable(diff, extra) ==> PackBlock(c, diff).Some? && PackBlock(c, extra).Some?
  {
  }

  /** The part of a block that is written. */
  function Taken(block: seq<Byte>): (r: seq<Byte>) {
    block[..|block| % UINT_LIMIT]
  }

  /** The patch file made of a script whose blocks are written as far as an int counts them. */
  function StoredCut(c: Coder, script: Script, size: nat): (r: seq<Byte>) {
    var cb, db, eb := c.pack(Ctrl(script)), c.pack(Taken(Diff(script))), c.pack(Taken(Extra(script)));
    BSDIFF_MAGIC + OffOut(|cb|) + OffOut(|db|) + OffOut(size) + cb + db + eb
  }

  lemma StoredRebuilds(c: Coder, oldData: seq<Byte>, newData: seq<Byte>, script: Script, patch: seq<Byte>)
    requires Faithful(c) && AllNeeded(script, |newData|) && Output(oldData, script, 0) == newData
    requires Countable(Diff(script), Extra(script)) ==> Encodable(script)
    requires |Diff(script)| + |Extra(script)| == |newData| < SIGNED_LIMIT
    requires patch == StoredCut(c, script, |newData|) && |patch| < SIGNED_LIMIT
    requires |Diff(script)| % UINT_LIMIT < INT_LIMIT && |Extra(script)| % UINT_LIMIT < INT_LIMIT
    ensures Rebuilds(c, oldData, newData, patch) <==> Countable(Diff(script), Extra(script))
  {
    hide Rebuilds, AllNeeded, Encodable, Output, Faithful, OffOut;
    if Countable(Diff(script), Extra(script)) {
      WholeRebuilds(c, oldData, newData, script, patch);
    } else if Rebuilds(c, oldData, newData, patch) {
      CutFails(c, oldData, newData, script, patch);
    }
  }

  lemma WholeRebuilds(c: Coder, oldData: seq<Byte>, newData: seq<Byte>, script: Script, patch: seq<Byte>)
    requires Faithful(c) && AllNeeded(script, |newData|) && Output(oldData, script, 0) == newData
    requires Countable(Diff(script), Extra(script)) && Encodable(script) && |newData| < SIGNED_LIMIT
    requires patch == StoredCut(c, script, |newData|) && |patch| < SIGNED_LIMIT
    ensures Rebuilds(c, oldData, newData, patch)
  {
    hide OffOut, AllNeeded, Encodable, Output, Faithful;
    var D, E := Diff(script), Extra(script);
    assert Taken(D) == D && Taken(E) == E && patch == Stored(c, script, |newData|);
    forall before: seq<Byte>, after: seq<Byte>
      ensures PatchFile(oldData, before + patch + after, |before|, c.unpack) == Done(newData, [], [], [])
    {
      hide Stored, StoredCut;
      StoredRoundTrip(c, oldData, script, before, after);
    }
  }

  /** A block that was written only in part cannot fill the new file. */
  lemma CutFails(c: Coder, oldData: seq<Byte>, newData: seq<Byte>, script: Script, patch: seq<Byte>)
    requires Faithful(c) && |Diff(script)| + |Extra(script)| == |newData| < SIGNED_LIMIT
    requires patch == StoredCut(c, script, |newData|) && |patch| < SIGNED_LIMIT
    requires |Taken(Diff(script))| + |Taken(Extra(script))| < |newData|
    ensures !Rebuilds(c, oldData, newData, patch)
  {
    hide OffOut, Faithful, Triples, PatchFile;
    var D, E := Taken(Diff(script)), Taken(Extra(script));
    var none: seq<Byte> := [];
    PatchFileAt(c, oldData, none, Ctrl(script), D, E, |newData|, none);
    ReplayUses(oldData, Triples(Ctrl(script)), D, E, |newData|, none, 0);
    var cb, db, eb := c.pack(Ctrl(script)), c.pack(D), c.pack(E);
    StoredParts(BSDIFF_MAGIC + OffOut(|cb|) + OffOut(|db|) + OffOut(|newData|), cb, db, eb);
    assert none + patch + none == none + patch;
    assert PatchFile(oldData, none + patch, |none|, c.unpack) != Done(newData, [], [], []);
  }

  lemma StoredParts(header: seq<Byte>, cb: seq<Byte>, db: seq<Byte>, eb: seq<Byte>)
    ensures header + (cb + db + eb + []) == header + cb + db + eb
  {
  }

  // ----- The patch that bsdiff makes -----

  /** The patch file that bsdiff makes of two files. */
  ghost predicate PatchOf(c: Coder, oldData: seq<Byte>, newData: seq<Byte>, patch: seq<Byte>) {
    exists I, script ::
      IsSuffixArray(oldData, I) && Emits(I, oldData, newData, script) && patch == StoredCut(c, script, |newData|)
  }

  /** There is one: sorting has one answer, and so has the scan. */
  lemma PatchOnce(c: Coder, oldData: seq<Byte>, newData: seq<Byte>, p: seq<Byte>, q: seq<Byte>)
    requires PatchOf(c, oldData, newData, p) && PatchOf(c, oldData, newData, q)
    ensures p == q
  {
    hide Emits, StoredCut;
    var I, s :| IsSuffixArray(oldData, I) && Emits(I, oldData, newData, s) && p == StoredCut(c, s, |newData|);
    var J, t :| IsSuffixArray(oldData, J) && Emits(J, oldData, newData, t) && q == StoredCut(c, t, |newData|);
    SuffixArrayUnique(oldData, I, J);
    EmitsOnce(I, oldData, newData, s, t);
  }

  /** The length of a patch whose one step adds n zeros and then moves by z. */
  function FrontSize(c: Coder, n: nat, z: int): (r: nat) {
    32 + |c.pack(OffOut(n) + OffOut(0) + OffOut(z))| + |c.pack(Zeros(n))| + |c.pack([])|
  }

  /** The patch to a front part of the old file, or to the old file itself, holds three short streams: one record,
      zeros, and nothing. */
  lemma FrontPatch(c: Coder, oldData: seq<Byte>, newData: seq<Byte>, patch: seq<Byte>)
    requires PatchOf(c, oldData, newData, patch) && newData <= oldData && 0 < |newData| < INT_LIMIT
    ensures exists z :: -|newData| <= z <= |oldData| - |newData| && |patch| == FrontSize(c, |newData|, z)
  {
    hide Emits, OffOut, Zeros;
    var I, script :| IsSuffixArray(oldData, I) && Emits(I, oldData, newData, script)
      && patch == StoredCut(c, script, |newData|);
    FrontKept(I, oldData, newData, script);
    var n := |newData|;
    var z :| -n <= z <= |oldData| - n && script == Run(Step(Zeros(n), [], z), Empty);
    assert Taken(Zeros(n)) == Zeros(n) && Taken([]) == [];
    var record := Record(Step(Zeros(n), [], z));
    assert Ctrl(script) == record + [] == record;
    assert |patch| == FrontSize(c, n, z);
  }
}
