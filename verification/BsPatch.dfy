/** Applying a bsdiff patch in memory. */
module BsPatch {
  import opened Bytes
  import opened Offsets
  import opened PatchStreams

  /** "BSDIFF40" */
  const BSDIFF_MAGIC: seq<Byte> := [66, 83, 68, 73, 70, 70, 52, 48]

  /** The bzip2 coder: pack compresses; unpack yields what can be read of the stream at the front
      of its input, however much follows it. */
  datatype Coder = Coder(pack: seq<Byte> -> seq<Byte>, unpack: seq<Byte> -> seq<Byte>)

  ghost predicate Faithful(c: Coder) {
    forall x: seq<Byte>, rest: seq<Byte> {:trigger c.pack(x) + rest} :: c.unpack(c.pack(x) + rest) == x
  }

  /** Puts size bytes of a stream into a buffer, or what 32 bits leave of that number; fails when the stream has
      fewer left. */
  method FillBuffer(a: array<Byte>, at: nat, size: nat, stream: seq<Byte>, from: nat) returns (ok: bool)
    requires at + size % UINT_LIMIT <= a.Length && from <= |stream|
    modifies a
    ensures ok <==> from + size % UINT_LIMIT <= |stream|
    ensures ok ==> a[..at] == old(a[..at]) && a[at..at + size % UINT_LIMIT] == stream[from..from + size % UINT_LIMIT]
  {
    var n, i := size % UINT_LIMIT, 0;
    while i < n
      invariant i <= n && from + i <= |stream|
      invariant a[..at] == old(a[..at]) && a[at..at + i] == stream[from..from + i]
    {
      if from + i == |stream| { return false; }
      a[at + i] := stream[from + i];
      i := i + 1;
    }
    return true;
  }

  /** Adds old bytes onto a stretch of the buffer. */
  method AddOldBytes(a: array<Byte>, at: nat, n: nat, oldData: seq<Byte>, oldpos: int)
    requires at + n <= a.Length
    modifies a
    ensures a[..at] == old(a[..at]) && a[at..at + n] == AddOld(oldData, old(a[at..at + n]), oldpos)
  {
    ghost var d := a[at..at + n];
    var i := 0;
    while i < n
      invariant i <= n && a[..at] == old(a[..at])
      invariant a[at..at + i] == AddOld(oldData, d[..i], oldpos) && a[at + i..at + n] == d[i..]
    {
      assert a[at + i] == a[at + i..at + n][0] == d[i];
      assert d[..i + 1][..i] == d[..i];
      if oldpos + i >= 0 && oldpos + i < |oldData| {
        a[at + i] := AddByte(a[at + i], oldData[oldpos + i]);
      }
      i := i + 1;
    }
    assert d[..n] == d;
  }

  /** Reads control record k. */
  method NextTriple(ctrl: seq<Byte>, k: nat, ghost ts: seq<Triple>) returns (ok: bool, t: Triple)
    requires ts == Triples(ctrl) && k <= |ts|
    ensures ok <==> k < |ts|
    ensures ok ==> t == ts[k]
  {
    var buf := new Byte[24];
    t := Triple(0, 0, 0);
    ok := FillBuffer(buf, 0, 24, ctrl, 24 * k);
    if ok {
      TripleAt(ctrl, k);
      assert buf[..] == buf[..24] == ctrl[24 * k..][..24];
      Subfields(buf[..], ctrl[24 * k..]);
      t := Triple(OffIn(buf[..][..8]), OffIn(buf[..][8..16]), OffIn(buf[..][16..24]));
    }
  }

  /** Extends the new file by a block of diff bytes added to old bytes, if an int can count them. */
  method CopyDiff(newData: array<Byte>, newpos: nat, x: nat, diff: seq<Byte>, d: nat, oldData: seq<Byte>, oldpos: int)
    returns (ok: bool)
    requires newpos + x <= newData.Length && d <= |diff|
    modifies newData
    ensures ok <==> x % UINT_LIMIT <= |diff[d..]|
    ensures ok && x < INT_LIMIT ==>
              && x <= |diff[d..]|
              && newData[..newpos + x] == old(newData[..newpos]) + AddOld(oldData, diff[d..][..x], oldpos)
  {
    ok := FillBuffer(newData, newpos, x, diff, d);
    if ok && x < INT_LIMIT {
      assert x % UINT_LIMIT == x && newData[newpos..newpos + x] == diff[d..d + x] == diff[d..][..x];
      AddOldBytes(newData, newpos, x, oldData, oldpos);
      assert newData[..newpos + x] == newData[..newpos] + newData[newpos..newpos + x];
    }
  }

  /** Extends the new file by a block of extra bytes, if an unsigned int can count them. */
  method CopyExtra(newData: array<Byte>, newpos: nat, y: nat, extra: seq<Byte>, e: nat) returns (ok: bool)
    requires newpos + y <= newData.Length && e <= |extra|
    modifies newData
    ensures ok <==> y % UINT_LIMIT <= |extra[e..]|
    ensures ok && y < UINT_LIMIT ==>
              y <= |extra[e..]| && newData[..newpos + y] == old(newData[..newpos]) + extra[e..][..y]
  {
    ok := FillBuffer(newData, newpos, y, extra, e);
    if ok && y < UINT_LIMIT {
      assert y % UINT_LIMIT == y && newData[newpos..newpos + y] == extra[e..e + y] == extra[e..][..y];
      assert newData[..newpos + y] == newData[..newpos] + newData[newpos..newpos + y];
    }
  }

  /** How far the patching loop has come: in the new file, in the old file, in the records, and
      in the diff and extra streams. */
  datatype Cursor = Cursor(newpos: nat, oldpos: int, k: nat, d: nat, e: nat)

  ghost predicate InRange(at: Cursor, ts: seq<Triple>, diff: seq<Byte>, extra: seq<Byte>, size: nat) {
    at.newpos <= size && at.k <= |ts| && at.d <= |diff| && at.e <= |extra|
  }

  /** What is left to do from a cursor on. */
  ghost function Resume(oldData: seq<Byte>, ts: seq<Triple>, diff: seq<Byte>, extra: seq<Byte>, size: nat,
                        at: Cursor, done: seq<Byte>): (r: Outcome)
    requires InRange(at, ts, diff, extra, size)
  {
    Replay(oldData, ts[at.k..], diff[at.d..], extra[at.e..], size, done, at.oldpos)
  }

  /** One turn of the patching loop: reads a record and extends the new file by its two blocks. */
  method PatchTurn(newData: array<Byte>, at: Cursor, oldData: seq<Byte>, ctrl: seq<Byte>, diff: seq<Byte>,
                   extra: seq<Byte>, ghost ts: seq<Triple>)
    returns (error: Option<PatchError>, next: Cursor)
    requires ts == Triples(ctrl)
    requires InRange(at, ts, diff, extra, newData.Length) && at.newpos < newData.Length
    modifies newData
    ensures error.Some? ==>
              Resume(oldData, ts, diff, extra, newData.Length, at, old(newData[..at.newpos])) == Failed(error.value)
    ensures error.None? ==>
              && InRange(next, ts, diff, extra, newData.Length) && at.k < next.k
              && Resume(oldData, ts, diff, extra, newData.Length, at, old(newData[..at.newpos]))
                 == Resume(oldData, ts, diff, extra, newData.Length, next, newData[..next.newpos])
  {
    hide Triples, AddOld;
    next := at;
    var ok, t := NextTriple(ctrl, at.k, ts);
    if !ok { return Some(ShortStream), next; }
    if at.newpos + t.x > newData.Length { return Some(NewFileOverrun), next; }
    if t.x < 0 { return Some(NegativeLength), next; }
    ok := CopyDiff(newData, at.newpos, t.x, diff, at.d, oldData, at.oldpos);
    if !ok { return Some(ShortStream), next; }
    if t.x >= INT_LIMIT { return Some(TooLong), next; }
    if at.newpos + t.x + t.y > newData.Length { return Some(NewFileOverrun), next; }
    if t.y < 0 { return Some(NegativeLength), next; }
    ok := CopyExtra(newData, at.newpos + t.x, t.y, extra, at.e);
    if !ok { return Some(ShortStream), next; }
    if t.y >= UINT_LIMIT { return Some(TooLong), next; }
    next := Cursor(at.newpos + t.x + t.y, at.oldpos + t.x + t.z, at.k + 1, at.d + t.x, at.e + t.y);
    ReplayTurn(oldData, ts, diff, extra, newData.Length, at, old(newData[..at.newpos]));
    return None, next;
  }

  /** The patching loop, building the new file in place. */
  method PatchLoop(oldData: seq<Byte>, ctrl: seq<Byte>, diff: seq<Byte>, extra: seq<Byte>, size: nat)
    returns (r: Outcome)
    ensures r == Replay(oldData, Triples(ctrl), diff, extra, size, [], 0)
  {
    var newData := new Byte[size];
    var at := Cursor(0, 0, 0, 0, 0);
    ghost var ts := Triples(ctrl);
    ghost var goal := Replay(oldData, ts, diff, extra, size, [], 0);
    while at.newpos < size
      invariant InRange(at, ts, diff, extra, size)
      invariant goal == Resume(oldData, ts, diff, extra, size, at, newData[..at.newpos])
      decreases |ts| - at.k
    {
      var error;
      error, at := PatchTurn(newData, at, oldData, ctrl, diff, extra, ts);
      if error.Some? { return Failed(error.value); }
    }
    assert newData[..] == newData[..at.newpos];
    return Done(newData[..], Triples(ctrl)[at.k..], diff[at.d..], extra[at.e..]);
  }

  lemma ReplayTurn(oldData: seq<Byte>, ts: seq<Triple>, diff: seq<Byte>, extra: seq<Byte>, size: nat, at: Cursor,
                   done: seq<Byte>)
    requires InRange(at, ts, diff, extra, size) && |done| == at.newpos < size && at.k < |ts|
    requires var t := ts[at.k];
             && 0 <= t.x < INT_LIMIT && at.d + t.x <= |diff| && 0 <= t.y < UINT_LIMIT && at.e + t.y <= |extra|
             && at.newpos + t.x + t.y <= size
    ensures var t := ts[at.k];
            Resume(oldData, ts, diff, extra, size, at, done)
            == Resume(oldData, ts, diff, extra, size,
                      Cursor(at.newpos + t.x + t.y, at.oldpos + t.x + t.z, at.k + 1, at.d + t.x, at.e + t.y),
                      done + AddOld(oldData, diff[at.d..][..t.x], at.oldpos) + extra[at.e..][..t.y])
  {
    var t := ts[at.k];
    Advance(ts, at.k, 1);
    Advance(diff, at.d, t.x);
    Advance(extra, at.e, t.y);
  }

  lemma Advance<T>(s: seq<T>, a: nat, b: nat)
    requires a + b <= |s|
    ensures s[a..][b..] == s[a + b..]
  {
  }

  lemma Subfields(buf: seq<Byte>, C: seq<Byte>)
    requires |buf| == 24 <= |C| && buf == C[..24]
    ensures buf[..8] == C[..8] && buf[8..16] == C[8..16] && buf[16..24] == C[16..24]
  {
  }

  /** What applying the patch that starts at offset in a file comes to. */
  function PatchFile(oldData: seq<Byte>, patch: seq<Byte>, offset: nat, unpack: seq<Byte> -> seq<Byte>): (r: Outcome) {
    if offset + 32 > |patch| then Failed(OutsidePatch)
    else if patch[offset..offset + 8] != BSDIFF_MAGIC then Failed(BadMagic)
    else
      var ctrlLen, dataLen := OffIn(patch[offset + 8..offset + 16]), OffIn(patch[offset + 16..offset + 24]);
      var newSize := OffIn(patch[offset + 24..offset + 32]);
      if ctrlLen < 0 || dataLen < 0 || newSize < 0 then Failed(BadLengths)
      else if offset + 32 + ctrlLen + dataLen > |patch| then Failed(OutsidePatch)
      else
        var body := patch[offset + 32..];
        Replay(oldData, Triples(unpack(body[..ctrlLen])), unpack(body[ctrlLen..ctrlLen + dataLen]),
               unpack(body[ctrlLen + dataLen..]),
               newSize, [], 0)
  }

  method ApplyBSDiffPatchMem(oldData: seq<Byte>, patch: seq<Byte>, offset: nat, unpack: seq<Byte> -> seq<Byte>)
    returns (r: Outcome)
    ensures r == PatchFile(oldData, patch, offset, unpack)
  {
    hide OffIn;
    if offset + 32 > |patch| { return Failed(OutsidePatch); }
    if patch[offset..offset + 8] != BSDIFF_MAGIC { return Failed(BadMagic); }
    var ctrlLen, dataLen := OffIn(patch[offset + 8..offset + 16]), OffIn(patch[offset + 16..offset + 24]);
    var newSize := OffIn(patch[offset + 24..offset + 32]);
    if ctrlLen < 0 || dataLen < 0 || newSize < 0 { return Failed(BadLengths); }
    if offset + 32 + ctrlLen + dataLen > |patch| { return Failed(OutsidePatch); }
    var body := patch[offset + 32..];
    r := PatchLoop(oldData, unpack(body[..ctrlLen]), unpack(body[ctrlLen..ctrlLen + dataLen]),
                   unpack(body[ctrlLen + dataLen..]), newSize);
  }

  /** The patch file made of a script: header, then the three packed streams. */
  function Stored(c: Coder, script: Script, size: nat): (r: seq<Byte>) {
    var cb, db, eb := c.pack(Ctrl(script)), c.pack(Diff(script)), c.pack(Extra(script));
    BSDIFF_MAGIC + OffOut(|cb|) + OffOut(|db|) + OffOut(size) + cb + db + eb
  }

  lemma HeaderFields(a: seq<Byte>, b: seq<Byte>, c: seq<Byte>, d: seq<Byte>, rest: seq<Byte>)
    requires |a| == |b| == |c| == |d| == 8
    ensures var w := a + b + c + d + rest;
            w[..8] == a && w[8..16] == b && w[16..24] == c && w[24..32] == d && w[32..] == rest
  {
  }

  lemma SliceBehind<T>(before: seq<T>, w: seq<T>, a: nat, b: nat)
    requires a <= b <= |w|
    ensures var n := |before|; (before + w)[n + a..n + b] == w[a..b] && (before + w)[n + a..] == w[a..]
  {
  }

  /** A header found behind other bytes. */
  lemma HeaderBehind(before: seq<Byte>, a: seq<Byte>, b: seq<Byte>, c: seq<Byte>, d: seq<Byte>, body: seq<Byte>)
    requires |a| == |b| == |c| == |d| == 8
    ensures var n, patch := |before|, before + (a + b + c + d + body);
            && patch[n..n + 8] == a && patch[n + 8..n + 16] == b && patch[n + 16..n + 24] == c
            && patch[n + 24..n + 32] == d && patch[n + 32..] == body
  {
    var w := a + b + c + d + body;
    HeaderFields(a, b, c, d, body);
    SliceBehind(before, w, 0, 8);
    SliceBehind(before, w, 8, 16);
    SliceBehind(before, w, 16, 24);
    SliceBehind(before, w, 24, 32);
    SliceBehind(before, w, 32, 32);
  }

  /** Reading a header and three packed streams back from where they were put. */
  lemma PatchFileAt(c: Coder, oldData: seq<Byte>, before: seq<Byte>, ctrl: seq<Byte>, diff: seq<Byte>, extra: seq<Byte>,
                    size: nat, after: seq<Byte>)
    requires Faithful(c) && size < SIGNED_LIMIT
    requires |c.pack(ctrl)| < SIGNED_LIMIT && |c.pack(diff)| < SIGNED_LIMIT
    ensures var body := c.pack(ctrl) + c.pack(diff) + c.pack(extra) + after;
            var w := BSDIFF_MAGIC + OffOut(|c.pack(ctrl)|) + OffOut(|c.pack(diff)|) + OffOut(size) + body;
            PatchFile(oldData, before + w, |before|, c.unpack)
                == Replay(oldData, Triples(ctrl), diff, extra, size, [], 0)
  {
    var cb, db, eb := c.pack(ctrl), c.pack(diff), c.pack(extra);
    HeaderBehind(before, BSDIFF_MAGIC, OffOut(|cb|), OffOut(|db|), OffOut(size), cb + db + eb + after);
    OffsetRoundTrip(|cb|);
    OffsetRoundTrip(|db|);
    OffsetRoundTrip(size);
    BodyStreams(cb, db, eb, after);
    Unpacked(c, ctrl, []);
    Unpacked(c, diff, []);
    Unpacked(c, extra, after);
    assert cb + [] == cb && db + [] == db;
  }

  lemma Unpacked(c: Coder, x: seq<Byte>, rest: seq<Byte>)
    requires Faithful(c)
    ensures c.unpack(c.pack(x) + rest) == x
  {
  }

  lemma BodyStreams(cb: seq<Byte>, db: seq<Byte>, eb: seq<Byte>, after: seq<Byte>)
    ensures var body := cb + db + eb + after;
            body[..|cb|] == cb && body[|cb|..|cb| + |db|] == db && body[|cb| + |db|..] == eb + after
  {
  }

  /** A stored script, wherever it lies in a file, is applied to exactly its output. */
  lemma StoredRoundTrip(c: Coder, oldData: seq<Byte>, script: Script, before: seq<Byte>, after: seq<Byte>)
    requires Faithful(c) && Encodable(script) && AllNeeded(script, |Output(oldData, script, 0)|)
    requires |Output(oldData, script, 0)| < SIGNED_LIMIT
    requires |c.pack(Ctrl(script))| < SIGNED_LIMIT && |c.pack(Diff(script))| < SIGNED_LIMIT
    ensures var out := Output(oldData, script, 0);
            PatchFile(oldData, before + Stored(c, script, |out|) + after, |before|, c.unpack) == Done(out, [], [], [])
  {
    var out := Output(oldData, script, 0);
    var cb, db, eb := c.pack(Ctrl(script)), c.pack(Diff(script)), c.pack(Extra(script));
    var header := BSDIFF_MAGIC + OffOut(|cb|) + OffOut(|db|) + OffOut(|out|);
    Assoc(before, Stored(c, script, |out|), after);
    assert Stored(c, script, |out|) + after == header + (cb + db + eb + after) by {
      Assoc(header + cb + db, eb, after);
      Assoc(header, cb, db);
      Assoc(header, cb + db, eb + after);
      Assoc(cb + db, eb, after);
    }
    PatchFileAt(c, oldData, before, Ctrl(script), Diff(script), Extra(script), |out|, after);
    ReplayWrites(oldData, script, 0, |out|, []);
    assert [] + out == out;
  }
}
