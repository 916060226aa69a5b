/** What a bsdiff patch means: a script of copies and insertions over three byte streams. */
module PatchStreams {
  import opened Bytes
  import opened Offsets

  /** One step of a patch: add d to old bytes, insert e, then move z in the old file. */
  datatype Step = Step(d: seq<Byte>, e: seq<Byte>, z: int)

  datatype Script = Empty | Run(first: Step, rest: Script)

  datatype PatchError =
    | BadMagic
    | BadLengths
    | NewFileOverrun
    | ShortStream      // a stream ran out before the bytes asked of it
    | NegativeLength   // a block length below zero, which the program does not check
    | TooLong          // a block longer than the program's int and unsigned int variables count
    | OutsidePatch     // a header or stream that starts beyond the end of the patch

  /** One control record: x bytes to add, y bytes to insert, a move by z. */
  datatype Triple = Triple(x: int, y: int, z: int)

  function ReadTriple(b: seq<Byte>): (r: Triple)
    requires |b| >= 24
  {
    Triple(OffIn(b[..8]), OffIn(b[8..16]), OffIn(b[16..24]))
  }

  /** The complete control records of a stream. */
  function Triples(ctrl: seq<Byte>): (r: seq<Triple>)
    ensures |r| == |ctrl| / 24
  {
    if |ctrl| < 24 then [] else [ReadTriple(ctrl)] + Triples(ctrl[24..])
  }

  lemma {:induction false} TripleAt(ctrl: seq<Byte>, k: nat)
    requires k < |ctrl| / 24
    ensures Triples(ctrl)[k] == ReadTriple(ctrl[24 * k..])
  {
    if k > 0 {
      TripleAt(ctrl[24..], k - 1);
      assert ctrl[24..][24 * (k - 1)..] == ctrl[24 * k..];
    } else {
      assert ctrl[0..] == ctrl;
    }
  }

  /** How applying a patch ends; Done also tells what is left unread of the three streams. */
  datatype Outcome =
    | Done(data: seq<Byte>, triples: seq<Triple>, diff: seq<Byte>, extra: seq<Byte>)
    | Failed(error: PatchError)

  function OldByte(oldData: seq<Byte>, k: int): (r: Byte) {
    if 0 <= k < |oldData| then oldData[k] else 0
  }

  /** Diff bytes with the old bytes from position k on added, modulo 256. */
  function AddOld(oldData: seq<Byte>, d: seq<Byte>, k: int): (r: seq<Byte>)
    ensures |r| == |d|
  {
    if d == [] then [] else AddOld(oldData, d[..|d| - 1], k) + [AddByte(d[|d| - 1], OldByte(oldData, k + |d| - 1))]
  }

  function AddByte(a: Byte, b: Byte): (r: Byte) {
    (a + b) % 256
  }

  /** The patching loop, from the point where done has been produced. */
  function Replay(oldData: seq<Byte>, ts: seq<Triple>, diff: seq<Byte>, extra: seq<Byte>, size: nat,
                  done: seq<Byte>, oldpos: int): (r: Outcome)
    decreases |ts|
  {
    if |done| >= size then Done(done, ts, diff, extra)
    else if ts == [] then Failed(ShortStream)
    else
      var Triple(x, y, z) := ts[0];
      if |done| + x > size then Failed(NewFileOverrun)
      else if x < 0 then Failed(NegativeLength)
      else if x % UINT_LIMIT > |diff| then Failed(ShortStream)
      else if x >= INT_LIMIT then Failed(TooLong)
      else
        var done' := done + AddOld(oldData, diff[..x], oldpos);
        if |done'| + y > size then Failed(NewFileOverrun)
        else if y < 0 then Failed(NegativeLength)
        else if y % UINT_LIMIT > |extra| then Failed(ShortStream)
        else if y >= UINT_LIMIT then Failed(TooLong)
        else Replay(oldData, ts[1..], diff[x..], extra[y..], size, done' + extra[..y], oldpos + x + z)
  }

  /** Every byte of the new file is read from one of the two data streams, and none is read twice or lost. */
  lemma {:induction false} ReplayUses(oldData: seq<Byte>, ts: seq<Triple>, diff: seq<Byte>, extra: seq<Byte>, size: nat,
                                      done: seq<Byte>, oldpos: int)
    ensures var r := Replay(oldData, ts, diff, extra, size, done, oldpos);
            r.Done? ==> |r.data| + |r.diff| + |r.extra| == |done| + |diff| + |extra|
    decreases |ts|
  {
    if |done| < size && ts != [] {
      var Triple(x, y, z) := ts[0];
      if 0 <= x <= |diff| && 0 <= y <= |extra| {
        ReplayUses(oldData, ts[1..], diff[x..], extra[y..], size,
                   done + AddOld(oldData, diff[..x], oldpos) + extra[..y], oldpos + x + z);
      }
    }
  }

  function Record(t: Step): (r: seq<Byte>)
    ensures |r| == 24
  {
    OffOut(|t.d|) + OffOut(|t.e|) + OffOut(t.z)
  }

  /** The control stream of a script: a triple of lengths and a move per step. */
  function Ctrl(script: Script): (r: seq<Byte>) {
    if script.Empty? then [] else Record(script.first) + Ctrl(script.rest)
  }

  function Diff(script: Script): (r: seq<Byte>) {
    if script.Empty? then [] else script.first.d + Diff(script.rest)
  }

  function Extra(script: Script): (r: seq<Byte>) {
    if script.Empty? then [] else script.first.e + Extra(script.rest)
  }

  /** What one step writes when started at oldpos. */
  function Written(oldData: seq<Byte>, t: Step, oldpos: int): (r: seq<Byte>)
    ensures |r| == |t.d| + |t.e|
  {
    AddOld(oldData, t.d, oldpos) + t.e
  }

  function Next(t: Step, oldpos: int): (r: int) {
    oldpos + |t.d| + t.z
  }

  /** What the script writes when started at oldpos. */
  function Output(oldData: seq<Byte>, script: Script, oldpos: int): (r: seq<Byte>) {
    if script.Empty? then []
    else Written(oldData, script.first, oldpos) + Output(oldData, script.rest, Next(script.first, oldpos))
  }

  /** Where the script leaves the position in the old file. */
  function Landing(script: Script, oldpos: int): (r: int) {
    if script.Empty? then oldpos else Landing(script.rest, Next(script.first, oldpos))
  }

  ghost predicate Fits(t: Step) {
    |t.d| < INT_LIMIT && |t.e| < UINT_LIMIT && -SIGNED_LIMIT < t.z < SIGNED_LIMIT
  }

  /** Every length and move survives the control stream and is counted right when it is applied. */
  ghost predicate Encodable(script: Script) {
    script.Empty? || (Fits(script.first) && Encodable(script.rest))
  }

  /** Every step of the script starts while some of the size bytes are still missing. */
  ghost predicate AllNeeded(script: Script, size: int) {
    script.Empty? || (size > 0 && AllNeeded(script.rest, size - |script.first.d| - |script.first.e|))
  }

  lemma Fields(a: seq<Byte>, b: seq<Byte>, c: seq<Byte>, rest: seq<Byte>)
    requires |a| == |b| == |c| == 8
    ensures var w := a + b + c + rest; w[..8] == a && w[8..16] == b && w[16..24] == c && w[24..] == rest
  {
  }

  lemma Cut<T>(a: seq<T>, b: seq<T>)
    ensures (a + b)[..|a|] == a && (a + b)[|a|..] == b
  {
  }

  lemma Assoc<T>(a: seq<T>, b: seq<T>, c: seq<T>)
    ensures (a + b) + c == a + (b + c)
  {
  }

  lemma RecordHead(t: Step, rest: seq<Byte>)
    requires Fits(t)
    ensures Triples(Record(t) + rest) == [Triple(|t.d|, |t.e|, t.z)] + Triples(rest)
  {
    OffsetRoundTrip(|t.d|);
    OffsetRoundTrip(|t.e|);
    OffsetRoundTrip(t.z);
    Fields(OffOut(|t.d|), OffOut(|t.e|), OffOut(t.z), rest);
  }

  /** One turn of the patching loop on the streams of a step. */
  lemma ReplayStep(oldData: seq<Byte>, t: Step, ts: seq<Triple>, diff: seq<Byte>, extra: seq<Byte>, oldpos: int,
                   size: nat, done: seq<Byte>)
    requires |done| < size && |done| + |t.d| + |t.e| <= size && Fits(t)
    ensures Replay(oldData, [Triple(|t.d|, |t.e|, t.z)] + ts, t.d + diff, t.e + extra, size, done, oldpos)
            == Replay(oldData, ts, diff, extra, size, done + Written(oldData, t, oldpos), Next(t, oldpos))
  {
    Cut([Triple(|t.d|, |t.e|, t.z)], ts);
    Cut(t.d, diff);
    Cut(t.e, extra);
    assert done + AddOld(oldData, t.d, oldpos) + t.e == done + Written(oldData, t, oldpos);
  }

  /** Applying a script's streams writes the script's output and uses the streams up. */
  lemma {:induction false} ReplayWrites(oldData: seq<Byte>, script: Script, oldpos: int, size: nat, done: seq<Byte>)
    requires Encodable(script) && AllNeeded(script, size - |done|)
    requires size == |done| + |Output(oldData, script, oldpos)|
    ensures Replay(oldData, Triples(Ctrl(script)), Diff(script), Extra(script), size, done, oldpos)
            == Done(done + Output(oldData, script, oldpos), [], [], [])
    decreases script
  {
    if script.Empty? {
      assert done + [] == done;
    } else {
      var t := script.first;
      var head, rest := Written(oldData, t, oldpos), Output(oldData, script.rest, Next(t, oldpos));
      RecordHead(t, Ctrl(script.rest));
      ReplayStep(oldData, t, Triples(Ctrl(script.rest)), Diff(script.rest), Extra(script.rest), oldpos, size, done);
      ReplayWrites(oldData, script.rest, Next(t, oldpos), size, done + head);
      Assoc(done, head, rest);
    }
  }

  function Append(script: Script, t: Step): (r: Script) {
    if script.Empty? then Run(t, Empty) else Run(script.first, Append(script.rest, t))
  }

  /** What one more step at the end does to the streams. */
  lemma {:induction false} AppendStreams(script: Script, t: Step)
    ensures Ctrl(Append(script, t)) == Ctrl(script) + Record(t)
    ensures Diff(Append(script, t)) == Diff(script) + t.d
    ensures Extra(Append(script, t)) == Extra(script) + t.e
  {
    if script.Empty? {
      assert Record(t) + [] == [] + Record(t) && t.d + [] == [] + t.d && t.e + [] == [] + t.e;
    } else {
      AppendStreams(script.rest, t);
      Assoc(Record(script.first), Ctrl(script.rest), Record(t));
      Assoc(script.first.d, Diff(script.rest), t.d);
      Assoc(script.first.e, Extra(script.rest), t.e);
    }
  }

  /** What one more step at the end does to the output and the position. */
  lemma {:induction false} AppendOutput(oldData: seq<Byte>, script: Script, oldpos: int, t: Step)
    ensures Landing(Append(script, t), oldpos) == Next(t, Landing(script, oldpos))
    ensures Output(oldData, Append(script, t), oldpos)
            == Output(oldData, script, oldpos) + Written(oldData, t, Landing(script, oldpos))
  {
    if script.Empty? {
      var w := Written(oldData, t, oldpos);
      assert w + [] == [] + w;
    } else {
      var next := Next(script.first, oldpos);
      AppendOutput(oldData, script.rest, next, t);
      Assoc(Written(oldData, script.first, oldpos), Output(oldData, script.rest, next),
            Written(oldData, t, Landing(script.rest, next)));
    }
  }

  lemma {:induction false} AppendNeeded(oldData: seq<Byte>, script: Script, oldpos: int, t: Step, size: int)
    requires AllNeeded(script, size) && |Output(oldData, script, oldpos)| < size
    ensures AllNeeded(Append(script, t), size)
  {
    if !script.Empty? {
      AppendNeeded(oldData, script.rest, Next(script.first, oldpos), t, size - |script.first.d| - |script.first.e|);
    }
  }

  lemma {:induction false} AppendEncodable(script: Script, t: Step)
    requires Encodable(script) && Fits(t)
    ensures Encodable(Append(script, t))
  {
    if !script.Empty? { AppendEncodable(script.rest, t); }
  }
}
