/** Installing one patched file, so that it can be started over after losing power at any point. */
module ApplyPatch {
  import opened Bytes
  import opened Storage
  import opened FreeCache
  import opened BsPatch
  import opened ImageChunks
  import opened ImagePatch
  import BsDiff
  import PatchStreams

  type Digest = seq<Byte>

  /** A patch argument: binary data, or text, which is an error. */
  datatype Value = Blob(data: seq<Byte>) | Text

  /** What the program computes with: the hash, zlib and bzip2. */
  datatype Tools = Tools(sha: seq<Byte> -> Digest, z: Zlib, unpack: seq<Byte> -> seq<Byte>)

  /** The arguments; a hash is None when its text does not parse. */
  datatype Order = Order(source: Path, target: Path, targetSha: Option<Digest>, patchSha: seq<Option<Digest>>,
                         patches: seq<Value>)

  function Temp(target: Path): (r: Path) {
    target + ".patch"
  }

  /** One patch per hash; source and target are outside /cache, and the names used are distinct. */
  ghost predicate WellPlaced(o: Order) {
    && |o.patchSha| == |o.patches|
    && !UnderCache(o.source) && !UnderCache(o.target) && !UnderCache(Temp(o.target)) && o.source != Temp(o.target)
  }

  /** What applying a patch writes, and whether it reports success. */
  datatype Made = Unknown | Made(ok: bool, pieces: seq<Piece>)

  /** The patch format is told by its first eight bytes. */
  function ApplyBlob(t: Tools, content: seq<Byte>, blob: seq<Byte>): (r: Made) {
    if |blob| >= 8 && blob[..8] == BSDIFF_MAGIC then
      var p := PatchFile(content, blob, 0, t.unpack);
      if p.Done? then Made(true, [Piece(p.data, false)]) else Made(false, [])
    else if |blob| >= 8 && blob[..8] == IMGDIFF_MAGIC then
      Made(ApplyFile(content, blob, t.z, t.unpack).Emitted?, FilePieces(content, blob, t.z, t.unpack))
    else Unknown
  }

  /** Applying the patch works, and writes out. */
  ghost predicate Gives(t: Tools, content: seq<Byte>, blob: seq<Byte>, out: seq<Byte>) {
    var m := ApplyBlob(t, content, blob);
    m.Made? && m.ok && Joined(m.pieces) == out
  }

  lemma JoinedOne(bytes: seq<Byte>, plain: bool)
    ensures Joined([Piece(bytes, plain)]) == bytes
  {
    assert [Piece(bytes, plain)][1..] == [];
    assert bytes + [] == bytes;
  }

  /** A patch that bsdiff made is applied to give the new contents. */
  lemma BsDiffInstalls(t: Tools, c: Coder, oldData: seq<Byte>, newData: seq<Byte>, blob: seq<Byte>)
    requires t.unpack == c.unpack && BsDiff.Rebuilds(c, oldData, newData, blob)
    ensures Gives(t, oldData, blob, newData)
  {
    var none: seq<Byte> := [];
    assert none + blob + none == blob && |none| == 0;
    assert PatchFile(oldData, none + blob + none, |none|, c.unpack)
           == PatchStreams.Done(newData, [], [], []);
    assert blob[0..8] == blob[..8];
    JoinedOne(newData, false);
  }

  /** A patch that imgdiff made is applied to give the new contents. */
  lemma ImgDiffInstalls(t: Tools, oldData: seq<Byte>, newData: seq<Byte>, blob: seq<Byte>)
    requires ApplyFile(oldData, blob, t.z, t.unpack) == Emitted(newData)
    ensures Gives(t, oldData, blob, newData)
  {
    assert blob[..8][0] == 73 && BSDIFF_MAGIC[0] == 66;
    FilePiecesJoin(oldData, blob, t.z, t.unpack);
  }

  /** The number of the first patch for contents with this hash. */
  function FindMatch(patchSha: seq<Option<Digest>>, d: Digest, i: nat): (r: Option<nat>)
    requires i <= |patchSha|
    ensures r.Some? ==> i <= r.value < |patchSha| && patchSha[r.value] == Some(d)
    ensures forall k :: i <= k < (if r.Some? then r.value else |patchSha|) ==> patchSha[k] != Some(d)
    decreases |patchSha| - i
  {
    if i == |patchSha| then None else if patchSha[i] == Some(d) then Some(i) else FindMatch(patchSha, d, i + 1)
  }

  method FindMatchingPatch(patchSha: seq<Option<Digest>>, d: Digest) returns (r: int)
    ensures r == var m := FindMatch(patchSha, d, 0); if m.Some? then m.value else -1
  {
    var i := 0;
    while i < |patchSha|
      invariant i <= |patchSha| && FindMatch(patchSha, d, 0) == FindMatch(patchSha, d, i)
    {
      if patchSha[i] == Some(d) { return i; }
      i := i + 1;
    }
    return -1;
  }

  function Match(t: Tools, o: Order, content: seq<Byte>): (r: Option<nat>) {
    FindMatch(o.patchSha, t.sha(content), 0)
  }

  // ----- What a device takes of a patch's output -----

  /** How many bytes the device takes of the pieces that it does not take whole, by number. */
  type Cuts = map<nat, nat>

  /** What ends up in the file, what goes into the hash, and whether the patch counts as applied. */
  datatype Sunk = Sunk(taken: seq<Byte>, hashed: seq<Byte>, ok: bool)

  /** A piece that is cut short ends the run, but if it is a plain one, the next is written behind it,
      and nothing of it goes into the hash. */
  function Sink(ps: seq<Piece>, cuts: Cuts): (r: Sunk)
    decreases |ps|
  {
    if ps == [] then Sunk([], [], true)
    else
      var i := |ps| - 1;
      var s, p := Sink(ps[..i], cuts), ps[i];
      if !s.ok then s
      else if i in cuts && cuts[i] < |p.bytes| then Sunk(s.taken + p.bytes[..cuts[i]], s.hashed, p.plain)
      else Sunk(s.taken + p.bytes, s.hashed + p.bytes, true)
  }

  lemma {:induction false} JoinedNext(ps: seq<Piece>, p: Piece)
    ensures Joined(ps + [p]) == Joined(ps) + p.bytes
  {
    if ps == [] {
      JoinedOne(p.bytes, p.plain);
      assert ps + [p] == [Piece(p.bytes, p.plain)];
    } else {
      JoinedNext(ps[1..], p);
      assert (ps + [p])[1..] == ps[1..] + [p];
    }
  }

  /** A device that takes everything gets the whole output, and all of it is hashed. */
  lemma {:induction false} SinkWhole(ps: seq<Piece>)
    ensures Sink(ps, map[]) == Sunk(Joined(ps), Joined(ps), true)
    decreases |ps|
  {
    if ps != [] {
      var i := |ps| - 1;
      SinkWhole(ps[..i]);
      JoinedNext(ps[..i], ps[i]);
      assert ps[..i] + [ps[i]] == ps;
    }
  }

  /** If as much is hashed as the patch gives, nothing was cut. */
  lemma {:induction false} SinkAll(ps: seq<Piece>, cuts: Cuts)
    requires Sink(ps, cuts).ok
    ensures var s := Sink(ps, cuts);
            |s.hashed| <= |Joined(ps)| && (|s.hashed| == |Joined(ps)| ==> s.taken == s.hashed == Joined(ps))
    decreases |ps|
  {
    if ps != [] {
      var i := |ps| - 1;
      if Sink(ps[..i], cuts).ok { SinkAll(ps[..i], cuts); }
      JoinedNext(ps[..i], ps[i]);
      assert ps[..i] + [ps[i]] == ps;
    }
  }

  lemma {:induction false} SinkSame(ps: seq<Piece>, cuts: Cuts, i: nat, k: nat)
    requires |ps| <= i
    ensures Sink(ps, cuts[i := k]) == Sink(ps, cuts)
    decreases |ps|
  {
    if ps != [] { SinkSame(ps[..|ps| - 1], cuts, i, k); }
  }

  /** One more piece that is taken whole. */
  lemma SinkNext(ps: seq<Piece>, i: nat, cuts: Cuts)
    requires i < |ps| && i !in cuts && Sink(ps[..i], cuts).ok
    ensures var s := Sink(ps[..i], cuts);
            Sink(ps[..i + 1], cuts) == Sunk(s.taken + ps[i].bytes, s.hashed + ps[i].bytes, true)
  {
    assert ps[..i + 1][..i] == ps[..i];
  }

  /** One more piece that is cut. */
  lemma SinkCut(ps: seq<Piece>, i: nat, cuts: Cuts, k: nat)
    requires i < |ps| && k < |ps[i].bytes| && Sink(ps[..i], cuts).ok
    ensures var s := Sink(ps[..i], cuts);
            Sink(ps[..i + 1], cuts[i := k]) == Sunk(s.taken + ps[i].bytes[..k], s.hashed, ps[i].plain)
  {
    assert ps[..i + 1][..i] == ps[..i];
    SinkSame(ps[..i], cuts, i, k);
  }

  /** Behind a piece that ended the run nothing is written. */
  lemma {:induction false} SinkEnded(ps: seq<Piece>, n: nat, cuts: Cuts)
    requires n <= |ps| && !Sink(ps[..n], cuts).ok
    ensures Sink(ps, cuts) == Sink(ps[..n], cuts)
    decreases |ps|
  {
    if n < |ps| {
      assert ps[..|ps| - 1][..n] == ps[..n];
      SinkEnded(ps[..|ps| - 1], n, cuts);
    } else {
      assert ps[..n] == ps;
    }
  }

  // ----- What a run does, as a list of effects -----

  /** What to patch: contents, patch, and whether they come from the source or from the saved copy. */
  datatype Choice = Choice(content: seq<Byte>, patch: Value, fromSource: bool) | NoChoice

  /** The source is used if it matches a patch; else the saved copy, but not if it matches the
      first patch. */
  function Choose(t: Tools, o: Order, fs: Files): (r: Choice)
    requires |o.patchSha| == |o.patches|
  {
    if o.source in fs && Match(t, o, fs[o.source]).Some? then
      Choice(fs[o.source], o.patches[Match(t, o, fs[o.source]).value], true)
    else if CACHE_TEMP_SOURCE in fs && Match(t, o, fs[CACHE_TEMP_SOURCE]).Some?
        && Match(t, o, fs[CACHE_TEMP_SOURCE]).value > 0 then
      Choice(fs[CACHE_TEMP_SOURCE], o.patches[Match(t, o, fs[CACHE_TEMP_SOURCE]).value], false)
    else NoChoice
  }

  /** The files given up on /cache, and whether that was enough. */
  datatype Reclaim = Reclaim(deleted: seq<Path>, enough: bool)

  datatype Plan = Plan(effects: seq<Effect>, code: int)

  /** Moving the source out of the way. */
  function SaveAside(o: Order, content: seq<Byte>): (r: seq<Effect>) {
    WriteFile(CACHE_TEMP_SOURCE, content) + [Unlink(o.source)]
  }

  /** Making the target from chosen contents, on a device that makes these cuts. */
  function Produce(t: Tools, o: Order, want: Digest, ch: Choice, cuts: Cuts): (r: Plan)
    requires ch.Choice?
  {
    if ch.patch.Text? then Plan([], 1)
    else
      var m := ApplyBlob(t, ch.content, ch.patch.data);
      if m.Unknown? then Plan([Create(Temp(o.target))], 1)
      else
        var s := Sink(m.pieces, cuts);
        var written := WriteFile(Temp(o.target), s.taken);
        if !m.ok || !s.ok || t.sha(s.hashed) != want then Plan(written, 1)
        else
          Plan(written + [Rename(Temp(o.target), o.target)] + (if ch.fromSource then [Unlink(CACHE_TEMP_SOURCE)]
                                                               else []), 0)
  }

  function Prepare(o: Order, ch: Choice, rc: Reclaim): (r: seq<Effect>)
    requires ch.Choice?
  {
    if ch.fromSource then Unlinks(rc.deleted) + SaveAside(o, ch.content) else []
  }

  /** A whole run on these files. */
  function Run(t: Tools, o: Order, fs: Files, rc: Reclaim, cuts: Cuts): (r: Plan)
    requires |o.patchSha| == |o.patches|
  {
    if o.targetSha.None? then Plan([], 1)
    else if o.target in fs && t.sha(fs[o.target]) == o.targetSha.value then Plan([], 0)
    else
      var ch := Choose(t, o, fs);
      if ch.NoChoice? then Plan([], 1)
      else if ch.fromSource && !rc.enough then Plan(Unlinks(rc.deleted), 1)
      else
        var p := Produce(t, o, o.targetSha.value, ch, cuts);
        Plan(Prepare(o, ch, rc) + p.effects, p.code)
  }

  // ----- Nothing is lost -----

  /** The files given up are neither the saved copy nor outside /cache. */
  ghost predicate Harmless(rc: Reclaim) {
    forall p :: p in rc.deleted ==> UnderCache(p) && p != CACHE_TEMP_SOURCE
  }

  ghost predicate AtTarget(t: Tools, o: Order, fs: Files) {
    o.targetSha.Some? && o.target in fs && t.sha(fs[o.target]) == o.targetSha.value
  }

  /** The old contents are at the source, or, with the source gone, in the saved copy, or the
      target is there. */
  ghost predicate Safe(t: Tools, o: Order, content: seq<Byte>, fs: Files) {
    || (o.source in fs && fs[o.source] == content)
    || (o.source !in fs && CACHE_TEMP_SOURCE in fs && fs[CACHE_TEMP_SOURCE] == content)
    || AtTarget(t, o, fs)
  }

  /** All states while the effects take place, one after the other, are safe. */
  ghost predicate Throughout(t: Tools, o: Order, content: seq<Byte>, fs: Files, es: seq<Effect>)
    decreases |es|
  {
    Safe(t, o, content, fs) && (es != [] ==> Throughout(t, o, content, Do(fs, es[0]), es[1..]))
  }

  lemma {:induction false} ThroughoutPrefix(t: Tools, o: Order, content: seq<Byte>, fs: Files, es: seq<Effect>, n: nat)
    requires Throughout(t, o, content, fs, es) && n <= |es|
    ensures Safe(t, o, content, DoAll(fs, es[..n]))
    decreases n
  {
    if n > 0 {
      assert es[..n][1..] == es[1..][..n - 1];
      ThroughoutPrefix(t, o, content, Do(fs, es[0]), es[1..], n - 1);
    }
  }

  lemma {:induction false} ThroughoutAppend(t: Tools, o: Order, content: seq<Byte>, fs: Files, a: seq<Effect>,
                                            b: seq<Effect>)
    requires Throughout(t, o, content, fs, a) && Throughout(t, o, content, DoAll(fs, a), b)
    ensures Throughout(t, o, content, fs, a + b)
    decreases |a|
  {
    if a == [] {
      assert a + b == b;
    } else {
      assert (a + b)[1..] == a[1..] + b;
      ThroughoutAppend(t, o, content, Do(fs, a[0]), a[1..], b);
    }
  }

  /** Effects on other files keep a safe state safe: the source case. */
  lemma {:induction false} SourceKept(t: Tools, o: Order, content: seq<Byte>, fs: Files, es: seq<Effect>)
    requires o.source in fs && fs[o.source] == content && Untouched(es, o.source)
    ensures Throughout(t, o, content, fs, es)
    decreases |es|
  {
    if es != [] {
      assert !Touches(es[0], o.source);
      SourceKept(t, o, content, Do(fs, es[0]), es[1..]);
    }
  }

  lemma {:induction false} CopyKept(t: Tools, o: Order, content: seq<Byte>, fs: Files, es: seq<Effect>)
    requires o.source !in fs && CACHE_TEMP_SOURCE in fs && fs[CACHE_TEMP_SOURCE] == content
    requires Untouched(es, o.source) && Untouched(es, CACHE_TEMP_SOURCE)
    ensures Throughout(t, o, content, fs, es)
    decreases |es|
  {
    if es != [] {
      assert !Touches(es[0], o.source) && !Touches(es[0], CACHE_TEMP_SOURCE);
      CopyKept(t, o, content, Do(fs, es[0]), es[1..]);
    }
  }

  lemma UntouchedJoin(a: seq<Effect>, b: seq<Effect>, p: Path)
    requires Untouched(a, p) && Untouched(b, p)
    ensures Untouched(a + b, p)
  {
  }

  /** Reaching the target is never undone. */
  lemma TargetKept(t: Tools, o: Order, content: seq<Byte>, fs: Files, es: seq<Effect>)
    requires AtTarget(t, o, fs) && Untouched(es, o.target) && |es| <= 1
    ensures Throughout(t, o, content, fs, es) && AtTarget(t, o, DoAll(fs, es))
  {
    UntouchedSame(fs, es, o.target);
    if es != [] { assert !Touches(es[0], o.target); }
  }

  /** If what goes into the hash is taken for the target, what is in the file is the target. */
  ghost predicate Honest(t: Tools, want: Digest, ch: Choice, cuts: Cuts)
    requires ch.Choice?
  {
    ch.patch.Blob? ==>
      var m := ApplyBlob(t, ch.content, ch.patch.data);
      m.Made? && m.ok ==>
        var s := Sink(m.pieces, cuts);
        s.ok && t.sha(s.hashed) == want ==> t.sha(s.taken) == want
  }

  /** Making the target from a safe place keeps everything safe. */
  lemma ProduceSafe(t: Tools, o: Order, content: seq<Byte>, fs: Files, ch: Choice, cuts: Cuts)
    requires WellPlaced(o) && o.targetSha.Some? && ch.Choice? && Honest(t, o.targetSha.value, ch, cuts)
    requires o.source !in fs && CACHE_TEMP_SOURCE in fs && fs[CACHE_TEMP_SOURCE] == content
    ensures var p := Produce(t, o, o.targetSha.value, ch, cuts);
            Throughout(t, o, content, fs, p.effects) && (p.code == 0 ==> AtTarget(t, o, DoAll(fs, p.effects)))
  {
    hide Throughout, ApplyBlob, Sink;
    var p, tmp := Produce(t, o, o.targetSha.value, ch, cuts), Temp(o.target);
    if p.code != 0 {
      CopyKept(t, o, content, fs, p.effects);
    } else {
      var out := Sink(ApplyBlob(t, ch.content, ch.patch.data).pieces, cuts).taken;
      var w, last := WriteFile(tmp, out), if ch.fromSource then [Unlink(CACHE_TEMP_SOURCE)] else [];
      CopyKept(t, o, content, fs, w);
      RenameSafe(t, o, content, fs, out, last);
      assert p.effects == w + ([Rename(tmp, o.target)] + last);
    }
  }

  /** The steps from the written file to the target. */
  lemma RenameSafe(t: Tools, o: Order, content: seq<Byte>, fs: Files, out: seq<Byte>, last: seq<Effect>)
    requires WellPlaced(o) && o.targetSha.Some? && t.sha(out) == o.targetSha.value
    requires last == [] || last == [Unlink(CACHE_TEMP_SOURCE)]
    requires o.source !in fs && CACHE_TEMP_SOURCE in fs && fs[CACHE_TEMP_SOURCE] == content
    requires Throughout(t, o, content, fs, WriteFile(Temp(o.target), out))
    ensures var es := WriteFile(Temp(o.target), out) + ([Rename(Temp(o.target), o.target)] + last);
            Throughout(t, o, content, fs, es) && AtTarget(t, o, DoAll(fs, es))
  {
    var tmp := Temp(o.target);
    var w, rename := WriteFile(tmp, out), Rename(tmp, o.target);
    WriteFileWrites(fs, tmp, out);
    UntouchedSame(fs, w, o.source);
    UntouchedSame(fs, w, CACHE_TEMP_SOURCE);
    var fs1 := DoAll(fs, w);
    assert AtTarget(t, o, Do(fs1, rename));
    TargetKept(t, o, content, Do(fs1, rename), last);
    var es := [rename] + last;
    assert es[0] == rename && es[1..] == last;
    ThroughoutAppend(t, o, content, fs, w, es);
    DoAllAppend(fs, w, es);
  }

  /** Saving the source aside: first the source holds the contents, then the copy does. */
  lemma SaveAsideSafe(t: Tools, o: Order, content: seq<Byte>, fs: Files, rc: Reclaim)
    requires WellPlaced(o) && Harmless(rc) && o.source in fs && fs[o.source] == content
    ensures var es := Unlinks(rc.deleted) + SaveAside(o, content); var r := DoAll(fs, es);
            && Throughout(t, o, content, fs, es)
            && o.source !in r && CACHE_TEMP_SOURCE in r && r[CACHE_TEMP_SOURCE] == content
  {
    var u, w, last := Unlinks(rc.deleted), WriteFile(CACHE_TEMP_SOURCE, content), [Unlink(o.source)];
    UntouchedJoin(u, w, o.source);
    SourceKept(t, o, content, fs, u + w);
    DoAllAppend(fs, u, w);
    WriteFileWrites(DoAll(fs, u), CACHE_TEMP_SOURCE, content);
    UntouchedSame(fs, u + w, o.source);
    var fs1 := DoAll(fs, u + w);
    var fs2 := Do(fs1, last[0]);
    assert last[1..] == [] && DoAll(fs1, last) == DoAll(fs2, []) == fs2;
    assert Throughout(t, o, content, fs2, []);
    ThroughoutAppend(t, o, content, fs, u + w, last);
    DoAllAppend(fs, u + w, last);
    assert u + SaveAside(o, content) == u + w + last;
  }

  /** What a run makes the target from when it is given these contents. */
  function ChoiceFor(t: Tools, o: Order, content: seq<Byte>, fromSource: bool): (r: Choice)
    requires |o.patchSha| == |o.patches| && Match(t, o, content).Some?
  {
    Choice(content, o.patches[Match(t, o, content).value], fromSource)
  }

  /** The cuts do not make a file that is not the target pass for it. */
  ghost predicate HonestFor(t: Tools, o: Order, content: seq<Byte>, cuts: Cuts)
    requires |o.patchSha| == |o.patches| && Match(t, o, content).Some?
  {
    o.targetSha.Some? ==> Honest(t, o.targetSha.value, ChoiceFor(t, o, content, true), cuts)
  }

  /** A run whose output is taken whole is honest. So is every run when the patch is good and the hash tells its
      output from what is left of it without some plain pieces. */
  lemma HonestWhen(t: Tools, o: Order, content: seq<Byte>, cuts: Cuts)
    requires |o.patchSha| == |o.patches| && Match(t, o, content).Some?
    requires || cuts == map[]
             || (PatchGood(t, o, content) &&
                 var ps := ApplyBlob(t, content, o.patches[Match(t, o, content).value].data).pieces;
                 t.sha(Sink(ps, cuts).hashed) == t.sha(Joined(ps)) ==> Sink(ps, cuts).hashed == Joined(ps))
    ensures HonestFor(t, o, content, cuts)
  {
    var patch := o.patches[Match(t, o, content).value];
    if patch.Blob? && ApplyBlob(t, content, patch.data).Made? {
      var ps := ApplyBlob(t, content, patch.data).pieces;
      SinkWhole(ps);
      if Sink(ps, cuts).ok { SinkAll(ps, cuts); }
    }
  }

  /** From a safe state, an honest run is safe all the way, wherever it is cut off. */
  lemma RunSafe(t: Tools, o: Order, content: seq<Byte>, fs: Files, rc: Reclaim, cuts: Cuts)
    requires WellPlaced(o) && Harmless(rc) && Safe(t, o, content, fs) && Match(t, o, content).Some?
    requires HonestFor(t, o, content, cuts)
    ensures Throughout(t, o, content, fs, Run(t, o, fs, rc, cuts).effects)
  {
    hide Throughout, ApplyBlob, Sink;
    var r, ch := Run(t, o, fs, rc, cuts), Choose(t, o, fs);
    if r.effects == [] {
      NothingDone(t, o, content, fs);
    } else if ch.fromSource {
      assert fs[o.source] == ch.content == content;
      if !rc.enough {
        SourceKept(t, o, content, fs, r.effects);
      } else {
        SaveAsideSafe(t, o, content, fs, rc);
        var fs1 := DoAll(fs, Prepare(o, ch, rc));
        ProduceSafe(t, o, content, fs1, ch, cuts);
        ThroughoutAppend(t, o, content, fs, Prepare(o, ch, rc), Produce(t, o, o.targetSha.value, ch, cuts).effects);
      }
    } else {
      ProduceSafe(t, o, content, fs, ch, cuts);
      assert Prepare(o, ch, rc) + Produce(t, o, o.targetSha.value, ch, cuts).effects
             == Produce(t, o, o.targetSha.value, ch, cuts).effects;
    }
  }

  /** What the device takes of the output. */
  function TakenFor(t: Tools, o: Order, content: seq<Byte>, cuts: Cuts): (r: seq<Byte>)
    requires |o.patchSha| == |o.patches| && Match(t, o, content).Some?
  {
    var patch := ChoiceFor(t, o, content, true).patch;
    if patch.Blob? && ApplyBlob(t, content, patch.data).Made? then
        Sink(ApplyBlob(t, content, patch.data).pieces, cuts).taken
    else []
  }

  /** When a run on the source is safe all the way: if and only if it is honest, or by chance puts the old
      contents back where they were. */
  lemma SafeExactly(t: Tools, o: Order, content: seq<Byte>, fs: Files, rc: Reclaim, cuts: Cuts)
    requires WellPlaced(o) && Harmless(rc) && rc.enough && o.targetSha.Some? && Match(t, o, content).Some?
    requires o.source in fs && fs[o.source] == content && !AtTarget(t, o, fs)
    ensures Throughout(t, o, content, fs, Run(t, o, fs, rc, cuts).effects)
            <==> HonestFor(t, o, content, cuts) || (o.source == o.target && TakenFor(t, o, content, cuts) == content)
  {
    hide Throughout, ApplyBlob, Sink;
    if HonestFor(t, o, content, cuts) {
      RunSafe(t, o, content, fs, rc, cuts);
    } else {
      var ch, prepare := ChoiceFor(t, o, content, true), Prepare(o, ChoiceFor(t, o, content, true), rc);
      var p, es := Produce(t, o, o.targetSha.value, ch, cuts).effects, Run(t, o, fs, rc, cuts).effects;
      SaveAsideSafe(t, o, content, fs, rc);
      var fs1 := DoAll(fs, prepare);
      DoAllAppend(fs, prepare, p);
      assert p == Finish(o, TakenFor(t, o, content, cuts)) && es == prepare + p;
      assert es[..|es|] == es;
      PassedOff(t, o, fs1, TakenFor(t, o, content, cuts));
      if o.source == o.target && TakenFor(t, o, content, cuts) == content {
        PutBack(t, o, content, fs1);
        ThroughoutAppend(t, o, content, fs, prepare, p);
      } else if Throughout(t, o, content, fs, es) {
        ThroughoutPrefix(t, o, content, fs, es, |es|);
      }
    }
  }

  /** The last steps of a run on the source. */
  function Finish(o: Order, out: seq<Byte>): (r: seq<Effect>) {
    WriteFile(Temp(o.target), out) + ([Rename(Temp(o.target), o.target)] + [Unlink(CACHE_TEMP_SOURCE)])
  }

  /** After them only the target is left, with what was written. */
  lemma PassedOff(t: Tools, o: Order, fs: Files, out: seq<Byte>)
    requires WellPlaced(o) && o.source !in fs
    ensures var r := DoAll(fs, Finish(o, out));
            && o.target in r && r[o.target] == out && CACHE_TEMP_SOURCE !in r
               && (o.source != o.target ==> o.source !in r)
  {
    var tmp := Temp(o.target);
    var w, last := WriteFile(tmp, out), [Rename(tmp, o.target)] + [Unlink(CACHE_TEMP_SOURCE)];
    WriteFileWrites(fs, tmp, out);
    UntouchedSame(fs, w, o.source);
    DoAllAppend(fs, w, last);
    var fs1 := DoAll(fs, w);
    assert last[1..] == [Unlink(CACHE_TEMP_SOURCE)] && last[1..][1..] == [];
    var fs2 := Do(fs1, last[0]);
    assert DoAll(fs1, last) == DoAll(fs2, last[1..]) == Do(fs2, last[1]);
  }

  lemma PutBack(t: Tools, o: Order, content: seq<Byte>, fs: Files)
    requires WellPlaced(o) && o.source == o.target
    requires o.source !in fs && CACHE_TEMP_SOURCE in fs && fs[CACHE_TEMP_SOURCE] == content
    ensures Throughout(t, o, content, fs, Finish(o, content))
  {
    var tmp := Temp(o.target);
    var w, rename, last := WriteFile(tmp, content), Rename(tmp, o.target), [Unlink(CACHE_TEMP_SOURCE)];
    CopyKept(t, o, content, fs, w);
    WriteFileWrites(fs, tmp, content);
    UntouchedSame(fs, w, o.source);
    UntouchedSame(fs, w, CACHE_TEMP_SOURCE);
    var fs1 := DoAll(fs, w);
    SourceKept(t, o, content, Do(fs1, rename), last);
    var es := [rename] + last;
    assert es[0] == rename && es[1..] == last;
    ThroughoutAppend(t, o, content, fs, w, es);
  }

  /** A run that loses the old contents: the patch writes x by patching and then y as it is, y has the hash
      asked for, and of x the device takes one byte. */
  lemma TornRun(
    t: Tools, c: Coder, o: Order, content: seq<Byte>, fs: Files, rc: Reclaim, patch: seq<Byte>, x: seq<Byte>,
    y: seq<Byte>)
    requires TornOrder(t, c, o, content, patch, x, y)
    requires WellPlaced(o) && Harmless(rc) && rc.enough && !AtTarget(t, o, fs)
    requires o.source in fs && fs[o.source] == content && (o.source != o.target || x[..1] + y != content)
    ensures Safe(t, o, content, fs) && !HonestFor(t, o, content, map[0 := 1])
    ensures !Throughout(t, o, content, fs, Run(t, o, fs, rc, map[0 := 1]).effects)
  {
    hide HonestFor, TakenFor, Throughout, Run, TornOrder;
    TornTaken(t, c, o, content, patch, x, y);
    SafeExactly(t, o, content, fs, rc, map[0 := 1]);
  }

  /** The patch file asked for, and a hash that tells what the device takes of its output from y. */
  ghost predicate TornOrder(
    t: Tools, c: Coder, o: Order, content: seq<Byte>, patch: seq<Byte>, x: seq<Byte>, y: seq<Byte>)
  {
    && t.unpack == c.unpack && |x| > 1 && BsDiff.Rebuilds(c, content, x, patch)
    && |content| < 0x8000_0000 && |y| < 0x8000_0000
    && o.targetSha == Some(t.sha(y)) && t.sha(x[..1] + y) != t.sha(y) && o.patchSha == [Some(t.sha(content))]
    && var file := FileOf([Patched(0, |content|, patch), Raw(y)]);
       |file| < 0x8000_0000 && o.patches == [Blob(file)]
  }

  lemma TornTaken(t: Tools, c: Coder, o: Order, content: seq<Byte>, patch: seq<Byte>, x: seq<Byte>, y: seq<Byte>)
    requires TornOrder(t, c, o, content, patch, x, y)
    ensures Match(t, o, content).Some? && o.targetSha.Some? && |o.patchSha| == |o.patches|
    ensures !HonestFor(t, o, content, map[0 := 1]) && TakenFor(t, o, content, map[0 := 1]) == x[..1] + y
  {
    var rs, bs, cuts: Cuts := [Patched(0, |content|, patch), Raw(y)], [x, y], map[0 := 1];
    var file := FileOf(rs);
    assert content[0..0 + |content|] == content;
    assert Works(content, t.z, c, rs[0], bs[0]) && Works(content, t.z, c, rs[1], bs[1]);
    WrittenPieces(content, t.z, c, rs, bs);
    ApplyWritten(content, t.z, c, rs, bs, 2);
    MagicOf(rs);
    var ps := FilePieces(content, file, t.z, t.unpack);
    TwoPieces(rs, bs);
    assert ApplyBlob(t, content, file) == Made(true, ps);
    SinkTwo(x, y);
  }

  lemma MagicOf(rs: seq<Rec>)
    ensures |FileOf(rs)| >= 8 && FileOf(rs)[..8] == IMGDIFF_MAGIC != BSDIFF_MAGIC
  {
    assert IMGDIFF_MAGIC[0] == 73 && BSDIFF_MAGIC[0] == 66;
  }

  lemma TwoPieces(rs: seq<Rec>, bs: seq<seq<Byte>>)
    requires |rs| == |bs| == 2
    ensures PiecesOf(rs, bs, 0) == [Piece(bs[0], rs[0].Patched?), Piece(bs[1], rs[1].Patched?)]
  {
    assert PiecesOf(rs, bs, 2) == [];
    assert PiecesOf(rs, bs, 1) == [Piece(bs[1], rs[1].Patched?)];
  }

  lemma SinkTwo(x: seq<Byte>, y: seq<Byte>)
    requires |x| > 1
    ensures Sink([Piece(x, true), Piece(y, false)], map[0 := 1]) == Sunk(x[..1] + y, y, true)
  {
    var ps := [Piece(x, true), Piece(y, false)];
    var cuts: Cuts := map[0 := 1];
    assert ps[..1][..0] == [] && Sink([], cuts) == Sunk([], [], true);
    assert Sink(ps[..1], cuts) == Sunk([] + x[..1], [], true);
    assert [] + x[..1] == x[..1] && [] + y == y;
  }

  lemma NothingDone(t: Tools, o: Order, content: seq<Byte>, fs: Files)
    requires Safe(t, o, content, fs)
    ensures Throughout(t, o, content, fs, [])
  {
  }

  // ----- Starting over -----

  /** Power is lost after n effects of a run, on a device that makes these cuts. */
  datatype Loss = Loss(rc: Reclaim, cuts: Cuts, n: nat)

  /** The files after a run that is cut off. */
  function CutOff(t: Tools, o: Order, fs: Files, c: Loss): (r: Files)
    requires |o.patchSha| == |o.patches|
  {
    var es := Run(t, o, fs, c.rc, c.cuts).effects;
    DoAll(fs, if c.n <= |es| then es[..c.n] else es)
  }

  /** The files after any number of runs, each cut off somewhere. */
  function After(t: Tools, o: Order, fs: Files, cs: seq<Loss>): (r: Files)
    requires |o.patchSha| == |o.patches|
    decreases |cs|
  {
    if cs == [] then fs else After(t, o, CutOff(t, o, fs, cs[0]), cs[1..])
  }

  /** No run deletes what it must not, and no cut makes a file that is not the target pass for it. */
  ghost predicate AllHarmless(t: Tools, o: Order, content: seq<Byte>, cs: seq<Loss>)
    requires |o.patchSha| == |o.patches| && Match(t, o, content).Some?
  {
    forall i :: 0 <= i < |cs| ==> Harmless(cs[i].rc) && HonestFor(t, o, content, cs[i].cuts)
  }

  /** However often power is lost and at whatever points, the old contents are at the source or in
      the saved copy, or the target is there. */
  lemma {:induction false} NeverLost(t: Tools, o: Order, content: seq<Byte>, fs: Files, cs: seq<Loss>)
    requires WellPlaced(o) && Safe(t, o, content, fs) && Match(t, o, content).Some? && AllHarmless(t, o, content, cs)
    ensures Safe(t, o, content, After(t, o, fs, cs))
    decreases |cs|
  {
    if cs != [] {
      var es, n := Run(t, o, fs, cs[0].rc, cs[0].cuts).effects, cs[0].n;
      assert Harmless(cs[0].rc);
      RunSafe(t, o, content, fs, cs[0].rc, cs[0].cuts);
      assert es[..|es|] == es;
      ThroughoutPrefix(t, o, content, fs, es, if n <= |es| then n else |es|);
      NeverLost(t, o, content, CutOff(t, o, fs, cs[0]), cs[1..]);
    }
  }

  /** The patch that is chosen for these contents makes the target. */
  ghost predicate PatchGood(t: Tools, o: Order, content: seq<Byte>)
    requires |o.patchSha| == |o.patches|
  {
    && o.targetSha.Some? && Match(t, o, content).Some?
    && var patch := o.patches[Match(t, o, content).value];
       && patch.Blob?
       && var m := ApplyBlob(t, content, patch.data); m.Made? && m.ok && t.sha(Joined(m.pieces)) == o.targetSha.value
  }

  ghost predicate Succeeds(t: Tools, o: Order, fs: Files, rc: Reclaim)
    requires |o.patchSha| == |o.patches|
  {
    var r := Run(t, o, fs, rc, map[]); r.code == 0 && AtTarget(t, o, DoAll(fs, r.effects))
  }

  /** Once the target is there, a run changes nothing and succeeds. */
  lemma RunAgain(t: Tools, o: Order, fs: Files, rc: Reclaim)
    requires |o.patchSha| == |o.patches| && AtTarget(t, o, fs)
    ensures Run(t, o, fs, rc, map[]) == Plan([], 0) && Succeeds(t, o, fs, rc)
  {
  }

  /** When a run from a safe state succeeds: always, unless all that is left of the old contents is
      a saved copy that matches the first patch. */
  lemma SafeSucceeds(t: Tools, o: Order, content: seq<Byte>, fs: Files, rc: Reclaim)
    requires WellPlaced(o) && Harmless(rc) && rc.enough && Safe(t, o, content, fs) && PatchGood(t, o, content)
    ensures Succeeds(t, o, fs, rc) <==> AtTarget(t, o, fs) || o.source in fs || Match(t, o, content).value > 0
    ensures !Succeeds(t, o, fs, rc) ==> Run(t, o, fs, rc, map[]) == Plan([], 1)
  {
    hide Throughout, ApplyBlob, Sink;
    if AtTarget(t, o, fs) {
      RunAgain(t, o, fs, rc);
    } else {
      var ch := Choose(t, o, fs);
      if ch.Choice? {
        GoodProduces(t, o, content, ch);
        var fs1 := DoAll(fs, Prepare(o, ch, rc));
        if ch.fromSource { SaveAsideSafe(t, o, content, fs, rc); }
        ProduceSafe(t, o, content, fs1, ch, map[]);
        DoAllAppend(fs, Prepare(o, ch, rc), Produce(t, o, o.targetSha.value, ch, map[]).effects);
      }
    }
  }

  /** A good patch, taken whole, makes the target. */
  lemma GoodProduces(t: Tools, o: Order, content: seq<Byte>, ch: Choice)
    requires |o.patchSha| == |o.patches| && PatchGood(t, o, content) && ch.Choice?
             && ch == ChoiceFor(t, o, content, ch.fromSource)
    ensures Honest(t, o.targetSha.value, ch, map[]) && Produce(t, o, o.targetSha.value, ch, map[]).code == 0
  {
    SinkWhole(ApplyBlob(t, content, ch.patch.data).pieces);
  }

  /** The point right after the source was removed. */
  function AfterUnlink(o: Order, content: seq<Byte>, rc: Reclaim): (r: Loss) {
    Loss(rc, map[], |Unlinks(rc.deleted) + SaveAside(o, content)|)
  }

  lemma StrandedState(t: Tools, o: Order, content: seq<Byte>, fs: Files, rc: Reclaim)
    requires WellPlaced(o) && Harmless(rc) && rc.enough && PatchGood(t, o, content)
    requires o.source in fs && fs[o.source] == content && !AtTarget(t, o, fs)
    ensures var r := CutOff(t, o, fs, AfterUnlink(o, content, rc)); o.source !in r && !AtTarget(t, o, r)
  {
    hide ApplyBlob, Sink, Throughout, DoAll, Match;
    var ch := Choose(t, o, fs);
    var es := Unlinks(rc.deleted) + SaveAside(o, content);
    var p := Produce(t, o, o.targetSha.value, ch, map[]);
    assert (es + p.effects)[..|es|] == es;
    SaveAsideSafe(t, o, content, fs, rc);
    if o.target != o.source {
      assert Untouched(es, o.target);
      UntouchedSame(fs, es, o.target);
    }
  }

  /** Starting over succeeds from every point, after any number of losses, exactly when the old
      contents do not match the first patch of the list. */
  lemma RestartConverges(t: Tools, o: Order, content: seq<Byte>, fs: Files, rc: Reclaim)
    requires WellPlaced(o) && Harmless(rc) && rc.enough && PatchGood(t, o, content)
    requires o.source in fs && fs[o.source] == content && !AtTarget(t, o, fs)
    ensures (forall cs: seq<Loss> :: AllHarmless(t, o, content, cs) ==> Succeeds(t, o, After(t, o, fs, cs), rc))
            <==> Match(t, o, content).value > 0
  {
    if Match(t, o, content).value > 0 {
      forall cs: seq<Loss> | AllHarmless(t, o, content, cs)
        ensures Succeeds(t, o, After(t, o, fs, cs), rc)
      {
        NeverLost(t, o, content, fs, cs);
        SafeSucceeds(t, o, content, After(t, o, fs, cs), rc);
      }
    } else {
      var c := AfterUnlink(o, content, rc);
      var cs := [c];
      HonestWhen(t, o, content, map[]);
      StrandedState(t, o, content, fs, rc);
      assert cs[1..] == [] && After(t, o, fs, cs) == After(t, o, CutOff(t, o, fs, c), []) == CutOff(t, o, fs, c);
      NeverLost(t, o, content, fs, cs);
      SafeSucceeds(t, o, content, After(t, o, fs, cs), rc);
      assert AllHarmless(t, o, content, cs) && !Succeeds(t, o, After(t, o, fs, cs), rc);
    }
  }

  /** A run that succeeds keeps a source that is not the target if and only if the target was there already, or
      was made from the saved copy. */
  lemma SourceGone(t: Tools, o: Order, fs: Files, rc: Reclaim, cuts: Cuts)
    requires WellPlaced(o) && Harmless(rc) && o.source != o.target && o.source in fs
             && Run(t, o, fs, rc, cuts).code == 0
    ensures o.source in DoAll(fs, Run(t, o, fs, rc, cuts).effects) <==>
              AtTarget(t, o, fs) || !Choose(t, o, fs).fromSource
  {
    hide Throughout, ApplyBlob, Sink;
    if !AtTarget(t, o, fs) {
      var ch := Choose(t, o, fs);
      var p, prepare := Produce(t, o, o.targetSha.value, ch, cuts).effects, Prepare(o, ch, rc);
      if ch.fromSource { SaveAsideSafe(t, o, ch.content, fs, rc); }
      assert Untouched(p, o.source);
      UntouchedSame(DoAll(fs, prepare), p, o.source);
      DoAllAppend(fs, prepare, p);
    }
  }

  /** The output of the patch that is chosen for these contents. */
  function OutputFor(t: Tools, o: Order, content: seq<Byte>): (r: seq<Byte>)
    requires |o.patchSha| == |o.patches| && Match(t, o, content).Some?
  {
    var patch := o.patches[Match(t, o, content).value];
    if patch.Blob? && ApplyBlob(t, content, patch.data).Made? then Joined(ApplyBlob(t, content, patch.data).pieces)
    else []
  }

  /** What a run with a good patch leaves behind, when nothing is cut: the target with the patch's output, and all
      other files as they were but for those given up. The source is gone unless it is the target, and so are the
      saved copy and the temporary file, whether they were there before or not. A run that starts from the saved copy
      gives nothing up, and leaves the copy and what is at the source. */
  lemma RunLeaves(t: Tools, o: Order, content: seq<Byte>, fs: Files, rc: Reclaim)
    requires WellPlaced(o) && PatchGood(t, o, content) && !AtTarget(t, o, fs) && rc.enough
    requires Choose(t, o, fs).Choice? && Choose(t, o, fs).content == content
    ensures var r, out := Run(t, o, fs, rc, map[]), OutputFor(t, o, content);
            && r.code == 0 && o.targetSha == Some(t.sha(out))
            && DoAll(fs, r.effects)
               == (if Choose(t, o, fs).fromSource then
                     fs - (set p | p in rc.deleted) - {o.source, "/cache/saved.file", o.target + ".patch"}
                   else fs - {o.target + ".patch"})[o.target := out]
  {
    hide ApplyBlob, Sink, Joined, Match;
    var ch, out := Choose(t, o, fs), OutputFor(t, o, content);
    var prepare, p := Prepare(o, ch, rc), Produce(t, o, o.targetSha.value, ch, map[]).effects;
    SinkWhole(ApplyBlob(t, content, ch.patch.data).pieces);
    DoAllAppend(fs, prepare, p);
    var fs1 := if ch.fromSource then AsideLeaves(o, content, fs, rc) else fs;
    assert p == WriteFile(Temp(o.target), out) + [Rename(Temp(o.target), o.target)]
                + (if ch.fromSource then [Unlink(CACHE_TEMP_SOURCE)] else []);
    FinishLeaves(o, fs1, out, ch.fromSource);
    if ch.fromSource { LeavesTwice(o, content, fs, rc, out); }
  }

  /** What moving the source aside leaves. */
  ghost function AsideLeaves(o: Order, content: seq<Byte>, fs: Files, rc: Reclaim): (r: Files)
    ensures DoAll(fs, Unlinks(rc.deleted) + SaveAside(o, content)) == r
  {
    var fs0 := fs - set p | p in rc.deleted;
    AsideSteps(o, content, fs, rc);
    fs0[CACHE_TEMP_SOURCE := content] - {o.source}
  }

  lemma AsideSteps(o: Order, content: seq<Byte>, fs: Files, rc: Reclaim)
    ensures DoAll(fs, Unlinks(rc.deleted) + SaveAside(o, content))
            == (fs - set p | p in rc.deleted)[CACHE_TEMP_SOURCE := content] - {o.source}
  {
    var fs0 := fs - set p | p in rc.deleted;
    UnlinksLeave(fs, rc.deleted);
    DoAllAppend(fs, Unlinks(rc.deleted), SaveAside(o, content));
    DoAllAppend(fs0, WriteFile(CACHE_TEMP_SOURCE, content), [Unlink(o.source)]);
    WriteFileLeaves(fs0, CACHE_TEMP_SOURCE, content);
    DoOne(fs0[CACHE_TEMP_SOURCE := content], Unlink(o.source));
  }

  /** What the steps of making the target leave. */
  lemma FinishLeaves(o: Order, fs: Files, out: seq<Byte>, dropCopy: bool)
    ensures var tmp := Temp(o.target);
            DoAll(fs, WriteFile(tmp, out) + [Rename(tmp, o.target)]
                      + (if dropCopy then [Unlink(CACHE_TEMP_SOURCE)] else []))
            == (fs - {tmp})[o.target := out] - (if dropCopy then {CACHE_TEMP_SOURCE} else {})
  {
    var tmp := Temp(o.target);
    var w, r := WriteFile(tmp, out), Rename(tmp, o.target);
    WriteFileLeaves(fs, tmp, out);
    DoAllAppend(fs, w, [r]);
    var fs1 := fs[tmp := out];
    DoOne(fs1, r);
    assert fs1 - {tmp} == fs - {tmp};
    var fs2 := (fs - {tmp})[o.target := out];
    assert DoAll(fs, w + [r]) == fs2;
    if dropCopy {
      DoAllAppend(fs, w + [r], [Unlink(CACHE_TEMP_SOURCE)]);
      DoOne(fs2, Unlink(CACHE_TEMP_SOURCE));
    } else {
      assert w + [r] + [] == w + [r] && fs2 - {} == fs2;
    }
  }

  lemma LeavesTwice(o: Order, content: seq<Byte>, fs: Files, rc: Reclaim, out: seq<Byte>)
    requires WellPlaced(o)
    ensures var fs0, tmp := fs - (set p | p in rc.deleted), Temp(o.target);
            ((fs0[CACHE_TEMP_SOURCE := content] - {o.source}) - {tmp})[o.target := out] - {CACHE_TEMP_SOURCE}
            == (fs0 - {o.source, CACHE_TEMP_SOURCE, tmp})[o.target := out]
  {
    assert UnderCache(CACHE_TEMP_SOURCE);
  }

  // ----- The program -----

  /** Saves contents under a name; n effects take place. */
  method SaveFileContents(dev: Device, path: Path, content: seq<Byte>) returns (ok: bool, ghost n: nat)
    modifies dev
    ensures dev.reliable ==> ok
    ensures n <= |WriteFile(path, content)| && (ok ==> n == |WriteFile(path, content)|)
    ensures dev.Did(old(dev.files), old(dev.log), WriteFile(path, content)[..n])
  {
    ok, n := dev.WriteOut(path, content);
    if ok { ok := dev.Stamp(); }
  }

  /** The first n effects of p have taken place; the code is p's unless the run stopped early. */
  ghost predicate Ended(dev: Device, fs: Files, log: seq<Effect>, p: Plan, n: nat, code: int)
    reads dev
  {
    && n <= |p.effects| && dev.Did(fs, log, p.effects[..n])
    && (if n == |p.effects| then code == p.code else code == 1)
    && (dev.reliable ==> n == |p.effects|)
  }

  /** Hands the pieces to the device one after the other, and hashes those that it takes whole. */
  method SinkPieces(dev: Device, path: Path, ps: seq<Piece>)
    returns (ok: bool, hashed: seq<Byte>, ghost cuts: Cuts, ghost taken: seq<Byte>)
    modifies dev
    ensures Sink(ps, cuts) == Sunk(taken, hashed, ok) && (dev.reliable ==> cuts == map[])
    ensures dev.Did(old(dev.files), old(dev.log), Appends(path, taken))
  {
    hide Sink, DoAll, Appends;
    ghost var fs, log := dev.files, dev.log;
    ok, hashed, cuts, taken := true, [], map[], [];
    DidNone(fs, log);
    SinkNone(ps);
    AppendsNone(path);
    var i := 0;
    while i < |ps|
      invariant i <= |ps| && Sink(ps[..i], cuts) == Sunk(taken, hashed, true)
      invariant (forall j :: j in cuts ==> j < i) && (dev.reliable ==> cuts == map[])
      invariant dev.Did(fs, log, Appends(path, taken))
    {
      var bytes := ps[i].bytes;
      var whole;
      ghost var k;
      whole, k := dev.AppendAll(path, bytes);
      DidMore(fs, log, Appends(path, taken), Appends(path, bytes[..k]));
      AppendsJoin(path, taken, bytes[..k]);
      taken := taken + bytes[..k];
      if whole {
        assert bytes[..k] == bytes;
        SinkNext(ps, i, cuts);
        hashed := hashed + bytes;
      } else {
        SinkCut(ps, i, cuts, k);
        cuts := cuts[i := k];
        if !ps[i].plain {
          SinkEnded(ps, i + 1, cuts);
          return false, hashed, cuts, taken;
        }
      }
      i := i + 1;
    }
    assert ps[..|ps|] == ps;
  }

  lemma SinkNone(ps: seq<Piece>)
    ensures Sink(ps[..0], map[]) == Sunk([], [], true)
  {
    assert ps[..0] == [];
  }

  /** Writes the patched contents next to the target, checks their hash and moves them there. */
  method MakeTarget(dev: Device, t: Tools, o: Order, want: Digest, content: seq<Byte>, patch: Value, madeCopy: bool)
    returns (code: int, ghost n: nat, ghost cuts: Cuts)
    modifies dev
    ensures dev.reliable ==> cuts == map[]
    ensures Ended(dev, old(dev.files), old(dev.log), Produce(t, o, want, Choice(content, patch, madeCopy), cuts), n,
                  code)
  {
    hide ApplyBlob, Sink, Temp;
    ghost var fs, log := dev.files, dev.log;
    DidNone(fs, log);
    if patch.Text? { return 1, 0, map[]; }
    var outname := Temp(o.target);
    var created := dev.Perform(Create(outname));
    if !created { return 1, 0, map[]; }
    DidNext(fs, log, [Create(outname)], 0);
    var made := ApplyBlob(t, content, patch.data);
    if made.Unknown? { return 1, 1, map[]; }
    var ok, hashed;
    ghost var taken;
    ok, hashed, cuts, taken := SinkPieces(dev, outname, made.pieces);
    DidMore(fs, log, [Create(outname)], Appends(outname, taken));
    ghost var p := Produce(t, o, want, Choice(content, patch, madeCopy), cuts);
    n := |WriteFile(outname, taken)|;
    assert WriteFile(outname, taken) == p.effects[..n];
    if !ok || !made.ok || t.sha(hashed) != want { return 1, n, cuts; }
    assert p.effects[n..] == [Rename(outname, o.target)] + (if madeCopy then [Unlink(CACHE_TEMP_SOURCE)] else []);
    code, n := InstallTarget(dev, outname, o.target, madeCopy, fs, log, p.effects, n);
  }

  /** Puts the finished file in the place of the target, and removes the copy that was made for this run. */
  method InstallTarget(dev: Device, outname: Path, target: Path, madeCopy: bool, ghost fs: Files,
                       ghost log: seq<Effect>, ghost es: seq<Effect>, ghost from: nat) returns (code: int, ghost n: nat)
    requires from < |es| && es[from..] == [Rename(outname, target)] + (if madeCopy then [Unlink(CACHE_TEMP_SOURCE)]
                                                                       else [])
    requires dev.Did(fs, log, es[..from])
    modifies dev
    ensures from <= n <= |es| && dev.Did(fs, log, es[..n]) && (dev.reliable ==> n == |es|)
    ensures code == if n == |es| then 0 else 1
  {
    n := from;
    var ok := dev.Stamp();
    if !ok { return 1, n; }
    assert es[n] == es[from..][0];
    DidNext(fs, log, es, n);
    ok := dev.Perform(Rename(outname, target));
    if !ok { return 1, n; }
    n := n + 1;
    if madeCopy {
      assert es[n] == es[from..][1];
      DidNext(fs, log, es, n);
      dev.Remove(CACHE_TEMP_SOURCE);
      n := n + 1;
    }
    return 0, n;
  }

  /** Copies the source to the cache and removes it. */
  method MoveAside(dev: Device, o: Order, content: seq<Byte>) returns (ok: bool, ghost n: nat)
    modifies dev
    ensures n <= |SaveAside(o, content)| && (ok <==> n == |SaveAside(o, content)|) && (dev.reliable ==> ok)
    ensures dev.Did(old(dev.files), old(dev.log), SaveAside(o, content)[..n])
  {
    ghost var es := SaveAside(o, content);
    ok, n := SaveFileContents(dev, CACHE_TEMP_SOURCE, content);
    assert WriteFile(CACHE_TEMP_SOURCE, content)[..n] == es[..n];
    if ok {
      DidNext(old(dev.files), old(dev.log), es, n);
      dev.Remove(o.source);
      n := n + 1;
    }
  }

  /** Joins two stretches of a plan. */
  lemma JoinPlans(fs: Files, log: seq<Effect>, a: seq<Effect>, b: seq<Effect>, m: nat)
    requires m <= |b|
    ensures (a + b)[..|a| + m] == a + b[..m]
    ensures DoAll(fs, (a + b)[..|a| + m]) == DoAll(DoAll(fs, a), b[..m])
    ensures log + (a + b)[..|a| + m] == (log + a) + b[..m]
  {
    assert (a + b)[..|a| + m] == a + b[..m];
    DidMore(fs, log, a, b[..m]);
  }

  /** The whole program. free tells the room left on /cache, v what the system shows of it. */
  method ApplyPatch(dev: Device, t: Tools, o: Order, free: Files -> nat, v: View)
    returns (code: int, ghost rc: Reclaim, ghost n: nat, ghost cuts: Cuts)
    requires |o.patchSha| == |o.patches| && Complete(v)
    modifies dev
    ensures Harmless(rc) && (dev.reliable ==> cuts == map[])
    ensures var ch := Choose(t, o, old(dev.files));
            if o.targetSha.Some? && !AtTarget(t, o, old(dev.files)) && ch.Choice? && ch.fromSource then
              MadeRoom(old(dev.files), free, |ch.content|, v, rc.deleted, rc.enough)
            else rc == Reclaim([], true)
    ensures Ended(dev, old(dev.files), old(dev.log), Run(t, o, old(dev.files), rc, cuts), n, code)
  {
    hide Complete, Produce, MadeRoom;
    ghost var fs, log := dev.files, dev.log;
    rc, n, cuts := Reclaim([], true), 0, map[];
    DidNone(fs, log);
    if o.targetSha.None? { return 1, rc, 0, cuts; }
    var want := o.targetSha.value;
    if o.target in dev.files {
      if t.sha(dev.files[o.target]) == want { return 0, rc, 0, cuts; }
    }
    var content, patch := [], Text;
    var fromSource := false;
    if o.source in dev.files {
      content := dev.files[o.source];
      var toUse := FindMatchingPatch(o.patchSha, t.sha(content));
      if toUse >= 0 { patch, fromSource := o.patches[toUse], true; }
    }
    if !fromSource {
      if CACHE_TEMP_SOURCE !in dev.files { return 1, rc, 0, cuts; }
      content := dev.files[CACHE_TEMP_SOURCE];
      var toUse := FindMatchingPatch(o.patchSha, t.sha(content));
      if toUse <= 0 { return 1, rc, 0, cuts; }
      patch := o.patches[toUse];
    }
    assert Choose(t, o, fs) == Choice(content, patch, fromSource);
    if fromSource {
      code, rc, n, cuts := PatchSource(dev, t, o, want, content, patch, free, v);
    } else {
      code, n, cuts := MakeTarget(dev, t, o, want, content, patch, false);
      assert Run(t, o, fs, rc, cuts).effects == Produce(t, o, want, Choice(content, patch, false), cuts).effects;
    }
  }

  /** The part of a run that patches the source itself: the test for enough space never says yes,
      so the source is always moved aside. */
  method PatchSource(dev: Device, t: Tools, o: Order, want: Digest, content: seq<Byte>, patch: Value,
                     free: Files -> nat, v: View)
    returns (code: int, ghost rc: Reclaim, ghost n: nat, ghost cuts: Cuts)
    requires |o.patchSha| == |o.patches| && Complete(v) && o.targetSha == Some(want) && !AtTarget(t, o, dev.files)
    requires Choose(t, o, dev.files) == Choice(content, patch, true)
    modifies dev
    ensures Harmless(rc) && (dev.reliable ==> cuts == map[])
    ensures MadeRoom(old(dev.files), free, |content|, v, rc.deleted, rc.enough)
    ensures Ended(dev, old(dev.files), old(dev.log), Run(t, o, old(dev.files), rc, cuts), n, code)
  {
    hide ApplyBlob, Sink, Produce, SaveAside, DoAll, Choose;
    ghost var fs, log, deleted := dev.files, dev.log, [];
    var enough;
    enough, deleted := MakeFreeSpaceOnCache(dev, free, |content|, v);
    rc, cuts := Reclaim(deleted, enough), map[];
    DeletedHarmless(v, deleted);
    ghost var u := Unlinks(deleted);
    RunFromSource(t, o, fs, rc, want, content, patch, cuts);
    if !enough {
      assert u[..|u|] == u;
      return 1, rc, |u|, cuts;
    }
    code, n, cuts := MoveAndMake(dev, t, o, want, content, patch);
    RunFromSource(t, o, fs, rc, want, content, patch, cuts);
    JoinPlans(fs, log, u, AsideAndProduce(t, o, want, content, patch, cuts).effects, n);
    n := |u| + n;
  }

  /** A run on the source, once there is room on /cache. */
  function AsideAndProduce(t: Tools, o: Order, want: Digest, content: seq<Byte>, patch: Value, cuts: Cuts): (r: Plan) {
    var p := Produce(t, o, want, Choice(content, patch, true), cuts);
    Plan(SaveAside(o, content) + p.effects, p.code)
  }

  lemma RunFromSource(t: Tools, o: Order, fs: Files, rc: Reclaim, want: Digest, content: seq<Byte>, patch: Value,
                      cuts: Cuts)
    requires |o.patchSha| == |o.patches| && o.targetSha == Some(want) && !AtTarget(t, o, fs)
    requires Choose(t, o, fs) == Choice(content, patch, true)
    ensures var u, rest := Unlinks(rc.deleted), AsideAndProduce(t, o, want, content, patch, cuts);
            Run(t, o, fs, rc, cuts) == if rc.enough then Plan(u + rest.effects, rest.code) else Plan(u, 1)
  {
    var u, s, p := Unlinks(rc.deleted), SaveAside(o, content),
        Produce(t, o, want, Choice(content, patch, true), cuts).effects;
    assert u + s + p == u + (s + p);
  }

  method MoveAndMake(dev: Device, t: Tools, o: Order, want: Digest, content: seq<Byte>, patch: Value)
    returns (code: int, ghost n: nat, ghost cuts: Cuts)
    modifies dev
    ensures dev.reliable ==> cuts == map[]
    ensures Ended(dev, old(dev.files), old(dev.log), AsideAndProduce(t, o, want, content, patch, cuts), n, code)
  {
    hide ApplyBlob, Produce, WriteFile, DoAll;
    ghost var fs, log, s := dev.files, dev.log, SaveAside(o, content);
    var ok;
    ok, n := MoveAside(dev, o, content);
    cuts := map[];
    assert AsideAndProduce(t, o, want, content, patch, cuts).effects[..n] == s[..n] && s[..|s|] == s;
    if !ok { return 1, n, cuts; }
    ghost var m;
    code, m, cuts := MakeTarget(dev, t, o, want, content, patch, true);
    JoinPlans(fs, log, s, Produce(t, o, want, Choice(content, patch, true), cuts).effects, m);
    n := |s| + m;
  }

  lemma DeletedHarmless(v: View, deleted: seq<Path>)
    requires Complete(v) && (deleted == [] || (v.open.Some? && deleted <= Expendable(v)))
    ensures forall p :: p in deleted ==> UnderCache(p) && p != CACHE_TEMP_SOURCE
  {
    forall p | p in deleted
      ensures UnderCache(p) && p != CACHE_TEMP_SOURCE
    {
      assert p in Expendable(v);
      ExpendableSafe(v, p);
    }
  }
}
