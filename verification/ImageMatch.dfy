/** Which deflate chunks imgdiff patches in their inflated form. */
module ImageMatch {
  import opened Bytes
  import opened ImageChunks

  const BUFFER_SIZE := 32768

  /** The encoder settings that are tried: only the level varies. */
  function LevelParams(level: int): (r: Params) {
    Params(level, 8, -15, 8, 0)
  }

  /** Deflating the buffer with these settings gives the chunk's own bytes. */
  predicate Reproduces(z: Zlib, img: seq<Byte>, c: Chunk, p: Params)
    requires c.Deflate? && End(c) <= |img|
  {
    z.deflate(p, c.buffer) == Contents(img, c)
  }

  /** Compares the output of the encoder, block by block, with the chunk's bytes. */
  method TryReconstruction(z: Zlib, img: seq<Byte>, c: Chunk, params: Params) returns (ok: bool)
    requires c.Deflate? && Sound(img, c)
    ensures ok <==> Reproduces(z, img, c, params)
  {
    var packed := z.deflate(params, c.buffer);
    var p := 0;
    while p < |packed|
      invariant p <= |packed| && c.deflateData + p <= |img|
      invariant packed[0..p] == img[c.deflateData..c.deflateData + p]
    {
      var have := if |packed| - p < BUFFER_SIZE then |packed| - p else BUFFER_SIZE;
      if c.deflateData + p + have > |img| { return false; }
      var block, there := packed[p..p + have], img[c.deflateData + p..c.deflateData + p + have];
      if block != there {
        BlockDiffers(packed, img, c, p, have);
        return false;
      }
      Extend(packed, 0, p, p + have);
      Extend(img, c.deflateData, c.deflateData + p, c.deflateData + p + have);
      p := p + have;
    }
    assert packed[0..p] == packed;
    return p == c.deflateLen;
  }

  lemma Extend(s: seq<Byte>, a: nat, b: nat, c: nat)
    requires a <= b <= c <= |s|
    ensures s[a..c] == s[a..b] + s[b..c]
  {
  }

  lemma BlockDiffers(packed: seq<Byte>, img: seq<Byte>, c: Chunk, p: nat, have: nat)
    requires c.Deflate? && Sound(img, c) && p + have <= |packed| && c.deflateData + p + have <= |img|
    requires packed[p..p + have] != img[c.deflateData + p..c.deflateData + p + have]
    ensures packed != Contents(img, c)
  {
    if p + have <= c.deflateLen {
      assert Contents(img, c)[p..p + have] == img[c.deflateData + p..c.deflateData + p + have];
    }
  }

  predicate Reconstructible(z: Zlib, img: seq<Byte>, c: Chunk)
    requires c.Deflate? && End(c) <= |img|
  {
    Reproduces(z, img, c, LevelParams(6)) || Reproduces(z, img, c, LevelParams(9))
  }

  /** The settings the search ends with. */
  function Settings(z: Zlib, img: seq<Byte>, c: Chunk): (r: Params)
    requires c.Deflate? && End(c) <= |img|
    ensures Reconstructible(z, img, c) ==> Reproduces(z, img, c, r)
  {
    if Reproduces(z, img, c, LevelParams(6)) then LevelParams(6)
    else if Reproduces(z, img, c, LevelParams(9)) then LevelParams(9)
    else LevelParams(9)
  }

  /** Looks for settings that reproduce the chunk and leaves them in it. */
  method ReconstructDeflateChunk(z: Zlib, img: seq<Byte>, chunks: array<Chunk>, i: nat) returns (ok: bool)
    requires i < chunks.Length && chunks[i].Deflate? && Sound(img, chunks[i])
    modifies chunks
    ensures ok <==> Reconstructible(z, img, old(chunks[i]))
    ensures chunks[..] == old(chunks[..])[i := old(chunks[i]).(params := Settings(z, img, old(chunks[i])))]
  {
    ghost var cs, c := chunks[..], chunks[i];
    var level := 6;
    while level <= 9
      invariant level in {6, 9, 12}
      invariant chunks[..] == if level == 6 then cs else cs[i := c.(params := LevelParams(level - 3))]
      invariant level > 6 ==> !Reproduces(z, img, c, LevelParams(6))
      invariant level > 9 ==> !Reproduces(z, img, c, LevelParams(9))
      decreases 12 - level
    {
      assert chunks[i] == chunks[..][i];
      chunks[i] := chunks[i].(params := LevelParams(level));
      assert chunks[..] == cs[i := c.(params := LevelParams(level))];
      ok := TryReconstruction(z, img, chunks[i], LevelParams(level));
      assert ok == Reproduces(z, img, c, LevelParams(level));
      if ok { return true; }
      level := level + 3;
    }
    return false;
  }

  /** A deflate chunk taken for the plain bytes it is made of. */
  function ToNormal(c: Chunk): (r: Chunk)
    ensures r.Normal? && r.start == c.start && Span(r) == Span(c)
    ensures forall img :: Sound(img, c) ==> Sound(img, r)
  {
    if c.Normal? then c else Normal(c.start, c.deflateLen, c.deflateData)
  }

  method ChangeDeflateChunkToNormal(chunks: array<Chunk>, i: nat)
    requires i < chunks.Length
    modifies chunks
    ensures chunks[..] == old(chunks[..])[i := ToNormal(old(chunks[i]))]
  {
    if chunks[i].Deflate? {
      chunks[i] := Normal(chunks[i].start, chunks[i].deflateLen, chunks[i].deflateData);
    }
    assert chunks[..] == old(chunks[..])[i := ToNormal(old(chunks[i]))];
  }

  /** Whether two chunks of the same type stand for the same bytes, in compressed form if deflated. */
  predicate AreChunksEqual(imgA: seq<Byte>, a: Chunk, imgB: seq<Byte>, b: Chunk)
    requires End(a) <= |imgA| && End(b) <= |imgB|
  {
    a.Normal? == b.Normal? && Span(a) == Span(b) && Contents(imgA, a) == Contents(imgB, b)
  }

  /** The first deflate chunk from number i on that has this name. */
  function FindName(cs: seq<Chunk>, name: Option<seq<Byte>>, i: nat): (r: Option<nat>)
    requires i <= |cs|
    ensures r.Some? ==> i <= r.value < |cs| && cs[r.value].Deflate? && cs[r.value].name == name
    ensures r.None? ==> forall k :: i <= k < |cs| && cs[k].Deflate? ==> cs[k].name != name
    decreases |cs| - i
  {
    if i == |cs| then None
    else if cs[i].Deflate? && cs[i].name == name then Some(i)
    else FindName(cs, name, i + 1)
  }

  method FindChunkByName(name: Option<seq<Byte>>, chunks: array<Chunk>, n: nat) returns (r: Option<nat>)
    requires n <= chunks.Length
    ensures r == FindName(chunks[..n], name, 0)
  {
    var i := 0;
    while i < n
      invariant i <= n && FindName(chunks[..n], name, 0) == FindName(chunks[..n], name, i)
    {
      if chunks[i].Deflate? && chunks[i].name == name { return Some(i); }
      i := i + 1;
    }
    return None;
  }

  /** Taking a chunk of another name for normal does not change what is found. */
  lemma {:induction false} FindOther(cs: seq<Chunk>, name: Option<seq<Byte>>, i: nat, j: nat)
    requires i <= |cs| && j < |cs| && (cs[j].Deflate? ==> cs[j].name != name)
    ensures FindName(cs[j := ToNormal(cs[j])], name, i) == FindName(cs, name, i)
    decreases |cs| - i
  {
    if i < |cs| { FindOther(cs, name, i + 1, j); }
  }

  // ----- Deciding for every target chunk -----

  /** The source chunk that target chunk number i is matched with: by name in a zip file, by
      position in an image. */
  function Partner(zip: bool, src: seq<Chunk>, i: nat, t: Chunk): (r: Option<nat>)
    requires t.Deflate?
    ensures r.Some? && zip ==> r.value < |src| && src[r.value].Deflate? && src[r.value].name == t.name
  {
    if zip then FindName(src, t.name, 0) else Some(i)
  }

  /** The two files, and the chunk lists before any decision. */
  datatype Job = Job(z: Zlib, zip: bool, oldImg: seq<Byte>, newImg: seq<Byte>, src: seq<Chunk>, tgt: seq<Chunk>)

  ghost predicate GoodJob(w: Job) {
    && AllSound(w.oldImg, w.src) && AllSound(w.newImg, w.tgt)
    && (if w.zip then
          forall i, k :: 0 <= i < k < |w.tgt| && w.tgt[i].Deflate? && w.tgt[k].Deflate? ==>
            w.tgt[i].name != w.tgt[k].name
        else |w.src| == |w.tgt| && forall i :: 0 <= i < |w.tgt| ==> w.src[i].Deflate? == w.tgt[i].Deflate?)
  }

  /** Target chunk i is patched in inflated form: its encoding can be reproduced, and there is a
      partner, with other contents. */
  ghost predicate Stays(w: Job, i: nat)
    requires GoodJob(w) && i < |w.tgt| && w.tgt[i].Deflate?
  {
    var t := w.tgt[i];
    var s := Partner(w.zip, w.src, i, t);
    Reconstructible(w.z, w.newImg, t) && s.Some? && !AreChunksEqual(w.newImg, t, w.oldImg, w.src[s.value])
  }

  ghost function Decision(w: Job, i: nat): (r: Chunk)
    requires GoodJob(w) && i < |w.tgt|
  {
    var t := w.tgt[i];
    if t.Normal? then t
    else if Stays(w, i) then t.(params := Settings(w.z, w.newImg, t))
    else ToNormal(t)
  }

  /** The partner of target chunk i is as it was, and still its partner. */
  ghost predicate Open(w: Job, src: seq<Chunk>, i: nat)
    requires GoodJob(w) && i < |w.tgt| && |src| == |w.src|
  {
    w.tgt[i].Deflate? ==>
      var s := Partner(w.zip, w.src, i, w.tgt[i]);
      Partner(w.zip, src, i, w.tgt[i]) == s && (s.Some? ==> src[s.value] == w.src[s.value])
  }

  /** The partner of target chunk i is as the decision on i leaves it. */
  ghost predicate Settled(w: Job, src: seq<Chunk>, i: nat)
    requires GoodJob(w) && i < |w.tgt| && |src| == |w.src|
  {
    w.tgt[i].Deflate? ==>
      var s := Partner(w.zip, w.src, i, w.tgt[i]);
      if Stays(w, i) then Open(w, src, i) else s.Some? ==> src[s.value] == ToNormal(w.src[s.value])
  }

  /** The first i target chunks have been decided on. */
  ghost predicate Decided(w: Job, src: seq<Chunk>, tgt: seq<Chunk>, i: nat) {
    && GoodJob(w) && |src| == |w.src| && |tgt| == |w.tgt| && i <= |tgt|
    && (forall k :: 0 <= k < |tgt| ==> tgt[k] == if k < i then Decision(w, k) else w.tgt[k])
    && (forall j :: 0 <= j < |src| ==> src[j] == w.src[j] || src[j] == ToNormal(w.src[j]))
    && (forall k :: 0 <= k < i ==> Settled(w, src, k))
    && (forall k :: i <= k < |tgt| ==> Open(w, src, k))
  }

  /** One decision, and what it does to its partner. */
  lemma DecideNext(w: Job, src: seq<Chunk>, tgt: seq<Chunk>, i: nat, src': seq<Chunk>)
    requires Decided(w, src, tgt, i) && i < |tgt|
    requires var s := if w.tgt[i].Deflate? then Partner(w.zip, w.src, i, w.tgt[i]) else None;
             src' == if s.Some? && !Stays(w, i) then src[s.value := ToNormal(src[s.value])] else src
    ensures Decided(w, src', tgt[i := Decision(w, i)], i + 1)
  {
    assert Open(w, src, i);
    forall k | 0 <= k < |tgt|
      ensures if k <= i then Settled(w, src', k) else Open(w, src', k)
    {
      assert if k < i then Settled(w, src, k) else Open(w, src, k);
      if k != i && w.tgt[k].Deflate? && src' != src { OtherPartner(w, src, i, k); }
    }
  }

  /** Different target chunks have different partners. */
  lemma OtherPartner(w: Job, src: seq<Chunk>, i: nat, k: nat)
    requires GoodJob(w) && i < |w.tgt| && k < |w.tgt| && i != k && w.tgt[i].Deflate? && w.tgt[k].Deflate?
    requires |src| == |w.src| && Open(w, src, i) && Partner(w.zip, w.src, i, w.tgt[i]).Some?
    ensures var j := Partner(w.zip, w.src, i, w.tgt[i]).value;
            && Partner(w.zip, src[j := ToNormal(src[j])], k, w.tgt[k]) == Partner(w.zip, src, k, w.tgt[k])
            && Partner(w.zip, w.src, k, w.tgt[k]) != Some(j)
  {
    var j := Partner(w.zip, w.src, i, w.tgt[i]).value;
    if w.zip { FindOther(src, w.tgt[k].name, 0, j); }
  }

  /** Goes through the target chunks and takes for normal those, with their partners, that cannot
      or need not be patched in inflated form. */
  method DecideChunks(ghost w: Job, z: Zlib, zip: bool, oldImg: seq<Byte>, newImg: seq<Byte>,
                      src: array<Chunk>, ns: nat, tgt: array<Chunk>, nt: nat)
    requires src != tgt && ns <= src.Length && nt <= tgt.Length
    requires w == Job(z, zip, oldImg, newImg, src[..ns], tgt[..nt]) && GoodJob(w)
    modifies src, tgt
    ensures Decided(w, src[..ns], tgt[..nt], nt)
  {
    var i := 0;
    while i < nt
      invariant i <= nt && Decided(w, src[..ns], tgt[..nt], i)
    {
      DecideChunk(w, z, zip, oldImg, newImg, src, ns, tgt, nt, i);
      i := i + 1;
    }
  }

  /** The decision on one target chunk. */
  method DecideChunk(ghost w: Job, z: Zlib, zip: bool, oldImg: seq<Byte>, newImg: seq<Byte>,
                     src: array<Chunk>, ns: nat, tgt: array<Chunk>, nt: nat, i: nat)
    requires src != tgt && ns <= src.Length && i < nt <= tgt.Length
    requires w.z == z && w.zip == zip && w.oldImg == oldImg && w.newImg == newImg && Decided(w, src[..ns], tgt[..nt], i)
    modifies src, tgt
    ensures Decided(w, src[..ns], tgt[..nt], i + 1)
  {
    ghost var S, T := src[..ns], tgt[..nt];
    assert tgt[i] == T[i] == w.tgt[i];
    if tgt[i].Deflate? {
      assert Open(w, S, i) && Sound(newImg, w.tgt[i]);
      var ok := ReconstructDeflateChunk(z, newImg, tgt, i);
      var s := Some(i);
      if zip { s := FindChunkByName(tgt[i].name, src, ns); }
      assert s == Partner(zip, S, i, w.tgt[i]) == Partner(zip, w.src, i, w.tgt[i]);
      if s.Some? { assert Sound(oldImg, w.src[s.value]) && src[s.value] == S[s.value] == w.src[s.value]; }
      if !ok || s.None? || AreChunksEqual(newImg, tgt[i], oldImg, src[s.value]) {
        ChangeDeflateChunkToNormal(tgt, i);
        if s.Some? { ChangeDeflateChunkToNormal(src, s.value); }
      }
      assert src[..ns] == if s.Some? && !Stays(w, i) then S[s.value := ToNormal(S[s.value])] else S;
    }
    assert tgt[..nt] == T[i := Decision(w, i)];
    DecideNext(w, S, T, i, src[..ns]);
  }
}
