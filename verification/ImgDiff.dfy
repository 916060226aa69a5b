/** imgdiff: making the patch for an image or a zip file, chunk by chunk. */
module ImgDiff {
  import opened Bytes
  import opened Offsets
  import opened PatchStreams
  import opened SuffixOrder
  import opened BsPatch
  import opened ImageChunks
  import opened ImageCut
  import opened ImageMatch
  import opened ImagePatch
  import Search
  import BsDiff
  import DiffScan

  /** What is patched: the bytes of a normal chunk, the inflated data of a deflate chunk. */
  function Data(img: seq<Byte>, c: Chunk): (r: seq<Byte>)
    requires Sound(img, c)
  {
    if c.Normal? then img[c.data..c.data + c.len] else c.buffer
  }

  /** The patch is the one that bsdiff makes, and it is good. */
  ghost predicate Patches(c: Coder, oldData: seq<Byte>, newData: seq<Byte>, patch: seq<Byte>) {
    && BsDiff.PatchOf(c, oldData, newData, patch)
    && (Faithful(c) && |patch| < SIGNED_LIMIT ==> BsDiff.Rebuilds(c, oldData, newData, patch))
  }

  /** The record for plain bytes made from others: they are stored as they are if they are few or their patch would
      not be smaller, and only then. */
  ghost predicate MakesPlain(c: Coder, oldData: seq<Byte>, start: nat, newData: seq<Byte>, r: Rec) {
    if |newData| <= 160 then r == Raw(newData)
    else
      exists patch {:trigger Patches(c, oldData, newData, patch)} ::
        && Patches(c, oldData, newData, patch)
        && r == if |newData| <= |patch| then Raw(newData) else Patched(start, |oldData|, patch)
  }

  /** The record r is right for making target chunk t from source chunk s. */
  ghost predicate Makes(c: Coder, oldImg: seq<Byte>, s: Chunk, newImg: seq<Byte>, t: Chunk, r: Rec)
    requires Sound(oldImg, s) && Sound(newImg, t) && s.Normal? == t.Normal?
  {
    if t.Normal? then MakesPlain(c, Contents(oldImg, s), s.start, Contents(newImg, t), r)
    else
      && r.Recoded? && r.srcStart == s.start && r.srcLen == s.deflateLen && r.expandedLen == s.len
         && r.targetLen == t.len
      && r.params == t.params && Patches(c, s.buffer, t.buffer, r.patch)
  }

  lemma PlainTells(c: Coder, oldData: seq<Byte>, start: nat, newData: seq<Byte>, r: Rec)
    requires MakesPlain(c, oldData, start, newData, r)
    ensures r == Raw(newData)
            || (r.Patched? && r.srcStart == start && r.srcLen == |oldData| && Patches(c, oldData, newData, r.patch))
  {
    hide Patches;
  }

  /** Where a right record takes its chunk from. */
  lemma MakesTells(c: Coder, oldImg: seq<Byte>, s: Chunk, newImg: seq<Byte>, t: Chunk, r: Rec)
    requires Sound(oldImg, s) && Sound(newImg, t) && s.Normal? == t.Normal? && Makes(c, oldImg, s, newImg, t, r)
    ensures t.Normal? ==> r == Raw(Contents(newImg, t)) || (r.Patched? && r.srcStart == s.start && r.srcLen == s.len)
    ensures t.Deflate? ==> r.Recoded? && r.srcStart == s.start && r.srcLen == s.deflateLen && r.expandedLen == s.len
                           && r.targetLen == t.len && r.params == t.params
  {
    hide Patches, MakesPlain;
    if t.Normal? { PlainTells(c, Contents(oldImg, s), s.start, Contents(newImg, t), r); }
  }

  /** When a plain chunk is stored as it is: if and only if it is small, or as small as the patch that bsdiff makes. */
  lemma RawExactly(c: Coder, oldData: seq<Byte>, start: nat, newData: seq<Byte>, r: Rec, patch: seq<Byte>)
    requires MakesPlain(c, oldData, start, newData, r) && BsDiff.PatchOf(c, oldData, newData, patch)
    ensures r.Raw? <==> |newData| <= 160 || |newData| <= |patch|
    ensures !r.Raw? ==> r == Patched(start, |oldData|, patch)
  {
    hide BsDiff.PatchOf;
    if |newData| > 160 {
      var p :| Patches(c, oldData, newData, p)
        && r == if |newData| <= |p| then Raw(newData) else Patched(start, |oldData|, p);
      BsDiff.PatchOnce(c, oldData, newData, p, patch);
    }
  }

  /** A plain chunk that is its source, or a front part of it, is patched when the three streams are packed well: one
      record, zeros, and nothing. */
  lemma UnchangedPatched(c: Coder, oldData: seq<Byte>, start: nat, newData: seq<Byte>, r: Rec)
    requires MakesPlain(c, oldData, start, newData, r) && newData <= oldData && 160 < |newData| < INT_LIMIT
    requires forall z :: -|newData| <= z <= |oldData| - |newData| ==> BsDiff.FrontSize(c, |newData|, z) < |newData|
    ensures r.Patched? && r.srcStart == start && r.srcLen == |oldData| && BsDiff.PatchOf(c, oldData, newData, r.patch)
  {
    hide BsDiff.PatchOf, BsDiff.FrontSize;
    var p :| Patches(c, oldData, newData, p)
      && r == if |newData| <= |p| then Raw(newData) else Patched(start, |oldData|, p);
    BsDiff.FrontPatch(c, oldData, newData, p);
  }

  lemma SmallMade(c: Coder, oldData: seq<Byte>, start: nat, newData: seq<Byte>)
    ensures |newData| <= 160 ==> MakesPlain(c, oldData, start, newData, Raw(newData))
  {
  }

  lemma PlainMade(c: Coder, oldData: seq<Byte>, start: nat, newData: seq<Byte>, patch: seq<Byte>)
    requires |newData| > 160 && Patches(c, oldData, newData, patch)
    ensures MakesPlain(c, oldData, start, newData,
                       if |newData| <= |patch| then Raw(newData) else Patched(start, |oldData|, patch))
  {
    hide Patches;
  }

  ghost predicate Indexed(I: Option<seq<int>>, data: seq<Byte>) {
    I.Some? ==> IsSuffixArray(data, I.value)
  }

  /** The patch for one target chunk. A small normal chunk, or one whose patch would not be
      smaller, is stored as it is. */
  method MakePatch(c: Coder, oldImg: seq<Byte>, s: Chunk, cached: Option<seq<int>>, newImg: seq<Byte>, t: Chunk)
    returns (r: Rec, I: Option<seq<int>>)
    requires Sound(oldImg, s) && Sound(newImg, t) && s.Normal? == t.Normal?
    requires Indexed(cached, Data(oldImg, s)) && |Data(oldImg, s)| < INT_LIMIT && |Data(newImg, t)| < INT_LIMIT
    ensures Makes(c, oldImg, s, newImg, t, r) && Indexed(I, Data(oldImg, s))
  {
    hide Patches, MakesPlain, BsDiff.Rebuilds, BsDiff.StoredCut, DiffScan.Emits, IsSuffixArray, Search.Candidates;
    I := cached;
    IndexCandidates(cached, Data(oldImg, s));
    SmallMade(c, Data(oldImg, s), s.start, Data(newImg, t));
    if t.Normal? && t.len <= 160 { return Raw(newImg[t.data..t.data + t.len]), I; }
    var patched, J, script := BsDiff.BsDiff(Data(oldImg, s), Data(newImg, t), cached, c);
    I := Some(J);
    var patch := patched.value;
    PatchMade(c, Data(oldImg, s), Data(newImg, t), J, script, patch);
    if t.Normal? { PlainMade(c, Contents(oldImg, s), s.start, Contents(newImg, t), patch); }
    if t.Normal? && t.len <= |patch| { return Raw(newImg[t.data..t.data + t.len]), I; }
    if t.Normal? { return Patched(s.start, s.len, patch), I; }
    return Recoded(s.start, s.deflateLen, s.len, t.len, t.params, patch), I;
  }

  lemma NotIndexed(data: seq<Byte>)
    ensures Indexed(None, data)
  {
  }

  lemma IndexCandidates(I: Option<seq<int>>, data: seq<Byte>)
    requires Indexed(I, data)
    ensures I.Some? ==> Search.Candidates(I.value, data)
  {
  }

  lemma PatchMade(c: Coder, oldData: seq<Byte>, newData: seq<Byte>, I: seq<int>, script: Script, patch: seq<Byte>)
    requires IsSuffixArray(oldData, I) && DiffScan.Emits(I, oldData, newData, script)
    requires patch == BsDiff.StoredCut(c, script, |newData|) && BsDiff.Countable(Diff(script), Extra(script))
    requires Faithful(c) && |patch| < SIGNED_LIMIT ==> BsDiff.Rebuilds(c, oldData, newData, patch)
    ensures Patches(c, oldData, newData, patch)
  {
  }

  /** The number of the source chunk that target chunk i is made from. */
  function Source(zip: bool, src: seq<Chunk>, tgt: seq<Chunk>, i: nat): (r: nat)
    requires i < |tgt|
  {
    if !zip then i
    else if tgt[i].Normal? then 0
    else
      var s := FindName(src, tgt[i].name, 0);
      if s.Some? then s.value else 0
  }

  /** Every target chunk has a source chunk of its type. */
  ghost predicate Paired(zip: bool, oldImg: seq<Byte>, src: seq<Chunk>, newImg: seq<Byte>, tgt: seq<Chunk>) {
    && AllSound(oldImg, src) && AllSound(newImg, tgt) && Manageable(oldImg, src) && Manageable(newImg, tgt)
    && forall i {:trigger Source(zip, src, tgt, i)} :: 0 <= i < |tgt| ==>
         var s := Source(zip, src, tgt, i); s < |src| && src[s].Normal? == tgt[i].Normal?
  }

  /** The image and what its chunks inflate to can be counted in an int, as the bsdiff code and zlib count them. */
  ghost predicate Manageable(img: seq<Byte>, cs: seq<Chunk>) {
    |img| < INT_LIMIT && forall i :: 0 <= i < |cs| && cs[i].Deflate? ==> |cs[i].buffer| < INT_LIMIT
  }

  /** Record i is right for target chunk i. */
  ghost predicate MakesAt(c: Coder, zip: bool, oldImg: seq<Byte>, src: seq<Chunk>, newImg: seq<Byte>, tgt: seq<Chunk>,
                          i: nat, r: Rec)
    requires Paired(zip, oldImg, src, newImg, tgt) && i < |tgt|
  {
    Makes(c, oldImg, src[Source(zip, src, tgt, i)], newImg, tgt[i], r)
  }

  /** The source chunk that a target chunk is patched from. */
  method ChooseSource(zip: bool, src: array<Chunk>, ns: nat, tgt: array<Chunk>, nt: nat, i: nat) returns (s: nat)
    requires ns <= src.Length && i < nt <= tgt.Length
    ensures s == Source(zip, src[..ns], tgt[..nt], i)
  {
    s := i;
    if zip {
      s := 0;
      if tgt[i].Deflate? {
        var found := FindChunkByName(tgt[i].name, src, ns);
        if found.Some? { s := found.value; }
      }
    }
  }

  lemma SourceSuits(zip: bool, oldImg: seq<Byte>, src: seq<Chunk>, newImg: seq<Byte>, tgt: seq<Chunk>, i: nat)
    requires Paired(zip, oldImg, src, newImg, tgt) && i < |tgt|
    ensures Source(zip, src, tgt, i) < |src|
    ensures var s := src[Source(zip, src, tgt, i)];
            && Sound(oldImg, s) && Sound(newImg, tgt[i]) && s.Normal? == tgt[i].Normal?
            && |Data(oldImg, s)| < INT_LIMIT && |Data(newImg, tgt[i])| < INT_LIMIT
  {
    assert Source(zip, src, tgt, i) < |src|;
  }

  /** The patches for all target chunks. The suffix array of a source chunk is kept for its next use. */
  method MakePatches(c: Coder, zip: bool, oldImg: seq<Byte>, src: array<Chunk>, ns: nat, newImg: seq<Byte>,
                     tgt: array<Chunk>, nt: nat)
    returns (rs: seq<Rec>)
    requires ns <= src.Length && nt <= tgt.Length && Paired(zip, oldImg, src[..ns], newImg, tgt[..nt])
    ensures |rs| == nt && forall i :: 0 <= i < nt ==> MakesAt(c, zip, oldImg, src[..ns], newImg, tgt[..nt], i, rs[i])
  {
    hide Makes, Indexed;
    ghost var S, T := src[..ns], tgt[..nt];
    var indexes: seq<Option<seq<int>>> := seq(ns, i => None);
    forall j | 0 <= j < ns
      ensures Indexed(indexes[j], Data(oldImg, S[j]))
    {
      NotIndexed(Data(oldImg, S[j]));
    }
    rs := [];
    var i := 0;
    while i < nt
      invariant i <= nt && |rs| == i && |indexes| == ns
      invariant forall k :: 0 <= k < i ==> MakesAt(c, zip, oldImg, S, newImg, T, k, rs[k])
      invariant forall j :: 0 <= j < ns ==> Indexed(indexes[j], Data(oldImg, S[j]))
    {
      var s := ChooseSource(zip, src, ns, tgt, nt, i);
      assert tgt[i] == T[i] && s == Source(zip, S, T, i) && src[s] == S[s];
      SourceSuits(zip, oldImg, S, newImg, T, i);
      var r, I := MakePatch(c, oldImg, src[s], indexes[s], newImg, tgt[i]);
      indexes := indexes[s := I];
      rs := rs + [r];
      i := i + 1;
    }
  }

  // ----- What the patch file does -----

  /** The encoding of a deflate chunk can be reproduced with the settings it carries. */
  ghost predicate Encoded(z: Zlib, img: seq<Byte>, c: Chunk)
    requires End(c) <= |img|
  {
    c.Deflate? ==> Reproduces(z, img, c, c.params) && c.params in {LevelParams(6), LevelParams(9)}
  }

  /** A patching job after all decisions: chunk lists, records, and where the target ends. */
  datatype Plan = Plan(z: Zlib, c: Coder, zip: bool, oldData: seq<Byte>, oldImg: seq<Byte>, src: seq<Chunk>,
                       newImg: seq<Byte>, tgt: seq<Chunk>, end: nat, rs: seq<Rec>)

  ghost predicate Ready(w: Plan) {
    && Paired(w.zip, w.oldImg, w.src, w.newImg, w.tgt) && |w.rs| == |w.tgt|
    && (forall i :: 0 <= i < |w.rs| ==> MakesAt(w.c, w.zip, w.oldImg, w.src, w.newImg, w.tgt, i, w.rs[i]))
    && Tiles(w.tgt, 0, w.end) && w.end <= |w.newImg|
    && (forall i :: 0 <= i < |w.tgt| ==> Encoded(w.z, w.newImg, w.tgt[i]))
    && w.oldData <= w.oldImg
  }

  function SourceOf(w: Plan, i: nat): (r: Chunk)
    requires i < |w.tgt| && Source(w.zip, w.src, w.tgt, i) < |w.src|
  {
    w.src[Source(w.zip, w.src, w.tgt, i)]
  }

  /** The source of target chunk i lies in the source file and inflates to the length it states. */
  ghost predicate Usable(w: Plan, i: nat)
    requires Ready(w) && i < |w.tgt|
  {
    assert Source(w.zip, w.src, w.tgt, i) < |w.src|;
    End(SourceOf(w, i)) <= |w.oldData| && Exact(w.z, w.oldImg, SourceOf(w, i))
  }

  /** The source of target chunk i lies in the source file but inflates to less than it states. */
  ghost predicate Undersized(w: Plan, i: nat)
    requires Ready(w) && i < |w.tgt|
  {
    assert Source(w.zip, w.src, w.tgt, i) < |w.src|;
    var s := SourceOf(w, i);
    s.Deflate? && End(s) <= |w.oldData| && Inflates(w.z, w.oldImg, s) && !Exact(w.z, w.oldImg, s)
  }

  lemma SourceBytes(w: Plan, s: Chunk)
    requires w.oldData <= w.oldImg && End(s) <= |w.oldData|
    ensures w.oldData[s.start..s.start + Span(s)] == Contents(w.oldImg, s)
  {
  }

  lemma RecodedWorks(oldData: seq<Byte>, z: Zlib, c: Coder, r: Rec, expanded: seq<Byte>, v: seq<Byte>, bytes: seq<Byte>)
    requires r.Recoded? && r.srcStart + r.srcLen <= |oldData| && |expanded| == r.expandedLen
    requires InflateInto(z, oldData[r.srcStart..r.srcStart + r.srcLen], r.expandedLen) == Some(expanded)
    requires BsDiff.Rebuilds(c, expanded, v, r.patch) && z.deflate(r.params, v) == bytes
    ensures Works(oldData, z, c, r, bytes)
  {
  }

  lemma PatchedWorks(oldData: seq<Byte>, z: Zlib, c: Coder, r: Rec, bytes: seq<Byte>)
    requires r.Patched? && r.srcStart + r.srcLen <= |oldData|
    requires BsDiff.Rebuilds(c, oldData[r.srcStart..r.srcStart + r.srcLen], bytes, r.patch)
    ensures Works(oldData, z, c, r, bytes)
  {
  }

  /** A record that is right for its deflate chunk makes it out of a source that is exact. */
  lemma DeflateWorks(z: Zlib, c: Coder, oldData: seq<Byte>, oldImg: seq<Byte>, s: Chunk, newImg: seq<Byte>, t: Chunk,
                     r: Rec)
    requires Sound(oldImg, s) && Sound(newImg, t) && s.Deflate? && t.Deflate? && Makes(c, oldImg, s, newImg, t, r)
    requires Encoded(z, newImg, t) && oldData <= oldImg && End(s) <= |oldData| && Exact(z, oldImg, s)
    requires Faithful(c) && |Body(r)| < SIGNED_LIMIT
    ensures Works(oldData, z, c, r, Contents(newImg, t))
  {
    hide Works, BsDiff.Rebuilds, BsDiff.PatchOf, Faithful, MakesPlain;
    assert oldData[s.start..s.start + Span(s)] == Contents(oldImg, s);
    RecodedWorks(oldData, z, c, r, s.buffer, t.buffer, Contents(newImg, t));
  }

  /** A record that is right for its plain chunk makes it out of a source in the file. */
  lemma NormalWorks(z: Zlib, c: Coder, oldData: seq<Byte>, oldImg: seq<Byte>, s: Chunk, newImg: seq<Byte>, t: Chunk,
                    r: Rec)
    requires Sound(oldImg, s) && Sound(newImg, t) && s.Normal? && t.Normal? && Makes(c, oldImg, s, newImg, t, r)
    requires oldData <= oldImg && End(s) <= |oldData|
    requires Faithful(c) && |Body(r)| < SIGNED_LIMIT
    ensures Works(oldData, z, c, r, Contents(newImg, t))
  {
    hide Works, BsDiff.Rebuilds, BsDiff.PatchOf, Faithful, MakesPlain;
    PlainTells(c, Contents(oldImg, s), s.start, Contents(newImg, t), r);
    assert oldData[s.start..s.start + Span(s)] == Contents(oldImg, s);
    if r.Patched? {
      PatchedWorks(oldData, z, c, r, Contents(newImg, t));
    } else {
      StoredWorks(oldData, z, c, Contents(newImg, t));
    }
  }

  lemma StoredWorks(oldData: seq<Byte>, z: Zlib, c: Coder, bytes: seq<Byte>)
    ensures Works(oldData, z, c, Raw(bytes), bytes)
  {
  }

  /** What a plan says about one chunk. */
  lemma PlanTells(w: Plan, i: nat)
    requires Ready(w) && i < |w.tgt|
    ensures Source(w.zip, w.src, w.tgt, i) < |w.src|
    ensures var s, t := SourceOf(w, i), w.tgt[i];
            && Sound(w.oldImg, s) && Sound(w.newImg, t) && s.Normal? == t.Normal?
            && Makes(w.c, w.oldImg, s, w.newImg, t, w.rs[i]) && Encoded(w.z, w.newImg, t)
  {
    hide Makes;
    assert Source(w.zip, w.src, w.tgt, i) < |w.src|;
    assert MakesAt(w.c, w.zip, w.oldImg, w.src, w.newImg, w.tgt, i, w.rs[i]) && Encoded(w.z, w.newImg, w.tgt[i]);
  }

  lemma AsManyRecords(w: Plan)
    requires Ready(w)
    ensures |w.rs| == |w.tgt|
  {
  }

  /** What its record says about one chunk. */
  lemma RecordTells(w: Plan, i: nat)
    requires Ready(w) && i < |w.tgt|
    ensures Source(w.zip, w.src, w.tgt, i) < |w.src|
    ensures var s, t, r := SourceOf(w, i), w.tgt[i], w.rs[i];
            && Sound(w.oldImg, s) && Sound(w.newImg, t) && s.Normal? == t.Normal? && Encoded(w.z, w.newImg, t)
            && (t.Normal? ==>
                  r == Raw(Contents(w.newImg, t)) || (r.Patched? && r.srcStart == s.start && r.srcLen == s.len))
            && (t.Deflate? ==>
                  && r.Recoded? && r.srcStart == s.start && r.srcLen == s.deflateLen && r.expandedLen == s.len
                  && r.targetLen == t.len && r.params == t.params)
  {
    hide Makes, Encoded, Paired;
    PlanTells(w, i);
    MakesTells(w.c, w.oldImg, SourceOf(w, i), w.newImg, w.tgt[i], w.rs[i]);
  }

  /** The record of a usable source makes its chunk. */
  lemma UsableWorks(w: Plan, i: nat, r: Rec, bytes: seq<Byte>)
    requires Ready(w) && i < |w.tgt| && Usable(w, i) && Faithful(w.c) && r == w.rs[i] && |Body(r)| < SIGNED_LIMIT
    requires bytes == Contents(w.newImg, w.tgt[i])
    ensures Works(w.oldData, w.z, w.c, r, bytes)
  {
    hide Works, Makes, Encoded, Paired, Tiles, Contents;
    PlanTells(w, i);
    if w.tgt[i].Deflate? {
      DeflateWorks(w.z, w.c, w.oldData, w.oldImg, SourceOf(w, i), w.newImg, w.tgt[i], r);
    } else {
      NormalWorks(w.z, w.c, w.oldData, w.oldImg, SourceOf(w, i), w.newImg, w.tgt[i], r);
    }
  }

  lemma UndersizedShort(w: Plan, i: nat)
    requires Ready(w) && i < |w.tgt| && Undersized(w, i)
    ensures Short(w.oldData, w.z, w.rs[i])
  {
    hide MakesAt, Makes;
    RecordTells(w, i);
    var s := SourceOf(w, i);
    SourceBytes(w, s);
    assert Sound(w.oldImg, s);
    var out := InflateInto(w.z, Contents(w.oldImg, s), s.len).value;
    assert out == s.buffer[..|out|] && s.buffer[..s.len] == s.buffer;
  }

  lemma RawWorks(w: Plan, i: nat, bytes: seq<Byte>)
    requires Ready(w) && i < |w.tgt| && w.rs[i].Raw? && bytes == Contents(w.newImg, w.tgt[i])
    ensures Works(w.oldData, w.z, w.c, w.rs[i], bytes)
  {
    hide MakesAt, Makes;
    RecordTells(w, i);
    assert MakesAt(w.c, w.zip, w.oldImg, w.src, w.newImg, w.tgt, i, w.rs[i]);
  }

  /** Every number of a record fits its field, if the file it is in is shorter than 2^31 bytes. */
  lemma RecordSized(w: Plan, i: nat)
    requires Ready(w) && i < |w.tgt| && |FileOf(w.rs)| < 0x8000_0000
    ensures Sized(w.rs[i]) && |Body(w.rs[i])| < SIGNED_LIMIT
  {
    hide MakesAt, Makes;
    RecordTells(w, i);
    PartsWithin(w.rs, 0, i);
    var s := SourceOf(w, i);
    assert Sound(w.oldImg, s) && Sound(w.newImg, w.tgt[i]);
    match w.rs[i] {
      case Raw(_) =>
      case Patched(_, _, _) =>
      case Recoded(_, _, _, _, _, _) =>
        assert |s.buffer| < INT_LIMIT && |w.tgt[i].buffer| < INT_LIMIT;
    }
  }

  function TargetBytes(img: seq<Byte>, cs: seq<Chunk>): (bs: seq<seq<Byte>>)
    requires forall i :: 0 <= i < |cs| ==> End(cs[i]) <= |img|
    ensures |bs| == |cs| && forall i :: 0 <= i < |cs| ==> bs[i] == Contents(img, cs[i])
  {
    seq(|cs|, i requires 0 <= i < |cs| => Contents(img, cs[i]))
  }

  lemma {:induction false} ConcatCovered(img: seq<Byte>, cs: seq<Chunk>, i: nat)
    requires AllSound(img, cs) && i <= |cs|
    ensures Concat(TargetBytes(img, cs), i) == Covered(img, cs, i)
    decreases |cs| - i
  {
    if i < |cs| { ConcatCovered(img, cs, i + 1); }
  }

  /** The source of target chunk i does not end in the source file. */
  predicate Beyond(w: Plan, i: nat)
    requires i < |w.tgt| && Source(w.zip, w.src, w.tgt, i) < |w.src|
  {
    End(SourceOf(w, i)) > |w.oldData|
  }

  lemma BeyondOutside(w: Plan, i: nat)
    requires Ready(w) && i < |w.tgt| && Source(w.zip, w.src, w.tgt, i) < |w.src| && Beyond(w, i) && !w.rs[i].Raw?
    ensures Outside(w.oldData, w.rs[i])
  {
    hide MakesAt, Makes;
    RecordTells(w, i);
    var s := SourceOf(w, i);
    assert Sound(w.oldImg, s);
    assert MakesAt(w.c, w.zip, w.oldImg, w.src, w.newImg, w.tgt, i, w.rs[i]);
  }

  /** The first k chunks can be made, out of usable sources or from the patch alone; the source of the next, if
      any, is undersized or lies beyond the source file. */
  ghost predicate MadeUpTo(w: Plan, k: nat)
    requires Ready(w)
  {
    && k <= |w.tgt| && (forall i :: 0 <= i < k ==> w.rs[i].Raw? || Usable(w, i))
    && (k < |w.tgt| ==> !w.rs[k].Raw? && Source(w.zip, w.src, w.tgt, k) < |w.src| && (Undersized(w, k) || Beyond(w, k)))
  }

  lemma MadeStops(w: Plan, k: nat)
    requires Ready(w) && MadeUpTo(w, k) && k < |w.tgt|
    ensures Stops(w.oldData, w.z, w.rs[k]) && (Beyond(w, k) <==> Outside(w.oldData, w.rs[k]))
  {
    if Beyond(w, k) { BeyondOutside(w, k); } else { UndersizedShort(w, k); }
  }

  /** Applying the patch rebuilds the target; or it is rejected at the first undersized source, or fails at
      the first beyond the source file. */
  lemma PlanRebuilds(w: Plan, k: nat)
    requires Ready(w) && Faithful(w.c) && |FileOf(w.rs)| < 0x8000_0000 && MadeUpTo(w, k)
    ensures var r := ApplyFile(w.oldData, FileOf(w.rs), w.z, w.c.unpack);
            if k == |w.tgt| then r == Emitted(w.newImg[..w.end])
            else if Beyond(w, k) then r.OutOfBounds? else r.Rejected?
  {
    var bs := TargetBytes(w.newImg, w.tgt);
    forall i | 0 <= i < |w.rs|
      ensures Sized(w.rs[i])
    {
      RecordSized(w, i);
    }
    forall i | 0 <= i < k
      ensures Works(w.oldData, w.z, w.c, w.rs[i], bs[i])
    {
      RecordSized(w, i);
      if w.rs[i].Raw? { RawWorks(w, i, bs[i]); } else { UsableWorks(w, i, w.rs[i], bs[i]); }
    }
    if k < |w.rs| { MadeStops(w, k); }
    ApplyWritten(w.oldData, w.z, w.c, w.rs, bs, k);
    ConcatCovered(w.newImg, w.tgt, 0);
    assert w.tgt[0..] == w.tgt;
    TilesCover(w.newImg, w.tgt, 0, 0, w.end);
  }

  lemma {:induction false} FirstUndersized(w: Plan, i: nat) returns (k: nat)
    requires Ready(w) && i <= |w.tgt| && (forall j :: 0 <= j < i ==> Usable(w, j))
    requires forall j :: i <= j < |w.tgt| ==> Usable(w, j) || Undersized(w, j)
    ensures MadeUpTo(w, k) && (k < |w.tgt| ==> Undersized(w, k))
    decreases |w.tgt| - i
  {
    if i < |w.tgt| && Usable(w, i) { k := FirstUndersized(w, i + 1); } else { k := i; }
  }

  // ----- From decisions to a plan -----

  /** What deciding does to the target list. */
  lemma DecidedTarget(w: Job, src: seq<Chunk>, tgt: seq<Chunk>, to: nat)
    requires Decided(w, src, tgt, |tgt|) && Tiles(w.tgt, 0, to) && Manageable(w.newImg, w.tgt)
    ensures AllSound(w.newImg, tgt) && Tiles(tgt, 0, to) && Manageable(w.newImg, tgt)
    ensures forall k :: 0 <= k < |tgt| ==> Encoded(w.z, w.newImg, tgt[k])
    ensures forall k :: 0 <= k < |tgt| && tgt[k].Deflate? ==>
              w.tgt[k].Deflate? && Stays(w, k) && tgt[k].name == w.tgt[k].name
  {
    forall k | 0 <= k < |tgt|
      ensures tgt[k].start == w.tgt[k].start && Span(tgt[k]) == Span(w.tgt[k]) && Sound(w.newImg, tgt[k])
      ensures tgt[k].Deflate? ==> w.tgt[k].Deflate? && tgt[k].buffer == w.tgt[k].buffer
      ensures Encoded(w.z, w.newImg, tgt[k])
    {
      assert tgt[k] == Decision(w, k) && Sound(w.newImg, w.tgt[k]);
    }
    TilesLike(w.tgt, tgt, 0, to);
  }

  /** What deciding does to the source list. */
  lemma DecidedSource(w: Job, src: seq<Chunk>, tgt: seq<Chunk>)
    requires Decided(w, src, tgt, |tgt|) && Manageable(w.oldImg, w.src)
    ensures AllSound(w.oldImg, src) && Manageable(w.oldImg, src)
    ensures forall j :: 0 <= j < |src| ==> src[j].start == w.src[j].start && Span(src[j]) == Span(w.src[j])
    ensures forall j :: 0 <= j < |src| && src[j].Deflate? ==> src[j] == w.src[j]
  {
    forall j | 0 <= j < |src|
      ensures Sound(w.oldImg, src[j])
    {
      assert Sound(w.oldImg, w.src[j]);
    }
  }

  /** The merged target list keeps what matters of the decided one. */
  lemma MergedTarget(z: Zlib, img: seq<Byte>, cs: seq<Chunk>, to: nat)
    requires AllSound(img, cs) && Tiles(cs, 0, to) && Manageable(img, cs)
    requires forall k :: 0 <= k < |cs| ==> Encoded(z, img, cs[k])
    ensures AllSound(img, Merged(cs)) && Tiles(Merged(cs), 0, to) && Manageable(img, Merged(cs))
    ensures forall k :: 0 <= k < |Merged(cs)| ==> Encoded(z, img, Merged(cs)[k])
  {
    MergedTiles(img, cs, 0, to);
    forall k | 0 <= k < |Merged(cs)| && Merged(cs)[k].Deflate?
      ensures Merged(cs)[k] in cs
    {
      MergedMember(cs, Merged(cs)[k]);
    }
  }

  ghost predicate AllDecided(w: Job, src: seq<Chunk>, tgt: seq<Chunk>) {
    Decided(w, src, tgt, |tgt|)
  }

  /** The plan follows from the decisions on the two lists: both merged, but in a zip file the source list is kept. */
  ghost predicate Planned(w: Job, p: Plan) {
    && Ready(p) && p.z == w.z && p.zip == w.zip && p.oldImg == w.oldImg && p.newImg == w.newImg
    && exists src, tgt ::
         AllDecided(w, src, tgt) && p.src == (if w.zip then src else Merged(src)) && p.tgt == Merged(tgt)
  }

  lemma PlannedBy(w: Job, p: Plan, src: seq<Chunk>, tgt: seq<Chunk>)
    requires Ready(p) && p.z == w.z && p.zip == w.zip && p.oldImg == w.oldImg && p.newImg == w.newImg
    requires Decided(w, src, tgt, |tgt|) && p.src == (if w.zip then src else Merged(src)) && p.tgt == Merged(tgt)
    ensures Planned(w, p)
  {
    hide Ready, Decided, Merged;
    assert AllDecided(w, src, tgt);
  }

  datatype Diffed = Written(file: seq<Byte>) | NotWritten

  /** Makes and lays out the patches once the lists are settled. */
  method WritePlan(z: Zlib, c: Coder, zip: bool, ghost oldData: seq<Byte>, oldImg: seq<Byte>, src: array<Chunk>,
                   ns: nat, newImg: seq<Byte>, tgt: array<Chunk>, nt: nat, ghost end: nat)
    returns (file: seq<Byte>, ghost w: Plan)
    requires ns <= src.Length && nt <= tgt.Length && Paired(zip, oldImg, src[..ns], newImg, tgt[..nt])
    requires Tiles(tgt[..nt], 0, end) && end <= |newImg| && oldData <= oldImg
    requires forall i :: 0 <= i < nt ==> Encoded(z, newImg, tgt[i])
    ensures Ready(w) && file == FileOf(w.rs)
    ensures w == Plan(z, c, zip, oldData, oldImg, src[..ns], newImg, tgt[..nt], end, w.rs)
  {
    var rs := MakePatches(c, zip, oldImg, src, ns, newImg, tgt, nt);
    file := WriteImagePatch(rs);
    w := Plan(z, c, zip, oldData, oldImg, src[..ns], newImg, tgt[..nt], end, rs);
  }
}
