/** The two modes of imgdiff, from the files to a patch that rebuilds the target. */
module ImageDiff {
  import opened Bytes
  import opened Offsets
  import opened BsPatch
  import opened ImageChunks
  import opened ImageCut
  import opened ImageMatch
  import opened ImagePatch
  import opened ImgDiff
  import BsDiff

  // ----- Images -----

  /** The image with its padding, and what its chunks inflate to, can be counted in an int. */
  ghost predicate Holdable(z: Zlib, img: seq<Byte>) {
    var r := CutFrom(z, img, 0, []);
    r.Chunks? ==> Manageable(Padded(img), r.cs)
  }

  /** What breaking an image up and merging its plain chunks gives. */
  lemma ImageChunksGood(z: Zlib, img: seq<Byte>)
    requires SelfDelimiting(z) && Holdable(z, img) && CutFrom(z, img, 0, []).Chunks?
    ensures var r := CutFrom(z, img, 0, []); var p, cs := Padded(img), Merged(r.cs);
            && AllSound(p, cs) && Tiles(cs, 0, r.end) && Manageable(p, cs) && AllExact(z, p, cs)
               && |img| <= r.end <= |p|
            && LastInside(img, cs)
  {
    hide SelfDelimiting;
    var r, p := CutFrom(z, img, 0, []), Padded(img);
    CutGood(z, img, 0, []);
    MergedTiles(p, r.cs, 0, r.end);
    MergedExact(z, p, r.cs);
    if r.cs != [] {
      TilesEnd(r.cs, 0, r.end, |r.cs| - 1);
      MergedLast(r.cs, 0, r.end);
    }
  }

  /** The last chunk starts inside the file, or where it ends. */
  predicate LastInside(img: seq<Byte>, cs: seq<Chunk>) {
    cs != [] ==> cs[|cs| - 1].start <= |img|
  }

  lemma MergedExact(z: Zlib, img: seq<Byte>, cs: seq<Chunk>)
    requires AllSound(img, cs) && AllExact(z, img, cs) && Manageable(img, cs)
    ensures AllExact(z, img, Merged(cs)) && Manageable(img, Merged(cs))
  {
    var m := Merged(cs);
    forall i | 0 <= i < |m| && m[i].Deflate?
      ensures Exact(z, img, m[i]) && |m[i].buffer| < INT_LIMIT
    {
      MergedMember(cs, m[i]);
    }
  }

  /** Deciding keeps the two lists of an image parallel, and merging both keeps them so: the error
      branch for lists that went apart cannot be reached. */
  lemma StayParallel(w: Job, src: seq<Chunk>, tgt: seq<Chunk>, srcEnd: nat, tgtEnd: nat)
    requires !w.zip && Decided(w, src, tgt, |tgt|)
    requires Manageable(w.oldImg, w.src) && Manageable(w.newImg, w.tgt)
    requires Tiles(w.src, 0, srcEnd) && Tiles(w.tgt, 0, tgtEnd)
    ensures Tiles(src, 0, srcEnd) && |Merged(src)| == |Merged(tgt)| && Kinds(Merged(src)) == Kinds(Merged(tgt))
  {
    DecidedTarget(w, src, tgt, tgtEnd);
    DecidedSource(w, src, tgt);
    TilesLike(w.src, src, 0, srcEnd);
    forall k | 0 <= k < |tgt|
      ensures src[k].Normal? == tgt[k].Normal?
    {
      assert tgt[k] == Decision(w, k) && Settled(w, src, k);
      assert src[k] == w.src[k] || src[k] == ToNormal(w.src[k]);
    }
    assert Kinds(src) == Kinds(tgt);
    MergedParallel(w.oldImg, src, srcEnd, w.newImg, tgt, tgtEnd);
  }

  /** After all decisions and merging, every source chunk is exact and every target chunk has one. */
  lemma ImagePaired(w: Job, src: seq<Chunk>, tgt: seq<Chunk>, srcEnd: nat, tgtEnd: nat)
    requires !w.zip && Decided(w, src, tgt, |tgt|) && AllExact(w.z, w.oldImg, w.src)
    requires Manageable(w.oldImg, w.src) && Manageable(w.newImg, w.tgt)
    requires Tiles(w.src, 0, srcEnd) && Tiles(w.tgt, 0, tgtEnd)
    ensures Paired(false, w.oldImg, Merged(src), w.newImg, Merged(tgt))
    ensures AllExact(w.z, w.oldImg, Merged(src)) && Tiles(Merged(src), 0, srcEnd) && Tiles(Merged(tgt), 0, tgtEnd)
    ensures forall k :: 0 <= k < |Merged(tgt)| ==> Encoded(w.z, w.newImg, Merged(tgt)[k])
  {
    var S, T := Merged(src), Merged(tgt);
    StayParallel(w, src, tgt, srcEnd, tgtEnd);
    DecidedTarget(w, src, tgt, tgtEnd);
    DecidedSource(w, src, tgt);
    MergedTarget(w.z, w.newImg, tgt, tgtEnd);
    MergedTiles(w.oldImg, src, 0, srcEnd);
    forall i | 0 <= i < |S| && S[i].Deflate?
      ensures Exact(w.z, w.oldImg, S[i]) && |S[i].buffer| < INT_LIMIT
    {
      MergedMember(src, S[i]);
    }
    forall i | 0 <= i < |T|
      ensures S[i].Normal? == T[i].Normal?
    {
      assert Kinds(S)[i] == Kinds(T)[i];
    }
  }

  /** Deciding and merging leave the start of the last source chunk inside. */
  lemma LastStays(w: Job, src: seq<Chunk>, tgt: seq<Chunk>, srcEnd: nat, img: seq<Byte>)
    requires Decided(w, src, tgt, |tgt|) && Manageable(w.oldImg, w.src) && Tiles(src, 0, srcEnd)
             && LastInside(img, w.src)
    ensures LastInside(img, Merged(src))
  {
    DecidedSource(w, src, tgt);
    if src != [] { MergedLast(src, 0, srcEnd); }
  }

  /** When the chunks of the source run over its end, the last chunk of the target can be made only if its
      record holds it as it is. */
  predicate SpareLast(oldData: seq<Byte>, srcEnd: nat, rs: seq<Rec>) {
    srcEnd <= |oldData| || (rs != [] && rs[|rs| - 1].Raw?)
  }

  /** Applied to the source image, the patch emits the target chunks; but if the last source chunk runs over the
      end of the source and is used, the applier reads beyond the source. */
  lemma ImageRebuilds(w: Plan, srcEnd: nat)
    requires Ready(w) && !w.zip && AllExact(w.z, w.oldImg, w.src) && Tiles(w.src, 0, srcEnd)
    requires |w.src| == |w.tgt| && LastInside(w.oldData, w.src)
    requires Faithful(w.c) && |FileOf(w.rs)| < 0x8000_0000
    ensures var r := ApplyFile(w.oldData, FileOf(w.rs), w.z, w.c.unpack);
            if SpareLast(w.oldData, srcEnd, w.rs) then r == Emitted(w.newImg[..w.end]) else r.OutOfBounds?
  {
    hide Sound, AllSound, FileOf, ApplyFile, Encoded, MakesAt, Paired;
    var n := |w.tgt|;
    forall i | 0 <= i < n
      ensures Source(w.zip, w.src, w.tgt, i) == i && SourceOf(w, i) == w.src[i]
      ensures i < n - 1 || srcEnd <= |w.oldData| ==> Usable(w, i)
    {
      assert Source(w.zip, w.src, w.tgt, i) == i;
      TilesEnd(w.src, 0, srcEnd, i);
      if i < n - 1 { TilesBeforeLast(w.src, 0, srcEnd, i); }
    }
    if SpareLast(w.oldData, srcEnd, w.rs) {
      PlanRebuilds(w, n);
    } else {
      LastEnd(w.src, 0, srcEnd);
      PlanRebuilds(w, n - 1);
    }
  }

  lemma {:induction false} LastEnd(cs: seq<Chunk>, from: nat, to: nat)
    requires Tiles(cs, from, to)
    ensures if cs == [] then from == to else End(cs[|cs| - 1]) == to
  {
    if cs != [] { LastEnd(cs[1..], End(cs[0]), to); }
  }

  /** Whether two lists have the same types in the same order. */
  method SameStructure(src: array<Chunk>, ns: nat, tgt: array<Chunk>, nt: nat) returns (same: bool)
    requires ns <= src.Length && nt <= tgt.Length
    ensures same <==> Kinds(src[..ns]) == Kinds(tgt[..nt])
  {
    assert |Kinds(src[..ns])| == ns && |Kinds(tgt[..nt])| == nt;
    if ns != nt { return false; }
    var i := 0;
    while i < ns
      invariant i <= ns && forall k :: 0 <= k < i ==> src[k].Normal? == tgt[k].Normal?
    {
      if src[i].Normal? != tgt[i].Normal? {
        assert Kinds(src[..ns])[i] != Kinds(tgt[..nt])[i];
        return false;
      }
      i := i + 1;
    }
    assert Kinds(src[..ns]) == Kinds(tgt[..nt]);
    return true;
  }

  /** A chunk list of its own, with the plain chunks merged. */
  method MergedList(cs: seq<Chunk>) returns (chunks: array<Chunk>, n: nat)
    ensures fresh(chunks) && n <= chunks.Length && chunks[..n] == Merged(cs)
  {
    chunks := new Chunk[|cs|](i requires 0 <= i < |cs| => cs[i]);
    assert chunks[..|cs|] == cs;
    n := MergeAdjacentNormalChunks(chunks, |cs|);
  }

  function Zeros(n: int): (r: seq<Byte>)
    ensures |r| == if n < 0 then 0 else n
  {
    seq(if n < 0 then 0 else n, i => 0)
  }

  /** The job of patching one image into another, both cut and with the plain chunks merged. */
  ghost function ImageJob(z: Zlib, oldData: seq<Byte>, newData: seq<Byte>): (w: Job)
    requires CutFrom(z, oldData, 0, []).Chunks? && CutFrom(z, newData, 0, []).Chunks?
  {
    Job(z, false, Padded(oldData), Padded(newData), Merged(CutFrom(z, oldData, 0, []).cs),
        Merged(CutFrom(z, newData, 0, []).cs))
  }

  /** The patch between two images whose chunks match in number and type. w is the plan it follows. */
  method DiffImages(z: Zlib, c: Coder, oldData: seq<Byte>, newData: seq<Byte>) returns (r: Diffed, ghost w: Plan)
    requires SelfDelimiting(z) && Holdable(z, oldData) && Holdable(z, newData)
    ensures var o, n := CutFrom(z, oldData, 0, []), CutFrom(z, newData, 0, []);
            && (r.Written? <==> o.Chunks? && n.Chunks? && Kinds(Merged(o.cs)) == Kinds(Merged(n.cs)))
            && (r.Written? ==>
                  && Planned(ImageJob(z, oldData, newData), w) && w.c == c && w.oldData == oldData && w.end == n.end
                  && r.file == FileOf(w.rs))
            && (r.Written? && Faithful(c) && |r.file| < 0x8000_0000 ==>
                  var a := ApplyFile(oldData, r.file, z, c.unpack);
                  if SpareLast(oldData, o.end, w.rs) then a == Emitted(newData + Zeros(n.end - |newData|))
                      else a.OutOfBounds?)
    ensures var o, n := CutFrom(z, oldData, 0, []), CutFrom(z, newData, 0, []);
            r.Written? && Faithful(c) && |r.file| < 0x8000_0000 && o.end <= |oldData| ==>
              ApplyFile(oldData, r.file, z, c.unpack) == Emitted(newData + Zeros(n.end - |newData|))
  {
    hide Planned, SpareLast, FileOf, ApplyFile, Faithful;
    w := Plan(z, c, false, oldData, [], [], [], [], 0, []);
    var o := ReadImage(z, oldData);
    if !o.Chunks? { return NotWritten, w; }
    var n := ReadImage(z, newData);
    if !n.Chunks? { return NotWritten, w; }
    ImageChunksGood(z, oldData);
    ImageChunksGood(z, newData);
    var tgt, nt := MergedList(n.cs);
    var src, ns := MergedList(o.cs);
    var same := SameStructure(src, ns, tgt, nt);
    if !same { return NotWritten, w; }
    assert ns == |Kinds(src[..ns])| == |Kinds(tgt[..nt])| == nt;
    ImageExactness(z, newData);
    r, w := DiffMatched(z, c, oldData, Padded(oldData), src, ns, Padded(newData), tgt, nt, o.end, n.end);
    NoOverhang(oldData, o.end, w.rs);
  }

  lemma NoOverhang(oldData: seq<Byte>, srcEnd: nat, rs: seq<Rec>)
    ensures srcEnd <= |oldData| ==> SpareLast(oldData, srcEnd, rs)
  {
  }

  /** Decides on the chunks of two images that match, merges what became plain, and writes the patch. */
  method DiffMatched(z: Zlib, c: Coder, ghost oldData: seq<Byte>, oldImg: seq<Byte>, src: array<Chunk>, ns0: nat,
                     newImg: seq<Byte>, tgt: array<Chunk>, nt0: nat, ghost srcEnd: nat, ghost tgtEnd: nat)
    returns (r: Diffed, ghost w: Plan)
    requires src != tgt && ns0 == nt0 && ns0 <= src.Length && nt0 <= tgt.Length && oldData <= oldImg
             && tgtEnd <= |newImg|
    requires AllSound(oldImg, src[..ns0]) && AllSound(newImg, tgt[..nt0]) && Kinds(src[..ns0]) == Kinds(tgt[..nt0])
    requires Manageable(oldImg, src[..ns0]) && Manageable(newImg, tgt[..nt0]) && AllExact(z, oldImg, src[..ns0])
    requires Tiles(src[..ns0], 0, srcEnd) && Tiles(tgt[..nt0], 0, tgtEnd)
    requires LastInside(oldData, src[..ns0])
    modifies src, tgt
    ensures r.Written? && r.file == FileOf(w.rs)
    ensures Planned(Job(z, false, oldImg, newImg, old(src[..ns0]), old(tgt[..nt0])), w)
    ensures w.c == c && w.oldData == oldData && w.end == tgtEnd
    ensures Faithful(c) && |r.file| < 0x8000_0000 ==>
              var a := ApplyFile(oldData, r.file, z, c.unpack);
              if SpareLast(oldData, srcEnd, w.rs) then a == Emitted(newImg[..tgtEnd]) else a.OutOfBounds?
  {
    hide Kinds, LastInside, FileOf, Faithful, Merged, Ready, Decided, Planned;
    ghost var job := Job(z, false, oldImg, newImg, src[..ns0], tgt[..nt0]);
    JobGood(job);
    DecideChunks(job, z, false, oldImg, newImg, src, ns0, tgt, nt0);
    ghost var S, T := src[..ns0], tgt[..nt0];
    ImagePaired(job, S, T, srcEnd, tgtEnd);
    StayParallel(job, S, T, srcEnd, tgtEnd);
    LastStays(job, S, T, srcEnd, oldData);
    var nt := MergeAdjacentNormalChunks(tgt, nt0);
    var ns := MergeAdjacentNormalChunks(src, ns0);
    assert ns == nt && src[..ns] == Merged(S) && tgt[..nt] == Merged(T);
    assert forall k :: 0 <= k < nt ==> tgt[k] == Merged(T)[k];
    var file;
    file, w := WritePlan(z, c, false, oldData, oldImg, src, ns, newImg, tgt, nt, tgtEnd);
    PlannedBy(job, w, S, T);
    if Faithful(c) && |file| < 0x8000_0000 { ImageRebuilds(w, srcEnd); }
    return Written(file), w;
  }

  lemma JobGood(w: Job)
    requires !w.zip && AllSound(w.oldImg, w.src) && AllSound(w.newImg, w.tgt) && Kinds(w.src) == Kinds(w.tgt)
    ensures GoodJob(w)
  {
    assert |Kinds(w.src)| == |Kinds(w.tgt)|;
    assert forall k :: 0 <= k < |w.src| ==> Kinds(w.src)[k] == Kinds(w.tgt)[k];
  }

  /** An image without a gzip header whose target is the image itself is patched as one chunk, when the three streams
      of its patch are packed well. */
  lemma UnchangedImage(z: Zlib, c: Coder, img: seq<Byte>, w: Plan)
    requires forall k :: 0 <= k < |img| ==> !GzipAt(img, k)
    requires 160 < |img| < INT_LIMIT && !HeaderCutShort(img, |img| - 3)
    requires CutFrom(z, img, 0, []).Chunks? && Planned(ImageJob(z, img, img), w) && w.c == c
    requires forall z :: -|img| <= z <= 0 ==> BsDiff.FrontSize(c, |img|, z) < |img|
    ensures |w.rs| == 1 && w.rs[0].Patched? && w.rs[0].srcStart == 0 && w.rs[0].srcLen == |img|
    ensures BsDiff.PatchOf(c, img, img, w.rs[0].patch)
  {
    hide BsDiff.FrontSize, BsDiff.PatchOf, MakesPlain, Planned, CutFrom;
    PlainImage(z, img);
    var one := Normal(0, |img|, 0);
    OnePlain(one);
    PlainPlan(ImageJob(z, img, img), w, one);
    assert Contents(Padded(img), one) == img;
    UnchangedPatched(c, img, 0, img, w.rs[0]);
  }

  /** What the applier gets of level 6 or 9 of the encoder with its usual settings. */
  predicate Encodes(z: Zlib, level: int, c: Chunk, bytes: seq<Byte>)
    requires c.Deflate?
  {
    level in {6, 9} && z.deflate(Params(level, 8, -15, 8, 0), c.buffer) == bytes
  }

  /** Which chunks of an image are patched in their inflated form: a chunk that level 6 or 9 of the encoder gives back,
      and that differs from its source chunk, has such a record. */
  lemma RecodedWhen(job: Job, w: Plan, k: nat, level: int) returns (i: nat)
    requires Planned(job, w) && !job.zip && GoodJob(job) && k < |job.tgt| && job.tgt[k].Deflate?
    requires End(job.tgt[k]) <= |job.newImg| && End(job.src[k]) <= |job.oldImg|
    requires Encodes(job.z, level, job.tgt[k], Contents(job.newImg, job.tgt[k]))
    requires Contents(job.newImg, job.tgt[k]) != Contents(job.oldImg, job.src[k])
    ensures i < |w.rs| == |w.tgt| && w.tgt[i].start == job.tgt[k].start
    ensures w.rs[i].Recoded? && w.rs[i].targetLen == job.tgt[k].len && w.rs[i].params.level in {6, 9}
  {
    hide Ready, Merged, Sound, AllSound, Paired;
    var src, tgt :| AllDecided(job, src, tgt) && w.src == Merged(src) && w.tgt == Merged(tgt);
    assert Stays(job, k) && tgt[k] == Decision(job, k);
    MergedKeeps(tgt, tgt[k]);
    i :| 0 <= i < |w.tgt| && w.tgt[i] == tgt[k];
    AsManyRecords(w);
    RecordTells(w, i);
  }

  /** And no other chunk has one. */
  lemma RecodedOnly(job: Job, w: Plan, i: nat) returns (k: nat)
    requires Planned(job, w) && !job.zip && GoodJob(job) && i < |w.rs| && w.rs[i].Recoded?
    ensures k < |job.tgt| == |job.src| && job.tgt[k].Deflate? && i < |w.tgt| && w.tgt[i].start == job.tgt[k].start
    ensures End(job.tgt[k]) <= |job.newImg| && End(job.src[k]) <= |job.oldImg|
    ensures Encodes(job.z, w.rs[i].params.level, job.tgt[k], Contents(job.newImg, job.tgt[k]))
    ensures Contents(job.newImg, job.tgt[k]) != Contents(job.oldImg, job.src[k])
  {
    hide Ready, Merged, Paired, Encodes, Contents;
    var src, tgt :| AllDecided(job, src, tgt) && w.src == Merged(src) && w.tgt == Merged(tgt);
    AsManyRecords(w);
    RecordTells(w, i);
    MergedMember(tgt, w.tgt[i]);
    k :| 0 <= k < |tgt| && tgt[k] == w.tgt[i];
    assert tgt[k] == Decision(job, k);
    DecidedDeflate(job, k);
  }

  lemma DecidedDeflate(job: Job, k: nat)
    requires GoodJob(job) && !job.zip && k < |job.tgt| && Decision(job, k).Deflate?
    ensures job.tgt[k].Deflate? && Decision(job, k).start == job.tgt[k].start
    ensures End(job.tgt[k]) <= |job.newImg| && End(job.src[k]) <= |job.oldImg|
    ensures Encodes(job.z, Decision(job, k).params.level, job.tgt[k], Contents(job.newImg, job.tgt[k]))
    ensures Contents(job.newImg, job.tgt[k]) != Contents(job.oldImg, job.src[k])
  {
    assert Sound(job.newImg, job.tgt[k]) && Sound(job.oldImg, job.src[k]);
  }

  /** The records of an image are made from the source chunks with their numbers. */
  lemma ImageSources(job: Job, w: Plan, i: nat)
    requires Planned(job, w) && !job.zip && i < |w.rs| && !w.rs[i].Raw?
    ensures i < |w.src| && w.rs[i].srcStart == w.src[i].start && w.rs[i].srcLen == Span(w.src[i])
  {
    hide Ready, Merged, Paired, Makes, MakesAt, Sound, AllSound;
    AsManyRecords(w);
    RecordTells(w, i);
  }

  lemma OnePlain(one: Chunk)
    ensures Merged([one]) == [one]
  {
  }

  /** A plan for one plain chunk on either side. */
  lemma PlainPlan(job: Job, w: Plan, one: Chunk)
    requires Planned(job, w) && !job.zip && one.Normal? && job.src == [one] && job.tgt == [one]
    ensures w.oldImg == job.oldImg && w.newImg == job.newImg
    ensures |w.rs| == 1 && Sound(w.oldImg, one) && Sound(w.newImg, one)
    ensures MakesPlain(w.c, Contents(w.oldImg, one), one.start, Contents(w.newImg, one), w.rs[0])
  {
    hide MakesPlain, Merged, Ready, Paired;
    var src, tgt :| AllDecided(job, src, tgt) && w.src == Merged(src) && w.tgt == Merged(tgt);
    assert src == [one] && tgt == [one];
    OnePlain(one);
    AsManyRecords(w);
    PlanTells(w, 0);
  }

  lemma StartGood(z: Zlib, img: seq<Byte>)
    ensures Good(z, img, [], 0)
  {
  }

  /** The chunks of the target end where the file ends, or up to four bytes later: when the last
      footer overhangs, that many zero bytes come out behind the target. */
  lemma ImageExactness(z: Zlib, newData: seq<Byte>)
    requires SelfDelimiting(z) && CutFrom(z, newData, 0, []).Chunks?
    ensures var end := CutFrom(z, newData, 0, []).end;
            && |newData| <= end <= |newData| + 4
            && Padded(newData)[..end] == newData + Zeros(end - |newData|)
            && (newData + Zeros(end - |newData|) == newData <==> end == |newData|)
  {
    hide CutFrom;
    StartGood(z, newData);
    hide Good;
    CutGood(z, newData, 0, []);
    var end := CutFrom(z, newData, 0, []).end;
    assert end != |newData| ==> |newData + Zeros(end - |newData|)| != |newData|;
  }
}
