/** imgdiff on zip files: deflated entries are patched from the source entry of the same name,
    everything else from the whole source file. */
module ZipDiff {
  import opened Bytes
  import opened Offsets
  import opened BsPatch
  import opened ImageChunks
  import opened ImageCut
  import opened ImageMatch
  import opened ImagePatch
  import opened ImgDiff

  /** The chunk that stands for the whole source file. */
  function Whole(img: seq<Byte>): (r: Chunk) {
    Normal(0, |img|, 0)
  }

  function SourceCut(z: Zlib, img: seq<Byte>, es: seq<ZipEntry>, junk: Junk): (r: Cut) {
    ZipFrom(z, img, es, junk, 0, 0, [Whole(img)])
  }

  function TargetCut(z: Zlib, img: seq<Byte>, es: seq<ZipEntry>, junk: Junk): (r: Cut) {
    ZipFrom(z, img, es, junk, 0, 0, [])
  }

  /** A source list: the whole file first, and deflate chunks whose streams inflate. */
  ghost predicate SourceList(z: Zlib, img: seq<Byte>, cs: seq<Chunk>) {
    && |cs| > 0 && cs[0] == Whole(img) && AllSound(img, cs) && Manageable(img, cs)
    && forall i :: 0 <= i < |cs| ==> Inflates(z, img, cs[i])
  }

  lemma SourceCutGood(z: Zlib, img: seq<Byte>, es: seq<ZipEntry>, junk: Junk)
    requires SourceCut(z, img, es, junk).Chunks? && |img| < INT_LIMIT
    ensures SourceList(z, img, SourceCut(z, img, es, junk).cs)
  {
    var cs := SourceCut(z, img, es, junk).cs;
    assert [Whole(img)] + [] == [Whole(img)];
    ZipTiles(z, img, es, junk, 0, 0, [Whole(img)], []);
    forall i | 0 <= i < |cs|
      ensures Sound(img, cs[i]) && Inflates(z, img, cs[i])
    {
      if i > 0 { assert cs[i] == cs[1..][i - 1] && Inflates(z, img, cs[1..][i - 1]); }
    }
  }

  lemma TargetCutGood(z: Zlib, img: seq<Byte>, es: seq<ZipEntry>, junk: Junk)
    requires TargetCut(z, img, es, junk).Chunks? && |img| < INT_LIMIT && DistinctEntries(es)
    ensures var cs := TargetCut(z, img, es, junk).cs;
            AllSound(img, cs) && Tiles(cs, 0, |img|) && Manageable(img, cs) && DistinctNames(cs)
  {
    var cs := TargetCut(z, img, es, junk).cs;
    var none: seq<Chunk> := [];
    assert none + none == none;
    ZipTiles(z, img, es, junk, 0, 0, [], []);
    assert cs[0..] == cs;
    forall i | 0 <= i < |cs| && cs[i].Deflate?
      ensures |cs[i].buffer| < INT_LIMIT
    {
      assert Inflates(z, img, cs[0..][i]) && Sound(img, cs[i]);
    }
    ZipNames(z, img, es, junk, 0, 0, []);
  }

  /** A target chunk that stays deflated still finds its partner, unchanged, after all decisions. */
  lemma PartnerStays(w: Job, src: seq<Chunk>, tgt: seq<Chunk>, k: nat)
    requires w.zip && Decided(w, src, tgt, |tgt|) && k < |tgt| && tgt[k].Deflate?
    ensures w.tgt[k].Deflate? && Stays(w, k) && tgt[k].name == w.tgt[k].name
    ensures var s := Partner(true, w.src, k, w.tgt[k]);
            s.Some? && FindName(src, tgt[k].name, 0) == s && src[s.value] == w.src[s.value]
  {
    assert tgt[k] == Decision(w, k) && Settled(w, src, k);
  }

  /** Every target chunk of the merged list has its source. */
  lemma ZipPaired(w: Job, src: seq<Chunk>, tgt: seq<Chunk>)
    requires w.zip && Decided(w, src, tgt, |tgt|) && SourceList(w.z, w.oldImg, w.src)
    requires Manageable(w.newImg, w.tgt) && Tiles(w.tgt, 0, |w.newImg|)
    ensures Paired(true, w.oldImg, src, w.newImg, Merged(tgt))
    ensures Tiles(Merged(tgt), 0, |w.newImg|) && src[0] == Whole(w.oldImg)
    ensures forall k :: 0 <= k < |Merged(tgt)| ==> Encoded(w.z, w.newImg, Merged(tgt)[k])
  {
    var T := Merged(tgt);
    DecidedTarget(w, src, tgt, |w.newImg|);
    DecidedSource(w, src, tgt);
    MergedTarget(w.z, w.newImg, tgt, |w.newImg|);
    forall i | 0 <= i < |T|
      ensures var s := Source(true, src, T, i); s < |src| && src[s].Normal? == T[i].Normal?
    {
      if T[i].Deflate? {
        var k := Origin(tgt, T[i]);
        PartnerStays(w, src, tgt, k);
      }
    }
  }

  lemma Origin(tgt: seq<Chunk>, d: Chunk) returns (k: nat)
    requires d.Deflate? && d in Merged(tgt)
    ensures k < |tgt| && tgt[k] == d
  {
    MergedMember(tgt, d);
    k :| 0 <= k < |tgt| && tgt[k] == d;
  }

  /** The entry that target chunk k is patched from inflates to the length it states. */
  ghost predicate PartnerExact(w: Job, k: nat)
    requires GoodJob(w) && w.zip && k < |w.tgt| && w.tgt[k].Deflate? && Stays(w, k)
  {
    Exact(w.z, w.oldImg, w.src[Partner(true, w.src, k, w.tgt[k]).value])
  }

  ghost predicate PartnersExact(w: Job)
    requires GoodJob(w) && w.zip
  {
    forall k {:trigger w.tgt[k]} :: 0 <= k < |w.tgt| && w.tgt[k].Deflate? && Stays(w, k) ==> PartnerExact(w, k)
  }

  /** The source of merged target chunk i is usable exactly when it is a partner that is exact. */
  lemma SourceUsable(w: Job, p: Plan, src: seq<Chunk>, tgt: seq<Chunk>, i: nat)
    requires w.zip && Decided(w, src, tgt, |tgt|) && SourceList(w.z, w.oldImg, w.src)
    requires Ready(p) && p.zip && p.z == w.z && p.oldData == p.oldImg == w.oldImg && p.src == src
             && p.tgt == Merged(tgt)
    requires src[0] == Whole(w.oldImg) && i < |p.tgt|
    ensures Usable(p, i) || Undersized(p, i)
    ensures p.tgt[i].Normal? ==> Usable(p, i)
    ensures forall k :: 0 <= k < |tgt| && p.tgt[i].Deflate? && tgt[k] == p.tgt[i] ==>
              tgt[k].Deflate? && w.tgt[k].Deflate? && Stays(w, k) && (Usable(p, i) <==> PartnerExact(w, k))
  {
    if p.tgt[i].Deflate? {
      var k0 := Origin(tgt, p.tgt[i]);
      PartnerStays(w, src, tgt, k0);
      var s := Partner(true, w.src, k0, w.tgt[k0]).value;
      assert Source(true, src, p.tgt, i) == s && Inflates(w.z, w.oldImg, w.src[s]) && Sound(w.oldImg, w.src[s]);
      forall k | 0 <= k < |tgt| && tgt[k] == p.tgt[i]
        ensures w.tgt[k].Deflate? && Stays(w, k) && (Usable(p, i) <==> PartnerExact(w, k))
      {
        PartnerStays(w, src, tgt, k);
      }
    }
  }

  /** The patch rebuilds the target exactly when every entry used inflates to the length it states;
      otherwise applying it is rejected. */
  lemma ZipRebuilds(w: Job, p: Plan, src: seq<Chunk>, tgt: seq<Chunk>)
    requires w.zip && Decided(w, src, tgt, |tgt|) && SourceList(w.z, w.oldImg, w.src)
    requires Ready(p) && p.zip && p.z == w.z && p.oldData == p.oldImg == w.oldImg && p.src == src
             && p.tgt == Merged(tgt)
    requires src[0] == Whole(w.oldImg) && Faithful(p.c) && |FileOf(p.rs)| < 0x8000_0000
    ensures var r := ApplyFile(p.oldData, FileOf(p.rs), p.z, p.c.unpack);
            if PartnersExact(w) then r == Emitted(p.newImg[..p.end]) else r.Rejected?
  {
    hide Whole, Faithful, FileOf, ApplyFile;
    forall i | 0 <= i < |p.tgt|
      ensures Usable(p, i) || Undersized(p, i)
      ensures PartnersExact(w) ==> Usable(p, i)
    {
      SourceUsable(w, p, src, tgt, i);
      if p.tgt[i].Deflate? {
        var k := Origin(tgt, p.tgt[i]);
        assert w.tgt[k].Deflate?;
      }
    }
    var k := FirstUndersized(p, 0);
    if k == |p.tgt| && !PartnersExact(w) { NotAllUsable(w, p, src, tgt); }
    PlanRebuilds(p, k);
    if k < |p.tgt| { assert Undersized(p, k); }
  }

  lemma NotAllUsable(w: Job, p: Plan, src: seq<Chunk>, tgt: seq<Chunk>)
    requires w.zip && Decided(w, src, tgt, |tgt|) && SourceList(w.z, w.oldImg, w.src)
    requires Ready(p) && p.zip && p.z == w.z && p.oldData == p.oldImg == w.oldImg && p.src == src
             && p.tgt == Merged(tgt)
    requires src[0] == Whole(w.oldImg) && !PartnersExact(w)
    ensures !(forall i :: 0 <= i < |p.tgt| ==> Usable(p, i))
  {
    var k: nat :| k < |w.tgt| && w.tgt[k].Deflate? && Stays(w, k) && !PartnerExact(w, k);
    assert tgt[k] == Decision(w, k);
    MergedKeeps(tgt, tgt[k]);
    var i: nat :| i < |p.tgt| && p.tgt[i] == tgt[k];
    SourceUsable(w, p, src, tgt, i);
    assert !Usable(p, i);
  }

  /** What the records of a zip file are made from: a patch of plain bytes from the whole source file, and one of
      inflated data from a source entry of the same name. */
  lemma ZipSources(w: Job, p: Plan, i: nat) returns (k: nat)
    requires Planned(w, p) && w.zip && SourceList(w.z, w.oldImg, w.src) && i < |p.rs|
    ensures p.rs[i].Patched? ==> p.rs[i].srcStart == 0 && p.rs[i].srcLen == |w.oldImg|
    ensures p.rs[i].Recoded? ==>
              && k < |w.src| && w.src[k].Deflate? && i < |p.tgt| && p.tgt[i].Deflate? && w.src[k].name == p.tgt[i].name
              && p.rs[i].srcStart == w.src[k].start && p.rs[i].srcLen == w.src[k].deflateLen
              && p.rs[i].expandedLen == w.src[k].len
  {
    hide Ready, Merged, Paired, Makes, MakesAt, Sound, AllSound;
    var src, tgt :| AllDecided(w, src, tgt) && p.src == src && p.tgt == Merged(tgt);
    AsManyRecords(p);
    RecordTells(p, i);
    k := Source(true, p.src, p.tgt, i);
    assert src[0] == w.src[0] || src[0] == ToNormal(w.src[0]);
    if p.tgt[i].Deflate? {
      var j := Origin(tgt, p.tgt[i]);
      PartnerStays(w, src, tgt, j);
    }
  }

  /** Decides on the chunks of two zip files, merges what became plain, and writes the patch. */
  method DiffEntries(ghost w: Job, z: Zlib, c: Coder, oldData: seq<Byte>, newData: seq<Byte>, src: array<Chunk>,
                     ns: nat, tgt: array<Chunk>, nt0: nat)
    returns (r: Diffed, ghost plan: Plan)
    requires src != tgt && ns <= src.Length && nt0 <= tgt.Length
    requires w == Job(z, true, oldData, newData, src[..ns], tgt[..nt0]) && GoodJob(w)
    requires SourceList(z, oldData, w.src) && Manageable(newData, w.tgt) && Tiles(w.tgt, 0, |newData|)
    modifies src, tgt
    ensures r.Written? && r.file == FileOf(plan.rs) && Planned(w, plan)
    ensures plan.c == c && plan.oldData == oldData && plan.end == |newData|
    ensures Faithful(c) && |r.file| < 0x8000_0000 ==>
              var a := ApplyFile(oldData, r.file, z, c.unpack);
              if PartnersExact(w) then a == Emitted(newData) else a.Rejected?
  {
    hide GoodJob, Faithful, ApplyFile, PartnersExact, SourceList, Tiles, Decided, Ready, FileOf, Planned;
    DecideChunks(w, z, true, oldData, newData, src, ns, tgt, nt0);
    ghost var S, T := src[..ns], tgt[..nt0];
    ZipPaired(w, S, T);
    var nt := MergeAdjacentNormalChunks(tgt, nt0);
    assert src[..ns] == S && tgt[..nt] == Merged(T);
    assert forall k :: 0 <= k < nt ==> tgt[k] == Merged(T)[k];
    var file;
    file, plan := WritePlan(z, c, true, oldData, oldData, src, ns, newData, tgt, nt, |newData|);
    if Faithful(c) && |file| < 0x8000_0000 { ZipRebuilds(w, plan, S, T); }
    assert newData[..|newData|] == newData;
    PlannedBy(w, plan, S, T);
    return Written(file), plan;
  }

  /** The patch between two zip files, given their deflated entries by offset. */
  method DiffZips(z: Zlib, c: Coder, oldData: seq<Byte>, oldEntries: seq<ZipEntry>, newData: seq<Byte>,
                  newEntries: seq<ZipEntry>, oldJunk: Junk, newJunk: Junk)
    returns (r: Diffed, ghost w: Job, ghost plan: Plan)
    requires |oldData| < INT_LIMIT && |newData| < INT_LIMIT && DistinctEntries(newEntries)
    ensures var o, n := SourceCut(z, oldData, oldEntries, oldJunk), TargetCut(z, newData, newEntries, newJunk);
            && (r.Written? <==> o.Chunks? && n.Chunks?)
            && (r.Written? ==> w == Job(z, true, oldData, newData, o.cs, n.cs) && GoodJob(w))
    ensures r.Written? ==>
              && Planned(w, plan) && plan.c == c && plan.oldData == oldData && plan.end == |newData|
              && r.file == FileOf(plan.rs)
    ensures r.Written? && Faithful(c) && |r.file| < 0x8000_0000 ==>
              var a := ApplyFile(oldData, r.file, z, c.unpack);
              if PartnersExact(w) then a == Emitted(newData) else a.Rejected?
  {
    hide DistinctEntries, Faithful, ApplyFile, PartnersExact, Planned, FileOf;
    plan := Plan(z, c, true, oldData, [], [], [], [], 0, []);
    w := Job(z, true, oldData, newData, [], []);
    var o := ReadZip(z, oldData, oldEntries, oldJunk, true);
    if !o.Chunks? { return NotWritten, w, plan; }
    var n := ReadZip(z, newData, newEntries, newJunk, false);
    if !n.Chunks? { return NotWritten, w, plan; }
    SourceCutGood(z, oldData, oldEntries, oldJunk);
    TargetCutGood(z, newData, newEntries, newJunk);
    var src := new Chunk[|o.cs|](i requires 0 <= i < |o.cs| => o.cs[i]);
    var tgt := new Chunk[|n.cs|](i requires 0 <= i < |n.cs| => n.cs[i]);
    assert src[..|o.cs|] == o.cs && tgt[..|n.cs|] == n.cs;
    w := Job(z, true, oldData, newData, o.cs, n.cs);
    r, plan := DiffEntries(w, z, c, oldData, newData, src, |o.cs|, tgt, |n.cs|);
  }
}
