/** How imgdiff cuts a file: stretches of plain bytes and embedded deflate streams. */
module ImageChunks {
  import opened Bytes

  /** The encoder settings of deflateInit2. */
  datatype Params = Params(level: int, algorithm: int, windowBits: int, memLevel: int, strategy: int)

  /** A complete deflate stream read from the front of some input. */
  datatype Inflated = Inflated(used: nat, output: seq<Byte>)

  /** zlib: inflate yields None unless a complete stream starts the input. */
  datatype Zlib = Zlib(inflate: seq<Byte> -> Option<Inflated>, deflate: (Params, seq<Byte>) -> seq<Byte>)

  /** A chunk of a file. Offsets point into the file; inflated data has a buffer of its own. */
  datatype Chunk =
    | Normal(start: nat, len: nat, data: nat)
    | Deflate(start: nat, len: nat, buffer: seq<Byte>, deflateLen: nat, deflateData: nat, name: Option<seq<Byte>>,
              params: Params)

  /** How many bytes of the file the chunk stands for. */
  function Span(c: Chunk): (r: nat) {
    if c.Normal? then c.len else c.deflateLen
  }

  function End(c: Chunk): (r: nat) {
    c.start + Span(c)
  }

  /** Every pointer of the chunk is where it should be in the file image img. */
  ghost predicate Sound(img: seq<Byte>, c: Chunk) {
    && End(c) <= |img|
    && (if c.Normal? then c.data == c.start else c.deflateData == c.start && |c.buffer| == c.len)
  }

  ghost predicate AllSound(img: seq<Byte>, cs: seq<Chunk>) {
    forall i :: 0 <= i < |cs| ==> Sound(img, cs[i])
  }

  /** The bytes of the file the chunk stands for. */
  function Contents(img: seq<Byte>, c: Chunk): (r: seq<Byte>)
    requires End(c) <= |img|
  {
    img[c.start..End(c)]
  }

  /** The chunks stand for from..to, one after the other, leaving nothing out. */
  ghost predicate Tiles(cs: seq<Chunk>, from: nat, to: nat) {
    if cs == [] then from == to else cs[0].start == from && Tiles(cs[1..], End(cs[0]), to)
  }

  lemma {:induction false} TilesAppend(cs: seq<Chunk>, from: nat, mid: nat, c: Chunk)
    requires Tiles(cs, from, mid) && c.start == mid
    ensures Tiles(cs + [c], from, End(c))
  {
    if cs != [] {
      TilesAppend(cs[1..], End(cs[0]), mid, c);
      assert (cs + [c])[1..] == cs[1..] + [c];
    }
  }

  lemma {:induction false} TilesUpdate(cs: seq<Chunk>, from: nat, to: nat, i: nat, c: Chunk)
    requires Tiles(cs, from, to) && i < |cs| && c.start == cs[i].start && Span(c) == Span(cs[i])
    ensures Tiles(cs[i := c], from, to)
  {
    if i > 0 {
      TilesUpdate(cs[1..], End(cs[0]), to, i - 1, c);
      assert cs[i := c][1..] == cs[1..][i - 1 := c];
    } else {
      assert cs[i := c][1..] == cs[1..];
    }
  }

  /** The bytes the chunks from number i on stand for. */
  ghost function Covered(img: seq<Byte>, cs: seq<Chunk>, i: nat): (r: seq<Byte>)
    requires AllSound(img, cs) && i <= |cs|
    decreases |cs| - i
  {
    if i == |cs| then [] else Contents(img, cs[i]) + Covered(img, cs, i + 1)
  }

  /** Chunks that tile a file stand for exactly its bytes. */
  lemma {:induction false} TilesCover(img: seq<Byte>, cs: seq<Chunk>, i: nat, from: nat, to: nat)
    requires AllSound(img, cs) && i <= |cs| && Tiles(cs[i..], from, to)
    ensures from <= to && (i < |cs| ==> to <= |img|)
    ensures to <= |img| ==> Covered(img, cs, i) == img[from..to]
    decreases |cs| - i
  {
    if i < |cs| {
      assert cs[i..][1..] == cs[i + 1..];
      TilesCover(img, cs, i + 1, End(cs[i]), to);
    }
  }

  // ----- Merging adjacent normal chunks -----

  predicate Joins(a: Chunk, b: Chunk) {
    a.Normal? && b.Normal? && b.start == a.start + a.len && b.data == a.data + a.len
  }

  function Join(a: Chunk, b: Chunk): (r: Chunk)
    requires a.Normal? && b.Normal?
  {
    Normal(a.start, a.len + b.len, a.data)
  }

  /** The list with every run of normal chunks that form a solid block made one chunk. */
  function Merged(cs: seq<Chunk>): (r: seq<Chunk>)
    decreases |cs|
  {
    if |cs| >= 2 && Joins(cs[0], cs[1]) then Merged([Join(cs[0], cs[1])] + cs[2..])
    else if cs == [] then []
    else [cs[0]] + Merged(cs[1..])
  }

  /** run is what the chunks lo..hi merge into. */
  ghost predicate RunOf(cs: seq<Chunk>, lo: nat, hi: nat, run: Chunk)
    requires lo < hi <= |cs|
  {
    && (hi == lo + 1 ==> run == cs[lo])
    && (hi > lo + 1 ==> run.Normal?)
    && (run.Normal? ==> && cs[lo].Normal? && run.start == cs[lo].start && run.data == cs[lo].data && cs[hi - 1].Normal?
                        && End(run) == End(cs[hi - 1]) && run.data + run.len == cs[hi - 1].data + cs[hi - 1].len)
  }

  lemma RunGrows(cs: seq<Chunk>, lo: nat, hi: nat, run: Chunk) returns (run': Chunk)
    requires lo < hi < |cs| && RunOf(cs, lo, hi, run) && run.Normal? && Joins(cs[hi - 1], cs[hi])
    ensures run'.Normal? && RunOf(cs, lo, hi + 1, run')
    ensures Merged([run'] + cs[hi + 1..]) == Merged([run] + cs[hi..])
  {
    run' := Join(run, cs[hi]);
    var rest := [run] + cs[hi..];
    assert rest[0] == run && rest[1] == cs[hi] && rest[2..] == cs[hi + 1..];
  }

  lemma RunEnds(cs: seq<Chunk>, lo: nat, hi: nat, run: Chunk)
    requires lo < hi <= |cs| && RunOf(cs, lo, hi, run)
    requires hi < |cs| ==> !Joins(cs[hi - 1], cs[hi])
    ensures Merged([run] + cs[hi..]) == [run] + Merged(cs[hi..])
  {
    var rest := [run] + cs[hi..];
    assert rest[1..] == cs[hi..];
    if hi < |cs| { assert rest[1] == cs[hi]; }
  }

  /** Compacts the first n chunks in place and returns how many are left. */
  method MergeAdjacentNormalChunks(chunks: array<Chunk>, n: nat) returns (out: nat)
    requires n <= chunks.Length
    modifies chunks
    ensures out <= n && chunks[..out] == Merged(old(chunks[..n]))
  {
    ghost var cs := chunks[..n];
    out := 0;
    var inStart := 0;
    while inStart < n
      invariant out <= inStart <= n
      invariant forall k :: inStart <= k < n ==> chunks[k] == cs[k]
      invariant chunks[..out] + Merged(cs[inStart..]) == Merged(cs)
    {
      ghost var run, head := cs[inStart], chunks[..out];
      var inEnd;
      inEnd, run := FindRun(chunks, n, inStart, cs);
      if inEnd == inStart + 1 {
        if out != inStart {
          chunks[out] := chunks[inStart];
        }
      } else {
        chunks[out] := Normal(chunks[inStart].start,
                              chunks[inEnd - 1].len + (chunks[inEnd - 1].start - chunks[inStart].start),
                              chunks[inStart].data);
      }
      assert chunks[..out + 1] == head + [run];
      Regroup(head, run, Merged(cs[inEnd..]));
      out := out + 1;
      inStart := inEnd;
    }
  }

  lemma Regroup<T>(head: seq<T>, x: T, rest: seq<T>)
    ensures (head + [x]) + rest == head + ([x] + rest)
  {
  }

  /** Finds the end of the run that starts at inStart. */
  method FindRun(chunks: array<Chunk>, n: nat, inStart: nat, ghost cs: seq<Chunk>)
    returns (inEnd: nat, ghost run: Chunk)
    requires inStart < n <= chunks.Length && n == |cs| && forall k :: inStart <= k < n ==> chunks[k] == cs[k]
    ensures inStart < inEnd <= n && RunOf(cs, inStart, inEnd, run)
    ensures Merged(cs[inStart..]) == [run] + Merged(cs[inEnd..])
  {
    inEnd, run := inStart + 1, cs[inStart];
    assert [run] + cs[inEnd..] == cs[inStart..];
    if chunks[inStart].Normal? {
      while inEnd < n && Joins(chunks[inEnd - 1], chunks[inEnd])
        invariant inStart < inEnd <= n
        invariant RunOf(cs, inStart, inEnd, run) && run.Normal?
        invariant Merged([run] + cs[inEnd..]) == Merged(cs[inStart..])
      {
        run := RunGrows(cs, inStart, inEnd, run);
        inEnd := inEnd + 1;
      }
    }
    RunEnds(cs, inStart, inEnd, run);
  }

  // ----- What merging preserves -----

  /** Merging loses no byte and moves none. */
  lemma {:induction false} MergedTiles(img: seq<Byte>, cs: seq<Chunk>, from: nat, to: nat)
    requires AllSound(img, cs) && Tiles(cs, from, to)
    ensures AllSound(img, Merged(cs)) && Tiles(Merged(cs), from, to)
    decreases |cs|
  {
    if |cs| >= 2 && Joins(cs[0], cs[1]) {
      var cs' := [Join(cs[0], cs[1])] + cs[2..];
      assert cs[1..][1..] == cs[2..] == cs'[1..];
      MergedTiles(img, cs', from, to);
    } else if cs != [] {
      MergedTiles(img, cs[1..], End(cs[0]), to);
      assert Merged(cs)[1..] == Merged(cs[1..]);
    }
  }

  ghost predicate NoneJoin(cs: seq<Chunk>) {
    forall i :: 0 <= i < |cs| - 1 ==> !Joins(cs[i], cs[i + 1])
  }

  /** Every run is merged: no two neighbours are left that could be joined. */
  lemma {:induction false} MergedNoneJoin(cs: seq<Chunk>)
    ensures NoneJoin(Merged(cs))
    ensures cs != [] ==>
              && Merged(cs) != [] && Merged(cs)[0].start == cs[0].start && Merged(cs)[0].Normal? == cs[0].Normal?
              && (cs[0].Normal? ==> Merged(cs)[0].data == cs[0].data)
    decreases |cs|
  {
    if |cs| >= 2 && Joins(cs[0], cs[1]) {
      MergedNoneJoin([Join(cs[0], cs[1])] + cs[2..]);
    } else if cs != [] {
      MergedNoneJoin(cs[1..]);
      var m := Merged(cs[1..]);
      assert Merged(cs) == [cs[0]] + m;
      if m != [] { assert !Joins(cs[0], m[0]); }
      forall i | 0 <= i < |m|
        ensures !Joins(Merged(cs)[i], Merged(cs)[i + 1])
      {
        assert Merged(cs)[i + 1] == m[i];
        if i > 0 { assert !Joins(m[i - 1], m[i]); }
      }
    }
  }

  lemma {:induction false} MergedUnchanged(cs: seq<Chunk>)
    requires NoneJoin(cs)
    ensures Merged(cs) == cs
  {
    if cs != [] {
      if |cs| >= 2 { assert !Joins(cs[0], cs[0 + 1]); }
      forall i | 0 <= i < |cs| - 2
        ensures !Joins(cs[1..][i], cs[1..][i + 1])
      {
        assert !Joins(cs[i + 1], cs[i + 1 + 1]);
      }
      MergedUnchanged(cs[1..]);
    }
  }

  /** Merging again changes nothing. */
  lemma MergedTwice(cs: seq<Chunk>)
    ensures Merged(Merged(cs)) == Merged(cs)
  {
    MergedNoneJoin(cs);
    MergedUnchanged(Merged(cs));
  }

  function Deflates(cs: seq<Chunk>): (r: seq<Chunk>) {
    if cs == [] then [] else (if cs[0].Deflate? then [cs[0]] else []) + Deflates(cs[1..])
  }

  /** The deflate chunks come through merging as they are and in their order. */
  lemma {:induction false} MergedDeflates(cs: seq<Chunk>)
    ensures Deflates(Merged(cs)) == Deflates(cs)
    decreases |cs|
  {
    if |cs| >= 2 && Joins(cs[0], cs[1]) {
      var cs' := [Join(cs[0], cs[1])] + cs[2..];
      assert cs[1..][1..] == cs[2..] == cs'[1..];
      assert cs[1..][0] == cs[1] && cs'[0].Normal?;
      MergedDeflates(cs');
    } else if cs != [] {
      MergedDeflates(cs[1..]);
      assert Merged(cs)[0] == cs[0] && Merged(cs)[1..] == Merged(cs[1..]);
    }
  }

  lemma KindsStep(c: Chunk, cs: seq<Chunk>)
    ensures Kinds([c] + cs) == [c.Normal?] + Kinds(cs)
  {
  }

  /** Which chunks are normal. */
  function Kinds(cs: seq<Chunk>): (r: seq<bool>)
    ensures |r| == |cs| && forall i :: 0 <= i < |cs| ==> r[i] == cs[i].Normal?
  {
    seq(|cs|, i requires 0 <= i < |cs| => cs[i].Normal?)
  }

  function Collapsed(ks: seq<bool>): (r: seq<bool>) {
    if |ks| >= 2 && ks[0] && ks[1] then Collapsed(ks[1..])
    else if ks == [] then []
    else [ks[0]] + Collapsed(ks[1..])
  }

  lemma {:induction false} MergedKinds(img: seq<Byte>, cs: seq<Chunk>, from: nat, to: nat)
    requires AllSound(img, cs) && Tiles(cs, from, to)
    ensures Kinds(Merged(cs)) == Collapsed(Kinds(cs))
    decreases |cs|
  {
    hide Kinds;
    if cs == [] {
      NoKinds();
    } else {
      var rest := cs[1..];
      assert cs == [cs[0]] + rest;
      KindsStep(cs[0], rest);
      if |cs| >= 2 {
        assert rest == [cs[1]] + cs[2..] && Tiles(rest, End(cs[0]), to);
        KindsStep(cs[1], cs[2..]);
      } else {
        NoKinds();
      }
      if |cs| >= 2 && Joins(cs[0], cs[1]) {
        var cs' := [Join(cs[0], cs[1])] + cs[2..];
        assert cs'[1..] == cs[2..];
        KindsStep(cs'[0], cs[2..]);
        MergedKinds(img, cs', from, to);
        CollapsedStep(true, [true] + Kinds(cs[2..]));
      } else {
        MergedKinds(img, rest, End(cs[0]), to);
        KindsStep(cs[0], Merged(rest));
        CollapsedStep(cs[0].Normal?, Kinds(rest));
      }
    }
  }

  lemma CollapsedStep(k: bool, ks: seq<bool>)
    ensures Collapsed([k] + ks) == if ks != [] && k && ks[0] then Collapsed(ks) else [k] + Collapsed(ks)
  {
    assert ([k] + ks)[1..] == ks;
  }

  lemma NoKinds()
    ensures Kinds([]) == []
  {
  }

  /** Two tilings with the same chunk types stay parallel when both are merged. */
  lemma MergedParallel(img: seq<Byte>, cs: seq<Chunk>, to: nat, img': seq<Byte>, cs': seq<Chunk>, to': nat)
    requires AllSound(img, cs) && Tiles(cs, 0, to) && AllSound(img', cs') && Tiles(cs', 0, to')
    requires Kinds(cs) == Kinds(cs')
    ensures |Merged(cs)| == |Merged(cs')| && Kinds(Merged(cs)) == Kinds(Merged(cs'))
  {
    MergedKinds(img, cs, 0, to);
    MergedKinds(img', cs', 0, to');
    assert |Merged(cs)| == |Kinds(Merged(cs))|;
  }

  lemma {:induction false} MergedMember(cs: seq<Chunk>, d: Chunk)
    requires d.Deflate? && d in Merged(cs)
    ensures d in cs
    decreases |cs|
  {
    if |cs| >= 2 && Joins(cs[0], cs[1]) {
      MergedMember([Join(cs[0], cs[1])] + cs[2..], d);
    } else if d != cs[0] {
      MergedMember(cs[1..], d);
    }
  }

  lemma {:induction false} MergedKeeps(cs: seq<Chunk>, d: Chunk)
    requires d.Deflate? && d in cs
    ensures d in Merged(cs)
    decreases |cs|
  {
    if |cs| >= 2 && Joins(cs[0], cs[1]) {
      assert d in cs[2..];
      MergedKeeps([Join(cs[0], cs[1])] + cs[2..], d);
    } else if d != cs[0] {
      MergedKeeps(cs[1..], d);
    }
  }

  /** Chunks of the same places and lengths tile the same stretch. */
  lemma {:induction false} TilesLike(cs: seq<Chunk>, cs': seq<Chunk>, from: nat, to: nat)
    requires Tiles(cs, from, to) && |cs| == |cs'|
    requires forall i :: 0 <= i < |cs| ==> cs[i].start == cs'[i].start && Span(cs[i]) == Span(cs'[i])
    ensures Tiles(cs', from, to)
  {
    if cs != [] { TilesLike(cs[1..], cs'[1..], End(cs[0]), to); }
  }

  lemma {:induction false} TilesEnd(cs: seq<Chunk>, from: nat, to: nat, i: nat)
    requires Tiles(cs, from, to) && i < |cs|
    ensures from <= to && End(cs[i]) <= to
  {
    if i > 0 {
      TilesEnd(cs[1..], End(cs[0]), to, i - 1);
    } else if |cs| > 1 {
      TilesEnd(cs[1..], End(cs[0]), to, 0);
    }
  }

  /** All chunks but the last end before the last one starts. */
  lemma {:induction false} TilesBeforeLast(cs: seq<Chunk>, from: nat, to: nat, i: nat)
    requires Tiles(cs, from, to) && i < |cs| - 1
    ensures End(cs[i]) <= cs[|cs| - 1].start
  {
    if i > 0 {
      TilesBeforeLast(cs[1..], End(cs[0]), to, i - 1);
    } else if |cs| > 2 {
      TilesBeforeLast(cs[1..], End(cs[0]), to, 0);
    }
  }

  /** Merging moves the start of the last chunk to the front at most. */
  lemma {:induction false} MergedLast(cs: seq<Chunk>, from: nat, to: nat)
    requires Tiles(cs, from, to) && cs != []
    ensures Merged(cs) != [] && Merged(cs)[|Merged(cs)| - 1].start <= cs[|cs| - 1].start
    decreases |cs|
  {
    if |cs| >= 2 && Joins(cs[0], cs[1]) {
      var cs' := [Join(cs[0], cs[1])] + cs[2..];
      assert cs[1..][1..] == cs[2..] == cs'[1..];
      MergedLast(cs', from, to);
    } else if |cs| > 1 {
      MergedLast(cs[1..], End(cs[0]), to);
    } else {
      assert Merged(cs[1..]) == [];
    }
  }
}
