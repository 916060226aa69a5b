/** Breaking a file into chunks: gzip members in an image, deflated entries in a zip file. */
module ImageCut {
  import opened Bytes
  import opened ImageChunks
  import opened Wire

  const GZIP_HEADER_LEN := 10
  const GZIP_FOOTER_LEN := 8

  /** What becomes of breaking a file up. */
  datatype Cut =
    | Chunks(cs: seq<Chunk>, end: nat)
    | Refused          // an error is reported
    | NeverReturns     // the loop makes no progress
    | OutsideBuffer    // memory outside the file's buffer is read

  /** An inflated stream has a definite end, and what follows it does not matter. */
  ghost predicate SelfDelimiting(z: Zlib) {
    forall x: seq<Byte> {:trigger z.inflate(x)} :: z.inflate(x).Some? ==>
      var used := z.inflate(x).value.used;
      used <= |x| && z.inflate(x[..used]) == z.inflate(x)
  }

  /** One call of inflate with room for so many bytes of output. */
  function InflateInto(z: Zlib, input: seq<Byte>, room: nat): (r: Option<seq<Byte>>) {
    var i := z.inflate(input);
    if i.Some? && |i.value.output| <= room then Some(i.value.output) else None
  }

  /** The settings a chunk starts with; they are only meaningful once it has been reconstructed. */
  const UNSET := Params(0, 0, 0, 0, 0)

  // ----- Images -----

  /** The file with four zero bytes behind it. */
  function Padded(img: seq<Byte>): (r: seq<Byte>)
    ensures |r| == |img| + 4 && r[..|img|] == img
  {
    img + [0, 0, 0, 0]
  }

  /** A gzip header without optional fields starts at pos (section 2.3 of RFC 1952). */
  predicate GzipAt(p: seq<Byte>, pos: nat) {
    pos + 4 <= |p| && p[pos] == 0x1f && p[pos + 1] == 0x8b && p[pos + 2] == 0x08 && p[pos + 3] == 0x00
  }

  /** The first place from pos on, up to n, where a gzip header starts; n if there is none. */
  function FirstGzip(p: seq<Byte>, pos: nat, n: nat): (r: nat)
    requires pos <= n
    ensures pos <= r <= n && (r < n ==> GzipAt(p, r)) && forall k :: pos <= k < r ==> !GzipAt(p, k)
    decreases n - pos
  {
    if pos == n || GzipAt(p, pos) then pos else FirstGzip(p, pos + 1, n)
  }

  /** The chunks of a gzip member: header, deflate stream, footer. */
  function Member(pos: nat, r: Inflated): (cs: seq<Chunk>) {
    var at := pos + GZIP_HEADER_LEN;
    [Normal(pos, GZIP_HEADER_LEN, pos),
     Deflate(at, |r.output|, r.output, r.used, at, None, UNSET),
     Normal(at + r.used, GZIP_FOOTER_LEN, at + r.used)]
  }

  /** One turn of the cutting loop: the chunks it adds, which end at next, or why it stops. */
  datatype Turn = Add(cs: seq<Chunk>, next: nat) | Stop(why: Cut)

  /** The turn taken at pos: a gzip member, or plain bytes up to the next one. */
  function TurnAt(z: Zlib, img: seq<Byte>, pos: nat): (r: Turn)
    requires pos < |img|
    ensures r.Add? ==> pos < r.next
  {
    if |img| - pos >= 4 && GzipAt(Padded(img), pos) then MemberAt(z, img, pos)
    else
      var stop := FirstGzip(Padded(img), pos, |img|);
      if stop == pos then Stop(NeverReturns) else Add([Normal(pos, stop - pos, pos)], stop)
  }

  function MemberAt(z: Zlib, img: seq<Byte>, pos: nat): (r: Turn)
    ensures r.Add? ==> pos < r.next
  {
    if pos + GZIP_HEADER_LEN > |img| then Stop(OutsideBuffer)
    else
      var i := z.inflate(img[pos + GZIP_HEADER_LEN..]);
      if i.None? then Stop(NeverReturns)
      else
        var end := pos + GZIP_HEADER_LEN + i.value.used + GZIP_FOOTER_LEN;
        if end > |img| + 4 then Stop(OutsideBuffer)
        else if Read(Padded(img)[end - 4..end]) != |i.value.output| then Stop(Refused)
        else Add(Member(pos, i.value), end)
  }

  /** Where the program gets from pos on, with the chunks acc found before. */
  function CutFrom(z: Zlib, img: seq<Byte>, pos: nat, acc: seq<Chunk>): (r: Cut)
    decreases if pos < |img| then |img| - pos else 0
  {
    if pos >= |img| then Chunks(acc, pos)
    else
      var t := TurnAt(z, img, pos);
      if t.Stop? then t.why else CutFrom(z, img, t.next, acc + t.cs)
  }

  method ReadImage(z: Zlib, img: seq<Byte>) returns (r: Cut)
    ensures r == CutFrom(z, img, 0, [])
  {
    hide MemberAt, FirstGzip, GzipAt;
    var chunks: seq<Chunk>, pos := [], 0;
    while pos < |img|
      invariant CutFrom(z, img, pos, chunks) == CutFrom(z, img, 0, [])
      decreases |img| - pos
    {
      var t: Turn;
      if |img| - pos >= 4 && GzipAt(Padded(img), pos) {
        t := CutMember(z, img, pos);
      } else {
        t := ScanToMember(img, pos);
      }
      if t.Stop? { return t.why; }
      chunks, pos := chunks + t.cs, t.next;
    }
    return Chunks(chunks, pos);
  }

  /** Cuts a gzip member into its three chunks. */
  method CutMember(z: Zlib, img: seq<Byte>, start: nat) returns (t: Turn)
    ensures t == MemberAt(z, img, start)
  {
    var pos := start;
    var header := Normal(pos, GZIP_HEADER_LEN, pos);
    pos := pos + header.len;
    if pos > |img| { return Stop(OutsideBuffer); }
    var i := z.inflate(img[pos..]);
    if i.None? { return Stop(NeverReturns); }
    var stream := Deflate(pos, |i.value.output|, i.value.output, i.value.used, pos, None, UNSET);
    pos := pos + stream.deflateLen;
    var footer := Normal(pos, GZIP_FOOTER_LEN, pos);
    pos := pos + footer.len;
    if pos > |img| + 4 { return Stop(OutsideBuffer); }
    if Read(Padded(img)[pos - 4..pos]) != stream.len { return Stop(Refused); }
    return Add([header, stream, footer], pos);
  }

  /** Takes plain bytes up to the next gzip member. */
  method ScanToMember(img: seq<Byte>, pos: nat) returns (t: Turn)
    requires pos < |img|
    ensures var stop := FirstGzip(Padded(img), pos, |img|);
            t == if stop == pos then Stop(NeverReturns) else Add([Normal(pos, stop - pos, pos)], stop)
  {
    var p := Padded(img);
    var len := 0;
    while len < |img| - pos && !GzipAt(p, pos + len)
      invariant len <= |img| - pos && FirstGzip(p, pos, |img|) == FirstGzip(p, pos + len, |img|)
    {
      len := len + 1;
    }
    if len == 0 { return Stop(NeverReturns); }
    return Add([Normal(pos, len, pos)], pos + len);
  }

  /** The buffer of a deflate chunk holds all that its stream inflates to. */
  ghost predicate Exact(z: Zlib, img: seq<Byte>, c: Chunk) {
    c.Deflate? ==> End(c) <= |img| && InflateInto(z, Contents(img, c), c.len) == Some(c.buffer) && |c.buffer| == c.len
  }

  ghost predicate AllExact(z: Zlib, img: seq<Byte>, cs: seq<Chunk>) {
    forall i :: 0 <= i < |cs| ==> Exact(z, img, cs[i])
  }

  /** The chunk is a gzip footer that the file ends inside of. */
  ghost predicate Overhangs(img: seq<Byte>, c: Chunk) {
    c == Normal(c.start, GZIP_FOOTER_LEN, c.start) && c.start < |img| < End(c) <= |img| + 4
  }

  /** The chunks cs are sound and exact, and tile what is before pos. */
  ghost predicate Fine(z: Zlib, p: seq<Byte>, cs: seq<Chunk>, pos: nat) {
    AllSound(p, cs) && AllExact(z, p, cs) && Tiles(cs, 0, pos)
  }

  lemma AppendFine(z: Zlib, p: seq<Byte>, acc: seq<Chunk>, pos: nat, c: Chunk)
    requires Fine(z, p, acc, pos)
    requires c.start == pos && Sound(p, c) && Exact(z, p, c)
    ensures Fine(z, p, acc + [c], End(c))
  {
    TilesAppend(acc, 0, pos, c);
  }

  /** The chunks cs are good for the file up to pos; only a footer at the end may overhang. */
  ghost predicate Good(z: Zlib, img: seq<Byte>, cs: seq<Chunk>, pos: nat) {
    && Fine(z, Padded(img), cs, pos) && pos <= |img| + 4
    && (pos > |img| ==> cs != [] && Overhangs(img, cs[|cs| - 1]))
  }

  lemma StreamExact(z: Zlib, img: seq<Byte>, at: nat, i: Inflated)
    requires SelfDelimiting(z) && at <= |img| && z.inflate(img[at..]) == Some(i) && at + i.used <= |img| + 4
    ensures Exact(z, Padded(img), Deflate(at, |i.output|, i.output, i.used, at, None, UNSET))
  {
    assert Padded(img)[at..at + i.used] == img[at..][..i.used];
  }

  lemma MemberTiles(z: Zlib, img: seq<Byte>, pos: nat, acc: seq<Chunk>, i: Inflated)
    requires SelfDelimiting(z) && pos + GZIP_HEADER_LEN <= |img|
    requires z.inflate(img[pos + GZIP_HEADER_LEN..]) == Some(i)
    requires pos + GZIP_HEADER_LEN + i.used + GZIP_FOOTER_LEN <= |img| + 4
    requires Fine(z, Padded(img), acc, pos)
    ensures Fine(z, Padded(img), acc + Member(pos, i), pos + GZIP_HEADER_LEN + i.used + GZIP_FOOTER_LEN)
  {
    var p, at := Padded(img), pos + GZIP_HEADER_LEN;
    var foot := at + i.used;
    var c0, c1, c2 := Normal(pos, GZIP_HEADER_LEN, pos), Deflate(at, |i.output|, i.output, i.used, at, None, UNSET),
                      Normal(foot, GZIP_FOOTER_LEN, foot);
    StreamExact(z, img, at, i);
    AppendFine(z, p, acc, pos, c0);
    AppendFine(z, p, acc + [c0], at, c1);
    AppendFine(z, p, acc + [c0] + [c1], foot, c2);
    assert acc + Member(pos, i) == acc + [c0] + [c1] + [c2];
  }

  lemma ScanGood(z: Zlib, img: seq<Byte>, pos: nat, stop: nat, acc: seq<Chunk>)
    requires pos < stop <= |img| && Good(z, img, acc, pos)
    ensures Good(z, img, acc + [Normal(pos, stop - pos, pos)], stop)
  {
    AppendFine(z, Padded(img), acc, pos, Normal(pos, stop - pos, pos));
  }

  lemma MemberGood(z: Zlib, img: seq<Byte>, pos: nat, acc: seq<Chunk>, i: Inflated)
    requires SelfDelimiting(z) && pos + GZIP_HEADER_LEN <= |img| && z.inflate(img[pos + GZIP_HEADER_LEN..]) == Some(i)
    requires Good(z, img, acc, pos) && pos + GZIP_HEADER_LEN + i.used + GZIP_FOOTER_LEN <= |img| + 4
    ensures Good(z, img, acc + Member(pos, i), pos + GZIP_HEADER_LEN + i.used + GZIP_FOOTER_LEN)
  {
    MemberTiles(z, img, pos, acc, i);
    var foot := pos + GZIP_HEADER_LEN + i.used;
    LastOf(acc, Member(pos, i));
    assert z.inflate(img[pos + GZIP_HEADER_LEN..]).value.used <= |img[pos + GZIP_HEADER_LEN..]|;
    assert foot <= |img|;
  }

  lemma LastOf<T>(s: seq<T>, t: seq<T>)
    requires t != []
    ensures s + t != [] && (s + t)[|s + t| - 1] == t[|t| - 1]
  {
  }

  lemma TurnGood(z: Zlib, img: seq<Byte>, pos: nat, acc: seq<Chunk>)
    requires SelfDelimiting(z) && pos < |img| && Good(z, img, acc, pos)
    ensures var t := TurnAt(z, img, pos); t.Add? ==> Good(z, img, acc + t.cs, t.next)
  {
    if |img| - pos >= 4 && GzipAt(Padded(img), pos) {
      if MemberAt(z, img, pos).Add? { MemberGood(z, img, pos, acc, z.inflate(img[pos + GZIP_HEADER_LEN..]).value); }
    } else {
      var stop := FirstGzip(Padded(img), pos, |img|);
      if stop > pos { ScanGood(z, img, pos, stop, acc); }
    }
  }

  /** The chunks of an image tile it, except that they run over its end when the last gzip member
      has fewer than eight but at least four bytes of footer. */
  lemma {:induction false} CutGood(z: Zlib, img: seq<Byte>, pos: nat, acc: seq<Chunk>)
    requires SelfDelimiting(z) && Good(z, img, acc, pos)
    ensures var r := CutFrom(z, img, pos, acc); r.Chunks? ==> |img| <= r.end && Good(z, img, r.cs, r.end)
    decreases if pos < |img| then |img| - pos else 0
  {
    if pos < |img| {
      TurnGood(z, img, pos, acc);
      var t := TurnAt(z, img, pos);
      if t.Add? { CutGood(z, img, t.next, acc + t.cs); }
    }
  }

  /** Chunk i is the stream of a gzip member: the header before it and the footer behind it, which ends in the length
      of the inflated data. */
  ghost predicate Framed(p: seq<Byte>, cs: seq<Chunk>, i: nat)
    requires i < |cs|
  {
    && 0 < i < |cs| - 1 && 10 <= cs[i].start && cs[i - 1] == Normal(cs[i].start - 10, 10, cs[i].start - 10)
    && cs[i + 1] == Normal(End(cs[i]), 8, End(cs[i])) && End(cs[i]) + 8 <= |p|
    && p[cs[i].start - 10..cs[i].start - 6] == [0x1f, 0x8b, 8, 0]
    && Read(p[End(cs[i]) + 4..End(cs[i]) + 8]) == cs[i].len
  }

  ghost predicate AllFramed(p: seq<Byte>, cs: seq<Chunk>) {
    forall i :: 0 <= i < |cs| && cs[i].Deflate? ==> Framed(p, cs, i)
  }

  /** Every deflate chunk that is cut out is framed so. */
  lemma {:induction false} CutFramed(z: Zlib, img: seq<Byte>, pos: nat, acc: seq<Chunk>)
    requires AllFramed(Padded(img), acc)
    ensures var r := CutFrom(z, img, pos, acc); r.Chunks? ==> AllFramed(Padded(img), r.cs)
    decreases if pos < |img| then |img| - pos else 0
  {
    hide Framed;
    if pos < |img| && TurnAt(z, img, pos).Add? {
      var t := TurnAt(z, img, pos);
      forall i | 0 <= i < |acc + t.cs| && (acc + t.cs)[i].Deflate?
        ensures Framed(Padded(img), acc + t.cs, i)
      {
        if i < |acc| {
          FramedStays(Padded(img), acc, t.cs, i);
        } else {
          assert (acc + t.cs)[i] == t.cs[i - |acc|];
          TurnFramed(z, img, pos, acc, i);
        }
      }
      CutFramed(z, img, t.next, acc + t.cs);
    }
  }

  lemma FramedStays(p: seq<Byte>, cs: seq<Chunk>, more: seq<Chunk>, i: nat)
    requires i < |cs| && Framed(p, cs, i)
    ensures Framed(p, cs + more, i)
  {
    var all := cs + more;
    assert all[i - 1] == cs[i - 1] && all[i] == cs[i] && all[i + 1] == cs[i + 1];
  }

  lemma TurnFramed(z: Zlib, img: seq<Byte>, pos: nat, acc: seq<Chunk>, i: nat)
    requires pos < |img| && TurnAt(z, img, pos).Add?
    requires |acc| <= i < |acc + TurnAt(z, img, pos).cs| && TurnAt(z, img, pos).cs[i - |acc|].Deflate?
    ensures Framed(Padded(img), acc + TurnAt(z, img, pos).cs, i)
  {
    hide FirstGzip, Read;
    var cs, all := TurnAt(z, img, pos).cs, acc + TurnAt(z, img, pos).cs;
    assert |cs| == 3 && i == |acc| + 1;
    assert all[i - 1] == cs[0] && all[i] == cs[1] && all[i + 1] == cs[2];
    assert Padded(img)[pos..pos + 4] == [0x1f, 0x8b, 8, 0];
  }

  /** A gzip member alone: a header of ten bytes, a stream, four bytes, and the length of what it inflates to. It is
      cut into its three parts if that length is right, and refused if not. */
  lemma MemberAlone(z: Zlib, header: seq<Byte>, stream: seq<Byte>, footer: seq<Byte>, out: seq<Byte>)
    requires |header| == 10 && header[..4] == [0x1f, 0x8b, 8, 0] && |footer| == 8
    requires z.inflate(stream + footer) == Some(Inflated(|stream|, out))
    ensures var n := |stream|;
            CutFrom(z, header + (stream + footer), 0, [])
            == if Read(footer[4..]) != |out| then Refused
               else Chunks([Normal(0, 10, 0), Deflate(10, |out|, out, n, 10, None, UNSET), Normal(10 + n, 8, 10 + n)],
                           18 + n)
  {
    hide Read, MemberAt, TurnAt;
    var img, n := header + (stream + footer), |stream|;
    AloneTurn(z, header, stream, footer, out);
    var cs := Member(0, Inflated(n, out));
    assert [] + cs == cs;
    AllCut(z, img, 18 + n, cs);
  }

  lemma AllCut(z: Zlib, img: seq<Byte>, pos: nat, cs: seq<Chunk>)
    requires pos >= |img|
    ensures CutFrom(z, img, pos, cs) == Chunks(cs, pos)
  {
  }

  lemma AloneTurn(z: Zlib, header: seq<Byte>, stream: seq<Byte>, footer: seq<Byte>, out: seq<Byte>)
    requires |header| == 10 && header[..4] == [0x1f, 0x8b, 8, 0] && |footer| == 8
    requires z.inflate(stream + footer) == Some(Inflated(|stream|, out))
    ensures var n := |stream|;
            TurnAt(z, header + (stream + footer), 0)
            == if Read(footer[4..]) != |out| then Stop(Refused) else Add(Member(0, Inflated(n, out)), 18 + n)
  {
    hide Read, FirstGzip, Member;
    var img, n := header + (stream + footer), |stream|;
    var p := Padded(img);
    var magic := header[..4];
    assert header[0] == magic[0] && header[1] == magic[1] && header[2] == magic[2] && header[3] == magic[3];
    assert p[0] == header[0] && p[1] == header[1] && p[2] == header[2] && p[3] == header[3];
    assert img[10..] == stream + footer;
    assert p[10 + n + 4..10 + n + 8] == footer[4..];
    assert TurnAt(z, img, 0) == MemberAt(z, img, 0);
  }

  /** An image that ends four bytes into the footer of an empty gzip member is cut into chunks that
      reach four bytes beyond its end: the zero padding passes for the length in the footer. */
  lemma FooterFromPadding(z: Zlib)
    requires z.inflate([3, 0, 0, 0, 0, 0]) == Some(Inflated(2, []))
    ensures var img: seq<Byte> := [0x1f, 0x8b, 0x08, 0x00, 0, 0, 0, 0, 0, 0] + [3, 0, 0, 0, 0, 0];
            CutFrom(z, img, 0, []) == Chunks(Member(0, Inflated(2, [])), |img| + 4)
  {
    hide CutFrom, Member;
    var head: seq<Byte>, tail: seq<Byte> := [0x1f, 0x8b, 0x08, 0x00, 0, 0, 0, 0, 0, 0], [3, 0, 0, 0, 0, 0];
    FooterCut(z, head, tail);
  }

  /** An empty gzip member of sixteen bytes, with its last four bytes missing. */
  lemma FooterCut(z: Zlib, head: seq<Byte>, tail: seq<Byte>)
    requires |head| == 10 && |tail| == 6 && GzipAt(head, 0) && z.inflate(tail) == Some(Inflated(2, []))
    ensures CutFrom(z, head + tail, 0, []) == Chunks(Member(0, Inflated(2, [])), 20)
  {
    var img := head + tail;
    var cs := Member(0, Inflated(2, []));
    assert img[10..] == tail;
    assert Padded(img)[16..20] == [0, 0, 0, 0];
    ReadZeros();
    assert GzipAt(Padded(img), 0);
    assert MemberAt(z, img, 0) == Add(cs, 20);
    assert CutFrom(z, img, 20, cs) == Chunks(cs, 20);
    assert [] + cs == cs;
  }

  // ----- When the loop never ends -----

  /** The loop, standing at from, comes to stand at to. */
  ghost predicate Reaches(z: Zlib, img: seq<Byte>, from: nat, to: nat)
    decreases if from < |img| then |img| - from else 0
  {
    from == to
    || (from < |img| && TurnAt(z, img, from).Add? && Reaches(z, img, TurnAt(z, img, from).next, to))
  }

  /** The last three bytes are those of a gzip header, which the padding completes. */
  predicate HeaderCutShort(img: seq<Byte>, pos: nat) {
    pos + 3 == |img| && img[pos] == 0x1f && img[pos + 1] == 0x8b && img[pos + 2] == 0x08
  }

  /** A gzip header with room behind it, whose stream does not inflate. */
  predicate Uninflatable(z: Zlib, img: seq<Byte>, pos: nat) {
    && pos + GZIP_HEADER_LEN <= |img| && GzipAt(img, pos)
    && z.inflate(img[pos + GZIP_HEADER_LEN..]).None?
  }

  /** A gzip header in the padded file is one in the file, or is completed by the padding. */
  lemma PaddedGzip(img: seq<Byte>, pos: nat)
    requires pos < |img|
    ensures GzipAt(Padded(img), pos) <==> GzipAt(img, pos) || HeaderCutShort(img, pos)
  {
    assert forall k :: 0 <= k < |img| ==> Padded(img)[k] == img[k];
  }

  /** The loop comes to stand at pos and makes no progress there. */
  ghost predicate Stall(z: Zlib, img: seq<Byte>, pos: nat) {
    pos < |img| && Reaches(z, img, 0, pos) && (HeaderCutShort(img, pos) || Uninflatable(z, img, pos))
  }

  /** A turn makes no progress exactly in these two cases. */
  lemma TurnStuck(z: Zlib, img: seq<Byte>, pos: nat)
    requires pos < |img|
    ensures TurnAt(z, img, pos) == Stop(NeverReturns) <==> HeaderCutShort(img, pos) || Uninflatable(z, img, pos)
  {
    PaddedGzip(img, pos);
    if FirstGzip(Padded(img), pos, |img|) == pos {
      assert GzipAt(Padded(img), pos);
    }
  }

  lemma {:induction false} StuckFrom(z: Zlib, img: seq<Byte>, from: nat, acc: seq<Chunk>) returns (pos: nat)
    requires CutFrom(z, img, from, acc) == NeverReturns
    ensures pos < |img| && Reaches(z, img, from, pos) && (HeaderCutShort(img, pos) || Uninflatable(z, img, pos))
    decreases if from < |img| then |img| - from else 0
  {
    var t := TurnAt(z, img, from);
    if t.Stop? {
      TurnStuck(z, img, from);
      pos := from;
    } else {
      pos := StuckFrom(z, img, t.next, acc + t.cs);
    }
  }

  lemma {:induction false} StuckReached(z: Zlib, img: seq<Byte>, from: nat, acc: seq<Chunk>, pos: nat)
    requires Reaches(z, img, from, pos) && pos < |img| && (HeaderCutShort(img, pos) || Uninflatable(z, img, pos))
    ensures CutFrom(z, img, from, acc) == NeverReturns
    decreases if from < |img| then |img| - from else 0
  {
    TurnStuck(z, img, pos);
    if from != pos {
      var t := TurnAt(z, img, from);
      StuckReached(z, img, t.next, acc + t.cs, pos);
    }
  }

  /** An image is cut forever exactly if the loop comes to stand at its last three bytes and these begin a
      gzip header, or at a gzip member whose stream does not inflate. */
  lemma NeverReturnsWhen(z: Zlib, img: seq<Byte>)
    ensures CutFrom(z, img, 0, []) == NeverReturns <==> exists pos: nat :: Stall(z, img, pos)
  {
    if CutFrom(z, img, 0, []) == NeverReturns {
      var pos := StuckFrom(z, img, 0, []);
      assert Stall(z, img, pos);
    }
    forall pos: nat | Stall(z, img, pos)
      ensures CutFrom(z, img, 0, []) == NeverReturns
    {
      StuckReached(z, img, 0, [], pos);
    }
  }

  /** An image without a complete gzip header is cut forever exactly if it ends in 1f 8b 08. */
  lemma PlainImage(z: Zlib, img: seq<Byte>)
    requires forall k :: 0 <= k < |img| ==> !GzipAt(img, k)
    ensures CutFrom(z, img, 0, []) == NeverReturns <==> |img| >= 3 && HeaderCutShort(img, |img| - 3)
    ensures !(|img| >= 3 && HeaderCutShort(img, |img| - 3)) ==>
              CutFrom(z, img, 0, []) == Chunks(if img == [] then [] else [Normal(0, |img|, 0)], |img|)
  {
    var stop := FirstGzip(Padded(img), 0, |img|);
    forall k | 0 <= k < |img|
      ensures GzipAt(Padded(img), k) <==> HeaderCutShort(img, k)
    {
      PaddedGzip(img, k);
    }
    if img != [] && stop > 0 {
      assert [] + [Normal(0, stop, 0)] == [Normal(0, stop, 0)];
      assert TurnAt(z, img, 0) == Add([Normal(0, stop, 0)], stop);
      if stop < |img| { TurnStuck(z, img, stop); }
    } else if img != [] {
      TurnStuck(z, img, 0);
    }
  }

  /** An image that ends in 1f 8b 08 and is cut all the same: these bytes are in the footer of its only
      gzip member, which the padding completes. */
  lemma HeaderInFooter(z: Zlib)
    requires z.inflate([3, 0, 0, 0x1f, 0x8b, 0x08]) == Some(Inflated(2, []))
    ensures var img: seq<Byte> := [0x1f, 0x8b, 0x08, 0x00, 0, 0, 0, 0, 0, 0] + [3, 0, 0, 0x1f, 0x8b, 0x08];
            HeaderCutShort(img, 13) && CutFrom(z, img, 0, []) == Chunks(Member(0, Inflated(2, [])), |img| + 4)
  {
    hide CutFrom, Member;
    var head: seq<Byte>, tail: seq<Byte> := [0x1f, 0x8b, 0x08, 0x00, 0, 0, 0, 0, 0, 0], [3, 0, 0, 0x1f, 0x8b, 0x08];
    FooterCut(z, head, tail);
  }

  // ----- Zip files, from the list of deflated entries on -----

  type Int32 = x: int | -0x8000_0000 <= x < 0x8000_0000

  datatype ZipEntry = ZipEntry(dataOffset: Int32, deflateLen: Int32, uncompLen: Int32, name: seq<Byte>)

  /** What memory held in the buffer allocated for each entry. */
  type Junk = (nat, nat) -> Byte

  /** The buffer of entry k, of len bytes, after out was written to it; the rest is what memory held. */
  function Filled(out: seq<Byte>, len: nat, junk: Junk, k: nat): (r: seq<Byte>)
    requires |out| <= len
    ensures |r| == len && r[..|out|] == out
  {
    out + seq(len - |out|, i requires 0 <= i < len - |out| => junk(k, |out| + i))
  }

  function ZipFrom(z: Zlib, img: seq<Byte>, es: seq<ZipEntry>, junk: Junk, pos: nat, k: nat, acc: seq<Chunk>): (r: Cut)
    requires pos <= |img| && k <= |es|
    decreases |img| - pos, |es| - k
  {
    if pos == |img| then Chunks(acc, pos)
    else if k < |es| && es[k].dataOffset == pos then
      var e := es[k];
      if e.deflateLen < 0 || e.uncompLen < 0 || pos + e.deflateLen > |img| then OutsideBuffer
      else
        var out := InflateInto(z, img[pos..pos + e.deflateLen], e.uncompLen);
        if out.None? then Refused
        else
          var c := Deflate(pos, e.uncompLen, Filled(out.value, e.uncompLen, junk, k), e.deflateLen, pos, Some(e.name),
                           UNSET);
          ZipFrom(z, img, es, junk, pos + e.deflateLen, k + 1, acc + [c])
    else
      var stop := if k < |es| then es[k].dataOffset else |img|;
      if stop < pos || stop > |img| then OutsideBuffer
      else ZipFrom(z, img, es, junk, stop, k, acc + [Normal(pos, stop - pos, pos)])
  }

  /** es lists the deflated entries by offset. The pseudo chunk stands for the whole file. */
  method ReadZip(z: Zlib, img: seq<Byte>, es: seq<ZipEntry>, junk: Junk, pseudo: bool) returns (r: Cut)
    ensures r == ZipFrom(z, img, es, junk, 0, 0, if pseudo then [Normal(0, |img|, 0)] else [])
  {
    var chunks: seq<Chunk> := [];
    if pseudo { chunks := [Normal(0, |img|, 0)]; }
    ghost var goal := ZipFrom(z, img, es, junk, 0, 0, chunks);
    var pos, next := 0, 0;
    while pos < |img|
      invariant pos <= |img| && next <= |es| && ZipFrom(z, img, es, junk, pos, next, chunks) == goal
      decreases |img| - pos, |es| - next
    {
      if next < |es| && pos == es[next].dataOffset {
        var e := es[next];
        if e.deflateLen < 0 || e.uncompLen < 0 || pos + e.deflateLen > |img| { return OutsideBuffer; }
        var out := InflateInto(z, img[pos..pos + e.deflateLen], e.uncompLen);
        if out.None? { return Refused; }
        chunks := chunks + [Deflate(pos, e.uncompLen, Filled(out.value, e.uncompLen, junk, next), e.deflateLen, pos,
                                    Some(e.name), UNSET)];
        pos := pos + e.deflateLen;
        next := next + 1;
      } else {
        var len := if next < |es| then es[next].dataOffset - pos else |img| - pos;
        if len < 0 || pos + len > |img| { return OutsideBuffer; }
        chunks := chunks + [Normal(pos, len, pos)];
        pos := pos + len;
      }
    }
    return Chunks(chunks, pos);
  }

  /** The chunk's stream inflates to the front of its buffer. */
  ghost predicate Inflates(z: Zlib, img: seq<Byte>, c: Chunk) {
    c.Deflate? ==>
      && c.name.Some? && End(c) <= |img| && c.len < 0x8000_0000
      && var out := InflateInto(z, Contents(img, c), c.len);
         out.Some? && out.value <= c.buffer
  }

  /** The chunks cs are good for the zip file up to pos. */
  ghost predicate ZipGood(z: Zlib, img: seq<Byte>, cs: seq<Chunk>, pos: nat) {
    && pos <= |img| && AllSound(img, cs) && Tiles(cs, 0, pos)
    && forall i :: 0 <= i < |cs| ==> Inflates(z, img, cs[i])
  }

  lemma EntryGood(z: Zlib, img: seq<Byte>, e: ZipEntry, out: seq<Byte>, junk: Junk, k: nat, pos: nat, acc: seq<Chunk>)
    requires ZipGood(z, img, acc, pos) && 0 <= e.deflateLen <= |img| - pos && 0 <= e.uncompLen
    requires InflateInto(z, img[pos..pos + e.deflateLen], e.uncompLen) == Some(out)
    ensures var c := Deflate(pos, e.uncompLen, Filled(out, e.uncompLen, junk, k), e.deflateLen, pos, Some(e.name),
                             UNSET);
            ZipGood(z, img, acc + [c], pos + e.deflateLen)
  {
    var c := Deflate(pos, e.uncompLen, Filled(out, e.uncompLen, junk, k), e.deflateLen, pos, Some(e.name), UNSET);
    TilesAppend(acc, 0, pos, c);
    assert Contents(img, c) == img[pos..pos + e.deflateLen];
  }

  /** The entries from number k on lie in the file one behind the other, from pos on. */
  predicate InOrder(es: seq<ZipEntry>, k: nat, pos: int, n: nat)
    decreases |es| - k
  {
    k >= |es|
    || (pos <= es[k].dataOffset < n && 0 <= es[k].deflateLen <= n - es[k].dataOffset && 0 <= es[k].uncompLen
        && InOrder(es, k + 1, es[k].dataOffset + es[k].deflateLen, n))
  }

  /** The entry is a whole stream that inflates to no more than it states. */
  predicate EntryInflates(z: Zlib, img: seq<Byte>, e: ZipEntry) {
    && 0 <= e.dataOffset && 0 <= e.deflateLen && e.dataOffset + e.deflateLen <= |img| && 0 <= e.uncompLen
    && InflateInto(z, img[e.dataOffset..e.dataOffset + e.deflateLen], e.uncompLen).Some?
  }

  /** The deflate chunks ds are those of the entries from number k on. */
  ghost predicate OfEntries(ds: seq<Chunk>, es: seq<ZipEntry>, k: nat) {
    && k <= |es| && |ds| == |es| - k
    && forall j {:trigger ds[j]} :: 0 <= j < |ds| ==>
         && ds[j].Deflate? && ds[j].start == es[k + j].dataOffset && ds[j].deflateLen == es[k + j].deflateLen
         && ds[j].len == es[k + j].uncompLen && ds[j].name == Some(es[k + j].name)
  }

  /** A zip file whose entries lie one behind the other is cut if and only if all of them inflate; then its deflate
      chunks are the entries, each with its place, its lengths and its name. */
  lemma {:induction false} ZipEntriesCut(z: Zlib, img: seq<Byte>, es: seq<ZipEntry>, junk: Junk, pos: nat, k: nat,
                                         acc: seq<Chunk>)
    requires pos <= |img| && k <= |es| && InOrder(es, k, pos, |img|)
    ensures var r := ZipFrom(z, img, es, junk, pos, k, acc);
            && (r.Chunks? <==> forall j :: k <= j < |es| ==> EntryInflates(z, img, es[j]))
            && (r.Chunks? ==>
                  && Deflates(acc) <= Deflates(r.cs) && OfEntries(Deflates(r.cs)[|Deflates(acc)|..], es, k))
    decreases |img| - pos, |es| - k
  {
    hide OfEntries, Deflates, Filled;
    if pos == |img| {
      NoEntries(es, k, acc);
    } else if k < |es| && es[k].dataOffset == pos {
      var e := es[k];
      var out := InflateInto(z, img[pos..pos + e.deflateLen], e.uncompLen);
      if out.Some? {
        var c := Deflate(pos, e.uncompLen, Filled(out.value, e.uncompLen, junk, k), e.deflateLen, pos, Some(e.name),
                         UNSET);
        DeflatesMore(acc, c);
        ZipEntriesCut(z, img, es, junk, pos + e.deflateLen, k + 1, acc + [c]);
        var r := ZipFrom(z, img, es, junk, pos + e.deflateLen, k + 1, acc + [c]);
        if r.Chunks? { OneEntryMore(Deflates(acc), c, Deflates(r.cs), es, k); }
      } else {
        assert !EntryInflates(z, img, es[k]);
      }
    } else {
      var stop := if k < |es| then es[k].dataOffset else |img|;
      DeflatesMore(acc, Normal(pos, stop - pos, pos));
      ZipEntriesCut(z, img, es, junk, stop, k, acc + [Normal(pos, stop - pos, pos)]);
    }
  }

  lemma NoEntries(es: seq<ZipEntry>, k: nat, acc: seq<Chunk>)
    requires k == |es|
    ensures OfEntries(Deflates(acc)[|Deflates(acc)|..], es, k)
  {
  }

  lemma {:induction false} DeflatesMore(cs: seq<Chunk>, c: Chunk)
    ensures Deflates(cs + [c]) == Deflates(cs) + (if c.Deflate? then [c] else [])
  {
    if cs == [] {
      assert cs + [c] == [c];
    } else {
      assert (cs + [c])[0] == cs[0] && (cs + [c])[1..] == cs[1..] + [c];
      DeflatesMore(cs[1..], c);
    }
  }

  lemma OneEntryMore(before: seq<Chunk>, c: Chunk, all: seq<Chunk>, es: seq<ZipEntry>, k: nat)
    requires k < |es| && before + [c] <= all && OfEntries(all[|before| + 1..], es, k + 1)
    requires c.Deflate? && c.start == es[k].dataOffset && c.deflateLen == es[k].deflateLen
    requires c.len == es[k].uncompLen && c.name == Some(es[k].name)
    ensures before <= all && OfEntries(all[|before|..], es, k)
  {
    var ds := all[|before|..];
    assert all[|before|] == (before + [c])[|before|] == c;
    forall j | 0 <= j < |ds|
      ensures && ds[j].Deflate? && ds[j].start == es[k + j].dataOffset && ds[j].deflateLen == es[k + j].deflateLen
              && ds[j].len == es[k + j].uncompLen && ds[j].name == Some(es[k + j].name)
    {
      if j > 0 { assert ds[j] == all[|before| + 1..][j - 1]; }
    }
  }

  /** The chunks of a zip file, behind those in front, tile it. */
  lemma {:induction false} ZipTiles(z: Zlib, img: seq<Byte>, es: seq<ZipEntry>, junk: Junk, pos: nat, k: nat,
                                    front: seq<Chunk>, acc: seq<Chunk>)
    requires k <= |es| && ZipGood(z, img, acc, pos)
    ensures var r := ZipFrom(z, img, es, junk, pos, k, front + acc);
            r.Chunks? ==> r.end == |img| && front <= r.cs && ZipGood(z, img, r.cs[|front|..], |img|)
    decreases |img| - pos, |es| - k
  {
    if pos == |img| {
      assert (front + acc)[|front|..] == acc;
    } else if k < |es| && es[k].dataOffset == pos {
      var e := es[k];
      if 0 <= e.deflateLen <= |img| - pos && 0 <= e.uncompLen {
        var out := InflateInto(z, img[pos..pos + e.deflateLen], e.uncompLen);
        if out.Some? {
          var c := Deflate(pos, e.uncompLen, Filled(out.value, e.uncompLen, junk, k), e.deflateLen, pos, Some(e.name),
                           UNSET);
          EntryGood(z, img, e, out.value, junk, k, pos, acc);
          assert front + (acc + [c]) == front + acc + [c];
          ZipTiles(z, img, es, junk, pos + e.deflateLen, k + 1, front, acc + [c]);
        }
      }
    } else {
      var stop := if k < |es| then es[k].dataOffset else |img|;
      if pos <= stop <= |img| {
        var c := Normal(pos, stop - pos, pos);
        TilesAppend(acc, 0, pos, c);
        assert front + (acc + [c]) == front + acc + [c];
        ZipTiles(z, img, es, junk, stop, k, front, acc + [c]);
      }
    }
  }

  ghost predicate DistinctNames(cs: seq<Chunk>) {
    forall i, k :: 0 <= i < k < |cs| && cs[i].Deflate? && cs[k].Deflate? ==> cs[i].name != cs[k].name
  }

  ghost predicate DistinctEntries(es: seq<ZipEntry>) {
    forall i, k :: 0 <= i < k < |es| ==> es[i].name != es[k].name
  }

  /** Every deflate chunk is named after one of the first k entries. */
  ghost predicate NamedAfter(cs: seq<Chunk>, es: seq<ZipEntry>, k: nat) {
    k <= |es| && forall i :: 0 <= i < |cs| && cs[i].Deflate? ==>
        exists m :: 0 <= m < k && cs[i].name == Some(es[m].name)
  }

  /** Entries with distinct names make chunks with distinct names. */
  lemma {:induction false} ZipNames(z: Zlib, img: seq<Byte>, es: seq<ZipEntry>, junk: Junk, pos: nat, k: nat,
                                    acc: seq<Chunk>)
    requires pos <= |img| && DistinctEntries(es) && DistinctNames(acc) && NamedAfter(acc, es, k)
    ensures var r := ZipFrom(z, img, es, junk, pos, k, acc); r.Chunks? ==> DistinctNames(r.cs)
    decreases |img| - pos, |es| - k
  {
    if pos == |img| {
    } else if k < |es| && es[k].dataOffset == pos {
      var e := es[k];
      if 0 <= e.deflateLen <= |img| - pos && 0 <= e.uncompLen {
        var out := InflateInto(z, img[pos..pos + e.deflateLen], e.uncompLen);
        if out.Some? {
          var c := Deflate(pos, e.uncompLen, Filled(out.value, e.uncompLen, junk, k), e.deflateLen, pos, Some(e.name),
                           UNSET);
          ZipNames(z, img, es, junk, pos + e.deflateLen, k + 1, acc + [c]);
        }
      }
    } else {
      var stop := if k < |es| then es[k].dataOffset else |img|;
      if pos <= stop <= |img| {
        ZipNames(z, img, es, junk, stop, k, acc + [Normal(pos, stop - pos, pos)]);
      }
    }
  }
}
