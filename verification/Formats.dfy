/** The two patch formats, byte by byte. */
module Formats {
  import opened Bytes
  import opened Offsets
  import opened Wire
  import opened PatchStreams
  import opened BsPatch
  import opened ImageChunks
  import opened ImagePatch
  import BsDiff

  // ----- Numbers -----

  /** Four bytes, the lowest first. */
  function Four(a: int, b: int, c: int, d: int): (r: int) {
    a + 0x100 * b + 0x1_0000 * c + 0x100_0000 * d
  }

  /** Eight bytes, the lowest first. */
  function Eight(b: seq<Byte>): (r: int)
    requires |b| == 8
  {
    Four(b[0], b[1], b[2], b[3]) + 0x1_0000_0000 * Four(b[4], b[5], b[6], b[7])
  }

  lemma ValueOfFour(b: seq<Byte>)
    requires |b| >= 4
    ensures Value(b) == Four(b[0], b[1], b[2], b[3]) + 0x1_0000_0000 * Value(b[4..])
  {
    assert b[1..][1..] == b[2..] && b[2..][1..] == b[3..] && b[3..][1..] == b[4..];
    var v0: int, v1: int, v2: int, v3: int, v4: int := Value(b), Value(b[1..]), Value(b[2..]), Value(b[3..]),
        Value(b[4..]);
    assert v0 == b[0] as int + 256 * v1 && v1 == b[1] as int + 256 * v2;
    assert v2 == b[2] as int + 256 * v3 && v3 == b[3] as int + 256 * v4;
  }

  lemma ValueOfEight(b: seq<Byte>)
    requires |b| == 8
    ensures Value(b) == Eight(b)
  {
    ValueOfFour(b);
    ValueOfFour(b[4..]);
    assert b[4..][4..] == [];
  }

  /** An offset in a bsdiff patch: a magnitude of 63 bits, the lowest byte first, and a sign in the top bit. */
  lemma OffsetMeans(b: seq<Byte>)
    requires |b| == 8
    ensures var y := Four(b[0], b[1], b[2], b[3]) + 0x1_0000_0000 * Four(b[4], b[5], b[6], b[7] % 0x80);
            OffIn(b) == if b[7] < 0x80 then y else -y
  {
    var m := b[..7] + [b[7] % 0x80];
    ValueOfEight(m);
    assert m[7] == b[7] % 0x80;
  }

  /** A number in an image patch: two's complement, the lowest byte first. */
  lemma NumberMeans(b: seq<Byte>)
    requires |b| == 4 || |b| == 8
    ensures |b| == 4 ==>
              var y := Four(b[0], b[1], b[2], b[3]); Read(b) == if b[3] < 0x80 then y else y - 0x1_0000_0000
    ensures |b| == 8 ==> Read(b) == if b[7] < 0x80 then Eight(b) else Eight(b) - 0x1_0000_0000_0000_0000
  {
    ValueOfFour(b);
    assert Pow256(4) == 256 * Pow256(3) == 65536 * Pow256(2) == 0x1_0000_0000;
    Pow256Seven();
    if |b| == 8 { ValueOfEight(b); }
  }

  // ----- bsdiff patches -----

  /** "BSDIFF40", the lengths of the first two packed blocks and of the new file, and the three packed blocks. */
  lemma PatchLayout(c: Coder, script: Script, size: nat)
    requires |BsDiff.StoredCut(c, script, size)| < SIGNED_LIMIT && size < SIGNED_LIMIT
    ensures var p := BsDiff.StoredCut(c, script, size);
            var cb, db, eb := c.pack(Ctrl(script)), c.pack(BsDiff.Taken(Diff(script))),
                c.pack(BsDiff.Taken(Extra(script)));
            && |p| == 32 + |cb| + |db| + |eb|
            && p[..8] == ['B' as int, 'S' as int, 'D' as int, 'I' as int, 'F' as int, 'F' as int, '4' as int,
                          '0' as int]
            && OffIn(p[8..16]) == |cb| && OffIn(p[16..24]) == |db| && OffIn(p[24..32]) == size
            && p[32..] == cb + db + eb
  {
    hide OffIn, OffOut;
    var cb, db, eb := c.pack(Ctrl(script)), c.pack(BsDiff.Taken(Diff(script))),
        c.pack(BsDiff.Taken(Extra(script)));
    var p := BsDiff.StoredCut(c, script, size);
    assert p == BSDIFF_MAGIC + OffOut(|cb|) + OffOut(|db|) + OffOut(size) + (cb + db + eb);
    HeaderFields(BSDIFF_MAGIC, OffOut(|cb|), OffOut(|db|), OffOut(size), cb + db + eb);
    OffsetRoundTrip(|cb|);
    OffsetRoundTrip(|db|);
    OffsetRoundTrip(size);
  }

  /** A control record: how many bytes to add, how many to insert, and how far to move then. */
  lemma RecordLayout(t: Step)
    requires Fits(t)
    ensures |Record(t)| == 24 && OffIn(Record(t)[..8]) == |t.d| && OffIn(Record(t)[8..16]) == |t.e|
            && OffIn(Record(t)[16..24]) == t.z
  {
    hide OffIn, OffOut;
    OffsetRoundTrip(|t.d|);
    OffsetRoundTrip(|t.e|);
    OffsetRoundTrip(t.z);
    assert Record(t) == OffOut(|t.d|) + OffOut(|t.e|) + OffOut(t.z) + [];
    Fields(OffOut(|t.d|), OffOut(|t.e|), OffOut(t.z), []);
  }

  /** What one step writes: byte by byte the sum of a difference and an old byte, which is 0 outside the old file, and
      then the bytes to insert. */
  lemma {:induction false} AddedAt(oldData: seq<Byte>, d: seq<Byte>, k: int, i: nat)
    requires i < |d|
    ensures AddOld(oldData, d, k)[i] == (d[i] as int + (if 0 <= k + i < |oldData| then oldData[k + i] else 0)) % 256
    decreases |d|
  {
    if i < |d| - 1 { AddedAt(oldData, d[..|d| - 1], k, i); }
  }

  /** The loop ends with as many bytes as it was to make. */
  lemma {:induction false} ReplaySize(oldData: seq<Byte>, ts: seq<Triple>, diff: seq<Byte>, extra: seq<Byte>, size: nat,
                                      done: seq<Byte>, oldpos: int)
    requires |done| <= size
    ensures var r := Replay(oldData, ts, diff, extra, size, done, oldpos); r.Done? ==> |r.data| == size
    decreases |ts|
  {
    if |done| < size && ts != [] {
      var Triple(x, y, z) := ts[0];
      if 0 <= x <= |diff| && 0 <= y <= |extra| && |done| + x + y <= size {
        ReplaySize(oldData, ts[1..], diff[x..], extra[y..], size,
                   done + AddOld(oldData, diff[..x], oldpos) + extra[..y], oldpos + x + z);
      }
    }
  }

  /** Only a patch with the right header is applied, and what comes out is as long as the header says. */
  lemma HeaderChecked(oldData: seq<Byte>, patch: seq<Byte>, offset: nat, unpack: seq<Byte> -> seq<Byte>)
    ensures var r := PatchFile(oldData, patch, offset, unpack);
            r.Done? ==>
              && offset + 32 <= |patch|
              && patch[offset..offset + 8]
                 == ['B' as int, 'S' as int, 'D' as int, 'I' as int, 'F' as int, 'F' as int, '4' as int, '0' as int]
              && 0 <= OffIn(patch[offset + 8..offset + 16]) && 0 <= OffIn(patch[offset + 16..offset + 24])
              && |r.data| == OffIn(patch[offset + 24..offset + 32])
  {
    hide OffIn, Replay, Triples;
    if offset + 32 <= |patch| {
      var ctrlLen, dataLen := OffIn(patch[offset + 8..offset + 16]), OffIn(patch[offset + 16..offset + 24]);
      var newSize := OffIn(patch[offset + 24..offset + 32]);
      if ctrlLen >= 0 && dataLen >= 0 && newSize >= 0 && offset + 32 + ctrlLen + dataLen <= |patch| {
        var body := patch[offset + 32..];
        ReplaySize(oldData, Triples(unpack(body[..ctrlLen])), unpack(body[ctrlLen..ctrlLen + dataLen]),
                   unpack(body[ctrlLen + dataLen..]), newSize, [], 0);
      }
    }
  }

  // ----- Image patches -----

  /** "IMGDIFF2", and the number of records; a file with another magic number is rejected. */
  lemma ImageHeader(rs: seq<Rec>, oldData: seq<Byte>, file: seq<Byte>, z: Zlib, unpack: seq<Byte> -> seq<Byte>)
    ensures FileOf(rs)[..8]
            == ['I' as int, 'M' as int, 'G' as int, 'D' as int, 'I' as int, 'F' as int, 'F' as int, '2' as int]
    ensures |rs| < 0x8000_0000 ==> Read(FileOf(rs)[8..12]) == |rs|
    ensures |file| < 12 || file[..8]
            != ['I' as int, 'M' as int, 'G' as int, 'D' as int, 'I' as int, 'F' as int, 'F' as int, '2' as int] ==>
              ApplyFile(oldData, file, z, unpack) == Rejected([])
  {
    if |rs| < 0x8000_0000 { FitsFour(|rs|); }
    assert FileOf(rs)[8..12] == Write(|rs|, 4);
  }

  /** A record, number by number: its type, 3 for raw bytes, 0 for a patch and 2 for a patch of inflated data; then the
      length of the raw bytes, which follow at once, or where the source lies, where the patch lies, and what deflating
      the result takes. */
  lemma RecordFields(r: Rec, offset: nat)
    requires Sized(r) && offset < SIGNED_LIMIT
    ensures var h := Head(r, offset);
            match r
            case Raw(bytes) => Read(h[..4]) == 3 && Read(h[4..8]) == |bytes| && h[8..] == bytes
            case Patched(start, len, _) =>
              && |h| == 28 && Read(h[..4]) == 0 && Read(h[4..12]) == start && Read(h[12..20]) == len
              && Read(h[20..28]) == offset
            case Recoded(start, len, expandedLen, targetLen, p, _) =>
              && |h| == 64 && Read(h[..4]) == 2 && Read(h[4..12]) == start && Read(h[12..20]) == len
              && Read(h[20..28]) == offset && Read(h[28..36]) == expandedLen && Read(h[36..44]) == targetLen
              && Read(h[44..48]) == p.level && Read(h[48..52]) == p.algorithm && Read(h[52..56]) == p.windowBits
              && Read(h[56..60]) == p.memLevel && Read(h[60..64]) == p.strategy
  {
    hide Read, Write, WriteAll, ReadAll, AllInWidth;
    SizedRepresentable(r, offset);
    var h := Head(r, offset);
    WholeAt(h);
    match r
    case Raw(bytes) =>
      HeadReadBack(h, 0, CHUNK_RAW, [|bytes|], 0, 1, bytes);
      RawFields(h, |bytes|);
    case Patched(start, len, _) =>
      var xs := NormalNumbers(start, len, offset);
      HeadReadBack(h, 0, CHUNK_NORMAL, xs, 3, 0, []);
      PatchedFields(h, xs);
    case Recoded(start, len, expandedLen, targetLen, p, _) =>
      var xs := DeflateNumbers(start, len, offset, expandedLen, targetLen, p);
      HeadReadBack(h, 0, CHUNK_DEFLATE, xs, 5, 5, []);
      RecodedFields(h, xs);
  }

  lemma WholeAt(h: seq<Byte>)
    ensures At(h, 0, h)
  {
    assert h[0..|h|] == h;
  }

  lemma RawFields(h: seq<Byte>, n: int)
    requires |h| >= 8 && ReadAll(h, 4, 0, 1) == [n]
    ensures Read(h[4..8]) == n
  {
    hide Read;
    assert [n][0] == n;
  }

  lemma PatchedFields(h: seq<Byte>, xs: seq<int>)
    requires |h| == 28 && |xs| == 3 && ReadAll(h, 4, 3, 0) == xs
    ensures Read(h[4..12]) == xs[0] && Read(h[12..20]) == xs[1] && Read(h[20..28]) == xs[2]
  {
    EightsAt(h, 4, 3, 0);
    EightsAt(h, 12, 2, 0);
    EightsAt(h, 20, 1, 0);
  }

  lemma EightsAt(h: seq<Byte>, pos: nat, eights: nat, fours: nat)
    requires eights > 0 && pos + 8 * eights + 4 * fours <= |h|
    ensures ReadAll(h, pos, eights, fours) == [Read(h[pos..pos + 8])] + ReadAll(h, pos + 8, eights - 1, fours)
  {
  }

  lemma FoursAt(h: seq<Byte>, pos: nat, fours: nat)
    requires fours > 0 && pos + 4 * fours <= |h|
    ensures ReadAll(h, pos, 0, fours) == [Read(h[pos..pos + 4])] + ReadAll(h, pos + 4, 0, fours - 1)
  {
  }

  lemma RecodedFields(h: seq<Byte>, xs: seq<int>)
    requires |h| == 64 && |xs| == 10 && ReadAll(h, 4, 5, 5) == xs
    ensures Read(h[4..12]) == xs[0] && Read(h[12..20]) == xs[1] && Read(h[20..28]) == xs[2]
    ensures Read(h[28..36]) == xs[3] && Read(h[36..44]) == xs[4] && Read(h[44..48]) == xs[5]
    ensures Read(h[48..52]) == xs[6] && Read(h[52..56]) == xs[7] && Read(h[56..60]) == xs[8]
    ensures Read(h[60..64]) == xs[9]
  {
    hide Read, ReadAll;
    EightsAt(h, 4, 5, 5);
    EightsAt(h, 12, 4, 5);
    EightsAt(h, 20, 3, 5);
    EightsAt(h, 28, 2, 5);
    EightsAt(h, 36, 1, 5);
    FoursAt(h, 44, 5);
    FoursAt(h, 48, 4);
    FoursAt(h, 52, 3);
    FoursAt(h, 56, 2);
    FoursAt(h, 60, 1);
  }
}
