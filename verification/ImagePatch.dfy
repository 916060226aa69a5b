/** The image patch file: how it is laid out, and how imgpatch rebuilds the target from it. */
module ImagePatch {
  import opened Bytes
  import opened Offsets
  import opened Wire
  import opened PatchStreams
  import opened BsPatch
  import opened ImageChunks
  import opened ImageCut
  import BsDiff

  /** "IMGDIFF2" */
  const IMGDIFF_MAGIC: seq<Byte> := [73, 77, 71, 68, 73, 70, 70, 50]

  const CHUNK_NORMAL := 0
  const CHUNK_DEFLATE := 2
  const CHUNK_RAW := 3

  // ----- The file -----

  /** How one chunk of the target is to be made. */
  datatype Rec =
    | Raw(bytes: seq<Byte>)
    | Patched(srcStart: nat, srcLen: nat, patch: seq<Byte>)
    | Recoded(srcStart: nat, srcLen: nat, expandedLen: nat, targetLen: nat, params: Params, patch: seq<Byte>)

  /** The type, the numbers, and bytes that follow at once. */
  function HeadOf(kind: int, xs: seq<int>, eights: nat, fours: nat, inline: seq<Byte>): (b: seq<Byte>)
    requires |xs| == eights + fours
    ensures |b| == 4 + 8 * eights + 4 * fours + |inline|
  {
    Write(kind, 4) + WriteAll(xs, eights, fours) + inline
  }

  function NormalNumbers(start: nat, len: nat, offset: int): (xs: seq<int>)
    ensures |xs| == 3
  {
    [start, len, offset]
  }

  function DeflateNumbers(start: nat, len: nat, offset: int, expandedLen: nat, targetLen: nat,
                          p: Params): (xs: seq<int>)
    ensures |xs| == 10
  {
    [start, len, offset, expandedLen, targetLen, p.level, p.algorithm, p.windowBits, p.memLevel, p.strategy]
  }

  /** The record of a chunk whose patch is stored at offset. */
  function Head(r: Rec, offset: int): (b: seq<Byte>)
    ensures |b| == HeadSize(r)
  {
    match r
    case Raw(bytes) => HeadOf(CHUNK_RAW, [|bytes|], 0, 1, bytes)
    case Patched(start, len, _) => HeadOf(CHUNK_NORMAL, NormalNumbers(start, len, offset), 3, 0, [])
    case Recoded(start, len, expandedLen, targetLen, params, _) =>
      HeadOf(CHUNK_DEFLATE, DeflateNumbers(start, len, offset, expandedLen, targetLen, params), 5, 5, [])
  }

  function HeadSize(r: Rec): (n: nat) {
    match r
    case Raw(bytes) => 8 + |bytes|
    case Patched(_, _, _) => 28
    case Recoded(_, _, _, _, _, _) => 64
  }

  /** What is stored behind all records. */
  function Body(r: Rec): (b: seq<Byte>) {
    match r
    case Raw(_) => []
    case Patched(_, _, patch) => patch
    case Recoded(_, _, _, _, _, patch) => patch
  }

  /** The records from number i on, the first patch among them being stored at offset. */
  function Heads(rs: seq<Rec>, i: nat, offset: int): (b: seq<Byte>)
    requires i <= |rs|
    ensures |b| == HeadsSize(rs, i)
    decreases |rs| - i
  {
    if i == |rs| then [] else Head(rs[i], offset) + Heads(rs, i + 1, offset + |Body(rs[i])|)
  }

  function HeadsSize(rs: seq<Rec>, i: nat): (n: nat)
    requires i <= |rs|
    decreases |rs| - i
  {
    if i == |rs| then 0 else HeadSize(rs[i]) + HeadsSize(rs, i + 1)
  }

  function Bodies(rs: seq<Rec>, i: nat): (b: seq<Byte>)
    requires i <= |rs|
    decreases |rs| - i
  {
    if i == |rs| then [] else Body(rs[i]) + Bodies(rs, i + 1)
  }

  function FileOf(rs: seq<Rec>): (b: seq<Byte>) {
    IMGDIFF_MAGIC + Write(|rs|, 4) + Heads(rs, 0, 12 + HeadsSize(rs, 0)) + Bodies(rs, 0)
  }

  /** How long the file is up to the first patch. */
  method TotalHeaderSize(rs: seq<Rec>) returns (total: nat)
    ensures total == 12 + HeadsSize(rs, 0)
  {
    total := 12;
    var i := 0;
    while i < |rs|
      invariant i <= |rs| && total + HeadsSize(rs, i) == 12 + HeadsSize(rs, 0)
    {
      total := total + 4;
      match rs[i] {
        case Patched(_, _, _) => total := total + 8 * 3;
        case Recoded(_, _, _, _, _, _) => total := total + 8 * 5 + 4 * 5;
        case Raw(bytes) => total := total + 4 + |bytes|;
      }
      i := i + 1;
    }
  }

  lemma HeadsNext(rs: seq<Rec>, i: nat, offset: nat)
    requires i < |rs|
    ensures Heads(rs, i, offset) == Head(rs[i], offset) + Heads(rs, i + 1, offset + |Body(rs[i])|)
  {
  }

  lemma Behind(file: seq<Byte>, all: seq<Byte>, head: seq<Byte>, rest: seq<Byte>)
    requires all == head + rest
    ensures file + all == file + head + rest
  {
  }

  lemma HeadWritten(rs: seq<Rec>, i: nat, offset: nat, next: nat, file: seq<Byte>, left: seq<Byte>, goal: seq<Byte>,
                    head: seq<Byte>)
    returns (left': seq<Byte>)
    requires i < |rs| && left == Heads(rs, i, offset) && file + left == goal
    requires head == Head(rs[i], offset) && next == offset + |Body(rs[i])|
    ensures left' == Heads(rs, i + 1, next) && file + head + left' == goal
  {
    left' := Heads(rs, i + 1, next);
    HeadsNext(rs, i, offset);
    Behind(file, left, head, left');
  }

  /** Writes the records, working out where each patch will be. */
  method WriteHeads(rs: seq<Rec>, start: nat, file0: seq<Byte>) returns (file: seq<Byte>)
    ensures file == file0 + Heads(rs, 0, start)
  {
    file := file0;
    ghost var left := Heads(rs, 0, start);
    ghost var goal := file0 + left;
    var offset: nat, i := start, 0;
    while i < |rs|
      invariant i <= |rs| && left == Heads(rs, i, offset) && file + left == goal
    {
      var head, next := Head(rs[i], offset), offset + |Body(rs[i])|;
      left := HeadWritten(rs, i, offset, next, file, left, goal, head);
      file, offset, i := file + head, next, i + 1;
    }
    assert file + [] == file;
  }

  /** Appends the patches in order. */
  method AppendBodies(rs: seq<Rec>, file0: seq<Byte>) returns (file: seq<Byte>)
    ensures file == file0 + Bodies(rs, 0)
  {
    file := file0;
    var i := 0;
    while i < |rs|
      invariant i <= |rs| && file + Bodies(rs, i) == file0 + Bodies(rs, 0)
    {
      Assoc(file, Body(rs[i]), Bodies(rs, i + 1));
      if !rs[i].Raw? { file := file + rs[i].patch; } else { assert file + [] == file; }
      i := i + 1;
    }
    assert file + [] == file;
  }

  /** Writes the file: sizes first, then the records with their offsets, then the patches. */
  method WriteImagePatch(rs: seq<Rec>) returns (file: seq<Byte>)
    ensures file == FileOf(rs)
  {
    var total := TotalHeaderSize(rs);
    file := WriteHeads(rs, total, IMGDIFF_MAGIC + Write(|rs|, 4));
    file := AppendBodies(rs, file);
  }

  // ----- Applying it -----

  /** How applying an image patch ends, with what has been written by then. */
  datatype Applied =
    | Emitted(data: seq<Byte>)
    | Rejected(data: seq<Byte>)
    | OutOfBounds(data: seq<Byte>)   // a record points outside the source or before the patch

  /** What one record does: emit bytes and go on at next, or end the run. When the bytes of a plain
      record cannot all be written, nobody notices. */
  datatype Action = Emit(bytes: seq<Byte>, next: nat, plain: bool) | Reject | Stray

  /** What the record at pos does. */
  function RecordAt(oldData: seq<Byte>, patch: seq<Byte>, pos: nat, z: Zlib,
                    unpack: seq<Byte> -> seq<Byte>): (r: Action) {
    if pos + 4 > |patch| then Reject
    else
      var kind := Read(patch[pos..pos + 4]);
      if kind == CHUNK_NORMAL then NormalAt(oldData, patch, pos + 4, unpack)
      else if kind == CHUNK_RAW then RawAt(patch, pos + 4)
      else if kind == CHUNK_DEFLATE then DeflateAt(oldData, patch, pos + 4, z, unpack)
      else Reject
  }

  /** A failing patch is not noticed: nothing is written for the chunk and the run goes on. */
  function NormalAt(oldData: seq<Byte>, patch: seq<Byte>, pos: nat, unpack: seq<Byte> -> seq<Byte>): (r: Action) {
    if pos + 24 > |patch| then Reject
    else
      var x := ReadAll(patch, pos, 3, 0);
      if x[0] < 0 || x[1] < 0 || x[2] < 0 || x[0] + x[1] > |oldData| then Stray
      else
        var made := PatchFile(oldData[x[0]..x[0] + x[1]], patch, x[2], unpack);
        Emit(if made.Done? then made.data else [], pos + 24, true)
  }

  function RawAt(patch: seq<Byte>, pos: nat): (r: Action) {
    if pos + 4 > |patch| then Reject
    else
      var len := ReadAll(patch, pos, 0, 1)[0];
      if len < 0 || pos + 4 + len > |patch| then Reject
      else Emit(patch[pos + 4..pos + 4 + len], pos + 4 + len, false)
  }

  function DeflateAt(oldData: seq<Byte>, patch: seq<Byte>, pos: nat, z: Zlib,
                     unpack: seq<Byte> -> seq<Byte>): (r: Action) {
    if pos + 60 > |patch| then Reject
    else
      var x := ReadAll(patch, pos, 5, 5);
      if x[3] < 0 then Reject
      else if x[0] < 0 || x[1] < 0 || x[2] < 0 || x[0] + x[1] > |oldData| then Stray
      else
        var expanded := InflateInto(z, oldData[x[0]..x[0] + x[1]], x[3]);
        if expanded.None? || |expanded.value| < x[3] then Reject
        else
          var made := PatchFile(expanded.value, patch, x[2], unpack);
          if made.Failed? then Reject
          else Emit(z.deflate(Params(x[5], x[6], x[7], x[8], x[9]), made.data), pos + 60, false)
  }

  /** n records from pos on, each doing what step says. */
  function Run(step: nat -> Action, pos: nat, n: int, out: seq<Byte>): (r: Applied)
    decreases n
  {
    if n <= 0 then Emitted(out)
    else
      match step(pos)
      case Reject => Rejected(out)
      case Stray => OutOfBounds(out)
      case Emit(bytes, next, _) => Run(step, next, n - 1, out + bytes)
  }

  /** What one record emits. */
  datatype Piece = Piece(bytes: seq<Byte>, plain: bool)

  /** What the n records from pos on emit, up to the first that ends the run. */
  function Pieces(step: nat -> Action, pos: nat, n: int): (r: seq<Piece>)
    decreases n
  {
    if n <= 0 || !step(pos).Emit? then []
    else [Piece(step(pos).bytes, step(pos).plain)] + Pieces(step, step(pos).next, n - 1)
  }

  function Joined(ps: seq<Piece>): (r: seq<Byte>) {
    if ps == [] then [] else ps[0].bytes + Joined(ps[1..])
  }

  /** The pieces make up what is written. */
  lemma {:induction false} PiecesJoin(step: nat -> Action, pos: nat, n: int, out: seq<Byte>)
    ensures Run(step, pos, n, out).data == out + Joined(Pieces(step, pos, n))
    decreases n
  {
    if n <= 0 || !step(pos).Emit? {
      assert out + [] == out;
    } else {
      var bytes, ps := step(pos).bytes, Pieces(step, step(pos).next, n - 1);
      PiecesJoin(step, step(pos).next, n - 1, out + bytes);
      Behind(out, bytes + Joined(ps), bytes, Joined(ps));
      assert ([Piece(bytes, step(pos).plain)] + ps)[1..] == ps;
    }
  }

  /** What the records of a file emit. */
  function FilePieces(oldData: seq<Byte>, patch: seq<Byte>, z: Zlib, unpack: seq<Byte> -> seq<Byte>): (r: seq<Piece>) {
    if |patch| < 12 || patch[..8] != IMGDIFF_MAGIC then []
    else Pieces(Reader(oldData, patch, z, unpack), 12, Read(patch[8..12]))
  }

  lemma FilePiecesJoin(oldData: seq<Byte>, patch: seq<Byte>, z: Zlib, unpack: seq<Byte> -> seq<Byte>)
    ensures ApplyFile(oldData, patch, z, unpack).data == Joined(FilePieces(oldData, patch, z, unpack))
  {
    if |patch| >= 12 && patch[..8] == IMGDIFF_MAGIC {
      PiecesJoin(Reader(oldData, patch, z, unpack), 12, Read(patch[8..12]), []);
    }
  }

  /** What the record at each position does. */
  function Reader(oldData: seq<Byte>, patch: seq<Byte>, z: Zlib, unpack: seq<Byte> -> seq<Byte>): (r: nat -> Action) {
    (pos: nat) => RecordAt(oldData, patch, pos, z, unpack)
  }

  /** What applying an image patch comes to. */
  function ApplyFile(oldData: seq<Byte>, patch: seq<Byte>, z: Zlib, unpack: seq<Byte> -> seq<Byte>): (r: Applied) {
    if |patch| < 12 || patch[..8] != IMGDIFF_MAGIC then Rejected([])
    else Run(Reader(oldData, patch, z, unpack), 12, Read(patch[8..12]), [])
  }

  method ApplyImagePatch(oldData: seq<Byte>, patch: seq<Byte>, z: Zlib, unpack: seq<Byte> -> seq<Byte>)
    returns (r: Applied)
    ensures r == ApplyFile(oldData, patch, z, unpack)
  {
    if |patch| < 12 { return Rejected([]); }
    if patch[..8] != IMGDIFF_MAGIC { return Rejected([]); }
    var numChunks := Read(patch[8..12]);
    var pos: nat, out: seq<Byte>, i: nat := 12, [], 0;
    ghost var step := Reader(oldData, patch, z, unpack);
    ghost var goal := Run(step, pos, numChunks, out);
    while i < numChunks
      invariant Run(step, pos, numChunks - i, out) == goal
    {
      var did := ApplyRecord(oldData, patch, pos, z, unpack);
      assert step(pos) == did;
      if did.Reject? { return Rejected(out); }
      if did.Stray? { return OutOfBounds(out); }
      out, pos := out + did.bytes, did.next;
      i := i + 1;
    }
    return Emitted(out);
  }

  method ApplyRecord(oldData: seq<Byte>, patch: seq<Byte>, pos: nat, z: Zlib, unpack: seq<Byte> -> seq<Byte>)
    returns (r: Action)
    ensures r == RecordAt(oldData, patch, pos, z, unpack)
  {
    if pos + 4 > |patch| { return Reject; }
    var kind := Read(patch[pos..pos + 4]);
    if kind == CHUNK_NORMAL {
      r := RebuildNormal(oldData, patch, pos + 4, unpack);
    } else if kind == CHUNK_RAW {
      r := RawAt(patch, pos + 4);
    } else if kind == CHUNK_DEFLATE {
      r := RebuildDeflate(oldData, patch, pos + 4, z, unpack);
    } else {
      r := Reject;
    }
  }

  /** Patches a stretch of the source. */
  method RebuildNormal(oldData: seq<Byte>, patch: seq<Byte>, pos: nat, unpack: seq<Byte> -> seq<Byte>)
    returns (r: Action)
    ensures r == NormalAt(oldData, patch, pos, unpack)
  {
    hide PatchFile, ReadAll;
    if pos + 24 > |patch| { return Reject; }
    var x := ReadAll(patch, pos, 3, 0);
    var srcStart, srcLen, patchOffset := x[0], x[1], x[2];
    if srcStart < 0 || srcLen < 0 || patchOffset < 0 || srcStart + srcLen > |oldData| { return Stray; }
    var made := ApplyBSDiffPatchMem(oldData[srcStart..srcStart + srcLen], patch, patchOffset, unpack);
    return Emit(if made.Done? then made.data else [], pos + 24, true);
  }

  /** Deflates into a buffer of room bytes, which is passed on whenever it is full and at the end. */
  method DeflateInBlocks(z: Zlib, params: Params, data: seq<Byte>, room: nat) returns (out: seq<Byte>)
    requires room > 0
    ensures out == z.deflate(params, data)
  {
    var encoding := z.deflate(params, data);
    out := [];
    var ended := false;
    while !ended
      invariant |out| <= |encoding| && out == encoding[..|out|] && (ended ==> out == encoding)
      decreases !ended, |encoding| - |out|
    {
      var have := if |encoding| - |out| < room then |encoding| - |out| else room;
      ended := |encoding| - |out| < room;
      out := out + encoding[|out|..|out| + have];
    }
  }

  /** Inflates a stretch of the source, patches that, and deflates the result. */
  method RebuildDeflate(oldData: seq<Byte>, patch: seq<Byte>, pos: nat, z: Zlib, unpack: seq<Byte> -> seq<Byte>)
    returns (r: Action)
    ensures r == DeflateAt(oldData, patch, pos, z, unpack)
  {
    hide ReadAll;
    if pos + 60 > |patch| { return Reject; }
    var x := ReadAll(patch, pos, 5, 5);
    var srcStart, srcLen, patchOffset, expandedLen := x[0], x[1], x[2], x[3];
    var params := Params(x[5], x[6], x[7], x[8], x[9]);
    if expandedLen < 0 { return Reject; }
    if srcStart < 0 || srcLen < 0 || patchOffset < 0 || srcStart + srcLen > |oldData| { return Stray; }
    var expanded := InflateInto(z, oldData[srcStart..srcStart + srcLen], expandedLen);
    if expanded.None? { return Reject; }
    if |expanded.value| < expandedLen { return Reject; }
    var made := ApplyBSDiffPatchMem(expanded.value, patch, patchOffset, unpack);
    if made.Failed? { return Reject; }
    var encoded := DeflateInBlocks(z, params, made.data, if expandedLen < 32768 then 32768 else expandedLen);
    return Emit(encoded, pos + 60, false);
  }

  // ----- What is written is what is read -----

  /** The record makes bytes out of the source. */
  ghost predicate Works(oldData: seq<Byte>, z: Zlib, c: Coder, r: Rec, bytes: seq<Byte>) {
    match r
    case Raw(b) => b == bytes
    case Patched(start, len, patch) =>
      start + len <= |oldData| && BsDiff.Rebuilds(c, oldData[start..start + len], bytes, patch)
    case Recoded(start, len, expandedLen, _, params, patch) =>
      && start + len <= |oldData|
      && var expanded := InflateInto(z, oldData[start..start + len], expandedLen);
         && expanded.Some? && |expanded.value| == expandedLen
         && exists v {:trigger BsDiff.Rebuilds(c, expanded.value, v, patch)} ::
              BsDiff.Rebuilds(c, expanded.value, v, patch) && z.deflate(params, v) == bytes
  }

  ghost predicate Representable(r: Rec, offset: int) {
    match r
    case Raw(bytes) => AllInWidth([|bytes|], 0, 1)
    case Patched(start, len, _) => AllInWidth(NormalNumbers(start, len, offset), 3, 0)
    case Recoded(start, len, expandedLen, targetLen, params, _) =>
      AllInWidth(DeflateNumbers(start, len, offset, expandedLen, targetLen, params), 5, 5)
  }

  /** A record, read where it was written. */
  lemma HeadReadBack(file: seq<Byte>, pos: nat, kind: int, xs: seq<int>, eights: nat, fours: nat, inline: seq<Byte>)
    requires AllInWidth(xs, eights, fours) && 0 <= kind < 4 && At(file, pos, HeadOf(kind, xs, eights, fours, inline))
    ensures pos + 4 + (8 * eights + 4 * fours) <= |file| && Read(file[pos..pos + 4]) == kind
    ensures ReadAll(file, pos + 4, eights, fours) == xs
    ensures At(file, pos + 4 + (8 * eights + 4 * fours), inline)
  {
    var k, numbers := Write(kind, 4), WriteAll(xs, eights, fours);
    AtSplit(file, pos, HeadOf(kind, xs, eights, fours, inline), k + numbers, inline);
    AtSplit(file, pos, k + numbers, k, numbers);
    FitsFour(kind);
    ReadAllWritten(file, pos + 4, xs, eights, fours);
  }

  /** A stored patch, applied where it lies. */
  lemma RebuildsAt(c: Coder, oldData: seq<Byte>, newData: seq<Byte>, patch: seq<Byte>, file: seq<Byte>, offset: nat)
    requires BsDiff.Rebuilds(c, oldData, newData, patch)
    requires At(file, offset, patch)
    ensures PatchFile(oldData, file, offset, c.unpack) == Done(newData, [], [], [])
  {
    assert file == file[..offset] + patch + file[offset + |patch|..];
  }

  lemma RawEmits(oldData: seq<Byte>, z: Zlib, c: Coder, bytes: seq<Byte>, file: seq<Byte>, pos: nat)
    requires AllInWidth([|bytes|], 0, 1)
    requires At(file, pos, HeadOf(CHUNK_RAW, [|bytes|], 0, 1, bytes))
    ensures RecordAt(oldData, file, pos, z, c.unpack) == Emit(bytes, pos + 8 + |bytes|, false)
  {
    HeadReadBack(file, pos, CHUNK_RAW, [|bytes|], 0, 1, bytes);
  }

  lemma PatchedEmits(oldData: seq<Byte>, z: Zlib, c: Coder, start: nat, len: nat, patch: seq<Byte>, bytes: seq<Byte>,
                     file: seq<Byte>, pos: nat, offset: nat)
    requires start + len <= |oldData| && BsDiff.Rebuilds(c, oldData[start..start + len], bytes, patch)
    requires AllInWidth(NormalNumbers(start, len, offset), 3, 0)
    requires At(file, pos, HeadOf(CHUNK_NORMAL, NormalNumbers(start, len, offset), 3, 0, []))
    requires At(file, offset, patch)
    ensures RecordAt(oldData, file, pos, z, c.unpack) == Emit(bytes, pos + 28, true)
  {
    RebuildsAt(c, oldData[start..start + len], bytes, patch, file, offset);
    HeadReadBack(file, pos, CHUNK_NORMAL, NormalNumbers(start, len, offset), 3, 0, []);
  }

  lemma RecodedEmits(oldData: seq<Byte>, z: Zlib, c: Coder, start: nat, len: nat, expanded: seq<Byte>, v: seq<Byte>,
                     targetLen: nat, params: Params, patch: seq<Byte>, file: seq<Byte>, pos: nat, offset: nat)
    requires start + len <= |oldData| && InflateInto(z, oldData[start..start + len], |expanded|) == Some(expanded)
    requires BsDiff.Rebuilds(c, expanded, v, patch)
    requires AllInWidth(DeflateNumbers(start, len, offset, |expanded|, targetLen, params), 5, 5)
    requires At(file, pos, HeadOf(CHUNK_DEFLATE, DeflateNumbers(start, len, offset, |expanded|, targetLen, params), 5,
                                  5, []))
    requires At(file, offset, patch)
    ensures RecordAt(oldData, file, pos, z, c.unpack) == Emit(z.deflate(params, v), pos + 64, false)
  {
    RebuildsAt(c, expanded, v, patch, file, offset);
    HeadReadBack(file, pos, CHUNK_DEFLATE, DeflateNumbers(start, len, offset, |expanded|, targetLen, params), 5, 5, []);
  }

  lemma Worked(oldData: seq<Byte>, z: Zlib, c: Coder, r: Rec, bytes: seq<Byte>)
    returns (expanded: seq<Byte>, v: seq<Byte>)
    requires r.Recoded? && Works(oldData, z, c, r, bytes)
    ensures r.srcStart + r.srcLen <= |oldData| && |expanded| == r.expandedLen
    ensures InflateInto(z, oldData[r.srcStart..r.srcStart + r.srcLen], r.expandedLen) == Some(expanded)
    ensures BsDiff.Rebuilds(c, expanded, v, r.patch) && z.deflate(r.params, v) == bytes
  {
    expanded := InflateInto(z, oldData[r.srcStart..r.srcStart + r.srcLen], r.expandedLen).value;
    v :| BsDiff.Rebuilds(c, expanded, v, r.patch) && z.deflate(r.params, v) == bytes;
  }

  lemma PatchedRecordEmits(oldData: seq<Byte>, z: Zlib, c: Coder, r: Rec, bytes: seq<Byte>, file: seq<Byte>, pos: nat,
                           offset: nat)
    requires r.Patched?
    requires Works(oldData, z, c, r, bytes)
    requires Representable(r, offset)
    requires At(file, pos, Head(r, offset))
    requires At(file, offset, Body(r))
    ensures RecordAt(oldData, file, pos, z, c.unpack) == Emit(bytes, pos + HeadSize(r), r.Patched?)
  {
    hide At, AllInWidth, DeflateNumbers, HeadOf;
    var Patched(start, len, patch) := r;
    PatchedEmits(oldData, z, c, start, len, patch, bytes, file, pos, offset);
  }

  lemma RecodedRecordEmits(oldData: seq<Byte>, z: Zlib, c: Coder, r: Rec, bytes: seq<Byte>, file: seq<Byte>, pos: nat,
                           offset: nat)
    requires r.Recoded?
    requires Works(oldData, z, c, r, bytes)
    requires Representable(r, offset)
    requires At(file, pos, Head(r, offset))
    requires At(file, offset, Body(r))
    ensures RecordAt(oldData, file, pos, z, c.unpack) == Emit(bytes, pos + HeadSize(r), r.Patched?)
  {
    var Recoded(start, len, expandedLen, targetLen, params, patch) := r;
    var expanded, v := Worked(oldData, z, c, r, bytes);
    RecodedEmits(oldData, z, c, start, len, expanded, v, targetLen, params, patch, file, pos, offset);
  }

  /** A record that works, with its patch stored at the offset it gives, emits its bytes. */
  lemma RecordEmits(oldData: seq<Byte>, z: Zlib, c: Coder, r: Rec, bytes: seq<Byte>, file: seq<Byte>, pos: nat,
                    offset: nat)
    requires Works(oldData, z, c, r, bytes)
    requires Representable(r, offset)
    requires At(file, pos, Head(r, offset))
    requires At(file, offset, Body(r))
    ensures RecordAt(oldData, file, pos, z, c.unpack) == Emit(bytes, pos + HeadSize(r), r.Patched?)
  {
    if r.Raw? {
      RawEmits(oldData, z, c, bytes, file, pos);
    } else if r.Patched? {
      PatchedRecordEmits(oldData, z, c, r, bytes, file, pos, offset);
    } else {
      RecodedRecordEmits(oldData, z, c, r, bytes, file, pos, offset);
    }
  }

  // ----- The whole file -----

  /** Everything the record says fits the width it is written in. */
  ghost predicate Sized(r: Rec) {
    match r
    case Raw(bytes) => |bytes| < 0x8000_0000
    case Patched(start, len, _) => start < SIGNED_LIMIT && len < SIGNED_LIMIT
    case Recoded(start, len, expandedLen, targetLen, p, _) =>
      && start < SIGNED_LIMIT && len < INT_LIMIT && expandedLen < INT_LIMIT && targetLen < SIGNED_LIMIT
      && Small(p.level) && Small(p.algorithm) && Small(p.windowBits) && Small(p.memLevel) && Small(p.strategy)
  }

  ghost predicate Small(x: int) {
    -0x8000_0000 <= x < 0x8000_0000
  }

  lemma SizedRepresentable(r: Rec, offset: nat)
    requires Sized(r) && offset < SIGNED_LIMIT
    ensures Representable(r, offset)
  {
    var xs := match r
      case Raw(bytes) => [|bytes|]
      case Patched(start, len, _) => NormalNumbers(start, len, offset)
      case Recoded(start, len, expandedLen, targetLen, p, _) => DeflateNumbers(start, len, offset, expandedLen,
                                                                               targetLen, p);
    forall i | 0 <= i < |xs|
      ensures Small(xs[i]) ==> InWidth(xs[i], 4)
      ensures 0 <= xs[i] < SIGNED_LIMIT ==> InWidth(xs[i], 8)
    {
      WidthLimits(xs[i]);
    }
  }

  ghost function Concat(bs: seq<seq<Byte>>, i: nat): (r: seq<Byte>)
    requires i <= |bs|
    decreases |bs| - i
  {
    if i == |bs| then [] else bs[i] + Concat(bs, i + 1)
  }

  /** The first k records make their parts of the target. */
  ghost predicate Working(oldData: seq<Byte>, z: Zlib, c: Coder, rs: seq<Rec>, bs: seq<seq<Byte>>, k: nat) {
    && |rs| == |bs| && k <= |rs|
    && (forall i {:trigger Works(oldData, z, c, rs[i], bs[i])} :: 0 <= i < k ==> Works(oldData, z, c, rs[i], bs[i]))
    && (forall i {:trigger Sized(rs[i])} :: 0 <= i < |rs| ==> Sized(rs[i]))
  }

  /** The record's stretch of the source does not inflate to the length the record states. */
  ghost predicate Short(oldData: seq<Byte>, z: Zlib, r: Rec) {
    && r.Recoded? && r.srcStart + r.srcLen <= |oldData|
    && var expanded := InflateInto(z, oldData[r.srcStart..r.srcStart + r.srcLen], r.expandedLen);
       expanded.Some? ==> |expanded.value| < r.expandedLen
  }

  /** The record's stretch of the source does not end in the source. */
  predicate Outside(oldData: seq<Byte>, r: Rec) {
    !r.Raw? && r.srcStart + r.srcLen > |oldData|
  }

  /** Where the records from number i on lie, and where their patches lie. */
  datatype Rest = Rest(heads: seq<Byte>, pos: nat, bodies: seq<Byte>, offset: nat)

  ghost predicate Unread(rs: seq<Rec>, i: nat, file: seq<Byte>, u: Rest) {
    && i <= |rs| && u.heads == Heads(rs, i, u.offset) && u.bodies == Bodies(rs, i)
    && At(file, u.pos, u.heads) && At(file, u.offset, u.bodies)
  }

  lemma UnreadNext(rs: seq<Rec>, i: nat, file: seq<Byte>, u: Rest) returns (u': Rest)
    requires i < |rs| && Unread(rs, i, file, u)
    ensures Unread(rs, i + 1, file, u') && u'.pos == u.pos + HeadSize(rs[i])
    ensures At(file, u.pos, Head(rs[i], u.offset))
    ensures At(file, u.offset, Body(rs[i]))
  {
    hide At, Head, Body, HeadSize, Heads;
    var head, body := Head(rs[i], u.offset), Body(rs[i]);
    var offset' := u.offset + |body|;
    u' := Rest(Heads(rs, i + 1, offset'), u.pos + |head|, Bodies(rs, i + 1), offset');
    HeadsNext(rs, i, u.offset);
    AtSplit(file, u.pos, u.heads, head, u'.heads);
    AtSplit(file, u.offset, u.bodies, body, u'.bodies);
  }

  /** step does what the records of the file say. */
  ghost predicate Reads(step: nat -> Action, oldData: seq<Byte>, file: seq<Byte>, z: Zlib, c: Coder) {
    forall pos: nat {:trigger RecordAt(oldData, file, pos, z, c.unpack)} ::
        step(pos) == RecordAt(oldData, file, pos, z, c.unpack)
  }

  lemma NextEmits(step: nat -> Action, oldData: seq<Byte>, z: Zlib, c: Coder, rs: seq<Rec>, bs: seq<seq<Byte>>,
                  k: nat, i: nat,
                  file: seq<Byte>, u: Rest) returns (u': Rest)
    requires Working(oldData, z, c, rs, bs, k) && i < k && |file| < SIGNED_LIMIT
    requires Reads(step, oldData, file, z, c) && Unread(rs, i, file, u)
    ensures Unread(rs, i + 1, file, u') && step(u.pos) == Emit(bs[i], u'.pos, rs[i].Patched?)
  {
    u' := UnreadNext(rs, i, file, u);
    assert Works(oldData, z, c, rs[i], bs[i]);
    assert Sized(rs[i]);
    SizedRepresentable(rs[i], u.offset);
    RecordEmits(oldData, z, c, rs[i], bs[i], file, u.pos, u.offset);
  }

  lemma ShortRejected(step: nat -> Action, oldData: seq<Byte>, z: Zlib, c: Coder, rs: seq<Rec>, i: nat,
                      file: seq<Byte>, u: Rest)
    requires i < |rs| && Short(oldData, z, rs[i]) && Sized(rs[i]) && |file| < SIGNED_LIMIT
    requires Reads(step, oldData, file, z, c) && Unread(rs, i, file, u)
    ensures step(u.pos) == Reject
  {
    var u' := UnreadNext(rs, i, file, u);
    SizedRepresentable(rs[i], u.offset);
    ShortRecordRejected(oldData, z, c, rs[i], file, u.pos, u.offset);
  }

  lemma ShortRecordRejected(oldData: seq<Byte>, z: Zlib, c: Coder, r: Rec, file: seq<Byte>, pos: nat, offset: nat)
    requires Short(oldData, z, r) && Representable(r, offset)
    requires At(file, pos, Head(r, offset))
    ensures RecordAt(oldData, file, pos, z, c.unpack) == Reject
  {
    var Recoded(start, len, expandedLen, targetLen, params, _) := r;
    ShortFieldsRejected(oldData, z, c, start, len, expandedLen, targetLen, params, file, pos, offset);
  }

  lemma ShortFieldsRejected(oldData: seq<Byte>, z: Zlib, c: Coder, start: nat, len: nat, expandedLen: nat,
                            targetLen: nat, params: Params, file: seq<Byte>, pos: nat, offset: nat)
    requires start + len <= |oldData|
    requires var expanded := InflateInto(z, oldData[start..start + len], expandedLen);
             expanded.Some? ==> |expanded.value| < expandedLen
    requires AllInWidth(DeflateNumbers(start, len, offset, expandedLen, targetLen, params), 5, 5)
    requires At(file, pos, HeadOf(CHUNK_DEFLATE, DeflateNumbers(start, len, offset, expandedLen, targetLen, params),
                                  5, 5, []))
    ensures RecordAt(oldData, file, pos, z, c.unpack) == Reject
  {
    HeadReadBack(file, pos, CHUNK_DEFLATE, DeflateNumbers(start, len, offset, expandedLen, targetLen, params), 5, 5,
                 []);
  }

  lemma OutsideStray(step: nat -> Action, oldData: seq<Byte>, z: Zlib, c: Coder, rs: seq<Rec>, i: nat,
                     file: seq<Byte>, u: Rest)
    requires i < |rs| && Outside(oldData, rs[i]) && Sized(rs[i]) && |file| < SIGNED_LIMIT
    requires Reads(step, oldData, file, z, c) && Unread(rs, i, file, u)
    ensures step(u.pos) == Stray
  {
    var u' := UnreadNext(rs, i, file, u);
    SizedRepresentable(rs[i], u.offset);
    OutsideRecordStray(oldData, z, c, rs[i], file, u.pos, u.offset);
  }

  lemma OutsideRecordStray(oldData: seq<Byte>, z: Zlib, c: Coder, r: Rec, file: seq<Byte>, pos: nat, offset: nat)
    requires Outside(oldData, r) && Representable(r, offset) && At(file, pos, Head(r, offset))
    ensures RecordAt(oldData, file, pos, z, c.unpack) == Stray
  {
    match r
    case Patched(start, len, _) => HeadReadBack(file, pos, CHUNK_NORMAL, NormalNumbers(start, len, offset), 3, 0, []);
    case Recoded(start, len, expandedLen, targetLen, params, _) =>
      HeadReadBack(file, pos, CHUNK_DEFLATE, DeflateNumbers(start, len, offset, expandedLen, targetLen, params), 5, 5,
                   []);
  }

  /** What ends the run over a written file at this record. */
  ghost predicate Stops(oldData: seq<Byte>, z: Zlib, r: Rec) {
    Short(oldData, z, r) || Outside(oldData, r)
  }

  /** The run over a written file gets through all records if all work; behind those that work, it is
      rejected at a short one, and fails at one whose stretch does not end in the source. */
  lemma {:induction false} RunUnread(step: nat -> Action, oldData: seq<Byte>, z: Zlib, c: Coder, rs: seq<Rec>,
                                     bs: seq<seq<Byte>>,
                                     k: nat, i: nat, file: seq<Byte>, u: Rest, out: seq<Byte>)
    requires Working(oldData, z, c, rs, bs, k) && i <= k && |file| < SIGNED_LIMIT
    requires k < |rs| ==> Stops(oldData, z, rs[k])
    requires Reads(step, oldData, file, z, c)
    requires Unread(rs, i, file, u)
    ensures var r := Run(step, u.pos, |rs| - i, out);
            if k == |rs| then r == Emitted(out + Concat(bs, i))
            else if Outside(oldData, rs[k]) then r.OutOfBounds? else r.Rejected?
    decreases |rs| - i
  {
    if i == |rs| {
      assert out + [] == out;
    } else if i == k {
      if Outside(oldData, rs[k]) {
        OutsideStray(step, oldData, z, c, rs, i, file, u);
      } else {
        ShortRejected(step, oldData, z, c, rs, i, file, u);
      }
    } else {
      var u' := NextEmits(step, oldData, z, c, rs, bs, k, i, file, u);
      RunUnread(step, oldData, z, c, rs, bs, k, i + 1, file, u', out + bs[i]);
      Behind(out, Concat(bs, i), bs[i], Concat(bs, i + 1));
    }
  }

  /** Applying the file that was written for records that work emits what they make, in order; it
      is rejected when one of them turns out short, and fails when one points outside the source. */
  lemma ApplyWritten(oldData: seq<Byte>, z: Zlib, c: Coder, rs: seq<Rec>, bs: seq<seq<Byte>>, k: nat)
    requires Working(oldData, z, c, rs, bs, k) && |FileOf(rs)| < 0x8000_0000
    requires k < |rs| ==> Stops(oldData, z, rs[k])
    ensures var r := ApplyFile(oldData, FileOf(rs), z, c.unpack);
            if k == |rs| then r == Emitted(Concat(bs, 0))
            else if Outside(oldData, rs[k]) then r.OutOfBounds? else r.Rejected?
  {
    hide Works, Sized, Outside, Short, RecordAt;
    var file := FileOf(rs);
    var step := Reader(oldData, file, z, c.unpack);
    var u := FileUnread(rs, file);
    HeadsCount(rs, 0);
    FitsFour(|rs|);
    RunUnread(step, oldData, z, c, rs, bs, k, 0, file, u, []);
    assert [] + Concat(bs, 0) == Concat(bs, 0);
  }

  /** What the records make, piece by piece. */
  function PiecesOf(rs: seq<Rec>, bs: seq<seq<Byte>>, i: nat): (r: seq<Piece>)
    requires |rs| == |bs| && i <= |rs|
    decreases |rs| - i
  {
    if i == |rs| then [] else [Piece(bs[i], rs[i].Patched?)] + PiecesOf(rs, bs, i + 1)
  }

  lemma {:induction false} PiecesUnread(step: nat -> Action, oldData: seq<Byte>, z: Zlib, c: Coder, rs: seq<Rec>,
                                        bs: seq<seq<Byte>>, i: nat, file: seq<Byte>, u: Rest)
    requires Working(oldData, z, c, rs, bs, |rs|) && i <= |rs| && |file| < SIGNED_LIMIT
    requires Reads(step, oldData, file, z, c) && Unread(rs, i, file, u)
    ensures Pieces(step, u.pos, |rs| - i) == PiecesOf(rs, bs, i)
    decreases |rs| - i
  {
    hide Working, Reads, Unread, Works, Sized;
    if i < |rs| {
      var u' := NextEmits(step, oldData, z, c, rs, bs, |rs|, i, file, u);
      PiecesUnread(step, oldData, z, c, rs, bs, i + 1, file, u');
    }
  }

  /** The records that work emit what they make one by one, the patched ones as plain pieces. */
  lemma WrittenPieces(oldData: seq<Byte>, z: Zlib, c: Coder, rs: seq<Rec>, bs: seq<seq<Byte>>)
    requires Working(oldData, z, c, rs, bs, |rs|) && |FileOf(rs)| < 0x8000_0000
    ensures FilePieces(oldData, FileOf(rs), z, c.unpack) == PiecesOf(rs, bs, 0)
  {
    var file := FileOf(rs);
    var u := FileUnread(rs, file);
    HeadsCount(rs, 0);
    FitsFour(|rs|);
    PiecesUnread(Reader(oldData, file, z, c.unpack), oldData, z, c, rs, bs, 0, file, u);
  }

  lemma FileUnread(rs: seq<Rec>, file: seq<Byte>) returns (u: Rest)
    requires file == FileOf(rs)
    ensures |file| >= 12 + HeadsSize(rs, 0) && file[..8] == IMGDIFF_MAGIC && file[8..12] == Write(|rs|, 4)
    ensures Unread(rs, 0, file, u) && u.pos == 12
  {
    var n := 12 + HeadsSize(rs, 0);
    u := Rest(Heads(rs, 0, n), 12, Bodies(rs, 0), n);
    HeaderCut(IMGDIFF_MAGIC, Write(|rs|, 4), u.heads, u.bodies, file);
  }

  lemma HeaderCut(magic: seq<Byte>, count: seq<Byte>, heads: seq<Byte>, bodies: seq<Byte>, file: seq<Byte>)
    requires |magic| == 8 && |count| == 4 && file == magic + count + heads + bodies
    ensures |file| >= 12 && file[..8] == magic && file[8..12] == count
    ensures At(file, 12, heads) && At(file, 12 + |heads|, bodies)
  {
  }

  lemma {:induction false} HeadsCount(rs: seq<Rec>, i: nat)
    requires i <= |rs|
    ensures HeadsSize(rs, i) >= |rs| - i
    decreases |rs| - i
  {
    if i < |rs| { HeadsCount(rs, i + 1); }
  }

  /** No stored patch, and no chunk stored as it is, is longer than the file. */
  lemma {:induction false} PartsWithin(rs: seq<Rec>, i: nat, j: nat)
    requires i <= j < |rs|
    ensures |Body(rs[j])| <= |Bodies(rs, i)| && HeadSize(rs[j]) <= HeadsSize(rs, i)
    decreases j - i
  {
    if i < j { PartsWithin(rs, i + 1, j); }
  }
}
