# Verified model of the recovery patch tools and shell cores

This project models the parts of the recovery image that are hardest to get right, and proves what they
are for:

- **Binary patches** (`applypatch/bsdiff.c`, `bspatch.c`). The suffix sort works in place on the arrays
  `I` and `V`; the scan writes control triples and two byte streams; the patching loop replays them. Main
  results: `SuffixSort.QSufSort`, `Search.FindLongest`, `BsDiff.BsDiff`, `BsDiff.FrontPatch`.
- **Image patches** (`imgdiff.c`, `imgpatch.c`). Images and zip files are cut into plain and deflate
  chunks, paired, merged and laid out as a patch file, which is then parsed and run. Main results:
  `ImageDiff.DiffImages`, `ImgDiff.RawExactly`, `ImageDiff.ImageExactness`, `ZipDiff.DiffZips`. `Formats` gives both
  file formats byte by byte.
- **Installing** (`applypatch.c`, `freecache.c`). Every change of a file is an effect, a run is a plan of
  effects, and power may be lost between any two of them. Main results: `ApplyPatch.NeverLost`,
  `ApplyPatch.RestartConverges`, `ApplyPatch.RunLeaves`, `FreeCache.MakeFreeSpaceOnCache`.
- **The shell** (`btsh/`). Flag-driven control flow refines structured control flow (`Eval`), whose laws
  are those of the shell language (`ShellLaws`); the arithmetic parser's tables are a precedence grammar
  (`ArithParse.AcceptsSentences`, `ArithEval.YyParse`) and its operators compute on 32-bit integers
  (`ArithLaws`); cached look-ups are fresh ones (`CmdCache.RunFresh`, `CmdTable`), pattern matching
  is language membership (`PatMatch.PMatch`, `PatLaws`), memory marks restore the stack and strings survive its moves
  (`Memalloc`), local variables are undone (`Variables`), and the two-pass copy of a parse tree is exact
  (`NodeCopy.Copier.CopyFunc`).

Loops and updates are methods on arrays, maps and class fields, proved against specification functions
whose properties are lemmas. Where a specification only says what the program does, laws about it say what comes
of that for every input.

## Reading order

`Bytes`, `SuffixOrder`, `KeyCount`, `SortInvariant`, `BucketSort`, `SuffixSort`, `Search`; `Offsets`,
`PatchStreams`, `BsPatch`, `DiffScan`, `BsDiff`; `Wire`, `ImageChunks`, `ImageCut`, `ImageMatch`, `ImagePatch`,
`Formats`, `ImgDiff`, `ImageDiff`, `ZipDiff`; `Storage`, `FreeCache`, `ApplyPatch`; `ShellTree`, `ShellLaws`, `Eval`;
`PatMatch`, `PatLaws`;
`Chains`, `PathSearch`, `CmdCache`, `CmdTable`; `ArithTables`, `ArithParse`, `ArithEval`, `ArithLaws`; `Memalloc`;
`LocalVars`, `Variables`; `NodeLayout`, `NodeCopy`.

## What is assumed

- Compression, deflation and hashing are functions. bzip2 is a pair of functions of which unpacking gives
  back what was packed, whatever follows it (`BsPatch.Faithful`); an inflated stream ends where it says
  (`ImageCut.SelfDelimiting`, RFC 1951); a hash is a function compared for equality.
- Memory and file offsets do not run out: files are shorter than 2^63 bytes, and `off_t` and `size_t` have 64 bits.
  Blocks of a patch are counted in 32 bits (`FillBuffer` takes an `int`, the loop that adds old bytes and the length
  given to `BZ2_bzWrite` are `int`s), which the model keeps: `BsDiff.BsDiff` says that this limits it to blocks
  shorter than 2^31 bytes. Images, zip files, what their chunks inflate to, and image patch files are shorter than
  2^31 bytes, since zlib, `ReadZip` and the records of a patch count them in 32 bits.
- `rename` is atomic, a file is truncated and then grows when it is written, and `unlink` succeeds.
- `statfs` and the listing of open files are parameters: the room left may be any function of the files.
- Arithmetic values are 32-bit integers that wrap around, shift counts count modulo 32, and a negative
  value shifted right stays negative.

## What the proofs found

- `search` returns a match that need not be the longest: `Search.SearchCanMissLongest` gives an input,
  `Search.FindExactly` the exact condition, and `Search.FindLongest` says what it returns instead. The round
  trip does not need the longest match.
- The bucket of byte 0 is never marked finished by the bucket pass (bsdiff.c:136 starts at 1). Before the first
  doubling pass the negative entries are therefore the one-member groups with one exception, when byte 0 occurs
  exactly once (`SuffixSort.LoneZeroUnmarked`, `SuffixSort.SortByFirstByte`); after every pass they are exactly
  the one-member groups (`SuffixSort.DoublingPass`).
- `FillBuffer` does not return when the compressed bytes of a stream are cut off (bspatch.c:87-96), since
  `BZ2_bzDecompress` then reports no error and makes no progress; a stream that is complete but too short ends in
  an error. The model, which sees streams unpacked, ends with `ShortStream` in both cases. Negative block lengths
  inside the control stream are not tested by the code; the model ends with `NegativeLength`, and with `TooLong` where
  a block to add has 2^31 bytes or more or a block to insert 2^32, whose bytes the code miscounts. Header and block offsets that lie outside the
  patch are read all the same; the model ends with `OutsidePatch`, and with `OutOfBounds` for records
  that point outside the source image.
- `ApplyImagePatch` ignores the result of a plain chunk's patch (imgpatch.c:80-81), and with it a write that the
  disk takes only in part. What follows is written behind the torn part, and the hash is that of the pieces taken
  whole, so a file that is not the target can be renamed to it and the copy be deleted: `ApplyPatch.TornRun` gives
  such runs, `ApplyPatch.SafeExactly` says exactly when a run is safe, and by `ApplyPatch.HonestWhen` it is for
  every patch whose whole output is the target, unless the hash of that output is also the hash of a part of it.
- An image whose last gzip member lacks up to four bytes of its footer is cut four bytes too long at most,
  and rebuilt with that many zero bytes behind it: `ImageCut.FooterFromPadding`, `ImageDiff.ImageExactness`.
  When the source image overhangs so, the target comes out only if the last record holds its chunk as it is, that
  is if the chunk has at most 160 bytes or its patch would not be shorter: `ImageDiff.DiffImages`,
  `ImgDiff.MakePatch`.
- `ReadImage` does not return if and only if a turn of its loop starts at the last three bytes 1f 8b 08, or at a
  header with room behind it whose stream does not inflate: `ImageCut.NeverReturnsWhen`. For an image without a
  complete header that is to end in 1f 8b 08 (`ImageCut.PlainImage`); behind a gzip member these three bytes may
  pass for a footer (`ImageCut.HeaderInFooter`).
- A zip entry in the source that inflates to less than its stated length makes `imgdiff` write a patch that
  `imgpatch` rejects: `ZipDiff.ZipRebuilds` gives the exact condition.
- The source file is deleted even where it is not the target whenever it is what is patched, because
  `enough_space` is shadowed (applypatch.c:645,648), against the comment in applypatch.c:513-514:
  `ApplyPatch.SourceGone` says when it is kept.
- A saved copy that matches the first patch is not used (applypatch.c:591), so a device that loses power
  between the removal of the source and the end of the run is stuck exactly in that case:
  `ApplyPatch.StrandedState`, `ApplyPatch.RestartConverges`.
- A `return` that comes out of the test of a loop loses its status (`ShellTree.ReturnInTest`).
- A pattern class whose last character is quoted is not recognised, because its bracket is behind a quote mark
  (expand.c:1399-1408): `PatMatch.QuotedClassLost`.
- `changepath` takes an entry such as `%func%builtin` for the place of the builtins (exec.c:715-716), the search does
  not: `PathSearch.NamedNotBuiltin`. With such a PATH, and no entry `%builtin` beside it, builtins are not found:
  `CmdCache.BuiltinLost` for `%func%builtin` alone, `CmdCache.RunFresh` for exactly when. With a PATH such as
  `/a%x%builtin:%builtin` all answers are right.
- A function defined while the entry of its name is marked for rehashing is not found, because the mark
  stays and the pointer in the entry is then taken for the number of a PATH entry: `CmdCache.DefinedFound`.
  A look-up that must skip functions, as `command` does, forgets the function when it finds a file:
  `CmdCache.FunctionForgotten`.
- `||` and `&&` give an operand and not 0 or 1, and both operands are computed, so that a division by zero
  in an operand that does not matter is an error (`ArithEval.Value`). What follows a complete expression,
  as in `1 2` or `1 )`, is ignored (`ArithParse.AcceptsSentences`).
- A local variable that did not exist before stays set when its function has made it readonly
  (`Variables.VarTable.PopLocalVars`). A variable that was exported without a value loses the export mark when it
  has been local (`Variables.ExportAfter`).
- The field `expfname` of a redirection is not copied with a function (nodes.c:268-276); it is the only one
  (`NodeLayout.CopyDetermines`).
- The remark in machdep.h that `grabstackstr` may end up in a new block does not apply: block sizes are
  multiples of the alignment (`Memalloc.Region.GrabStackStr`).

## Model

| member | source | states |
|---|---|---|
| SuffixSort.QSufSort | src/bootable/open_recovery/applypatch/bsdiff.c:121-157 | for every byte string, I ends as the suffix array: each suffix once, strictly increasing, the empty one first |
| SuffixOrder.SuffixArrayUnique | src/bootable/open_recovery/applypatch/bsdiff.c:121-157 | there is only one suffix array, so the sort has one right answer |
| SuffixOrder.SufLessIsLexLess | src/bootable/open_recovery/applypatch/bsdiff.c:121-157 | the order on suffixes used throughout is byte-wise lexicographic order, a proper prefix first |
| BucketSort.BucketStarts | src/bootable/open_recovery/applypatch/bsdiff.c:126-130 | a bucket starts at the number of smaller bytes in the file |
| SuffixSort.SortByFirstByte | src/bootable/open_recovery/applypatch/bsdiff.c:126-137 | after the bucket pass the h-order invariant holds for h = 1, I[0] is negative, and exactly the one-member groups are negative, but for the group at 1 when byte 0 occurs once |
| BucketSort.BucketedInv | src/bootable/open_recovery/applypatch/bsdiff.c:126-137 | the bucket order, with any one-member buckets marked finished, meets the h-order invariant |
| BucketSort.BucketsMarked | src/bootable/open_recovery/applypatch/bsdiff.c:136 | when the one-member buckets of all bytes but 0 are marked, the entries marked are exactly the one-member groups, but for the bucket of byte 0 |
| SuffixSort.LoneZeroUnmarked | src/bootable/open_recovery/applypatch/bsdiff.c:136 | a concrete file whose one-member bucket of byte 0 is not marked |
| SuffixSort.DoublingPass | src/bootable/open_recovery/applypatch/bsdiff.c:139-154 | one pass takes the invariant from h to 2h, keeps I[0] negative, leaves exactly the one-member groups negative, and ends the loop with I[0] = -(oldsize+1) if everything was finished before |
| SuffixSort.RecordRun | src/bootable/open_recovery/applypatch/bsdiff.c:153 | only the first entry of a finished run is written, and the invariant, which says what negative entries mean, is kept |
| SuffixSort.PassDone | src/bootable/open_recovery/applypatch/bsdiff.c:139-154 | when every group is refined, agreement on h symbols everywhere has become agreement on 2h, and exactly the one-member groups are negative |
| SuffixSort.Split | src/bootable/open_recovery/applypatch/bsdiff.c:60-119 | refines a group to 2h-agreement although it reads group numbers it is changing; nothing outside the stretch moves and no group behind it is renumbered |
| SuffixSort.SplitShort | src/bootable/open_recovery/applypatch/bsdiff.c:64-81 | the selection sort on fewer than 16 entries meets the same specification as the whole split |
| SuffixSort.SelectSmallest | src/bootable/open_recovery/applypatch/bsdiff.c:65-76 | one round brings exactly the entries with the least key to the front, by exchanges inside the stretch |
| SuffixSort.CountSides | src/bootable/open_recovery/applypatch/bsdiff.c:83-89 | the two limits are where the keys equal to and above the pivot will begin |
| SuffixSort.Partition | src/bootable/open_recovery/applypatch/bsdiff.c:83-111 | exchanges leave keys below, equal to and above the pivot in this order, and there are equal ones |
| SuffixSort.NumberGroup | src/bootable/open_recovery/applypatch/bsdiff.c:115 | exactly the suffixes of the stretch get its last position as group number |
| SuffixSort.CloseGroup | src/bootable/open_recovery/applypatch/bsdiff.c:77-79 | numbering a finished stretch keeps the invariant, marks a one-member group, and leaves the rest of the segment to be split |
| SuffixSort.SwapEntries | src/bootable/open_recovery/applypatch/bsdiff.c:73 | an exchange, recorded so that shuffles can be told from other changes |
| SortInvariant.KeyOrder | src/bootable/open_recovery/applypatch/bsdiff.c:60-119 | smaller keys mean smaller suffixes, equal keys mean agreement on 2h symbols |
| SortInvariant.ShuffleKeepsInv | src/bootable/open_recovery/applypatch/bsdiff.c:60-119 | exchanging live members of one unfinished group keeps the h-order invariant |
| SortInvariant.RegroupKeepsInv | src/bootable/open_recovery/applypatch/bsdiff.c:60-119 | cutting 2h-agreeing, smaller members off the front of a group keeps the invariant |
| KeyCount.CountSwap | src/bootable/open_recovery/applypatch/bsdiff.c:91-111 | an exchange changes no count of keys, so the limits counted before the sweeps stay right |
| KeyCount.ZonesComplete | src/bootable/open_recovery/applypatch/bsdiff.c:91-111 | when the zones for small and equal keys are full, all that is behind them is large |
| SuffixSort.ListByRank | src/bootable/open_recovery/applypatch/bsdiff.c:156 | inverting the ranks lists the suffixes |
| Search.MatchLen | src/bootable/open_recovery/applypatch/bsdiff.c:159-167 | the length of the longest common prefix |
| Search.Search | src/bootable/open_recovery/applypatch/bsdiff.c:169-193 | the recursion returns the match of its specification Find, with a position inside the old file and its exact length |
| Search.FindLongest | src/bootable/open_recovery/applypatch/bsdiff.c:169-193 | in any window: the match is the longest one, or at least as long as a suffix of the old file that is a proper prefix of the pattern |
| Search.SearchLongest | src/bootable/open_recovery/applypatch/bsdiff.c:169-193 | the match is the longest over all positions when no such suffix is shorter than the longest match |
| Search.FindExactly | src/bootable/open_recovery/applypatch/bsdiff.c:169-193 | in any window the match is the longest if and only if the suffix at the upper end of the last window is not a proper prefix of the pattern that something matches more than |
| Search.SearchCanMissLongest | src/bootable/open_recovery/applypatch/bsdiff.c:188 | a concrete old file and pattern for which it is not the longest |
| Offsets.OffsetRoundTrip | src/bootable/open_recovery/applypatch/bsdiff.c:195-211 | a signed number survives offtout and offtin exactly when its magnitude is below 2^63 |
| Formats.OffsetMeans | src/bootable/open_recovery/applypatch/bspatch.c:66-82 | an offset is a magnitude of 63 bits, lowest byte first, with its sign in the top bit, byte by byte |
| BsDiff.BsDiff | src/bootable/open_recovery/applypatch/bsdiff.c:224-410 | the patch file holds the one script that the scan emits; wherever it lies in a larger file, applying it to the old data gives exactly the new data and uses up all three streams, if and only if neither block reaches 2^31 bytes, as none does when the new file is shorter; the suffix array is computed once and reused |
| BsDiff.PatchOnce | src/bootable/open_recovery/applypatch/bsdiff.c:224-410 | two files leave one patch that bsdiff can make of them |
| BsDiff.FrontPatch | src/bootable/open_recovery/applypatch/bsdiff.c:224-410 | the patch to the old file itself, or to a front part of it, is 32 bytes and three packed streams: one record, as many zeros as the file has bytes, and nothing |
| DiffScan.FrontKept | src/bootable/open_recovery/applypatch/bsdiff.c:281-362 | a new file that is the old one or a front part of it is made by one step: every byte is taken from the old file, with difference 0, and none is inserted |
| DiffScan.NonePassedOver | src/bootable/open_recovery/applypatch/bsdiff.c:281-301 | at every place of the new file the scan was once: it went past only where the match found there beats what agrees at the offset it had by at most 8 bytes, and made no step only at a match that beats it by nothing |
| DiffScan.GapTight | src/bootable/open_recovery/applypatch/bsdiff.c:304-338 | where bytes are inserted, the first of them is not the one the last match would go on with, and the last not the one before the new match |
| DiffScan.EmitsOnce | src/bootable/open_recovery/applypatch/bsdiff.c:281-362 | stopping at the first worthwhile match and choosing the best lengths leaves one script |
| Formats.PatchLayout | src/bootable/open_recovery/applypatch/bsdiff.c:258-274 | BSDIFF40, the lengths of the first two packed blocks and of the new file, and the three packed blocks |
| Formats.RecordLayout | src/bootable/open_recovery/applypatch/bsdiff.c:341-356 | a control record holds the bytes to add, the bytes to insert, and the move |
| BsDiff.ScanNew | src/bootable/open_recovery/applypatch/bsdiff.c:281-362 | the loop ends; its streams are those of the script that stopping at each first worthwhile match and choosing the best lengths there emits; it writes the new file; diff and extra bytes together are as many as new bytes; every number fits its field when both blocks are shorter than 2^31 bytes |
| BsDiff.StoredRebuilds | src/bootable/open_recovery/applypatch/bsdiff.c:372-395 | a patch whose blocks are written as far as an int counts their bytes is good exactly when it counts all of them |
| BsDiff.EmitNext | src/bootable/open_recovery/applypatch/bsdiff.c:303-361 | one emitted step has the best lengths and the differences and bytes that go with them, keeps the buffers in line with the script so far, and at the end of the file covers all of it |
| BsDiff.ChooseLengths | src/bootable/open_recovery/applypatch/bsdiff.c:304-333 | how much is kept of the last match and how far back the new one reaches: the shortest lengths with the best balance of agreeing bytes, divided at the first best point where they overlap |
| BsDiff.ScanForward | src/bootable/open_recovery/applypatch/bsdiff.c:286-301 | stops at the first place whose match is worth a step, or at the end, with the match found there; oldscore is the number of agreeing bytes at the old offset from there to where the matches seen reach |
| BsDiff.ExtendForward | src/bootable/open_recovery/applypatch/bsdiff.c:304-309 | the shortest length with the best balance of agreeing bytes, over all allowed lengths |
| BsDiff.ExtendBackward | src/bootable/open_recovery/applypatch/bsdiff.c:311-318 | the same for the extension backwards |
| BsDiff.DivideOverlap | src/bootable/open_recovery/applypatch/bsdiff.c:320-333 | the first point that divides the overlap best, over all points |
| BsDiff.WriteDiff | src/bootable/open_recovery/applypatch/bsdiff.c:335-336 | the differences of new and old bytes; adding the old bytes gives the new bytes back; earlier bytes stay |
| BsDiff.WriteExtra | src/bootable/open_recovery/applypatch/bsdiff.c:337-338 | the bytes no match covers, behind those written before |
| PatchStreams.ReplayWrites | src/bootable/open_recovery/applypatch/bspatch.c:193-246 | replaying the streams of any script writes its output and leaves nothing of the three streams |
| PatchStreams.ReplayUses | src/bootable/open_recovery/applypatch/bspatch.c:193-246 | whatever the patch, every byte of the new file was read from one of its two data streams: as many bytes as were made are missing from them |
| BsPatch.PatchLoop | src/bootable/open_recovery/applypatch/bspatch.c:193-246 | the in-place loop gives the result of the specification Replay, errors included |
| BsPatch.PatchTurn | src/bootable/open_recovery/applypatch/bspatch.c:198-246 | one turn: the same failure, or the same rest of the run; a block that an int or an unsigned int cannot count is told from the others |
| BsPatch.FillBuffer | src/bootable/open_recovery/applypatch/bspatch.c:84-98 | succeeds exactly when the stream has enough bytes left for what 32 bits leave of the number asked for, and then has copied them |
| BsPatch.AddOldBytes | src/bootable/open_recovery/applypatch/bspatch.c:220-225 | adds old bytes modulo 256 where there are any, and touches nothing before |
| BsPatch.ApplyBSDiffPatchMem | src/bootable/open_recovery/applypatch/bspatch.c:123-252 | magic number, header fields and block offsets as in the file format, then the loop |
| Formats.HeaderChecked | src/bootable/open_recovery/applypatch/bspatch.c:137-153 | only a patch that begins with BSDIFF40 and states no negative length is applied, and what comes out is as long as its header says |
| Formats.AddedAt | src/bootable/open_recovery/applypatch/bspatch.c:220-225 | each added byte is the sum of a difference and an old byte modulo 256; outside the old file the difference stays as it is |
| BsPatch.StoredRoundTrip | src/bootable/open_recovery/applypatch/bspatch.c:126-252 | a stored script, behind and before any other bytes, is applied to exactly its output |
| Wire.WriteReadBack | src/bootable/open_recovery/applypatch/utils.c:22-65 | n bytes, lowest first, carry a number exactly when it is in their signed range |
| Wire.ReadAllWritten | src/bootable/open_recovery/applypatch/utils.c:22-65 | the numbers of a record are read back from where they were written |
| Formats.NumberMeans | src/bootable/open_recovery/applypatch/utils.c:22-65 | a number of an image patch is two's complement, lowest byte first, byte by byte |
| ImageChunks.TilesCover | src/bootable/open_recovery/applypatch/imgdiff.c:368-511 | chunks that tile a stretch stand for exactly its bytes |
| ImageChunks.MergeAdjacentNormalChunks | src/bootable/open_recovery/applypatch/imgdiff.c:704-752 | compacting in place leaves the specified merged list |
| ImageChunks.MergedTiles | src/bootable/open_recovery/applypatch/imgdiff.c:699-752 | merging loses no byte and moves none |
| ImageChunks.MergedNoneJoin | src/bootable/open_recovery/applypatch/imgdiff.c:699-752 | no two neighbours are left that form a solid block |
| ImageChunks.MergedTwice | src/bootable/open_recovery/applypatch/imgdiff.c:699-752 | merging is idempotent |
| ImageChunks.MergedDeflates | src/bootable/open_recovery/applypatch/imgdiff.c:699-752 | deflate chunks come through unchanged and in order |
| ImageChunks.MergedKinds | src/bootable/open_recovery/applypatch/imgdiff.c:704-752 | on lists that tile a stretch, merging is the collapsing of runs of normal types, so it depends on the types alone |
| ImageChunks.MergedParallel | src/bootable/open_recovery/applypatch/imgdiff.c:895-907 | two tilings with the same types are still of equal length and types after both are merged |
| ImageCut.ReadImage | src/bootable/open_recovery/applypatch/imgdiff.c:368-511 | the loop cuts as its specification does, with every way it can fail |
| ImageCut.MemberGood | src/bootable/open_recovery/applypatch/imgdiff.c:398-483 | the chunks of a gzip member, with the deflate stream up to its own end, go on where those before it end, are sound and hold the whole inflated stream |
| ImageCut.ScanToMember | src/bootable/open_recovery/applypatch/imgdiff.c:485-507 | plain bytes up to the first gzip header, found with the padding in sight |
| ImageCut.CutGood | src/bootable/open_recovery/applypatch/imgdiff.c:368-511 | the chunks are sound, tile the image and hold the whole inflated streams; only a footer at the very end may overhang |
| ImageCut.CutFramed | src/bootable/open_recovery/applypatch/imgdiff.c:398-483 | every deflate chunk is cut out between ten header bytes that begin with 1f 8b 08 00 and eight footer bytes that end in the length of its inflated data |
| ImageCut.MemberAlone | src/bootable/open_recovery/applypatch/imgdiff.c:398-483 | a gzip member by itself is cut into header, stream and footer if its footer states the length it inflates to, and refused if not |
| ImageCut.FooterFromPadding | src/bootable/open_recovery/applypatch/imgdiff.c:385-388 | a concrete image that is cut into chunks four bytes longer than it is |
| ImageCut.NeverReturnsWhen | src/bootable/open_recovery/applypatch/imgdiff.c:368-511 | ReadImage does not return for an image if and only if a turn of its loop starts at the last three bytes 1f 8b 08, or at a gzip header with room behind it whose stream does not inflate |
| ImageCut.PlainImage | src/bootable/open_recovery/applypatch/imgdiff.c:388-507 | an image without a complete gzip header is not returned from if and only if it ends in 1f 8b 08; otherwise it is one plain chunk |
| ImageCut.HeaderInFooter | src/bootable/open_recovery/applypatch/imgdiff.c:398-483 | a concrete image that ends in 1f 8b 08 and is cut all the same, because the footer swallows these bytes |
| ImageCut.ReadZip | src/bootable/open_recovery/applypatch/imgdiff.c:278-357 | the chunk loop over the sorted entries, as specified |
| ImageCut.ZipTiles | src/bootable/open_recovery/applypatch/imgdiff.c:293-353 | the chunks of a zip file, behind the pseudo chunk, tile it, and every deflate chunk inflates to the front of its buffer |
| ImageCut.ZipNames | src/bootable/open_recovery/applypatch/imgdiff.c:293-353 | entries with distinct names give chunks with distinct names |
| ImageCut.ZipEntriesCut | src/bootable/open_recovery/applypatch/imgdiff.c:293-353 | a zip file whose entries lie one behind the other is cut if and only if all of them inflate; its deflate chunks are the entries, in order, with their places, lengths and names |
| ImageMatch.TryReconstruction | src/bootable/open_recovery/applypatch/imgdiff.c:521-558 | comparing block by block succeeds exactly when the whole encoding is the chunk |
| ImageMatch.ReconstructDeflateChunk | src/bootable/open_recovery/applypatch/imgdiff.c:566-591 | succeeds exactly when level 6 or 9 reproduces the chunk, and leaves in it the settings it ended with |
| ImageMatch.ChangeDeflateChunkToNormal | src/bootable/open_recovery/applypatch/imgdiff.c:670-676 | the chunk stands for its compressed bytes, and only if it was a deflate chunk |
| ImageMatch.FindChunkByName | src/bootable/open_recovery/applypatch/imgdiff.c:754-764 | the first deflate chunk of that name |
| ImageMatch.DecideNext | src/bootable/open_recovery/applypatch/imgdiff.c:847-887 | one decision, with what it does to the partner, keeps the account of what was decided |
| ImageMatch.OtherPartner | src/bootable/open_recovery/applypatch/imgdiff.c:847-887 | changing the partner of one target chunk does not change another chunk's partner |
| ImageMatch.DecideChunks | src/bootable/open_recovery/applypatch/imgdiff.c:847-889 | after the loop each target chunk is deflated exactly when it can be reproduced, has a partner and differs from it, and its partner follows |
| ImagePatch.TotalHeaderSize | src/bootable/open_recovery/applypatch/imgdiff.c:936-950 | the computed size is the length of all records with what follows them at once |
| ImagePatch.WriteHeads | src/bootable/open_recovery/applypatch/imgdiff.c:956-996 | each record carries the offset at which its patch will be |
| ImagePatch.WriteImagePatch | src/bootable/open_recovery/applypatch/imgdiff.c:936-1004 | the file: magic number, count, records, patches in order |
| Formats.ImageHeader | src/bootable/open_recovery/applypatch/imgdiff.c:957-961 | IMGDIFF2 and the number of records; the applier rejects a file with another magic number |
| Formats.RecordFields | src/bootable/open_recovery/applypatch/imgdiff.c:961-997 | every number of a record at its place: the type 0, 2 or 3, where the source lies, where the patch lies, the two lengths of inflated data, and the five encoder settings |
| ImagePatch.ApplyImagePatch | src/bootable/open_recovery/applypatch/imgpatch.c:38-219 | the loop does what its specification says for every file, malformed ones included |
| ImagePatch.PatchedRecordEmits | src/bootable/open_recovery/applypatch/imgpatch.c:76-81 | a stored patch with its record is found where they were written, and emits what the patch makes of the stretch of the source |
| ImagePatch.RecodedRecordEmits | src/bootable/open_recovery/applypatch/imgpatch.c:112-208 | a deflate record, found where it was written, with its patch: exact inflation, patch, and deflation with the stored settings |
| ImagePatch.DeflateInBlocks | src/bootable/open_recovery/applypatch/imgpatch.c:182-205 | the blocks passed on, of whatever size, are together the whole encoding |
| ImagePatch.RecordEmits | src/bootable/open_recovery/applypatch/imgpatch.c:59-216 | a record that works is parsed where it was written, with its patch at the stored offset, and emits its chunk |
| ImagePatch.ApplyWritten | src/bootable/open_recovery/applypatch/imgpatch.c:38-219 | a written file whose records work emits all of them in order; behind those that work, it is rejected at one whose source stretch inflates short, and leaves the source at one whose stretch does not end in it |
| ImagePatch.ShortRejected | src/bootable/open_recovery/applypatch/imgpatch.c:142-160 | a record whose source inflates to less than it states is rejected |
| ImagePatch.OutsideStray | src/bootable/open_recovery/applypatch/imgpatch.c:76-81 | a record whose source stretch does not end in the source reads outside it |
| ImagePatch.FilePiecesJoin | src/bootable/open_recovery/applypatch/imgpatch.c:38-219 | the pieces handed to the sink, record by record, are what the file emits |
| ImagePatch.WrittenPieces | src/bootable/open_recovery/applypatch/imgpatch.c:38-219 | the records of a written file hand over what they make one by one, the patched ones as those whose failed writes go unnoticed |
| ImgDiff.MakePatch | src/bootable/open_recovery/applypatch/imgdiff.c:599-661 | a record right for the chunk: a plain chunk is stored as it is when it has at most 160 bytes, or no more than the patch that bsdiff makes, and otherwise is that patch |
| ImgDiff.RawExactly | src/bootable/open_recovery/applypatch/imgdiff.c:599-634 | a plain chunk is stored as it is if and only if it has at most 160 bytes or no more than the patch bsdiff makes of it, and otherwise its record is that patch |
| ImgDiff.UnchangedPatched | src/bootable/open_recovery/applypatch/imgdiff.c:599-661 | a plain chunk of more than 160 bytes that is its source, or a front part of it, and longer than 32 bytes with its three packed streams, gets a patch record |
| ImgDiff.MakePatches | src/bootable/open_recovery/applypatch/imgdiff.c:909-931 | every target chunk gets a right record, from the source chunk it is paired with |
| ImgDiff.PlanRebuilds | src/bootable/open_recovery/applypatch/imgpatch.c:38-219 | applying the file rebuilds the target stretch if every record holds its chunk as it is or has a usable source; it is rejected at the first source that is undersized, and fails at the first that lies beyond the source file |
| ImgDiff.WritePlan | src/bootable/open_recovery/applypatch/imgdiff.c:909-1004 | patches and layout for settled lists give such a file |
| ImageDiff.StayParallel | src/bootable/open_recovery/applypatch/imgdiff.c:847-907 | in image mode the two lists stay pairwise of equal type through deciding and merging, so the branch for lists that went awry is never taken |
| ImageDiff.ImagePaired | src/bootable/open_recovery/applypatch/imgdiff.c:847-907 | after all decisions every target chunk has an exact source chunk of its type |
| ImageDiff.SameStructure | src/bootable/open_recovery/applypatch/imgdiff.c:826-845 | the test for equal structure |
| ImageDiff.DiffImages | src/bootable/open_recovery/applypatch/imgdiff.c:774-1009 | written exactly when both images can be cut and match in structure; the file holds the records of the lists after all decisions and merging; applying it emits the target, with as many zero bytes as its last chunk overhangs, if and only if the source does not overhang, which can be seen before, or the last record holds its chunk as it is, which turns on the length of its patch; otherwise the applier reads beyond the source |
| ImageDiff.UnchangedImage | src/bootable/open_recovery/applypatch/imgdiff.c:774-1009 | an image without gzip members whose target is itself is written as one patch record, when its three streams are packed well |
| ImageDiff.RecodedWhen | src/bootable/open_recovery/applypatch/imgdiff.c:847-884 | a deflated chunk of an image that level 6 or 9 of the encoder gives back, and that differs from its source chunk, is patched in inflated form |
| ImageDiff.RecodedOnly | src/bootable/open_recovery/applypatch/imgdiff.c:847-884 | no other chunk is |
| ImageDiff.ImageSources | src/bootable/open_recovery/applypatch/imgdiff.c:636-648 | the records of an image are made from the source chunks with their numbers |
| ImageDiff.ImageRebuilds | src/bootable/open_recovery/applypatch/imgpatch.c:38-219 | the same for settled chunk lists |
| ImageDiff.LastStays | src/bootable/open_recovery/applypatch/imgdiff.c:847-907 | deciding and merging leave all source chunks but the last inside the source file |
| ImageDiff.ImageExactness | src/bootable/open_recovery/applypatch/imgdiff.c:385-388 | the target is rebuilt exactly if and only if its chunks end where it ends; otherwise up to four zero bytes follow |
| ZipDiff.PartnerStays | src/bootable/open_recovery/applypatch/imgdiff.c:847-889 | a target entry left deflated still finds its source entry, unchanged, after all decisions |
| ZipDiff.ZipPaired | src/bootable/open_recovery/applypatch/imgdiff.c:847-889 | in zip mode every merged target chunk has its source |
| ZipDiff.SourceUsable | src/bootable/open_recovery/applypatch/imgpatch.c:142-160 | the source of a deflated chunk is usable exactly when the entry inflates to the length it states |
| ZipDiff.ZipSources | src/bootable/open_recovery/applypatch/imgdiff.c:909-931 | in zip mode plain bytes are patched from the whole source file, and inflated data from a source entry of the same name |
| ZipDiff.ZipRebuilds | src/bootable/open_recovery/applypatch/imgpatch.c:38-219 | the target is rebuilt if every source entry used inflates to the length it states, and otherwise the patch is rejected |
| ZipDiff.DiffZips | src/bootable/open_recovery/applypatch/imgdiff.c:774-1009 | the same for the whole of zip mode, for targets with distinct entry names; the file holds the records of the lists after all decisions |
| ApplyPatch.BsDiffInstalls | src/bootable/open_recovery/applypatch/applypatch.c:731-735 | a patch made by bsdiff is recognised and gives the new contents |
| ApplyPatch.ImgDiffInstalls | src/bootable/open_recovery/applypatch/applypatch.c:736-740 | so is one made by imgdiff |
| ApplyPatch.FindMatchingPatch | src/bootable/open_recovery/applypatch/applypatch.c:387-398 | the first patch whose hash parses and matches |
| ApplyPatch.SaveFileContents | src/bootable/open_recovery/applypatch/applypatch.c:264-293 | the effects that took place are a front part of truncating and writing the file; all of them on success |
| ApplyPatch.MoveAside | src/bootable/open_recovery/applypatch/applypatch.c:658-685 | save the copy, then remove the source; the source is removed only behind a complete copy |
| ApplyPatch.SinkPieces | src/bootable/open_recovery/applypatch/imgpatch.c:59-216 | a piece that the disk takes in part ends the patch, but a plain one is passed over: the next is written behind it, and nothing of it is hashed |
| ApplyPatch.MakeTarget | src/bootable/open_recovery/applypatch/applypatch.c:687-811 | write the temporary file piece by piece, check the hash of what was taken whole, rename, drop the copy: on a disk that may fail, what took place is a front part of the plan for the cuts it made |
| ApplyPatch.PatchSource | src/bootable/open_recovery/applypatch/applypatch.c:643-811 | patching from the source always goes by the copy, since the test for enough space is made on a shadowed variable; room for it is made first, as MadeRoom says |
| ApplyPatch.ApplyPatch | src/bootable/open_recovery/applypatch/applypatch.c:525-815 | for the cuts the disk made, the program's effects, in order, are a front part of the plan Run, and all of it with its exit code unless the disk failed; when the source is patched, exactly what is needed for its size is given up on /cache before, and without enough room nothing else is done |
| ApplyPatch.RunLeaves | src/bootable/open_recovery/applypatch/applypatch.c:525-815 | what a run with a good patch leaves, file by file: the target with the output of the patch; the source, the saved copy, the temporary file and what was given up are gone; everything else is as it was. A run from the saved copy leaves the copy and what is at the source |
| ApplyPatch.RunSafe | src/bootable/open_recovery/applypatch/applypatch.c:658-811 | from a safe state every intermediate state of a run is safe, if the cuts do not make another file pass for the target: the old contents are at the source, or in the copy with the source gone, or the target is there |
| ApplyPatch.SafeExactly | src/bootable/open_recovery/applypatch/applypatch.c:658-811 | a run on the source is safe throughout if and only if its cuts do not make another file pass for the target, or the old contents are put back by chance |
| ApplyPatch.HonestWhen | src/bootable/open_recovery/applypatch/imgpatch.c:80-81 | no file passes for the target when nothing is cut, nor when the patch is good and the hash tells its output from any with plain pieces left out |
| ApplyPatch.TornRun | src/bootable/open_recovery/applypatch/imgpatch.c:80-81 | for every such patch, hash and file, on a device that has the source and room on /cache: a run that starts from a safe state and comes to one in which the old contents are lost and the target is not there, when of a piece patched as a plain chunk only the first byte is taken |
| ApplyPatch.SaveAsideSafe | src/bootable/open_recovery/applypatch/applypatch.c:664-682 | the steps of moving the source aside are safe at every point |
| ApplyPatch.ProduceSafe | src/bootable/open_recovery/applypatch/applypatch.c:687-811 | the steps of making the target from the copy are safe at every point, and success means the target hash, if the cuts do not make another file pass for it |
| ApplyPatch.NeverLost | src/bootable/open_recovery/applypatch/applypatch.c:525-815 | after any number of runs, each cut off at any effect and on a disk that makes any such cuts, the state is safe |
| ApplyPatch.RunAgain | src/bootable/open_recovery/applypatch/applypatch.c:549-556 | with the target in place a run does nothing and succeeds |
| ApplyPatch.SafeSucceeds | src/bootable/open_recovery/applypatch/applypatch.c:567-600 | a run from a safe state succeeds if and only if the target or the source is there, or the copy matches a patch that is not the first |
| ApplyPatch.StrandedState | src/bootable/open_recovery/applypatch/applypatch.c:664-684 | the reachable state right after the source was removed |
| ApplyPatch.RestartConverges | src/bootable/open_recovery/applypatch/applypatch.c:591 | restarting succeeds after every history of losses if and only if the old contents do not match the first patch |
| ApplyPatch.SourceGone | src/bootable/open_recovery/applypatch/applypatch.c:513-514 | a successful run keeps a source that is not the target if and only if the target was there already or was made from the saved copy, against the comment |
| ApplyPatch.DeletedHarmless | src/bootable/open_recovery/applypatch/freecache.c:94-97 | what was deleted to make room is under /cache and is not the saved copy |
| FreeCache.NameList.Add | src/bootable/open_recovery/applypatch/freecache.c:101-105 | appending, with the array doubled when full |
| FreeCache.AddDirectory | src/bootable/open_recovery/applypatch/freecache.c:85-109 | the regular files of a directory, but for the saved copy |
| FreeCache.EliminateOpenFiles | src/bootable/open_recovery/applypatch/freecache.c:14-72 | exactly the names that are open are struck out, in place |
| FreeCache.FindExpendableFiles | src/bootable/open_recovery/applypatch/freecache.c:74-121 | the deletable files of both directories in order, with the open ones struck out |
| FreeCache.ExpendableSafe | src/bootable/open_recovery/applypatch/freecache.c:74-121 | what may be given up is never the saved copy, never open, and under /cache |
| FreeCache.ExpendableExactly | src/bootable/open_recovery/applypatch/freecache.c:74-121 | what may be given up is exactly the regular files of /cache and /cache/recovery/otatest but for the saved copy and those that are open |
| FreeCache.MakeFreeSpaceOnCache | src/bootable/open_recovery/applypatch/freecache.c:128-172 | deletes a front part of the expendable files, each only while space is short; fails only after all of them |
| FreeCache.RoomOnce | src/bootable/open_recovery/applypatch/freecache.c:128-172 | that leaves one possibility for what is deleted |
| FreeCache.RoomExactly | src/bootable/open_recovery/applypatch/freecache.c:128-172 | there is room in the end if and only if some front part of what can be given up makes enough |
| Eval.Shell.EvalTree | src/bootable/open_recovery/btsh/eval.c:219-310 | for every tree the flags evalskip, skipcount and loopnest give the effects and the status of a semantics with structured outcomes |
| Eval.Shell.EvalLoop | src/bootable/open_recovery/btsh/eval.c:312-344 | the loop with its jump into the skipping code refines the structured while and until loop |
| Eval.Shell.EvalFor | src/bootable/open_recovery/btsh/eval.c:348-386 | the same for the for loop over the words given |
| Eval.Shell.Skipping | src/bootable/open_recovery/btsh/eval.c:322-329 | counting down decides whether the loop goes on, as the structured outcome does |
| Eval.Shell.EvalSubshell | src/bootable/open_recovery/btsh/eval.c:423-443 | nothing but the status comes out of a subshell |
| Eval.Shell.EvalCommand | src/bootable/open_recovery/btsh/eval.c:921-972 | a function call ends a pending return and restores the nesting; other skips cannot leave through it unseen |
| Eval.Shell.Breakcmd | src/bootable/open_recovery/btsh/eval.c:1145-1157 | break and continue reach no further than there are loops, and do nothing for zero or fewer |
| Eval.Shell.Returncmd | src/bootable/open_recovery/btsh/eval.c:1164-1180 | return, with its default status, inside and outside functions |
| ShellTree.NoneAtTopLevel | src/bootable/open_recovery/btsh/eval.c:1145-1157 | no break or continue survives at loop nesting 0 |
| ShellTree.MoreFuel | src/bootable/open_recovery/btsh/eval.c:219-415 | a result is independent of the fuel that was enough for it |
| ShellTree.ReturnInTest | src/bootable/open_recovery/btsh/eval.c:319-343 | a return out of the test of a loop, in whatever turn, leaves the loop with the status of the last body before it |
| ShellLaws.RunsNext | src/bootable/open_recovery/btsh/eval.c:231-292 | what lists, && and ||, negations and ifs run after a command that ends normally, by whether it succeeded |
| ShellLaws.RunsNothing | src/bootable/open_recovery/btsh/eval.c:231-266 | and that they run nothing after one that is to leave a loop or a function |
| ShellLaws.DeMorgan | src/bootable/open_recovery/btsh/eval.c:237-292 | De Morgan's law for commands, if the second does not look at the status of the first |
| ShellLaws.SemiAssociates | src/bootable/open_recovery/btsh/eval.c:231-236 | lists associate, whatever their commands skip |
| ShellLaws.CaseRuns | src/bootable/open_recovery/btsh/eval.c:390-421 | a case runs the first arm of which a pattern matches |
| ShellLaws.CaseRunsNothing | src/bootable/open_recovery/btsh/eval.c:390-421 | without one it runs nothing and succeeds |
| ShellLaws.CallReturns | src/bootable/open_recovery/btsh/eval.c:921-972 | a return in a function gives its status, or that of the last command, to the caller, who goes on; the rest of the body is not run |
| ShellLaws.DefinedCalled | src/bootable/open_recovery/btsh/eval.c:285-288 | a function that was just defined is what its name calls |
| ShellLaws.SubshellKeeps | src/bootable/open_recovery/btsh/eval.c:423-443 | functions defined and loops left in a subshell stay there |
| ShellLaws.TestEnds | src/bootable/open_recovery/btsh/eval.c:312-344 | a while loop ends when its test fails, an until loop when it succeeds, with the status of the last body; otherwise the body is run, which a break or return ends together with the loop |
| ShellLaws.TurnGoesOn | src/bootable/open_recovery/btsh/eval.c:312-344 | after a turn that ends normally the loop goes on with the state the turn left |
| ShellLaws.ForOne | src/bootable/open_recovery/btsh/eval.c:348-386 | a for loop over one word is its body with the variable set; over none it only succeeds |
| ShellLaws.ContinueEndsTurn | src/bootable/open_recovery/btsh/eval.c:312-386 | continue at the end of the body of any loop is as good as an empty command there |
| ShellLaws.SkipsRest | src/bootable/open_recovery/btsh/eval.c:1145-1180 | what follows a break, continue or return is not run |
| ShellLaws.SkipsNothing | src/bootable/open_recovery/btsh/eval.c:1145-1157 | outside loops, and for zero or less, break and continue only succeed |
| ShellLaws.BreakLeaves | src/bootable/open_recovery/btsh/eval.c:312-344 | break n inside m endless loops ends all m if it concerns as many, and goes on to the loops around them for what is left |
| ShellLaws.ContinueLeaves | src/bootable/open_recovery/btsh/eval.c:312-344 | so does continue n inside fewer than n endless loops |
| ShellLaws.ContinueStays | src/bootable/open_recovery/btsh/eval.c:312-344 | inside n endless loops or more, continue n goes on with one of them, so that they never end |
| ShellLaws.ForLoops | src/bootable/open_recovery/btsh/eval.c:348-386 | a for loop that is continued from inside m more loops comes to every word; one that is broken out of comes to the first only |
| PatMatch.PMatch | src/bootable/open_recovery/btsh/expand.c:1342-1457 | ends, and says 1 exactly when the string is in the language of the pattern |
| PatMatch.MatchStar | src/bootable/open_recovery/btsh/expand.c:1367-1392 | the star, with its skipping ahead, loses no match |
| PatMatch.FindClose | src/bootable/open_recovery/btsh/expand.c:1393-1411 | where a class ends, or that it is no class; a bracket behind a quote mark is an element |
| PatMatch.InClass | src/bootable/open_recovery/btsh/expand.c:1416-1441 | the class loop finds the character exactly when it is in one of the ranges listed up to the first bracket behind an item |
| PatMatch.TryRange | src/bootable/open_recovery/btsh/expand.c:1421-1440 | one turn of it: a range, or a single character |
| PatMatch.QuotedClassLost | src/bootable/open_recovery/btsh/expand.c:1399-1408 | a class in which the last character is quoted is not found to be one, and its bracket stands for itself |
| PatMatch.StarStar | src/bootable/open_recovery/btsh/expand.c:1368-1370 | several stars are as good as one |
| PatMatch.SkipToLiteral | src/bootable/open_recovery/btsh/expand.c:1371-1383 | skipping to the next occurrence of a literal changes nothing |
| PatLaws.SignsMatch | src/bootable/open_recovery/btsh/expand.c:1342-1392 | what each sign of a written pattern matches: plain and escaped characters, question mark, star, quote mark, and the end |
| PatLaws.ClassMatches | src/bootable/open_recovery/btsh/expand.c:1393-1441 | a class matches one character that its list holds; with ! behind the bracket and the same list, one that it does not hold |
| PatLaws.WrittenClass | src/bootable/open_recovery/btsh/expand.c:1393-1441 | a class written of characters and ranges matches exactly the characters that are one of them or lie between two, and with ! exactly the others |
| PathSearch.Padvance | src/bootable/open_recovery/btsh/exec.c:291-323 | the next candidate name, letter by letter: the directory, one slash and the name, or only the name for an empty directory; its option, and the rest of PATH |
| PathSearch.SearchHits | src/bootable/open_recovery/btsh/exec.c:509-584 | the search finds entry idx exactly when it is the first that ends it |
| PathSearch.FreshExactly | src/bootable/open_recovery/btsh/exec.c:426-584 | what a name means: a builtin if PATH has no %builtin entry; otherwise what the first entry says that is %builtin for a builtin or a directory with such a file; nothing if there is none |
| PathSearch.ComparePaths | src/bootable/open_recovery/btsh/exec.c:693-721 | the first changed entry bounds the common front part, is really different, and is 9999 when nothing changed; the first entry of the new PATH with builtin behind any of its percent signs is found in the same loop |
| PathSearch.NamedExactly | src/bootable/open_recovery/btsh/exec.c:715-716 | the entry found so is the first %builtin entry that the search sees if and only if it is a %builtin entry, or there is none |
| PathSearch.NamedNotBuiltin | src/bootable/open_recovery/btsh/exec.c:715-716 | entries that are taken for %builtin and are none |
| CmdCache.WalkFinds | src/bootable/open_recovery/btsh/exec.c:509-530 | skipping absolute names up to the remembered entry gives the same answer as a fresh search |
| CmdCache.ResolveFresh | src/bootable/open_recovery/btsh/exec.c:426-608 | an entry that may be trusted gives the answer of a fresh search if and only if builtinloc says rightly whether PATH has a %builtin entry, or the name is no builtin, or its answer is in its entry; what is kept may be trusted again |
| CmdCache.RunFresh | src/bootable/open_recovery/btsh/exec.c:426-940 | after any sequence of look-ups, directory changes, PATH changes to any values, and function definitions on a fixed set of files, from no entry or from that of a special builtin, the hashed answer is the fresh one if and only if what changepath took for %builtin in the last PATH rightly says whether there is such an entry, or that does not matter for the name |
| CmdCache.LastPathCounts | src/bootable/open_recovery/btsh/exec.c:693-729 | only the last value of PATH counts for that, whatever the values before it were |
| CmdCache.BuiltinLost | src/bootable/open_recovery/btsh/exec.c:715-716 | with PATH=%func%builtin the hashed search finds no builtin, where a fresh one finds every builtin |
| CmdCache.FunctionForgotten | src/bootable/open_recovery/btsh/exec.c:568-579 | a look-up that must not see functions forgets a function if and only if its answer is a file, which is the fresh answer when builtinloc is right |
| CmdCache.DefinedFound | src/bootable/open_recovery/btsh/exec.c:889-922 | a newly defined function is found if and only if the entry it took was not marked for rehashing |
| CmdCache.CdTrusted | src/bootable/open_recovery/btsh/exec.c:669-682 | the marks set by cd are enough |
| CmdCache.ChangeTrusted | src/bootable/open_recovery/btsh/exec.c:719-734 | what clearing keeps is right for the new PATH, whatever entry is taken for %builtin in it |
| CmdTable.HashValue | src/bootable/open_recovery/btsh/exec.c:825-829 | the hash of a name, of signed characters |
| CmdTable.SearchPath | src/bootable/open_recovery/btsh/exec.c:505-584 | the search loop over the text of PATH gives the result of the walk over its entries |
| CmdTable.MarkChain | src/bootable/open_recovery/btsh/exec.c:675-680 | one chain of the table after cd |
| CmdTable.ClearChain | src/bootable/open_recovery/btsh/exec.c:745-757 | one chain after a change of PATH, unlinked in place: exactly the wrong entries are gone |
| Chains.GetRemoved | src/bootable/open_recovery/btsh/exec.c:853-863 | unlinking an entry forgets that name alone |
| CmdTable.Table.constructor | src/bootable/open_recovery/btsh/exec.c:98-99 | an empty table; it agrees with PATH exactly when PATH has no %builtin entry |
| CmdTable.Table.CmdLookup | src/bootable/open_recovery/btsh/exec.c:816-845 | finds or adds the entry of a name and remembers where; all other names are as before |
| CmdTable.Table.DeleteCmdEntry | src/bootable/open_recovery/btsh/exec.c:853-863 | deletes the entry looked up last |
| CmdTable.Table.FindCommand | src/bootable/open_recovery/btsh/exec.c:426-608 | the answer and the new entry of the specification; on a table that may be trusted, the answer of a fresh search exactly when builtinloc is right about PATH or that does not matter for the name; the table may be trusted again |
| CmdTable.Table.HashCd | src/bootable/open_recovery/btsh/exec.c:669-682 | every entry is marked as specified, in every chain |
| CmdTable.Table.ChangeDirectory | src/bootable/open_recovery/btsh/exec.c:669-682 | cd keeps the table right |
| CmdTable.Table.ClearCmdEntry | src/bootable/open_recovery/btsh/exec.c:737-761 | every name keeps or loses its entry as specified |
| CmdTable.Table.ChangePath | src/bootable/open_recovery/btsh/exec.c:693-729 | every name keeps or loses its entry as specified for the first change, builtinloc becomes the first entry that names builtins, and a table that is right stays right for every new PATH |
| CmdTable.Table.Defun | src/bootable/open_recovery/btsh/exec.c:889-922 | a definition keeps the table right if the entry was not marked |
| CmdTable.Table.UnsetFunc | src/bootable/open_recovery/btsh/exec.c:928-940 | deletes a function and nothing else |
| ArithTables.TablesDecide | src/bootable/open_recovery/btsh/arith.c:427-531 | in every state of a run and for every token the tables act by precedence and left associativity |
| ArithTables.GotoIs | src/bootable/open_recovery/btsh/arith.c:1290-1296 | where a reduction goes |
| ArithParse.ParseTree | src/bootable/open_recovery/btsh/arith.c:898-1298 | an operand with the right precedence is parsed to its tree, whatever is below it on the stack |
| ArithParse.SentenceParsed | src/bootable/open_recovery/btsh/arith.c:898-1298 | every sentence is accepted, with its tree, and what follows it is not looked at |
| ArithParse.AcceptedIsSentence | src/bootable/open_recovery/btsh/arith.c:898-1298 | whatever is accepted is a sentence whose tokens are those shifted |
| ArithParse.AcceptsSentences | src/bootable/open_recovery/btsh/arith.c:1137-1146 | rule 2 returns with tree t after n tokens if and only if the first n tokens are that expression and no operator follows |
| ArithParse.OneTree | src/bootable/open_recovery/btsh/arith.c:427-531 | no token sequence has two such trees, nor two such ends |
| ArithParse.ShiftRuns | src/bootable/open_recovery/btsh/arith.c:1091-1107 | a shift keeps the states in step with the symbols and the tokens |
| ArithParse.ReduceRuns | src/bootable/open_recovery/btsh/arith.c:1122-1298 | a reduction always finds the symbols of its rule on the stack, and keeps them in step |
| ArithEval.ReductionActs | src/bootable/open_recovery/btsh/arith.c:1122-1298 | the action of a rule computes the value of the tree that the reduction makes |
| ArithEval.SpoiltStays | src/bootable/open_recovery/btsh/arith.c:1236-1250 | an expression with a division by zero anywhere has no value |
| ArithEval.YyParse | src/bootable/open_recovery/btsh/arith.c:898-1298 | returns the value of the one tree of the leading sentence, or reports a division by zero in it; without such a sentence it is a syntax error, or a division by zero if and only if one is reduced before the error |
| ArithLaws.OperatorMeets | src/bootable/open_recovery/btsh/arith.c:1150-1265 | what each binary operator computes on 32-bit integers: sums, differences, products and shifts modulo 2^32, quotients without fraction and remainders with the sign of the dividend, comparisons, bit by bit |, ^ and &, and which operand || and && give; nothing for a division by zero |
| ArithLaws.UnaryMeets | src/bootable/open_recovery/btsh/arith.c:1252-1269 | and each unary one |
| ArithLaws.BinaryComputes | src/bootable/open_recovery/btsh/arith.c:898-1298 | x op y is parsed to that, for each operator |
| ArithLaws.SentenceYields | src/bootable/open_recovery/btsh/arith.c:898-1298 | and so is every expression, operator by operator |
| ArithLaws.TwoOperators | src/bootable/open_recovery/btsh/arith.c:898-1298 | x op y op z is computed from the left unless the second operator binds tighter in C |
| ArithLaws.OperandsFirst | src/bootable/open_recovery/btsh/arith.c:898-1298 | a unary operator binds tighter than any binary one, and parentheses make one operand |
| Memalloc.Region.Stalloc | src/bootable/open_recovery/btsh/memalloc.c:123-148 | allocates in the top block exactly when there is room, else in a new one; all live marks stay right |
| Memalloc.Region.Stunalloc | src/bootable/open_recovery/btsh/memalloc.c:151-160 | gives back the end of the top block |
| Memalloc.Region.SetStackMark | src/bootable/open_recovery/btsh/memalloc.c:164-171 | a mark that remembers the top and the bytes below it |
| Memalloc.Region.PopStackMark | src/bootable/open_recovery/btsh/memalloc.c:175-190 | after anything in between, the blocks and bytes below the mark are again all that is allocated, the mark's block itself moved at most; every later block is freed |
| Memalloc.Region.FreeAbove | src/bootable/open_recovery/btsh/memalloc.c:181-185 | the blocks above the mark's are freed, each while it is still there |
| Memalloc.MarksOnTop | src/bootable/open_recovery/btsh/memalloc.c:228-239 | the marks in the top block are the last ones set |
| Memalloc.RelocateMarks | src/bootable/open_recovery/btsh/memalloc.c:232-238 | the loop reaches exactly those |
| Memalloc.MoveKeepsMarks | src/bootable/open_recovery/btsh/memalloc.c:208-239 | when the top block moves, the marks in it sit at its start and are right in the new place |
| Memalloc.CutKeepsMarks | src/bootable/open_recovery/btsh/memalloc.c:175-190 | the older marks are right for the stack that is cut back |
| Memalloc.Region.GrowStackBlock | src/bootable/open_recovery/btsh/memalloc.c:203-245 | more than twice the room, with the bytes that were in it, and all marks still right |
| Memalloc.Region.Stputc | src/bootable/open_recovery/btsh/memalloc.h:68 | one more character at the end of the string, across a move of the block |
| Memalloc.Region.Ustputc | src/bootable/open_recovery/btsh/memalloc.h:70 | the same where there is room |
| Memalloc.Region.Stunputc | src/bootable/open_recovery/btsh/memalloc.h:72 | one character less |
| Memalloc.Region.CheckStrSpace | src/bootable/open_recovery/btsh/memalloc.h:69 | the string stays and there is room for the characters asked for, up to 100 and more |
| Memalloc.Region.GrowStackStr | src/bootable/open_recovery/btsh/memalloc.c:273-285 | one more free byte behind the string |
| Memalloc.Region.GrabStackStr | src/bootable/open_recovery/btsh/memalloc.h:75 | the string is allocated where it was built, never in a new block |
| Variables.HashValue | src/bootable/open_recovery/btsh/var.c:804-808 | the hash of a name, in 32 bits |
| Variables.AgreesStored | src/bootable/open_recovery/btsh/var.c:796-825 | changing a struct changes that name alone |
| Variables.VarTable.FindVar | src/bootable/open_recovery/btsh/var.c:796-825 | the hash table answers as a map |
| Variables.VarTable.SetVarEq | src/bootable/open_recovery/btsh/var.c:272-312 | the new value, marks and text: exported if it was, is said to be, or all are; a readonly variable is an error; no other name is touched |
| Variables.VarTable.SetVar | src/bootable/open_recovery/btsh/var.c:219-263 | a value, or the unset mark |
| Variables.VarTable.UnsetVar | src/bootable/open_recovery/btsh/var.c:738-766 | the name has no value; the struct goes exactly if it is not fixed |
| Variables.VarTable.AddFlags | src/bootable/open_recovery/btsh/var.c:577-584 | export and readonly for a variable that is there, beside the marks it has |
| Variables.VarTable.MkLocal | src/bootable/open_recovery/btsh/var.c:616-652 | what is remembered is the value the name had; the name keeps it or gets the new one, and keeps its marks; a new name, or one given a value, gets those asked for |
| Variables.VarTable.UndoLast | src/bootable/open_recovery/btsh/var.c:664-683 | one record undone; a new variable that is readonly stays |
| Variables.VarTable.PopLocalVars | src/bootable/open_recovery/btsh/var.c:659-684 | every localised name has the value and the flags from before its first record again (unless it was unset and not fixed: then it is unset and not exported, or readonly), every other name is untouched, and the options are restored |
| Variables.ExportAfter | src/bootable/open_recovery/btsh/var.c:672-681 | a variable that was exported before it was made local is exported afterwards if and only if it had a value or a fixed struct, unless it is readonly then |
| Variables.VarTable.LeaveFunction | src/bootable/open_recovery/btsh/eval.c:934-960 | what the callers made local is still to be undone |
| LocalVars.NotSaved | src/bootable/open_recovery/btsh/var.c:291-292 | a text that is freed is not saved in any record and belongs to no other variable |
| LocalVars.SetKeeps | src/bootable/open_recovery/btsh/var.c:284-297 | setting a variable frees no saved text and changes no other value |
| LocalVars.SaveKeeps | src/bootable/open_recovery/btsh/var.c:641-646 | saving a variable protects its struct and its text |
| LocalVars.RestoreKeeps | src/bootable/open_recovery/btsh/var.c:676-681 | putting a record back gives the saved value, frees only what nothing else uses, and keeps all older records right |
| LocalVars.DeleteKeeps | src/bootable/open_recovery/btsh/var.c:757-762 | a struct that is deleted is in no record |
| NodeLayout.TableRight | src/bootable/open_recovery/btsh/nodes.c:58-85 | under every type the table holds the size of the struct that a node of that type is |
| NodeCopy.Copier.CalcSize | src/bootable/open_recovery/btsh/nodes.c:116-191 | the switch of the first pass counts all structs and texts of a tree |
| NodeCopy.Copier.SizeNodeList | src/bootable/open_recovery/btsh/nodes.c:196-204 | and of a list |
| NodeCopy.Copier.NodeSaveStr | src/bootable/open_recovery/btsh/nodes.c:321-333 | a text with its end, behind the texts saved before |
| NodeCopy.Copier.CopyNode | src/bootable/open_recovery/btsh/nodes.c:209-296 | takes exactly the bytes counted for the tree, writes only to them, and leaves a pointer from which one finds the tree |
| NodeCopy.Copier.CopyFields | src/bootable/open_recovery/btsh/nodes.c:220-293 | the switch of the second pass: every field of the struct is the copy of the field of the node |
| NodeCopy.Copier.CopyRedirection | src/bootable/open_recovery/btsh/nodes.c:268-288 | the same for redirections; expfname keeps what memory held |
| NodeCopy.Copier.CopyNodeList | src/bootable/open_recovery/btsh/nodes.c:299-317 | the links, each linked from the one before it, lead to copies of the members in order |
| NodeCopy.Copier.CopyFunc | src/bootable/open_recovery/btsh/nodes.c:100-112 | the root is at offset 0, exactly the counted bytes are used, every struct lies in a place of its own size, and following the pointers gives the tree but for expfname |
| NodeLayout.CopyDetermines | src/bootable/open_recovery/btsh/nodes.c:209-317 | two trees have the same copy if and only if they are equal but for the expfname of redirections |
| NodeLayout.CopyGrows | src/bootable/open_recovery/btsh/nodes.c:209-317 | what is written elsewhere does not undo a copy |
| NodeCopy.ListClosed | src/bootable/open_recovery/btsh/nodes.c:305-316 | links that lead from one to the next, the last to null, are a list |
| NodeCopy.PlacesApart | src/bootable/open_recovery/btsh/nodes.c:226-227 | no two structs overlap |

## Left out

- BsDiff.BsDiff: a patch file of 2^63 bytes or more, temporary files, write errors and running out of memory end the program and are not modelled.
- BsPatch.FillBuffer: streams are unpacked as a whole, so that it fails on a short one where the loop of the program would not end if the packed bytes are cut off.
- BsPatch.ApplyBSDiffPatchMem: the sink, its short writes and the running hash are part of the effects in ApplyPatch only.
- ImageCut.ReadZip: the central directory is not parsed; the deflated entries are given, sorted by offset, and the bytes an inflated buffer is not filled with are arbitrary. An entry that starts before the position reached, as overlapping entries do, ends the run with OutsideBuffer, where imgdiff.c:341-349 computes a length that wraps around in `size_t` and moves the position back.
- ImagePatch.ApplyImagePatch: records that state a source or inflated length of 2^32 bytes or more, which zlib's 32-bit counts cut off, are taken at their word.
- ImageDiff.DiffImages: what a read beyond the source yields is not modelled; the run ends there.
- ZipDiff.DiffZips: requires distinct entry names in the target; with equal names two target chunks share a source chunk.
- ImgDiff.MakePatch: bsdiff is called directly where the program goes through a temporary file.
- ApplyPatch.NeverLost: requires of a disk that takes writes in part that no torn file passes for the target; SafeExactly shows that this is needed.
- ApplyPatch.ApplyPatch: MTD partitions as source or target, `fsync`, failing `unlink`, and modes and owners (only their failure) are not modelled; `-` as target name is resolved by the caller.
- ApplyPatch.RestartConverges: requires enough room on /cache and a patch that makes the target; without them no run can succeed.
- FreeCache.MakeFreeSpaceOnCache: which files are open is what the listing of /proc shows at the time it is read.
- Eval.Shell.EvalTree: pipelines, background commands, redirections, `eval`, `.`, traps, `set -e`, the limit of 1000 nested calls and here documents are not modelled; loops and calls run on fuel, of which any amount that is enough gives the same result.
- Eval.Shell.Breakcmd: its argument is given as a number.
- PatMatch.PMatch: only unquoted strings (`squoted` 0) and patterns in which every escape has a character behind it.
- CmdTable.SearchPath: `%func` entries, which read a file that defines functions, are skipped like unknown options; files do not change while the table lives.
- CmdCache.RunFresh: requires that no function takes a marked entry; DefinedFound says what happens then.
- CmdTable.Table.FindCommand: look-ups along another PATH, and the error message, are not modelled.
- ArithEval.YyParse: the limit of 10000 stack entries, the reading of numbers and variables from the text, and what bison does after an error is reported, which does not return.
- Memalloc.Region.GrowStackStr: writing out a here document while the string grows (`herefd`) is not modelled.
- Variables.VarTable.UndoLast: the function called for a variable is not modelled.
- Memalloc.Region.PopStackMark: marks are popped in nested order; popping one mark twice, as `evalstring` does, is not modelled.
- Memalloc.Region.Stputc: `STACKSTRNUL`, `STADJUST` and `ungrabstackstr` are left out.
- Variables.VarTable.SetVarEq: texts on the stack (`VSTACK`), which only occur in a process that is about to be replaced, the functions called for some variables, and the test of variable names are not modelled.
- NodeCopy.Copier.CopyNode: the sizes of the structs are parameters, a struct is written at once and not field by field, and a list of nodes is a sequence in the tree that is copied.
- User interface, volumes, package installation, `bootloader.c`, `firmware.c`, jobs, traps and terminals are not part of this model.
- `edify`, `options.c`, `output.c` and `mystring.c` would add easy members only.
