# Recovery image: delta engine, crash safety, backups, adb sessions

A Dafny model of the hard parts of an Android recovery image, with proofs about them.

- Binary deltas (`applypatch/`): the suffix sort of bsdiff in place, its search and scan, the patch
  format, bspatch, the chunk lists and the container of imgdiff, and imgpatch.
- Crash-safe updates: applypatch for files with its use of /cache, the arguments of recovery in the
  bootloader control block, and firmware updates through the raw cache partition.
- Deduplicating backups (`dedupe/`): manifests, the blob store, restoring, garbage collection, and runs
  of all of these.
- adb sessions (`minadbd/`): the event loop with its intrusive list, sockets with their queues and credit,
  and the two-thread shutdown of a transport.
- Retouching of prelinked libraries (`minelf/`).

Code that works in place is modelled in place: arrays for the suffix sort, the patch buffers, the chunk
lists and the retouched binary, classes for the event loop, the sockets, the blob store and the disk.
Protocols are state machines over their steps. Foreign code is a parameter: bzip2 is any pair of functions
of which the second, given what the first wrote and anything after it, starts with what the first was
given; zlib is any inflate that does not look past what it takes, and any deflate; SHA-1 and SHA-256 are
functions, of which it is asked only that the contents of one run have different sums. System calls that may
fail take their outcome from a script.

## Reading order

`SuffixOrder`, `SuffixRanks`, `SuffixPartition`, `SuffixSort`, `BucketSort`, `QSufSort` are the suffix sort;
`Codec`, `Search`, `BsDiff`, `BsPatch` the diff and its inverse; `Chunks`, `ImgFormat`, `ImgDiff`, `ImgPatch`
the image container, `ImgLayout` the images it reads, `ZipDiff` and `ZipLayout` its zip mode; `Disk` and `ApplyPatch` the update protocol, and `Update` the two
ends of an update together; `Manifest`, `Entries`, `Backup`, `Restore`,
`Collect`, `Archive` the backups; `PendingList`, `Fdevent`, `LocalSocket`, `SocketLists`, `Sockets`,
`Transport` the adb session; `Retouch` and `RetouchList` the prelinked libraries; `Recovery` and
`Firmware` stand alone.

## Model

| member | source | states |
|---|---|---|
| SuffixOrder.BeforeIsLexLess | applypatch/bsdiff.c:60-157 | the order the ranks encode, in which the end of the string sorts below every byte, is lexicographic order with a proper prefix first |
| SuffixOrder.AgreeInRange | applypatch/bsdiff.c:66-68 | two different suffixes that agree on h characters both have room for another h, so every access V[I[k]+h] is in range and ties need h below the length |
| SuffixOrder.AgreeDoubles | applypatch/bsdiff.c:64-118 | suffixes that agree on h characters and whose tails after h agree on h agree on 2h: the doubling step |
| SuffixOrder.BeforeFromTails | applypatch/bsdiff.c:64-118 | suffixes that agree on h characters are ordered as their tails after h characters are |
| SuffixRanks.KeyDecides | applypatch/bsdiff.c:64-118 | within a group the key V[I[k]+h] decides the order, and equal keys mean agreement on 2h characters, although split changes ranks while it reads them |
| SuffixRanks.RelabelKeeps | applypatch/bsdiff.c:77-77 | giving the front of a group a smaller rank never orders two suffixes wrongly: the ranking stays sound at width h |
| SuffixRanks.RearrangeKeeps | applypatch/bsdiff.c:73-73 | swapping places inside a group keeps the ranking sound at width h |
| SuffixRanks.EncodedFrame | applypatch/bsdiff.c:142-153 | the encoding of finished runs as negative lengths and of groups by their last place depends only on its own places |
| SuffixPartition.CountSides | applypatch/bsdiff.c:83-89 | the numbers of keys below and at the pivot, as a count over the range |
| SuffixPartition.Partition | applypatch/bsdiff.c:91-111 | the in-place three-way partition: the range is rearranged only, keys below the pivot come first, then those equal, then those above |
| SuffixPartition.SelectLeast | applypatch/bsdiff.c:66-76 | one selection round: exactly the entries with the smallest key are at the front, the range is only rearranged |
| SuffixSort.SplitShort | applypatch/bsdiff.c:64-81 | split on a range below 16: the range goes from groups at width h to groups and finished places at width 2h |
| SuffixSort.Part | applypatch/bsdiff.c:83-111 | split's partition step: what is below the pivot sorts before what is at it, that before what is above, and entries at the pivot agree on 2h characters |
| SuffixSort.Split | applypatch/bsdiff.c:60-119 | split: places [start, start+len) that agree on h characters end up encoded at width 2h, nothing else changes, and every rank stays sound |
| BucketSort.CountBytes | applypatch/bsdiff.c:126-130 | the counting loops leave in each bucket the last place before that byte's suffixes |
| BucketSort.BucketedIsRanked | applypatch/bsdiff.c:132-137 | bucket order ranks the suffixes by their first byte, the empty suffix first |
| BucketSort.SortByFirstByte | applypatch/bsdiff.c:126-137 | the first stage of qsufsort: ranks and encoding at width 1 |
| QSufSort.Pass | applypatch/bsdiff.c:140-153 | one pass takes the whole array from width h to width 2h, and makes a difference only while h is at most the length |
| QSufSort.TiesNeedNarrowRanks | applypatch/bsdiff.c:139-139 | two suffixes share a rank only while the width is below the length of the string, so the outer loop ends |
| QSufSort.DistinctRanksSort | applypatch/bsdiff.c:139-156 | when all ranks differ they list the suffixes in lexicographic order |
| QSufSort.QSufSort | applypatch/bsdiff.c:121-157 | for every byte string: I ends as all suffixes in lexicographic order, each once, and V as its inverse |
| Search.MatchLength | applypatch/bsdiff.c:159-167 | the length of the longest common prefix |
| Search.HalvingKeeps | applypatch/bsdiff.c:187-192 | on a sorted array, halving never loses every suffix that starts with the wanted byte, although a prefix compares as equal and sends the search left |
| Search.MatchBelow | applypatch/bsdiff.c:187-192 | a suffix that compares less, or is a proper prefix of the new data, matches at least as far as every suffix sorted before it |
| Search.MatchAbove | applypatch/bsdiff.c:187-192 | any other suffix matches at least as far as every suffix sorted after it |
| Search.HalvingLongest | applypatch/bsdiff.c:187-192 | one step of the search: whether its result is longest is decided in the half it goes to, unless the middle place holds a proper prefix and some match is longer, and then the result is not longest |
| Search.SearchRange | applypatch/bsdiff.c:169-193 | for any array the match is as long as reported and at a listed position; on a sorted array it is positive if the byte occurs in the range, and if the range holds a longest match one is returned exactly when the search is not misled on its way |
| Search.FindMatch | applypatch/bsdiff.c:287-288 | on a sorted array the reported length is positive exactly when the next new byte occurs in the old data, and it is the longest of all matches exactly when no place looked at holds a proper prefix of the new data with a longer match elsewhere |
| Search.NotMisled | applypatch/bsdiff.c:169-193 | if no non-empty suffix of the old data is a proper prefix of the remaining new data, no search is misled, so the match is longest |
| Search.MisledExample | applypatch/bsdiff.c:188-188 | old data aba, new data abx: the suffixes are sorted and the search is misled, to one matching byte where two match |
| BsDiff.NextMatch | applypatch/bsdiff.c:284-301 | the inner scan: it stops at the end or at a match that beats the current offset; with sorted suffixes oldscore is exactly the number of agreeing positions in [scan, scsc) at the current offset |
| BsDiff.ExtendForward | applypatch/bsdiff.c:303-309 | the forward extension is the first one of best score, within the old data |
| BsDiff.ExtendBackward | applypatch/bsdiff.c:311-318 | the backward extension is the last start of best score, within the old data |
| BsDiff.CutOverlap | applypatch/bsdiff.c:320-329 | the overlap is cut at the first place of most gain |
| BsDiff.ChooseLengths | applypatch/bsdiff.c:303-333 | the two lengths never cross, never become negative and stay inside the old data, and are the best extensions or the best cut |
| BsDiff.DifferencesAddUp | applypatch/bsdiff.c:335-336 | adding the old bytes back to the stored differences gives the new bytes |
| BsDiff.Emit | applypatch/bsdiff.c:335-360 | one emission: diff bytes plus extra bytes equal lastscan, which never passes scan, the last one ends at the end of the new data, and replaying all that was emitted gives the new data up to lastscan |
| BsDiff.DiffStreams | applypatch/bsdiff.c:281-362 | for any array with entries in range, sorted or not, the scan ends and replaying its streams gives exactly the new data |
| BsDiff.PatchApplies | applypatch/bsdiff.c:253-275 | a patch file with these streams, embedded anywhere in a larger file, is read back by the patcher and yields the target |
| BsDiff.Diff | applypatch/bsdiff.c:224-410 | bsdiff: for all old and new data below 2^31 bytes the patch, wherever it is embedded, turns old into new; without a given array the suffixes are sorted first |
| BsDiff.PatchFileLayout | applypatch/bsdiff.c:260-276 | the header of a patch file byte by byte: BSDIFF40, the lengths of the first two streams, the size of the target; then the streams |
| Codec.OffRoundTrip | applypatch/bsdiff.c:195-211 | every offset of magnitude below 2^63 survives offtout and offtin, sign included |
| Codec.Word4RoundTrip | applypatch/utils.c:22-53 | Write4 then Read4 is the identity on 32-bit values |
| Codec.Word8RoundTrip | applypatch/utils.c:30-65 | Write8 then Read8 is the identity on 64-bit values |
| Codec.OffIs | applypatch/bspatch.c:66-82 | eight bytes as an offset: the magnitude is the sum of the bytes with their weights, the top bit of the last one the sign |
| Codec.OffDetermined | applypatch/bsdiff.c:195-211 | offtout of what offtin reads gives the bytes back, but for a zero with a sign |
| Codec.WordsAre | applypatch/utils.c:45-65 | Read4 and Read8 are the weighted sums of their bytes in two's complement |
| BsPatch.FillBuffer | applypatch/bspatch.c:84-98 | an ideal stream read: succeeds exactly when the stream has that many bytes left, and copies them |
| BsPatch.AddOldInPlace | applypatch/bspatch.c:225-230 | old bytes are added modulo 256 in place; positions outside the old data add nothing |
| BsPatch.CopyOut | applypatch/bspatch.c:213-246 | one triple's copy: fails exactly on an overrun or a short stream, else appends diff plus old, then extra |
| BsPatch.ReplayInto | applypatch/bspatch.c:193-251 | the replay loop fills the buffer as the recursive reading of the triples says, and fails exactly when that does |
| BsPatch.ApplyBSDiffPatchMem | applypatch/bspatch.c:123-257 | header checks and replay as one function of source, container and offset, error cases included |
| Chunks.MergeAdjacentNormalChunks | applypatch/imgdiff.c:712-760 | run in place, it leaves exactly the merged list |
| Chunks.MergedTiles | applypatch/imgdiff.c:712-760 | merging keeps the exact tiling of the image |
| Chunks.MergedIsFinal | applypatch/imgdiff.c:712-760 | no two neighbours that could be merged are left |
| Chunks.FinalIsMerged | applypatch/imgdiff.c:712-760 | a list without mergeable neighbours is left alone |
| Chunks.MergedIdempotent | applypatch/imgdiff.c:712-760 | merging twice is merging once |
| Chunks.MergedAlike | applypatch/imgdiff.c:922-939 | two tilings with the same types merge to lists with the same types |
| ImgDiff.ReadImage | applypatch/imgdiff.c:376-519 | the chunks tile the image and hold what inflates there; it makes no progress exactly when the image ends in 1f 8b 08 and the reading comes to start a chunk at these bytes; an image with such an end is cut only if the bytes lie in a gzip footer |
| ImgLayout.MemberCut | applypatch/imgdiff.c:406-493 | a gzip member, wherever it is, is cut into header, data and footer exactly if the last four bytes, lowest first, are the size of its data; otherwise the image is refused |
| ImgLayout.PartsCut | applypatch/imgdiff.c:403-516 | an image laid out from gzip members and data in which none starts is cut part by part |
| ImgLayout.LaidOutReads | applypatch/imgdiff.c:403-516 | an image of sound parts is read as exactly their chunks |
| ImgLayout.WrongSizeRefused | applypatch/imgdiff.c:481-492 | a member with a wrong size after sound parts makes the image unreadable, whatever follows |
| ImgLayout.DiffLaidOut | applypatch/imgdiff.c:782-1050 | two images of sound members and other data in the same order give a patch, unless the container outgrows its offsets, and it turns one into the other |
| ImgDiff.StuckExactly | applypatch/imgdiff.c:403-516 | from any position, the reading gets stuck exactly when the image ends in 1f 8b 08 and it comes to start a chunk there, without an error before |
| ImgDiff.StuckExample | applypatch/imgdiff.c:403-516 | the three bytes 1f 8b 08 are never read to the end |
| ImgDiff.ReconstructDeflateChunk | applypatch/imgdiff.c:574-599 | succeeds exactly when one of the two levels it tries, with window bits -15 and memory level 8, reproduces the compressed bytes |
| ImgDiff.SettlePair | applypatch/imgdiff.c:879-919 | a target chunk stays deflated exactly when it can be reproduced and differs from the source's; pairs keep equal types and their places |
| ImgDiff.PatchNormal | applypatch/imgdiff.c:607-676 | a normal chunk becomes raw data exactly when it is short or the patch that bsdiff makes is no shorter, else that patch, and either produces the target's bytes |
| ImgDiff.PatchDeflate | applypatch/imgdiff.c:607-676 | a deflate chunk's patch between uncompressed data, recompressed, produces the target's bytes |
| ImgDiff.WriteContainer | applypatch/imgdiff.c:973-1046 | the loops write the container: every recorded offset is where that chunk's patch is appended |
| ImgDiff.SettleAndMerge | applypatch/imgdiff.c:879-939 | after settling and merging, both lists still have the same length and types: the exit for merging gone awry is unreachable in image mode |
| ImgDiff.DoneRoundTrips | applypatch/imgdiff.c:941-1046 | records that produce the pieces of a tiling of the target make a container that, interpreted over the source, is the target |
| ImgDiff.DiffImages | applypatch/imgdiff.c:782-1050 | imgdiff in image mode then imgpatch is the identity on the target image; without bonus data images of the same structure are refused only for size |
| ZipDiff.FindEnd | applypatch/imgdiff.c:203-211 | the search for the end of the central directory stops at the last such record in its range, or where it gives up |
| ZipDiff.ReadEntries | applypatch/imgdiff.c:224-270 | the deflated entries of the central directory in order, with the error exits of both headers |
| ZipDiff.SortEntries | applypatch/imgdiff.c:272-272 | the entries in ascending order of their offsets, none lost |
| ZipDiff.CutOpens | applypatch/imgdiff.c:301-361 | however the entries lie, a file that is cut is tiled by its chunks, and each deflate chunk holds what its bytes inflate to |
| ZipDiff.CutNames | applypatch/imgdiff.c:304-361 | deflate chunks have the names of their entries; different entry names give different chunk names |
| ZipDiff.ReadZip | applypatch/imgdiff.c:185-365 | the file is cut at its deflated entries, so that the chunks tile it, with the pseudo chunk of the whole file in front if asked for; all error exits |
| ZipLayout.MemberRead | applypatch/imgdiff.c:221-269 | a directory entry and the header it points to give the place, lengths and name of a deflated member, and nothing for another |
| ZipLayout.ZipRead | applypatch/imgdiff.c:204-269 | the directory read from a zip file is that of the members it was laid out from, extra fields and comments included, unless another end seems to follow |
| ZipLayout.SoundZipReads | applypatch/imgdiff.c:291-369 | a zip file of sound members is cut at the data of its deflated members, in one way only |
| ZipLayout.DiffSoundZips | applypatch/imgdiff.c:782-1050 | zip files of sound members give a patch, unless the container outgrows its offsets, and it turns one into the other |
| ZipDiff.FindChunkByName | applypatch/imgdiff.c:762-772 | the first deflate chunk of the name, or none exactly when there is none |
| ZipDiff.SettleEntry | applypatch/imgdiff.c:879-919 | a target entry stays deflated exactly when it can be reproduced, the source has an entry of its name and the first such entry differs; otherwise it and that entry become normal, and no entry of another name is lost |
| ZipDiff.SettleZip | applypatch/imgdiff.c:879-920 | the loop is the successive turns of the target chunks, which keep their places and can be reproduced; with different names each one still deflated has its source entry |
| ZipDiff.SharedName | applypatch/imgdiff.c:885-898 | two target entries that share a name: the turns leave the first, still deflated, without its source entry |
| ZipDiff.ZipRecord | applypatch/imgdiff.c:949-958 | a deflated chunk is patched from the entry of its name, a normal one from the whole source; either produces the target's bytes |
| ZipDiff.DiffCut | applypatch/imgdiff.c:879-1050 | from the two chunk lists on: the patch gives back the target, or the container is too large, or, exactly when the turns leave a deflated chunk without its source entry, the entry is unpaired, which takes two target entries of one name |
| ZipDiff.DiffZips | applypatch/imgdiff.c:782-1050 | imgdiff in zip mode then imgpatch is the identity on the target file; a target entry is left without its source only if two entries of the target share a name |
| ImgFormat.RecordYields | applypatch/imgdiff.c:1001-1038 | each record, read by imgpatch at its place, yields its target bytes and leads to the next record |
| ImgFormat.ChunksYield | applypatch/imgdiff.c:993-1046 | with the record cursor and the patch cursor in step, the parser yields the remaining pieces and its cursor ends behind the last record |
| ImgFormat.ContainerRoundTrip | applypatch/imgpatch.c:38-232 | interpreting a container whose records produce the pieces of the target yields the target, and the record cursor ends at the header size |
| ImgFormat.RecordLayout | applypatch/imgdiff.c:1000-1038 | the records byte by byte: type 0, 2 or 3, then source place and length, patch offset, expanded lengths and encoder parameters in this order |
| ImgPatch.BonusForSecond | applypatch/imgpatch.c:131-173 | bonus data matters for chunk 1 only, and there only if it is deflated |
| ImgPatch.ApplyImagePatch | applypatch/imgpatch.c:38-232 | the loop over the records is the recursive reading of the container, error exits included |
| ImgPatch.SilentExactly | applypatch/imgpatch.c:57-229 | for every patch file, reading it as the code does and reading it with every failure reported agree exactly when it is refused anyway or no normal chunk that is reached has a patch that does not apply |
| ImgPatch.StrictChunkIs | applypatch/imgpatch.c:69-82 | a normal chunk whose patch does not apply yields nothing and is not reported; every other record is read alike by both readings |
| ImgPatch.OutputIsPieces | applypatch/imgpatch.c:57-229 | the output of a patch file that is accepted is the concatenation of what its chunks yield, one piece for each |
| ImgFormat.SilentExample | applypatch/imgpatch.c:69-82 | a file of 40 bytes, one normal chunk whose patch offset points at the file's own magic, is accepted with no output, and refused when failures are reported |
| ApplyPatch.FindMatchingPatch | applypatch/applypatch.c:557-568 | the first listed patch for a digest, or -1 exactly when none is listed |
| ApplyPatch.EliminateOpenFiles | applypatch/freecache.c:15-72 | in place, exactly the names of open files on /cache are replaced by null |
| ApplyPatch.FindExpendableFiles | applypatch/freecache.c:74-126 | only names of unopened files directly in the two directories are left, never the saved copy; if the directories can be read all of these are there; it fails only if /proc cannot be read |
| ApplyPatch.MakeFreeSpaceOnCache | applypatch/freecache.c:128-172 | only expendable files that nobody has open go, at every moment, and each only after a reading that found too little room; success means the last reading found enough |
| ApplyPatch.SaveFileContents | applypatch/applypatch.c:327-356 | a complete copy or a failure; at every moment the file is as before or the front of the copy, and no other file changes |
| ApplyPatch.BackUpSource | applypatch/applypatch.c:866-895 | copying the loaded source to /cache and deleting it: the data is in one of the two places at every moment, and the copy loads as the same data although it is saved masked; the output is not opened meanwhile and other files are spared |
| ApplyPatch.WriteOutput | applypatch/applypatch.c:898-983 | one attempt at the output next to the target: it is complete and is the patched source, or the attempt fails and nothing is lost |
| ApplyPatch.InstallOutput | applypatch/applypatch.c:986-1022 | the output is renamed over the target only if its digest is right; every state on the way is safe |
| ApplyPatch.GenerateTarget | applypatch/applypatch.c:797-1026 | from a safe state every state it passes through is safe; success means the target is the patched source; without faults it succeeds. The source is saved and deleted before the output is opened exactly if it is used and the first query finds 256 KiB or less, or no more than 3/2 of the target size; with room and nothing stopping the attempt, or with the copy used, all files but output and target are kept at every moment; files it does not work on always are |
| ApplyPatch.WriteTarget | applypatch/applypatch.c:827-984 | the loop of attempts: at most two, the second and any without room with the source saved first |
| ApplyPatch.FindSource | applypatch/applypatch.c:746-786 | source data with a patch is found in the source file or else in the saved copy, whenever one of them has it |
| ApplyPatch.ApplyPatch | applypatch/applypatch.c:701-795 | applypatch for file targets: all states safe, success means the target digest, it succeeds without faults, and with the target done it changes nothing; other files are spared; with room for the target nothing but output and target changes, without room the source is saved first and is gone in the end |
| ApplyPatch.InterruptedRuns | applypatch/applypatch.c:701-1026 | after any number of runs, each failing as it will and cut off after any step, the target is done or the source or the saved copy still matches; other files are spared, and with room nothing but output and target changes |
| ApplyPatch.RunToTheEnd | applypatch/applypatch.c:701-1026 | after any interrupted runs one run without faults reaches the target and a further one changes nothing |
| Retouch.MaskedIsMasked | applypatch/applypatch.c:90-102 | what is loaded from a file with no retouch record or a well-formed one loads as itself when it is saved |
| Update.MakePatch | applypatch/applypatch.c:945-966 | a patch made by bsdiff, or by imgdiff in either mode, is recognised by its header and turns the source into the target |
| Update.JobIsSane | applypatch/applypatch.c:701-795 | a patch that turns x into b, contents whose digests identify x, and well-formed retouch records meet all that the crash-safety theorems ask |
| Update.SafeMeansNothingLost | applypatch/applypatch.c:675-699 | where digests identify x and b, a safe state is one in which the target loads as b, or the source or the saved copy as x |
| Update.UpdateFile | applypatch/applypatch.c:701-1026 | a patch made from x and b, applied by any number of runs that fail and are cut off anywhere, never loses x before the target is b, and the first run without faults leaves exactly b, which a further run leaves alone |
| Update.SourceGone | applypatch/applypatch.c:689-690 | a run that succeeds and deletes the source although the target is another file: 1000 bytes are free |
| Update.CompressorsExist | applypatch/applypatch.c:701-795 | what is asked of bzip2 and zlib is met by a code that ends itself, which undoes itself besides |
| Update.UpdateIsPossible | applypatch/applypatch.c:701-795 | what an update asks for is met by any two short files whose digests differ |
| Disk.Disk.WriteAll | applypatch/applypatch.c:623-641 | FileSink: the data is complete or the write failed; every partial state of the file is recorded |
| Manifest.DecToOct | dedupe/dedupe.c:267-278 | the loop reads the decimal digits of its argument as octal digits, negative arguments included |
| Manifest.OctalUndone | dedupe/dedupe.c:267-278 | reading the octal digits of a number in decimal and converting gives the number back |
| Manifest.ModeReadsBack | dedupe/dedupe.c:457-457 | the mode printed with %o, read with atoi and converted, is the mode |
| Manifest.DecimalReadsBack | dedupe/dedupe.c:458-459 | a number printed in decimal and read with atoi is the number |
| Manifest.Tokenize | dedupe/dedupe.c:251-265 | the text up to the next tab, or failure when there is none or it overruns its buffer |
| Manifest.ReadFields | dedupe/dedupe.c:444-455 | the successive fields of a line and where they end |
| Manifest.FieldsOfTabbed | dedupe/dedupe.c:251-265 | splitting undoes joining: fields without tabs that fit their buffers come back unchanged |
| Entries.ReadEntry | dedupe/dedupe.c:434-459 | a line as an entry, in version 1 and 2, or failure |
| Entries.LineReadsBack | dedupe/dedupe.c:101-103 | every entry with plain texts, int-sized numbers and a link target of at most 40 characters reads back as it was written |
| Entries.LineLayout | dedupe/dedupe.c:101-103 | a line as it stands in a manifest: type, mode in octal, owner, group, label, three times, name, then key and size or target, each with a tab |
| Entries.LongLinkLost | dedupe/dedupe.c:483-484 | a link whose target has more than 40 characters is not read back |
| Entries.OldLineReads | dedupe/dedupe.c:434-459 | lines of the first version are read as entries without times |
| Entries.LineIsTaken | dedupe/dedupe.c:431-431 | fgets takes exactly the line that was written, whatever follows it |
| Entries.OwnHeader | dedupe/dedupe.c:385-385 | the version line written by a backup is read as version 2 and leaves the entries |
| Backup.BlobPathInjective | dedupe/dedupe.c:113-140 | two contents of a run never share a blob name, if their sums differ |
| Backup.HexAt | dedupe/dedupe.c:113-118 | each byte of the sum is two hexadecimal digits, the higher first |
| Backup.KeyAt | dedupe/dedupe.c:113-140 | the name of a blob is the 64 digits with a slash after the third |
| Backup.PermBitsAre | dedupe/dedupe.c:102-102 | bit for bit: the recorded mode has the bits of the file's for owner, group, others, setgid and setuid, and no other |
| Backup.LawfulIsMet | dedupe/dedupe.c:113-140 | there is a function to 32 bytes that keeps all contents of up to 31 bytes apart: what is asked of the hash can be met |
| Backup.FileIsLegible | dedupe/dedupe.c:165-165 | the key and size of a file always fit a manifest line |
| Backup.Store.StoreBlob | dedupe/dedupe.c:147-163 | a blob is under its key afterwards, or the call failed; no blob is lost and every blob still holds the content of its key |
| Backup.Store.StoreFile | dedupe/dedupe.c:105-167 | on success the blob is there and key and size are in the manifest; on failure the manifest is unchanged |
| Backup.Store.StoreLink | dedupe/dedupe.c:209-220 | on success the link target is in the manifest |
| Backup.Store.StoreNode | dedupe/dedupe.c:222-249 | on success the manifest has the node's line and, for a directory, the lines of what it holds after it, and all blobs are there |
| Backup.Store.StoreDir | dedupe/dedupe.c:169-207 | the same for the entries of a directory, in order, without excluded paths and special files |
| Backup.Store.BackUp | dedupe/dedupe.c:365-397 | a completed backup's manifest is the version line and the lines of the tree without what is excluded; all its blobs are there; it completes when no call fails |
| Restore.Extract | dedupe/dedupe.c:398-519 | the restore loop is the line-by-line reading of the manifest, stops and partial results included |
| Restore.AppliedSets | dedupe/dedupe.c:455-508 | a line that is applied, whatever was there, sets owner, label and, but for a link, mode of what it names, and changes nothing else |
| Restore.ResolveChild | dedupe/dedupe.c:185-185 | a child's path resolves to its directory's path and its name |
| Restore.LaidAt | dedupe/dedupe.c:431-515 | laying a tree over files puts every node at its path and changes nothing else |
| Restore.RestoreList | dedupe/dedupe.c:431-515 | restoring the lines of a directory's entries lays exactly these entries; each directory precedes what it holds |
| Restore.RestoreUndoesBackup | dedupe/dedupe.c:398-519 | a manifest restored into an empty directory gives exactly the tree it recorded: contents, link targets, owners, labels, and bit for bit the permissions but the sticky bit |
| Restore.RecordedExactly | dedupe/dedupe.c:169-207 | what a backup records: exactly the nodes that are neither special nor excluded nor below an excluded one, at their paths, with their attributes and contents |
| Restore.LongLinkStops | dedupe/dedupe.c:483-492 | a restore stops at a link whose target is too long; what came before stays |
| Collect.CompareEqual | dedupe/dedupe.c:319-321 | strcmp is zero exactly for equal strings and antisymmetric |
| Collect.SortSorted | dedupe/dedupe.c:606-607 | sorting with string_compare gives an ascending list |
| Collect.Sweep | dedupe/dedupe.c:609-624 | the two-index sweep removes exactly the listed files absent from the used list, duplicates and an exhausted used list included; the outcome does not depend on the comparison where it is unset, when the used list is exhausted before the inner loop |
| Collect.ReadMention | dedupe/dedupe.c:562-599 | the key of a file's line, nothing for any other line, whose name and what follows it do not matter, or failure on a line that cannot be split so far |
| Collect.LineMentions | dedupe/dedupe.c:572-599 | every written line with plain texts that fit gives its key, or nothing if it is no file's, however long a link's target |
| Collect.ReadUses | dedupe/dedupe.c:561-600 | the blobs named by a manifest's file lines, or failure on a line that cannot be split |
| Collect.Scanned | dedupe/dedupe.c:541-602 | the used list of the manifests, cut at the first of a newer version, or nothing when one cannot be opened or read |
| Collect.Gc | dedupe/dedupe.c:520-631 | nothing is removed unless the manifests could be read; then listed files outside the used list go and all others stay |
| Collect.ListUses | dedupe/dedupe.c:561-600 | reading the manifest of a tree succeeds and puts every blob of the tree into the used list, whatever its numbers and however long its links' targets |
| Collect.UsesReach | dedupe/dedupe.c:541-602 | every manifest before the first too new one has all its blobs in the used list |
| Collect.UsesCut | dedupe/dedupe.c:555-560 | with a manifest of a newer version the used list is that of the manifests before it, and the sweep still runs |
| Collect.TooNewKeepsExactly | dedupe/dedupe.c:555-560 | with a manifest of a newer version a full collection keeps a tree's blobs exactly if the manifests before it use all of them |
| Collect.TooNewFirst | dedupe/dedupe.c:555-560 | a newer manifest listed first empties the used list, whatever the others need |
| Collect.GcKeeps | dedupe/dedupe.c:541-624 | a collection given a tree's manifest, no newer one before it, keeps all blobs of the tree, also of one whose links are too long to be restored |
| Archive.BackUpTo | dedupe/dedupe.c:365-397 | a backup into an archive, completed or cut short, keeps every other recorded tree and records the pruned tree exactly when it completes and can be read back |
| Archive.CollectGarbage | dedupe/dedupe.c:520-631 | a collection given all manifests keeps everything recorded; with one that cannot be read it removes nothing, else what no manifest uses goes |
| Archive.Run | dedupe/dedupe.c:365-631 | over every run of backups, deletions and collections with any failures, if no two contents of the run share a sum, each surviving complete manifest restores exactly the tree it recorded; without failures these are the expected ones |
| PendingList.Enqueue | minadbd/fdevent.c:474-482 | the cycle through head and events gains the event at its end, linked both ways |
| PendingList.Remove | minadbd/fdevent.c:484-490 | the cycle loses the event, wherever it is, and its links are cleared |
| PendingList.Dequeue | minadbd/fdevent.c:492-505 | null exactly when the list is empty, else the first event, taken out |
| Fdevent.EventLoop.Update | minadbd/fdevent.c:281-300 | the select sets again hold exactly the subscribed descriptors |
| Fdevent.EventLoop.Set | minadbd/fdevent.c:628-652 | the invariant is kept, the subscription is the mask; a pending event whose subscription changes keeps exactly the notifications not wanted now, as the code has it, and leaves the list exactly when none is left |
| Fdevent.UnwantedExactly | minadbd/fdevent.c:639-646 | when the subscription changes, nothing unwanted is left to signal exactly when all that was pending is wanted now, and just the wanted part is left only when nothing was pending |
| Fdevent.UnwantedIsSignalled | minadbd/fdevent.c:628-652 | a run: a descriptor becomes readable, reading is switched off, and the next callback reports a read |
| Fdevent.EventLoop.Add | minadbd/fdevent.c:654-658 | subscribes to more events, with the effect of fdevent_set on what is pending |
| Fdevent.EventLoop.Del | minadbd/fdevent.c:660-664 | subscribes to fewer events, with the effect of fdevent_set on what is pending |
| Fdevent.EventLoop.Register | minadbd/fdevent.c:428-454 | the table grows as needed and gets the event at its descriptor; every registered descriptor is below select_n |
| Fdevent.EventLoop.Install | minadbd/fdevent.c:593-609 | aborts exactly for negative or huge descriptors, else registers the event with nothing wanted and nothing else changed |
| Fdevent.EventLoop.Disconnect | minadbd/fdevent.c:267-279 | out of the sets; select_n is again just above a registered descriptor |
| Fdevent.EventLoop.Withdraw | minadbd/fdevent.c:611-625 | off the list, out of the sets and the table; the out-of-sync abort is unreachable; the descriptor is closed unless asked not to |
| Fdevent.EventLoop.FdCheck | minadbd/fdevent.c:305-321 | the registered bad descriptors and their number |
| Fdevent.EventLoop.Deliver | minadbd/fdevent.c:415-421 | events are added; the event is queued exactly if it was not pending |
| Fdevent.EventLoop.DispatchLoop | minadbd/fdevent.c:404-423 | every reported bit is delivered although the loop stops after as many bits as select counted |
| Fdevent.EventLoop.Process | minadbd/fdevent.c:365-424 | each registered event gains exactly what select reported, or a faked read for a bad descriptor; the missing-event abort is unreachable; the invariant is kept |
| Fdevent.EventLoop.GotIsWanted | minadbd/fdevent.c:365-424 | an event gets no notification that it is not subscribed to, but the read faked for a bad descriptor |
| Fdevent.EventLoop.NextCallback | minadbd/fdevent.c:507-515 | the first pending event, off the list, unmarked, with the events collected; no other event changes, and the invariant, in which exactly the events with something to signal are pending, holds when the callback starts |
| LocalSocket.Local.WriteLoop | minadbd/sockets.c:147-161 | the descriptor takes exactly as many of the bytes as it has room for before the answer that stops the loop; it fails exactly if bytes remain and that answer is an error, a count of 0 or, without retry, an interruption |
| LocalSocket.Local.Enqueue | minadbd/sockets.c:130-181 | accepted payload is written as far as there is room, behind nothing else, and queued otherwise; the verdict follows from the room and the answer that stops; a socket waits for writing exactly while it has a backlog, and a failure happens only with an empty queue; the counts of packets stay within one of each other |
| LocalSocket.Local.Drain | minadbd/sockets.c:268-293 | the descriptor takes exactly as many of the queued bytes, over all packets, as it has room for, and a remainder stays at the head; drained, blocked or broken follows from the room and the answer that stops |
| LocalSocket.ReadLoop | minadbd/sockets.c:319-342 | what is read is what can be read until there is no more for now, at most 4096 bytes; the end is seen exactly if it comes before they are full |
| LocalSocket.Local.Acknowledged | minadbd/sockets.c:183-189 | an OKAY restores the credit to send one packet, through the event loop |
| LocalSocket.Local.Detach | minadbd/sockets.c:246-253 | going to the closing list: reading is no longer subscribed, but a read that is pending stays pending, and no other does |
| LocalSocket.Local.ClosingEvent | minadbd/sockets.c:256-371 | a closing socket is destroyed with bytes unwritten exactly when a write fails, or when a read is signalled without a write and finds the end of the input |
| LocalSocket.LostOnClose | minadbd/sockets.c:236-254 | a run that loses bytes: a backlog, a readable descriptor, a close, and the pending read finds the end of the input: the socket is destroyed with nothing written |
| Sockets.Daemon.Find | minadbd/sockets.c:62-77 | the socket with the id, or none exactly when no listed socket has it |
| Sockets.Daemon.Open | minadbd/adb.c:317-331 | a new socket on a new descriptor and its remote peer, linked both ways, registered and reading, with the next id and nothing accepted; or a refusal; or the abort for a descriptor out of range |
| Sockets.Daemon.OkayPacket | minadbd/adb.c:333-343 | the named socket may read again; listed sockets always have their peer, so none is created; what any socket has written and queued stays as it was |
| Sockets.Daemon.ClosePacket | minadbd/adb.c:345-351 | the named socket is closed, at once exactly when its queue is empty; what any socket has written and queued stays as it was |
| Sockets.Daemon.WritePacket | minadbd/adb.c:353-365 | the named socket accepts the payload and writes exactly what the descriptor has room for, if nothing waits before it; the host is told to go on exactly when that is all; it is destroyed exactly when the descriptor failed |
| Sockets.Daemon.CloseAt | minadbd/sockets.c:220-254 | the peer tells the host, and the socket is destroyed and its descriptor withdrawn if its queue is empty, else moved to the closing list |
| Sockets.Daemon.CallbackOpen | minadbd/sockets.c:256-384 | a callback for an open socket, whatever is pending: a read is signalled only if it is subscribed or the descriptor is bad, a write only with a backlog; exactly how many queued bytes are written; exactly which packets go out and which sockets close; an open socket that is destroyed has written everything it accepted |
| Sockets.Daemon.CallbackClosing | minadbd/sockets.c:256-371 | a callback for a closing socket: exactly how many queued bytes are written; a read is signalled exactly if it was pending when the socket was closed, or for a bad descriptor; the socket goes away with bytes unwritten exactly when a write fails or such a read, without a write, finds the end of the input |
| Sockets.Daemon.Poll | minadbd/fdevent.c:365-424 | select and the check for bad descriptors: all sockets keep their invariant, and what they have written and queued, while any of them is notified |
| Sockets.Daemon.Callback | minadbd/fdevent.c:681-695 | one turn of the inner event loop, for an open socket, a closing one or anything else, keeps the invariant of the daemon |
| Sockets.Daemon.Disconnect | minadbd/sockets.c:467-479 | a remote that goes away unlinks and closes its socket without a packet |
| Sockets.Daemon.Offline | minadbd/adb.c:148-153 | going offline leaves no open socket and sends and writes nothing; every socket is destroyed or still drains on the closing list |
| Sockets.Daemon.CloseAll | minadbd/sockets.c:112-128 | at the end of the input every listed socket is closed and its CLSE sent, in the order of the list; every socket is destroyed or still drains on the closing list, with nothing more written |
| Sockets.Delivered | minadbd/sockets.c:130-181 | in every reachable state: written bytes and queue of a listed socket are the data of the WRTE packets for it since it was opened, those of a closing one the data that came while it was listed, and a destroyed one has written the front of that; no id given is left out |
| Sockets.Run | minadbd/sockets.c:130-384 | over every run of packets, select turns, callbacks, disconnects and ends of input: for every id at most one WRTE beyond the OKAYs received and at most one OKAY beyond the WRTEs received; and for every id given, the bytes written followed by those queued are the payloads of the run's WRTE packets for that socket, in order, or, once it is destroyed, the bytes written are the front of them |
| Transport.InvKept | minadbd/transport.c:255-359 | every step of either thread keeps what the places of the threads say about count, lock, flags and the events so far |
| Transport.PhaseBefore | minadbd/transport.c:65-81 | until a thread drops its reference the event of each of its steps is the one the order of a transport's life allows next: one kick |
| Transport.PhaseAfter | minadbd/transport.c:554-568 | and after: close, then removal, only with both references dropped |
| Transport.ShutdownInOrder | minadbd/transport.c:255-359 | over all interleavings: one kick, complete before the one close, then one removal, then the release; close, removal and release only after both references are dropped; no thread touches the transport after the removal; with both threads done it has been posted |
| Transport.NoLateKick | minadbd/transport.c:559-562 | the test for a missing kick under the lock never succeeds |
| Transport.ShutdownEnds | minadbd/transport.c:255-359 | apart from moving packets the two threads take at most 28 steps in any run, and until both are done one of them can go on: shutdown completes |
| Transport.OrderCounts | minadbd/transport.c:554-577 | a log in order has exactly one kick, close and removal up to its phase |
| Transport.NothingAfterPost | minadbd/transport.c:440-466 | after the removal is posted the only event is the release |
| Retouch.Decoder.Decode | minelf/Retouch.c:47-107 | one entry of 2, 3 or 8 bytes, decoded with the state of the entry before, which it replaces |
| RetouchList.ShortDecodes | minelf/Retouch.c:49-56 | two bytes step 1 to 4 words on and add a delta of 13 bits, sign included |
| RetouchList.MiddleDecodes | minelf/Retouch.c:57-65 | three bytes step 1 to 4 words on and add a delta of 20 bits, sign included |
| RetouchList.FullDecodes | minelf/Retouch.c:66-78 | eight bytes give place and value, highest byte first, with 3fffffff for -1 |
| RetouchList.SealedWords | minelf/Retouch.c:109-164 | the words listed in a binary are those of the list that was written behind it, with both records |
| RetouchList.SealedMasks | minelf/Retouch.c:109-196 | masking such a binary rewrites exactly these words and reports the offset |
| RetouchList.SealedRefused | minelf/Retouch.c:153-158 | a list with a place that is not before it is refused |
| RetouchList.WritesWord | minelf/Retouch.c:168-169 | a word that no later entry overlaps ends up with its original value plus the offset, modulo 2^32, lowest byte first |
| Retouch.MaskData | minelf/Retouch.c:109-196 | in place it does what the pass over the bytes says, for every binary, with every access inside it |
| Retouch.WritesByte | minelf/Retouch.c:168-169 | bytes outside the listed words keep their value, those inside depend only on the list and the offset |
| Retouch.MaskWrites | minelf/Retouch.c:109-196 | on a well-formed blob masking matches, reports the offset, rewrites exactly the listed words and leaves the list intact |
| Retouch.MaskAgain | minelf/Retouch.c:109-196 | masking after masking is masking with the last offset: idempotent, and masking to 0 undoes any other |
| Retouch.NeverMismatched | minelf/Retouch.c:168-186 | with a desired offset no binary is ever reported as mismatched |
| Retouch.InferExactly | minelf/Retouch.c:171-195 | inference changes nothing and matches exactly when all words are at one offset, which it reports |
| Retouch.InferAfterMask | minelf/Retouch.c:109-196 | after masking to d, inference over separate words finds d |
| Recovery.WriteArgs | recovery.c:230-236 | the repeated strlcat leaves the whole text cut to the buffer |
| Recovery.ReadArgs | recovery.c:188-197 | strtok finds the pieces between newlines after the word recovery, at most 99 |
| Recovery.ReadFile | recovery.c:204-221 | the arguments in the command file, at most 99 |
| Recovery.FileGives | recovery.c:204-221 | a command file of lines, with either line end, gives the arguments of its lines, the first n of them |
| Recovery.GetArgs | recovery.c:170-238 | the command line, else the control block, else the command file, and the block that boots recovery with them again |
| Recovery.KeptExactly | recovery.c:228-237 | arguments come back from the block exactly when they are non-empty lines, at most 99, and fit it up to the last newline |
| Recovery.ParsedIsFixed | recovery.c:188-236 | whatever a block holds, storing the arguments found in it gives a block with the same arguments |
| Recovery.CutListIsFixed | recovery.c:228-237 | arguments that overflow are cut once; the cut list is a fixed point |
| Recovery.EveryBootRestarts | recovery.c:170-238 | once a list is stored that does not leave the block blank, every later boot is into recovery with the same arguments, whatever becomes of the command file |
| Recovery.NothingKeptExactly | recovery.c:188-236 | a stored list is lost exactly when the block has nothing but newlines after its first word |
| Recovery.FoundIsNormal | recovery.c:188-221 | whatever get_args finds in a block or a command file is non-empty lines, at most 99 |
| Recovery.NormalIsKept | recovery.c:228-237 | a list of non-empty lines never leaves the block blank |
| Firmware.FirmwareCleans | firmware.c:87-96 | the block written before the raw image asks for the cache to be erased, also when the intent is cut |
| Firmware.InvKept | firmware.c:79-131 | every step, and a crash after any, keeps the invariant of the control block and the raw image |
| Firmware.MainNeverSeesRawImage | recovery.c:1102-1186 | over every run the main system never boots with a raw image on the cache; while there is one the next boot leads to recovery, which erases it |
| Firmware.InstallsWholeImages | firmware.c:79-131 | over every run, with crashes anywhere, the command update-radio or update-hboot stands in the block only while that image is on the cache partition as a whole |
| Firmware.BackToMain | recovery.c:1102-1186 | from whatever a run leaves behind, a start with nothing failing and nothing to install leads back to the main system with block and cache partition cleared |

## Where the code does less than one would expect

Each of these has an input or a run at which it shows, and the exact condition.

- `search` does not always return the longest match: a suffix that is a prefix of the new data compares as
  equal and sends the search left. `Search.MisledExample` is an input; `Search.FindMatch` says when it does,
  `Search.NotMisled` gives a condition on the two files.
- `ApplyImagePatch` ignores the status of normal chunks: `ImgFormat.SilentExample`, `ImgPatch.SilentExactly`.
- `ReadImage` makes no progress on some images that end in 1f 8b 08: `ImgDiff.StuckExample`,
  `ImgDiff.StuckExactly`.
- In zip mode a target entry can be left without its source entry, and imgdiff then writes a length it never
  set; the model refuses: `ZipDiff.SharedName`, `ZipDiff.DiffCut`. It takes two target entries of one name.
- Garbage collection goes on with the manifests before one of a newer version: `Collect.UsesCut` states what
  the used list then is, `Collect.TooNewKeepsExactly` when a tree survives, and `Collect.TooNewFirst` a case
  in which nothing does.
- `fdevent_set` takes the wanted events, not the unwanted ones, off a pending event:
  `Fdevent.UnwantedIsSignalled`, `Fdevent.UnwantedExactly`.
- A link whose target has more than 40 characters is backed up but not restored: `Entries.LongLinkLost`,
  `Restore.LongLinkStops`; up to 40 it is, `Entries.LineReadsBack`.
- The source of an update can be deleted although the target is another file: `Update.SourceGone`; it is exactly
  when there is too little room, `ApplyPatch.GenerateTarget`.
- A closing socket does not always drain before it is destroyed: `LocalSocket.LostOnClose`,
  `Sockets.Daemon.CallbackClosing`.

## Left out

- bzip2, zlib, SHA-1, SHA-256: only the laws named above; corrupt compressed data is an error, where the
  source may loop.
- BsDiff.Diff: old and new data of 2^31 bytes or more are not covered, as in the source's 32-bit uses of it.
- ImgDiff.DiffImages: bonus data on a chunk that is not deflated (refused in the model), and expanded data of
  2^31 bytes or more (refused).
- ZipDiff.ReadZip: a file on which the C code reads outside it, cuts backwards because entries overlap, or uses
  data that inflate did not fill, is unreadable in the model; entries at the same offset stay in their order.
- ImgPatch.ApplyImagePatch: a sink that takes less than it is given; reads outside source or patch, which
  the source does not check, are errors in the model.
- ApplyPatch.ApplyPatch: partition targets, whose branch saves the source again after it was discarded, and
  MTD partitions as sources; the source file is not directly in the directories that may be cleared, and the
  names of source, target, output and saved copy do not collide. An attempt that fails leaves an empty output
  where the source may leave a part of it. Sizes are not cut to a size_t.
- ApplyPatch.SaveFileContents: file modes and owners are calls that may fail, not state.
- Restore.RestoreUndoesBackup: times are read back (`Entries.LineReadsBack`) but are not part of the restored
  tree, because utimes follows links and directories change after their entry; restoring over existing links
  and names with `..` are not modelled.
- Entries.LineReadsBack: names or labels with tabs or newlines, link targets beyond 40 characters, lines
  beyond 4095 characters and numbers of 2^31 or more do not come back; a field that overruns its buffer is a
  failure in the model.
- Collect.ReadMention: a file's line that ends inside its size is a failure in the model; the source then takes
  its key and looks at a size that it has not terminated, which is undefined.
- Backup.Store.StoreBlob: the file does not change between hashing and copying.
- Fdevent.EventLoop.Install: the descriptor is not registered already and is below the size of an fd_set;
  pointers have the size of an int, so that the whole new part of the table is cleared.
- Fdevent.EventLoop.Set: called for registered events only.
- LocalSocket.Local.WriteLoop: a descriptor that answers no more is taken to block.
- Sockets.Run: a run ends where select would report a descriptor it was not asked about, or a service a
  descriptor that is still registered. A descriptor found bad reads as the end of the input until it is given
  to another service. Packets that arrive while the transport is offline are not told apart. A socket id does
  not wrap around.
- Sockets.Daemon.CallbackOpen: the forced end of input of subprocess sockets; local sockets as peers of local
  sockets, which the sideload daemon does not make.
- Sockets.Daemon.Find: the socket lists are sequences here; the linked form is proved for the event list only.
- Transport.ShutdownInOrder: the packets are reduced to a choice to go on; transports without permission,
  which have no threads, are not modelled.
- Retouch.MaskData: a binary of 2^31 bytes or more.
- Recovery.EveryBootRestarts: the control block can be read and written, and nothing asks to ignore it.
- Firmware.InstallsWholeImages: the main system does not itself ask for an installation.
- Firmware.MainNeverSeesRawImage: formatting the cache succeeds, reboot does not return, and the image is for
  the radio or hboot.
- The epoll variant of the event loop, smart sockets, subprocess events, the user interface, mounting,
  nandroid, the package verifier, edify, the loki patcher: nothing of these is modelled.
