# Camera firmware: verified models

Dafny models of the self-contained algorithms in the firmware of an IP camera and
recorder, with proofs of what they are for. Integers are unbounded in Dafny, so 32-bit
wrap-around is written out wherever the C code depends on it. Methods with loops and
in-place updates follow the source's own form and are proved against functions; the
theorems are about those functions, and about whole runs.

| module | models |
|---|---|
| `MachineInt` | the C integer types: reduction to 32 bits, signed reading, truncating division |
| `FatLayout`, `FatTable`, `MkDosFs`, `FatExamples` | the FAT file system builder: the arithmetic that sizes a volume, the packed entries of the table, the formatter itself, and volumes worked out by hand |
| `Field`, `Rijndael`, `AesEngine`, `AesExample` | the AES block cipher of FIPS 197: the field and the substitution tables, the cipher on values, the engine with its global arrays, and the examples of the standard |
| `FrameList`, `FrameRuns`, `FrameEviction`, `SharedList` | the reference-counted list of encoded frames over an explicit memory, its runs, the eviction loop of the writer, and the list with its fields updated in place |
| `CycleQueue`, `CycleBuffer` | the send buffer: a byte queue with a frame count, and the ring with free-running positions that holds it |
| `EtcFile`, `EtcEditor` | the configuration file editor: lines, look-up and rewriting of a text, and the pointer loops over line buffers and files |
| `RateControl`, `RateController` | the two bit-rate controllers with their error-diffusing quantiser |
| `SunLabel`, `SgiLabel`, `LabelSums` | the partition table verifiers, the free lists and the checksums |
| `DirectFile`, `DirectWriter` | page-aligned writing through one static buffer |
| `Thumbnail` | the windowed scan for a thumbnail inside a JPEG file |
| `Archive`, `ArchiveDisk` | packing a directory tree into one file, and unpacking it onto a disk |

Where a property that one would expect does not hold of the code, the code is kept as it
is, a lemma names the input, and another says exactly when the property does hold:

* A volume too small for what precedes its data underflows the size of the data area, and
  can be accepted with a layout that does not fit (`UnderflowIsNotNoticed`); an estimate of
  0x1100_0000 clusters and more overflows what a FAT length is computed in, and can be
  accepted too (`FatLengthCanVanish`, `OverflowIsNotNoticed`). Every other plan is sound, and
  none of these is (`PlannedVolumeIsSound`). Below 2^31 sectors a single FAT12 estimate
  overflows (`VolumeBelow2To31IsSound`), and on any device a small first estimate is enough
  (`SmallEstimateIsSound`). The program itself asks for FAT32 only.
* Disks of a terabyte and more are refused as too small, as the number of sectors wraps in
  an `int` (`FormatsExactlyIf`).
* For 192- and 256-bit keys the wrapper copies the key length into a 16-byte input array
  (`OnlyShortKeysStayInside`).
* The frame list forgets to clear `pListHead` when it becomes empty, and hangs a later
  frame behind a node that is not linked, or no longer allocated (`EmptiedListIsReached`,
  `SelfLinkIsReached`). The list comes right if and only if `malloc` gives the recorded
  address out again for the first new frame (`EmptiedListIsRightExactlyIf`). With the byte
  limit full of pinned frames the writer's eviction loop empties the list and then never
  ends (`EvictionEndsExactlyIf`, `StuckListIsReached`): unlocking has no effect on an empty
  list.
* The frame count of the send buffer is exact below one million only (`ItemsAreExact`),
  and at a million nothing can be taken out (`BlockedExactlyIf`). In a buffer below 10 KiB
  every announced put is allowed (`AnnouncedPutsFitExactlyIf`, `AnnouncedPutIsLost`).
* A configuration file that ends inside a section's header line swallows the new entry
  (`GetBackExactlyIf`, `HeaderWithoutNewline`).
* A negative result of the SGI verifier means an overlap, but an overlap need not give one
  (`OverlapCanLookFilled`, `NegativeExactlyIf`).
* Partitions that touch only because their ends are cut to 32 bits are joined too, and the
  join covers other sectors (`WrappedPiecesMove`, `MergeKeepsCountsExactlyIf`).
* After a write that began at a page boundary the bytes behind the stream are left over from
  earlier writes (`PaddingIsStale`); `PaddingIsBlankExactlyIf` says when they are blank.
* With a signed `char` the thumbnail scanner overlooks markers that end at every seventh
  byte (`SignedMisses`), and reports the same exactly if neither marker to be reported does
  (`SignedAgreesExactlyIf`). A file without a start marker still yields a picture
  (`NoStartIsNoObstacle`).
* An archive does not record the packed directory itself, and names with a backslash come
  out elsewhere, on top of other files, or not at all (`MissingRootStops`, `BackslashStops`,
  `BackslashOverwrites`); `UnpackedExactlyIf` says when a tree comes out as it went in.

Verify the project with `dafny verify dfyconfig.toml`.

## Model

| member | source | states |
|---|---|---|
| `FatLayout.RecountHasEntries` | FileSystem/fdiskdll/mkdosfs.c:924-990 | for FAT12, FAT16 and FAT32, every data size, sector size, cluster size and number of FATs: the recounted clusters never exceed the estimate the FAT was sized for, so they and the two reserved entries have a place in it |
| `FatLayout.EstimateIsGenerous` | FileSystem/fdiskdll/mkdosfs.c:924-926 | why: one cluster more than the estimate would not leave room for the FATs sized for it |
| `FatLayout.PlannedVolumeIsSound` | FileSystem/fdiskdll/mkdosfs.c:901-998 | every device: a run of the sizing that does not die left the loop with the cluster size its count was made for, and describes a volume whose parts fit and whose clusters all have FAT entries if and only if the reserved sectors and the root directory fit and the first estimate did not overflow |
| `FatLayout.VolumeBelow2To31IsSound` | FileSystem/fdiskdll/mkdosfs.c:901-998 | below 2^31 sectors the second condition fails for a single FAT12 estimate with one-sector clusters |
| `FatLayout.SmallEstimateIsSound` | FileSystem/fdiskdll/mkdosfs.c:916-998 | on any device, an estimate at the first cluster size below that limit is enough: a condition on the parameters only |
| `FatLayout.TestedVolumeIsSound` | FileSystem/fdiskdll/mkdosfs.c:1184-1200 | what the last two tests (a cluster count, enough blocks) imply about the layout, for any device whose first estimate did not overflow |
| `FatLayout.HugeIsUnsound` | FileSystem/fdiskdll/mkdosfs.c:924-990 | and from an overflowing estimate on a tested plan is never sound |
| `FatLayout.GrantedDoesNotWrap` | FileSystem/fdiskdll/mkdosfs.c:924-990 | below 2^31 sectors a width that is granted clusters was estimated without wrap-around, but for that one estimate: both ways |
| `FatLayout.RefusalIsTheLimit` | FileSystem/fdiskdll/mkdosfs.c:930-990 | where the estimate did not overflow, the "too many clusters" tests fail only through the limits of the width, never through lack of FAT entries |
| `FatLayout.GrantedMeansAccepted` | FileSystem/fdiskdll/mkdosfs.c:992-998 | a planned layout left the doubling loop by its test, not by running out of cluster sizes |
| `FatLayout.UnderflowIsNotNoticed` | FileSystem/fdiskdll/mkdosfs.c:905-906 | a floppy of which no sector can be read: the unsigned difference underflows and a FAT32 volume is planned |
| `FatLayout.OverflowIsNotNoticed` | FileSystem/fdiskdll/mkdosfs.c:971-990 | a concrete device of two terabytes, one-sector clusters: a FAT32 length that wrapped is accepted |
| `FatLayout.FatLengthCanVanish` | FileSystem/fdiskdll/mkdosfs.c:926-931 | a concrete device of some 700 GB whose FAT12 length wraps to zero and is accepted |
| `FatLayout.FormattedDiskIsSound` | FileSystem/fdiskdll/mkdosfs.c:1436-1560 | for every block count of an `int`: formatting a hard disk stops, or lays out a FAT32 volume that fits and whose clusters all have entries |
| `FatLayout.HardDiskPlan` | FileSystem/fdiskdll/mkdosfs.c:779-805 | every disk with more than 66600 sectors and less than a terabyte is formatted; clusters have 512 bytes up to 260 MiB, 4 KiB up to 8 GiB, 8 KiB up to 16, 16 KiB up to 32, and 32 KiB beyond, and there are always at least the 65525 of a FAT32 volume |
| `FatLayout.FormatsExactlyIf` | FileSystem/fdiskdll/mkdosfs.c:787-798 | a disk is formatted if and only if it has more than 66600 sectors, and less than the terabyte at which an `int` of sectors wraps |
| `FatExamples.FloppyPlan` | FileSystem/fdiskdll/mkdosfs.c:901-998 | a floppy of 1.44 MB, worked out: FAT12, as FAT16 would have too few clusters |
| `FatExamples.SmallDiskPlan` | FileSystem/fdiskdll/mkdosfs.c:901-998 | 16 MiB in clusters of four sectors: FAT16, as FAT12 would have too many |
| `FatExamples.DoubledPlan` | FileSystem/fdiskdll/mkdosfs.c:901-998 | the same as FAT12: the clusters are doubled twice |
| `FatExamples.UnfortunatePlan` | FileSystem/fdiskdll/mkdosfs.c:1000-1040 | a small volume refused as FAT16, and with the next row what the user may force |
| `FatExamples.ForcedPlan` | FileSystem/fdiskdll/mkdosfs.c:1000-1040 | the same volume when the user asked for 16 bits |
| `FatExamples.ThresholdPlan` | FileSystem/fdiskdll/mkdosfs.c:958-969 | 4078 clusters are just enough for FAT16 |
| `FatExamples.DefaultWidth` | FileSystem/fdiskdll/mkdosfs.c:779-805 | where no width was asked for, FAT32 is for disks above 520 MiB |
| `FatExamples.NoWidthPlan` | FileSystem/fdiskdll/mkdosfs.c:992-998 | too many clusters of any size |
| `FatExamples.RefusedParameters` | FileSystem/fdiskdll/mkdosfs.c:885-889 | FAT32 with one reserved sector, and widths other than 12, 16 and 32, are refused on every device |
| `FatExamples.FewBlocksPlan` | FileSystem/fdiskdll/mkdosfs.c:1184-1200 | 33 blocks are too few |
| `FatExamples.EnoughBlocksPlan` | FileSystem/fdiskdll/mkdosfs.c:1184-1200 | 34 are not |
| `FatTable.MarkSetsOneEntry` | FileSystem/fdiskdll/mkdosfs.c:367-403 | marking an entry changes that entry only, also where FAT12 neighbours share a byte |
| `FatTable.EntriesApart` | FileSystem/fdiskdll/mkdosfs.c:372-382 | which entries share a byte |
| `FatTable.EntriesRemember` | FileSystem/fdiskdll/mkdosfs.c:367-403 | after any run of marks every entry reads as the last value it was given, cut to its width |
| `FatTable.EntryIsDigit` | FileSystem/fdiskdll/mkdosfs.c:367-403 | an entry is a digit of the whole table, read as one number with its lowest byte first, to the base of the width |
| `MkDosFs.DosFormatter.TryFat12` | FileSystem/fdiskdll/mkdosfs.c:924-941 | one trial computes the FAT length and cluster count of the specification |
| `MkDosFs.DosFormatter.TryFat16` | FileSystem/fdiskdll/mkdosfs.c:943-969 | likewise, with the FAT12 threshold |
| `MkDosFs.DosFormatter.TryFat32` | FileSystem/fdiskdll/mkdosfs.c:971-990 | likewise |
| `MkDosFs.DosFormatter.DoubleUntilFit` | FileSystem/fdiskdll/mkdosfs.c:916-998 | the do-while loop stops at the first accepted cluster size, or the last one tried |
| `MkDosFs.DosFormatter.SetupTables` | FileSystem/fdiskdll/mkdosfs.c:901-1052 | the stored fields are those of the outcome proved sound above, or the run died for its reason |
| `MkDosFs.DosFormatter.MarkFatCluster` | FileSystem/fdiskdll/mkdosfs.c:367-403 | the in-place byte writes |
| `MkDosFs.DosFormatter.MakeFat` | FileSystem/fdiskdll/mkdosfs.c:1227-1252 | the FAT image in memory, whole or first sector only |
| `MkDosFs.DosFormatter.WriteFats` | FileSystem/fdiskdll/mkdosfs.c:1373-1383 | the copies written to the device |
| `MkDosFs.LowMemoryTableIsTheTable` | FileSystem/fdiskdll/mkdosfs.c:1374-1383 | the first sector and zero sectors are the table that would have been built in full |
| `MkDosFs.FreshTableEntries` | FileSystem/fdiskdll/mkdosfs.c:1246-1252 | in a fresh table every data cluster is free, but for the root directory on FAT32 |
| `MkDosFs.FreshTableMedia` | FileSystem/fdiskdll/mkdosfs.c:1229-1245 | the first entry is all ones, with the media byte in its lowest eight bits |
| `MkDosFs.WriteFreshFats` | FileSystem/fdiskdll/mkdosfs.c:1229-1252 | the device holds the same FATs whether or not memory was short |
| `MkDosFs.CountBlocks` | FileSystem/fdiskdll/mkdosfs.c:558-586 | doubling and bisection find the device size in blocks, cut to an `int` |
| `Field.XtimeIsProduct` | FileSystem/avicodelib/AES_EnDe.c:198 | the xtime macro in wider integers, cut on store, is the field product by 2 (section 4.2.1 of FIPS 197) |
| `Field.ProductIsLinear` | FileSystem/avicodelib/AES_EnDe.c:367 | the field product with any byte distributes over the sum of two |
| `Field.MultiplyBy9` | FileSystem/avicodelib/AES_EnDe.c:367 | the Multiply macro in wider integers, cut on store, is the field product by 9 |
| `Field.MultiplyByB` | FileSystem/avicodelib/AES_EnDe.c:367 | the Multiply macro in wider integers, cut on store, is the field product by 11 |
| `Field.MultiplyByD` | FileSystem/avicodelib/AES_EnDe.c:367 | the Multiply macro in wider integers, cut on store, is the field product by 13 |
| `Field.MultiplyByE` | FileSystem/avicodelib/AES_EnDe.c:367 | the Multiply macro in wider integers, cut on store, is the field product by 14 |
| `Field.SBoxesAreInverse` | FileSystem/avicodelib/AES_EnDe.c:79-102 | the two substitution tables undo each other |
| `Field.SBoxInverts` | FileSystem/avicodelib/AES_EnDe.c:79-102 | every table entry is the affine image of the field inverse of its index, and of zero for zero (section 5.1.1 of FIPS 197) |
| `Rijndael.MixColumnsInverse` | FileSystem/avicodelib/AES_EnDe.c:366-388 | the two column steps undo each other on every state |
| `Rijndael.RoundsUndone` | FileSystem/avicodelib/AES_EnDe.c:391-427 | by induction over the rounds |
| `Rijndael.DecipherUndoesEncipher` | FileSystem/avicodelib/AES_EnDe.c:260-427 | deciphering undoes enciphering for any block, any round keys and any number of rounds |
| `Rijndael.DecryptUndoesEncrypt` | FileSystem/avicodelib/AES_EnDe.c:447-557 | the same from the key, for every key length and every block |
| `Rijndael.ScheduleOfPrefix` | FileSystem/avicodelib/AES_EnDe.c:124-184 | only the first Nk words of the key buffer matter |
| `Rijndael.ShiftRowsMoves` | FileSystem/avicodelib/AES_EnDe.c:215-241 | the byte of row r and column c comes from row r and column c + r modulo 4 (section 5.1.2 of FIPS 197) |
| `Rijndael.InvShiftRowsMoves` | FileSystem/avicodelib/AES_EnDe.c:338-364 | the byte of row r and column c comes from row r and column c - r modulo 4 (section 5.3.1 of FIPS 197) |
| `AesExample.StandardExample` | FileSystem/avicodelib/AES_EnDe.c:260-427 | the key and block of appendix B of FIPS 197 are enciphered as there, and deciphered again |
| `AesExample.ExampleRounds` | FileSystem/avicodelib/AES_EnDe.c:260-296 | the state after each round is the one printed there |
| `AesExample.ExampleKeys` | FileSystem/avicodelib/AES_EnDe.c:124-184 | the round keys of appendix A.1 of FIPS 197 |
| `AesExample.Words192` | FileSystem/avicodelib/AES_EnDe.c:124-184 | the words of appendix A.2, for 192-bit keys |
| `AesExample.Words256` | FileSystem/avicodelib/AES_EnDe.c:124-184 | the words of appendix A.3, for 256-bit keys, with the extra substitution |
| `AesEngine.RoundConstants` | FileSystem/avicodelib/AES_EnDe.c:105-121 | the table entries that are reached are the powers of x |
| `AesEngine.Engine.KeyExpansion` | FileSystem/avicodelib/AES_EnDe.c:124-184 | stays inside its 240 bytes and satisfies the word recurrence of section 5.2 of FIPS 197 for Nk = 4, 6 and 8 |
| `AesEngine.Engine.AddRoundKey` | FileSystem/avicodelib/AES_EnDe.c:188-196 | in place, the state plus the round key |
| `AesEngine.Engine.SubBytes` | FileSystem/avicodelib/AES_EnDe.c:203-213 | in place, the substituted state |
| `AesEngine.Engine.ShiftRows` | FileSystem/avicodelib/AES_EnDe.c:215-241 | in place, by row rotations |
| `AesEngine.Engine.MixColumns` | FileSystem/avicodelib/AES_EnDe.c:244-257 | in place, equal to the matrix product of section 5.1.3 of FIPS 197 |
| `AesEngine.Engine.InvSubBytes` | FileSystem/avicodelib/AES_EnDe.c:326-336 | the inverse substitution |
| `AesEngine.Engine.InvShiftRows` | FileSystem/avicodelib/AES_EnDe.c:338-364 | the inverse rotations |
| `AesEngine.Engine.InvMixColumns` | FileSystem/avicodelib/AES_EnDe.c:372-388 | equal to the matrix product of section 5.3.3 of FIPS 197 |
| `AesEngine.Engine.Cipher` | FileSystem/avicodelib/AES_EnDe.c:260-296 | the output array is the enciphered input array |
| `AesEngine.Engine.InvCipher` | FileSystem/avicodelib/AES_EnDe.c:391-427 | the output array is the deciphered input array |
| `AesEngine.Engine.AesEncrypt` | FileSystem/avicodelib/AES_EnDe.c:447-510 | the error codes, the zero padding and the encrypted block |
| `AesEngine.Engine.AesDecrypt` | FileSystem/avicodelib/AES_EnDe.c:512-557 | likewise |
| `AesEngine.OnlyShortKeysStayInside` | FileSystem/avicodelib/AES_EnDe.c:474-480 | the copy loop stays inside the 16-byte input array exactly for 128-bit keys |
| `AesEngine.RoundTrip` | FileSystem/avicodelib/AES_EnDe.c:447-557 | decrypting an encrypted message gives its first 16 bytes, padded with zeros |
| `FrameRuns.RunsAreSafe` | FileSystem/avicodelib/singly_linked_list.c:196-771 | no run of adds, deletes, locks and unlocks that leaves a frame once `pListHead` is set touches memory that is not allocated, and each ends in a consistent list |
| `FrameRuns.NewListRunsAreSafe` | FileSystem/avicodelib/singly_linked_list.c:24-36 | in particular every such run of a new list |
| `FrameRuns.GoodMeans` | FileSystem/avicodelib/singly_linked_list.c:196-771 | consistent: consecutive ids from `tail_id`, `item_num` counts the chain, whatever a reader holds is allocated, only evicted frames in use are kept, and both byte counters are exact modulo 2^32 |
| `FrameRuns.StepIsGood` | FileSystem/avicodelib/singly_linked_list.c:196-771 | every single operation keeps this |
| `FrameRuns.AddDropsExactlyIf` | FileSystem/avicodelib/singly_linked_list.c:196-288 | an add always succeeds, and drops the oldest frame exactly if the list already has as many as it may |
| `FrameList.DeleteKeepsInv` | FileSystem/avicodelib/singly_linked_list.c:291-361 | evicting the oldest frame frees it if nobody has it pinned and sets it aside otherwise |
| `FrameList.DeleteKeepsHead` | FileSystem/avicodelib/singly_linked_list.c:291-361 | `pListHead` survives an eviction exactly if a frame is left or it was never set |
| `FrameList.DeleteOnEmptyWraps` | FileSystem/avicodelib/singly_linked_list.c:300-304 | the test for an empty list never succeeds: the unsigned count wraps |
| `FrameList.AppendKeepsInv` | FileSystem/avicodelib/singly_linked_list.c:196-288 | appending at a fresh address keeps everything |
| `FrameList.AppendKeepsHead` | FileSystem/avicodelib/singly_linked_list.c:240-263 | when the newest frame stays known, both ways |
| `FrameList.FindReaches` | FileSystem/avicodelib/singly_linked_list.c:622-636 | the walk from any frame reaches every later one |
| `FrameList.LockStartReaches` | FileSystem/avicodelib/singly_linked_list.c:601-650 | the cursor shortcut finds the very node that the walk from the oldest frame would find |
| `FrameList.LockResult` | FileSystem/avicodelib/singly_linked_list.c:576-668 | locking an id in the window pins exactly the frame with that id; any other id changes nothing |
| `FrameList.LockKeepsInv` | FileSystem/avicodelib/singly_linked_list.c:638-655 | the pinned frame is counted |
| `FrameList.UnlockResult` | FileSystem/avicodelib/singly_linked_list.c:670-771 | the ways an unlock can go: count down, free the evicted frame, or no effect on an empty list |
| `FrameList.FreeKeepsInv` | FileSystem/avicodelib/singly_linked_list.c:727-754 | the last reader out frees the evicted frame, once, and the bytes are accounted for |
| `FrameList.LeakKeepsInv` | FileSystem/avicodelib/singly_linked_list.c:678-694 | on an empty list the pin is lost |
| `FrameEviction.EvictionEndsExactlyIf` | FileSystem/avicodelib/3516/hisi_ipc.c:214-217 | the loop before an insert ends if and only if the pinned bytes are below the byte limit, for three or more items |
| `FrameEviction.EvictKeepsInv` | FileSystem/avicodelib/3516/hisi_ipc.c:214-217 | evictions keep the list consistent and the pinned bytes what they are |
| `FrameEviction.RoomIsNotFull` | FileSystem/avicodelib/singly_linked_list.c:812-828 | when the loop ends both limits hold, and the add that follows evicts nothing |
| `FrameEviction.RoomExactlyIf` | FileSystem/avicodelib/singly_linked_list.c:812-828 | there is room exactly if the bytes of all frames, linked or still in use, are below the byte limit, and two more frames leave the count below its own |
| `FrameEviction.RoomAfterExactlyIf` | FileSystem/avicodelib/3516/hisi_ipc.c:214-217 | the same after the oldest k frames were thrown away, in terms of the lengths, pins and number of the frames before |
| `FrameEviction.StuckRun` | FileSystem/avicodelib/singly_linked_list.c:678-694 | once the list was emptied with the limit full of pinned bytes, no lock, unlock or delete ever makes room again |
| `FrameEviction.HeadAfterEviction` | FileSystem/avicodelib/3516/hisi_ipc.c:214-217 | when `pListHead` is still right after the loop, both ways |
| `FrameEviction.EmptiedListIsRightExactlyIf` | FileSystem/avicodelib/singly_linked_list.c:243-263 | a list that was emptied with its newest frame recorded is consistent after two more adds if and only if the allocator gave the first of them the recorded address |
| `FrameEviction.EmptiedListFaults` | FileSystem/avicodelib/singly_linked_list.c:243-263 | it is a fault if and only if the recorded node was freed and neither add got its address |
| `FrameEviction.EmptiedListIsReached` | FileSystem/avicodelib/singly_linked_list.c:243-263 | a run of a new list that ends in that fault |
| `FrameEviction.SelfLinkIsReached` | FileSystem/avicodelib/singly_linked_list.c:243-263 | a run of a new list without a fault that leaves a node linked to itself, and no consistent list |
| `FrameEviction.StuckListIsReached` | FileSystem/avicodelib/singly_linked_list.c:678-694 | an allowed run of a new list after which no lock, unlock or delete ever makes room |
| `SharedList.FrameQueue.DeleteTail` | FileSystem/avicodelib/singly_linked_list.c:291-361 | in place, the eviction of the specification |
| `SharedList.FrameQueue.AddItem` | FileSystem/avicodelib/singly_linked_list.c:196-288 | in place, with the walk to the newest node |
| `SharedList.FrameQueue.LockItem` | FileSystem/avicodelib/singly_linked_list.c:576-668 | in place, with the cursor shortcut and the walk |
| `SharedList.FrameQueue.UnlockItem` | FileSystem/avicodelib/singly_linked_list.c:670-771 | in place |
| `SharedList.FrameQueue.EnableAddItem` | FileSystem/avicodelib/singly_linked_list.c:812-828 | the two limits |
| `SharedList.FrameQueue.MakeRoom` | FileSystem/avicodelib/3516/hisi_ipc.c:214-217 | the loop throws the fewest of the oldest frames away that meet both limits, counted from the lengths, pins and number of the frames |
| `SharedList.FrameQueue.InsertVideoData` | FileSystem/avicodelib/3516/hisi_ipc.c:214-220 | then the frame is appended, and nothing else is evicted |
| `SharedList.LeastRoom` | FileSystem/avicodelib/3516/hisi_ipc.c:214-217 | where the loop stops is the least number of oldest frames whose removal meets both limits |
| `CycleQueue.RunIsFaithful` | FileSystem/avicodelib/buf_array.c:94-200 | over every run of puts, gets and resets: delivered bytes followed by buffered bytes are the accepted bytes, and the item count is puts minus gets modulo one million |
| `CycleQueue.EveryRunIsFaithful` | FileSystem/avicodelib/buf_array.c:94-200 | in particular every run of a new buffer |
| `CycleQueue.FramesComeBack` | FileSystem/avicodelib/buf_array.c:94-188 | any row of frames that fit beside each other comes out of a new buffer one by one, each whole, in the order they were put in |
| `CycleQueue.PutFillsUp` | FileSystem/avicodelib/buf_array.c:145-188 | a put keeps everything, or as much of its beginning as fills the buffer |
| `CycleQueue.GetTakesExactlyIf` | FileSystem/avicodelib/buf_array.c:94-143 | a get has an effect exactly if a frame is counted and what it would take is not empty and below 512 KiB; it takes the oldest bytes, as many as asked for or all |
| `CycleQueue.PutThenGet` | FileSystem/avicodelib/buf_array.c:94-188 | what is put into an empty buffer comes out whole, and leaves it empty |
| `CycleQueue.ItemsAreExact` | FileSystem/avicodelib/buf_array.c:133-138 | the count is exact if and only if fewer than one million frames are inside |
| `CycleQueue.BlockedExactlyIf` | FileSystem/avicodelib/buf_array.c:99-103 | no get has any effect if and only if the number of frames inside is a multiple of one million |
| `CycleQueue.AnnouncedExactlyIf` | FileSystem/avicodelib/buf_array.c:259-265 | an insert is announced exactly if it leaves 10 KiB free, but in a smaller buffer the limit wraps |
| `CycleQueue.AnnouncedPutsFitExactlyIf` | FileSystem/avicodelib/buf_array.c:259-265 | whatever went through the buffer before, every put that `fifo_enable_insert_length` allows is stored whole if and only if the buffer has at least 10 KiB |
| `CycleQueue.AnnouncedPutIsLost` | FileSystem/avicodelib/buf_array.c:259-265 | in every smaller buffer, after one put that fills it |
| `CycleBuffer.SizeTest` | FileSystem/avicodelib/buf_array.c:10-21 | the sizes that are accepted: powers of two, and zero |
| `CycleBuffer.MaskForgets` | FileSystem/avicodelib/buf_array.c:123 | masking a position that has wrapped at 2^32 gives the slot of the unwrapped one |
| `CycleBuffer.RingAfterPut` | FileSystem/avicodelib/buf_array.c:170-173 | the two copies of a put leave the buffered bytes alone and append the new ones |
| `CycleBuffer.RingPieces` | FileSystem/avicodelib/buf_array.c:123-126 | the two copies of a get deliver the oldest bytes |
| `CycleBuffer.PutRefines` | FileSystem/avicodelib/buf_array.c:145-188 | on the fields, a put is a put on the queue |
| `CycleBuffer.GetRefines` | FileSystem/avicodelib/buf_array.c:94-143 | on the fields, a get is a get on the queue |
| `CycleBuffer.Fifo.constructor` | FileSystem/avicodelib/buf_array.c:10-60 | a new buffer is an empty queue |
| `CycleBuffer.Fifo.Put` | FileSystem/avicodelib/buf_array.c:145-188 | in place, a put on the queue, through every wrap of array and position |
| `CycleBuffer.Fifo.Get` | FileSystem/avicodelib/buf_array.c:94-143 | in place, a get on the queue; refused gets change nothing |
| `CycleBuffer.Fifo.Reset` | FileSystem/avicodelib/buf_array.c:191-200 | an empty queue |
| `CycleBuffer.Fifo.EnableInsert` | FileSystem/avicodelib/buf_array.c:259-265 | the announced length against the free space, in unsigned arithmetic |
| `EtcFile.SetThenGet` | FileSystem/avicodelib/config_op.c:286-338 | after setting a value a get returns it, and every other key of every section keeps its value, in all three cases; only the code for another key of a missing section changes |
| `EtcFile.GetBackExactlyIf` | FileSystem/avicodelib/config_op.c:286-338 | a value can be got back if and only if the file does not end inside the line that opens its section |
| `EtcFile.HeaderWithoutNewline` | FileSystem/avicodelib/config_op.c:188-212 | a concrete file that loses the value that is set |
| `EtcFile.NewFileThenGet` | FileSystem/avicodelib/config_op.c:296-306 | a file that did not exist holds the one entry after it was set |
| `EtcFile.SetItemLaw` | FileSystem/avicodelib/config_op.c:256-338 | the law on headers and entries |
| `EtcFile.SetWrites` | FileSystem/avicodelib/config_op.c:286-338 | the text that is written reads as the updated headers and entries |
| `EtcFile.GetReads` | FileSystem/avicodelib/config_op.c:214-239 | a search through the text is a search through its headers and entries |
| `EtcFile.FoundExactlyIf` | FileSystem/avicodelib/config_op.c:214-239 | a value is found exactly if behind the first header of the section, in front of any other, there is an entry with the key; it is the first one's, and the codes are 0, -2 without the header, and -3 |
| `EtcFile.EntryIsRead` | FileSystem/avicodelib/config_op.c:18-65 | blanks around a key do not belong to it, and the value begins right behind the `=` and goes on to the end of the line |
| `EtcFile.HeaderIsRead` | FileSystem/avicodelib/config_op.c:155-186 | blanks may be in front of the bracket and behind it; the name goes on to the closing one, a comment or the end |
| `EtcFile.CommentIsJunk` | FileSystem/avicodelib/config_op.c:18-65 | comments and blank lines are passed over |
| `EtcFile.FirstIs` | FileSystem/avicodelib/config_op.c:188-212 | a line goes up to its newline, is cut after 1023 characters, or ends with the file |
| `EtcFile.EntryRoundTrip` | FileSystem/avicodelib/config_op.c:18-65 | a printed entry is read back for exactly the keys and values that survive it |
| `EtcFile.HeaderRoundTrip` | FileSystem/avicodelib/config_op.c:155-186 | the same for section names |
| `EtcFile.EntriesAreOk` | FileSystem/avicodelib/config_op.c:18-65 | whatever is read as an entry could have been written as one |
| `EtcEditor.GetKeyValue` | FileSystem/avicodelib/config_op.c:18-65 | key and value are cut out of the line buffer in place; an empty key lets the trimming loop clear blanks in front of the buffer too |
| `EtcEditor.GetSectionName` | FileSystem/avicodelib/config_op.c:155-186 | the section name is cut out of the line buffer in place |
| `EtcEditor.LocateSectionIn` | FileSystem/avicodelib/config_op.c:188-212 | the search for a section, copying as it goes |
| `EtcEditor.LocateKeyIn` | FileSystem/avicodelib/config_op.c:67-109 | the search for a key, printing the entries it passes; at the end of the file its code is another than at a header |
| `EtcEditor.GetValue` | FileSystem/avicodelib/config_op.c:214-239 | the code, and the caller's buffer after the bounded copy |
| `EtcEditor.SetValue` | FileSystem/avicodelib/config_op.c:286-338 | the file is replaced by the rewritten text, or made if it does not exist |
| `RateControl.RunConserves` | FileSystem/avicodelib/ratecontrol264.c:108-117 | over any run every bucket gives what it was asked for, but for the error it still holds |
| `RateControl.RoundingErrorStaysBelowOne` | FileSystem/avicodelib/ratecontrol264.c:108-117 | from empty buckets the sums of quantisers and of exact quotients differ by less than one |
| `RateControl.DiffusionConserves` | FileSystem/avicodelib/ratecontrol.c:141-148 | one frame: every error stays in [0, 1), other buckets keep theirs, and nothing is lost |
| `RateControl.RunIsSmooth` | FileSystem/avicodelib/ratecontrol264.c:118-129 | in every frame of a run the quantiser is in its range and one step from the last at most |
| `RateControl.ChangesByOneExactlyIf` | FileSystem/avicodelib/ratecontrol264.c:118-129 | it moves by at most one, whatever is asked for, exactly if it starts no further than one outside its range |
| `RateControl.FeedbackIsNegative` | FileSystem/avicodelib/ratecontrol264.c:64-106 | the more was sent, the coarser the quantiser that is aimed for |
| `RateControl.AverageFeedbackIsNegative` | FileSystem/avicodelib/ratecontrol264.c:64-106 | the larger the average frame, the coarser the quantiser that is aimed for, for any quality between the lowest and 1 and any deviation |
| `RateControl.ScaleIsInverseSquare` | FileSystem/avicodelib/ratecontrol264.c:73-75 | the scale is the square of target over average: twice the average, a quarter of the scale |
| `RateControl.QualityIsRemembered` | FileSystem/avicodelib/ratecontrol264.c:76-106 | the better the quality of the frames was, the finer the quantiser that is aimed for |
| `RateControl.AveragesFollow` | FileSystem/avicodelib/ratecontrol264.c:55-72 | which averages a frame moves, and where to |
| `RateControl.QualityStaysInRange` | FileSystem/avicodelib/ratecontrol264.c:55-63 | while a quantiser above 1 is in use, the averaged quality stays between 0.1 and 1 |
| `RateControl.TruncatedTowardsZero` | FileSystem/avicodelib/ratecontrol264.c:49-53 | the deviation is cut towards zero |
| `RateControl.AskedIsReached` | FileSystem/avicodelib/ratecontrol264.c:118-129 | frames that all ask for one quantiser of the range come one nearer each, and reach it in as many steps as it is away |
| `RateControl.TopNeedsNoBucket` | FileSystem/avicodelib/ratecontrol264.c:107-108 | a quotient too large for a bucket is a whole number, so nothing is lost there either |
| `RateControl.RestIsKept` | FileSystem/avicodelib/ratecontrol264.c:36-129 | frames of exactly the target size keep the controller at rest: same quantiser, averages and rounding errors |
| `RateControl.SmoothedIsBetween` | FileSystem/avicodelib/ratecontrol.c:99-116 | an average moves towards the sample and never past it |
| `RateControl.StaysRunning` | FileSystem/avicodelib/ratecontrol264.c:70-84 | the averages keep the divisions defined |
| `RateController.Controller.constructor` | FileSystem/avicodelib/ratecontrol264.c:3-35 | every field of the initial state |
| `RateController.Controller.Step` | FileSystem/avicodelib/ratecontrol.c:98-158 | in place, one update of the specification, for both controllers |
| `RateController.Controller.Diffuse` | FileSystem/avicodelib/ratecontrol264.c:108-117 | in place, on the array of errors |
| `RateController.Reduce` | FileSystem/avicodelib/ratecontrol.c:24-32 | the loop of `get_framerate` ends with the same fraction in lowest terms |
| `SunLabel.PassesReachFixpoint` | FileSystem/fdiskdll/fdisksunlabel.c:443-472 | seven passes over eight partitions end with no two pieces touching, for every table |
| `SunLabel.PassesKeepSectors` | FileSystem/fdiskdll/fdisksunlabel.c:449-457 | the passes change neither which sectors are covered nor how many there are |
| `SunLabel.MergeKeepsSectorsExactlyIf` | FileSystem/fdiskdll/fdisksunlabel.c:449-457 | a single merge keeps the covered sectors if and only if the partitions touch without wrap-around |
| `SunLabel.MergeKeepsCountsExactlyIf` | FileSystem/fdiskdll/fdisksunlabel.c:449-457 | inside any table a merge keeps how many partitions hold each sector if and only if the two touch without wrap-around, or are not merged |
| `SunLabel.WrappedPiecesMove` | FileSystem/fdiskdll/fdisksunlabel.c:449-457 | a concrete table beyond the last 32-bit sector number for which a merge does |
| `SunLabel.FetchIsExact` | FileSystem/fdiskdll/fdisksunlabel.c:398-425 | as long as disjoint partitions fill the disk from both ends, the window of `fetch_sun` is exactly the free sectors |
| `SunLabel.ContinuousExactlyIf` | FileSystem/fdiskdll/fdisksunlabel.c:398-425 | the window stays continuous exactly if no partition has free sectors on both sides when it is read |
| `SunLabel.MergePasses` | FileSystem/fdiskdll/fdisksunlabel.c:443-472 | the triple loop, in place |
| `SunLabel.FetchWindow` | FileSystem/fdiskdll/fdisksunlabel.c:398-425 | the loop of `fetch_sun` |
| `LabelSums.SunSealExactlyIf` | FileSystem/fdiskdll/fdisksunlabel.c:738-745 | a Sun label passes its check if and only if its checksum is the one that writing stores |
| `LabelSums.XorOfConcat` | FileSystem/fdiskdll/fdisksunlabel.c:738-744 | the exclusive-or of a row of words is that of its two parts, wherever it is cut |
| `LabelSums.XorOfOne` | FileSystem/fdiskdll/fdisksunlabel.c:738-744 | and of one word the word |
| `LabelSums.SunSum` | FileSystem/fdiskdll/fdisksunlabel.c:738-744 | the exclusive-or of the words in front of the checksum |
| `LabelSums.SunCheck` | FileSystem/fdiskdll/fdisksunlabel.c:129-132 | the same taken from the other end, over all words |
| `SgiLabel.OverlapIsFoundExactlyIf` | FileSystem/fdiskdll/fdisksgilabel.c:425-559 | the overlap branch is taken if and only if two partitions share a sector, whether or not the whole disk sorts first |
| `SgiLabel.FreeListIsComplement` | FileSystem/fdiskdll/fdisksgilabel.c:425-559 | of disjoint partitions the result is the number of free sectors up to the end of the whole-disk entry, or of the disk where there is none in front, and the free list is the complement in ascending order, in no more slots than there are entries |
| `SgiLabel.NegativeMeansOverlap` | FileSystem/fdiskdll/fdisksgilabel.c:497-516 | a negative result means an overlap, for every table |
| `SgiLabel.EmptyLabel` | FileSystem/fdiskdll/fdisksgilabel.c:452-457 | of no partition the whole disk is free |
| `SgiLabel.OverlapCanLookFilled` | FileSystem/fdiskdll/fdisksgilabel.c:497-516 | but not the other way: two concrete tables |
| `SgiLabel.NegativeExactlyIf` | FileSystem/fdiskdll/fdisksgilabel.c:497-536 | the result is negative exactly if there is an overlap and fewer sectors are free behind the last one than all before it counted for, read off the starts and lengths of the table |
| `SgiLabel.ScanCounts` | FileSystem/fdiskdll/fdisksgilabel.c:497-516 | the running sum of the loop is that count, for every table of partitions on the disk |
| `SgiLabel.FirstPartitionIsIgnored` | FileSystem/fdiskdll/fdisksgilabel.c:464-486 | without a whole-disk entry in front the first partition is not looked at |
| `SgiLabel.WholeDiskSortsFirst` | FileSystem/fdiskdll/fdisksgilabel.c:394-412 | a whole-disk entry sorts in front of everything inside it that does not have its extent |
| `SgiLabel.TieIsOpen` | FileSystem/fdiskdll/fdisksgilabel.c:394-412 | a partition that has its extent may sort in front of it too |
| `SgiLabel.CanBeSorted` | FileSystem/fdiskdll/fdisksgilabel.c:394-412 | every table has an order that the comparison allows |
| `SgiLabel.FreeBlocks.Check` | FileSystem/fdiskdll/fdisksgilabel.c:425-559 | the scan, in place, never needs more than the seventeen slots |
| `SgiLabel.FreeBlocks.Add` | FileSystem/fdiskdll/fdisksgilabel.c:45-52 | the next free slot |
| `SgiLabel.FreeBlocks.Clear` | FileSystem/fdiskdll/fdisksgilabel.c:54-60 | all slots are free |
| `LabelSums.SgiSealExactlyIf` | FileSystem/fdiskdll/fdisksgilabel.c:364-372 | an SGI label sums to zero if and only if its checksum is the one that writing stores, in either byte order |
| `LabelSums.SumIsNegated` | FileSystem/fdiskdll/fdisksgilabel.c:143-153 | the sum is the total of the words, in either byte order, negated modulo 2^32 |
| `LabelSums.SgiSum` | FileSystem/fdiskdll/fdisksgilabel.c:143-153 | the negated sum of all words modulo 2^32 |
| `DirectFile.RunWritesAll` | FileSystem/filesystem/DFile.c:229-334 | any run of writes that each reach their page end leaves exactly their bytes in front of the position, in whole pages |
| `DirectFile.FileHoldsStream` | FileSystem/filesystem/DFile.c:229-334 | from an empty file: the bytes written, then less than a page of padding |
| `DirectFile.WriteAppends` | FileSystem/filesystem/DFile.c:229-334 | one write of up to 360 KiB appends its data, returns the new position and never reads a short page; a larger one changes nothing |
| `DirectFile.PaddingIs` | FileSystem/filesystem/DFile.c:260-325 | the bytes behind the stream after any write: what the static buffer held there if the write began at a page boundary, zeros if not |
| `DirectFile.PaddingIsBlankExactlyIf` | FileSystem/filesystem/DFile.c:260-325 | when they are blank, in terms of the position and the buffer before the write: both ways |
| `DirectFile.PaddingIsStale` | FileSystem/filesystem/DFile.c:260-270 | two writes after which the padding repeats the first of them |
| `DirectWriter.Descriptor.Write` | FileSystem/filesystem/DFile.c:229-334 | the seeks, reads, copies and writes, in place |
| `DirectWriter.Descriptor.LoadPage` | FileSystem/filesystem/DFile.c:286-301 | the open page is read back |
| `Thumbnail.ScanReports` | FileSystem/avicodelib/3516/sample_comm_venc.c:199-244 | signed or not, the scan reports exactly what the markers that it sees say |
| `Thumbnail.ScanIsExact` | FileSystem/avicodelib/3516/sample_comm_venc.c:199-244 | it stops at the first end marker that follows some start marker, and reports the last start marker in front of it; with unsigned characters every marker is seen |
| `Thumbnail.PictureExactlyIf` | FileSystem/avicodelib/3516/sample_comm_venc.c:199-285 | what comes out: from the reported start, or else the beginning, up to the end marker, unless that is empty, more than 64 KiB, or the whole file |
| `Thumbnail.FindMarks` | FileSystem/avicodelib/3516/sample_comm_venc.c:199-244 | the eight-byte window, restarted again and again, finds what a scan of the whole sequence finds |
| `Thumbnail.NoStartIsNoObstacle` | FileSystem/avicodelib/3516/sample_comm_venc.c:199-285 | a file without a start marker still yields everything up to its last end marker |
| `Thumbnail.SignedAgreesExactlyIf` | FileSystem/avicodelib/3516/sample_comm_venc.c:222-242 | with signed characters the report is the same if and only if neither of the two markers to be reported ends at a byte whose number is a multiple of seven |
| `Thumbnail.SignedMisses` | FileSystem/avicodelib/3516/sample_comm_venc.c:222-242 | a start marker there, and the picture that is cut out instead |
| `ArchiveDisk.RoundTrip` | tool/filesplit/audio.c:37-318 | packing a tree and unpacking it where nothing was gives back the tree if and only if no path and no file is too large, nor the archive, its root is there or it is empty, and no packed name has a backslash |
| `ArchiveDisk.UnpackedExactlyIf` | tool/filesplit/audio.c:200-318 | the same of unpacking, where directories and files can be made only in directories that are there |
| `ArchiveDisk.PlainTreeIsUnpacked` | tool/filesplit/audio.c:200-318 | the two sweeps make exactly the directories and files of the tree |
| `ArchiveDisk.RootlessTree` | tool/filesplit/audio.c:200-318 | without the root nothing is made, and the program ends at the first file |
| `ArchiveDisk.MissingRootStops` | tool/filesplit/audio.c:285-290 | a concrete tree and disk for which it does |
| `ArchiveDisk.BackslashStops` | tool/filesplit/audio.c:186-198 | a file whose name has a backslash, and no directory for the path it becomes |
| `ArchiveDisk.BackslashOverwrites` | tool/filesplit/audio.c:186-198 | the same beside a directory that has the file of that path: one is written over the other |
| `Archive.EveryPathHasItsDirectory` | tool/filesplit/audio.c:123-184 | the directory of every record, everything in front of the last slash, is the packed one or is recorded before it |
| `Archive.RecordedExactlyIf` | tool/filesplit/audio.c:123-184 | a record is in the archive if and only if it stands for an item of the tree, under names without a leading dot |
| `Archive.PackedExactlyIf` | tool/filesplit/audio.c:37-121 | a tree is packed if and only if the paths of its visible items are below 60 bytes and its files below 20 MiB |
| `Archive.HeaderLayout` | tool/filesplit/audio.c:37-121 | where in the 208 bytes of a header the path, the kind and the length are |
| `Archive.RootIsNotMade` | tool/filesplit/audio.c:123-184 | the packed directory itself is not recorded |
| `Archive.Pack` | tool/filesplit/audio.c:123-184 | the recursion over the tree appends exactly its records |
| `Archive.WriteRecord` | tool/filesplit/audio.c:37-121 | one header, and a file's bytes |
| `Archive.ReadHeader` | tool/filesplit/audio.c:250-316 | a header read back, and the distance to the next |
| `ArchiveDisk.MakeDirs` | tool/filesplit/audio.c:250-271 | the first sweep, in place on the disk, ends after exactly all bytes |
| `ArchiveDisk.MakeFiles` | tool/filesplit/audio.c:273-313 | the second sweep likewise, or up to the file that cannot be made |
| `ArchiveDisk.Unpack` | tool/filesplit/audio.c:200-318 | both, or the refusal of an archive that is too large |

## Left out

Contracts that are weaker than the code on some inputs:

- AesEngine.Engine.AesEncrypt: for 128-bit keys only; for longer ones the copy loop writes beyond `g_in`, which has no defined result. The cipher theorems hold for every key length.
- AesEngine.Engine.AesDecrypt: the same.
- AesEngine.RoundConstants: the eleven entries a key expansion can reach; the rest of the 255-entry table is not modelled.
- FatLayout.RefusalIsTheLimit: where the first estimate did not overflow; beyond it the tests mean nothing, as `OverflowIsNotNoticed` shows.
- MkDosFs.DosFormatter.MakeFat: without the low-memory option, a FAT of at least one sector; for none the source writes beyond an empty buffer.
- FrameRuns.RunsAreSafe: deletes and adds are assumed to leave a frame once `pListHead` is set, and readers to unlock what they locked, once; `EmptiedListIsRightExactlyIf` says when the list comes right otherwise.
- FrameEviction.RoomExactlyIf: for less than 4 GiB of frames; `all_data_size` wraps beyond.
- SharedList.FrameQueue.InsertVideoData: for pinned bytes below the byte limit and at least three items; otherwise the loop does not end.
- CycleQueue.FramesComeBack: frames of at least one byte and less than 512 KiB, fewer than a million of them; `GetTakesExactlyIf` and `BlockedExactlyIf` say what happens to others.
- CycleBuffer.Fifo.constructor: the smallest `int` passes the size test too; the source then asks for that much memory and gives up.
- EtcFile.SetThenGet: lines of at most 1021 characters without zero bytes, and keys, values and section names that survive being printed (`EntryRoundTrip`, `HeaderRoundTrip`); longer lines are cut in pieces by `fgets`.
- EtcEditor.LocateKeyIn: what a line with an empty key does to the memory in front of the line buffer is stated for `GetKeyValue` only.
- RateControl.FeedbackIsNegative: exact real arithmetic; floating-point rounding is not modelled in either controller.
- RateController.Controller.constructor: rates, periods and delays are at least one, as the divisions need.
- SgiLabel.FreeBlocks.Check: sector numbers below 2^31; larger ones are read as negative `int` values by the source. The order of the partitions is any that `qsort` may produce.
- SunLabel.PassesKeepSectors: partitions that end below 2^32; `MergeKeepsCountsExactlyIf` says when a merge keeps its sectors beyond, and `WrappedPiecesMove` shows that it may not. The fixpoint holds for all.
- DirectFile.RunWritesAll: writes that start inside a page reach its end, which the source relies on; a shorter one copies with a negative length.
- ArchiveDisk.Unpack: bytes that are an archive; a header of another kind makes the source loop for ever.
- ArchiveDisk.RoundTrip: onto a disk that has nothing below the root of the tree yet, and for trees whose directories have no two entries of one name. Paths are compared as they are written.
- Thumbnail.NoStartIsNoObstacle: for files without any start marker; a start marker behind the last end marker is a failure, which `Picture` models.

Not modelled:

- Foreign calls, ioctls, sockets, threads and the watchdog; functions under a mutex are atomic steps, and file and device contents are values.
- In `mkdosfs.c`: the Atari branch, boot code, time stamps, sector sizes other than 512 in the machine arithmetic (the capacity theorem has any), bad-block marking and the root directory's contents.
- In `singly_linked_list.c`: `sll_add_list_item`, which copies the data and is otherwise the same, `sll_get_list_item`, `sll_get_last_key_frame_list_item_no` and allocation failures.
- In `hisi_ipc.c`: everything but the eviction and insertion of a frame.
- In `config_op.c`: `co_SetValueToEtcFile2`, and files that cannot be opened or written.
- In `ratecontrol.c`: the scaling of large fractions after the reduction loop; `ratecontrol-mpeg4.c` is the same algorithm with prints.
- In the label verifiers: printing, sorting and the boundary warnings, and everything that asks the user.
- In `DFile.c`: `DF_Write2`, and failing reads and writes.
- In `sample_comm_venc.c`: the interleaving of colour planes and everything that talks to the encoder.
- In `audio.c` of `filesplit`: failing reads and writes; a path longer than the 256-byte buffer.
