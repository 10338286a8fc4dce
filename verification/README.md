# Verified model of the FatFs engine

The data logger keeps its external files on a FAT volume that FatFs R0.12c (`source/middleware/FatFS/ff.c`)
manages over an SD card. This project models that engine as it is configured here: FAT12, FAT16 and
FAT32, long file names up to 255 characters, a private sector buffer per file, a lock table for open
objects, fast seek and formatting. The sector size is a parameter (512, 1024, 2048 or 4096).

The engine updates its objects in place, so the model does too: `FATFS`, `FIL`, `DIR`, the lock table and
the disk are classes, and each engine function is a method with the same loops, branches, masks and
32-bit arithmetic. Every method is tied to a value: the volume image (the medium overlaid with the dirty
window), the FAT as a map from cluster to value, a file as a byte sequence with a pointer, a directory as
a sequence of 32-byte entries, the lock table as the multiset of open handles. Lemmas about those values
carry the properties. The disk may fail at any transfer (`mayFail`); contracts say what still holds then.

## Layers

| layer | modules |
|---|---|
| machine arithmetic, bytes | `Arith`, `Bytes` |
| block device, layout, packed FAT entries | `Media`, `Geometry`, `FatEntries` |
| one-sector window, `get_fat`, `put_fat` | `Window`, `FatTable` |
| chains, allocator and its runs | `Chains`, `ChainEdits`, `Allocator`, `AllocatorRuns` |
| files: values, reading, writing, seeking, syncing | `FileLayout`, `FileBytes`, `FileModel`, `Files`, `LinkMap`, `Seek`, `FastSeek`, `FileRuns`, `Sync` |
| mounting and formatting | `BootBytes`, `Mount`, `MkfsLayout`, `MkfsSizes`, `MkfsUnits`, `BootRecord`, `Mkfs`, `FreshVolume` |
| directories and long names | `DirTable`, `DirStretch`, `DirWalk`, `DirEntries`, `DirOps`, `Lfn`, `LfnScan`, `LfnSound`, `LfnText`, `Lookup`, `ReadLook`, `DirScan` |
| open objects, wildcards | `Locks`, `LockRuns`, `Pattern` |

## Main results

- **Metadata reaches the medium in program order.** `Window.FatFs.Valid` carries a journal: every state the
  medium has been in since mounting is the metadata image of some earlier step of the program, and those
  steps never run backwards. Every method of the engine keeps it, on a disk that may fail.
- **The packed FAT is a map.** `PutFat` sets one entry and no other, for FAT12 nibbles across two sectors,
  FAT16, and FAT32 with its reserved bits kept; flushing makes both FAT copies equal.
- **The allocator never cross-links.** Every single `put_fat` inside `create_chain` and `remove_chain` leaves
  a well-formed FAT, also when a disk error cuts the call short, and so do `f_write`, `f_lseek` and the
  directory functions that call them. Whole runs refine an abstract allocator, and the free count stays exact
  or unknown. A power cut at any moment leaves a well-formed FAT on the medium on FAT16, on FAT32 and on FAT12
  with up to 2 * ss / 3 entries. On larger FAT12 volumes this is false, because an entry may lie in two
  sectors: what a power cut then finds is a well-formed FAT or one torn between the two bytes of one entry,
  `TornIsWellFormed` says for every value stored exactly when that is well formed all the same, and
  `TornWitness` gives two states of `create_chain` in which it is not.
- **An open file is a byte sequence with a pointer.** Every run of reads, writes and seeks refines it, and no
  other file of the volume changes. After `f_sync` the medium alone holds the file, its directory entry
  has changed exactly in the bytes named, and a fresh mount reads the same bytes.
- **Fast seek refines slow seek.** The link map is an exact run-length encoding of the chain, and both seeks
  run side by side end at the same pointer, cluster and buffered sector.
- **What is formatted mounts.** The layout trials of `f_mkfs` end, succeed exactly on the volumes that have a
  layout (with the cluster size left open and both FAT16 and FAT32 allowed: on every volume of 128 sectors or
  more), and `find_volume` recovers the same layout, with an empty FAT and the right free count.
- **What mounts, by its bytes.** Which sector starts a volume, which boot records are accepted and which layout
  they give is stated over the bytes of the medium, both ways.
- **Accepted geometry is safe exactly below 2^32 sectors.** A boot record that `find_volume` accepts gives a
  sound layout if and only if the volume's extent does not wrap; `WrappedFatArea` is an accepted record whose
  clusters lie on its FAT.
- **Directories keep their order.** Insertion takes the first fit, keeps every entry in use in place and
  reachable, and keeps "after the first end mark only end marks"; both ways of positioning agree.
- **Directory scans by the entries alone.** `dir_find` answers with the first entry that matches by its short
  name or by a complete long name in front of it, `dir_read` with the first file or directory, and the long name
  it reports is the text of a complete run of valid pieces; both statements hold for every listing.
- **Long names round-trip.** A registered name is read back exactly up to 253 characters and found up to 254;
  both limits are part of the statements. A long-name hit in any directory spells the sought name.
- **The lock table is a readers-writer lock** with one slot per object, on all runs with at most 255 readers;
  `ReaderLimit` shows the bound is exact.
- **`pattern_matching` is complete**: it answers true exactly when the name matches under the declarative
  meaning of `?` and `*`, and terminates.

Where code and comments disagree the code is followed: the FAT type thresholds 0xFF5 and 0xFFF5 are the
engine's own and differ from section "FAT Type Determination" of the FAT32 File System Specification
(ff.c:327-329 says so), and a name of 254 or 255 characters is stored but not read back although `_MAX_LFN` is 255.

Products and quotients of two variables are defined by recursion (`Times`, `Quotient`, `Remainder` in `Arith`)
where the layout of a volume is defined, and turned into the operators by the lemma `Arithmetic` in the proofs
that need it; all other proofs stay linear.

To check the project: `dafny verify dfyconfig.toml`.

## Model

| member | source | states |
|---|---|---|
| `Arith.MaskIsMod` | source/middleware/FatFS/ff.c:1542 | the cluster-boundary mask `& (csize - 1)` is a remainder for every power of two |
| `Arith.Pow2Test` | source/middleware/FatFS/ff.c:3127 | `n & (n - 1)` is 0 exactly on powers of two, as the cluster size check needs |
| `Arith.ClearLow` | source/middleware/FatFS/ff.c:4078 | `& ~(n - 1)` rounds down to a multiple of n, for every power of two n |
| `Bytes.DwordRoundTrip` | source/middleware/FatFS/ff.c:622-667 | a stored 32-bit value loads back cut to 32 bits |
| `Bytes.LittleEndian` | source/middleware/FatFS/ff.c:613-631 | words and double words are loaded lowest byte first |
| `Bytes.StoreWord` | source/middleware/FatFS/ff.c:653-658 | stores exactly the two bytes of the word and no other |
| `Bytes.StoreDword` | source/middleware/FatFS/ff.c:660-667 | stores exactly the four bytes of the double word and no other |
| `Media.Disk.Read` | source/middleware/FatFS/ff.c:925 | delivers the sector, or fails only on an unreliable disk or outside the medium |
| `Media.Disk.Write` | source/middleware/FatFS/ff.c:894 | replaces one sector and records the new state of the medium |
| `Media.Disk.ReadMany` | source/middleware/FatFS/ff.c:3551 | delivers the concatenation of consecutive sectors |
| `Media.Disk.WriteMany` | source/middleware/FatFS/ff.c:3666 | replaces exactly the run of sectors |
| `Media.FlatChop` | source/middleware/FatFS/ff.c:3661-3666 | cutting data into sectors and joining them is the identity |
| `Window.FatFs.constructor` | source/middleware/FatFS/ff.c:3148-3187 | a mounted volume starts in order: its image is the medium, its journal has one step |
| `Window.SyncWindow` | source/middleware/FatFS/ff.c:883-907 | keeps the volume image and the journal whatever the disk does; on success nothing is pending, and without errors the medium got the sector and, if it is a FAT sector, its copy |
| `Window.CopyMirrors` | source/middleware/FatFS/ff.c:898-903 | without errors the sector is written to the second FAT, exactly for sectors of the first; the volume image stays |
| `Window.FlushMirrors` | source/middleware/FatFS/ff.c:898-903 | if the FATs agreed but for the pending sector, they agree everywhere after the flush |
| `Window.MoveWindow` | source/middleware/FatFS/ff.c:912-933 | the window then holds the image's bytes of that sector, and the image itself, the journal and the FAT mirror are kept |
| `Window.Touch` | source/middleware/FatFS/ff.c:1123-1124 | a window update is one step of the journal, and the image is the edited one |
| `Window.DirectWrite` | source/middleware/FatFS/ff.c:3661-3666 | file data past the window changes the image in exactly that run of sectors and leaves the FAT and the journal in order |
| `Window.ProgramOrder` | source/middleware/FatFS/ff.c:883-933 | every state the medium has been in is, sector by sector, the metadata image of some step of the program, and those steps never run backwards |
| `Window.JournalWrite` | source/middleware/FatFS/ff.c:883-907 | writing the window extends the medium's history by a state that matches the current step: metadata reach the medium in program order |
| `Window.JournalBypass` | source/middleware/FatFS/ff.c:3661-3666 | writing file data around the window keeps the history in program order for every other sector |
| `Window.SyncFs` | source/middleware/FatFS/ff.c:944-975 | afterwards nothing is pending and, on FAT32, the FSINFO sector on the medium holds the current counts; the image stays |
| `Window.WriteFsInfo` | source/middleware/FatFS/ff.c:954-966 | the FSINFO sector on the medium holds the free count and last cluster |
| `Window.FsInfoReadsBack` | source/middleware/FatFS/ff.c:956-961 | the FSINFO record has the three signatures that mounting checks and gives both counts back |
| `Geometry.FatTest` | source/middleware/FatFS/ff.c:898 | the unsigned test `winsect - fatbase < fsize` holds exactly for sectors of the first FAT |
| `Geometry.ClusterSectors` | source/middleware/FatFS/ff.c:983-991 | `clust2sect` is non-zero exactly for valid clusters, whose sectors then lie inside the data area |
| `Geometry.ClustersDisjoint` | source/middleware/FatFS/ff.c:988-990 | different clusters have no sector in common |
| `Geometry.DataApart` | source/middleware/FatFS/ff.c:988-990 | no data sector is a FAT sector, a FAT copy or the FSINFO sector |
| `FatEntries.PutGet` | source/middleware/FatFS/ff.c:1091-1126 | setting an entry makes it read back cut to its width, keeps every other entry, keeps the reserved bits of FAT32, and touches the first FAT only |
| `FatEntries.PutGet12` | source/middleware/FatFS/ff.c:1093-1105 | the same for FAT12 entries that share a byte and straddle sectors |
| `FatEntries.PutGet32` | source/middleware/FatFS/ff.c:1114-1125 | the top four bits of a FAT32 entry are kept, and no other entry changes in any bit |
| `FatEntries.MergedNibbles` | source/middleware/FatFS/ff.c:1097-1103 | the merged bytes hold the new value and the neighbour's nibble |
| `FatEntries.FatAfterPut` | source/middleware/FatFS/ff.c:1081-1129 | the FAT as a map is updated at one key |
| `FatEntries.TornPut12` | source/middleware/FatFS/ff.c:1093-1105 | between the two byte stores of any value a FAT12 entry reads the new low part under the old high part |
| `FatEntries.FatAfterHalf` | source/middleware/FatFS/ff.c:1093-1105 | in that state the FAT as a map differs from the old one in that entry only |
| `FatEntries.FirstStraddle` | source/middleware/FatFS/ff.c:1094-1100 | which entries lie in two sectors, and that a FAT has none exactly up to 2 * ss / 3 entries |
| `FatTable.GetFat` | source/middleware/FatFS/ff.c:1001-1069 | the entry of a valid cluster, 1 for a cluster out of range, 0xFFFFFFFF only on a disk error; the volume image stays |
| `FatTable.PutFat` | source/middleware/FatFS/ff.c:1081-1129 | internal error exactly for a cluster out of range; on success the FAT is the old map with one key updated; nothing outside the FAT moves; the mirror is kept |
| `FatTable.GetFat12` | source/middleware/FatFS/ff.c:1018-1025 | a 12-bit entry is read through two window loads |
| `FatTable.GetFat16` | source/middleware/FatFS/ff.c:1027-1030 | a 16-bit entry |
| `FatTable.GetFat32` | source/middleware/FatFS/ff.c:1032-1035 | a 28-bit entry |
| `FatTable.EntryBytes12` | source/middleware/FatFS/ff.c:1018-1025 | a 12-bit entry by the bytes of the FAT sectors: first byte and low half of the second for even clusters, high half of the first and the second byte for odd ones |
| `FatTable.EntryBytes16` | source/middleware/FatFS/ff.c:1027-1030 | a 16-bit entry by its two bytes, lowest first |
| `FatTable.EntryBytes32` | source/middleware/FatFS/ff.c:1032-1035 | a 28-bit entry by its four bytes, lowest first, without the top four bits |
| `FatTable.PutFat12` | source/middleware/FatFS/ff.c:1093-1105 | on success the entry is set; a disk error leaves the FAT alone or, for an entry in two sectors, torn, and records which |
| `FatTable.PutFat16` | source/middleware/FatFS/ff.c:1107-1112 | on success the entry is set in one journal step; on a disk error nothing has changed |
| `FatTable.PutFat32` | source/middleware/FatFS/ff.c:1114-1125 | the same, with the reserved bits merged |
| `Chains.NoCycle` | source/middleware/FatFS/ff.c:1287-1328 | a well-formed FAT has no cycle |
| `Chains.ChainExists` | source/middleware/FatFS/ff.c:1297-1328 | from every cluster in use following links ends at an end mark |
| `Chains.ChainUnique` | source/middleware/FatFS/ff.c:1297-1328 | a chain is determined by its first cluster |
| `Chains.ChainIsDistinct` | source/middleware/FatFS/ff.c:1297-1328 | a chain visits no cluster twice |
| `Chains.HeadsApart` | source/middleware/FatFS/ff.c:1287-1328 | chains with heads that nothing links to share no cluster |
| `Chains.MarkEnd` | source/middleware/FatFS/ff.c:1412 | the first `put_fat` of `create_chain` keeps the FAT well formed |
| `Chains.LinkEnd` | source/middleware/FatFS/ff.c:1413-1415 | the second `put_fat` of `create_chain` keeps the FAT well formed |
| `Chains.FreeHead` | source/middleware/FatFS/ff.c:1302 | each `put_fat` of `remove_chain` keeps the FAT well formed, and the next cluster becomes a head |
| `Chains.FreeCountUpdate` | source/middleware/FatFS/ff.c:1305-1308 | the number of free clusters after one entry changed |
| `ChainEdits.ReleaseWhole` | source/middleware/FatFS/ff.c:1296-1328 | freeing a chain takes one step per cluster, frees exactly the chain, and every step leaves a well-formed FAT |
| `ChainEdits.RemoveTail` | source/middleware/FatFS/ff.c:1289-1328 | cutting a chain frees exactly the tail, leaves the front a complete chain, raises the free count by the length of the tail, and leaves every other chain |
| `ChainEdits.Stretch` | source/middleware/FatFS/ff.c:1412-1416 | the chain grows by exactly the new cluster, both steps are well formed, no other chain changes |
| `ChainEdits.StartChain` | source/middleware/FatFS/ff.c:1412-1416 | a new chain of one cluster, no other chain changes |
| `ChainEdits.BumpedCounts` | source/middleware/FatFS/ff.c:1305-1308 | a right free count stays right while a chain is freed, an unknown one stays unknown |
| `Allocator.MarksReadBack` | source/middleware/FatFS/ff.c:327-329 | the end mark reads back as 0xFFF, 0xFFFF or 0x0FFFFFFF, at or above the number of entries and below the disk error value, every valid link unchanged |
| `Allocator.SearchStep` | source/middleware/FatFS/ff.c:1400-1411 | one step of the circular search: it has found the first free cluster, met an invalid entry, or looked at every cluster |
| `Allocator.FindFree` | source/middleware/FatFS/ff.c:1400-1411 | the circular search ends; 0 means that no cluster is free, otherwise the result is the first free cluster after the start |
| `Allocator.CreateChain` | source/middleware/FatFS/ff.c:1351-1426 | 0 only if no cluster is free; an existing successor is returned and nothing changes; otherwise the first free cluster behind the given one, or behind the last allocation if that is valid, is marked, linked, and counted, in that order; a disk error leaves a prefix of those steps, on FAT12 perhaps with a torn one behind it |
| `Allocator.MarkAndLink` | source/middleware/FatFS/ff.c:1412-1415 | the FATs on the way are the marked one and then the linked one, a disk error leaves a prefix of them |
| `Allocator.FreeOne` | source/middleware/FatFS/ff.c:1297-1308 | one pass reads the link, zeroes the entry and counts it |
| `Allocator.FreeWalk` | source/middleware/FatFS/ff.c:1296-1328 | the loop ends on every FAT, well formed or not, and goes through exactly the FATs of `Release`, or a prefix of them if the disk fails |
| `Allocator.RemoveChain` | source/middleware/FatFS/ff.c:1271-1345 | internal error exactly for a cluster out of range or an invalid entry on the way; on success the FATs on the way, the final FAT and the free count are those of cutting and releasing; otherwise a prefix of those FATs |
| `Allocator.CutShortSafe` | source/middleware/FatFS/ff.c:1271-1426 | a call that a disk error cut short leaves well-formed FATs, but for a torn last one on FAT12 |
| `Allocator.CallIsSafe` | source/middleware/FatFS/ff.c:1351-1426 | whatever `create_chain` answers on a well-formed FAT, every FAT on the way is well formed, but for a torn last one on FAT12 |
| `AllocatorRuns.GrowKeeps` | source/middleware/FatFS/ff.c:1412-1421 | every step of `create_chain` is well formed, owned chains stay owned, and the free count falls by one |
| `AllocatorRuns.CutKeeps` | source/middleware/FatFS/ff.c:1289-1308 | every step of `remove_chain` is well formed, all other owned chains survive |
| `AllocatorRuns.CutRest` | source/middleware/FatFS/ff.c:1289-1328 | what `remove_chain` frees is the rest of that chain and nothing else |
| `AllocatorRuns.WellFormedUpdate` | source/middleware/FatFS/ff.c:1081-1129 | storing any value in any entry keeps a FAT well formed if and only if it frees no linked cluster and links only to a cluster in use that no other one links to and that does not lead back |
| `AllocatorRuns.CrashStates` | source/middleware/FatFS/ff.c:1081-1426 | what a power cut finds is a well-formed FAT or, on FAT12, what one reads between the two byte stores of an entry in two sectors |
| `AllocatorRuns.CrashSafe` | source/middleware/FatFS/ff.c:1289-1426 | every state the medium has been in holds a well-formed FAT on FAT16, on FAT32, and on FAT12 with up to 2 * ss / 3 entries |
| `AllocatorRuns.TornIsWellFormed` | source/middleware/FatFS/ff.c:1093-1105 | such a torn FAT, whatever was being stored, is well formed if and only if the torn value may stand in its entry |
| `AllocatorRuns.TornWitness` | source/middleware/FatFS/ff.c:1399-1415 | two concrete FAT12 states of `create_chain` that are torn into links to free clusters: the end mark on cluster 341, and the link from cluster 682 to 0x302 |
| `AllocatorRuns.RunGrow` | source/middleware/FatFS/ff.c:1351-1426 | `create_chain` on a healthy volume is a step of the abstract allocator and keeps it healthy; a disk error leaves the FATs safe |
| `AllocatorRuns.RunCut` | source/middleware/FatFS/ff.c:1271-1345 | `remove_chain` on a healthy volume is a step of the abstract allocator and keeps it healthy; a disk error leaves the FATs safe |
| `AllocatorRuns.RunAllocator` | source/middleware/FatFS/ff.c:1271-1426 | every run refines the abstract allocator; all FATs on the way are well formed, after a disk error too, the free count stays exact or unknown, the mirror is kept |
| `Files.Fil.constructor` | source/middleware/FatFS/ff.c:3445-3460 | an opened file holds the first `size` bytes of its clusters, pointer 0 |
| `FileModel.WriteBackKeeps` | source/middleware/FatFS/ff.c:3569-3572 | writing back the dirty buffer changes nothing the file holds |
| `FileModel.LoadKeeps` | source/middleware/FatFS/ff.c:3567-3577 | loading another sector into a clean buffer changes nothing the file holds |
| `FileModel.StageKeeps` | source/middleware/FatFS/ff.c:3689-3695 | on the growing edge the sector need not be read: the file's bytes stay |
| `FileModel.PutKeeps` | source/middleware/FatFS/ff.c:3697-3705 | copying into the buffer overwrites exactly that slice of the file |
| `FileModel.DirectKeeps` | source/middleware/FatFS/ff.c:3661-3681 | a direct multi-sector write overwrites exactly that slice, a buffered sector inside the run included |
| `FileModel.ReadRun` | source/middleware/FatFS/ff.c:3546-3564 | a direct read patched with the dirty buffer is exactly that slice of the file |
| `FileModel.ReadPart` | source/middleware/FatFS/ff.c:3579-3585 | bytes taken from the buffer are the file's bytes at the pointer |
| `FileModel.BufferInRun` | source/middleware/FatFS/ff.c:3558 | the unsigned test `fp->sect - sect < cc` finds exactly a buffered sector of the run |
| `FileModel.GrowKeepsFile` | source/middleware/FatFS/ff.c:3629-3648 | taking a free cluster leaves the file's bytes |
| `FileModel.OthersWrite` | source/middleware/FatFS/ff.c:3653-3666 | writing inside the file's clusters changes no other chain and none of its data |
| `FileModel.OthersGrow` | source/middleware/FatFS/ff.c:3629-3648 | growing the file changes no other chain and none of its data |
| `FileModel.ExtendSize` | source/middleware/FatFS/ff.c:4123-4126 | raising the size keeps the old bytes in front |
| `FileModel.SetPointer` | source/middleware/FatFS/ff.c:4115-4138 | the pointer may go to a sector boundary or into the buffered sector without changing the file |
| `Files.NextForRead` | source/middleware/FatFS/ff.c:3526-3542 | at a cluster boundary the next cluster is that of the pointer, from the link map or from the FAT |
| `Files.SeekSectorForRead` | source/middleware/FatFS/ff.c:3524-3545 | the sector computed with `clust2sect` and the mask is the sector of the file at the pointer |
| `Files.TakeDirect` | source/middleware/FatFS/ff.c:3546-3564 | the bytes handed over are the slice of the file |
| `Files.FlushBuf` | source/middleware/FatFS/ff.c:3569-3572 | afterwards the buffer is clean, the file, the FAT and every other file as before |
| `Files.ReadSome` | source/middleware/FatFS/ff.c:3522-3587 | one pass of the loop delivers a non-empty slice at the pointer and moves it on |
| `Files.FRead` | source/middleware/FatFS/ff.c:3500-3590 | the slice of the file at the pointer, cut at its end; a blocked or write-only file is refused and unchanged; no other file changes |
| `Files.StretchFile` | source/middleware/FatFS/ff.c:3629-3643 | `create_chain` for the file follows the chain or extends it by one cluster; 0 only if the volume is full |
| `Files.SeekSectorForWrite` | source/middleware/FatFS/ff.c:3626-3660 | the sector of the pointer, in a cluster allocated if needed, the dirty buffer flushed |
| `Files.WriteDirect` | source/middleware/FatFS/ff.c:3661-3682 | overwrites exactly the slice |
| `Files.StageForWrite` | source/middleware/FatFS/ff.c:3689-3695 | the buffer stands for the sector at the pointer and the file's bytes are as before |
| `Files.WriteSome` | source/middleware/FatFS/ff.c:3624-3707 | one pass overwrites a slice at the pointer, none only if no cluster is left |
| `Files.FWrite` | source/middleware/FatFS/ff.c:3600-3712 | the file is overwritten with the bytes taken at the pointer and extended at its end; a short count only at 4 GiB - 1, without a free cluster, or beyond the attached link map; no other file changes, and well-formed FATs stay well formed |
| `LinkMap.EncodeLength` | source/middleware/FatFS/ff.c:4016-4033 | the table takes two items per fragment, its length and then its first cluster |
| `LinkMap.RunIsFragment` | source/middleware/FatFS/ff.c:4020-4027 | a fragment is a maximal run of consecutive clusters |
| `LinkMap.DecodeEncode` | source/middleware/FatFS/ff.c:4028-4035 | decoding the stored fragments gives the chain back |
| `LinkMap.ClmtClust` | source/middleware/FatFS/ff.c:1440-1458 | the cluster of the offset in the chain the table encodes, 0 beyond it |
| `FastSeek.NextFragment` | source/middleware/FatFS/ff.c:4021-4027 | the inner loop counts exactly one maximal fragment |
| `FastSeek.StoreFragments` | source/middleware/FatFS/ff.c:4018-4032 | the outer loop stores the pairs as long as there is room and counts them all |
| `FastSeek.CreateLinkMap` | source/middleware/FatFS/ff.c:4014-4038 | the reported size is 2 * fragments + 2, enough room exactly if it fits, the table then holds its size, the pairs of the fragments and a 0, nothing past the given size is stored; the internal error comes exactly if the end mark is the number after the last cluster |
| `FastSeek.OwnMarksAreSafe` | source/middleware/FatFS/ff.c:4025-4027 | on a chain that ends in the engine's own end mark the internal error cannot come |
| `FastSeek.ForeignMark` | source/middleware/FatFS/ff.c:4025-4027 | a well-formed FAT on which it does: the last cluster carries the number after it as its end mark |
| `FastSeek.MapSeek` | source/middleware/FatFS/ff.c:4039-4060 | with a link map the pointer goes to the offset if that lies in the file and to the size otherwise, and the file stays |
| `FastSeek.FLseek` | source/middleware/FatFS/ff.c:3990-4142 | all cases of `f_lseek`: offset inside the file, past the end of a read-only file (pointer at the size), past the end of a writable one (file extended, or stopped short on a full volume), cut at the size with a link map, and the making of a link map |
| `FastSeek.SeekAgree` | source/middleware/FatFS/ff.c:4039-4139 | two states of one file with the same bytes and pointer have the same current cluster and, off a sector boundary, the same buffered sector with the same file bytes |
| `FastSeek.BothSeeks` | source/middleware/FatFS/ff.c:4013-4139 | run side by side for any offset within the file, the seek with a link map and the one without end with the same pointer, cluster and, off a sector boundary, buffered sector and bytes |
| `FastSeek.LastCluster` | source/middleware/FatFS/ff.c:3463-3469 | following the chain from the start ends in the cluster of the last byte |
| `FastSeek.SeekEnd` | source/middleware/FatFS/ff.c:3461-3481 | opening for append leaves the pointer at the size and the file in order |
| `Seek.MaskToCluster` | source/middleware/FatFS/ff.c:4078 | the mask rounds the old pointer down to its cluster |
| `Seek.StartSeek` | source/middleware/FatFS/ff.c:4075-4092 | the walk starts at the current cluster or at the first, with the matching base and remainder |
| `Seek.WalkChain` | source/middleware/FatFS/ff.c:4093-4114 | the walk ends in the cluster of the target or, on a full volume, at the end of the last cluster |
| `Seek.TargetPlace` | source/middleware/FatFS/ff.c:4115-4120 | the sector computed for the target is the file's sector there |
| `Seek.LocateTarget` | source/middleware/FatFS/ff.c:4074-4122 | cluster and sector of the target, the chain extended in write mode, the file's bytes kept |
| `Seek.NormalSeek` | source/middleware/FatFS/ff.c:4065-4139 | inside the file the pointer goes to the offset and the bytes stay; past the end a read-only file keeps its bytes and the pointer stops at the size, a writable one is extended to the offset, or to the end of its clusters on a full volume; the file counts as modified exactly if it was or has grown; no other file changes, and well-formed FATs stay well formed |
| `FileRuns.RunOp` | source/middleware/FatFS/ff.c:3500-4142 | one call on a disk without errors is a step of the abstract file: the slice up to the end, the bytes replaced at the pointer, or the pointer set and the file extended as `f_lseek` does |
| `FileRuns.RunFile` | source/middleware/FatFS/ff.c:3500-4142 | every run of reads, writes and seeks is a run of a byte sequence with a pointer, and no other file changes |
| `FileRuns.ReadYourWrite` | source/middleware/FatFS/ff.c:3500-4142 | writing, seeking back and reading gives the bytes written |
| `Sync.UpdateEntry` | source/middleware/FatFS/ff.c:3776-3781 | in the entry the archive bit is set, start cluster, size and time of modification are stored and the access date is 0; name, creation time and every byte outside the entry stay |
| `Sync.EditKeeps` | source/middleware/FatFS/ff.c:3774-3783 | rewriting a directory sector changes neither the file nor the FAT |
| `Sync.NothingPending` | source/middleware/FatFS/ff.c:3738-3783 | with a clean window and buffer the medium alone holds the file |
| `Sync.FSync` | source/middleware/FatFS/ff.c:3721-3791 | a changed file is durable afterwards: medium, FAT, entry and bytes agree, and the sector on the medium differs from before in the entry alone, byte by byte as `f_sync` stores it; an unchanged file is left alone |
| `Sync.SyncAndReopen` | source/middleware/FatFS/ff.c:3721-3791 | a new mount and the values of the directory entry give the same bytes |
| `Mount.CheckFs` | source/middleware/FatFS/ff.c:2965-2983 | a FAT record exactly by bytes 510-511 0x55 0xAA, byte 0 0xE9 or bytes 0 and 2 0xEB and 0x90, and "FAT" at 54 or "FAT3" at 82; no boot sector exactly without the signature |
| `Mount.Recognition` | source/middleware/FatFS/ff.c:2971-2982 | the same for every sector, as a value |
| `Mount.FindBoot` | source/middleware/FatFS/ff.c:3048-3064 | the volume is at sector 0 if that holds a FAT record, else where the first partition in use starts that holds one, none otherwise |
| `Mount.StartIs` | source/middleware/FatFS/ff.c:3048-3064 | the search is that of the partition table by its bytes: type at 450 + 16 i, start at 454 + 16 i, the first one that leads to a FAT record |
| `Mount.ReadBpb` | source/middleware/FatFS/ff.c:3116-3163 | the layout or the refusal is that of the record, with all sums and products wrapping at 32 bits |
| `Mount.RecordAccepted` | source/middleware/FatFS/ff.c:3116-3163 | which records are accepted, by their bytes: sector size, a power of two of sectors per cluster, one or two FATs, reserved sectors, whole root sectors, at least one cluster, the root directory its type needs, and a FAT with room for 12, 16 or 32 bits for each cluster and two more; and the layout taken from them |
| `Mount.AcceptedIsSound` | source/middleware/FatFS/ff.c:3116-3163 | an accepted record gives a sound layout if and only if the extent stays below 2^32 and the cluster count within the FAT32 limit |
| `Mount.AcceptedIsSafe` | source/middleware/FatFS/ff.c:3116-3163 | then every FAT byte touched lies in the first FAT, clusters are disjoint inside the volume's data area, end marks read back as ends and links unchanged |
| `Mount.WrappedFatArea` | source/middleware/FatFS/ff.c:3124 | an accepted record whose FAT area wraps to nothing: cluster 2 lies on the FAT |
| `Mount.FindVolume` | source/middleware/FatFS/ff.c:2993-3207 | mounts if and only if there is a volume start whose record is good by its bytes; the volume then has the layout those bytes give, a consistent window and the FSINFO hints |
| `Mount.HintBytes` | source/middleware/FatFS/ff.c:3165-3187 | FSINFO is used exactly on FAT32 with bytes 48 and 49 equal to 1 and 0, and its hints are taken exactly with both record signatures and the boot signature in place |
| `MkfsLayout.PickUnit` | source/middleware/FatFS/ff.c:5545-5558 | the table loop picks the cluster size of the first row above the volume size |
| `MkfsLayout.Provision` | source/middleware/FatFS/ff.c:5543-5569 | cluster size, FAT type, and the sizes of reserved area, FAT and root directory tried |
| `MkfsLayout.Place` | source/middleware/FatFS/ff.c:5570-5583 | refused exactly if there is no room for 16 clusters; otherwise the cluster count of what is left |
| `MkfsLayout.FatIsLargeEnough` | source/middleware/FatFS/ff.c:5549-5583 | the FAT sized for the provisional cluster count holds all entries of the final one, with 32-bit wrap considered |
| `MkfsLayout.NoWrap16` | source/middleware/FatFS/ff.c:5559-5566 | a volume that ends up as FAT16 is small enough for its FAT size not to have wrapped |
| `MkfsLayout.Trial` | source/middleware/FatFS/ff.c:5541-5609 | the verdict on one trial; an accepted layout is complete |
| `MkfsLayout.PlanVolume` | source/middleware/FatFS/ff.c:5541-5610 | the retry loop ends; a layout it settles on is complete, keeps the requested cluster size and type |
| `MkfsSizes.Given16` | source/middleware/FatFS/ff.c:5541-5610 | with a given cluster size and FAT16 first, a layout is found exactly if FAT12 or FAT16 fits or FAT32 is allowed and fits |
| `MkfsSizes.Given32` | source/middleware/FatFS/ff.c:5544-5589 | with a given cluster size and FAT32 only, a layout is found exactly if FAT32 fits |
| `MkfsSizes.Automatic16` | source/middleware/FatFS/ff.c:5554-5606 | with the cluster size left open, a layout is always found if FAT32 is allowed too, else exactly up to a largest volume size |
| `MkfsSizes.Automatic32` | source/middleware/FatFS/ff.c:5544-5589 | with the cluster size left open and FAT32 only, a layout is found exactly from a smallest volume size on |
| `MkfsSizes.SettlesWhenPlannable` | source/middleware/FatFS/ff.c:5541-5610 | the retry loop succeeds exactly on the volumes that have a layout |
| `MkfsUnits.UnitRows` | source/middleware/FatFS/ff.c:5300-5301 | the cluster size tables in sectors: from 1 below 4096 sectors up to 64 from 2097152 on for FAT12/16, from 1 below 131072 up to 64 from 4194304 on for FAT32 |
| `MkfsUnits.ChosenUnit` | source/middleware/FatFS/ff.c:5541-5606 | left open, the cluster size is the table's, or half of it on FAT32 and twice of it on FAT12/16 exactly if with the table's the volume does not fit its type |
| `BootRecord.FillBoot` | source/middleware/FatFS/ff.c:5616-5649 | every field of the boot record, by type |
| `BootRecord.LoadBack` | source/middleware/FatFS/ff.c:3116-3155 | reading the record that was written gives the planned layout's fields |
| `BootRecord.LaidMounts` | source/middleware/FatFS/ff.c:5541-5651 | a volume laid out by `f_mkfs` is accepted by `find_volume` with the same FAT type, cluster count, FAT base and data base, and is sound |
| `Mkfs.CheckUnit` | source/middleware/FatFS/ff.c:5332-5333 | the cluster size is refused exactly if it is no power of two or out of bounds |
| `Mkfs.PickType` | source/middleware/FatFS/ff.c:5358-5376 | the first FAT type to try, refused exactly for too large clusters or no type |
| `Mkfs.FillSectors` | source/middleware/FatFS/ff.c:5676-5691 | the fill loops write the first sector and zeros after it, in transfers of the buffer's size |
| `Mkfs.WriteBootArea` | source/middleware/FatFS/ff.c:5616-5663 | boot record, backups and FSINFO, nothing outside the reserved area |
| `Mkfs.WriteFresh` | source/middleware/FatFS/ff.c:5665-5691 | a fresh FAT and an empty root directory, nothing outside them |
| `Mkfs.WriteTable` | source/middleware/FatFS/ff.c:5709-5733 | a partition table with the volume as its only entry, nothing outside sector 0 |
| `Mkfs.FMkfs` | source/middleware/FatFS/ff.c:5290-5738 | exactly which arguments and volumes are refused, with the medium untouched; otherwise the medium is formatted, with the cluster size asked for or chosen and the system ID 0x0C, 0x06, 0x04 or 0x01 by type and size |
| `FreshVolume.FormattedMounts` | source/middleware/FatFS/ff.c:5541-5733 | a formatted medium is found at its volume start and accepted with the planned layout |
| `FreshVolume.HeadIs` | source/middleware/FatFS/ff.c:5669-5675 | the bytes a fresh FAT starts with, for each type |
| `FreshVolume.FreshIsEmpty` | source/middleware/FatFS/ff.c:5665-5692 | its FAT has no cluster in use but the FAT32 root |
| `FreshVolume.EmptyHealthy` | source/middleware/FatFS/ff.c:5653-5663 | such a FAT is well formed, and its free count is the one FSINFO was given |
| `FreshVolume.FormatAndMount` | source/middleware/FatFS/ff.c:5290-5738 | formatting succeeds exactly on acceptable arguments, and mounting then gives an allocator in order with the right free count |
| `DirTable.Dir.constructor` | source/middleware/FatFS/ff.c:1470-1508 | a directory object on a table in order |
| `DirTable.FollowTable` | source/middleware/FatFS/ff.c:1493-1500 | following the table's chain reaches the cluster of the offset, fails exactly beyond the chain |
| `DirTable.DirSdi` | source/middleware/FatFS/ff.c:1470-1508 | goes to the entry at the offset; fails exactly beyond the last reachable entry or between entries |
| `DirTable.LimitIs` | source/middleware/FatFS/ff.c:1479-1500 | the entries within reach: all of the table, at most 65536 |
| `DirTable.ChainedEntry` | source/middleware/FatFS/ff.c:1492-1506 | where entry k of a chained table lies: 32 k bytes into its clusters |
| `DirTable.RootEntry` | source/middleware/FatFS/ff.c:1488-1506 | where entry k of the static root directory lies: 32 k bytes behind its first sector |
| `DirStretch.ZeroCluster` | source/middleware/FatFS/ff.c:1555-1563 | every sector of the new cluster becomes zero, written through the window in order |
| `DirStretch.StretchTable` | source/middleware/FatFS/ff.c:1546-1570 | the table grows by one cluster that was free and now holds zeros; denied only on a full volume |
| `DirWalk.StepChained` | source/middleware/FatFS/ff.c:1533-1571 | at a sector boundary the mask test recognises exactly a new cluster |
| `DirWalk.DirNext` | source/middleware/FatFS/ff.c:1519-1577 | goes to the next entry; the table changes only if it is stretched behind its last entry; the end is reported exactly there; well-formed FATs stay well formed |
| `DirWalk.WalkTo` | source/middleware/FatFS/ff.c:1470-1577 | `dir_sdi(0)` and k calls of `dir_next` reach entry k, or fail exactly if there is none |
| `DirWalk.BothWays` | source/middleware/FatFS/ff.c:1470-1577 | direct and stepwise positioning succeed for the same entries and end with the same offset, cluster, sector and place |
| `DirEntries.SetIsUpdate` | source/middleware/FatFS/ff.c:2372-2379 | storing one entry changes that entry and nothing else of the directory or the FAT |
| `DirEntries.SetOthers` | source/middleware/FatFS/ff.c:2372-2379 | storing an entry changes no other chain of the volume |
| `DirEntries.StretchEntries` | source/middleware/FatFS/ff.c:1546-1570 | a stretched directory is the old one followed by end marks |
| `DirEntries.StretchOthers` | source/middleware/FatFS/ff.c:1546-1570 | stretching changes no other chain of the volume |
| `DirEntries.InsertKeeps` | source/middleware/FatFS/ff.c:1589-1620 | inserting at the first fit keeps all entries in use and reachable, makes the block reachable, and keeps end marks last |
| `DirEntries.NoMarkBefore` | source/middleware/FatFS/ff.c:1599-1615 | no end mark lies in front of the first fit |
| `DirEntries.FitBytes` | source/middleware/FatFS/ff.c:1599-1615 | the first fit by the first bytes: entries with 0 or 0xE5, and no such run that ends earlier |
| `DirOps.DirAlloc` | source/middleware/FatFS/ff.c:1589-1620 | the last of the first run of that many free entries, the directory at most stretched; denied only if there is none and the directory cannot grow |
| `DirOps.PutShort` | source/middleware/FatFS/ff.c:2374-2378 | the short entry's bytes and no other |
| `DirOps.StorePieces` | source/middleware/FatFS/ff.c:2351-2362 | the long name entries replace exactly that run of entries, last piece first |
| `DirOps.DirRegister` | source/middleware/FatFS/ff.c:2292-2384 | refused exactly for a dot entry or a missing name; otherwise the block is inserted at the first fit and nothing else changes, or denied for want of room; the block has (length + 12) / 13 long entries if NS_LFN is set, and the short entry has the eleven bytes of fn, its case flags and zeros |
| `Lfn.PutLfn` | source/middleware/FatFS/ff.c:1751-1776 | the entry is that piece of the name, with ordinal, last flag, checksum, terminator and fillers, and no byte outside it changes |
| `LfnText.PieceBytes` | source/middleware/FatFS/ff.c:1751-1776 | the 32 bytes of a piece place by place: ordinal and flag, attribute, checksum, cluster field, and the thirteen places of characters |
| `Lfn.PickLfn` | source/middleware/FatFS/ff.c:1713-1742 | the entry is taken or refused and the buffer filled as `PickOf` says, whose meaning is `LfnText.PickIs` |
| `Lfn.PickLast` | source/middleware/FatFS/ff.c:1713-1742 | the last piece of a name is taken if and only if the name has at most 253 characters |
| `Lfn.PickOther` | source/middleware/FatFS/ff.c:1713-1742 | every other piece is taken, in front of what was read before |
| `LfnText.PickIs` | source/middleware/FatFS/ff.c:1713-1742 | for any entry: it is taken exactly if its cluster field is 0, fillers follow its NUL and its characters end below place 255 (254 for the last piece), and then exactly these characters, and a NUL behind the last piece, are stored |
| `Lfn.CmpLfn` | source/middleware/FatFS/ff.c:1677-1705 | the match of one entry as `CmpOf` says, whose meaning is `LfnText.CmpIs` |
| `LfnText.CmpIs` | source/middleware/FatFS/ff.c:1677-1705 | for any entry: it matches exactly if its cluster field is 0, fillers follow its NUL, and its characters, NUL included, equal the buffer's at the place its number asks for up to upper case; behind a full last entry the buffer must end |
| `Lfn.SumOf` | source/middleware/FatFS/ff.c:1848-1859 | the checksum: rotate right and add, eleven times |
| `LfnText.SumBits` | source/middleware/FatFS/ff.c:1848-1859 | the checksum by its bits: rotated right by one, then the next byte added |
| `Lfn.SumPrefix` | source/middleware/FatFS/ff.c:1848-1859 | the checksum depends on the short name alone |
| `LfnScan.RegisteredIsRead` | source/middleware/FatFS/ff.c:2131-2196 | whatever was scanned before, a registered name of up to 253 characters is read back exactly, a longer one is reported without its long name |
| `LfnScan.CmpPiece` | source/middleware/FatFS/ff.c:1677-1705 | when one piece compares equal, terminator included |
| `LfnScan.WholeAgrees` | source/middleware/FatFS/ff.c:1677-1705 | all pieces agree exactly if the names are equal up to upper case: stale characters behind the sought name cannot matter |
| `LfnScan.RegisteredIsFound` | source/middleware/FatFS/ff.c:2210-2281 | a registered name is accepted through its long name if and only if it is the sought one up to case and has at most 254 characters |
| `LfnSound.LfnHitIsSound` | source/middleware/FatFS/ff.c:2245-2271 | in any directory a hit through a long name is a run of entries, ordinals down to 1, one checksum, whose text is the sought name up to case |
| `DirScan.DirRead` | source/middleware/FatFS/ff.c:2131-2196 | stops at the first entry from there on whose first byte is not 0, 0xE5 or "." and that is neither a long name entry nor a volume label, with no end mark in front; nothing is found exactly if all such entries lie behind an end mark; a long name is reported exactly if a complete run of valid pieces stands in front |
| `ReadLook.ReadIsFirst` | source/middleware/FatFS/ff.c:2131-2196 | the same for any listing, and a long name reported is the place and the text of that run |
| `DirScan.DirFind` | source/middleware/FatFS/ff.c:2210-2281 | stops at the first entry that matches: in use, no label, with the sought eleven bytes unless NS_LOSS is set, or with a complete matching long name in front unless NS_NOLFN is set; nothing is found exactly if every match lies behind an end mark; the place of the long name in front is reported |
| `Lookup.FindIsFirst` | source/middleware/FatFS/ff.c:2210-2281 | the same for any listing, with the tests on the entries written out |
| `DirScan.FoundAfterRegister` | source/middleware/FatFS/ff.c:2210-2384 | a name of up to 254 characters that `dir_register` put into a directory without it is found there |
| `DirScan.ShortFoundAfterRegister` | source/middleware/FatFS/ff.c:2210-2384 | a name that `dir_register` put in without a long name is found through its short name |
| `DirScan.ReadAfterRegister` | source/middleware/FatFS/ff.c:2131-2384 | a name of up to 253 characters that `dir_register` put in is read back from there |
| `Locks.LockTable.ChkLock` | source/middleware/FatFS/ff.c:771-795 | locked exactly if the object is open and the access conflicts; too many exactly if it is not open and no slot is blank |
| `Locks.LockTable.EnqLock` | source/middleware/FatFS/ff.c:798-804 | whether a slot is blank |
| `Locks.LockTable.IncLock` | source/middleware/FatFS/ff.c:808-836 | one more handle on the object, refused exactly without a slot or for a second writer; the table stays in agreement with the handles exactly if this is not the 256th reader |
| `Locks.LockTable.DecLock` | source/middleware/FatFS/ff.c:840-859 | one handle less, internal error exactly for an index out of range |
| `Locks.LockTable.ClearLock` | source/middleware/FatFS/ff.c:863-872 | exactly the handles on the volume are given up |
| `LockRuns.Capacity` | source/middleware/FatFS/ff.c:798-804 | a slot is blank exactly while fewer objects than slots are open |
| `LockRuns.TableIsSafe` | source/middleware/FatFS/ff.c:771-859 | a writer is alone on its object, and each open object has a slot in write mode exactly if it is open for writing |
| `LockRuns.OpenExisting` | source/middleware/FatFS/ff.c:3338-3418 | opening an existing object: locked, too many, or one more handle, each exactly when it should be |
| `LockRuns.OpenCreated` | source/middleware/FatFS/ff.c:3329-3418 | creating an object: refused exactly if all slots are used |
| `LockRuns.RunLocks` | source/middleware/FatFS/ff.c:771-872 | every run of opens, creations, closes and unmounts answers as an abstract readers-writer lock, and a writer is always alone |
| `Locks.ReaderLimit` | source/middleware/FatFS/ff.c:831-833 | one more reader keeps the table right if and only if it is not the 256th |
| `Pattern.GetAchar` | source/middleware/FatFS/ff.c:2546-2566 | one character, upper-cased ASCII or a double byte of code page 949, and the pointer behind it; 0 exactly at the terminator, which is not passed while characters are left |
| `Pattern.BlockMeaning` | source/middleware/FatFS/ff.c:2590-2595 | a block of wildcards means its number of `?` and whether it has a `*` |
| `Pattern.TooShort` | source/middleware/FatFS/ff.c:2587-2604 | a name shorter than the leading literals cannot match |
| `Pattern.TryHere` | source/middleware/FatFS/ff.c:2588-2602 | an attempt at one place succeeds exactly if the pattern matches there |
| `Pattern.PatternMatching` | source/middleware/FatFS/ff.c:2570-2607 | true exactly if the pattern matches after that many characters, or at least that many; ends on every input |
| `Pattern.SearchWhole` | source/middleware/FatFS/ff.c:4301 | the call for a whole name, no characters skipped, asks exactly whether the name matches the pattern |
| `Pattern.NoneLater` | source/middleware/FatFS/ff.c:2603-2604 | the early exit at the end of the name loses no match |

## Left out

- exFAT branches, `f_expand`, the tiny configuration, re-entrancy hooks and multiple partitions: compiled out in this configuration.
- `f_truncate`, `f_unlink`, `f_mkdir`, `f_rename`, `f_getfree`: compiled out, and compositions of functions modelled here.
- `create_name`, `follow_path`, `gen_numname`, `f_opendir`, `f_readdir`, `get_fileinfo`, volume labels: path parsing and wrappers; the model starts where the name is in the buffer and the short name is settled.
- `validate`, drive numbers, `disk_initialize`, `disk_status`, write protection: the model starts with a valid object on a ready drive.
- Code page tables and `ff_wtoupper`: an arbitrary function `up` that maps nothing but 0 to 0.
- Timestamps and the volume serial number are parameters.
- User buffers are sequences, not shared arrays: aliasing between a caller's buffer and the engine's own is not modelled. The work buffer of `f_mkfs` is split into separate arrays per use.
- The window array has exactly one sector (`SS(fs)`), not `_MAX_SS`; the layout fields of `FATFS` are one value fixed at mount.
- Media.Disk.Write: a failed write is taken to leave the sector as it was; a torn sector is not modelled.
- Media.Disk.WriteMany: a failed multi-sector write is taken to leave the medium as it was.
- AllocatorRuns.CrashSafe: on FAT12 only without entries in two sectors; for the others it is false (`AllocatorRuns.CrashStates`, `AllocatorRuns.TornIsWellFormed` and `AllocatorRuns.TornWitness` say what holds instead).
- AllocatorRuns.RunAllocator: a run stops at the first disk error; the FATs are safe then, but nothing is claimed about the free count.
- AllocatorRuns.RunGrow: nothing is claimed about the free count after a disk error.
- AllocatorRuns.RunCut: nothing is claimed about the free count after a disk error.
- Window.DirectWrite: file data goes past the window and is outside the ordering claim; the journal leaves out the sectors such data was written to.
- Window.ProgramOrder: a sector once written past the window stays outside the ordering claim, also when its cluster later belongs to a directory; sectors below the data area are always inside it.
- Window.JournalBypass: nothing is claimed later about the bypassed sectors.
- Window.FatFs.constructor: takes the FSINFO sector not to be the first FAT sector (more than one reserved sector on FAT32), which `find_volume` does not check.
- Mount.FindVolume: states the result for a disk without errors and a record whose layout is sound and lies on the medium; `Mount.AcceptedIsSound` says when that is.
- Mkfs.FMkfs: one FAT, erase block of one sector (the driver refuses `GET_BLOCK_SIZE`), whole unpartitioned drive; the writes whose result the engine ignores are claimed only for a disk without errors.
- Mkfs.WriteBootArea: the backups and FSINFO are claimed only for a disk without errors, because the engine ignores the results of those writes.
- Seek.NormalSeek: the pointer field is held at 0 while the chain is followed instead of counting up with it; the difference can only be seen after an error has blocked the file.
- FastSeek.FLseek: with a link map that does not cover the chain the engine may answer `FR_INT_ERR`; this happens when a map was made of an empty file that was written afterwards, and the condition `FullyMapped` is in the contract.
- FileRuns.RunFile: a disk without errors and no link map, as after `f_open`.
- Sync.FSync: the directory sector is given, outside the file's own and the free clusters, and the file is not blocked by an earlier error (the engine does not look at `fp->err` here); opening and closing through a path is not modelled.
- Sync.SyncAndReopen: the new mount takes the old layout; that the boot record still describes it is not tracked.
- DirOps.DirRegister: the loop that numbers a colliding short name is not modelled, the short name comes settled; names hold neither 0 nor 0xFFFF.
- LockRuns.RunLocks: bounded to 255 readers of an object, as `Locks.ReaderLimit` requires.
- `Pattern`: code page 949, as configured; the functions are in the file but switched off by `_USE_FIND` 0.
