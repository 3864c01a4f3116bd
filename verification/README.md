# Storage layers and ciphers of an encrypted-volume browser

A program that opens encrypted FAT and NTFS volumes carries its own copies of a FAT driver, an NTFS bitmap writer,
AES and SHA-512. The modules here follow those parts, one class or module for each source file, and prove what they
are for.

* `Geometry`, `FatEntry`, `Chains`, `ChainRuns` and `FatPartition`: the file allocation table. Links of 12, 16 or 32
  bits lie packed in sectors; one table holds the chains of all files. Specifications are functions on the decoded
  table; the class `Partition` works on bytes and is proved against them. `ChainRuns` treats runs of any length on any
  number of files.
* `FileImage`, `FileSteps`, `FatFile` and `FileRuns`: an open file. A file is the concatenation of its clusters, cut at
  its size. `FileStruct` reads, writes, seeks, extends and truncates it by parts of sectors, sectors and clusters.
  `FileRuns` states the sum of it: runs of reads, writes, seeks and truncations on one coherent store and on a plain
  byte sequence agree, and every other file keeps its bytes. `FileExamples` gives two volumes on which an operation
  does not do what is asked of it.
* `FlatDisc`, `SectorCache`, `CacheRuns` and `FileOverCache`: the write-back cache as a view of the disc, when cached and
  direct access agree, and which runs on files keep to that.
* `LongNames`, `DirectorySlots`, `DirectoryCode` and `DirectoryWalk`: long names in directory slots, the listing of a
  directory before and after adding and removing entries, and the walk over slots, sectors and clusters.
* `NtfsBitmap`: setting a run of bits through 8 KiB windows, against the plain loop.
* `AesField`, `AesSpec` and `Aes`: table-driven AES against FIPS 197, with decryption as the equivalent inverse cipher.
  `AesKnown` ties the factors and the S-box to their definitions and proves the 128-bit example of the self-test.
* `Sha512Core` and `Sha512Stream`: compression in both loop forms and streaming, against FIPS 180-4. `Sha512Known` ties
  the constants to their roots and the rotations to bits, and proves the digest of "abc" of the self-test.
* `Arith` and `Bytes`: products, quotients and byte sequences.

## Hypotheses

* Sector transfers below the table and file layers succeed, and those layers work on one coherent store. The program
  itself reads and writes parts of sectors through the cache and whole sectors past it, and does not flush in between.
  `Partition` therefore keeps a record of its accesses. `OverCache` repeats it on the cache and the disc: every access
  gives what the file layer used, up to the first one that is not safe in the sense of `CacheRuns`. A run of transfers
  that are shorter than a sector has no unsafe access. `WriteSeekRead` and `StaleRead` give a run that has one, and
  stale bytes: write part of a sector, seek back, read the whole sector.
* Table entry 0 reads as end of file where a cluster is taken from cluster 0. In the file layer the entries of the last
  cluster and of the one behind it are in use and belong to no open file (`Safe`): a file that grows into the last
  cluster cannot grow further, as `LinkExtendsExactly`, `LinkLost` and `GivenButNotMarked` show. `ChainRuns` needs
  nothing of the kind; a run stops before the first allocation that would fail that way.
* A position is in normal form, or at the end of the cluster just filled (`Agree`); `WriteHere` says when it is which.
  Writing accepts both. Reading less than a sector and seeking forward are right from the second form only in the cases
  named by `ShortReadFromClusterEnd` and `Seek`. Runs keep track of this without looking at the position (`StandAfter`).
* Making a file longer, and writing behind its end, put zeros behind its last byte if and only if its chain has one
  cluster more than full clusters in the file (`ExtendRightExactly`). A file whose size is a positive multiple of the
  cluster size may have one cluster less; then the zeros go over the last full cluster, as `Extend`, `Write` and
  `Ftruncate` state and `WriteBehindFullCluster` shows.
* Transfers end below 2^32; `ClipIsExact` states the exact condition for reading.
* AES is stated for any S-box with an inverse; `StandardBox` is the one of the standard. The other tables have the meaning
  given in the comment at `crypt-1.17/aes_tab.c:13-23`.

## Where code and documentation differ

* `_FAT_fat_linkFreeCluster` is described as linking the cluster it returns. It does not when it is asked to link behind
  the last cluster of the volume (`filesys/fat/file_allocation_table.cpp:253`).
* `_FAT_directory_removeEntry` returns whether a slot follows the removed entry (`filesys/fat/directory.cpp:627-641`).
  It is false after a removal that succeeded at the very end of a directory.
* `_FAT_ftruncate_r` sets the new size also when it fails for want of clusters (`filesys/fat/fatfile.cpp:939-993`). On a
  chain with one cluster more than full clusters it fails exactly when fewer clusters are free than the new size has full clusters more than the old one, that is also
  when every byte fits but the last cluster would be full (`filesys/fat/fatfile.cpp:535-549`). The size then exceeds the
  chain exactly when the bytes themselves do not fit. `GrowOnFullVolume` has an input for both.

## Model

| member | source | states |
|---|---|---|
| `FatEntry.WidthIs` | filesys/fat/partition.cpp:224-236 | fewer than 4085 clusters make 12-bit entries, fewer than 65525 make 16-bit ones, and all others 32-bit ones |
| `FatEntry.Link12` | filesys/fat/file_allocation_table.cpp:58-84 | in the bytes of the store: a 12-bit link is the end of a file from 0xFF7 on, and otherwise the number in its three digits |
| `FatEntry.Link16` | filesys/fat/file_allocation_table.cpp:86-96 | a 16-bit link is the end of a file from 0xFFF7 on, and otherwise the number in its two bytes, low byte first |
| `FatEntry.Link32` | filesys/fat/file_allocation_table.cpp:98-108 | a 32-bit link is the end of a file from 0x0FFFFFF7 on, and otherwise the number in its four bytes, low byte first |
| `FatEntry.LinksAreDistinctMarks` | filesys/fat/partition.cpp:224-236 | for each of the three widths chosen by the cluster count, every cluster number of the volume is decoded as itself, so no link reads as free or as end of file |
| `FatEntry.MarkSurvives` | filesys/fat/file_allocation_table.cpp:47-118 | FREE, EOF and every cluster number come back unchanged after being cut to 12, 16 or 32 bits and decoded |
| `FatEntry.StoredSame` | filesys/fat/file_allocation_table.cpp:124-201 | the entry just written decodes to the value written, for all three widths, odd and even 12-bit entries |
| `FatEntry.StoredOther12` | filesys/fat/file_allocation_table.cpp:141-177 | in 12-bit entries no other link changes, not even the neighbour that shares a byte |
| `FatEntry.StoredOther` | filesys/fat/file_allocation_table.cpp:124-201 | no other link of the table changes, for all three widths |
| `FatEntry.StoredTable` | filesys/fat/file_allocation_table.cpp:124-201 | writing an entry is the replacement of one element of the decoded table |
| `FatPartition.Partition.NextCluster` | filesys/fat/file_allocation_table.cpp:47-118 | decodes the link of any cluster up to lastCluster + 1, byte by byte across sectors |
| `FatPartition.Partition.WriteFatEntry` | filesys/fat/file_allocation_table.cpp:124-201 | refuses clusters outside [2, lastCluster]; otherwise replaces exactly that element of the decoded table and no byte of any cluster |
| `FatPartition.Partition.WriteFatEntry12` | filesys/fat/file_allocation_table.cpp:141-177 | the read-modify-write of the shared byte, straddling sectors or not, gives exactly the stored entry |
| `Geometry.ClustersFollow` | filesys/fat/partition.cpp:217-224 | cluster 2 lies at the start of the data area and every further one directly behind the one before; 0 and 1 stand for the root area |
| `Chains.SearchIsComplete` | filesys/fat/file_allocation_table.cpp:227-250 | the wrap-around search fails exactly when no cluster is free and otherwise gives a free cluster in range, unless the hint names a free entry behind the last cluster |
| `Chains.SearchIsFirst` | filesys/fat/file_allocation_table.cpp:227-250 | the cluster found is the first free one from the hint on, and only if there is none the first free one of all |
| `FatPartition.Partition.FindFree` | filesys/fat/file_allocation_table.cpp:227-250 | the search loop ends (measure: pass, position) and gives the entry and the hint of the specification wherever it started |
| `FatPartition.Partition.LinkFreeCluster` | filesys/fat/file_allocation_table.cpp:209-262 | new table, hint, counter and result are those of the allocation step; no cluster's bytes change |
| `Chains.HintAfter` | filesys/fat/file_allocation_table.cpp:225-250 | the hint after an allocation is the cluster given; after a failed one it is behind the last cluster and no cluster is free; an existing link leaves it |
| `FatPartition.Partition.LinkFreeClusterCleared` | filesys/fat/file_allocation_table.cpp:270-291 | the same allocation step, and every byte of the new cluster zero, no other cluster changed |
| `Chains.LinkExtends` | filesys/fat/file_allocation_table.cpp:209-262 | allocating behind the last cluster makes the chain longer by one cluster that was free, and changes two entries |
| `Chains.LinkStarts` | filesys/fat/file_allocation_table.cpp:209-262 | allocating from cluster 0 makes a new chain of one cluster that was free |
| `ChainRuns.LinkExtendsExactly` | filesys/fat/file_allocation_table.cpp:253-259 | the chain grows if and only if its last cluster is not the last of the volume and the hint does not name a free entry behind it |
| `ChainRuns.LinkLost` | filesys/fat/file_allocation_table.cpp:253-257 | a volume on which the allocated cluster is not linked, because the chain ends in the last cluster |
| `ChainRuns.GivenButNotMarked` | filesys/fat/file_allocation_table.cpp:228-259 | with the hint behind the end a cluster number is given that is never marked as used, and the counter goes wrong |
| `FatPartition.Partition.ClearLinks` | filesys/fat/file_allocation_table.cpp:298-322 | frees exactly the clusters of the chain, moves the hint back, counts each one; a start out of range is refused |
| `FatPartition.Partition.LastCluster` | filesys/fat/file_allocation_table.cpp:328-333 | the last cluster of the chain, from any cluster of it |
| `FatPartition.Partition.TrimChain` | filesys/fat/file_allocation_table.cpp:344-371 | the state of the trim step and the last cluster kept; all of the chain is freed for length 0 |
| `Chains.TrimKeepsPrefix` | filesys/fat/file_allocation_table.cpp:344-371 | exactly the first clusters of the old chain remain, as a chain with an end mark |
| `Chains.OthersSurvive` | filesys/fat/file_allocation_table.cpp:209-371 | a change that touches one chain and free entries only leaves every disjoint chain as it was |
| `Chains.ChainIsDetermined` | filesys/fat/file_allocation_table.cpp:328-333 | following links determines the chain: two chains with the same first cluster are equal |
| `Chains.LinkCounts` | filesys/fat/file_allocation_table.cpp:251-251 | the free counter stays the number of free entries in [2, lastCluster + 1] when a cluster is allocated |
| `Chains.CounterWraps` | filesys/fat/file_allocation_table.cpp:251-251 | the counter goes up and down by one modulo 2^32 |
| `Chains.ClearCounts` | filesys/fat/file_allocation_table.cpp:298-322 | the free counter stays right when a chain is freed |
| `Chains.TrimCounts` | filesys/fat/file_allocation_table.cpp:344-371 | the free counter stays right when a chain is trimmed |
| `FatPartition.Partition.FreeClusterCount` | filesys/fat/directory.cpp:1004-1017 | the mount-time count is the number of free entries in [2, lastCluster + 1] |
| `FatPartition.Partition.constructor` | filesys/fat/partition.cpp:284-287 | a mounted partition starts with the right counter |
| `ChainRuns.StepKeeps` | filesys/fat/file_allocation_table.cpp:209-371 | create, append, delete and trim keep the chains of all files pairwise disjoint, acyclic, in range and ended, and the counter right, on every volume; an allocation has to meet the exact condition of LinkExtendsExactly |
| `ChainRuns.StepLeaksNothing` | filesys/fat/file_allocation_table.cpp:209-371 | after each step every used cluster still belongs to some file |
| `ChainRuns.RunKeeps` | filesys/fat/file_allocation_table.cpp:209-371 | the same after every finite run on any number of files, which stops before the first allocation that does not meet the condition: invariant kept, nothing leaked |
| `ChainRuns.RunSparesOthers` | filesys/fat/file_allocation_table.cpp:209-371 | a file on which a run does not work keeps its clusters, their order and all its table entries |
| `ChainRuns.StopsOnlyWhenFull` | filesys/fat/file_allocation_table.cpp:209-371 | from a volume as it is mounted, no run of any length stops for the hint while a cluster is free |
| `ChainRuns.StepKeepsHint` | filesys/fat/file_allocation_table.cpp:209-371 | no operation leaves a hint that misleads the search while a cluster is free |
| `ChainRuns.FirstTwo` | filesys/fat/file_allocation_table.cpp:209-262 | on an empty volume two allocations give clusters 2 and 3, with the tables, hints and counters written out |
| `FileImage.ImageWrite` | filesys/fat/fatfile.cpp:633-728 | writing inside cluster j of a chain overwrites that stretch of the file and nothing else |
| `FileImage.AgreeIffAt` | filesys/fat/fatfile.cpp:610-625 | a position names one offset only: two accepted forms, and they never name different offsets |
| `FileImage.NormalIsAt` | filesys/fat/fatfile.cpp:799-800 | the normal form of an offset (quotient, sector, byte) lies in the chain at that offset |
| `FileSteps.GrowthSparesOthers` | filesys/fat/fatfile.cpp:666-680 | growth takes no cluster of another file: the other chain stays and stays disjoint |
| `FatFile.FileStruct.constructor` | filesys/fat/fatfile.cpp:230-256 | an opened file stands at offset 0, its append position at the end of the last cluster's data |
| `FatFile.FileStruct.Advance` | filesys/fat/fatfile.cpp:666-680 | the next cluster of the chain, or a newly linked one at its end; fails only on a full disc |
| `FatFile.FileStruct.WriteBytes` | filesys/fat/fatfile.cpp:610-728 | stores exactly the counted bytes in order from the start; zeros follow to the end of the last sector if and only if the file ends there and the sector is begun by this write; grows the chain no further than needed; a write within a sector is one cached access |
| `FatFile.FileStruct.WriteRaw` | filesys/fat/fatfile.cpp:604-746 | from any place of the chain: the bytes stored there and the zeros behind them, the count, the fields, and what is left when the disc fills up |
| `FatFile.FileStruct.WriteHere` | filesys/fat/fatfile.cpp:590-746 | the file becomes the old one overwritten at the place by the counted bytes, in length too; the count is the smaller of the request and the room in the chain and the free clusters; the chain grows by free clusters only, none before it is needed; no other cluster changes; the position agrees again, and is normal if and only if the new offset is no multiple of the cluster size |
| `FatFile.FileStruct.WriteBehind` | filesys/fat/fatfile.cpp:604-746 | the data behind the zeros just stored: both are one transfer from where the zeros start |
| `FatFile.FileStruct.WriteBeyond` | filesys/fat/fatfile.cpp:595-746 | zeros up to the position, then the data, for every chain length; fails exactly when the position needs more clusters than are free |
| `FatFile.FileStruct.Write` | filesys/fat/fatfile.cpp:564-749 | the same from any position and for every chain length: behind the end the gap is filled with zeros first; where the chain is one cluster short the zeros and the data are stored in one piece from ExtendStart on, over old bytes; -1 exactly when not open for writing |
| `FatFile.FileStruct.Extend` | filesys/fat/fatfile.cpp:477-561 | for every chain length: as many zeros as the file is to grow by, from ExtendStart on and over what is there, no other byte; succeeds if and only if enough clusters are free, told from the table before, and otherwise takes them all; behind the last byte, with the position right, if and only if the chain has one cluster more than full clusters in the file |
| `FileSteps.ExtendRightExactly` | filesys/fat/fatfile.cpp:489-491 | the old bytes are kept and zeros put behind them, whatever the clusters hold, if and only if the chain has one cluster more than full clusters in the file |
| `FileSteps.GrownExactly` | filesys/fat/fatfile.cpp:511-549 | a transfer that stops only on a full disc succeeds if and only if as many clusters are free as its end position needs |
| `FileSteps.CountedExactly` | filesys/fat/fatfile.cpp:604-746 | a transfer stores as many bytes as there is room for, no fewer unless fewer are asked for |
| `FileSteps.InsideIsNormal` | filesys/fat/fatfile.cpp:610-625 | a position behind the first byte of a cluster is normal if and only if its offset is no multiple of the cluster size |
| `FileExamples.WriteBehindFullCluster` | filesys/fat/fatfile.cpp:477-561 | a file of exactly one cluster, written behind its end, loses its first bytes to the zeros, and its size exceeds its chain |
| `FatFile.FileStruct.ZeroSectors` | filesys/fat/fatfile.cpp:511-533 | whole zero sectors, allocating at cluster ends |
| `FatFile.FileStruct.Read` | filesys/fat/fatfile.cpp:326-472 | the bytes of the file from the position on, cut at its end; the position moves by that count and is normal again unless the chain ends there |
| `FatFile.FileStruct.ReadBytes` | filesys/fat/fatfile.cpp:361-466 | head, sectors, clusters and tail join to the bytes of the file |
| `FileSteps.ClipIsExact` | filesys/fat/fatfile.cpp:354-359 | the request is cut to what the file holds if and only if its end is below 2^32 |
| `FileSteps.ReadGivesContent` | filesys/fat/fatfile.cpp:368-461 | from a normal position, or for at least a sector, the bytes read are the file's |
| `FileSteps.ShortReadFromClusterEnd` | filesys/fat/fatfile.cpp:374-388 | from the end of a cluster a shorter read is right, whatever the disc holds, if and only if the chain goes on with the next cluster number |
| `FatFile.FileStruct.Seek` | filesys/fat/fatfile.cpp:752-832 | errors and new offset for each of the three directions in 32-bit numbers, and: the stored position is normal for a target inside the file if and only if the walk starts at the first cluster or from a normal position |
| `FatFile.FileStruct.SeekInside` | filesys/fat/fatfile.cpp:796-825 | the forward walk from the current cluster and the walk from the first cluster reach the same cluster |
| `FatFile.FileStruct.Ftruncate` | filesys/fat/fatfile.cpp:879-999 | shorter: the first bytes and exactly the clusters they fill remain, the rest is freed; longer: succeeds if and only if as many clusters are free as the new size has full clusters more, and then zeros follow; otherwise the old bytes and zeros up to the end of a chain that has taken every free cluster, the size set all the same, and larger than the chain if and only if the bytes need more clusters than are free; where the chain has another length, the zeros from ExtendStart on and the condition for them; zero: the chain is freed and one cluster taken; refusals change nothing; no byte of another cluster changes |
| `FatFile.FileStruct.Lengthen` | filesys/fat/fatfile.cpp:909-943 | the growing branch with the same conditions; the current position is put back |
| `FileExamples.GrowOnFullVolume` | filesys/fat/fatfile.cpp:535-549 | on a full volume a file of one cluster grows to 512 bytes, all stored, or 513, one missing: -1 both times, with the size set |
| `FatFile.FileStruct.Cut` | filesys/fat/fatfile.cpp:966-987 | the append position is the end of the cut file |
| `FatFile.FileStruct.Restart` | filesys/fat/fatfile.cpp:952-964 | freeing the chain and taking one cluster cannot fail |
| `FileSteps.EndOfFileAgrees` | filesys/fat/fatfile.cpp:978-986 | sector, byte and cluster of a cut file's end agree with its size |
| `FileSteps.CutKeepsContent` | filesys/fat/fatfile.cpp:974-975 | ceil(n / bytesPerCluster) clusters hold the first n bytes |
| `FileRuns.Perform` | filesys/fat/fatfile.cpp:326-999 | each trusted read, write, seek or truncation does to the file what it does to a byte sequence with a place in it, on a coherent store; where it can be trusted is told from the size, the place and the operations so far |
| `FileRuns.PerformTruncate` | filesys/fat/fatfile.cpp:879-999 | a truncation among other operations: the stored position still agrees for every place before the new end |
| `FileRuns.Run` | filesys/fat/fatfile.cpp:326-999 | the same for runs of any length: all results and the final bytes; it stops only before an operation that is not trusted or on a full disc; a run of transfers shorter than a sector makes no access past the cache |
| `FileRuns.OpenedRepresents` | filesys/fat/fatfile.cpp:230-246 | a file just opened stands for its bytes at offset 0 |
| `FileRuns.OneMoreThanFull` | filesys/fat/fatfile.cpp:489-491 | a file that does not end with a full cluster has the chain length that extension needs |
| `FileRuns.OtherFileKept` | filesys/fat/fatfile.cpp:564-749 | after every run another file has the same chain and the same bytes |
| `FileRuns.KeptTwice` | filesys/fat/fatfile.cpp:564-999 | what two operations keep of all other chains, their run keeps |
| `FileOverCache.OverCache` | filesys/fat/cache.cpp:124-247 | the accesses of such a run, made on the cache and the disc: as far as they are safe each gives what the run used; if all are, what is seen is the store and the file in it; they all are when none went past the cache |
| `FileOverCache.CachedIsSafe` | filesys/fat/cache.cpp:124-226 | accesses that all go through the cache are safe whatever is resident |
| `FileOverCache.WriteSeekRead` | filesys/fat/fatfile.cpp:399-399 | writing part of the first sector, seeking back and reading the sector makes a cached write and then a direct read of the same sector, with cached reads between |
| `FileOverCache.StaleRead` | filesys/fat/fatfile.cpp:635-635 | on a fresh cache that direct read is not safe: the sector is still dirty, and the old bytes are read unless the new ones are equal |
| `SectorCache.Cache.constructor` | filesys/fat/cache.cpp:51-100 | at least two free pages; what is seen is the disc |
| `SectorCache.Cache.FindPage` | filesys/fat/cache.cpp:124-146 | finds the resident page, or else a free page if there is one, or else a least used one |
| `SectorCache.Cache.GetSector` | filesys/fat/cache.cpp:124-165 | the page holds what is seen of the sector; its count goes up by one modulo 2^32; a page given up was least used, and the new one is clean; no sector becomes resident twice; the view is kept even when the disc fails |
| `SectorCache.Cache.ReadPartialSector` | filesys/fat/cache.cpp:170-183 | returns the view's bytes and changes the view nowhere |
| `SectorCache.Cache.WritePartialSector` | filesys/fat/cache.cpp:188-204 | overwrites those bytes of the view and nothing else |
| `SectorCache.Cache.EraseWritePartialSector` | filesys/fat/cache.cpp:209-226 | the sector of the view becomes the data in zeros, nothing else changes |
| `SectorCache.Cache.Flush` | filesys/fat/cache.cpp:233-247 | never changes the view; the disc becomes the view when every write succeeds |
| `SectorCache.Cache.Invalidate` | filesys/fat/cache.cpp:249-256 | forgets every page: the view drops to the disc |
| `SectorCache.ViewIsUnique` | filesys/fat/cache.cpp:124-226 | pages and disc determine the view |
| `CacheRuns.Access` | filesys/fat/cache.cpp:124-247 | every safe cached or direct access gives the flat disc's result and state |
| `CacheRuns.Run` | filesys/fat/cache.cpp:124-247 | cached and direct accesses agree with one flat disc on every run with no direct write to a resident and no direct read of a dirty sector |
| `CacheRuns.DirectReadIsExact` | filesys/fat/fatfile.cpp:399-399 | a direct read is right, whatever the sectors hold, if and only if the sector is not dirty in the cache |
| `CacheRuns.DirectWriteIsExact` | filesys/fat/fatfile.cpp:528-529 | a direct write is seen, whatever is written, if and only if the sector is not resident |
| `NtfsBitmap.BitGetIsBit` | filesys/ntfs/bitmap.c:74-79 | the shifted and masked byte is the bit |
| `NtfsBitmap.NtfsBitSet` | filesys/ntfs/bitmap.c:56-64 | sets one bit and keeps all others; a value above 1 changes nothing |
| `NtfsBitmap.NtfsBitGetAndSet` | filesys/ntfs/bitmap.c:90-101 | the old bit, and the same change as setting; -1 for a value above 1 |
| `NtfsBitmap.BitLoopBits` | filesys/ntfs/bitmap.c:56-64 | the plain loop sets exactly the bits of the run |
| `NtfsBitmap.SetUpwards` | filesys/ntfs/bitmap.c:147-162 | the partial first byte, also when the run ends inside it |
| `NtfsBitmap.PrepareLast` | filesys/ntfs/bitmap.c:172-210 | the partial last byte, put into the buffer only when it lies in the window |
| `NtfsBitmap.WriteWindows` | filesys/ntfs/bitmap.c:171-248 | the window loop ends and, window by window, makes all bytes below it what they should be |
| `NtfsBitmap.SetBitsInRun` | filesys/ntfs/bitmap.c:115-255 | for every start, count and number of 8 KiB windows: equal to the plain loop when the run lies in the attribute; bits outside the run kept in every case; negative arguments refused |
| `NtfsBitmap.DoneIsLoop` | filesys/ntfs/bitmap.c:115-255 | byte by byte finished means equal to the loop of single bits |
| `AesKnown.XTimeIsDouble` | crypt-1.17/aes_tab.c:13-23 | for every byte: twice the byte in sixteen bits, with 0x11b added without carry when it has nine |
| `AesKnown.Factor2` | crypt-1.17/aes_tab.c:13-23 | the factor 2 of the mixing is the product of polynomials modulo x^8 + x^4 + x^3 + x + 1, for every byte |
| `AesKnown.Factor3` | crypt-1.17/aes_tab.c:13-23 | so is the factor 3 |
| `AesKnown.Factor9` | crypt-1.17/aes_tab.c:876-1015 | so is the factor 9 of the inverse mixing |
| `AesKnown.FactorB` | crypt-1.17/aes_tab.c:876-1015 | and the factor 11 |
| `AesKnown.FactorD` | crypt-1.17/aes_tab.c:876-1015 | and the factor 13 |
| `AesKnown.FactorE` | crypt-1.17/aes_tab.c:876-1015 | and the factor 14 |
| `AesKnown.MixedColumn` | crypt-1.17/aes_tab.c:13-23 | one column of the mixing in numbers |
| `AesKnown.SubIsAffineInverse` | crypt-1.17/aes_tab.c:98-163 | every entry of the S-box is the affine image of the inverse in the field, section 5.1.1 of FIPS 197 |
| `AesKnown.StandardInverse` | crypt-1.17/aes_tab.c:235-300 | the inverse S-box undoes the S-box for every byte |
| `AesField.MixUndone` | crypt-1.17/aes_tab.c:13-23 | InvMixColumn undoes MixColumn, in GF(2^8) with the coefficients of the tables |
| `AesField.InvMixLinear` | crypt-1.17/aes.c:226-265 | InvMixColumn is linear, so it may be applied to the round keys instead of the state |
| `AesSpec.RoundsUndone` | crypt-1.17/aes.c:213-273 | round by round, the equivalent inverse cipher with the derived schedule steps back through the states of the cipher |
| `AesSpec.CipherUndone` | crypt-1.17/aes.c:213-273 | the equivalent inverse cipher undoes the cipher for every schedule, block and number of rounds (section 5.3.5 of FIPS 197) |
| `Aes.TeColumn` | crypt-1.17/aes_tab.c:13-16 | four forward table entries add up to SubBytes and MixColumns of one column |
| `Aes.TksColumn` | crypt-1.17/aes_tab.c:876-1015 | four key table entries add up to InvMixColumn of one column |
| `Aes.TeRound` | crypt-1.17/aes.c:346-407 | one half of a loop pass is one round of FIPS 197 |
| `Aes.TdRound` | crypt-1.17/aes.c:524-586 | one half of a loop pass is one inverse round of the equivalent inverse cipher |
| `Aes.TeLastRound` | crypt-1.17/aes.c:410-443 | the last round, from the S-box tables |
| `Aes.TdLastRound` | crypt-1.17/aes.c:589-622 | the last inverse round, from the inverse S-box tables |
| `Aes.SetupMixIs` | crypt-1.17/aes.c:93-99 | substitution of a rotated word |
| `Aes.SetupMix2Is` | crypt-1.17/aes.c:103-109 | the small-code form gives InvMixColumn as well |
| `Aes.RconIsPower` | crypt-1.17/aes_tab.c:1020-1024 | the round constants are the powers of x |
| `Aes.SymmetricKey.Expand128` | crypt-1.17/aes.c:148-160 | the 44 words of the key expansion of section 5.2 of FIPS 197 |
| `Aes.SymmetricKey.Expand192` | crypt-1.17/aes.c:161-181 | the 52 words |
| `Aes.SymmetricKey.Expand256` | crypt-1.17/aes.c:182-207 | the 60 words, with the extra substitution in the middle of a group |
| `Aes.SymmetricKey.InverseSchedule` | crypt-1.17/aes.c:213-273 | the reversed schedule, InvMixColumns applied to all round keys but the first and the last |
| `Aes.SymmetricKey.Setup` | crypt-1.17/aes.c:121-277 | errors for other key lengths and round numbers; otherwise both schedules and 10, 12 or 14 rounds |
| `Aes.SymmetricKey.EcbEncrypt` | crypt-1.17/aes.c:289-445 | two rounds per pass compute the cipher of FIPS 197 |
| `Aes.SymmetricKey.EcbDecrypt` | crypt-1.17/aes.c:468-624 | two rounds per pass compute the equivalent inverse cipher |
| `Aes.SymmetricKey.EncryptThenDecrypt` | crypt-1.17/aes.c:289-624 | for every accepted key and every block, decrypting gives the block back |
| `AesKnown.ExampleCipher` | crypt-1.17/aes.c:649-656 | the cipher with the S-box of the standard and the schedule of the key 00..0f takes 00112233..ff to 69c4e0d8..5a |
| `AesKnown.Example` | crypt-1.17/aes.c:649-690 | set-up, encryption and decryption of the code on that key and block give the published bytes and the block back |
| `Sha512Known.InitialValueIsRoots` | crypt-1.17/sha512.c:180-187 | the eight initial words are the first 64 bits of the fractional parts of the square roots of the first eight primes |
| `Sha512Known.RootsFrom0` | crypt-1.17/sha512.c:39-80 | the round constants are those of the cube roots of the first eighty primes, by two inequalities on integers each; this lemma and the four after it |
| `Sha512Known.ConstantsFrom0` | crypt-1.17/sha512.c:39-80 | constant i stands at place i; this lemma and the four after it |
| `Sha512Known.Sigma0Bits` | crypt-1.17/sha512.c:87-87 | for every word and every bit number, the bits that Sigma0 combines |
| `Sha512Known.Sigma1Bits` | crypt-1.17/sha512.c:88-88 | the same for Sigma1 |
| `Sha512Known.Gamma0Bits` | crypt-1.17/sha512.c:89-89 | the same for Gamma0, with a shift that loses seven bits |
| `Sha512Known.Gamma1Bits` | crypt-1.17/sha512.c:90-90 | the same for Gamma1, with a shift that loses six |
| `Sha512Core.ChIsChoice` | crypt-1.17/sha512.c:83-83 | Ch as written is the definition in section 4.1.3 of FIPS 180-4 |
| `Sha512Core.MajIsMajority` | crypt-1.17/sha512.c:84-84 | Maj as written is the definition in section 4.1.3 of FIPS 180-4 |
| `Sha512Core.FillSchedule` | crypt-1.17/sha512.c:105-115 | the eighty words of the message schedule |
| `Sha512Core.RoundsShifting` | crypt-1.17/sha512.c:118-130 | the loop that shifts eight registers computes eighty rounds of the standard |
| `Sha512Core.RoundInPlace` | crypt-1.17/sha512.c:132-136 | writing two registers in place is a round, once the names move on by one |
| `Sha512Core.RoundsUnrolled` | crypt-1.17/sha512.c:138-147 | the loop of eight rotated rounds computes the same eighty rounds, for all states and schedules |
| `Sha512Core.CompressBlock` | crypt-1.17/sha512.c:96-157 | both forms with the feedback give the compression function |
| `Sha512Stream.FewestZeros` | crypt-1.17/sha512.c:256-275 | the number of zeros in the padding is the least possible |
| `Sha512Stream.BigEndianSplit` | crypt-1.17/sha512.c:270-278 | a length field splits into its high bytes and its low eight |
| `Sha512Stream.StoredPadIsPad` | crypt-1.17/sha512.c:270-278 | the padding of the code is that of section 5.1.2 of FIPS 180-4 if and only if the message is shorter than 2^64 bits |
| `Sha512Stream.AbsorbBlock` | crypt-1.17/sha512.c:204-229 | a completed block, in place or from the buffer, keeps the stream invariant |
| `Sha512Stream.LastBlocksFold` | crypt-1.17/sha512.c:253-279 | one or two last blocks complete the fold over the padded message |
| `Sha512Stream.Sha512.Process` | crypt-1.17/sha512.c:200-233 | the stream then stands for the message with the piece appended, for every length and from a full buffer too; an overfull state is refused unchanged |
| `Sha512Stream.Sha512.Done` | crypt-1.17/sha512.c:242-291 | the digest of the padded message; of the standard's padding below 2^64 bits |
| `Sha512Stream.HashPieces` | crypt-1.17/sha512.c:200-291 | every way of cutting a message into pieces gives the digest of the whole message |
| `Sha512Known.DigestOfAbc` | crypt-1.17/sha512.c:306-314 | the digest of abc is the published one, all 64 bytes, through padding, schedule, eighty rounds and output |
| `Sha512Known.HashAbc` | crypt-1.17/sha512.c:306-335 | the code gives those bytes, however the message is cut into pieces |
| `LongNames.UnitOffsets` | filesys/fat/directory.cpp:84-84 | the offsets of the thirteen units in numbers |
| `LongNames.PartInBytes` | filesys/fat/directory.cpp:911-938 | all 32 bytes of a slot with thirteen characters, each at its offset in numbers, in both directions |
| `LongNames.SlotMarks` | filesys/fat/directory.cpp:297-345 | long slots, labels and entries by the numbers of their attribute byte and first byte |
| `LongNames.SumRotates` | filesys/fat/directory.cpp:326-331 | a step of the checksum rotates to the right by one bit and adds, in eight bits, for all bytes |
| `LongNames.ReadableExactly` | filesys/fat/directory.cpp:301-317 | every place of the two name buffers that is written for a long slot, terminator included, lies inside them if and only if the slot's number is from 1 to 19 |
| `LongNames.PlacesWritten` | filesys/fat/directory.cpp:301-317 | reading a long slot writes exactly those places: they are the same afterwards whatever was there, and every other one is kept |
| `LongNames.WrittenIsReadable` | filesys/fat/directory.cpp:911-938 | the slots of a name as it is written can be read if and only if the name has at most 247 characters |
| `LongNames.PartIs` | filesys/fat/directory.cpp:312-318 | the thirteen units of a slot are the part of the name that its number stands for |
| `LongNames.GotFirst` | filesys/fat/directory.cpp:299-311 | the slot marked as the end of a name starts afresh, whatever was read before |
| `LongNames.GotMore` | filesys/fat/directory.cpp:309-319 | each further slot fills its part below those already read |
| `LongNames.ReadsWritten` | filesys/fat/directory.cpp:285-356 | parsing the slots of a written name gives the name in both buffers, its first slot and its alias slot, from any earlier state |
| `LongNames.ExampleRead` | filesys/fat/directory.cpp:285-356 | two slots given in all their bytes are read as the name they hold, from any earlier state |
| `DirectorySlots.OneKind` | filesys/fat/directory.cpp:297-345 | every slot is exactly one of: an entry, passed over, part of a long name, the end of the directory |
| `DirectorySlots.PassableMarks` | filesys/fat/directory.cpp:297-345 | the slots passed over, by the numbers of their attribute byte and first byte |
| `DirectorySlots.ReadsAlias` | filesys/fat/directory.cpp:324-342 | an entry without long slots is read as its alias |
| `DirectorySlots.ListingIsEntries` | filesys/fat/directory.cpp:249-367 | reading a whole directory gives exactly its entries, in order, each with its name and place, and passes over erased slots and labels |
| `DirectorySlots.AdditionLists` | filesys/fat/directory.cpp:905-943 | adding an entry puts exactly that entry into the listing; all others keep name and place |
| `DirectorySlots.RemovalLists` | filesys/fat/directory.cpp:616-644 | removing an entry takes exactly that entry out of the listing; all others keep name and place |
| `DirectoryCode.AliasSum` | filesys/fat/directory.cpp:326-331 | the checksum loop over the eleven bytes of the alias |
| `DirectoryCode.DirEntry.GetNextEntry` | filesys/fat/directory.cpp:249-357 | the parsing loop computes the specified scan, and keeps the entry when there is no next one |
| `DirectoryCode.DirEntry.ReadLong` | filesys/fat/directory.cpp:297-319 | one long slot: deletion, end mark, checksum, and the thirteen units |
| `DirectoryCode.DirEntry.GetAlias` | filesys/fat/directory.cpp:177-208 | name and extension up to the first blank, the two dot names, and nothing for an erased slot; true if and only if there is a name |
| `DirectoryCode.LongSlot` | filesys/fat/directory.cpp:911-938 | all 32 bytes of a slot: number, end mark, units, terminator and padding, checksum, attribute |
| `DirectoryCode.AddEntry` | filesys/fat/directory.cpp:891-943 | the slots of the name, up to 254 characters, last part first, and the alias slot, and no other slot changes |
| `DirectoryCode.DotsRead` | filesys/fat/directory.cpp:798-805 | the two dot names are read back from their alias slot |
| `DirectoryCode.DotNames` | filesys/fat/directory.cpp:798-805 | exactly the names of one or two full stops take one slot, and its bytes |
| `DirectoryCode.RemoveEntry` | filesys/fat/directory.cpp:616-644 | marks exactly the slots of the entry with 0xE5; the result is true if and only if a slot follows the entry |
| `DirectoryWalk.Increment` | filesys/fat/directory.cpp:214-247 | one step to the next slot, over sectors and clusters or in the fixed root area; fails exactly at the last slot, unless the directory may be extended and a cluster is free, and stays there |
| `DirectoryWalk.ExtendDirectory` | filesys/fat/directory.cpp:229-238 | the directory becomes longer by one cluster of zeros; fails exactly when none is free |
| `DirectoryWalk.SlotDetermined` | filesys/fat/directory.cpp:214-247 | a position names one slot only |
| `DirectoryWalk.RootPosition` | filesys/fat/directory.cpp:214-247 | the position of every slot of the fixed root area, in numbers |
| `DirectoryWalk.ClusterPosition` | filesys/fat/directory.cpp:214-247 | the number of the slot at every position of a clustered directory |
| `DirectoryWalk.ReadSlot` | filesys/fat/directory.cpp:295-295 | the 32 bytes read at a position are those of the slot it names |

## Left out

- FatFile.FileStruct.constructor: opening by path, creating, truncating and making the first cluster at opening are not modelled; a file has at least one cluster, as opening sees to it (`filesys/fat/fatfile.cpp:240-243`).
- FatFile.FileStruct.Read: a request whose end reaches 2^32; `ClipIsExact` shows that it is cut wrongly there, and exactly there.
- FatFile.FileStruct.Write: after a failed allocation the bytes stored, the count and the chain are stated; the stored position has lost its sector by then, and nothing is said of it.
- FatFile.FileStruct.Seek: a target at or behind the end leaves the stored position where it was; writing there is stated only when the position agrees.
- FatFile.FileStruct.Ftruncate: the branch for a file without clusters, which opening excludes. Shortening leaves the stored position as it was, even behind the new end.
- FileRuns.Run: an append-mode file is stated one write at a time; on a volume whose last cluster is free a file may grow into it and then no further, which the file layer excludes by `Safe`.
- FileOverCache.OverCache: flushing and forgetting pages are not part of a run on a file, and no disc error happens in it.
- SectorCache.Cache.Flush: the value it returns is true either way; success is a ghost result.
- SectorCache.Cache.GetSector: a disc read that fails is taken to leave the page buffer as it was.
- NtfsBitmap.SetBitsInRun: the attribute has a fixed size and transfers end at its end; the two checks that report a bug (`filesys/ntfs/bitmap.c:175-181` and `240-247`) are proved never to fire and are not written; the index of the last byte is below 2^31, as the code's `int` needs.
- Aes.SymmetricKey.Setup: the tables other than the S-box and its inverse are represented by their meaning, words by four bytes, and the small-code variants of the block functions are left out.
- AesKnown.Example: the self-test's examples with longer keys, and the second message of the one for SHA-512.
- Sha512Stream.Sha512.Done: at 2^64 bits and more the digest is that of the padding with the length cut to eight bytes.
- LongNames.ReadsWritten: names of 248 to 254 characters are written but not read back; their first slot is not readable (`WrittenIsReadable`).
- DirectoryCode.DirEntry.GetNextEntry: directories that hold a long slot with number 0 or above 19; there the program writes outside its name buffers, and exactly there (`ReadableExactly`).
- DirectoryCode.AddEntry: trimming of blanks, the alias with its tail number and the search for a gap are not modelled; names are ASCII. A name of 255 characters or more leaves no terminator in the buffer it is written from and is not covered.
- DirectoryWalk.Increment: extending is stated where the allocation meets the condition of `LinkExtendsExactly`.
- DirectorySlots.ListingIsEntries: the directory is the sequence of its slots; `DirectoryWalk` ties positions to slots.
- Shifts and masks on table entries are written as division and remainder on numbers from 0 to 255; AES, SHA-512 and the bitmap use bit vectors.
- The unknown volume type, which the cluster count never gives.
- Error numbers, logging, memory allocation and its failure.
- Closing a file, file status, path lookup, entry lookup by position, and time and date packing.
- NTFS attribute lists, collation, boot sectors and everything above the bitmap.
- The disc driver, the encryption of sectors, character conversion and the user interface.
