# ADFlib as a verified model

ADFlib reads and writes Amiga volumes: sectors of 512 bytes, an allocation bitmap, directories
that are hash tables of linked entries, and files that are lists of data blocks spread over a
header and a chain of extension blocks. This project models the library on an Amiga Fast File
System volume without directory cache, held in memory, and proves that these linked structures
behave as something simple: a file as a byte string with a position, a directory as a map from
sectors to names that are found without regard to case, the bitmap as a set, the whole volume as
a tree of names and byte strings. Over all of it one invariant holds: every sector from 2 on has
exactly one owner, but for the ones the code loses, and those are counted.

## How it is built

Each layer has three parts: a specification on values (what a call does to the volume and the
handle), an invariant with its refinement theorems, and the code itself as methods of classes
and loops over arrays, each proved to compute the specification.

| part | files |
|---|---|
| arithmetic of file sizes and positions | `FileUtil` |
| sectors, volume as a value, circular scan | `Blocks` |
| bitmap words; the mounted volume as a class | `Bitmap`, `Volume` |
| where the pages of the bitmap are; formatting | `BitmapPages`, `VolumeFormat` |
| open files: specification, invariant, one-step facts | `FileSpec`, `FileInv`, `FileSteps` |
| open files: append, write, seek, read, full volume | `FileGrow`, `FileWrite`, `FileSeek`, `FileRead`, `FileLimits` |
| truncation | `TruncateSpec`, `FileTruncate`, `FileShrink`, `FileEnlarge`, `FileResize` |
| open files as a class with its loops | `AdfFile` |
| the blocks of a closed file | `FileBlocks`, `FileVectors` |
| runs over many open files, and the sectors they take | `FileRuns`, `FileSpace` |
| names; directories: invariant, links, specification, methods | `Names`, `DirInv`, `DirLink`, `DirLost`, `DirSpec`, `Dir`, `DirChange` |
| the whole volume: invariant, operations, opening by name | `VolumeInv`, `VolumeOps`, `FileOpen` |
| the mounted volume with open files: what directory operations and flushes leave alone, runs, the tree | `FileLinks`, `VolumeFrame`, `Mounted`, `DirTouch`, `VolumeRuns`, `DirTree` |
| undeleting; rebuilding the bitmap | `Salvage`, `Undelete`, `Rebuild` |
| bytes of blocks and of directory-cache records | `Raw`, `Cache` |
| a state for every way in which the code falls short | `FileExamples`, `VolumeExamples` |

The ghost arguments of lemmas and methods say where things are: a `Layout` gives the sectors of
one file and the role of each, a `Forest` gives the chains of all directories and the place of
each entry in them.

## Where the code falls short

Some properties one would expect do not hold of the code. The model keeps the code as it is, and
says exactly when they hold; for each there is a lemma with a state in which they do not.

- A read that leaves a changed block replaces it without writing it: `FileRead.ReadKeepsContent`,
  `FileExamples.ReadDropsBlock`.
- A write that is refused because the volume is full makes the cached block count as unchanged,
  and a seek to another block drops it: `FileLimits.ShortWriteLosesBlock`,
  `FileExamples.ShortWriteLoses`.
- An append that needs an extension block and finds one free sector takes it before it is refused,
  and leaves the file linked to an extension block that lists nothing: `FileLimits.RefusedExact`,
  `FileExamples.RefusedAppendDangles`.
- Truncating to a block boundary, or to the blocks of the header while an extension block is
  cached, leaves a handle that caches a block the bitmap calls free: `FileShrink.ShrinkExact`,
  `FileExamples.CutLeavesFreedBlock`.
- Truncating reads the last extension block from the disk, though a newer one may be cached: it
  is refused, or lists other sectors, until the file is flushed. `FileTruncate.RemovalExact`,
  `FileExamples.CutMissesNewExt`.
- Renaming onto a name that is taken loses the entry: `DirChange.RenameEntry`,
  `VolumeExamples.RenameLosesEntry`. So does moving a directory into itself: `DirLost.IntoItself`,
  `VolumeExamples.MoveLosesDirectory`.
- Renaming an entry into a sector that is no directory loses it; if the sector is the header of a
  file, that file is turned into a directory: `DirChange.IntoNoDirectory`,
  `VolumeExamples.RenameIntoNowhere`, `VolumeExamples.RenameTurnsFile`. So it is by creating an
  entry below it: `DirChange.CreatedInFile`, `VolumeExamples.CreateTurnsFile`.
- Flushing a file writes the name, the parent and the chain link its header had when it was
  opened: `VolumeFrame.FlushOfStaleHeader`, `VolumeExamples.FlushBreaksChain`.
- Removing a file without bytes removes its name and then fails, because a vector of no sectors
  counts as one for which there was no memory: the sector of its header stays used, and nothing
  has it. For the same reason a file without bytes is never undeleted. `DirChange.RemoveEntry`,
  `Undelete.EmptyStaysLost`, `VolumeExamples.RemoveLosesHeader`.
- Undeleting a file with bytes, or a directory, that was not the last of its chain makes the chain
  a cycle: `Undelete.UndeleteExact`, `Undelete.UndelDirExact`, `VolumeExamples.UndeleteMakesCycle`,
  `VolumeExamples.UndelDirMakesCycle`.
- Undeleting a directory takes its sector before the name is compared, and does not give it back
  when that is taken or too long: `Undelete.UndelDirLosesSector`,
  `VolumeExamples.UndelDirTakesSector`.
- Nothing keeps a directory from being moved below itself, where it is out of reach:
  `DirTree.MoveKeepsTree`, `VolumeExamples.MoveDetachesDirectory`.
- Rebuilding the bitmap neither frees the last sector nor marks bitmap extension blocks as used,
  and calls the sectors of all entries free that are out of reach or deeper than 512 levels:
  `Rebuild.RebuildExact`, `VolumeExamples.RebuildMissesLast`, `VolumeExamples.RebuildFreesOwnBlock`,
  `VolumeExamples.RebuildFreesDetached`.
- The bitmap of a new volume with more than 25 pages puts the pages that are in extension blocks
  on the sectors of the first ones: `BitmapPages.NewBitmapSurvives`, `VolumeExamples.PagesShareSector`.
- The bitmap of a new volume marks sectors as free from the number of the volume's first block on
  the device, not from its own second sector: `VolumeFormat.CreatedFreeExact`,
  `VolumeExamples.SectorStaysUsed`.
- The blocks of a damaged file may be more than the vectors made for its size have room for, which
  is found out only after they were filled: `FileBlocks.FoundBlocksFit`,
  `FileExamples.DamagedExceeds`.
- A directory-cache record may reach beyond the records of its block, because offsets are compared
  with the size of the whole block: `Cache.ReadsBehindRecords`.
- A directory-cache record that does not fit behind the others is still put there, and not into the
  new block, which counts one record and has none: `Cache.PutStaysInside`,
  `Cache.NewBlockUnreadable`.
- Creating the first entry of a chain of the root directory, or renaming an entry into or out of
  it, turns round the bytes of the pointers to bitmap pages from the fourth on, on a host of
  little endian: the root is read as an entry block and written as a root block.
  `Raw.RootReadAsEntry`, `VolumeExamples.RootLosesPage`.

- The two 16-bit version numbers in a file system header of a hard disk are swapped as one longword, so
  that a host of little endian reads each in the place of the other: `Raw.VersionsExchanged`.

## Model

| member | source | states |
|---|---|---|
| FileUtil.Pos2DataBlockExact | src/adf_file_util.c:30-59 | a position is its block number times the block size plus the offset, for every block size; from block 72 on the block number is 72 + 72 * extension block + slot |
| FileUtil.RealSizeAgrees | src/adf_file_util.c:69-95 | the block counts by rounding up agree with the ones of the header file, for every size |
| FileUtil.Size2DatablocksLeast | src/adf_file_util.h:45-51 | the number of data blocks is the least that holds the bytes, in both directions |
| FileUtil.Datablocks2ExtblocksLeast | src/adf_file_util.h:53-59 | the number of extension blocks is the least whose slots, with the header's 72, hold the pointers |
| Blocks.ScanOrderIsFree | src/adf_bitm.c:625-657 | the circular scan from the root lists every free sector exactly once, and nothing else |
| Blocks.ScanGoesUp | src/adf_bitm.c:625-657 | the scan lists sectors from the root up in order, then those below it in order |
| Bitmap.PlaceInjective | src/adf_bitm.c:664-733 | page, word and bit determine the sector |
| Bitmap.Masks | src/adf_bitm.c:42-50 | the mask of each of the 32 bits |
| Bitmap.PageInRange | src/adf_bitm.c:1007-1013 | the page of every sector is one of those the bitmap has |
| Bitmap.BitmapSizeTight | src/adf_bitm.c:1007-1013 | the bitmap has no page more than the last sector needs |
| Volume.AdfVolume.OneBit | src/adf_bitm.c:688-733 | setting or clearing the bit of a sector in its word changes the bit of no other sector |
| Volume.AdfVolume.IsBlockFree | src/adf_bitm.c:664-681 | tells membership in the set of free sectors |
| Volume.AdfVolume.FreeIsBitSet | src/adf_bitm.c:664-681 | the set of free sectors is that of the bits that are set, with 4064 bits to a page and 32 to a word |
| Volume.AdfVolume.SetBlockFree | src/adf_bitm.c:688-710 | adds exactly one sector to the set of free sectors; pages that differ from the disk are marked as changed |
| Volume.AdfVolume.SetBlockUsed | src/adf_bitm.c:717-733 | takes exactly one sector out of the set of free sectors |
| Volume.AdfVolume.CountFreeBlocks | src/adf_bitm.c:850-858 | counts the set of free sectors |
| Volume.AdfVolume.GetFreeBlocks | src/adf_bitm.c:625-657 | succeeds exactly if enough sectors are free, then takes the first ones of the circular scan and no others; otherwise no bit changes |
| Volume.AdfVolume.Get1FreeBlock | src/adf_bitm.c:612-619 | takes the first free sector of the circular scan, if there is one |
| Volume.AdfVolume.UpdateBitmap | src/adf_bitm.c:322-350 | after it the pages on the disk say the same as the bitmap in memory, though only the changed ones are written |
| Volume.AdfVolume.ReadBitmap | src/adf_bitm.c:198-226 | once all pages are read, the free sectors are those of the pages on the disk |
| BitmapPages.FindPages | src/adf_bitm.c:208-315 | the walk along the pointers of the root and of the extension blocks fills the list of pages with what they point at, or fails exactly if a pointer is off the volume, an extension block cannot be read, or the root has too few pointers |
| BitmapPages.FoundInRoot | src/adf_bitm.c:208-315 | for up to 25 pages and no extension block the walk finds the pointers of the root if and only if each is a sector of the volume |
| BitmapPages.WriteNewBitmap | src/adf_bitm.c:360-436 | succeeds exactly if there is room; then exactly the first free sectors are taken for pages and extension blocks, and these point as specified; if only the extension blocks find no room, the pages stay taken |
| BitmapPages.PagesFound | src/adf_bitm.c:198-436 | the pages of a new bitmap are found again by the walk, in their order, for every number of pages |
| BitmapPages.NewBitmapSurvives | src/adf_bitm.c:408-417 | all pages of a new bitmap can be written and read again, whatever is on them, if and only if there are no more than 25; otherwise two of them share a sector, and a sector is lost |
| VolumeFormat.CreateBitmap | src/adf_bitm.c:90-103 | the sectors from the number of the first block and 2 on become free |
| VolumeFormat.CreatedFreeExact | src/adf_bitm.c:99-100 | then all sectors are free if and only if those below were so before; whatever the bitmap said, if and only if the volume begins with its device |
| VolumeFormat.RootHoldsPages | src/adf_bitm.c:1007-1013 | the root has a pointer for every page if and only if the bitmap is for no more than 101600 sectors |
| VolumeFormat.FormatVolume | src/adf_vol.c:114-161 | on a volume whose root is free after adfCreateBitmap, as it is on one that begins with its device: succeeds exactly if there is room; then the root lists nothing, all sectors but the root, those of the bitmap and those never marked as free are free, on the disk and in memory, the pages are found again, and the bitmap has no other sectors of its own if and only if there are no more than 25 pages |
| FileSteps.FlushStep | src/adf_file.c:599-697 | a flush leaves each block of the file on the disk with the bytes it had in memory, and writes nothing outside the file |
| FileSteps.ReadNextStep | src/adf_file.c:962-1043 | the next data block is the next one of the file, found in the header, the cached or the next extension block, and the cursor into the extension block is right again |
| FileGrow.CreateStep | src/adf_file.c:1050-1150 | appending a block keeps all blocks before it, takes exactly the sectors the block count calls for, and gives each a role, in header, extension block and new extension block alike |
| FileGrow.CreateRefused | src/adf_file.c:1050-1150 | appending is refused when fewer sectors are free than it takes; see FileLimits.RefusedAppend for what it leaves |
| FileWrite.WriteRefines | src/adf_file.c:312-388 | with room, all bytes are spliced into the content at the position, the handle stays whole, only free sectors are taken and nothing outside the file changes |
| FileWrite.WriteShort | src/adf_file.c:325-350 | without room, the count written is less; that many bytes are a full write, followed by a refused append; see FileLimits.ShortWriteLosesBlock for what becomes of the file |
| FileSeek.SeekReaches | src/adf_file.c:393-441 | every seek reaches the position or the end of the file, whichever comes first, with the handle whole and content and bitmap unchanged |
| FileSeek.OpenStored | src/adf_file.c:79-223 | a file that is opened has the bytes the disk has for it, at position 0 |
| FileRead.ReadReturns | src/adf_file.c:255-305 | a read returns the content from the position to the end of the read or of the file, and moves the position there |
| FileRead.ReadSplit | src/adf_file.c:255-305 | two reads in a row return the bytes of one read of both lengths |
| FileRead.ReadKeepsContent | src/adf_file.c:280-301 | a read keeps the content if and only if it stays in the cached block, or the disk has that block already |
| FileLimits.RefusedAppend | src/adf_file.c:1050-1150 | a refused append changes nothing if no sector is free; otherwise the tables of the file are full, the one free sector is lost, and the file is linked to it as an extension block that lists nothing |
| FileLimits.RefusedExact | src/adf_file.c:1050-1150 | the handle is whole after a refused append if and only if no sector at all was free |
| FileLimits.ShortWriteLosesBlock | src/adf_file.c:325-350 | after any write that is cut short, and a seek to any other block, the file is on the disk with the bytes that were counted if and only if no sector at all was free and the disk had the whole file already |
| FileBlocks.WalkYieldsLayout | src/adf_file_block.c:42-138 | walking a stored file lists its data and its extension sectors in file order, and fails exactly if it has no bytes |
| FileBlocks.EmptyIsHeader | src/adf_file_util.c:69-95 | a stored file has no data blocks if and only if it has no bytes, and then its header is its only sector |
| FileBlocks.RemoveFreesRealSize | src/adf_file_block.c:144-163 | freeing the blocks of a file succeeds exactly if it has bytes; then, with its header, exactly its sectors are free, as many as its size stands for |
| FileVectors.GetFileBlocks | src/adf_file_block.c:42-138 | for any entry whose listed blocks fit into the vectors made for its size, the loops fill both vectors with what header and extension chain list, or fail exactly when the walk on values does, as it does when there are no data blocks, where the vector is null |
| FileVectors.FreeFileBlocks | src/adf_file_block.c:144-163 | for such an entry that lists sectors of the volume, exactly the listed sectors become free, or none when the walk fails |
| FileBlocks.ChainFits | src/adf_file_block.c:42-138 | for a file that is on the disk the vectors have room for all that the walk writes |
| FileBlocks.FoundBlocksFit | src/adf_file_block.c:42-138 | whenever the walk on values succeeds, it has as many data and extension sectors as the size stands for, and the vectors have room; only damaged entries exceed them |
| FileRuns.StepRefines | src/adf_file.c:79-697 | every operation on one of many open files, truncation included, keeps all files whole and acts as on byte strings with positions |
| FileRuns.RunRefines | src/adf_file.c:79-697 | over every run of opening, closing, reading, writing, seeking, flushing and truncating, files and what reads return are those of byte strings with positions; every sector has one owner; nothing outside the files is written |
| FileRuns.RunConserves | src/adf_file.c:1050-1150 | over every run, free sectors and sectors of files together are the same set, and as many |
| FileSpace.OwnedIsUsed | src/adf_file_util.c:69-95 | the files of a volume take as many sectors as their sizes stand for, wherever their blocks are |
| FileSpace.RunLeaves | src/adf_file.c:79-697 | over every run, as many sectors are free as the byte strings of all files leave |
| FileTruncate.RemovalOrderExact | src/adf_file.c:754-949 | the list of blocks to remove has each data block and each extension block beyond the new size exactly once |
| FileTruncate.BlocksToRemoveExact | src/adf_file.c:754-949 | on a file whose extension blocks are on the disk the walk succeeds and lists exactly the blocks beyond the new size |
| FileTruncate.RemovalExact | src/adf_file.c:754-949 | for any open file the walk lists exactly those blocks if and only if there are none, the file has no extension blocks, or the last one is on the disk with the pointers behind the new size and its link |
| FileShrink.ShrinkRefines | src/adf_file.c:472-592 | when the walk finds the blocks beyond the new size, shrinking leaves the first bytes, keeps the slots that remain, and frees as many sectors as the real sizes differ by |
| FileShrink.ShrinkExact | src/adf_file.c:472-592 | then the handle is whole after shrinking if and only if the new end is within a block, or the handle stands behind it already, and no extension block stays cached that is given up |
| FileEnlarge.WriteFilledRefines | src/adf_file.c:1301-1324 | filling in chunks appends exactly so many zeros |
| FileEnlarge.WriteFilledStops | src/adf_file.c:1301-1324 | without room for all, fewer zeros are counted than asked for, and exactly these are there when an append is refused |
| FileEnlarge.EnlargeRefines | src/adf_file.c:472-592 | with room, enlarging succeeds and appends zeros and nothing else |
| FileEnlarge.EnlargeStops | src/adf_file.c:485-494 | without room, enlarging fails, and the file has its old bytes and fewer zeros than asked for, as a refused append leaves it |
| FileResize.TruncateRefines | src/adf_file.c:472-592 | truncating any whole handle to any size: without the mode for writing it fails and changes nothing; the same size changes no byte; a larger one succeeds if and only if there is room, and if and only if the file then has that size, with zeros appended, fewer of them when it fails; a smaller one succeeds if and only if the walk finds the blocks to remove, changes nothing when it fails, and leaves the first bytes where the handle can be kept, also of a file with unflushed changes |
| AdfFileModule.AdfFile.constructor | src/adf_file.c:130-200 | the handle before its first seek: nothing cached, position 0 |
| AdfFileModule.AdfFile.Flush | src/adf_file.c:599-697 | computes the flush of the specification, error returns included: without an error on a whole handle, without a change on one for reading; the bitmap on the disk is that in memory |
| AdfFileModule.AdfFile.ReadNextBlock | src/adf_file.c:962-1043 | computes the reading of the next block of the specification, error returns included |
| AdfFileModule.AdfFile.CreateNextBlock | src/adf_file.c:1050-1150 | computes the append of the specification, a full volume included |
| AdfFileModule.AdfFile.Write | src/adf_file.c:312-388 | without the mode for writing 0 is returned and nothing changes; with room the buffer is spliced into the bytes of the file at the position and the handle is whole; without room the count is less |
| AdfFileModule.AdfFile.Read | src/adf_file.c:255-305 | without the mode for reading 0 is returned and nothing changes; else the buffer holds the bytes of the file from the position to the end of the read or of the file |
| AdfFileModule.AdfFile.ReadExtBlockN | src/adf_file.c:710-747 | the walk along the extension chain ends at the block of that number, or with an error |
| AdfFileModule.AdfFile.SeekExt | src/adf_file.c:1235-1294 | computes the seek through header or extension block of the specification |
| AdfFileModule.AdfFile.SeekEOF | src/adf_file.c:1177-1197 | computes the seek to the end of the specification |
| AdfFileModule.AdfFile.Seek | src/adf_file.c:393-441 | on a whole handle succeeds, reaches the position or the end, and changes neither bytes nor bitmap |
| AdfFileModule.AdfFile.GetBlocksToRemove | src/adf_file.c:754-949 | for any disk on which the extension chain ends in time, the loops fill the vector with what the walk on values lists, or fail exactly when it does, and never write behind it |
| AdfFileModule.ListedCanRemove | src/adf_file.c:754-949 | when the walk finds exactly the blocks beyond the new size, they fit the vector and are on the volume |
| AdfFileModule.AdfFile.WriteFilled | src/adf_file.c:1301-1324 | computes the filling of the specification |
| AdfFileModule.AdfFile.Truncate | src/adf_file.c:472-592 | computes the truncation of the specification, error returns included, with the same outcome as in FileResize.TruncateRefines on every whole handle: when it succeeds, and the bytes of the file in each case |
| AdfFileModule.AdfFile.Open | src/adf_file.c:183-207 | the new handle for a file that is there is whole, at position 0, and has the bytes of the disk |
| AdfFileModule.AdfFile.Close | src/adf_file.c:230-248 | the disk alone holds the bytes the handle stood for, and nothing outside the file has changed |
| FileOpen.OpenFile | src/adf_file.c:76-223 | opening by name: fails, changing nothing, exactly if no mode is given, the name is that of a directory, or there is none and none can be created; otherwise the handle stands at the start of that file, or of a new one whose name is added to the directory |
| Names.StrToUpper | src/adf_dir.c:1279-1291 | the upper-case form of every byte, Latin-1 letters only on international volumes |
| Names.GetHashValue | src/adf_dir.c:1298-1316 | the bucket is the polynomial in 13 with the length and the upper-case bytes as coefficients, modulo 2048, then modulo 72 |
| Names.HashFormula | src/adf_dir.c:1298-1316 | the remainder that is kept at each step ends as that of the whole polynomial |
| Names.UpperIsCapital | src/adf_dir.c:1264-1274 | which bytes have another upper-case form: a to z, and on international volumes the small Latin-1 letters of a list |
| Names.SameUpperSameHash | src/adf_dir.c:1298-1316 | names that are equal in upper case are in the same chain |
| DirInv.ListingInjective | src/adf_dir.c:1183-1237 | a name, without regard to case, stands for at most one entry of a directory |
| DirLink.LinkKeeps | src/adf_dir.c:533-595 | linking an entry behind its chain keeps all chains and adds exactly one name, also when the block written is itself an entry or a directory of another chain |
| DirLink.UnlinkKeeps | src/adf_dir.c:642-660 | taking an entry out of its chain keeps all chains and takes exactly one name away |
| DirSpec.CreateAdds | src/adf_dir.c:493-606 | a created entry adds exactly one name, byte for byte as it is given, to exactly one directory |
| DirSpec.RemoveTakes | src/adf_dir.c:613-660 | a removed entry takes exactly one name out of exactly one directory, and an empty directory disappears |
| DirSpec.RenameMoves | src/adf_dir.c:700-864 | a rename or move to a name that is not taken takes exactly the old name away and adds exactly the new one, byte for byte as it is given, for the same sector; every other block keeps its name; all chains stay acyclic and bucketed, within one chain, one directory or between two |
| DirSpec.RenameKeepsDirs | src/adf_dir.c:700-864 | after it every directory still is an entry, or the root |
| Dir.ReadEntryBlock | src/adf_dir.c:998-1055 | only header blocks are entries |
| Dir.NameToEntryBlk | src/adf_dir.c:1183-1237 | finds exactly the entry with the name, without regard to case, with its predecessor in the chain; -1 exactly if there is none, the name is too long, or the table is not that of a directory |
| Dir.CreateEntry | src/adf_dir.c:493-606 | fails, changing nothing, exactly if the name is too long or taken or no sector is free; otherwise the first free sector or the one given is linked behind its chain; a block that is no directory takes it in place of an empty pointer, and is written as a directory |
| Dir.CreateFile | src/adf_dir.c:380-425 | a new empty file: one free sector taken, one name added, all chains whole; below a sector that cannot be read nothing changes, and the header of a file is turned into a directory |
| Dir.CreateDir | src/adf_dir.c:431-483 | a new empty directory, likewise |
| DirChange.IsDirEmpty | src/adf_dir.c:964-970 | the table has no pointer |
| DirChange.RemoveEntry | src/adf_dir.c:613-693 | succeeds exactly if there is such an entry and it is a directory without entries or a file with bytes; then exactly its sectors become free and all other files keep their bytes. Of a file without bytes the name is removed and the header is left without an owner; in all other cases nothing changes |
| DirChange.RenameEntry | src/adf_dir.c:700-864 | the block has the new name byte for byte and the new parent, and no other block another name; the entry is in that directory if and only if that is a directory, no other entry there has the name, and it is not moved into itself; otherwise it is in no directory any more |
| DirChange.IntoNoDirectory | src/adf_dir.c:747-848 | an entry renamed into a sector that is no directory is an entry of no forest that fits the disk, unless the sector is the header of an empty file; if it is the header of a file with data blocks, that file is in none either |
| DirChange.CreatedInFile | src/adf_dir.c:515-545 | an entry created below the header of a file with data blocks: neither is in any forest that fits |
| DirChange.FileIsBarren | src/adf_dir.c:998-1055 | every header of a file of the volume is such a sector |
| DirLost.IntoItself | src/adf_dir.c:785-864 | a directory that is moved into itself is neither an entry nor a directory of any forest that fits the disk |
| VolumeOps.CreateWhole | src/adf_dir.c:380-483 | creating keeps the volume whole: tree, files, one owner for every sector |
| VolumeOps.RemoveWhole | src/adf_dir.c:613-693 | removing keeps the volume whole and frees exactly the entry's sectors, but for the header of a file without bytes, which is left without an owner |
| VolumeOps.RenameWhole | src/adf_dir.c:700-864 | renaming keeps the volume whole, its free sectors and the bytes of all files |
| FileLinks.StepKeepsLinks | src/adf_file.c:599-697 | every operation on a file leaves name, parent and chain link of its header |
| FileLinks.StepRelabeled | src/adf_file.c:255-441 | operations on a file that is open for reading do not depend on name, parent and chain link of its header |
| VolumeFrame.FlushOfStaleHeader | src/adf_file.c:599-697 | flushing a file that was renamed, moved, or whose chain changed since it was opened keeps the directory if and only if the header in memory has the link and the directory of the place of the file, a name of its bucket, and no other entry there has the name |
| Mounted.DiskIsWhole | src/adf_dir.c:380-864 | with the files that are open for writing set apart, a mounted volume is one that the directory operations keep whole |
| Mounted.WholeIsDisk | src/adf_dir.c:380-864 | a change of the directories that keeps what is on the disk whole, and writes no block of a file open for writing, keeps every open file whole, with its bytes and position; sectors that no file has may be left without an owner |
| Mounted.WholeIsClosedDisk | src/adf_dir.c:380-864 | a whole volume of which no file is open is such a mounted volume |
| VolumeRuns.StepRefines | src/adf_dir.c:380-864 | every operation that names directories, on a mounted volume with any number of open files, be it on the directories or on a file, does to the tree of names and byte strings with positions what it should, refusals on a full volume included; there is room for as many sectors as before, but for one less if a file without bytes is removed |
| VolumeRuns.OpensInTree | src/adf_file.c:76-223 | opening by name succeeds if and only if a mode is given and the tree has a file of that name, or it is opened for writing and the tree has room for a new one |
| VolumeRuns.RunRefines | src/adf_dir.c:380-864 | over every run of creating, removing, renaming, opening or creating by name, and using files, in any order, the volume is whole, behaves as a tree that has names byte for byte as they were given and finds them without regard to case, and reads return what the tree has; the sectors left without an owner are the headers of the files without bytes that were removed |
| VolumeRuns.RunConserves | src/adf_bitm.c:612-733 | over every run, free sectors, sectors of directories and files, and headers lost by removing files without bytes are together the same set, and as many are free as the tree and the lost ones leave: one for each directory, and what the sizes stand for |
| VolumeRuns.FormattedWhole | src/adf_vol.c:114-150 | a volume with an empty root is whole and stands for the empty tree |
| VolumeRuns.BlankIsFormatted | src/adf_vol.c:114-150 | there are such volumes of every size, with the root anywhere behind sector 2 |
| VolumeRuns.ReachableIsWhole | src/adf_dir.c:380-864 | every volume reached from a formatted one is whole, but for those headers, and holds and returns what the operations make of the empty tree |
| DirTree.MoveKeepsTree | src/adf_dir.c:785-864 | after a move the directories are a tree if and only if the target is not the moved entry or below it |
| DirTree.StepKeepsTree | src/adf_dir.c:380-864 | every operation that names directories leaves a tree if and only if it does not move a directory below itself |
| DirTree.RunKeepsTree | src/adf_dir.c:380-864 | over every run without such a move the directories stay one tree |
| DirTree.ReachableIsTree | src/adf_dir.c:380-864 | on every volume reached from a formatted one without such a move the directories are one tree |
| DirTree.MoveIntoItself | src/adf_dir.c:785-864 | after a directory is moved into itself, all that is not in it can still be walked, and lists what it did but for that directory |
| Salvage.CheckParent | src/adf_salv.c:169-200 | succeeds exactly if the sector is a directory or root block in use |
| Salvage.UndelFile | src/adf_salv.c:261-387 | for any entry whose listed blocks fit the vectors and are on the volume, overwritten ones included, succeeds exactly if parent, name and all listed sectors allow it; on every failure, also of the late insertion, bitmap and disk are as before |
| Salvage.IntactSectors | src/adf_salv.c:295-335 | for a removed file whose blocks are intact, the sectors found are those the file had; for one without bytes it fails |
| Salvage.UndelDir | src/adf_salv.c:207-254 | for any entry block, succeeds exactly if parent, sector and name allow it; when only the name does not, the sector stays taken, and on every other failure nothing changes |
| Undelete.UndeleteWhole | src/adf_salv.c:261-387 | undeleting a file with bytes and without chain link finds its sectors and keeps the volume whole, with the old bytes |
| Undelete.RemoveThenUndelete | src/adf_dir.c:662-666 | removing and undeleting a file with bytes that is the last entry of its chain restores free sectors, listings and the bytes of all files |
| Undelete.EmptyStaysLost | src/adf_file_block.c:75-80 | a removed file without bytes is in no directory, its header is not free, and undeleting it is refused |
| Undelete.NoCycles | src/adf_salv.c:349-362 | no directory invariant fits a disk whose chain comes back to an entry |
| Undelete.UndeleteExact | src/adf_salv.c:349-362 | after removing and undeleting a file the chains of its directory can be walked if and only if it was the last of its chain, or has no bytes and is not undeleted |
| Undelete.RemoveThenUndelDir | src/adf_salv.c:207-254 | removing and undeleting an empty directory that is the last entry of its chain restores free sectors and listings |
| Undelete.UndelDirExact | src/adf_salv.c:207-254 | after removing and undeleting an empty directory the chains can be walked if and only if it was the last of its chain |
| Undelete.RemovedDirRefuses | src/adf_salv.c:169-200 | nothing is undeleted into a directory that was removed, though its block still is that of a directory |
| Undelete.UndelDirLosesSector | src/adf_salv.c:237-243 | when the name of a directory is refused, its sector is neither free nor has an owner, and all else is as it was |
| Rebuild.GetRDirEnt | src/adf_dir.c:152-280 | the recursive listing has exactly the entries below the directory, down to level 512 |
| Rebuild.FileBlocksSetUsed | src/adf_bitm.c:953-986 | marks exactly the data and extension sectors of a file as used |
| Rebuild.ListSetUsed | src/adf_bitm.c:879-950 | marks exactly the sectors of the listed entries, subdirectories included; no directory leads to cache blocks |
| Rebuild.ReconstructBitmap | src/adf_bitm.c:443-605 | fails, changing no bit, exactly if the walk along the pointers does; otherwise, whatever the bitmap said, free is in the end exactly what neither the listing of the tree nor the list of pages reaches, but for the last sector |
| Rebuild.RebuildKeepsConsistent | src/adf_bitm.c:561-605 | a bitmap that is right stays as it is, if every block of the volume's own is a page and everything is listed |
| Rebuild.RebuildIdempotent | src/adf_bitm.c:561-605 | rebuilding twice is rebuilding once, for the same list of pages |
| Rebuild.ReconstructTwice | src/adf_bitm.c:443-605 | a second rebuild, its walk along the pointers included, changes nothing |
| Rebuild.RebuildExact | src/adf_bitm.c:561-605 | the rebuild is right if and only if the last sector is not wrongly marked used, every block of the volume's own is in the page list, and every entry is listed, where a block on the last sector that is marked used does not count; a sector that was lost is not in that list either, and becomes free |
| Rebuild.DepthsOfAre | src/adf_dir.c:152-280 | every forest gives each directory that the root leads to its depth |
| Rebuild.ShallowTreeListed | src/adf_dir.c:152-280 | in a tree not deeper than 512 levels everything is listed |
| Raw.TableFillsBlocks | src/adf_raw.c:46-130 | the spans of each row fill the block exactly |
| Raw.TableFitsBlocks | src/adf_raw.c:46-130 | the bytes that each row leaves in place are exactly the character fields of the block structure, but for an unused longword of an entry block |
| Raw.SwapTwice | src/adf_raw.c:141-180 | swapping is its own inverse, for every table |
| Raw.CharsStay | src/adf_raw.c:141-180 | exactly the bytes of character spans stay in place |
| Raw.HostReads | src/adf_raw.c:141-180 | after a swap every longword of a block is read by a little-endian host as it is on the disk, and every character |
| Raw.VersionsExchanged | src/adf_raw.c:119-125 | of a file system header the two version numbers are exchanged by the swap |
| Raw.SwapEndian | src/adf_raw.c:141-180 | the nested loops swap the block in place as the table says |
| Raw.NormalSum | src/adf_raw.c:369-380 | the checksum and the plain, unbounded sum of all other longwords add up to a multiple of 2^32 |
| Raw.ChecksumCancels | src/adf_raw.c:369-380 | so it does for blocks of every length and every place of the checksum |
| Raw.BitmapSum | src/adf_raw.c:386-392 | the same checksum, with its place at the first longword |
| Raw.SealedPasses | src/adf_raw.c:369-380 | a block with its checksum stored sums to 0 and passes the check |
| Raw.ChangeIsDetected | src/adf_raw.c:369-380 | any change of one other longword fails the check |
| Raw.ChecksumIsLong | src/adf_raw.c:46-130 | in every block type with a checksum, it is swapped as a longword |
| Raw.StoreBlock | src/adf_file_block.c:371-397 | how a block is made ready to be written: swapped, with its checksum stored |
| Raw.FetchBlock | src/adf_file_block.c:307-340 | how a block is read: swapped back, its checksum compared |
| Raw.WriteThenRead | src/adf_file_block.c:307-397 | a block that is written and read passes the check, with all other fields as they were |
| Raw.RootReadAsEntry | src/adf_dir.c:1003-1020 | reading the root as an entry and writing it as a root keeps it if and only if the bytes both rows disagree on read the same both ways |
| Raw.BootSum | src/adf_raw.c:399-413 | the complement of the plain sum of the longwords but number 1, carried as in Raw.BootSumIsModulo |
| Raw.BootSum2 | src/adf_raw.c:415-429 | the same result, on every buffer |
| Raw.BootSumIsModulo | src/adf_raw.c:399-429 | the sum with end-around carry is the plain sum modulo 0xffffffff, where only a sum of nothing gives 0 |
| Cache.RecordUnique | src/adf_cache.c:138-207 | bytes are the record of at most one entry |
| Cache.RecordsUnique | src/adf_cache.c:138-207 | the bytes of a block determine the list of its entries |
| Cache.RecordOfA | src/adf_cache.c:215-257 | the bytes of one record, written out |
| Cache.GetFindsRecord | src/adf_cache.c:138-207 | at a record, its entry is read and the place behind it, which is even |
| Cache.GetIsRecord | src/adf_cache.c:138-207 | what is read as an entry is its record |
| Cache.GetExact | src/adf_cache.c:138-207 | an entry is read if and only if these are its fields, its name has 1 to 30 bytes and its comment no more than 79, and it ends within 512 bytes |
| Cache.LengthsAgree | src/adf_cache.c:265-296 | from the record of a directory entry its key, access, dates, type, name and comment are read back, and its size if it is a file and 0 if not; the three computations of its length agree |
| Cache.ReadsBehindRecords | src/adf_cache.c:138-190 | a block and an offset at which no check fails, and bytes behind the records become part of the entry |
| Cache.PutStaysInside | src/adf_cache.c:440-467 | all bytes that adding an entry puts are within the records of the old block if and only if its record fits there |
| Cache.NewBlockUnreadable | src/adf_cache.c:453-472 | the block that is added for a record that did not fit cannot be read: it counts one record and its bytes are none |
| Cache.DirCacheBlock.GetCacheEntry | src/adf_cache.c:138-207 | reads as specified, with all of its refusals |
| Cache.DirCacheBlock.PutCacheEntry | src/adf_cache.c:215-257 | writes exactly the record of the entry, no byte outside it |
| Cache.DirCacheBlock.DelFromBlock | src/adf_cache.c:323-358 | removes the first entry with the key from the list, or finds none and changes nothing |
| Cache.DirCacheBlock.UpdateInBlock | src/adf_cache.c:487-560 | in a cache of one block, replaces that entry in the list when its record is not longer; a longer one is deleted and added behind the last, if it fits; the record then describes the directory entry, as in Cache.LengthsAgree |
| Cache.DirCacheBlock.AddInBlock | src/adf_cache.c:405-443 | appends the entry to the list exactly if its record fits; the last record then describes the directory entry, as in Cache.LengthsAgree |
| FileExamples.ReadDropsBlock | src/adf_file.c:280-301 | a file of two blocks of which the first is changed, and a read across both: the content is not kept |
| FileExamples.ShortWriteLoses | src/adf_file.c:332-341 | a full volume, one more byte, and a seek to the start: the last block is lost |
| FileExamples.RefusedAppendDangles | src/adf_file.c:1050-1150 | 72 blocks and one free sector: after the refused append no layout fits the handle |
| FileExamples.CutLeavesFreedBlock | src/adf_file.c:472-592 | a file of two blocks cut to one from its start: no layout fits the handle |
| FileExamples.CutMissesNewExt | src/adf_file.c:754-949 | a byte written behind 72 full blocks, and the file cut to one byte: refused |
| FileExamples.DamagedExceeds | src/adf_file_block.c:42-138 | an extension block that lists 72 blocks where the size leaves room for one |
| VolumeExamples.RenameLosesEntry | src/adf_dir.c:700-864 | two files, one renamed to the name of the other |
| VolumeExamples.RenameIntoNowhere | src/adf_dir.c:747-787 | a file renamed into a sector that cannot be read: it is in no directory any more |
| VolumeExamples.RenameTurnsFile | src/adf_dir.c:785-848 | a file renamed into another file: that one is a directory now |
| VolumeExamples.CreateTurnsFile | src/adf_dir.c:515-545 | a file created below another file: that one is a directory now |
| VolumeExamples.MoveLosesDirectory | src/adf_dir.c:785-864 | a directory moved into itself |
| VolumeExamples.MoveDetachesDirectory | src/adf_dir.c:785-864 | a directory moved into the one it holds: no tree any more |
| VolumeExamples.FlushBreaksChain | src/adf_file.c:599-697 | a file is opened, another one created behind it in its chain, and the first one flushed: the chain is broken |
| VolumeExamples.UndeleteMakesCycle | src/adf_salv.c:349-362 | the first of two files of a chain, which has a byte, is removed and undeleted: no forest fits |
| VolumeExamples.UndelDirMakesCycle | src/adf_salv.c:207-254 | the first of two empty directories of a chain is removed and undeleted: no forest fits |
| VolumeExamples.UndelDirTakesSector | src/adf_salv.c:237-243 | a directory whose name is taken is undeleted: refused, and its sector is lost |
| VolumeExamples.RemoveLosesHeader | src/adf_file_block.c:75-80 | a file is created and removed: its sector is not free, no directory lists it, it cannot be undeleted, and only rebuilding the bitmap makes it free |
| VolumeExamples.RebuildFreesOwnBlock | src/adf_bitm.c:561-605 | a block of the volume's own that no page pointer names becomes free |
| VolumeExamples.RebuildMissesLast | src/adf_bitm.c:561-567 | the last sector is free and wrongly marked used: it stays so |
| VolumeExamples.RebuildFreesDetached | src/adf_bitm.c:561-605 | a directory moved into the one it holds: the rebuild calls its sector free |
| VolumeExamples.PagesShareSector | src/adf_bitm.c:408-417 | 26 pages: the last one is on the sector of the first one, and a sector is lost |
| VolumeExamples.RootLosesPage | src/adf_dir.c:1003-1020 | a root whose fourth pointer is sector 1 gets another one |

## Left out

- Blocks on the modelled disk hold decoded headers, extension blocks and data, not bytes; the byte formats and checksums are in `Raw` and `Cache` by themselves. A sector that holds another kind of block reads as an error, where the library would report a bad checksum or type.
- The `Node` of a root block has no pointers to bitmap pages; those and the bitmap extension blocks are values of their own in `BitmapPages`, so what `Raw.RootReadAsEntry` says about them is not part of the directory operations. The contents of the pages are an array of their own in `Volume`, not at their sectors.
- The Old File System: its data blocks are linked and its handle state follows other rules.
- Directory-cache blocks in directory operations; growing a cache into a new block, and deleting the only record of a block behind another. `Cache` edits one block.
- Hard and soft links; comments, access bits and time stamps of entries, and volumes that are read-only.
- Device drivers, mounting, partitions, boot blocks, logging, and failure of memory or of a device. Error returns that only these can cause are not coded, such as giving a sector back when writing an entry fails.
- Names are sequences of bytes without a zero byte.
- The invariants ask directories and extension blocks on the disk to have what the library itself writes in their type and in the fields they do not use; disks of other programs that have something else there are not modelled.
- AdfFileModule.AdfFile.Read: says what is returned when position and count do not add up beyond 32 bits, because the sum wraps in the code; otherwise only that it computes the specification, which wraps too.
- FileWrite.WriteRefines: file sizes do not wrap at 32 bits when a file grows.
- FileVectors.GetFileBlocks: the pointers an entry lists must fit into the vectors that are allocated for its size, as they do whenever the walk succeeds; beyond them the code would write behind its memory. `FileVectors.FreeFileBlocks` and `Salvage.UndelFile` also ask that the listed sectors are on the volume, and `Salvage.UndelDir` that the sector of the entry is, where the code would use a bit outside the bitmap.
- Salvage.UndelFile: a parent that is a directory block in use must be one of the directories the chains are known of; likewise for `Salvage.UndelDir`.
- AdfFileModule.AdfFile.GetBlocksToRemove: the extension chain on the disk must end where the size says, or at a block that cannot be read; beyond that the code would write behind its memory. `AdfFileModule.AdfFile.Truncate` also asks that what is listed is on the volume. Both hold whenever the walk finds the blocks beyond the new size.
- FileOpen.OpenFile: the file must not be open for writing already. When there is no file of the name and it is opened for reading and writing, the code tests the access bits of an entry that the lookup may not have filled, or that is the last of the chain, and may refuse; here, as in `VolumeRuns.OpenNamed`, the file is always created.
- VolumeRuns.RunRefines: the sectors named as directories are directories or cannot be read as an entry block, and the target of a rename is a directory; an operation on directories writes none of the headers of files that are open for writing, and a file is closed before it is removed or opened; `DirChange.IntoNoDirectory`, `DirChange.CreatedInFile` and `VolumeFrame.FlushOfStaleHeader` say what happens otherwise. An entry is not renamed to a name that is taken, nor moved into itself; `DirChange.RenameEntry` says what happens then.
- DirTree.StepKeepsTree: likewise only for operations that name directories.
- DirChange.RenameEntry: a sector that is no directory is one that cannot be read, or a header whose table leads to no entry block, as that of every file; old headers on free sectors that lead to entries are left out, likewise for `DirChange.RemoveEntry`, `Dir.CreateFile` and `Dir.CreateDir`. An old name of more than 30 bytes is refused, but only after its upper-case form was copied to where there is room for 30; that copy is not modelled.
- Rebuild.ReconstructBitmap: what the walk leaves in the list of pages must be sectors of the volume's own, and no file is open for writing. The bitmap is not released when it fails.
- Rebuild.GetRDirEnt: only for directories that are whole; the code's checks against some cycles never apply then.
- Volume.AdfVolume.GetFreeBlocks: the root block must lie behind sector 2, as it does on every volume; from sector 2 the scan would not end on a full volume.
- Volume.AdfVolume.ReadBitmap: the contents only; where the pages are is `BitmapPages.FindPages`, and a page with a bad checksum is not modelled.
- BitmapPages.FindPages: the extension blocks come to an end; along a cycle of them the code would not stop.
- VolumeFormat.FormatVolume: for volumes whose root block is free after adfCreateBitmap; on others the root block is written elsewhere. `VolumeFormat.CreatedFreeExact` says which sectors are free then.
- Cache.DirCacheBlock.GetCacheEntry: the record must lie within the 488 bytes of the block's records. The code compares its offsets with the size of the whole block, 512, and a record that reaches beyond the 488 bytes would be read from outside of them; that reading is not modelled.
- Cache.DirCacheBlock.UpdateInBlock: when the longer record does not fit, the code goes on with a new block; of that only what `Cache.PutStaysInside` and `Cache.NewBlockUnreadable` say is modelled. Likewise for `Cache.DirCacheBlock.AddInBlock`.
- Checking deleted entries for consistency, and listing them.
- Conversions between dates and Amiga time.
