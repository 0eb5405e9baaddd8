# CP/M file system, simulated disks, Z80 core and decoders: models and proofs

This Dafny project models the hard core of a CP/M tool collection and proves what it is for. The repository holds
six pieces of logic that are easy to get subtly wrong, and each has its own group of modules here:

1. **The cpmtools file system engine** (`cpmfs.c`, and the copying loops of `cpmcp.c`). `SuperBlock` is a class with
   an in-core directory, a packed allocation bitmap and a sector store. Creating, appending, reading, renaming and
   unlinking are methods on it. The main results: every run of these operations does to the files exactly what the
   same operations do to a map from names to byte strings, the allocation invariant holds throughout, and files that
   are not mentioned keep every entry and every byte (`CpmRuns`); a file appended to in any pieces and read in any
   pieces gives its bytes back, and copying in and out is the identity (`CpmCopy`); the size that a later lookup
   computes is right exactly under a stated condition (`RecordedSize`, `CpmNames`); a listing names every file once,
   and a listed name finds its file exactly if it has no embedded blanks or odd characters (`CpmListing`, `Names`).
   `CpmLaws` says where each byte of a file is on the device, `NameLaws` which names are accepted.
2. **The simulator's Unix-directory disk** (`monitor.c`, `ybios.c`). File names are turned into CP/M names (`HostNames`),
   host files are laid out as a made-up CP/M directory (`MountDir`) whose table satisfies the same invariant as a real
   one; `MountLaws` says which files are listed, and `DirectoryRoom` exactly when that table is too small. Sectors are
   served through a four-entry move-to-front cache of open streams (`FileCache`): for every sequence of reads, mounts,
   unmounts and selections the answers are those of direct reads of the owning files, and as long as no mounted disk is
   replaced and no read fails the cache holds the four files used last. `UnixDiskReads` says what a program finds in the
   sectors, byte by byte.
3. **The allocator for CP/M memory** (`monitor.c`): first fit with skipping, in a bitmap (`CpmRam`).
4. **The Z80 step loop** (`simz80.c`). `Z80Cpu` is a machine with proper 16-bit registers, written from the
   instruction descriptions; `Z80` to `Z80Block` follow the simulator, whose host registers drift above 16 bits.
   The instruction set is complete, with the CB, ED, DD and FD pages, but for the ports. A run of any length on host
   registers projects onto a run of that machine (`Z80Run`). LDIR, LDDR, CPIR and CPDR are loops that compute flags once,
   and equal repeated single instructions; LDIR and LDDR copy a block exactly if the destination does not start strictly
   inside the source, counting in their direction (`Z80Copy`). Laws with opcodes and flag bits written out say what single
   steps of the machine do (`Z80Laws`, `Z80DataLaws`, `Z80BitLaws`, `Z80WordLaws`, `Z80SystemLaws`, `Z80IndexLaws`,
   `Z80BlockLaws`); ADC or SBC followed by DAA, over byte strings of any length, add and subtract decimal numbers
   (`Z80Decimal`).
5. **GNU getopt's permuting scan** (`getopt.c`): the in-place rotation and the scan over all calls, against a
   recursive description of what an argument vector means (`Exchange`, `Getopt`), with laws over the characters of the
   option string (`GetoptLaws`).
6. **The LoadDskF decompressor** (`compdskf.c`): a linked dictionary expanded through a stack, against a decoder that
   keeps whole strings (`LzwTokens`, `Lzw`). The repository has no compressor; one that takes the longest string each
   time is written down as its partner, and decompressing undoes it for every byte sequence (`LzwCompress`).

Code that changes state in place is a class with methods or a method with loops; each is proved against functions of
the old state, and what the code promises is proved about these functions.

## Where the code falls short of what one might expect

Each of these is a proved statement with its exact condition.

* **Recorded size.** `cpmWrite` computes the extent number only when it enters a directory entry. After one call that
  has written bytes n0 to n1 - 1, the size that `cpmNamei` computes is n1 exactly if both ends lie in the same 16K
  extent or the last 16K extent is the first of its entry (`CpmNames.ExactSizeIff`). 20000 bytes written in one call
  to a disk with two 16K extents per entry are found as 3616 bytes (`CpmNames.OneCallTooLong`). `cpmcp` writes chunks
  of 2048 bytes, for which the size is always right (`CpmCopy.ChunkRecordsExactSize`).
* **Skew table.** The generated table is a permutation for every skew, and equals i * skew modulo the sector count
  exactly if the skew is prime to that count (`Skew.PlainSkewIffCoprime`).
* **The misplaced read.** To keep the rest of a partial block, `cpmWrite` reads its last sector to twice its offset in a
  buffer of 16K. `CpmAppend.TailReadFits` holds exactly if every byte of that read lands inside the buffer
  (`CpmAppend.TailReadFitsIff`), and is all that `CpmWrite` asks for. Blocks up to 8K are always safe
  (`CpmAppend.SmallBlocksFit`); on a disk with 16K blocks and 128-byte sectors, appending 2048 bytes at position 8192 is
  not (`CpmAppend.LargeBlocksMayOverflow`).
* **Made-up directory.** The test that all entries of a file fit ignores the slots that hold date stamps. It is good
  enough exactly for files of up to four entries, and of at least 74, for which the disk is full first
  (`DirectoryRoom.TestSufficesIff`); for every size between there is a directory that overflows the table
  (`DirectoryRoom.LargeFileOverflows`). Moreover `cpmsize` writes a name into the next slot before any test is made:
  1523 one-block files fill the table, and then any member whose name gets written, listed or not, overflows it
  (`DirectoryRoom.FullTableOverflows`). Among files of safe sizes that is the only way
  (`DirectoryRoom.OverflowIff`). `MountDir` reports an overflow and stops there. A file with the name of the disk label
  is not listed (`MountDir.DuplicateMeansTaken`).
* **LZW token 257.** The expansion loop takes token 257 for a literal, unlike the comment at the top of the file. Each
  token whose expansion starts from 257 loses one byte; the output is right exactly if there is none
  (`Lzw.OutputExactIff`, `Lzw.OutputLength`, example `Lzw.Through257Loses`).
* **Allocator.** The bound of the search loop never hands out a region that ends at the disk parameter table; `Pool.Fits`
  says so, and `CpmAlloc` finds the lowest region that fits in this sense.
* **LDIR and LDDR.** With different bytes at the two pointers the block arrives as it was exactly if the destination
  does not start strictly inside the source, counting addresses modulo 2^16, up or down (`Z80Copy.CopyIff`).
* **Undocumented opcodes.** Where the instruction descriptions leave an opcode undefined, `Z80Cpu` says what the
  simulator does: an ED or DD prefix before an opcode without a meaning is ignored, and DD CB with a register operand
  works on the register as the CB page does.

## Assumptions

Disk definitions are the usable ones: the sector length divides the block size, the pointers of an entry describe a
whole number of 16K extents, the directory fits on the disk, there are at most 65536 blocks of at most 16K
(`Geometry.DiskShape.Valid`; `Geometry.Definitions` shows two). Writes append to a file that was created empty. A
call of `CpmWrite` may start anywhere in a block, if its misplaced read stays in the buffer (see above). Files end at
32 megabytes, where the extent number would wrap. Host files do not change while a directory is mounted.

## Model

| member | source | states |
|---|---|---|
| Skew.ProbeEnds | cpm/cpmtools-cpm4l-cpmtools-2.21/cpmfs.c:1052-1059 | Probing from any start meets a free sector within one revolution, so the inner loop ends |
| Skew.NextUnused | cpm/cpmtools-cpm4l-cpmtools-2.21/cpmfs.c:1052-1060 | The slot gets the first free sector at or behind its start; all sectors passed are in use |
| Skew.MakeSkewTable | cpm/cpmtools-cpm4l-cpmtools-2.21/cpmfs.c:1040-1062 | For every skew the finished table is a permutation of the sectors, and slot by slot the first free choice |
| Skew.PlainSkewIffCoprime | cpm/cpmtools-cpm4l-cpmtools-2.21/cpmfs.c:1040-1062 | The table is i * skew modulo n exactly if gcd(skew, n) = 1 |
| Geometry.LocInRange | cpm/cpmtools-cpm4l-cpmtools-2.21/cpmfs.c:348-366 | Every sector of every block lies behind the boot tracks and before the end of the device |
| Geometry.LocInjective | cpm/cpmtools-cpm4l-cpmtools-2.21/cpmfs.c:348-396 | Different (block, sector) pairs live in different device sectors |
| Geometry.DirectoryBlocks | cpm/cpmtools-cpm4l-cpmtools-2.21/cpmfs.c:270 | A block is a directory block exactly if it holds a byte of the directory table, 32 bytes an entry |
| CpmLaws.BlockByteLaw | cpm/cpmtools-cpm4l-cpmtools-2.21/cpmfs.c:335-369 | Byte o of block b is data byte b * blksiz + o: in the sector skewtab[l % sectrk] of track l / sectrk behind the boot tracks, where l is that position in sectors |
| BlockIO.ReadStart | cpm/cpmtools-cpm4l-cpmtools-2.21/cpmfs.c:348-349 | Where the running track and sector of a read start: the linear position of the block behind the boot tracks |
| BlockIO.WriteStart | cpm/cpmtools-cpm4l-cpmtools-2.21/cpmfs.c:380-381 | The differently computed start of a write is the same place |
| BlockIO.OtherBlocksUntouched | cpm/cpmtools-cpm4l-cpmtools-2.21/cpmfs.c:372-399 | Writing one block changes no byte of another block and no boot track |
| BlockIO.TransferSectors | cpm/cpmtools-cpm4l-cpmtools-2.21/cpmfs.c:1784-1787 | The first and last sector computed from offset and count cover the transfer |
| AllocVector.MarkOne | cpm/cpmtools-cpm4l-cpmtools-2.21/cpmfs.c:272-296 | Marking a block changes its bit and no other |
| CpmFs.SuperBlock.constructor | cpm/cpmtools-cpm4l-cpmtools-2.21/cpmfs.c:1064-1100 | A disk that has not been opened gets an empty directory and a bitmap that agrees with it |
| CpmFs.SuperBlock.AlvInit | cpm/cpmtools-cpm4l-cpmtools-2.21/cpmfs.c:258-302 | The rebuilt bitmap marks exactly the directory blocks and the blocks that live entries point to |
| CpmFs.SuperBlock.AllocBlock | cpm/cpmtools-cpm4l-cpmtools-2.21/cpmfs.c:305-330 | The lowest free block, marked; -1 only if none is free |
| CpmFs.MarkedBlocks | cpm/cpmtools-cpm4l-cpmtools-2.21/cpmfs.c:258-302 | A bit of the bitmap is set exactly if the block holds a byte of the directory table or a live entry points to it |
| CpmFs.FirstBlock | cpm/cpmtools-cpm4l-cpmtools-2.21/cpmfs.c:258-330 | On a disk without files the first block handed out is the lowest that starts at or behind the end of the directory table; there is none exactly if every block holds a part of it |
| CpmFs.SuperBlock.ReadBlock | cpm/cpmtools-cpm4l-cpmtools-2.21/cpmfs.c:335-369 | The requested sectors arrive at their place in the buffer, the rest of the buffer stays; blocks off the disk are refused |
| CpmFs.SuperBlock.WriteBlock | cpm/cpmtools-cpm4l-cpmtools-2.21/cpmfs.c:372-399 | The requested sectors of the block become the buffer, every other byte of the block and of the disk stays |
| CpmFs.SuperBlock.FindFileExtent | cpm/cpmtools-cpm4l-cpmtools-2.21/cpmfs.c:404-418 | The lowest matching entry from the start on, comparing physical extents; -1 if there is none |
| CpmFs.SuperBlock.FindFreeExtent | cpm/cpmtools-cpm4l-cpmtools-2.21/cpmfs.c:421-428 | The lowest erased entry; -1 only if there is none |
| Directory.FindUnique | cpm/cpmtools-cpm4l-cpmtools-2.21/cpmfs.c:404-418 | Under the invariant a physical extent of a file has one place, which every search finds |
| CpmLaws.OwnsLaw | cpm/cpmtools-cpm4l-cpmtools-2.21/cpmfs.c:114-128 | Whose entry it is: a user number of at most 15 or 31, and equal names but for the top bits |
| CpmLaws.PhysLaw | cpm/cpmtools-cpm4l-cpmtools-2.21/cpmfs.c:404-418 | The number of an entry: five bits of ex and six of s2, divided by the 16K extents of an entry |
| CpmLaws.PtrLaw | cpm/cpmtools-cpm4l-cpmtools-2.21/cpmfs.c:281-296 | Pointers are bytes below 256 blocks, and otherwise words with the low byte in front |
| DirectoryChanges.AddPointer | cpm/cpmtools-cpm4l-cpmtools-2.21/cpmfs.c:1771-1783 | Hanging a free block on an empty slot and marking it keeps the allocation invariant |
| DirectoryChanges.AddExtent | cpm/cpmtools-cpm4l-cpmtools-2.21/cpmfs.c:1748-1760 | A new extent of a file keeps the invariant |
| DirectoryChanges.AddPointerShape | cpm/cpmtools-cpm4l-cpmtools-2.21/cpmfs.c:1771-1783 | The file then has one block more, in the next slot, and the blocks before are the same |
| FileData.PositionSlot | cpm/cpmtools-cpm4l-cpmtools-2.21/cpmfs.c:1681-1698 | Extent and slot computed from a file position are those of the block that holds it |
| CpmLaws.FileByteLaw | cpm/cpmtools-cpm4l-cpmtools-2.21/cpmfs.c:1647-1730 | The byte of a file at any position, from the bits of the directory entries to the sector on the device; zero if there is no entry or no block |
| FileData.OtherFilesRead | cpm/cpmtools-cpm4l-cpmtools-2.21/cpmfs.c:1733-1856 | If only one file's entries and blocks change, no byte of any other file changes |
| AppendSteps.ChunkAppended | cpm/cpmtools-cpm4l-cpmtools-2.21/cpmfs.c:1810-1820 | A block written from the append position on makes the file grow by exactly that chunk |
| AppendSteps.ChunkLeavesOthers | cpm/cpmtools-cpm4l-cpmtools-2.21/cpmfs.c:1810-1820 | It changes no boot track, no directory block and no block of another file |
| CpmFiles.CpmRead | cpm/cpmtools-cpm4l-cpmtools-2.21/cpmfs.c:1647-1730 | Returns the next bytes of the file, as many as asked for and left, and advances by as many; holes read as zeros |
| CpmAppend.OpenExtent | cpm/cpmtools-cpm4l-cpmtools-2.21/cpmfs.c:1743-1763 | Finds the entry for the position, or makes a new one in the first erased slot, fails only if none is erased |
| CpmAppend.NewBlock | cpm/cpmtools-cpm4l-cpmtools-2.21/cpmfs.c:1771-1783 | An empty slot gets a fresh block; fails only on a full disk |
| CpmAppend.ReadTail | cpm/cpmtools-cpm4l-cpmtools-2.21/cpmfs.c:1796-1803 | The read of the last sector lands at twice its offset, inside the buffer, and disturbs nothing the append uses |
| CpmAppend.TailReadFitsIff | cpm/cpmtools-cpm4l-cpmtools-2.21/cpmfs.c:1786-1803 | The precondition of a write holds exactly if every byte of the misplaced read, when there is one, lands inside the 16K buffer |
| CpmAppend.SmallBlocksFit | cpm/cpmtools-cpm4l-cpmtools-2.21/cpmfs.c:1786-1803 | With blocks up to 8K it always does |
| CpmAppend.LargeBlocksMayOverflow | cpm/cpmtools-cpm4l-cpmtools-2.21/cpmfs.c:1786-1803 | With 16K blocks and 128-byte sectors, 2048 bytes at 8192 read behind the buffer, 100 bytes at 100 do not |
| CpmAppend.FlushBlock | cpm/cpmtools-cpm4l-cpmtools-2.21/cpmfs.c:1820-1848 | Writes the block and records extent number, record count and last record byte count of the new end |
| CpmAppend.CpmWrite | cpm/cpmtools-cpm4l-cpmtools-2.21/cpmfs.c:1733-1856 | Appends a prefix of the buffer and nothing else: the file grows by it, every other file, the boot tracks and the directory blocks stay, the invariant is kept; it is shorter only on a full disk or directory |
| RecordedSize.AppendsToLastExtent | cpm/cpmtools-cpm4l-cpmtools-2.21/cpmfs.c:1745-1748 | An append continues in the last extent the file has |
| RecordedSize.WrittenExtentRecords | cpm/cpmtools-cpm4l-cpmtools-2.21/cpmfs.c:1837-1848 | After a block has been written the last entry records the position reached |
| CpmLaws.StampedLaw | cpm/cpmtools-cpm4l-cpmtools-2.21/cpmfs.c:1837-1848 | The recorded counts cover the last 16K exactly: records in use, and the bytes used or, on ISX disks, unused in the last one |
| Names.SplitFilename | cpm/cpmtools-cpm4l-cpmtools-2.21/cpmfs.c:68-112 | The loops compute the parse: two digits, name and extension padded and in upper case, illegal characters refused |
| Names.ListName | cpm/cpmtools-cpm4l-cpmtools-2.21/cpmfs.c:1588-1598 | The loops compute the listed form of a name |
| Names.ListedNameParses | cpm/cpmtools-cpm4l-cpmtools-2.21/cpmfs.c:68-112 | Listing a stored name and parsing it gives the name back exactly if it is plain |
| NameLaws.ParseLaw | cpm/cpmtools-cpm4l-cpmtools-2.21/cpmfs.c:68-112 | Which names are accepted, over literal characters, and that the fields hold name and extension in capitals, padded with blanks |
| NameLaws.NoUserNumber | cpm/cpmtools-cpm4l-cpmtools-2.21/cpmfs.c:78-82 | Names that do not start with two digits are refused |
| NameLaws.ListLaw | cpm/cpmtools-cpm4l-cpmtools-2.21/cpmfs.c:1588-1598 | The listed form: two digits, the name in small letters, a dot only before an extension, both up to the first blank |
| CpmNames.CpmCreat | cpm/cpmtools-cpm4l-cpmtools-2.21/cpmfs.c:1865-1902 | A new empty file in an erased entry; refused exactly for an illegal or existing name or a full directory, and then nothing changes |
| CpmNames.CpmUnlink | cpm/cpmtools-cpm4l-cpmtools-2.21/cpmfs.c:1434-1457 | Erases exactly the entries of the file and rebuilds the bitmap; refused exactly if there is no such file |
| CpmNames.CpmRename | cpm/cpmtools-cpm4l-cpmtools-2.21/cpmfs.c:1460-1491 | All entries of the file change their name, keeping attribute bits; refused exactly if the old name is missing or the new one exists |
| CpmNames.CpmNamei | cpm/cpmtools-cpm4l-cpmtools-2.21/cpmfs.c:1304-1354 | Finds the entry with the lowest extent number, and the size from the one with the highest |
| CpmLaws.SizeLaw | cpm/cpmtools-cpm4l-cpmtools-2.21/cpmfs.c:1334-1355 | The size in terms of ex, s2, record count and last record byte count, a signed byte on ISX disks |
| CpmLaws.NewFileLaw | cpm/cpmtools-cpm4l-cpmtools-2.21/cpmfs.c:1884-1893 | A new entry holds the name and is zero behind it |
| CpmLaws.EraseLaw | cpm/cpmtools-cpm4l-cpmtools-2.21/cpmfs.c:1449-1455 | Unlinking puts E5 in front of the entries of the file and changes no other byte |
| NameOps.ParsedKeyOk | cpm/cpmtools-cpm4l-cpmtools-2.21/cpmfs.c:68-112 | A parsed name has a legal user number and no attribute bits |
| NameOps.CreateKeeps | cpm/cpmtools-cpm4l-cpmtools-2.21/cpmfs.c:1884-1893 | Creating keeps the invariant and leaves an empty file |
| NameOps.UnlinkKeeps | cpm/cpmtools-cpm4l-cpmtools-2.21/cpmfs.c:1449-1455 | Unlinking keeps the invariant, leaves no entry of the file and touches no other |
| NameOps.RenameKeeps | cpm/cpmtools-cpm4l-cpmtools-2.21/cpmfs.c:1483-1489 | Renaming keeps the invariant |
| NameOps.RenameMovesFile | cpm/cpmtools-cpm4l-cpmtools-2.21/cpmfs.c:1483-1489 | The file lives on under its new name with the same blocks and recorded size |
| NameOps.RenameLeavesOthers | cpm/cpmtools-cpm4l-cpmtools-2.21/cpmfs.c:1483-1489 | No other file changes |
| CpmNames.LookupSize | cpm/cpmtools-cpm4l-cpmtools-2.21/cpmfs.c:1330-1354 | The size computed on lookup is the number of bytes written exactly if the recorded extent is that of the last byte, or a new empty extent follows |
| CpmNames.ExactSizeIff | cpm/cpmtools-cpm4l-cpmtools-2.21/cpmfs.c:1837-1848 | Which single calls of cpmWrite leave the right size, in numbers the caller knows |
| CpmNames.OneCallTooLong | cpm/cpmtools-cpm4l-cpmtools-2.21/cpmfs.c:1837-1848 | 20000 bytes in one call on a disk with two extents per entry are found as 3616 bytes |
| CpmNames.BlocksAccounted | cpm/cpmtools-cpm4l-cpmtools-2.21/cpmfs.c:1400-1422 | Every block is a directory block, free, or a block of a live entry |
| CpmNames.CpmStatFS | cpm/cpmtools-cpm4l-cpmtools-2.21/cpmfs.c:1392-1431 | Free blocks: those behind the directory table that no file has; used blocks: those live entries point to; free entries: the erased ones |
| CpmListing.CpmReaddir | cpm/cpmtools-cpm4l-cpmtools-2.21/cpmfs.c:1508-1611 | Delivers the listing element by element: what is left at a position is the element returned and what is left at the new position |
| CpmListing.ListAll | cpm/cpmtools-cpm4l-cpmtools-2.21/cpmfs.c:1508-1611 | Reading to the end gives ".", ".." and then the first extent of every file, in directory order |
| CpmListing.ListedOnce | cpm/cpmtools-cpm4l-cpmtools-2.21/cpmfs.c:1577-1585 | Of every file exactly one entry is listed, the one with its lowest extent number |
| CpmListing.ListedNameFinds | cpm/cpmtools-cpm4l-cpmtools-2.21/cpmfs.c:68-112 | The listed name is parsed back to the stored user, name and extension exactly if the name is plain |
| CpmListing.EachFileOnce | cpm/cpmtools-cpm4l-cpmtools-2.21/cpmfs.c:1508-1611 | In a directory of plain names the name of every file occurs exactly once in the listing |
| CpmRuns.CreateStep | cpm/cpmtools-cpm4l-cpmtools-2.21/cpmfs.c:1865-1902 | A successful creation is a step of the volume |
| CpmRuns.AppendStep | cpm/cpmtools-cpm4l-cpmtools-2.21/cpmfs.c:1733-1856 | Every append is a step of the volume |
| CpmRuns.UnlinkStep | cpm/cpmtools-cpm4l-cpmtools-2.21/cpmfs.c:1434-1457 | A successful unlink is a step of the volume |
| CpmRuns.RenameStep | cpm/cpmtools-cpm4l-cpmtools-2.21/cpmfs.c:1460-1491 | A successful rename is a step of the volume |
| CpmRuns.StepRefines | cpm/cpmtools-cpm4l-cpmtools-2.21/cpmfs.c:1434-1902 | One step does to the files what it does to the map of names and contents, and keeps the invariant |
| CpmRuns.RunRefines | cpm/cpmtools-cpm4l-cpmtools-2.21/cpmfs.c:1434-1902 | So does every run; a volume that held no other files still holds no others |
| CpmRuns.RunFromEmpty | cpm/cpmtools-cpm4l-cpmtools-2.21/cpmfs.c:1064-1100 | A run on a new disk leaves exactly the files its operations leave in an empty map |
| CpmRuns.StepIsolates | cpm/cpmtools-cpm4l-cpmtools-2.21/cpmfs.c:1434-1902 | A step keeps the invariant, and every entry and byte of the files it does not mention |
| CpmRuns.RunIsolates | cpm/cpmtools-cpm4l-cpmtools-2.21/cpmfs.c:1434-1902 | A run leaves every file it does not mention as it was, entry by entry and byte by byte |
| CpmRuns.UntouchedState | cpm/cpmtools-cpm4l-cpmtools-2.21/cpmfs.c:1304-1357 | Such a file keeps its blocks, its contents and its recorded size |
| CpmCopy.ChunkRecordsExactSize | cpm/cpmtools-cpm4l-cpmtools-2.21/cpmcp.c:260-277 | Chunks of 2048 bytes always leave the right recorded size |
| CpmCopy.ChunksFitMostly | cpm/cpmtools-cpm4l-cpmtools-2.21/cpmcp.c:260-277 | The chunks of a copy keep the misplaced read inside the buffer on disks with blocks up to 8K, and for files up to 8K |
| CpmCopy.PiecesFitSmallBlocks | cpm/cpmtools-cpm4l-cpmtools-2.21/cpmfs.c:1786-1803 | So do pieces of any sizes on disks with blocks up to 8K |
| CpmCopy.CopyIn | cpm/cpmtools-cpm4l-cpmtools-2.21/cpmcp.c:247-283 | Afterwards the file holds the content and records its size, no other file has changed; it fails only for a bad or existing name or a full disk or directory |
| CpmCopy.HoldsSize | cpm/cpmtools-cpm4l-cpmtools-2.21/cpmfs.c:1304-1357 | A file copied in is found with its exact size |
| CpmCopy.CopyOut | cpm/cpmtools-cpm4l-cpmtools-2.21/cpmcp.c:51-110 | Gives back exactly what was copied in |
| CpmCopy.AppendThenRead | cpm/cpmtools-cpm4l-cpmtools-2.21/cpmfs.c:1647-1856 | A new file appended to in any pieces and read from the start in any pieces gives the bytes written, and no other file changes |
| UnixDir.CellNumbers | sim/yaze-ag/monitor.c:572-611 | The extent number of entry i fits its field and lies in physical extent i, the record count is 1 to 128, and exactly the last entry reaches the end of the file |
| UnixDir.ChainOrdered | sim/yaze-ag/monitor.c:584-650 | Files take consecutive table slots and block ranges, in order and without overlap, from block 16 on |
| UnixDir.ChainCovers | sim/yaze-ag/monitor.c:584-650 | Every usable slot in front of the next one belongs to a file |
| UnixDirFacts.DirectoryOk | sim/yaze-ag/monitor.c:572-650 | The made-up directory satisfies the invariant of a real one: no block twice, no extent twice, pointers in range |
| UnixDirFacts.FileListed | sim/yaze-ag/monitor.c:588-650 | A file's slots list its blocks from first to last exactly once and in order |
| UnixDirFacts.SizeListed | sim/yaze-ag/monitor.c:597-611 | The last entry encodes the size rounded up to 128 bytes |
| HostNames.CpmSize | sim/yaze-ag/monitor.c:286-361 | The loops write the converted name over the front of the slot as far as they get, and return a size only for a name of at most eight and three usable characters |
| HostNames.ListedNameOk | sim/yaze-ag/monitor.c:295-326 | Every listed file has a name of eight and an extension of three seven-bit characters |
| HostNames.WritesIff | sim/yaze-ag/monitor.c:295-306 | Only a bad first character keeps a member from being written into the slot |
| NameLaws.HostNameLaw | sim/yaze-ag/monitor.c:295-326 | A file that is not empty is listed exactly if its name is at most eight characters and then nothing, or a dot and at most three, each from 21 to 7A and none of . = _ : , ; < >; the entry holds them in capitals, padded with blanks |
| MountDir.FillEntry | sim/yaze-ag/monitor.c:591-627 | Writes one entry with its share of the blocks and touches no other slot |
| MountDir.AddFile | sim/yaze-ag/monitor.c:588-649 | All entries of the file are written behind the others, stepping over date stamps; reports whether the table would overflow |
| MountDir.IsDuplicate | sim/yaze-ag/monitor.c:538-547 | Finds out whether an earlier slot carries the name |
| MountDir.DuplicateMeansTaken | sim/yaze-ag/monitor.c:535-547 | Comparing with all slots is comparing with the disk label and the files listed so far |
| DirectoryRoom.TestSufficesIff | sim/yaze-ag/monitor.c:577-583 | Whatever has been placed before, the test suffices for exactly the files of up to four and of at least 74 entries |
| DirectoryRoom.OverflowIff | sim/yaze-ag/monitor.c:526-583 | Among files of these sizes the table overflows exactly if a member whose name gets written is looked at when every slot is taken |
| DirectoryRoom.LargeFileOverflows | sim/yaze-ag/monitor.c:577-650 | For every other number of entries a directory in which such a file passes the test and is written behind the table |
| DirectoryRoom.FullTableOverflows | sim/yaze-ag/monitor.c:535-536 | 1523 one-block files fill the table, and one more member overflows it exactly if its name gets written |
| MountDir.ScanMember | sim/yaze-ag/monitor.c:535-650 | One member is listed, skipped, ends the scan, or overflows the table, just as the whole scan says |
| MountDir.ViewDescribes | sim/yaze-ag/monitor.c:651-666 | Rounded up to a whole sector, the table shows exactly the files placed |
| MountDir.MountDir | sim/yaze-ag/monitor.c:423-690 | The mounted directory describes exactly the members that can be listed, are not duplicates and fit, in order; it fails exactly if there are none; an overflow of the table is reported. The label is in slot 0, date stamps in every fourth slot, and the slots left are erased |
| MountLaws.ScanLists | sim/yaze-ag/monitor.c:525-575 | Without an overflow the files listed are, in their order, those members that can be listed and have a new name, up to the first for which there is no room |
| MountLaws.PlacesLaw | sim/yaze-ag/monitor.c:560-632 | The files follow each other from slot 1 and block 16 on, an entry for every 32K and a block for every 4K begun |
| FileCache.Bios.ClearFc | sim/yaze-ag/ybios.c:681-695 | Closes exactly the streams of that disk and leaves the others |
| FileCache.Bios.Umount | sim/yaze-ag/monitor.c:207-238 | The disk is gone and no stream on its files is left; on an empty drive the cache stays as it was |
| FileCache.Bios.Mount | sim/yaze-ag/monitor.c:766-799 | The drive holds what became of the directory, even if another disk was mounted there; on an empty drive the cache stays as it was |
| FileCache.Bios.SelDsk | sim/yaze-ag/ybios.c:595-635 | Selects exactly the mounted disks 0 to 15; the first selection mounts the directory again, fails if that fails, and leaves the drive empty then |
| FileCache.Bios.FindSlot | sim/yaze-ag/ybios.c:791-798 | The first slot that is free or already holds the file of the block |
| FileCache.Bios.FindOwner | sim/yaze-ag/ybios.c:810-815 | The first descriptor whose blocks include the block |
| FileCache.Bios.BringToFront | sim/yaze-ag/ybios.c:789-842 | Afterwards slot 0 is the stream on the file that owns the block, the streams before it have moved back one place, and only a full cache loses its last; it fails exactly if the block has no file that can be opened |
| FileCache.Bios.ReadDirSector | sim/yaze-ag/ybios.c:777-786 | A directory sector shows the entries set up, and erased ones behind them |
| FileCache.Bios.ReadFileSector | sim/yaze-ag/ybios.c:787-855 | A file sector is what a direct read of the owning file gives, padded with 1A; a failure means that a direct read fails too |
| FileCache.Bios.ReadSec | sim/yaze-ag/ybios.c:698-857 | Every sector served equals a direct read, whatever the cache holds; reads that succeed keep the cache in order of recency |
| FileCache.Bios.Serve | sim/yaze-ag/ybios.c:595-857 | One command does to the drives what it should, and a read answers what a direct read gives |
| FileCache.Bios.ServeAll | sim/yaze-ag/ybios.c:595-857 | For every sequence of commands the answers are those of direct reads; without replaced disks and failed reads the cache holds the four files used last, most recent first |
| FileCache.RecentOrdered | sim/yaze-ag/ybios.c:789-842 | The list of recent files names each file once, ordered by last use |
| FileCache.RecentStep | sim/yaze-ag/ybios.c:789-842 | Four places and moving to the front keep the four files used last |
| FileCache.VictimIsOldest | sim/yaze-ag/ybios.c:799-806 | The file given up is the one whose last use lies furthest back |
| UnixDiskReads.MountedDiskOk | sim/yaze-ag/monitor.c:584-587 | In every mounted directory a block belongs to at most one file |
| UnixDiskReads.RecordServed | sim/yaze-ag/ybios.c:713-856 | Reading record r through the block pointers of the made-up directory gives bytes 128r to 128r+127 of the host file, padded with 1A |
| UnixDiskReads.RecordAnswered | sim/yaze-ag/ybios.c:713-856 | The same for the answer to a read command with track and sector |
| UnixDiskReads.SelectThenRead | sim/yaze-ag/ybios.c:595-635 | Which disk is read after a selection, and what a failed remount leaves |
| UnixDiskReads.MountThenRead | sim/yaze-ag/monitor.c:766-799 | Mounting and unmounting change what is read exactly if it is the selected disk |
| UnixDiskReads.DirectoryServed | sim/yaze-ag/ybios.c:713-780 | Slot s is read in sector s / 4, laid out as a CP/M entry; the last four of the 512 directory sectors hold E5 |
| UnixDiskReads.FileInDirectory | sim/yaze-ag/monitor.c:590-632 | The 32 bytes a program reads for each entry of a listed file: user 0, name, extent number, record count, pointers |
| CpmRam.SkipAhead | sim/yaze-ag/monitor.c:86-108 | A used byte inside a candidate rules out every start up to it, so skipping loses nothing |
| CpmRam.FitsLaw | sim/yaze-ag/monitor.c:81-108 | What can be handed out: bytes from the end of the BIOS on, all of their bits clear, and at least one byte left below the table |
| CpmRam.Bank.CpmAlloc | sim/yaze-ag/monitor.c:81-108 | The lowest region that fits, marked exactly; 0 exactly if none fits or the length is 0 |
| CpmRam.Bank.CpmFree | sim/yaze-ag/monitor.c:111-121 | Exactly the bits of the region are cleared |
| CpmRam.AllocAccounts | sim/yaze-ag/monitor.c:81-108 | The live regions stay disjoint and the bitmap stays their union |
| CpmRam.FreeAccounts | sim/yaze-ag/monitor.c:111-121 | The same after freeing a live region |
| CpmRam.FreeRestores | sim/yaze-ag/monitor.c:81-121 | Freeing gives back, byte for byte, the bitmap from before the allocation |
| Exchange.ExchangeSegments | cpm/cpmtools-cpm4l-cpmtools-2.21/getopt.c:155-232 | The two segments change places, each in its own order, and nothing else moves |
| Exchange.BottomShort | cpm/cpmtools-cpm4l-cpmtools-2.21/getopt.c:192-208 | Swapping the short bottom segment to the far end leaves a smaller rotation with the same result |
| Exchange.TopShort | cpm/cpmtools-cpm4l-cpmtools-2.21/getopt.c:209-225 | So does swapping the short top segment to the bottom |
| Getopt.MeaningShuffles | cpm/cpmtools-cpm4l-cpmtools-2.21/getopt.c:390-1088 | The arguments are the option elements and the operands shuffled together, each in its own order |
| Getopt.GetoptData.SkipOperands | cpm/cpmtools-cpm4l-cpmtools-2.21/getopt.c:401-418 | Collected operands move behind the options seen since, and further operands are passed by |
| Getopt.GetoptData.EndOfOptions | cpm/cpmtools-cpm4l-cpmtools-2.21/getopt.c:425-437 | "--" counts as an option element; all behind it are operands |
| Getopt.GetoptData.NextCharacter | cpm/cpmtools-cpm4l-cpmtools-2.21/getopt.c:747-1088 | One option character is consumed and reported so that the events so far and the meaning of what is left remain the meaning of the whole |
| Getopt.GetoptData.Next | cpm/cpmtools-cpm4l-cpmtools-2.21/getopt.c:355-1088 | Every call reports the next event of the whole meaning and keeps 1 <= first_nonopt <= last_nonopt <= optind <= argc; at -1 everything has been reported |
| Getopt.ScanAll | cpm/cpmtools-cpm4l-cpmtools-2.21/getopt.c:355-1088 | All calls together report exactly the events of the argument vector and leave argv as program name, option elements, operands, with optind at the first operand |
| Getopt.ScanKeepsArguments | cpm/cpmtools-cpm4l-cpmtools-2.21/getopt.c:355-1088 | No argument is lost, invented or reordered among its kind |
| GetoptLaws.FlagLaw | cpm/cpmtools-cpm4l-cpmtools-2.21/getopt.c:747-1020 | A character without a colon behind it in the option string takes no argument, and its element goes on |
| GetoptLaws.RequiredLaw | cpm/cpmtools-cpm4l-cpmtools-2.21/getopt.c:1036-1081 | One colon: the rest of the element is the argument, else the next element, whatever it is; with none left ':' or '?' is reported |
| GetoptLaws.OptionalLaw | cpm/cpmtools-cpm4l-cpmtools-2.21/getopt.c:1022-1034 | Two colons: the rest of the element is the argument, but the next element never is |
| GetoptLaws.UnknownLaw | cpm/cpmtools-cpm4l-cpmtools-2.21/getopt.c:755-802 | A character not in the option string, and the colon, are reported as '?' with optopt, and the element goes on |
| GetoptLaws.ArgumentTaken | cpm/cpmtools-cpm4l-cpmtools-2.21/getopt.c:1020-1081 | After "-c" an operand x is the argument of c with exactly one colon, and otherwise stays an operand |
| GetoptLaws.ArgumentAttached | cpm/cpmtools-cpm4l-cpmtools-2.21/getopt.c:1020-1081 | In "-cx" x is the argument with one colon or two, and otherwise further options |
| GetoptLaws.OperandElement | cpm/cpmtools-cpm4l-cpmtools-2.21/getopt.c:390-460 | What is empty, "-" or without a dash in front is an operand; it is passed by, or ends the options in POSIX order |
| GetoptLaws.DoubleDash | cpm/cpmtools-cpm4l-cpmtools-2.21/getopt.c:425-437 | "--" is passed by, and everything behind it is an operand |
| GetoptLaws.FormatOption | cpm/cpmtools-cpm4l-cpmtools-2.21/cpmls.c:362-370 | The options of cpmls: -f ibm-3740 a.img gives f its argument and leaves a.img |
| LzwTokens.UnpackPacked | cpm/libdsk-1.4.2/lib/compdskf.c:225-244 | Words packed two to three bytes are read back as they were |
| LzwTokens.WordLaw | cpm/libdsk-1.4.2/lib/compdskf.c:225-244 | Two words are the 24 bits of three bytes, the first byte in front; a word that is cut off ends the stream |
| Lzw.Decoder.GetWord | cpm/libdsk-1.4.2/lib/compdskf.c:225-244 | Call by call the reader delivers the words of the packed stream |
| Lzw.Decoder.FirstWord | cpm/libdsk-1.4.2/lib/compdskf.c:165-179 | Ends at the first literal, which is the first byte of the string |
| Lzw.Decoder.OutputEntry | cpm/libdsk-1.4.2/lib/compdskf.c:185-221 | Writes the string of the entry through the stack without overflowing it, but for token 257 |
| Lzw.WrittenIs | cpm/libdsk-1.4.2/lib/compdskf.c:193-211 | The exact effect of taking 257 for a literal: a zero byte instead of the two bytes it stands for |
| Lzw.Decoder.Extend | cpm/libdsk-1.4.2/lib/compdskf.c:312-323 | Adds the previous token with the first byte of this one while there is room; entries refer to smaller entries only |
| Lzw.Decoder.Decomp | cpm/libdsk-1.4.2/lib/compdskf.c:249-327 | Decodes exactly the strings of the textbook decoder, including a token used while it is added, and fails exactly where that one fails |
| Lzw.OutputExactIff | cpm/libdsk-1.4.2/lib/compdskf.c:185-222 | The bytes written are the textbook output exactly if no token goes through 257 |
| Lzw.OutputLength | cpm/libdsk-1.4.2/lib/compdskf.c:185-222 | Every token that goes through 257 loses exactly one byte |
| Lzw.NeverUsed257 | cpm/libdsk-1.4.2/lib/compdskf.c:185-222 | A stream that does not use token 257 is decoded exactly |
| Lzw.Through257Loses | cpm/libdsk-1.4.2/lib/compdskf.c:185-222 | A stream of five tokens that is decoded wrongly, with the bytes that come out and those that should |
| LzwCompress.CompressedDecodes | cpm/libdsk-1.4.2/lib/compdskf.c:249-327 | Every byte sequence, compressed by longest matches with at most 4096 strings, is decoded to what it was |
| LzwCompress.RoundTrip | cpm/libdsk-1.4.2/lib/compdskf.c:185-327 | Compressed, packed, unpacked and decompressed by the class, it comes back exactly if no token goes through 257; decoding never fails |
| Z80Alu.AluIs | sim/yaze-ag/simz80.c:672-1183 | The eight operations on A give result and flags of the instruction descriptions, whatever the high bits of AF hold |
| Z80Alu.DaaIs | sim/yaze-ag/simz80.c:332-359 | The stepwise decimal adjustment is the table of corrections of the description |
| Z80Flags.PartabIs | sim/yaze-ag/simz80.c:37-55 | The parity table holds the parity flag of every byte |
| Z80Alu.AccumulatorIs | sim/yaze-ag/simz80.c:163-479 | So do rotations of A, DAA, CPL, SCF and CCF |
| Z80Step.LoadRegisterIs | sim/yaze-ag/simz80.c:480-671 | Unmasked register moves move exactly one byte of the 16-bit registers |
| Z80Low.SumLow | sim/yaze-ag/simz80.c:179-187 | Sums of drifting words depend on the words modulo 2^16 only |
| Z80Low.HostLowPageIs | sim/yaze-ag/simz80.c:140-479 | Opcodes 00 to 3F on host registers do what the Z80 does |
| Z80Bits.ShiftResultIs | sim/yaze-ag/simz80.c:1242-1290 | Rotations and shifts of a byte, computed on a word that is not cut, give result, parity and carry of the descriptions |
| Z80Bits.HostBitPageIs | sim/yaze-ag/simz80.c:1224-1319 | The CB page: rotations, shifts, BIT with its undocumented flags, RES and SET, on registers and memory |
| Z80Bits.BitKeeps | sim/yaze-ag/simz80.c:1291-1317 | BIT writes its operand back, which changes no register and no byte of memory |
| Z80High.HostCallIs | sim/yaze-ag/simz80.c:57-75 | Calls push the return address and jump, with SP and PC wrapping at 2^16 |
| Z80High.HostWordPageIs | sim/yaze-ag/simz80.c:2017-2264 | 16-bit sums with carry and long loads |
| Z80System.NegIs | sim/yaze-ag/simz80.c:2033-2039 | NEG subtracts A from 0, flags included |
| Z80System.HostSystemPageIs | sim/yaze-ag/simz80.c:2033-2209 | NEG, the returns from interrupts, the loads of I and R, RRD and RLD, and ED prefixes that are ignored |
| Z80Index.HostIndexOpIs | sim/yaze-ag/simz80.c:1394-1948 | Instructions on HL with IX or IY in its place, both drifting |
| Z80Index.HostIndexedOpIs | sim/yaze-ag/simz80.c:1478-1836 | Instructions with the operand (IX+d), at the sum modulo 2^16 |
| Z80Index.HostIndexedBitsIs | sim/yaze-ag/simz80.c:1837-1931 | The DD CB page |
| Z80Index.HostIndexPrefixIs | sim/yaze-ag/simz80.c:1391-1949 | Everything behind a DD or FD prefix, and the prefix ignored before other opcodes |
| Z80Run.HostHighPageIs | sim/yaze-ag/simz80.c:1184-2003 | Opcodes C0 to FF but ED, with the CB, DD and FD prefixes |
| Z80Block.HostMoveIs | sim/yaze-ag/simz80.c:2265-2271 | LDI and LDD move a byte, step the pointers and count down modulo 2^16, with the right flags |
| Z80Block.HostSearchIs | sim/yaze-ag/simz80.c:2272-2283 | CPI and CPD, including the undocumented flag bits |
| Z80Block.RepeatMove | sim/yaze-ag/simz80.c:2328-2343 | LDIR and LDDR equal BC repetitions (65536 for 0) of LDI and LDD in memory, registers and flags |
| Z80Block.RepeatSearch | sim/yaze-ag/simz80.c:2344-2365 | CPIR and CPDR equal repeated CPI and CPD until the byte is found or the count is used up |
| Z80Copy.CopiesBlock | sim/yaze-ag/simz80.c:2328-2398 | LDIR and LDDR: if the destination does not start strictly inside the source, counting in the direction of the copy, the block arrives as it was and nothing else changes |
| Z80Copy.FirstByteAgain | sim/yaze-ag/simz80.c:2328-2398 | Otherwise the first byte comes round again where the source meets the destination |
| Z80Copy.CopyIff | sim/yaze-ag/simz80.c:2328-2398 | With different bytes at the two pointers the result is a copy exactly under that condition, up and down |
| Z80BlockLaws.LdirLaw | sim/yaze-ag/simz80.c:2328-2343 | LDIR over addresses counted up: copies, exactly under that condition if the bytes at the pointers differ, and leaves the pointers above the blocks, BC at 0, and of AF only H, P and N cleared and the undocumented bits changed |
| Z80BlockLaws.LddrLaw | sim/yaze-ag/simz80.c:2384-2398 | LDDR likewise over addresses counted down |
| Z80BlockLaws.CpirLaw | sim/yaze-ag/simz80.c:2344-2365 | HL ends one step above the first address that holds A, or no byte of the range holds A |
| Z80BlockLaws.CpdrLaw | sim/yaze-ag/simz80.c:2399-2420 | The same, downwards |
| Z80Run.Extended | sim/yaze-ag/simz80.c:2004-2441 | The ED page, but for the ports |
| Z80Run.Step | sim/yaze-ag/simz80.c:131-143 | One pass of the step loop takes a host state to a state that stands for what one Z80 instruction does; only ports are not modelled; it depends on registers modulo 2^16 only |
| Z80Run.Run | sim/yaze-ag/simz80.c:114-143 | Every run of any length of any program projects onto the run of the Z80 with 16-bit registers |
| Z80Laws.RunTogether | sim/yaze-ag/simz80.c:114-143 | A run may be cut in two anywhere, and stops where its first part stops |
| Z80Laws.JrLaw | sim/yaze-ag/simz80.c:298-448 | JR NZ, Z, NC, C: to the displaced address exactly if bit 6 or 0 of F is clear or set, else behind the instruction |
| Z80Laws.DjnzLaw | sim/yaze-ag/simz80.c:219-228 | B counts down, and the jump is taken unless it gets to 0 |
| Z80Laws.JpLaw | sim/yaze-ag/simz80.c:1190-1192 | JP on bits 6, 0, 2, 7 of F clear or set |
| Z80Laws.CallLaw | sim/yaze-ag/simz80.c:57-75 | CALL on the same conditions: the address behind the instruction on the stack, SP two lower, PC at the operand; else only PC moves |
| Z80Laws.RetLaw | sim/yaze-ag/simz80.c:1184-1186 | RET on the same conditions: PC from the stack, SP two higher |
| Z80Laws.CallReturns | sim/yaze-ag/simz80.c:57-75 | CALL and then RET gives everything back but the two bytes below the stack |
| Z80Laws.RstLaw | sim/yaze-ag/simz80.c:1212-1217 | RST calls the address in its opcode |
| Z80Laws.PushPops | sim/yaze-ag/simz80.c:57-65 | PUSH and POP of the same pair give everything back but the two bytes below the stack |
| Z80Laws.ExchangedTwice | sim/yaze-ag/simz80.c:174-178 | EX AF,AF', EXX and EX DE,HL done twice are the identity |
| Z80Laws.ExchangeTopLaw | sim/yaze-ag/simz80.c:1972-1978 | EX (SP),HL swaps HL with the word on top of the stack |
| Z80DataLaws.LdLaw | sim/yaze-ag/simz80.c:480-671 | LD between any two registers, or memory, copies a byte and changes nothing else |
| Z80DataLaws.AddressLaw | sim/yaze-ag/simz80.c:305-454 | Loads and stores of A and HL at an address behind the opcode, low byte first |
| Z80DataLaws.AluRegisterLaw | sim/yaze-ag/simz80.c:672-1183 | The eight operations on A: the result, and each flag as a condition on the operands |
| Z80DataLaws.AluImmediateLaw | sim/yaze-ag/simz80.c:1202-1211 | The same with a byte behind the opcode |
| Z80DataLaws.CompareAndJump | sim/yaze-ag/simz80.c:360-447 | After CP n, JR Z is taken exactly if A equals n, and JR C exactly if A is smaller |
| Z80BitLaws.IncLaw | sim/yaze-ag/simz80.c:151-158 | INC of a register or of memory, flag by flag; the carry stays |
| Z80BitLaws.DecLaw | sim/yaze-ag/simz80.c:159-166 | DEC likewise |
| Z80BitLaws.AccumulatorLaw | sim/yaze-ag/simz80.c:168-479 | RLCA, RRCA, RLA, RRA, CPL, SCF, CCF bit by bit |
| Z80BitLaws.ShiftLaw | sim/yaze-ag/simz80.c:1242-1290 | Rotations and shifts bit by bit, the carry being the bit that leaves |
| Z80BitLaws.ResLaw | sim/yaze-ag/simz80.c:1302-1304 | RES clears one bit |
| Z80BitLaws.SetLaw | sim/yaze-ag/simz80.c:1305-1307 | SET sets one bit |
| Z80BitLaws.BitLaw | sim/yaze-ag/simz80.c:1291-1317 | BIT: Z is the complement of the bit, and no register but F changes |
| Z80WordLaws.AddPairLaw | sim/yaze-ag/simz80.c:179-187 | ADD HL,rr: the sum modulo 2^16 and its carries; S, Z and P stay |
| Z80WordLaws.SumWithCarryLaw | sim/yaze-ag/simz80.c:2017-2070 | ADC HL,rr and SBC HL,rr, flag by flag |
| Z80WordLaws.LongLoadLaw | sim/yaze-ag/simz80.c:2071-2075 | LD rr,(nn), low byte first |
| Z80WordLaws.LongStoreLaw | sim/yaze-ag/simz80.c:2028-2032 | LD (nn),rr, low byte first |
| Z80SystemLaws.DigitLaw | sim/yaze-ag/simz80.c:2172-2212 | RRD and RLD move the three digits one place |
| Z80SystemLaws.DigitsBack | sim/yaze-ag/simz80.c:2172-2212 | RLD undoes RRD |
| Z80SystemLaws.RegisterLaw | sim/yaze-ag/simz80.c:2047-2146 | The loads of I and R |
| Z80SystemLaws.InterruptReturnLaw | sim/yaze-ag/simz80.c:2040-2043 | RETN and RETI return and restore the interrupt flip-flop |
| Z80SystemLaws.UndefinedLaw | sim/yaze-ag/simz80.c:2439 | ED before an opcode without a meaning: run without the ED, or skipped |
| Z80IndexLaws.MoveLaw | sim/yaze-ag/simz80.c:2265-2303 | LDI and LDD: the byte, the pointers up or down, the count, and P for more to come |
| Z80IndexLaws.SearchLaw | sim/yaze-ag/simz80.c:2272-2312 | CPI and CPD: the comparison, the pointer up or down, the count |
| Z80IndexLaws.IndexLaw | sim/yaze-ag/simz80.c:1391-1948 | Before each listed opcode DD and FD put IX or IY in the place of HL |
| Z80IndexLaws.LoadIndexedLaw | sim/yaze-ag/simz80.c:1515-1655 | LD r,(IX+d) with a signed displacement, modulo 2^16 |
| Z80IndexLaws.StoreIndexedLaw | sim/yaze-ag/simz80.c:1599-1630 | LD (IX+d),r, H and L meaning themselves |
| Z80IndexLaws.AluIndexedLaw | sim/yaze-ag/simz80.c:1657-1830 | The eight operations on A with (IX+d) |
| Z80IndexLaws.CountIndexedLaw | sim/yaze-ag/simz80.c:1478-1495 | INC and DEC of (IX+d) |
| Z80IndexLaws.IndexedBitsLaw | sim/yaze-ag/simz80.c:1837-1931 | The CB page with the operand at IX+d |
| Z80IndexLaws.PrefixIgnored | sim/yaze-ag/simz80.c:1946-1949 | Before all other opcodes but CB the prefix is ignored |
| Z80Bcd.AdcDaaAdds | sim/yaze-ag/simz80.c:332-359 | ADC and DAA on decimal bytes: digits and carry of the decimal sum |
| Z80Bcd.SbcDaaSubtracts | sim/yaze-ag/simz80.c:332-359 | SBC and DAA on decimal bytes: digits and borrow of the decimal difference |
| Z80Decimal.AddDecimal | sim/yaze-ag/simz80.c:812-821 | ADC and DAA byte by byte, the carry threaded through, add decimal numbers of any length |
| Z80Decimal.SubtractDecimal | sim/yaze-ag/simz80.c:972-981 | SBC and DAA likewise subtract them |
| Z80Decimal.SumModulo | sim/yaze-ag/simz80.c:812-821 | The digits are x + y + c modulo 100^n, and the carry tells whether the sum reaches 100^n |
| Z80Decimal.DifferenceModulo | sim/yaze-ag/simz80.c:972-981 | The digits are x - y - c or its ten's complement, and the borrow tells which |
| Z80Decimal.SubtractionUndoesAddition | sim/yaze-ag/simz80.c:812-981 | Subtracting what was added gives the number back, with a borrow where there was a carry |

## Left out

* Overwriting inside a file and sparse writes. `cpmWrite` computes the record count from the position of the call, so
  that overwriting is not what it is made for; no tool of the collection does it.
* Errors of the device, time stamps, DateStamper files, passwords, disk labels of cpmtools, attribute changes and the
  texts of error messages. In `CpmReaddir` the positions of "[passwd]" and "[label]" are skipped.
* Writing the directory back to its blocks (`cpmSync`) and reading it from them: the directory is the in-core table.
- CpmFs.SuperBlock.ReadBlock: the transfer cannot fail on the device.
- CpmAppend.CpmWrite: appends only, to files that were created empty and have only been appended to since; the total
  stays below 32 megabytes.
- CpmCopy.CopyIn: binary mode only; the misplaced reads have to stay in the buffer.
- CpmCopy.AppendThenRead: the misplaced reads have to stay in the buffer.
- CpmNames.CpmNamei: of the inode only entry, size and name; the special names for the root, label and passwords are
  left out.
- CpmRuns.RunRefines: the run consists of successful operations; failed ones change no entry, as their methods say.
- MountDir.MountDir: the host directory is a list of file names with the sizes that `stat` reports, 0 for what is not
  a readable regular file; of the date stamps and the label only status, name and label byte are modelled, and what
  follows an overflow of the table is not.
- FileCache.Bios.ReadSec: directories only, not disk images; sectors of 128 bytes, one at a time; the data is a
  result and is not copied to simulated memory.
- CpmRam.Bank.CpmAlloc: addresses are unbounded numbers; the pool lies below 2^16.
- Getopt.GetoptData.Next: no long options, no `-W`, no prefixes of the option string, no messages. Both orderings
  that remain, PERMUTE and the POSIX one, are covered.
- Lzw.Decoder.Decomp: the stream must start with a literal, as the decoder itself takes for granted; the header and
  errors of the files are left out.
- Z80Run.Step: ports and the block instructions on them yield "not modelled", and there are no interrupts. The value
  HALT returns, trace output and memory banks are left out.
- Z80Run.Run: registers and memory are a value that each step replaces, not fields updated in place: the proofs
  about bit vectors need it. The memory is a total function on 16-bit addresses.
- Z80Decimal.AddDecimal: the operand bytes are handed over as sequences; the program around the two instructions that
  steps its pointers is not modelled.
* Disk definitions, the front ends other than the copying loops, terminal and character devices, disassembler tables
  and the other compression formats hold no property of this kind.
