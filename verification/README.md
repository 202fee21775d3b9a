# Verified model of a FAT32 file system and two kernel allocators

This project models, in Dafny, the parts of a small Rust kernel that keep data structures in raw bytes
and raw pointers, and proves what they keep.

* **The FAT32 file system** (`src/file_system.rs`, `src/file_system/interface.rs`): FAT entries, cluster
  chains, directories with long names, paths, `create_file`, `mkdir`, `write_file`, `read_file`, and the
  shell session's `cd` and `ls_entries`.
* **The slab allocator** (`src/allocator/slab.rs`): circular lists of slabs, a chain of free objects per
  slab, and pages that are recovered from a pointer by masking.
* **The first-fit allocator** (`src/allocator/linked_list.rs`, with `align_up` of `src/allocator.rs`): a
  free list that is threaded through the free memory.

Each part has a specification on values and an imperative class or method proved against it.

| part | specification | code in place |
|---|---|---|
| names, listings, paths | `ShortName`, `Directory`, `LongName`, `Entries`, `Paths`, `Unicode` | `ShortName`, `DirectoryReader` |
| volume | `FatVolume`, `Edits`, `Image` | `Disk`, over the bytes of the image (`DiskGeometry`) |
| directory tree | `Tree`, `Keeping`, `Growth`, `Resolution`, `Creation`, `Writing`, `ReadBack`, `Runs`, `RunReads`, `Misuse`, `Examples` | |
| shell | `Session` | `Shell` |
| slab allocator | `SlabLayout`, `SlabModel`, `SlabRuns`, `SlabGrowth`, `SlabCallers`, `SlabPlaces` | `SlabAllocator`, over words and links (`SlabMemory`, `Rings`) |
| first-fit allocator | `FreeRegions`, `FirstFit` | `LinkedList` |

`Bytes`, `Text`, `Arithmetic` and `Scanning` hold what the others share.

## Main results

* `Runs.RunKeepsTree`: every run of `create_file`, `mkdir` and `write_file`, failing calls included, keeps
  the volume a tree. Chains stay acyclic, ended and pairwise disjoint, every `..` names the true parent,
  and a file that no call wrote to keeps its bytes. `RunReads.RunReadsSame`: what `read_file` returns stays
  the same in every run in which no new entry is listed under a component of the path, and every write goes
  to another file and sets that file's own size.
* `ReadBack.WriteReadsBackIff`, `ReadBack.WriteLeavesRest`, `Session.CreateWriteRead`: exactly when reading
  gives back what was written, what else a write may change, and that creating, writing and reading compose.
  `ReadBack.TextReadsBackIff`: exactly when a text that was written can be read at all.
* `Session.MkdirThenCd`, `Session.NewDirReachedIff`, `Session.CreatedFoundIff`: exactly which names, and which
  paths from which directories, lead to what was just created.
* `Creation.CreateFileAdds`, `Creation.MkdirAdds`, `Creation.CreateFileFails`, `Creation.MkdirFails`,
  `Creation.CreateSucceedsIff`: what the two operations do, what they leave alone when they fail, and
  exactly when they succeed.
* `Image.MountedImage`, `Image.WriteThenMount`, `Entries.BytesListed`, `Image.ImageFileRead`: an image that is put
  together as the FAT specification says is mounted, listed and read as what it was made from. Long names come
  back exactly, in whatever order their fragments are.
* `Disk.Fat32FileSystem`: every operation on the bytes of the image does to the decoded volume what the
  specification does, and touches nothing outside the first FAT and the data area.
* `SlabRuns.RunDisjoint`, `SlabRuns.RunCoversIff`, `SlabGrowth.SlabsEqualPeak`: in every run, live blocks
  never overlap each other or the allocator's records; a block covers its request exactly when the first
  request of its class was large enough; and a class has grown exactly as many slabs as its peak needed.
  `SlabCallers.OutstandingApart`, `SlabCallers.PowersApart`: in the callers' terms, no allocation returns
  bytes of one that was not given back. `SlabPlaces.LargeAllocIff`, `SlabPlaces.SmallAllocIs`,
  `SlabPlaces.StopsForPages`, `SlabPlaces.FreedReusedIff`: which address every request gets, when it gets none,
  and when an address that was given back is handed out next.
* `SlabAllocator.Allocator`, `SlabMemory.FreeChain`, `SlabMemory.SlabOnOneList`: the words and links in
  memory always represent that state.
* `FreeRegions.RunKeeps`, `FreeRegions.RunLosesNothing`, `FreeRegions.TooSmallForever`: in every run the
  free regions, blocks and padding tile the heap exactly; nothing is lost for alignments up to 8; regions
  are never joined again, so a request that is too large for every piece fails ever after. `FirstFit.AllocIff`:
  which place every request gets, and exactly when it gets none.

Some expected properties are false of the code. For each there is an input that breaks it, on the blank
volume of `Examples.Blank` where it is about the file system, and the exact condition:

* The size of a file is not always updated in the directory in which the file was found:
  `Examples.DotExample`, `Paths.DotMisdirects`, `Paths.SizeDirIff`.
* A successful write is not always read back: `Examples.WriteNotReadBack`, `ReadBack.WriteReadsBackIff`; and a
  text that was written cannot always be read: `ReadBack.LongTextUnreadable`, `ReadBack.TextReadsBackIff`.
* Creating an entry does not always spare files: `Examples.CreateInFileExample`,
  `Misuse.CreateSparesFilesIff`, `Misuse.MkdirSparesFilesIff`.
* After `mkdir`, `cd` to the new name does not always reach it: `Examples.MkdirLowerCase`,
  `Examples.MkdirTwice`, `Session.MkdirThenCd`.
* Formatting a printed short name does not always give it back: `ShortName.BlankUnstable`,
  `ShortName.FormatStable`.
* A slab block does not always cover its request: `SlabRuns.MixedSizesUncovered`, `SlabRuns.RunCoversIff`. So
  blocks can overlap: `SlabCallers.MixedSizesOverlap`.

An entry whose short name starts with the byte 0xE5, as names outside ASCII can, reads as deleted:
`Creation.DeletedNameVanishes`. One that starts with NUL ends the listing: `Misuse.NulNameTruncates`.

Where the code and its comments disagree the model follows the code: only the first cluster of a directory
is listed and searched for room; a path that ends in `.` resolves to nothing; `create_file` and `mkdir` do
not check that the parent is a directory; only the first FAT copy is written; of `ListNode` in the slab
allocator the comments swap `next` and `prev`; `list_add` puts a node first, not last.

Texts are sequences of UTF-16 units. Upper-casing text outside ASCII is a table of the Rust library: it is
the unspecified constant `ShortName.UPPERCASE`, and everything is proved for whatever that table is.
Integers are unbounded; the bounds of `u8`, `u16` and `u32` are subset types, so that every 32-bit sum and
product that `Disk` computes is shown not to overflow. Panics are not hidden: what the code needs in order
not to panic is a precondition, and running out of pages is a result.

## Model

| member | source | states |
|---|---|---|
| ShortName.FormatIsShortName | src/file_system.rs:269-290 | An accepted ASCII name gives 11 upper-case bytes without dots, the first one being the upper-case first character. |
| ShortName.FormatExact | src/file_system.rs:269-290 | The 11 bytes of an ASCII name, one by one, from the characters before the first and between the first two dots; none if and only if the name is empty or starts with a dot. |
| ShortName.PrintExact | src/file_system.rs:714-746 | The printed form of any 11 bytes: both parts without trailing spaces, each as text if it is UTF-8 and empty otherwise, with a dot if there is an extension. |
| ShortName.FormatPrint | src/file_system.rs:269-290 | Formatting the printed form of a short name gives the same 11 bytes if and only if its base is not blank. |
| ShortName.FormatStable | src/file_system.rs:269-290 | For every accepted ASCII name, conversion is stable if and only if the part before the first dot has a non-space among its first eight characters. |
| ShortName.BlankUnstable | src/file_system.rs:269-290 | The name of one space is accepted, but formatting its printed form fails. |
| ShortName.PrintFormat | src/file_system.rs:714-746 | The ASCII names that print back unchanged are exactly the canonical ones: upper case, within 8+3, no padding spaces. |
| ShortName.CanonicalPrints | src/file_system.rs:714-746 | Every canonical ASCII name is accepted and prints back unchanged. |
| ShortName.ShortNameToString | src/file_system.rs:714-746 | The two trimming loops compute the printed form. |
| ShortName.LfnChecksum | src/file_system.rs:700-707 | The loop computes the rotate-and-add checksum with 8-bit wrap-around. |
| ShortName.ChecksumDetects | src/file_system.rs:700-707 | Changing any one byte of a name changes its checksum: the rotation and the wrapping addition lose nothing. |
| ShortName.ChecksumOfTest | src/file_system.rs:700-707 | The checksum of `TEST    TXT` is 0x8F. |
| Text.Utf8Cut | src/file_system.rs:164-165 | Cutting well-formed UTF-8 leaves it well-formed if and only if the cut is not before a continuation byte; what is left is a prefix of the text. |
| Unicode.Utf8RoundTrip | src/file_system.rs:164-165 | The UTF-8 bytes of any characters decode to exactly these characters. |
| Unicode.Utf8Only | src/file_system.rs:164-165 | Bytes decode only if they are the UTF-8 bytes of some characters: no overlong forms, surrogates or stray bytes. |
| Unicode.Utf16Accepted | src/file_system.rs:884-884 | The UTF-16 units of any characters are accepted. |
| Unicode.Utf16Only | src/file_system.rs:884-884 | Units are accepted only if they are the UTF-16 units of some characters. |
| DirectoryReader.ProcessLfnEntry | src/file_system.rs:824-856 | A fragment replaces the pending one with its number or is added; a last-flagged one starts over and sets the checksum. |
| DirectoryReader.AssembleLfn | src/file_system.rs:863-885 | The loops compute the sorted, cleaned and decoded name, or none. |
| DirectoryReader.ProcessDataEntry | src/file_system.rs:892-938 | Volume labels give nothing; otherwise name, kind, size and 16/16-bit split cluster are those of the slot. |
| DirectoryReader.ListEntries | src/file_system.rs:771-818 | The loop over 32-byte slots computes the listing, stopping at the end mark and resetting on deleted slots. |
| Directory.ListingInsert | src/file_system.rs:771-818 | Filling the first free slot inserts exactly one entry at that slot's position in the listing. |
| Directory.ListingResize | src/file_system.rs:771-818 | Changing the size field of a short slot changes one listed size, or nothing if the slot is not listed. |
| Directory.ListedIsLive | src/file_system.rs:771-818 | Every listed entry is that of a live slot before the end mark. |
| Directory.LiveIsListed | src/file_system.rs:771-818 | Every live slot is listed. |
| Directory.FragmentResize | src/file_system.rs:466-466 | Overwriting the size field of a long-name fragment changes no size, kind or cluster of any listed entry, only names. |
| Directory.CleanExact | src/file_system.rs:871-882 | Units are taken one by one up to 0x0000, and 0xFFFF is left out. |
| Entries.EntryFields | src/file_system.rs:892-938 | Cluster, size and kind of a short entry come from its bytes 20, 21, 26 to 31 and bits 3 and 4 of byte 11. |
| Entries.FragmentBits | src/file_system.rs:829-832 | The order is in the low five bits of the first byte, and bit 6 flags the last fragment. |
| Entries.DirectoryListed | src/file_system.rs:771-938 | A directory that stores entries with and without long names, deleted slots, labels and stray fragments, up to an end mark, is listed as exactly these entries, in order. |
| Entries.BytesListed | src/file_system.rs:771-938 | The same on the bytes of a cluster. |
| LongName.SlotUnitsAt | src/file_system.rs:839-842 | The 13 units of a fragment are at the bytes 1 to 10, 14 to 25 and 28 to 31, in this order. |
| LongName.LongNameListed | src/file_system.rs:771-938 | A long name, stored byte by byte as the format says, is listed exactly if its checksum matches and it is valid UTF-16, and gives way to the short name otherwise, for every fragment order that starts with the last-flagged one. |
| LongName.AssembleAnyOrder | src/file_system.rs:863-885 | Assembling the fragments of a name in any order gives the name if it is valid UTF-16, and nothing otherwise. |
| Paths.ParseJoin | src/file_system.rs:169-207 | If `a` resolves to a directory, resolving `a/b` is resolving `b` from its cluster, errors included. |
| Paths.AbsolutePath | src/file_system.rs:169-176 | Where an absolute path leads does not depend on the current directory. |
| Paths.FromRoot | src/file_system.rs:169-176 | An absolute path is the path behind its slash taken from the root, and so is a path without a current directory. |
| Paths.ResolveLast | src/file_system.rs:178-206 | Resolving is walking to the last directory and resolving the last component there, dot components included. |
| Paths.ResolveIsLookup | src/file_system.rs:178-206 | Resolving is walking to the last directory and looking the last component up there. |
| Paths.FileHasName | src/file_system.rs:178-206 | A path that leads to a file ends in a proper name. |
| Paths.SizeDirIff | src/file_system.rs:432-444 | The directory whose entry is updated is the one the file was found in if and only if the parent path does not end in `.` or the file is in the root. |
| Paths.DotMisdirects | src/file_system.rs:432-444 | For every `d/./f` the file is looked up in `d`, but the size is updated in the root. |
| Examples.DotExample | src/file_system.rs:432-444 | On every formatted volume with room, after `mkdir D` and creating `D/F`, the path `D/./F` leads to the file and its size would be updated in the root. |
| Examples.BlankIsWide | src/file_system.rs:70-89 | The blank volume is such a volume. |
| Examples.WriteNotReadBack | src/file_system.rs:432-507 | On such a volume, after `mkdir D`, creating `D/F` and `F`, writing one byte to `D/./F` succeeds and is not read back. |
| Edits.AllocateLeast | src/file_system.rs:232-241 | "Disk full" if and only if no entry in [2, 50000) is free; otherwise the least free cluster is taken, it alone stops being free, and the next one is larger. |
| Edits.SetLinkLinks | src/file_system.rs:246-261 | Writing a FAT entry changes that link only and keeps the top four bits. |
| Edits.PutSlotDir | src/file_system.rs:336-347 | Writing a directory entry changes that slot of that directory and nothing else. |
| Edits.NewSlotInfo | src/file_system.rs:321-328 | The slot built for a new entry is listed with the printed short name, its kind, size 0 and its cluster, unless it starts with the byte of an end or deletion mark. |
| Edits.FreshSlots | src/file_system.rs:354-377 | A new directory cluster holds `.`, `..` and end marks, the root parent being written as 0. |
| Tree.ChainAcyclic | src/file_system.rs:150-162 | A chain that ends never visits a cluster twice. |
| Tree.ChainUnique | src/file_system.rs:150-162 | A cluster starts at most one chain. |
| Tree.FreeIsUnowned | src/file_system.rs:232-241 | A cluster whose entry is free belongs to no chain and no directory. |
| Resolution.ParentFound | src/file_system.rs:210-223 | `find_parent_cluster` gives the true parent of every directory of the tree, and none for the root. |
| Resolution.FileTarget | src/file_system.rs:169-207 | A path that leads to a file leads to a live slot of a directory of the tree, and its cluster starts a chain. |
| Keeping.HoldsKept | src/file_system.rs:431-507 | Edits after which every directory lists the same slots, with the same names, kinds and clusters, keep the tree. |
| Keeping.DeletedAlike | src/file_system.rs:311-330 | Marking the first free slot as deleted lists the same. |
| Growth.HoldsGrown | src/file_system.rs:298-425 | Adding one entry with a fresh cluster, and its dot entries if it is a directory, gives the tree with that node. |
| Creation.CreateFileAdds | src/file_system.rs:298-347 | A successful `create_file` inserts one file entry (printed short name, size 0, least free cluster) at the reused slot, keeps all other listings and all chain bytes, and the grown tree holds. |
| Creation.MkdirAdds | src/file_system.rs:387-425 | The same for `mkdir`, and the new directory lists exactly `.` and `..`. |
| Creation.MkdirNewDir | src/file_system.rs:354-425 | Every successful `mkdir`, whatever the name, leaves a new directory that lists exactly `.` and `..`. |
| Creation.AsciiNameOk | src/file_system.rs:269-290 | The short name of an ASCII name starts with neither mark exactly if the name does not start with NUL. |
| Creation.DeletedNameVanishes | src/file_system.rs:298-425 | A successful `create_file` or `mkdir` whose short name starts with 0xE5 changes no listing and keeps the tree. |
| Creation.CreateFileFails | src/file_system.rs:298-333 | A failing `create_file` keeps tree, listings and bytes, and changes at most one FAT entry, from free to end of chain. |
| Creation.MkdirFails | src/file_system.rs:387-425 | The same for a failing `mkdir`. |
| Creation.CreateSucceedsIff | src/file_system.rs:298-333 | Both succeed if and only if the parent resolves, the name formats, a cluster is free and the parent has a free slot. |
| Creation.CreateFileErrors | src/file_system.rs:298-333 | The error by its cause: parent, name, full disk, full directory; only the last one costs a cluster. |
| Creation.MkdirErrors | src/file_system.rs:387-425 | The same for `mkdir`, where a bad name costs a cluster too. |
| Writing.WriteShape | src/file_system.rs:485-507 | A write always stores the bytes; it succeeds if and only if the name formats and a slot matches, and then sets that slot's size. |
| Writing.WriteErrors | src/file_system.rs:431-507 | The error of `write_file` by its cause. |
| Writing.WriteKeeps | src/file_system.rs:485-507 | Every write, successful or not, keeps the tree. |
| ReadBack.ReadChain | src/file_system.rs:150-166 | Reading a file gives the bytes of its chain cut to its size. |
| ReadBack.StoredFileRead | src/file_system.rs:141-166 | Reading follows the low 28 bits of the FAT words up to one of the eight end marks and gives the bytes of the clusters, up to the size. |
| ReadBack.ReadErrors | src/file_system.rs:141-166 | The error of `read_file` by its cause. |
| ReadBack.OwnSlotIff | src/file_system.rs:448-456 | The slot the size goes to is the file's own if and only if it starts at the file's cluster. |
| ReadBack.WriteReadsBackIff | src/file_system.rs:485-507 | If the matched slot is not a long-name fragment, reading gives back the written bytes, up to one cluster, if and only if that slot is the file's own or the old size shows as many bytes. |
| ReadBack.WriteHitsFragment | src/file_system.rs:448-466 | If it is a fragment, no size changes: all directories list the same entries, up to names in that directory. |
| ReadBack.WriteThenRead | src/file_system.rs:485-507 | If the matched slot is the file's own, the first min(length, cluster size) bytes are read, for chains of any length. |
| ReadBack.TextReadsBackIff | src/file_system.rs:141-166 | Then a written text can be read if and only if it fits into a cluster or is not cut inside a character; a prefix of it is read, and all of it if it fits. |
| ReadBack.CharactersReadBack | src/file_system.rs:141-166 | Characters whose UTF-8 bytes fit into a cluster are read back after they were written. |
| ReadBack.LongTextUnreadable | src/file_system.rs:141-166 | For every such file there is a text whose writing succeeds and after which reading fails. |
| ReadBack.WriteLeavesRest | src/file_system.rs:485-507 | Then every other file keeps its bytes, and all listings agree but for that one size. |
| Runs.RunKeepsTree | src/file_system.rs:232-507 | After every run the volume holds an extension of the tree it started with, and files that were not written to keep their bytes. |
| RunReads.RunReadsSame | src/file_system.rs:141-507 | Reading a file gives the same after every run whose new entries are not listed under a component of its path, and whose writes go to other files and set those files' own sizes. |
| Runs.FormattedHoldsRoot | src/file_system.rs:70-89 | A volume whose root directory is empty and ended holds the tree of the root alone. |
| Session.CdJoin | src/file_system/interface.rs:97-110 | After a successful `cd a`, `cd b` ends or fails as `cd a/b` would have. |
| Session.CdAbsolute | src/file_system/interface.rs:97-110 | `cd` to an absolute path does the same from every directory. |
| Session.CdFromRoot | src/file_system/interface.rs:97-110 | `cd /b` is `cd b` from the root. |
| Session.ParentByCd | src/file_system.rs:298-306 | `create_file` and `mkdir` use the directory that `cd` from the root goes to; the empty path and `/` mean the root. |
| Session.CdInTree | src/file_system/interface.rs:97-110 | A successful `cd` ends in a directory of the tree. |
| Session.CdUp | src/file_system/interface.rs:97-110 | `cd ..` goes to the true parent, the root included. |
| Session.MkdirThenCd | src/file_system/interface.rs:97-110 | After `mkdir` of any name without a slash, `cd` from the parent reaches the new directory if and only if the name prints back unchanged, its short form starts like no mark, and no earlier entry has it; `cd ..` returns. |
| Session.NewDirReachedIff | src/file_system/interface.rs:97-110 | After `mkdir`, any path from any directory reaches the new one if and only if the entry reads as one, the path ends in its listed name, the walk ends in the parent, and no earlier entry has that name. |
| Session.CreatedFoundIff | src/file_system.rs:178-333 | After `create_file` of any name, looking it up in the parent finds the new file if and only if the same three conditions hold. |
| Session.CreatedStored | src/file_system.rs:311-347 | The first slot that starts with 0x00 or 0xE5 gets the short name, attribute 0x20, the new cluster and size 0; the other slots stay. |
| Session.MkdirStored | src/file_system.rs:354-425 | The same with attribute 0x10, and the new cluster stores `.` and `..`, and zeros. |
| Session.CreateWriteRead | src/file_system.rs:298-333 | Creating a file under an unused name that prints back unchanged, writing and reading gives back the bytes, up to one cluster. |
| Examples.MkdirTwice | src/file_system/interface.rs:97-110 | On every formatted volume with room, after two `mkdir` of one name `cd` does not reach the second directory. |
| Examples.MkdirLowerCase | src/file_system/interface.rs:97-110 | On such a volume, after `mkdir` of a small letter `cd` to that name finds no entry. |
| Misuse.CreateSparesFilesIff | src/file_system.rs:298-333 | A successful `create_file` of any name leaves all files alone if and only if its parent path does not lead to a file, or the slot it takes already held just that entry, which needs a short name that starts like a mark. |
| Misuse.MkdirSparesFilesIff | src/file_system.rs:387-425 | The same for `mkdir`. |
| Examples.CreateInFileExample | src/file_system.rs:298-333 | On such a volume, if a slot of the new file's cluster reads as free, creating `A` and then `B` with the parent path `A` succeeds and changes the bytes of `A`. |
| Examples.BlankHasRoom | src/file_system.rs:298-333 | The blank volume is one on which this happens. |
| Misuse.NulNameTruncates | src/file_system.rs:298-425 | A short name that starts with NUL cuts the parent's listing at the slot it takes, in `create_file` and `mkdir`. |
| DiskGeometry.DecodeFatWrite | src/file_system.rs:246-261 | Overwriting the four bytes of an entry changes that FAT word and nothing else of the volume. |
| DiskGeometry.DecodeDataWrite | src/file_system.rs:336-347 | Overwriting bytes inside a cluster changes those bytes of that cluster and nothing else. |
| DiskGeometry.DecodeOk | src/file_system.rs:70-89 | An image whose geometry fits decodes to a well-formed volume. |
| Image.MountedImage | src/file_system.rs:70-89 | Mounting reserved sectors, all FAT copies and clusters, one after the other, gives the root, the cluster size, the words of the first FAT and the clusters. |
| Image.WriteThenMount | src/file_system.rs:70-89 | Mounting a written image gives what it was written from. |
| Image.ImageListed | src/file_system.rs:771-818 | A directory of an image is listed as what its cluster stores. |
| Image.ImageFileRead | src/file_system.rs:141-166 | A file in the root of an image is read as its clusters in the order of its chain, up to its size. |
| Disk.Fat32FileSystem.constructor | src/file_system.rs:70-89 | The volume is the one that is mounted from the image; what that is says `Image.MountedImage`. |
| Disk.Fat32FileSystem.ReadSector | src/file_system.rs:95-104 | The bytes of that sector. |
| Disk.Fat32FileSystem.ReadCluster | src/file_system.rs:107-117 | The sector loop reads exactly the cluster's bytes. |
| Disk.Fat32FileSystem.ReadFatEntry | src/file_system.rs:122-130 | The sector-based read gives the 28-bit link. |
| Disk.Fat32FileSystem.WriteFatEntry | src/file_system.rs:246-261 | The write at a global offset sets the same link and nothing else. |
| Disk.Fat32FileSystem.AllocateCluster | src/file_system.rs:232-241 | The scan takes the least free cluster and ends its chain, or reports a full disk and changes nothing. |
| Disk.Fat32FileSystem.WriteDirectoryEntry | src/file_system.rs:336-347 | The slot of the directory is replaced. |
| Disk.Fat32FileSystem.InitDirectoryCluster | src/file_system.rs:354-377 | The cluster becomes a fresh directory. |
| Disk.Fat32FileSystem.ListDirectoryEntries | src/file_system.rs:771-818 | The listing of the cluster. |
| Disk.Fat32FileSystem.FindParentCluster | src/file_system.rs:210-223 | The parent by the `..` entry, 0 standing for the root. |
| Disk.Fat32FileSystem.ParsePath | src/file_system.rs:169-207 | The loop over the components resolves the path. |
| Disk.Fat32FileSystem.CreateFile | src/file_system.rs:298-333 | On the bytes, outcome and volume are those of the specification; nothing outside FAT and data area changes. |
| Disk.Fat32FileSystem.Mkdir | src/file_system.rs:387-425 | The same for `mkdir`. |
| Disk.Fat32FileSystem.UpdateFileSize | src/file_system.rs:431-469 | The same for `update_file_size`. |
| Disk.Fat32FileSystem.WriteFile | src/file_system.rs:485-507 | The same for `write_file`. |
| Disk.Fat32FileSystem.ReadFile | src/file_system.rs:141-166 | The chain loop ends, and text or error is that of the specification, the UTF-8 check included. |
| Disk.BuildEntry | src/file_system.rs:321-328 | The byte-wise construction gives the new slot. |
| Disk.FindFreeSlot | src/file_system.rs:311-319 | The first slot that starts with 0x00 or 0xE5, or none. |
| Disk.FindShortSlot | src/file_system.rs:448-456 | The first slot that starts with the short name, or none. |
| Shell.ShellSession.constructor | src/file_system/interface.rs:39-45 | A session starts in the root. |
| Shell.ShellSession.ChangeDirectory | src/file_system/interface.rs:97-110 | The session moves exactly as specified, stays where it is on an error, and is always in a directory of the tree. |
| Shell.VisibleInOrder | src/file_system/interface.rs:115-120 | The entries shown are the named ones, in the order of the listing, and all others are dot entries. |
| Shell.ShellSession.LsEntries | src/file_system/interface.rs:115-120 | The listing of the current directory without its dot entries, in order. |
| SlabLayout.PageFits | src/allocator/slab.rs:200-243 | For every object size, header, table, padding and all objects fit in one page, there is at least one object, and one more would not fit. |
| SlabLayout.Recover | src/allocator/slab.rs:304-335 | Masking a pointer and dividing its offset recovers page and index, and the pointer is a multiple of 8. |
| SlabLayout.ClassInRange | src/allocator/slab.rs:181-183 | Every small size has a class below 9. |
| SlabLayout.ObjectSizeFits | src/allocator/slab.rs:200-200 | The object size is the least one of the nine that covers the request. |
| SlabLayout.PowerOfTwoClass | src/allocator/slab.rs:181-200 | A power of two has the class of its own object size. |
| SlabModel.OpenCacheKeeps | src/allocator/slab.rs:180-223 | Opening a cache keeps the invariant. |
| SlabModel.GrowKeeps | src/allocator/slab.rs:234-266 | Adding a slab keeps the invariant. |
| SlabModel.TakeKeeps | src/allocator/slab.rs:302-317 | Taking an object keeps free lists complementary to live objects, and slabs on the list for their fill. |
| SlabModel.GiveKeeps | src/allocator/slab.rs:337-349 | Giving an object back keeps the invariant. |
| SlabModel.GivePlaces | src/allocator/slab.rs:343-349 | After that a slab is on the empty list if and only if nothing is in use and it has more than one object; otherwise on the partial list. |
| SlabModel.LargeKeeps | src/allocator/slab.rs:278-286 | A large block keeps the invariant. |
| SlabRuns.PointerRecovered | src/allocator/slab.rs:334-335 | `dealloc` finds exactly the object a live pointer came from. |
| SlabPlaces.ClassIff | src/allocator/slab.rs:181-181 | The class of a request is how often two divides it beyond eight. |
| SlabPlaces.StopsForPages | src/allocator/slab.rs:187-237 | A small request stops the code if and only if its class has no slab with room and too few pages are left for a slab, and for a record if the class is new. |
| SlabPlaces.SmallAllocIs | src/allocator/slab.rs:274-318 | Otherwise it gets the first free object of the first partial, else the first empty, else a new slab, at its address, and takes no, one or two pages. |
| SlabPlaces.LargeAllocIff | src/allocator/slab.rs:278-286 | A large request gets null if and only if no number of pages that holds it is left, and otherwise the next page and as few more as hold it. |
| SlabPlaces.FreedReusedIff | src/allocator/slab.rs:287-350 | After a pointer was given back, the next request of its class gets it if and only if its slab was full, is the only partial one, or is the first partial one and stays in use. |
| SlabRuns.AllocTakesOne | src/allocator/slab.rs:274-318 | A small allocation takes exactly one free object of the class and returns its address. |
| SlabRuns.AllocTakesPages | src/allocator/slab.rs:278-286 | A large one takes as few new pages as cover it, or returns null and changes nothing. |
| SlabRuns.DeallocGivesOne | src/allocator/slab.rs:325-351 | Giving a live pointer back frees exactly its object. |
| SlabRuns.AreasDisjoint | src/allocator/slab.rs:180-363 | Live blocks, headers with tables and cache records lie in the heap and never overlap. |
| SlabRuns.RunInv | src/allocator/slab.rs:274-351 | The invariant holds in every state of every run. |
| SlabRuns.RunDisjoint | src/allocator/slab.rs:274-351 | The same disjointness in every state of every run, for all sizes. |
| SlabRuns.RunCoversIff | src/allocator/slab.rs:180-318 | In every run a block covers its request if and only if the request is at most the object size fixed by the first request of its class. |
| SlabRuns.RunCovers | src/allocator/slab.rs:274-318 | If all small requests are powers of two, every block covers its request. |
| SlabRuns.MixedSizesUncovered | src/allocator/slab.rs:181-200 | After 8 bytes, a request for 24 bytes is answered with an 8-byte object. |
| SlabGrowth.SlabsEqualPeak | src/allocator/slab.rs:234-351 | In every run the number of slabs of a class is the ceiling of its peak of live objects over the objects per slab. |
| SlabGrowth.StepCounts | src/allocator/slab.rs:291-314 | A call adds at most one slab to a class, and only when every object of the class is live. |
| SlabCallers.OutstandingApart | src/allocator/slab.rs:274-351 | In every run, an allocation never returns bytes of an earlier one that was not given back, if the object sizes of their classes are sufficient; both lie in the heap. |
| SlabCallers.PowersApart | src/allocator/slab.rs:274-351 | In every state of a run whose small requests are powers of two, the ranges asked for and not given back are pairwise apart and in the heap. |
| SlabCallers.LargeForever | src/allocator/slab.rs:278-330 | In every run, a large block keeps its pages for ever, also when it is given back. |
| SlabCallers.MixedSizesOverlap | src/allocator/slab.rs:181-318 | On a fresh heap, requests of 8, 24 and 8 bytes are answered with overlapping ranges. |
| Rings.AddRing | src/allocator/slab.rs:49-56 | `list_add` puts the node first and keeps the list a ring with inverse links. |
| Rings.DelRing | src/allocator/slab.rs:61-66 | `list_del` takes that node, and nothing else, out of the ring. |
| Rings.RingInverse | src/allocator/slab.rs:49-74 | In a ring `next` and `prev` are inverse and stay in the ring. |
| SlabMemory.MoveLinks | src/allocator/slab.rs:297-348 | Deleting a slab from one list and adding it to another keeps every list of every cache right. |
| SlabMemory.FreeChain | src/allocator/slab.rs:255-309 | The chain from `free` visits every object not in use exactly once, no other, in num - inuse steps, and ends. |
| SlabMemory.SlabOnOneList | src/allocator/slab.rs:291-349 | Every slab is a node of exactly one list, the one for its fill, and its links are inverse. |
| SlabAllocator.Allocator.constructor | src/allocator/slab.rs:167-172 | The memory represents an empty heap. |
| SlabAllocator.Allocator.AllocPages | src/allocator/slab.rs:355-363 | The next pages, or none if the end would be passed. |
| SlabAllocator.Allocator.ListInit | src/allocator/slab.rs:37-42 | A node becomes a list of its own. |
| SlabAllocator.Allocator.ListAdd | src/allocator/slab.rs:49-56 | The four link writes, in order, have the effect of the specification. |
| SlabAllocator.Allocator.ListDel | src/allocator/slab.rs:61-66 | The two link writes have the effect of the specification. |
| SlabAllocator.Allocator.ListEmpty | src/allocator/slab.rs:72-74 | The head points to itself if and only if the list is empty. |
| SlabAllocator.Allocator.GetOrCreateCache | src/allocator/slab.rs:180-223 | Memory and state change together; the record of the class is returned. |
| SlabAllocator.Allocator.CacheGrow | src/allocator/slab.rs:234-266 | The new slab is on the empty list with all objects on its chain. |
| SlabAllocator.Allocator.FillTable | src/allocator/slab.rs:255-262 | The loop links each object to the next and ends the last one, and touches no other page. |
| SlabAllocator.Allocator.Alloc | src/allocator/slab.rs:274-318 | Pointer and represented state are those of the specification; it stops only where the specification does. |
| SlabAllocator.Allocator.Dealloc | src/allocator/slab.rs:325-351 | The represented state is that of the specification. |
| FreeRegions.AlignUpIsMultiple | src/allocator.rs:21-28 | The least multiple of the alignment that is not below the address. |
| FreeRegions.NoOverflow | src/allocator.rs:21-28 | Rounding up a region's start never overflows. |
| FreeRegions.SizeAlignOk | src/allocator/linked_list.rs:86-93 | The adjusted size holds the request and a node, is a multiple of 8 and not larger than needed; the adjusted alignment is a multiple of 8 and of the one asked for. |
| FreeRegions.FitsOk | src/allocator/linked_list.rs:70-84 | A block is put inside the region, aligned, with nothing or at least a node behind it. |
| FirstFit.PlaceIff | src/allocator/linked_list.rs:70-84 | A region is accepted if and only if the block fits at its first aligned address with nothing or at least 16 bytes behind it, and the block goes there. |
| FirstFit.AdjustedIff | src/allocator/linked_list.rs:86-93 | A request is adjusted to the larger of its alignment and 8, and the least multiple of it that holds request and node. |
| FirstFit.AllocIff | src/allocator/linked_list.rs:97-113 | Null if and only if no free region has such a place; otherwise the place in the first region that has one, and the rest of that region becomes the first one. |
| FirstFit.FreshAlloc | src/allocator/linked_list.rs:97-113 | On a fresh heap with room, an aligned start is the first pointer. |
| FreeRegions.FindFit | src/allocator/linked_list.rs:54-68 | The first fitting region; none if and only if no region fits. |
| FreeRegions.CutKeeps | src/allocator/linked_list.rs:97-113 | Cutting a block out of a region keeps the tiling and all shapes. |
| FreeRegions.ReleaseKeeps | src/allocator/linked_list.rs:115-119 | Freeing a block keeps them too. |
| FreeRegions.PiecesDisjoint | src/allocator/linked_list.rs:41-52 | No two pieces of the heap share an address. |
| FreeRegions.RunKeeps | src/allocator/linked_list.rs:37-119 | In every run, regions, blocks and lost padding tile the heap and their bytes add up to it; regions are aligned and hold a node; blocks meet their layout. |
| FreeRegions.RunDisjoint | src/allocator/linked_list.rs:37-119 | In every run, no two free regions or blocks overlap, and all lie in the heap. |
| FreeRegions.RunLosesNothing | src/allocator/linked_list.rs:70-113 | For alignments up to 8 nothing is lost: free and used bytes add up to the heap. |
| FreeRegions.FreeThenAlloc | src/allocator/linked_list.rs:97-119 | Asking again with the layout just freed gives the same block and undoes the freeing. |
| FreeRegions.RunFiner | src/allocator/linked_list.rs:41-52 | Later regions and blocks are parts of earlier ones: nothing is ever joined. |
| FreeRegions.TooSmallForever | src/allocator/linked_list.rs:54-119 | Once every piece is too small for a request, it fails ever after, whatever is freed. |
| LinkedList.LinkedListAllocator.constructor | src/allocator/linked_list.rs:31-39 | The list holds the whole heap. |
| LinkedList.LinkedListAllocator.AddFreeRegion | src/allocator/linked_list.rs:41-52 | The region becomes the first one; its two assertions are shown at every call. |
| LinkedList.LinkedListAllocator.FindRegion | src/allocator/linked_list.rs:54-68 | The walk takes exactly the first fitting region off the list, or changes nothing. |
| LinkedList.LinkedListAllocator.Alloc | src/allocator/linked_list.rs:97-113 | Pointer and represented heap are those of the specification. |
| LinkedList.LinkedListAllocator.Dealloc | src/allocator/linked_list.rs:115-119 | The represented heap is that of the specification. |

## Left out

- Boot, paging, interrupts, serial and VGA output, `init_heap` and the tests: hardware and external crates.
- `ls`, `cat` and `list_files_names`: printing, or a projection of the listing.
- `src/allocator/fixed_size_block.rs` and `src/allocator/bump.rs`: would only add easy members.
- The `Mutex` and `Rc` around the file system and the allocators: each operation is one atomic step.
- Disk.Fat32FileSystem.ReadFile: the path must not lead to a file without a cluster, on which the code stops.
- Disk.Fat32FileSystem.CreateFile: the parent path must not lead to an entry without a cluster, on which the code stops.
- Disk.Fat32FileSystem.Mkdir: the same.
- Disk.Fat32FileSystem.WriteFile: the path must not lead to a file without a cluster, for the same reason.
- ShortName.FormatIsShortName: is about ASCII names, because nothing is known about the library's table for others.
- ShortName.FormatExact: is about ASCII names, for the same reason.
- ShortName.FormatStable: is about ASCII names, for the same reason.
- ShortName.PrintFormat: is about ASCII names, for the same reason.
- ShortName.CanonicalPrints: is about ASCII names, for the same reason.
- ReadBack.WriteReadsBackIff: does not cover a write that matches a long-name fragment; what that does is `ReadBack.WriteHitsFragment`.
- Disk.Fat32FileSystem.constructor: the image is smaller than 4 GiB and covers the 50000 clusters the allocator scans, because otherwise the offsets overflow or the scan panics.
- LongName.LongNameListed: names have at most 31 fragments and hold neither of the two padding values, which the format cannot carry.
- Disk.Fat32FileSystem.ParsePath: the volume holds a tree, as after every run; on clusters outside the disk the code panics.
- Creation.CreateFileAdds: short names that start with 0xE5 or NUL are in `Creation.DeletedNameVanishes` and `Misuse.NulNameTruncates`.
- Creation.MkdirAdds: the same.
- Session.CreateWriteRead: is about names under which the new file is found; which ones these are is `Session.CreatedFoundIff`.
- Session.MkdirThenCd: names with a slash are paths for `cd`; `Session.NewDirReachedIff` is about those.
- Session.NewDirReachedIff: short names do not start with NUL, which cuts listings of the tree.
- Runs.RunKeepsTree: short names do not start with NUL, and parents are directories; `Misuse` shows why both are needed.
- Multi-cluster directories and writes, freeing clusters and mirroring the FAT: the code does none of them.
- SlabAllocator.Allocator.Alloc: does not model the alignment of a request, which the code ignores; blocks are 8-aligned (`SlabLayout.Recover`).
- SlabAllocator.Allocator.AllocPages: does not model overflow of the page counter, which a request near the size of the address space would need.
- SlabAllocator.Allocator.GetOrCreateCache: the name of a cache and the null links a record is first written with are not modelled; nothing reads them.
- SlabRuns.RunInv: a run ends where the code stops for want of a page for a cache or slab.
- LinkedList.LinkedListAllocator.constructor: the heap lies in the lower half of the address space, so that rounding up cannot overflow.
- Words of memory that no record uses are not modelled: what callers store in their blocks is not tracked.
