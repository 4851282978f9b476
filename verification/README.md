# A verified model of the kernel's stateful cores

This project models four parts of a small i686 kernel in Dafny and proves what they keep over every
run:

- the writable FAT32 driver (`src/kernel/fs/fat.c`), from sectors and a five-sector FAT cache up to
  paths and the bytes they hold;
- the round-robin scheduler and its context switch (`src/kernel/scheduler.c`,
  `src/kernel/scheduler_asm.asm`);
- the page allocator (`src/kernel/pmm.c`), on its own and under the scheduler's stacks;
- the screen with its scrollback ring (`src/kernel/arch/i686/vga_text.c`) and the keyboard queue
  (`src/kernel/arch/i686/keyboard.c`).

Code that changes state in place is a class whose methods keep the source's fields, loops and
branches; each method is proved against a specification of its new state, and the theorems are
lemmas about those specifications. `dafny verify dfyconfig.toml` checks the whole project.

## How it is laid out

| files | what they hold |
|---|---|
| `Bytes` | bytes and little-endian words |
| `FatLayout`, `FatDirectory`, `FatTree`, `FatChains` | device layout and its view as links and clusters; directory slots and searching; the directory tree and paths in it; cluster chains |
| `FatVolume`, `FatSteps` | the consistent volume, and the four changes that keep it consistent |
| `FatStream`, `FatScan`, `FatFill`, `FatNames`, `FatPaths` | reading along a chain, scanning a directory, filling a chain, 8.3 names, splitting paths |
| `FatWrite`, `FatCalls`, `FatDriver` | what the writing calls do to the volume, failing ones included, and what each of them keeps; the driver itself |
| `FatOnDisk` | which bytes of the device all this comes to |
| `FatMeaning`, `FatReach`, `FatRuns`, `FatRoundTrip`, `FatCache` | what every path means after a call; which directories are found; runs of calls; write, open, read; the cache against the bare device |
| `Pages` | the page allocator |
| `TaskTable`, `ContextSwitch`, `Scheduling`, `TaskRuns` | whose turn is next; saving and restoring frames; the scheduler on its stacks; what a task sees over a run |
| `Screen`, `KeyQueue` | screen and scrollback; keyboard queue |

The driver's device is a total array of 512-byte sectors; its view (`FatLayout.ViewOf`) is the row of
28-bit links and the clusters of the data area. A ghost catalog says which clusters hang together,
which heads are directories and which slot names each head. A volume is *consistent* when chains are
well formed and disjoint, every directory is terminated and hangs under the root, and every chain but
the root's is named by exactly one entry of fitting size. `FatRuns.Healthy` spells this out. Clusters
in use that no chain holds are *lost*; consistency allows them, since some calls lose clusters.

A call is described by what it writes (`FatCalls.Does`), never by what it keeps: the slot it rewrites,
the links it clears, the chain it builds, and how it ends. Each writing method of the driver ensures
such a description in every outcome. That consistency and the meaning of all other paths are kept is
then proved call by call (`FatCalls.CallKeeps`, and path by path in `FatMeaning`) and, by induction, over
every run (`FatRuns`).

## Hypotheses

The code relies on these and does not establish them; they are `requires` clauses.

FAT32 driver
- Sector reads and writes in range succeed.
- `Geometry.Valid`: the cache window lies inside the FAT copies ((FatCount-1)*SectorsPerFat >= 4), the
  FAT covers the data area, cluster numbers stay below the end marks, and the free-cluster scan covers
  the data area.
- `Driver.Valid`: the volume is consistent to begin with: every directory holds only zero slots after
  its first zero slot, and directory slots have size 0. It is consistent again after every call.
- `PathSafe`: path components are not `.` or `..` (see `FatNames.DotsMisread`), what lies before the
  last component is a directory if it is there, and a search of the root finds its name or an end
  slot, because reading the root does not remember where its chain ended.
- `PathText`: a path is a C string shorter than 256 bytes.
- `ParentSafe`: the directory part of a path does not name a file. The code does not look: it would
  take the file's first cluster for a directory (`Driver.GetDirCluster`).
- `Deletable`: the name is not a dot name. `Writable`: nor does the name to write start with 0xE5.
- `Roomy`, `Space`: enough clusters of the data area are free, or the entries past it are marked used;
  `FatDriver.ScanInsideIff` says exactly when the scan stays inside and `ScanLeavesVolume` gives a
  volume on which it does not. The scan itself only needs to end on the FAT (`ScanStaysOnFat`). That the
  entries past the data area are used is asked for once: every call keeps it (`FatRuns.RunTail`).

Scheduler, context switch, stacks
- A task is killed only by another task (`TaskTable.KilledSelf` shows what happens otherwise).
- A yield finds another live task, so that a switch never targets the task it comes from
  (`TaskTable.YieldsAway`, `TaskRuns.SelfSwitch`; `TaskRuns.IdleAlone` is a yield before any task is made).
- The idle task is registered first. A task calls the scheduler with its stack pointer on its own
  stack and room for eleven words, and writes only to its own stack or to memory that is no task's.
- Task table and boot stack lie in kernel pages (`Scheduling.KernelOutside`).

Page allocator
- Initialization runs once, the kernel ends at 128 MB at most, regions end below 2^44.
- Clients give back pages they hold.

Screen and keyboard
- The line counter does not overflow.
- One reader; the interrupt handler runs to its end.

## Where the code does less than it seems to

- Opening a path looks up the names that writing it used only when either the file name is not empty
  or the directory part ends in a slash, not both: `a/` and `a//b` are written in one place and
  opened in another (`FatRoundTrip.NamesAgree`, `SlashesDisagree`).
- The last step of writing a file does not skip long-name slots. When one before the new entry reads as
  its name, it receives the chain and the size, and the file stays empty although the call succeeds
  (`FatScan.PatchHit`, `FatDriver.Driver.WriteFile`; `FatRoundTrip.AliasedFile` writes one and reads
  nothing back).
- Replacing a file deletes the old one first: when the clusters run out on the way, the path names an
  empty file (`FatDriver.Driver.WriteFile`; `FatRoundTrip.OverwriteRunsOut` writes a file, then too much
  under its name, on volumes such as `TightVolume`).
- Creating does not look whether the name is taken (`FatMeaning.CreatedMeaning`); deleting removes the
  first entry of a name only (`FatMeaning.DeletedMeaning`): a name made twice and deleted once is still
  there (`FatRuns.DuplicateStays`). A directory made behind an entry of its name, or hidden by a
  file made in front of it, is on the volume and no path leads to it (`FatReach.CallFound`,
  `FatRuns.DirBehindFile`).
- Clusters are lost exactly when a directory that names chains is deleted or replaced, an alias takes
  what is written, the clusters run out on the way, or a new directory finds no slot
  (`FatCalls.CallCovering`, `FatRuns.RunCovering`; `FatRuns.TreeDeleted` loses one). The driver's
  contracts say so in terms of the volume before the call (`FatCalls.WriteAccounts`). Nothing gives them
  back.
- A tab never ends at a multiple of four columns: its loop compares with a column that moves on
  (`Screen.TabSpaces`).
- The free count of the volume leaves out the last two clusters (`FatDriver.InfoAgrees`;
  `FatRoundTrip.SmallVolume` reports eleven of thirteen).
- Clearing the screen does not clear the ring: the two agree afterwards only when the ring's first rows
  were blank (`Screen.Display.Clear`, `Screen.ClearForgets`). Rendering leaves rows from the 200th
  line on blank, so after more than 175 lines of history snapping back to the live view loses lines
  (`Screen.Display.RenderedLive`, `ViewShows`, `Screen.SnapBackLoses`); scrolling down to the live view
  does not.

## Model

| member | source | states |
|---|---|---|
| Bytes.LittleEndian | src/kernel/fs/fat.c:192-193 | a number stands on the disk with its lowest byte first, wherever in a structure it is read or written |
| Bytes.MergedDigits | src/kernel/fs/fat.c:207-208 | of the eight hexadecimal digits of an entry the first is kept, the other seven are those of the new value |
| FatLayout.BootFields | src/kernel/fs/fat.c:27-57 | for a boot sector put together field by field, the driver's numbers are those of the fields; total sectors from 16 bits unless these are zero; FAT32 exactly when the 16-bit size of a FAT is zero |
| FatLayout.Geometry.WholeClusters | src/kernel/fs/fat.c:894-898 | the clusters counted are those that fit, a shorter rest is left over |
| FatLayout.EntryOnDevice | src/kernel/fs/fat.c:167-175 | the word of entry n is made of the four bytes 4n behind the start of the FAT |
| FatLayout.LinkOnDevice | src/kernel/fs/fat.c:182-194 | and its link leaves out the upper half of the fourth |
| FatLayout.EntryBytes | src/kernel/fs/fat.c:196-211 | an update writes three and a half of these bytes and no other byte of the device |
| FatLayout.ClusterOnDevice | src/kernel/fs/fat.c:177-180 | where on the device each byte of a cluster lies |
| FatLayout.PutEntryWords | src/kernel/fs/fat.c:196-211 | an entry update takes the low 28 bits, keeps the top four and every other word of the FAT |
| FatLayout.PutEntryView | src/kernel/fs/fat.c:196-211 | and changes one link and nothing of the data area |
| FatLayout.PutSectorView | src/kernel/fs/fat.c:177-180 | a sector write changes that sector of that cluster, no other cluster and no link |
| FatLayout.Geometry.SectorsDistinct | src/kernel/fs/fat.c:177-180 | two different sectors of clusters never share a device sector |
| FatLayout.CachedWord | src/kernel/fs/fat.c:192-193 | in a coherent window the word of an entry is the device's |
| FatLayout.WriteBack | src/kernel/fs/fat.c:206-210 | writing the window back after changing one word changes that word on the device only, and leaves the window coherent |
| FatDriver.Driver.constructor | src/kernel/fs/fat.c:234-271 | the driver starts with nothing cached, no file open, and the root ready on its first sector |
| FatDriver.Driver.Initialize | src/kernel/fs/fat.c:228-276 | from the boot sector's bytes (`FatLayout.BootFields`) to the driver; nothing for a volume that is not FAT32 |
| FatDriver.Driver.LoadWindow | src/kernel/fs/fat.c:184-190 | the window covers the wanted sector and equals the device |
| FatDriver.Driver.NextCluster | src/kernel/fs/fat.c:182-194 | returns the low 28 bits of the entry on the device, through the cache |
| FatDriver.Driver.SetCluster | src/kernel/fs/fat.c:196-211 | the device afterwards is the device with one entry updated; the cache stays coherent |
| FatDriver.Driver.StoreWord | src/kernel/fs/fat.c:206-210 | a word stored in the window and written back is the only change to the device |
| FatDriver.Driver.WriteSector | src/kernel/fs/fat.c:177-180 | a data write changes one sector of one cluster and leaves the cache coherent |
| FatCache.Run | src/kernel/fs/fat.c:167-211 | any run of lookups, updates and data writes gives the answers and the device that working without a cache gives |
| FatCache.WordsKept | src/kernel/fs/fat.c:196-211 | over every run the top four bits of every FAT word stay, and words no call updates stay altogether |
| FatDriver.Driver.AllocCluster | src/kernel/fs/fat.c:214-224 | takes the lowest free entry below the bound and marks it as an end; 0, and no change, exactly when there is none; it lies in the data area when the scan stays inside |
| FatDriver.ScanInsideIff | src/kernel/fs/fat.c:215-218 | the scan stays in the data area exactly when one of its clusters is free or the entries past it are in use |
| FatDriver.ScanLeavesVolume | src/kernel/fs/fat.c:215-218 | a volume on which the scan hands out a cluster past its end |
| FatChains.ChainAcyclic | src/kernel/fs/fat.c:780-784 | a chain that reaches an end mark passes no cluster twice |
| FatChains.ChainUnique | src/kernel/fs/fat.c:182-194 | the links determine the chain of a head |
| FatChains.LinkKinds | src/kernel/fs/fat.c:780-782 | the eight highest links end a chain, the others but 0 and 1 lead on |
| FatChains.CountedSet | src/kernel/fs/fat.c:912-917 | counting free entries one by one gives the size of their set |
| FatChains.FreeFromExact | src/kernel/fs/fat.c:778-784 | freeing ends on every FAT, cyclic and crossing chains included; exactly the visited entries become free |
| FatChains.FreeWholeChain | src/kernel/fs/fat.c:778-784 | from the head of a well-formed chain exactly that chain is freed |
| FatChains.CountErased | src/kernel/fs/fat.c:778-784 | freeing distinct used clusters adds their number to the free count |
| FatDriver.Driver.FreeChain | src/kernel/fs/fat.c:778-784 | the freeing loop computes that FAT and ends |
| FatChains.ExtendPicks | src/kernel/fs/fat.c:814-823 | one round of writing keeps the picks the lowest free clusters, increasing, linked in order and ended |
| FatChains.PicksMakeChain | src/kernel/fs/fat.c:814-834 | the picks form a well-formed chain |
| FatChains.CountChained | src/kernel/fs/fat.c:814-834 | building a chain of n clusters takes n from the free count |
| FatFill.FilledReads | src/kernel/fs/fat.c:826-833 | filled clusters read back as the data |
| FatFill.FilledSectors | src/kernel/fs/fat.c:826-833 | sector by sector they are the data, the last sector padded with zeros |
| FatFill.BuildRoom | src/kernel/fs/fat.c:814-834 | while fewer clusters are taken than were free, one of the data area is free; the count is exact |
| FatFill.BuildOn | src/kernel/fs/fat.c:814-834 | one more cluster taken, linked and filled keeps the chain under construction |
| FatDriver.Driver.FillCluster | src/kernel/fs/fat.c:825-833 | one cluster receives its sectors of the data, the rest of the volume stays |
| FatDriver.Driver.TakeCluster | src/kernel/fs/fat.c:815-823 | the lowest free cluster is linked behind the last one |
| FatDriver.Driver.BuildChain | src/kernel/fs/fat.c:805-834 | the writing loop builds and fills a chain of the length the size demands, exactly when that many clusters are free |
| FatDirectory.SlotFields | src/kernel/fs/fat.h:5-18 | what the bytes of a slot mean: name, attribute, the halves of the first cluster, size; a directory has bit 4 of the attribute |
| FatDirectory.SlotKinds | src/kernel/fs/fat.c:767-776 | which first bytes and attributes end a directory, are free, or are passed over |
| FatDirectory.StampedBytes | src/kernel/fs/fat.c:870-874 | stamping writes the halves of the cluster and the size, each at its place, and no other byte |
| FatDirectory.NewBytes | src/kernel/fs/fat.c:640-653 | a new slot is zeros but for name, attribute and cluster |
| FatDirectory.SlotBytes | src/kernel/fs/fat.c:767-769 | slot e of a sector is its thirty-two bytes from 32e on |
| FatScan.ScanSector | src/kernel/fs/fat.c:767-791 | the first hit of a sector, or its end slot, or neither |
| FatScan.FreeInSector | src/kernel/fs/fat.c:582-589 | the first free slot of a sector |
| FatScan.FindIsFirstHit | src/kernel/fs/fat.c:763-795 | scanning sector by sector finds the slot that opening finds |
| FatScan.PatchHit | src/kernel/fs/fat.c:859-880 | the last step of writing takes the slot that opening finds exactly when no alias lies before it |
| FatScan.AliasTakesThePatch | src/kernel/fs/fat.c:859-880 | slots on which it takes a long-name slot |
| FatDriver.Driver.FindFreeDirSlot | src/kernel/fs/fat.c:571-594 | the first free slot of a directory and where it lies, or that there is none |
| FatDriver.Driver.SearchDir | src/kernel/fs/fat.c:763-795 | the first slot that carries a name before any end slot, and where it lies |
| FatDriver.Driver.Advance | src/kernel/fs/fat.c:403-430 | a used-up sector is followed by the next of the chain; where the chain ends, every handle but the root's remembers it |
| FatDriver.Driver.TakeBytes | src/kernel/fs/fat.c:394-430 | one round copies the next bytes of the chain and keeps the buffer on the sector of the position |
| FatDriver.Driver.CopyOut | src/kernel/fs/fat.c:393-431 | the loop copies as many bytes as asked for or as the chain holds |
| FatDriver.Driver.Read | src/kernel/fs/fat.c:382-433 | a read returns the bytes of the chain from the position up to the limit and moves the position there |
| FatStream.StreamStep | src/kernel/fs/fat.c:403-430 | where a handle stands once a sector is used up |
| FatStream.StreamSlot | src/kernel/fs/fat.c:435-438 | thirty-two bytes at a multiple of thirty-two are one directory slot |
| FatDriver.Driver.ReadEntry | src/kernel/fs/fat.c:435-438 | the slots of a directory come one by one, and none after the last |
| FatDriver.Driver.FindInDir | src/kernel/fs/fat.c:311-339 | finds the first live slot with the encoded name before the end slot |
| FatDriver.Driver.OpenEntry | src/kernel/fs/fat.c:280-309 | the lowest closed handle is opened at the start of the entry's chain; null when all are open |
| FatDriver.Driver.Close | src/kernel/fs/fat.c:440-451 | a closed handle is free again; the root is rewound |
| FatDriver.Driver.Open | src/kernel/fs/fat.c:341-380 | opens what the path names in the directory tree; no other handle stays taken |
| FatDriver.Driver.GetDirCluster | src/kernel/fs/fat.c:596-607 | the first cluster of what a path names, directory or not, or 0; for a directory, its head |
| FatNames.GetShortName | src/kernel/fs/fat.c:106-127 | encodes a name by its last dot into eleven bytes |
| FatNames.UpperAlike | src/kernel/fs/fat.c:104 | two bytes become one in upper case exactly when they are one byte or the two cases of a letter |
| FatNames.EncodedDotted | src/kernel/fs/fat.c:106-127 | base and extension around the last dot, cut to eight and three bytes, in upper case, padded with spaces |
| FatNames.EncodedPlain | src/kernel/fs/fat.c:106-127 | a name without a dot is all base |
| FatNames.EncodedCut | src/kernel/fs/fat.c:115-126 | what is beyond eight and three bytes does not matter |
| FatNames.CaseBlind | src/kernel/fs/fat.c:104-127 | nor does the case of letters, in any name |
| FatNames.EncodedAlike | src/kernel/fs/fat.c:104-127 | two names that fit 8.3 are encoded alike exactly when they differ in the case of letters only |
| FatNames.PrintName | src/kernel/fs/fat.c:532-555 | the listing's text of a name fits 13 bytes with its final zero |
| FatNames.PrintedRoundTrip | src/kernel/fs/fat.c:532-555 | printing and encoding gives a name back exactly when it has no lower case, no dot in the extension, and none in the base unless an extension follows |
| FatNames.DotsMisread | src/kernel/fs/fat.c:106-127 | `..` is encoded as a directory's own slot and `.` as a blank name |
| FatPaths.NextComponent | src/kernel/fs/fat.c:355-363 | the first component of a path and what follows its slash |
| FatPaths.SplitPath | src/kernel/fs/fat.c:610-630 | splits at the last slash |
| FatPaths.JoinedComponents | src/kernel/fs/fat.c:341-363 | opening walks through the components a path is written with, with or without a slash in front |
| FatPaths.JoinedParent | src/kernel/fs/fat.c:610-630 | writing takes the last one for the name and the others for the directory |
| FatPaths.OpenAgrees | src/kernel/fs/fat.c:341-363 | opening walks the directory's components and the file name exactly under the stated condition |
| FatRoundTrip.NamesAgree | src/kernel/fs/fat.c:341-363 | the same for the encoded names |
| FatRoundTrip.SlashesDisagree | src/kernel/fs/fat.c:797-883 | two paths that are written in one place and opened in another |
| FatTree.OnePath | src/kernel/fs/fat.c:341-380 | a directory of a consistent tree is reached by one dot-free path at most |
| FatTree.LookupFrame | src/kernel/fs/fat.c:341-380 | a path that does not look up the changed name finds the same slot |
| FatVolume.WriteSlotTree | src/kernel/fs/fat.c:640-655 | writing a slot of one directory changes that slot of the tree only |
| FatVolume.WriteSlotBytes | src/kernel/fs/fat.c:640-655 | and no byte of any other chain |
| FatSteps.StepPlain | src/kernel/fs/fat.c:636-655 | naming an empty file keeps the volume consistent and every other path |
| FatTree.GoneCut | src/kernel/fs/fat.c:776-788 | what lies below an entry is closed under naming and holds neither the entry's directory nor the root |
| FatTree.GoneAlone | src/kernel/fs/fat.c:776-788 | nothing but its own chain goes with an entry exactly when it is not a directory that names one |
| FatSteps.StepRemove | src/kernel/fs/fat.c:776-788 | removing an entry with its chain, and cutting off all that lies below it, keeps the volume consistent and every other path |
| FatSteps.StepAttach | src/kernel/fs/fat.c:871-876 | giving a built chain to a file keeps the volume consistent and every other path |
| FatSteps.StepDir | src/kernel/fs/fat.c:680-731 | adding an empty directory keeps the volume consistent and every other path |
| FatWrite.CreateAfterDelete | src/kernel/fs/fat.c:797-801 | the new slot is never behind the first match of its name, and is what the name finds |
| FatWrite.DeletedCount | src/kernel/fs/fat.c:776-788 | deleting gives back as many clusters as the entry had |
| FatWrite.AliasPatched | src/kernel/fs/fat.c:859-880 | when an alias receives the chain, the entry stays empty, the volume consistent and every other path as it was |
| FatWrite.ShortOfClusters | src/kernel/fs/fat.c:815-819 | so they do when the clusters run out |
| FatCalls.WriteKeeps | src/kernel/fs/fat.c:797-883 | a write that succeeds leaves the file with the data exactly when there is none or no alias is in the way, and else an empty file |
| FatCalls.CallKeeps | src/kernel/fs/fat.c:609-883 | every call, however it ends, keeps the volume consistent and every path that does not look up its name in its directory |
| FatCalls.CallCovering | src/kernel/fs/fat.c:609-883 | no cluster is lost after a call exactly when none was before and the call is not one of those that lose some |
| FatCalls.CallTail | src/kernel/fs/fat.c:609-883 | no call changes an entry of the FAT outside the data area |
| FatCalls.WriteAccounts | src/kernel/fs/fat.c:797-883 | which writes lose clusters, told before the call by the old entry, the space and the aliases |
| FatReach.FoundIff | src/kernel/fs/fat.c:341-380 | all directories are found by paths exactly when the slot of each is the first of its name |
| FatReach.CallFound | src/kernel/fs/fat.c:609-883 | when all are found, they all still are after a call exactly when it puts no slot in front of a directory of that name |
| FatDriver.Driver.CreateFile | src/kernel/fs/fat.c:609-656 | succeeds exactly when the directory is reached and has a free slot; the first free slot names an empty file, nothing else changes |
| FatDriver.Driver.DeleteEntry | src/kernel/fs/fat.c:734-795 | succeeds exactly when the name is found; its first entry goes, and exactly its chain is freed, directories with content included |
| FatDriver.Driver.ReplaceEntry | src/kernel/fs/fat.c:797-801 | afterwards the name finds an empty file, duplicates or not, and the clusters of what it found are free |
| FatDriver.Driver.PatchEntry | src/kernel/fs/fat.c:836-882 | the first slot that carries the name, long-name slots included, receives cluster and size |
| FatDriver.Driver.FillEntry | src/kernel/fs/fat.c:805-882 | the data goes into a new chain, which the entry receives, or an alias before it |
| FatDriver.Driver.WriteFile | src/kernel/fs/fat.c:797-883 | exactly when it succeeds, and what the path names then: a file with the data whose chain is paid for by free clusters and the old chain; an empty file when an alias is in the way or the clusters run out; in every outcome the volume is consistent and all other paths mean what they meant |
| FatDriver.Driver.InitDirCluster | src/kernel/fs/fat.c:685-711 | a new directory cluster holds its two dot slots and zeros |
| FatDriver.Driver.CreateDir | src/kernel/fs/fat.c:658-732 | succeeds exactly when the parent is reached, a cluster and a slot are free; the lowest free cluster becomes an empty directory; when only the slot is missing, the cluster is lost and nothing else changes |
| FatDriver.Driver.GetDiskInfo | src/kernel/fs/fat.c:890-922 | the clusters of the data area are those that fit in its sectors; the free count read straight from the device is the number of them below 60000 that the cache reports as free |
| FatDriver.InfoAgrees | src/kernel/fs/fat.c:895-918 | it is the free count of the data area exactly when no cluster from the bound on is free |
| FatRoundTrip.FormattedMiscount | src/kernel/fs/fat.c:895-918 | on a freshly formatted volume of at most 60000 clusters it is two short |
| FatRoundTrip.SmallVolume | src/kernel/fs/fat.c:895-918 | such a volume: thirteen clusters are free, eleven reported |
| FatOnDisk.StreamOnDevice | src/kernel/fs/fat.c:177-180 | where on the device each byte of a chain lies |
| FatOnDisk.FileOnDevice | src/kernel/fs/fat.c:382-433 | so for the bytes of a file |
| FatOnDisk.SlotOnDevice | src/kernel/fs/fat.c:763-769 | and for those of a directory's slots |
| FatOnDisk.CreatedBytes | src/kernel/fs/fat.c:640-653 | the thirty-two bytes of a created file's slot |
| FatOnDisk.WrittenBytes | src/kernel/fs/fat.c:870-876 | of a written one's |
| FatOnDisk.DeletedBytes | src/kernel/fs/fat.c:785-787 | of a deleted one's |
| FatOnDisk.DirBytes | src/kernel/fs/fat.c:680-726 | of a new directory's, and of the two it begins with; nothing but zeros behind these |
| FatMeaning.OtherPathsKept | src/kernel/fs/fat.c:609-883 | after any call, every path that does not go through the changed one means what it meant |
| FatMeaning.WrittenMeaning | src/kernel/fs/fat.c:797-883 | the written path is a file that holds the data |
| FatMeaning.DeletedMeaning | src/kernel/fs/fat.c:734-795 | the deleted path is absent exactly when the directory held the name once |
| FatMeaning.CreatedMeaning | src/kernel/fs/fat.c:609-656 | the created path finds the earlier of the new slot and what it found before |
| FatMeaning.DirCreatedMeaning | src/kernel/fs/fat.c:658-732 | the new directory is found by its path, and nothing is found below it |
| FatMeaning.WrittenMap | src/kernel/fs/fat.c:797-883 | after a write the meaning of every path is told: the written one is the data, nothing is below it, all others mean what they meant |
| FatMeaning.EmptiedMap | src/kernel/fs/fat.c:797-883 | the same when an alias takes the data or the clusters run out, with an empty file |
| FatMeaning.CreatedMap | src/kernel/fs/fat.c:609-656 | the same after creating; no path changes its meaning when the name was found before the new slot |
| FatMeaning.DirCreatedMap | src/kernel/fs/fat.c:658-732 | the same after making a directory |
| FatMeaning.DeletedMap | src/kernel/fs/fat.c:734-795 | the same after deleting: the path, and all below it, is absent, or means what the next entry of the name means |
| FatRuns.Conservation | src/kernel/fs/fat.c:214-224 | free clusters and the lengths of all chains never exceed the data area, and add up to it exactly when no cluster is lost |
| FatRuns.ConsistentHealthy | src/kernel/fs/fat.c:609-883 | consistency means: acyclic ended chains, no cluster on two of them, each named by a slot, each file's of the length its size demands, each directory under the root |
| FatRuns.FormattedConsistent | src/kernel/fs/fat.c:228-276 | a freshly formatted volume, one zeroed root cluster and all others free, is consistent: where runs start |
| FatRuns.FormattedWhole | src/kernel/fs/fat.c:228-276 | on it no cluster is lost and every directory is found |
| FatRuns.RunConsistent | src/kernel/fs/fat.c:609-883 | every state of every run of calls, failing and aliased ones included, is consistent |
| FatRuns.RunTail | src/kernel/fs/fat.c:609-883 | nor does any run of calls; whether the free-cluster scan has only used entries past the data area never changes |
| FatRuns.RunCovering | src/kernel/fs/fat.c:609-883 | over every run no cluster is lost exactly when none was at the start and no call lost one |
| FatRuns.RunFound | src/kernel/fs/fat.c:609-883 | over every run every directory is found by a path as long as no call hides one |
| FatRuns.RunHealthy | src/kernel/fs/fat.c:609-883 | every state of every run is healthy, and clusters are conserved exactly as long as no call has lost one |
| FatRuns.RunFrame | src/kernel/fs/fat.c:609-883 | over every run a path that no call is about keeps its meaning |
| FatRuns.RunKeepsWritten | src/kernel/fs/fat.c:797-883 | what a write put under a path is what it holds until a call is about that path again, if it had no data or no alias took it, whatever was there before |
| FatRuns.DuplicateStays | src/kernel/fs/fat.c:734-795 | a run from a formatted volume: made twice, deleted once, still there |
| FatRuns.DirBehindFile | src/kernel/fs/fat.c:658-732 | a run that makes a directory no path leads to |
| FatRuns.TreeDeleted | src/kernel/fs/fat.c:734-795 | a run that deletes a directory with a directory in it and loses a cluster |
| FatRoundTrip.ReadPieces | src/kernel/fs/fat.c:382-433 | reads of any sizes give the bytes of the file in order, and nothing behind them |
| FatRoundTrip.PiecesWhole | src/kernel/fs/fat.c:382-433 | however the reads are cut, put together they are the file once enough is asked for |
| FatRoundTrip.WriteOpenRead | src/kernel/fs/fat.c:341-433 | writing, opening and reading in any pieces gives the data, exactly when there is none or no alias is in the way |
| FatRoundTrip.FirstFile | src/kernel/fs/fat.c:797-883 | on a freshly formatted volume every hypothesis is met: any plainly named file that fits is written and read back in any pieces |
| FatRoundTrip.OverwriteRunsOut | src/kernel/fs/fat.c:797-883 | a file written to a formatted volume and overwritten with more than fits: the second call fails and the path is an empty file |
| FatRoundTrip.TightVolume | src/kernel/fs/fat.c:215-218 | a formatted volume whose scan ends with its data area |
| FatRoundTrip.AliasedVolume | src/kernel/fs/fat.c:859-880 | a formatted volume with one long-name slot in its root is consistent, and the alias is in the way |
| FatRoundTrip.AliasedFile | src/kernel/fs/fat.c:797-883 | on it any such write succeeds, and reading it back gives nothing |
| Pages.BitSet | src/kernel/pmm.c:15-18 | setting a bit of a byte sets that bit alone |
| Pages.BitCleared | src/kernel/pmm.c:20-23 | clearing a bit clears that bit alone |
| Pages.MaskShift | src/kernel/pmm.c:15-28 | the bit of a page is a one shifted by its number modulo eight |
| Pages.FreeSetMarked | src/kernel/pmm.c:15-28 | on the bitmap as a set of pages, setting removes and clearing adds one page |
| Pages.CoversRange | src/kernel/pmm.c:42-48 | the two bounds computed from a region are those of the pages it covers |
| Pages.PoolAddresses | src/kernel/pmm.c:30-77 | a page is handed out exactly when it lies in the first 128 MB and is not page 0, all its addresses lie in one region of type 1, and none in the kernel |
| Pages.Allocator.FreeRegion | src/kernel/pmm.c:36-60 | a region's covered pages become free, each counted once though regions overlap |
| Pages.Allocator.Initialize | src/kernel/pmm.c:30-77 | a page is free exactly when a usable region covers it, it is below the limit, and it is neither the kernel's nor page 0; the counters agree |
| Pages.Allocator.LowestFree | src/kernel/pmm.c:85-91 | the scan finds the lowest free page |
| Pages.Allocator.AllocPage | src/kernel/pmm.c:84-95 | the lowest free page, never one still held; 0 exactly when none is free |
| Pages.Allocator.FreePage | src/kernel/pmm.c:97-103 | gives exactly that page back; nothing happens when it is free already |
| Pages.Allocator.PagesConserved | src/kernel/pmm.c:84-103 | free and held pages together stay as many as initialization freed |
| TaskTable.SomeChosen | src/kernel/scheduler.c:144-150 | the search always has a task to find |
| TaskTable.ChosenCounted | src/kernel/scheduler.c:144-150 | counting on from the current task around the table, it is the first that is ready |
| TaskTable.TableAfter | src/kernel/scheduler.c:32-184 | the table after a yield, after making and after killing a task, task by task |
| TaskTable.YieldDetermined | src/kernel/scheduler.c:141-158 | the table after a yield, or after the end of a task's time, is determined by the table before |
| TaskTable.YieldsAway | src/kernel/scheduler.c:141-157 | a yield goes to another task exactly when another one is alive |
| TaskTable.RunFit | src/kernel/scheduler.c:141-184 | over every run only the current task is running, and it and the idle task are not dead |
| TaskTable.Closer | src/kernel/scheduler.c:141-158 | a yield brings the turn strictly closer to a waiting task, no other event takes it away |
| TaskTable.BoundedWaiting | src/kernel/scheduler.c:141-158 | in every run with seven yields a task that was ready and is not killed has had its turn |
| TaskTable.KilledStaysDead | src/kernel/scheduler.c:176-184 | a task killed by another never has a turn again |
| TaskTable.KilledSelf | src/kernel/scheduler.c:141-184 | a killed task is dead after the next yield exactly when it was not the current one |
| TaskTable.CountsTurns | src/kernel/scheduler.c:153-156 | over every run, of whatever events, the recorded count goes up by the turns, modulo 2^32 |
| TaskTable.Fairness | src/kernel/scheduler.c:88-158 | over every run of yields and ticks the turns of two live tasks differ by one at most |
| ContextSwitch.SaveLoad | src/kernel/scheduler_asm.asm:4-22 | restoring a saved frame gives the registers back and returns from the call |
| ContextSwitch.FreshLoad | src/kernel/scheduler.c:55-71 | the first frame of a task restores zeroed registers, its entry, and a stack pointer at the top of its page |
| ContextSwitch.Machine.Pushad | src/kernel/scheduler_asm.asm:6 | pushes the registers in the order that the frame has |
| ContextSwitch.Machine.Popad | src/kernel/scheduler_asm.asm:19 | restores them in that order, skipping the stack pointer |
| ContextSwitch.Machine.Switch | src/kernel/scheduler_asm.asm:4-22 | saves the caller's frame and stack pointer and goes on with the frame of the given stack pointer |
| Scheduling.Scheduler.RegisterIdle | src/kernel/scheduler.c:124-139 | the running code becomes task 0 |
| Scheduling.Scheduler.PrepareStack | src/kernel/scheduler.c:55-71 | writes the first frame, word by word |
| Scheduling.Scheduler.CreateTask | src/kernel/scheduler.c:32-78 | a new task is parked at its entry on a page no one held; nothing happens when the table is full or no page is free |
| Scheduling.Scheduler.KillTask | src/kernel/scheduler.c:176-184 | gives back exactly the task's page; killing again, the idle task or a number out of range changes nothing |
| Scheduling.Scheduler.FindReady | src/kernel/scheduler.c:144-150 | finds the first ready task around the table and never gives up early |
| Scheduling.Scheduler.Yield | src/kernel/scheduler.c:141-158 | the next ready task goes on with what it was parked with, the caller is parked; every stack stays intact |
| Scheduling.Scheduler.Tick | src/kernel/scheduler.c:88-121 | the same at the end of a task's time, nothing before |
| Scheduling.Scheduler.Execute | src/kernel/scheduler.c:40-56 | an instruction of the running task that changes registers and a word of its own stack, or of memory that is no task's, is a `Work` move: what happens between two calls of the scheduler is a run of them |
| Scheduling.Scheduler.ClientAlloc | src/kernel/pmm.c:84-95 | another client never receives a page that a task runs on |
| Scheduling.Scheduler.ClientFree | src/kernel/pmm.c:97-103 | giving back other pages leaves the tasks' stacks alone |
| Scheduling.HomesApart | src/kernel/scheduler.c:40-45 | no word lies on two tasks' stacks, and no saved stack pointer on any |
| Scheduling.SwitchSound | src/kernel/scheduler.c:152-157 | a switch keeps stack ownership and every parked task, in memory |
| Scheduling.CreateSound | src/kernel/scheduler.c:38-77 | so does making a task |
| Scheduling.KillSound | src/kernel/scheduler.c:176-184 | and so does killing one |
| Scheduling.KernelOutside | src/kernel/pmm.c:62-71 | what lies in the kernel's memory lies outside every page handed out |
| Scheduling.Boot | src/kernel/scheduler.c:124-139 | from the memory map to the idle task, the kernel starts with every hypothesis of the scheduler met, and 0 as the idle task's saved stack pointer |
| TaskRuns.ParkedStays | src/kernel/scheduler.c:141-158 | while a task is away, nothing the others do changes what it goes on with |
| TaskRuns.Resumes | src/kernel/scheduler_asm.asm:4-22 | a task that was switched out goes on with its registers, stack and return address after any number of moves of the others |
| TaskRuns.FirstTurn | src/kernel/scheduler.c:55-72 | a task first runs at its entry with zeroed registers and an empty stack |
| TaskRuns.SelfSwitch | src/kernel/scheduler.c:157 | a switch of a task to itself goes on after the call exactly when the given stack pointer is the one being saved |
| TaskRuns.IdleAlone | src/kernel/scheduler.c:124-157 | before any task is made, a yield chooses the idle task and goes on with the frame at address 0 |
| Screen.Display.Clear | src/kernel/arch/i686/vga_text.c:105-117 | the screen is blank; ring and screen agree exactly when the ring's first rows were blank |
| Screen.ClearForgets | src/kernel/arch/i686/vga_text.c:105-117 | one letter, then clearing: the ring still holds it |
| Screen.Display.Render | src/kernel/arch/i686/vga_text.c:44-65 | shows the lines of the view up to its bound, and blanks past it |
| Screen.Display.RenderedLive | src/kernel/arch/i686/vga_text.c:156-161 | rendering at the live view shows the live screen exactly when the lines past the bound are blank |
| Screen.Display.SnapBack | src/kernel/arch/i686/vga_text.c:156-161 | printing's first step shows the live screen exactly then |
| Screen.SnapBackLoses | src/kernel/arch/i686/vga_text.c:156-161 | two hundred lines and a letter, scrolled back and snapped to the live view: the letter is gone from the screen |
| Screen.Display.ViewShows | src/kernel/arch/i686/vga_text.c:44-65 | with at most 175 lines of history a view shows the lines it stands for; past that, exactly up to the bound |
| Screen.Display.PutChar | src/kernel/arch/i686/vga_text.c:69-75 | a character goes to the same place on screen and in the ring |
| Screen.Display.Scroll | src/kernel/arch/i686/vga_text.c:120-154 | by any number of lines up to the screen's height, screen and ring go on to the next lines of the log; new lines are blank |
| Screen.Display.Putc | src/kernel/arch/i686/vga_text.c:156-189 | the log goes on by the character, the ring stays its last lines and the cursor on screen; the screen shows them if it did before or snapping back restores it |
| Screen.Display.PrintAll | src/kernel/arch/i686/vga_text.c:156-189 | the same for any text |
| Screen.HistoryKept | src/kernel/arch/i686/vga_text.c:120-189 | printing never rewrites lines that have left the screen |
| Screen.PlainText | src/kernel/arch/i686/vga_text.c:175-186 | plain text of any length fills cell after cell from the cursor on, over the right margin and past the last line; cursor, new lines and all other cells are told |
| Screen.LetterStands | src/kernel/arch/i686/vga_text.c:175-186 | letter k stands (x + k) / 80 lines on, in column (x + k) mod 80 |
| Screen.LineEnds | src/kernel/arch/i686/vga_text.c:164-174 | a line feed goes to the start of the next line, below the last of a new blank one; a carriage return to the start of the same line |
| Screen.TabSpaces | src/kernel/arch/i686/vga_text.c:168-171 | a tab prints one to three spaces and never ends at a multiple of four columns |
| Screen.Display.ScrollUp | src/kernel/arch/i686/vga_text.c:193-204 | the view moves by any number of lines, no further back than lines are kept |
| Screen.Display.ScrollDown | src/kernel/arch/i686/vga_text.c:206-227 | the view moves by any number of lines; at the live lines the screen is restored |
| Screen.Display.Browse | src/kernel/arch/i686/vga_text.c:193-227 | any scrolling that ends with a step down to the live lines restores the screen |
| KeyQueue.PutContents | src/kernel/arch/i686/keyboard.c:47-53 | putting appends; there is no room exactly when 255 are pending |
| KeyQueue.TakeContents | src/kernel/arch/i686/keyboard.c:56-62 | taking removes the first |
| KeyQueue.NothingDropped | src/kernel/arch/i686/keyboard.c:47-62 | while there is room, what has been read and what is pending are all the keys in order |
| KeyQueue.Queue.PutChar | src/kernel/arch/i686/keyboard.c:47-53 | a character is dropped exactly when 255 are pending |
| KeyQueue.Queue.Advance | src/kernel/arch/i686/keyboard.c:56-62 | each step of the reader keeps the order, interrupted or not; a finished call returns the first pending character, or 0 when nothing was pending |
| KeyQueue.PendingStays | src/kernel/arch/i686/keyboard.c:47-64 | what is pending stays so, in its place, until the reader takes it, whatever keys come in |
| KeyQueue.Queue.HasChar | src/kernel/arch/i686/keyboard.c:64 | true exactly when something is pending |
| KeyQueue.Queue.Interleave | src/kernel/arch/i686/keyboard.c:47-64 | for every interleaving of keys and reader steps, the ring does what a queue of 255 places does, and the characters read are the accepted ones in order, none lost and none twice |
| KeyQueue.Queue.GetChar | src/kernel/arch/i686/keyboard.c:56-62 | uninterrupted, it takes the first pending character |

## Left out

- Handles kept open while files are written or deleted; the second FAT copy, which is never updated;
  FSInfo; where the data area ends, which the boot sector does not say and the code does not compute.
- `FAT_ListDir` but for its name conversion; attribute bytes but for directory, archive and long name.
- Long functions of the source are split into several methods, and the handle number of a file is the
  object.
- The disk driver, boot code, interrupt controllers, timers and port I/O; the second-stage loader and
  the host tool, which read FAT only.
- FatDriver.Driver.Read: reading the root past the end of its chain is excluded, since the code goes on
  with the end mark as a cluster number.
- FatDriver.Driver.Open: paths with dot components, and paths that go on below a file, are excluded;
  the code would search the file's bytes for slots.
- Scheduling.Scheduler.KillTask: a task killing itself is excluded here; TaskTable.KilledSelf says what
  the next yield makes of it.
- Scheduling.Scheduler.Yield: flags, segment and floating-point registers, which the switch does not save.
- Screen.Display.Putc: colours and the hardware cursor.
- KeyQueue.Queue.PutChar: which scan codes give which characters; the echo to the screen.
- Task names, `Thread_Sleep`, log output, the shell, and the 32-bit wrap of the scrollback counter.
