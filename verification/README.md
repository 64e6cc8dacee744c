# ZAMAK in Dafny

A Dafny model of the algorithmic core of the ZAMAK boot loader, with machine-checked proofs of what that core
promises. `dafny verify dfyconfig.toml` checks everything. Each module follows one part of the program.

**Page tables.** `RadixTable` defines the hardware's four-level walk over raw table memory and an abstract entry
format; `EntryFormats` holds the AArch64, RISC-V Sv48 and LoongArch entry codecs with each architecture's own reading
of an entry and shows all three lawful; `PageTables` is the builder itself, a class that zeroes frames, links tables
and writes leaves, proved to refine "the last page installed for bits 47..12 of the address wins"; `Vmm` builds the
plan, `AddressSpace` follows it through to what the kernel sees in the higher-half direct map (HHDM), and `KernelImage`
says where the kernel's own segments end up. `BiosPaging` is the separate x86-64 table of 2 MiB pages.

**Physical memory.** `MemoryMap` and `Normalize` model sorting, page alignment, the in-place overlap resolution and
merging; `MapKinds` says which type an address comes out with; `Pmm` is the manager class with its runs of allocations
and marks.

**BLAKE2b and enrolment.** `Blake2Spec` states RFC 7693 over an arbitrary compression function, `Blake2Compress` both
`compress` implementations, `Blake2b` the streaming hasher with its lazily flushed buffer and two-word counter,
`Enrollment` the command-line tool's one-shot hash, the slot in the binary and the boot-time check. `Blake2Trace` and
`Blake2Vectors` follow one block through all rounds and reach the published digests of "abc" and of the bytes 0 to 127.

**FAT32.** `Fat32`, `ShortNames` and `FatDirectory`: cluster chains, file copies, the 8.3 form of a name and the name it
displays, long names reassembled across entries and clusters. `FatLayout` and `FatVolume` go from the bytes written on a
volume to the bytes a lookup and a read give back.

**Bump allocators.** `Bump` is a state machine over load, compute and compare-exchange steps of any number of threads.

**Calendar, JSON, menu.** `Calendar` is the day-number formula against a calendar counted day by day; `Json`,
`JsonWriter`, `JsonLayout`, `JsonReader` and `JsonPretty` are the printer, its two layouts and a reader for both;
`Macros`, `ConfigTree`, `EntryBody`, `GlobalOptions` and `Menu` take configuration lines to the entry tree, its settings,
the global options and the list on the screen.

`Bits`, `Words`, `Decimals`, `Machine` and `Options` are shared.

## Where the code falls short of its description

- Overlap resolution returns as soon as one existing region wins, so the piece behind that region is inserted
  unresolved. `Normalize.NvsBehindHoleOverlaps` is a concrete map whose normalized form overlaps and
  `Normalize.NestedTripleOverlaps` the whole family it belongs to. `Normalize.CleanIffNeverBlocked` is the exact
  condition for a whole map, `MemoryMap.ResolveDisjointIff` for one insertion and `Normalize.LastEntryDecides` for the
  last entry; "at most two holders per page" is one instance. A later entry can cut an overlap away again
  (`Normalize.OverlapHiddenLater`); `Normalize.NormalizedApartIff` is the exact condition for the final map.
- `total_usable` adds up in 64 bits: on an overlapping map usable bytes count twice and the sum can pass 2^64
  (`Pmm.UsableTotalWraps`), where a release build wraps. On disjoint maps it cannot (`Pmm.TotalBelow`).
- `STANDARD_MAIR` is not the layout its comment and `mair_index` name: on AArch64 write-combining mappings, framebuffers
  among them, are Device-nGnRE memory (`EntryFormats.ArmWriteCombiningIsDevice`) and write-through ones Normal
  Non-cacheable. RISC-V and LoongArch have no write-through type. `EntryFormats.DocumentedKindIff` says exactly when an
  entry has the kind of memory documented for its policy.
- `align_up` is unchecked: an entry whose base lies above 2^64 - 4096 comes to cover all of memory
  (`Normalize.WrappedEntry`, with an empty entry as an example in `Normalize.EmptyTopEntryCoversAll`), and alignment is
  exact if and only if no base does (`Normalize.AlignExactIff`, `Normalize.AlignAllExactIff`).
- A range is mapped with as many pages as its length needs, counted from the page of its base, so an unaligned range
  can lose its last bytes: `AddressSpace.AllBytesHeldIff` is the exact condition, `AddressSpace.StraddlingRangeLost` an
  example.
- `HHDM_VIRT_BASE + phys_base` is unchecked and, in release builds, wraps for bases of 2^47 and more; the model wraps
  too.
- `VmmPlan::build` says it places kernel segments at an offset from `KERNEL_VIRT_BASE`; it maps them at `virt_addr` itself
  (`KernelImage.PlanSeen`).
- `setup_paging` does not check where the kernel lies: `BiosPaging.SetupPaging` shows that the kernel window is right if
  and only if it is 2 MiB aligned and ends at or below 2^52.
- `find_in_dir` does not notice a cyclic chain: `FatDirectory.FindInDir` covers every search that ends,
  `FatDirectory.SearchNeverEnds` shows that any other goes on for ever.
- A short name is compared with the search converted to eleven bytes, and other names convert to the same bytes: a search
  for READMETXT hits READMETX.T, and what stands between two dots is lost (`ShortNames.LongBaseCollides`,
  `ShortNames.SecondDotCollides`). `ShortNames.ShortHitsExactIff` gives the exact condition. `find_in_dir` also takes
  volume labels (attribute 0x08) for files: apart from long-name parts, `FatDirectory.Hit` looks at no attribute.
- The RISC-V builder writes permissions the architecture reserves (write without read, or neither read nor execute)
  as they come; `EntryFormats.RvDecodesLeaf` shows that the entry is a page exactly for the others.
- The AArch64 builder ignores the user permission: `EntryFormats.ArmDecodesLeaf` gives no user access for any input.
- An enrolled hash of all zeros reads as "nothing enrolled": `Enrollment.PatchReadsBack` states both cases.
- `find_slot` says it scans in steps of four bytes; the code looks at every byte, and so does `Enrollment.IsSlot`.
- The decompressor's heap is only 16-byte aligned: `Bump.StaticPointerAligned` gives the exact condition for larger
  alignments.

## Model

| member | source | states |
|---|---|---|
| RadixTable.LinkKeepsTree | zamak-core/src/arch.rs:508-516 | linking a fresh zeroed table at a missing entry keeps the tables a tree with no frame shared and changes no translation at all |
| RadixTable.LeafKeepsTree | zamak-core/src/arch.rs:522-524 | writing a level-3 entry keeps the tree and changes the hardware walk of exactly one path |
| RadixTable.EmptyRoot | zamak-core/src/arch.rs:479-490 | a cleared root alone is a well-formed tree in which every walk faults |
| EntryFormats.CodecLawful | zamak-core/src/arch.rs:1104-1111 | for all three formats: zero is invalid to hardware and software, and every table entry the builder writes reads back as the same frame for both, for every frame the address field can hold (below 2^56 on RISC-V, 2^48 elsewhere) |
| EntryFormats.ArmDecodesLeaf | zamak-core/src/arch.rs:409-444 | the hardware reads every AArch64 leaf back as its page, memory-type index, write and execute rights |
| EntryFormats.RvDecodesLeaf | zamak-core/src/arch.rs:1070-1100 | an Sv48 leaf is a page to the hardware exactly when its permissions are expressible, and then page, PBMT and all four rights read back |
| EntryFormats.RvPageNumberRoundTrip | zamak-core/src/arch.rs:1104-1111 | converting an address to the PPN field and back keeps exactly bits 55..12 |
| EntryFormats.LoongDecodesLeaf | zamak-core/src/arch.rs:1539-1567 | the hardware reads every LoongArch leaf back as its page, memory access type and rights |
| EntryFormats.LeafDecodes | zamak-core/src/arch.rs:436-444 | on every architecture and for all permissions, a leaf decodes to its page, memory-type field and read, write, execute and user rights, or to nothing exactly where RISC-V reserves the rights; AArch64 always reads and never grants user access |
| EntryFormats.PageFieldValue | zamak-core/src/arch.rs:524 | an entry for an address names its page, for every address the address field reaches (below 2^56 on RISC-V, 2^48 elsewhere) |
| EntryFormats.ArmLeafShareable | zamak-core/src/arch.rs:436-444 | every AArch64 leaf is inner shareable |
| EntryFormats.RvLeafGlobal | zamak-core/src/arch.rs:1098-1100 | every RISC-V leaf is global |
| EntryFormats.LoongLeafGlobal | zamak-core/src/arch.rs:1565-1567 | every LoongArch leaf is global |
| EntryFormats.KindGiven | zamak-core/src/arch.rs:364-370 | what the memory-type field of every policy means on each architecture: on AArch64 the MAIR byte it selects, so write-combining is Device-nGnRE and write-through Normal Non-cacheable |
| EntryFormats.DocumentedKindIff | zamak-core/src/arch.rs:407-416 | the kind of memory is the one documented for the policy if and only if the policy is Uncacheable or WriteBack, or WriteCombining off AArch64 |
| EntryFormats.ArmWriteCombiningIsDevice | zamak-core/src/arch.rs:364-370 | on AArch64 write-combining memory is Device-nGnRE |
| EntryFormats.LeafIgnoresOffset | zamak-core/src/arch.rs:524 | on every architecture the entry depends on the page of the address only |
| EntryFormats.WriteCombiningDistinct | zamak-core/src/arch.rs:409-416 | no architecture encodes write-combining and write-back alike |
| PageTables.IndexAtIsShiftMask | zamak-core/src/arch.rs:402-405 | the index used by the model is the shift and mask of the source, at every level |
| PageTables.PathIsKey | zamak-core/src/arch.rs:402-405 | two addresses have the same four indices if and only if bits 47..12 agree |
| PageTables.PageTableBuilder.New | zamak-core/src/arch.rs:479-490 | no builder exactly when the root allocation fails, otherwise valid tables that map nothing, whatever memory held before, with one frame used |
| PageTables.PageTableBuilder.MapPage | zamak-core/src/arch.rs:502-526 | success changes the translation of va's page only, to what the leaf decodes to; failure means that an allocation made by this call failed and changes no translation although tables may have been linked; at most three frames are asked for and the tables stay a tree |
| PageTables.PageTableBuilder.ApplyOne | zamak-core/src/arch.rs:537-547 | exactly the first `done` pages are installed, all of them on success, with at most three frames a page; failure means that an allocation of this call failed or the address of page `done` overflows |
| PageTables.PageTableBuilder.Apply | zamak-core/src/arch.rs:530-535 | after success or failure the translation is that of exactly the pages installed so far, in plan order; the same causes of failure, and at most three frames a page over the whole plan |
| PageTables.PageForIsLast | zamak-core/src/vmm.rs:104-106 | the page of a mapping that decides an address is its last page with the same bits 47..12, and there is none if no page has them |
| PageTables.PlanOverlay | zamak-core/src/arch.rs:530-547 | installing a plan page by page equals "the last mapping that covers the page wins, everything else is unmapped" |
| Vmm.Build | zamak-core/src/vmm.rs:158-200 | the plan is the kernel segments, then the direct map, then the framebuffers, with the wrapping sum for direct-map addresses |
| AddressSpace.HhdmPageFor | zamak-core/src/vmm.rs:178-186 | for every range whose pages end at or below 2^48, aligned or not, the direct-map mapping covers HHDM + p exactly when p is one of the pages counted from the page of its base, and by p itself |
| AddressSpace.AllBytesHeldIff | zamak-core/src/vmm.rs:104-106 | every byte of a range lies in a mapped page if and only if the offset of its base does not push its end past the last counted page |
| AddressSpace.AlignedRangeHeld | zamak-core/src/vmm.rs:104-106 | a page-aligned range is mapped whole, whatever its length |
| AddressSpace.StraddlingRangeLost | zamak-core/src/vmm.rs:104-106 | a range of one page size that straddles two pages is mapped with one page and loses its second half |
| AddressSpace.HhdmTranslation | zamak-core/src/vmm.rs:158-200 | framebuffer pages translate with the framebuffer policy even where the direct map also covers them; all other direct-map pages with write-back; for all ranges ending at or below 2^48 |
| AddressSpace.HhdmSeen | zamak-core/src/vmm.rs:178-197 | decoded on each architecture: the physical page is p itself, readable and writable, not executable, not for user mode; memory is write-back, framebuffers are non-cacheable on RISC-V and LoongArch and Device-nGnRE on AArch64 |
| AddressSpace.SuccessFits | zamak-core/src/arch.rs:540-543 | if no address computation of the plan failed, every range that starts below 2^47 ends at or below 2^48 |
| AddressSpace.BuildTables | zamak-core/src/arch.rs:530-547 | for every lawful codec and plan, from an empty root: on success each address translates as the last mapping that covers it says and nothing else is mapped; it fails only if one of the first allocations, three for each page of the plan and one for the root, fails or an address overflows |
| KernelImage.AllLeavesSeen | zamak-core/src/arch.rs:436-444 | on each architecture a write-back leaf for an address is seen as its page, as write-back memory, with exactly the given rights as far as the architecture can express them |
| KernelImage.SegmentDecides | zamak-core/src/vmm.rs:166-174 | a page of a segment that no later page of any segment, direct-map range or framebuffer shares its bits 47..12 with translates as the leaf for `phys_addr` + i * 4096 with the header's rights |
| KernelImage.PlanSeen | zamak-core/src/vmm.rs:158-200 | in terms of the headers and ranges alone: every such page is seen at its physical address with its header's rights, and an address no page shares its bits 47..12 with is not mapped |
| AddressSpace.MapAddressSpace | zamak-core/src/vmm.rs:158-200 | plan and build together, for all inputs: with enough frames and no overflowing address tables are built; every address then translates as the last covering mapping says, every kernel page nothing covers later is seen where its header says with its rights, nothing else is mapped, and with bases below 2^47 or ends at or below 2^48, aligned or not, every direct-map page is seen as stated above |
| Words.WordValue | zamak-core/src/arch.rs:541-545 | the machine word of an address below 2^64 has that address as its value |
| Words.NarrowPageWord | zamak-core/src/arch.rs:524 | a page-aligned address below 2^48 passes through the 48-bit address field unchanged |
| Words.WidePageWord | zamak-core/src/arch.rs:1104-1111 | a page-aligned address below 2^56 passes through the 56-bit one |
| Words.PageOfWord | zamak-core/src/arch.rs:524 | the words of an address and of its page differ in the low twelve bits only |
| BiosPaging.HugeReadsBackIff | zamak-bios/src/paging.rs:127-133 | a 2 MiB entry for p maps p if and only if p is 2 MiB aligned and below 2^52 |
| BiosPaging.MaxPhysicalAddress | zamak-bios/src/paging.rs:53-71 | the result is the largest (wrapping) end of a usable entry, 1 GiB when that is zero, clamped to 16 GiB |
| BiosPaging.FillHuge | zamak-bios/src/paging.rs:176-182 | a zeroed directory gets exactly n consecutive 2 MiB entries |
| BiosPaging.TableBuilder.AllocatePage | zamak-bios/src/paging.rs:192-210 | the next free page, zeroed, or none exactly when the heap is used up |
| BiosPaging.TableBuilder.MapGibs | zamak-bios/src/paging.rs:159-185 | the direct map's directories, GiB by GiB, the last one partial; tables built earlier are untouched; fails exactly when pages run out |
| BiosPaging.WalkIsWindows | zamak-bios/src/paging.rs:87-188 | through the finished tables the hardware walk of a write to every 48-bit address is exactly the three windows |
| BiosPaging.KernelMisplaced | zamak-bios/src/paging.rs:127-133 | with a misaligned kernel, or one whose window passes 2^52, some kernel-window address translates wrongly |
| BiosPaging.SetupPaging | zamak-bios/src/paging.rs:81-189 | fails exactly when pages run out; otherwise all three windows and nothing else if and only if the kernel window is 2 MiB aligned and below 2^52, the other two always, and every byte below 16 GiB of every plain usable entry is reachable at HHDM + p |
| MemoryMap.ResolveBest | zamak-core/src/pmm.rs:310-390 | one insertion, whatever overlaps: coverage and the best priority at every address are those of the old map plus the new region |
| MemoryMap.ResolveDisjointIff | zamak-core/src/pmm.rs:363-379 | inserting into a disjoint map keeps it disjoint if and only if no region outranking the new one precedes another region it meets |
| MemoryMap.BlockedDoubled | zamak-core/src/pmm.rs:363-379 | in the other case some address is covered twice |
| MemoryMap.ResolveCount | zamak-core/src/pmm.rs:310-390 | one insertion, whatever overlaps: how often it leaves each address covered, counted on the old map and the new region alone |
| MemoryMap.ApartIffCount | zamak-core/src/pmm.rs:310-390 | regions are pairwise apart if and only if no address is covered twice |
| Normalize.InsertWithOverlap | zamak-core/src/pmm.rs:310-390 | the in-place loop computes the resolution and terminates by a lexicographic measure |
| Normalize.SplitLoser | zamak-core/src/pmm.rs:327-353 | the overlapped region is replaced by its parts before and after the new one, and the index skips what is done |
| Normalize.TrimNew | zamak-core/src/pmm.rs:354-380 | only the parts of the new region around a winner are inserted |
| Normalize.MergeAdjacent | zamak-core/src/pmm.rs:402-418 | the in-place merge loop computes `MergeFrom` |
| Normalize.MergeFromBest | zamak-core/src/pmm.rs:402-418 | merging keeps the best priority at every address |
| Normalize.MergeFromShape | zamak-core/src/pmm.rs:402-418 | merging keeps alignment and disjointness and leaves no touching neighbours of one type |
| Normalize.AlignDownIsMask | zamak-core/src/pmm.rs:426-428 | rounding down is the 64-bit mask operation |
| Normalize.AlignUpSound | zamak-core/src/pmm.rs:421-423 | rounding up is sound exactly up to the last page and yields zero beyond |
| Normalize.WrappedEntry | zamak-core/src/pmm.rs:281-294 | an entry with its base in the last partial page, even an empty one, becomes all of memory below the last page |
| Normalize.AlignExactIff | zamak-core/src/pmm.rs:281-294 | alignment keeps exactly the whole pages of an entry if and only if its base is at most 2^64 - 4096 |
| Normalize.EmptyTopEntryCoversAll | zamak-core/src/pmm.rs:281-294 | a concrete empty entry that comes to cover all of memory |
| Normalize.AlignAllMeaning | zamak-core/src/pmm.rs:281-294 | for all 64-bit entries: priorities and numbers of holders of an address are those of the raw entries holding its whole page plus, below the last page, those of the entries that wrap |
| Normalize.AlignAllExactIff | zamak-core/src/pmm.rs:281-294 | every address is covered as often as its page has holders if and only if no entry wraps |
| Normalize.SortByBaseStable | zamak-core/src/pmm.rs:277-279 | the sort is sorted by base and, for every base, keeps the order of its entries |
| Normalize.NormalizeMap | zamak-core/src/pmm.rs:272-307 | the method computes `Normalized`, whose meaning the rows below and `MapKinds` state |
| Normalize.NormalizedBest | zamak-core/src/pmm.rs:272-418 | for every map of 64-bit entries, however it overlaps: the best priority at an address is that of the raw entries holding its page and of the entries that wrap; without wrapping, exactly the best raw priority, and covered exactly when some raw entry holds the page |
| MapKinds.NormalizedKind | zamak-core/src/pmm.rs:51-62 | for every map of 64-bit entries, whatever overlaps or wraps: of the types the output has for an address, the one that takes precedence is the last in the order Usable, BootloaderReclaimable, AcpiReclaimable, AcpiNvs, Reserved, Framebuffer, KernelAndModules, BadMemory among the entries reaching it |
| MapKinds.ApartKind | zamak-core/src/pmm.rs:272-418 | if the output's regions are apart, an address has one type, the last in that order among the entries reaching it, and none if there is none |
| MapKinds.UnblockedKind | zamak-core/src/pmm.rs:272-418 | so it is for every map in which no entry is blocked |
| MapKinds.UsableIff | zamak-core/src/pmm.rs:272-418 | an address comes out usable if and only if entries reach it and all of them are usable |
| Normalize.NormalizedShape | zamak-core/src/pmm.rs:272-418 | for every map of 64-bit entries the output is page-aligned, has no empty region and no touching neighbours of one type |
| Normalize.CleanIffNeverBlocked | zamak-core/src/pmm.rs:296-301 | for every list of entries the map is disjoint after each insertion if and only if no entry is blocked: none meets a region outranking it in front of another region it meets |
| Normalize.UnblockedNormalized | zamak-core/src/pmm.rs:272-418 | for every map in which no entry is blocked the output is sorted and disjoint, with the best raw types when none wraps |
| Normalize.TwoHoldersNeverBlocked | zamak-core/src/pmm.rs:296-301 | with at most two entries over any address, sorted by base, no entry is blocked |
| Normalize.NormalizedDisjoint | zamak-core/src/pmm.rs:272-418 | if no page has more than two holders (and no entry wraps), the output is sorted and disjoint and each region has the best raw type of its pages |
| Normalize.LastEntryDecides | zamak-core/src/pmm.rs:296-304 | when all but the last entry resolved cleanly, the output is disjoint if and only if the last entry is not blocked |
| Normalize.NestedTripleOverlaps | zamak-core/src/pmm.rs:363-379 | every entry that starts inside a higher-ranked one and ends beyond it over a lower-ranked one makes the output overlap |
| Normalize.NvsBehindHoleOverlaps | zamak-core/src/pmm.rs:363-379 | a concrete map with overlapping output |
| Normalize.NormalizedApartIff | zamak-core/src/pmm.rs:272-418 | for every map of 64-bit entries the regions of the output are pairwise apart if and only if the law of single insertions, iterated over the sorted entries, leaves no address more than one layer |
| Normalize.NestedResolved | zamak-core/src/pmm.rs:296-301 | what a nested triple resolves to: two pieces behind the winner, the second on top of the first |
| Normalize.OverlapHiddenLater | zamak-core/src/pmm.rs:272-418 | a concrete map whose last entry cuts an earlier overlap away: an entry is blocked, and still the output is disjoint |
| Pmm.Manager.constructor | zamak-core/src/pmm.rs:104-114 | the normalized map, with the allocation limit at the highest usable end |
| Pmm.Manager.TotalUsableBytes | zamak-core/src/pmm.rs:122-128 | the sum of the usable lengths modulo 2^64, which is the sum itself if and only if it fits, as on every disjoint map |
| Pmm.TotalBelow | zamak-core/src/pmm.rs:122-128 | the usable lengths of a disjoint map sum up to no more than any bound on its ends |
| Pmm.UsableTotalWraps | zamak-core/src/pmm.rs:122-128 | a concrete map of three entries whose usable lengths, once normalized, sum up to 2^64 or more |
| Pmm.Manager.AllocatePages | zamak-core/src/pmm.rs:134-215 | returns the highest page-aligned block that lies in one usable region below the previous allocation and splits that region; none exactly when the request is zero or overflows or no such block exists |
| Pmm.Manager.MarkRegion | zamak-core/src/pmm.rs:220-262 | every region is cut at the marked range and its inner part retyped |
| Pmm.HighestInRegion | zamak-core/src/pmm.rs:146-154 | the block computed for a region is the highest that fits in it |
| Pmm.SplitEffect | zamak-core/src/pmm.rs:167-209 | splitting changes no type outside the block and takes exactly its size from the usable total |
| Pmm.MarkKind | zamak-core/src/pmm.rs:220-262 | marking retypes exactly the covered addresses of the range and neither covers nor uncovers any |
| Pmm.MarkDisjoint | zamak-core/src/pmm.rs:220-262 | marking keeps a disjoint map sorted and disjoint |
| Pmm.StepKeeps | zamak-core/src/pmm.rs:134-262 | one operation keeps the map sorted and disjoint, never raises the limit, grants aligned blocks below it and changes no type outside what it touches |
| Pmm.GrantCosts | zamak-core/src/pmm.rs:134-215 | each allocation lowers the usable total by exactly count * 4096, also in an overlapping map |
| Pmm.GrantEffect | zamak-core/src/pmm.rs:134-215 | every byte of a granted block was usable, becomes BootloaderReclaimable, and the usable total drops by exactly the block |
| Pmm.RunInvariant | zamak-core/src/pmm.rs:134-262 | over every run the map stays sorted and disjoint |
| Pmm.BlocksDescend | zamak-core/src/pmm.rs:211-212 | over every run each later block ends at or below the start of each earlier one |
| Pmm.UntouchedKeepsKind | zamak-core/src/pmm.rs:134-262 | over every run an address no operation touches keeps its type |
| Pmm.UsableConserved | zamak-core/src/pmm.rs:122-215 | over every run of allocations, from any map, usable bytes left plus bytes granted are constant |
| Blake2Compress.TablesAgree | zamak-core/src/blake2b.rs:42-55 | the twelve-row table is the ten schedules of section 2.7 of RFC 7693, taken modulo 10 |
| Blake2Compress.Compress | zamak-core/src/blake2b.rs:183-238 | the in-place streaming `compress` with two counter words is F of section 3.2 at their combined value |
| Blake2Compress.CompressTool | zamak-cli/src/hash.rs:35-76 | the tool's `compress` with a 128-bit counter and a ten-row table is the same F |
| Blake2Trace.RoundMixed | zamak-core/src/blake2b.rs:183-193 | one round is G on the four columns, then on the four diagonals |
| Blake2Vectors.Abc64 | zamak-core/src/blake2b.rs:259-265 | the 64-byte digest of "abc" is the one printed in appendix A of RFC 7693, all 64 bytes, computed through the twelve rounds |
| Blake2Vectors.Abc32 | zamak-cli/src/hash.rs:10-104 | the 32-byte digest of "abc" is the published one |
| Blake2Vectors.Full64 | zamak-core/src/blake2b.rs:42-55 | so is that of the bytes 0 to 127, whose sixteen message words all differ, so that every place of every schedule counts |
| Blake2Compress.FPeriodic | zamak-core/src/blake2b.rs:173-178 | F depends on the byte count modulo 2^128 only |
| Blake2b.Blake2b.IncrementCounter | zamak-core/src/blake2b.rs:173-178 | the two counter words count modulo 2^128 |
| Blake2b.Blake2b.Update | zamak-core/src/blake2b.rs:96-134 | keeps "all but the last block is compressed, the last is held back, counter plus held bytes is the bytes absorbed" and appends the data to the message, so a full buffer is compressed only once more data arrives |
| Blake2b.Blake2b.Finalize | zamak-core/src/blake2b.rs:140-157 | the digest of section 3.3 of RFC 7693 of everything absorbed |
| Blake2b.FlushHeld | zamak-core/src/blake2b.rs:107-112 | compressing a full held block extends the chain by exactly that block |
| Blake2b.FinishHeld | zamak-core/src/blake2b.rs:140-149 | compressing the padded held block with the final flag gives the hash state of the message |
| Blake2b.Hash | zamak-core/src/blake2b.rs:161-165 | one-shot hashing is the RFC digest, with F of section 3.2; its value at "abc" is stated by `Blake2Vectors.Abc64` |
| Blake2b.HashChunks | zamak-core/src/blake2b.rs:96-157 | however a message is cut into updates, the digest is that of the whole |
| Enrollment.OneShot | zamak-cli/src/hash.rs:78-97 | the tool's block loop reaches the RFC hash state for every input |
| Enrollment.ToolHash | zamak-cli/src/hash.rs:10-104 | `blake2b_256` is the first 32 bytes of the streaming hash with length 32 |
| Enrollment.FindSlot | zamak-core/src/enrolled_hash.rs:67-74 | the first signature of a long enough binary, or none if there is none |
| Enrollment.PatchHash | zamak-core/src/enrolled_hash.rs:105-114 | overwrites the 32 hash bytes of the slot in place and nothing else; each error exactly when its condition holds, with the binary unchanged |
| Enrollment.PatchReadsBack | zamak-core/src/enrolled_hash.rs:80-114 | after patching the slot is still the first one, the hash reads back unless it is all zero, and no other byte differs |
| Enrollment.SameBytes | zamak-core/src/config.rs:367-372 | or-ing all byte differences decides equality of the 32 bytes |
| Enrollment.VerifyConfigHash | zamak-core/src/config.rs:362-373 | accepted if and only if nothing is enrolled or the enrolled hash is the content's digest |
| Enrollment.EnrollThenBoot | zamak-core/src/config.rs:352-373 | patching with the tool's hash, then booting: the patch succeeds exactly when the first signature has its 40 bytes and reports a missing signature exactly when there is none; after a nonzero hash a configuration is accepted if and only if its digest equals the enrolled one, after a zero hash always |
| Fat32.Parse | zamak-core/src/ram_fat32.rs:63-103 | a mounted image has a nonzero cluster size and a data root cluster |
| Fat32.ParseReadsBack | zamak-core/src/ram_fat32.rs:63-103 | an image with a boot sector written into it mounts exactly when its geometry is usable, and then with that geometry |
| Fat32.ChainsAgree | zamak-core/src/ram_fat32.rs:172-181 | of two chains from one cluster, one is a prefix of the other |
| Fat32.FinishedChainLongest | zamak-core/src/ram_fat32.rs:121-143 | a chain that cannot be extended contains every other chain from its start |
| Fat32.ReadFile | zamak-core/src/ram_fat32.rs:121-143 | writes exactly the first min(length, buffer, chain bytes) bytes of the chain's concatenated clusters, leaves the rest of the buffer alone and terminates for every FAT, cyclic ones included |
| FatLayout.StoredHolds | zamak-core/src/ram_fat32.rs:154-181 | what is written cluster by cluster and FAT entry by FAT entry at its byte positions is there after formatting |
| FatLayout.CellBytes | zamak-core/src/ram_fat32.rs:154-170 | the bytes of cluster c are those from sector reserved + fats * sectors per FAT + (c - 2) * sectors per cluster on |
| FatLayout.CellNext | zamak-core/src/ram_fat32.rs:172-181 | the next cluster is the low 28 bits of the little-endian word at byte 512 * reserved + 4 * c |
| FatLayout.MountAndRead | zamak-core/src/ram_fat32.rs:63-143 | mounting a formatted image and reading a file stored on it copies the first min(length, buffer, stored) bytes of its clusters and nothing else |
| FatDirectory.EncodedNameMatches | zamak-core/src/ram_fat32.rs:249-311 | for every ASCII name of 1 to 255 characters in descending segments, the accumulator matches a search string if and only if they are equal ignoring case |
| FatDirectory.LongNameInDirectory | zamak-core/src/ram_fat32.rs:183-228 | the same in the middle of any directory, whatever precedes it |
| FatDirectory.ForeignNeverMatches | zamak-core/src/ram_fat32.rs:20-24 | a long name with a character beyond ASCII in any segment never matches, so only the short name can |
| ShortNames.ToShortName | zamak-core/src/ram_fat32.rs:345-368 | the conversion loop computes `Name83` |
| ShortNames.Name83IgnoresCase | zamak-core/src/ram_fat32.rs:345-368 | names equal ignoring case have the same 8.3 form |
| ShortNames.PlainForm | zamak-core/src/ram_fat32.rs:345-368 | up to eleven bytes without a dot are upper-cased and padded with blanks |
| ShortNames.DottedForm | zamak-core/src/ram_fat32.rs:345-368 | a base of up to eight and an extension of up to three bytes are upper-cased and padded separately |
| ShortNames.DisplayedReadsBack | zamak-core/src/ram_fat32.rs:345-368 | the name a well-formed field displays has 8.3 shape and is converted back to the field |
| ShortNames.ShortHit | zamak-core/src/ram_fat32.rs:208-210 | for every field and every search: the field is well formed and displays the name searched for, ignoring case, if and only if it equals the converted search and the search has 8.3 shape |
| ShortNames.ShortHitsExactIff | zamak-core/src/ram_fat32.rs:208-210 | comparing with the converted search finds exactly the fields that display the search if and only if the search has 8.3 shape |
| ShortNames.LongBaseCollides | zamak-core/src/ram_fat32.rs:345-368 | nine to eleven bytes without a dot convert like the different name with a dot after the eighth |
| ShortNames.SecondDotCollides | zamak-core/src/ram_fat32.rs:357-360 | a second dot starts the extension again, so the bytes between the dots are lost when the new extension is as long |
| FatDirectory.HitDisplayed | zamak-core/src/ram_fat32.rs:208-210 | for a search of 8.3 shape a hit is exactly a short entry whose long name or displayed short name equals it ignoring case |
| FatDirectory.HitOtherName | zamak-core/src/ram_fat32.rs:208-210 | for any other search a hit that is not by the long name is an entry that displays a different name |
| FatDirectory.LfnAccum.AbsorbEntry | zamak-core/src/ram_fat32.rs:255-301 | one long-name entry, stored in place |
| FatDirectory.LfnAccum.MatchesName | zamak-core/src/ram_fat32.rs:303-311 | the comparison of the accumulated name |
| FatDirectory.FactsReadBack | zamak-core/src/ram_fat32.rs:211-219 | first cluster, length and attribute byte written into an entry, little-endian at 0x14, 0x1A, 0x1C and 0x0B, are what the lookup reports |
| FatDirectory.FoundReadsBack | zamak-core/src/ram_fat32.rs:183-228 | a lookup that first hits such an entry answers with exactly these facts |
| FatDirectory.Visit | zamak-core/src/ram_fat32.rs:190-222 | one directory entry: either the search goes on with nothing found so far, or the answer for the whole directory is known |
| FatDirectory.FindInDir | zamak-core/src/ram_fat32.rs:183-228 | whenever the search ends at all, on cyclic chains too: the first entry of the flattened chain, before any end mark, whose reassembled long name matches or whose 8.3 field is the converted search (what that means is said by the rows above); none if there is no such entry |
| FatDirectory.SearchNeverEnds | zamak-core/src/ram_fat32.rs:188-227 | if no stretch of the chain ends the search, it goes on for ever: after every number of clusters there is a next one and nothing is found |
| FatVolume.StoredEntries | zamak-core/src/ram_fat32.rs:188-191 | the entries along a stored directory's chain are its bytes, 32 at a time |
| FatVolume.MountFindRead | zamak-core/src/ram_fat32.rs:63-228 | on a formatted volume holding a root directory and a file that it names first under the name searched for: mounting, finding and reading gives the file's bytes |
| Bump.BiosPlanGood | zamak-bios/src/allocator.rs:29-37 | in wrapping arithmetic every computed block starts at or after the loaded offset, is aligned and fits; null only if no aligned block fits |
| Bump.StaticPlanGood | zamak-decompressor/src/bump.rs:51-66 | the same for the static heap, with the raised alignment and the checked sum |
| Bump.NextKeepsInv | zamak-bios/src/allocator.rs:25-51 | every step of every thread keeps the invariant, never lowers the offset and never takes a block back |
| Bump.RunSafe | zamak-bios/src/allocator.rs:25-51 | for every interleaving all granted blocks lie in the heap, are aligned and pairwise disjoint |
| Bump.RunMonotone | zamak-decompressor/src/bump.rs:50-74 | over every run the shared offset never decreases |
| Bump.RefusalJustified | zamak-bios/src/allocator.rs:34-36 | once a request was refused, no aligned block of its size fits then or ever after |
| Bump.RetryMeansProgress | zamak-bios/src/allocator.rs:38-49 | a failed strong compare-exchange means another thread advanced the offset |
| Bump.BootHeapSound | zamak-bios/src/allocator.rs:58-59 | the boot loader's heap meets the conditions |
| Bump.DecompressorHeapSound | zamak-decompressor/src/bump.rs:22-37 | so does the decompressor's |
| Bump.StaticPointerAligned | zamak-decompressor/src/bump.rs:25-72 | a pointer into the static heap has the requested alignment if and only if the heap itself has it; always up to 16 |
| Calendar.YearFound | zamak-cli/src/time.rs:28-34 | the year formula finds the year of the era that contains the day |
| Calendar.CivilNext | zamak-cli/src/time.rs:28-38 | consecutive day numbers are consecutive Gregorian dates |
| Calendar.CivilValid | zamak-cli/src/time.rs:28-38 | every day number gives a valid date |
| Calendar.CivilIsCalendar | zamak-cli/src/time.rs:28-38 | it is the date reached by counting day by day from 1970-01-01 |
| Calendar.DayNumberRoundTrip | zamak-cli/src/time.rs:28-38 | counting the days of the years and months before the date gives the day number back |
| Calendar.TimestampRoundTrip | zamak-cli/src/time.rs:21-38 | every timestamp gives a valid date and time that convert back to it |
| JsonWriter.WriteString | zamak-cli/src/json.rs:167-185 | the loop appends the quoted, escaped string |
| JsonWriter.WriteCompact | zamak-cli/src/json.rs:80-121 | the recursive writer appends the compact layout |
| JsonWriter.WritePretty | zamak-cli/src/json.rs:123-159 | the recursive writer appends the pretty layout |
| JsonWriter.WriteIndent | zamak-cli/src/json.rs:161-165 | two blanks per level |
| JsonLayout.IndentIs | zamak-cli/src/json.rs:161-165 | the indentation is two blanks per level |
| JsonLayout.PrettyYields | zamak-cli/src/json.rs:123-159 | deleting whitespace outside string literals from the pretty layout gives the compact one, at every depth |
| JsonReader.ReadEscaped | zamak-cli/src/json.rs:167-185 | every string reads back from its literal |
| JsonReader.ReadCompact | zamak-cli/src/json.rs:80-121 | reading the compact text of a value, followed by anything that can follow a value, gives the value and the rest |
| JsonReader.CompactRoundTrip | zamak-cli/src/json.rs:48-52 | a compact document reads back as its value, with member order and strings intact and integers equal by value |
| JsonPretty.ReadPretty | zamak-cli/src/json.rs:123-159 | reading the pretty text of a value at any depth, followed by anything that can follow a value, gives the value and the rest |
| JsonPretty.PrettyRoundTrip | zamak-cli/src/json.rs:54-59 | a pretty document reads back as its value, like the compact one |
| Macros.ExpandMacros | zamak-core/src/config.rs:319-345 | the scanning loop computes the one-pass expansion |
| Macros.TemplateExpands | zamak-core/src/config.rs:319-345 | text (dollar signs included, as long as they open no reference) and references in any order expand to the text and the values, values not expanded again, unknown names as written |
| Macros.DefinitionReadsBack | zamak-core/src/config.rs:295-313 | a definition line gives its name and trimmed value |
| Macros.TrimMeaning | zamak-core/src/config.rs:129 | trimming cuts blanks from both ends, and all of them |
| ConfigTree.HeaderReadsBack | zamak-core/src/config.rs:141-161 | a header written with n slashes and an optional plus reads back with that depth, mark and title |
| ConfigTree.ColonHeaderReadsBack | zamak-core/src/config.rs:141-161 | a header written with a colon and an optional plus reads back at depth 1 with that mark and title |
| ConfigTree.SettingReadsBack | zamak-core/src/config.rs:177-189 | a line key=value gives the upper-cased key and the trimmed value |
| ConfigTree.ColonSettingReadsBack | zamak-core/src/config.rs:182-187 | without an equals sign anywhere, a line key: value does the same |
| ConfigTree.HeaderLine | zamak-core/src/config.rs:163-175 | a header line opens an entry whose title is expanded with the macros defined so far, and changes nothing else |
| ConfigTree.DefinitionLine | zamak-core/src/config.rs:134-139 | a definition line defines its name as its trimmed value, expanded with the macros defined so far, and changes nothing else |
| ConfigTree.SectionBody | zamak-core/src/config.rs:176-211 | lines between two headers change the entry opened last only, which gets exactly their settings, in order; the global options stay |
| ConfigTree.LeadLines | zamak-core/src/config.rs:212-254 | the lines in front of the first header open no entry, and their settings, in order, make the global options |
| ConfigTree.GlobalsFixed | zamak-core/src/config.rs:128-262 | from the first header on no line changes a global option |
| GlobalOptions.GlobalsAreLast | zamak-core/src/config.rs:253 | the global options are exactly the names set, each with its last value |
| GlobalOptions.SwitchesAreLast | zamak-core/src/config.rs:213-251 | theme, variant and the five switches are decided by the last value of their name, or else by the default |
| GlobalOptions.NumbersAreLast | zamak-core/src/config.rs:213-251 | timeout, default entry and baud rate hold the last value that reads as a number of their width, or else the default |
| GlobalOptions.NumberReadsBack | zamak-core/src/config.rs:214-218 | a printed number, with or without a plus sign, reads back exactly when it fits |
| EntryBody.FieldsAreLast | zamak-core/src/config.rs:192-196 | protocol, kernel path, command line and comment hold the last value meant for them |
| EntryBody.OptionsAreLast | zamak-core/src/config.rs:208-210 | the options are exactly the keys without a field of their own, each with its last value |
| EntryBody.ModulesInOrder | zamak-core/src/config.rs:197-207 | the modules are the module paths in file order; module strings never add, drop or move one |
| EntryBody.ModuleTexts | zamak-core/src/config.rs:203-207 | each module ends up with the last module string between its path and the next module path, or with none |
| EntryBody.UpperLetters | zamak-core/src/config.rs:179 | upper-casing maps the 26 lower-case ASCII letters to their capitals and leaves every other character alone |
| ConfigTree.PushPreorder | zamak-core/src/config.rs:267-290 | pushing appends the entry to the preorder walk, at its depth but at most one level below the last entry, and moves nothing else |
| ConfigTree.BuildPreorder | zamak-core/src/config.rs:267-290 | the preorder walk of the tree is the headers in file order, each at its level |
| ConfigTree.PreorderInjective | zamak-core/src/config.rs:53-68 | headers and levels in preorder determine the tree |
| ConfigTree.ParseEntries | zamak-core/src/config.rs:103-262 | the line loop, which flushes each entry at the next header, yields that tree and these global options, names and settings expanded with the macros defined above them |
| Menu.FlattenRecursive | zamak-core/src/tui.rs:176-201 | the list and the shared line counter grow together |
| Menu.ForestIsShown | zamak-core/src/tui.rs:176-201 | flattening any forest of the tree adds exactly its visible rows |
| Menu.FlattenEntries | zamak-core/src/tui.rs:170-174 | the list is exactly the entries all of whose ancestors are expanded, in preorder, indented by level less one, a directory being expanded by its mark or by the choice for its own line |

## Left out

- AddressSpace.MapAddressSpace: what a direct-map page looks like is not stated when some range starts at or above 2^47
  and ends above 2^48, where two of its pages share a virtual page; the general statement on the last covering mapping
  holds there too.
- BiosPaging.SetupPaging: heap pages are assumed page-aligned and distinct, as `allocate_page` asks of the allocator.
- PageTables.PageTableBuilder.New: the allocator is the sequence of its answers, assumed page-aligned, inside the
  address field and not in use; clearing a frame is one step instead of a loop over 512 words.
- Blake2b.Blake2b.Update: the compression function is a parameter of the hasher; `Blake2Compress.Compress` shows that
  the in-place code computes the one that `Blake2b.Hash` passes in.
- FatDirectory.FindInDir: `find_path` (`FatVolume.MountFindRead` is its case of one path component) and the width of
  `usize` are not modelled.
- ShortNames.ShortHit: a field with a lower-case letter or a dot in it is not well formed; no search hits it by its short
  name (`ShortNames.FormWellFormed`).
- JsonReader.ReadCompact: the reader accepts integers only and no surrogate escapes; floats are outside the model, and
  decimal printing of integers is a specified function. `project` is not modelled.
- ConfigTree.ParseEntries: the input is the sequence of lines and ASCII text; the environment's built-in macros are a
  parameter. `default_entry` is a `usize`, taken as 64 bits wide; `config_hash` is the parameter of
  `Enrollment.VerifyConfigHash`.
- Bump.RunSafe: memory orderings are not modelled, every step reads and writes the shared offset atomically;
  deallocation does nothing and has no step.
- Calendar.TimestampRoundTrip: the printed string is not modelled, only its six numbers.
- The command-line tool's own signature search, its SHA-256, argument parsing and schemas.
- Machine code, firmware calls, SMP bring-up, graphics, fonts and themes; ELF and gzip, which live in other libraries.
- Multiboot and Linux boot protocol structures, which would only add easy members.
- Cryptographic strength: only equality of hash computations is stated.
