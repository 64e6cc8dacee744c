/**
 The three page-table entry formats of `arch.rs`, each with the architecture's own reading of an entry:
 AArch64 stage 1 with the 4 KiB granule (chapter D8 of the Arm ARM, DDI 0487), RISC-V Sv48 with Svpbmt
 (sections 4.3.2 and 4.5 of the RISC-V Privileged Architecture, version 1.12) and LoongArch64, whose entry layout
 (V, D, PLV, MAT, G, HUGE and NX bits) follows the bit table in the comments of `arch.rs`.
 */
module EntryFormats {
  import opened Options
  import opened RadixTable
  import opened Vmm
  import opened Words

  /** What a completed walk yields: the physical page, the memory-type field and the access rights. */
  datatype Target = Target(page: bv64, memType: bv64, read: bool, write: bool, exec: bool, user: bool)

  predicate Bit(e: bv64, k: nat)
    requires k < 64
  {
    (e >> k) & 1 == 1
  }

  /** A page-aligned frame address below 2^48, which the AArch64 and LoongArch address fields hold. */
  predicate IsFrame(f: bv64) {
    Masked(f, ADDR_MASK) == f
  }

  /** Every builder tests bit 0 to see whether an entry is in use. */
  predicate Valid(e: bv64) {
    e & 1 != 0
  }

  function AddressField(e: bv64): bv64 {
    e & ADDR_MASK
  }

  // ---- AArch64 ----

  function MairIndex(cache: CachePolicy): bv64 {
    match cache
    case Uncacheable => 0
    case WriteCombining => 1
    case WriteThrough => 2
    case WriteBack => 3
  }

  function ArmPermBits(p: Permissions): bv64 {
    (if p.writable then 0 else 2 << 6) | (if !p.executable then (1 << 53) | (1 << 54) else 0)
  }

  /** `leaf_attrs(perms, cache, is_l3 = true)`. */
  function ArmLeafAttrs(p: Permissions, cache: CachePolicy): bv64 {
    1 | (1 << 10) | (3 << 8) | (1 << 1) | ((MairIndex(cache) & 0x7) << 2) | ArmPermBits(p)
  }

  function ArmTableEntry(f: bv64): bv64 {
    f | 1 | (1 << 1)
  }

  function ArmLeafEntry(pa: bv64, attrs: bv64): bv64 {
    (pa & ADDR_MASK) | attrs
  }

  /** Levels 0 to 2: bits 1:0 = 0b11 is a table descriptor; 0b01 would be a block, never a table. */
  function ArmHwTable(e: bv64): Option<bv64> {
    if e & 3 == 3 then Some(e & ADDR_MASK) else None
  }

  /** Level 3: bits 1:0 = 0b11 is a page; a clear access flag faults. AP[2] denies writes, AP[1] admits EL0. */
  function ArmHwPage(e: bv64): Option<Target> {
    if e & 3 == 3 && Bit(e, 10)
    then Some(Target(e & ADDR_MASK, (e >> 2) & 0x7, true, !Bit(e, 7), !Bit(e, 53) && !Bit(e, 54), Bit(e, 6)))
    else None
  }

  const AARCH64: Format<bv64, Target> :=
    Format(0, IsFrame, Valid, ArmTableEntry, AddressField, ArmHwTable, ArmHwPage)

  lemma AArch64Lawful()
    ensures Lawful(AARCH64)
  {
    forall f: bv64 | AARCH64.isFrame(f)
      ensures AARCH64.present(AARCH64.tableEntry(f)) && AARCH64.nextTable(AARCH64.tableEntry(f)) == f
      ensures AARCH64.hwTable(AARCH64.tableEntry(f)) == Some(f)
    {
      ArmTableWord(f);
    }
  }

  lemma ArmTableWord(f: bv64)
    requires IsFrame(f)
    ensures var e := ArmTableEntry(f); Valid(e) && AddressField(e) == f && ArmHwTable(e) == Some(f)
  {
  }

  /** Decoding undoes encoding for every page, permission and cache policy. */
  lemma ArmDecodesLeaf(pa: bv64, p: Permissions, cache: CachePolicy)
    ensures ArmHwPage(ArmLeafEntry(pa, ArmLeafAttrs(p, cache)))
         == Some(Target(Masked(pa, ADDR_MASK), MairIndex(cache), true, p.writable, p.executable, false))
  {
    ArmAttrFields(p, cache);
    ArmLeafFields(pa, ArmLeafAttrs(p, cache));
  }

  /** The attribute word avoids the address field and carries each attribute in its own bits. */
  lemma ArmAttrFields(p: Permissions, cache: CachePolicy)
    ensures var a := ArmLeafAttrs(p, cache);
            && a & ADDR_MASK == 0 && a & 3 == 3 && Bit(a, 10) && (a >> 2) & 7 == MairIndex(cache)
            && !Bit(a, 6) && Bit(a, 7) == !p.writable && Bit(a, 53) == Bit(a, 54) == !p.executable
  {
    if p.writable {} else {}
    if p.executable {} else {}
  }

  lemma ArmLeafFields(pa: bv64, a: bv64)
    requires a & ADDR_MASK == 0
    ensures var e := ArmLeafEntry(pa, a);
            && e & ADDR_MASK == pa & ADDR_MASK && e & 3 == a & 3 && (e >> 2) & 7 == (a >> 2) & 7
            && Bit(e, 6) == Bit(a, 6) && Bit(e, 7) == Bit(a, 7) && Bit(e, 10) == Bit(a, 10)
            && Bit(e, 53) == Bit(a, 53) && Bit(e, 54) == Bit(a, 54)
  {
  }

  // ---- RISC-V Sv48 ----

  const PPN_MASK: bv64 := 0x0FFF_FFFF_FFFF

  /** A page-aligned frame address below 2^56, which the 44-bit page number holds. */
  predicate RvIsFrame(f: bv64) {
    Masked(f, WIDE_ADDR_MASK) == f
  }

  function Pbmt(cache: CachePolicy): bv64 {
    match cache
    case WriteBack => 0
    case WriteThrough => 0
    case WriteCombining => 1
    case Uncacheable => 2
  }

  function RvPermBits(p: Permissions): bv64 {
    (if p.readable then 1 << 1 else 0) | (if p.writable then 1 << 2 else 0)
    | (if p.executable then 1 << 3 else 0) | (if p.user then 1 << 4 else 0)
  }

  function RvLeafAttrs(p: Permissions, cache: CachePolicy): bv64 {
    1 | (1 << 5) | (1 << 6) | (1 << 7) | RvPermBits(p) | (Pbmt(cache) << 61)
  }

  function PaToPte(pa: bv64): bv64 {
    ((pa >> 12) & PPN_MASK) << 10
  }

  function PteToPa(pte: bv64): bv64 {
    ((pte >> 10) & PPN_MASK) << 12
  }

  function RvTableEntry(f: bv64): bv64 {
    1 | PaToPte(f)
  }

  function RvLeafEntry(pa: bv64, attrs: bv64): bv64 {
    PaToPte(pa) | attrs
  }

  /** Reserved bits 60:54 and 63 set, or memory type 3, is a page fault. */
  predicate RvReserved(e: bv64) {
    (e >> 54) & 0x7F != 0 || Bit(e, 63) || (e >> 61) & 3 == 3
  }

  /** A valid entry with R = W = X = 0 points to the next table; D, A, U and PBMT must then be zero. */
  function RvHwTable(e: bv64): Option<bv64> {
    if !Bit(e, 0) || RvReserved(e) || (e >> 1) & 7 != 0 || Bit(e, 4) || Bit(e, 6) || Bit(e, 7)
       || (e >> 61) & 3 != 0
    then None
    else Some(PteToPa(e))
  }

  /** A leaf needs R or X; W without R is reserved; with A or D clear the access faults. */
  function RvHwPage(e: bv64): Option<Target> {
    if !Bit(e, 0) || RvReserved(e) || (!Bit(e, 1) && Bit(e, 2)) || (!Bit(e, 1) && !Bit(e, 3))
       || !Bit(e, 6) || !Bit(e, 7)
    then None
    else Some(Target(PteToPa(e), (e >> 61) & 3, Bit(e, 1), Bit(e, 2), Bit(e, 3), Bit(e, 4)))
  }

  const RISCV: Format<bv64, Target> :=
    Format(0, RvIsFrame, Valid, RvTableEntry, PteToPa, RvHwTable, RvHwPage)

  lemma RiscvLawful()
    ensures Lawful(RISCV)
  {
    forall f: bv64 | RISCV.isFrame(f)
      ensures RISCV.present(RISCV.tableEntry(f)) && RISCV.nextTable(RISCV.tableEntry(f)) == f
      ensures RISCV.hwTable(RISCV.tableEntry(f)) == Some(f)
    {
      RvTableWord(f);
    }
  }

  lemma RvTableWord(f: bv64)
    requires RvIsFrame(f)
    ensures var e := RvTableEntry(f); Valid(e) && PteToPa(e) == f && RvHwTable(e) == Some(f)
  {
  }

  /** Permissions the architecture can express: readable, or executable without write. */
  predicate RvExpressible(p: Permissions) {
    p.readable || (p.executable && !p.writable)
  }

  /** The leaf is a page to the hardware exactly when its permissions are expressible; then it reads back intact. */
  lemma RvDecodesLeaf(pa: bv64, p: Permissions, cache: CachePolicy)
    ensures RvHwPage(RvLeafEntry(pa, RvLeafAttrs(p, cache)))
         == if RvExpressible(p)
            then Some(Target(PteToPa(PaToPte(pa)), Pbmt(cache), p.readable, p.writable, p.executable, p.user))
            else None
  {
    RvAttrFields(p, cache);
    RvLeafFields(pa, RvLeafAttrs(p, cache));
  }

  lemma RvAttrFields(p: Permissions, cache: CachePolicy)
    ensures var a := RvLeafAttrs(p, cache);
            && a & (PPN_MASK << 10) == 0 && !RvReserved(a) && Bit(a, 0) && Bit(a, 6) && Bit(a, 7)
            && Bit(a, 1) == p.readable && Bit(a, 2) == p.writable && Bit(a, 3) == p.executable && Bit(a, 4) == p.user
            && (a >> 61) & 3 == Pbmt(cache)
  {
    if p.readable {} else {}
    if p.writable {} else {}
    if p.executable {} else {}
    if p.user {} else {}
  }

  lemma RvLeafFields(pa: bv64, a: bv64)
    requires a & (PPN_MASK << 10) == 0
    ensures var e := RvLeafEntry(pa, a);
            && PteToPa(e) == PteToPa(PaToPte(pa)) && RvReserved(e) == RvReserved(a) && Bit(e, 0) == Bit(a, 0)
            && Bit(e, 1) == Bit(a, 1) && Bit(e, 2) == Bit(a, 2) && Bit(e, 3) == Bit(a, 3) && Bit(e, 4) == Bit(a, 4)
            && Bit(e, 6) == Bit(a, 6) && Bit(e, 7) == Bit(a, 7) && (e >> 61) & 3 == (a >> 61) & 3
  {
  }

  /** The 44-bit page number keeps every page-aligned address below 2^56. */
  lemma RvPageNumberRoundTrip(pa: bv64)
    ensures PteToPa(PaToPte(pa)) == Masked(pa, WIDE_ADDR_MASK)
  {
  }

  // ---- LoongArch64 ----

  function Mat(cache: CachePolicy): bv64 {
    match cache
    case Uncacheable => 0
    case WriteCombining => 2
    case WriteThrough => 1
    case WriteBack => 1
  }

  function LoongPermBits(p: Permissions): bv64 {
    (if p.user then 3 << 2 else 0) | (if !p.executable then 1 << 62 else 0) | (if p.writable then 1 << 1 else 0)
  }

  function LoongLeafAttrs(p: Permissions, cache: CachePolicy): bv64 {
    1 | (1 << 6) | LoongPermBits(p) | (Mat(cache) << 4)
  }

  function LoongTableEntry(f: bv64): bv64 {
    (f & ADDR_MASK) | 1
  }

  function LoongLeafEntry(pa: bv64, attrs: bv64): bv64 {
    (pa & ADDR_MASK) | attrs
  }

  /** A valid entry without the HUGE bit names the next table. */
  function LoongHwTable(e: bv64): Option<bv64> {
    if Bit(e, 0) && !Bit(e, 7) then Some(e & ADDR_MASK) else None
  }

  function LoongHwPage(e: bv64): Option<Target> {
    if Bit(e, 0)
    then Some(Target(e & ADDR_MASK, (e >> 4) & 3, true, Bit(e, 1), !Bit(e, 62), (e >> 2) & 3 == 3))
    else None
  }

  const LOONGARCH: Format<bv64, Target> :=
    Format(0, IsFrame, Valid, LoongTableEntry, AddressField, LoongHwTable, LoongHwPage)

  lemma LoongLawful()
    ensures Lawful(LOONGARCH)
  {
    forall f: bv64 | LOONGARCH.isFrame(f)
      ensures LOONGARCH.present(LOONGARCH.tableEntry(f)) && LOONGARCH.nextTable(LOONGARCH.tableEntry(f)) == f
      ensures LOONGARCH.hwTable(LOONGARCH.tableEntry(f)) == Some(f)
    {
      LoongTableWord(f);
    }
  }

  lemma LoongTableWord(f: bv64)
    requires IsFrame(f)
    ensures var e := LoongTableEntry(f); Valid(e) && AddressField(e) == f && LoongHwTable(e) == Some(f)
  {
    LoongTableBits(f);
    LoongTableRead(LoongTableEntry(f), f);
  }

  lemma LoongTableRead(e: bv64, f: bv64)
    requires Bit(e, 0) && !Bit(e, 7) && e & ADDR_MASK == f
    ensures AddressField(e) == f && LoongHwTable(e) == Some(f)
  {
  }

  lemma LoongTableBits(f: bv64)
    ensures var e := LoongTableEntry(f); Valid(e) && Bit(e, 0) && !Bit(e, 7) && e & ADDR_MASK == f & ADDR_MASK
  {
  }

  lemma LoongDecodesLeaf(pa: bv64, p: Permissions, cache: CachePolicy)
    ensures LoongHwPage(LoongLeafEntry(pa, LoongLeafAttrs(p, cache)))
         == Some(Target(Masked(pa, ADDR_MASK), Mat(cache), true, p.writable, p.executable, p.user))
  {
    LoongAttrFields(p, cache);
    LoongLeafFields(pa, LoongLeafAttrs(p, cache));
  }

  lemma LoongAttrFields(p: Permissions, cache: CachePolicy)
    ensures var a := LoongLeafAttrs(p, cache);
            && a & ADDR_MASK == 0 && Bit(a, 0) && (a >> 4) & 3 == Mat(cache)
            && Bit(a, 1) == p.writable && Bit(a, 62) == !p.executable && ((a >> 2) & 3 == 3 <==> p.user)
  {
  }

  lemma LoongLeafFields(pa: bv64, a: bv64)
    requires a & ADDR_MASK == 0
    ensures var e := LoongLeafEntry(pa, a);
            && e & ADDR_MASK == pa & ADDR_MASK && Bit(e, 0) == Bit(a, 0) && (e >> 4) & 3 == (a >> 4) & 3
            && Bit(e, 1) == Bit(a, 1) && Bit(e, 62) == Bit(a, 62) && (e >> 2) & 3 == (a >> 2) & 3
  {
  }

  // ---- Attributes beyond page, memory type and rights ----

  /** Every AArch64 leaf is inner shareable: SH, bits 9:8, is 0b11. */
  lemma ArmLeafShareable(pa: bv64, p: Permissions, cache: CachePolicy)
    ensures (ArmLeafEntry(pa, ArmLeafAttrs(p, cache)) >> 8) & 3 == 3
  {
    ArmAttrShareable(p, cache);
    ArmEntryShareable(pa, ArmLeafAttrs(p, cache));
  }

  lemma ArmAttrShareable(p: Permissions, cache: CachePolicy)
    ensures (ArmLeafAttrs(p, cache) >> 8) & 3 == 3
  {
    if p.writable {} else {}
    if p.executable {} else {}
  }

  lemma ArmEntryShareable(pa: bv64, a: bv64)
    ensures (ArmLeafEntry(pa, a) >> 8) & 3 == (a >> 8) & 3
  {
  }

  /** Every RISC-V leaf is global: G is bit 5. */
  lemma RvLeafGlobal(pa: bv64, p: Permissions, cache: CachePolicy)
    ensures Bit(RvLeafEntry(pa, RvLeafAttrs(p, cache)), 5)
  {
  }

  /** Every LoongArch leaf is global: G is bit 6. */
  lemma LoongLeafGlobal(pa: bv64, p: Permissions, cache: CachePolicy)
    ensures Bit(LoongLeafEntry(pa, LoongLeafAttrs(p, cache)), 6)
  {
  }

  // ---- The three formats as one family ----

  datatype Codec = Codec(
    format: Format<bv64, Target>,
    leafEntry: (bv64, bv64) -> bv64,
    leafAttrs: (Permissions, CachePolicy) -> bv64)

  datatype Arch = AArch64 | RiscV64 | LoongArch64

  function CodecOf(a: Arch): Codec {
    match a
    case AArch64 => Codec(AARCH64, ArmLeafEntry, ArmLeafAttrs)
    case RiscV64 => Codec(RISCV, RvLeafEntry, RvLeafAttrs)
    case LoongArch64 => Codec(LOONGARCH, LoongLeafEntry, LoongLeafAttrs)
  }

  /** The physical page a leaf entry for `pa` names. */
  function PageField(a: Arch, pa: bv64): bv64 {
    Masked(pa, if a == RiscV64 then WIDE_ADDR_MASK else ADDR_MASK)
  }

  /** Every format is lawful for all frames its address field can hold. */
  lemma CodecLawful(a: Arch)
    ensures Lawful(CodecOf(a).format) && CodecOf(a).format.zero == 0
    ensures CodecOf(a).format.isFrame == if a == RiscV64 then RvIsFrame else IsFrame
  {
    match a
    case AArch64 => AArch64Lawful();
    case RiscV64 => RiscvLawful();
    case LoongArch64 => LoongLawful();
  }

  /** How far the address field of an entry reaches. */
  function AddressLimit(a: Arch): nat {
    if a == RiscV64 then 0x100_0000_0000_0000 else 0x1_0000_0000_0000
  }

  /** An entry for address pa names the page of pa, as far as its address field reaches. */
  lemma PageFieldValue(a: Arch, pa: nat)
    requires pa < AddressLimit(a)
    ensures PageField(a, ToWord(pa)) as int == pa - pa % 4096
  {
    var p := pa - pa % 4096;
    PageOfWord(pa);
    SamePageField(a, ToWord(pa), ToWord(p));
    FieldKeeps(a, p);
    WordValue(p);
    SameWordValue(PageField(a, ToWord(pa)), ToWord(p), p);
  }

  lemma FieldKeeps(a: Arch, p: nat)
    requires p % 4096 == 0 && p < AddressLimit(a)
    ensures PageField(a, ToWord(p)) == ToWord(p)
  {
    if a == RiscV64 { WidePageWord(p); } else { NarrowPageWord(p); }
  }

  lemma SamePageField(a: Arch, x: bv64, y: bv64)
    requires SamePage(x, y)
    ensures PageField(a, x) == PageField(a, y)
  {
  }

  lemma SameWordValue(x: bv64, w: bv64, p: nat)
    requires x == w && w as int == p
    ensures x as int == p
  {
  }

  function MemType(a: Arch, cache: CachePolicy): bv64 {
    match a
    case AArch64 => MairIndex(cache)
    case RiscV64 => Pbmt(cache)
    case LoongArch64 => Mat(cache)
  }

  /**
   What a leaf for page pa decodes to: everything, except that AArch64 cannot withhold reading or grant user access.
   */
  function LeafTarget(a: Arch, pa: bv64, p: Permissions, cache: CachePolicy): Target {
    Target(PageField(a, pa), MemType(a, cache), a == RiscV64 ==> p.readable, p.writable, p.executable,
           a != AArch64 && p.user)
  }

  /** Every leaf the builders write decodes to its page, memory type and rights, unless RISC-V reserves those rights. */
  lemma LeafDecodes(a: Arch, pa: bv64, p: Permissions, cache: CachePolicy)
    ensures var c := CodecOf(a);
            c.format.hwPage(c.leafEntry(pa, c.leafAttrs(p, cache)))
            == if a == RiscV64 && !RvExpressible(p) then None else Some(LeafTarget(a, pa, p, cache))
  {
    match a
    case AArch64 => ArmDecodesLeaf(pa, p, cache);
    case RiscV64 => RvDecodesLeaf(pa, p, cache); RvPageNumberRoundTrip(pa);
    case LoongArch64 => LoongDecodesLeaf(pa, p, cache);
  }

  lemma SamePageMask(pa: bv64, page: bv64)
    requires SamePage(pa, page)
    ensures pa & ADDR_MASK == page & ADDR_MASK
  {
  }

  lemma MaskedEntries(pa: bv64, page: bv64, attrs: bv64)
    requires pa & ADDR_MASK == page & ADDR_MASK
    ensures ArmLeafEntry(pa, attrs) == ArmLeafEntry(page, attrs)
    ensures LoongLeafEntry(pa, attrs) == LoongLeafEntry(page, attrs)
  {
  }

  lemma RvSamePage(pa: bv64, page: bv64, attrs: bv64)
    requires SamePage(pa, page)
    ensures RvLeafEntry(pa, attrs) == RvLeafEntry(page, attrs)
  {
  }

  lemma SamePageEntries(a: Arch, pa: bv64, page: bv64, attrs: bv64)
    requires SamePage(pa, page)
    ensures CodecOf(a).leafEntry(pa, attrs) == CodecOf(a).leafEntry(page, attrs)
  {
    SamePageMask(pa, page);
    MaskedEntries(pa, page, attrs);
    RvSamePage(pa, page, attrs);
  }

  /** A codec whose entries depend on the page of an address only. */
  ghost predicate OffsetBlind(c: Codec) {
    forall x: bv64, y: bv64, attrs: bv64 :: SamePage(x, y) ==> c.leafEntry(x, attrs) == c.leafEntry(y, attrs)
  }

  /** The offset within a page leaves no trace in the entry. */
  lemma LeafIgnoresOffset(a: Arch)
    ensures OffsetBlind(CodecOf(a))
  {
    forall x: bv64, y: bv64, attrs: bv64 | SamePage(x, y)
      ensures CodecOf(a).leafEntry(x, attrs) == CodecOf(a).leafEntry(y, attrs)
    {
      SamePageEntries(a, x, y, attrs);
    }
  }

  // ---- What the memory-type field means ----

  /** Kinds of memory, as far as the policies tell them apart. */
  datatype MemoryKind =
    | StrongDevice
    | EarlyAckDevice
    | RelaxedDevice
    | NonCacheable
    | CachedWriteThrough
    | CachedWriteBack
    | Mixed

  /** `STANDARD_MAIR`, programmed at the hand-off. */
  const STANDARD_MAIR: bv64 := 0x0000_0000_FF44_0400

  /** The attribute byte of one of the eight slots. */
  function MairByte(slot: nat): bv64
    requires slot < 8
  {
    (STANDARD_MAIR >> (8 * slot)) & 0xFF
  }

  /** The slot a three-bit index selects. */
  function MairSlot(index: bv64): nat {
    if index == 0 then 0 else if index == 1 then 1 else if index == 2 then 2 else if index == 3 then 3
    else if index == 4 then 4 else if index == 5 then 5 else if index == 6 then 6 else 7
  }

  /**
   An attribute byte of MAIR_EL1 (its description in the Arm ARM, DDI 0487): 0x00 Device-nGnRnE, 0x04 Device-nGnRE,
   0x08 and 0x0C the weaker devices, 0x44 Normal Non-cacheable; 10xx and 11xx in both halves are Write-Through and
   Write-Back.
   */
  function MairKind(b: bv64): MemoryKind {
    if b == 0x00 then StrongDevice
    else if b == 0x04 then EarlyAckDevice
    else if b == 0x08 || b == 0x0C then RelaxedDevice
    else if b == 0x44 then NonCacheable
    else if b & 0xCC == 0x88 then CachedWriteThrough
    else if b & 0xCC == 0xCC then CachedWriteBack
    else Mixed
  }

  /**
   The kind of memory a memory-type field selects: through MAIR on AArch64; PMA, NC and IO of Svpbmt, main memory being
   write-back, on RISC-V; strongly uncached, coherent cached and weakly uncached on LoongArch.
   */
  function KindOf(a: Arch, memType: bv64): MemoryKind {
    match a
    case AArch64 => MairKind(MairByte(MairSlot(memType)))
    case RiscV64 => if memType == 0 then CachedWriteBack else if memType == 1 then NonCacheable else StrongDevice
    case LoongArch64 => if memType == 0 then StrongDevice else if memType == 1 then CachedWriteBack else NonCacheable
  }

  /** The kind documented for a policy. */
  function DocumentedKind(cache: CachePolicy): MemoryKind {
    match cache
    case Uncacheable => StrongDevice
    case WriteCombining => NonCacheable
    case WriteThrough => CachedWriteThrough
    case WriteBack => CachedWriteBack
  }

  lemma MairBytes()
    ensures MairByte(0) == 0x00 && MairByte(1) == 0x04 && MairByte(2) == 0x44 && MairByte(3) == 0xFF
  {
  }

  /** The kind of memory each architecture really gives a policy. */
  function GivenKind(a: Arch, cache: CachePolicy): MemoryKind {
    match cache
    case Uncacheable => StrongDevice
    case WriteCombining => if a == AArch64 then EarlyAckDevice else NonCacheable
    case WriteThrough => if a == AArch64 then NonCacheable else CachedWriteBack
    case WriteBack => CachedWriteBack
  }

  lemma MairKinds()
    ensures MairKind(MairByte(0)) == StrongDevice && MairKind(MairByte(1)) == EarlyAckDevice
    ensures MairKind(MairByte(2)) == NonCacheable && MairKind(MairByte(3)) == CachedWriteBack
  {
    MairBytes();
  }

  lemma KindGiven(a: Arch, cache: CachePolicy)
    ensures KindOf(a, MemType(a, cache)) == GivenKind(a, cache)
  {
    if a == AArch64 { ArmKindGiven(cache); }
  }

  lemma SlotGiven(cache: CachePolicy)
    ensures MairSlot(MairIndex(cache))
         == match cache case Uncacheable => 0 case WriteCombining => 1 case WriteThrough => 2 case WriteBack => 3
  {
  }

  lemma ArmKindGiven(cache: CachePolicy)
    ensures MairKind(MairByte(MairSlot(MairIndex(cache)))) == GivenKind(AArch64, cache)
  {
    SlotGiven(cache);
    MairKinds();
  }

  /** A policy gets its documented kind unless it is write-through, or write-combining on AArch64. */
  lemma DocumentedKindIff(a: Arch, cache: CachePolicy)
    ensures KindOf(a, MemType(a, cache)) == DocumentedKind(cache)
       <==> cache == Uncacheable || cache == WriteBack || (cache == WriteCombining && a != AArch64)
  {
    KindGiven(a, cache);
  }

  /** On AArch64 a write-combining mapping is device memory, not Normal Non-cacheable. */
  lemma ArmWriteCombiningIsDevice()
    ensures KindOf(AArch64, MemType(AArch64, WriteCombining)) == EarlyAckDevice
  {
    KindGiven(AArch64, WriteCombining);
  }

  /** Write-combining memory is told apart from write-back memory on every architecture. */
  lemma WriteCombiningDistinct(a: Arch)
    ensures MemType(a, WriteCombining) != MemType(a, WriteBack)
  {
  }
}
