/** The loop-built x86-64 tables of the BIOS path (`zamak-bios/src/paging.rs`): 4 levels, 2 MiB pages. */
module BiosPaging {
  import opened Machine
  import opened Options
  import opened Bits

  const HUGE: nat := 0x20_0000
  const GIB: nat := 0x4000_0000
  const HHDM_MAX: nat := 0x4_0000_0000
  const ADDR_LIMIT: nat := 0x10_0000_0000_0000

  type Memory = map<nat, seq<nat>>

  // ---- Entries, as written and as the hardware reads them (Intel SDM volume 3A, section 4.5) ----

  /** `frame | PTE_PRESENT_WRITABLE`. */
  function TableEntry(f: nat): nat { Or(f, 0x3) }

  /** `phys | PTE_HUGE`. */
  function HugeEntry(p: nat): nat { Or(p, 0x83) }

  /** Present and writable; with either bit clear, at any level, a write faults. */
  predicate Admits(e: nat) { e % 2 == 1 && e / 2 % 2 == 1 }
  predicate PageSize(e: nat) { e / 128 % 2 == 1 }

  /** An entry with the page-size bit clear points to the next table (bits 51:12). */
  function HwTable(e: nat): Option<nat> {
    if Admits(e) && !PageSize(e) then Some(e / 4096 % 0x100_0000_0000 * 4096) else None
  }

  /** A page-directory entry with the page-size bit maps 2 MiB (bits 51:21); bits 20:13 are reserved. */
  function HwHuge(e: nat): Option<nat> {
    if Admits(e) && PageSize(e) && e / 0x2000 % 256 == 0 then Some(e / HUGE % 0x8000_0000 * HUGE) else None
  }

  function Read(mem: Memory, f: nat, i: nat): nat {
    if f in mem && i < |mem[f]| then mem[f][i] else 0
  }

  function WalkPd(mem: Memory, pd: nat, i2: nat, off: nat): Option<nat> {
    match HwHuge(Read(mem, pd, i2))
    case None => None
    case Some(p) => Some(p + off)
  }

  function WalkPdpt(mem: Memory, pdpt: nat, i3: nat, i2: nat, off: nat): Option<nat> {
    match HwTable(Read(mem, pdpt, i3))
    case None => None
    case Some(pd) => WalkPd(mem, pd, i2, off)
  }

  function WalkPml4(mem: Memory, pml4: nat, i4: nat, i3: nat, i2: nat, off: nat): Option<nat> {
    match HwTable(Read(mem, pml4, i4))
    case None => None
    case Some(pdpt) => WalkPdpt(mem, pdpt, i3, i2, off)
  }

  /**
   The hardware walk of a write through a hierarchy of 2 MiB pages: bits 47:39, 38:30 and 29:21, then the offset.
   */
  function Walk(mem: Memory, pml4: nat, va: nat): Option<nat> {
    WalkPml4(mem, pml4, va / 0x80_0000_0000 % 512, va / GIB % 512, va / HUGE % 512, va % HUGE)
  }

  predicate IsFrame(f: nat) {
    f % 4096 == 0 && f < ADDR_LIMIT
  }

  lemma OrLowBits(x: nat, k: nat, flags: nat)
    requires x % Pow2(k) == 0 && flags < Pow2(k)
    ensures Or(x, flags) == x + flags
  {
    ShrSmall(flags, k);
    ShlShr(x, k);
    ShrLowIsDivMod(x, k);
    OrJoin(flags, Shr(x, k), k);
  }

  lemma TableWord(f: nat)
    requires f % 4096 == 0
    ensures TableEntry(f) == f + 3
  {
    assert Pow2(12) == 4096;
    OrLowBits(f, 12, 3);
  }

  lemma TableReadsBack(f: nat)
    requires IsFrame(f)
    ensures HwTable(TableEntry(f)) == Some(f)
  {
    TableWord(f);
    TableFields(f / 4096);
  }

  lemma TableFields(g: nat)
    requires g < 0x100_0000_0000
    ensures HwTable(4096 * g + 3) == Some(4096 * g)
  {
    var e := 4096 * g + 3;
    DivUnique(e, 4096, g, 3);
    DivUnique(e, 128, 32 * g, 3);
    DivUnique(32 * g, 2, 16 * g, 0);
    DivUnique(e, 2, 2048 * g + 1, 1);
    DivUnique(2048 * g + 1, 2, 1024 * g, 1);
  }

  lemma HugeWord(p: nat)
    requires p % HUGE == 0
    ensures HugeEntry(p) == p + 0x83
  {
    assert Pow2(21) == HUGE by { assert Pow2(9) == 512; assert Pow2(12) == 4096; Pow2Add(9, 12); }
    OrLowBits(p, 21, 0x83);
  }

  lemma HugeReadsBack(p: nat)
    requires p % HUGE == 0 && p < ADDR_LIMIT
    ensures HwHuge(HugeEntry(p)) == Some(p)
  {
    HugeWord(p);
    HugeFields(p / HUGE);
  }

  lemma HugeFields(q: nat)
    requires q < 0x8000_0000
    ensures HwHuge(HUGE * q + 0x83) == Some(HUGE * q)
  {
    var e := HUGE * q + 0x83;
    DivUnique(e, HUGE, q, 0x83);
    DivUnique(e, 0x2000, 256 * q, 0x83);
    DivUnique(256 * q, 256, q, 0);
    DivUnique(e, 128, 0x4000 * q + 1, 3);
    DivUnique(0x4000 * q + 1, 2, 0x2000 * q, 1);
    DivUnique(e, 2, 0x10_0000 * q + 0x41, 1);
    DivUnique(0x10_0000 * q + 0x41, 2, 0x8_0000 * q + 0x20, 1);
  }

  lemma HugeRange(e: nat)
    ensures HwHuge(e).Some? ==> HwHuge(e).value % HUGE == 0 && HwHuge(e).value < ADDR_LIMIT
  {
    var q := e / HUGE % 0x8000_0000;
    DivUnique(q * HUGE, HUGE, q, 0);
  }

  /**
   The entry for p maps p exactly when p is 2 MiB aligned and below 2^52: any other address bit is lost or becomes a
   flag.
   */
  lemma HugeReadsBackIff(p: nat)
    ensures HwHuge(HugeEntry(p)) == Some(p) <==> p % HUGE == 0 && p < ADDR_LIMIT
  {
    if p % HUGE == 0 && p < ADDR_LIMIT {
      HugeReadsBack(p);
    } else {
      HugeRange(HugeEntry(p));
    }
  }

  lemma ZeroUnmapped()
    ensures HwTable(0) == None && HwHuge(0) == None
  {
  }

  // ---- Highest usable address ----

  const MEMMAP_USABLE: nat := 0

  datatype MemmapEntry = MemmapEntry(base: nat, length: nat, typ: nat)

  /** An entry whose end does not wrap; its bytes are base .. base + length. */
  predicate Plain(e: MemmapEntry) {
    IsUsable(e) && e.base + e.length < U64
  }

  predicate IsUsable(e: MemmapEntry) {
    e.typ == MEMMAP_USABLE
  }

  /** The wrapping end address. */
  function End(e: MemmapEntry): nat {
    (e.base + e.length) % U64
  }

  /** `top` is the largest end of a usable entry, 0 when there is none. */
  ghost predicate IsTop(mmap: seq<MemmapEntry>, top: nat) {
    && (forall e :: e in mmap && IsUsable(e) ==> End(e) <= top)
    && (top == 0 || exists e :: e in mmap && IsUsable(e) && End(e) == top)
  }

  function Clamp(top: nat): nat {
    if top == 0 then GIB else if top > HHDM_MAX then HHDM_MAX else top
  }

  method MaxPhysicalAddress(mmap: seq<MemmapEntry>) returns (max: nat)
    ensures exists top: nat :: IsTop(mmap, top) && max == Clamp(top)
  {
    max := 0;
    for i := 0 to |mmap|
      invariant IsTop(mmap[..i], max)
    {
      assert mmap[..i + 1] == mmap[..i] + [mmap[i]];
      if mmap[i].typ == MEMMAP_USABLE {
        var end := (mmap[i].base + mmap[i].length) % U64;
        if end > max {
          max := end;
          assert mmap[i] in mmap[..i + 1] && IsUsable(mmap[i]) && End(mmap[i]) == max;
        }
      }
    }
    assert mmap[..|mmap|] == mmap && IsTop(mmap, max);
    if max == 0 {
      return GIB;
    }
    if max > HHDM_MAX {
      return HHDM_MAX;
    }
  }

  /** Below the ceiling, every byte of a plain usable entry lies below the result. */
  lemma TopCovers(mmap: seq<MemmapEntry>, top: nat, e: MemmapEntry, p: nat)
    requires IsTop(mmap, top) && e in mmap && Plain(e) && e.base <= p < e.base + e.length && p < HHDM_MAX
    ensures p < Clamp(top)
  {
    assert End(e) == e.base + e.length;
  }

  // ---- Tables ----

  type Table = seq<nat>

  function Zeros(): Table { seq(512, _ => 0) }

  function Put(t: Table, i: nat, e: nat): Table
    requires i < |t|
  {
    t[i := e]
  }

  /** `base + k * HUGE_PAGE_SIZE`, in wrapping 64-bit arithmetic. */
  function HugePage(base: nat, k: nat): nat {
    (base + k * HUGE) % U64
  }

  /** A page directory mapping n huge pages from `base` on. */
  function HugeTable(base: nat, n: nat): Table {
    seq(512, k requires 0 <= k => if k < n then HugeEntry(HugePage(base, k)) else 0)
  }

  lemma HugeTableGrows(base: nat, k: nat)
    requires k < 512
    ensures Put(HugeTable(base, k), k, HugeEntry(HugePage(base, k))) == HugeTable(base, k + 1)
    ensures HugeTable(base, 0) == Zeros()
  {
  }

  /** `for k in 0..n { *pd.offset(k) = (base + k * HUGE) | PTE_HUGE }` on a zeroed table. */
  method FillHuge(mem: Memory, pd: nat, base: nat, n: nat) returns (out: Memory)
    requires pd in mem && mem[pd] == Zeros() && n <= 512
    ensures out == mem[pd := HugeTable(base, n)]
  {
    out := mem;
    HugeTableGrows(base, 0);
    for k := 0 to n
      invariant out == mem[pd := HugeTable(base, k)]
    {
      HugeTableGrows(base, k);
      out := out[pd := Put(out[pd], k, HugeEntry(HugePage(base, k)))];
    }
  }

  /** How many huge pages of the GiB starting at `base` lie below max (rounded up). */
  function PagesIn(base: nat, max: nat): nat
    requires base < max
  {
    if base + GIB <= max then 512 else (max - base + HUGE - 1) / HUGE
  }

  /** A page-directory-pointer table whose first n entries point to the given directories. */
  function PointerTable(pds: seq<nat>): Table {
    seq(512, k requires 0 <= k => if k < |pds| then TableEntry(pds[k]) else 0)
  }

  /** The finished tables: who points where, and what each directory maps. */
  ghost predicate Built(mem: Memory, pml4: nat, f: seq<nat>, kernel: nat, max: nat, pds: seq<nat>) {
    && |f| == 5 && pml4 in mem && (forall i :: 0 <= i < 5 ==> f[i] in mem && IsFrame(f[i]))
    && mem[pml4] == Put(Put(Put(Zeros(), 0, TableEntry(f[0])), 511, TableEntry(f[2])), 256, TableEntry(f[4]))
    && mem[f[0]] == Put(Zeros(), 0, TableEntry(f[1]))
    && mem[f[1]] == HugeTable(0, 512)
    && mem[f[2]] == Put(Zeros(), 510, TableEntry(f[3]))
    && mem[f[3]] == HugeTable(kernel, 64)
    && mem[f[4]] == PointerTable(pds)
    && Directories(mem, max, pds)
    && |pds| == (max + GIB - 1) / GIB
  }

  ghost predicate Directories(mem: Memory, max: nat, pds: seq<nat>) {
    forall j :: 0 <= j < |pds| ==>
      && j * GIB < max && IsFrame(pds[j]) && pds[j] in mem && mem[pds[j]] == HugeTable(j * GIB, PagesIn(j * GIB, max))
  }

  // ---- What the finished tables translate to ----

  /** max rounded up to a whole huge page. */
  function HugeUp(max: nat): nat {
    (max + HUGE - 1) / HUGE * HUGE
  }

  /** Three windows, keyed by the low 48 bits of the address, and nothing else. */
  function Windows(kernel: nat, max: nat, va: nat): Option<nat> {
    if va < GIB then Some(va)
    else if 0xFFFF_8000_0000 <= va < 0xFFFF_8000_0000 + 0x800_0000 then Some(kernel + (va - 0xFFFF_8000_0000))
    else if 0x8000_0000_0000 <= va < 0x8000_0000_0000 + HugeUp(max) then Some(va - 0x8000_0000_0000)
    else None
  }

  /** Page i of n that lie on 2 MiB boundaries below 2^52. */
  lemma HugePageFits(base: nat, n: nat, i: nat)
    requires base % HUGE == 0 && base + n * HUGE <= ADDR_LIMIT && i < n
    ensures var p := HugePage(base, i); p == base + i * HUGE && p % HUGE == 0 && p < ADDR_LIMIT
  {
    var q := base / HUGE;
    assert base == q * HUGE && base + i * HUGE == (q + i) * HUGE;
    DivUnique(base + i * HUGE, HUGE, q + i, 0);
  }

  lemma HugeTableReads(mem: Memory, pd: nat, base: nat, n: nat, i: nat)
    requires pd in mem && mem[pd] == HugeTable(base, n) && i < 512 && base % HUGE == 0 && base + n * HUGE <= ADDR_LIMIT
    ensures HwHuge(Read(mem, pd, i)) == if i < n then Some(base + i * HUGE) else None
  {
    if i < n {
      HugePageFits(base, n, i);
      HugeReadsBack(HugePage(base, i));
    } else {
      ZeroUnmapped();
    }
  }

  lemma Digits(va: nat)
    requires va < 0x1_0000_0000_0000
    ensures var i4, i3, i2 := va / 0x80_0000_0000 % 512, va / GIB % 512, va / HUGE % 512;
            va == 0x80_0000_0000 * i4 + GIB * i3 + HUGE * i2 + va % HUGE
  {
    assert va / GIB == va / HUGE / 512;
    assert va / 0x80_0000_0000 == va / HUGE / 512 / 512;
  }

  lemma DirectoryWalk(mem: Memory, pd: nat, base: nat, n: nat, i2: nat, off: nat)
    requires pd in mem && mem[pd] == HugeTable(base, n) && base % HUGE == 0 && base + n * HUGE <= ADDR_LIMIT && i2 < 512
    ensures WalkPd(mem, pd, i2, off) == if i2 < n then Some(base + i2 * HUGE + off) else None
  {
    HugeTableReads(mem, pd, base, n, i2);
  }

  /** A pointer table with one entry leads into its directory for that GiB only. */
  lemma OneDirectory(mem: Memory, pdpt: nat, i: nat, pd: nat, i3: nat, i2: nat, off: nat)
    requires pdpt in mem && i < 512 && mem[pdpt] == Put(Zeros(), i, TableEntry(pd)) && IsFrame(pd) && i3 < 512
    ensures WalkPdpt(mem, pdpt, i3, i2, off) == if i3 == i then WalkPd(mem, pd, i2, off) else None
  {
    TableReadsBack(pd);
    ZeroUnmapped();
  }

  lemma ManyDirectories(mem: Memory, pdpt: nat, pds: seq<nat>, i3: nat, i2: nat, off: nat)
    requires pdpt in mem && mem[pdpt] == PointerTable(pds) && i3 < 512 && forall j :: 0 <= j < |pds| ==> IsFrame(pds[j])
    ensures WalkPdpt(mem, pdpt, i3, i2, off) == if i3 < |pds| then WalkPd(mem, pds[i3], i2, off) else None
  {
    if i3 < |pds| { TableReadsBack(pds[i3]); }
    ZeroUnmapped();
  }

  /** The root has three entries. */
  lemma RootWalk(mem: Memory, pml4: nat, a: nat, b: nat, c: nat, i4: nat, i3: nat, i2: nat, off: nat)
    requires pml4 in mem && IsFrame(a) && IsFrame(b) && IsFrame(c) && i4 < 512
    requires mem[pml4] == Put(Put(Put(Zeros(), 0, TableEntry(a)), 511, TableEntry(b)), 256, TableEntry(c))
    ensures WalkPml4(mem, pml4, i4, i3, i2, off)
         == match i4
            case 0 => WalkPdpt(mem, a, i3, i2, off)
            case 511 => WalkPdpt(mem, b, i3, i2, off)
            case 256 => WalkPdpt(mem, c, i3, i2, off)
            case _ => None
  {
    TableReadsBack(a);
    TableReadsBack(b);
    TableReadsBack(c);
    ZeroUnmapped();
    RootReads(mem[pml4], a, b, c, i4);
  }

  lemma RootReads(t: Table, a: nat, b: nat, c: nat, i: nat)
    requires t == Put(Put(Put(Zeros(), 0, TableEntry(a)), 511, TableEntry(b)), 256, TableEntry(c)) && i < 512
    ensures |t| == 512
    ensures t[i] == if i == 0 then TableEntry(a) else if i == 511 then TableEntry(b)
                    else if i == 256 then TableEntry(c) else 0
  {
    var t0, t1 := Put(Zeros(), 0, TableEntry(a)), Put(Put(Zeros(), 0, TableEntry(a)), 511, TableEntry(b));
    assert i != 256 ==> t[i] == t1[i];
    assert i != 511 ==> t1[i] == t0[i];
  }

  lemma GibStart(j: nat)
    ensures j * GIB % HUGE == 0
  {
    DivUnique(j * GIB, HUGE, 512 * j, 0);
  }

  lemma HhdmWalk(mem: Memory, pdpt: nat, max: nat, pds: seq<nat>, i3: nat, i2: nat, off: nat)
    requires pdpt in mem && mem[pdpt] == PointerTable(pds) && Directories(mem, max, pds)
             && |pds| == (max + GIB - 1) / GIB
    requires max <= HHDM_MAX && i3 < 512 && i2 < 512 && off < HUGE
    ensures var p := i3 * GIB + i2 * HUGE + off;
            WalkPdpt(mem, pdpt, i3, i2, off) == if p < HugeUp(max) then Some(p) else None
  {
    ManyDirectories(mem, pdpt, pds, i3, i2, off);
    HhdmBound(max, i3, i2, off);
    if i3 < |pds| {
      HhdmDirectory(mem, max, pds, i3, i2, off);
    }
  }

  lemma HhdmDirectory(mem: Memory, max: nat, pds: seq<nat>, j: nat, i2: nat, off: nat)
    requires Directories(mem, max, pds) && j < |pds| && max <= HHDM_MAX && i2 < 512
    ensures j * GIB < max
    ensures WalkPd(mem, pds[j], i2, off) == if i2 < PagesIn(j * GIB, max) then Some(j * GIB + i2 * HUGE + off) else None
  {
    GibStart(j);
    DirectoryWalk(mem, pds[j], j * GIB, PagesIn(j * GIB, max), i2, off);
  }

  /** Directory j has an entry k exactly when the huge page it names starts below max. */
  lemma HhdmBound(max: nat, j: nat, k: nat, off: nat)
    requires k < 512 && off < HUGE
    ensures j * GIB < max ==> (k < PagesIn(j * GIB, max) <==> j * GIB + k * HUGE + off < HugeUp(max))
    ensures j >= (max + GIB - 1) / GIB ==> j * GIB + k * HUGE + off >= HugeUp(max)
  {
    var m := (max + HUGE - 1) / HUGE;
    UnitBound(m, 512 * j + k, off);
    if j * GIB < max { PagesInUnits(max, j); }
    if j >= (max + GIB - 1) / GIB { assert j * GIB >= max; assert 512 * j >= m; }
  }

  lemma UnitBound(m: nat, n: nat, off: nat)
    requires off < HUGE
    ensures n * HUGE + off < m * HUGE <==> n < m
  {
  }

  lemma PagesInUnits(max: nat, j: nat)
    requires j * GIB < max
    ensures var m := (max + HUGE - 1) / HUGE; PagesIn(j * GIB, max) == if 512 * j + 512 <= m then 512 else m - 512 * j
  {
    var r := max - j * GIB;
    assert (max + HUGE - 1) / HUGE == 512 * j + (r + HUGE - 1) / HUGE;
  }

  /** What entry i of the kernel directory maps offset `off` to. */
  function KernelPage(kernel: nat, i: nat, off: nat): Option<nat> {
    match HwHuge(HugeEntry(HugePage(kernel, i)))
    case None => None
    case Some(p) => Some(p + off)
  }

  /** The three windows in terms of the three indices, given what the kernel directory says. */
  function ByIndices(max: nat, i4: nat, i3: nat, i2: nat, off: nat, kernelPage: Option<nat>): Option<nat> {
    match i4
    case 0 => if i3 == 0 then Some(i2 * HUGE + off) else None
    case 511 => if i3 == 510 && i2 < 64 then kernelPage else None
    case 256 => if i3 * GIB + i2 * HUGE + off < HugeUp(max) then Some(i3 * GIB + i2 * HUGE + off) else None
    case _ => None
  }

  /** The kernel window lies on 2 MiB boundaries below 2^52. */
  predicate KernelFits(kernel: nat) {
    kernel % HUGE == 0 && kernel + 64 * HUGE <= ADDR_LIMIT
  }

  lemma KernelPageFits(kernel: nat, i: nat, off: nat)
    requires KernelFits(kernel) && i < 64
    ensures KernelPage(kernel, i, off) == Some(kernel + i * HUGE + off)
  {
    HugePageFits(kernel, 64, i);
    HugeReadsBack(HugePage(kernel, i));
  }

  /** Otherwise the first page or the last one is wrong. */
  lemma KernelPageWrong(kernel: nat)
    requires kernel < U64 && !KernelFits(kernel)
    ensures KernelPage(kernel, 0, 0) != Some(kernel) || KernelPage(kernel, 63, 0) != Some(kernel + 63 * HUGE)
  {
    HugeRange(HugeEntry(HugePage(kernel, 63)));
    FirstPage(kernel);
    HugeRange(HugeEntry(kernel));
    LastPage(kernel);
  }

  lemma FirstPage(kernel: nat)
    requires kernel < U64
    ensures HugePage(kernel, 0) == kernel
  {
  }

  lemma LastPage(kernel: nat)
    ensures kernel % HUGE == 0 && kernel + 63 * HUGE < ADDR_LIMIT ==> KernelFits(kernel)
  {
    if kernel % HUGE == 0 {
      var q := kernel / HUGE;
      assert kernel == q * HUGE;
      assert ADDR_LIMIT == 0x8000_0000 * HUGE;
    }
  }

  lemma KernelWalk(mem: Memory, pdpt: nat, pd: nat, kernel: nat, i3: nat, i2: nat, off: nat)
    requires pdpt in mem && mem[pdpt] == Put(Zeros(), 510, TableEntry(pd)) && IsFrame(pd) && i3 < 512
    requires pd in mem && mem[pd] == HugeTable(kernel, 64) && i2 < 512
    ensures WalkPdpt(mem, pdpt, i3, i2, off) == if i3 == 510 && i2 < 64 then KernelPage(kernel, i2, off) else None
  {
    OneDirectory(mem, pdpt, 510, pd, i3, i2, off);
    ZeroUnmapped();
  }

  /** The finished tables, by indices. */
  lemma BuiltWalk(mem: Memory, pml4: nat, f: seq<nat>, kernel: nat, max: nat, pds: seq<nat>, i4: nat, i3: nat, i2: nat,
                  off: nat)
    requires Built(mem, pml4, f, kernel, max, pds) && i4 < 512 && i3 < 512 && i2 < 512 && off < HUGE
    requires max <= HHDM_MAX
    ensures WalkPml4(mem, pml4, i4, i3, i2, off)
         == ByIndices(max, i4, i3, i2, off, KernelPage(kernel, i2, off))
  {
    RootWalk(mem, pml4, f[0], f[2], f[4], i4, i3, i2, off);
    if i4 == 0 {
      OneDirectory(mem, f[0], 0, f[1], i3, i2, off);
      DirectoryWalk(mem, f[1], 0, 512, i2, off);
    } else if i4 == 511 {
      KernelWalk(mem, f[2], f[3], kernel, i3, i2, off);
    } else if i4 == 256 {
      HhdmWalk(mem, f[4], max, pds, i3, i2, off);
    }
  }

  predicate InKernelWindow(va: nat) {
    0xFFFF_8000_0000 <= va < 0xFFFF_8000_0000 + 0x800_0000
  }

  /** The finished tables map exactly the three windows, the kernel window if the kernel fits. */
  lemma WalkIsWindows(mem: Memory, pml4: nat, f: seq<nat>, kernel: nat, max: nat, pds: seq<nat>, va: nat)
    requires Built(mem, pml4, f, kernel, max, pds) && va < 0x1_0000_0000_0000
    requires max <= HHDM_MAX
    ensures KernelFits(kernel) || !InKernelWindow(va) ==> Walk(mem, pml4, va) == Windows(kernel, max, va)
  {
    Digits(va);
    var i4, i3, i2, off := va / 0x80_0000_0000 % 512, va / GIB % 512, va / HUGE % 512, va % HUGE;
    BuiltWalk(mem, pml4, f, kernel, max, pds, i4, i3, i2, off);
    WindowDigits(kernel, max, i4, i3, i2, off, va);
    if KernelFits(kernel) && i2 < 64 {
      KernelPageFits(kernel, i2, off);
    }
  }

  /** With a kernel that does not fit, the first or the last page of the kernel window translates wrongly. */
  lemma KernelMisplaced(mem: Memory, pml4: nat, f: seq<nat>, kernel: nat, max: nat, pds: seq<nat>) returns (va: nat)
    requires Built(mem, pml4, f, kernel, max, pds)
    requires kernel < U64 && max <= HHDM_MAX && !KernelFits(kernel)
    ensures InKernelWindow(va) && Walk(mem, pml4, va) != Windows(kernel, max, va)
  {
    KernelPageWrong(kernel);
    if KernelPage(kernel, 0, 0) != Some(kernel) {
      va := KernelAddress(0);
      KernelAt(mem, pml4, kernel, max, 0);
      BuiltWalk(mem, pml4, f, kernel, max, pds, 511, 510, 0, 0);
    } else {
      va := KernelAddress(63);
      KernelAt(mem, pml4, kernel, max, 63);
      BuiltWalk(mem, pml4, f, kernel, max, pds, 511, 510, 63, 0);
    }
  }

  function KernelAddress(i: nat): nat {
    0xFFFF_8000_0000 + i * HUGE
  }

  lemma KernelAt(mem: Memory, pml4: nat, kernel: nat, max: nat, i: nat)
    requires i < 64
    ensures InKernelWindow(KernelAddress(i))
    ensures Walk(mem, pml4, KernelAddress(i)) == WalkPml4(mem, pml4, 511, 510, i, 0)
    ensures Windows(kernel, max, KernelAddress(i)) == Some(kernel + i * HUGE)
    ensures forall k: Option<nat> :: ByIndices(max, 511, 510, i, 0, k) == k
  {
    var va := KernelAddress(i);
    assert va == HUGE * (0x7FF_FC00 + i);
    DivUnique(va, HUGE, 0x7FF_FC00 + i, 0);
    DivUnique(0x7FF_FC00 + i, 512, 0x3_FFFE, i);
    DivUnique(va, GIB, 0x3_FFFE, HUGE * i);
    DivUnique(va, 0x80_0000_0000, 511, va - 511 * 0x80_0000_0000);
  }

  /** The windows of an address, by its indices. */
  lemma WindowDigits(kernel: nat, max: nat, i4: nat, i3: nat, i2: nat, off: nat, va: nat)
    requires i4 < 512 && i3 < 512 && i2 < 512 && off < HUGE && max <= HHDM_MAX
    requires va == 0x80_0000_0000 * i4 + GIB * i3 + HUGE * i2 + off
    ensures Windows(kernel, max, va)
         == ByIndices(max, i4, i3, i2, off, Some(kernel + i2 * HUGE + off))
    ensures InKernelWindow(va) <==> i4 == 511 && i3 == 510 && i2 < 64
  {
    assert HugeUp(max) <= HHDM_MAX;
  }

  // ---- setup_paging ----

  predicate FramesOk(frames: seq<nat>) {
    && (forall i :: 0 <= i < |frames| ==> IsFrame(frames[i]))
    && (forall i, j :: 0 <= i < j < |frames| ==> frames[i] != frames[j])
  }

  class TableBuilder {
    /** The page-sized blocks the heap will hand out, in order. */
    const frames: seq<nat>
    var next: nat
    var mem: Memory

    constructor (frames: seq<nat>)
      requires FramesOk(frames)
      ensures this.frames == frames && next == 0 && mem == map[]
    {
      this.frames, next, mem := frames, 0, map[];
    }

    /** `allocate_page`: the next block, zeroed; running out of heap is a panic. */
    method AllocatePage() returns (f: Option<nat>)
      modifies this
      ensures f.Some? <==> old(next) < |frames|
      ensures f.Some? ==> f.value == frames[old(next)] && next == old(next) + 1
                          && mem == old(mem)[f.value := Zeros()]
    {
      if next >= |frames| {
        return None;
      }
      f := Some(frames[next]);
      mem := mem[frames[next] := Zeros()];
      next := next + 1;
    }

    /** One pointer table with one directory of n huge pages, hung into a root slot. */
    method MapWindow(pml4: nat, slot: nat, i: nat, base: nat, n: nat) returns (ok: bool)
      requires FramesOk(frames) && next <= |frames| && slot < 512 && i < 512 && n <= 512
      requires pml4 in mem && |mem[pml4]| == 512 && pml4 !in frames[next..]
      modifies this
      ensures ok <==> old(next) + 2 <= |frames|
      ensures ok ==>
        && next == old(next) + 2
        && var pdpt, pd := frames[old(next)], frames[old(next) + 1];
           mem == old(mem)[pdpt := Put(Zeros(), i, TableEntry(pd))][pd := HugeTable(base, n)]
                  [pml4 := Put(old(mem)[pml4], slot, TableEntry(pdpt))]
    {
      var pdpt := AllocatePage();
      if pdpt == None { return false; }
      mem := mem[pml4 := Put(mem[pml4], slot, TableEntry(pdpt.value))];
      var pd := AllocatePage();
      if pd == None { return false; }
      WindowWritten(old(mem), pml4, slot, i, pdpt.value, pd.value, HugeTable(base, n));
      mem := mem[pdpt.value := Put(mem[pdpt.value], i, TableEntry(pd.value))];
      mem := FillHuge(mem, pd.value, base, n);
      ok := true;
    }

    /** One directory of the direct map. */
    method MapGib(pdpt: nat, j: nat, max: nat, ghost from: nat, ghost m0: Memory) returns (ok: bool)
      requires FramesOk(frames) && from + j == next <= |frames| && pdpt !in frames[from..] && j < 512 && j * GIB < max
      requires GibsMapped(m0, mem, pdpt, frames[from..next], max)
      modifies this
      ensures ok <==> old(next) < |frames|
      ensures ok ==> next == old(next) + 1 && GibsMapped(m0, mem, pdpt, frames[from..next], max)
    {
      ghost var m, k := mem, next;
      var pd := AllocatePage();
      if pd == None { return false; }
      NextFrame(frames, from, k, pdpt);
      mem := mem[pdpt := Put(mem[pdpt], j, TableEntry(pd.value))];
      var base := j * GIB;
      mem := FillHuge(mem, pd.value, base, PagesIn(base, max));
      GibAdded(m0, m, mem, pdpt, frames[from..k], pd.value, max, base);
      ok := true;
    }

    /** The directories of one pointer table, GiB by GiB up to max. */
    method MapGibs(pdpt: nat, total: nat, max: nat) returns (ok: bool)
      requires FramesOk(frames) && next <= |frames| && total <= 512 && total == (max + GIB - 1) / GIB
      requires pdpt in mem && mem[pdpt] == Zeros() && pdpt !in frames[next..]
      modifies this
      ensures ok <==> old(next) + total <= |frames|
      ensures ok ==> next == old(next) + total && GibsMapped(old(mem), mem, pdpt, frames[old(next)..next], max)
    {
      GibsStart(mem, pdpt, max);
      for j := 0 to total
        invariant old(next) <= next == old(next) + j <= |frames|
        invariant GibsMapped(old(mem), mem, pdpt, frames[old(next)..next], max)
      {
        ok := MapGib(pdpt, j, max, old(next), old(mem));
        if !ok { return; }
      }
      ok := true;
    }
  }

  /** The order in which the three tables of a window are written does not matter. */
  lemma WindowWritten(m: Memory, pml4: nat, slot: nat, i: nat, pdpt: nat, pd: nat, dir: Table)
    requires pml4 in m && |m[pml4]| == 512 && slot < 512 && i < 512 && pml4 != pdpt && pml4 != pd && pdpt != pd
    ensures var root, ptr := Put(m[pml4], slot, TableEntry(pdpt)), Put(Zeros(), i, TableEntry(pd));
            m[pdpt := Zeros()][pml4 := root][pd := Zeros()][pdpt := ptr][pd := dir]
              == m[pdpt := ptr][pd := dir][pml4 := root]
  {
  }

  /** The directories pds hang in the pointer table, and every other table is as in m0. */
  ghost predicate GibsMapped(m0: Memory, mem: Memory, pdpt: nat, pds: seq<nat>, max: nat) {
    && pdpt in mem && mem[pdpt] == PointerTable(pds) && Directories(mem, max, pds)
    && forall x :: x in m0 && x != pdpt && x !in pds ==> x in mem && mem[x] == m0[x]
  }

  /** Frame k is new to the pointer table and to the directories made before it. */
  lemma NextFrame(frames: seq<nat>, from: nat, k: nat, pdpt: nat)
    requires FramesOk(frames) && from <= k < |frames| && pdpt !in frames[from..]
    ensures IsFrame(frames[k]) && frames[k] != pdpt && frames[k] !in frames[from..k] && pdpt !in frames[from..k]
    ensures frames[from..k + 1] == frames[from..k] + [frames[k]] && |frames[from..k]| == k - from
  {
    assert frames[from..][k - from] == frames[k];
    assert frames[from..k] == frames[from..][..k - from];
  }

  lemma GibsStart(mem: Memory, pdpt: nat, max: nat)
    requires pdpt in mem && mem[pdpt] == Zeros()
    ensures GibsMapped(mem, mem, pdpt, [], max)
  {
    assert PointerTable([]) == Zeros();
  }

  lemma GibAdded(m: Memory, m0: Memory, m1: Memory, pdpt: nat, pds: seq<nat>, pd: nat, max: nat, base: nat)
    requires GibsMapped(m, m0, pdpt, pds, max) && |pds| < 512
    requires base == |pds| * GIB && base < max && IsFrame(pd) && pd != pdpt && pd !in pds && pdpt !in pds
    requires m1 == m0[pd := Zeros()][pdpt := Put(m0[pdpt], |pds|, TableEntry(pd))]
                      [pd := HugeTable(base, PagesIn(base, max))]
    ensures GibsMapped(m, m1, pdpt, pds + [pd], max)
  {
    assert Put(PointerTable(pds), |pds|, TableEntry(pd)) == PointerTable(pds + [pd]);
  }

  /** The root table with its first two entries. */
  function TwoSlots(frames: seq<nat>): Table
    requires |frames| >= 5
  {
    Put(Put(Zeros(), 0, TableEntry(frames[1])), 511, TableEntry(frames[3]))
  }

  /** The identity and kernel windows, below the given root table. */
  ghost predicate FixedPart(mem: Memory, frames: seq<nat>, kernel: nat, root: Table)
    requires |frames| >= 5
  {
    && (forall i :: 0 <= i < 5 ==> frames[i] in mem)
    && mem[frames[0]] == root
    && mem[frames[1]] == Put(Zeros(), 0, TableEntry(frames[2]))
    && mem[frames[2]] == HugeTable(0, 512)
    && mem[frames[3]] == Put(Zeros(), 510, TableEntry(frames[4]))
    && mem[frames[4]] == HugeTable(kernel, 64)
  }

  lemma FrameNotLater(frames: seq<nat>, i: nat, from: nat)
    requires FramesOk(frames) && i < from <= |frames|
    ensures frames[i] !in frames[from..]
  {
  }

  /** The identity and kernel windows. */
  method MapFixed(b: TableBuilder, kernel: nat) returns (ok: bool)
    requires FramesOk(b.frames) && b.next == 0
    modifies b
    ensures ok <==> |b.frames| >= 5
    ensures ok ==> b.next == 5 && FixedPart(b.mem, b.frames, kernel, TwoSlots(b.frames))
  {
    var pml4 := b.AllocatePage();
    if pml4 == None { return false; }
    FrameNotLater(b.frames, 0, 1);
    ok := b.MapWindow(pml4.value, 0, 0, 0, 512);
    if !ok { return; }
    FrameNotLater(b.frames, 0, 3);
    ok := b.MapWindow(pml4.value, 511, 510, kernel, 64);
  }

  /** The direct map: the loop over root entries runs once, because at most 16 GiB are mapped. */
  method MapDirect(b: TableBuilder, kernel: nat, max: nat) returns (ok: bool)
    requires FramesOk(b.frames) && b.next == 5 <= |b.frames| && 0 < max <= HHDM_MAX
    requires FixedPart(b.mem, b.frames, kernel, TwoSlots(b.frames))
    modifies b
    ensures ok <==> |b.frames| >= 6 + (max + GIB - 1) / GIB
    ensures ok ==> var total := (max + GIB - 1) / GIB;
              && b.next == 6 + total
              && Built(b.mem, b.frames[0], b.frames[1..6], kernel, max, b.frames[6..6 + total])
  {
    var total := (max + GIB - 1) / GIB;
    var pml4Entries := (total + 511) / 512;
    assert pml4Entries == 1;
    var pdpt := b.AllocatePage();
    if pdpt == None { return false; }
    b.mem := b.mem[b.frames[0] := Put(b.mem[b.frames[0]], 256, TableEntry(pdpt.value))];
    assert FixedPart(b.mem, b.frames, kernel, Put(TwoSlots(b.frames), 256, TableEntry(b.frames[5])));
    FrameNotLater(b.frames, 5, 6);
    ghost var m := b.mem;
    ok := b.MapGibs(pdpt.value, total, max);
    if ok {
      DirectBuilt(m, b.mem, b.frames, kernel, max, b.next);
    }
  }

  lemma DirectBuilt(m: Memory, mem: Memory, frames: seq<nat>, kernel: nat, max: nat, n: nat)
    requires FramesOk(frames) && 6 <= n <= |frames|
    requires FixedPart(m, frames, kernel, Put(TwoSlots(frames), 256, TableEntry(frames[5])))
    requires n == 6 + (max + GIB - 1) / GIB
    requires GibsMapped(m, mem, frames[5], frames[6..n], max)
    ensures Built(mem, frames[0], frames[1..6], kernel, max, frames[6..n])
  {
    forall i | 0 <= i < 5 ensures frames[i] in mem && mem[frames[i]] == m[frames[i]] {
      assert frames[i] !in frames[6..n];
    }
  }

  /**
   Builds the tables; `None` is the panic when the heap runs out of pages.  Otherwise the hardware sees exactly
   the three windows (the kernel window if and only if the kernel is 2 MiB aligned and below 2^52), and every byte
   below 16 GiB of every plain usable entry through the direct map.
   */
  method SetupPaging(frames: seq<nat>, kernel: nat, mmap: seq<MemmapEntry>)
    returns (root: Option<nat>, mem: Memory, max: nat)
    requires FramesOk(frames) && kernel < U64
    ensures exists top: nat :: IsTop(mmap, top) && max == Clamp(top)
    ensures root.Some? <==> |frames| >= 6 + (max + GIB - 1) / GIB
    ensures root.Some? ==> forall va: nat :: va < 0x1_0000_0000_0000 && !InKernelWindow(va) ==>
              Walk(mem, root.value, va) == Windows(kernel, max, va)
    ensures root.Some? ==>
              ((forall va: nat :: va < 0x1_0000_0000_0000 ==> Walk(mem, root.value, va) == Windows(kernel, max, va))
               <==> KernelFits(kernel))
    ensures root.Some? ==>
              forall e, p: nat :: e in mmap && Plain(e) && e.base <= p < e.base + e.length && p < HHDM_MAX ==>
                Walk(mem, root.value, 0x8000_0000_0000 + p) == Some(p)
  {
    mem := map[];
    root := None;
    max := MaxPhysicalAddress(mmap);
    ghost var top: nat :| IsTop(mmap, top) && max == Clamp(top);
    var b := new TableBuilder(frames);
    var ok := MapFixed(b, kernel);
    if !ok { return; }
    ok := MapDirect(b, kernel, max);
    if !ok { return; }
    mem, root := b.mem, Some(frames[0]);
    ghost var f, pds := frames[1..6], frames[6..6 + (max + GIB - 1) / GIB];
    forall va: nat | va < 0x1_0000_0000_0000
      ensures KernelFits(kernel) || !InKernelWindow(va) ==> Walk(mem, frames[0], va) == Windows(kernel, max, va)
    {
      WalkIsWindows(mem, frames[0], f, kernel, max, pds, va);
    }
    if !KernelFits(kernel) {
      ghost var va := KernelMisplaced(mem, frames[0], f, kernel, max, pds);
      assert va < 0x1_0000_0000_0000;
    }
    forall e, p: nat | e in mmap && Plain(e) && e.base <= p < e.base + e.length && p < HHDM_MAX
      ensures Walk(mem, frames[0], 0x8000_0000_0000 + p) == Some(p)
    {
      TopCovers(mmap, top, e, p);
      DirectMapHas(kernel, max, p);
    }
  }

  lemma DirectMapHas(kernel: nat, max: nat, p: nat)
    requires p < max <= HHDM_MAX
    ensures Windows(kernel, max, 0x8000_0000_0000 + p) == Some(p)
  {
  }
}
