/** Plan, build, walk: what the kernel sees through the higher-half direct map. */
module AddressSpace {
  import opened Options
  import opened Machine
  import opened Words
  import opened RadixTable
  import opened Vmm
  import opened EntryFormats
  import opened PageTables
  import opened KernelImage
  import Bits

  const HHDM_LIMIT: nat := 0x8000_0000_0000

  /** How many pages a range is mapped with. */
  function RangePages(r: PhysRange): nat {
    (r.length + PAGE_SIZE - 1) / PAGE_SIZE
  }

  /** The page at physical address p is one of the range's pages, counted from the page its base lies in. */
  predicate Holds(r: PhysRange, p: nat) {
    r.physBase / PAGE_SIZE <= p / PAGE_SIZE < r.physBase / PAGE_SIZE + RangePages(r)
  }

  /** A range whose pages lie below 2^48, so that no two of them share a virtual page. */
  predicate FitsHhdm(r: PhysRange) {
    r.physBase / PAGE_SIZE + RangePages(r) <= 0x10_0000_0000
  }

  /** Every byte of the range lies in one of its pages. */
  ghost predicate AllBytesHeld(r: PhysRange) {
    forall b: nat :: r.physBase <= b < r.physBase + r.length ==> Holds(r, b)
  }

  /**
   A range is mapped completely if and only if its offset in the first page does not push its end past the last one.
   */
  lemma AllBytesHeldIff(r: PhysRange)
    ensures AllBytesHeld(r) <==> r.length == 0 || r.physBase % PAGE_SIZE + r.length <= PAGE_SIZE * RangePages(r)
  {
    var q, o, n := r.physBase / PAGE_SIZE, r.physBase % PAGE_SIZE, RangePages(r);
    if o + r.length <= PAGE_SIZE * n {
      forall b: nat | r.physBase <= b < r.physBase + r.length ensures Holds(r, b) {
        assert q * PAGE_SIZE <= b < (q + n) * PAGE_SIZE;
      }
    } else if r.length > 0 {
      var b := r.physBase + r.length - 1;
      assert b >= (q + n) * PAGE_SIZE;
      assert !Holds(r, b);
    }
  }

  /** In particular every page-aligned range is. */
  lemma AlignedRangeHeld(r: PhysRange)
    requires r.physBase % PAGE_SIZE == 0
    ensures AllBytesHeld(r)
  {
    AllBytesHeldIff(r);
  }

  /** One page of memory in the middle of two pages loses its second half. */
  lemma StraddlingRangeLost()
    ensures var r := PhysRange(0x800, 0x1000); RangePages(r) == 1 && !Holds(r, 0x1000)
  {
  }

  /** A direct-map mapping has a page for HHDM + p exactly when its range holds p, and that page is p itself. */
  lemma HhdmPageFor(m: Mapping, r: PhysRange, p: nat)
    requires FitsHhdm(r) && p % PAGE_SIZE == 0 && p < HHDM_LIMIT
    requires m.virtBase == HhdmAddress(r.physBase) && m.physBase == r.physBase && m.length == r.length
    ensures PageFor(m, HHDM_VIRT_BASE + p)
         == if Holds(r, p) then Some(p / PAGE_SIZE - r.physBase / PAGE_SIZE) else None
  {
    HhdmKey(p);
    HhdmKey(r.physBase);
    KeyDistance(p / PAGE_SIZE, r.physBase / PAGE_SIZE, PageCount(m));
  }

  /** Page x counted from page b, on a circle of 2^36 pages turned by half. */
  lemma KeyDistance(x: nat, b: nat, n: nat)
    requires x < 0x8_0000_0000 && b + n <= 0x10_0000_0000
    ensures var d := ((0x8_0000_0000 + x) % 0x10_0000_0000
            + 0x10_0000_0000 - (0x8_0000_0000 + b) % 0x10_0000_0000) % 0x10_0000_0000;
            && (d < n <==> b <= x < b + n)
            && (d < n ==> d == x - b && (n - 1 - d) / 0x10_0000_0000 == 0)
  {
    var d := ((0x8_0000_0000 + x) % 0x10_0000_0000
             + 0x10_0000_0000 - (0x8_0000_0000 + b) % 0x10_0000_0000) % 0x10_0000_0000;
    assert d == if x >= b then x - b else if b == 0x10_0000_0000 then x else x + 0x10_0000_0000 - b;
  }

  /** The wrapping sum keeps bits 47..12. */
  lemma HhdmKey(p: nat)
    ensures PageKey(HhdmAddress(p)) == (0x8_0000_0000 + p / PAGE_SIZE) % 0x10_0000_0000
    ensures p < HHDM_LIMIT ==> HhdmAddress(p) == HHDM_VIRT_BASE + p
  {
    var v := HHDM_VIRT_BASE + p;
    assert v / 0x1000 == 0xF_FFF8_0000_0000 + p / 0x1000;
    HhdmPageNumber(p / 0x1000);
    KeyOfWrapped(v);
  }

  lemma HhdmPageNumber(x: nat)
    ensures (0xF_FFF8_0000_0000 + x) % 0x10_0000_0000 == (0x8_0000_0000 + x) % 0x10_0000_0000
  {
    var y := 0x8_0000_0000 + x;
    Bits.DivisionOf(y, 0x10_0000_0000);
    Bits.DivUnique(0xF_FFF8_0000_0000 + x, 0x10_0000_0000, 0xFFFF + y / 0x10_0000_0000, y % 0x10_0000_0000);
  }

  lemma KeyOfWrapped(v: nat)
    ensures PageKey(v % U64) == PageKey(v)
  {
    var q, r := v / U64, v % U64;
    assert v == U64 * q + r;
    assert v / 0x1000 == 0x10_0000_0000_0000 * q + r / 0x1000;
    Bits.DivUnique(v / 0x1000, 0x10_0000_0000, 0x1_0000 * q + r / 0x1000 / 0x10_0000_0000, r / 0x1000 % 0x10_0000_0000);
  }

  /** What the leaf for physical page p decodes to under the given policy. */
  function LeafAt(c: Codec, p: nat, perms: Permissions, cache: CachePolicy): Option<Target> {
    c.format.hwPage(c.leafEntry(ToWord(p), c.leafAttrs(perms, cache)))
  }

  /** The mapping both `HhdmMapping` and `FramebufferMapping` make of a range. */
  function RangeMapping(r: PhysRange, perms: Permissions, cache: CachePolicy): Mapping {
    Mapping(HhdmAddress(r.physBase), r.physBase, r.length, perms, cache)
  }

  lemma EntryOfPage(c: Codec, pa: nat, attrs: bv64)
    requires OffsetBlind(c)
    ensures c.leafEntry(ToWord(pa), attrs) == c.leafEntry(ToWord(pa - pa % PAGE_SIZE), attrs)
  {
    PageOfWord(pa);
  }

  /** Page i of a range, as a physical address: in the page p, at the offset of the range's base. */
  lemma PageAddress(base: nat, p: nat, i: nat)
    requires p % PAGE_SIZE == 0 && base / PAGE_SIZE + i == p / PAGE_SIZE
    ensures var pa := base + i * PAGE_SIZE; pa - pa % PAGE_SIZE == p
  {
    var pa := base + i * PAGE_SIZE;
    assert pa == p + base % PAGE_SIZE;
  }

  /** The mapping covers v exactly when the range holds p, and then translates it to t. */
  ghost predicate MappingSays(c: Codec, m: Mapping, v: nat, r: PhysRange, p: nat, t: Option<Target>) {
    && (PageFor(m, v).Some? <==> Holds(r, p))
    && (PageFor(m, v).Some? ==> Installed(c, PageStep(c, m, PageFor(m, v).value)) == t)
  }

  lemma PageInstalled(c: Codec, r: PhysRange, perms: Permissions, cache: CachePolicy, p: nat, i: nat)
    requires OffsetBlind(c) && p % PAGE_SIZE == 0 && r.physBase / PAGE_SIZE + i == p / PAGE_SIZE
    ensures Installed(c, PageStep(c, RangeMapping(r, perms, cache), i)) == LeafAt(c, p, perms, cache)
  {
    PageAddress(r.physBase, p, i);
    EntryOfPage(c, r.physBase + i * PAGE_SIZE, c.leafAttrs(perms, cache));
  }

  lemma RangeStep(c: Codec, r: PhysRange, perms: Permissions, cache: CachePolicy, p: nat)
    requires OffsetBlind(c) && FitsHhdm(r) && p % PAGE_SIZE == 0 && p < HHDM_LIMIT
    ensures MappingSays(c, RangeMapping(r, perms, cache), HHDM_VIRT_BASE + p, r, p, LeafAt(c, p, perms, cache))
  {
    HhdmPageFor(RangeMapping(r, perms, cache), r, p);
    if Holds(r, p) {
      PageInstalled(c, r, perms, cache, p, p / PAGE_SIZE - r.physBase / PAGE_SIZE);
    }
  }

  /** From index n on, the plan holds the mappings of the given ranges. */
  ghost predicate EndsWith(ms: seq<Mapping>, n: nat, rs: seq<PhysRange>, perms: Permissions, cache: CachePolicy) {
    n + |rs| == |ms| && forall j :: 0 <= j < |rs| ==> ms[n + j] == RangeMapping(rs[j], perms, cache)
  }

  /** A plan that ends with the mappings of some ranges: those ranges decide the pages they hold, and only those. */
  lemma RangesDecide(c: Codec, ms: seq<Mapping>, n: nat, rs: seq<PhysRange>, perms: Permissions, cache: CachePolicy,
                     p: nat)
    requires EndsWith(ms, n, rs, perms, cache)
    requires OffsetBlind(c) && forall r :: r in rs ==> FitsHhdm(r)
    requires p % PAGE_SIZE == 0 && p < HHDM_LIMIT
    ensures PlanTranslation(c, ms, HHDM_VIRT_BASE + p)
         == if exists r :: r in rs && Holds(r, p) then LeafAt(c, p, perms, cache)
            else PlanTranslation(c, ms[..n], HHDM_VIRT_BASE + p)
  {
    var v, t := HHDM_VIRT_BASE + p, LeafAt(c, p, perms, cache);
    forall j | n <= j < |ms| ensures MappingSays(c, ms[j], v, rs[j - n], p, t) {
      assert rs[j - n] in rs && ms[n + (j - n)] == RangeMapping(rs[j - n], perms, cache);
      RangeStep(c, rs[j - n], perms, cache, p);
    }
    if r :| r in rs && Holds(r, p) {
      var k :| 0 <= k < |rs| && rs[k] == r;
      TailDecides(c, ms, n, n + k, v, t);
    } else {
      TailSilent(c, ms, n, v);
    }
  }

  /**
   Framebuffer pages translate with the framebuffer policy even where the direct map also covers them; every
   other direct-map page translates with the direct-map policy; both to their own physical page.
   */
  lemma HhdmTranslation(c: Codec, phdrs: seq<KernelPhdr>, hhdm: seq<PhysRange>, fbs: seq<PhysRange>, p: nat)
    requires OffsetBlind(c) && forall r :: r in hhdm || r in fbs ==> FitsHhdm(r)
    requires p % PAGE_SIZE == 0 && p < HHDM_LIMIT
    ensures var t := PlanTranslation(c, PlanOf(phdrs, hhdm, fbs), HHDM_VIRT_BASE + p);
            && ((exists r :: r in fbs && Holds(r, p)) ==> t == LeafAt(c, p, MMIO, WriteCombining))
            && ((forall r :: r in fbs ==> !Holds(r, p)) && (exists r :: r in hhdm && Holds(r, p))
                ==> t == LeafAt(c, p, KERNEL_DATA, WriteBack))
  {
    FramebuffersDecide(c, phdrs, hhdm, fbs, p);
    if exists r :: r in hhdm && Holds(r, p) {
      DirectMapDecides(c, phdrs, hhdm, fbs, p);
    }
  }

  lemma FramebuffersDecide(c: Codec, phdrs: seq<KernelPhdr>, hhdm: seq<PhysRange>, fbs: seq<PhysRange>, p: nat)
    requires OffsetBlind(c) && forall r :: r in fbs ==> FitsHhdm(r)
    requires p % PAGE_SIZE == 0 && p < HHDM_LIMIT
    ensures var plan, h := PlanOf(phdrs, hhdm, fbs), |phdrs| + |hhdm|;
            PlanTranslation(c, plan, HHDM_VIRT_BASE + p)
            == if exists r :: r in fbs && Holds(r, p) then LeafAt(c, p, MMIO, WriteCombining)
               else PlanTranslation(c, plan[..h], HHDM_VIRT_BASE + p)
  {
    PlanShape(phdrs, hhdm, fbs);
    RangesDecide(c, PlanOf(phdrs, hhdm, fbs), |phdrs| + |hhdm|, fbs, MMIO, WriteCombining, p);
  }

  lemma DirectMapDecides(c: Codec, phdrs: seq<KernelPhdr>, hhdm: seq<PhysRange>, fbs: seq<PhysRange>, p: nat)
    requires OffsetBlind(c) && forall r :: r in hhdm ==> FitsHhdm(r)
    requires p % PAGE_SIZE == 0 && p < HHDM_LIMIT && exists r :: r in hhdm && Holds(r, p)
    ensures var plan, h := PlanOf(phdrs, hhdm, fbs), |phdrs| + |hhdm|;
            PlanTranslation(c, plan[..h], HHDM_VIRT_BASE + p) == LeafAt(c, p, KERNEL_DATA, WriteBack)
  {
    PlanShape(phdrs, hhdm, fbs);
    RangesDecide(c, PlanOf(phdrs, hhdm, fbs)[..|phdrs| + |hhdm|], |phdrs|, hhdm, KERNEL_DATA, WriteBack, p);
  }

  lemma PlanShape(phdrs: seq<KernelPhdr>, hhdm: seq<PhysRange>, fbs: seq<PhysRange>)
    ensures var plan, h := PlanOf(phdrs, hhdm, fbs), |phdrs| + |hhdm|;
            && EndsWith(plan, h, fbs, MMIO, WriteCombining)
            && EndsWith(plan[..h], |phdrs|, hhdm, KERNEL_DATA, WriteBack)
  {
  }

  /**
   The decoded view of physical page p: its own page, of the given kind of memory, for the kernel to read and write, not
   to execute.
   */
  predicate SeesPage(a: Arch, t: Option<Target>, p: nat, kind: MemoryKind) {
    t.Some? && t.value.page as int == p && KindOf(a, t.value.memType) == kind
    && t.value.read && t.value.write && !t.value.exec && !t.value.user
  }

  /**
   Framebuffer pages are seen as what the architecture gives write-combining memory (on AArch64, a device), all other
   direct-map pages as write-back memory.
   */
  ghost predicate PageSeen(a: Arch, t: Option<Target>, p: nat, hhdm: seq<PhysRange>, fbs: seq<PhysRange>) {
    && ((exists r :: r in fbs && Holds(r, p)) ==> SeesPage(a, t, p, GivenKind(a, WriteCombining)))
    && ((forall r :: r in fbs ==> !Holds(r, p)) && (exists r :: r in hhdm && Holds(r, p))
        ==> SeesPage(a, t, p, CachedWriteBack))
  }

  ghost predicate PagesSeen(b: PageTableBuilder, a: Arch, hhdm: seq<PhysRange>, fbs: seq<PhysRange>)
    reads b
  {
    forall p: nat :: p % PAGE_SIZE == 0 && p < HHDM_LIMIT ==>
      PageSeen(a, b.Translate(HHDM_VIRT_BASE + p), p, hhdm, fbs)
  }

  /** Nothing of a direct-map page address is lost in an entry's address field. */
  lemma PageKept(a: Arch, p: nat)
    requires p % PAGE_SIZE == 0 && p < HHDM_LIMIT
    ensures PageField(a, ToWord(p)) as int == p
  {
    PageFieldValue(a, p);
  }

  lemma HhdmSeen(a: Arch, phdrs: seq<KernelPhdr>, hhdm: seq<PhysRange>, fbs: seq<PhysRange>, p: nat)
    requires forall r :: r in hhdm || r in fbs ==> FitsHhdm(r)
    requires p % PAGE_SIZE == 0 && p < HHDM_LIMIT
    ensures PageSeen(a, PlanTranslation(CodecOf(a), PlanOf(phdrs, hhdm, fbs), HHDM_VIRT_BASE + p), p, hhdm, fbs)
  {
    LeafIgnoresOffset(a);
    HhdmTranslation(CodecOf(a), phdrs, hhdm, fbs, p);
    LeafSeen(a, p, MMIO, WriteCombining);
    LeafSeen(a, p, KERNEL_DATA, WriteBack);
  }

  /** A leaf for page p with kernel data permissions. */
  lemma LeafSeen(a: Arch, p: nat, perms: Permissions, cache: CachePolicy)
    requires p % PAGE_SIZE == 0 && p < HHDM_LIMIT && perms.readable && perms.writable && !perms.executable
             && !perms.user
    ensures SeesPage(a, LeafAt(CodecOf(a), p, perms, cache), p, GivenKind(a, cache))
  {
    PageKept(a, p);
    LeafDecodes(a, ToWord(p), perms, cache);
    KindGiven(a, cache);
  }

  lemma {:induction false} StepIn(c: Codec, ms: seq<Mapping>, j: nat, i: nat)
    requires j < |ms| && i < PageCount(ms[j])
    ensures PageStep(c, ms[j], i) in PlanSteps(c, ms)
    decreases |ms|
  {
    if j == |ms| - 1 {
      assert PageSteps(c, ms[j], PageCount(ms[j]))[i] == PageStep(c, ms[j], i);
    } else {
      StepIn(c, ms[..|ms| - 1], j, i);
    }
  }

  lemma LastPageFits(base: nat, n: nat)
    requires base < HHDM_LIMIT && n > 0 && HHDM_VIRT_BASE + base + (n - 1) * PAGE_SIZE < U64
    ensures base / PAGE_SIZE + n <= 0x8_0000_0000
  {
  }

  /** Every range has its mapping in the plan. */
  lemma RangePlanned(phdrs: seq<KernelPhdr>, hhdm: seq<PhysRange>, fbs: seq<PhysRange>, r: PhysRange) returns (j: nat)
    requires r in hhdm || r in fbs
    ensures var plan := PlanOf(phdrs, hhdm, fbs);
            && j < |plan| && plan[j].virtBase == HhdmAddress(r.physBase) && plan[j].physBase == r.physBase
            && plan[j].length == r.length
  {
    var h := |phdrs| + |hhdm|;
    PlanShape(phdrs, hhdm, fbs);
    if r in hhdm {
      var k :| 0 <= k < |hhdm| && hhdm[k] == r;
      j := |phdrs| + k;
      assert PlanOf(phdrs, hhdm, fbs)[j] == PlanOf(phdrs, hhdm, fbs)[..h][|phdrs| + k];
    } else {
      var k :| 0 <= k < |fbs| && fbs[k] == r;
      j := h + k;
    }
  }

  /** A plan whose address computations all succeeded stays inside the direct map. */
  lemma SuccessFits(c: Codec, phdrs: seq<KernelPhdr>, hhdm: seq<PhysRange>, fbs: seq<PhysRange>, r: PhysRange)
    requires r in hhdm || r in fbs
    requires r.physBase < HHDM_LIMIT
    requires AllInRange(PlanSteps(c, PlanOf(phdrs, hhdm, fbs)))
    ensures FitsHhdm(r)
  {
    var plan := PlanOf(phdrs, hhdm, fbs);
    var j := RangePlanned(phdrs, hhdm, fbs, r);
    var n := PageCount(plan[j]);
    if n > 0 {
      StepIn(c, plan, j, n - 1);
      StepFits(c, plan[j], r, n);
    }
  }

  lemma StepFits(c: Codec, m: Mapping, r: PhysRange, n: nat)
    requires n > 0 && n == PageCount(m) && InRange(PageStep(c, m, n - 1)) && r.physBase < HHDM_LIMIT
    requires m.virtBase == HhdmAddress(r.physBase) && m.length == r.length
    ensures FitsHhdm(r)
  {
    LastPageFits(r.physBase, n);
  }

  /** Every range starts below the size of the direct map, or at least ends at or below 2^48. */
  predicate BasesBelow(hhdm: seq<PhysRange>, fbs: seq<PhysRange>) {
    && (forall r :: r in hhdm ==> r.physBase < HHDM_LIMIT || FitsHhdm(r))
    && (forall r :: r in fbs ==> r.physBase < HHDM_LIMIT || FitsHhdm(r))
  }

  /** One of the allocator's first answers, up to answer n, is a failure. */
  ghost predicate FrameMissing(frames: nat -> Option<bv64>, n: nat) {
    exists k: nat :: k <= n && frames(k) == None
  }

  /** Build tables for a plan from nothing; on success every address translates as its last covering mapping says. */
  method BuildTables(c: Codec, frames: nat -> Option<bv64>, mem: Memory<bv64, nat>, plan: seq<Mapping>)
    returns (b: PageTableBuilder?)
    requires Lawful(c.format) && FramesFresh(c, frames, 0, {})
    ensures b != null ==> fresh(b) && b.Valid() && b.codec == c && AllInRange(PlanSteps(c, plan))
    ensures b != null ==> forall v: nat :: b.Translate(v) == PlanTranslation(c, plan, v)
    ensures b == null ==> FrameMissing(frames, 3 * |PlanSteps(c, plan)|) || !AllInRange(PlanSteps(c, plan))
  {
    b := PageTableBuilder.New(c, frames, mem);
    if b == null { return; }
    label Empty:
    var ok; ghost var done;
    ok, done := b.Apply(plan);
    if !ok {
      assert b.pos >= 1 && b.pos - 1 <= 3 * |PlanSteps(c, plan)|;
      return null;
    }
    assert PlanSteps(c, plan)[..done] == PlanSteps(c, plan);
    forall v: nat ensures b.Translate(v) == PlanTranslation(c, plan, v) {
      assert old@Empty(b.Translate(v)) == None;
      PlanOverlay(c, plan, v);
    }
  }

  /** Plan and build the tables; on success every direct-map page has the translation and policy it was planned with. */
  method MapAddressSpace(a: Arch, frames: nat -> Option<bv64>, mem: Memory<bv64, nat>,
                         phdrs: seq<KernelPhdr>, hhdm: seq<PhysRange>, fbs: seq<PhysRange>)
    returns (b: PageTableBuilder?)
    requires FramesFresh(CodecOf(a), frames, 0, {})
    ensures b != null ==> fresh(b) && b.Valid()
    ensures b != null ==> forall v: nat :: b.Translate(v) == PlanTranslation(CodecOf(a), PlanOf(phdrs, hhdm, fbs), v)
    ensures b == null ==>
              var steps := PlanSteps(CodecOf(a), PlanOf(phdrs, hhdm, fbs));
              FrameMissing(frames, 3 * |steps|) || !AllInRange(steps)
    ensures b != null ==> forall v: nat :: AddressSeen(a, phdrs, hhdm, fbs, v, b.Translate(v))
    ensures b != null && BasesBelow(hhdm, fbs) ==> PagesSeen(b, a, hhdm, fbs)
  {
    CodecLawful(a);
    var plan := Build(phdrs, hhdm, fbs);
    b := BuildTables(CodecOf(a), frames, mem, plan);
    AllLeavesSeen(a);
    forall v: nat | b != null ensures AddressSeen(a, phdrs, hhdm, fbs, v, b.Translate(v)) {
      PlanSeen(a, CodecOf(a), phdrs, hhdm, fbs, v, b.Translate(v));
    }
    if b != null && BasesBelow(hhdm, fbs) {
      forall p: nat | p % PAGE_SIZE == 0 && p < HHDM_LIMIT
        ensures PageSeen(a, b.Translate(HHDM_VIRT_BASE + p), p, hhdm, fbs)
      {
        PlannedSeen(a, phdrs, hhdm, fbs, p);
      }
    }
  }

  lemma PlannedSeen(a: Arch, phdrs: seq<KernelPhdr>, hhdm: seq<PhysRange>, fbs: seq<PhysRange>, p: nat)
    requires AllInRange(PlanSteps(CodecOf(a), PlanOf(phdrs, hhdm, fbs))) && BasesBelow(hhdm, fbs)
    requires p % PAGE_SIZE == 0 && p < HHDM_LIMIT
    ensures PageSeen(a, PlanTranslation(CodecOf(a), PlanOf(phdrs, hhdm, fbs), HHDM_VIRT_BASE + p), p, hhdm, fbs)
  {
    forall r | r in hhdm || r in fbs ensures FitsHhdm(r) {
      if r.physBase < HHDM_LIMIT { SuccessFits(CodecOf(a), phdrs, hhdm, fbs, r); }
    }
    HhdmSeen(a, phdrs, hhdm, fbs, p);
  }
}
