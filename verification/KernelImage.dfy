/**
 Where the kernel's segments end up: every page of a segment that nothing later in the plan covers is seen where its
 header says, with the header's rights; and an address nothing covers is not mapped.  Stated on the headers and ranges
 themselves, not on the plan made from them.
 */
module KernelImage {
  import opened Options
  import opened Machine
  import opened Words
  import opened RadixTable
  import opened Vmm
  import opened EntryFormats
  import opened PageTables

  /** How many pages a length takes. */
  function Pages(length: nat): nat {
    (length + 4095) / 4096
  }

  /** No page from page `from` on of what is mapped at `base` has this page key. */
  ghost predicate Misses(base: nat, length: nat, from: nat, key: nat) {
    forall i: nat :: from <= i < Pages(length) ==> PageKey(base + i * 4096) != key
  }

  /** Where the direct map and the framebuffers put a physical address. */
  function HigherHalf(phys: nat): nat {
    (0xFFFF_8000_0000_0000 + phys) % 0x1_0000_0000_0000_0000
  }

  ghost predicate RangesMiss(rs: seq<PhysRange>, key: nat) {
    forall j :: 0 <= j < |rs| ==> Misses(HigherHalf(rs[j].physBase), rs[j].length, 0, key)
  }

  /** No segment from segment n on has a page with this key. */
  ghost predicate SegmentsMiss(phdrs: seq<KernelPhdr>, n: nat, key: nat) {
    forall j :: n <= j < |phdrs| ==> Misses(phdrs[j].virtAddr, phdrs[j].length, 0, key)
  }

  /** Nothing behind page i of segment k has the page's bits 47..12. */
  ghost predicate Uncovered(phdrs: seq<KernelPhdr>, hhdm: seq<PhysRange>, fbs: seq<PhysRange>, k: nat, i: nat)
    requires k < |phdrs|
  {
    var key := PageKey(phdrs[k].virtAddr + i * 4096);
    && Misses(phdrs[k].virtAddr, phdrs[k].length, i + 1, key) && SegmentsMiss(phdrs, k + 1, key)
    && RangesMiss(hhdm, key) && RangesMiss(fbs, key)
  }

  /** No page at all has this page key. */
  ghost predicate NothingAt(phdrs: seq<KernelPhdr>, hhdm: seq<PhysRange>, fbs: seq<PhysRange>, key: nat) {
    SegmentsMiss(phdrs, 0, key) && RangesMiss(hhdm, key) && RangesMiss(fbs, key)
  }

  /** RISC-V reserves write without read, and leaves with neither read nor execute. */
  predicate Reserved(p: Permissions) {
    !p.readable && (p.writable || !p.executable)
  }

  /**
   The decoded view of a page at physical address pa: its own page, as far as the entry's address field reaches,
   write-back memory, and the given rights, as far as the architecture can express them.
   */
  predicate Seen(a: Arch, t: Option<Target>, pa: nat, p: Permissions) {
    if a == RiscV64 && Reserved(p) then t == None
    else
      && t.Some? && t.value.page == PageField(a, ToWord(pa))
      && (pa < AddressLimit(a) ==> t.value.page as int == pa - pa % 4096)
      && KindOf(a, t.value.memType) == CachedWriteBack
      && t.value.write == p.writable && t.value.exec == p.executable
      && t.value.read == (a == RiscV64 ==> p.readable) && t.value.user == (a != AArch64 && p.user)
  }

  /** Page i of segment k is the one that decides the translation of v. */
  ghost predicate Decides(phdrs: seq<KernelPhdr>, hhdm: seq<PhysRange>, fbs: seq<PhysRange>, v: nat, k: nat, i: nat) {
    && k < |phdrs| && i < Pages(phdrs[k].length) && PageKey(v) == PageKey(phdrs[k].virtAddr + i * 4096)
    && Uncovered(phdrs, hhdm, fbs, k, i)
  }

  /** What the kernel image and the emptiness around it say about the translation t of an address v. */
  ghost predicate AddressSeen(a: Arch, phdrs: seq<KernelPhdr>, hhdm: seq<PhysRange>, fbs: seq<PhysRange>, v: nat,
                              t: Option<Target>) {
    && (forall k: nat, i: nat :: Decides(phdrs, hhdm, fbs, v, k, i) ==>
          Seen(a, t, phdrs[k].physAddr + i * 4096, phdrs[k].perms))
    && (NothingAt(phdrs, hhdm, fbs, PageKey(v)) ==> t == None)
  }

  // ---- From the plan ----

  lemma MissedMapping(m: Mapping, v: nat)
    requires Misses(m.virtBase, m.length, 0, PageKey(v))
    ensures PageFor(m, v) == None
  {
    PageForIsLast(m, v);
  }

  lemma LastPage(m: Mapping, v: nat, i: nat)
    requires i < Pages(m.length) && PageKey(v) == PageKey(m.virtBase + i * 4096)
    requires Misses(m.virtBase, m.length, i + 1, PageKey(v))
    ensures PageFor(m, v) == Some(i)
  {
    PageForIsLast(m, v);
  }

  /** Behind the mappings of the first n segments the plan is silent about v. */
  lemma PlanMisses(phdrs: seq<KernelPhdr>, hhdm: seq<PhysRange>, fbs: seq<PhysRange>, n: nat, v: nat)
    requires SegmentsMiss(phdrs, n, PageKey(v)) && RangesMiss(hhdm, PageKey(v)) && RangesMiss(fbs, PageKey(v))
    ensures var plan := PlanOf(phdrs, hhdm, fbs); forall j :: n <= j < |plan| ==> PageFor(plan[j], v) == None
  {
    var plan, h := PlanOf(phdrs, hhdm, fbs), |phdrs| + |hhdm|;
    forall j | n <= j < |plan| ensures PageFor(plan[j], v) == None {
      if j < |phdrs| {
        assert plan[j] == PhdrMapping(phdrs[j]);
      } else if j < h {
        assert plan[j] == HhdmMapping(hhdm[j - |phdrs|]);
      } else {
        assert plan[j] == FramebufferMapping(fbs[j - h]);
      }
      MissedMapping(plan[j], v);
    }
  }

  lemma LastDecides(c: Codec, plan: seq<Mapping>, v: nat, k: nat, i: nat)
    requires k < |plan| && PageFor(plan[k], v) == Some(i)
    requires forall j :: k < j < |plan| ==> PageFor(plan[j], v) == None
    ensures PlanTranslation(c, plan, v) == Installed(c, PageStep(c, plan[k], i))
  {
    TailDecides(c, plan, k, k, v, Installed(c, PageStep(c, plan[k], i)));
  }

  lemma SegmentDecides(c: Codec, phdrs: seq<KernelPhdr>, hhdm: seq<PhysRange>, fbs: seq<PhysRange>, v: nat, k: nat,
                       i: nat)
    requires Decides(phdrs, hhdm, fbs, v, k, i)
    ensures var h := phdrs[k];
            PlanTranslation(c, PlanOf(phdrs, hhdm, fbs), v) == SegmentLeaf(c, h.physAddr + i * 4096, h.perms)
  {
    var plan := PlanOf(phdrs, hhdm, fbs);
    assert plan[k] == PhdrMapping(phdrs[k]);
    LastPage(plan[k], v, i);
    PlanMisses(phdrs, hhdm, fbs, k + 1, v);
    LastDecides(c, plan, v, k, i);
  }

  function SegmentLeaf(c: Codec, pa: nat, p: Permissions): Option<Target> {
    c.format.hwPage(c.leafEntry(ToWord(pa), c.leafAttrs(p, WriteBack)))
  }

  /** What every write-back leaf decodes to. */
  ghost predicate LeavesSeen(a: Arch, c: Codec) {
    forall pa: nat, p :: Seen(a, SegmentLeaf(c, pa, p), pa, p)
  }

  lemma LeafSeen(a: Arch, pa: nat, p: Permissions)
    ensures Seen(a, SegmentLeaf(CodecOf(a), pa, p), pa, p)
  {
    LeafDecodes(a, ToWord(pa), p, WriteBack);
    KindGiven(a, WriteBack);
    if pa < AddressLimit(a) { PageFieldValue(a, pa); }
  }

  lemma AllLeavesSeen(a: Arch)
    ensures LeavesSeen(a, CodecOf(a))
  {
    forall pa: nat, p ensures Seen(a, SegmentLeaf(CodecOf(a), pa, p), pa, p) { LeafSeen(a, pa, p); }
  }

  lemma NothingSeen(c: Codec, phdrs: seq<KernelPhdr>, hhdm: seq<PhysRange>, fbs: seq<PhysRange>, v: nat)
    requires NothingAt(phdrs, hhdm, fbs, PageKey(v))
    ensures PlanTranslation(c, PlanOf(phdrs, hhdm, fbs), v) == None
  {
    PlanMisses(phdrs, hhdm, fbs, 0, v);
    TailSilent(c, PlanOf(phdrs, hhdm, fbs), 0, v);
  }

  /** Every address, through the tables of the whole plan. */
  lemma PlanSeen(a: Arch, c: Codec, phdrs: seq<KernelPhdr>, hhdm: seq<PhysRange>, fbs: seq<PhysRange>, v: nat,
                 t: Option<Target>)
    requires LeavesSeen(a, c) && t == PlanTranslation(c, PlanOf(phdrs, hhdm, fbs), v)
    ensures AddressSeen(a, phdrs, hhdm, fbs, v, t)
  {
    forall k: nat, i: nat | Decides(phdrs, hhdm, fbs, v, k, i)
      ensures Seen(a, t, phdrs[k].physAddr + i * 4096, phdrs[k].perms)
    {
      SegmentDecides(c, phdrs, hhdm, fbs, v, k, i);
      assert t == SegmentLeaf(c, phdrs[k].physAddr + i * 4096, phdrs[k].perms);
    }
    if NothingAt(phdrs, hhdm, fbs, PageKey(v)) { NothingSeen(c, phdrs, hhdm, fbs, v); }
  }
}
