/** Address-space planning: what to map, where, and with which policy. */
module Vmm {
  import opened Machine

  const PAGE_SIZE: nat := 4096
  const HHDM_VIRT_BASE: nat := 0xFFFF_8000_0000_0000

  datatype CachePolicy = WriteBack | WriteThrough | WriteCombining | Uncacheable

  datatype Permissions = Permissions(readable: bool, writable: bool, executable: bool, user: bool)

  const KERNEL_DATA := Permissions(true, true, false, false)
  const MMIO := Permissions(true, true, false, false)

  datatype Mapping = Mapping(virtBase: nat, physBase: nat, length: nat, perms: Permissions, cache: CachePolicy)

  datatype KernelPhdr = KernelPhdr(virtAddr: nat, physAddr: nat, length: nat, perms: Permissions)

  /** A physical range: an HHDM region or a framebuffer. */
  datatype PhysRange = PhysRange(physBase: nat, length: nat)

  /** `length.div_ceil(PAGE_SIZE)`. */
  function PageCount(m: Mapping): nat {
    (m.length + PAGE_SIZE - 1) / PAGE_SIZE
  }

  function PhdrMapping(p: KernelPhdr): Mapping {
    Mapping(p.virtAddr, p.physAddr, p.length, p.perms, WriteBack)
  }

  /** `HHDM_VIRT_BASE + phys_base`, which is unchecked and wraps. */
  function HhdmAddress(phys: nat): nat {
    (HHDM_VIRT_BASE + phys) % U64
  }

  function HhdmMapping(r: PhysRange): Mapping {
    Mapping(HhdmAddress(r.physBase), r.physBase, r.length, KERNEL_DATA, WriteBack)
  }

  function FramebufferMapping(r: PhysRange): Mapping {
    Mapping(HhdmAddress(r.physBase), r.physBase, r.length, MMIO, WriteCombining)
  }

  function PlanOf(phdrs: seq<KernelPhdr>, hhdm: seq<PhysRange>, fbs: seq<PhysRange>): seq<Mapping> {
    seq(|phdrs|, i requires 0 <= i < |phdrs| => PhdrMapping(phdrs[i]))
    + seq(|hhdm|, i requires 0 <= i < |hhdm| => HhdmMapping(hhdm[i]))
    + seq(|fbs|, i requires 0 <= i < |fbs| => FramebufferMapping(fbs[i]))
  }

  /** Kernel segments first, then the direct map, then framebuffers: later mappings override earlier ones. */
  method Build(phdrs: seq<KernelPhdr>, hhdm: seq<PhysRange>, fbs: seq<PhysRange>) returns (mappings: seq<Mapping>)
    ensures mappings == PlanOf(phdrs, hhdm, fbs)
  {
    mappings := [];
    for i := 0 to |phdrs|
      invariant mappings == seq(i, k requires 0 <= k < |phdrs| => PhdrMapping(phdrs[k]))
    {
      mappings := mappings + [PhdrMapping(phdrs[i])];
    }
    ghost var head := mappings;
    for i := 0 to |hhdm|
      invariant mappings == head + seq(i, k requires 0 <= k < |hhdm| => HhdmMapping(hhdm[k]))
    {
      mappings := mappings + [HhdmMapping(hhdm[i])];
    }
    head := mappings;
    for i := 0 to |fbs|
      invariant mappings == head + seq(i, k requires 0 <= k < |fbs| => FramebufferMapping(fbs[k]))
    {
      mappings := mappings + [FramebufferMapping(fbs[i])];
    }
  }
}
