/**
 Which type an address has after normalization, stated on the firmware's entries and the order of precedence of the
 types, for every map.
 */
module MapKinds {
  import opened Machine
  import opened MemoryMap
  import opened Normalize

  /** The types in order of precedence: where entries overlap, the one that stands last wins. */
  const PRECEDENCE: seq<MemoryType> :=
    [Usable, BootloaderReclaimable, AcpiReclaimable, AcpiNvs, Reserved, Framebuffer, KernelAndModules, BadMemory]

  predicate NotAfter(k: MemoryType, l: MemoryType) {
    exists i, j :: 0 <= i <= j < 8 && PRECEDENCE[i] == k && PRECEDENCE[j] == l
  }

  /**
   A firmware entry reaches an address: it holds the whole page around it or, if its base lies in the last partial page
   of the address space, wraps around to cover everything below that page.
   */
  predicate Reaches(e: Region, a: nat) {
    var p := a - a % 4096;
    || (e.base <= p && p + 4096 <= e.base + e.length && p + 4096 < 0x1_0000_0000_0000_0000)
    || (e.base > 0xFFFF_FFFF_FFFF_F000 && a < 0xFFFF_FFFF_FFFF_F000)
  }

  /** Some entry of type k reaches a. */
  predicate Reported(raw: seq<Region>, a: nat, k: MemoryType) {
    exists i :: 0 <= i < |raw| && raw[i].kind == k && Reaches(raw[i], a)
  }

  /** Of the types reported for a, k stands last in the order of precedence. */
  predicate Foremost(raw: seq<Region>, a: nat, k: MemoryType) {
    Reported(raw, a, k) && forall l :: Reported(raw, a, l) ==> NotAfter(l, k)
  }

  /** Some region of type k covers a. */
  predicate Present(out: seq<Region>, a: nat, k: MemoryType) {
    exists i :: 0 <= i < |out| && out[i].kind == k && out[i].base <= a < out[i].base + out[i].length
  }

  predicate Topmost(out: seq<Region>, a: nat, k: MemoryType) {
    Present(out, a, k) && forall l :: Present(out, a, l) ==> NotAfter(l, k)
  }

  // ---- Precedence and priority ----

  lemma PlaceOf(k: MemoryType)
    ensures Priority(k) < 8 && PRECEDENCE[Priority(k)] == k
    ensures forall i :: 0 <= i < 8 && PRECEDENCE[i] == k ==> i == Priority(k)
  {
  }

  lemma NotAfterIff(k: MemoryType, l: MemoryType)
    ensures NotAfter(k, l) <==> Priority(k) <= Priority(l)
  {
    PlaceOf(k);
    PlaceOf(l);
  }

  // ---- The firmware's side ----

  /** The highest priority that reaches a, or -1. */
  function RawBest(raw: seq<Region>, a: nat): int {
    Max(PageBest(raw, AlignDown(a)), if a < U64 - PAGE_SIZE then WrappedBest(raw) else -1)
  }

  lemma ReachesIff(e: Region, a: nat)
    requires RawEntry(e)
    ensures Reaches(e, a) <==> PageIn(e, AlignDown(a)) || (Wraps(e) && a < U64 - PAGE_SIZE)
  {
    var p := a - a % 4096;
    assert AlignDown(a) == p;
    assert p % 4096 == 0;
  }

  /** The priority with which one entry reaches a, or -1. */
  function ReachAt(e: Region, a: nat): int {
    if Reaches(e, a) then Priority(e.kind) else -1
  }

  lemma RawBestSnoc(raw: seq<Region>, a: nat)
    requires raw != [] && RawEntry(raw[|raw| - 1])
    ensures RawBest(raw, a) == Max(RawBest(raw[..|raw| - 1], a), ReachAt(raw[|raw| - 1], a))
  {
    ReachesIff(raw[|raw| - 1], a);
  }

  lemma {:induction false} RawBestMember(raw: seq<Region>, a: nat, i: nat)
    requires RawMap(raw) && i < |raw|
    ensures ReachAt(raw[i], a) <= RawBest(raw, a)
    decreases |raw|
  {
    RawBestSnoc(raw, a);
    if i < |raw| - 1 { RawBestMember(raw[..|raw| - 1], a, i); }
  }

  lemma {:induction false} RawBestWitness(raw: seq<Region>, a: nat) returns (i: nat)
    requires RawMap(raw) && RawBest(raw, a) >= 0
    ensures i < |raw| && Reaches(raw[i], a) && Priority(raw[i].kind) == RawBest(raw, a)
    decreases |raw|
  {
    RawBestSnoc(raw, a);
    i := |raw| - 1;
    if ReachAt(raw[i], a) != RawBest(raw, a) { i := RawBestWitness(raw[..i], a); }
  }

  /** The foremost type reported is the one with the highest priority. */
  lemma ForemostIff(raw: seq<Region>, a: nat, k: MemoryType)
    requires RawMap(raw)
    ensures Foremost(raw, a, k) <==> RawBest(raw, a) == Priority(k)
    ensures Reported(raw, a, k) ==> RawBest(raw, a) >= Priority(k)
  {
    forall l | Reported(raw, a, l) ensures Priority(l) <= RawBest(raw, a) {
      var i :| 0 <= i < |raw| && raw[i].kind == l && Reaches(raw[i], a);
      RawBestMember(raw, a, i);
    }
    forall l ensures NotAfter(l, k) <==> Priority(l) <= Priority(k) { NotAfterIff(l, k); }
    if RawBest(raw, a) >= 0 {
      var i := RawBestWitness(raw, a);
      assert Reported(raw, a, raw[i].kind);
      PlaceOf(raw[i].kind);
      PlaceOf(k);
    }
  }

  // ---- The output's side ----

  lemma TopmostIff(out: seq<Region>, a: nat, k: MemoryType)
    requires AllGood(out)
    ensures Topmost(out, a, k) <==> Best(out, a) == Priority(k)
    ensures Present(out, a, k) ==> Best(out, a) >= Priority(k)
  {
    forall l | Present(out, a, l) ensures Priority(l) <= Best(out, a) {
      var i :| 0 <= i < |out| && out[i].kind == l && out[i].base <= a < out[i].base + out[i].length;
      BestMember(out, i, a);
    }
    forall l ensures NotAfter(l, k) <==> Priority(l) <= Priority(k) { NotAfterIff(l, k); }
    if Best(out, a) >= 0 {
      var i := BestWitness(out, a);
      assert Present(out, a, out[i].kind);
      PlaceOf(out[i].kind);
      PlaceOf(k);
    }
  }

  // ---- The law ----

  /**
   For every firmware map, whatever overlaps or wraps: of the types the output has for an address, the one that takes
   precedence is the foremost of the types reported for it.
   */
  lemma NormalizedKind(raw: seq<Region>, a: nat, k: MemoryType)
    requires RawMap(raw)
    ensures Topmost(Normalized(raw), a, k) <==> Foremost(raw, a, k)
  {
    NormalizedShape(raw);
    NormalizedBest(raw, a);
    ForemostIff(raw, a, k);
    TopmostIff(Normalized(raw), a, k);
  }

  /** If the output's regions are apart, an address has one type, the foremost of those reported for it. */
  lemma ApartKind(raw: seq<Region>, a: nat, k: MemoryType)
    requires RawMap(raw) && PairwiseApart(Normalized(raw))
    ensures Present(Normalized(raw), a, k) <==> Foremost(raw, a, k)
  {
    NormalizedShape(raw);
    NormalizedKind(raw, a, k);
    if Present(Normalized(raw), a, k) { ApartTopmost(Normalized(raw), a, k); }
  }

  lemma ApartTopmost(out: seq<Region>, a: nat, k: MemoryType)
    requires AllGood(out) && PairwiseApart(out) && Present(out, a, k)
    ensures Topmost(out, a, k)
  {
    var i :| 0 <= i < |out| && out[i].kind == k && out[i].base <= a < out[i].base + out[i].length;
    TopmostIff(out, a, k);
    var j := BestWitness(out, a);
    assert i == j;
  }

  /** So it is whenever no entry is blocked. */
  lemma UnblockedKind(raw: seq<Region>, a: nat, k: MemoryType)
    requires RawMap(raw) && NeverBlocked(AlignAll(SortByBase(raw)))
    ensures Present(Normalized(raw), a, k) <==> Foremost(raw, a, k)
  {
    UnblockedNormalized(raw);
    ApartKind(raw, a, k);
  }

  /** In particular memory comes out usable exactly where entries report it, and all of them as usable. */
  lemma UsableIff(raw: seq<Region>, a: nat)
    requires RawMap(raw) && PairwiseApart(Normalized(raw))
    ensures Present(Normalized(raw), a, Usable)
       <==> (exists i :: 0 <= i < |raw| && Reaches(raw[i], a))
            && forall i :: 0 <= i < |raw| && Reaches(raw[i], a) ==> raw[i].kind == Usable
  {
    ApartKind(raw, a, Usable);
    forall l ensures NotAfter(l, Usable) <==> l == Usable {
      NotAfterIff(l, Usable);
      PlaceOf(l);
    }
    forall i | 0 <= i < |raw| && Reaches(raw[i], a) ensures Reported(raw, a, raw[i].kind) {}
  }
}
