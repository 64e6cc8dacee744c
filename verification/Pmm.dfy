/** The physical memory manager of `pmm.rs`: top-down page allocation and re-marking over a normalized map. */
module Pmm {
  import opened Machine
  import opened Options
  import opened MemoryMap
  import opened Normalize

  /** The manager's state: the memory map and the address below which the next allocation must lie. */
  datatype State = State(regions: seq<Region>, top: nat)

  /** Region ends do not saturate (empty regions are possible after an empty mark). */
  predicate Fits(rs: seq<Region>) {
    forall i :: 0 <= i < |rs| ==> rs[i].base + rs[i].length < U64
  }

  // ---- Allocation ----

  /** Region i of the map can hold a block of `size` bytes at b, below the previous allocation. */
  predicate HoldsBlock(s: State, size: nat, i: nat, b: nat) {
    && i < |s.regions| && s.regions[i].kind == Usable && b % PAGE_SIZE == 0
    && s.regions[i].base <= b && b + size <= Min(End(s.regions[i]), s.top)
  }

  ghost predicate Candidate(s: State, size: nat, b: nat) {
    exists i :: HoldsBlock(s, size, i, b)
  }

  /** What replaces region r when [b, b + size) is taken out of it. */
  function Parts(r: Region, b: nat, size: nat): seq<Region> {
    Span(r.base, b, Usable) + [Region(b, size, BootloaderReclaimable)] + Span(b + size, End(r), Usable)
  }

  function Split(rs: seq<Region>, i: nat, b: nat, size: nat): seq<Region>
    requires i < |rs| && rs[i].base <= b
  {
    rs[..i] + Parts(rs[i], b, size) + rs[i + 1..]
  }

  /** One `allocate_pages(count)`: the highest candidate block is taken, or nothing changes when there is none. */
  ghost predicate Allocates(s: State, count: nat, s': State, r: Option<nat>) {
    var size := count * PAGE_SIZE;
    if size == 0 || size >= U64 then r == None && s' == s
    else
      match r
      case None => s' == s && forall b: nat :: !Candidate(s, size, b)
      case Some(b) =>
        && (forall b': nat :: Candidate(s, size, b') ==> b' <= b)
        && exists i :: HoldsBlock(s, size, i, b) && s' == State(Split(s.regions, i, b, size), b)
  }

  // ---- Marking ----

  /** What becomes of region r when [base, end) is marked; for base <= end the middle length is never clipped. */
  function MarkOne(r: Region, base: nat, end: nat, kind: MemoryType): seq<Region> {
    if end <= r.base || base >= End(r) then [r]
    else
      (if r.base < base then [Region(r.base, base - r.base, r.kind)] else [])
      + [Region(Max(base, r.base), Max(Min(end, End(r)) - Max(base, r.base), 0), kind)]
      + (if End(r) > end then [Region(end, End(r) - end, r.kind)] else [])
  }

  function MarkAll(rs: seq<Region>, base: nat, end: nat, kind: MemoryType): seq<Region> {
    if rs == [] then [] else MarkAll(rs[..|rs| - 1], base, end, kind) + MarkOne(rs[|rs| - 1], base, end, kind)
  }

  /** `base.saturating_add(length)`. */
  function MarkEnd(base: nat, length: nat): nat {
    Min(base + length, U64 - 1)
  }

  // ---- Accounting ----

  function TotalUsable(rs: seq<Region>): nat {
    if rs == [] then 0
    else TotalUsable(rs[..|rs| - 1]) + if rs[|rs| - 1].kind == Usable then rs[|rs| - 1].length else 0
  }

  lemma {:induction false} TotalConcat(s: seq<Region>, t: seq<Region>)
    ensures TotalUsable(s + t) == TotalUsable(s) + TotalUsable(t)
  {
    if t == [] {
      assert s + t == s;
    } else {
      assert (s + t)[..|s + t| - 1] == s + t[..|t| - 1];
      TotalConcat(s, t[..|t| - 1]);
    }
  }

  lemma TotalOne(r: Region)
    ensures TotalUsable([r]) == if r.kind == Usable then r.length else 0
  {
    assert [r][..0] == [];
  }

  /** `top` is the highest end of a usable region, 0 when there is none. */
  ghost predicate IsUsableTop(rs: seq<Region>, top: nat) {
    && (forall i :: 0 <= i < |rs| && rs[i].kind == Usable ==> End(rs[i]) <= top)
    && (top == 0 || exists i :: 0 <= i < |rs| && rs[i].kind == Usable && End(rs[i]) == top)
  }

  method HighestUsableEnd(rs: seq<Region>) returns (top: nat)
    ensures IsUsableTop(rs, top)
  {
    top := 0;
    for i := 0 to |rs|
      invariant forall k :: 0 <= k < i && rs[k].kind == Usable ==> End(rs[k]) <= top
      invariant top == 0 || exists k :: 0 <= k < i && rs[k].kind == Usable && End(rs[k]) == top
    {
      if rs[i].kind == Usable && End(rs[i]) > top {
        top := End(rs[i]);
      }
    }
  }

  /** In a disjoint map the usable bytes fit below the last end. */
  lemma {:induction false} TotalBelow(rs: seq<Region>, limit: nat)
    requires Fits(rs) && Disjoint(rs) && forall i :: 0 <= i < |rs| ==> End(rs[i]) <= limit
    ensures TotalUsable(rs) <= limit
  {
    if rs != [] { TotalBelow(rs[..|rs| - 1], rs[|rs| - 1].base); }
  }

  lemma TotalFour(a: Region, b: Region, c: Region, d: Region)
    requires a.kind == Usable && b.kind != Usable && c.kind == Usable && d.kind == Usable
    ensures TotalUsable([a, b, c, d]) == a.length + c.length + d.length
  {
    TotalConcat([a] + [b] + [c], [d]);
    TotalConcat([a] + [b], [c]);
    TotalConcat([a], [b]);
    TotalOne(a);
    TotalOne(b);
    TotalOne(c);
    TotalOne(d);
    assert [a] + [b] + [c] + [d] == [a, b, c, d];
  }

  /** Two large usable entries around a hole: the bytes behind the hole count twice. */
  lemma NestedTotal(x: Region, k: Region, n: Region)
    requires Nested(x, k, n) && x.base < k.base && x.kind == Usable && n.kind == Usable
    requires AlignEntry(x) == x && AlignEntry(k) == k && AlignEntry(n) == n
    ensures TotalUsable(Normalized([x, k, n])) == (k.base - x.base) + (End(x) - End(k)) + (End(n) - End(k))
  {
    var out := [Front(x, k), k, Behind(x, k), Behind(n, k)];
    NestedResolved(x, k, n);
    NormalizedPlain([x, k, n]);
    AlreadyMerged(out);
    TotalFour(out[0], out[1], out[2], out[3]);
  }

  /** So the 64-bit sum of an overlapping map can wrap. */
  lemma UsableTotalWraps()
    ensures var x, k, n := Region(0, U64 - 0x1000, Usable), Region(0x2000, 0x2000, Reserved),
            Region(0x3000, U64 - 0x4000, Usable);
            TotalUsable(Normalized([x, k, n])) >= U64
  {
    NestedTotal(Region(0, U64 - 0x1000, Usable), Region(0x2000, 0x2000, Reserved),
                Region(0x3000, U64 - 0x4000, Usable));
  }

  /** `insert` at the end of the middle part. */
  lemma InsertBetween(head: seq<Region>, mid: seq<Region>, tail: seq<Region>, r: Region)
    ensures var all, at := head + mid + tail, |head| + |mid|;
            all[..at] + [r] + all[at..] == head + (mid + [r]) + tail
  {
    var all, at := head + mid + tail, |head| + |mid|;
    assert all[..at] == head + mid && all[at..] == tail;
  }

  class Manager {
    var regions: seq<Region>
    var allocTop: nat

    ghost function Now(): State
      reads this
    {
      State(regions, allocTop)
    }

    ghost predicate Valid()
      reads this
    {
      Fits(regions)
    }

    /** Normalizes the firmware map; allocation starts below the highest usable end. */
    constructor (raw: seq<Region>)
      requires RawMap(raw)
      ensures Valid() && regions == Normalized(raw)
      ensures IsUsableTop(regions, allocTop)
    {
      var rs := NormalizeMap(raw);
      NormalizedShape(raw);
      var top := HighestUsableEnd(rs);
      regions, allocTop := rs, top;
    }

    /** The 64-bit sum, which wraps; it is the true total if and only if that stays below 2^64, as in a disjoint map. */
    method TotalUsableBytes() returns (total: nat)
      requires Valid()
      ensures total == TotalUsable(regions) % U64
      ensures total == TotalUsable(regions) <==> TotalUsable(regions) < U64
      ensures Disjoint(regions) ==> total == TotalUsable(regions)
    {
      total := 0;
      for i := 0 to |regions|
        invariant total == TotalUsable(regions[..i]) % U64
      {
        assert regions[..i + 1][..i] == regions[..i];
        if regions[i].kind == Usable {
          total := (total + regions[i].length) % U64;
        }
      }
      assert regions[..|regions|] == regions;
      if Disjoint(regions) { TotalBelow(regions, U64 - 1); }
    }

    method AllocatePages(count: nat) returns (r: Option<nat>)
      requires Valid() && count < U64
      modifies this
      ensures Valid() && Allocates(old(Now()), count, Now(), r)
    {
      var size := count * PAGE_SIZE;
      if size >= U64 || size == 0 {
        return None;
      }
      ghost var s := Now();
      var best: Option<(nat, nat)> := None;
      for i := 0 to |regions|
        invariant Now() == s
        invariant best.Some? ==> best.value.1 < i && HoldsBlock(s, size, best.value.1, best.value.0)
        invariant forall k, b: nat :: 0 <= k < i && HoldsBlock(s, size, k, b) ==> best.Some? && b <= best.value.0
      {
        var region := regions[i];
        if region.kind == Usable {
          var regionEnd := Min(End(region), allocTop);
          if size <= regionEnd && region.base <= regionEnd - size {
            var allocBase := AlignDown(regionEnd - size);
            HighestInRegion(s, size, i);
            if region.base <= allocBase && (best == None || allocBase > best.value.0) {
              best := Some((allocBase, i));
            }
          }
        }
      }
      if best == None {
        assert forall b: nat :: !Candidate(s, size, b);
        return None;
      }
      var (allocBase, idx) := best.value;
      var region := regions[idx];
      TakeBlock(allocBase, size, idx);
      SplitFits(s.regions, idx, allocBase, size);
      allocTop := allocBase;
      r := Some(allocBase);
      assert HoldsBlock(s, size, idx, allocBase) && Now() == State(Split(s.regions, idx, allocBase, size), allocBase);
    }

    /** Remove the region and insert up to three replacements. */
    method TakeBlock(allocBase: nat, size: nat, idx: nat)
      requires Valid() && idx < |regions| && regions[idx].base <= allocBase && allocBase + size <= End(regions[idx])
      modifies this`regions
      ensures regions == Split(old(regions), idx, allocBase, size)
    {
      var region := regions[idx];
      var allocEnd := allocBase + size;
      ghost var head, tail, mid := regions[..idx], regions[idx + 1..], [];
      regions := regions[..idx] + regions[idx + 1..];
      assert regions == head + mid + tail;
      var at := idx;
      if allocBase > region.base {
        var before := Region(region.base, allocBase - region.base, Usable);
        InsertBetween(head, mid, tail, before);
        regions, mid := regions[..at] + [before] + regions[at..], mid + [before];
        at := at + 1;
      }
      var block := Region(allocBase, size, BootloaderReclaimable);
      InsertBetween(head, mid, tail, block);
      regions, mid := regions[..at] + [block] + regions[at..], mid + [block];
      at := at + 1;
      if allocEnd < End(region) {
        var after := Region(allocEnd, End(region) - allocEnd, Usable);
        InsertBetween(head, mid, tail, after);
        regions, mid := regions[..at] + [after] + regions[at..], mid + [after];
      }
      assert mid == Parts(region, allocBase, size);
    }

    method MarkRegion(base: nat, length: nat, kind: MemoryType)
      requires Valid() && base < U64 && length < U64
      modifies this`regions
      ensures Valid() && regions == MarkAll(old(regions), base, MarkEnd(base, length), kind)
    {
      var markEnd := MarkEnd(base, length);
      var newRegions := [];
      for i := 0 to |regions|
        invariant regions == old(regions)
        invariant newRegions == MarkAll(regions[..i], base, markEnd, kind)
      {
        assert regions[..i + 1][..i] == regions[..i];
        var pieces := MarkPieces(regions[i], base, markEnd, kind);
        newRegions := newRegions + pieces;
      }
      assert regions[..|regions|] == regions;
      MarkFits(regions, base, markEnd, kind);
      regions := newRegions;
    }
  }

  /** The parts of one region before, inside and after the marked range. */
  method MarkPieces(region: Region, base: nat, markEnd: nat, kind: MemoryType) returns (pieces: seq<Region>)
    ensures pieces == MarkOne(region, base, markEnd, kind)
  {
    var rEnd := End(region);
    if markEnd <= region.base || base >= rEnd {
      return [region];
    }
    pieces := [];
    if region.base < base {
      pieces := pieces + [Region(region.base, base - region.base, region.kind)];
    }
    var start, end := Max(base, region.base), Min(markEnd, rEnd);
    pieces := pieces + [Region(start, Max(end - start, 0), kind)];
    if rEnd > markEnd {
      pieces := pieces + [Region(markEnd, rEnd - markEnd, region.kind)];
    }
  }

  /** The block the loop computes for region i is the highest that fits in it. */
  lemma HighestInRegion(s: State, size: nat, i: nat)
    requires size % PAGE_SIZE == 0 && i < |s.regions| && s.regions[i].kind == Usable
    requires size <= Min(End(s.regions[i]), s.top)
    ensures var b := AlignDown(Min(End(s.regions[i]), s.top) - size);
            && (HoldsBlock(s, size, i, b) <==> s.regions[i].base <= b)
            && forall b': nat :: HoldsBlock(s, size, i, b') ==> b' <= b
  {
  }

  lemma SplitFits(rs: seq<Region>, i: nat, b: nat, size: nat)
    requires Fits(rs) && i < |rs| && rs[i].base <= b && b + size <= End(rs[i])
    ensures Fits(Split(rs, i, b, size))
  {
  }

  lemma {:induction false} MarkFits(rs: seq<Region>, base: nat, end: nat, kind: MemoryType)
    requires Fits(rs)
    ensures Fits(MarkAll(rs, base, end, kind))
  {
    if rs != [] {
      MarkFits(rs[..|rs| - 1], base, end, kind);
      MarkOneFits(rs[|rs| - 1], base, end, kind);
    }
  }

  lemma MarkOneFits(r: Region, base: nat, end: nat, kind: MemoryType)
    requires r.base + r.length < U64
    ensures Fits(MarkOne(r, base, end, kind))
  {
  }

  // ---- What one step does to the map ----

  /** The type of the first region covering a. */
  function KindAt(rs: seq<Region>, a: nat): Option<MemoryType> {
    if rs == [] then None
    else if Covers(rs[0], a) then Some(rs[0].kind)
    else KindAt(rs[1..], a)
  }

  lemma {:induction false} KindConcat(s: seq<Region>, t: seq<Region>, a: nat)
    ensures KindAt(s + t, a) == if KindAt(s, a).Some? then KindAt(s, a) else KindAt(t, a)
  {
    if s == [] {
      assert s + t == t;
    } else {
      assert (s + t)[1..] == s[1..] + t;
      KindConcat(s[1..], t, a);
    }
  }

  /** In a disjoint map, the first region covering an address is the only one. */
  lemma {:induction false} KindUnique(rs: seq<Region>, i: nat, a: nat)
    requires Disjoint(rs) && i < |rs| && Covers(rs[i], a)
    ensures KindAt(rs, a) == Some(rs[i].kind)
  {
    if i > 0 {
      assert !Covers(rs[0], a);
      KindUnique(rs[1..], i - 1, a);
    }
  }

  lemma KindOne(r: Region, a: nat)
    ensures KindAt([r], a) == if Covers(r, a) then Some(r.kind) else None
  {
    assert [r][1..] == [];
  }

  lemma SpanEffect(from: nat, to: nat, kind: MemoryType, a: nat)
    requires to < U64
    ensures KindAt(Span(from, to, kind), a) == if from <= a < to then Some(kind) else None
    ensures TotalUsable(Span(from, to, kind)) == if kind == Usable && from < to then to - from else 0
  {
    if from < to {
      KindOne(Region(from, to - from, kind), a);
      TotalOne(Region(from, to - from, kind));
    }
  }

  lemma PartsKind(r: Region, b: nat, size: nat, a: nat)
    requires r.kind == Usable && r.base + r.length < U64 && r.base <= b && b + size <= End(r)
    ensures KindAt(Parts(r, b, size), a)
         == if b <= a < b + size then Some(BootloaderReclaimable) else if Covers(r, a) then Some(Usable) else None
    ensures TotalUsable(Parts(r, b, size)) + size == r.length
  {
    var before, block, after := Span(r.base, b, Usable), [Region(b, size, BootloaderReclaimable)],
                                Span(b + size, End(r), Usable);
    SpanEffect(r.base, b, Usable, a);
    SpanEffect(b + size, End(r), Usable, a);
    KindOne(block[0], a);
    TotalOne(block[0]);
    ThreeParts(before, block, after, a);
  }

  lemma ThreeParts(x: seq<Region>, y: seq<Region>, z: seq<Region>, a: nat)
    ensures KindAt(x + y + z, a)
         == if KindAt(x, a).Some? then KindAt(x, a) else if KindAt(y, a).Some? then KindAt(y, a) else KindAt(z, a)
    ensures TotalUsable(x + y + z) == TotalUsable(x) + TotalUsable(y) + TotalUsable(z)
  {
    KindConcat(x + y, z, a);
    KindConcat(x, y, a);
    TotalConcat(x + y, z);
    TotalConcat(x, y);
  }

  /** Splitting a block out keeps every type outside the block and takes exactly `size` bytes from the usable total. */
  lemma SplitEffect(rs: seq<Region>, i: nat, b: nat, size: nat, a: nat)
    requires Fits(rs) && i < |rs| && rs[i].kind == Usable && rs[i].base <= b && b + size <= End(rs[i])
    ensures !(b <= a < b + size) ==> KindAt(Split(rs, i, b, size), a) == KindAt(rs, a)
    ensures TotalUsable(Split(rs, i, b, size)) + size == TotalUsable(rs)
  {
    var head, tail, parts := rs[..i], rs[i + 1..], Parts(rs[i], b, size);
    assert rs == head + [rs[i]] + tail;
    PartsKind(rs[i], b, size, a);
    KindConcat(head + parts, tail, a);
    KindConcat(head, parts, a);
    KindConcat(head + [rs[i]], tail, a);
    KindConcat(head, [rs[i]], a);
    TotalConcat(head + parts, tail);
    TotalConcat(head, parts);
    TotalConcat(head + [rs[i]], tail);
    TotalConcat(head, [rs[i]]);
    TotalOne(rs[i]);
  }

  lemma SplitDisjoint(rs: seq<Region>, i: nat, b: nat, size: nat)
    requires Fits(rs) && Disjoint(rs) && i < |rs| && rs[i].base <= b && b + size <= End(rs[i])
    ensures Disjoint(Split(rs, i, b, size))
  {
    var head, tail, parts := rs[..i], rs[i + 1..], Parts(rs[i], b, size);
    assert forall k :: 0 <= k < |parts| ==> rs[i].base <= parts[k].base && End(parts[k]) <= End(rs[i]);
    DisjointConcat(head, parts);
    DisjointConcat(head + parts, tail);
  }

  /** Inside the block of a disjoint map the type becomes BootloaderReclaimable. */
  lemma SplitBlockKind(rs: seq<Region>, i: nat, b: nat, size: nat, a: nat)
    requires Fits(rs) && Disjoint(rs) && i < |rs| && rs[i].base <= b && b + size <= End(rs[i]) && b <= a < b + size
    ensures KindAt(Split(rs, i, b, size), a) == Some(BootloaderReclaimable)
  {
    SplitDisjoint(rs, i, b, size);
    var k := i + if rs[i].base < b then 1 else 0;
    var out := Split(rs, i, b, size);
    assert out[k] == Region(b, size, BootloaderReclaimable);
    KindUnique(out, k, a);
  }

  lemma MarkOneKind(r: Region, base: nat, end: nat, kind: MemoryType, a: nat)
    requires r.base + r.length < U64 && base <= end < U64
    ensures KindAt(MarkOne(r, base, end, kind), a)
         == if !Covers(r, a) then None else if base <= a < end then Some(kind) else Some(r.kind)
  {
    if !(end <= r.base || base >= End(r)) {
      var before := if r.base < base then [Region(r.base, base - r.base, r.kind)] else [];
      var middle := [Region(Max(base, r.base), Max(Min(end, End(r)) - Max(base, r.base), 0), kind)];
      var after := if End(r) > end then [Region(end, End(r) - end, r.kind)] else [];
      KindConcat(before + middle, after, a);
      KindConcat(before, middle, a);
    }
  }

  /** Marking retypes exactly the covered addresses of the range; it never covers or uncovers an address. */
  lemma {:induction false} MarkKind(rs: seq<Region>, base: nat, end: nat, kind: MemoryType, a: nat)
    requires Fits(rs) && base <= end < U64
    ensures KindAt(MarkAll(rs, base, end, kind), a)
         == if base <= a < end && KindAt(rs, a).Some? then Some(kind) else KindAt(rs, a)
    decreases |rs|
  {
    if rs != [] {
      var init, r := rs[..|rs| - 1], rs[|rs| - 1];
      assert rs == init + [r];
      MarkKind(init, base, end, kind, a);
      MarkOneKind(r, base, end, kind, a);
      KindConcat(MarkAll(init, base, end, kind), MarkOne(r, base, end, kind), a);
      KindConcat(init, [r], a);
    }
  }

  lemma MarkOneInside(r: Region, base: nat, end: nat, kind: MemoryType)
    requires r.base + r.length < U64 && base <= end < U64
    ensures var out := MarkOne(r, base, end, kind);
            Disjoint(out) && forall k :: 0 <= k < |out| ==> r.base <= out[k].base && End(out[k]) <= End(r)
  {
  }

  lemma {:induction false} MarkAllInside(rs: seq<Region>, base: nat, end: nat, kind: MemoryType, k: nat)
    returns (i: nat)
    requires Fits(rs) && base <= end < U64 && k < |MarkAll(rs, base, end, kind)|
    ensures i < |rs| && rs[i].base <= MarkAll(rs, base, end, kind)[k].base
            && End(MarkAll(rs, base, end, kind)[k]) <= End(rs[i])
    decreases |rs|
  {
    var init, r := rs[..|rs| - 1], rs[|rs| - 1];
    MarkOneInside(r, base, end, kind);
    if k < |MarkAll(init, base, end, kind)| {
      i := MarkAllInside(init, base, end, kind, k);
    } else {
      i := |rs| - 1;
    }
  }

  lemma {:induction false} MarkDisjoint(rs: seq<Region>, base: nat, end: nat, kind: MemoryType)
    requires Fits(rs) && Disjoint(rs) && base <= end < U64
    ensures Disjoint(MarkAll(rs, base, end, kind))
    decreases |rs|
  {
    if rs != [] {
      var init, r := rs[..|rs| - 1], rs[|rs| - 1];
      MarkDisjoint(init, base, end, kind);
      MarkOneInside(r, base, end, kind);
      var x, y := MarkAll(init, base, end, kind), MarkOne(r, base, end, kind);
      forall i, j | 0 <= i < |x| && 0 <= j < |y| ensures End(x[i]) <= y[j].base {
        var k := MarkAllInside(init, base, end, kind, i);
      }
      DisjointConcat(x, y);
    }
  }

  // ---- Whole runs ----

  datatype Op = Allocate(count: nat) | Mark(base: nat, length: nat, kind: MemoryType)

  /** One operation of the manager, with what it returned. */
  ghost predicate Step(s: State, op: Op, s': State, r: Option<nat>) {
    match op
    case Allocate(count) => count < U64 && Allocates(s, count, s', r)
    case Mark(base, length, kind) =>
      && base < U64 && length < U64 && r == None
      && s' == State(MarkAll(s.regions, base, MarkEnd(base, length), kind), s.top)
  }

  ghost predicate IsRun(states: seq<State>, ops: seq<Op>, results: seq<Option<nat>>) {
    && |states| == |ops| + 1 && |results| == |ops|
    && forall i :: 0 <= i < |ops| ==> Step(states[i], ops[i], states[i + 1], results[i])
  }

  /** The addresses an operation touches. */
  predicate Touches(op: Op, r: Option<nat>, a: nat) {
    match op
    case Allocate(count) => r.Some? && r.value <= a < r.value + count * PAGE_SIZE
    case Mark(base, length, _) => base <= a < base + length && a < 0xFFFF_FFFF_FFFF_FFFF
  }

  /**
   One step keeps the map well formed and disjoint, never raises the top, and changes no type outside what it touches.
   */
  lemma StepKeeps(s: State, op: Op, s': State, r: Option<nat>)
    requires Fits(s.regions) && Step(s, op, s', r)
    ensures Fits(s'.regions) && s'.top <= s.top
    ensures Disjoint(s.regions) ==> Disjoint(s'.regions)
    ensures r.Some? ==> op.Allocate? && r.value % PAGE_SIZE == 0 && s'.top == r.value
                        && r.value + op.count * PAGE_SIZE <= s.top
    ensures forall a: nat :: !Touches(op, r, a) ==> KindAt(s'.regions, a) == KindAt(s.regions, a)
  {
    match op
    case Allocate(count) =>
      if r.Some? {
        var b, size := r.value, count * PAGE_SIZE;
        var i :| HoldsBlock(s, size, i, b) && s' == State(Split(s.regions, i, b, size), b);
        SplitFits(s.regions, i, b, size);
        if Disjoint(s.regions) { SplitDisjoint(s.regions, i, b, size); }
        forall a: nat | !Touches(op, r, a) ensures KindAt(s'.regions, a) == KindAt(s.regions, a) {
          SplitEffect(s.regions, i, b, size, a);
        }
      }
    case Mark(base, length, kind) =>
      var end := MarkEnd(base, length);
      MarkFits(s.regions, base, end, kind);
      if Disjoint(s.regions) { MarkDisjoint(s.regions, base, end, kind); }
      forall a: nat | !Touches(op, r, a) ensures KindAt(s'.regions, a) == KindAt(s.regions, a) {
        MarkKind(s.regions, base, end, kind, a);
      }
  }

  /** A granted block takes exactly its size from the usable total, whether or not the map is disjoint. */
  lemma GrantCosts(s: State, count: nat, s': State, b: nat)
    requires Fits(s.regions) && Step(s, Allocate(count), s', Some(b))
    ensures TotalUsable(s'.regions) + count * PAGE_SIZE == TotalUsable(s.regions)
  {
    var size := count * PAGE_SIZE;
    var i :| HoldsBlock(s, size, i, b) && s' == State(Split(s.regions, i, b, size), b);
    SplitEffect(s.regions, i, b, size, 0);
  }

  /** A granted block was Usable memory of the map it was taken from, and costs exactly its size. */
  lemma GrantEffect(s: State, count: nat, s': State, b: nat, a: nat)
    requires Fits(s.regions) && Disjoint(s.regions) && Step(s, Allocate(count), s', Some(b))
    ensures TotalUsable(s'.regions) + count * PAGE_SIZE == TotalUsable(s.regions)
    ensures b <= a < b + count * PAGE_SIZE ==>
              KindAt(s.regions, a) == Some(Usable) && KindAt(s'.regions, a) == Some(BootloaderReclaimable)
  {
    var size := count * PAGE_SIZE;
    var i :| HoldsBlock(s, size, i, b) && s' == State(Split(s.regions, i, b, size), b);
    SplitEffect(s.regions, i, b, size, a);
    if b <= a < b + size {
      KindUnique(s.regions, i, a);
      SplitBlockKind(s.regions, i, b, size, a);
    }
  }

  lemma {:induction false} RunInvariant(states: seq<State>, ops: seq<Op>, results: seq<Option<nat>>, j: nat)
    requires IsRun(states, ops, results) && Fits(states[0].regions) && j < |states|
    ensures Fits(states[j].regions)
    ensures Disjoint(states[0].regions) ==> Disjoint(states[j].regions)
  {
    if j > 0 {
      RunInvariant(states, ops, results, j - 1);
      StepKeeps(states[j - 1], ops[j - 1], states[j], results[j - 1]);
    }
  }

  lemma {:induction false} TopDescends(states: seq<State>, ops: seq<Op>, results: seq<Option<nat>>, i: nat, j: nat)
    requires IsRun(states, ops, results) && Fits(states[0].regions) && i <= j < |states|
    ensures states[j].top <= states[i].top
    decreases j
  {
    if i < j {
      TopDescends(states, ops, results, i, j - 1);
      RunInvariant(states, ops, results, j - 1);
      StepKeeps(states[j - 1], ops[j - 1], states[j], results[j - 1]);
    }
  }

  /** Over every run, each later block lies strictly below each earlier one: blocks are disjoint and descending. */
  lemma BlocksDescend(states: seq<State>, ops: seq<Op>, results: seq<Option<nat>>, i: nat, j: nat)
    requires IsRun(states, ops, results) && Fits(states[0].regions)
    requires i < j < |ops| && results[i].Some? && results[j].Some?
    ensures ops[j].Allocate? && results[j].value % PAGE_SIZE == 0
    ensures results[j].value + ops[j].count * PAGE_SIZE <= results[i].value
    ensures results[j].value < results[i].value
  {
    RunInvariant(states, ops, results, i);
    RunInvariant(states, ops, results, j);
    StepKeeps(states[i], ops[i], states[i + 1], results[i]);
    StepKeeps(states[j], ops[j], states[j + 1], results[j]);
    TopDescends(states, ops, results, i + 1, j);
  }

  /** Over every run, an address no operation touches keeps its type. */
  lemma {:induction false} UntouchedKeepsKind(states: seq<State>, ops: seq<Op>, results: seq<Option<nat>>, j: nat,
                                              a: nat)
    requires IsRun(states, ops, results) && Fits(states[0].regions) && j < |states|
    requires forall i :: 0 <= i < j ==> !Touches(ops[i], results[i], a)
    ensures KindAt(states[j].regions, a) == KindAt(states[0].regions, a)
  {
    if j > 0 {
      UntouchedKeepsKind(states, ops, results, j - 1, a);
      RunInvariant(states, ops, results, j - 1);
      StepKeeps(states[j - 1], ops[j - 1], states[j], results[j - 1]);
    }
  }

  function Granted(ops: seq<Op>, results: seq<Option<nat>>): nat
    requires |ops| == |results|
  {
    if ops == [] then 0
    else
      var k := |ops| - 1;
      Granted(ops[..k], results[..k]) + if ops[k].Allocate? && results[k].Some? then ops[k].count * PAGE_SIZE else 0
  }

  /**
   Conservation: over every run of allocations, whatever overlaps, usable bytes left plus bytes granted stay constant.
   */
  lemma {:induction false} UsableConserved(states: seq<State>, ops: seq<Op>, results: seq<Option<nat>>)
    requires IsRun(states, ops, results) && Fits(states[0].regions)
    requires forall i :: 0 <= i < |ops| ==> ops[i].Allocate?
    ensures TotalUsable(states[|ops|].regions) + Granted(ops, results) == TotalUsable(states[0].regions)
    decreases |ops|
  {
    if ops != [] {
      var k := |ops| - 1;
      UsableConserved(states[..|states| - 1], ops[..k], results[..k]);
      RunInvariant(states, ops, results, k);
      assert Step(states[k], ops[k], states[k + 1], results[k]);
      if results[k].Some? {
        GrantCosts(states[k], ops[k].count, states[k + 1], results[k].value);
      }
    }
  }
}
