/** `normalize` and its helpers from `pmm.rs`, and what they guarantee for every firmware memory map. */
module Normalize {
  import opened Machine
  import opened MemoryMap
  import Bits

  // ---- insert_with_overlap and merge_adjacent: the in-place loops ----

  /**
   The loop's progress: the first k original regions are cut away from n, and i stands at the end of their remains.
   */
  ghost predicate Settled(old0: seq<Region>, n: Region, k: nat, regions: seq<Region>, i: nat) {
    && k <= |old0| && k <= FirstWinner(old0, n)
    && regions == CutAll(old0[..k], n) + old0[k..]
    && |CutAll(old0[..k], n)| - 1 <= i <= |CutAll(old0[..k], n)|
    && (i < |CutAll(old0[..k], n)| ==> !Overlap(regions[i], n))
  }

  /** Inserts one region, resolving overlaps by priority. */
  method InsertWithOverlap(old0: seq<Region>, n: Region) returns (regions: seq<Region>)
    requires AllGood(old0) && Good(n)
    ensures regions == Resolve(old0, n)
  {
    regions := old0;
    var i: nat := 0;
    ghost var k: nat := 0;
    while i < |regions|
      invariant Settled(old0, n, k, regions, i)
      decreases |old0| - k, |regions| - i
    {
      var finished;
      finished, regions, i, k := MeetRegion(old0, n, k, regions, i);
      if finished {
        return;
      }
    }
    SettleEnd(old0, n, k, regions, i);
    regions := InsertSorted(regions, n);
  }

  /** One round of the loop: skip a region, split it, or finish around it. */
  method MeetRegion(ghost old0: seq<Region>, n: Region, ghost k0: nat, before: seq<Region>, at: nat)
    returns (finished: bool, regions: seq<Region>, i: nat, ghost k: nat)
    requires AllGood(old0) && Good(n) && Settled(old0, n, k0, before, at) && at < |before|
    ensures finished ==> regions == Resolve(old0, n)
    ensures !finished ==> Settled(old0, n, k, regions, i) && (k0 < k || (k0 == k && regions == before && at < i))
  {
    finished, regions, i, k := false, before, at, k0;
    var existing := regions[i];
    if End(n) <= existing.base || n.base >= End(existing) {
      k := SettleSkip(old0, n, k, regions, i);
      i := i + 1;
    } else if Priority(n.kind) >= Priority(existing.kind) {
      regions, i := OverrideLoser(old0, n, k, regions, i);
      k := k + 1;
    } else {
      SettleWinner(old0, n, k, regions, i);
      regions := TrimNew(regions, existing, n);
      finished := true;
    }
  }

  /** The new region wins: the overlapped one is split around it. */
  method OverrideLoser(ghost old0: seq<Region>, n: Region, ghost k: nat, before: seq<Region>, at: nat)
    returns (regions: seq<Region>, i: nat)
    requires AllGood(old0) && Good(n) && Settled(old0, n, k, before, at)
    requires at < |before| && Overlap(before[at], n) && !Wins(before[at], n)
    ensures k < |old0| && Settled(old0, n, k + 1, regions, i)
  {
    SettleLoser(old0, n, k, before, at);
    regions, i := SplitLoser(before, at, n);
    SettleSplit(old0, n, k, before, at, regions, i);
  }

  /** The existing region wins: only the pieces of n around it are inserted. */
  method TrimNew(regions0: seq<Region>, existing: Region, n: Region) returns (regions: seq<Region>)
    requires Good(existing) && Good(n) && Overlap(existing, n)
    ensures regions == InsertAll(regions0, Pieces(n, existing))
  {
    var toAdd := [];
    if n.base < existing.base {
      toAdd := toAdd + [Region(n.base, existing.base - n.base, n.kind)];
    }
    if End(n) > End(existing) {
      toAdd := toAdd + [Region(End(existing), End(n) - End(existing), n.kind)];
    }
    assert toAdd == Pieces(n, existing);
    regions := InsertPieces(regions0, toAdd);
  }

  /** Settling one more original region. */
  lemma CutNext(old0: seq<Region>, n: Region, k: nat)
    requires k < |old0|
    ensures var cut, cut', all := CutAll(old0[..k], n), CutAll(old0[..k + 1], n), CutAll(old0[..k], n) + old0[k..];
            && cut' == cut + Cut(old0[k], n)
            && all[|cut|] == old0[k]
            && all[..|cut|] + Cut(old0[k], n) + all[|cut| + 1..] == cut' + old0[k + 1..]
            && (!Overlap(old0[k], n) ==> all == cut' + old0[k + 1..])
  {
    assert old0[..k + 1][..k] == old0[..k] && old0[k..][1..] == old0[k + 1..];
    Splice(CutAll(old0[..k], n), old0[k..], Cut(old0[k], n));
    Splice(CutAll(old0[..k], n), old0[k..], [old0[k]]);
    assert [old0[k]] + old0[k + 1..] == old0[k..];
  }

  /** Replacing the first element behind x. */
  lemma Splice<T>(x: seq<T>, y: seq<T>, c: seq<T>)
    requires y != []
    ensures (x + y)[|x|] == y[0] && (x + y)[..|x|] + c + (x + y)[|x| + 1..] == x + c + y[1..]
    ensures c == [y[0]] ==> x + c + y[1..] == x + y
  {
    assert (x + y)[..|x|] == x && (x + y)[|x| + 1..] == y[1..];
  }

  lemma SettleSkip(old0: seq<Region>, n: Region, k: nat, regions: seq<Region>, i: nat) returns (k': nat)
    requires Settled(old0, n, k, regions, i) && i < |regions| && !Overlap(regions[i], n)
    ensures k <= k' && Settled(old0, n, k', regions, i + 1)
  {
    k' := k;
    if i == |CutAll(old0[..k], n)| {
      CutNext(old0, n, k);
      k' := k + 1;
    }
  }

  lemma SettleLoser(old0: seq<Region>, n: Region, k: nat, regions: seq<Region>, i: nat)
    requires Settled(old0, n, k, regions, i) && i < |regions| && Overlap(regions[i], n)
    ensures k < |old0| && i == |CutAll(old0[..k], n)| && regions[i] == old0[k]
  {
    CutNext(old0, n, k);
  }

  lemma StillNoWinner(rs: seq<Region>, n: Region, k: nat)
    requires k < |rs| && k <= FirstWinner(rs, n) && !Wins(rs[k], n)
    ensures k + 1 <= FirstWinner(rs, n)
  {
  }

  lemma SettleSplit(old0: seq<Region>, n: Region, k: nat, regions: seq<Region>, i: nat, regions': seq<Region>, i': nat)
    requires Settled(old0, n, k, regions, i) && i < |regions| && Overlap(regions[i], n) && !Wins(regions[i], n)
    requires regions' == regions[..i] + Cut(regions[i], n) + regions[i + 1..]
    requires i + |Cut(regions[i], n)| - 1 <= i' <= i + |Cut(regions[i], n)|
    requires i' < i + |Cut(regions[i], n)| ==> i' < |regions'| && !Overlap(regions'[i'], n)
    ensures k < |old0| && Settled(old0, n, k + 1, regions', i')
  {
    SettleLoser(old0, n, k, regions, i);
    CutNext(old0, n, k);
    StillNoWinner(old0, n, k);
  }

  lemma SettleWinner(old0: seq<Region>, n: Region, k: nat, regions: seq<Region>, i: nat)
    requires Settled(old0, n, k, regions, i) && i < |regions| && Wins(regions[i], n)
    ensures k < |old0| && regions[i] == old0[k]
    ensures InsertAll(regions, Pieces(n, regions[i])) == Resolve(old0, n)
  {
    CutNext(old0, n, k);
  }

  lemma SettleEnd(old0: seq<Region>, n: Region, k: nat, regions: seq<Region>, i: nat)
    requires Settled(old0, n, k, regions, i) && i >= |regions|
    ensures InsertSorted(regions, n) == Resolve(old0, n)
  {
    assert k == |old0| && old0[..k] == old0 && regions == CutAll(old0, n);
  }

  /** The in-place split of an overlapped region around n; the index moves past the part before n. */
  method SplitLoser(regions0: seq<Region>, i0: nat, n: Region) returns (regions: seq<Region>, i: nat)
    requires i0 < |regions0| && Overlap(regions0[i0], n) && Good(regions0[i0]) && Good(n)
    ensures regions == regions0[..i0] + Cut(regions0[i0], n) + regions0[i0 + 1..]
    ensures i0 + |Cut(regions0[i0], n)| - 1 <= i <= i0 + |Cut(regions0[i0], n)|
    ensures i < i0 + |Cut(regions0[i0], n)| ==> i < |regions| && !Overlap(regions[i], n)
  {
    var existing := regions0[i0];
    i := i0;
    regions := regions0[..i] + regions0[i + 1..];
    if existing.base < n.base {
      regions := regions[..i] + [Region(existing.base, n.base - existing.base, existing.kind)] + regions[i..];
      i := i + 1;
    }
    if End(existing) > End(n) {
      regions := regions[..i] + [Region(End(n), End(existing) - End(n), existing.kind)] + regions[i..];
    }
  }

  method InsertPieces(base: seq<Region>, pieces: seq<Region>) returns (regions: seq<Region>)
    ensures regions == InsertAll(base, pieces)
  {
    regions := base;
    for m := 0 to |pieces|
      invariant regions == InsertAll(base, pieces[..m])
    {
      assert pieces[..m + 1][..m] == pieces[..m];
      regions := InsertSorted(regions, pieces[m]);
    }
    assert pieces[..|pieces|] == pieces;
  }

  /** Two neighbours that touch and have the same type. */
  predicate Mergeable(r: Region, s: Region) {
    r.kind == s.kind && End(r) == s.base
  }

  /** `merge_adjacent` from index i on. */
  function MergeFrom(rs: seq<Region>, i: nat): seq<Region>
    decreases |rs| - i
  {
    if i + 1 >= |rs| then rs
    else if Mergeable(rs[i], rs[i + 1]) then MergeFrom(Merged(rs, i), i)
    else MergeFrom(rs, i + 1)
  }

  method MergeAdjacent(old0: seq<Region>) returns (regions: seq<Region>)
    ensures regions == MergeFrom(old0, 0)
  {
    regions := old0;
    var i := 0;
    while i + 1 < |regions|
      invariant 0 <= i && MergeFrom(regions, i) == MergeFrom(old0, 0)
      decreases |regions| - i
    {
      if regions[i].kind == regions[i + 1].kind && End(regions[i]) == regions[i + 1].base {
        regions := regions[i := regions[i].(length := regions[i].length + regions[i + 1].length)];
        regions := regions[..i + 1] + regions[i + 2..];
      } else {
        i := i + 1;
      }
    }
  }

  /** Merging keeps the best priority at every address. */
  lemma {:induction false} MergeFromBest(rs: seq<Region>, i: nat, a: nat)
    requires AllGood(rs)
    ensures Best(MergeFrom(rs, i), a) == Best(rs, a)
    decreases |rs| - i
  {
    if i + 1 < |rs| {
      if Mergeable(rs[i], rs[i + 1]) {
        MergedShape(rs, i);
        MergedBest(rs, i, a);
        MergeFromBest(Merged(rs, i), i, a);
      } else {
        MergeFromBest(rs, i + 1, a);
      }
    }
  }

  /** Merging keeps regions good, aligned and disjoint, and leaves no mergeable neighbours. */
  lemma {:induction false} MergeFromShape(rs: seq<Region>, i: nat)
    requires AllGood(rs) && forall j :: 0 <= j < i && j + 1 < |rs| ==> !Mergeable(rs[j], rs[j + 1])
    ensures var out := MergeFrom(rs, i);
            && AllGood(out) && (AllAligned(rs) ==> AllAligned(out)) && (Disjoint(rs) ==> Disjoint(out))
            && forall j :: 0 <= j < |out| - 1 ==> !Mergeable(out[j], out[j + 1])
    decreases |rs| - i
  {
    if i + 1 < |rs| {
      if Mergeable(rs[i], rs[i + 1]) {
        MergedShape(rs, i);
        MergeFromShape(Merged(rs, i), i);
      } else {
        MergeFromShape(rs, i + 1);
      }
    }
  }

  predicate PageAligned(r: Region) {
    r.base % PAGE_SIZE == 0 && r.length % PAGE_SIZE == 0
  }

  predicate AllAligned(rs: seq<Region>) {
    forall i :: 0 <= i < |rs| ==> PageAligned(rs[i])
  }

  function Merged(rs: seq<Region>, i: nat): seq<Region>
    requires i + 1 < |rs|
  {
    rs[i := rs[i].(length := rs[i].length + rs[i + 1].length)][..i + 1]
    + rs[i := rs[i].(length := rs[i].length + rs[i + 1].length)][i + 2..]
  }

  lemma MergedBest(rs: seq<Region>, i: nat, a: nat)
    requires AllGood(rs) && i + 1 < |rs| && Mergeable(rs[i], rs[i + 1])
    ensures Best(Merged(rs, i), a) == Best(rs, a)
  {
    var m := rs[i].(length := rs[i].length + rs[i + 1].length);
    assert Merged(rs, i) == rs[..i] + [m] + rs[i + 2..];
    assert rs == rs[..i] + ([rs[i]] + [rs[i + 1]]) + rs[i + 2..];
    BestConcat(rs[..i] + [m], rs[i + 2..], a);
    BestConcat(rs[..i], [m], a);
    BestConcat(rs[..i] + ([rs[i]] + [rs[i + 1]]), rs[i + 2..], a);
    BestConcat(rs[..i], [rs[i]] + [rs[i + 1]], a);
    BestConcat([rs[i]], [rs[i + 1]], a);
    BestOne(m, a);
    BestOne(rs[i], a);
    BestOne(rs[i + 1], a);
  }

  lemma MergedIs(rs: seq<Region>, i: nat, m: Region)
    requires AllGood(rs) && i + 1 < |rs| && Mergeable(rs[i], rs[i + 1])
    requires m == rs[i].(length := rs[i].length + rs[i + 1].length)
    ensures Merged(rs, i) == rs[..i] + [m] + rs[i + 2..] && Good(m) && m.base == rs[i].base && End(m) == End(rs[i + 1])
    ensures PageAligned(rs[i]) && PageAligned(rs[i + 1]) ==> PageAligned(m)
  {
  }

  lemma MergedDisjoint(x: seq<Region>, m: Region, z: seq<Region>, rs: seq<Region>, i: nat)
    requires i + 1 < |rs| && x == rs[..i] && z == rs[i + 2..] && Disjoint(rs) && Good(m)
    requires m.base == rs[i].base && End(m) == End(rs[i + 1])
    ensures Disjoint(x + [m] + z)
  {
    forall j | 0 <= j < |z| ensures End(m) <= z[j].base { assert z[j] == rs[i + 2 + j]; }
    DisjointAround(x, m, z);
  }

  lemma MergedShape(rs: seq<Region>, i: nat)
    requires AllGood(rs) && i + 1 < |rs| && Mergeable(rs[i], rs[i + 1])
    ensures AllGood(Merged(rs, i)) && |Merged(rs, i)| == |rs| - 1
    ensures Disjoint(rs) ==> Disjoint(Merged(rs, i))
    ensures AllAligned(rs) ==> AllAligned(Merged(rs, i))
    ensures forall j :: 0 <= j < i && !Mergeable(rs[j], rs[j + 1]) ==>
              !Mergeable(Merged(rs, i)[j], Merged(rs, i)[j + 1])
  {
    var m := rs[i].(length := rs[i].length + rs[i + 1].length);
    MergedIs(rs, i, m);
    if Disjoint(rs) { MergedDisjoint(rs[..i], m, rs[i + 2..], rs, i); }
  }

  // ---- Sorting and page alignment ----

  /** `value & !(PAGE_SIZE - 1)`. */
  function AlignDown(v: nat): nat {
    v - v % PAGE_SIZE
  }

  /** `(value + PAGE_SIZE - 1) & !(PAGE_SIZE - 1)`; the sum is unchecked and wraps. */
  function AlignUp(v: nat): nat {
    AlignDown((v + PAGE_SIZE - 1) % U64)
  }

  /** The arithmetic form of the alignment mask. */
  lemma AlignDownIsMask(v: nat)
    requires v < U64
    ensures Bits.Pow2(64) == U64 && Bits.Pow2(12) == PAGE_SIZE
    ensures AlignDown(v) == Bits.And(v, U64 - PAGE_SIZE)
  {
    assert Bits.Pow2(12) == 4096;
    Bits.Pow2Of64();
    Bits.AlignMask(v, 12, 64);
  }

  /** Rounding up is sound exactly up to the last page; beyond it the sum wraps to page zero. */
  lemma AlignUpSound(v: nat)
    requires v < U64
    ensures v <= AlignUp(v) <==> v <= U64 - PAGE_SIZE
    ensures v > U64 - PAGE_SIZE ==> AlignUp(v) == 0
  {
  }

  function AlignEntry(e: Region): Region {
    var base, end := AlignUp(e.base), AlignDown(End(e));
    if end <= base then e.(length := 0) else Region(base, end - base, e.kind)
  }

  /** Aligned entries, in order, without the empty ones. */
  function AlignAll(es: seq<Region>): seq<Region> {
    if es == [] then []
    else
      var e := AlignEntry(es[|es| - 1]);
      AlignAll(es[..|es| - 1]) + (if e.length > 0 then [e] else [])
  }

  method AlignEntries(raw: seq<Region>) returns (entries: seq<Region>)
    ensures entries == AlignAll(raw)
  {
    var aligned := raw;
    for i := 0 to |raw|
      invariant |aligned| == |raw| && aligned[i..] == raw[i..]
      invariant forall k :: 0 <= k < i ==> aligned[k] == AlignEntry(raw[k])
    {
      aligned := aligned[i := AlignEntry(aligned[i])];
    }
    entries := [];
    for i := 0 to |aligned|
      invariant entries == AlignAll(raw[..i])
    {
      assert raw[..i + 1][..i] == raw[..i];
      if aligned[i].length > 0 {
        entries := entries + [aligned[i]];
      }
    }
    assert raw[..|raw|] == raw;
  }

  lemma {:induction false} AlignAllConcat(s: seq<Region>, t: seq<Region>)
    ensures AlignAll(s + t) == AlignAll(s) + AlignAll(t)
  {
    if t == [] {
      assert s + t == s;
    } else {
      assert (s + t)[..|s + t| - 1] == s + t[..|t| - 1];
      AlignAllConcat(s, t[..|t| - 1]);
    }
  }

  // ---- What the raw map says about a page ----

  /** A firmware entry: two 64-bit fields. */
  predicate RawEntry(e: Region) {
    e.base < U64 && e.length < U64
  }

  predicate RawMap(raw: seq<Region>) {
    forall i :: 0 <= i < |raw| ==> RawEntry(raw[i])
  }

  /** The base lies in the last, partial page, where `align_up` wraps to zero. */
  predicate Wraps(e: Region) {
    e.base > U64 - PAGE_SIZE
  }

  predicate NoneWraps(raw: seq<Region>) {
    forall i :: 0 <= i < |raw| ==> !Wraps(raw[i])
  }

  /** The whole page at address p belongs to the entry. */
  predicate PageIn(e: Region, p: nat) {
    e.base <= p && p + PAGE_SIZE <= End(e)
  }

  /** The highest priority of any raw entry holding the page at p, or -1. */
  function PageBest(raw: seq<Region>, p: nat): int {
    if raw == [] then -1
    else Max(PageBest(raw[..|raw| - 1], p), if PageIn(raw[|raw| - 1], p) then Priority(raw[|raw| - 1].kind) else -1)
  }

  /** How many raw entries hold the page at p. */
  function PageHolders(raw: seq<Region>, p: nat): nat {
    if raw == [] then 0
    else PageHolders(raw[..|raw| - 1], p) + if PageIn(raw[|raw| - 1], p) then 1 else 0
  }

  /** The highest priority of any entry that wraps, or -1. */
  function WrappedBest(raw: seq<Region>): int {
    if raw == [] then -1
    else Max(WrappedBest(raw[..|raw| - 1]), if Wraps(raw[|raw| - 1]) then Priority(raw[|raw| - 1].kind) else -1)
  }

  /** How many entries wrap. */
  function WrappedCount(raw: seq<Region>): nat {
    if raw == [] then 0 else WrappedCount(raw[..|raw| - 1]) + if Wraps(raw[|raw| - 1]) then 1 else 0
  }

  /** A wrapping entry, even an empty one, becomes all of memory below the last page. */
  lemma WrappedEntry(e: Region)
    requires RawEntry(e) && Wraps(e)
    ensures AlignEntry(e) == Region(0, U64 - PAGE_SIZE, e.kind)
    ensures forall p: nat :: !PageIn(e, p)
  {
  }

  /** An aligned entry covers an address exactly when the raw entry holds that address's whole page, or wraps. */
  lemma AlignEntryCovers(e: Region, a: nat)
    requires RawEntry(e)
    ensures Covers(AlignEntry(e), a) <==> PageIn(e, AlignDown(a)) || (Wraps(e) && a < U64 - PAGE_SIZE)
    ensures AlignEntry(e).length > 0 ==> Good(AlignEntry(e)) && PageAligned(AlignEntry(e))
    ensures AlignEntry(e).kind == e.kind
  {
    if Wraps(e) {
      WrappedEntry(e);
    } else {
      PlainEntryCovers(e, a);
    }
  }

  lemma PlainEntryCovers(e: Region, a: nat)
    requires RawEntry(e) && !Wraps(e)
    ensures Covers(AlignEntry(e), a) <==> PageIn(e, AlignDown(a))
    ensures AlignEntry(e).length > 0 ==> Good(AlignEntry(e)) && PageAligned(AlignEntry(e))
  {
    var base, end, p := AlignUp(e.base), AlignDown(End(e)), AlignDown(a);
    AlignUpRounds(e.base);
    AlignDownRounds(End(e));
    AlignDownRounds(a);
    SpanAligned(base, end, e.kind);
    OnGrid(e.base, base, End(e), end, a, p);
  }

  lemma OnGrid(from: nat, base: nat, to: nat, end: nat, a: nat, p: nat)
    requires base % PAGE_SIZE == 0 && from <= base < from + PAGE_SIZE && end % PAGE_SIZE == 0
             && end <= to < end + PAGE_SIZE
    requires p % PAGE_SIZE == 0 && p <= a < p + PAGE_SIZE
    ensures base <= a < end <==> from <= p && p + PAGE_SIZE <= to
  {
    GridNumbers(from, base / PAGE_SIZE, to, end / PAGE_SIZE, a, p / PAGE_SIZE);
  }

  lemma GridNumbers(from: nat, x: nat, to: nat, y: nat, a: nat, z: nat)
    requires from <= 4096 * x < from + 4096 && 4096 * y <= to < 4096 * y + 4096 && 4096 * z <= a < 4096 * z + 4096
    ensures 4096 * x <= a < 4096 * y <==> from <= 4096 * z && 4096 * z + 4096 <= to
  {
  }

  /** Alignment keeps exactly the whole pages of an entry if and only if the entry does not wrap. */
  lemma AlignExactIff(e: Region)
    requires RawEntry(e)
    ensures (forall a: nat :: Covers(AlignEntry(e), a) <==> PageIn(e, AlignDown(a))) <==> !Wraps(e)
  {
    if Wraps(e) {
      WrappedEntry(e);
      assert Covers(AlignEntry(e), 0) && !PageIn(e, AlignDown(0));
    } else {
      forall a: nat ensures Covers(AlignEntry(e), a) <==> PageIn(e, AlignDown(a)) { PlainEntryCovers(e, a); }
    }
  }

  /** For instance, an empty reserved entry at the very top takes all of memory. */
  lemma EmptyTopEntryCoversAll(a: nat)
    requires a < U64 - PAGE_SIZE
    ensures Covers(AlignEntry(Region(U64 - 1, 0, Reserved)), a)
  {
    WrappedEntry(Region(U64 - 1, 0, Reserved));
  }

  lemma AlignDownRounds(v: nat)
    ensures AlignDown(v) % PAGE_SIZE == 0 && AlignDown(v) <= v < AlignDown(v) + PAGE_SIZE
  {
  }

  lemma AlignUpRounds(v: nat)
    requires v <= U64 - PAGE_SIZE
    ensures AlignUp(v) % PAGE_SIZE == 0 && v <= AlignUp(v) < v + PAGE_SIZE
  {
  }

  /** What the aligned map says about an address: the raw entries that hold its page, and the wrapping ones. */
  lemma {:induction false} AlignAllMeaning(raw: seq<Region>, a: nat)
    requires RawMap(raw)
    ensures var low := a < U64 - PAGE_SIZE;
            && Best(AlignAll(raw), a) == Max(PageBest(raw, AlignDown(a)), if low then WrappedBest(raw) else -1)
            && Count(AlignAll(raw), a) == PageHolders(raw, AlignDown(a)) + if low then WrappedCount(raw) else 0
  {
    if raw != [] {
      var init, e, r := raw[..|raw| - 1], AlignEntry(raw[|raw| - 1]), raw[|raw| - 1];
      AlignAllMeaning(init, a);
      AlignEntryCovers(r, a);
      if Wraps(r) { WrappedEntry(r); }
      AlignAllLast(AlignAll(init), e, a);
    }
  }

  lemma AlignAllLast(es: seq<Region>, e: Region, a: nat)
    ensures var out := es + if e.length > 0 then [e] else [];
            && Best(out, a) == Max(Best(es, a), PriorityAt(e, a))
            && Count(out, a) == Count(es, a) + if Covers(e, a) then 1 else 0
  {
    if e.length > 0 {
      BestConcat(es, [e], a);
      BestOne(e, a);
      CountAdd(es, e, a);
    } else {
      assert es + [] == es;
      BestConcat(es, [], a);
    }
  }

  lemma {:induction false} NoneWrapped(raw: seq<Region>)
    ensures WrappedCount(raw) == 0 <==> NoneWraps(raw)
    ensures NoneWraps(raw) ==> WrappedBest(raw) == -1
  {
    if raw != [] {
      NoneWrapped(raw[..|raw| - 1]);
      assert raw == raw[..|raw| - 1] + [raw[|raw| - 1]];
    }
  }

  /** Every address is covered as often as its page has holders if and only if no entry wraps. */
  lemma AlignAllExactIff(raw: seq<Region>)
    requires RawMap(raw)
    ensures (forall a: nat :: Count(AlignAll(raw), a) == PageHolders(raw, AlignDown(a))) <==> NoneWraps(raw)
  {
    NoneWrapped(raw);
    forall a: nat
      ensures Count(AlignAll(raw), a)
              == PageHolders(raw, AlignDown(a)) + if a < U64 - PAGE_SIZE then WrappedCount(raw) else 0
    {
      AlignAllMeaning(raw, a);
    }
    assert AlignDown(0) == 0;
    assert Count(AlignAll(raw), 0) == PageHolders(raw, AlignDown(0)) + WrappedCount(raw);
  }

  lemma {:induction false} AlignAllShape(raw: seq<Region>)
    requires RawMap(raw)
    ensures AllGood(AlignAll(raw)) && AllAligned(AlignAll(raw))
  {
    if raw != [] {
      AlignAllShape(raw[..|raw| - 1]);
      AlignEntryCovers(raw[|raw| - 1], 0);
    }
  }

  /** `sort_by_key(|e| e.base)`: the stable sort by base address. */
  function SortByBase(raw: seq<Region>): seq<Region> {
    InsertAll([], raw)
  }

  predicate SortedByBase(es: seq<Region>) {
    forall i, j :: 0 <= i < j < |es| ==> es[i].base <= es[j].base
  }

  function WithBase(es: seq<Region>, b: nat): seq<Region> {
    if es == [] then []
    else WithBase(es[..|es| - 1], b) + if es[|es| - 1].base == b then [es[|es| - 1]] else []
  }

  lemma {:induction false} WithBaseConcat(s: seq<Region>, t: seq<Region>, b: nat)
    ensures WithBase(s + t, b) == WithBase(s, b) + WithBase(t, b)
  {
    if t == [] {
      assert s + t == s;
    } else {
      assert (s + t)[..|s + t| - 1] == s + t[..|t| - 1];
      WithBaseConcat(s, t[..|t| - 1], b);
    }
  }

  lemma {:induction false} WithBaseEmpty(es: seq<Region>, b: nat)
    requires forall i :: 0 <= i < |es| ==> es[i].base != b
    ensures WithBase(es, b) == []
  {
    if es != [] { WithBaseEmpty(es[..|es| - 1], b); }
  }

  lemma SortedConcat(s: seq<Region>, t: seq<Region>)
    requires SortedByBase(s) && SortedByBase(t)
    requires forall i, j :: 0 <= i < |s| && 0 <= j < |t| ==> s[i].base <= t[j].base
    ensures SortedByBase(s + t)
  {
  }

  lemma InsertSortedSorted(s: seq<Region>, e: Region)
    requires SortedByBase(s)
    ensures SortedByBase(InsertSorted(s, e))
  {
    var p := SortedPos(s, e.base);
    LaterBases(s, e.base, s[p..]);
    SortedConcat(s[..p], [e]);
    SortedConcat(s[..p] + [e], s[p..]);
  }

  lemma InsertSortedStable(s: seq<Region>, e: Region, b: nat)
    requires SortedByBase(s)
    ensures WithBase(InsertSorted(s, e), b) == WithBase(s + [e], b)
  {
    var p := SortedPos(s, e.base);
    LaterBases(s, e.base, s[p..]);
    SwapBack(s[..p], e, s[p..], b, s);
  }

  lemma LaterBases(s: seq<Region>, b: nat, z: seq<Region>)
    requires SortedByBase(s) && z == s[SortedPos(s, b)..]
    ensures forall k :: 0 <= k < |z| ==> z[k].base > b
  {
    var p := SortedPos(s, b);
    forall k | 0 <= k < |z| ensures z[k].base > b {
      assert z[k] == s[p + k] && s[p].base <= s[p + k].base;
    }
  }

  /** Entries with other bases can move past e. */
  lemma SwapBack(x: seq<Region>, e: Region, z: seq<Region>, b: nat, s: seq<Region>)
    requires s == x + z && forall k :: 0 <= k < |z| ==> e.base != z[k].base
    ensures WithBase(x + [e] + z, b) == WithBase(s + [e], b)
  {
    WithBaseConcat(x + [e], z, b);
    WithBaseConcat(x, [e], b);
    WithBaseConcat(s, [e], b);
    WithBaseConcat(x, z, b);
    if e.base == b { WithBaseEmpty(z, b); } else { WithBaseEmpty([e], b); }
    EmptyCommutes(WithBase(x, b), WithBase([e], b), WithBase(z, b));
  }

  lemma EmptyCommutes<T>(x: seq<T>, y: seq<T>, z: seq<T>)
    requires y == [] || z == []
    ensures x + y + z == x + z + y
  {
  }

  lemma {:induction false} SortByBaseSorted(raw: seq<Region>)
    ensures SortedByBase(SortByBase(raw))
  {
    if raw != [] {
      SortByBaseSorted(raw[..|raw| - 1]);
      InsertSortedSorted(SortByBase(raw[..|raw| - 1]), raw[|raw| - 1]);
    }
  }

  /** The sort is sorted and, for every base, keeps the entries with that base in their original order. */
  lemma {:induction false} SortByBaseStable(raw: seq<Region>, b: nat)
    ensures SortedByBase(SortByBase(raw))
    ensures WithBase(SortByBase(raw), b) == WithBase(raw, b)
  {
    SortByBaseSorted(raw);
    if raw != [] {
      var init, e := raw[..|raw| - 1], raw[|raw| - 1];
      SortByBaseStable(init, b);
      InsertSortedStable(SortByBase(init), e, b);
      WithBaseConcat(SortByBase(init), [e], b);
      WithBaseConcat(init, [e], b);
      assert init + [e] == raw;
    }
  }

  lemma InsertSortedMeaning(s: seq<Region>, e: Region, a: nat)
    ensures Best(AlignAll(InsertSorted(s, e)), a) == Max(Best(AlignAll(s), a), Best(AlignAll([e]), a))
    ensures Count(AlignAll(InsertSorted(s, e)), a) == Count(AlignAll(s), a) + Count(AlignAll([e]), a)
  {
    var p := SortedPos(s, e.base);
    SplitMeaning(s[..p], [e], s[p..], a);
    assert s[..p] + s[p..] == s;
  }

  /** Sorting changes neither the best priority nor the number of holders of a page. */
  lemma {:induction false} SortKeepsMeaning(raw: seq<Region>, a: nat)
    ensures Best(AlignAll(SortByBase(raw)), a) == Best(AlignAll(raw), a)
    ensures Count(AlignAll(SortByBase(raw)), a) == Count(AlignAll(raw), a)
  {
    if raw != [] {
      var init, e := raw[..|raw| - 1], raw[|raw| - 1];
      SortKeepsMeaning(init, a);
      InsertSortedMeaning(SortByBase(init), e, a);
      SplitMeaning(init, [e], [], a);
      assert init + [e] + [] == raw && init + [] == init;
    }
  }

  lemma SplitMeaning(x: seq<Region>, y: seq<Region>, z: seq<Region>, a: nat)
    ensures Best(AlignAll(x + y + z), a) == Max(Best(AlignAll(x + z), a), Best(AlignAll(y), a))
    ensures Count(AlignAll(x + y + z), a) == Count(AlignAll(x + z), a) + Count(AlignAll(y), a)
  {
    AlignAllConcat(x + y, z);
    AlignAllConcat(x, y);
    AlignAllConcat(x, z);
    var x', y', z' := AlignAll(x), AlignAll(y), AlignAll(z);
    BestConcat(x' + y', z', a);
    BestConcat(x', y', a);
    BestConcat(x', z', a);
    CountConcat(x' + y', z', a);
    CountConcat(x', y', a);
    CountConcat(x', z', a);
  }

  lemma {:induction false} SortedAligned(es: seq<Region>)
    requires SortedByBase(es) && RawMap(es) && NoneWraps(es)
    ensures SortedByBase(AlignAll(es))
    ensures forall i :: 0 <= i < |AlignAll(es)| ==> es != [] && AlignAll(es)[i].base <= AlignUp(es[|es| - 1].base)
  {
    if |es| > 1 {
      SortedAligned(es[..|es| - 1]);
      AlignUpMonotone(es[|es| - 2].base, es[|es| - 1].base);
    } else if |es| == 1 {
      assert AlignAll(es[..0]) == [];
    }
  }

  lemma AlignUpMonotone(x: nat, y: nat)
    requires x <= y <= U64 - PAGE_SIZE
    ensures AlignUp(x) <= AlignUp(y)
  {
  }

  /** Sorting neither adds entries nor changes any. */
  lemma SortRaw(raw: seq<Region>)
    requires RawMap(raw)
    ensures RawMap(SortByBase(raw))
    ensures NoneWraps(raw) ==> NoneWraps(SortByBase(raw))
  {
    forall i | 0 <= i < |SortByBase(raw)|
      ensures RawEntry(SortByBase(raw)[i]) && (NoneWraps(raw) ==> !Wraps(SortByBase(raw)[i]))
    {
      InsertAllMember([], raw, SortByBase(raw)[i]);
    }
  }

  // ---- The whole of normalize ----

  function ResolveAll(es: seq<Region>): seq<Region> {
    if es == [] then [] else Resolve(ResolveAll(es[..|es| - 1]), es[|es| - 1])
  }

  lemma {:induction false} ResolveAllBest(es: seq<Region>, a: nat)
    requires AllGood(es)
    ensures AllGood(ResolveAll(es)) && Best(ResolveAll(es), a) == Best(es, a)
  {
    if es != [] {
      ResolveAllBest(es[..|es| - 1], a);
      ResolveGood(ResolveAll(es[..|es| - 1]), es[|es| - 1]);
      ResolveBest(ResolveAll(es[..|es| - 1]), es[|es| - 1], a);
    }
  }

  /** Where the regions of a resolved list begin: at old bases, at n's own ends, or behind a winner. */
  ghost predicate StartsWell(rs: seq<Region>, n: Region, b: nat) {
    b == n.base || StartsOld(rs, b) || StartsBehindNew(rs, n, b) || StartsBehindWinner(rs, n, b)
  }

  ghost predicate StartsOld(rs: seq<Region>, b: nat) {
    exists i :: 0 <= i < |rs| && b == rs[i].base
  }

  ghost predicate StartsBehindNew(rs: seq<Region>, n: Region, b: nat) {
    b == End(n) && exists i :: 0 <= i < |rs| && rs[i].base < End(n) < End(rs[i])
  }

  ghost predicate StartsBehindWinner(rs: seq<Region>, n: Region, b: nat) {
    exists i :: 0 <= i < |rs| && b == End(rs[i]) && n.base < b < End(n)
  }

  lemma {:induction false} CutAllStarts(rs: seq<Region>, n: Region, k: nat)
    requires k < |CutAll(rs, n)|
    ensures StartsWell(rs, n, CutAll(rs, n)[k].base)
    decreases |rs|
  {
    var init, r := rs[..|rs| - 1], rs[|rs| - 1];
    assert r == rs[|rs| - 1];
    if k < |CutAll(init, n)| {
      CutAllStarts(init, n, k);
      StartsMonotone(init, rs, n, CutAll(rs, n)[k].base);
    }
  }

  lemma StartsMonotone(s: seq<Region>, rs: seq<Region>, n: Region, b: nat)
    requires s <= rs && StartsWell(s, n, b)
    ensures StartsWell(rs, n, b)
  {
    forall i | 0 <= i < |s| ensures s[i] == rs[i] {}
  }

  lemma {:induction false} InsertAllMember(rs: seq<Region>, ps: seq<Region>, x: Region)
    requires x in InsertAll(rs, ps)
    ensures x in rs || x in ps
  {
    if ps != [] {
      if x != ps[|ps| - 1] { InsertAllMember(rs, ps[..|ps| - 1], x); }
    }
  }

  lemma ResolveStarts(rs: seq<Region>, n: Region, x: Region)
    requires x in Resolve(rs, n)
    ensures StartsWell(rs, n, x.base)
  {
    var w := FirstWinner(rs, n);
    var cut := CutAll(rs[..w], n);
    if w == |rs| {
      assert rs[..w] == rs;
      if x != n {
        var k :| 0 <= k < |cut| && cut[k] == x;
        CutAllStarts(rs, n, k);
      }
    } else {
      InsertAllMember(cut + rs[w..], Pieces(n, rs[w]), x);
      if x in cut {
        var k :| 0 <= k < |cut| && cut[k] == x;
        CutAllStarts(rs[..w], n, k);
        StartsMonotone(rs[..w], rs, n, x.base);
      }
    }
  }

  /** Every region that begins after the latest entry's base begins right behind a doubly covered address. */
  ghost predicate TailDoubled(rs: seq<Region>, es: seq<Region>) {
    forall i :: 0 <= i < |rs| && es != [] && rs[i].base > es[|es| - 1].base ==> Count(es, rs[i].base - 1) >= 2
  }

  ghost predicate SameBest(rs: seq<Region>, es: seq<Region>) {
    forall a: nat :: Best(rs, a) == Best(es, a)
  }

  lemma BestAt(rs: seq<Region>, es: seq<Region>, a: nat)
    requires SameBest(rs, es)
    ensures Best(rs, a) == Best(es, a)
  {
  }

  lemma CoveredCount(rs: seq<Region>, es: seq<Region>, i: nat, a: nat)
    requires i < |rs| && Covers(rs[i], a) && Best(rs, a) == Best(es, a)
    ensures Count(es, a) >= 1
  {
    BestMember(rs, i, a);
    var k := BestWitness(es, a);
    CountMember(es, k, a);
  }

  lemma StartDoubled(rs: seq<Region>, es: seq<Region>, n: Region, b: nat)
    requires AllGood(rs) && Good(n) && TailDoubled(rs, es) && StartsWell(rs, n, b)
    requires SameBest(rs, es)
    requires es != [] ==> es[|es| - 1].base <= n.base
    requires b > n.base
    ensures Count(es + [n], b - 1) >= 2
  {
    BestAt(rs, es, b);
    BestAt(rs, es, b - 1);
    if StartsOld(rs, b) {
      OldDoubled(rs, es, n, b);
    } else {
      BehindDoubled(rs, es, n, b);
    }
  }

  lemma OldDoubled(rs: seq<Region>, es: seq<Region>, n: Region, b: nat)
    requires AllGood(rs) && TailDoubled(rs, es) && b > n.base && Best(rs, b) == Best(es, b) && StartsOld(rs, b)
    requires es != [] ==> es[|es| - 1].base <= n.base
    ensures Count(es + [n], b - 1) >= 2
  {
    var i :| 0 <= i < |rs| && b == rs[i].base;
    OldStart(rs, es, n, i);
  }

  lemma BehindDoubled(rs: seq<Region>, es: seq<Region>, n: Region, b: nat)
    requires AllGood(rs) && Good(n) && b > n.base && Best(rs, b - 1) == Best(es, b - 1)
    requires StartsBehindNew(rs, n, b) || StartsBehindWinner(rs, n, b)
    ensures Count(es + [n], b - 1) >= 2
  {
    if StartsBehindNew(rs, n, b) {
      var i :| 0 <= i < |rs| && rs[i].base < End(n) < End(rs[i]);
      BehindBoth(rs, es, n, i, b);
    } else {
      var i :| 0 <= i < |rs| && b == End(rs[i]) && n.base < b < End(n);
      BehindBoth(rs, es, n, i, b);
    }
  }

  lemma OldStart(rs: seq<Region>, es: seq<Region>, n: Region, i: nat)
    requires i < |rs| && Good(rs[i]) && TailDoubled(rs, es) && rs[i].base > n.base
    requires Best(rs, rs[i].base) == Best(es, rs[i].base)
    requires es != [] ==> es[|es| - 1].base <= n.base
    ensures Count(es + [n], rs[i].base - 1) >= 2
  {
    CoveredCount(rs, es, i, rs[i].base);
    CountAdd(es, n, rs[i].base - 1);
  }

  lemma BehindBoth(rs: seq<Region>, es: seq<Region>, n: Region, i: nat, b: nat)
    requires i < |rs| && b > 0 && Covers(rs[i], b - 1) && Covers(n, b - 1) && Best(rs, b - 1) == Best(es, b - 1)
    ensures Count(es + [n], b - 1) >= 2
  {
    CountAdd(es, n, b - 1);
    CoveredCount(rs, es, i, b - 1);
  }

  lemma ResolveTail(rs: seq<Region>, es: seq<Region>, n: Region, out: seq<Region>)
    requires AllGood(rs) && Good(n) && TailDoubled(rs, es)
    requires SameBest(rs, es)
    requires es != [] ==> es[|es| - 1].base <= n.base
    requires forall i :: 0 <= i < |out| ==> StartsWell(rs, n, out[i].base)
    ensures TailDoubled(out, es + [n])
  {
    var all := es + [n];
    assert all[|all| - 1] == n;
    forall i | 0 <= i < |out| && out[i].base > n.base ensures Count(all, out[i].base - 1) >= 2 {
      StartDoubled(rs, es, n, out[i].base);
    }
  }

  lemma AllStart(rs: seq<Region>, n: Region)
    ensures forall i :: 0 <= i < |Resolve(rs, n)| ==> StartsWell(rs, n, Resolve(rs, n)[i].base)
  {
    var out := Resolve(rs, n);
    forall i | 0 <= i < |out| ensures StartsWell(rs, n, out[i].base) { ResolveStarts(rs, n, out[i]); }
  }

  /** A blocked n, the region it is blocked before, and the two entries behind that region's start make three. */
  lemma BlockedTriple(rs: seq<Region>, es: seq<Region>, n: Region, i: nat, j: nat)
    requires AllGood(rs) && Good(n) && Disjoint(rs) && TailDoubled(rs, es)
    requires i < j < |rs| && Overlap(rs[i], n) && Overlap(rs[j], n)
    requires Best(rs, rs[i].base) == Best(es, rs[i].base)
    requires es != [] ==> es[|es| - 1].base <= n.base
    ensures rs[j].base > n.base && Count(es + [n], rs[j].base - 1) >= 3
  {
    assert n.base < End(rs[i]) <= rs[j].base;
    CountAdd(es, n, rs[j].base - 1);
    CoveredCount(rs, es, i, rs[i].base);
    assert es != [];
  }

  /** With at most two entries over any address, no insertion is ever blocked. */
  lemma TwoNeverBlocked(rs: seq<Region>, es: seq<Region>, n: Region)
    requires AllGood(rs) && Good(n) && Disjoint(rs) && TailDoubled(rs, es)
    requires SameBest(rs, es)
    requires es != [] ==> es[|es| - 1].base <= n.base
    requires forall a: nat :: Count(es + [n], a) <= 2
    ensures !Blocked(rs, n)
  {
    forall i, j | 0 <= i < j < |rs| && Overlap(rs[i], n) && Overlap(rs[j], n) ensures false {
      BlockedTriple(rs, es, n, i, j);
    }
  }

  lemma TwoStep(rs: seq<Region>, es: seq<Region>, n: Region)
    requires AllGood(rs) && Good(n) && Disjoint(rs) && TailDoubled(rs, es)
    requires SameBest(rs, es)
    requires es != [] ==> es[|es| - 1].base <= n.base
    requires forall a: nat :: Count(es + [n], a) <= 2
    ensures Disjoint(Resolve(rs, n)) && TailDoubled(Resolve(rs, n), es + [n])
  {
    TwoNeverBlocked(rs, es, n);
    UnblockedDisjoint(rs, n);
    AllStart(rs, n);
    ResolveTail(rs, es, n, Resolve(rs, n));
  }

  lemma {:induction false} ResolveAllDisjoint(es: seq<Region>)
    requires AllGood(es) && SortedByBase(es) && forall a: nat :: Count(es, a) <= 2
    ensures Disjoint(ResolveAll(es)) && TailDoubled(ResolveAll(es), es)
  {
    if es != [] {
      var init, n := es[..|es| - 1], es[|es| - 1];
      assert init + [n] == es;
      forall a: nat ensures Count(init, a) <= 2 { assert Count(es, a) <= 2; }
      ResolveAllDisjoint(init);
      forall a: nat ensures Best(ResolveAll(init), a) == Best(init, a) { ResolveAllBest(init, a); }
      ResolveAllBest(init, 0);
      TwoStep(ResolveAll(init), init, n);
    }
  }

  lemma CutAligned(r: Region, n: Region)
    requires Good(r) && Good(n) && PageAligned(r) && PageAligned(n)
    ensures AllAligned(Cut(r, n)) && AllAligned(Pieces(r, n))
  {
    EndAligned(r);
    EndAligned(n);
    SpanAligned(r.base, n.base, r.kind);
    SpanAligned(End(n), End(r), r.kind);
  }

  lemma EndAligned(r: Region)
    requires Good(r) && PageAligned(r)
    ensures End(r) % PAGE_SIZE == 0
  {
  }

  lemma SpanAligned(from: nat, to: nat, kind: MemoryType)
    requires from % PAGE_SIZE == 0 && to % PAGE_SIZE == 0
    ensures from <= to ==> PageAligned(Region(from, to - from, kind))
  {
  }

  lemma {:induction false} CutAllAligned(rs: seq<Region>, n: Region)
    requires AllGood(rs) && Good(n) && AllAligned(rs) && PageAligned(n)
    ensures AllAligned(CutAll(rs, n))
  {
    if rs != [] {
      CutAllAligned(rs[..|rs| - 1], n);
      CutAligned(rs[|rs| - 1], n);
    }
  }

  lemma {:induction false} InsertAllAligned(rs: seq<Region>, ps: seq<Region>)
    requires AllAligned(rs) && AllAligned(ps)
    ensures AllAligned(InsertAll(rs, ps))
  {
    if ps != [] { InsertAllAligned(rs, ps[..|ps| - 1]); }
  }

  lemma ResolveAligned(rs: seq<Region>, n: Region)
    requires AllGood(rs) && Good(n) && AllAligned(rs) && PageAligned(n)
    ensures AllAligned(Resolve(rs, n))
  {
    var w := FirstWinner(rs, n);
    CutAllAligned(rs[..w], n);
    if w == |rs| {
      assert rs[..w] == rs;
    } else {
      CutAligned(n, rs[w]);
      InsertAllAligned(CutAll(rs[..w], n) + rs[w..], Pieces(n, rs[w]));
    }
  }

  lemma {:induction false} ResolveAllAligned(es: seq<Region>)
    requires AllGood(es) && AllAligned(es)
    ensures AllAligned(ResolveAll(es))
  {
    if es != [] {
      ResolveAllAligned(es[..|es| - 1]);
      ResolveAllBest(es[..|es| - 1], 0);
      ResolveAligned(ResolveAll(es[..|es| - 1]), es[|es| - 1]);
    }
  }

  function Normalized(raw: seq<Region>): seq<Region> {
    MergeFrom(ResolveAll(AlignAll(SortByBase(raw))), 0)
  }

  method NormalizeMap(raw: seq<Region>) returns (regions: seq<Region>)
    requires RawMap(raw)
    ensures regions == Normalized(raw)
  {
    if |raw| == 0 {
      return [];
    }
    var entries := InsertPieces([], raw);
    SortRaw(raw);
    AlignAllShape(entries);
    entries := AlignEntries(entries);
    regions := ResolveEntries(entries);
    regions := MergeAdjacent(regions);
  }

  method ResolveEntries(entries: seq<Region>) returns (regions: seq<Region>)
    requires AllGood(entries)
    ensures regions == ResolveAll(entries)
  {
    regions := [];
    for i := 0 to |entries|
      invariant AllGood(regions) && regions == ResolveAll(entries[..i])
    {
      assert entries[..i + 1][..i] == entries[..i];
      ResolveGood(regions, entries[i]);
      regions := InsertWithOverlap(regions, entries[i]);
    }
    assert entries[..|entries|] == entries;
  }

  /**
   For every firmware map, however its entries overlap: the highest-priority type covering an address is that of the
   entries holding its whole page and, below the last page of memory, of the entries that wrap.
   */
  lemma NormalizedBest(raw: seq<Region>, a: nat)
    requires RawMap(raw)
    ensures Best(Normalized(raw), a)
         == Max(PageBest(raw, AlignDown(a)), if a < U64 - PAGE_SIZE then WrappedBest(raw) else -1)
    ensures NoneWraps(raw) ==> Best(Normalized(raw), a) == PageBest(raw, AlignDown(a))
  {
    var es := AlignAll(SortByBase(raw));
    SortRaw(raw);
    AlignAllShape(SortByBase(raw));
    ResolveAllBest(es, a);
    MergeFromBest(ResolveAll(es), 0, a);
    SortKeepsMeaning(raw, a);
    AlignAllMeaning(raw, a);
    NoneWrapped(raw);
    PageBestLeast(raw, AlignDown(a));
  }

  lemma {:induction false} PageBestLeast(raw: seq<Region>, p: nat)
    ensures PageBest(raw, p) >= -1
  {
    if raw != [] { PageBestLeast(raw[..|raw| - 1], p); }
  }

  /** The output is page-aligned, free of empty regions and fully merged. */
  lemma NormalizedShape(raw: seq<Region>)
    requires RawMap(raw)
    ensures var out := Normalized(raw);
            && AllGood(out) && AllAligned(out)
            && forall j :: 0 <= j < |out| - 1 ==>
                 out[j].kind != out[j + 1].kind || out[j].base + out[j].length != out[j + 1].base
  {
    var es := AlignAll(SortByBase(raw));
    SortRaw(raw);
    AlignAllShape(SortByBase(raw));
    ResolveAllBest(es, 0);
    ResolveAllAligned(es);
    MergeFromShape(ResolveAll(es), 0);
  }

  // ---- Disjointness of a whole map ----

  /** The map stays disjoint entry after entry. */
  ghost predicate CleanPrefixes(es: seq<Region>) {
    forall k :: 0 <= k <= |es| ==> Disjoint(ResolveAll(es[..k]))
  }

  /** No entry meets a region that outranks it in front of another region it meets. */
  ghost predicate NeverBlocked(es: seq<Region>) {
    forall k :: 0 <= k < |es| ==> !Blocked(ResolveAll(es[..k]), es[k])
  }

  lemma PrefixStep(es: seq<Region>, k: nat)
    requires AllGood(es) && k < |es| && Disjoint(ResolveAll(es[..k]))
    ensures Disjoint(ResolveAll(es[..k + 1])) <==> !Blocked(ResolveAll(es[..k]), es[k])
  {
    assert es[..k + 1][..k] == es[..k];
    ResolveAllBest(es[..k], 0);
    ResolveDisjointIff(ResolveAll(es[..k]), es[k]);
  }

  lemma {:induction false} NeverBlockedPrefix(es: seq<Region>, k: nat)
    requires AllGood(es) && NeverBlocked(es) && k <= |es|
    ensures Disjoint(ResolveAll(es[..k]))
  {
    if k == 0 {
      assert es[..0] == [];
    } else {
      NeverBlockedPrefix(es, k - 1);
      PrefixStep(es, k - 1);
    }
  }

  /** For every list of entries: the map is disjoint after each of them if and only if none of them is blocked. */
  lemma CleanIffNeverBlocked(es: seq<Region>)
    requires AllGood(es)
    ensures CleanPrefixes(es) <==> NeverBlocked(es)
  {
    if NeverBlocked(es) {
      forall k | 0 <= k <= |es| ensures Disjoint(ResolveAll(es[..k])) { NeverBlockedPrefix(es, k); }
    }
    if CleanPrefixes(es) {
      forall k | 0 <= k < |es| ensures !Blocked(ResolveAll(es[..k]), es[k]) {
        assert Disjoint(ResolveAll(es[..k])) && Disjoint(ResolveAll(es[..k + 1]));
        PrefixStep(es, k);
      }
    }
  }

  /** Every covered address of a region has the region's type as its type of highest priority. */
  ghost predicate BestTyped(out: seq<Region>, raw: seq<Region>) {
    forall i, a: nat :: 0 <= i < |out| && Covers(out[i], a) ==> Priority(out[i].kind) == PageBest(raw, AlignDown(a))
  }

  /**
   If no entry is blocked, the output is sorted and disjoint, and, without wrapping, has the types of highest priority.
   */
  lemma UnblockedNormalized(raw: seq<Region>)
    requires RawMap(raw) && NeverBlocked(AlignAll(SortByBase(raw)))
    ensures Disjoint(Normalized(raw))
    ensures NoneWraps(raw) ==> BestTyped(Normalized(raw), raw)
  {
    var es, out := AlignAll(SortByBase(raw)), Normalized(raw);
    SortRaw(raw);
    AlignAllShape(SortByBase(raw));
    NeverBlockedPrefix(es, |es|);
    assert es[..|es|] == es;
    ResolveAllBest(es, 0);
    MergeFromShape(ResolveAll(es), 0);
    if NoneWraps(raw) {
      forall i, a: nat | 0 <= i < |out| && Covers(out[i], a)
        ensures Priority(out[i].kind) == PageBest(raw, AlignDown(a))
      {
        DisjointBest(out, i, a);
        NormalizedBest(raw, a);
      }
    }
  }

  ghost predicate AtMostTwo(es: seq<Region>) {
    forall a: nat :: Count(es, a) <= 2
  }

  /** With at most two entries over any address, sorted by base, no entry is blocked. */
  lemma TwoHoldersNeverBlocked(es: seq<Region>)
    requires AllGood(es) && SortedByBase(es) && AtMostTwo(es)
    ensures NeverBlocked(es)
  {
    forall k | 0 <= k < |es| ensures !Blocked(ResolveAll(es[..k]), es[k]) {
      PrefixSorted(es, k, es[..k] + [es[k]]);
      PrefixTwo(es, k, es[..k] + [es[k]]);
      LastUnblocked(es[..k], es[k]);
    }
  }

  lemma PrefixSorted(es: seq<Region>, k: nat, head: seq<Region>)
    requires SortedByBase(es) && k < |es| && head == es[..k] + [es[k]]
    ensures SortedByBase(head)
  {
    assert forall i :: 0 <= i < |head| ==> head[i] == es[i];
  }

  lemma PrefixTwo(es: seq<Region>, k: nat, head: seq<Region>)
    requires AtMostTwo(es) && k < |es| && head == es[..k] + [es[k]]
    ensures AtMostTwo(head)
  {
    assert head == es[..k + 1];
    forall a: nat ensures Count(head, a) <= 2 { CountPrefix(es, k + 1, a); }
  }

  lemma CountPrefix(es: seq<Region>, k: nat, a: nat)
    requires k <= |es|
    ensures Count(es[..k], a) <= Count(es, a)
  {
    CountConcat(es[..k], es[k..], a);
    assert es[..k] + es[k..] == es;
  }

  lemma LastUnblocked(init: seq<Region>, n: Region)
    requires AllGood(init) && Good(n) && SortedByBase(init + [n]) && AtMostTwo(init + [n])
    ensures !Blocked(ResolveAll(init), n)
  {
    var es := init + [n];
    assert forall i :: 0 <= i < |init| ==> es[i] == init[i];
    forall a: nat ensures Count(init, a) <= 2 { CountAdd(init, n, a); }
    ResolveAllDisjoint(init);
    forall a: nat ensures Best(ResolveAll(init), a) == Best(init, a) { ResolveAllBest(init, a); }
    ResolveAllBest(init, 0);
    assert init != [] ==> es[|init| - 1].base <= es[|init|].base;
    TwoNeverBlocked(ResolveAll(init), init, n);
  }

  /** Every address of the aligned, sorted map has as many entries over it as its page has holders. */
  lemma AlignedCount(raw: seq<Region>, a: nat)
    requires RawMap(raw) && NoneWraps(raw) && forall p: nat :: p % PAGE_SIZE == 0 ==> PageHolders(raw, p) <= 2
    ensures Count(AlignAll(SortByBase(raw)), a) <= 2
  {
    SortKeepsMeaning(raw, a);
    AlignAllMeaning(raw, a);
    NoneWrapped(raw);
    AlignDownRounds(a);
  }

  /**
   If no page has more than two holders, the output is sorted and disjoint, and every region has the type of highest
   priority.
   */
  lemma NormalizedDisjoint(raw: seq<Region>)
    requires RawMap(raw) && NoneWraps(raw) && forall p: nat :: p % PAGE_SIZE == 0 ==> PageHolders(raw, p) <= 2
    ensures Disjoint(Normalized(raw)) && BestTyped(Normalized(raw), raw)
  {
    var es := AlignAll(SortByBase(raw));
    SortRaw(raw);
    AlignAllShape(SortByBase(raw));
    SortByBaseStable(raw, 0);
    SortedAligned(SortByBase(raw));
    forall a: nat ensures Count(es, a) <= 2 { AlignedCount(raw, a); }
    TwoHoldersNeverBlocked(es);
    UnblockedNormalized(raw);
  }

  // ---- Overlaps in the final map ----

  /** How often an address is covered in the end: what the insertion of the last entry over it left there. */
  function Layers(es: seq<Region>, a: nat): nat {
    if es == [] then 0
    else
      var init, n := es[..|es| - 1], es[|es| - 1];
      if Covers(n, a) then CountInside(ResolveAll(init), n, a) else Layers(init, a)
  }

  lemma {:induction false} LayersCount(es: seq<Region>, a: nat)
    requires AllGood(es)
    ensures Count(ResolveAll(es), a) == Layers(es, a)
  {
    if es != [] {
      var init := es[..|es| - 1];
      LayersCount(init, a);
      ResolveAllBest(init, a);
      ResolveCount(ResolveAll(init), es[|es| - 1], a);
    }
  }

  lemma NormalizedCount(raw: seq<Region>, a: nat)
    requires RawMap(raw)
    ensures Count(Normalized(raw), a) == Layers(AlignAll(SortByBase(raw)), a)
  {
    var es := AlignAll(SortByBase(raw));
    SortRaw(raw);
    AlignAllShape(SortByBase(raw));
    ResolveAllBest(es, 0);
    LayersCount(es, a);
    MergeFromCount(ResolveAll(es), 0, a);
  }

  ghost predicate OneLayer(es: seq<Region>) {
    forall a: nat :: Layers(es, a) <= 1
  }

  lemma OneCoverIff(raw: seq<Region>)
    requires RawMap(raw)
    ensures OneCover(Normalized(raw)) <==> OneLayer(AlignAll(SortByBase(raw)))
  {
    var out, es := Normalized(raw), AlignAll(SortByBase(raw));
    forall a: nat ensures Count(out, a) == Layers(es, a) { NormalizedCount(raw, a); }
    if OneCover(out) {
      forall a: nat ensures Layers(es, a) <= 1 { assert Count(out, a) <= 1; }
    }
  }

  /**
   For every map: no two regions of the output overlap if and only if, at every address, the last entry over it either
   met no region that outranks it, or left just one region over that address.
   */
  lemma NormalizedApartIff(raw: seq<Region>)
    requires RawMap(raw)
    ensures PairwiseApart(Normalized(raw)) <==> OneLayer(AlignAll(SortByBase(raw)))
  {
    NormalizedShape(raw);
    ApartIffCount(Normalized(raw));
    OneCoverIff(raw);
  }

  lemma InsertAppends(s: seq<Region>, e: Region)
    requires forall i :: 0 <= i < |s| ==> s[i].base <= e.base
    ensures InsertSorted(s, e) == s + [e]
  {
    assert SortedPos(s, e.base) == |s|;
  }

  lemma {:induction false} SortIdentity(raw: seq<Region>)
    requires SortedByBase(raw)
    ensures SortByBase(raw) == raw
  {
    if raw != [] {
      SortIdentity(raw[..|raw| - 1]);
      InsertAppends(raw[..|raw| - 1], raw[|raw| - 1]);
    }
  }

  lemma {:induction false} AlignIdentity(raw: seq<Region>)
    requires AlreadyAligned(raw)
    ensures AlignAll(raw) == raw
  {
    if raw != [] { AlignIdentity(raw[..|raw| - 1]); }
  }

  /** Merging keeps the number of regions over every address. */
  lemma {:induction false} MergeFromCount(rs: seq<Region>, i: nat, a: nat)
    requires AllGood(rs)
    ensures Count(MergeFrom(rs, i), a) == Count(rs, a)
    decreases |rs| - i
  {
    if i + 1 < |rs| {
      if Mergeable(rs[i], rs[i + 1]) {
        MergedShape(rs, i);
        MergedCount(rs, i, a);
        MergeFromCount(Merged(rs, i), i, a);
      } else {
        MergeFromCount(rs, i + 1, a);
      }
    }
  }

  lemma MergedCount(rs: seq<Region>, i: nat, a: nat)
    requires AllGood(rs) && i + 1 < |rs| && Mergeable(rs[i], rs[i + 1])
    ensures Count(Merged(rs, i), a) == Count(rs, a)
  {
    var m := rs[i].(length := rs[i].length + rs[i + 1].length);
    assert Merged(rs, i) == rs[..i] + [m] + rs[i + 2..];
    assert rs == rs[..i] + [rs[i]] + [rs[i + 1]] + rs[i + 2..];
    CountConcat(rs[..i] + [m], rs[i + 2..], a);
    CountConcat(rs[..i] + [rs[i]] + [rs[i + 1]], rs[i + 2..], a);
    CountAdd(rs[..i], m, a);
    CountAdd(rs[..i], rs[i], a);
    CountAdd(rs[..i] + [rs[i]], rs[i + 1], a);
  }

  /**
   Processing the last of a sorted, aligned list of entries: the result is disjoint exactly when that entry is not
   blocked.
   */
  lemma LastEntryDecides(es: seq<Region>)
    requires es != [] && AllGood(es) && Disjoint(ResolveAll(es[..|es| - 1]))
    ensures Disjoint(MergeFrom(ResolveAll(es), 0)) <==> !Blocked(ResolveAll(es[..|es| - 1]), es[|es| - 1])
  {
    var rs, n := ResolveAll(es[..|es| - 1]), es[|es| - 1];
    ResolveAllBest(es, 0);
    ResolveAllBest(es[..|es| - 1], 0);
    MergeFromShape(ResolveAll(es), 0);
    if Blocked(rs, n) {
      var a := BlockedDoubled(rs, n);
      MergeFromCount(ResolveAll(es), 0, a);
      if Disjoint(MergeFrom(ResolveAll(es), 0)) { DisjointCount(MergeFrom(ResolveAll(es), 0), a); }
    } else {
      UnblockedDisjoint(rs, n);
    }
  }

  lemma {:induction false} CountBound(rs: seq<Region>, a: nat)
    ensures Count(rs, a) <= |rs|
  {
    if rs != [] { CountBound(rs[..|rs| - 1], a); }
  }

  lemma PairBest(x: Region, k: Region, a: nat)
    ensures Best([x, k], a) == Max(PriorityAt(x, a), PriorityAt(k, a))
  {
    BestConcat([x], [k], a);
    BestOne(x, a);
    BestOne(k, a);
    assert [x] + [k] == [x, k];
  }

  /** n starts inside a higher-ranked k and ends beyond it, where the lower-ranked x is still present. */
  predicate Nested(x: Region, k: Region, n: Region) {
    && Good(x) && Good(k) && Good(n)
    && x.base <= k.base <= n.base < End(k) < End(n) && End(k) < End(x)
    && Priority(x.kind) < Priority(k.kind) && Priority(n.kind) < Priority(k.kind)
  }

  lemma NestedBlocked(x: Region, k: Region, n: Region)
    requires Nested(x, k, n)
    ensures Disjoint(ResolveAll([x, k])) && Blocked(ResolveAll([x, k]), n)
  {
    var es := [x, k];
    forall a: nat ensures Count(es, a) <= 2 { CountBound(es, a); }
    ResolveAllDisjoint(es);
    ResolveAllBest(es, n.base);
    ResolveAllBest(es, End(k));
    PairBest(x, k, n.base);
    PairBest(x, k, End(k));
    KindsBlock(ResolveAll(es), n, n.base, End(k));
  }

  /** A winner at a and another region at a later address b, both inside n. */
  lemma KindsBlock(rs: seq<Region>, n: Region, a: nat, b: nat)
    requires Disjoint(rs) && Covers(n, a) && Covers(n, b) && a < b
    requires Best(rs, a) > Priority(n.kind) && 0 <= Best(rs, b) != Best(rs, a)
    ensures Blocked(rs, n)
  {
    var i := BestWitness(rs, a);
    var j := BestWitness(rs, b);
    assert i < j && Wins(rs[i], n) && Overlap(rs[j], n);
  }

  /** On a sorted, aligned map only resolution and merging do anything. */
  lemma NormalizedPlain(raw: seq<Region>)
    requires SortedByBase(raw) && AlreadyAligned(raw)
    ensures Normalized(raw) == MergeFrom(ResolveAll(raw), 0)
  {
    SortIdentity(raw);
    AlignIdentity(raw);
  }

  predicate AlreadyAligned(raw: seq<Region>) {
    forall i :: 0 <= i < |raw| ==> AlignEntry(raw[i]) == raw[i] && raw[i].length > 0
  }

  /** A sorted, aligned map whose last entry is blocked comes out overlapping. */
  lemma BlockedMapOverlaps(raw: seq<Region>)
    requires raw != [] && SortedByBase(raw) && AllGood(raw) && AlreadyAligned(raw)
    requires Disjoint(ResolveAll(raw[..|raw| - 1])) && Blocked(ResolveAll(raw[..|raw| - 1]), raw[|raw| - 1])
    ensures !Disjoint(Normalized(raw))
  {
    NormalizedPlain(raw);
    LastEntryDecides(raw);
  }

  /**
   Every such nested triple of aligned entries comes out overlapping: the piece of n behind k lands on the rest of x.
   */
  lemma NestedTripleOverlaps(x: Region, k: Region, n: Region)
    requires Nested(x, k, n) && AlignEntry(x) == x && AlignEntry(k) == k && AlignEntry(n) == n
    ensures !Disjoint(Normalized([x, k, n]))
  {
    var raw := [x, k, n];
    assert raw[..|raw| - 1] == [x, k];
    NestedBlocked(x, k, n);
    BlockedMapOverlaps(raw);
  }

  /** For instance, an ACPI NVS entry straddling the end of a reserved hole in usable memory. */
  lemma NvsBehindHoleOverlaps()
    ensures var x, k, n := Region(0, 0xA000, Usable), Region(0x2000, 0x2000, Reserved), Region(0x3000, 0x3000, AcpiNvs);
            Nested(x, k, n) && !Disjoint(Normalized([x, k, n]))
  {
    NestedTripleOverlaps(Region(0, 0xA000, Usable), Region(0x2000, 0x2000, Reserved), Region(0x3000, 0x3000, AcpiNvs));
  }

  // ---- Nested triples in detail ----

  lemma ResolveOne(n: Region)
    ensures ResolveAll([n]) == [n]
  {
    var es := [n];
    assert es[..0] == [] && ResolveAll([]) == [];
    assert ResolveAll(es) == Resolve([], n);
  }

  lemma ResolveLast(es: seq<Region>, n: Region)
    ensures ResolveAll(es + [n]) == Resolve(ResolveAll(es), n)
  {
    assert (es + [n])[..|es|] == es;
  }

  /** What is left of x in front of k, what is left behind it, and the piece of n behind k. */
  function Front(x: Region, k: Region): Region
    requires x.base <= k.base
  {
    Region(x.base, k.base - x.base, x.kind)
  }

  function Behind(x: Region, k: Region): Region
    requires End(k) <= End(x)
  {
    Region(End(k), End(x) - End(k), x.kind)
  }

  lemma OuterSplit(x: Region, k: Region)
    requires Good(x) && Good(k) && x.base < k.base && End(k) < End(x) && Priority(x.kind) < Priority(k.kind)
    ensures Resolve([x], k) == [Front(x, k), k, Behind(x, k)]
  {
    WinnerAt([x], k, 1);
    CutAllSnoc([], x, k);
    assert [] + [x] == [x];
    var cut := [Front(x, k), Behind(x, k)];
    assert CutAll([x], k) == [] + Cut(x, k) == cut;
    PositionAt(cut, k.base, 1);
    assert cut[..1] + [k] + cut[1..] == [Front(x, k), k, Behind(x, k)];
  }

  lemma PieceOnTop(f: Region, k: Region, b: Region, n: Region)
    requires Good(f) && Good(k) && Good(b) && Good(n) && End(f) <= n.base && k.base <= n.base < End(k) == b.base
    requires End(k) < End(n) && f.base <= k.base && Priority(n.kind) < Priority(k.kind)
    ensures Resolve([f, k, b], n) == [f, k, b, Behind(n, k)]
  {
    var rs, p := [f, k, b], Behind(n, k);
    WinnerAt(rs, n, 1);
    CutAllSnoc([], f, n);
    assert [] + [f] == [f] == rs[..1] && CutAll([f], n) == [] + [f];
    assert CutAll(rs[..1], n) + rs[1..] == rs;
    assert Pieces(n, k) == [p];
    InsertOne(rs, p);
    InsertAppends(rs, p);
  }

  lemma InsertOne(rs: seq<Region>, p: Region)
    ensures InsertAll(rs, [p]) == InsertSorted(rs, p)
  {
    assert [p][..0] == [];
  }

  /** A nested triple leaves the rest of x and the piece of n on the same addresses. */
  lemma NestedResolved(x: Region, k: Region, n: Region)
    requires Nested(x, k, n) && x.base < k.base
    ensures ResolveAll([x, k, n]) == [Front(x, k), k, Behind(x, k), Behind(n, k)]
  {
    ResolveOne(x);
    ResolveLast([x], k);
    ResolveLast([x, k], n);
    assert [x] + [k] == [x, k] && [x, k] + [n] == [x, k, n];
    OuterSplit(x, k);
    PieceOnTop(Front(x, k), k, Behind(x, k), n);
  }

  /** A later, higher-ranked entry over the doubly covered range hides the overlap again. */
  lemma TripleHidden(x: Region, k: Region, n: Region, b: Region)
    requires Nested(x, k, n) && x.base < k.base && Good(b) && b.kind == BadMemory && k.kind != BadMemory
    requires x.kind != BadMemory && End(k) == b.base && End(n) == End(b) < End(x)
    requires AlignEntry(x) == x && AlignEntry(k) == k && AlignEntry(n) == n && AlignEntry(b) == b
    ensures !NeverBlocked([x, k, n, b]) && Disjoint(Normalized([x, k, n, b]))
  {
    NestedBlocked(x, k, n);
    ThirdBlocked(x, k, n, b);
    TripleThen(x, k, n, b);
    PlainFour(x, k, n, b);
    FourApart(Front(x, k), k, b, Behind(x, b));
  }

  lemma ThirdBlocked(x: Region, k: Region, n: Region, b: Region)
    requires Blocked(ResolveAll([x, k]), n)
    ensures !NeverBlocked([x, k, n, b])
  {
    var es := [x, k, n, b];
    assert es[..2] == [x, k] && es[2] == n;
  }

  lemma PlainFour(x: Region, k: Region, n: Region, b: Region)
    requires x.base <= k.base <= n.base <= b.base && Good(x) && Good(k) && Good(n) && Good(b)
    requires AlignEntry(x) == x && AlignEntry(k) == k && AlignEntry(n) == n && AlignEntry(b) == b
    ensures Normalized([x, k, n, b]) == MergeFrom(ResolveAll([x, k, n, b]), 0)
  {
    NormalizedPlain([x, k, n, b]);
  }

  lemma FourApart(f: Region, k: Region, b: Region, y: Region)
    requires f.kind != k.kind && k.kind != b.kind && b.kind != y.kind
    requires f.base <= End(f) <= k.base <= End(k) <= b.base <= End(b) <= y.base
    ensures MergeFrom([f, k, b, y], 0) == [f, k, b, y] && Disjoint([f, k, b, y])
  {
    AlreadyMerged([f, k, b, y]);
  }

  /**
   For instance, bad memory reported over the NVS entry behind a hole: blocked on the way, and disjoint in the end.
   */
  lemma OverlapHiddenLater()
    ensures var x, k, n, b := Region(0, 0xA000, Usable), Region(0x2000, 0x2000, Reserved),
            Region(0x3000, 0x3000, AcpiNvs),
                              Region(0x4000, 0x2000, BadMemory);
            !NeverBlocked([x, k, n, b]) && Disjoint(Normalized([x, k, n, b]))
  {
    TripleHidden(Region(0, 0xA000, Usable), Region(0x2000, 0x2000, Reserved), Region(0x3000, 0x3000, AcpiNvs),
                 Region(0x4000, 0x2000, BadMemory));
  }

  lemma TripleThen(x: Region, k: Region, n: Region, b: Region)
    requires Nested(x, k, n) && x.base < k.base && Good(b) && b.kind == BadMemory
    requires End(k) == b.base && End(n) == End(b) < End(x)
    ensures ResolveAll([x, k, n, b]) == [Front(x, k), k, b, Behind(x, b)]
  {
    NestedResolved(x, k, n);
    ResolveLast([x, k, n], b);
    assert [x, k, n] + [b] == [x, k, n, b];
    CoverBoth(Front(x, k), k, Behind(x, k), Behind(n, k), b);
    assert Behind(Behind(x, k), b) == Behind(x, b);
  }

  lemma CoverBoth(f: Region, k: Region, y: Region, p: Region, b: Region)
    requires Good(f) && Good(k) && Good(y) && Good(p) && Good(b) && f.base <= k.base
    requires End(f) <= k.base && End(k) == b.base == y.base == p.base && End(p) == End(b) < End(y)
             && b.kind == BadMemory
    ensures Resolve([f, k, y, p], b) == [f, k, b, Behind(y, b)]
  {
    var rs, rest := [f, k, y, p], Behind(y, b);
    var cut := [f, k, rest];
    CutFacts(f, k, y, p, b);
    Unopposed(rs, b);
    CutFour(f, k, y, p, b, rest);
    InsertedAt(cut, b, 2);
    assert cut[..2] + [b] + cut[2..] == [f, k, b, rest];
  }

  lemma CutFacts(f: Region, k: Region, y: Region, p: Region, b: Region)
    requires Good(f) && Good(k) && Good(y) && Good(p) && Good(b) && f.base <= k.base
    requires End(f) <= k.base && End(k) == b.base == y.base == p.base && End(p) == End(b) < End(y)
             && b.kind == BadMemory
    ensures Cut(f, b) == [f] && Cut(k, b) == [k] && Cut(y, b) == [Behind(y, b)] && Cut(p, b) == []
    ensures !Wins(f, b) && !Wins(k, b) && !Wins(y, b) && !Wins(p, b)
  {
  }

  lemma CutFour(f: Region, k: Region, y: Region, p: Region, b: Region, rest: Region)
    requires Cut(f, b) == [f] && Cut(k, b) == [k] && Cut(y, b) == [rest] && Cut(p, b) == []
    ensures CutAll([f, k, y, p], b) == [f, k, rest]
  {
    CutAllSnoc([], f, b);
    CutAllSnoc([f], k, b);
    CutAllSnoc([f, k], y, b);
    CutAllSnoc([f, k, y], p, b);
    assert [] + [f] == [f] && [f] + [k] == [f, k] && [f, k] + [y] == [f, k, y] && [f, k, y] + [p] == [f, k, y, p];
  }

  lemma {:induction false} MergeNothing(rs: seq<Region>, i: nat)
    requires forall j :: i <= j < |rs| - 1 ==> !Mergeable(rs[j], rs[j + 1])
    ensures MergeFrom(rs, i) == rs
    decreases |rs| - i
  {
    if i + 1 < |rs| { MergeNothing(rs, i + 1); }
  }

  lemma AlreadyMerged(rs: seq<Region>)
    requires forall j :: 0 <= j < |rs| - 1 ==> !Mergeable(rs[j], rs[j + 1])
    ensures MergeFrom(rs, 0) == rs
  {
    MergeNothing(rs, 0);
  }
}
