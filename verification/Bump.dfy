/**
 The two lock-free bump allocators (`allocator.rs`, `bump.rs`) as interleaved thread steps: load the shared
 offset, compute a block from it, publish it with a compare-exchange, or retry.
 */
module Bump {
  import opened Bits

  /** A requested layout; the alignment is 2^alignLog. */
  datatype Layout = Layout(size: nat, alignLog: nat)

  function Align(l: Layout): nat {
    Pow2(l.alignLog)
  }

  /** What Rust guarantees of a layout on a w-bit machine: the size rounded up to the alignment fits in isize. */
  predicate LayoutOk(l: Layout, w: nat) {
    w > 0 && l.size + Align(l) <= Pow2(w - 1)
  }

  /** The outcome of the compute step: give up, or take [start, next) of the heap. */
  datatype Plan = GiveUp | Take(start: int, next: int)

  type Planner = (nat, Layout) -> Plan

  // ---- The compute steps ----

  /** `!(2^k - 1)` as a w-bit word. */
  function NotMask(w: nat, k: nat): nat {
    if k <= w then Shl(Ones(w - k), k) else 0
  }

  /** `allocator.rs`, in wrapping w-bit arithmetic; results are offsets from `heapStart`. */
  function BiosPlan(w: nat, heapStart: nat, heapSize: nat, current: nat, l: Layout): Plan {
    var start := And((heapStart + current + Align(l) - 1) % Pow2(w), NotMask(w, l.alignLog));
    var end := (start + l.size) % Pow2(w);
    if end > (heapStart + heapSize) % Pow2(w) then GiveUp else Take(start - heapStart, end - heapStart)
  }

  /** `layout.align().max(16)`. */
  function RaisedLog(l: Layout): nat {
    if l.alignLog < 4 then 4 else l.alignLog
  }

  /** `bump.rs`: the alignment is raised to at least 16 and the end is a checked sum. */
  function StaticPlan(w: nat, heapSize: nat, current: nat, l: Layout): Plan {
    var aligned := And((current + Pow2(RaisedLog(l)) - 1) % Pow2(w), NotMask(w, RaisedLog(l)));
    var next := aligned + l.size;
    if next >= Pow2(w) || next > heapSize then GiveUp else Take(aligned, next)
  }

  // ---- What a compute step must guarantee ----

  /** A plan starts at or after the loaded offset, has the requested size, stays in the heap and is aligned. */
  predicate GoodTake(heapSize: nat, base: nat, align: nat, current: nat, size: nat, p: Plan)
    requires align > 0
  {
    p.Take? && current <= p.start && p.next == p.start + size && p.next <= heapSize && (base + p.start) % align == 0
  }

  /** An aligned block of the given size would fit at offset s, at or after the loaded offset. */
  predicate FitsAt(heapSize: nat, base: nat, align: nat, current: nat, size: nat, s: nat)
    requires align > 0
  {
    current <= s && (base + s) % align == 0 && s + size <= heapSize
  }

  /** The first address at or above x that is a multiple of a. */
  function RoundUp(x: nat, a: nat): nat
    requires a > 0
  {
    (x + a - 1) / a * a
  }

  lemma RoundUpLeast(x: nat, a: nat)
    requires a > 0
    ensures x <= RoundUp(x, a) < x + a && RoundUp(x, a) % a == 0
    ensures RoundUp(x, a) == x + a - 1 - (x + a - 1) % a
    ensures forall y: nat :: x <= y && y % a == 0 ==> RoundUp(x, a) <= y
  {
    var q := (x + a - 1) / a;
    assert x + a - 1 == q * a + (x + a - 1) % a;
    DivUnique(q * a, a, q, 0);
    forall y: nat | x <= y && y % a == 0 ensures q * a <= y {
      var p := y / a;
      assert y == p * a;
      if p < q {
        assert p + 1 <= q;
        MulMono(p + 1, q, a);
        assert false;
      }
    }
  }

  lemma MulMono(x: int, y: int, a: int)
    requires x <= y && a > 0
    ensures x * a <= y * a
  {
  }

  lemma {:induction false} Pow2Mono(k: nat, w: nat)
    ensures k <= w ==> Pow2(k) <= Pow2(w)
    ensures k > w ==> Pow2(k) >= 2 * Pow2(w)
    decreases k + w
  {
    if k == w {
    } else if k < w {
      Pow2Mono(k, w - 1);
    } else {
      Pow2Mono(k - 1, w);
    }
  }

  /**
   `(x + align - 1) & !(align - 1)` is the least multiple of the alignment at or above x, when the sum does not wrap.
   */
  lemma MaskRoundsUp(w: nat, x: nat, k: nat)
    requires x + Pow2(k) - 1 < Pow2(w)
    ensures And((x + Pow2(k) - 1) % Pow2(w), NotMask(w, k)) == RoundUp(x, Pow2(k))
  {
    Pow2Mono(k, w);
    assert (x + Pow2(k) - 1) % Pow2(w) == x + Pow2(k) - 1 by {
      DivUnique(x + Pow2(k) - 1, Pow2(w), 0, x + Pow2(k) - 1);
    }
    NotOnes(k, w);
    AlignMask(x + Pow2(k) - 1, k, w);
    RoundUpLeast(x, Pow2(k));
  }

  /**
   On a heap in the lower half of the address space, valid layouts never wrap and every plan is good; it gives up
   exactly when no aligned block fits.
   */
  lemma BiosPlanGood(w: nat, heapStart: nat, heapSize: nat, current: nat, l: Layout)
    requires LayoutOk(l, w) && heapStart + heapSize <= Pow2(w - 1) && current <= heapSize
    ensures var p := BiosPlan(w, heapStart, heapSize, current, l);
            && (p.Take? ==> GoodTake(heapSize, heapStart, Align(l), current, l.size, p))
            && (p == GiveUp ==> forall s: nat :: !FitsAt(heapSize, heapStart, Align(l), current, l.size, s))
  {
    var a := Align(l);
    assert Pow2(w) == 2 * Pow2(w - 1);
    MaskRoundsUp(w, heapStart + current, l.alignLog);
    RoundUpLeast(heapStart + current, a);
    var start := RoundUp(heapStart + current, a);
    assert (start + l.size) % Pow2(w) == start + l.size by { DivUnique(start + l.size, Pow2(w), 0, start + l.size); }
    assert (heapStart + heapSize) % Pow2(w) == heapStart + heapSize by {
      DivUnique(heapStart + heapSize, Pow2(w), 0, heapStart + heapSize);
    }
  }

  lemma StaticPlanGood(w: nat, heapSize: nat, current: nat, l: Layout)
    requires LayoutOk(l, w) && w > 5 && heapSize <= Pow2(w - 1) && current <= heapSize
    ensures var p, a := StaticPlan(w, heapSize, current, l), Pow2(RaisedLog(l));
            && (p.Take? ==> GoodTake(heapSize, 0, a, current, l.size, p))
            && (p == GiveUp ==> forall s: nat :: !FitsAt(heapSize, 0, a, current, l.size, s))
  {
    var a := Pow2(RaisedLog(l));
    assert Pow2(w) == 2 * Pow2(w - 1);
    Pow2Mono(4, w - 1);
    MaskRoundsUp(w, current, RaisedLog(l));
    RoundUpLeast(current, a);
  }

  // ---- Threads ----

  /** A heap with its compute step; `weak` allows the compare-exchange to fail spuriously. */
  datatype Heap = Heap(w: nat, base: nat, size: nat, weak: bool, plan: Planner, logOf: Layout -> nat) {
    function AlignOf(l: Layout): nat { Pow2(logOf(l)) }
  }

  ghost predicate SoundHeap(h: Heap) {
    forall current: nat, l :: current <= h.size && LayoutOk(l, h.w) ==> SoundAt(h, current, l)
  }

  ghost predicate SoundAt(h: Heap, current: nat, l: Layout) {
    var p := h.plan(current, l);
    && (p.Take? ==> GoodTake(h.size, h.base, h.AlignOf(l), current, l.size, p))
    && (p == GiveUp ==> forall s: nat :: !FitsAt(h.size, h.base, h.AlignOf(l), current, l.size, s))
  }

  function BiosHeap(w: nat, heapStart: nat, heapSize: nat): Heap {
    Heap(w, heapStart, heapSize, false, (c: nat, l: Layout) => BiosPlan(w, heapStart, heapSize, c, l),
         (l: Layout) => l.alignLog)
  }

  function StaticHeap(w: nat, heapSize: nat): Heap {
    Heap(w, 0, heapSize, true, (c: nat, l: Layout) => StaticPlan(w, heapSize, c, l), RaisedLog)
  }

  lemma BiosHeapSound(w: nat, heapStart: nat, heapSize: nat)
    requires w > 0 && heapStart + heapSize <= Pow2(w - 1)
    ensures SoundHeap(BiosHeap(w, heapStart, heapSize))
  {
    forall c: nat, l | c <= heapSize && LayoutOk(l, w) ensures SoundAt(BiosHeap(w, heapStart, heapSize), c, l) {
      BiosAt(w, heapStart, heapSize, c, l);
    }
  }

  lemma BiosAt(w: nat, heapStart: nat, heapSize: nat, c: nat, l: Layout)
    requires w > 0 && heapStart + heapSize <= Pow2(w - 1) && c <= heapSize && LayoutOk(l, w)
    ensures SoundAt(BiosHeap(w, heapStart, heapSize), c, l)
  {
    var h := BiosHeap(w, heapStart, heapSize);
    BiosPlanGood(w, heapStart, heapSize, c, l);
    assert h.plan(c, l) == BiosPlan(w, heapStart, heapSize, c, l) && h.AlignOf(l) == Align(l) && h.base == heapStart
           && h.size == heapSize;
  }

  lemma StaticHeapSound(w: nat, heapSize: nat)
    requires w > 5 && heapSize <= Pow2(w - 1)
    ensures SoundHeap(StaticHeap(w, heapSize))
  {
    forall c: nat, l | c <= heapSize && LayoutOk(l, w) ensures SoundAt(StaticHeap(w, heapSize), c, l) {
      StaticAt(w, heapSize, c, l);
    }
  }

  lemma StaticAt(w: nat, heapSize: nat, c: nat, l: Layout)
    requires w > 5 && heapSize <= Pow2(w - 1) && c <= heapSize && LayoutOk(l, w)
    ensures SoundAt(StaticHeap(w, heapSize), c, l)
  {
    var h := StaticHeap(w, heapSize);
    StaticPlanGood(w, heapSize, c, l);
    assert h.plan(c, l) == StaticPlan(w, heapSize, c, l) && h.AlignOf(l) == Pow2(RaisedLog(l)) && h.base == 0
           && h.size == heapSize;
  }

  datatype Thread = Idle | Calling(layout: Layout) | Loaded(layout: Layout, current: nat)

  datatype Block = Block(start: int, next: int, layout: Layout)

  /** The shared offset, every thread's progress, and the blocks granted so far in order. */
  datatype State = State(offset: nat, threads: map<nat, Thread>, granted: seq<Block>)

  ghost predicate Init(s: State) {
    s.offset == 0 && s.granted == [] && forall t :: t in s.threads ==> s.threads[t] == Idle
  }

  ghost predicate Call(h: Heap, s: State, s': State, t: nat, l: Layout) {
    t in s.threads && s.threads[t] == Idle && LayoutOk(l, h.w) && s' == s.(threads := s.threads[t := Calling(l)])
  }

  ghost predicate Load(h: Heap, s: State, s': State, t: nat) {
    && t in s.threads && s.threads[t].Calling?
    && s' == s.(threads := s.threads[t := Loaded(s.threads[t].layout, s.offset)])
  }

  /** The computed block does not fit: return null. */
  ghost predicate Refuse(h: Heap, s: State, s': State, t: nat) {
    && t in s.threads && s.threads[t].Loaded? && h.plan(s.threads[t].current, s.threads[t].layout) == GiveUp
    && s' == s.(threads := s.threads[t := Idle])
  }

  /** The compare-exchange finds the loaded offset unchanged and publishes the new one. */
  ghost predicate Commit(h: Heap, s: State, s': State, t: nat) {
    && t in s.threads && s.threads[t].Loaded? && s.threads[t].current == s.offset
    && var p := h.plan(s.offset, s.threads[t].layout);
       && p.Take? && p.next >= 0
       && s' == State(p.next, s.threads[t := Idle], s.granted + [Block(p.start, p.next, s.threads[t].layout)])
  }

  /** The compare-exchange fails and the loop starts over. */
  ghost predicate Retry(h: Heap, s: State, s': State, t: nat) {
    && t in s.threads && s.threads[t].Loaded? && (h.weak || s.threads[t].current != s.offset)
    && s' == s.(threads := s.threads[t := Calling(s.threads[t].layout)])
  }

  ghost predicate Next(h: Heap, s: State, s': State) {
    || (exists t, l :: Call(h, s, s', t, l))
    || (exists t :: Load(h, s, s', t))
    || (exists t :: Refuse(h, s, s', t))
    || (exists t :: Commit(h, s, s', t))
    || (exists t :: Retry(h, s, s', t))
  }

  ghost predicate ThreadOk(h: Heap, offset: nat, th: Thread) {
    match th
    case Idle => true
    case Calling(l) => LayoutOk(l, h.w)
    case Loaded(l, c) => LayoutOk(l, h.w) && c <= offset
  }

  /** A granted block lies in the used part of the heap, is aligned and has the size asked for. */
  ghost predicate BlockOk(h: Heap, offset: nat, b: Block) {
    && 0 <= b.start <= b.next <= offset && b.next == b.start + b.layout.size
    && (h.base + b.start) % h.AlignOf(b.layout) == 0
  }

  ghost predicate Inv(h: Heap, s: State) {
    && s.offset <= h.size
    && (forall t :: t in s.threads ==> ThreadOk(h, s.offset, s.threads[t]))
    && (forall i :: 0 <= i < |s.granted| ==> BlockOk(h, s.offset, s.granted[i]))
    && (forall i, j :: 0 <= i < j < |s.granted| ==> s.granted[i].next <= s.granted[j].start)
  }

  /** Every step of every thread keeps the invariant, never lowers the offset and never takes a block back. */
  lemma NextKeepsInv(h: Heap, s: State, s': State)
    requires SoundHeap(h) && Inv(h, s) && Next(h, s, s')
    ensures Inv(h, s') && s.offset <= s'.offset && s.granted <= s'.granted
  {
    if t :| Commit(h, s, s', t) {
      CommitKeepsInv(h, s, s', t);
    } else if t, l :| Call(h, s, s', t, l) {
      ThreadMoves(h, s, s', t, Calling(l));
    } else if t :| Load(h, s, s', t) {
      ThreadMoves(h, s, s', t, Loaded(s.threads[t].layout, s.offset));
    } else if t :| Refuse(h, s, s', t) {
      ThreadMoves(h, s, s', t, Idle);
    } else {
      var t :| Retry(h, s, s', t);
      ThreadMoves(h, s, s', t, Calling(s.threads[t].layout));
    }
  }

  /** A step that only changes the thread's own progress. */
  lemma ThreadMoves(h: Heap, s: State, s': State, t: nat, th: Thread)
    requires Inv(h, s) && t in s.threads && s' == s.(threads := s.threads[t := th])
    requires ThreadOk(h, s.offset, s.threads[t]) ==> ThreadOk(h, s.offset, th)
    ensures Inv(h, s') && s.offset == s'.offset && s.granted == s'.granted
  {
  }

  lemma CommitKeepsInv(h: Heap, s: State, s': State, t: nat)
    requires SoundHeap(h) && Inv(h, s) && Commit(h, s, s', t)
    ensures Inv(h, s') && s.offset <= s'.offset && s.granted <= s'.granted
  {
    assert ThreadOk(h, s.offset, s.threads[t]);
    assert SoundAt(h, s.offset, s.threads[t].layout);
    forall u | u in s'.threads ensures ThreadOk(h, s'.offset, s'.threads[u]) {
      if u != t { assert ThreadOk(h, s.offset, s.threads[u]); }
    }
    forall i | 0 <= i < |s'.granted| ensures BlockOk(h, s'.offset, s'.granted[i]) {
      if i < |s.granted| { assert BlockOk(h, s.offset, s.granted[i]); }
    }
  }

  ghost predicate IsRun(h: Heap, states: seq<State>) {
    && states != [] && Init(states[0])
    && forall k :: 0 <= k < |states| - 1 ==> Next(h, states[k], states[k + 1])
  }

  lemma {:induction false} RunInv(h: Heap, states: seq<State>, k: nat)
    requires SoundHeap(h) && IsRun(h, states) && k < |states|
    ensures Inv(h, states[k])
  {
    if k > 0 {
      RunInv(h, states, k - 1);
      assert Next(h, states[k - 1], states[k - 1 + 1]);
      NextKeepsInv(h, states[k - 1], states[k]);
    }
  }

  lemma {:induction false} RunMonotone(h: Heap, states: seq<State>, j: nat, k: nat)
    requires SoundHeap(h) && IsRun(h, states) && j <= k < |states|
    ensures states[j].offset <= states[k].offset && states[j].granted <= states[k].granted
  {
    if j < k {
      RunMonotone(h, states, j, k - 1);
      RunInv(h, states, k - 1);
      assert Next(h, states[k - 1], states[k - 1 + 1]);
      NextKeepsInv(h, states[k - 1], states[k]);
    }
  }

  /** For every interleaving: all blocks ever granted lie in the heap, are aligned, and no two overlap. */
  lemma RunSafe(h: Heap, states: seq<State>, k: nat)
    requires SoundHeap(h) && IsRun(h, states) && k < |states|
    ensures forall i :: 0 <= i < |states[k].granted| ==> BlockOk(h, h.size, states[k].granted[i])
    ensures forall i, j :: 0 <= i < j < |states[k].granted| ==>
              states[k].granted[i].next <= states[k].granted[j].start
  {
    RunInv(h, states, k);
    forall i | 0 <= i < |states[k].granted| ensures BlockOk(h, h.size, states[k].granted[i]) {
      assert BlockOk(h, states[k].offset, states[k].granted[i]);
    }
  }

  /**
   Null is final: once a request is refused, no aligned block of its size fits at the current offset or at any later
   one.
   */
  lemma RefusalJustified(h: Heap, states: seq<State>, j: nat, k: nat, t: nat)
    requires SoundHeap(h) && IsRun(h, states) && j + 1 < |states| && j <= k < |states|
    requires Refuse(h, states[j], states[j + 1], t)
    ensures var l := states[j].threads[t].layout;
            forall s: nat :: !FitsAt(h.size, h.base, h.AlignOf(l), states[k].offset, l.size, s)
  {
    RunInv(h, states, j);
    RunMonotone(h, states, j, k);
    var th := states[j].threads[t];
    assert ThreadOk(h, states[j].offset, th);
    assert SoundAt(h, th.current, th.layout);
    forall s: nat ensures !FitsAt(h.size, h.base, h.AlignOf(th.layout), states[k].offset, th.layout.size, s) {
      assert !FitsAt(h.size, h.base, h.AlignOf(th.layout), th.current, th.layout.size, s);
    }
  }

  /** Lock freedom: without spurious failures, a retry means another thread has published a block since the load. */
  lemma RetryMeansProgress(h: Heap, states: seq<State>, k: nat, t: nat)
    requires SoundHeap(h) && !h.weak && IsRun(h, states) && k + 1 < |states|
    requires Retry(h, states[k], states[k + 1], t)
    ensures states[k].threads[t].current < states[k].offset
  {
    RunInv(h, states, k);
    assert ThreadOk(h, states[k].offset, states[k].threads[t]);
  }

  // ---- Addresses ----

  /** The BIOS heap of the boot loader: 4 MiB at 1 MiB, on a 32-bit machine. */
  lemma BootHeapSound()
    ensures SoundHeap(BiosHeap(32, 0x10_0000, 0x40_0000))
  {
    assert Pow2(31) >= 0x800_0000 by { assert Pow2(9) == 512; Pow2Add(9, 9); Pow2Add(9, 18); Pow2Add(4, 27); }
    BiosHeapSound(32, 0x10_0000, 0x40_0000);
  }

  /** The decompressor's static heap of 256 KiB. */
  lemma DecompressorHeapSound()
    ensures SoundHeap(StaticHeap(32, 0x4_0000))
  {
    assert Pow2(31) >= 0x800_0000 by { assert Pow2(9) == 512; Pow2Add(9, 9); Pow2Add(9, 18); Pow2Add(4, 27); }
    StaticHeapSound(32, 0x4_0000);
  }

  /**
   In the static heap only offsets are aligned.  The returned pointer has the requested alignment exactly when
   the buffer itself does; its declared 16-byte alignment guarantees that for alignments up to 16.
   */
  lemma StaticPointerAligned(heapBase: nat, l: Layout, start: nat)
    requires heapBase % 16 == 0 && start % Pow2(RaisedLog(l)) == 0
    ensures (heapBase + start) % Align(l) == 0 <==> heapBase % Align(l) == 0
    ensures l.alignLog <= 4 ==> (heapBase + start) % Align(l) == 0
  {
    var a := Align(l);
    Divides(Pow2(RaisedLog(l)), a, start, RaisedLog(l), l.alignLog);
    SumMultiple(heapBase, start, a);
    if l.alignLog <= 4 { Divides(16, a, heapBase, 4, l.alignLog); }
  }

  lemma Divides(big: nat, small: nat, x: nat, n: nat, k: nat)
    requires k <= n && big == Pow2(n) && small == Pow2(k) && x % big == 0
    ensures x % small == 0
  {
    Pow2Add(k, n - k);
    MultipleOfFactor(x, small, Pow2(n - k));
  }

  lemma MultipleOfFactor(x: nat, a: nat, c: nat)
    requires a > 0 && c > 0 && a * c > 0 && x % (a * c) == 0
    ensures x % a == 0
  {
    var q := x / (a * c);
    assert x == q * (a * c);
    assert q * (a * c) == (q * c) * a;
    DivUnique(x, a, q * c, 0);
  }

  lemma SumMultiple(x: nat, y: nat, a: nat)
    requires a > 0 && y % a == 0
    ensures (x + y) % a == x % a
  {
    var q := y / a;
    DivUnique(x + y, a, x / a + q, x % a);
  }
}
