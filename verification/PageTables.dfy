/** The page-table builder of `arch.rs`, for all three architectures, and what a plan's tables translate to. */
module PageTables {
  import opened Machine
  import opened Words
  import opened Options
  import opened RadixTable
  import opened Vmm
  import opened EntryFormats
  import Bits

  /** `(va >> (39 - 9 * level)) & 0x1FF`. */
  function IndexAt(level: nat, va: nat): nat
    requires level < 4
  {
    (match level
     case 0 => va / 0x80_0000_0000
     case 1 => va / 0x4000_0000
     case 2 => va / 0x20_0000
     case _ => va / 0x1000) % 512
  }

  /** The division above is the source's shift and mask. */
  lemma IndexAtIsShiftMask(level: nat, va: nat)
    requires level < 4
    ensures IndexAt(level, va) == Bits.And(Bits.Shr(va, 39 - 9 * level), Bits.Ones(9))
  {
    ShiftPowers();
    ShiftAndMask(va, 39 - 9 * level);
  }

  lemma ShiftAndMask(va: nat, shift: nat)
    ensures Bits.And(Bits.Shr(va, shift), Bits.Ones(9)) == va / Bits.Pow2(shift) % Bits.Pow2(9)
  {
    Bits.AndOnes(Bits.Shr(va, shift), 9);
    Bits.ShrLowIsDivMod(va, shift);
    Bits.ShrLowIsDivMod(Bits.Shr(va, shift), 9);
  }

  lemma ShiftPowers()
    ensures Bits.Pow2(9) == 512 && Bits.Pow2(12) == 0x1000 && Bits.Pow2(21) == 0x20_0000
    ensures Bits.Pow2(30) == 0x4000_0000 && Bits.Pow2(39) == 0x80_0000_0000
  {
    assert Bits.Pow2(3) == 8;
    Bits.Pow2Add(3, 3);
    Bits.Pow2Add(3, 6);
    Bits.Pow2Add(3, 9);
    Bits.Pow2Add(9, 12);
    Bits.Pow2Add(9, 21);
    Bits.Pow2Add(9, 30);
  }

  function Path(va: nat): seq<nat> {
    [IndexAt(0, va), IndexAt(1, va), IndexAt(2, va), IndexAt(3, va)]
  }

  /** Bits 47..12: the part of a virtual address that selects a translation. */
  function PageKey(va: nat): nat {
    va / 0x1000 % 0x10_0000_0000
  }

  /** Two addresses share a translation exactly when bits 47..12 agree. */
  lemma PathIsKey(v: nat, w: nat)
    ensures Path(v) == Path(w) <==> PageKey(v) == PageKey(w)
  {
    KeyDigits(v);
    KeyDigits(w);
    var p, q := Path(v), Path(w);
    if PageKey(v) == PageKey(w) { DigitsUnique(p[0], p[1], p[2], p[3], q[0], q[1], q[2], q[3]); }
    assert p == [p[0], p[1], p[2], p[3]] && q == [q[0], q[1], q[2], q[3]];
  }

  function FromDigits(a: nat, b: nat, c: nat, d: nat): nat {
    0x800_0000 * a + 0x4_0000 * b + 512 * c + d
  }

  lemma DigitsUnique(a: nat, b: nat, c: nat, d: nat, a': nat, b': nat, c': nat, d': nat)
    requires a < 512 && b < 512 && c < 512 && d < 512 && a' < 512 && b' < 512 && c' < 512 && d' < 512
    requires FromDigits(a, b, c, d) == FromDigits(a', b', c', d')
    ensures a == a' && b == b' && c == c' && d == d'
  {
  }

  lemma KeyDigits(v: nat)
    ensures PageKey(v) == FromDigits(IndexAt(0, v), IndexAt(1, v), IndexAt(2, v), IndexAt(3, v))
    ensures forall l | 0 <= l < 4 :: IndexAt(l, v) < 512
  {
    var k := v / 0x1000;
    assert v / 0x20_0000 == k / 512;
    assert v / 0x4000_0000 == k / 512 / 512 by { assert v / 0x4000_0000 == v / 0x20_0000 / 512; }
    assert v / 0x80_0000_0000 == k / 512 / 512 / 512 by { assert v / 0x80_0000_0000 == v / 0x4000_0000 / 512; }
    ModDigit(k, 0x800_0000);
    ModDigit(k / 512, 0x4_0000);
    ModDigit(k / 512 / 512, 512);
  }

  /** Splitting off the lowest base-512 digit. */
  lemma ModDigit(k: nat, m: nat)
    requires m == 0x800_0000 || m == 0x4_0000 || m == 512
    ensures k % (512 * m) == 512 * (k / 512 % m) + k % 512
  {
    Bits.SplitDivMod(k, 512, m, 512 * m);
  }

  // ---- What a sequence of page installations should translate to ----

  /** One `map_page` call. */
  datatype Step = Step(va: nat, pa: nat, attrs: bv64)

  function Installed(c: Codec, s: Step): Option<Target> {
    c.format.hwPage(c.leafEntry(ToWord(s.pa), s.attrs))
  }

  /** The last installation for this path wins; without one, `base` remains. */
  function Overlay(c: Codec, steps: seq<Step>, path: seq<nat>, base: Option<Target>): Option<Target> {
    if steps == [] then base
    else if Path(steps[|steps| - 1].va) == path then Installed(c, steps[|steps| - 1])
    else Overlay(c, steps[..|steps| - 1], path, base)
  }

  lemma {:induction false} OverlayConcat(c: Codec, s: seq<Step>, t: seq<Step>, path: seq<nat>, base: Option<Target>)
    ensures Overlay(c, s + t, path, base) == Overlay(c, t, path, Overlay(c, s, path, base))
  {
    if t == [] {
      assert s + t == s;
    } else {
      assert (s + t)[..|s + t| - 1] == s + t[..|t| - 1];
      OverlayConcat(c, s, t[..|t| - 1], path, base);
    }
  }

  function PageStep(c: Codec, m: Mapping, i: nat): Step {
    Step(m.virtBase + i * PAGE_SIZE, m.physBase + i * PAGE_SIZE, c.leafAttrs(m.perms, m.cache))
  }

  function PageSteps(c: Codec, m: Mapping, n: nat): seq<Step> {
    seq(n, i requires 0 <= i => PageStep(c, m, i))
  }

  lemma PageStepsSnoc(c: Codec, m: Mapping, n: nat)
    ensures PageSteps(c, m, n + 1) == PageSteps(c, m, n) + [PageStep(c, m, n)]
  {
  }

  function PlanSteps(c: Codec, ms: seq<Mapping>): seq<Step> {
    if ms == [] then []
    else PlanSteps(c, ms[..|ms| - 1]) + PageSteps(c, ms[|ms| - 1], PageCount(ms[|ms| - 1]))
  }

  lemma {:induction false} PlanStepsPrefix(c: Codec, ms: seq<Mapping>, k: nat)
    requires k <= |ms|
    ensures PlanSteps(c, ms[..k]) <= PlanSteps(c, ms)
    decreases |ms|
  {
    if k < |ms| {
      assert ms[..|ms| - 1][..k] == ms[..k];
      PlanStepsPrefix(c, ms[..|ms| - 1], k);
    } else {
      assert ms[..k] == ms;
    }
  }

  /** `checked_add` succeeds for both addresses. */
  predicate InRange(s: Step) {
    s.va < U64 && s.pa < U64
  }

  predicate AllInRange(steps: seq<Step>) {
    forall i :: 0 <= i < |steps| ==> InRange(steps[i])
  }

  lemma RangeConcat(s: seq<Step>, t: seq<Step>)
    ensures AllInRange(s) && AllInRange(t) ==> AllInRange(s + t)
  {
  }

  /** Cutting a plan k pages into its mapping n. */
  lemma PlanCut(c: Codec, ms: seq<Mapping>, n: nat, k: nat)
    requires n < |ms| && k <= PageCount(ms[n])
    ensures var all, cut := PlanSteps(c, ms), PlanSteps(c, ms[..n]) + PageSteps(c, ms[n], k);
            && |cut| <= |all| && all[..|cut|] == cut
            && (k < PageCount(ms[n]) ==> |cut| < |all| && all[|cut|] == PageStep(c, ms[n], k))
            && (k == PageCount(ms[n]) ==> cut == PlanSteps(c, ms[..n + 1]))
  {
    assert ms[..n + 1][..n] == ms[..n];
    var whole := PlanSteps(c, ms[..n]) + PageSteps(c, ms[n], PageCount(ms[n]));
    assert PlanSteps(c, ms[..n + 1]) == whole;
    PlanStepsPrefix(c, ms, n + 1);
  }

  /** Between two memories, exactly these installations happened, as far as the hardware can tell. */
  ghost predicate Reflects(c: Codec, m0: Memory<bv64, nat>, m1: Memory<bv64, nat>, root: bv64, steps: seq<Step>) {
    forall q: seq<nat> :: |q| == 4 ==>
      Walk(c.format, m1, root, q) == Overlay(c, steps, q, Walk(c.format, m0, root, q))
  }

  lemma ReflectsStep(c: Codec, m0: Memory<bv64, nat>, m1: Memory<bv64, nat>, m2: Memory<bv64, nat>, root: bv64,
                     steps: seq<Step>, s: Step)
    requires Reflects(c, m0, m1, root, steps) && OneWalk(c.format, m1, m2, root, Path(s.va), Installed(c, s))
    ensures Reflects(c, m0, m2, root, steps + [s])
  {
    assert (steps + [s])[..|steps|] == steps;
  }

  lemma ReflectsSame(c: Codec, m0: Memory<bv64, nat>, m1: Memory<bv64, nat>, m2: Memory<bv64, nat>, root: bv64,
                     steps: seq<Step>)
    requires Reflects(c, m0, m1, root, steps) && SameWalks(c.format, m1, m2, root)
    ensures Reflects(c, m0, m2, root, steps)
  {
  }

  lemma ReflectsConcat(c: Codec, m0: Memory<bv64, nat>, m1: Memory<bv64, nat>, m2: Memory<bv64, nat>, root: bv64,
                       s: seq<Step>, t: seq<Step>)
    requires Reflects(c, m0, m1, root, s) && Reflects(c, m1, m2, root, t)
    ensures Reflects(c, m0, m2, root, s + t)
  {
    forall q: seq<nat> | |q| == 4
      ensures Walk(c.format, m2, root, q) == Overlay(c, s + t, q, Walk(c.format, m0, root, q))
    {
      OverlayConcat(c, s, t, q, Walk(c.format, m0, root, q));
    }
  }

  // ---- The builder ----

  /** The frames the allocator will still hand out are usable, unused and all different. */
  ghost predicate FramesFresh(c: Codec, frames: nat -> Option<bv64>, pos: nat, used: set<bv64>) {
    && (forall k :: pos <= k && frames(k).Some? ==> c.format.isFrame(frames(k).value) && frames(k).value !in used)
    && (forall k, l :: pos <= k < l && frames(k).Some? && frames(l).Some? ==> frames(k) != frames(l))
  }

  lemma FramesLeft(c: Codec, frames: nat -> Option<bv64>, pos: nat, used: set<bv64>)
    requires FramesFresh(c, frames, pos, used) && frames(pos).Some?
    ensures FramesFresh(c, frames, pos + 1, used + {frames(pos).value})
  {
  }

  /** The tables are a tree of owned frames, and the allocator has only fresh ones left. */
  ghost predicate WellBuilt(c: Codec, frames: nat -> Option<bv64>, root: bv64, pos: nat, mem: Memory<bv64, nat>,
                            used: set<bv64>) {
    Lawful(c.format) && Tree(c.format, mem, root, used) && FramesFresh(c, frames, pos, used)
  }

  /** The next frame is zeroed and linked where an entry is missing. */
  lemma LinkNext(c: Codec, frames: nat -> Option<bv64>, root: bv64, pos: nat, m0: Memory<bv64, nat>,
                 mem: Memory<bv64, nat>, used: set<bv64>, path: seq<nat>, level: nat, t: bv64)
    requires WellBuilt(c, frames, root, pos, mem, used) && frames(pos).Some?
    requires level < 3 && level < |path| && SameWalks(c.format, m0, mem, root)
    requires TableAt(c.format, mem, root, path[..level]) == Some(t) && !c.format.present(mem(t, path[level]))
    ensures var child := frames(pos).value;
            var m1 := Linked(c.format, mem, t, path[level], child);
            && WellBuilt(c, frames, root, pos + 1, m1, used + {child}) && SameWalks(c.format, m0, m1, root)
            && TableAt(c.format, m1, root, path[..level + 1]) == Some(child)
  {
    DescendLink(c.format, m0, mem, root, used, path, level, t, frames(pos).value);
    FramesLeft(c, frames, pos, used);
  }

  lemma AllocatorMoves(c: Codec, frames: nat -> Option<bv64>, root: bv64, pos: nat, mem: Memory<bv64, nat>,
                       used: set<bv64>)
    requires WellBuilt(c, frames, root, pos, mem, used)
    ensures WellBuilt(c, frames, root, pos + 1, mem, used)
  {
  }

  /** One more page of a mapping. */
  lemma ApplyStep(c: Codec, m0: Memory<bv64, nat>, m1: Memory<bv64, nat>, m2: Memory<bv64, nat>, root: bv64,
                  m: Mapping, i: nat)
    requires Reflects(c, m0, m1, root, PageSteps(c, m, i)) && AllInRange(PageSteps(c, m, i))
             && InRange(PageStep(c, m, i))
    requires OneWalk(c.format, m1, m2, root, Path(PageStep(c, m, i).va), Installed(c, PageStep(c, m, i)))
    ensures Reflects(c, m0, m2, root, PageSteps(c, m, i + 1)) && AllInRange(PageSteps(c, m, i + 1))
  {
    var page := PageStep(c, m, i);
    ReflectsStep(c, m0, m1, m2, root, PageSteps(c, m, i), page);
    PageStepsSnoc(c, m, i);
    RangeConcat(PageSteps(c, m, i), [page]);
  }

  class PageTableBuilder {
    const codec: Codec
    /** The allocator's answers, in order: `None` is an allocation failure. */
    const frames: nat -> Option<bv64>
    const root: bv64
    var pos: nat
    var mem: Memory<bv64, nat>
    ghost var used: set<bv64>

    ghost predicate Valid()
      reads this
    {
      WellBuilt(codec, frames, root, pos, mem, used)
    }

    /** The hardware's translation of a virtual address through the current tables. */
    ghost function Translate(va: nat): Option<Target>
      reads this
    {
      Lookup(Path(va))
    }

    ghost function Lookup(path: seq<nat>): Option<Target>
      requires |path| == 4
      reads this
    {
      Walk(codec.format, mem, root, path)
    }

    /** The allocator has been asked since answer p, and its latest answer was a failure. */
    ghost predicate FailedSince(p: nat)
      reads this
    {
      p < pos && frames(pos - 1) == None
    }

    /** The root frame is the allocator's first answer; memory may hold anything before it is cleared. */
    constructor (codec: Codec, frames: nat -> Option<bv64>, mem: Memory<bv64, nat>)
      requires Lawful(codec.format) && frames(0).Some? && FramesFresh(codec, frames, 0, {})
      ensures Valid() && this.codec == codec && this.frames == frames && pos == 1
      ensures forall v: nat :: Translate(v) == None
    {
      this.codec, this.frames, this.root, this.pos := codec, frames, frames(0).value, 1;
      this.mem := Clear(mem, frames(0).value, codec.format.zero);
      this.used := {frames(0).value};
      new;
      EmptyRoot(codec.format, this.mem, root);
    }

    /** `new`: no builder when the root allocation fails. */
    static method New(codec: Codec, frames: nat -> Option<bv64>, mem: Memory<bv64, nat>) returns (b: PageTableBuilder?)
      requires Lawful(codec.format) && FramesFresh(codec, frames, 0, {})
      ensures b == null <==> frames(0) == None
      ensures b != null ==> fresh(b) && b.Valid() && b.codec == codec && b.frames == frames && b.pos == 1
      ensures b != null ==> forall v: nat :: b.Translate(v) == None
    {
      b := null;
      if frames(0).Some? {
        b := new PageTableBuilder(codec, frames, mem);
      }
    }

    method AllocFrame() returns (f: Option<bv64>)
      modifies this`pos
      ensures pos == old(pos) + 1 && f == frames(old(pos))
    {
      f := frames(pos);
      pos := pos + 1;
    }

    /**
     Installs one page.  On success exactly the translation of va's page changes; on allocation failure none
     does, even though intermediate tables may have been linked already.
     */
    method MapPage(va: nat, pa: bv64, attrs: bv64) returns (ok: bool)
      requires Valid()
      modifies this`pos, this`mem, this`used
      ensures Valid() && old(used) <= used && old(pos) <= pos <= old(pos) + 3
      ensures ok ==> OneWalk(codec.format, old(mem), mem, root, Path(va),
              codec.format.hwPage(codec.leafEntry(pa, attrs)))
      ensures !ok ==> SameWalks(codec.format, old(mem), mem, root) && FailedSince(old(pos))
    {
      ok := Install(Path(va), codec.leafEntry(pa, attrs));
    }

    /** The walk itself: descend three levels, then write the leaf. */
    method Install(path: seq<nat>, word: bv64) returns (ok: bool)
      requires Valid() && |path| == 4
      modifies this`pos, this`mem, this`used
      ensures Valid() && old(used) <= used && old(pos) <= pos <= old(pos) + 3
      ensures ok ==> OneWalk(codec.format, old(mem), mem, root, path, codec.format.hwPage(word))
      ensures !ok ==> SameWalks(codec.format, old(mem), mem, root) && FailedSince(old(pos))
    {
      var table := root;
      for level := 0 to 3
        invariant Valid() && old(used) <= used && old(pos) <= pos <= old(pos) + level
        invariant SameWalks(codec.format, old(mem), mem, root)
        invariant TableAt(codec.format, mem, root, path[..level]) == Some(table)
      {
        var next := Descend(path, level, table, old(mem));
        if next == None {
          return false;
        }
        table := next.value;
      }
      InstallLeaf(codec.format, old(mem), mem, root, used, path, table, word);
      mem := Write(mem, table, path[3], word);
      ok := true;
    }

    /** One level of the walk: follow the entry, linking a fresh zeroed table when it is missing. */
    method Descend(path: seq<nat>, level: nat, table: bv64, ghost m0: Memory<bv64, nat>) returns (next: Option<bv64>)
      requires Valid() && level < 3 && |path| == 4 && SameWalks(codec.format, m0, mem, root)
      requires TableAt(codec.format, mem, root, path[..level]) == Some(table)
      modifies this`pos, this`mem, this`used
      ensures Valid() && old(used) <= used && old(pos) <= pos <= old(pos) + 1
      ensures SameWalks(codec.format, m0, mem, root)
      ensures next.Some? ==> TableAt(codec.format, mem, root, path[..level + 1]) == next
      ensures next == None ==> FailedSince(old(pos))
    {
      var c := codec.format;
      if !c.present(mem(table, path[level])) {
        if frames(pos).Some? {
          LinkNext(codec, frames, root, pos, m0, mem, used, path, level, table);
        } else {
          AllocatorMoves(codec, frames, root, pos, mem, used);
        }
        next := AllocFrame();
        if next.Some? {
          mem := Linked(c, mem, table, path[level], next.value);
          used := used + {next.value};
        }
      } else {
        DescendPresent(c, mem, root, used, path, level, table);
        next := Some(c.nextTable(mem(table, path[level])));
      }
    }

    /** One page of a mapping, unless the address computation overflows. */
    method InstallStep(page: Step) returns (ok: bool)
      requires Valid()
      modifies this`pos, this`mem, this`used
      ensures Valid() && old(pos) <= pos <= old(pos) + 3
      ensures ok ==> InRange(page) && OneWalk(codec.format, old(mem), mem, root, Path(page.va), Installed(codec, page))
      ensures !ok ==> SameWalks(codec.format, old(mem), mem, root) && (FailedSince(old(pos)) || !InRange(page))
    {
      if page.va >= U64 || page.pa >= U64 {
        return false;
      }
      ok := MapPage(page.va, ToWord(page.pa), page.attrs);
    }

    /**
     Installs a mapping page by page, asking for at most three frames a page; on failure the pages before page `done`
     are installed and nothing else.
     */
    method ApplyOne(m: Mapping) returns (ok: bool, ghost done: nat)
      requires Valid()
      modifies this`pos, this`mem, this`used
      ensures Valid() && done <= PageCount(m) && (ok <==> done == PageCount(m))
      ensures Reflects(codec, old(mem), mem, root, PageSteps(codec, m, done))
      ensures AllInRange(PageSteps(codec, m, done))
      ensures old(pos) <= pos <= old(pos) + 3 * done + (if ok then 0 else 3)
      ensures !ok ==> FailedSince(old(pos)) || !InRange(PageStep(codec, m, done))
    {
      done := 0;
      for i := 0 to PageCount(m)
        invariant Valid() && done == i && old(pos) <= pos <= old(pos) + 3 * i
        invariant Reflects(codec, old(mem), mem, root, PageSteps(codec, m, i))
        invariant AllInRange(PageSteps(codec, m, i))
      {
        ghost var m1 := mem;
        var installed := InstallStep(PageStep(codec, m, i));
        if !installed {
          ReflectsSame(codec, old(mem), m1, mem, root, PageSteps(codec, m, i));
          return false, i;
        }
        ApplyStep(codec, old(mem), m1, mem, root, m, i);
        done := i + 1;
      }
      ok := true;
    }

    /** Installs a whole plan, or its first `done` pages when an allocation or an address computation fails. */
    method Apply(plan: seq<Mapping>) returns (ok: bool, ghost done: nat)
      requires Valid()
      modifies this`pos, this`mem, this`used
      ensures Valid() && done <= |PlanSteps(codec, plan)| && (ok <==> done == |PlanSteps(codec, plan)|)
      ensures Reflects(codec, old(mem), mem, root, PlanSteps(codec, plan)[..done])
      ensures AllInRange(PlanSteps(codec, plan)[..done])
      ensures old(pos) <= pos <= old(pos) + 3 * |PlanSteps(codec, plan)|
      ensures !ok ==> FailedSince(old(pos)) || !InRange(PlanSteps(codec, plan)[done])
    {
      done := 0;
      for n := 0 to |plan|
        invariant Valid() && old(pos) <= pos <= old(pos) + 3 * done
        invariant done == |PlanSteps(codec, plan[..n])|
        invariant Reflects(codec, old(mem), mem, root, PlanSteps(codec, plan[..n]))
        invariant AllInRange(PlanSteps(codec, plan[..n]))
      {
        ghost var steps, m, m1 := PlanSteps(codec, plan[..n]), plan[n], mem;
        var installed; ghost var k;
        installed, k := ApplyOne(plan[n]);
        ReflectsConcat(codec, old(mem), m1, mem, root, steps, PageSteps(codec, m, k));
        PlanCut(codec, plan, n, k);
        ghost var cut := steps + PageSteps(codec, m, k);
        RangeConcat(steps, PageSteps(codec, m, k));
        done := |cut|;
        if !installed {
          assert PlanSteps(codec, plan)[..done] == cut;
          return false, done;
        }
      }
      assert plan[..|plan|] == plan && PlanSteps(codec, plan)[..done] == PlanSteps(codec, plan);
      ok := true;
    }
  }

  // ---- Plans as whole mappings ----

  /** The last page of mapping m that has v's page key, if any. */
  function PageFor(m: Mapping, v: nat): Option<nat> {
    var n := PageCount(m);
    var d := (PageKey(v) + 0x10_0000_0000 - PageKey(m.virtBase)) % 0x10_0000_0000;
    if d >= n then None else Some(d + 0x10_0000_0000 * ((n - 1 - d) / 0x10_0000_0000))
  }

  /** `PageFor` finds exactly the last covering page: v's key is that page's key, and no later page has it. */
  lemma PageForIsLast(m: Mapping, v: nat)
    ensures var r := PageFor(m, v);
            && (r.Some? ==> r.value < PageCount(m) && PageKey(m.virtBase + r.value * PAGE_SIZE) == PageKey(v))
            && forall i :: 0 <= i < PageCount(m) && PageKey(m.virtBase + i * PAGE_SIZE) == PageKey(v) ==>
                 r.Some? && i <= r.value
  {
    var r, n, b, k := PageFor(m, v), PageCount(m), PageKey(m.virtBase), PageKey(v);
    if r.Some? {
      KeyOffset(m.virtBase, r.value);
      FoundResidue(b, k, n);
    }
    forall i | 0 <= i < n && PageKey(m.virtBase + i * PAGE_SIZE) == k ensures r.Some? && i <= r.value {
      KeyOffset(m.virtBase, i);
      LastResidue(b, k, i, n);
    }
  }

  lemma FoundResidue(b: nat, k: nat, n: nat)
    requires b < 0x10_0000_0000 && k < 0x10_0000_0000
    ensures var d := (k + 0x10_0000_0000 - b) % 0x10_0000_0000;
            d < n ==>
              var i := d + 0x10_0000_0000 * ((n - 1 - d) / 0x10_0000_0000);
              i < n && (b + i) % 0x10_0000_0000 == k
  {
    var d := (k + 0x10_0000_0000 - b) % 0x10_0000_0000;
    assert d == if k >= b then k - b else k + 0x10_0000_0000 - b;
  }

  lemma LastResidue(b: nat, k: nat, i: nat, n: nat)
    requires b < 0x10_0000_0000 && k < 0x10_0000_0000 && i < n && (b + i) % 0x10_0000_0000 == k
    ensures var d := (k + 0x10_0000_0000 - b) % 0x10_0000_0000;
            d < n && i <= d + 0x10_0000_0000 * ((n - 1 - d) / 0x10_0000_0000)
  {
    var d := (k + 0x10_0000_0000 - b) % 0x10_0000_0000;
    assert i % 0x10_0000_0000 == d;
  }

  lemma KeyOffset(base: nat, i: nat)
    ensures PageKey(base + i * PAGE_SIZE) == (PageKey(base) + i) % 0x10_0000_0000
  {
    assert (base + i * 4096) / 4096 == base / 4096 + i;
  }

  /** The last mapping, in plan order, that covers v decides its translation. */
  function PlanTranslation(c: Codec, ms: seq<Mapping>, v: nat): Option<Target> {
    if ms == [] then None
    else
      var m := ms[|ms| - 1];
      match PageFor(m, v)
      case Some(i) => Installed(c, PageStep(c, m, i))
      case None => PlanTranslation(c, ms[..|ms| - 1], v)
  }

  /** r is the last index at which `path` occurs. */
  ghost predicate LastAt(paths: seq<seq<nat>>, path: seq<nat>, r: Option<nat>) {
    && (r.Some? ==> r.value < |paths| && paths[r.value] == path)
    && forall i :: 0 <= i < |paths| && paths[i] == path ==> r.Some? && i <= r.value
  }

  function Paths(steps: seq<Step>): seq<seq<nat>> {
    seq(|steps|, i requires 0 <= i < |steps| => Path(steps[i].va))
  }

  lemma {:induction false} OverlayLast(c: Codec, steps: seq<Step>, path: seq<nat>, base: Option<Target>, r: Option<nat>)
    requires LastAt(Paths(steps), path, r)
    ensures Overlay(c, steps, path, base) == match r case Some(i) => Installed(c, steps[i]) case None => base
  {
    if steps != [] {
      var init, last := steps[..|steps| - 1], |steps| - 1;
      assert Paths(steps)[last] == Path(steps[last].va);
      if r != Some(last) {
        assert Paths(init) == Paths(steps)[..last];
        OverlayLast(c, init, path, base, r);
      }
    }
  }

  lemma PageForIsLastPath(c: Codec, m: Mapping, v: nat)
    ensures LastAt(Paths(PageSteps(c, m, PageCount(m))), Path(v), PageFor(m, v))
  {
    var steps, r := PageSteps(c, m, PageCount(m)), PageFor(m, v);
    PageForIsLast(m, v);
    forall i | 0 <= i < |steps|
      ensures Paths(steps)[i] == Path(v) <==> PageKey(m.virtBase + i * PAGE_SIZE) == PageKey(v)
    {
      PathIsKey(m.virtBase + i * PAGE_SIZE, v);
    }
  }

  lemma MappingOverlay(c: Codec, m: Mapping, v: nat, base: Option<Target>)
    ensures Overlay(c, PageSteps(c, m, PageCount(m)), Path(v), base)
         == match PageFor(m, v) case Some(i) => Installed(c, PageStep(c, m, i)) case None => base
  {
    PageForIsLastPath(c, m, v);
    OverlayLast(c, PageSteps(c, m, PageCount(m)), Path(v), base, PageFor(m, v));
  }

  /** Page-by-page installation of a plan amounts to "the last covering mapping wins, the rest is unmapped". */
  lemma {:induction false} PlanOverlay(c: Codec, ms: seq<Mapping>, v: nat)
    ensures Overlay(c, PlanSteps(c, ms), Path(v), None) == PlanTranslation(c, ms, v)
    decreases |ms|
  {
    if ms != [] {
      var init, m := ms[..|ms| - 1], ms[|ms| - 1];
      PlanOverlay(c, init, v);
      MappingOverlay(c, m, v, PlanTranslation(c, init, v));
      OverlayConcat(c, PlanSteps(c, init), PageSteps(c, m, PageCount(m)), Path(v), None);
    }
  }

  /** If the mappings from index n on agree on v wherever they cover it, and one does, they decide v. */
  lemma {:induction false} TailDecides(c: Codec, ms: seq<Mapping>, n: nat, k: nat, v: nat, t: Option<Target>)
    requires n <= k < |ms| && PageFor(ms[k], v).Some?
    requires forall j :: n <= j < |ms| && PageFor(ms[j], v).Some? ==>
               Installed(c, PageStep(c, ms[j], PageFor(ms[j], v).value)) == t
    ensures PlanTranslation(c, ms, v) == t
    decreases |ms|
  {
    var last := |ms| - 1;
    if PageFor(ms[last], v) == None {
      TailDecides(c, ms[..last], n, k, v, t);
    }
  }

  lemma {:induction false} TailSilent(c: Codec, ms: seq<Mapping>, n: nat, v: nat)
    requires n <= |ms| && forall j :: n <= j < |ms| ==> PageFor(ms[j], v) == None
    ensures PlanTranslation(c, ms, v) == PlanTranslation(c, ms[..n], v)
    decreases |ms|
  {
    if n < |ms| {
      TailSilent(c, ms[..|ms| - 1], n, v);
      assert ms[..|ms| - 1][..n] == ms[..n];
    } else {
      assert ms[..n] == ms;
    }
  }
}
