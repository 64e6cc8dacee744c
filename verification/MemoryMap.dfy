/**
 Memory regions and the normalization of firmware memory maps (`pmm.rs`): sorting, page alignment, overlap
 resolution by priority and merging.
 */
module MemoryMap {
  import opened Machine

  const PAGE_SIZE: nat := 4096

  datatype MemoryType =
    Usable | Reserved | AcpiReclaimable | AcpiNvs | BadMemory | BootloaderReclaimable | KernelAndModules | Framebuffer

  function Priority(t: MemoryType): nat {
    match t
    case Usable => 0
    case BootloaderReclaimable => 1
    case AcpiReclaimable => 2
    case AcpiNvs => 3
    case Reserved => 4
    case Framebuffer => 5
    case KernelAndModules => 6
    case BadMemory => 7
  }

  datatype Region = Region(base: nat, length: nat, kind: MemoryType)

  function Min(x: int, y: int): int { if x < y then x else y }
  function Max(x: int, y: int): int { if x < y then y else x }

  /** Exclusive end, with `saturating_add`. */
  function End(r: Region): nat {
    Min(r.base + r.length, U64 - 1)
  }

  predicate Covers(r: Region, a: nat) {
    r.base <= a < End(r)
  }

  /** A non-empty region whose end does not saturate. */
  predicate Good(r: Region) {
    r.length > 0 && r.base + r.length < U64
  }

  predicate AllGood(rs: seq<Region>) {
    forall i :: 0 <= i < |rs| ==> Good(rs[i])
  }

  predicate Overlap(r: Region, s: Region) {
    r.base < End(s) && s.base < End(r)
  }

  /** Sorted by address with no address in two regions. */
  predicate Disjoint(rs: seq<Region>) {
    forall i, j :: 0 <= i < j < |rs| ==> End(rs[i]) <= rs[j].base
  }

  // ---- The highest priority covering an address ----

  /** The region's priority where it covers a, and -1 elsewhere. */
  function PriorityAt(r: Region, a: nat): int {
    if Covers(r, a) then Priority(r.kind) else -1
  }

  /** The highest priority of any region covering a, or -1 when none does. */
  function Best(rs: seq<Region>, a: nat): int {
    if rs == [] then -1 else Max(Best(rs[..|rs| - 1], a), PriorityAt(rs[|rs| - 1], a))
  }

  lemma {:induction false} BestConcat(s: seq<Region>, t: seq<Region>, a: nat)
    ensures Best(s + t, a) == Max(Best(s, a), Best(t, a))
    ensures Best(s, a) >= -1
    decreases |t|, |s|
  {
    if t == [] {
      assert s + t == s;
      if s != [] {
        BestConcat(s[..|s| - 1], [], a);
      }
    } else {
      assert (s + t)[..|s + t| - 1] == s + t[..|t| - 1];
      BestConcat(s, t[..|t| - 1], a);
    }
  }

  lemma BestOne(r: Region, a: nat)
    ensures Best([r], a) == PriorityAt(r, a)
  {
    assert [r][..0] == [];
  }

  lemma {:induction false} BestMember(rs: seq<Region>, i: nat, a: nat)
    requires i < |rs|
    ensures Best(rs, a) >= PriorityAt(rs[i], a)
    decreases |rs|
  {
    if i < |rs| - 1 { BestMember(rs[..|rs| - 1], i, a); }
  }

  lemma {:induction false} BestWitness(rs: seq<Region>, a: nat) returns (i: nat)
    requires Best(rs, a) >= 0
    ensures i < |rs| && Covers(rs[i], a) && Priority(rs[i].kind) == Best(rs, a)
    decreases |rs|
  {
    i := |rs| - 1;
    if PriorityAt(rs[i], a) != Best(rs, a) { i := BestWitness(rs[..i], a); }
  }

  /** In a disjoint map the one region covering an address is the best one. */
  lemma DisjointBest(rs: seq<Region>, i: nat, a: nat)
    requires Disjoint(rs) && i < |rs| && Covers(rs[i], a)
    ensures Best(rs, a) == Priority(rs[i].kind)
  {
    BestMember(rs, i, a);
    var k := BestWitness(rs, a);
  }

  /** How many regions cover address a. */
  function Count(rs: seq<Region>, a: nat): nat {
    if rs == [] then 0
    else Count(rs[..|rs| - 1], a) + if Covers(rs[|rs| - 1], a) then 1 else 0
  }

  lemma {:induction false} CountConcat(s: seq<Region>, t: seq<Region>, a: nat)
    ensures Count(s + t, a) == Count(s, a) + Count(t, a)
  {
    if t == [] {
      assert s + t == s;
    } else {
      assert (s + t)[..|s + t| - 1] == s + t[..|t| - 1];
      CountConcat(s, t[..|t| - 1], a);
    }
  }

  lemma CountAdd(es: seq<Region>, n: Region, a: nat)
    ensures Count(es + [n], a) == Count(es, a) + if Covers(n, a) then 1 else 0
  {
    assert (es + [n])[..|es|] == es;
  }

  lemma {:induction false} CountMember(rs: seq<Region>, i: nat, a: nat)
    requires i < |rs| && Covers(rs[i], a)
    ensures Count(rs, a) >= 1
    decreases |rs|
  {
    if i < |rs| - 1 { CountMember(rs[..|rs| - 1], i, a); }
  }

  // ---- insert_sorted ----

  /** The first position whose base exceeds b. */
  function SortedPos(rs: seq<Region>, b: nat): (p: nat)
    ensures p <= |rs| && (p < |rs| ==> rs[p].base > b) && forall k :: 0 <= k < p ==> rs[k].base <= b
  {
    if rs == [] then 0
    else if rs[0].base > b then 0
    else 1 + SortedPos(rs[1..], b)
  }

  function InsertSorted(rs: seq<Region>, r: Region): seq<Region> {
    var p := SortedPos(rs, r.base);
    rs[..p] + [r] + rs[p..]
  }

  lemma InsertSortedBest(rs: seq<Region>, r: Region, a: nat)
    ensures Best(InsertSorted(rs, r), a) == Max(Best(rs, a), PriorityAt(r, a))
  {
    var p := SortedPos(rs, r.base);
    BestConcat(rs[..p] + [r], rs[p..], a);
    BestConcat(rs[..p], [r], a);
    BestConcat(rs[..p], rs[p..], a);
    BestOne(r, a);
    assert rs[..p] + rs[p..] == rs;
  }

  lemma InsertSortedDisjoint(rs: seq<Region>, r: Region)
    requires AllGood(rs) && Good(r) && Disjoint(rs)
    requires forall i :: 0 <= i < |rs| ==> !Overlap(rs[i], r)
    ensures Disjoint(InsertSorted(rs, r)) && AllGood(InsertSorted(rs, r))
  {
    var p := SortedPos(rs, r.base);
    AroundInsert(rs, r, p);
    DisjointAround(rs[..p], r, rs[p..]);
    InsertSortedGood(rs, r);
  }

  lemma DisjointAround(x: seq<Region>, r: Region, z: seq<Region>)
    requires Disjoint(x) && Disjoint(z) && r.base <= End(r)
    requires (forall i :: 0 <= i < |x| ==> End(x[i]) <= r.base) && (forall j :: 0 <= j < |z| ==> End(r) <= z[j].base)
    ensures Disjoint(x + [r] + z)
  {
    assert Disjoint(x + [r]);
    DisjointConcat(x + [r], z);
  }

  lemma AroundInsert(rs: seq<Region>, r: Region, p: nat)
    requires AllGood(rs) && Good(r) && Disjoint(rs) && p == SortedPos(rs, r.base)
    requires forall i :: 0 <= i < |rs| ==> !Overlap(rs[i], r)
    ensures forall i :: 0 <= i < p ==> End(rs[i]) <= r.base
    ensures forall j :: 0 <= j < |rs[p..]| ==> End(r) <= rs[p..][j].base
  {
    forall j | 0 <= j < |rs[p..]| ensures End(r) <= rs[p..][j].base {
      assert rs[p..][j] == rs[p + j] && rs[p].base <= rs[p + j].base;
    }
  }

  // ---- insert_with_overlap as a function ----

  /** What is left of r outside n. */
  function Cut(r: Region, n: Region): seq<Region> {
    if !Overlap(r, n) then [r]
    else
      (if r.base < n.base then [Region(r.base, n.base - r.base, r.kind)] else [])
      + (if End(r) > End(n) then [Region(End(n), End(r) - End(n), r.kind)] else [])
  }

  function CutAll(rs: seq<Region>, n: Region): seq<Region> {
    if rs == [] then [] else CutAll(rs[..|rs| - 1], n) + Cut(rs[|rs| - 1], n)
  }

  /** An existing region that meets n and outranks it. */
  predicate Wins(r: Region, n: Region) {
    Overlap(r, n) && Priority(r.kind) > Priority(n.kind)
  }

  /** The index of the first region that wins against n, or |rs|. */
  function FirstWinner(rs: seq<Region>, n: Region): (w: nat)
    ensures w <= |rs| && (w < |rs| ==> Wins(rs[w], n)) && forall k :: 0 <= k < w ==> !Wins(rs[k], n)
  {
    if rs == [] then 0
    else if Wins(rs[0], n) then 0
    else 1 + FirstWinner(rs[1..], n)
  }

  /** The pieces of n on either side of a winner. */
  function Pieces(n: Region, w: Region): seq<Region> {
    (if n.base < w.base then [Region(n.base, w.base - n.base, n.kind)] else [])
    + (if End(n) > End(w) then [Region(End(w), End(n) - End(w), n.kind)] else [])
  }

  function InsertAll(rs: seq<Region>, ps: seq<Region>): seq<Region> {
    if ps == [] then rs else InsertSorted(InsertAll(rs, ps[..|ps| - 1]), ps[|ps| - 1])
  }

  /** Losers met before the first winner are cut away; n enters whole, or as its pieces around that winner. */
  function Resolve(rs: seq<Region>, n: Region): seq<Region> {
    var w := FirstWinner(rs, n);
    if w == |rs| then InsertSorted(CutAll(rs, n), n)
    else InsertAll(CutAll(rs[..w], n) + rs[w..], Pieces(n, rs[w]))
  }

  // ---- No assumption on overlaps: the best priority is preserved ----

  lemma CutBest(r: Region, n: Region, a: nat)
    requires Good(r) && Good(n) && !Wins(r, n)
    ensures AllGood(Cut(r, n))
    ensures Max(Best(Cut(r, n), a), PriorityAt(n, a)) == Max(PriorityAt(r, a), PriorityAt(n, a))
  {
    if !Overlap(r, n) {
      BestOne(r, a);
    } else {
      var left := if r.base < n.base then [Region(r.base, n.base - r.base, r.kind)] else [];
      var right := if End(r) > End(n) then [Region(End(n), End(r) - End(n), r.kind)] else [];
      BestConcat(left, right, a);
      if left != [] { BestOne(left[0], a); }
      if right != [] { BestOne(right[0], a); }
    }
  }

  lemma {:induction false} CutAllBest(rs: seq<Region>, n: Region, a: nat)
    requires AllGood(rs) && Good(n) && forall k :: 0 <= k < |rs| ==> !Wins(rs[k], n)
    ensures AllGood(CutAll(rs, n))
    ensures Max(Best(CutAll(rs, n), a), PriorityAt(n, a)) == Max(Best(rs, a), PriorityAt(n, a))
  {
    if rs != [] {
      var init, r := rs[..|rs| - 1], rs[|rs| - 1];
      CutAllBest(init, n, a);
      CutBest(r, n, a);
      BestConcat(CutAll(init, n), Cut(r, n), a);
    }
  }

  lemma PiecesBest(n: Region, w: Region, a: nat)
    requires Good(n) && Good(w) && Wins(w, n)
    ensures AllGood(Pieces(n, w)) && |Pieces(n, w)| <= 2
    ensures Max(Best(Pieces(n, w), a), PriorityAt(w, a)) == Max(PriorityAt(n, a), PriorityAt(w, a))
  {
    var left := if n.base < w.base then [Region(n.base, w.base - n.base, n.kind)] else [];
    var right := if End(n) > End(w) then [Region(End(w), End(n) - End(w), n.kind)] else [];
    BestConcat(left, right, a);
    if left != [] { BestOne(left[0], a); }
    if right != [] { BestOne(right[0], a); }
  }

  lemma InsertSortedGood(rs: seq<Region>, r: Region)
    requires AllGood(rs) && Good(r)
    ensures AllGood(InsertSorted(rs, r))
  {
  }

  lemma {:induction false} InsertAllGood(rs: seq<Region>, ps: seq<Region>)
    requires AllGood(rs) && AllGood(ps)
    ensures AllGood(InsertAll(rs, ps))
  {
    if ps != [] {
      InsertAllGood(rs, ps[..|ps| - 1]);
      InsertSortedGood(InsertAll(rs, ps[..|ps| - 1]), ps[|ps| - 1]);
    }
  }

  lemma {:induction false} InsertAllBest(rs: seq<Region>, ps: seq<Region>, a: nat)
    ensures Best(InsertAll(rs, ps), a) == Max(Best(rs, a), Best(ps, a))
  {
    if ps == [] {
      BestConcat(rs, [], a);
    } else {
      InsertAllBest(rs, ps[..|ps| - 1], a);
      InsertSortedBest(InsertAll(rs, ps[..|ps| - 1]), ps[|ps| - 1], a);
    }
  }

  lemma ResolveGood(rs: seq<Region>, n: Region)
    requires AllGood(rs) && Good(n)
    ensures AllGood(Resolve(rs, n))
  {
    var w := FirstWinner(rs, n);
    CutAllBest(rs[..w], n, 0);
    if w == |rs| {
      assert rs[..w] == rs;
      InsertSortedGood(CutAll(rs, n), n);
    } else {
      PiecesBest(n, rs[w], 0);
      InsertAllGood(CutAll(rs[..w], n) + rs[w..], Pieces(n, rs[w]));
    }
  }

  /** Overlap resolution never loses or invents coverage, and the best priority at every address is kept. */
  lemma ResolveBest(rs: seq<Region>, n: Region, a: nat)
    requires AllGood(rs) && Good(n)
    ensures Best(Resolve(rs, n), a) == Max(Best(rs, a), PriorityAt(n, a))
  {
    var w := FirstWinner(rs, n);
    if w == |rs| {
      ResolveWithoutWinner(rs, n, a);
    } else {
      assert rs[..w] + rs[w..] == rs;
      ResolveAroundWinner(rs[..w], rs[w..], n, a);
    }
  }

  lemma ResolveWithoutWinner(rs: seq<Region>, n: Region, a: nat)
    requires AllGood(rs) && Good(n) && forall k :: 0 <= k < |rs| ==> !Wins(rs[k], n)
    ensures Best(InsertSorted(CutAll(rs, n), n), a) == Max(Best(rs, a), PriorityAt(n, a))
  {
    CutAllBest(rs, n, a);
    InsertSortedBest(CutAll(rs, n), n, a);
  }

  lemma ResolveAroundWinner(head: seq<Region>, tail: seq<Region>, n: Region, a: nat)
    requires AllGood(head) && AllGood(tail) && Good(n)
    requires tail != [] && Wins(tail[0], n) && forall k :: 0 <= k < |head| ==> !Wins(head[k], n)
    ensures Best(InsertAll(CutAll(head, n) + tail, Pieces(n, tail[0])), a)
            == Max(Best(head + tail, a), PriorityAt(n, a))
  {
    var cut := CutAll(head, n);
    CutAllBest(head, n, a);
    PiecesBest(n, tail[0], a);
    InsertAllBest(cut + tail, Pieces(n, tail[0]), a);
    BestConcat(cut, tail, a);
    BestConcat(head, tail, a);
    BestMember(tail, 0, a);
  }

  // ---- Disjointness: exactly when one insertion keeps it ----

  /** Some region outranks n without being the last region n meets. */
  ghost predicate Blocked(rs: seq<Region>, n: Region) {
    exists i, j :: 0 <= i < j < |rs| && Wins(rs[i], n) && Overlap(rs[j], n)
  }

  /** Every region of the cut list lies inside one of the originals and outside n. */
  lemma {:induction false} CutAllInside(rs: seq<Region>, n: Region, k: nat) returns (i: nat)
    requires AllGood(rs) && Good(n) && k < |CutAll(rs, n)|
    ensures i < |rs| && rs[i].base <= CutAll(rs, n)[k].base && End(CutAll(rs, n)[k]) <= End(rs[i])
    ensures Good(CutAll(rs, n)[k]) && !Overlap(CutAll(rs, n)[k], n)
    decreases |rs|
  {
    var init, r := rs[..|rs| - 1], rs[|rs| - 1];
    if k < |CutAll(init, n)| {
      i := CutAllInside(init, n, k);
    } else {
      i := |rs| - 1;
      CutInside(r, n, k - |CutAll(init, n)|);
    }
  }

  lemma CutInside(r: Region, n: Region, k: nat)
    requires Good(r) && Good(n) && k < |Cut(r, n)|
    ensures var c := Cut(r, n)[k]; r.base <= c.base && End(c) <= End(r) && Good(c) && !Overlap(c, n)
  {
  }

  lemma DisjointConcat(s: seq<Region>, t: seq<Region>)
    requires Disjoint(s) && Disjoint(t)
    requires forall i, j :: 0 <= i < |s| && 0 <= j < |t| ==> End(s[i]) <= t[j].base
    ensures Disjoint(s + t)
  {
  }

  lemma {:induction false} CutAllDisjoint(rs: seq<Region>, n: Region)
    requires AllGood(rs) && Good(n) && Disjoint(rs)
    ensures Disjoint(CutAll(rs, n)) && AllGood(CutAll(rs, n))
    ensures forall k :: 0 <= k < |CutAll(rs, n)| ==> !Overlap(CutAll(rs, n)[k], n)
    decreases |rs|
  {
    forall k | 0 <= k < |CutAll(rs, n)| ensures Good(CutAll(rs, n)[k]) && !Overlap(CutAll(rs, n)[k], n) {
      var i := CutAllInside(rs, n, k);
    }
    if rs != [] {
      CutAllDisjoint(rs[..|rs| - 1], n);
      CutLastDisjoint(rs, n);
    }
  }

  lemma CutLastDisjoint(rs: seq<Region>, n: Region)
    requires AllGood(rs) && Good(n) && Disjoint(rs) && rs != [] && Disjoint(CutAll(rs[..|rs| - 1], n))
    ensures Disjoint(CutAll(rs, n))
  {
    var init, r := rs[..|rs| - 1], rs[|rs| - 1];
    var x, y := CutAll(init, n), Cut(r, n);
    forall i | 0 <= i < |x| ensures End(x[i]) <= r.base { var k := CutAllInside(init, n, i); }
    forall j | 0 <= j < |y| ensures r.base <= y[j].base { CutInside(r, n, j); }
    DisjointConcat(x, y);
  }

  /** The list into which the pieces go is disjoint, and its cut part keeps clear of n. */
  lemma CutHeadDisjoint(rs: seq<Region>, n: Region, w: nat)
    requires AllGood(rs) && Good(n) && Disjoint(rs) && w <= |rs|
    ensures var l := CutAll(rs[..w], n) + rs[w..];
            && Disjoint(l) && AllGood(l) && |l| == |CutAll(rs[..w], n)| + |rs| - w
            && forall k :: 0 <= k < |CutAll(rs[..w], n)| ==> !Overlap(l[k], n)
  {
    var cut := CutAll(rs[..w], n);
    CutAllDisjoint(rs[..w], n);
    forall i, j | 0 <= i < |cut| && 0 <= j < |rs[w..]| ensures End(cut[i]) <= rs[w..][j].base {
      var k := CutAllInside(rs[..w], n, i);
    }
    DisjointConcat(cut, rs[w..]);
  }

  ghost predicate Apart(rs: seq<Region>, p: Region) {
    forall k :: 0 <= k < |rs| ==> !Overlap(rs[k], p)
  }

  lemma InsertSortedApart(rs: seq<Region>, r: Region, p: Region)
    requires Apart(rs, p) && !Overlap(r, p)
    ensures Apart(InsertSorted(rs, r), p)
  {
  }

  /** Inserting the pieces of n around w into a disjoint list that keeps clear of them. */
  lemma InsertPiecesDisjoint(l: seq<Region>, n: Region, w: Region)
    requires AllGood(l) && Disjoint(l) && Good(n) && Good(w) && Wins(w, n)
    requires forall p :: p in Pieces(n, w) ==> Apart(l, p)
    ensures Disjoint(InsertAll(l, Pieces(n, w)))
  {
    var ps := Pieces(n, w);
    PiecesBest(n, w, 0);
    if |ps| == 1 {
      assert ps == [ps[0]] && ps[0] in ps && ps[..0] == [];
      InsertSortedDisjoint(l, ps[0]);
    } else if |ps| == 2 {
      InsertTwo(l, ps[0], ps[1]);
      assert ps == [ps[0], ps[1]];
    }
  }

  lemma InsertTwo(l: seq<Region>, p: Region, q: Region)
    requires AllGood(l) && Disjoint(l) && Good(p) && Good(q) && !Overlap(p, q) && Apart(l, p) && Apart(l, q)
    ensures Disjoint(InsertAll(l, [p, q]))
  {
    assert [p, q][..1] == [p] && [p][..0] == [];
    assert InsertAll(l, [p]) == InsertSorted(l, p);
    InsertSortedDisjoint(l, p);
    InsertSortedApart(l, p, q);
    InsertSortedDisjoint(InsertSorted(l, p), q);
  }

  lemma UnblockedDisjoint(rs: seq<Region>, n: Region)
    requires AllGood(rs) && Good(n) && Disjoint(rs) && !Blocked(rs, n)
    ensures Disjoint(Resolve(rs, n))
  {
    var w := FirstWinner(rs, n);
    CutHeadDisjoint(rs, n, w);
    if w == |rs| {
      assert rs[..w] == rs && CutAll(rs, n) + rs[w..] == CutAll(rs, n);
      InsertSortedDisjoint(CutAll(rs, n), n);
    } else {
      PiecesApart(rs, n, w);
      InsertPiecesDisjoint(CutAll(rs[..w], n) + rs[w..], n, rs[w]);
    }
  }

  /** When the winner w is the last region n meets, the pieces of n meet nothing. */
  lemma PiecesApart(rs: seq<Region>, n: Region, w: nat)
    requires AllGood(rs) && Good(n) && Disjoint(rs) && !Blocked(rs, n) && w < |rs| && Wins(rs[w], n)
    ensures forall p :: p in Pieces(n, rs[w]) ==> Apart(CutAll(rs[..w], n) + rs[w..], p)
  {
    var cut, tail := CutAll(rs[..w], n), rs[w..];
    CutHeadApart(rs, n, w);
    NothingBehind(rs, n, w);
    forall p | p in Pieces(n, rs[w]) ensures Apart(cut + tail, p) {
      PieceInside(n, rs[w], p);
      PieceApart(cut, tail, n, p);
    }
  }

  lemma CutHeadApart(rs: seq<Region>, n: Region, w: nat)
    requires AllGood(rs) && Good(n) && Disjoint(rs) && w <= |rs|
    ensures Apart(CutAll(rs[..w], n), n)
  {
    CutAllDisjoint(rs[..w], n);
  }

  lemma NothingBehind(rs: seq<Region>, n: Region, w: nat)
    requires !Blocked(rs, n) && w < |rs| && Wins(rs[w], n)
    ensures forall k :: 0 < k < |rs[w..]| ==> !Overlap(rs[w..][k], n)
  {
    forall k | 0 < k < |rs[w..]| ensures !Overlap(rs[w..][k], n) {
      assert rs[w..][k] == rs[w + k];
    }
  }

  lemma PieceInside(n: Region, w: Region, p: Region)
    requires Good(n) && Good(w) && Overlap(w, n) && p in Pieces(n, w)
    ensures n.base <= p.base && End(p) <= End(n) && !Overlap(w, p)
  {
  }

  lemma PieceApart(cut: seq<Region>, tail: seq<Region>, n: Region, p: Region)
    requires n.base <= p.base && End(p) <= End(n) && Apart(cut, n)
    requires tail != [] && !Overlap(tail[0], p) && forall k :: 0 < k < |tail| ==> !Overlap(tail[k], n)
    ensures Apart(cut + tail, p)
  {
    forall k | 0 <= k < |cut + tail| ensures !Overlap((cut + tail)[k], p) {
      if k > |cut| { assert (cut + tail)[k] == tail[k - |cut|]; }
    }
  }

  /** When n is blocked, the piece behind the winner is inserted on top of a later region. */
  lemma BlockedDoubled(rs: seq<Region>, n: Region) returns (a: nat)
    requires AllGood(rs) && Good(n) && Disjoint(rs) && Blocked(rs, n)
    ensures Count(Resolve(rs, n), a) >= 2
  {
    var i, j :| 0 <= i < j < |rs| && Wins(rs[i], n) && Overlap(rs[j], n);
    assert FirstWinner(rs, n) <= i;
    a := rs[j].base;
    BlockedAt(rs, n, FirstWinner(rs, n), j);
  }

  lemma BlockedAt(rs: seq<Region>, n: Region, w: nat, j: nat)
    requires AllGood(rs) && Good(n) && Disjoint(rs)
    requires w < j < |rs| && Overlap(rs[w], n) && Overlap(rs[j], n)
    ensures Count(InsertAll(CutAll(rs[..w], n) + rs[w..], Pieces(n, rs[w])), rs[j].base) >= 2
  {
    var cut, tail := CutAll(rs[..w], n), rs[w..];
    var l, k := cut + tail, |cut| + (j - w);
    IndexBehind(cut, tail, j - w);
    assert l[k] == tail[j - w] == rs[j];
    assert End(rs[w]) <= rs[j].base;
    OnTopOfTail(l, n, rs[w], k);
  }

  lemma IndexBehind(x: seq<Region>, y: seq<Region>, k: nat)
    requires k < |y|
    ensures (x + y)[|x| + k] == y[k]
  {
  }

  lemma OnTopOfTail(l: seq<Region>, n: Region, w: Region, k: nat)
    requires Good(n) && Good(w) && Overlap(w, n)
    requires k < |l| && Good(l[k]) && Overlap(l[k], n) && End(w) <= l[k].base
    ensures Count(InsertAll(l, Pieces(n, w)), l[k].base) >= 2
  {
    var ps, a := Pieces(n, w), l[k].base;
    assert ps[|ps| - 1] == Region(End(w), End(n) - End(w), n.kind);
    CountMember(l, k, a);
    CountMember(ps, |ps| - 1, a);
    InsertAllCount(l, ps, a);
  }

  lemma {:induction false} InsertAllCount(rs: seq<Region>, ps: seq<Region>, a: nat)
    ensures Count(InsertAll(rs, ps), a) == Count(rs, a) + Count(ps, a)
  {
    if ps != [] {
      InsertAllCount(rs, ps[..|ps| - 1], a);
      InsertSortedCount(InsertAll(rs, ps[..|ps| - 1]), ps[|ps| - 1], a);
    }
  }

  lemma InsertSortedCount(rs: seq<Region>, r: Region, a: nat)
    ensures Count(InsertSorted(rs, r), a) == Count(rs, a) + if Covers(r, a) then 1 else 0
  {
    var p := SortedPos(rs, r.base);
    CountConcat(rs[..p] + [r], rs[p..], a);
    CountAdd(rs[..p], r, a);
    CountConcat(rs[..p], rs[p..], a);
    assert rs[..p] + rs[p..] == rs;
  }

  lemma {:induction false} DisjointCount(rs: seq<Region>, a: nat)
    requires Disjoint(rs)
    ensures Count(rs, a) <= 1
    decreases |rs|
  {
    if rs != [] {
      var init, r := rs[..|rs| - 1], rs[|rs| - 1];
      DisjointCount(init, a);
      if Covers(r, a) && Count(init, a) >= 1 {
        var i := CountWitness(init, a);
        assert false;
      }
    }
  }

  lemma {:induction false} CountWitness(rs: seq<Region>, a: nat) returns (i: nat)
    requires Count(rs, a) >= 1
    ensures i < |rs| && Covers(rs[i], a)
    decreases |rs|
  {
    i := |rs| - 1;
    if !Covers(rs[i], a) { i := CountWitness(rs[..i], a); }
  }

  /**
   One insertion into a disjoint map keeps it disjoint if and only if nothing outranking n precedes another region it
   meets.
   */
  lemma ResolveDisjointIff(rs: seq<Region>, n: Region)
    requires AllGood(rs) && Good(n) && Disjoint(rs)
    ensures Disjoint(Resolve(rs, n)) <==> !Blocked(rs, n)
  {
    if Blocked(rs, n) {
      var a := BlockedDoubled(rs, n);
      if Disjoint(Resolve(rs, n)) { DisjointCount(Resolve(rs, n), a); }
    } else {
      UnblockedDisjoint(rs, n);
    }
  }

  // ---- Reading off positions ----

  lemma WinnerAt(rs: seq<Region>, n: Region, w: nat)
    requires w <= |rs| && (w < |rs| ==> Wins(rs[w], n)) && forall k :: 0 <= k < w ==> !Wins(rs[k], n)
    ensures FirstWinner(rs, n) == w
  {
  }

  lemma PositionAt(rs: seq<Region>, b: nat, p: nat)
    requires p <= |rs| && (p < |rs| ==> rs[p].base > b) && forall k :: 0 <= k < p ==> rs[k].base <= b
    ensures SortedPos(rs, b) == p
  {
  }

  lemma InsertedAt(rs: seq<Region>, r: Region, p: nat)
    requires p <= |rs| && (p < |rs| ==> rs[p].base > r.base) && forall k :: 0 <= k < p ==> rs[k].base <= r.base
    ensures InsertSorted(rs, r) == rs[..p] + [r] + rs[p..]
  {
    PositionAt(rs, r.base, p);
  }

  lemma Unopposed(rs: seq<Region>, n: Region)
    requires forall k :: 0 <= k < |rs| ==> !Wins(rs[k], n)
    ensures Resolve(rs, n) == InsertSorted(CutAll(rs, n), n)
  {
    WinnerAt(rs, n, |rs|);
  }

  lemma CutAllSnoc(rs: seq<Region>, r: Region, n: Region)
    ensures CutAll(rs + [r], n) == CutAll(rs, n) + Cut(r, n)
  {
    assert (rs + [r])[..|rs|] == rs;
  }

  // ---- How often an address is covered, in any list ----

  /** A region from one address to another, left out when it would be empty. */
  function Span(from: nat, to: nat, kind: MemoryType): seq<Region> {
    if from < to then [Region(from, to - from, kind)] else []
  }

  lemma SpanCount(from: nat, to: nat, kind: MemoryType, a: nat)
    requires to < U64
    ensures Count(Span(from, to, kind), a) == if from <= a < to then 1 else 0
  {
    if from < to { CountOne(Region(from, to - from, kind), a); }
  }

  lemma PartsAreSpans(r: Region, n: Region)
    ensures Pieces(r, n) == Span(r.base, n.base, r.kind) + Span(End(n), End(r), r.kind)
    ensures Overlap(r, n) ==> Cut(r, n) == Pieces(r, n)
  {
  }

  lemma CutCount(r: Region, n: Region, a: nat)
    requires Good(r) && Good(n)
    ensures Count(Cut(r, n), a) == if Covers(r, a) && !Covers(n, a) then 1 else 0
  {
    if !Overlap(r, n) {
      CountOne(r, a);
    } else {
      PartsCount(r, n, a);
    }
  }

  /** The parts of r before and behind n. */
  lemma PartsCount(r: Region, n: Region, a: nat)
    requires Good(r) && Good(n) && Overlap(r, n)
    ensures Count(Pieces(r, n), a) == if Covers(r, a) && !Covers(n, a) then 1 else 0
    ensures Cut(r, n) == Pieces(r, n)
  {
    PartsAreSpans(r, n);
    CountConcat(Span(r.base, n.base, r.kind), Span(End(n), End(r), r.kind), a);
    SpanCount(r.base, n.base, r.kind, a);
    SpanCount(End(n), End(r), r.kind, a);
  }

  lemma CountOne(r: Region, a: nat)
    ensures Count([r], a) == if Covers(r, a) then 1 else 0
  {
    assert [r][..0] == [];
  }

  lemma {:induction false} CutAllCount(rs: seq<Region>, n: Region, a: nat)
    requires AllGood(rs) && Good(n)
    ensures Count(CutAll(rs, n), a) == if Covers(n, a) then 0 else Count(rs, a)
  {
    if rs != [] {
      CutAllCount(rs[..|rs| - 1], n, a);
      CutCount(rs[|rs| - 1], n, a);
      CountConcat(CutAll(rs[..|rs| - 1], n), Cut(rs[|rs| - 1], n), a);
    }
  }

  /** How often an address inside n is covered once n has been inserted. */
  function CountInside(rs: seq<Region>, n: Region, a: nat): nat {
    var w := FirstWinner(rs, n);
    if w == |rs| then 1 else Count(rs[w..], a) + if Covers(rs[w], a) then 0 else 1
  }

  /** The count of every address after an insertion into any list, overlapping or not. */
  lemma ResolveCount(rs: seq<Region>, n: Region, a: nat)
    requires AllGood(rs) && Good(n)
    ensures Count(Resolve(rs, n), a) == if Covers(n, a) then CountInside(rs, n, a) else Count(rs, a)
  {
    var w := FirstWinner(rs, n);
    if w == |rs| {
      CutAllCount(rs, n, a);
      InsertSortedCount(CutAll(rs, n), n, a);
    } else {
      var head, tail := rs[..w], rs[w..];
      assert head + tail == rs;
      CountAroundWinner(head, tail, n, a);
    }
  }

  lemma CountAroundWinner(head: seq<Region>, tail: seq<Region>, n: Region, a: nat)
    requires AllGood(head) && AllGood(tail) && Good(n) && tail != [] && Overlap(tail[0], n)
    ensures Count(InsertAll(CutAll(head, n) + tail, Pieces(n, tail[0])), a)
         == if Covers(n, a) then Count(tail, a) + (if Covers(tail[0], a) then 0 else 1) else Count(head + tail, a)
  {
    InsertAllCount(CutAll(head, n) + tail, Pieces(n, tail[0]), a);
    CountConcat(CutAll(head, n), tail, a);
    CountConcat(head, tail, a);
    CutAllCount(head, n, a);
    PartsCount(n, tail[0], a);
  }

  /** No two regions overlap, in whatever order they stand. */
  predicate PairwiseApart(rs: seq<Region>) {
    forall i, j :: 0 <= i < j < |rs| ==> !Overlap(rs[i], rs[j])
  }

  lemma {:induction false} CountTwo(rs: seq<Region>, i: nat, j: nat, a: nat)
    requires i < j < |rs| && Covers(rs[i], a) && Covers(rs[j], a)
    ensures Count(rs, a) >= 2
    decreases |rs|
  {
    var init := rs[..|rs| - 1];
    if j < |init| {
      CountTwo(init, i, j, a);
    } else {
      CountMember(init, i, a);
    }
  }

  lemma {:induction false} TwoCover(rs: seq<Region>, a: nat) returns (i: nat, j: nat)
    requires Count(rs, a) >= 2
    ensures i < j < |rs| && Covers(rs[i], a) && Covers(rs[j], a)
    decreases |rs|
  {
    var init := rs[..|rs| - 1];
    if Count(init, a) >= 2 {
      i, j := TwoCover(init, a);
    } else {
      i := CountWitness(init, a);
      j := |rs| - 1;
    }
  }

  ghost predicate OneCover(rs: seq<Region>) {
    forall a: nat :: Count(rs, a) <= 1
  }

  /** Regions are apart if and only if no address is covered twice. */
  lemma ApartIffCount(rs: seq<Region>)
    requires AllGood(rs)
    ensures PairwiseApart(rs) <==> OneCover(rs)
  {
    if !OneCover(rs) {
      var a: nat :| Count(rs, a) >= 2;
      var i, j := TwoCover(rs, a);
      assert Overlap(rs[i], rs[j]);
    }
    if i, j :| 0 <= i < j < |rs| && Overlap(rs[i], rs[j]) {
      var a := if rs[i].base < rs[j].base then rs[j].base else rs[i].base;
      CountTwo(rs, i, j, a);
    }
  }
}
