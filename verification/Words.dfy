/** Addresses as 64-bit machine words: the conversion keeps the value and the page. */
module Words {
  import opened Machine
  import Bits

  // ---- Numbers written in binary, over an abstract word ----

  /** Words with a value, one more digit at the low end, and agreement of two words above their last digits. */
  datatype Numerals<!W> = Numerals(zero: W, push0: W -> W, push1: W -> W, value: W -> int, agree: (W, W, nat) -> bool)

  /** Appending a digit doubles the value, unless the word is full. */
  predicate PushLaw<W>(d: Numerals<W>, push: W -> W, digit: int, w: W) {
    0 <= d.value(w) < U64 / 2 ==> d.value(push(w)) == 2 * d.value(w) + digit
  }

  predicate AgreeLaw<W>(d: Numerals<W>, push: W -> W, x: W, y: W, k: nat) {
    d.agree(x, y, k) ==> d.agree(push(x), d.push0(y), k + 1)
  }

  ghost predicate NumeralLaws<W(!new)>(d: Numerals<W>) {
    && d.value(d.zero) == 0 && d.push0(d.zero) == d.zero
    && (forall w :: PushLaw(d, d.push0, 0, w))
    && (forall w :: PushLaw(d, d.push1, 1, w))
    && (forall w :: d.agree(w, w, 0))
    && (forall x, y, k: nat :: AgreeLaw(d, d.push0, x, y, k))
    && (forall x, y, k: nat :: AgreeLaw(d, d.push1, x, y, k))
  }

  /** The word whose binary digits are those of n. */
  function Numeral<W>(d: Numerals<W>, n: nat): W {
    if n == 0 then d.zero
    else if n % 2 == 0 then d.push0(Numeral(d, n / 2))
    else d.push1(Numeral(d, n / 2))
  }

  lemma {:induction false} NumeralValue<W(!new)>(d: Numerals<W>, n: nat)
    requires NumeralLaws(d) && n < U64
    ensures d.value(Numeral(d, n)) == n
  {
    if n > 0 {
      NumeralValue(d, n / 2);
      var h := Numeral(d, n / 2);
      assert PushLaw(d, d.push0, 0, h) && PushLaw(d, d.push1, 1, h);
    }
  }

  /** n with its last k binary digits cleared. */
  function RoundDown(n: nat, k: nat): nat {
    if k == 0 then n else 2 * RoundDown(n / 2, k - 1)
  }

  lemma {:induction false} RoundDownIs(n: nat, k: nat)
    ensures RoundDown(n, k) == n - n % Bits.Pow2(k)
  {
    if k > 0 {
      RoundDownIs(n / 2, k - 1);
      Bits.SplitDivMod(n, 2, Bits.Pow2(k - 1), Bits.Pow2(k));
    }
  }

  lemma NumeralDoubled<W(!new)>(d: Numerals<W>, n: nat)
    requires NumeralLaws(d)
    ensures Numeral(d, 2 * n) == d.push0(Numeral(d, n))
  {
    assert 2 * n / 2 == n && 2 * n % 2 == 0;
    NumeralHalved(d, 2 * n);
  }

  lemma NumeralHalved<W>(d: Numerals<W>, n: nat)
    requires d.push0(d.zero) == d.zero
    ensures Numeral(d, n) == if n % 2 == 0 then d.push0(Numeral(d, n / 2)) else d.push1(Numeral(d, n / 2))
  {
  }

  /** Clearing the last k digits of a number changes its word in the last k digits only. */
  lemma {:induction false} RoundedAgree<W(!new)>(d: Numerals<W>, n: nat, k: nat)
    requires NumeralLaws(d)
    ensures d.agree(Numeral(d, n), Numeral(d, RoundDown(n, k)), k)
    decreases k
  {
    if k > 0 {
      var h, r := n / 2, RoundDown(n / 2, k - 1);
      var x, y := Numeral(d, h), Numeral(d, r);
      RoundedAgree(d, h, k - 1);
      assert AgreeLaw(d, d.push0, x, y, k - 1) && AgreeLaw(d, d.push1, x, y, k - 1);
      NumeralDoubled(d, r);
      NumeralHalved(d, n);
    }
  }

  // ---- Machine words ----

  function Value(w: bv64): int { w as int }
  function Push0(w: bv64): bv64 { w << 1 }
  function Push1(w: bv64): bv64 { (w << 1) | 1 }

  function OnesWord(k: nat): bv64 {
    if k == 0 then 0 else (OnesWord(k - 1) << 1) | 1
  }

  predicate AgreeOutside(x: bv64, y: bv64, mask: bv64) {
    x & !mask == y & !mask
  }

  predicate AgreeAbove(x: bv64, y: bv64, k: nat) {
    AgreeOutside(x, y, OnesWord(k))
  }

  const MACHINE: Numerals<bv64> := Numerals(0, Push0, Push1, Value, AgreeAbove)

  lemma Push0Value(w: bv64)
    requires w as int < 0x8000_0000_0000_0000
    ensures (w << 1) as int == 2 * (w as int)
  {
  }

  lemma Push1Value(w: bv64)
    requires w as int < 0x8000_0000_0000_0000
    ensures ((w << 1) | 1) as int == 2 * (w as int) + 1
  {
  }

  lemma AgreePush(x: bv64, y: bv64, mask: bv64)
    requires AgreeOutside(x, y, mask)
    ensures AgreeOutside(x << 1, y << 1, (mask << 1) | 1) && AgreeOutside((x << 1) | 1, y << 1, (mask << 1) | 1)
  {
  }

  lemma MachinePush0(w: bv64)
    ensures PushLaw(MACHINE, MACHINE.push0, 0, w)
  {
    if Value(w) < U64 / 2 { Push0Value(w); }
  }

  lemma MachinePush1(w: bv64)
    ensures PushLaw(MACHINE, MACHINE.push1, 1, w)
  {
    if Value(w) < U64 / 2 { Push1Value(w); }
  }

  lemma OnesNext(k: nat)
    ensures OnesWord(k + 1) == (OnesWord(k) << 1) | 1
  {
  }

  lemma MachineAgree0(x: bv64, y: bv64, k: nat)
    ensures AgreeLaw(MACHINE, MACHINE.push0, x, y, k)
  {
    if AgreeAbove(x, y, k) { AgreePush(x, y, OnesWord(k)); OnesNext(k); }
  }

  lemma MachineAgree1(x: bv64, y: bv64, k: nat)
    ensures AgreeLaw(MACHINE, MACHINE.push1, x, y, k)
  {
    if AgreeAbove(x, y, k) { AgreePush(x, y, OnesWord(k)); OnesNext(k); }
  }

  lemma MachineLawful()
    ensures NumeralLaws(MACHINE)
  {
    forall w ensures PushLaw(MACHINE, MACHINE.push0, 0, w) { MachinePush0(w); }
    forall w ensures PushLaw(MACHINE, MACHINE.push1, 1, w) { MachinePush1(w); }
    forall w ensures MACHINE.agree(w, w, 0) { assert AgreeAbove(w, w, 0); }
    forall x, y, k: nat ensures AgreeLaw(MACHINE, MACHINE.push0, x, y, k) { MachineAgree0(x, y, k); }
    forall x, y, k: nat ensures AgreeLaw(MACHINE, MACHINE.push1, x, y, k) { MachineAgree1(x, y, k); }
  }

  /** The 64-bit word of an address; digits beyond the 64th are lost. */
  function ToWord(pa: nat): bv64 {
    Numeral(MACHINE, pa)
  }

  lemma MachineNumeral(n: nat)
    requires n < U64
    ensures MACHINE.value(ToWord(n)) == n
  {
    MachineLawful();
    NumeralValue(MACHINE, n);
  }

  lemma MachineValue(w: bv64, n: nat)
    requires MACHINE.value(w) == n
    ensures w as int == n
  {
  }

  /** The word of an address below 2^64 has that address as its value. */
  lemma WordValue(n: nat)
    requires n < U64
    ensures ToWord(n) as int == n
  {
    MachineNumeral(n);
    MachineValue(ToWord(n), n);
  }

  // ---- Pages ----

  lemma TwelveOnes()
    ensures OnesWord(12) == 0xFFF && Bits.Pow2(12) == 4096
  {
    assert OnesWord(4) == 0xF && Bits.Pow2(4) == 16;
    assert OnesWord(8) == 0xFF && Bits.Pow2(8) == 256;
  }

  /** The words differ in the low twelve bits at most. */
  predicate SamePage(x: bv64, y: bv64) {
    x >> 12 == y >> 12
  }

  lemma MaskAndShift(x: bv64, y: bv64)
    requires AgreeOutside(x, y, 0xFFF)
    ensures SamePage(x, y)
  {
  }

  lemma AgreeOnPage(x: bv64, y: bv64)
    requires MACHINE.agree(x, y, 12)
    ensures SamePage(x, y)
  {
    TwelveOnes();
    MaskAndShift(x, y);
  }

  lemma WordAndPage(n: nat, p: nat)
    requires p == RoundDown(n, 12)
    ensures MACHINE.agree(ToWord(n), ToWord(p), 12)
  {
    MachineLawful();
    RoundedAgree(MACHINE, n, 12);
  }

  lemma PageStart(n: nat)
    ensures RoundDown(n, 12) == n - n % 4096
  {
    TwelveOnes();
    RoundDownIs(n, 12);
  }

  /** An address and its page differ in the low twelve bits only. */
  lemma PageOfWord(n: nat)
    ensures SamePage(ToWord(n), ToWord(n - n % 4096))
  {
    PageStart(n);
    WordAndPage(n, n - n % 4096);
    AgreeOnPage(ToWord(n), ToWord(n - n % 4096));
  }

  /** Bits 47 to 12. */
  const ADDR_MASK: bv64 := 0x0000_FFFF_FFFF_F000
  /** Bits 55 to 12. */
  const WIDE_ADDR_MASK: bv64 := 0x00FF_FFFF_FFFF_F000

  function Masked(v: bv64, mask: bv64): bv64 { v & mask }

  lemma PageShift(w: bv64)
    requires w as int < 0x10_0000_0000_0000
    ensures (w << 12) as int == 4096 * (w as int)
  {
  }

  /** The narrow field holds page numbers of 36 bits. */
  lemma NarrowFits(w: bv64)
    requires w as int < 0x10_0000_0000
    ensures Masked(w << 12, ADDR_MASK) == w << 12
  {
    NarrowBits(w);
    NarrowField(w);
  }

  lemma NarrowBits(w: bv64)
    requires w as int < 0x10_0000_0000
    ensures w & 0xFFFF_FFF0_0000_0000 == 0
  {
  }

  lemma NarrowField(w: bv64)
    requires w & 0xFFFF_FFF0_0000_0000 == 0
    ensures Masked(w << 12, 0x0000_FFFF_FFFF_F000) == w << 12
  {
  }

  /** The wide field holds page numbers of 44 bits. */
  lemma WideFits(w: bv64)
    requires w as int < 0x1000_0000_0000
    ensures Masked(w << 12, WIDE_ADDR_MASK) == w << 12
  {
    WideBits(w);
    WideField(w);
  }

  lemma WideBits(w: bv64)
    requires w as int < 0x1000_0000_0000
    ensures w & 0xFFFF_F000_0000_0000 == 0
  {
  }

  lemma WideField(w: bv64)
    requires w & 0xFFFF_F000_0000_0000 == 0
    ensures Masked(w << 12, 0x00FF_FFFF_FFFF_F000) == w << 12
  {
  }

  lemma ConversionUnique(n: nat, w: bv64)
    requires n < U64 && w as int == n
    ensures n as bv64 == w
  {
  }

  lemma SameValue(x: bv64, y: bv64, n: nat)
    requires n < U64 && x as int == n && y as int == n
    ensures x == y
  {
    ConversionUnique(n, x);
    ConversionUnique(n, y);
  }

  lemma ShiftedWord(w: bv64, v: bv64, n: nat)
    requires w as int == n < 0x10_0000_0000_0000 && v as int == 4096 * n
    ensures v == w << 12
  {
    PageShift(w);
    SameValue(v, w << 12, 4096 * n);
  }

  lemma ShiftedNarrow(w: bv64, v: bv64, n: nat)
    requires w as int == n < 0x10_0000_0000 && v as int == 4096 * n
    ensures Masked(v, ADDR_MASK) == v
  {
    ShiftedWord(w, v, n);
    NarrowFits(w);
  }

  lemma ShiftedWide(w: bv64, v: bv64, n: nat)
    requires w as int == n < 0x1000_0000_0000 && v as int == 4096 * n
    ensures Masked(v, WIDE_ADDR_MASK) == v
  {
    ShiftedWord(w, v, n);
    WideFits(w);
  }

  /** A page-aligned address below 2^48 passes through the narrow address field unchanged. */
  lemma NarrowPageWord(p: nat)
    requires p % 4096 == 0 && p < 0x1_0000_0000_0000
    ensures Masked(ToWord(p), ADDR_MASK) == ToWord(p)
  {
    WordValue(p / 4096);
    WordValue(p);
    ShiftedNarrow(ToWord(p / 4096), ToWord(p), p / 4096);
  }

  /** A page-aligned address below 2^56 passes through the wide one. */
  lemma WidePageWord(p: nat)
    requires p % 4096 == 0 && p < 0x100_0000_0000_0000
    ensures Masked(ToWord(p), WIDE_ADDR_MASK) == ToWord(p)
  {
    WordValue(p / 4096);
    WordValue(p);
    ShiftedWide(ToWord(p / 4096), ToWord(p), p / 4096);
  }
}
