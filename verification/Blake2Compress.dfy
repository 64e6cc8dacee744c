/**
 The BLAKE2b compression function and its two in-place implementations.  Neither proof depends on what the word
 operations do, so they are a parameter here; `MACHINE` is the 64-bit arithmetic of the hash.
 */
module Blake2Compress {
  import opened Machine
  import opened Blake2Spec
  import Bits

  datatype WordOps = WordOps(
    add: (bv64, bv64) -> bv64,
    xor: (bv64, bv64) -> bv64,
    not: bv64 -> bv64,
    rotr: (bv64, nat) -> bv64)

  /** The four rotations of section 3.1. */
  function RotateRight(x: bv64, n: nat): bv64 {
    if n == 32 then x.RotateRight(32)
    else if n == 24 then x.RotateRight(24)
    else if n == 16 then x.RotateRight(16)
    else if n == 63 then x.RotateRight(63)
    else x
  }

  const MACHINE := WordOps((x, y) => x + y, (x, y) => x ^ y, x => !x, RotateRight)

  predicate Index(i: nat) { i < 16 }

  /** One half of G (section 3.1): add, then xor and rotate, twice. */
  function HalfMix(o: WordOps, v: Words16, a: nat, b: nat, c: nat, d: nat, x: bv64, r1: nat, r2: nat): Words16
    requires Index(a) && Index(b) && Index(c) && Index(d)
  {
    var v1 := v[a := o.add(o.add(v[a], v[b]), x)];
    var v2 := v1[d := o.rotr(o.xor(v1[d], v1[a]), r1)];
    var v3 := v2[c := o.add(v2[c], v2[d])];
    v3[b := o.rotr(o.xor(v3[b], v3[c]), r2)]
  }

  /** The mixing function G of section 3.1, on a working vector. */
  function Mix(o: WordOps, v: Words16, a: nat, b: nat, c: nat, d: nat, x: bv64, y: bv64): Words16
    requires Index(a) && Index(b) && Index(c) && Index(d)
  {
    HalfMix(o, HalfMix(o, v, a, b, c, d, x, 32, 24), a, b, c, d, y, 16, 63)
  }

  function Columns(o: WordOps, v: Words16, m: Words16, s: Schedule): Words16 {
    var v1 := Mix(o, v, 0, 4, 8, 12, m[s[0]], m[s[1]]);
    var v2 := Mix(o, v1, 1, 5, 9, 13, m[s[2]], m[s[3]]);
    var v3 := Mix(o, v2, 2, 6, 10, 14, m[s[4]], m[s[5]]);
    Mix(o, v3, 3, 7, 11, 15, m[s[6]], m[s[7]])
  }

  function Diagonals(o: WordOps, v: Words16, m: Words16, s: Schedule): Words16 {
    var v1 := Mix(o, v, 0, 5, 10, 15, m[s[8]], m[s[9]]);
    var v2 := Mix(o, v1, 1, 6, 11, 12, m[s[10]], m[s[11]]);
    var v3 := Mix(o, v2, 2, 7, 8, 13, m[s[12]], m[s[13]]);
    Mix(o, v3, 3, 4, 9, 14, m[s[14]], m[s[15]])
  }

  function Round(o: WordOps, v: Words16, m: Words16, s: Schedule): Words16 {
    Diagonals(o, Columns(o, v, m, s), m, s)
  }

  /** One round per schedule, in order. */
  function Rounds(o: WordOps, v: Words16, m: Words16, ss: seq<Schedule>): Words16 {
    if ss == [] then v else Round(o, Rounds(o, v, m, ss[..|ss| - 1]), m, ss[|ss| - 1])
  }

  /** Little-endian word i of a block. */
  function WordAt(b: Block, i: nat): bv64
    requires i < 16
  {
    (b[8 * i] as bv64) | ((b[8 * i + 1] as bv64) << 8) | ((b[8 * i + 2] as bv64) << 16) | ((b[8 * i + 3] as bv64) << 24)
    | ((b[8 * i + 4] as bv64) << 32) | ((b[8 * i + 5] as bv64) << 40) | ((b[8 * i + 6] as bv64) << 48)
    | ((b[8 * i + 7] as bv64) << 56)
  }

  function Message(b: Block): Words16 {
    seq(16, i requires 0 <= i < 16 => WordAt(b, i))
  }

  /** The low and high 64-bit words of a byte count. */
  function LowWord(t: nat): bv64 { Word(t % U64) }
  function HighWord(t: nat): bv64 { Word(t / U64 % U64) }

  function Word(n: nat): bv64
    requires n < U64
  {
    n as bv64
  }

  /** The working vector for counter words t0 and t1. */
  function Initial(o: WordOps, h: Words8, t0: bv64, t1: bv64, last: bool): Words16 {
    var v := h + IV;
    var v1 := v[12 := o.xor(v[12], t0)];
    var v2 := v1[13 := o.xor(v1[13], t1)];
    if last then v2[14 := o.not(v2[14])] else v2
  }

  function Finish(o: WordOps, h: Words8, v: Words16): Words8 {
    seq(8, i requires 0 <= i < 8 => o.xor(h[i], o.xor(v[i], v[i + 8])))
  }

  /** The compression function over given schedules and counter words. */
  function FWith(o: WordOps, ss: seq<Schedule>, h: Words8, b: Block, t0: bv64, t1: bv64, last: bool): Words8 {
    Finish(o, h, Rounds(o, Initial(o, h, t0, t1, last), Message(b), ss))
  }

  /** Round i of section 3.2 uses schedule i mod 10. */
  function RfcSchedules(): seq<Schedule> {
    seq(12, i requires 0 <= i < 12 => ScheduleOf(i))
  }

  function ScheduleOf(i: nat): Schedule {
    SIGMA[i % 10]
  }

  /** The compression function F of section 3.2, for byte count t. */
  function F(h: Words8, b: Block, t: nat, last: bool): Words8 {
    FWith(MACHINE, RfcSchedules(), h, b, LowWord(t), HighWord(t), last)
  }

  // ---- In place ----

  method HalfMixInPlace(o: WordOps, v: array<bv64>, a: nat, b: nat, c: nat, d: nat, x: bv64, r1: nat, r2: nat)
    requires v.Length == 16 && Index(a) && Index(b) && Index(c) && Index(d)
    modifies v
    ensures v[..] == HalfMix(o, old(v[..]), a, b, c, d, x, r1, r2)
  {
    v[a] := o.add(o.add(v[a], v[b]), x);
    v[d] := o.rotr(o.xor(v[d], v[a]), r1);
    v[c] := o.add(v[c], v[d]);
    v[b] := o.rotr(o.xor(v[b], v[c]), r2);
  }

  /** `g`, on the working vector. */
  method MixInPlace(o: WordOps, v: array<bv64>, a: nat, b: nat, c: nat, d: nat, x: bv64, y: bv64)
    requires v.Length == 16 && Index(a) && Index(b) && Index(c) && Index(d)
    modifies v
    ensures v[..] == Mix(o, old(v[..]), a, b, c, d, x, y)
  {
    HalfMixInPlace(o, v, a, b, c, d, x, 32, 24);
    HalfMixInPlace(o, v, a, b, c, d, y, 16, 63);
  }

  method ColumnsInPlace(o: WordOps, v: array<bv64>, m: Words16, s: Schedule)
    requires v.Length == 16
    modifies v
    ensures v[..] == Columns(o, old(v[..]), m, s)
  {
    MixInPlace(o, v, 0, 4, 8, 12, m[s[0]], m[s[1]]);
    MixInPlace(o, v, 1, 5, 9, 13, m[s[2]], m[s[3]]);
    MixInPlace(o, v, 2, 6, 10, 14, m[s[4]], m[s[5]]);
    MixInPlace(o, v, 3, 7, 11, 15, m[s[6]], m[s[7]]);
  }

  method DiagonalsInPlace(o: WordOps, v: array<bv64>, m: Words16, s: Schedule)
    requires v.Length == 16
    modifies v
    ensures v[..] == Diagonals(o, old(v[..]), m, s)
  {
    MixInPlace(o, v, 0, 5, 10, 15, m[s[8]], m[s[9]]);
    MixInPlace(o, v, 1, 6, 11, 12, m[s[10]], m[s[11]]);
    MixInPlace(o, v, 2, 7, 8, 13, m[s[12]], m[s[13]]);
    MixInPlace(o, v, 3, 4, 9, 14, m[s[14]], m[s[15]]);
  }

  /** `v[..8] = h; v[8..] = IV`. */
  method LoadVector(v: array<bv64>, h: Words8)
    requires v.Length == 16
    modifies v
    ensures v[..] == h + IV
  {
    for i := 0 to 8
      invariant v[..i] == h[..i]
    {
      v[i] := h[i];
    }
    for i := 0 to 8
      invariant v[..8] == h && v[8..8 + i] == IV[..i]
    {
      v[8 + i] := IV[i];
    }
    assert v[..] == v[..8] + v[8..];
  }

  /** The working vector, filled in place. */
  method InitialInPlace(o: WordOps, v: array<bv64>, h: Words8, t0: bv64, t1: bv64, last: bool)
    requires v.Length == 16
    modifies v
    ensures v[..] == Initial(o, h, t0, t1, last)
  {
    LoadVector(v, h);
    v[12] := o.xor(v[12], t0);
    v[13] := o.xor(v[13], t1);
    if last {
      v[14] := o.not(v[14]);
    }
  }

  /** The final xor of both halves of the working vector into the chain value. */
  method FinishInPlace(o: WordOps, h: array<bv64>, v: array<bv64>)
    requires h.Length == 8 && v.Length == 16 && h != v
    modifies h
    ensures h[..] == Finish(o, old(h[..]), old(v[..]))
  {
    for i := 0 to 8
      invariant v[..] == old(v[..])
      invariant forall k :: 0 <= k < i ==> h[k] == o.xor(old(h[k]), o.xor(v[k], v[k + 8]))
      invariant forall k :: i <= k < 8 ==> h[k] == old(h[k])
    {
      h[i] := o.xor(h[i], o.xor(v[i], v[i + 8]));
    }
  }

  /** The streaming hasher's rounds: one per row of its schedule table. */
  method RowsInPlace(o: WordOps, v: array<bv64>, m: Words16, rows: seq<Schedule>)
    requires v.Length == 16
    modifies v
    ensures v[..] == Rounds(o, old(v[..]), m, rows)
  {
    for i := 0 to |rows|
      invariant v[..] == Rounds(o, old(v[..]), m, rows[..i])
    {
      ColumnsInPlace(o, v, m, rows[i]);
      DiagonalsInPlace(o, v, m, rows[i]);
      RoundsNext(o, old(v[..]), m, rows, i);
    }
    assert rows[..|rows|] == rows;
  }

  /** The streaming hasher's `compress`. */
  method CompressRows(o: WordOps, rows: seq<Schedule>, h: array<bv64>, b: Block, t0: bv64, t1: bv64, last: bool)
    requires h.Length == 8
    modifies h
    ensures h[..] == FWith(o, rows, old(h[..]), b, t0, t1, last)
  {
    var v := new bv64[16];
    InitialInPlace(o, v, h[..], t0, t1, last);
    RowsInPlace(o, v, Message(b), rows);
    FinishInPlace(o, h, v);
  }

  lemma RoundsNext(o: WordOps, v: Words16, m: Words16, ss: seq<Schedule>, i: nat)
    requires i < |ss|
    ensures Rounds(o, v, m, ss[..i + 1]) == Diagonals(o, Columns(o, Rounds(o, v, m, ss[..i]), m, ss[i]), m, ss[i])
  {
    assert ss[..i + 1][..i] == ss[..i];
  }

  function ModuloRows(table: seq<Schedule>): seq<Schedule>
    requires |table| == 10
  {
    seq(12, i requires 0 <= i < 12 => table[i % 10])
  }

  /** Round i of a run of rounds. */
  method RoundInPlace(o: WordOps, v: array<bv64>, m: Words16, s: Schedule, ghost v0: Words16,
                      ghost rows: seq<Schedule>, ghost i: nat)
    requires v.Length == 16 && i < |rows| && rows[i] == s && v[..] == Rounds(o, v0, m, rows[..i])
    modifies v
    ensures v[..] == Rounds(o, v0, m, rows[..i + 1])
  {
    ColumnsInPlace(o, v, m, s);
    DiagonalsInPlace(o, v, m, s);
    RoundsNext(o, v0, m, rows, i);
  }

  /** The command-line tool's rounds: twelve over a ten-row table, row index round mod 10. */
  method ModuloInPlace(o: WordOps, v: array<bv64>, m: Words16, table: seq<Schedule>, rounds: nat,
                       ghost rows: seq<Schedule>)
    requires v.Length == 16 && |table| == 10 && |rows| == rounds
    requires forall i :: 0 <= i < rounds ==> rows[i] == table[i % 10]
    modifies v
    ensures v[..] == Rounds(o, old(v[..]), m, rows)
  {
    ghost var v0 := v[..];
    assert rows[..0] == [];
    for round := 0 to rounds
      invariant v[..] == Rounds(o, v0, m, rows[..round])
    {
      var s := table[round % 10];
      RoundInPlace(o, v, m, s, v0, rows, round);
    }
    assert rows[..rounds] == rows;
  }

  /** The command-line tool's `compress`. */
  method CompressModulo(o: WordOps, table: seq<Schedule>, h: array<bv64>, b: Block, t0: bv64, t1: bv64, last: bool)
    requires h.Length == 8 && |table| == 10
    modifies h
    ensures h[..] == FWith(o, ModuloRows(table), old(h[..]), b, t0, t1, last)
  {
    var v := new bv64[16];
    InitialInPlace(o, v, h[..], t0, t1, last);
    ModuloInPlace(o, v, Message(b), table, 12, ModuloRows(table));
    FinishInPlace(o, h, v);
  }

  /** The streaming hasher's own table: twelve rows. */
  const TWELVE_ROWS: seq<seq<nat>> := [
    [0, 1, 2, 3, 4, 5, 6, 7, 8, 9, 10, 11, 12, 13, 14, 15],
    [14, 10, 4, 8, 9, 15, 13, 6, 1, 12, 0, 2, 11, 7, 5, 3],
    [11, 8, 12, 0, 5, 2, 15, 13, 10, 14, 3, 6, 7, 1, 9, 4],
    [7, 9, 3, 1, 13, 12, 11, 14, 2, 6, 5, 10, 4, 0, 15, 8],
    [9, 0, 5, 7, 2, 4, 10, 15, 14, 1, 11, 12, 6, 8, 3, 13],
    [2, 12, 6, 10, 0, 11, 8, 3, 4, 13, 7, 5, 15, 14, 1, 9],
    [12, 5, 1, 15, 14, 13, 4, 10, 0, 7, 6, 3, 9, 2, 8, 11],
    [13, 11, 7, 14, 12, 1, 3, 9, 5, 0, 15, 4, 8, 6, 2, 10],
    [6, 15, 14, 9, 11, 3, 0, 8, 12, 2, 13, 7, 1, 4, 10, 5],
    [10, 2, 8, 4, 7, 6, 1, 5, 15, 11, 9, 14, 3, 12, 13, 0],
    [0, 1, 2, 3, 4, 5, 6, 7, 8, 9, 10, 11, 12, 13, 14, 15],
    [14, 10, 4, 8, 9, 15, 13, 6, 1, 12, 0, 2, 11, 7, 5, 3]]

  /** Both tables give the schedules of section 3.2. */
  lemma TablesAgree()
    ensures |TWELVE_ROWS| == 12 && forall i :: 0 <= i < 12 ==> TWELVE_ROWS[i] == ScheduleOf(i)
  {
    forall i | 0 <= i < 12 ensures TWELVE_ROWS[i] == SIGMA[i % 10] {
      assert i % 10 == if i < 10 then i else i - 10;
    }
  }

  function TwelveRows(): seq<Schedule> {
    TablesAgree();
    seq(12, i requires 0 <= i < 12 => TWELVE_ROWS[i])
  }

  lemma RowsAreSchedules()
    ensures TwelveRows() == RfcSchedules()
  {
    TablesAgree();
  }

  lemma CounterParts(t0: nat, t1: nat)
    requires t0 < U64 && t1 < U64
    ensures (t0 + U64 * t1) % U64 == t0 && (t0 + U64 * t1) / U64 % U64 == t1
  {
    Bits.DivUnique(t0 + U64 * t1, U64, t1, t0);
    Bits.DivUnique(t1, U64, 0, t1);
  }

  lemma CounterWords(t0: nat, t1: nat)
    requires t0 < U64 && t1 < U64
    ensures LowWord(t0 + U64 * t1) == Word(t0) && HighWord(t0 + U64 * t1) == Word(t1)
  {
    CounterParts(t0, t1);
  }

  /** The streaming `compress`, with its two counter words, is F at their combined value. */
  method Compress(h: array<bv64>, b: Block, t0: nat, t1: nat, last: bool)
    requires h.Length == 8 && t0 < U64 && t1 < U64
    modifies h
    ensures h[..] == F(old(h[..]), b, t0 + U64 * t1, last)
  {
    RowsAreSchedules();
    CounterWords(t0, t1);
    var rows := TwelveRows();
    CompressRows(MACHINE, rows, h, b, Word(t0), Word(t1), last);
  }

  /** The tool's `compress`, with its 128-bit counter, is F as well. */
  method CompressTool(h: array<bv64>, b: Block, t: nat, last: bool)
    requires h.Length == 8
    modifies h
    ensures h[..] == F(old(h[..]), b, t, last)
  {
    var table: seq<Schedule> := seq(10, i requires 0 <= i < 10 => ScheduleOf(i));
    assert ModuloRows(table) == RfcSchedules();
    CompressModulo(MACHINE, table, h, b, LowWord(t), HighWord(t), last);
  }

  /** F sees its byte count only modulo 2^128. */
  lemma FPeriodic(h: Words8, b: Block, t: nat, last: bool)
    ensures F(h, b, t % U128, last) == F(h, b, t, last)
  {
    CounterPeriodic(t);
  }

  lemma CounterPeriodic(t: nat)
    ensures LowWord(t % U128) == LowWord(t) && HighWord(t % U128) == HighWord(t)
  {
    WordsPeriodic(t);
    SameWords(t % U128, t);
  }

  lemma SameWords(s: nat, t: nat)
    requires s % U64 == t % U64 && s / U64 % U64 == t / U64 % U64
    ensures LowWord(s) == LowWord(t) && HighWord(s) == HighWord(t)
  {
  }

  lemma WordsPeriodic(t: nat)
    ensures t % U128 % U64 == t % U64 && t % U128 / U64 % U64 == t / U64 % U64
  {
    var y, lo := t / U64 % U64, t % U64;
    Bits.SplitDivMod(t, U64, U64, U128);
    Bits.DivUnique(t % U128, U64, y, lo);
    Bits.DivUnique(y, U64, 0, y);
  }
}
