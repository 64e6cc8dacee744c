/**
 The compression function of BLAKE2b taken apart into G on four words, so that a single block can be followed round by
 round; in particular the blocks that hold the message "abc" and the bytes 0 to 127.
 */
module Blake2Trace {
  import opened Blake2Spec
  import opened Blake2Compress

  // ---- Rounds on columns and diagonals ----

  /** Four words of the working vector: what one G works on. */
  datatype Quad = Quad(a: bv64, b: bv64, c: bv64, d: bv64)

  /** The working vector, column by column or diagonal by diagonal. */
  datatype State = State(q0: Quad, q1: Quad, q2: Quad, q3: Quad)

  /** The working vector has these columns. */
  predicate Shows(v: Words16, t: State) {
    && v[0] == t.q0.a && v[1] == t.q1.a && v[2] == t.q2.a && v[3] == t.q3.a
    && v[4] == t.q0.b && v[5] == t.q1.b && v[6] == t.q2.b && v[7] == t.q3.b
    && v[8] == t.q0.c && v[9] == t.q1.c && v[10] == t.q2.c && v[11] == t.q3.c
    && v[12] == t.q0.d && v[13] == t.q1.d && v[14] == t.q2.d && v[15] == t.q3.d
  }

  /** From columns to diagonals. */
  function Slant(t: State): State {
    State(Quad(t.q0.a, t.q1.b, t.q2.c, t.q3.d), Quad(t.q1.a, t.q2.b, t.q3.c, t.q0.d),
          Quad(t.q2.a, t.q3.b, t.q0.c, t.q1.d), Quad(t.q3.a, t.q0.b, t.q1.c, t.q2.d))
  }

  /** And back. */
  function Straighten(t: State): State {
    State(Quad(t.q0.a, t.q3.b, t.q2.c, t.q1.d), Quad(t.q1.a, t.q0.b, t.q3.c, t.q2.d),
          Quad(t.q2.a, t.q1.b, t.q0.c, t.q3.d), Quad(t.q3.a, t.q2.b, t.q1.c, t.q0.d))
  }

  function HalfG(o: WordOps, q: Quad, x: bv64, r1: nat, r2: nat): Quad {
    var a := o.add(o.add(q.a, q.b), x);
    var d := o.rotr(o.xor(q.d, a), r1);
    var c := o.add(q.c, d);
    Quad(a, o.rotr(o.xor(q.b, c), r2), c, d)
  }

  function G(o: WordOps, q: Quad, x: bv64, y: bv64): Quad {
    HalfG(o, HalfG(o, q, x, 32, 24), y, 16, 63)
  }

  function Pick(v: Words16, a: nat, b: nat, c: nat, d: nat): Quad
    requires Index(a) && Index(b) && Index(c) && Index(d)
  {
    Quad(v[a], v[b], v[c], v[d])
  }

  predicate Distinct(a: nat, b: nat, c: nat, d: nat) {
    Index(a) && Index(b) && Index(c) && Index(d) && a != b && a != c && a != d && b != c && b != d && c != d
  }

  /** From v to w the four named words have become q, and the others are the same. */
  predicate Placed(v: Words16, w: Words16, a: nat, b: nat, c: nat, d: nat, q: Quad)
    requires Index(a) && Index(b) && Index(c) && Index(d)
  {
    Pick(w, a, b, c, d) == q && forall i :: 0 <= i < 16 && i != a && i != b && i != c && i != d ==> w[i] == v[i]
  }

  lemma HalfMixIsHalfG(o: WordOps, v: Words16, a: nat, b: nat, c: nat, d: nat, x: bv64, r1: nat, r2: nat)
    requires Distinct(a, b, c, d)
    ensures Placed(v, HalfMix(o, v, a, b, c, d, x, r1, r2), a, b, c, d, HalfG(o, Pick(v, a, b, c, d), x, r1, r2))
  {
  }

  /** G on the working vector is G on the four words it names. */
  lemma MixIsG(o: WordOps, v: Words16, a: nat, b: nat, c: nat, d: nat, x: bv64, y: bv64, q: Quad)
    requires Distinct(a, b, c, d) && G(o, Pick(v, a, b, c, d), x, y) == q
    ensures Placed(v, Mix(o, v, a, b, c, d, x, y), a, b, c, d, q)
  {
    HalfMixIsHalfG(o, v, a, b, c, d, x, 32, 24);
    HalfMixIsHalfG(o, HalfMix(o, v, a, b, c, d, x, 32, 24), a, b, c, d, y, 16, 63);
  }

  /** G on one column. */
  lemma MixColumn0(o: WordOps, v: Words16, t: State, x: bv64, y: bv64, q: Quad)
    requires Shows(v, t) && G(o, t.q0, x, y) == q
    ensures Shows(Mix(o, v, 0, 4, 8, 12, x, y), t.(q0 := q))
  {
    MixIsG(o, v, 0, 4, 8, 12, x, y, q);
  }

  lemma MixColumn1(o: WordOps, v: Words16, t: State, x: bv64, y: bv64, q: Quad)
    requires Shows(v, t) && G(o, t.q1, x, y) == q
    ensures Shows(Mix(o, v, 1, 5, 9, 13, x, y), t.(q1 := q))
  {
    MixIsG(o, v, 1, 5, 9, 13, x, y, q);
  }

  lemma MixColumn2(o: WordOps, v: Words16, t: State, x: bv64, y: bv64, q: Quad)
    requires Shows(v, t) && G(o, t.q2, x, y) == q
    ensures Shows(Mix(o, v, 2, 6, 10, 14, x, y), t.(q2 := q))
  {
    MixIsG(o, v, 2, 6, 10, 14, x, y, q);
  }

  lemma MixColumn3(o: WordOps, v: Words16, t: State, x: bv64, y: bv64, q: Quad)
    requires Shows(v, t) && G(o, t.q3, x, y) == q
    ensures Shows(Mix(o, v, 3, 7, 11, 15, x, y), t.(q3 := q))
  {
    MixIsG(o, v, 3, 7, 11, 15, x, y, q);
  }

  /** The working vector has these diagonals. */
  predicate ShowsSlanted(v: Words16, t: State) {
    && v[0] == t.q0.a && v[1] == t.q1.a && v[2] == t.q2.a && v[3] == t.q3.a
    && v[4] == t.q3.b && v[5] == t.q0.b && v[6] == t.q1.b && v[7] == t.q2.b
    && v[8] == t.q2.c && v[9] == t.q3.c && v[10] == t.q0.c && v[11] == t.q1.c
    && v[12] == t.q1.d && v[13] == t.q2.d && v[14] == t.q3.d && v[15] == t.q0.d
  }

  /** G on one diagonal. */
  lemma MixDiagonal0(o: WordOps, v: Words16, t: State, x: bv64, y: bv64, q: Quad)
    requires ShowsSlanted(v, t) && G(o, t.q0, x, y) == q
    ensures ShowsSlanted(Mix(o, v, 0, 5, 10, 15, x, y), t.(q0 := q))
  {
    MixIsG(o, v, 0, 5, 10, 15, x, y, q);
  }

  lemma MixDiagonal1(o: WordOps, v: Words16, t: State, x: bv64, y: bv64, q: Quad)
    requires ShowsSlanted(v, t) && G(o, t.q1, x, y) == q
    ensures ShowsSlanted(Mix(o, v, 1, 6, 11, 12, x, y), t.(q1 := q))
  {
    MixIsG(o, v, 1, 6, 11, 12, x, y, q);
  }

  lemma MixDiagonal2(o: WordOps, v: Words16, t: State, x: bv64, y: bv64, q: Quad)
    requires ShowsSlanted(v, t) && G(o, t.q2, x, y) == q
    ensures ShowsSlanted(Mix(o, v, 2, 7, 8, 13, x, y), t.(q2 := q))
  {
    MixIsG(o, v, 2, 7, 8, 13, x, y, q);
  }

  lemma MixDiagonal3(o: WordOps, v: Words16, t: State, x: bv64, y: bv64, q: Quad)
    requires ShowsSlanted(v, t) && G(o, t.q3, x, y) == q
    ensures ShowsSlanted(Mix(o, v, 3, 4, 9, 14, x, y), t.(q3 := q))
  {
    MixIsG(o, v, 3, 4, 9, 14, x, y, q);
  }

  /** The eight message words of half a round. */
  datatype Feed = Feed(x0: bv64, y0: bv64, x1: bv64, y1: bv64, x2: bv64, y2: bv64, x3: bv64, y3: bv64)

  function FeedOf(m: Words16, s: Schedule, j: nat): Feed
    requires j <= 8
  {
    Feed(m[s[j]], m[s[j + 1]], m[s[j + 2]], m[s[j + 3]], m[s[j + 4]], m[s[j + 5]], m[s[j + 6]], m[s[j + 7]])
  }

  /** Half a round: four times G. */
  predicate Mixed(o: WordOps, f: Feed, p: State, q: State) {
    && G(o, p.q0, f.x0, f.y0) == q.q0 && G(o, p.q1, f.x1, f.y1) == q.q1
    && G(o, p.q2, f.x2, f.y2) == q.q2 && G(o, p.q3, f.x3, f.y3) == q.q3
  }

  lemma ColumnsMixed(o: WordOps, v: Words16, m: Words16, s: Schedule, p: State, c: State)
    requires Shows(v, p) && Mixed(o, FeedOf(m, s, 0), p, c)
    ensures Shows(Columns(o, v, m, s), c)
  {
    var p1, p2, p3 := State(c.q0, p.q1, p.q2, p.q3), State(c.q0, c.q1, p.q2, p.q3), State(c.q0, c.q1, c.q2, p.q3);
    var v1 := Mix(o, v, 0, 4, 8, 12, m[s[0]], m[s[1]]);
    var v2 := Mix(o, v1, 1, 5, 9, 13, m[s[2]], m[s[3]]);
    var v3 := Mix(o, v2, 2, 6, 10, 14, m[s[4]], m[s[5]]);
    MixColumn0(o, v, p, m[s[0]], m[s[1]], c.q0);
    MixColumn1(o, v1, p1, m[s[2]], m[s[3]], c.q1);
    MixColumn2(o, v2, p2, m[s[4]], m[s[5]], c.q2);
    MixColumn3(o, v3, p3, m[s[6]], m[s[7]], c.q3);
  }

  lemma DiagonalsMixed(o: WordOps, v: Words16, m: Words16, s: Schedule, p: State, d: State)
    requires ShowsSlanted(v, p) && Mixed(o, FeedOf(m, s, 8), p, d)
    ensures ShowsSlanted(Diagonals(o, v, m, s), d)
  {
    var p1, p2, p3 := State(d.q0, p.q1, p.q2, p.q3), State(d.q0, d.q1, p.q2, p.q3), State(d.q0, d.q1, d.q2, p.q3);
    var v1 := Mix(o, v, 0, 5, 10, 15, m[s[8]], m[s[9]]);
    var v2 := Mix(o, v1, 1, 6, 11, 12, m[s[10]], m[s[11]]);
    var v3 := Mix(o, v2, 2, 7, 8, 13, m[s[12]], m[s[13]]);
    MixDiagonal0(o, v, p, m[s[8]], m[s[9]], d.q0);
    MixDiagonal1(o, v1, p1, m[s[10]], m[s[11]], d.q1);
    MixDiagonal2(o, v2, p2, m[s[12]], m[s[13]], d.q2);
    MixDiagonal3(o, v3, p3, m[s[14]], m[s[15]], d.q3);
  }

  /** One round: columns, then diagonals. */
  lemma RoundMixed(o: WordOps, v: Words16, m: Words16, s: Schedule, p: State, c: State, d: State)
    requires Shows(v, p) && Mixed(o, FeedOf(m, s, 0), p, c) && Mixed(o, FeedOf(m, s, 8), Slant(c), d)
    ensures Shows(Round(o, v, m, s), Straighten(d))
  {
    ColumnsMixed(o, v, m, s, p, c);
    DiagonalsMixed(o, Columns(o, v, m, s), m, s, Slant(c), d);
  }

  // ---- Twelve rounds ----

  /** One step per schedule, in order. */
  function Fold(step: (Words16, Schedule) -> Words16, v: Words16, ss: seq<Schedule>): Words16 {
    if ss == [] then v else step(Fold(step, v, ss[..|ss| - 1]), ss[|ss| - 1])
  }

  function RoundFor(o: WordOps, m: Words16): (Words16, Schedule) -> Words16 {
    (v, s) => Round(o, v, m, s)
  }

  lemma RoundForIs(o: WordOps, m: Words16, v: Words16, s: Schedule)
    ensures RoundFor(o, m)(v, s) == Round(o, v, m, s)
  {
  }

  lemma {:induction false} RoundsFold(o: WordOps, v: Words16, m: Words16, ss: seq<Schedule>)
    ensures Rounds(o, v, m, ss) == Fold(RoundFor(o, m), v, ss)
  {
    if ss != [] {
      RoundsFold(o, v, m, ss[..|ss| - 1]);
      RoundForIs(o, m, Rounds(o, v, m, ss[..|ss| - 1]), ss[|ss| - 1]);
    }
  }

  ghost predicate StepLeads(step: (Words16, Schedule) -> Words16, s: Schedule, p: State, q: State) {
    forall v: Words16 :: Shows(v, p) ==> Shows(step(v, s), q)
  }

  /** The states that every vector in state p has after a step. */
  ghost function Successors(step: (Words16, Schedule) -> Words16, s: Schedule, p: State): iset<State> {
    iset q | StepLeads(step, s, p, q)
  }

  /** Every step leads from one state of the trace to the next. */
  ghost predicate Leads(step: (Words16, Schedule) -> Words16, ss: seq<Schedule>, ts: seq<State>) {
    |ts| == |ss| + 1 && forall i :: 0 <= i < |ss| ==> ts[i + 1] in Successors(step, ss[i], ts[i])
  }

  lemma {:induction false} FoldLeads(step: (Words16, Schedule) -> Words16, v: Words16, ss: seq<Schedule>,
                                     ts: seq<State>)
    requires Leads(step, ss, ts) && Shows(v, ts[0])
    ensures Shows(Fold(step, v, ss), ts[|ss|])
  {
    if ss != [] {
      var n := |ss| - 1;
      FoldLeads(step, v, ss[..n], ts[..n + 1]);
      assert ts[n + 1] in Successors(step, ss[n], ts[n]);
    }
  }

  /** The round with schedule s leads from p by way of c and d to q. */
  lemma RoundLeads(o: WordOps, m: Words16, s: Schedule, f: Feed, g: Feed, p: State, c: State, d: State)
    requires FeedOf(m, s, 0) == f && FeedOf(m, s, 8) == g && Mixed(o, f, p, c) && Mixed(o, g, Slant(c), d)
    ensures Straighten(d) in Successors(RoundFor(o, m), s, p)
  {
    forall v: Words16 | Shows(v, p) ensures Shows(RoundFor(o, m)(v, s), Straighten(d)) {
      RoundMixed(o, v, m, s, p, c, d);
    }
  }

  // ---- Messages of one block ----

  const ABC: seq<bv8> := [0x61, 0x62, 0x63]
  const WORD: bv64 := 0x0063_6261

  /** The message words of "abc". */
  predicate IsAbc(m: Words16) {
    m[0] == WORD && forall i :: 1 <= i < 16 ==> m[i] == 0
  }

  lemma AbcMessage()
    ensures IsAbc(Message(Pad(ABC)))
  {
    var b := Pad(ABC);
    assert b[0] == 0x61 && b[1] == 0x62 && b[2] == 0x63;
    FirstWord(b);
    forall i | 1 <= i < 16 ensures Message(b)[i] == 0 { ZeroWord(b, i); }
  }

  lemma FirstWord(b: Block)
    requires b[0] == 0x61 && b[1] == 0x62 && b[2] == 0x63 && forall k :: 3 <= k < 8 ==> b[k] == 0
    ensures WordAt(b, 0) == WORD
  {
  }

  lemma ZeroWord(b: Block, i: nat)
    requires i < 16 && forall k :: 8 * i <= k < 8 * i + 8 ==> b[k] == 0
    ensures WordAt(b, i) == 0
  {
  }

  /** The bytes 0 to 127. */
  function FullBlock(): Block {
    seq(128, i requires 0 <= i < 128 => i as bv8)
  }

  predicate Counts(b: Block) {
    forall k :: 0 <= k < 128 ==> b[k] == k as bv8
  }

  /** Its message words: every word and every place differs. */
  predicate IsFull(m: Words16) {
    && m[0] == 0x0706_0504_0302_0100 && m[1] == 0x0f0e_0d0c_0b0a_0908
    && m[2] == 0x1716_1514_1312_1110 && m[3] == 0x1f1e_1d1c_1b1a_1918
    && m[4] == 0x2726_2524_2322_2120 && m[5] == 0x2f2e_2d2c_2b2a_2928
    && m[6] == 0x3736_3534_3332_3130 && m[7] == 0x3f3e_3d3c_3b3a_3938
    && m[8] == 0x4746_4544_4342_4140 && m[9] == 0x4f4e_4d4c_4b4a_4948
    && m[10] == 0x5756_5554_5352_5150 && m[11] == 0x5f5e_5d5c_5b5a_5958
    && m[12] == 0x6766_6564_6362_6160 && m[13] == 0x6f6e_6d6c_6b6a_6968
    && m[14] == 0x7776_7574_7372_7170 && m[15] == 0x7f7e_7d7c_7b7a_7978
  }

  lemma FullWord0(b: Block)
    requires Counts(b)
    ensures WordAt(b, 0) == 0x0706_0504_0302_0100
  {
  }

  lemma FullWord1(b: Block)
    requires Counts(b)
    ensures WordAt(b, 1) == 0x0f0e_0d0c_0b0a_0908
  {
  }

  lemma FullWord2(b: Block)
    requires Counts(b)
    ensures WordAt(b, 2) == 0x1716_1514_1312_1110
  {
  }

  lemma FullWord3(b: Block)
    requires Counts(b)
    ensures WordAt(b, 3) == 0x1f1e_1d1c_1b1a_1918
  {
  }

  lemma FullWord4(b: Block)
    requires Counts(b)
    ensures WordAt(b, 4) == 0x2726_2524_2322_2120
  {
  }

  lemma FullWord5(b: Block)
    requires Counts(b)
    ensures WordAt(b, 5) == 0x2f2e_2d2c_2b2a_2928
  {
  }

  lemma FullWord6(b: Block)
    requires Counts(b)
    ensures WordAt(b, 6) == 0x3736_3534_3332_3130
  {
  }

  lemma FullWord7(b: Block)
    requires Counts(b)
    ensures WordAt(b, 7) == 0x3f3e_3d3c_3b3a_3938
  {
  }

  lemma FullWord8(b: Block)
    requires Counts(b)
    ensures WordAt(b, 8) == 0x4746_4544_4342_4140
  {
  }

  lemma FullWord9(b: Block)
    requires Counts(b)
    ensures WordAt(b, 9) == 0x4f4e_4d4c_4b4a_4948
  {
  }

  lemma FullWord10(b: Block)
    requires Counts(b)
    ensures WordAt(b, 10) == 0x5756_5554_5352_5150
  {
  }

  lemma FullWord11(b: Block)
    requires Counts(b)
    ensures WordAt(b, 11) == 0x5f5e_5d5c_5b5a_5958
  {
  }

  lemma FullWord12(b: Block)
    requires Counts(b)
    ensures WordAt(b, 12) == 0x6766_6564_6362_6160
  {
  }

  lemma FullWord13(b: Block)
    requires Counts(b)
    ensures WordAt(b, 13) == 0x6f6e_6d6c_6b6a_6968
  {
  }

  lemma FullWord14(b: Block)
    requires Counts(b)
    ensures WordAt(b, 14) == 0x7776_7574_7372_7170
  {
  }

  lemma FullWord15(b: Block)
    requires Counts(b)
    ensures WordAt(b, 15) == 0x7f7e_7d7c_7b7a_7978
  {
  }

  lemma FullMessage()
    ensures IsFull(Message(Pad(FullBlock())))
  {
    assert Pad(FullBlock()) == FullBlock();
    FullWords(FullBlock());
  }

  lemma FullWords(b: Block)
    requires Counts(b)
    ensures IsFull(Message(b))
  {
    FullWord0(b);
    FullWord1(b);
    FullWord2(b);
    FullWord3(b);
    FullWord4(b);
    FullWord5(b);
    FullWord6(b);
    FullWord7(b);
    FullWord8(b);
    FullWord9(b);
    FullWord10(b);
    FullWord11(b);
    FullWord12(b);
    FullWord13(b);
    FullWord14(b);
    FullWord15(b);
  }

  lemma BytesNext(h: seq<bv64>, k: nat)
    requires k < |h|
    ensures Bytes(h[..k + 1]) == Bytes(h[..k]) + LeBytes(h[k])
  {
    assert h[..k + 1][..k] == h[..k];
  }

  lemma BytesOfEight(h: Words8)
    ensures Bytes(h) == LeBytes(h[0]) + LeBytes(h[1]) + LeBytes(h[2]) + LeBytes(h[3])
                        + LeBytes(h[4]) + LeBytes(h[5]) + LeBytes(h[6]) + LeBytes(h[7])
  {
    BytesOfFour(h);
    BytesNext(h, 4);
    BytesNext(h, 5);
    BytesNext(h, 6);
    BytesNext(h, 7);
    assert h[..8] == h;
  }

  lemma BytesOfFour(h: Words8)
    ensures Bytes(h[..4]) == LeBytes(h[0]) + LeBytes(h[1]) + LeBytes(h[2]) + LeBytes(h[3])
  {
    assert h[..0] == [] && Bytes([]) + LeBytes(h[0]) == LeBytes(h[0]);
    BytesNext(h, 0);
    BytesNext(h, 1);
    BytesNext(h, 2);
    BytesNext(h, 3);
  }

  /** The working vector at the start: the chain value, and the initial vector with three words changed. */
  lemma InitialWords(o: WordOps, h: Words8, t0: bv64, t1: bv64, i: nat)
    requires i < 16
    ensures Initial(o, h, t0, t1, true)[i]
         == if i < 8 then h[i] else if i == 12 then o.xor(IV[4], t0) else if i == 13 then o.xor(IV[5], t1)
            else if i == 14 then o.not(IV[6]) else IV[i - 8]
  {
  }

  /** The chain value at the start, but for its first word. */
  lemma H0Words(nn: nat, i: nat)
    requires nn <= 64 && i < 8
    ensures H0(nn)[i] == if i == 0 then IV[0] ^ (0x0101_0000 ^ (nn as bv64)) else IV[i]
  {
  }

  /** Hashing a message of one block, as the digest of the final chain value; t is its length in bytes. */
  lemma OneBlock(nn: nat, msg: seq<bv8>, t: bv64, v: Words16)
    requires nn <= 64 && |msg| <= 128 && LowWord(|msg|) == t && HighWord(|msg|) == 0
    requires v == Rounds(MACHINE, Initial(MACHINE, H0(nn), t, 0, true), Message(Pad(msg)), RfcSchedules())
    ensures Digest(F, nn, msg) == Bytes(Finish(MACHINE, H0(nn), v))
  {
    assert BlocksBefore(|msg|) == 0 && msg[0..] == msg;
  }

  lemma AbcCounter()
    ensures LowWord(3) == 3 && HighWord(3) == 0
  {
  }

  lemma FullCounter()
    ensures LowWord(128) == 128 && HighWord(128) == 0
  {
  }

  /** The twelve schedules, the first two of them again at the end. */
  lemma RfcTwelve()
    ensures var ss := RfcSchedules();
            && ss[0] == ScheduleOf(0) && ss[1] == ScheduleOf(1) && ss[2] == ScheduleOf(2)
            && ss[3] == ScheduleOf(3) && ss[4] == ScheduleOf(4) && ss[5] == ScheduleOf(5)
            && ss[6] == ScheduleOf(6) && ss[7] == ScheduleOf(7) && ss[8] == ScheduleOf(8)
            && ss[9] == ScheduleOf(9) && ss[10] == ScheduleOf(0) && ss[11] == ScheduleOf(1)
  {
  }

  lemma LeadsTwelve(step: (Words16, Schedule) -> Words16, ss: seq<Schedule>, ts: seq<State>)
    requires |ss| == 12 && |ts| == 13
    requires ts[1] in Successors(step, ss[0], ts[0]) && ts[2] in Successors(step, ss[1], ts[1])
    requires ts[3] in Successors(step, ss[2], ts[2]) && ts[4] in Successors(step, ss[3], ts[3])
    requires ts[5] in Successors(step, ss[4], ts[4]) && ts[6] in Successors(step, ss[5], ts[5])
    requires ts[7] in Successors(step, ss[6], ts[6]) && ts[8] in Successors(step, ss[7], ts[7])
    requires ts[9] in Successors(step, ss[8], ts[8]) && ts[10] in Successors(step, ss[9], ts[9])
    requires ts[11] in Successors(step, ss[10], ts[10]) && ts[12] in Successors(step, ss[11], ts[11])
    ensures Leads(step, ss, ts)
  {
  }

  lemma FeedAt0(m: Words16)
    ensures FeedOf(m, ScheduleOf(0), 0) == Feed(m[0], m[1], m[2], m[3], m[4], m[5], m[6], m[7])
    ensures FeedOf(m, ScheduleOf(0), 8) == Feed(m[8], m[9], m[10], m[11], m[12], m[13], m[14], m[15])
  {
  }

  lemma FeedAt1(m: Words16)
    ensures FeedOf(m, ScheduleOf(1), 0) == Feed(m[14], m[10], m[4], m[8], m[9], m[15], m[13], m[6])
    ensures FeedOf(m, ScheduleOf(1), 8) == Feed(m[1], m[12], m[0], m[2], m[11], m[7], m[5], m[3])
  {
  }

  lemma FeedAt2(m: Words16)
    ensures FeedOf(m, ScheduleOf(2), 0) == Feed(m[11], m[8], m[12], m[0], m[5], m[2], m[15], m[13])
    ensures FeedOf(m, ScheduleOf(2), 8) == Feed(m[10], m[14], m[3], m[6], m[7], m[1], m[9], m[4])
  {
  }

  lemma FeedAt3(m: Words16)
    ensures FeedOf(m, ScheduleOf(3), 0) == Feed(m[7], m[9], m[3], m[1], m[13], m[12], m[11], m[14])
    ensures FeedOf(m, ScheduleOf(3), 8) == Feed(m[2], m[6], m[5], m[10], m[4], m[0], m[15], m[8])
  {
  }

  lemma FeedAt4(m: Words16)
    ensures FeedOf(m, ScheduleOf(4), 0) == Feed(m[9], m[0], m[5], m[7], m[2], m[4], m[10], m[15])
    ensures FeedOf(m, ScheduleOf(4), 8) == Feed(m[14], m[1], m[11], m[12], m[6], m[8], m[3], m[13])
  {
  }

  lemma FeedAt5(m: Words16)
    ensures FeedOf(m, ScheduleOf(5), 0) == Feed(m[2], m[12], m[6], m[10], m[0], m[11], m[8], m[3])
    ensures FeedOf(m, ScheduleOf(5), 8) == Feed(m[4], m[13], m[7], m[5], m[15], m[14], m[1], m[9])
  {
  }

  lemma FeedAt6(m: Words16)
    ensures FeedOf(m, ScheduleOf(6), 0) == Feed(m[12], m[5], m[1], m[15], m[14], m[13], m[4], m[10])
    ensures FeedOf(m, ScheduleOf(6), 8) == Feed(m[0], m[7], m[6], m[3], m[9], m[2], m[8], m[11])
  {
  }

  lemma FeedAt7(m: Words16)
    ensures FeedOf(m, ScheduleOf(7), 0) == Feed(m[13], m[11], m[7], m[14], m[12], m[1], m[3], m[9])
    ensures FeedOf(m, ScheduleOf(7), 8) == Feed(m[5], m[0], m[15], m[4], m[8], m[6], m[2], m[10])
  {
  }

  lemma FeedAt8(m: Words16)
    ensures FeedOf(m, ScheduleOf(8), 0) == Feed(m[6], m[15], m[14], m[9], m[11], m[3], m[0], m[8])
    ensures FeedOf(m, ScheduleOf(8), 8) == Feed(m[12], m[2], m[13], m[7], m[1], m[4], m[10], m[5])
  {
  }

  lemma FeedAt9(m: Words16)
    ensures FeedOf(m, ScheduleOf(9), 0) == Feed(m[10], m[2], m[8], m[4], m[7], m[6], m[1], m[5])
    ensures FeedOf(m, ScheduleOf(9), 8) == Feed(m[15], m[11], m[9], m[14], m[3], m[12], m[13], m[0])
  {
  }
}
