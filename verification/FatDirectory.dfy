/** Directory lookup of `ram_fat32.rs`: short names, and long names reassembled across entries and clusters. */
module FatDirectory {
  import opened Options
  import opened Fat32
  import opened ShortNames

  type Entry = e: seq<Byte> | |e| == 32 witness seq(32, _ => 0)

  const ATTR_LFN: nat := 0x0F
  const MAX_SEGMENTS: nat := 20
  const MAX_CHARS: nat := 260

  /** Where an entry keeps the 13 UCS-2 characters of its segment. */
  const POSITIONS: seq<nat> := [0x01, 0x03, 0x05, 0x07, 0x09, 0x0E, 0x10, 0x12, 0x14, 0x16, 0x18, 0x1C, 0x1E]

  function CodeOf(e: Entry, i: nat): nat
    requires i < 13
  {
    U16At(e, POSITIONS[i])
  }

  // ---- The long-name accumulator ----

  datatype Lfn = Lfn(chars: seq<Byte>, count: nat, valid: bool, haveLast: bool)

  predicate LfnOk(a: Lfn) {
    |a.chars| == MAX_CHARS && a.count <= MAX_CHARS
  }

  function Reset(a: Lfn): Lfn {
    a.(count := 0, valid := false, haveLast := false)
  }

  function CodesOf(e: Entry): (r: seq<nat>)
    ensures |r| == 13
  {
    seq(13, i requires 0 <= i < 13 => CodeOf(e, i))
  }

  /** The characters of a segment, stored from slot `dest` on. */
  function PutChars(a: Lfn, codes: seq<nat>, dest: nat): (r: Lfn)
    requires LfnOk(a)
    ensures LfnOk(r)
    decreases |codes|
  {
    if codes == [] then a
    else if dest >= MAX_CHARS then a.(valid := false)
    else if codes[0] == 0 || codes[0] == 0xFFFF then
      PutChars(a.(count := Min(dest, a.count), chars := a.chars[dest := 0]), codes[1..], dest + 1)
    else if codes[0] > 0x7F then a.(valid := false)
    else PutChars(a.(chars := a.chars[dest := codes[0]]), codes[1..], dest + 1)
  }

  /** `seq_byte & 0x1F` and `seq_byte & 0x40`. */
  function SegmentNumber(b: Byte): nat { b % 32 }
  predicate IsLast(b: Byte) { b / 64 % 2 == 1 }

  function Absorb(a: Lfn, e: Entry): (r: Lfn)
    requires LfnOk(a)
    ensures LfnOk(r)
  {
    var n := SegmentNumber(e[0]);
    if n == 0 || n > MAX_SEGMENTS then Reset(a)
    else if IsLast(e[0]) then PutChars(Lfn(a.chars, 13 * n, true, true), CodesOf(e), 13 * (n - 1))
    else if !a.haveLast then a
    else PutChars(a, CodesOf(e), 13 * (n - 1))
  }

  predicate Matches(a: Lfn, search: seq<Byte>)
    requires LfnOk(a)
  {
    a.valid && a.count != 0 && EqIgnoreCase(a.chars[..a.count], search)
  }

  // ---- A VFAT-encoded long name is recognised, whatever the accumulator held before ----

  /** Character k of the padded name: the name, a terminator, then 0xFFFF. */
  function PaddedCode(name: seq<Byte>, k: nat): nat {
    if k < |name| then name[k] else if k == |name| then 0 else 0xFFFF
  }

  predicate AsciiName(name: seq<Byte>) {
    1 <= |name| <= 255 && forall i :: 0 <= i < |name| ==> 1 <= name[i] <= 0x7F
  }

  function Segments(name: seq<Byte>): nat {
    (|name| + 12) / 13
  }

  /** The characters are those of the padded name from slot `dest` on. */
  predicate Carries(codes: seq<nat>, name: seq<Byte>, dest: nat) {
    forall j :: 0 <= j < |codes| ==> codes[j] == PaddedCode(name, dest + j)
  }

  lemma CarriesTail(codes: seq<nat>, name: seq<Byte>, dest: nat)
    requires codes != [] && Carries(codes, name, dest)
    ensures codes[0] == PaddedCode(name, dest) && Carries(codes[1..], name, dest + 1)
  {
    forall j | 0 <= j < |codes[1..]| ensures codes[1..][j] == PaddedCode(name, dest + 1 + j) {
      assert codes[j + 1] == PaddedCode(name, dest + (j + 1));
    }
  }

  /** n characters of the padded name from character k on, two bytes each, low byte first. */
  function Ucs2(name: seq<Byte>, k: nat, n: nat): (r: seq<nat>)
    ensures |r| == 2 * n
  {
    seq(2 * n, j requires 0 <= j =>
      if j % 2 == 0 then PaddedCode(name, k + j / 2) % 256 else PaddedCode(name, k + j / 2) / 256)
  }

  /** Entry e carries segment s of n, with five, six and two characters in its name fields; the rest does not matter. */
  predicate Encodes(e: Entry, name: seq<Byte>, s: nat, n: nat) {
    && 1 <= s <= n <= 20 && e[0] == (if s == n then s + 0x40 else s) && e[11] == 0x0F
    && e[1..11] == Ucs2(name, 13 * (s - 1), 5) && e[14..26] == Ucs2(name, 13 * (s - 1) + 5, 6)
    && e[28..32] == Ucs2(name, 13 * (s - 1) + 11, 2)
  }

  /** One name field: its characters are where the positions say. */
  lemma FieldCode(e: Entry, from: nat, field: seq<nat>, name: seq<Byte>, k: nat, n: nat, j: nat)
    requires from + 2 * n <= 32 && j < n && field == e[from..from + 2 * n] == Ucs2(name, k, n)
    ensures U16At(e, from + 2 * j) == PaddedCode(name, k + j)
  {
    assert e[from + 2 * j] == field[2 * j] && e[from + 2 * j + 1] == field[2 * j + 1];
  }

  lemma EncodedCode(e: Entry, name: seq<Byte>, s: nat, n: nat, j: nat)
    requires Encodes(e, name, s, n) && j < 13
    ensures CodeOf(e, j) == PaddedCode(name, 13 * (s - 1) + j)
  {
    var k := 13 * (s - 1);
    if j < 5 {
      FieldCode(e, 1, e[1..11], name, k, 5, j);
    } else if j < 11 {
      FieldCode(e, 14, e[14..26], name, k + 5, 6, j - 5);
    } else {
      FieldCode(e, 28, e[28..32], name, k + 11, 2, j - 11);
    }
  }

  lemma EncodedCarries(e: Entry, name: seq<Byte>, s: nat, n: nat)
    requires Encodes(e, name, s, n)
    ensures Carries(CodesOf(e), name, 13 * (s - 1))
  {
    forall j | 0 <= j < 13 ensures CodesOf(e)[j] == PaddedCode(name, 13 * (s - 1) + j) {
      EncodedCode(e, name, s, n, j);
    }
  }

  /** The name's characters from slot `from` on are in place. */
  predicate Placed(a: Lfn, name: seq<Byte>, from: nat) {
    LfnOk(a) && a.valid && a.haveLast && |name| <= MAX_CHARS
    && forall k :: from <= k < |name| ==> a.chars[k] == name[k]
  }

  /** What ends up in slot k: the name's byte, or zero behind its end. */
  function SlotByte(name: seq<Byte>, k: nat): Byte {
    if k < |name| then name[k] else 0
  }

  /** The slots from .. to filled from the name. */
  function Filled(chars: seq<Byte>, name: seq<Byte>, from: nat, to: nat): (r: seq<Byte>)
    requires from <= to <= |chars|
    ensures |r| == |chars|
  {
    chars[..from] + seq<Byte>(to - from, j requires 0 <= j => SlotByte(name, from + j)) + chars[to..]
  }

  lemma FilledReads(chars: seq<Byte>, name: seq<Byte>, from: nat, to: nat, k: nat)
    requires from <= to <= |chars| && k < |chars|
    ensures Filled(chars, name, from, to)[k] == if from <= k < to then SlotByte(name, k) else chars[k]
  {
  }

  lemma FilledStep(chars: seq<Byte>, chars': seq<Byte>, name: seq<Byte>, from: nat, to: nat)
    requires from < to <= |chars| && chars' == chars[from := SlotByte(name, from)]
    ensures Filled(chars', name, from + 1, to) == Filled(chars, name, from, to)
  {
    var x, y := Filled(chars', name, from + 1, to), Filled(chars, name, from, to);
    forall k | 0 <= k < |chars| ensures x[k] == y[k] {
      FilledReads(chars', name, from + 1, to, k);
      FilledReads(chars, name, from, to, k);
    }
  }

  lemma FilledNothing(chars: seq<Byte>, name: seq<Byte>, to: nat)
    requires to <= |chars|
    ensures Filled(chars, name, to, to) == chars
  {
  }

  /** Storing a segment of real characters: all its slots get the name's characters, nothing else changes. */
  lemma {:induction false} PutInner(a: Lfn, codes: seq<nat>, name: seq<Byte>, dest: nat, to: nat)
    requires LfnOk(a) && AsciiName(name) && to == dest + |codes| <= |name| && Carries(codes, name, dest)
    ensures PutChars(a, codes, dest) == a.(chars := Filled(a.chars, name, dest, to))
    decreases |codes|
  {
    if codes == [] {
      FilledNothing(a.chars, name, to);
    } else {
      var b := a.(chars := a.chars[dest := name[dest]]);
      CarriesTail(codes, name, dest);
      PutInner(b, codes[1..], name, dest + 1, to);
      FilledStep(a.chars, b.chars, name, dest, to);
    }
  }

  /** The accumulator once the name is stored up to slot `to`, with its length. */
  function Completed(a: Lfn, name: seq<Byte>, from: nat, to: nat): Lfn
    requires from <= to <= |a.chars|
  {
    a.(count := |name|, chars := Filled(a.chars, name, from, to))
  }

  lemma CompletedStep(a: Lfn, b: Lfn, name: seq<Byte>, from: nat, to: nat)
    requires from < to <= |a.chars| && b == a.(count := b.count, chars := a.chars[from := SlotByte(name, from)])
    ensures Completed(b, name, from + 1, to) == Completed(a, name, from, to)
  {
    FilledStep(a.chars, b.chars, name, from, to);
  }

  /** Storing the last segment: the terminator sets the length, the padding leaves it. */
  lemma {:induction false} PutLast(a: Lfn, codes: seq<nat>, name: seq<Byte>, dest: nat, to: nat)
    requires LfnOk(a) && AsciiName(name) && |name| <= to == dest + |codes| <= MAX_CHARS && Carries(codes, name, dest)
    requires a.count == if dest <= |name| then to else |name|
    ensures PutChars(a, codes, dest) == Completed(a, name, dest, to)
    decreases |codes|
  {
    if codes == [] {
      FilledNothing(a.chars, name, to);
    } else {
      var b := a.(count := if dest < |name| then a.count else Min(dest, a.count),
                  chars := a.chars[dest := SlotByte(name, dest)]);
      CarriesTail(codes, name, dest);
      PutLast(b, codes[1..], name, dest + 1, to);
      PutSlot(a, b, codes, name, dest);
      CompletedStep(a, b, name, dest, to);
    }
  }

  /** One slot of the last segment. */
  lemma PutSlot(a: Lfn, b: Lfn, codes: seq<nat>, name: seq<Byte>, dest: nat)
    requires LfnOk(a) && AsciiName(name) && codes != [] && codes[0] == PaddedCode(name, dest) && dest < MAX_CHARS
    requires b == a.(count := if dest < |name| then a.count else Min(dest, a.count),
                     chars := a.chars[dest := SlotByte(name, dest)])
    ensures PutChars(a, codes, dest) == PutChars(b, codes[1..], dest + 1)
  {
  }

  function AbsorbAll(a: Lfn, es: seq<Entry>): (r: Lfn)
    requires LfnOk(a)
    ensures LfnOk(r)
  {
    if es == [] then a else Absorb(AbsorbAll(a, es[..|es| - 1]), es[|es| - 1])
  }

  lemma AbsorbFirst(a: Lfn, e: Entry, name: seq<Byte>)
    requires LfnOk(a) && AsciiName(name) && Encodes(e, name, Segments(name), Segments(name))
    ensures var r := Absorb(a, e); Placed(r, name, 13 * (Segments(name) - 1)) && r.count == |name|
  {
    var n := Segments(name);
    SequenceByte(e[0], n, true);
    EncodedCarries(e, name, n, n);
    PutLast(Lfn(a.chars, 13 * n, true, true), CodesOf(e), name, 13 * (n - 1), 13 * n);
    FilledPlaced(a.chars, name, 13 * (n - 1), 13 * n);
  }

  lemma AbsorbNext(a: Lfn, e: Entry, name: seq<Byte>, s: nat)
    requires AsciiName(name) && 1 <= s < Segments(name) && Encodes(e, name, s, Segments(name))
    requires Placed(a, name, 13 * s) && a.count == |name|
    ensures var r := Absorb(a, e); Placed(r, name, 13 * (s - 1)) && r.count == |name|
  {
    SequenceByte(e[0], s, false);
    EncodedCarries(e, name, s, Segments(name));
    assert 13 * s <= |name|;
    PutInner(a, CodesOf(e), name, 13 * (s - 1), 13 * s);
    FilledPlaced(a.chars, name, 13 * (s - 1), 13 * s);
  }

  lemma SequenceByte(b: Byte, s: nat, last: bool)
    requires 1 <= s <= MAX_SEGMENTS && b == if last then s + 0x40 else s
    ensures SegmentNumber(b) == s && (IsLast(b) <==> last)
  {
  }

  /** Filling up to where the name already stands puts it in place from the start of the filling. */
  lemma FilledPlaced(chars: seq<Byte>, name: seq<Byte>, from: nat, to: nat)
    requires from <= to <= |chars| && |name| <= |chars| && forall k :: to <= k < |name| ==> chars[k] == name[k]
    ensures forall k :: from <= k < |name| ==> Filled(chars, name, from, to)[k] == name[k]
  {
    forall k | from <= k < |name| ensures Filled(chars, name, from, to)[k] == name[k] {
      FilledReads(chars, name, from, to, k);
    }
  }

  /** The first k entries of an encoded name place its last k segments. */
  lemma {:induction false} Reassembles(a: Lfn, es: seq<Entry>, name: seq<Byte>, k: nat)
    requires LfnOk(a) && AsciiName(name) && |es| == Segments(name) && 1 <= k <= |es|
    requires forall i :: 0 <= i < |es| ==> Encodes(es[i], name, |es| - i, |es|)
    ensures var r := AbsorbAll(a, es[..k]); Placed(r, name, 13 * (|es| - k)) && r.count == |name|
    decreases k
  {
    assert es[..k][..k - 1] == es[..k - 1];
    if k == 1 {
      assert es[..k - 1] == [];
      AbsorbFirst(a, es[0], name);
    } else {
      Reassembles(a, es, name, k - 1);
      AbsorbNext(AbsorbAll(a, es[..k - 1]), es[k - 1], name, |es| - k + 1);
    }
  }

  /**
   For every ASCII name of 1 to 255 characters: the reassembled name matches a search string exactly when they are
   equal ignoring case.
   */
  lemma EncodedNameMatches(a: Lfn, es: seq<Entry>, name: seq<Byte>, search: seq<Byte>)
    requires LfnOk(a) && AsciiName(name) && |es| == Segments(name)
    requires forall i :: 0 <= i < |es| ==> Encodes(es[i], name, |es| - i, |es|)
    ensures Matches(AbsorbAll(a, es), search) <==> EqIgnoreCase(name, search)
  {
    Reassembles(a, es, name, |es|);
    assert es[..|es|] == es;
    var r := AbsorbAll(a, es);
    assert r.chars[..r.count] == name;
  }

  // ---- Names that are not ASCII ----

  /** A character the accumulator cannot keep: beyond ASCII, and not filling. */
  predicate Foreign(code: nat) {
    code > 0x7F && code != 0xFFFF
  }

  lemma {:induction false} PutForeign(a: Lfn, codes: seq<nat>, dest: nat)
    requires LfnOk(a) && (!a.valid || exists j :: 0 <= j < |codes| && Foreign(codes[j]))
    ensures !PutChars(a, codes, dest).valid
    decreases |codes|
  {
    if codes != [] && dest < MAX_CHARS && !Foreign(codes[0]) {
      var b := if codes[0] == 0 || codes[0] == 0xFFFF then a.(count := Min(dest, a.count), chars := a.chars[dest := 0])
               else a.(chars := a.chars[dest := codes[0]]);
      if a.valid {
        var j :| 0 <= j < |codes| && Foreign(codes[j]);
        assert codes[1..][j - 1] == codes[j];
      }
      PutForeign(b, codes[1..], dest + 1);
    }
  }

  lemma {:induction false} PutKeepsLast(a: Lfn, codes: seq<nat>, dest: nat)
    requires LfnOk(a)
    ensures PutChars(a, codes, dest).haveLast == a.haveLast
    decreases |codes|
  {
    if codes != [] && dest < MAX_CHARS && !Foreign(codes[0]) {
      var b := if codes[0] == 0 || codes[0] == 0xFFFF then a.(count := Min(dest, a.count), chars := a.chars[dest := 0])
               else a.(chars := a.chars[dest := codes[0]]);
      PutKeepsLast(b, codes[1..], dest + 1);
    }
  }

  /** A further segment does not make an invalid name valid, and a foreign character makes it invalid. */
  lemma AbsorbForeign(a: Lfn, e: Entry)
    requires LfnOk(a) && (IsLast(e[0]) || a.haveLast || !a.valid)
    ensures Absorb(a, e).haveLast || !Absorb(a, e).valid
    ensures (!a.valid && !IsLast(e[0])) || (exists j :: 0 <= j < 13 && Foreign(CodesOf(e)[j])) ==> !Absorb(a, e).valid
  {
    var n := SegmentNumber(e[0]);
    if 1 <= n <= MAX_SEGMENTS {
      var b := if IsLast(e[0]) then Lfn(a.chars, 13 * n, true, true) else a;
      PutKeepsLast(b, CodesOf(e), 13 * (n - 1));
      if !b.valid || exists j :: 0 <= j < 13 && Foreign(CodesOf(e)[j]) { PutForeign(b, CodesOf(e), 13 * (n - 1)); }
    }
  }

  /** A run of segments from a last one on, one of which has a foreign character, never matches. */
  lemma {:induction false} ForeignNeverMatches(a: Lfn, es: seq<Entry>, i: nat, search: seq<Byte>)
    requires LfnOk(a) && i < |es| && IsLast(es[0][0]) && forall k :: 1 <= k < |es| ==> !IsLast(es[k][0])
    requires exists j :: 0 <= j < 13 && Foreign(CodesOf(es[i])[j])
    ensures !AbsorbAll(a, es).valid && !Matches(AbsorbAll(a, es), search)
    decreases |es|
  {
    var n := |es| - 1;
    if n > 0 { RunState(a, es[..n]); }
    if i < n { ForeignNeverMatches(a, es[..n], i, search); }
    AbsorbForeign(AbsorbAll(a, es[..n]), es[n]);
  }

  lemma {:induction false} RunState(a: Lfn, es: seq<Entry>)
    requires LfnOk(a) && es != [] && IsLast(es[0][0]) && forall k :: 1 <= k < |es| ==> !IsLast(es[k][0])
    ensures AbsorbAll(a, es).haveLast || !AbsorbAll(a, es).valid
    decreases |es|
  {
    var n := |es| - 1;
    if n > 0 { RunState(a, es[..n]); }
    AbsorbForeign(AbsorbAll(a, es[..n]), es[n]);
  }

  // ---- The accumulator in place ----

  class LfnAccum {
    const chars: array<Byte>
    var count: nat
    var valid: bool
    var haveLast: bool

    ghost predicate Valid()
      reads this
    {
      chars.Length == MAX_CHARS && count <= MAX_CHARS
    }

    ghost function Value(): (a: Lfn)
      requires Valid()
      reads this, chars
      ensures LfnOk(a)
    {
      Lfn(chars[..], count, valid, haveLast)
    }

    constructor ()
      ensures Valid() && Value() == EmptyLfn() && fresh(chars)
    {
      chars := new Byte[MAX_CHARS](_ => 0);
      count, valid, haveLast := 0, false, false;
      new;
      assert chars[..] == EmptyLfn().chars;
    }

    method Clear()
      requires Valid()
      modifies this
      ensures Valid() && Value() == Reset(old(Value()))
    {
      count, valid, haveLast := 0, false, false;
    }

    method AbsorbEntry(e: Entry)
      requires Valid()
      modifies this, chars
      ensures Valid() && Value() == Absorb(old(Value()), e)
    {
      var n := SegmentNumber(e[0]);
      if n == 0 || n > MAX_SEGMENTS {
        Clear();
        return;
      }
      if IsLast(e[0]) {
        Clear();
        haveLast, valid, count := true, true, 13 * n;
        assert Value() == Lfn(old(chars[..]), 13 * n, true, true);
      } else if !haveLast {
        return;
      }
      PutSegment(CodesOf(e), 13 * (n - 1));
    }

    method PutSegment(codes: seq<nat>, base: nat)
      requires Valid()
      modifies this, chars
      ensures Valid() && Value() == PutChars(old(Value()), codes, base)
    {
      assert codes[0..] == codes;
      for i := 0 to |codes|
        invariant Valid() && PutChars(Value(), codes[i..], base + i) == PutChars(old(Value()), codes, base)
      {
        var code, dest := codes[i], base + i;
        assert codes[i..][0] == code && codes[i..][1..] == codes[i + 1..];
        ghost var a := Value();
        if dest >= MAX_CHARS {
          valid := false;
          return;
        }
        if code == 0 || code == 0xFFFF {
          if dest < count {
            count := dest;
          }
          chars[dest] := 0;
          assert Value() == a.(count := Min(dest, a.count), chars := a.chars[dest := 0]);
        } else if code > 0x7F {
          valid := false;
          return;
        } else {
          chars[dest] := code;
          assert Value() == a.(chars := a.chars[dest := code]);
        }
      }
    }

    method MatchesName(search: seq<Byte>) returns (b: bool)
      requires Valid()
      ensures b == Matches(Value(), search)
    {
      if !valid || count == 0 || count != |search| {
        return false;
      }
      for i := 0 to count
        invariant forall k :: 0 <= k < i ==> Lower(chars[k]) == Lower(search[k])
      {
        if Lower(chars[i]) != Lower(search[i]) {
          assert Lower(Value().chars[..count][i]) != Lower(search[i]);
          return false;
        }
      }
      b := true;
    }
  }

  function EmptyLfn(): Lfn {
    Lfn(seq(MAX_CHARS, _ => 0), 0, false, false)
  }

  // ---- find_in_dir ----

  predicate EndMark(e: Entry) { e[0] == 0 }
  predicate Deleted(e: Entry) { e[0] == 0xE5 }
  predicate LongPart(e: Entry) { !EndMark(e) && !Deleted(e) && e[0x0B] == ATTR_LFN }
  predicate ShortEntry(e: Entry) { !EndMark(e) && !Deleted(e) && e[0x0B] != ATTR_LFN }

  function FactsOf(e: Entry): Facts {
    Facts(U16At(e, 0x14) * 0x1_0000 + U16At(e, 0x1A), U32At(e, 0x1C), e[0x0B] / 16 % 2 == 1)
  }

  /** An entry with the first cluster, length and attributes of a file written into it. */
  function WriteFacts(e: Entry, first: nat, len: nat, attributes: Byte): Entry
    requires first < U32 && len < U32
  {
    var a := Overwrite(e, 0x0B, [attributes]);
    var b := Overwrite(a, 0x14, Le16(first / 0x1_0000));
    var c := Overwrite(b, 0x1A, Le16(first % 0x1_0000));
    Overwrite(c, 0x1C, Le32(len))
  }

  /** What has been written is what the lookup reports. */
  lemma FactsReadBack(e: Entry, first: nat, len: nat, attributes: Byte)
    requires first < U32 && len < U32
    ensures FactsOf(WriteFacts(e, first, len, attributes)) == Facts(first, len, attributes / 16 % 2 == 1)
  {
    var a := Overwrite(e, 0x0B, [attributes]);
    var b := Overwrite(a, 0x14, Le16(first / 0x1_0000));
    var c := Overwrite(b, 0x1A, Le16(first % 0x1_0000));
    var w := Overwrite(c, 0x1C, Le32(len));
    assert a[0x0B] == a[0x0B..0x0C][0];
    assert b[0x14] == b[0x14..0x16][0] && b[0x15] == b[0x14..0x16][1];
    assert c[0x1A] == c[0x1A..0x1C][0] && c[0x1B] == c[0x1A..0x1C][1];
    ReadLe16(w, 0x14, first / 0x1_0000);
    ReadLe16(w, 0x1A, first % 0x1_0000);
    ReadLe32(w, 0x1C, len);
  }

  /** The accumulator in front of entry k. */
  function LfnBefore(es: seq<Entry>, k: nat): (a: Lfn)
    requires k <= |es|
    ensures LfnOk(a)
  {
    if k == 0 then EmptyLfn()
    else if LongPart(es[k - 1]) then Absorb(LfnBefore(es, k - 1), es[k - 1])
    else Reset(LfnBefore(es, k - 1))
  }

  /** Entry k is a short entry whose long name is the one searched for, or whose 8.3 field is the converted search. */
  predicate Hit(es: seq<Entry>, k: nat, search: seq<Byte>)
    requires k < |es|
  {
    ShortEntry(es[k]) && (Matches(LfnBefore(es, k), search) || es[k][..11] == Name83(search))
  }

  /** For a search of 8.3 shape a hit is an entry whose long name, or displayed short name, is the one searched for. */
  lemma HitDisplayed(es: seq<Entry>, k: nat, search: seq<Byte>)
    requires k < |es| && Short83(search)
    ensures Hit(es, k, search) <==>
            && ShortEntry(es[k])
            && var field := es[k][..11];
               (Matches(LfnBefore(es, k), search) || (WellFormed(field) && EqIgnoreCase(Displayed(field), search)))
  {
    ShortHit(es[k][..11], search);
  }

  /** Any other search hits by its long name, or by a short name that displays differently. */
  lemma HitOtherName(es: seq<Entry>, k: nat, search: seq<Byte>)
    requires k < |es| && !Short83(search) && Hit(es, k, search) && !Matches(LfnBefore(es, k), search)
    ensures WellFormed(es[k][..11]) && !EqIgnoreCase(Displayed(es[k][..11]), search)
  {
    FormWellFormed(search, 0, Blank());
    ShortHit(es[k][..11], search);
  }

  /** Nothing before entry k ends the directory or matches. */
  predicate Open(es: seq<Entry>, k: nat, search: seq<Byte>)
    requires k <= |es|
  {
    forall i :: 0 <= i < k ==> !EndMark(es[i]) && !Hit(es, i, search)
  }

  predicate FirstHit(es: seq<Entry>, k: nat, search: seq<Byte>) {
    k < |es| && Open(es, k, search) && Hit(es, k, search)
  }

  /** The answer to a lookup over a flattened directory. */
  ghost predicate Found(es: seq<Entry>, search: seq<Byte>, r: Option<Facts>) {
    match r
    case Some(facts) => exists k: nat :: FirstHit(es, k, search) && facts == FactsOf(es[k])
    case None => forall k: nat :: !FirstHit(es, k, search)
  }

  /** A lookup that first hits such an entry answers with its facts. */
  lemma FoundReadsBack(es: seq<Entry>, search: seq<Byte>, r: Option<Facts>, k: nat, e: Entry, first: nat, len: nat,
                       attributes: Byte)
    requires Found(es, search, r) && FirstHit(es, k, search)
    requires first < U32 && len < U32 && es[k] == WriteFacts(e, first, len, attributes)
    ensures r == Some(Facts(first, len, attributes / 16 % 2 == 1))
  {
    FactsReadBack(e, first, len, attributes);
    if r.Some? {
      var j: nat :| FirstHit(es, j, search) && r.value == FactsOf(es[j]);
      FirstHitUnique(es, search, j, k);
    }
  }

  lemma FirstHitUnique(es: seq<Entry>, search: seq<Byte>, j: nat, k: nat)
    requires FirstHit(es, j, search) && FirstHit(es, k, search)
    ensures j == k
  {
  }

  function EntriesIn(bytes: seq<Byte>): seq<Entry> {
    seq(|bytes| / 32, i requires 0 <= i < |bytes| / 32 => bytes[32 * i..32 * i + 32])
  }

  /** All entries along a chain, in order. */
  function DirEntries(fs: Fs, cs: seq<nat>): seq<Entry>
    requires forall i :: 0 <= i < |cs| ==> ClusterBytes(fs, cs[i]).Some?
  {
    if cs == [] then []
    else DirEntries(fs, cs[..|cs| - 1]) + EntriesIn(ClusterBytes(fs, cs[|cs| - 1]).value)
  }

  datatype Verdict = Continue | Stop(r: Option<Facts>)

  /** One directory entry: end mark, deleted, long-name part, or a short entry that may match. */
  method Visit(lfn: LfnAccum, ghost es: seq<Entry>, ghost k: nat, e: Entry, search: seq<Byte>,
               short: seq<Byte>)
    returns (v: Verdict)
    requires short == Name83(search) && lfn.Valid() && k < |es| && e == es[k] && Open(es, k, search)
             && lfn.Value() == LfnBefore(es, k)
    modifies lfn, lfn.chars
    ensures lfn.Valid()
    ensures v == Continue ==> Open(es, k + 1, search) && lfn.Value() == LfnBefore(es, k + 1)
    ensures v.Stop? ==> Found(es, search, v.r)
  {
    if e[0] == 0 {
      return Stop(None);
    }
    if e[0] == 0xE5 {
      lfn.Clear();
      return Continue;
    }
    if e[0x0B] == ATTR_LFN {
      lfn.AbsorbEntry(e);
      return Continue;
    }
    var lfnMatch := lfn.MatchesName(search);
    if lfnMatch || e[..11] == short {
      assert FirstHit(es, k, search);
      return Stop(Some(FactsOf(e)));
    }
    lfn.Clear();
    v := Continue;
  }

  /** The entry at an offset of a cluster. */
  method VisitAt(lfn: LfnAccum, ghost es: seq<Entry>, ghost base: nat, ghost end: nat, bytes: seq<Byte>, ofs: nat,
                 ghost k: nat, search: seq<Byte>, short: seq<Byte>)
    returns (v: Verdict)
    requires short == Name83(search) && end == base + |bytes| / 32 <= |es| && es[base..end] == EntriesIn(bytes)
    requires base <= k && ofs == 32 * (k - base) && ofs + ENTRY <= |bytes|
    requires lfn.Valid() && k < |es| && Open(es, k, search) && lfn.Value() == LfnBefore(es, k)
    modifies lfn, lfn.chars
    ensures lfn.Valid() && k < end
    ensures v == Continue ==> Open(es, k + 1, search) && lfn.Value() == LfnBefore(es, k + 1)
    ensures v.Stop? ==> Found(es, search, v.r)
  {
    EntryAt(es, base, end, bytes, k - base, ofs);
    v := Visit(lfn, es, k, bytes[ofs..ofs + ENTRY], search, short);
  }

  /** The entries of one cluster, continuing the accumulator from the cluster before. */
  method ScanCluster(lfn: LfnAccum, ghost es: seq<Entry>, ghost base: nat, ghost end: nat, bytes: seq<Byte>,
                     search: seq<Byte>, short: seq<Byte>)
    returns (v: Verdict)
    requires short == Name83(search) && lfn.Valid() && end == base + |bytes| / 32 <= |es|
             && es[base..end] == EntriesIn(bytes)
    requires Open(es, base, search) && lfn.Value() == LfnBefore(es, base)
    modifies lfn, lfn.chars
    ensures lfn.Valid()
    ensures v == Continue ==> Open(es, end, search) && lfn.Value() == LfnBefore(es, end)
    ensures v.Stop? ==> Found(es, search, v.r)
  {
    var ofs := 0;
    ghost var k := base;
    while ofs + ENTRY <= |bytes|
      invariant ofs == 32 * (k - base) && base <= k <= end && lfn.Valid()
      invariant Open(es, k, search) && lfn.Value() == LfnBefore(es, k)
    {
      v := VisitAt(lfn, es, base, end, bytes, ofs, k, search, short);
      if v.Stop? {
        return;
      }
      assert v == Continue;
      ofs, k := ofs + ENTRY, k + 1;
    }
    v := Continue;
  }

  lemma EntryAt(es: seq<Entry>, base: nat, end: nat, bytes: seq<Byte>, i: nat, ofs: nat)
    requires end == base + |bytes| / 32 <= |es| && es[base..end] == EntriesIn(bytes) && ofs == 32 * i
             && ofs + 32 <= |bytes|
    ensures base + i < end && es[base + i] == bytes[ofs..ofs + 32]
  {
    assert es[base + i] == es[base..end][i];
  }

  lemma {:induction false} DirEntriesPrefix(fs: Fs, cs: seq<nat>, j: nat)
    requires j <= |cs| && forall i :: 0 <= i < |cs| ==> ClusterBytes(fs, cs[i]).Some?
    ensures DirEntries(fs, cs[..j]) <= DirEntries(fs, cs)
    decreases |cs|
  {
    if j < |cs| {
      assert cs[..|cs| - 1][..j] == cs[..j];
      DirEntriesPrefix(fs, cs[..|cs| - 1], j);
    } else {
      assert cs[..j] == cs;
    }
  }

  /** Where cluster j's entries lie in the flattened directory. */
  lemma ClusterEntries(fs: Fs, cs: seq<nat>, j: nat)
    requires j < |cs| && forall i :: 0 <= i < |cs| ==> ClusterBytes(fs, cs[i]).Some?
    ensures var es, base, bytes := DirEntries(fs, cs), |DirEntries(fs, cs[..j])|, ClusterBytes(fs, cs[j]).value;
            && base + |bytes| / 32 == |DirEntries(fs, cs[..j + 1])| <= |es|
            && es[base..base + |bytes| / 32] == EntriesIn(bytes)
  {
    assert cs[..j + 1][..j] == cs[..j];
    DirEntriesPrefix(fs, cs, j + 1);
  }

  lemma NothingFound(es: seq<Entry>, search: seq<Byte>)
    requires Open(es, |es|, search)
    ensures Found(es, search, None)
  {
  }

  /** Following the FAT from cluster j of a chain. */
  lemma NextInChain(fs: Fs, start: nat, cs: seq<nat>, j: nat)
    requires IsChain(fs, start, cs, false) && j < |cs|
    ensures var next := NextCluster(fs, cs[j]);
            if next == None || !DataCluster(next.value) then j + 1 == |cs|
            else AtCluster(fs, start, cs, j + 1, next.value)
  {
    if j + 1 < |cs| { assert NextCluster(fs, cs[j]) == Some(cs[j + 1]); }
  }

  /** The loop stands at cluster j of the chain; behind the end of a finished chain there is an unreadable cluster. */
  predicate AtCluster(fs: Fs, start: nat, cs: seq<nat>, j: nat, cluster: nat) {
    && j <= |cs| && (j < |cs| ==> cluster == cs[j])
    && (j == |cs| && ChainEnds(fs, start, cs, false) ==> ClusterBytes(fs, cluster) == None)
  }

  /** Some entry ends the search: an end mark or a match. */
  ghost predicate Stops(es: seq<Entry>, search: seq<Byte>) {
    exists k: nat :: k < |es| && (EndMark(es[k]) || Hit(es, k, search))
  }

  /** The search ends within these clusters: at an entry, or because the chain ends. */
  ghost predicate SearchEnds(fs: Fs, start: nat, cs: seq<nat>, search: seq<Byte>) {
    IsChain(fs, start, cs, false) && (ChainEnds(fs, start, cs, false) || Stops(DirEntries(fs, cs), search))
  }

  /** After j clusters: how many entries have been seen. */
  ghost function Seen(fs: Fs, cs: seq<nat>, j: nat): nat
    requires j <= |cs| && forall i :: 0 <= i < |cs| ==> ClusterBytes(fs, cs[i]).Some?
  {
    |DirEntries(fs, cs[..j])|
  }

  lemma SeenEnds(fs: Fs, cs: seq<nat>)
    requires forall i :: 0 <= i < |cs| ==> ClusterBytes(fs, cs[i]).Some?
    ensures Seen(fs, cs, 0) == 0 && Seen(fs, cs, |cs|) == |DirEntries(fs, cs)|
  {
    assert cs[..0] == [] && cs[..|cs|] == cs;
  }

  /** Nothing has been found in the first j clusters, and the accumulator is where their entries leave it. */
  ghost predicate Searching(fs: Fs, cs: seq<nat>, j: nat, search: seq<Byte>, a: Lfn)
    requires j <= |cs| && forall i :: 0 <= i < |cs| ==> ClusterBytes(fs, cs[i]).Some?
  {
    var es, pos := DirEntries(fs, cs), Seen(fs, cs, j);
    pos <= |es| && Open(es, pos, search) && a == LfnBefore(es, pos)
  }

  /** Cluster j of the chain. */
  method ScanAt(lfn: LfnAccum, ghost fs: Fs, ghost cs: seq<nat>, ghost j: nat, ghost cluster: nat, bytes: seq<Byte>,
                search: seq<Byte>, short: seq<Byte>)
    returns (v: Verdict)
    requires short == Name83(search)
    requires j < |cs| && (forall i :: 0 <= i < |cs| ==> ClusterBytes(fs, cs[i]).Some?)
    requires cluster == cs[j] && ClusterBytes(fs, cluster) == Some(bytes)
    requires lfn.Valid() && Searching(fs, cs, j, search, lfn.Value())
    modifies lfn, lfn.chars
    ensures lfn.Valid()
    ensures v == Continue ==> Searching(fs, cs, j + 1, search, lfn.Value())
    ensures v.Stop? ==> Found(DirEntries(fs, cs), search, v.r)
  {
    ClusterEntries(fs, cs, j);
    v := ScanCluster(lfn, DirEntries(fs, cs), Seen(fs, cs, j), Seen(fs, cs, j + 1), bytes, search, short);
  }

  lemma SearchedAll(fs: Fs, cs: seq<nat>, search: seq<Byte>, a: Lfn)
    requires (forall i :: 0 <= i < |cs| ==> ClusterBytes(fs, cs[i]).Some?) && Searching(fs, cs, |cs|, search, a)
    ensures Found(DirEntries(fs, cs), search, None) && !Stops(DirEntries(fs, cs), search)
  {
    SeenEnds(fs, cs);
    NothingFound(DirEntries(fs, cs), search);
  }

  /** While the search goes on and the cluster is readable, the loop is still within the given clusters. */
  lemma StillInside(fs: Fs, start: nat, cs: seq<nat>, j: nat, cluster: nat, search: seq<Byte>, a: Lfn)
    requires SearchEnds(fs, start, cs, search) && AtCluster(fs, start, cs, j, cluster)
             && Searching(fs, cs, j, search, a)
    ensures ClusterBytes(fs, cluster).Some? <==> j < |cs|
  {
    if j == |cs| { SearchedAll(fs, cs, search, a); }
  }

  /**
   Looks a name up along a directory's cluster chain, whenever the search ends at all (cs is any stretch of the chain
   in which it does): the result is the first entry before the end mark whose short or long name matches, or `None`.
   */
  method FindInDir(fs: Fs, dirCluster: nat, search: seq<Byte>, ghost cs: seq<nat>) returns (r: Option<Facts>)
    requires SearchEnds(fs, dirCluster, cs, search)
    ensures Found(DirEntries(fs, cs), search, r)
  {
    var short := ToShortName(search);
    var lfn := new LfnAccum();
    var cluster := dirCluster;
    ghost var j := 0;
    SearchStart(fs, dirCluster, cs, search);
    while true
      invariant AtCluster(fs, dirCluster, cs, j, cluster)
      invariant lfn.Valid() && fresh(lfn) && fresh(lfn.chars)
      invariant Searching(fs, cs, j, search, lfn.Value())
      decreases |cs| - j
    {
      var v, next := ScanOne(lfn, fs, dirCluster, cs, j, cluster, search, short);
      if v.Stop? {
        return v.r;
      }
      cluster, j := next, j + 1;
    }
  }

  /** One round of the lookup: the answer, or the cluster to go on with. */
  method ScanOne(lfn: LfnAccum, fs: Fs, ghost start: nat, ghost cs: seq<nat>, ghost j: nat, cluster: nat,
                 search: seq<Byte>, short: seq<Byte>)
    returns (v: Verdict, next: nat)
    requires short == Name83(search)
    requires SearchEnds(fs, start, cs, search) && AtCluster(fs, start, cs, j, cluster)
    requires lfn.Valid() && Searching(fs, cs, j, search, lfn.Value())
    modifies lfn, lfn.chars
    ensures lfn.Valid()
    ensures v.Stop? ==> Found(DirEntries(fs, cs), search, v.r)
    ensures v == Continue ==> j < |cs| && AtCluster(fs, start, cs, j + 1, next)
                              && Searching(fs, cs, j + 1, search, lfn.Value())
  {
    next := 0;
    var bytes := ClusterBytes(fs, cluster);
    StillInside(fs, start, cs, j, cluster, search, lfn.Value());
    if bytes == None {
      SearchedAll(fs, cs, search, lfn.Value());
      return Stop(None), next;
    }
    v := ScanAt(lfn, fs, cs, j, cluster, bytes.value, search, short);
    if v.Stop? {
      return;
    }
    NextInChain(fs, start, cs, j);
    var following := NextCluster(fs, cluster);
    if following == None || !DataCluster(following.value) {
      SearchedAll(fs, cs, search, lfn.Value());
      return Stop(None), next;
    }
    next := following.value;
  }

  lemma SearchStart(fs: Fs, start: nat, cs: seq<nat>, search: seq<Byte>)
    requires IsChain(fs, start, cs, false)
    ensures AtCluster(fs, start, cs, 0, start) && Searching(fs, cs, 0, search, EmptyLfn())
  {
    SeenEnds(fs, cs);
  }

  /** A chain that has not ended has a next cluster. */
  lemma ChainGoesOn(fs: Fs, start: nat, cs: seq<nat>) returns (c: nat)
    requires IsChain(fs, start, cs, false) && !ChainEnds(fs, start, cs, false)
    ensures IsChain(fs, start, cs + [c], false)
  {
    c := if cs == [] then start else NextCluster(fs, cs[|cs| - 1]).value;
    AppendChain(fs, start, cs, c, false);
  }

  /**
   If no stretch of the chain ends the search, it goes on for ever: after every number n of clusters nothing is found.
   */
  lemma {:induction false} SearchNeverEnds(fs: Fs, start: nat, search: seq<Byte>, n: nat) returns (cs: seq<nat>)
    requires forall ds :: !SearchEnds(fs, start, ds, search)
    ensures |cs| == n && IsChain(fs, start, cs, false) && !Stops(DirEntries(fs, cs), search)
  {
    if n == 0 {
      cs := [];
    } else {
      var ds := SearchNeverEnds(fs, start, search, n - 1);
      assert !SearchEnds(fs, start, ds, search);
      var c := ChainGoesOn(fs, start, ds);
      cs := ds + [c];
    }
    assert IsChain(fs, start, cs, false) && !SearchEnds(fs, start, cs, search);
  }

  /** Long-name entries in the middle of a directory are absorbed one after another. */
  lemma {:induction false} LfnRun(es: seq<Entry>, k: nat, m: nat)
    requires k <= m <= |es| && forall i :: k <= i < m ==> LongPart(es[i])
    ensures LfnBefore(es, m) == AbsorbAll(LfnBefore(es, k), es[k..m])
    decreases m
  {
    if k < m {
      var j := m - 1;
      LfnRun(es, k, j);
      RunStep(es, k, j, m, LfnBefore(es, k));
    } else {
      assert es[k..m] == [];
    }
  }

  lemma RunStep(es: seq<Entry>, k: nat, j: nat, m: nat, a: Lfn)
    requires k <= j && m == j + 1 <= |es| && LongPart(es[j]) && LfnOk(a) && LfnBefore(es, j) == AbsorbAll(a, es[k..j])
    ensures LfnBefore(es, m) == AbsorbAll(a, es[k..m])
  {
    assert es[k..m] == es[k..j] + [es[j]];
    AbsorbJoin(a, es[k..j], LfnBefore(es, j), es[j], es[k..m]);
    LfnNext(es, j);
  }

  lemma AbsorbJoin(a: Lfn, s: seq<Entry>, b: Lfn, e: Entry, t: seq<Entry>)
    requires LfnOk(a) && LfnOk(b) && b == AbsorbAll(a, s) && t == s + [e]
    ensures Absorb(b, e) == AbsorbAll(a, t)
  {
    AbsorbSnoc(a, s, e);
  }

  lemma LfnNext(es: seq<Entry>, k: nat)
    requires k < |es| && LongPart(es[k])
    ensures LfnBefore(es, k + 1) == Absorb(LfnBefore(es, k), es[k])
  {
  }

  lemma AbsorbSnoc(a: Lfn, es: seq<Entry>, e: Entry)
    requires LfnOk(a)
    ensures AbsorbAll(a, es + [e]) == Absorb(AbsorbAll(a, es), e)
  {
    assert (es + [e])[..|es|] == es;
  }

  /** The entries es encode the name, highest segment first. */
  predicate EncodedRun(es: seq<Entry>, name: seq<Byte>) {
    |es| == Segments(name) && forall i :: 0 <= i < |es| ==> Encodes(es[i], name, |es| - i, |es|)
  }

  lemma EncodedRunIsLong(es: seq<Entry>, name: seq<Byte>)
    requires EncodedRun(es, name)
    ensures forall i :: 0 <= i < |es| ==> LongPart(es[i])
  {
  }

  /** An encoded name anywhere in a directory: the entry behind it has exactly that long name, ignoring case. */
  lemma LongNameInDirectory(es: seq<Entry>, k: nat, name: seq<Byte>, search: seq<Byte>)
    requires AsciiName(name) && k + Segments(name) <= |es| && EncodedRun(es[k..k + Segments(name)], name)
    ensures Matches(LfnBefore(es, k + Segments(name)), search) <==> EqIgnoreCase(name, search)
  {
    var m := k + Segments(name);
    var run := es[k..m];
    EncodedRunIsLong(run, name);
    LongInside(es, k, m, run);
    LfnRun(es, k, m);
    EncodedNameMatches(LfnBefore(es, k), run, name, search);
  }

  lemma LongInside(es: seq<Entry>, k: nat, m: nat, run: seq<Entry>)
    requires k <= m <= |es| && run == es[k..m] && forall i :: 0 <= i < |run| ==> LongPart(run[i])
    ensures forall i :: k <= i < m ==> LongPart(es[i])
  {
    forall i | k <= i < m ensures LongPart(es[i]) { assert es[i] == run[i - k]; }
  }
}
