/** Config-hash enrolment: the tool's one-shot hash, the hash slot in the binary, and the boot-time check. */
module Enrollment {
  import opened Options
  import opened Blake2Spec
  import opened Blake2Compress
  import Blake2b

  // ---- The command-line tool's one-shot BLAKE2b-256 ----

  /** Whole blocks while more than one block remains, then the padded remainder with the final flag. */
  method OneShot(f: Compressor, data: seq<bv8>) returns (h: Words8)
    ensures h == HashState(f, 32, data)
  {
    h := H0(32);
    var offset, t := 0, 0;
    ghost var k: nat := 0;
    while |data| - offset > BLOCK
      invariant offset == t == BLOCK * k <= |data| && (k > 0 ==> offset < |data|)
      invariant h == Chain(f, H0(32), data, k)
    {
      var block: Block := data[offset..offset + BLOCK];
      t := t + BLOCK;
      h := f(h, block, t, false);
      offset := offset + BLOCK;
      k := k + 1;
    }
    assert k == BlocksBefore(|data|);
    var remaining := |data| - offset;
    t := t + remaining;
    h := f(h, Pad(data[offset..]), t, true);
  }

  /** The tool's digest: the first four words of the final state. */
  method ToolHashWith(f: Compressor, data: seq<bv8>) returns (out: seq<bv8>)
    ensures |out| == 32 && out == ConfigDigest(f, data)
  {
    var h := OneShot(f, data);
    out := Blake2b.WordBytes(h[..4]);
    BytesPrefix(h, 4);
  }

  /** `blake2b_256`: the first 32 bytes of what `Blake2b::hash(data, 32)` returns. */
  method ToolHash(data: seq<bv8>) returns (out: seq<bv8>)
    ensures out == Digest(F, 32, data)[..32]
  {
    out := ToolHashWith(F, data);
  }

  /** The 32-byte digest the boot-time check compares against. */
  ghost function ConfigDigest(f: Compressor, data: seq<bv8>): (d: seq<bv8>)
    ensures |d| == 32
  {
    Digest(f, 32, data)[..32]
  }

  // ---- The hash slot ----

  const SIGNATURE: seq<bv8> :=
    [0x5A, 0x41, 0x4D, 0x41, 0x4B, 0x5F, 0x43, 0x46, 0x47, 0x5F, 0x48, 0x41, 0x53, 0x48, 0xA5, 0x5A]
  const HASH_LEN: nat := 32
  const RECORD_LEN: nat := 16 + HASH_LEN

  predicate SignatureAt(b: seq<bv8>, o: nat) {
    o + 16 <= |b| && b[o..o + 16] == SIGNATURE
  }

  /** The slot is the first signature of a binary long enough to hold a record. */
  predicate IsSlot(b: seq<bv8>, o: nat) {
    |b| >= RECORD_LEN && SignatureAt(b, o) && forall p: nat :: p < o ==> !SignatureAt(b, p)
  }

  method FindSlot(b: seq<bv8>) returns (r: Option<nat>)
    ensures r.Some? ==> IsSlot(b, r.value)
    ensures r == None ==> forall o: nat :: !IsSlot(b, o)
  {
    if |b| < RECORD_LEN {
      return None;
    }
    var o := 0;
    while o + 16 <= |b|
      invariant forall p: nat :: p < o ==> !SignatureAt(b, p)
    {
      if b[o..o + 16] == SIGNATURE {
        return Some(o);
      }
      o := o + 1;
    }
    r := None;
  }

  predicate AllZero(s: seq<bv8>) {
    forall i :: 0 <= i < |s| ==> s[i] == 0
  }

  /** The enrolled hash at a slot: absent when out of bounds or all zero. */
  function ReadHashAt(b: seq<bv8>, o: nat): Option<seq<bv8>> {
    if o + RECORD_LEN > |b| || AllZero(b[o + 16..o + RECORD_LEN]) then None else Some(b[o + 16..o + RECORD_LEN])
  }

  datatype PatchResult = Patched(at: nat) | SignatureMissing | SlotTruncated

  function PatchedBytes(b: seq<bv8>, o: nat, hash: seq<bv8>): seq<bv8>
    requires o + RECORD_LEN <= |b|
  {
    b[..o + 16] + hash + b[o + RECORD_LEN..]
  }

  /** Overwrites the hash bytes of the slot, in place, and nothing else. */
  method PatchHash(binary: array<bv8>, hash: seq<bv8>) returns (r: PatchResult)
    requires |hash| == HASH_LEN
    modifies binary
    ensures r == SignatureMissing <==> forall o: nat :: !IsSlot(old(binary[..]), o)
    ensures r == SlotTruncated <==> exists o: nat :: IsSlot(old(binary[..]), o) && o + RECORD_LEN > binary.Length
    ensures r.Patched? ==> IsSlot(old(binary[..]), r.at) && r.at + RECORD_LEN <= binary.Length
                           && binary[..] == PatchedBytes(old(binary[..]), r.at, hash)
    ensures !r.Patched? ==> binary[..] == old(binary[..])
  {
    var slot := FindSlot(binary[..]);
    if slot == None {
      return SignatureMissing;
    }
    var o := slot.value;
    SlotUnique(binary[..], o);
    if o + RECORD_LEN > binary.Length {
      return SlotTruncated;
    }
    CopyHash(binary, o, hash);
    r := Patched(o);
  }

  method CopyHash(binary: array<bv8>, o: nat, hash: seq<bv8>)
    requires |hash| == HASH_LEN && o + RECORD_LEN <= binary.Length
    modifies binary
    ensures binary[..] == PatchedBytes(old(binary[..]), o, hash)
  {
    for i := 0 to HASH_LEN
      invariant forall k :: 0 <= k < binary.Length ==>
                  binary[k] == if o + 16 <= k < o + 16 + i then hash[k - o - 16] else old(binary[k])
    {
      binary[o + 16 + i] := hash[i];
    }
  }

  lemma SlotUnique(b: seq<bv8>, o: nat)
    requires IsSlot(b, o)
    ensures forall p: nat :: IsSlot(b, p) ==> p == o
  {
  }

  /** Patching keeps the slot where it is, and the new hash reads back unless it is all zero. */
  lemma PatchReadsBack(b: seq<bv8>, o: nat, hash: seq<bv8>)
    requires IsSlot(b, o) && o + RECORD_LEN <= |b| && |hash| == HASH_LEN
    ensures var p := PatchedBytes(b, o, hash);
            && IsSlot(p, o) && |p| == |b|
            && ReadHashAt(p, o) == (if AllZero(hash) then None else Some(hash))
            && forall i :: 0 <= i < |b| && !(o + 16 <= i < o + RECORD_LEN) ==> p[i] == b[i]
  {
    var p := PatchedBytes(b, o, hash);
    assert p[o + 16..o + RECORD_LEN] == hash;
    forall q: nat | q <= o ensures SignatureAt(p, q) <==> SignatureAt(b, q) {
      if q + 16 <= |b| { assert p[q..q + 16] == b[q..q + 16]; }
    }
  }

  // ---- The boot-time check ----

  /** The constant-time comparison: all 32 byte differences or-ed together. */
  method SameBytes(x: seq<bv8>, y: seq<bv8>) returns (same: bool)
    requires |x| == HASH_LEN && |y| >= HASH_LEN
    ensures same <==> x == y[..HASH_LEN]
  {
    var diff: bv8 := 0;
    for i := 0 to HASH_LEN
      invariant diff == 0 <==> x[..i] == y[..i]
    {
      DiffByte(diff, x[i], y[i]);
      assert x[..i + 1] == x[..i] + [x[i]] && y[..i + 1] == y[..i] + [y[i]];
      diff := diff | (x[i] ^ y[i]);
    }
    assert x[..HASH_LEN] == x;
    same := diff == 0;
  }

  lemma DiffByte(diff: bv8, x: bv8, y: bv8)
    ensures diff | (x ^ y) == 0 <==> diff == 0 && x == y
  {
  }

  /** `verify_config_hash`: accepted when nothing is enrolled or the digests agree byte for byte. */
  method VerifyConfigHash(f: Compressor, enrolled: Option<seq<bv8>>, content: seq<bv8>) returns (ok: bool)
    requires Blake2b.Periodic(f) && (enrolled.Some? ==> |enrolled.value| == HASH_LEN)
    ensures ok <==> enrolled == None || enrolled.value == ConfigDigest(f, content)
  {
    if enrolled == None {
      return true;
    }
    var full := Blake2b.HashWith(f, content, 32);
    ok := SameBytes(enrolled.value, full);
  }

  /**
   Enrol with the tool, then boot, for any compression function and so for F: after a successful patch with a
   nonzero hash the boot-time check accepts a config exactly when it has the enrolled digest; in particular it
   always accepts the enrolled config.
   */
  method EnrollThenBoot(f: Compressor, binary: array<bv8>, config: seq<bv8>, booted: seq<bv8>)
    returns (r: PatchResult, ok: bool)
    requires Blake2b.Periodic(f)
    modifies binary
    ensures r.Patched? <==> exists o: nat :: IsSlot(old(binary[..]), o) && o + RECORD_LEN <= binary.Length
    ensures r == SignatureMissing <==> forall o: nat :: !IsSlot(old(binary[..]), o)
    ensures r.Patched? ==> IsSlot(old(binary[..]), r.at) && r.at + RECORD_LEN <= binary.Length
                           && binary[..] == PatchedBytes(old(binary[..]), r.at, ConfigDigest(f, config))
    ensures !r.Patched? ==> binary[..] == old(binary[..]) && !ok
    ensures r.Patched? && AllZero(ConfigDigest(f, config)) ==> ok
    ensures r.Patched? && !AllZero(ConfigDigest(f, config))
            ==> (ok <==> ConfigDigest(f, booted) == ConfigDigest(f, config))
    ensures r.Patched? && booted == config ==> ok
  {
    var hash := ToolHashWith(f, config);
    r := PatchHash(binary, hash);
    ok := false;
    if o: nat :| IsSlot(old(binary[..]), o) {
      SlotUnique(old(binary[..]), o);
    }
    if r.Patched? {
      PatchReadsBack(old(binary[..]), r.at, hash);
      var slot := FindSlot(binary[..]);
      SlotUnique(binary[..], r.at);
      ok := VerifyConfigHash(f, ReadHashAt(binary[..], slot.value), booted);
    }
  }
}
