/**
 BLAKE2b as RFC 7693 defines it: parameters, the block chain over a compression function, and the digest.
 The chain is stated for an arbitrary compression function; `Blake2Compress.F` is the one of section 3.2.
 */
module Blake2Spec {

  const U128: nat := 0x1_0000_0000_0000_0000_0000_0000_0000_0000
  const BLOCK: nat := 128

  const IV: seq<bv64> := [
    0x6a09_e667_f3bc_c908, 0xbb67_ae85_84ca_a73b, 0x3c6e_f372_fe94_f82b, 0xa54f_f53a_5f1d_36f1,
    0x510e_527f_ade6_82d1, 0x9b05_688c_2b3e_6c1f, 0x1f83_d9ab_fb41_bd6b, 0x5be0_cd19_137e_2179]

  /** The ten message schedules of section 2.7. */
  const SIGMA: seq<seq<nat>> := [
    [0, 1, 2, 3, 4, 5, 6, 7, 8, 9, 10, 11, 12, 13, 14, 15],
    [14, 10, 4, 8, 9, 15, 13, 6, 1, 12, 0, 2, 11, 7, 5, 3],
    [11, 8, 12, 0, 5, 2, 15, 13, 10, 14, 3, 6, 7, 1, 9, 4],
    [7, 9, 3, 1, 13, 12, 11, 14, 2, 6, 5, 10, 4, 0, 15, 8],
    [9, 0, 5, 7, 2, 4, 10, 15, 14, 1, 11, 12, 6, 8, 3, 13],
    [2, 12, 6, 10, 0, 11, 8, 3, 4, 13, 7, 5, 15, 14, 1, 9],
    [12, 5, 1, 15, 14, 13, 4, 10, 0, 7, 6, 3, 9, 2, 8, 11],
    [13, 11, 7, 14, 12, 1, 3, 9, 5, 0, 15, 4, 8, 6, 2, 10],
    [6, 15, 14, 9, 11, 3, 0, 8, 12, 2, 13, 7, 1, 4, 10, 5],
    [10, 2, 8, 4, 7, 6, 1, 5, 15, 11, 9, 14, 3, 12, 13, 0]]

  type Words16 = v: seq<bv64> | |v| == 16 witness seq(16, _ => 0)
  type Words8 = v: seq<bv64> | |v| == 8 witness seq(8, _ => 0)
  type Block = b: seq<bv8> | |b| == 128 witness seq(128, _ => 0)
  type Schedule = s: seq<nat> | |s| == 16 && forall i :: 0 <= i < 16 ==> s[i] < 16 witness seq(16, _ => 0)

  /** A compression function: chain value, block, byte count so far, final flag. */
  type Compressor = (Words8, Block, nat, bool) -> Words8

  /** Parameter block for an unkeyed hash of nn bytes. */
  function H0(nn: nat): Words8
    requires nn <= 64
  {
    IV[0 := IV[0] ^ (0x0101_0000 ^ (nn as bv64))]
  }

  /** The chain value after the first k full blocks of a message. */
  function Chain(f: Compressor, h0: Words8, msg: seq<bv8>, k: nat): Words8
    requires BLOCK * k <= |msg|
  {
    if k == 0 then h0 else f(Chain(f, h0, msg, k - 1), msg[BLOCK * (k - 1)..BLOCK * k], BLOCK * k, false)
  }

  function Pad(b: seq<bv8>): Block
    requires |b| <= BLOCK
  {
    b + seq(BLOCK - |b|, _ => 0)
  }

  /** How many blocks come before the last: the last block is never empty unless the message is. */
  function BlocksBefore(n: nat): nat {
    if n == 0 then 0 else (n - 1) / BLOCK
  }

  /** The hash of section 3.3 without a key: all blocks but the last, then the padded last block with the final flag. */
  function HashState(f: Compressor, nn: nat, msg: seq<bv8>): Words8
    requires nn <= 64
  {
    var k := BlocksBefore(|msg|);
    f(Chain(f, H0(nn), msg, k), Pad(msg[BLOCK * k..]), |msg|, true)
  }

  function LowByte(w: bv64): bv8 {
    (w & 0xFF) as bv8
  }

  function LeBytes(w: bv64): (s: seq<bv8>)
    ensures |s| == 8
  {
    [LowByte(w), LowByte(w >> 8), LowByte(w >> 16), LowByte(w >> 24),
     LowByte(w >> 32), LowByte(w >> 40), LowByte(w >> 48), LowByte(w >> 56)]
  }

  function Bytes(h: seq<bv64>): (s: seq<bv8>)
    ensures |s| == 8 * |h|
  {
    if h == [] then [] else Bytes(h[..|h| - 1]) + LeBytes(h[|h| - 1])
  }

  /** All 64 bytes of the final state; the digest is the first nn. */
  function Digest(f: Compressor, nn: nat, msg: seq<bv8>): (s: seq<bv8>)
    requires nn <= 64
    ensures |s| == 64
  {
    Bytes(HashState(f, nn, msg))
  }

  /** The chain over a prefix does not depend on what follows. */
  lemma {:induction false} ChainPrefix(f: Compressor, h0: Words8, msg: seq<bv8>, more: seq<bv8>, k: nat)
    requires BLOCK * k <= |msg|
    ensures Chain(f, h0, msg + more, k) == Chain(f, h0, msg, k)
  {
    if k > 0 {
      ChainPrefix(f, h0, msg, more, k - 1);
      assert (msg + more)[BLOCK * (k - 1)..BLOCK * k] == msg[BLOCK * (k - 1)..BLOCK * k];
    }
  }

  lemma {:induction false} BytesPrefix(h: seq<bv64>, k: nat)
    requires k <= |h|
    ensures Bytes(h)[..8 * k] == Bytes(h[..k])
  {
    if k < |h| {
      BytesPrefix(h[..|h| - 1], k);
      assert h[..|h| - 1][..k] == h[..k];
      assert Bytes(h)[..8 * k] == Bytes(h[..|h| - 1])[..8 * k];
    } else {
      assert h[..k] == h;
    }
  }
}
