/** The streaming hasher of `blake2b.rs`. */
module Blake2b {
  import opened Machine
  import opened Blake2Spec
  import opened Blake2Compress

  // ---- The states a streaming hasher goes through ----

  /** Everything of m but its last block is compressed; the last block, full or not, is held back. */
  ghost predicate Absorbed(f: Compressor, nn: nat, h: seq<bv64>, t: nat, held: seq<bv8>, m: seq<bv8>) {
    && nn <= 64 && |h| == 8
    && held == m[BLOCK * BlocksBefore(|m|)..]
    && h == Chain(f, H0(nn), m, BlocksBefore(|m|))
    && t == BLOCK * BlocksBefore(|m|) % U128
  }

  /** All of m is compressed as non-final blocks. */
  ghost predicate Compressed(f: Compressor, nn: nat, h: seq<bv64>, t: nat, m: seq<bv8>) {
    && nn <= 64 && |h| == 8 && |m| % BLOCK == 0
    && h == Chain(f, H0(nn), m, |m| / BLOCK)
    && t == |m| % U128
  }

  ghost predicate Periodic(f: Compressor) {
    forall h: Words8, b: Block, t: nat, last :: f(h, b, t % U128, last) == f(h, b, t, last)
  }

  lemma AbsorbNothing(f: Compressor, nn: nat)
    requires nn <= 64
    ensures Absorbed(f, nn, H0(nn), 0, [], [])
  {
    var m: seq<bv8> := [];
    assert BlocksBefore(|m|) == 0 && m[0..] == m;
    assert Chain(f, H0(nn), m, 0) == H0(nn);
  }

  /** Nothing is held back only if nothing was absorbed. */
  lemma NothingHeld(f: Compressor, nn: nat, h: seq<bv64>, t: nat, m: seq<bv8>)
    requires Absorbed(f, nn, h, t, [], m)
    ensures Compressed(f, nn, h, t, m) && m == []
  {
    assert |m[BLOCK * BlocksBefore(|m|)..]| == |m| - BLOCK * BlocksBefore(|m|);
  }

  lemma JoinCut(m: seq<bv8>, data: seq<bv8>, k: nat)
    requires k <= |data|
    ensures m + data[..k] + data[k..] == m + data
    ensures k == |data| ==> m + data[..k] == m + data
  {
  }

  /** More bytes fit in the held block. */
  lemma AbsorbHeld(f: Compressor, nn: nat, h: seq<bv64>, t: nat, held: seq<bv8>, m: seq<bv8>, d: seq<bv8>)
    requires Absorbed(f, nn, h, t, held, m) && |held| + |d| <= BLOCK
    ensures Absorbed(f, nn, h, t, held + d, m + d)
  {
    var k := BlocksBefore(|m|);
    assert BlocksBefore(|m + d|) == k;
    ChainPrefix(f, H0(nn), m, d, k);
    assert (m + d)[BLOCK * k..] == held + d;
  }

  /** A full held block is compressed once more data is known to follow. */
  lemma FlushHeld(f: Compressor, nn: nat, h: seq<bv64>, t: nat, held: seq<bv8>, m: seq<bv8>)
    requires Periodic(f) && Absorbed(f, nn, h, t, held, m) && |held| == BLOCK
    ensures Compressed(f, nn, f(h, held, (t + BLOCK) % U128, false), (t + BLOCK) % U128, m)
  {
    var k := BlocksBefore(|m|);
    assert |m| == BLOCK * (k + 1) && |m| / BLOCK == k + 1;
    assert m[BLOCK * k..BLOCK * (k + 1)] == held;
    AddMod(BLOCK * k, BLOCK);
    assert f(h, held, BLOCK * (k + 1) % U128, false) == f(h, held, BLOCK * (k + 1), false);
  }

  /** A further full block compressed straight from the input. */
  lemma CompressDirect(f: Compressor, nn: nat, h: seq<bv64>, t: nat, m: seq<bv8>, b: Block)
    requires Periodic(f) && Compressed(f, nn, h, t, m)
    ensures Compressed(f, nn, f(h, b, (t + BLOCK) % U128, false), (t + BLOCK) % U128, m + b)
  {
    var k := |m| / BLOCK;
    assert |m + b| == BLOCK * (k + 1) && |m + b| / BLOCK == k + 1;
    ChainPrefix(f, H0(nn), m, b, k);
    assert (m + b)[BLOCK * k..BLOCK * (k + 1)] == b;
    AddMod(BLOCK * k, BLOCK);
    assert f(h, b, BLOCK * (k + 1) % U128, false) == f(h, b, BLOCK * (k + 1), false);
  }

  lemma AddMod(x: nat, y: nat)
    ensures (x % U128 + y) % U128 == (x + y) % U128
  {
  }

  /** The remaining 1 to 128 bytes are held back. */
  lemma HoldRest(f: Compressor, nn: nat, h: seq<bv64>, t: nat, m: seq<bv8>, rest: seq<bv8>)
    requires Compressed(f, nn, h, t, m) && 0 < |rest| <= BLOCK
    ensures Absorbed(f, nn, h, t, rest, m + rest)
  {
    var k := |m| / BLOCK;
    assert BlocksBefore(|m + rest|) == k && |m| == BLOCK * k;
    ChainPrefix(f, H0(nn), m, rest, k);
    assert (m + rest)[BLOCK * k..] == rest;
  }

  /** Compressing the held block, padded and flagged as last, yields the hash. */
  lemma FinishHeld(f: Compressor, nn: nat, h: seq<bv64>, t: nat, held: seq<bv8>, m: seq<bv8>)
    requires Periodic(f) && Absorbed(f, nn, h, t, held, m)
    ensures |held| <= BLOCK && f(h, Pad(held), (t + |held|) % U128, true) == HashState(f, nn, m)
  {
    var k := BlocksBefore(|m|);
    AddMod(BLOCK * k, |held|);
    assert f(h, Pad(held), |m| % U128, true) == f(h, Pad(held), |m|, true);
  }

  lemma CounterAdd(t0: nat, t1: nat, inc: nat)
    requires t0 < U64 && t1 < U64 && inc < U64
    ensures var s := (t0 + inc) % U64;
            s + U64 * (if s < inc then (t1 + 1) % U64 else t1) == (t0 + U64 * t1 + inc) % U128
  {
    var s := (t0 + inc) % U64;
    assert s < inc <==> t0 + inc >= U64;
  }

  /**
   The hasher.  The compression function is a parameter here: `Blake2Compress.Compress` is its in-place
   implementation, proved to be the F that `Hash` below passes in.
   */
  class Blake2b {
    const f: Compressor
    var h: Words8
    var t0: nat
    var t1: nat
    const buf: array<bv8>
    var bufLen: nat
    const outLen: nat
    /** Everything absorbed so far. */
    ghost var msg: seq<bv8>

    ghost predicate Shape()
      reads this
    {
      buf.Length == BLOCK && bufLen <= BLOCK && t0 < U64 && t1 < U64 && Periodic(f)
    }

    ghost function Counter(): nat
      reads this
    {
      t0 + U64 * t1
    }

    ghost predicate Valid()
      reads this, buf
    {
      Shape() && Absorbed(f, outLen, h, Counter(), buf[..bufLen], msg)
    }

    constructor (f: Compressor, outLen: nat)
      requires 1 <= outLen <= 64 && Periodic(f)
      ensures Valid() && msg == [] && this.outLen == outLen && this.f == f && fresh(buf)
    {
      this.f, this.outLen := f, outLen;
      h := H0(outLen);
      t0, t1 := 0, 0;
      buf := new bv8[BLOCK](_ => 0);
      bufLen := 0;
      msg := [];
      AbsorbNothing(f, outLen);
      new;
      assert buf[..bufLen] == [];
    }

    /** `increment_counter`: the two words count modulo 2^128. */
    method IncrementCounter(inc: nat)
      requires Shape() && inc < U64
      modifies this`t0, this`t1
      ensures Shape() && Counter() == (old(Counter()) + inc) % U128
    {
      CounterAdd(t0, t1, inc);
      t0 := (t0 + inc) % U64;
      if t0 < inc {
        t1 := (t1 + 1) % U64;
      }
    }

    /** Counts a block and compresses it as non-final. */
    method CompressBlock(block: Block)
      requires Shape()
      modifies this`t0, this`t1, this`h
      ensures Shape() && Counter() == (old(Counter()) + BLOCK) % U128
      ensures h == f(old(h), block, Counter(), false)
    {
      IncrementCounter(BLOCK);
      h := f(h, block, t0 + U64 * t1, false);
    }

    /** `buf[buf_len..buf_len + n].copy_from_slice(d)`. */
    method Buffer(d: seq<bv8>)
      requires Shape() && bufLen + |d| <= BLOCK
      modifies this`bufLen, buf
      ensures Shape() && bufLen == old(bufLen) + |d| && buf[..bufLen] == old(buf[..bufLen]) + d
    {
      for i := 0 to |d|
        invariant bufLen == old(bufLen) && buf[..bufLen + i] == old(buf[..bufLen]) + d[..i]
      {
        buf[bufLen + i] := d[i];
      }
      bufLen := bufLen + |d|;
      assert d[..|d|] == d;
    }

    /** Feeds data; a full buffer is compressed only once more data follows it. */
    method Update(data: seq<bv8>)
      requires Valid()
      modifies this`t0, this`t1, this`h, this`bufLen, this`msg, buf
      ensures Valid() && msg == old(msg) + data
    {
      ghost var m := msg;
      var offset := FillBuffer(data);
      JoinCut(m, data, offset);
      if offset < |data| {
        UpdateDirect(data, offset);
      }
    }

    /** Tops up a buffer in use, and compresses it when it is full and more data follows. */
    method FillBuffer(data: seq<bv8>) returns (offset: nat)
      requires Valid()
      modifies this`t0, this`t1, this`h, this`bufLen, this`msg, buf
      ensures offset <= |data| && msg == old(msg) + data[..offset]
      ensures offset == |data| ==> Valid()
      ensures offset < |data| ==> Shape() && bufLen == 0 && Compressed(f, outLen, h, Counter(), msg)
    {
      offset := 0;
      if bufLen > 0 {
        offset := if |data| < BLOCK - bufLen then |data| else BLOCK - bufLen;
        TopUp(data[..offset]);
        if bufLen == BLOCK && offset < |data| {
          FlushBuffer();
        }
      } else {
        NothingHeld(f, outLen, h, Counter(), msg);
      }
    }

    /** Fills the buffer from the input. */
    method TopUp(d: seq<bv8>)
      requires Valid() && bufLen + |d| <= BLOCK
      modifies this`bufLen, this`msg, buf
      ensures Valid() && msg == old(msg) + d && bufLen == old(bufLen) + |d|
    {
      AbsorbHeld(f, outLen, h, Counter(), buf[..bufLen], msg, d);
      Buffer(d);
      msg := msg + d;
    }

    /** Compresses a full buffer. */
    method FlushBuffer()
      requires Valid() && bufLen == BLOCK
      modifies this`t0, this`t1, this`h, this`bufLen
      ensures Shape() && bufLen == 0 && Compressed(f, outLen, h, Counter(), msg)
    {
      FlushHeld(f, outLen, h, Counter(), buf[..bufLen], msg);
      assert buf[..] == buf[..bufLen];
      CompressBlock(buf[..]);
      bufLen := 0;
    }

    /** The rest of `update`, with an empty buffer: whole blocks straight from the input, then the remainder. */
    method UpdateDirect(data: seq<bv8>, from: nat)
      requires Shape() && from < |data| && bufLen == 0
      requires Compressed(f, outLen, h, Counter(), msg)
      modifies this`t0, this`t1, this`h, this`bufLen, this`msg, buf
      ensures Valid() && msg == old(msg) + data[from..]
    {
      var offset := from;
      while offset + BLOCK < |data|
        invariant from <= offset < |data| && Shape() && bufLen == 0
        invariant msg == old(msg) + data[from..offset]
        invariant Compressed(f, outLen, h, Counter(), msg)
      {
        var block: Block := data[offset..offset + BLOCK];
        AbsorbBlock(block);
        offset := offset + BLOCK;
      }
      KeepRest(data[offset..]);
    }

    method AbsorbBlock(block: Block)
      requires Shape() && Compressed(f, outLen, h, Counter(), msg)
      modifies this`t0, this`t1, this`h, this`msg
      ensures Shape() && Compressed(f, outLen, h, Counter(), msg) && msg == old(msg) + block
    {
      CompressDirect(f, outLen, h, Counter(), msg, block);
      CompressBlock(block);
      msg := msg + block;
    }

    method KeepRest(rest: seq<bv8>)
      requires Shape() && bufLen == 0 && 0 < |rest| <= BLOCK && Compressed(f, outLen, h, Counter(), msg)
      modifies this`bufLen, this`msg, buf
      ensures Valid() && msg == old(msg) + rest
    {
      HoldRest(f, outLen, h, Counter(), msg, rest);
      Buffer(rest);
      assert buf[..bufLen] == rest;
      msg := msg + rest;
    }

    /** Zeroes the unused part of the buffer. */
    method PadBuffer()
      requires Shape()
      modifies buf
      ensures buf[..] == Pad(old(buf[..bufLen]))
    {
      for i := bufLen to BLOCK
        invariant buf[..bufLen] == old(buf[..bufLen]) && forall k :: bufLen <= k < i ==> buf[k] == 0
      {
        buf[i] := 0;
      }
    }

    /** Pads and compresses the last block, with the final flag. */
    method LastBlock()
      requires Valid()
      modifies this`t0, this`t1, this`h, buf
      ensures h == HashState(f, outLen, msg)
    {
      ghost var t, held := Counter(), buf[..bufLen];
      FinishHeld(f, outLen, h, t, held, msg);
      IncrementCounter(bufLen);
      PadBuffer();
      var block, count := buf[..], t0 + U64 * t1;
      assert block == Pad(held) && count == (t + |held|) % U128;
      h := f(h, block, count, true);
    }

    /** The digest of everything absorbed. */
    method Finalize() returns (out: seq<bv8>)
      requires Valid()
      modifies this`t0, this`t1, this`h, buf
      ensures out == Digest(f, outLen, msg)
    {
      LastBlock();
      out := WordBytes(h);
    }
  }

  /** The state's words as little-endian bytes. */
  method WordBytes(h: seq<bv64>) returns (out: seq<bv8>)
    ensures out == Bytes(h)
  {
    out := [];
    for i := 0 to |h|
      invariant out == Bytes(h[..i])
    {
      assert h[..i + 1][..i] == h[..i];
      out := out + LeBytes(h[i]);
    }
    assert h[..|h|] == h;
  }

  lemma PeriodicF()
    ensures Periodic(F)
  {
    forall h: Words8, b: Block, t: nat, last ensures F(h, b, t % U128, last) == F(h, b, t, last) {
      FPeriodic(h, b, t, last);
    }
  }

  /** One-shot hashing, for any compression function. */
  method HashWith(f: Compressor, data: seq<bv8>, outLen: nat) returns (out: seq<bv8>)
    requires 1 <= outLen <= 64 && Periodic(f)
    ensures out == Digest(f, outLen, data)
  {
    var hasher := new Blake2b(f, outLen);
    hasher.Update(data);
    assert [] + data == data;
    out := hasher.Finalize();
  }

  /** `Blake2b::hash`. */
  method Hash(data: seq<bv8>, outLen: nat) returns (out: seq<bv8>)
    requires 1 <= outLen <= 64
    ensures out == Digest(F, outLen, data)
  {
    PeriodicF();
    out := HashWith(F, data, outLen);
  }

  function Flatten(chunks: seq<seq<bv8>>): seq<bv8> {
    if chunks == [] then [] else Flatten(chunks[..|chunks| - 1]) + chunks[|chunks| - 1]
  }

  /** However a message is cut into updates, the digest is that of the whole. */
  method HashChunks(chunks: seq<seq<bv8>>, outLen: nat) returns (out: seq<bv8>)
    requires 1 <= outLen <= 64
    ensures out == Digest(F, outLen, Flatten(chunks))
  {
    PeriodicF();
    var hasher := new Blake2b(F, outLen);
    for i := 0 to |chunks|
      invariant hasher.Valid() && hasher.msg == Flatten(chunks[..i])
      invariant fresh(hasher) && fresh(hasher.buf)
    {
      assert chunks[..i + 1][..i] == chunks[..i];
      hasher.Update(chunks[i]);
    }
    assert chunks[..|chunks|] == chunks;
    out := hasher.Finalize();
  }
}
