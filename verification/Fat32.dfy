/** The FAT32 walker over a byte slice (`ram_fat32.rs`): cluster chains, file contents and directory lookup. */
module Fat32 {
  import opened Options

  type Byte = b: nat | b < 256

  const SECTOR: nat := 512
  const ENTRY: nat := 32
  const END_OF_CHAIN: nat := 0x0FFF_FFF8
  const U32: nat := 0x1_0000_0000

  datatype Fs = Fs(image: seq<Byte>, spc: nat, reserved: nat, root: nat, firstData: nat)

  datatype Facts = Facts(firstCluster: nat, len: nat, isDir: bool)

  /** What `parse` establishes: a nonzero cluster size. */
  predicate Mounted(fs: Fs) {
    0 < fs.spc < 256
  }

  // ---- Little-endian reads and cluster lookups ----

  function U16At(s: seq<Byte>, o: nat): nat
    requires o + 2 <= |s|
  {
    s[o] as nat + 256 * (s[o + 1] as nat)
  }

  function U32At(s: seq<Byte>, o: nat): nat
    requires o + 4 <= |s|
  {
    U16At(s, o) + 0x1_0000 * U16At(s, o + 2)
  }

  function Geometry(image: seq<Byte>, spc: nat, reserved: nat, fats: nat, perFat: nat, root: nat): (r: Option<Fs>)
    ensures r.Some? ==> r.value.image == image && 0 < r.value.spc == spc && 2 <= r.value.root == root
  {
    if spc == 0 || reserved == 0 || fats == 0 || perFat == 0 || root < 2 then None
    else if fats * perFat >= U32 || reserved + fats * perFat >= U32 then None
    else Some(Fs(image, spc, reserved, root, reserved + fats * perFat))
  }

  /** `parse`: the boot sector's geometry, or `None` when a field is unusable or the data area overflows 32 bits. */
  function Parse(image: seq<Byte>): (r: Option<Fs>)
    ensures r.Some? ==> Mounted(r.value) && r.value.image == image && r.value.root >= 2
  {
    if |image| < SECTOR || U16At(image, 0x0B) != SECTOR || image[0x1FE] != 0x55 || image[0x1FF] != 0xAA then None
    else Geometry(image, image[0x0D], U16At(image, 0x0E), image[0x10], U32At(image, 0x24), U32At(image, 0x2C))
  }

  // ---- A boot sector, as a formatter writes it ----

  datatype Geometry32 = Geometry32(spc: Byte, reserved: nat, fats: Byte, perFat: nat, root: nat)

  predicate InFields(g: Geometry32) {
    g.reserved < 0x1_0000 && g.perFat < U32 && g.root < U32
  }

  /** What the walker can work with: every field in use, and a data area that starts below sector 2^32. */
  predicate IsUsable(g: Geometry32) {
    g.spc > 0 && g.reserved > 0 && g.fats > 0 && g.perFat > 0 && g.root >= 2 && g.reserved + g.fats * g.perFat < U32
  }

  function Le16(v: nat): seq<Byte>
    requires v < 0x1_0000
  {
    [v % 256, v / 256]
  }

  function Le32(v: nat): seq<Byte>
    requires v < U32
  {
    [v % 256, v / 256 % 256, v / 0x1_0000 % 256, v / 0x100_0000]
  }

  function Overwrite(s: seq<Byte>, o: nat, b: seq<Byte>): (r: seq<Byte>)
    requires o + |b| <= |s|
    ensures |r| == |s| && r[o..o + |b|] == b
    ensures forall i :: 0 <= i < |s| && !(o <= i < o + |b|) ==> r[i] == s[i]
  {
    s[..o] + b + s[o + |b|..]
  }

  /** Any image with the fields of a FAT32 boot sector written into it. */
  function Formatted(image: seq<Byte>, g: Geometry32): (r: seq<Byte>)
    requires |image| >= SECTOR && InFields(g)
  {
    var a := Overwrite(image, 0x0B, Le16(SECTOR) + [g.spc] + Le16(g.reserved) + [g.fats]);
    var b := Overwrite(a, 0x24, Le32(g.perFat));
    var c := Overwrite(b, 0x2C, Le32(g.root));
    Overwrite(c, 0x1FE, [0x55, 0xAA])
  }

  lemma ReadLe16(s: seq<Byte>, o: nat, v: nat)
    requires v < 0x1_0000 && o + 2 <= |s| && s[o] == v % 256 && s[o + 1] == v / 256
    ensures U16At(s, o) == v
  {
  }

  lemma ReadLe32(s: seq<Byte>, o: nat, v: nat)
    requires v < U32 && o + 4 <= |s| && s[o..o + 4] == Le32(v)
    ensures U32At(s, o) == v
  {
    var b := s[o..o + 4];
    assert b[0] == s[o] && b[1] == s[o + 1] && b[2] == s[o + 2] && b[3] == s[o + 3];
    LeDigits(v);
  }

  lemma LeDigits(v: nat)
    ensures v == v % 256 + 256 * (v / 256 % 256) + 0x1_0000 * (v / 0x1_0000 % 256) + 0x100_0000 * (v / 0x100_0000)
  {
    assert v / 256 / 256 == v / 0x1_0000 && v / 0x1_0000 / 256 == v / 0x100_0000;
  }

  /** Where nothing is written, four bytes stay together. */
  lemma OverwriteKeeps(s: seq<Byte>, o: nat, b: seq<Byte>, p: nat)
    requires o + |b| <= |s| && p + 4 <= |s| && (p + 4 <= o || o + |b| <= p)
    ensures Overwrite(s, o, b)[p..p + 4] == s[p..p + 4]
  {
  }

  lemma FormattedFields(image: seq<Byte>, g: Geometry32)
    requires |image| >= SECTOR && InFields(g)
    ensures var s := Formatted(image, g);
            && |s| == |image| && s[0x1FE] == 0x55 && s[0x1FF] == 0xAA
            && s[0x0B..0x11] == Le16(SECTOR) + [g.spc] + Le16(g.reserved) + [g.fats]
            && s[0x24..0x28] == Le32(g.perFat) && s[0x2C..0x30] == Le32(g.root)
  {
    var head := Le16(SECTOR) + [g.spc] + Le16(g.reserved) + [g.fats];
    var a := Overwrite(image, 0x0B, head);
    var b := Overwrite(a, 0x24, Le32(g.perFat));
    var c := Overwrite(b, 0x2C, Le32(g.root));
    var s := Formatted(image, g);
    OverwriteKeeps(b, 0x2C, Le32(g.root), 0x24);
    OverwriteKeeps(c, 0x1FE, [0x55, 0xAA], 0x24);
    OverwriteKeeps(c, 0x1FE, [0x55, 0xAA], 0x2C);
    assert s[0x1FE] == s[0x1FE..0x200][0] && s[0x1FF] == s[0x1FE..0x200][1];
    assert s[0x0B..0x11] == c[0x0B..0x11] == b[0x0B..0x11] == a[0x0B..0x11];
  }

  /** A formatted image mounts exactly when its geometry is usable, and then with that geometry. */
  lemma ParseReadsBack(image: seq<Byte>, g: Geometry32)
    requires |image| >= SECTOR && InFields(g)
    ensures var s := Formatted(image, g);
            Parse(s) == if IsUsable(g) then Some(Fs(s, g.spc, g.reserved, g.root, g.reserved + g.fats * g.perFat))
                        else None
  {
    var s := Formatted(image, g);
    FormattedFields(image, g);
    HeadFields(s, g);
    ReadLe32(s, 0x24, g.perFat);
    ReadLe32(s, 0x2C, g.root);
    GeometryOf(s, g);
  }

  lemma HeadFields(s: seq<Byte>, g: Geometry32)
    requires |s| >= SECTOR && InFields(g) && s[0x0B..0x11] == Le16(SECTOR) + [g.spc] + Le16(g.reserved) + [g.fats]
    ensures U16At(s, 0x0B) == SECTOR && s[0x0D] == g.spc && U16At(s, 0x0E) == g.reserved && s[0x10] == g.fats
  {
    var h := s[0x0B..0x11];
    assert h[0] == s[0x0B] && h[1] == s[0x0C] && h[2] == s[0x0D] && h[3] == s[0x0E] && h[4] == s[0x0F]
           && h[5] == s[0x10];
    ReadLe16(s, 0x0B, SECTOR);
    ReadLe16(s, 0x0E, g.reserved);
  }

  lemma GeometryOf(s: seq<Byte>, g: Geometry32)
    ensures Geometry(s, g.spc, g.reserved, g.fats, g.perFat, g.root)
         == if IsUsable(g) then Some(Fs(s, g.spc, g.reserved, g.root, g.reserved + g.fats * g.perFat)) else None
  {
  }

  function Slice(fs: Fs, start: nat, len: nat): Option<seq<Byte>> {
    if start + len > |fs.image| then None else Some(fs.image[start..start + len])
  }

  function ClusterSize(fs: Fs): nat {
    fs.spc * SECTOR
  }

  /** The bytes of a data cluster; checked 32-bit sector arithmetic, then a bounds check. */
  function ClusterBytes(fs: Fs, c: nat): (r: Option<seq<Byte>>)
    ensures r.Some? ==> |r.value| == ClusterSize(fs)
  {
    if c < 2 || (c - 2) * fs.spc >= U32 || fs.firstData + (c - 2) * fs.spc >= U32 then None
    else Slice(fs, (fs.firstData + (c - 2) * fs.spc) * SECTOR, ClusterSize(fs))
  }

  /** The FAT entry of a cluster, without its four reserved bits. */
  function NextCluster(fs: Fs, c: nat): Option<nat> {
    var ofs := c * 4;
    match Slice(fs, (fs.reserved + ofs / SECTOR) * SECTOR, SECTOR)
    case None => None
    case Some(sector) =>
      if ofs % SECTOR + 4 > SECTOR then None else Some(U32At(sector, ofs % SECTOR) % 0x1000_0000)
  }

  predicate DataCluster(c: nat) {
    2 <= c < END_OF_CHAIN
  }

  // ---- Chains ----

  /**
   A chain of readable clusters: each follows the one before in the FAT. `first` says whether the head is range-checked
   too.
   */
  predicate IsChain(fs: Fs, start: nat, cs: seq<nat>, first: bool) {
    && (cs != [] ==> cs[0] == start)
    && (forall i :: 0 <= i < |cs| ==> ClusterBytes(fs, cs[i]).Some?)
    && (forall i :: 0 <= i < |cs| && (first || i > 0) ==> DataCluster(cs[i]))
    && (forall i :: 0 <= i < |cs| - 1 ==> NextCluster(fs, cs[i]) == Some(cs[i + 1]))
  }

  predicate CanContinue(fs: Fs, c: nat, checked: bool) {
    (checked ==> DataCluster(c)) && ClusterBytes(fs, c).Some?
  }

  /** The chain cannot be extended: it stops at an end mark, an unusable cluster or an unreadable FAT entry. */
  predicate ChainEnds(fs: Fs, start: nat, cs: seq<nat>, first: bool) {
    if cs == [] then !CanContinue(fs, start, first)
    else
      match NextCluster(fs, cs[|cs| - 1])
      case None => true
      case Some(c) => !CanContinue(fs, c, true)
  }

  function Contents(fs: Fs, cs: seq<nat>): seq<Byte>
    requires forall i :: 0 <= i < |cs| ==> ClusterBytes(fs, cs[i]).Some?
  {
    if cs == [] then []
    else Contents(fs, cs[..|cs| - 1]) + ClusterBytes(fs, cs[|cs| - 1]).value
  }

  /** The FAT determines the chain: of two chains from the same cluster one is a prefix of the other. */
  lemma {:induction false} ChainsAgree(fs: Fs, start: nat, cs: seq<nat>, ds: seq<nat>, first: bool, k: nat)
    requires IsChain(fs, start, cs, first) && IsChain(fs, start, ds, first) && k < |cs| && k < |ds|
    ensures cs[k] == ds[k]
  {
    if k > 0 {
      ChainsAgree(fs, start, cs, ds, first, k - 1);
      assert NextCluster(fs, cs[k - 1]) == Some(cs[k - 1 + 1]) && NextCluster(fs, ds[k - 1]) == Some(ds[k - 1 + 1]);
    }
  }

  /** A finished chain is the longest one. */
  lemma FinishedChainLongest(fs: Fs, start: nat, cs: seq<nat>, ds: seq<nat>, first: bool)
    requires IsChain(fs, start, cs, first) && ChainEnds(fs, start, cs, first) && IsChain(fs, start, ds, first)
    ensures ds <= cs
  {
    forall k | 0 <= k < |ds| && k < |cs| ensures cs[k] == ds[k] { ChainsAgree(fs, start, cs, ds, first, k); }
    if |ds| > |cs| {
      if cs != [] { assert NextCluster(fs, ds[|cs| - 1]) == Some(ds[|cs| - 1 + 1]); }
      assert CanContinue(fs, ds[|cs|], cs != [] || first);
      assert false;
    }
  }

  function Min(x: nat, y: nat): nat { if x < y then x else y }

  // ---- read_file ----

  /** `dest[written..written + take].copy_from_slice(&bytes[..take])`. */
  method CopyInto(dest: array<Byte>, at: nat, bytes: seq<Byte>)
    requires at + |bytes| <= dest.Length
    modifies dest
    ensures dest[..] == old(dest[..at]) + bytes + old(dest[at + |bytes|..])
  {
    for i := 0 to |bytes|
      invariant dest[..at + i] == old(dest[..at]) + bytes[..i]
      invariant dest[at + i..] == old(dest[at + i..])
    {
      dest[at + i] := bytes[i];
    }
    assert bytes[..|bytes|] == bytes;
    assert dest[..] == dest[..at + |bytes|] + dest[at + |bytes|..];
  }

  lemma AppendChain(fs: Fs, start: nat, cs: seq<nat>, c: nat, first: bool)
    requires IsChain(fs, start, cs, first) && ClusterBytes(fs, c).Some? && (first || cs != [] ==> DataCluster(c))
    requires if cs == [] then c == start else NextCluster(fs, cs[|cs| - 1]) == Some(c)
    ensures IsChain(fs, start, cs + [c], first)
  {
    var ds := cs + [c];
    assert forall i :: 0 <= i < |cs| ==> ds[i] == cs[i];
    forall i | 0 <= i < |ds| - 1 ensures NextCluster(fs, ds[i]) == Some(ds[i + 1]) {
      if i < |cs| - 1 { assert ds[i + 1] == cs[i + 1]; }
    }
  }

  lemma AppendContents(fs: Fs, cs: seq<nat>, c: nat)
    requires (forall i :: 0 <= i < |cs| ==> ClusterBytes(fs, cs[i]).Some?) && ClusterBytes(fs, c).Some?
    ensures Contents(fs, cs + [c]) == Contents(fs, cs) + ClusterBytes(fs, c).value
  {
    assert (cs + [c])[..|cs|] == cs;
  }

  /** The buffer holds the first `written` bytes of the data, and its old bytes after them. */
  predicate Copied(now: seq<Byte>, before: seq<Byte>, data: seq<Byte>, written: nat) {
    written <= |data| && written <= |before| && now == data[..written] + before[written..]
  }

  lemma CopyMore(now: seq<Byte>, before: seq<Byte>, data: seq<Byte>, bytes: seq<Byte>, take: nat, now': seq<Byte>)
    requires Copied(now, before, data, |data|) && take <= |bytes| && |data| + take <= |before|
    requires now' == now[..|data|] + bytes[..take] + now[|data| + take..]
    ensures Copied(now', before, data + bytes, |data| + take)
  {
  }

  /** Copies the first `take` bytes of a cluster behind what is already there. */
  method CopyCluster(dest: array<Byte>, at: nat, bytes: seq<Byte>, take: nat, ghost before: seq<Byte>,
                     ghost data: seq<Byte>)
    requires at == |data| && take <= |bytes| && at + take <= dest.Length == |before|
             && Copied(dest[..], before, data, at)
    modifies dest
    ensures Copied(dest[..], before, data + bytes, at + take)
  {
    ghost var now := dest[..];
    CopyInto(dest, at, bytes[..take]);
    CopyMore(now, before, data, bytes, take, dest[..]);
  }

  /** The clusters read so far are a chain with these contents, and `cluster` is the one the FAT names next. */
  ghost predicate Walked(fs: Fs, start: nat, cs: seq<nat>, data: seq<Byte>, cluster: nat) {
    && IsChain(fs, start, cs, true) && data == Contents(fs, cs)
    && if cs == [] then cluster == start else NextCluster(fs, cs[|cs| - 1]) == Some(cluster)
  }

  /** What a finished copy has read. */
  ghost predicate ReadResult(fs: Fs, start: nat, total: nat, cs: seq<nat>, data: seq<Byte>, written: nat) {
    && IsChain(fs, start, cs, true) && data == Contents(fs, cs)
    && written == Min(total, |data|) && (written < total ==> ChainEnds(fs, start, cs, true))
  }

  /** One more cluster read. */
  ghost predicate Extended(fs: Fs, start: nat, cs: seq<nat>, data: seq<Byte>, cluster: nat) {
    cs != [] && cs[|cs| - 1] == cluster && IsChain(fs, start, cs, true) && data == Contents(fs, cs)
  }

  lemma WalkOn(fs: Fs, start: nat, cs: seq<nat>, data: seq<Byte>, cluster: nat)
    requires Walked(fs, start, cs, data, cluster) && DataCluster(cluster) && ClusterBytes(fs, cluster).Some?
    ensures Extended(fs, start, cs + [cluster], data + ClusterBytes(fs, cluster).value, cluster)
  {
    AppendChain(fs, start, cs, cluster, true);
    AppendContents(fs, cs, cluster);
  }

  lemma WalkFull(fs: Fs, start: nat, total: nat, cs: seq<nat>, data: seq<Byte>, cluster: nat)
    requires Extended(fs, start, cs, data, cluster) && |data| >= total
    ensures ReadResult(fs, start, total, cs, data, total)
  {
  }

  lemma WalkNext(fs: Fs, start: nat, total: nat, cs: seq<nat>, data: seq<Byte>, cluster: nat)
    requires Extended(fs, start, cs, data, cluster) && |data| <= total
    ensures match NextCluster(fs, cluster)
            case None => ReadResult(fs, start, total, cs, data, |data|)
            case Some(next) => Walked(fs, start, cs, data, next)
  {
  }

  lemma WalkUnreadable(fs: Fs, start: nat, total: nat, cs: seq<nat>, data: seq<Byte>, cluster: nat)
    requires Walked(fs, start, cs, data, cluster) && ClusterBytes(fs, cluster) == None && |data| <= total
    ensures ReadResult(fs, start, total, cs, data, |data|)
  {
  }

  lemma WalkStops(fs: Fs, start: nat, total: nat, cs: seq<nat>, data: seq<Byte>, cluster: nat)
    requires Walked(fs, start, cs, data, cluster) && |data| <= total && (!DataCluster(cluster) || |data| == total)
    ensures ReadResult(fs, start, total, cs, data, |data|)
  {
  }

  /**
   Copies the file's bytes: the chain's contents, cut at the file length and the buffer, and nothing else is
   written.  The count grows by at least one byte per cluster, so a cyclic FAT does not loop forever.
   */
  method ReadFile(fs: Fs, facts: Facts, dest: array<Byte>)
    returns (written: nat, ghost cs: seq<nat>, ghost data: seq<Byte>)
    requires Mounted(fs)
    modifies dest
    ensures ReadResult(fs, facts.firstCluster, Min(facts.len, dest.Length), cs, data, written)
    ensures Copied(dest[..], old(dest[..]), data, written)
  {
    var total := Min(facts.len, dest.Length);
    var cluster := facts.firstCluster;
    written := 0;
    cs, data := [], [];
    ghost var before := dest[..];
    while written < total && DataCluster(cluster)
      invariant Walked(fs, facts.firstCluster, cs, data, cluster)
      invariant written == |data| <= total && Copied(dest[..], before, data, written)
      decreases total - written
    {
      var next;
      written, next, cs, data := ReadCluster(fs, facts.firstCluster, total, dest, written, cluster, before, cs, data);
      if next == None {
        return;
      }
      cluster := next.value;
    }
    WalkStops(fs, facts.firstCluster, total, cs, data, cluster);
  }

  /** One round of the copy loop; `None` when the loop is left. */
  method ReadCluster(fs: Fs, ghost start: nat, total: nat, dest: array<Byte>, written0: nat, cluster: nat,
                     ghost before: seq<Byte>, ghost cs0: seq<nat>, ghost data0: seq<Byte>)
    returns (written: nat, next: Option<nat>, ghost cs: seq<nat>, ghost data: seq<Byte>)
    requires Mounted(fs) && DataCluster(cluster) && Walked(fs, start, cs0, data0, cluster)
    requires written0 == |data0| < total <= dest.Length == |before| && Copied(dest[..], before, data0, written0)
    modifies dest
    ensures Copied(dest[..], before, data, written)
    ensures next == None ==> ReadResult(fs, start, total, cs, data, written)
    ensures next.Some? ==> written0 < written == |data| <= total && Walked(fs, start, cs, data, next.value)
  {
    written, next, cs, data := written0, None, cs0, data0;
    var bytes := ClusterBytes(fs, cluster);
    if bytes == None {
      WalkUnreadable(fs, start, total, cs, data, cluster);
      return;
    }
    WalkOn(fs, start, cs, data, cluster);
    var take := Min(total - written, |bytes.value|);
    CopyCluster(dest, written, bytes.value, take, before, data);
    written := written + take;
    cs, data := cs + [cluster], data + bytes.value;
    if written == total {
      WalkFull(fs, start, total, cs, data, cluster);
      return;
    }
    WalkNext(fs, start, total, cs, data, cluster);
    next := NextCluster(fs, cluster);
  }
}
