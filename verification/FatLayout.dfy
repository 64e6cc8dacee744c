/**
 Where a FAT32 image keeps a file: cluster contents and FAT entries written at their byte positions are what mounting
 the image and reading the file gives back.
 */
module FatLayout {
  import opened Options
  import opened Fat32

  /** The first sector behind the reserved sectors and all FATs. */
  function DataStart(g: Geometry32): nat {
    g.reserved + g.fats * g.perFat
  }

  /** The byte position of a cluster. */
  function DataPos(g: Geometry32, c: nat): nat
    requires c >= 2
  {
    512 * (DataStart(g) + (c - 2) * g.spc)
  }

  /** The byte position of a cluster's entry in the first FAT. */
  function FatPos(g: Geometry32, c: nat): nat {
    512 * g.reserved + 4 * c
  }

  /** A cluster of a volume of n bytes: its entry lies in the first FAT, and its sectors on the volume. */
  predicate OnVolume(n: nat, g: Geometry32, c: nat) {
    && 2 <= c < 0x0FFF_FFF8 && 4 * c + 4 <= 512 * g.perFat
    && DataStart(g) + (c - 2) * g.spc < U32 && DataPos(g, c) + 512 * g.spc <= n
  }

  /** One cluster of a file as it is stored: its number, its FAT entry and its bytes. */
  datatype Cell = Cell(cluster: nat, entry: nat, bytes: seq<Byte>)

  predicate GoodCell(n: nat, g: Geometry32, x: Cell) {
    OnVolume(n, g, x.cluster) && x.entry < U32 && |x.bytes| == 512 * g.spc
  }

  /** The low 28 bits of each entry name the next cluster, those of the last one are an end mark. */
  predicate Linked(xs: seq<Cell>) {
    && (forall i :: 0 <= i < |xs| - 1 ==> xs[i].entry % 0x1000_0000 == xs[i + 1].cluster)
    && (xs != [] ==> xs[|xs| - 1].entry % 0x1000_0000 >= 0x0FFF_FFF8)
  }

  /** Cells on a volume of n bytes, all in different clusters. */
  predicate GoodCells(n: nat, g: Geometry32, xs: seq<Cell>) {
    && (forall i :: 0 <= i < |xs| ==> GoodCell(n, g, xs[i]))
    && forall i, j :: 0 <= i < j < |xs| ==> xs[i].cluster != xs[j].cluster
  }

  /** All bytes of a file's clusters, in order. */
  function Data(xs: seq<Cell>): seq<Byte> {
    if xs == [] then [] else Data(xs[..|xs| - 1]) + xs[|xs| - 1].bytes
  }

  // ---- Writing ----

  function WriteCell(s: seq<Byte>, g: Geometry32, x: Cell): (r: seq<Byte>)
    requires GoodCell(|s|, g, x) && g.fats > 0
    ensures |r| == |s|
  {
    FatBelowData(g, x.cluster, x.cluster);
    Overwrite(Overwrite(s, FatPos(g, x.cluster), Le32(x.entry)), DataPos(g, x.cluster), x.bytes)
  }

  /** Every FAT entry lies in front of all data. */
  lemma FatBelowData(g: Geometry32, c: nat, d: nat)
    requires g.fats > 0 && 4 * c + 4 <= 512 * g.perFat && d >= 2
    ensures 512 * g.reserved <= FatPos(g, c) && FatPos(g, c) + 4 <= DataPos(g, d)
  {
    Products(g.fats, g.perFat);
    Products(d - 2, g.spc);
  }

  lemma Products(a: nat, b: nat)
    ensures a * b >= 0 && (a > 0 ==> b <= a * b)
  {
    if a > 0 { assert a * b == (a - 1) * b + b; }
  }

  function WriteFile(s: seq<Byte>, g: Geometry32, xs: seq<Cell>): (r: seq<Byte>)
    requires g.fats > 0 && forall i :: 0 <= i < |xs| ==> GoodCell(|s|, g, xs[i])
    ensures |r| == |s|
  {
    if xs == [] then s else WriteCell(WriteFile(s, g, xs[..|xs| - 1]), g, xs[|xs| - 1])
  }

  // ---- What the image then holds ----

  predicate HoldsCell(s: seq<Byte>, g: Geometry32, x: Cell)
    requires GoodCell(|s|, g, x) && g.fats > 0
  {
    FatBelowData(g, x.cluster, x.cluster);
    && s[FatPos(g, x.cluster)..FatPos(g, x.cluster) + 4] == Le32(x.entry)
    && s[DataPos(g, x.cluster)..DataPos(g, x.cluster) + 512 * g.spc] == x.bytes
  }

  /** A block of bytes keeps its contents when something is written elsewhere. */
  lemma KeepsBlock(s: seq<Byte>, o: nat, b: seq<Byte>, p: nat, n: nat)
    requires o + |b| <= |s| && p + n <= |s| && (p + n <= o || o + |b| <= p)
    ensures Overwrite(s, o, b)[p..p + n] == s[p..p + n]
  {
  }

  /** Different clusters lie apart. */
  lemma ClustersApart(g: Geometry32, c: nat, d: nat)
    requires 2 <= c < d
    ensures DataPos(g, c) + 512 * g.spc <= DataPos(g, d)
  {
    assert (d - 2) * g.spc == (c - 2) * g.spc + g.spc + (d - c - 1) * g.spc;
    Products(d - c - 1, g.spc);
  }

  lemma WrittenCell(s: seq<Byte>, g: Geometry32, x: Cell)
    requires GoodCell(|s|, g, x) && g.fats > 0
    ensures HoldsCell(WriteCell(s, g, x), g, x)
  {
    FatBelowData(g, x.cluster, x.cluster);
    var t := Overwrite(s, FatPos(g, x.cluster), Le32(x.entry));
    KeepsBlock(t, DataPos(g, x.cluster), x.bytes, FatPos(g, x.cluster), 4);
  }

  /** Writing a cell leaves the cells of other clusters alone. */
  lemma OtherCell(s: seq<Byte>, g: Geometry32, x: Cell, y: Cell)
    requires GoodCell(|s|, g, x) && GoodCell(|s|, g, y) && g.fats > 0 && x.cluster != y.cluster && HoldsCell(s, g, y)
    ensures HoldsCell(WriteCell(s, g, x), g, y)
  {
    var c, d := x.cluster, y.cluster;
    FatBelowData(g, c, d);
    FatBelowData(g, d, c);
    FatBelowData(g, c, c);
    FatBelowData(g, d, d);
    if c < d { ClustersApart(g, c, d); } else { ClustersApart(g, d, c); }
    var t := Overwrite(s, FatPos(g, c), Le32(x.entry));
    KeepsBlock(s, FatPos(g, c), Le32(x.entry), FatPos(g, d), 4);
    KeepsBlock(s, FatPos(g, c), Le32(x.entry), DataPos(g, d), 512 * g.spc);
    KeepsBlock(t, DataPos(g, c), x.bytes, FatPos(g, d), 4);
    KeepsBlock(t, DataPos(g, c), x.bytes, DataPos(g, d), 512 * g.spc);
  }

  predicate HoldsFile(s: seq<Byte>, g: Geometry32, xs: seq<Cell>)
    requires g.fats > 0 && GoodCells(|s|, g, xs)
  {
    forall i :: 0 <= i < |xs| ==> HoldsCell(s, g, xs[i])
  }

  /** What has been written is there. */
  lemma {:induction false} WrittenFile(s: seq<Byte>, g: Geometry32, xs: seq<Cell>)
    requires g.fats > 0 && GoodCells(|s|, g, xs)
    ensures HoldsFile(WriteFile(s, g, xs), g, xs)
    decreases |xs|
  {
    if xs != [] {
      var init, x := xs[..|xs| - 1], xs[|xs| - 1];
      var t := WriteFile(s, g, init);
      WrittenFile(s, g, init);
      WrittenCell(t, g, x);
      forall i | 0 <= i < |init| ensures HoldsCell(WriteCell(t, g, x), g, xs[i]) {
        assert HoldsCell(t, g, init[i]);
        OtherCell(t, g, x, xs[i]);
      }
    }
  }

  /** Formatting touches the first sector only. */
  lemma FormattedKeeps(s: seq<Byte>, g: Geometry32, p: nat, n: nat)
    requires |s| >= SECTOR && InFields(g) && SECTOR <= p && p + n <= |s|
    ensures |Formatted(s, g)| == |s| && Formatted(s, g)[p..p + n] == s[p..p + n]
  {
  }

  lemma FormattedHolds(s: seq<Byte>, g: Geometry32, xs: seq<Cell>)
    requires |s| >= SECTOR && InFields(g) && IsUsable(g) && GoodCells(|s|, g, xs) && HoldsFile(s, g, xs)
    ensures |Formatted(s, g)| == |s| && HoldsFile(Formatted(s, g), g, xs)
  {
    FormattedKeeps(s, g, SECTOR, 0);
    forall i | 0 <= i < |xs| ensures HoldsCell(Formatted(s, g), g, xs[i]) {
      var c := xs[i].cluster;
      FatBelowData(g, c, c);
      assert HoldsCell(s, g, xs[i]);
      FormattedKeeps(s, g, FatPos(g, c), 4);
      FormattedKeeps(s, g, DataPos(g, c), 512 * g.spc);
    }
  }

  /** An image onto which a file is written and which is then formatted. */
  function Stored(t: seq<Byte>, g: Geometry32, xs: seq<Cell>): (s: seq<Byte>)
    requires |t| >= SECTOR && InFields(g) && IsUsable(g) && GoodCells(|t|, g, xs)
  {
    Formatted(WriteFile(t, g, xs), g)
  }

  lemma StoredHolds(t: seq<Byte>, g: Geometry32, xs: seq<Cell>)
    requires |t| >= SECTOR && InFields(g) && IsUsable(g) && GoodCells(|t|, g, xs)
    ensures |Stored(t, g, xs)| == |t| && HoldsFile(Stored(t, g, xs), g, xs)
  {
    WrittenFile(t, g, xs);
    FormattedHolds(WriteFile(t, g, xs), g, xs);
  }

  // ---- Reading ----

  function Mount(s: seq<Byte>, g: Geometry32): Fs {
    Fs(s, g.spc, g.reserved, g.root, DataStart(g))
  }

  lemma CellBytes(s: seq<Byte>, g: Geometry32, x: Cell)
    requires GoodCell(|s|, g, x) && g.fats > 0 && HoldsCell(s, g, x)
    ensures ClusterBytes(Mount(s, g), x.cluster) == Some(x.bytes)
  {
    assert (DataStart(g) + (x.cluster - 2) * g.spc) * 512 == DataPos(g, x.cluster);
  }

  lemma SectorOf(c: nat)
    ensures 512 * (4 * c / 512) + 4 * c % 512 == 4 * c && 4 * c % 512 <= 508
  {
    assert 4 * c / 512 == c / 128 && 4 * c % 512 == 4 * (c % 128);
  }

  /** The FAT sector with a cluster's entry lies in front of the cluster. */
  lemma FatSector(n: nat, g: Geometry32, c: nat)
    requires OnVolume(n, g, c) && g.fats > 0
    ensures 512 * (g.reserved + 4 * c / 512) + 512 <= n
  {
    SectorOf(c);
    Products(g.fats, g.perFat);
    Products(c - 2, g.spc);
    assert 4 * c / 512 + 1 <= g.perFat;
  }

  lemma SubSlice(s: seq<Byte>, a: nat, o: nat)
    requires a + 512 <= |s| && o + 4 <= 512
    ensures s[a..a + 512][o..o + 4] == s[a + o..a + o + 4]
  {
    var t := s[a..a + 512];
    assert t[o] == s[a + o] && t[o + 1] == s[a + o + 1] && t[o + 2] == s[a + o + 2] && t[o + 3] == s[a + o + 3];
  }

  /** Reading four bytes of a FAT sector. */
  lemma EntryInSector(s: seq<Byte>, start: nat, ofs: nat, v: nat)
    requires start + 512 <= |s| && ofs + 4 <= 512 && v < U32 && s[start + ofs..start + ofs + 4] == Le32(v)
    ensures U32At(s[start..start + 512], ofs) == v
  {
    SubSlice(s, start, ofs);
    ReadLe32(s[start..start + 512], ofs, v);
  }

  lemma NextFrom(fs: Fs, c: nat, lba: nat, ofs: nat, v: nat)
    requires lba == fs.reserved + c * 4 / 512 && ofs == c * 4 % 512 && ofs + 4 <= 512
    requires lba * 512 + 512 <= |fs.image| && U32At(fs.image[lba * 512..lba * 512 + 512], ofs) == v
    ensures NextCluster(fs, c) == Some(v % 0x1000_0000)
  {
  }

  lemma CellNext(s: seq<Byte>, g: Geometry32, x: Cell)
    requires GoodCell(|s|, g, x) && g.fats > 0 && HoldsCell(s, g, x)
    ensures NextCluster(Mount(s, g), x.cluster) == Some(x.entry % 0x1000_0000)
  {
    var lba, ofs := g.reserved + x.cluster * 4 / 512, x.cluster * 4 % 512;
    SectorOf(x.cluster);
    FatSector(|s|, g, x.cluster);
    assert lba * 512 + ofs == FatPos(g, x.cluster);
    EntryInSector(s, lba * 512, ofs, x.entry);
    NextFrom(Mount(s, g), x.cluster, lba, ofs, x.entry);
  }

  function Clusters(xs: seq<Cell>): (cs: seq<nat>)
    ensures |cs| == |xs| && forall i :: 0 <= i < |xs| ==> cs[i] == xs[i].cluster
  {
    seq(|xs|, i requires 0 <= i < |xs| => xs[i].cluster)
  }

  /** The walker reads every cell's bytes and entry. */
  predicate CellsRead(fs: Fs, xs: seq<Cell>) {
    && (forall i :: 0 <= i < |xs| ==> ClusterBytes(fs, xs[i].cluster) == Some(xs[i].bytes))
    && (forall i :: 0 <= i < |xs| ==> NextCluster(fs, xs[i].cluster) == Some(xs[i].entry % 0x1000_0000))
    && (forall i :: 0 <= i < |xs| ==> DataCluster(xs[i].cluster))
  }

  lemma FileRead(fs: Fs, s: seq<Byte>, g: Geometry32, xs: seq<Cell>)
    requires fs == Mount(s, g) && g.fats > 0 && GoodCells(|s|, g, xs) && HoldsFile(s, g, xs)
    ensures CellsRead(fs, xs)
  {
    forall i | 0 <= i < |xs|
      ensures ClusterBytes(fs, xs[i].cluster) == Some(xs[i].bytes)
      ensures NextCluster(fs, xs[i].cluster) == Some(xs[i].entry % 0x1000_0000)
    {
      assert HoldsCell(s, g, xs[i]);
      CellBytes(s, g, xs[i]);
      CellNext(s, g, xs[i]);
    }
  }

  /** The cells are the whole chain from their first cluster. */
  lemma FileChain(fs: Fs, xs: seq<Cell>)
    requires CellsRead(fs, xs) && xs != [] && Linked(xs)
    ensures IsChain(fs, xs[0].cluster, Clusters(xs), true) && ChainEnds(fs, xs[0].cluster, Clusters(xs), true)
  {
    ChainLinks(fs, xs);
    ChainLast(fs, xs, xs[|xs| - 1]);
  }

  lemma ChainLinks(fs: Fs, xs: seq<Cell>)
    requires CellsRead(fs, xs) && Linked(xs)
    ensures var cs := Clusters(xs); forall i :: 0 <= i < |cs| - 1 ==> NextCluster(fs, cs[i]) == Some(cs[i + 1])
  {
  }

  lemma ChainLast(fs: Fs, xs: seq<Cell>, x: Cell)
    requires CellsRead(fs, xs) && xs != [] && Linked(xs) && x == xs[|xs| - 1]
    ensures ChainEnds(fs, xs[0].cluster, Clusters(xs), true)
  {
    assert NextCluster(fs, x.cluster) == Some(x.entry % 0x1000_0000) && !DataCluster(x.entry % 0x1000_0000);
  }

  lemma {:induction false} FileContents(fs: Fs, xs: seq<Cell>)
    requires CellsRead(fs, xs)
    ensures Contents(fs, Clusters(xs)) == Data(xs)
  {
    if xs != [] {
      FileContents(fs, xs[..|xs| - 1]);
      assert Clusters(xs)[..|xs| - 1] == Clusters(xs[..|xs| - 1]);
    }
  }

  lemma {:induction false} ContentsPrefix(fs: Fs, cs: seq<nat>, k: nat)
    requires k <= |cs| && forall i :: 0 <= i < |cs| ==> ClusterBytes(fs, cs[i]).Some?
    ensures Contents(fs, cs[..k]) <= Contents(fs, cs)
    decreases |cs|
  {
    if k < |cs| {
      ContentsPrefix(fs, cs[..|cs| - 1], k);
      assert cs[..|cs| - 1][..k] == cs[..k];
    } else {
      assert cs[..k] == cs;
    }
  }

  /** Whatever a finished copy read is the beginning of the file. */
  lemma ReadIsPrefix(fs: Fs, start: nat, total: nat, cs: seq<nat>, data: seq<Byte>, written: nat, ds: seq<nat>)
    requires ReadResult(fs, start, total, cs, data, written)
    requires IsChain(fs, start, ds, true) && ChainEnds(fs, start, ds, true)
    ensures written == Min(total, |Contents(fs, ds)|) && data[..written] == Contents(fs, ds)[..written]
  {
    FinishedChainLongest(fs, start, ds, cs, true);
    ContentsPrefix(fs, ds, |cs|);
    assert ds[..|cs|] == cs;
    if written < total {
      FinishedChainLongest(fs, start, cs, ds, true);
      assert cs == ds;
    }
  }

  lemma ReadBack(fs: Fs, xs: seq<Cell>, total: nat, cs: seq<nat>, data: seq<Byte>, written: nat)
    requires CellsRead(fs, xs) && xs != [] && Linked(xs) && ReadResult(fs, xs[0].cluster, total, cs, data, written)
    ensures written == Min(total, |Data(xs)|) && data[..written] == Data(xs)[..written]
  {
    FileChain(fs, xs);
    FileContents(fs, xs);
    ReadIsPrefix(fs, xs[0].cluster, total, cs, data, written, Clusters(xs));
  }

  lemma Mounts(s: seq<Byte>, t: seq<Byte>, g: Geometry32)
    requires |t| >= SECTOR && InFields(g) && IsUsable(g) && s == Formatted(t, g)
    ensures Parse(s) == Some(Mount(s, g))
  {
    ParseReadsBack(t, g);
  }

  /**
   Mounting an image and reading a file gives back what its cells hold: the first min(length, buffer, stored) bytes
   reach the buffer, and nothing else in it changes.
   */
  method MountAndRead(s: seq<Byte>, facts: Facts, dest: array<Byte>, ghost t: seq<Byte>, ghost g: Geometry32,
                      ghost xs: seq<Cell>)
    returns (written: nat)
    requires |t| >= SECTOR && InFields(g) && IsUsable(g) && s == Formatted(t, g)
    requires xs != [] && GoodCells(|s|, g, xs) && Linked(xs) && HoldsFile(s, g, xs)
    requires facts.firstCluster == xs[0].cluster
    modifies dest
    ensures written == Min(Min(facts.len, dest.Length), |Data(xs)|)
    ensures dest[..] == Data(xs)[..written] + old(dest[written..])
  {
    Mounts(s, t, g);
    var fs := Parse(s).value;
    ghost var cs, data;
    written, cs, data := ReadFile(fs, facts, dest);
    FileRead(fs, s, g, xs);
    ReadBack(fs, xs, Min(facts.len, dest.Length), cs, data, written);
  }
}
