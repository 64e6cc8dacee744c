/** From the bytes of a volume to the bytes of a file: mounting, looking a name up and reading, all together. */
module FatVolume {
  import opened Options
  import opened Fat32
  import opened FatDirectory
  import opened FatLayout

  lemma EntriesConcat(a: seq<Byte>, b: seq<Byte>, n: nat)
    requires |a| == 32 * n
    ensures EntriesIn(a + b) == EntriesIn(a) + EntriesIn(b)
  {
    var es, fs := EntriesIn(a + b), EntriesIn(a) + EntriesIn(b);
    assert |es| == |fs| == n + |b| / 32;
    forall i | 0 <= i < |es| ensures es[i] == fs[i] {
      if i < n {
        assert (a + b)[32 * i..32 * i + 32] == a[32 * i..32 * i + 32];
      } else {
        assert (a + b)[32 * i..32 * i + 32] == b[32 * (i - n)..32 * (i - n) + 32];
      }
    }
  }

  /** A chain of n clusters holds 16 entries a sector. */
  lemma {:induction false} WholeEntries(fs: Fs, xs: seq<Cell>)
    requires CellsRead(fs, xs)
    ensures |Data(xs)| == 32 * (16 * fs.spc * |xs|)
  {
    if xs != [] {
      var x := xs[|xs| - 1];
      WholeEntries(fs, xs[..|xs| - 1]);
      assert ClusterBytes(fs, x.cluster) == Some(x.bytes);
      OneMore(fs.spc, |xs|, |Data(xs[..|xs| - 1])|, |x.bytes|);
    }
  }

  lemma OneMore(spc: nat, n: nat, before: nat, more: nat)
    requires n > 0 && before == 32 * (16 * spc * (n - 1)) && more == spc * SECTOR
    ensures before + more == 32 * (16 * spc * n)
  {
    assert 16 * spc * n == 16 * spc * (n - 1) + 16 * spc;
  }

  /** The entries along a directory's chain are its stored bytes, 32 at a time. */
  lemma {:induction false} StoredEntries(fs: Fs, xs: seq<Cell>)
    requires CellsRead(fs, xs)
    ensures DirEntries(fs, Clusters(xs)) == EntriesIn(Data(xs))
  {
    if xs != [] {
      var init, x := xs[..|xs| - 1], xs[|xs| - 1];
      StoredEntries(fs, init);
      WholeEntries(fs, init);
      EntriesConcat(Data(init), x.bytes, 16 * fs.spc * |init|);
      assert Clusters(xs)[..|xs| - 1] == Clusters(init);
    }
  }

  /** A file's chain ends every search. */
  lemma SearchInFile(fs: Fs, xs: seq<Cell>, search: seq<Byte>)
    requires CellsRead(fs, xs) && xs != [] && Linked(xs)
    ensures SearchEnds(fs, xs[0].cluster, Clusters(xs), search)
  {
    FileChain(fs, xs);
  }

  /** Entry k of a stored directory is the first hit, and names a file of this start, length and attributes. */
  ghost predicate Names(dir: seq<Cell>, search: seq<Byte>, k: nat, first: nat, len: nat, attributes: Byte) {
    var es := EntriesIn(Data(dir));
    && FirstHit(es, k, search) && first < U32 && len < U32
    && exists e :: es[k] == WriteFacts(e, first, len, attributes)
  }

  /**
   On a formatted volume that holds a root directory and a file the directory names first under the name searched for,
   the lookup finds the file and reading it copies its bytes: the first min(length, buffer, stored) of them.
   */
  method MountFindRead(s: seq<Byte>, search: seq<Byte>, dest: array<Byte>, ghost t: seq<Byte>, ghost g: Geometry32,
                       ghost dir: seq<Cell>, ghost file: seq<Cell>, ghost k: nat, ghost len: nat,
                       ghost attributes: Byte)
    returns (facts: Option<Facts>, written: nat)
    requires |t| >= SECTOR && InFields(g) && IsUsable(g) && s == Formatted(t, g)
    requires dir != [] && GoodCells(|s|, g, dir) && Linked(dir) && HoldsFile(s, g, dir) && g.root == dir[0].cluster
    requires file != [] && GoodCells(|s|, g, file) && Linked(file) && HoldsFile(s, g, file)
    requires Names(dir, search, k, file[0].cluster, len, attributes)
    modifies dest
    ensures facts == Some(Facts(file[0].cluster, len, attributes / 16 % 2 == 1))
    ensures written == Min(Min(len, dest.Length), |Data(file)|)
    ensures dest[..] == Data(file)[..written] + old(dest[written..])
  {
    Mounts(s, t, g);
    var fs := Parse(s).value;
    FileRead(fs, s, g, dir);
    facts := FindStored(fs, search, dir, k, file[0].cluster, len, attributes);
    written := MountAndRead(s, facts.value, dest, t, g, file);
  }

  method FindStored(fs: Fs, search: seq<Byte>, ghost dir: seq<Cell>, ghost k: nat, ghost first: nat, ghost len: nat,
                    ghost attributes: Byte)
    returns (facts: Option<Facts>)
    requires CellsRead(fs, dir) && dir != [] && Linked(dir) && fs.root == dir[0].cluster
    requires Names(dir, search, k, first, len, attributes)
    ensures facts == Some(Facts(first, len, attributes / 16 % 2 == 1))
  {
    SearchInFile(fs, dir, search);
    StoredEntries(fs, dir);
    facts := FindInDir(fs, fs.root, search, Clusters(dir));
    ghost var e :| EntriesIn(Data(dir))[k] == WriteFacts(e, first, len, attributes);
    FoundReadsBack(EntriesIn(Data(dir)), search, facts, k, e, first, len, attributes);
  }
}
