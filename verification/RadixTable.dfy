/**
 Four-level page tables kept in raw memory words, over an abstract entry format.

 `W` is the machine word (entries and physical addresses alike), `I` the index type of one table, `T` what
 the hardware reports for a mapped page.  A table is named by the path of indices that leads to it from the
 root, so "the tables form a tree" is the statement that different paths lead to different frames.
 */
module RadixTable {
  import opened Options

  /** Table memory: the word stored at an index of a frame. */
  type Memory<!W, !I> = (W, I) -> W

  /**
   An entry format.  Software tests, writes and re-reads table entries with `present`, `tableEntry` and
   `nextTable`; the hardware walker reads entries of levels 0 to 2 with `hwTable` and of level 3 with `hwPage`.
   */
  datatype Format<!W, !T> = Format(
    zero: W,
    isFrame: W -> bool,
    present: W -> bool,
    tableEntry: W -> W,
    nextTable: W -> W,
    hwTable: W -> Option<W>,
    hwPage: W -> Option<T>)

  /** What the builder needs of a format: zero is invalid to everyone, and a written table entry reads back. */
  ghost predicate Lawful<W(!new), T(!new)>(c: Format<W, T>) {
    && !c.present(c.zero) && c.hwTable(c.zero) == None && c.hwPage(c.zero) == None
    && forall f :: c.isFrame(f) ==>
         && c.present(c.tableEntry(f))
         && c.nextTable(c.tableEntry(f)) == f
         && c.hwTable(c.tableEntry(f)) == Some(f)
  }

  function Write<W(==), I(==)>(mem: Memory<W, I>, frame: W, idx: I, word: W): Memory<W, I> {
    (a, i) => if a == frame && i == idx then word else mem(a, i)
  }

  function Clear<W(==), I>(mem: Memory<W, I>, frame: W, zero: W): Memory<W, I> {
    (a, i) => if a == frame then zero else mem(a, i)
  }

  /** The table reached from the root along a path, as the hardware walker finds it. */
  function TableAt<W, I, T>(c: Format<W, T>, mem: Memory<W, I>, root: W, path: seq<I>): Option<W> {
    if path == [] then Some(root)
    else
      match TableAt(c, mem, root, path[..|path| - 1])
      case None => None
      case Some(t) => c.hwTable(mem(t, path[|path| - 1]))
  }

  /** The hardware's four-level walk: three table lookups, then a page entry. */
  function Walk<W, I, T>(c: Format<W, T>, mem: Memory<W, I>, root: W, path: seq<I>): Option<T>
    requires |path| == 4
  {
    match TableAt(c, mem, root, path[..3])
    case None => None
    case Some(t) => c.hwPage(mem(t, path[3]))
  }

  /**
   Well-formed tables: every reachable table is owned, no two paths share one, and software reads what hardware reads.
   */
  ghost predicate Tree<W(!new), I(!new), T(!new)>(c: Format<W, T>, mem: Memory<W, I>, root: W, used: set<W>) {
    && (forall p: seq<I> :: |p| <= 3 && TableAt(c, mem, root, p).Some? ==> TableAt(c, mem, root, p).value in used)
    && (forall p: seq<I>, q: seq<I> ::
          |p| <= 3 && |q| <= 3 && TableAt(c, mem, root, p).Some? && TableAt(c, mem, root, p) == TableAt(c, mem, root, q)
          ==> p == q)
    && (forall p: seq<I>, i: I {:trigger TableAt(c, mem, root, p), TableAt(c, mem, root, p + [i])} ::
          |p| <= 2 && TableAt(c, mem, root, p).Some? ==>
            Agrees(c, mem(TableAt(c, mem, root, p).value, i)))
  }

  ghost predicate Agrees<W, T>(c: Format<W, T>, e: W) {
    c.hwTable(e) == if c.present(e) then Some(c.nextTable(e)) else None
  }

  lemma Extend<W, I, T>(c: Format<W, T>, mem: Memory<W, I>, root: W, p: seq<I>, i: I)
    ensures TableAt(c, mem, root, p + [i])
         == (match TableAt(c, mem, root, p) case None => None case Some(t) => c.hwTable(mem(t, i)))
  {
    assert (p + [i])[..|p|] == p;
  }

  /** A cleared root frame alone is a well-formed tree that maps nothing. */
  lemma {:induction false} EmptyRoot<W(!new), I(!new), T(!new)>(c: Format<W, T>, mem: Memory<W, I>, root: W)
    requires Lawful(c)
    requires forall i :: mem(root, i) == c.zero
    ensures Tree(c, mem, root, {root})
    ensures forall path: seq<I> :: |path| == 4 ==> Walk(c, mem, root, path) == None
  {
    forall p: seq<I> ensures TableAt(c, mem, root, p) == if p == [] then Some(root) else None {
      EmptyRootPath(c, mem, root, p);
    }
    assert Agrees(c, c.zero);
    forall p: seq<I>, i: I | |p| <= 2 && TableAt(c, mem, root, p).Some?
      ensures Agrees(c, mem(TableAt(c, mem, root, p).value, i))
    {
      assert mem(root, i) == c.zero;
    }
  }

  lemma {:induction false} EmptyRootPath<W(!new), I(!new), T(!new)>(c: Format<W, T>, mem: Memory<W, I>, root: W,
                                                                    p: seq<I>)
    requires Lawful(c)
    requires forall i :: mem(root, i) == c.zero
    ensures TableAt(c, mem, root, p) == if p == [] then Some(root) else None
    decreases |p|
  {
    if p != [] { EmptyRootPath(c, mem, root, p[..|p| - 1]); }
  }

  /** Memory after allocating `child`, zeroing it and linking it at index i of table t. */
  function Linked<W(==), I(==), T>(c: Format<W, T>, mem: Memory<W, I>, t: W, i: I, child: W): Memory<W, I> {
    Write(Clear(mem, child, c.zero), t, i, c.tableEntry(child))
  }

  lemma {:induction false} LinkPath<W(!new), I(!new), T(!new)>(
    c: Format<W, T>, mem: Memory<W, I>, root: W, used: set<W>, p: seq<I>, t: W, i: I, child: W, q: seq<I>)
    requires Lawful(c) && Tree(c, mem, root, used)
    requires |p| <= 2 && TableAt(c, mem, root, p) == Some(t) && !c.present(mem(t, i))
    requires c.isFrame(child) && child !in used && |q| <= 3
    ensures TableAt(c, Linked(c, mem, t, i, child), root, q)
         == if q == p + [i] then Some(child) else TableAt(c, mem, root, q)
    decreases |q|
  {
    if q != [] {
      var m1, q', j := Linked(c, mem, t, i, child), q[..|q| - 1], q[|q| - 1];
      assert q == q' + [j];
      LinkPath(c, mem, root, used, p, t, i, child, q');
      Extend(c, mem, root, p, i);
      Extend(c, mem, root, q', j);
      Extend(c, m1, root, q', j);
      assert Agrees(c, mem(t, i));
      if q' == p + [i] {
        assert q != p + [i];
      } else {
        match TableAt(c, mem, root, q') {
          case None =>
          case Some(a) =>
            assert a in used;
            if a == t { assert q' == p; }
        }
      }
    }
  }

  /** Linking a fresh zeroed table where there was none changes no translation and keeps the tree. */
  lemma {:induction false} LinkKeepsTree<W(!new), I(!new), T(!new)>(
    c: Format<W, T>, mem: Memory<W, I>, root: W, used: set<W>, p: seq<I>, t: W, i: I, child: W)
    requires Lawful(c) && Tree(c, mem, root, used)
    requires |p| <= 2 && TableAt(c, mem, root, p) == Some(t) && !c.present(mem(t, i))
    requires c.isFrame(child) && child !in used
    ensures var m1 := Linked(c, mem, t, i, child);
            && Tree(c, m1, root, used + {child})
            && TableAt(c, m1, root, p + [i]) == Some(child)
            && forall q: seq<I> :: |q| == 4 ==> Walk(c, m1, root, q) == Walk(c, mem, root, q)
  {
    var m1 := Linked(c, mem, t, i, child);
    assert t in used;
    forall q: seq<I> | |q| <= 3
      ensures TableAt(c, m1, root, q) == if q == p + [i] then Some(child) else TableAt(c, mem, root, q)
    {
      LinkPath(c, mem, root, used, p, t, i, child, q);
    }
    Extend(c, mem, root, p, i);
    assert Agrees(c, mem(t, i));
    forall q: seq<I>, j: I | |q| <= 2 && TableAt(c, m1, root, q).Some?
      ensures Agrees(c, m1(TableAt(c, m1, root, q).value, j))
    {
      Extend(c, mem, root, q, j);
      assert TableAt(c, mem, root, q + [j]) == TableAt(c, mem, root, q + [j]);
    }
    forall q: seq<I> | |q| == 4 ensures Walk(c, m1, root, q) == Walk(c, mem, root, q) {
      assert TableAt(c, m1, root, q[..3]) == TableAt(c, m1, root, q[..3]);
    }
  }

  lemma {:induction false} LeafPath<W(!new), I(!new), T(!new)>(
    c: Format<W, T>, mem: Memory<W, I>, root: W, used: set<W>, p: seq<I>, t: W, i: I, word: W, q: seq<I>)
    requires Tree(c, mem, root, used)
    requires |p| == 3 && TableAt(c, mem, root, p) == Some(t) && |q| <= 3
    ensures TableAt(c, Write(mem, t, i, word), root, q) == TableAt(c, mem, root, q)
    decreases |q|
  {
    if q != [] {
      LeafPath(c, mem, root, used, p, t, i, word, q[..|q| - 1]);
      assert TableAt(c, mem, root, q[..|q| - 1]) != Some(t);
    }
  }

  /** Writing a level-3 entry changes the translation of exactly one path. */
  lemma {:induction false} LeafKeepsTree<W(!new), I(!new), T(!new)>(
    c: Format<W, T>, mem: Memory<W, I>, root: W, used: set<W>, p: seq<I>, t: W, i: I, word: W)
    requires Tree(c, mem, root, used)
    requires |p| == 3 && TableAt(c, mem, root, p) == Some(t)
    ensures var m1 := Write(mem, t, i, word);
            && Tree(c, m1, root, used)
            && forall q: seq<I> :: |q| == 4 ==>
                 Walk(c, m1, root, q) == if q == p + [i] then c.hwPage(word) else Walk(c, mem, root, q)
  {
    var m1 := Write(mem, t, i, word);
    forall q: seq<I> | |q| <= 3 ensures TableAt(c, m1, root, q) == TableAt(c, mem, root, q) {
      LeafPath(c, mem, root, used, p, t, i, word, q);
    }
    forall q: seq<I>, j: I | |q| <= 2 && TableAt(c, m1, root, q).Some?
      ensures Agrees(c, m1(TableAt(c, m1, root, q).value, j))
    {
      assert TableAt(c, mem, root, q + [j]) == TableAt(c, mem, root, q + [j]);
      assert TableAt(c, mem, root, q) == Some(t) ==> q == p;
    }
    forall q: seq<I> | |q| == 4
      ensures Walk(c, m1, root, q) == if q == p + [i] then c.hwPage(word) else Walk(c, mem, root, q)
    {
      assert q == q[..3] + [q[3]];
      assert TableAt(c, mem, root, q[..3]) == Some(t) ==> q[..3] == p;
    }
  }

  // ---- The same facts in the form the builder's loop needs ----

  /** No translation differs between the two memories. */
  ghost predicate SameWalks<W, I(!new), T>(c: Format<W, T>, m0: Memory<W, I>, m1: Memory<W, I>, root: W) {
    forall q: seq<I> :: |q| == 4 ==> Walk(c, m1, root, q) == Walk(c, m0, root, q)
  }

  /** Exactly the translation of `path` differs, and is now t. */
  ghost predicate OneWalk<W, I(!new), T>(c: Format<W, T>, m0: Memory<W, I>, m1: Memory<W, I>, root: W, path: seq<I>,
                                              t: Option<T>) {
    forall q: seq<I> :: |q| == 4 ==> Walk(c, m1, root, q) == if q == path then t else Walk(c, m0, root, q)
  }

  /** Following an entry that is already present. */
  lemma DescendPresent<W(!new), I(!new), T(!new)>(
    c: Format<W, T>, mem: Memory<W, I>, root: W, used: set<W>, path: seq<I>, level: nat, t: W)
    requires Tree(c, mem, root, used) && level < 3 && level < |path|
    requires TableAt(c, mem, root, path[..level]) == Some(t) && c.present(mem(t, path[level]))
    ensures TableAt(c, mem, root, path[..level + 1]) == Some(c.nextTable(mem(t, path[level])))
  {
    assert path[..level + 1] == path[..level] + [path[level]];
    Extend(c, mem, root, path[..level], path[level]);
    assert Agrees(c, mem(t, path[level]));
  }

  /** Linking a fresh table for a missing entry. */
  lemma DescendLink<W(!new), I(!new), T(!new)>(
    c: Format<W, T>, m0: Memory<W, I>, mem: Memory<W, I>, root: W, used: set<W>, path: seq<I>, level: nat,
    t: W, child: W)
    requires Lawful(c) && Tree(c, mem, root, used) && level < 3 && level < |path|
    requires TableAt(c, mem, root, path[..level]) == Some(t) && !c.present(mem(t, path[level]))
    requires c.isFrame(child) && child !in used && SameWalks(c, m0, mem, root)
    ensures var m1 := Linked(c, mem, t, path[level], child);
            && Tree(c, m1, root, used + {child}) && SameWalks(c, m0, m1, root)
            && TableAt(c, m1, root, path[..level + 1]) == Some(child)
  {
    assert path[..level + 1] == path[..level] + [path[level]];
    LinkKeepsTree(c, mem, root, used, path[..level], t, path[level], child);
  }

  /** Writing the page entry at the end of the walk. */
  lemma InstallLeaf<W(!new), I(!new), T(!new)>(
    c: Format<W, T>, m0: Memory<W, I>, mem: Memory<W, I>, root: W, used: set<W>, path: seq<I>, t: W, word: W)
    requires Tree(c, mem, root, used) && |path| == 4
    requires TableAt(c, mem, root, path[..3]) == Some(t) && SameWalks(c, m0, mem, root)
    ensures var m1 := Write(mem, t, path[3], word);
            Tree(c, m1, root, used) && OneWalk(c, m0, m1, root, path, c.hwPage(word))
  {
    assert path == path[..3] + [path[3]];
    LeafKeepsTree(c, mem, root, used, path[..3], t, path[3], word);
  }
}
