/** The menu list of `tui.rs`: which entries of the tree are shown, in which order and how far indented. */
module Menu {
  import opened ConfigTree

  datatype FlatEntry = FlatEntry(entry: MenuEntry, depth: nat, isDirectory: bool, isExpanded: bool)

  /** The user's choice for the directory shown on line `i`. */
  function Chosen(state: seq<bool>, i: nat): bool {
    i < |state| && state[i]
  }

  // ---- What the menu should show ----

  /** Row `a` is above row `k` in the tree: every row between them, and `k` itself, lies deeper than `a`. */
  ghost predicate Ancestor(rows: seq<Row>, a: nat, k: nat)
    requires k < |rows|
  {
    a < k && forall j :: a < j <= k ==> rows[a].level < rows[j].level
  }

  /** Row `k` is a directory that is expanded by its `+` or by the user's choice for its line on the screen. */
  ghost predicate Open(rows: seq<Row>, state: seq<bool>, k: nat)
    requires k < |rows|
    decreases k, 1
  {
    rows[k].entry.children != [] && (rows[k].entry.expanded || Chosen(state, |Shown(rows, state, k)|))
  }

  /** All ancestors of row `k` are expanded. */
  ghost predicate Visible(rows: seq<Row>, state: seq<bool>, k: nat)
    requires k < |rows|
    decreases k, 0
  {
    forall a: nat :: a < k && Ancestor(rows, a, k) ==> Open(rows, state, a)
  }

  ghost function Line(rows: seq<Row>, state: seq<bool>, k: nat): FlatEntry
    requires k < |rows| && rows[k].level >= 1
    decreases k, 2
  {
    FlatEntry(rows[k].entry, rows[k].level - 1, rows[k].entry.children != [], Open(rows, state, k))
  }

  /** The visible ones among the first `n` rows, in order. */
  ghost function Shown(rows: seq<Row>, state: seq<bool>, n: nat): seq<FlatEntry>
    requires n <= |rows|
    decreases n, 0
  {
    if n == 0 then []
    else if rows[n - 1].level >= 1 && Visible(rows, state, n - 1)
    then Shown(rows, state, n - 1) + [Line(rows, state, n - 1)]
    else Shown(rows, state, n - 1)
  }

  // ---- What the code does ----

  /** The list `flat` after the tree of `e` has been added; the next line number is always its length. */
  function AddTree(e: MenuEntry, state: seq<bool>, depth: nat, flat: seq<FlatEntry>): seq<FlatEntry>
    decreases e, 1
  {
    var directory := e.children != [];
    var expanded := directory && (e.expanded || Chosen(state, |flat|));
    var grown := flat + [FlatEntry(e, depth, directory, expanded)];
    if expanded then AddForest(e.children, state, depth + 1, grown) else grown
  }

  function AddForest(es: seq<MenuEntry>, state: seq<bool>, depth: nat, flat: seq<FlatEntry>): seq<FlatEntry>
    decreases es, 0
  {
    if es == [] then flat else AddForest(es[1..], state, depth, AddTree(es[0], state, depth, flat))
  }

  /** `flatten_recursive`: the list and the shared line counter grow together. */
  method FlattenRecursive(es: seq<MenuEntry>, state: seq<bool>, depth: nat, flat: seq<FlatEntry>, line: nat)
    returns (flat': seq<FlatEntry>, line': nat)
    requires line == |flat|
    ensures flat' == AddForest(es, state, depth, flat) && line' == |flat'|
    decreases es
  {
    flat', line' := flat, line;
    assert es[0..] == es;
    for i := 0 to |es|
      invariant AddForest(es[i..], state, depth, flat') == AddForest(es, state, depth, flat)
      invariant line' == |flat'|
    {
      assert es[i..][0] == es[i] && es[i..][1..] == es[i + 1..];
      var entry := es[i];
      var directory := entry.children != [];
      var expanded := directory && (entry.expanded || (line' < |state| && state[line']));
      flat' := flat' + [FlatEntry(entry, depth, directory, expanded)];
      line' := line' + 1;
      if directory && expanded {
        flat', line' := FlattenRecursive(entry.children, state, depth + 1, flat', line');
      }
    }
  }

  // ---- They agree ----

  /** Every row above a forest whose roots stand at `level` and start at row `p` is expanded. */
  ghost predicate PathOpen(rows: seq<Row>, state: seq<bool>, p: nat, level: nat)
    requires p <= |rows|
  {
    forall a: nat ::
      a < p && rows[a].level < level && (forall j :: a < j < p ==> rows[a].level < rows[j].level)
      ==> Open(rows, state, a)
  }

  /** A forest of the tree, laid out from row `p`. */
  ghost predicate LaidOut(rows: seq<Row>, es: seq<MenuEntry>, level: nat, p: nat) {
    p + |Rows(es, level)| <= |rows| && rows[p..p + |Rows(es, level)|] == Rows(es, level)
  }

  lemma LaidOutParts(rows: seq<Row>, es: seq<MenuEntry>, level: nat, p: nat)
    requires es != [] && LaidOut(rows, es, level, p)
    ensures p < |rows| && rows[p] == Row(es[0], level)
    ensures LaidOut(rows, es[0].children, level + 1, p + 1)
    ensures LaidOut(rows, es[1..], level, p + 1 + |Rows(es[0].children, level + 1)|)
    ensures |Rows(es, level)| == 1 + |Rows(es[0].children, level + 1)| + |Rows(es[1..], level)|
  {
    var c, t := Rows(es[0].children, level + 1), Rows(es[1..], level);
    RowsCons(es, level);
    SliceParts(rows, p, [Row(es[0], level)], c, t);
  }

  /** Two consecutive parts of a slice. */
  lemma SliceParts<T>(s: seq<T>, p: nat, a: seq<T>, b: seq<T>, c: seq<T>)
    requires |a| == 1 && p + |a + (b + c)| <= |s| && s[p..p + |a + (b + c)|] == a + (b + c)
    ensures s[p] == a[0] && s[p + 1..p + 1 + |b|] == b && s[p + 1 + |b|..p + 1 + |b| + |c|] == c
  {
    var all := a + (b + c);
    assert forall i :: 0 <= i < |all| ==> s[p + i] == s[p..p + |all|][i] == all[i];
    assert s[p + 0] == all[0] == a[0];
    forall i | 0 <= i < |b| ensures s[p + 1..p + 1 + |b|][i] == b[i] { assert s[p + (1 + i)] == all[1 + i] == b[i]; }
    forall i | 0 <= i < |c| ensures s[p + 1 + |b|..p + 1 + |b| + |c|][i] == c[i] {
      assert s[p + (1 + |b| + i)] == all[1 + |b| + i] == c[i];
    }
  }

  /** Rows `p + 1` to `q` all lie below row `p`. */
  ghost predicate Beneath(rows: seq<Row>, p: nat, q: nat) {
    p < q <= |rows| && forall j :: p < j < q ==> rows[p].level < rows[j].level
  }

  lemma ChildrenBeneath(rows: seq<Row>, e: MenuEntry, level: nat, p: nat)
    requires p < |rows| && rows[p] == Row(e, level) && LaidOut(rows, e.children, level + 1, p + 1)
    ensures Beneath(rows, p, p + 1 + |Rows(e.children, level + 1)|)
  {
    var c := Rows(e.children, level + 1);
    RowsAbove(e.children, level + 1);
    forall j | p < j < p + 1 + |c|
      ensures rows[p].level < rows[j].level
    {
      assert rows[j] == rows[p + 1..p + 1 + |c|][j - p - 1] == c[j - p - 1];
    }
  }

  /** Nothing below a closed directory is shown. */
  lemma {:induction false} ClosedHides(rows: seq<Row>, state: seq<bool>, p: nat, q: nat)
    requires Beneath(rows, p, q) && !Open(rows, state, p)
    ensures Shown(rows, state, q) == Shown(rows, state, p + 1)
    decreases q
  {
    if q > p + 1 {
      ClosedHides(rows, state, p, q - 1);
      assert Ancestor(rows, p, q - 1);
      assert !Visible(rows, state, q - 1);
    }
  }

  lemma RootVisible(rows: seq<Row>, state: seq<bool>, p: nat)
    requires p < |rows| && PathOpen(rows, state, p, rows[p].level)
    ensures Visible(rows, state, p)
  {
    forall a: nat | a < p && Ancestor(rows, a, p)
      ensures Open(rows, state, a)
    {
      assert forall j :: a < j < p ==> rows[a].level < rows[j].level;
    }
  }

  lemma PathIntoChildren(rows: seq<Row>, state: seq<bool>, p: nat, level: nat)
    requires p < |rows| && rows[p].level == level && PathOpen(rows, state, p, level) && Open(rows, state, p)
    ensures PathOpen(rows, state, p + 1, level + 1)
  {
    forall a: nat | a < p + 1 && rows[a].level < level + 1
                    && (forall j :: a < j < p + 1 ==> rows[a].level < rows[j].level)
      ensures Open(rows, state, a)
    {
      if a < p {
        assert rows[a].level < rows[p].level;
      }
    }
  }

  lemma PathPastSubtree(rows: seq<Row>, state: seq<bool>, p: nat, q: nat, level: nat)
    requires Beneath(rows, p, q) && rows[p].level == level && PathOpen(rows, state, p, level)
    ensures PathOpen(rows, state, q, level)
  {
    forall a: nat | a < q && rows[a].level < level && (forall j :: a < j < q ==> rows[a].level < rows[j].level)
      ensures Open(rows, state, a)
    {
      assert a < p;
    }
  }

  lemma NextTree(rows: seq<Row>, state: seq<bool>, es: seq<MenuEntry>, level: nat, p: nat, q: nat)
    requires es != [] && LaidOut(rows, es, level, p) && PathOpen(rows, state, p, level)
    requires q == p + 1 + |Rows(es[0].children, level + 1)|
    ensures p < |rows| && rows[p] == Row(es[0], level) && LaidOut(rows, es[0].children, level + 1, p + 1)
    ensures LaidOut(rows, es[1..], level, q) && PathOpen(rows, state, q, level)
    ensures p + |Rows(es, level)| == q + |Rows(es[1..], level)|
  {
    LaidOutParts(rows, es, level, p);
    ChildrenBeneath(rows, es[0], level, p);
    PathPastSubtree(rows, state, p, q, level);
  }

  /** Adding a forest to the list shows exactly its visible rows. */
  lemma {:induction false} ForestIsShown(rows: seq<Row>, state: seq<bool>, es: seq<MenuEntry>, level: nat, depth: nat,
                                         p: nat, end: nat)
    requires level == depth + 1 && LaidOut(rows, es, level, p) && PathOpen(rows, state, p, level)
    requires end == p + |Rows(es, level)|
    ensures Shown(rows, state, end) == AddForest(es, state, depth, Shown(rows, state, p))
    decreases es
  {
    if es != [] {
      var q := p + 1 + |Rows(es[0].children, level + 1)|;
      NextTree(rows, state, es, level, p, q);
      TreeIsShown(rows, state, es[0], level, depth, p, q);
      ForestIsShown(rows, state, es[1..], level, depth, q, end);
    }
  }

  lemma RootLine(rows: seq<Row>, state: seq<bool>, e: MenuEntry, level: nat, depth: nat, p: nat)
    requires level == depth + 1 && p < |rows| && rows[p] == Row(e, level) && PathOpen(rows, state, p, level)
    ensures Shown(rows, state, p + 1)
         == Shown(rows, state, p) + [FlatEntry(e, depth, e.children != [], Open(rows, state, p))]
    ensures Open(rows, state, p) <==> e.children != [] && (e.expanded || Chosen(state, |Shown(rows, state, p)|))
  {
    RootVisible(rows, state, p);
    ShownNext(rows, state, p);
  }

  lemma ShownNext(rows: seq<Row>, state: seq<bool>, p: nat)
    requires p < |rows| && rows[p].level >= 1 && Visible(rows, state, p)
    ensures Shown(rows, state, p + 1) == Shown(rows, state, p) + [Line(rows, state, p)]
  {
  }

  /** The list after a tree, from the list after its root. */
  lemma AddTreeFrom(e: MenuEntry, state: seq<bool>, depth: nat, open: bool,
                    before: seq<FlatEntry>, part: seq<FlatEntry>, whole: seq<FlatEntry>)
    requires open == (e.children != [] && (e.expanded || Chosen(state, |before|)))
    requires part == before + [FlatEntry(e, depth, e.children != [], open)]
    requires whole == if open then AddForest(e.children, state, depth + 1, part) else part
    ensures whole == AddTree(e, state, depth, before)
  {
  }

  lemma {:induction false} TreeIsShown(rows: seq<Row>, state: seq<bool>, e: MenuEntry, level: nat, depth: nat, p: nat,
                                       end: nat)
    requires level == depth + 1 && p < |rows| && rows[p] == Row(e, level)
    requires LaidOut(rows, e.children, level + 1, p + 1) && PathOpen(rows, state, p, level)
    requires end == p + 1 + |Rows(e.children, level + 1)|
    ensures Shown(rows, state, end) == AddTree(e, state, depth, Shown(rows, state, p))
    decreases e
  {
    RootLine(rows, state, e, level, depth, p);
    if Open(rows, state, p) {
      PathIntoChildren(rows, state, p, level);
      ForestIsShown(rows, state, e.children, level + 1, depth + 1, p + 1, end);
    } else {
      ChildrenBeneath(rows, e, level, p);
      ClosedHides(rows, state, p, end);
    }
    AddTreeFrom(e, state, depth, Open(rows, state, p), Shown(rows, state, p), Shown(rows, state, p + 1),
                Shown(rows, state, end));
  }

  /**
   * `flatten_entries`: the list holds exactly the entries all of whose ancestors are expanded, in preorder, each
   * indented by its level less one.
   */
  method FlattenEntries(es: seq<MenuEntry>, state: seq<bool>) returns (flat: seq<FlatEntry>)
    ensures flat == Shown(Rows(es, 1), state, |Rows(es, 1)|)
  {
    var line;
    flat, line := FlattenRecursive(es, state, 0, [], 0);
    ForestIsShown(Rows(es, 1), state, es, 1, 0, 0, |Rows(es, 1)|);
  }
}
