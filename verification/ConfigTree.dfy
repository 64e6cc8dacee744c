/** The entry tree of the configuration file (`config.rs`): header lines, nesting by depth, preorder. */
module ConfigTree {
  import opened Options
  import opened Macros
  import opened EntryBody
  import opened GlobalOptions

  datatype MenuEntry = MenuEntry(name: string, depth: nat, expanded: bool, body: Body, children: seq<MenuEntry>)

  /** An entry without its place in the tree: its header line and what the lines below it set. */
  datatype Header = Header(name: string, depth: nat, expanded: bool, body: Body)

  function Head(e: MenuEntry): Header {
    Header(e.name, e.depth, e.expanded, e.body)
  }

  /** The entry a header starts as, before it has children. */
  function Leaf(h: Header): MenuEntry {
    MenuEntry(h.name, h.depth, h.expanded, h.body, [])
  }

  // ---- Preorder ----

  /** An entry and its level in the tree, 1 at the top. */
  datatype Row = Row(entry: MenuEntry, level: nat)

  function RowsOf(e: MenuEntry, level: nat): seq<Row>
    decreases e, 1
  {
    [Row(e, level)] + Rows(e.children, level + 1)
  }

  function Rows(es: seq<MenuEntry>, level: nat): seq<Row>
    decreases es, 0
  {
    if es == [] then [] else RowsOf(es[0], level) + Rows(es[1..], level)
  }

  datatype Placed = Placed(header: Header, level: nat)

  function Outline(rows: seq<Row>): (r: seq<Placed>)
    ensures |r| == |rows|
    ensures forall i :: 0 <= i < |rows| ==> r[i] == Placed(Head(rows[i].entry), rows[i].level)
  {
    seq(|rows|, i requires 0 <= i < |rows| => Placed(Head(rows[i].entry), rows[i].level))
  }

  /** The preorder walk of a forest whose roots stand at `level`. */
  function Preorder(es: seq<MenuEntry>, level: nat): seq<Placed> {
    Outline(Rows(es, level))
  }

  lemma OutlineConcat(a: seq<Row>, b: seq<Row>)
    ensures Outline(a + b) == Outline(a) + Outline(b)
  {
  }

  lemma {:induction false} RowsConcat(a: seq<MenuEntry>, b: seq<MenuEntry>, level: nat)
    ensures Rows(a + b, level) == Rows(a, level) + Rows(b, level)
  {
    if a == [] {
      assert a + b == b;
    } else {
      assert (a + b)[0] == a[0] && (a + b)[1..] == a[1..] + b;
      RowsConcat(a[1..], b, level);
    }
  }

  lemma RowsCons(es: seq<MenuEntry>, level: nat)
    requires es != []
    ensures Rows(es, level) == [Row(es[0], level)] + (Rows(es[0].children, level + 1) + Rows(es[1..], level))
  {
    assert Rows(es, level) == RowsOf(es[0], level) + Rows(es[1..], level);
  }

  lemma {:induction false} RowsAbove(es: seq<MenuEntry>, level: nat)
    ensures forall i :: 0 <= i < |Rows(es, level)| ==> Rows(es, level)[i].level >= level
  {
    if es != [] {
      RowsCons(es, level);
      RowsAbove(es[0].children, level + 1);
      RowsAbove(es[1..], level);
    }
  }

  /** The preorder of a forest, split at its last tree. */
  lemma PreorderLast(init: seq<MenuEntry>, e: MenuEntry, level: nat)
    ensures Preorder(init + [e], level)
            == Preorder(init, level) + [Placed(Head(e), level)] + Preorder(e.children, level + 1)
  {
    RowsConcat(init, [e], level);
    assert [e][1..] == [];
    assert Rows([e], level) == [Row(e, level)] + Rows(e.children, level + 1);
    OutlineConcat(Rows(init, level), Rows([e], level));
    OutlineConcat([Row(e, level)], Rows(e.children, level + 1));
    assert Outline([Row(e, level)]) == [Placed(Head(e), level)];
  }

  lemma PreorderAbove(es: seq<MenuEntry>, level: nat)
    ensures forall i :: 0 <= i < |Preorder(es, level)| ==> Preorder(es, level)[i].level >= level
    ensures es != [] ==> Preorder(es, level) != []
  {
    RowsAbove(es, level);
    if es != [] {
      RowsCons(es, level);
    }
  }

  lemma ForestStart(es: seq<MenuEntry>, level: nat)
    ensures Preorder(es, level) == [] || Preorder(es, level)[0].level == level
  {
    if es != [] {
      PreorderFirst(es, level);
    }
  }

  /** Headers and levels in preorder determine the tree. */
  lemma {:induction false} PreorderInjective(a: seq<MenuEntry>, b: seq<MenuEntry>, level: nat)
    requires Preorder(a, level) == Preorder(b, level)
    ensures a == b
    decreases a
  {
    PreorderAbove(a, level);
    PreorderAbove(b, level);
    if a != [] {
      assert b != [];
      PreorderFirst(a, level);
      PreorderFirst(b, level);
      PreorderAbove(a[0].children, level + 1);
      PreorderAbove(b[0].children, level + 1);
      ForestStart(a[1..], level);
      ForestStart(b[1..], level);
      var x, y := Preorder(a[0].children, level + 1), Preorder(a[1..], level);
      var x', y' := Preorder(b[0].children, level + 1), Preorder(b[1..], level);
      BelowIs(x, y, level);
      BelowIs(x', y', level);
      assert x == (x + y)[..|x|] && x' == (x' + y')[..|x|] && y == (x + y)[|x|..] && y' == (x' + y')[|x|..];
      PreorderInjective(a[0].children, b[0].children, level + 1);
      PreorderInjective(a[1..], b[1..], level);
      assert a == [a[0]] + a[1..] && b == [b[0]] + b[1..];
    }
  }

  /** The preorder of a forest, split after its first tree. */
  lemma PreorderFirst(es: seq<MenuEntry>, level: nat)
    requires es != []
    ensures Preorder(es, level) != [] && Preorder(es, level)[0] == Placed(Head(es[0]), level)
    ensures Preorder(es, level)[1..] == Preorder(es[0].children, level + 1) + Preorder(es[1..], level)
  {
    var c, t := Rows(es[0].children, level + 1), Rows(es[1..], level);
    RowsCons(es, level);
    OutlineConcat([Row(es[0], level)], c + t);
    OutlineConcat(c, t);
  }

  /** How many rows at the front lie below `level`. */
  function Below(rows: seq<Placed>, level: nat): nat {
    if rows != [] && rows[0].level > level then 1 + Below(rows[1..], level) else 0
  }

  lemma {:induction false} BelowIs(x: seq<Placed>, y: seq<Placed>, level: nat)
    requires forall i :: 0 <= i < |x| ==> x[i].level > level
    requires y == [] || y[0].level <= level
    ensures Below(x + y, level) == |x|
  {
    if x == [] {
      assert x + y == y;
    } else {
      assert (x + y)[1..] == x[1..] + y;
      BelowIs(x[1..], y, level);
    }
  }

  // ---- Nesting ----

  /** `push_entry` (at depth 1) and `push_entry_recursive`: along the last children until the depth fits. */
  function Push(es: seq<MenuEntry>, entry: MenuEntry, depth: nat): seq<MenuEntry>
    decreases es
  {
    if entry.depth <= depth || es == [] then es + [entry]
    else
      var last := es[|es| - 1];
      es[..|es| - 1] + [last.(children := Push(last.children, entry, depth + 1))]
  }

  /** The level of the last entry in file order, 0 before the first. */
  function LastLevel(rows: seq<Placed>): nat {
    if rows == [] then 0 else rows[|rows| - 1].level
  }

  /** A header's level: its depth, but at most one below the previous entry, and never above the top. */
  function LevelAfter(depth: nat, previous: nat): nat {
    if depth <= 1 then 1 else if depth <= previous + 1 then depth else previous + 1
  }

  /** The level of an entry that goes below the last tree of a forest, seen from below and from above. */
  lemma LevelBelow(front: seq<Placed>, below: seq<Placed>, depth: nat, d: nat)
    requires front != [] && front[|front| - 1].level == depth >= 1 && d > depth
    requires forall i :: 0 <= i < |below| ==> below[i].level >= depth + 1
    ensures LevelAfter(d, LastLevel(front + below))
         == if d <= depth + 1 || below == [] then depth + 1 else LevelAfter(d, LastLevel(below))
  {
    assert below != [] ==> (front + below)[|front + below| - 1] == below[|below| - 1];
    assert below == [] ==> front + below == front;
  }

  /** What is appended below the last tree is appended to the whole forest. */
  lemma GrowLast(init: seq<MenuEntry>, last: MenuEntry, grown: MenuEntry, depth: nat, tail: seq<Placed>)
    requires Head(grown) == Head(last)
    requires Preorder(grown.children, depth + 1) == Preorder(last.children, depth + 1) + tail
    ensures Preorder(init + [grown], depth) == Preorder(init + [last], depth) + tail
  {
    PreorderLast(init, last, depth);
    PreorderLast(init, grown, depth);
  }

  /** Pushing an entry appends it to the preorder walk and leaves every other entry and level as it was. */
  lemma {:induction false} PushPreorder(es: seq<MenuEntry>, entry: MenuEntry, depth: nat)
    requires entry.children == [] && depth >= 1
    ensures Preorder(Push(es, entry, depth), depth)
         == Preorder(es, depth)
            + [Placed(Head(entry),
                      if entry.depth <= depth || es == [] then depth
                      else LevelAfter(entry.depth, LastLevel(Preorder(es, depth))))]
    decreases es
  {
    if entry.depth <= depth || es == [] {
      PreorderLast(es, entry, depth);
      assert Preorder([], depth + 1) == [];
    } else {
      var init, last := es[..|es| - 1], es[|es| - 1];
      assert es == init + [last];
      var grown := last.(children := Push(last.children, entry, depth + 1));
      PreorderLast(init, last, depth);
      PushPreorder(last.children, entry, depth + 1);
      PreorderAbove(last.children, depth + 1);
      var front, below := Preorder(init, depth) + [Placed(Head(last), depth)], Preorder(last.children, depth + 1);
      assert last.children == [] <==> below == [];
      LevelBelow(front, below, depth, entry.depth);
      GrowLast(init, last, grown, depth, [Placed(Head(entry), LevelAfter(entry.depth, LastLevel(front + below)))]);
    }
  }

  /** Every header at its level, in file order. */
  function Place(hs: seq<Header>): seq<Placed> {
    if hs == [] then []
    else
      var before := Place(hs[..|hs| - 1]);
      before + [Placed(hs[|hs| - 1], LevelAfter(hs[|hs| - 1].depth, LastLevel(before)))]
  }

  function Build(hs: seq<Header>): seq<MenuEntry> {
    if hs == [] then []
    else
      var h := hs[|hs| - 1];
      Push(Build(hs[..|hs| - 1]), Leaf(h), 1)
  }

  /** The preorder walk of the tree is the list of headers in file order, each at its level. */
  lemma {:induction false} BuildPreorder(hs: seq<Header>)
    ensures Preorder(Build(hs), 1) == Place(hs)
  {
    if hs != [] {
      var h, before := hs[|hs| - 1], hs[..|hs| - 1];
      BuildPreorder(before);
      PreorderAbove(Build(before), 1);
      assert Build(before) == [] ==> Place(before) == [];
      PushPreorder(Build(before), Leaf(h), 1);
    }
  }

  // ---- Lines ----

  datatype Line =
    | Skipped
    | Define(name: string, value: string)
    | Opens(depth: nat, expanded: bool, title: string)
    | Setting(key: string, value: string)

  function Slashes(s: string): (n: nat)
    ensures n <= |s|
  {
    if s != "" && s[0] == '/' then 1 + Slashes(s[1..]) else 0
  }

  /** `KEY=value`, or `KEY: value` when there is no equals sign; any other line is ignored. */
  function SettingOf(line: string): Line {
    match Find(line, '=')
    case Some(i) => Setting(Upper(Trim(line[..i])), Trim(line[i + 1..]))
    case None =>
      match Find(line, ':')
      case Some(i) => Setting(Upper(Trim(line[..i])), Trim(line[i + 1..]))
      case None => Skipped
  }

  /** What a trimmed line is; the headers are `:title`, `/title`, `//title`, and `+` before the title expands it. */
  function Classify(line: string): Line {
    if line == "" || line[0] == '#' then Skipped
    else
      match Definition(line)
      case Some((name, value)) => Define(name, value)
      case None =>
        if line[0] != ':' && line[0] != '/' then SettingOf(line)
        else
          var depth := if line[0] == '/' then Slashes(line) else 1;
          var rest := line[depth..];
          if rest != "" && rest[0] == '+' then Opens(depth, true, Trim(rest[1..])) else Opens(depth, false, Trim(rest))
  }

  function Repeat(c: char, n: nat): (s: string)
    ensures |s| == n
  {
    if n == 0 then "" else [c] + Repeat(c, n - 1)
  }

  lemma {:induction false} SlashRun(n: nat, rest: string)
    requires rest == "" || rest[0] != '/'
    ensures Slashes(Repeat('/', n) + rest) == n
    ensures n > 0 ==> (Repeat('/', n) + rest)[0] == '/'
  {
    if n == 0 {
      assert Repeat('/', n) + rest == rest;
    } else {
      SlashRun(n - 1, rest);
      assert (Repeat('/', n) + rest)[1..] == Repeat('/', n - 1) + rest;
    }
  }

  /** A header written with `depth` slashes reads back with that depth, its marker and its title. */
  lemma HeaderReadsBack(depth: nat, expanded: bool, title: string)
    requires depth >= 1
    requires expanded || title == "" || (title[0] != '/' && title[0] != '+')
    ensures Classify(Repeat('/', depth) + (if expanded then "+" else "") + title) == Opens(depth, expanded, Trim(title))
  {
    var mark := if expanded then "+" else "";
    var rest := mark + title;
    assert Repeat('/', depth) + mark + title == Repeat('/', depth) + rest;
    SlashRun(depth, rest);
    ClassifySlashes(Repeat('/', depth) + rest, depth, rest);
    assert expanded ==> rest[0] == '+' && rest[1..] == title;
  }

  lemma ClassifySlashes(line: string, depth: nat, rest: string)
    requires line == Repeat('/', depth) + rest && line != "" && line[0] == '/' && Slashes(line) == depth
    ensures Classify(line)
         == if rest != "" && rest[0] == '+' then Opens(depth, true, Trim(rest[1..]))
            else Opens(depth, false, Trim(rest))
  {
    assert Definition(line) == None by {
      assert line[0] != "${"[0];
    }
    assert line[depth..] == rest;
  }

  /** A header written with a colon opens an entry at the top. */
  lemma ColonHeaderReadsBack(expanded: bool, title: string)
    requires expanded || title == "" || title[0] != '+'
    ensures Classify(":" + (if expanded then "+" else "") + title) == Opens(1, expanded, Trim(title))
  {
    var mark := if expanded then "+" else "";
    var line := ":" + mark + title;
    assert line[0] == ':' && line[1..] == mark + title;
    NotDefinition(line);
    assert expanded ==> line[1..][0] == '+' && line[1..][1..] == title;
  }

  lemma NotDefinition(line: string)
    requires line != "" && line[0] != '$'
    ensures Definition(line) == None
  {
    assert line[0] != "${"[0];
  }

  /** What a line that sets something may start with. */
  predicate StartsKey(key: string) {
    key != "" && key[0] != '#' && key[0] != ':' && key[0] != '/' && key[0] != '$'
  }

  lemma SettingReadsBack(key: string, value: string)
    requires '=' !in key && StartsKey(key)
    ensures Classify(key + "=" + value) == Setting(Upper(Trim(key)), Trim(value))
  {
    var line := key + "=" + value;
    assert line[0] == key[0] && line[..|key|] == key && line[|key| + 1..] == value;
    FindAt(line, '=', |key|);
    NotDefinition(line);
  }

  /** Without an equals sign anywhere, a colon separates key and value as well. */
  lemma ColonSettingReadsBack(key: string, value: string)
    requires '=' !in key && '=' !in value && ':' !in key && StartsKey(key)
    ensures Classify(key + ":" + value) == Setting(Upper(Trim(key)), Trim(value))
  {
    var line := key + ":" + value;
    assert line[0] == key[0] && line[..|key|] == key && line[|key| + 1..] == value;
    FindAt(line, ':', |key|);
    FindNone(line, '=');
    NotDefinition(line);
  }

  // ---- A file, line by line ----

  /** The macros defined so far, the entries opened so far, and the global options. */
  datatype Reading = Reading(macros: Table, seen: seq<Header>, globals: Globals)

  /** A setting changes the entry opened last. */
  function SetLast(seen: seq<Header>, key: string, value: string): seq<Header> {
    if seen == [] then []
    else
      var h := seen[|seen| - 1];
      seen[..|seen| - 1] + [h.(body := Set(h.body, key, value))]
  }

  /** Before the first entry a setting is a global option. */
  function Assign(r: Reading, key: string, value: string): Reading {
    if r.seen == [] then r.(globals := SetGlobal(r.globals, key, value)) else r.(seen := SetLast(r.seen, key, value))
  }

  function Act(r: Reading, l: Line): Reading {
    match l
    case Define(name, value) => r.(macros := r.macros[name := Expand(value, r.macros)])
    case Opens(depth, expanded, title) =>
      r.(seen := r.seen + [Header(Expand(title, r.macros), depth, expanded, EmptyBody())])
    case Setting(key, value) => Assign(r, key, Expand(value, r.macros))
    case Skipped => r
  }

  function ReadLine(r: Reading, line: string): Reading {
    Act(r, Classify(Trim(line)))
  }

  /** A header line, however indented, opens an entry; its title is expanded with the macros defined so far. */
  lemma HeaderLine(r: Reading, text: string, depth: nat, expanded: bool, title: string)
    requires depth >= 1 && (expanded || title == "" || (title[0] != '/' && title[0] != '+'))
    requires Trim(text) == Repeat('/', depth) + (if expanded then "+" else "") + title
    ensures ReadLine(r, text)
         == r.(seen := r.seen + [Header(Expand(Trim(title), r.macros), depth, expanded, EmptyBody())])
  {
    HeaderReadsBack(depth, expanded, title);
  }

  /** A definition line defines its name as its value, expanded with the macros defined so far. */
  lemma DefinitionLine(r: Reading, text: string, name: string, value: string)
    requires '}' !in name && Trim(text) == "${" + name + "}=" + value
    ensures ReadLine(r, text) == r.(macros := r.macros[name := Expand(Trim(value), r.macros)])
  {
    DefinitionReadsBack(name, value);
    assert Trim(text)[0] == "${"[0];
  }

  function ReadLines(lines: seq<string>, macros: Table): Reading {
    if lines == [] then Reading(macros, [], Defaults())
    else ReadLine(ReadLines(lines[..|lines| - 1], macros), lines[|lines| - 1])
  }

  /** The entries of a file in order, names and values expanded with the macros defined above them. */
  function Headers(lines: seq<string>, macros: Table): seq<Header> {
    ReadLines(lines, macros).seen
  }

  /** A line that opens no entry. */
  predicate InBody(line: string) {
    !Classify(Trim(line)).Opens?
  }

  /** The setting on a line, expanded. */
  function SettingOn(line: string, macros: Table): seq<Assignment> {
    Given(Classify(Trim(line)), macros)
  }

  function Given(l: Line, macros: Table): seq<Assignment> {
    if l.Setting? then [Assignment(l.key, Expand(l.value, macros))] else []
  }

  /** The settings among some lines of one entry, in order. */
  function SettingsIn(lines: seq<string>, macros: Table): seq<Assignment> {
    if lines == [] then []
    else
      var init := lines[..|lines| - 1];
      SettingsIn(init, macros) + SettingOn(lines[|lines| - 1], ReadLines(init, macros).macros)
  }

  /** The entry opened last has got these settings, the entries before it are `front`. */
  ghost predicate InSection(r: Reading, macros: Table, front: seq<Header>, h: Header, ss: seq<Assignment>, g: Globals) {
    r == Reading(macros, front + [h.(body := SetAll(h.body, ss))], g)
  }

  lemma SectionStep(r: Reading, own: Reading, l: Line, front: seq<Header>, h: Header, ss: seq<Assignment>, g: Globals)
    requires !l.Opens? && InSection(r, own.macros, front, h, ss, g)
    ensures InSection(Act(r, l), Act(own, l).macros, front, h, ss + Given(l, own.macros), g)
  {
    assert r.seen[..|r.seen| - 1] == front;
    match l
    case Setting(key, value) => SetAllSnoc(h.body, ss, Assignment(key, Expand(value, own.macros)));
    case Define(_, _) => assert ss + [] == ss;
    case Skipped => assert ss + [] == ss;
  }

  lemma ReadSnoc(init: seq<string>, line: string, macros: Table)
    ensures ReadLines(init + [line], macros) == ReadLine(ReadLines(init, macros), line)
    ensures SettingsIn(init + [line], macros)
            == SettingsIn(init, macros) + SettingOn(line, ReadLines(init, macros).macros)
  {
    assert (init + [line])[..|init|] == init;
  }

  /** Between two headers only the entry opened last changes: it gets exactly the settings of those lines, in order. */
  lemma {:induction false} SectionBody(all: seq<string>, lines: seq<string>, builtin: Table, macros: Table,
                                       front: seq<Header>, h: Header, g: Globals)
    requires ReadLines(all, builtin) == Reading(macros, front + [h], g)
    requires forall i :: 0 <= i < |lines| ==> InBody(lines[i])
    ensures InSection(ReadLines(all + lines, builtin), ReadLines(lines, macros).macros, front, h,
                      SettingsIn(lines, macros), g)
    decreases |lines|
  {
    if lines == [] {
      assert all + lines == all;
    } else {
      var init, line := lines[..|lines| - 1], lines[|lines| - 1];
      assert lines == init + [line] && all + lines == (all + init) + [line];
      SectionBody(all, init, builtin, macros, front, h, g);
      ReadSnoc(all + init, line, builtin);
      ReadSnoc(init, line, macros);
      SectionStep(ReadLines(all + init, builtin), ReadLines(init, macros), Classify(Trim(line)), front, h,
                  SettingsIn(init, macros), g);
    }
  }

  /** No entry is open yet, and these settings have been global options. */
  predicate InLead(r: Reading, ss: seq<Assignment>) {
    r.seen == [] && r.globals == SetGlobals(Defaults(), ss)
  }

  lemma LeadStep(r: Reading, l: Line, ss: seq<Assignment>)
    requires !l.Opens? && InLead(r, ss)
    ensures InLead(Act(r, l), ss + Given(l, r.macros))
  {
    match l
    case Setting(key, value) => SetGlobalsSnoc(Defaults(), ss, Assignment(key, Expand(value, r.macros)));
    case Define(_, _) => assert ss + [] == ss;
    case Skipped => assert ss + [] == ss;
  }

  /** The lines in front of the first header open no entry; their settings, in order, are the global options. */
  lemma {:induction false} LeadLines(lead: seq<string>, macros: Table)
    requires forall i :: 0 <= i < |lead| ==> InBody(lead[i])
    ensures InLead(ReadLines(lead, macros), SettingsIn(lead, macros))
    decreases |lead|
  {
    if lead != [] {
      var init, line := lead[..|lead| - 1], lead[|lead| - 1];
      LeadLines(init, macros);
      assert lead == init + [line];
      ReadSnoc(init, line, macros);
      LeadStep(ReadLines(init, macros), Classify(Trim(line)), SettingsIn(init, macros));
    }
  }

  lemma GlobalsStep(r: Reading, l: Line)
    requires r.seen != [] || l.Opens?
    ensures Act(r, l).globals == r.globals && Act(r, l).seen != []
  {
  }

  /** From the first header on no line changes a global option. */
  lemma {:induction false} GlobalsFixed(lead: seq<string>, rest: seq<string>, macros: Table)
    requires forall i :: 0 <= i < |lead| ==> InBody(lead[i])
    requires rest != [] ==> !InBody(rest[0])
    ensures var r := ReadLines(lead + rest, macros);
            r.globals == SetGlobals(Defaults(), SettingsIn(lead, macros)) && (r.seen == [] <==> rest == [])
    decreases |rest|
  {
    if rest == [] {
      assert lead + rest == lead;
      LeadLines(lead, macros);
    } else {
      var init, line := rest[..|rest| - 1], rest[|rest| - 1];
      assert lead + rest == (lead + init) + [line];
      GlobalsFixed(lead, init, macros);
      ReadSnoc(lead + init, line, macros);
      GlobalsStep(ReadLines(lead + init, macros), Classify(Trim(line)));
    }
  }

  /** The entries pushed so far and the one still open. */
  ghost predicate Gathered(entries: seq<MenuEntry>, current: Option<Header>, seen: seq<Header>) {
    match current
    case None => seen == [] && entries == []
    case Some(h) => seen != [] && h == seen[|seen| - 1] && entries == Build(seen[..|seen| - 1])
  }

  method Flush(entries: seq<MenuEntry>, current: Option<Header>, ghost seen: seq<Header>) returns (all: seq<MenuEntry>)
    requires Gathered(entries, current, seen)
    ensures all == Build(seen)
  {
    match current
    case None => all := entries;
    case Some(h) => all := Push(entries, Leaf(h), 1);
  }

  /** The header handling of `parse_with_env`: each header closes the entry before it. */
  method ParseEntries(lines: seq<string>, builtin: Table) returns (entries: seq<MenuEntry>, globals: Globals)
    ensures entries == Build(Headers(lines, builtin)) && globals == ReadLines(lines, builtin).globals
    ensures Preorder(entries, 1) == Place(Headers(lines, builtin))
  {
    entries, globals := [], Defaults();
    var current: Option<Header> := None;
    var macros := builtin;
    ghost var seen: seq<Header> := [];
    for i := 0 to |lines|
      invariant Gathered(entries, current, seen) && Reading(macros, seen, globals) == ReadLines(lines[..i], builtin)
    {
      assert lines[..i + 1][..i] == lines[..i];
      ghost var r := Reading(macros, seen, globals);
      entries, current, macros, globals, seen := ParseLine(lines[i], entries, current, macros, globals, seen);
      assert Reading(macros, seen, globals) == ReadLine(r, lines[i]);
    }
    assert lines[..|lines|] == lines;
    entries := Flush(entries, current, seen);
    BuildPreorder(seen);
  }

  lemma GatheredOpen(entries: seq<MenuEntry>, seen: seq<Header>, h: Header)
    requires entries == Build(seen)
    ensures Gathered(entries, Some(h), seen + [h])
  {
    assert (seen + [h])[..|seen|] == seen;
  }

  lemma GatheredSet(entries: seq<MenuEntry>, h: Header, seen: seq<Header>, key: string, value: string)
    requires Gathered(entries, Some(h), seen)
    ensures Gathered(entries, Some(h.(body := Set(h.body, key, value))), SetLast(seen, key, value))
  {
    assert SetLast(seen, key, value)[..|seen| - 1] == seen[..|seen| - 1];
  }

  /** One line of the file. */
  method ParseLine(text: string, entries0: seq<MenuEntry>, current0: Option<Header>, macros0: Table, globals0: Globals,
                   ghost seen0: seq<Header>)
    returns (entries: seq<MenuEntry>, current: Option<Header>, macros: Table, globals: Globals, ghost seen: seq<Header>)
    requires Gathered(entries0, current0, seen0)
    ensures Gathered(entries, current, seen)
    ensures Reading(macros, seen, globals) == ReadLine(Reading(macros0, seen0, globals0), text)
  {
    entries, current, macros, globals, seen := entries0, current0, macros0, globals0, seen0;
    match Classify(Trim(text))
    case Define(name, value) =>
      var expanded := ExpandMacros(value, macros);
      macros := macros[name := expanded];
    case Opens(depth, expanded, title) =>
      var name := ExpandMacros(title, macros);
      entries := Flush(entries, current, seen);
      var h := Header(name, depth, expanded, EmptyBody());
      GatheredOpen(entries, seen, h);
      current, seen := Some(h), seen + [h];
    case Setting(key, value) =>
      var expanded := ExpandMacros(value, macros);
      if current.Some? {
        GatheredSet(entries, current.value, seen, key, expanded);
        current := Some(current.value.(body := Set(current.value.body, key, expanded)));
        seen := SetLast(seen, key, expanded);
      } else {
        globals := SetGlobal(globals, key, expanded);
      }
    case Skipped =>
  }
}
