/** `${NAME}` definitions and references of the configuration file (ASCII text). */
module Macros {
  import opened Options

  type Table = map<string, string>

  // ---- Text helpers ----

  predicate IsSpace(c: char) {
    c == ' ' || '\t' <= c <= '\r'
  }

  function TrimStart(s: string): (r: string)
    ensures |r| <= |s| && (r == "" || !IsSpace(r[0]))
  {
    if s != "" && IsSpace(s[0]) then TrimStart(s[1..]) else s
  }

  function TrimEnd(s: string): (r: string)
    ensures r <= s && (r == "" || !IsSpace(r[|r| - 1]))
  {
    if s != "" && IsSpace(s[|s| - 1]) then TrimEnd(s[..|s| - 1]) else s
  }

  function Trim(s: string): string {
    TrimEnd(TrimStart(s))
  }

  predicate Blank(s: string) {
    forall i :: 0 <= i < |s| ==> s[i] == ' ' || '\t' <= s[i] <= '\r'
  }

  lemma {:induction false} TrimStartDrops(s: string) returns (x: string)
    ensures Blank(x) && s == x + TrimStart(s)
  {
    x := "";
    if s != "" && IsSpace(s[0]) {
      var y := TrimStartDrops(s[1..]);
      x := [s[0]] + y;
      assert s == [s[0]] + s[1..];
    }
  }

  lemma {:induction false} TrimEndDrops(s: string) returns (z: string)
    ensures Blank(z) && s == TrimEnd(s) + z
  {
    z := "";
    if s != "" && IsSpace(s[|s| - 1]) {
      var y := TrimEndDrops(s[..|s| - 1]);
      z := y + [s[|s| - 1]];
      assert s == s[..|s| - 1] + [s[|s| - 1]];
    }
  }

  /** Trimming cuts blanks from both ends, and all of them. */
  lemma TrimMeaning(s: string) returns (x: string, z: string)
    ensures Blank(x) && Blank(z) && s == x + Trim(s) + z
    ensures var t := Trim(s); t != "" ==> !IsSpace(t[0]) && !IsSpace(t[|t| - 1])
  {
    x := TrimStartDrops(s);
    z := TrimEndDrops(TrimStart(s));
  }

  /** Where `c` first stands in `s`. */
  function Find(s: string, c: char): (r: Option<nat>)
    ensures r.Some? ==> r.value < |s| && s[r.value] == c && c !in s[..r.value]
    ensures r.None? ==> c !in s
  {
    if s == "" then None
    else if s[0] == c then Some(0)
    else
      match Find(s[1..], c)
      case None => None
      case Some(i) =>
        assert s[..i + 1] == [s[0]] + s[1..][..i];
        Some(i + 1)
  }

  lemma {:induction false} FindAt(s: string, c: char, i: nat)
    requires i < |s| && s[i] == c && c !in s[..i]
    ensures Find(s, c) == Some(i)
  {
    if i > 0 {
      assert s[0] == s[..i][0] && s[1..][..i - 1] == s[..i][1..];
      FindAt(s[1..], c, i - 1);
    }
  }

  lemma FindNone(s: string, c: char)
    requires c !in s
    ensures Find(s, c) == None
  {
  }

  // ---- Definitions and references ----

  /** `${NAME}=value`. */
  function Definition(line: string): Option<(string, string)> {
    if !("${" <= line) then None
    else
      match Find(line, '}')
      case None => None
      case Some(close) =>
        assert line[0] == '$' && line[1] == '{';
        if close + 1 < |line| && line[close + 1] == '='
        then Some((line[2..close], Trim(line[close + 2..])))
        else None
  }

  /** The text a reference stands for; an unknown name stays as written. */
  function Lookup(macros: Table, name: string): string {
    if name in macros then macros[name] else "${" + name + "}"
  }

  /** Length of the reference at the front of `s`, if there is one. */
  function Reference(s: string): (r: Option<nat>)
    ensures r.Some? ==> 3 <= r.value <= |s|
  {
    if |s| >= 2 && s[0] == '$' && s[1] == '{' then
      match Find(s[2..], '}')
      case None => None
      case Some(i) => Some(i + 3)
    else None
  }

  /** How many characters one step of the scan takes. */
  function StepLength(s: string): (n: nat)
    requires s != ""
    ensures 0 < n <= |s|
  {
    match Reference(s) case Some(n) => n case None => 1
  }

  /** What one step of the scan writes. */
  function StepText(s: string, macros: Table): string
    requires s != ""
  {
    match Reference(s) case Some(n) => Lookup(macros, s[2..n - 1]) case None => [s[0]]
  }

  /** One left-to-right pass: values are not expanded again. */
  function Expand(s: string, macros: Table): string
    decreases |s|
  {
    if s == "" then "" else StepText(s, macros) + Expand(s[StepLength(s)..], macros)
  }

  /** What a scan with `s` left to read will have written in the end. */
  ghost function Outcome(done: string, s: string, macros: Table): string {
    done + Expand(s, macros)
  }

  /** One round of the scan: a whole reference or one character. */
  method ScanStep(ghost done: string, s: string, macros: Table) returns (n: nat, piece: string)
    requires s != ""
    ensures 0 < n <= |s| && Outcome(done + piece, s[n..], macros) == Outcome(done, s, macros)
  {
    n, piece := StepLength(s), StepText(s, macros);
    ghost var rest := Expand(s[n..], macros);
    assert Expand(s, macros) == piece + rest;
    assert done + piece + rest == done + (piece + rest);
  }

  lemma OutcomeEnds(done: string, s: string, macros: Table)
    ensures Outcome("", s, macros) == Expand(s, macros)
    ensures s == "" ==> Outcome(done, s, macros) == done
  {
  }

  method ExpandMacros(input: string, macros: Table) returns (result: string)
    ensures result == Expand(input, macros)
  {
    result := "";
    var i, left := 0, input;
    ghost var total := Expand(input, macros);
    OutcomeEnds("", input, macros);
    while i < |input|
      invariant i <= |input| && left == input[i..] && Outcome(result, left, macros) == total
    {
      var n, piece := ScanStep(result, left, macros);
      result, i, left := result + piece, i + n, left[n..];
    }
    OutcomeEnds(result, left, macros);
  }

  // ---- What expansion means ----

  datatype Piece = Text(text: string) | Ref(name: string)

  function Render(ps: seq<Piece>): string {
    if ps == [] then ""
    else (match ps[0] case Text(t) => t case Ref(n) => "${" + n + "}") + Render(ps[1..])
  }

  function Meaning(ps: seq<Piece>, macros: Table): string {
    if ps == [] then ""
    else (match ps[0] case Text(t) => t case Ref(n) => Lookup(macros, n)) + Meaning(ps[1..], macros)
  }

  /** No dollar sign of t is followed by an opening brace, in t or in what comes behind it. */
  predicate OpensNothing(t: string, rest: string) {
    forall i :: 0 <= i < |t| && t[i] == '$' ==> !BraceAt(t + rest, i + 1)
  }

  predicate BraceAt(s: string, i: nat) {
    i < |s| && s[i] == '{'
  }

  /** Text opens no reference by itself, and names hold no closing brace. */
  predicate WellFormed(ps: seq<Piece>) {
    ps == []
    || (WellFormed(ps[1..]) && match ps[0] case Text(t) => OpensNothing(t, Render(ps[1..])) case Ref(n) => '}' !in n)
  }

  lemma ExpandChar(c: char, rest: string, macros: Table)
    requires c != '$' || !BraceAt(rest, 0)
    ensures Expand([c] + rest, macros) == [c] + Expand(rest, macros)
  {
    var s := [c] + rest;
    assert s[0] == c && s[1..] == rest;
    assert Reference(s) == None;
  }

  lemma OpensNothingTail(t: string, rest: string)
    requires t != "" && OpensNothing(t, rest)
    ensures OpensNothing(t[1..], rest) && (t[0] == '$' ==> !BraceAt(t[1..] + rest, 0))
  {
    var u := t[1..];
    assert t + rest == [t[0]] + (u + rest);
    forall i | 0 <= i < |u| && u[i] == '$' ensures !BraceAt(u + rest, i + 1) {
      assert t[i + 1] == '$' && !BraceAt(t + rest, i + 1 + 1);
    }
    assert t[0] == '$' ==> !BraceAt(t + rest, 0 + 1);
  }

  lemma {:induction false} ExpandText(t: string, rest: string, macros: Table)
    requires OpensNothing(t, rest)
    ensures Expand(t + rest, macros) == t + Expand(rest, macros)
  {
    if t == "" {
      assert t + rest == rest && "" + Expand(rest, macros) == Expand(rest, macros);
    } else {
      OpensNothingTail(t, rest);
      ExpandText(t[1..], rest, macros);
      ExpandChar(t[0], t[1..] + rest, macros);
      TextJoin(t, rest);
      TextJoin(t, Expand(rest, macros));
    }
  }

  lemma TextJoin(t: string, x: string)
    requires t != ""
    ensures [t[0]] + (t[1..] + x) == t + x
  {
  }

  lemma ExpandReference(n: string, rest: string, macros: Table)
    requires '}' !in n
    ensures Expand("${" + n + "}" + rest, macros) == Lookup(macros, n) + Expand(rest, macros)
  {
    var s := "${" + n + "}" + rest;
    assert s[2..] == n + "}" + rest && s[0] == '$' && s[1] == '{';
    assert s[2..][..|n|] == n;
    FindAt(s[2..], '}', |n|);
    assert Reference(s) == Some(|n| + 3);
    assert s[2..|n| + 2] == n && s[|n| + 3..] == rest;
  }

  /** A template of plain text and references expands to the same template with every reference replaced once. */
  lemma {:induction false} TemplateExpands(ps: seq<Piece>, macros: Table)
    requires WellFormed(ps)
    ensures Expand(Render(ps), macros) == Meaning(ps, macros)
  {
    if ps != [] {
      TemplateExpands(ps[1..], macros);
      match ps[0]
      case Text(t) => ExpandText(t, Render(ps[1..]), macros);
      case Ref(n) => ExpandReference(n, Render(ps[1..]), macros);
    }
  }

  /** A definition line reads back as its name and its trimmed value. */
  lemma DefinitionReadsBack(name: string, value: string)
    requires '}' !in name
    ensures Definition("${" + name + "}=" + value) == Some((name, Trim(value)))
  {
    var line := "${" + name + "}=" + value;
    var close := |name| + 2;
    assert line[..close] == "${" + name;
    FindAt(line, '}', close);
    assert line[2..close] == name && line[close + 2..] == value;
  }
}
