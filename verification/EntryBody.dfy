/** What the key and value lines of an entry set (`config.rs`). */
module EntryBody {
  import opened Options

  datatype Module = Module(path: string, text: string)

  datatype Body = Body(
    protocol: string, kernelPath: string, cmdline: string, comment: string,
    options: map<string, string>, modules: seq<Module>)

  datatype Assignment = Assignment(key: string, value: string)

  function EmptyBody(): Body {
    Body("", "", "", "", map[], [])
  }

  function UpperChar(c: char): char {
    if 'a' <= c <= 'z' then c - 32 as char else c
  }

  /** `to_uppercase`, on ASCII. */
  function Upper(s: string): string {
    seq(|s|, i requires 0 <= i < |s| => UpperChar(s[i]))
  }

  /** ASCII letters, and they only, change case. */
  lemma UpperLetters(s: string, t: string)
    requires s == "abcdefghijklmnopqrstuvwxyz" && t == "ABCDEFGHIJKLMNOPQRSTUVWXYZ"
    ensures forall i :: 0 <= i < 26 ==> UpperChar(s[i]) == t[i]
    ensures forall c :: c < 'a' || 'z' < c ==> UpperChar(c) == c
  {
    forall i | 0 <= i < 26 ensures s[i] == 'a' + i as char && t[i] == 'A' + i as char {}
  }

  predicate IsPath(key: string) { key == "KERNEL_PATH" || key == "PATH" }
  predicate IsCmdline(key: string) { key == "CMDLINE" || key == "KERNEL_CMDLINE" }
  predicate IsModuleText(key: string) { key == "MODULE_STRING" || key == "MODULE_CMDLINE" }

  /** Keys with a field of their own; all others are options. */
  predicate IsReserved(key: string) {
    key == "PROTOCOL" || IsPath(key) || IsCmdline(key) || key == "COMMENT" || key == "MODULE_PATH" || IsModuleText(key)
  }

  function SetModuleText(ms: seq<Module>, text: string): seq<Module> {
    if ms == [] then [] else ms[..|ms| - 1] + [ms[|ms| - 1].(text := text)]
  }

  function Set(b: Body, key: string, value: string): Body {
    if key == "PROTOCOL" then b.(protocol := value)
    else if IsPath(key) then b.(kernelPath := value)
    else if IsCmdline(key) then b.(cmdline := value)
    else if key == "COMMENT" then b.(comment := value)
    else if key == "MODULE_PATH" then b.(modules := b.modules + [Module(value, "")])
    else if IsModuleText(key) then b.(modules := SetModuleText(b.modules, value))
    else b.(options := b.options[key := value])
  }

  function SetAll(b: Body, ss: seq<Assignment>): Body {
    if ss == [] then b else Set(SetAll(b, ss[..|ss| - 1]), ss[|ss| - 1].key, ss[|ss| - 1].value)
  }

  lemma SetAllSnoc(b: Body, ss: seq<Assignment>, s: Assignment)
    ensures SetAll(b, ss + [s]) == Set(SetAll(b, ss), s.key, s.value)
  {
    assert (ss + [s])[..|ss|] == ss;
  }

  // ---- What the fields hold in the end ----

  /** The value of the last assignment whose key is meant, if any. */
  function LastValue(ss: seq<Assignment>, meant: string -> bool): Option<string> {
    if ss == [] then None
    else if meant(ss[|ss| - 1].key) then Some(ss[|ss| - 1].value)
    else LastValue(ss[..|ss| - 1], meant)
  }

  function OrEmpty(v: Option<string>): string {
    if v.Some? then v.value else ""
  }

  /** The values of all assignments with a key, in order. */
  function ValuesOf(ss: seq<Assignment>, key: string): seq<string> {
    if ss == [] then []
    else ValuesOf(ss[..|ss| - 1], key) + if ss[|ss| - 1].key == key then [ss[|ss| - 1].value] else []
  }

  function Paths(ms: seq<Module>): (r: seq<string>)
    ensures |r| == |ms|
  {
    seq(|ms|, i requires 0 <= i < |ms| => ms[i].path)
  }

  /** Each single field holds the last value meant for it. */
  lemma {:induction false} FieldsAreLast(ss: seq<Assignment>)
    ensures var b := SetAll(EmptyBody(), ss);
            && b.protocol == OrEmpty(LastValue(ss, k => k == "PROTOCOL"))
            && b.kernelPath == OrEmpty(LastValue(ss, k => k == "KERNEL_PATH" || k == "PATH"))
            && b.cmdline == OrEmpty(LastValue(ss, k => k == "CMDLINE" || k == "KERNEL_CMDLINE"))
            && b.comment == OrEmpty(LastValue(ss, k => k == "COMMENT"))
  {
    if ss != [] { FieldsAreLast(ss[..|ss| - 1]); }
  }

  /** The keys with a field of their own. */
  function FieldKeys(): set<string> {
    {"PROTOCOL", "KERNEL_PATH", "PATH", "CMDLINE", "KERNEL_CMDLINE", "COMMENT", "MODULE_PATH", "MODULE_STRING",
     "MODULE_CMDLINE"}
  }

  lemma ReservedKeys(key: string)
    ensures IsReserved(key) <==> key in FieldKeys()
  {
  }

  /** The options are the last values of all keys without a field of their own. */
  lemma {:induction false} OptionsAreLast(ss: seq<Assignment>, key: string)
    ensures var b, v := SetAll(EmptyBody(), ss), LastValue(ss, k => k == key);
            && (key in b.options <==> key !in FieldKeys() && v.Some?)
            && (key in b.options ==> b.options[key] == v.value)
  {
    ReservedKeys(key);
    if ss != [] { OptionsAreLast(ss[..|ss| - 1], key); }
  }

  /** The modules are the module paths in file order; a module string never adds, drops or moves one. */
  lemma {:induction false} ModulesInOrder(ss: seq<Assignment>)
    ensures Paths(SetAll(EmptyBody(), ss).modules) == ValuesOf(ss, "MODULE_PATH")
  {
    if ss != [] {
      var init, s := ss[..|ss| - 1], ss[|ss| - 1];
      ModulesInOrder(init);
      ModuleStep(SetAll(EmptyBody(), init), s);
    }
  }

  lemma ModuleStep(b: Body, s: Assignment)
    ensures Paths(Set(b, s.key, s.value).modules)
         == Paths(b.modules) + if s.key == "MODULE_PATH" then [s.value] else []
  {
  }

  predicate NoPath(ss: seq<Assignment>) {
    forall i :: 0 <= i < |ss| ==> ss[i].key != "MODULE_PATH"
  }

  lemma {:induction false} SetAllConcat(b: Body, s: seq<Assignment>, t: seq<Assignment>)
    ensures SetAll(b, s + t) == SetAll(SetAll(b, s), t)
  {
    if t == [] {
      assert s + t == s;
    } else {
      assert (s + t)[..|s + t| - 1] == s + t[..|t| - 1];
      SetAllConcat(b, s, t[..|t| - 1]);
    }
  }

  /** The last module string among some settings. */
  function LastText(ss: seq<Assignment>): Option<string> {
    LastValue(ss, k => k == "MODULE_STRING" || k == "MODULE_CMDLINE")
  }

  /** Up to the next module path, the module opened last gets the last module string. */
  lemma {:induction false} OpenModule(b: Body, ms: seq<Module>, path: string, tail: seq<Assignment>)
    requires b.modules == ms + [Module(path, "")] && NoPath(tail)
    ensures SetAll(b, tail).modules == ms + [Module(path, OrEmpty(LastText(tail)))]
  {
    if tail != [] {
      OpenModule(b, ms, path, tail[..|tail| - 1]);
      TextStep(SetAll(b, tail[..|tail| - 1]), ms, path, OrEmpty(LastText(tail[..|tail| - 1])),
               tail[|tail| - 1]);
    }
  }

  lemma TextStep(b: Body, ms: seq<Module>, path: string, text: string, s: Assignment)
    requires b.modules == ms + [Module(path, text)] && s.key != "MODULE_PATH"
    ensures Set(b, s.key, s.value).modules == ms + [Module(path, if IsModuleText(s.key) then s.value else text)]
  {
  }

  /** From the next module path on, the modules before it stay as they are. */
  lemma {:induction false} ClosedModules(b: Body, ms: seq<Module>, rest: seq<Assignment>)
    requires ms <= b.modules && (rest != [] ==> rest[0].key == "MODULE_PATH")
    ensures ms <= SetAll(b, rest).modules && (rest != [] ==> |ms| < |SetAll(b, rest).modules|)
  {
    if rest != [] { ClosedModules(b, ms, rest[..|rest| - 1]); }
  }

  /** Every module ends up with the last module string between its path and the next one, or none. */
  lemma ModuleTexts(head: seq<Assignment>, path: string, tail: seq<Assignment>, rest: seq<Assignment>)
    requires NoPath(tail) && (rest != [] ==> rest[0].key == "MODULE_PATH")
    ensures var ms := SetAll(EmptyBody(), head + [Assignment("MODULE_PATH", path)] + tail + rest).modules;
            var k := |ValuesOf(head, "MODULE_PATH")|;
            k < |ms| && ms[k] == Module(path, OrEmpty(LastText(tail)))
  {
    var b := SetAll(EmptyBody(), head);
    var before := head + [Assignment("MODULE_PATH", path)];
    ModulesInOrder(head);
    SetAllSnoc(EmptyBody(), head, Assignment("MODULE_PATH", path));
    SetAllConcat(EmptyBody(), before, tail);
    SetAllConcat(EmptyBody(), before + tail, rest);
    OpenModule(SetAll(EmptyBody(), before), b.modules, path, tail);
    ClosedModules(SetAll(EmptyBody(), before + tail), SetAll(EmptyBody(), before + tail).modules, rest);
  }
}
