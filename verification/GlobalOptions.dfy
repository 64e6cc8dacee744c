/** The options set in front of the first entry (`config.rs`): all of them by name, and the ones with a typed field. */
module GlobalOptions {
  import opened Options
  import opened Decimals
  import opened EntryBody

  const U32_MAX: nat := 0xFFFF_FFFF
  const U64_MAX: nat := 0xFFFF_FFFF_FFFF_FFFF

  datatype Globals = Globals(
    options: map<string, string>, timeout: nat, theme: Option<string>, variant: string, editor: bool, entry: nat,
    quiet: bool, serial: bool, baudrate: nat, verbose: bool, strict: bool)

  function Defaults(): Globals {
    Globals(map[], 5, None, "dark", true, 1, false, false, 115200, false, true)
  }

  // ---- Numbers ----

  /** A leading plus sign is skipped if something stands behind it. */
  function Unsigned(s: string): string {
    if |s| > 1 && s[0] == '+' then s[1..] else s
  }

  /** `str::parse` into an unsigned integer: digits only, and a value that fits. */
  function ParseUnsigned(s: string, max: nat): Option<nat> {
    var d := Unsigned(s);
    if d == "" || exists i :: 0 <= i < |d| && !IsDigit(d[i]) then None
    else
      DigitsAreNat(d);
      if DigitsValue(d) <= max then Some(DigitsValue(d)) else None
  }

  lemma {:induction false} DigitsAreNat(s: string)
    requires forall i :: 0 <= i < |s| ==> IsDigit(s[i])
    ensures DigitsValue(s) >= 0
  {
    if s != "" {
      assert IsDigit(s[|s| - 1]);
      DigitsAreNat(s[..|s| - 1]);
    }
  }

  /** A printed number reads back exactly when it fits. */
  lemma NumberReadsBack(n: nat, max: nat)
    ensures ParseUnsigned(Decimal(n), max) == ParseUnsigned("+" + Decimal(n), max)
    ensures ParseUnsigned(Decimal(n), max) == if n <= max then Some(n) else None
  {
    DecimalTokens(n);
    DecimalValue(n);
    var s := "+" + Decimal(n);
    assert s[1..] == Decimal(n) && s[0] == '+' && Decimal(n)[0] != '+';
  }

  // ---- Settings ----

  function OrElse<T>(v: Option<T>, otherwise: T): T {
    if v.Some? then v.value else otherwise
  }

  predicate IsOn(value: string) {
    value == "yes" || value == "true" || value == "1"
  }

  /** A setting in front of the first entry: kept by name, and stored in the field its key names. */
  function SetGlobal(g: Globals, key: string, value: string): Globals {
    Globals(g.options[key := value],
            if key == "TIMEOUT" then OrElse(ParseUnsigned(value, U64_MAX), g.timeout) else g.timeout,
            if key == "THEME" then Some(value) else g.theme,
            if key == "THEME_VARIANT" then value else g.variant,
            if key == "EDITOR_ENABLED" then IsOn(value) else g.editor,
            if key == "DEFAULT_ENTRY" then OrElse(ParseUnsigned(value, U64_MAX), g.entry) else g.entry,
            if key == "QUIET" then value == "yes" else g.quiet,
            if key == "SERIAL" then value == "yes" else g.serial,
            if key == "SERIAL_BAUDRATE" then OrElse(ParseUnsigned(value, U32_MAX), g.baudrate) else g.baudrate,
            if key == "VERBOSE" then value == "yes" else g.verbose,
            if key == "HASH_MISMATCH_PANIC" then value != "no" else g.strict)
  }

  function SetGlobals(g: Globals, ss: seq<Assignment>): Globals {
    if ss == [] then g else SetGlobal(SetGlobals(g, ss[..|ss| - 1]), ss[|ss| - 1].key, ss[|ss| - 1].value)
  }

  lemma SetGlobalsSnoc(g: Globals, ss: seq<Assignment>, s: Assignment)
    ensures SetGlobals(g, ss + [s]) == SetGlobal(SetGlobals(g, ss), s.key, s.value)
  {
    assert (ss + [s])[..|ss|] == ss;
  }

  // ---- What they hold in the end ----

  /** The last assignment to a key. */
  function Last(ss: seq<Assignment>, key: string): Option<string> {
    LastValue(ss, k => k == key)
  }

  /** The last value of a key that reads as a number; values that do not are passed over. */
  function LastNumber(ss: seq<Assignment>, key: string, max: nat): Option<nat> {
    if ss == [] then None
    else
      var s := ss[|ss| - 1];
      if s.key == key && ParseUnsigned(s.value, max).Some? then ParseUnsigned(s.value, max)
      else LastNumber(ss[..|ss| - 1], key, max)
  }

  /** Every name keeps its last value. */
  lemma {:induction false} GlobalsAreLast(ss: seq<Assignment>, key: string)
    ensures var options, v := SetGlobals(Defaults(), ss).options, Last(ss, key);
            (key in options <==> v.Some?) && (key in options ==> options[key] == v.value)
  {
    if ss != [] { GlobalsAreLast(ss[..|ss| - 1], key); }
  }

  /**
   A switch is decided by its last value, a number by the last value that reads as one; without any, by the default.
   */
  lemma {:induction false} SwitchesAreLast(ss: seq<Assignment>)
    ensures var g := SetGlobals(Defaults(), ss);
            && g.theme == Last(ss, "THEME") && g.variant == OrElse(Last(ss, "THEME_VARIANT"), "dark")
            && (g.editor <==> OrElse(Last(ss, "EDITOR_ENABLED"), "yes") in {"yes", "true", "1"})
            && (g.quiet <==> Last(ss, "QUIET") == Some("yes")) && (g.serial <==> Last(ss, "SERIAL") == Some("yes"))
            && (g.verbose <==> Last(ss, "VERBOSE") == Some("yes"))
            && (g.strict <==> Last(ss, "HASH_MISMATCH_PANIC") != Some("no"))
  {
    if ss != [] { SwitchesAreLast(ss[..|ss| - 1]); }
  }

  lemma {:induction false} NumbersAreLast(ss: seq<Assignment>)
    ensures var g := SetGlobals(Defaults(), ss);
            && g.timeout == OrElse(LastNumber(ss, "TIMEOUT", U64_MAX), 5)
            && g.entry == OrElse(LastNumber(ss, "DEFAULT_ENTRY", U64_MAX), 1)
            && g.baudrate == OrElse(LastNumber(ss, "SERIAL_BAUDRATE", U32_MAX), 115200)
  {
    if ss != [] { NumbersAreLast(ss[..|ss| - 1]); }
  }
}
