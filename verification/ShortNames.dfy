/** Short names of `ram_fat32.rs`: the eleven-byte form a search is converted to, and the name such a form displays. */
module ShortNames {
  import opened Fat32

  const DOT: Byte := 0x2E
  const SPACE: Byte := 0x20

  // ---- Letter case ----

  function Lower(b: Byte): Byte {
    if 0x41 <= b <= 0x5A then b + 32 else b
  }

  function Upper(b: Byte): Byte {
    if 0x61 <= b <= 0x7A then b - 32 else b
  }

  predicate IsLower(b: Byte) {
    0x61 <= b <= 0x7A
  }

  predicate EqIgnoreCase(x: seq<Byte>, y: seq<Byte>) {
    |x| == |y| && forall i :: 0 <= i < |x| ==> Lower(x[i]) == Lower(y[i])
  }

  function UpperAll(s: seq<Byte>): (r: seq<Byte>)
    ensures |r| == |s| && forall i :: 0 <= i < |s| ==> r[i] == Upper(s[i])
  {
    seq(|s|, i requires 0 <= i < |s| => Upper(s[i]))
  }

  // ---- The conversion ----

  /** `name_to_8_3` from byte i on: a dot jumps to the extension, letters are upper-cased, eleven slots are filled. */
  function Name83From(part: seq<Byte>, idx: nat, out: seq<Byte>): (r: seq<Byte>)
    requires |out| == 11
    ensures |r| == 11
    decreases |part|
  {
    if part == [] then out
    else if part[0] == DOT then Name83From(part[1..], 8, out)
    else if idx >= 11 then out
    else Name83From(part[1..], idx + 1, out[idx := Upper(part[0])])
  }

  function Spaces(n: nat): (r: seq<Byte>)
    ensures |r| == n && forall i :: 0 <= i < n ==> r[i] == SPACE
  {
    seq(n, _ => SPACE)
  }

  function Blank(): (r: seq<Byte>)
    ensures |r| == 11
  {
    Spaces(11)
  }

  function Name83(part: seq<Byte>): (r: seq<Byte>)
    ensures |r| == 11
  {
    Name83From(part, 0, Blank())
  }

  method ToShortName(part: seq<Byte>) returns (out: seq<Byte>)
    ensures out == Name83(part)
  {
    out := Blank();
    var idx, i := 0, 0;
    assert part[0..] == part;
    while i < |part|
      invariant i <= |part| && |out| == 11 && Name83From(part[i..], idx, out) == Name83(part)
    {
      var ch := part[i];
      assert part[i..][0] == ch && part[i..][1..] == part[i + 1..];
      i := i + 1;
      if ch == DOT {
        idx := 8;
      } else if idx >= 11 {
        return;
      } else {
        out, idx := out[idx := Upper(ch)], idx + 1;
      }
    }
  }

  /** Short-name lookup ignores case as well: names equal ignoring ASCII case have the same 8.3 form. */
  lemma {:induction false} Name83IgnoresCase(x: seq<Byte>, y: seq<Byte>, idx: nat, out: seq<Byte>)
    requires EqIgnoreCase(x, y) && |out| == 11
    ensures Name83From(x, idx, out) == Name83From(y, idx, out)
    decreases |x|
  {
    if x != [] {
      assert Lower(x[0]) == Lower(y[0]);
      forall i | 0 <= i < |x[1..]| ensures Lower(x[1..][i]) == Lower(y[1..][i]) {
        assert Lower(x[i + 1]) == Lower(y[i + 1]);
      }
      if x[0] == DOT {
        Name83IgnoresCase(x[1..], y[1..], 8, out);
      } else if idx < 11 {
        Name83IgnoresCase(x[1..], y[1..], idx + 1, out[idx := Upper(x[0])]);
      }
    }
  }

  // ---- What the form contains ----

  predicate DotFree(s: seq<Byte>) {
    DOT !in s
  }

  /** What a run without dots makes of the slots from idx on. */
  function Filled(x: seq<Byte>, idx: nat, out: seq<Byte>): (r: seq<Byte>)
    requires |out| == 11 && idx + |x| <= 11
    ensures |r| == 11
  {
    out[..idx] + UpperAll(x) + out[idx + |x|..]
  }

  lemma UpperFirst(x: seq<Byte>)
    requires x != []
    ensures UpperAll(x) == [Upper(x[0])] + UpperAll(x[1..])
  {
  }

  lemma PutFirst(c: Byte, u: seq<Byte>, idx: nat, out: seq<Byte>)
    requires idx + 1 + |u| <= |out|
    ensures var put := out[idx := c];
            put[..idx + 1] + u + put[idx + 1 + |u|..] == out[..idx] + ([c] + u) + out[idx + 1 + |u|..]
  {
    assert out[idx := c][..idx + 1] == out[..idx] + [c];
    assert out[idx := c][idx + 1 + |u|..] == out[idx + 1 + |u|..];
  }

  lemma FillOne(x: seq<Byte>, idx: nat, out: seq<Byte>)
    requires |out| == 11 && x != [] && idx + |x| <= 11
    ensures Filled(x[1..], idx + 1, out[idx := Upper(x[0])]) == Filled(x, idx, out)
  {
    UpperFirst(x);
    PutFirst(Upper(x[0]), UpperAll(x[1..]), idx, out);
  }

  lemma {:induction false} RunFills(x: seq<Byte>, rest: seq<Byte>, idx: nat, out: seq<Byte>)
    requires DotFree(x) && |out| == 11 && idx + |x| <= 11
    ensures Name83From(x + rest, idx, out) == Name83From(rest, idx + |x|, Filled(x, idx, out))
    decreases |x|
  {
    if x == [] {
      assert x + rest == rest && Filled(x, idx, out) == out;
    } else {
      assert (x + rest)[0] == x[0] && (x + rest)[1..] == x[1..] + rest;
      FillOne(x, idx, out);
      RunFills(x[1..], rest, idx + 1, out[idx := Upper(x[0])]);
    }
  }

  function PadTo(s: seq<Byte>, n: nat): (r: seq<Byte>)
    requires |s| <= n
    ensures |r| == n
  {
    s + Spaces(n - |s|)
  }

  lemma SpacesTail(k: nat, n: nat)
    requires k <= n
    ensures Spaces(n)[k..] == Spaces(n - k)
  {
  }

  lemma PadBlank(u: seq<Byte>, first: nat, n: nat)
    requires |u| <= n && first == 0
    ensures Spaces(n)[..first] + u + Spaces(n)[first + |u|..] == PadTo(u, n)
  {
    SpacesTail(|u|, n);
    assert Spaces(n)[..first] == [] && [] + u == u;
  }

  lemma FilledBlank(b: seq<Byte>)
    requires |b| <= 11
    ensures Filled(b, 0, Blank()) == PadTo(UpperAll(b), 11)
  {
    PadBlank(UpperAll(b), 0, 11);
  }

  /** A name without a dot is upper-cased and padded, running on into the extension. */
  lemma PlainForm(b: seq<Byte>)
    requires DotFree(b) && |b| <= 11
    ensures Name83(b) == PadTo(UpperAll(b), 11)
  {
    RunFills(b, [], 0, Blank());
    FilledBlank(b);
    assert b + [] == b;
  }

  function Form(b: seq<Byte>, x: seq<Byte>): (r: seq<Byte>)
    requires |b| <= 8 && |x| <= 3
    ensures |r| == 11
  {
    PadTo(UpperAll(b), 8) + PadTo(UpperAll(x), 3)
  }

  lemma FilledExtension(b: seq<Byte>, x: seq<Byte>, eight: nat, n: nat)
    requires |b| <= eight == 8 && |x| <= 3 && n == 11
    ensures Filled(x, eight, PadTo(UpperAll(b), n)) == PadTo(UpperAll(b), eight) + PadTo(UpperAll(x), n - eight)
  {
    var mid, u := PadTo(UpperAll(b), n), UpperAll(b);
    assert mid[..eight] == u + Spaces(eight - |b|);
    assert mid[eight + |x|..] == Spaces(n - |b|)[eight + |x| - |b|..];
    SpacesTail(eight + |x| - |b|, n - |b|);
  }

  /** A base and an extension are upper-cased and padded to eight and three. */
  lemma DottedForm(b: seq<Byte>, x: seq<Byte>)
    requires DotFree(b) && |b| <= 8 && DotFree(x) && |x| <= 3
    ensures Name83(b + [DOT] + x) == Form(b, x)
  {
    assert b + [DOT] + x == b + ([DOT] + x);
    RunFills(b, [DOT] + x, 0, Blank());
    FilledBlank(b);
    assert ([DOT] + x)[1..] == x && x + [] == x;
    RunFills(x, [], 8, PadTo(UpperAll(b), 11));
    FilledExtension(b, x, 8, 11);
  }

  // ---- The name a form displays ----

  function TrimRight(s: seq<Byte>): (r: seq<Byte>)
    ensures |r| <= |s|
  {
    if s != [] && s[|s| - 1] == SPACE then TrimRight(s[..|s| - 1]) else s
  }

  predicate Tight(s: seq<Byte>) {
    s != [] ==> s[|s| - 1] != SPACE
  }

  /** One part of a short name: no dot, no trailing blank. */
  predicate Part(s: seq<Byte>, n: nat) {
    |s| <= n && DotFree(s) && Tight(s)
  }

  /** A name of 8.3 shape, in either case. */
  predicate Short83(s: seq<Byte>) {
    Part(s, 8) || exists i :: 0 <= i < |s| && DotAt(s, i)
  }

  /** Byte i is the dot between a base and an extension. */
  predicate DotAt(s: seq<Byte>, i: nat) {
    i + 1 < |s| && s[i] == DOT && Part(s[..i], 8) && Part(s[i + 1..], 3)
  }

  /** What a directory stores for a short name: upper case, and the dot left out. */
  predicate WellFormed(f: seq<Byte>) {
    |f| == 11 && forall i :: 0 <= i < 11 ==> f[i] != DOT && !IsLower(f[i])
  }

  function Join(b: seq<Byte>, x: seq<Byte>): seq<Byte> {
    if x == [] then b else b + [DOT] + x
  }

  /** The displayed name: the two parts without their padding, joined by a dot if there is an extension. */
  function Displayed(f: seq<Byte>): seq<Byte>
    requires |f| == 11
  {
    Join(TrimRight(f[..8]), TrimRight(f[8..]))
  }

  lemma {:induction false} TrimPad(u: seq<Byte>, n: nat)
    requires |u| <= n && Tight(u)
    ensures TrimRight(PadTo(u, n)) == u
    decreases n
  {
    var p := PadTo(u, n);
    if |u| < n {
      assert p[..n - 1] == PadTo(u, n - 1);
      TrimPad(u, n - 1);
    } else {
      assert p == u;
    }
  }

  lemma {:induction false} TrimSplits(s: seq<Byte>)
    ensures Tight(TrimRight(s)) && s == PadTo(TrimRight(s), |s|) && TrimRight(s) <= s
  {
    if s != [] && s[|s| - 1] == SPACE {
      var t := s[..|s| - 1];
      TrimSplits(t);
      PadMore(TrimRight(t), |t|);
      assert s == t + [SPACE];
    }
  }

  lemma PadMore(u: seq<Byte>, n: nat)
    requires |u| <= n
    ensures PadTo(u, n + 1) == PadTo(u, n) + [SPACE]
  {
    assert Spaces(n + 1 - |u|) == Spaces(n - |u|) + [SPACE];
  }

  /** Both shapes of a name at once. */
  lemma JoinForm(b: seq<Byte>, x: seq<Byte>)
    requires DotFree(b) && |b| <= 8 && DotFree(x) && |x| <= 3
    ensures Name83(Join(b, x)) == Form(b, x)
  {
    if x == [] {
      PlainForm(b);
      PadWide(UpperAll(b), 8, 3);
    } else {
      DottedForm(b, x);
    }
  }

  lemma PadWide(u: seq<Byte>, n: nat, m: nat)
    requires |u| <= n
    ensures PadTo(u, n + m) == PadTo(u, n) + PadTo([], m)
  {
  }

  lemma FormParts(f: seq<Byte>, b: seq<Byte>, x: seq<Byte>)
    requires |b| <= 8 && |x| <= 3 && f == Form(b, x)
    ensures |f| == 11 && f[..8] == PadTo(UpperAll(b), 8) && f[8..] == PadTo(UpperAll(x), 3)
  {
  }

  lemma UpperTight(s: seq<Byte>)
    ensures Tight(UpperAll(s)) == Tight(s) && EqIgnoreCase(UpperAll(s), s)
  {
  }

  lemma JoinIgnoresCase(b: seq<Byte>, x: seq<Byte>)
    ensures EqIgnoreCase(Join(UpperAll(b), UpperAll(x)), Join(b, x))
  {
  }

  lemma SplitShort(s: seq<Byte>) returns (b: seq<Byte>, x: seq<Byte>)
    requires Short83(s)
    ensures Part(b, 8) && Part(x, 3) && s == Join(b, x)
  {
    if Part(s, 8) {
      b, x := s, [];
    } else {
      var i :| 0 <= i < |s| && DotAt(s, i);
      b, x := s[..i], s[i + 1..];
    }
  }

  lemma JoinShort(b: seq<Byte>, x: seq<Byte>)
    requires Part(b, 8) && Part(x, 3)
    ensures Short83(Join(b, x))
  {
    var s := Join(b, x);
    if x != [] {
      assert s[..|b|] == b && s[|b| + 1..] == x;
      assert DotAt(s, |b|);
    }
  }

  /** A name of 8.3 shape is displayed by its own form. */
  lemma ShortDisplayed(s: seq<Byte>)
    requires Short83(s)
    ensures EqIgnoreCase(Displayed(Name83(s)), s)
  {
    var b, x := SplitShort(s);
    JoinForm(b, x);
    FormParts(Name83(s), b, x);
    UpperTight(b);
    UpperTight(x);
    TrimPad(UpperAll(b), 8);
    TrimPad(UpperAll(x), 3);
    JoinIgnoresCase(b, x);
  }

  lemma CapitalsKept(s: seq<Byte>)
    requires forall i :: 0 <= i < |s| ==> !IsLower(s[i])
    ensures UpperAll(s) == s
  {
  }

  lemma FieldParts(f: seq<Byte>)
    requires WellFormed(f)
    ensures var b, x := TrimRight(f[..8]), TrimRight(f[8..]);
            Part(b, 8) && Part(x, 3) && UpperAll(b) == b && UpperAll(x) == x && f == Form(b, x)
  {
    TrimSplits(f[..8]);
    TrimSplits(f[8..]);
    CapitalsKept(TrimRight(f[..8]));
    CapitalsKept(TrimRight(f[8..]));
    assert f == f[..8] + f[8..];
  }

  /** The name a field displays has 8.3 shape and is converted back to the field. */
  lemma DisplayedReadsBack(f: seq<Byte>)
    requires WellFormed(f)
    ensures Short83(Displayed(f)) && Name83(Displayed(f)) == f
  {
    FieldParts(f);
    var b, x := TrimRight(f[..8]), TrimRight(f[8..]);
    JoinShort(b, x);
    JoinForm(b, x);
  }

  lemma PartIgnoresCase(s: seq<Byte>, t: seq<Byte>, n: nat)
    requires Part(s, n) && EqIgnoreCase(s, t)
    ensures Part(t, n)
  {
    forall i | 0 <= i < |t| ensures t[i] != DOT { assert Lower(s[i]) == Lower(t[i]); }
    if t != [] { assert Lower(s[|s| - 1]) == Lower(t[|t| - 1]); }
  }

  lemma ShapeIgnoresCase(s: seq<Byte>, t: seq<Byte>)
    requires Short83(s) && EqIgnoreCase(s, t)
    ensures Short83(t)
  {
    if Part(s, 8) {
      PartIgnoresCase(s, t, 8);
    } else {
      var i :| 0 <= i < |s| && DotAt(s, i);
      assert Lower(s[i]) == Lower(t[i]);
      PartIgnoresCase(s[..i], t[..i], 8);
      PartIgnoresCase(s[i + 1..], t[i + 1..], 3);
      assert DotAt(t, i);
    }
  }

  lemma {:induction false} FormWellFormed(part: seq<Byte>, idx: nat, out: seq<Byte>)
    requires WellFormed(out)
    ensures WellFormed(Name83From(part, idx, out))
    decreases |part|
  {
    if part != [] {
      if part[0] == DOT {
        FormWellFormed(part[1..], 8, out);
      } else if idx < 11 {
        FormWellFormed(part[1..], idx + 1, out[idx := Upper(part[0])]);
      }
    }
  }

  /**
   What a short-name match means, for every field and every search: a field displays the name searched for, ignoring
   case, exactly when it equals the converted search and the search has 8.3 shape.
   */
  lemma ShortHit(f: seq<Byte>, search: seq<Byte>)
    requires |f| == 11
    ensures WellFormed(f) && EqIgnoreCase(Displayed(f), search) <==> f == Name83(search) && Short83(search)
  {
    if WellFormed(f) && EqIgnoreCase(Displayed(f), search) {
      DisplayedReadsBack(f);
      ShapeIgnoresCase(Displayed(f), search);
      Name83IgnoresCase(Displayed(f), search, 0, Blank());
    }
    if f == Name83(search) && Short83(search) {
      FormWellFormed(search, 0, Blank());
      ShortDisplayed(search);
    }
  }

  /** So matching by the converted search finds exactly the displayed names if and only if the search has 8.3 shape. */
  lemma ShortHitsExactIff(search: seq<Byte>)
    ensures (forall f | WellFormed(f) :: f == Name83(search) <==> EqIgnoreCase(Displayed(f), search))
            <==> Short83(search)
  {
    forall f | WellFormed(f)
      ensures EqIgnoreCase(Displayed(f), search) <==> f == Name83(search) && Short83(search)
    {
      ShortHit(f, search);
    }
    FormWellFormed(search, 0, Blank());
  }

  /** Without a dot, bytes nine to eleven run on into the extension: the search also hits the name with a dot there. */
  lemma LongBaseCollides(s: seq<Byte>)
    requires DotFree(s) && 8 < |s| <= 11
    ensures Name83(s) == Name83(s[..8] + [DOT] + s[8..]) && !EqIgnoreCase(s, s[..8] + [DOT] + s[8..])
  {
    PlainForm(s);
    DottedForm(s[..8], s[8..]);
    PadSplit(s);
  }

  lemma PadSplit(s: seq<Byte>)
    requires 8 < |s| <= 11
    ensures PadTo(UpperAll(s), 11) == Form(s[..8], s[8..])
  {
    assert UpperAll(s) == UpperAll(s[..8]) + UpperAll(s[8..]);
  }

  lemma Overwritten(x: seq<Byte>, y: seq<Byte>, idx: nat, out: seq<Byte>)
    requires |out| == 11 && |x| <= |y| && idx + |y| <= 11
    ensures Filled(y, idx, Filled(x, idx, out)) == Filled(y, idx, out)
  {
    assert Filled(x, idx, out)[..idx] == out[..idx];
    assert Filled(x, idx, out)[idx + |y|..] == out[idx + |y|..];
  }

  lemma ExtensionRun(x: seq<Byte>, rest: seq<Byte>, idx: nat, out: seq<Byte>)
    requires DotFree(x) && |x| <= 3 && |out| == 11
    ensures Name83From([DOT] + x + rest, idx, out) == Name83From(rest, 8 + |x|, Filled(x, 8, out))
  {
    assert ([DOT] + x + rest)[0] == DOT && ([DOT] + x + rest)[1..] == x + rest;
    RunFills(x, rest, 8, out);
  }

  /** A second dot starts the extension again: what stood between the dots is lost. */
  lemma SecondDotCollides(b: seq<Byte>, x: seq<Byte>, y: seq<Byte>)
    requires DotFree(b) && |b| <= 8 && DotFree(x) && |x| <= |y| && DotFree(y) && |y| <= 3
    ensures Name83(b + [DOT] + x + [DOT] + y) == Name83(b + [DOT] + y)
  {
    var out := Filled(b, 0, Blank());
    assert b + [DOT] + x + [DOT] + y == b + ([DOT] + x + ([DOT] + y + []));
    assert b + [DOT] + y == b + ([DOT] + y + []);
    RunFills(b, [DOT] + x + ([DOT] + y + []), 0, Blank());
    RunFills(b, [DOT] + y + [], 0, Blank());
    ExtensionRun(x, [DOT] + y + [], |b|, out);
    ExtensionRun(y, [], 8 + |x|, Filled(x, 8, out));
    ExtensionRun(y, [], |b|, out);
    Overwritten(x, y, 8, out);
  }
}
