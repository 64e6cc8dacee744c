/** Both JSON layouts say the same: they differ only in whitespace outside string literals. */
module JsonLayout {
  import opened Decimals
  import opened Json

  /** Where a scanner of JSON text stands: between tokens, in a string literal, or right after a backslash in one. */
  datatype Mode = Outside | Inside | Escaped

  predicate IsSpace(c: char) {
    c == ' ' || c == '\n' || c == '\r' || c == '\t'
  }

  function After(m: Mode, c: char): Mode {
    match m
    case Outside => if c == '"' then Inside else Outside
    case Inside => if c == '"' then Outside else if c == '\\' then Escaped else Inside
    case Escaped => Inside
  }

  function ModeAfter(s: string, m: Mode): Mode {
    if s == "" then m else ModeAfter(s[1..], After(m, s[0]))
  }

  /** Deletes whitespace outside string literals. */
  function Strip(s: string, m: Mode): string {
    if s == "" then ""
    else (if m == Outside && IsSpace(s[0]) then "" else [s[0]]) + Strip(s[1..], After(m, s[0]))
  }

  lemma {:induction false} StripConcat(s: string, t: string, m: Mode)
    ensures ModeAfter(s + t, m) == ModeAfter(t, ModeAfter(s, m))
    ensures Strip(s + t, m) == Strip(s, m) + Strip(t, ModeAfter(s, m))
    decreases |s|
  {
    if s == "" {
      assert s + t == t;
    } else {
      assert (s + t)[1..] == s[1..] + t && (s + t)[0] == s[0];
      StripConcat(s[1..], t, After(m, s[0]));
    }
  }

  /** A complete piece of text: scanning it ends between tokens and stripping it gives `out`. */
  predicate Yields(s: string, out: string) {
    ModeAfter(s, Outside) == Outside && Strip(s, Outside) == out
  }

  lemma YieldsConcat(s: string, x: string, t: string, y: string)
    requires Yields(s, x) && Yields(t, y)
    ensures Yields(s + t, x + y)
  {
    StripConcat(s, t, Outside);
  }

  /** One character that is neither whitespace nor a quote. */
  lemma YieldsToken(c: char)
    requires !IsSpace(c) && c != '"'
    ensures Yields([c], [c])
  {
    assert [c][1..] == "";
  }

  lemma {:induction false} YieldsTokens(s: string)
    requires forall i :: 0 <= i < |s| ==> !IsSpace(s[i]) && s[i] != '"'
    ensures Yields(s, s)
  {
    if s == "" {
    } else {
      YieldsToken(s[0]);
      YieldsTokens(s[1..]);
      YieldsConcat([s[0]], [s[0]], s[1..], s[1..]);
      assert [s[0]] + s[1..] == s;
    }
  }

  lemma {:induction false} YieldsSpace(s: string)
    requires forall i :: 0 <= i < |s| ==> IsSpace(s[i])
    ensures Yields(s, "")
  {
    if s != "" { YieldsSpace(s[1..]); }
  }

  // ---- Leaves ----

  /** Inside a literal an escaped character leaves the scanner inside and loses nothing. */
  lemma EscapeCharInside(c: char)
    ensures ModeAfter(EscapeChar(c), Inside) == Inside && Strip(EscapeChar(c), Inside) == EscapeChar(c)
  {
    var e := EscapeChar(c);
    if |e| == 1 {
      assert e[1..] == "";
    } else if |e| == 2 {
      assert e == [e[0]] + [e[1]] && [e[0]][1..] == "" && [e[1]][1..] == "";
      StripConcat([e[0]], [e[1]], Inside);
    } else {
      UnicodeInside(c as int);
    }
  }

  lemma UnicodeInside(c: nat)
    requires c < 0x20
    ensures ModeAfter(UnicodeEscape(c), Inside) == Inside && Strip(UnicodeEscape(c), Inside) == UnicodeEscape(c)
  {
    var h, l := HexDigit(c / 16), HexDigit(c % 16);
    var e := UnicodeEscape(c);
    assert e == ['\\'] + ['u'] + "00" + [h, l];
    StripConcat(['\\'] + ['u'], "00" + [h, l], Inside);
    assert (['\\'] + ['u'])[1..] == ['u'] && ['u'][1..] == "";
    InsidePlain("00" + [h, l]);
    assert e == (['\\'] + ['u']) + ("00" + [h, l]);
  }

  lemma {:induction false} InsidePlain(s: string)
    requires forall i :: 0 <= i < |s| ==> s[i] != '"' && s[i] != '\\'
    ensures ModeAfter(s, Inside) == Inside && Strip(s, Inside) == s
  {
    if s != "" { InsidePlain(s[1..]); }
  }

  lemma {:induction false} EscapeInside(s: string)
    ensures ModeAfter(Escape(s), Inside) == Inside && Strip(Escape(s), Inside) == Escape(s)
  {
    if s != "" {
      EscapeCharInside(s[0]);
      EscapeInside(s[1..]);
      StripConcat(EscapeChar(s[0]), Escape(s[1..]), Inside);
    }
  }

  /** A string literal is a complete piece and keeps every character, whatever the string. */
  lemma QuoteYields(s: string)
    ensures Yields(Quote(s), Quote(s))
  {
    EscapeInside(s);
    assert "\""[1..] == "";
    StripConcat("\"", Escape(s), Outside);
    StripConcat("\"" + Escape(s), "\"", Outside);
  }

  lemma CommaYields<T>(rest: seq<T>)
    ensures Yields(Comma(rest), Comma(rest))
  {
    YieldsTokens(Comma(rest));
  }

  lemma {:induction false} IndentYields(depth: nat)
    ensures Yields(Indent(depth), "")
  {
    if depth > 0 {
      IndentYields(depth - 1);
      YieldsSpace("  ");
      YieldsConcat("  ", "", Indent(depth - 1), "");
    }
  }

  /** Two blanks per level. */
  lemma {:induction false} IndentIs(depth: nat)
    ensures |Indent(depth)| == 2 * depth && forall i :: 0 <= i < 2 * depth ==> Indent(depth)[i] == ' '
  {
    if depth > 0 { IndentIs(depth - 1); }
  }

  // ---- Whole values ----

  lemma LeafYields(v: Value)
    requires !v.Array? && !v.Object?
    ensures Yields(Compact(v), Compact(v))
  {
    match v
    case Null => YieldsTokens("null");
    case Bool(b) => YieldsTokens("true"); YieldsTokens("false");
    case Int(i) =>
      DecimalTokens(if i < 0 then -i else i);
      YieldsTokens(Integer(i));
    case UInt(u) =>
      DecimalTokens(u);
      YieldsTokens(Decimal(u));
    case Str(s) => QuoteYields(s);
  }

  /** Deleting whitespace outside string literals from the pretty layout gives the compact one. */
  lemma {:induction false} PrettyYields(v: Value, depth: nat)
    ensures Yields(Pretty(v, depth), Compact(v))
    decreases v, 1
  {
    match v
    case Array(items) =>
      if items == [] {
        YieldsTokens("[]");
      } else {
        PrettyItemsYields(items, depth);
        assert "[\n" == ['['] + "\n" && "[" == ['['] && "]" == [']'];
        Bracketed('[', PrettyItems(items, depth), CompactItems(items), depth, ']');
      }
    case Object(props) =>
      if props == [] {
        YieldsTokens("{}");
      } else {
        PrettyPropsYields(props, depth);
        assert "{\n" == ['{'] + "\n" && "{" == ['{'] && "}" == ['}'];
        Bracketed('{', PrettyProps(props, depth), CompactProps(props), depth, '}');
      }
    case _ => LeafYields(v);
  }

  lemma Bracketed(open: char, body: string, out: string, depth: nat, close: char)
    requires Yields(body, out) && (open == '[' || open == '{') && (close == ']' || close == '}')
    ensures Yields([open] + "\n" + body + Indent(depth) + [close], [open] + out + [close])
  {
    YieldsToken(open);
    YieldsToken(close);
    YieldsSpace("\n");
    IndentYields(depth);
    YieldsConcat([open], [open], "\n", "");
    YieldsConcat([open] + "\n", [open] + "", body, out);
    YieldsConcat([open] + "\n" + body, [open] + "" + out, Indent(depth), "");
    YieldsConcat([open] + "\n" + body + Indent(depth), [open] + "" + out + "", [close], [close]);
    assert [open] + "" + out + "" + [close] == [open] + out + [close];
  }

  /** One line of a pretty layout: indentation and key, value, optional comma, newline, then the remaining lines. */
  lemma LineYields(head: string, head': string, p: string, p': string, c: string, r: string, r': string)
    requires Yields(head, head') && Yields(p, p') && Yields(c, c) && Yields(r, r')
    ensures Yields(head + p + c + "\n" + r, head' + p' + c + r')
  {
    YieldsSpace("\n");
    YieldsConcat(head, head', p, p');
    YieldsConcat(head + p, head' + p', c, c);
    YieldsConcat(head + p + c, head' + p' + c, "\n", "");
    YieldsConcat(head + p + c + "\n", head' + p' + c + "", r, r');
    assert head' + p' + c + "" + r' == head' + p' + c + r';
  }

  lemma {:induction false} PrettyItemsYields(items: seq<Value>, depth: nat)
    ensures Yields(PrettyItems(items, depth), CompactItems(items))
    decreases items, 0
  {
    if items != [] {
      PrettyYields(items[0], depth + 1);
      PrettyItemsYields(items[1..], depth);
      CommaYields(items[1..]);
      IndentYields(depth + 1);
      LineYields(Indent(depth + 1), "", Pretty(items[0], depth + 1), Compact(items[0]), Comma(items[1..]),
                 PrettyItems(items[1..], depth), CompactItems(items[1..]));
      assert "" + Compact(items[0]) == Compact(items[0]);
    }
  }

  lemma KeyYields(key: string, depth: nat)
    ensures Yields(Indent(depth) + Quote(key) + ": ", Quote(key) + ":")
  {
    IndentYields(depth);
    QuoteYields(key);
    YieldsTokens(":");
    YieldsSpace(" ");
    YieldsConcat(":", ":", " ", "");
    YieldsConcat(Indent(depth), "", Quote(key), Quote(key));
    assert ": " == ":" + " " && ":" + "" == ":" && "" + Quote(key) == Quote(key);
    YieldsConcat(Indent(depth) + Quote(key), Quote(key), ": ", ":");
  }

  lemma {:induction false} PrettyPropsYields(props: seq<Property>, depth: nat)
    ensures Yields(PrettyProps(props, depth), CompactProps(props))
    decreases props, 0
  {
    if props != [] {
      PrettyYields(props[0].value, depth + 1);
      PrettyPropsYields(props[1..], depth);
      CommaYields(props[1..]);
      KeyYields(props[0].key, depth + 1);
      LineYields(Indent(depth + 1) + Quote(props[0].key) + ": ", Quote(props[0].key) + ":",
                 Pretty(props[0].value, depth + 1), Compact(props[0].value), Comma(props[1..]),
                 PrettyProps(props[1..], depth), CompactProps(props[1..]));
    }
  }
}
