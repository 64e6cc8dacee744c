/** The recursive writers of `json.rs`, which append to one output string, proved against the two layouts. */
module JsonWriter {
  import opened Decimals
  import opened Json

  // ---- Appending ----

  lemma Appended(out: string, a: string, b: string)
    ensures out + a + b == out + (a + b)
  {
  }

  /** `done` is the part of `total` written so far, `left` the part still to write. */
  ghost predicate Written(text: string, out: string, done: string, left: string, total: string) {
    text == out + done && done + left == total
  }

  lemma Start(out: string, total: string)
    ensures Written(out, out, "", total, total)
  {
    assert out + "" == out;
  }

  lemma Advance(text: string, out: string, done: string, piece: string, left: string, total: string)
    requires Written(text, out, done, piece + left, total)
    ensures Written(text + piece, out, done + piece, left, total)
  {
    Appended(out, done, piece);
    Appended(done, piece, left);
  }

  lemma Finish(text: string, out: string, done: string, total: string)
    requires Written(text, out, done, "", total)
    ensures text == out + total
  {
    assert done + "" == done;
  }

  // ---- Strings and indentation ----

  lemma EscapeStep(s: string, i: nat)
    requires i < |s|
    ensures Escape(s[i..]) == EscapeChar(s[i]) + Escape(s[i + 1..])
  {
    assert s[i..][1..] == s[i + 1..];
  }

  method WriteEscaped(out: string, s: string) returns (text: string)
    ensures text == out + Escape(s)
  {
    text := out;
    ghost var done := "";
    Start(out, Escape(s));
    assert s[0..] == s;
    for i := 0 to |s|
      invariant Written(text, out, done, Escape(s[i..]), Escape(s))
    {
      var e := EscapeChar(s[i]);
      EscapeStep(s, i);
      Advance(text, out, done, e, Escape(s[i + 1..]), Escape(s));
      text, done := text + e, done + e;
    }
    Finish(text, out, done, Escape(s));
  }

  method WriteString(out: string, s: string) returns (text: string)
    ensures text == out + Quote(s)
  {
    text := out + "\"";
    text := WriteEscaped(text, s);
    text := text + "\"";
    Appended(out, "\"", Escape(s));
    Appended(out, "\"" + Escape(s), "\"");
  }

  method WriteIndent(out: string, depth: nat) returns (text: string)
    ensures text == out + Indent(depth)
  {
    text := out;
    ghost var done := "";
    Start(out, Indent(depth));
    for i := 0 to depth
      invariant Written(text, out, done, Indent(depth - i), Indent(depth))
    {
      Advance(text, out, done, "  ", Indent(depth - i - 1), Indent(depth));
      text, done := text + "  ", done + "  ";
    }
    Finish(text, out, done, Indent(depth));
  }

  // ---- Compact ----

  /** The comma the compact loops write in front of every element but the first. */
  function Before(i: nat): string {
    if i > 0 then "," else ""
  }

  /** What the compact loops still have to write in front of element `i` and after it. */
  function ItemsFrom(items: seq<Value>, i: nat): string
    requires i <= |items|
  {
    if i == |items| then "" else Before(i) + CompactItems(items[i..])
  }

  function PropsFrom(props: seq<Property>, i: nat): string
    requires i <= |props|
  {
    if i == |props| then "" else Before(i) + CompactProps(props[i..])
  }

  function PropText(p: Property): string {
    Quote(p.key) + ":" + Compact(p.value)
  }

  lemma ItemStep(items: seq<Value>, i: nat)
    requires i < |items|
    ensures ItemsFrom(items, i) == Before(i) + Compact(items[i]) + ItemsFrom(items, i + 1)
  {
    var x, more := Compact(items[i]), Comma(items[i + 1..]);
    assert items[i..][1..] == items[i + 1..];
    var rest := CompactItems(items[i + 1..]);
    assert CompactItems(items[i..]) == x + more + rest;
    Appended(x, more, rest);
    Appended(Before(i), x, more + rest);
    assert more + rest == ItemsFrom(items, i + 1);
  }

  lemma PropStep(props: seq<Property>, i: nat)
    requires i < |props|
    ensures PropsFrom(props, i) == Before(i) + PropText(props[i]) + PropsFrom(props, i + 1)
  {
    var x, more := PropText(props[i]), Comma(props[i + 1..]);
    assert props[i..][1..] == props[i + 1..];
    var rest := CompactProps(props[i + 1..]);
    assert CompactProps(props[i..]) == x + more + rest;
    Appended(x, more, rest);
    Appended(Before(i), x, more + rest);
    assert more + rest == PropsFrom(props, i + 1);
  }

  method WriteCompact(v: Value, out: string) returns (text: string)
    ensures text == out + Compact(v)
    decreases v, 1
  {
    match v
    case Null => text := out + "null";
    case Bool(b) => text := out + if b then "true" else "false";
    case Int(i) => text := out + Integer(i);
    case UInt(u) => text := out + Decimal(u);
    case Str(s) => text := WriteString(out, s);
    case Array(items) =>
      text := out + "[";
      text := WriteItems(items, text);
      text := text + "]";
    case Object(props) =>
      text := out + "{";
      text := WriteProps(props, text);
      text := text + "}";
  }

  method WriteItems(items: seq<Value>, out: string) returns (text: string)
    ensures text == out + CompactItems(items)
    decreases items, 0
  {
    text := out;
    ghost var total, done := CompactItems(items), "";
    Start(out, total);
    assert items[0..] == items && ItemsFrom(items, 0) == total;
    for i := 0 to |items|
      invariant Written(text, out, done, ItemsFrom(items, i), total)
    {
      ghost var was, piece := text, Before(i) + Compact(items[i]);
      ItemStep(items, i);
      Advance(was, out, done, piece, ItemsFrom(items, i + 1), total);
      if i > 0 {
        text := text + ",";
      }
      assert text == was + Before(i);
      text := WriteCompact(items[i], text);
      Appended(was, Before(i), Compact(items[i]));
      done := done + piece;
    }
    Finish(text, out, done, total);
  }

  method WriteProp(p: Property, out: string) returns (text: string)
    ensures text == out + PropText(p)
    decreases p, 2
  {
    text := WriteString(out, p.key);
    text := text + ":";
    text := WriteCompact(p.value, text);
  }

  method WriteProps(props: seq<Property>, out: string) returns (text: string)
    ensures text == out + CompactProps(props)
    decreases props, 0
  {
    text := out;
    ghost var total, done := CompactProps(props), "";
    Start(out, total);
    assert props[0..] == props && PropsFrom(props, 0) == total;
    for i := 0 to |props|
      invariant Written(text, out, done, PropsFrom(props, i), total)
    {
      ghost var was, piece := text, Before(i) + PropText(props[i]);
      PropStep(props, i);
      Advance(was, out, done, piece, PropsFrom(props, i + 1), total);
      if i > 0 {
        text := text + ",";
      }
      assert text == was + Before(i);
      text := WriteProp(props[i], text);
      Appended(was, Before(i), PropText(props[i]));
      done := done + piece;
    }
    Finish(text, out, done, total);
  }

  // ---- Pretty ----

  /** One line of a pretty array: indented, with a comma unless it is the last. */
  function PrettyLine(v: Value, last: bool, depth: nat): string {
    Indent(depth) + Pretty(v, depth) + (if last then "" else ",") + "\n"
  }

  function PrettyMember(p: Property, last: bool, depth: nat): string {
    Indent(depth) + Quote(p.key) + ": " + Pretty(p.value, depth) + (if last then "" else ",") + "\n"
  }

  lemma PrettyItemStep(items: seq<Value>, i: nat, depth: nat)
    requires i < |items|
    ensures PrettyItems(items[i..], depth)
         == PrettyLine(items[i], i + 1 == |items|, depth + 1) + PrettyItems(items[i + 1..], depth)
  {
    assert items[i..][1..] == items[i + 1..];
  }

  lemma PrettyPropStep(props: seq<Property>, i: nat, depth: nat)
    requires i < |props|
    ensures PrettyProps(props[i..], depth)
         == PrettyMember(props[i], i + 1 == |props|, depth + 1) + PrettyProps(props[i + 1..], depth)
  {
    assert props[i..][1..] == props[i + 1..];
  }

  lemma Wrapped(out: string, open: string, body: string, dent: string, close: string)
    ensures out + open + "\n" + body + dent + close == out + (open + "\n" + body + dent + close)
  {
  }

  method WritePretty(v: Value, out: string, depth: nat) returns (text: string)
    ensures text == out + Pretty(v, depth)
    decreases v, 1
  {
    match v
    case Array(items) =>
      if items == [] {
        text := out + "[]";
      } else {
        text := out + "[" + "\n";
        text := WritePrettyItems(items, text, depth);
        text := WriteIndent(text, depth);
        text := text + "]";
        Wrapped(out, "[", PrettyItems(items, depth), Indent(depth), "]");
        assert "[" + "\n" == "[\n";
      }
    case Object(props) =>
      if props == [] {
        text := out + "{}";
      } else {
        text := out + "{" + "\n";
        text := WritePrettyProps(props, text, depth);
        text := WriteIndent(text, depth);
        text := text + "}";
        Wrapped(out, "{", PrettyProps(props, depth), Indent(depth), "}");
        assert "{" + "\n" == "{\n";
      }
    case _ =>
      text := WriteCompact(v, out);
  }

  method WriteLine(v: Value, last: bool, out: string, depth: nat) returns (text: string)
    ensures text == out + PrettyLine(v, last, depth)
    decreases v, 2
  {
    ghost var line := Indent(depth) + Pretty(v, depth);
    text := WriteIndent(out, depth);
    text := WritePretty(v, text, depth);
    Appended(out, Indent(depth), Pretty(v, depth));
    text := EndLine(text, last, out, line);
  }

  method EndLine(now: string, last: bool, ghost out: string, ghost line: string) returns (text: string)
    requires now == out + line
    ensures text == out + (line + (if last then "" else ",") + "\n")
  {
    text := now;
    if !last {
      text := text + ",";
      Appended(out, line, ",");
      Appended(out, line + ",", "\n");
    } else {
      assert line + "" == line;
      Appended(out, line, "\n");
    }
    text := text + "\n";
  }

  method WritePrettyItems(items: seq<Value>, out: string, depth: nat) returns (text: string)
    ensures text == out + PrettyItems(items, depth)
    decreases items, 0
  {
    text := out;
    ghost var total, done := PrettyItems(items, depth), "";
    Start(out, total);
    assert items[0..] == items;
    for i := 0 to |items|
      invariant Written(text, out, done, PrettyItems(items[i..], depth), total)
    {
      ghost var piece := PrettyLine(items[i], i + 1 == |items|, depth + 1);
      PrettyItemStep(items, i, depth);
      Advance(text, out, done, piece, PrettyItems(items[i + 1..], depth), total);
      text := WriteLine(items[i], i + 1 == |items|, text, depth + 1);
      done := done + piece;
    }
    Finish(text, out, done, total);
  }

  method WriteMember(p: Property, last: bool, out: string, depth: nat) returns (text: string)
    ensures text == out + PrettyMember(p, last, depth)
    decreases p, 2
  {
    ghost var dent, key, value := Indent(depth), Quote(p.key), Pretty(p.value, depth);
    text := WriteIndent(out, depth);
    text := WriteString(text, p.key);
    text := text + ": ";
    Appended(out, dent, key);
    Appended(out, dent + key, ": ");
    text := WritePretty(p.value, text, depth);
    Appended(out, dent + key + ": ", value);
    ghost var line := dent + key + ": " + value;
    text := EndLine(text, last, out, line);
  }

  method WritePrettyProps(props: seq<Property>, out: string, depth: nat) returns (text: string)
    ensures text == out + PrettyProps(props, depth)
    decreases props, 0
  {
    text := out;
    ghost var total, done := PrettyProps(props, depth), "";
    Start(out, total);
    assert props[0..] == props;
    for i := 0 to |props|
      invariant Written(text, out, done, PrettyProps(props[i..], depth), total)
    {
      ghost var piece := PrettyMember(props[i], i + 1 == |props|, depth + 1);
      PrettyPropStep(props, i, depth);
      Advance(text, out, done, piece, PrettyProps(props[i + 1..], depth), total);
      text := WriteMember(props[i], i + 1 == |props|, text, depth + 1);
      done := done + piece;
    }
    Finish(text, out, done, total);
  }
}
