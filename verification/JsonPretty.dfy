/** The pretty layout of `json.rs` reads back as well: the reader skips exactly the whitespace that layout adds. */
module JsonPretty {
  import opened Options
  import opened Json
  import opened JsonLayout
  import opened JsonReader

  predicate AllSpace(w: string) {
    forall i :: 0 <= i < |w| ==> IsSpace(w[i])
  }

  lemma {:induction false} SkipBlank(w: string, s: string)
    requires AllSpace(w)
    ensures SkipSpace(w + s) == SkipSpace(s)
  {
    if w == "" {
      assert w + s == s;
    } else {
      assert (w + s)[0] == w[0] && (w + s)[1..] == w[1..] + s;
      SkipBlank(w[1..], s);
    }
  }

  lemma {:induction false} IndentBlank(depth: nat)
    ensures AllSpace(Indent(depth))
  {
    if depth > 0 { IndentBlank(depth - 1); }
  }

  /** Whitespace in front of a value, a key or the rest of a list does not matter. */
  lemma ReadersSkip(w: string, s: string)
    requires AllSpace(w)
    ensures ReadValue(w + s) == ReadValue(s) && ReadItems(w + s) == ReadItems(s)
    ensures ReadKey(w + s) == ReadKey(s) && ReadProps(w + s) == ReadProps(s)
  {
    SkipBlank(w, s);
  }

  lemma PrettyStart(v: Value, depth: nat)
    ensures var p := Pretty(v, depth); p != "" && !IsSpace(p[0]) && p[0] != ']' && p[0] != '}'
  {
    CompactStart(v);
  }

  /** The end of a pretty array or object of depth d: newline-indented closing bracket. */
  lemma SkipToClose(depth: nat, close: char, rest: string)
    requires close == ']' || close == '}'
    ensures SkipSpace("\n" + (Indent(depth) + [close] + rest)) == [close] + rest
  {
    IndentBlank(depth);
    SkipBlank("\n", Indent(depth) + [close] + rest);
    assert Indent(depth) + [close] + rest == Indent(depth) + ([close] + rest);
    SkipBlank(Indent(depth), [close] + rest);
    SkipNothing([close] + rest);
  }

  /** Reading pretty text recovers the value at every depth, and leaves the rest. */
  lemma {:induction false} ReadPretty(v: Value, depth: nat, rest: string)
    requires Follows(rest)
    ensures ReadValue(Pretty(v, depth) + rest) == Some((Normal(v), rest))
    decreases v, 1
  {
    match v
    case Array(items) =>
      if items == [] {
        ReadCompact(v, rest);
        assert Compact(v) == "[" + "" + "]" == "[]";
      } else {
        ReadPrettyArray(items, depth, rest);
      }
    case Object(props) =>
      if props == [] {
        ReadCompact(v, rest);
        assert Compact(v) == "{" + "" + "}" == "{}";
      } else {
        ReadPrettyObject(props, depth, rest);
      }
    case _ => ReadCompact(v, rest);
  }

  lemma {:induction false} ReadPrettyArray(items: seq<Value>, depth: nat, rest: string)
    requires items != []
    ensures ReadValue(Pretty(Array(items), depth) + rest) == Some((Array(NormalItems(items)), rest))
    decreases items, 1
  {
    var lines := PrettyItems(items, depth) + (Indent(depth) + "]" + rest);
    ArrayText(items, depth, rest);
    ItemsStart(items, depth, Indent(depth) + "]" + rest);
    SkipBlank("\n", lines);
    OpenArray("\n" + lines, SkipSpace(lines));
    ReadersSkip("\n", lines);
    ReadPrettyItems(items, depth, rest);
  }

  lemma ArrayText(items: seq<Value>, depth: nat, rest: string)
    requires items != []
    ensures Pretty(Array(items), depth) + rest
            == "[" + ("\n" + (PrettyItems(items, depth) + (Indent(depth) + "]" + rest)))
  {
    Enclosed("[", "\n", PrettyItems(items, depth), Indent(depth), "]", rest);
    assert "[" + "\n" == "[\n";
  }

  lemma Enclosed(open: string, line: string, body: string, dent: string, close: string, rest: string)
    ensures open + line + body + dent + close + rest == open + (line + (body + (dent + close + rest)))
  {
    Assoc(open + line + body + dent, close, rest);
    Assoc(open + line + body, dent, close + rest);
    Assoc(open + line, body, dent + (close + rest));
    Assoc(open, line, body + (dent + (close + rest)));
    Assoc(dent, close, rest);
  }

  /** The lines of an array start, behind their indentation, with the first value. */
  lemma ItemsStart(items: seq<Value>, depth: nat, end: string)
    requires items != []
    ensures var u := SkipSpace(PrettyItems(items, depth) + end); u != "" && u[0] != ']'
  {
    var x := Pretty(items[0], depth + 1);
    var tail := Comma(items[1..]) + ("\n" + (PrettyItems(items[1..], depth) + end));
    ItemsText(items, depth, end);
    IndentBlank(depth + 1);
    SkipBlank(Indent(depth + 1), x + tail);
    PrettyStart(items[0], depth + 1);
    SkipNothing(x + tail);
  }

  lemma ItemsText(items: seq<Value>, depth: nat, end: string)
    requires items != []
    ensures PrettyItems(items, depth) + end
         == Indent(depth + 1)
            + (Pretty(items[0], depth + 1) + (Comma(items[1..]) + ("\n" + (PrettyItems(items[1..], depth) + end))))
  {
    Line(Indent(depth + 1), Pretty(items[0], depth + 1), Comma(items[1..]), PrettyItems(items[1..], depth), end);
  }

  lemma Line(head: string, x: string, comma: string, more: string, end: string)
    ensures head + x + comma + "\n" + more + end == head + (x + (comma + ("\n" + (more + end))))
  {
    Assoc(head + x + comma + "\n", more, end);
    Regroup(head, x, comma, "\n", more + end);
  }

  lemma {:induction false} ReadPrettyItems(items: seq<Value>, depth: nat, rest: string)
    requires items != []
    ensures ReadItems(PrettyItems(items, depth) + (Indent(depth) + "]" + rest)) == Some((NormalItems(items), rest))
    decreases items, 0
  {
    var end, x := Indent(depth) + "]" + rest, Pretty(items[0], depth + 1);
    var more := PrettyItems(items[1..], depth) + end;
    var tail := Comma(items[1..]) + ("\n" + more);
    ItemsText(items, depth, end);
    IndentBlank(depth + 1);
    ReadersSkip(Indent(depth + 1), x + tail);
    ReadPretty(items[0], depth + 1, tail);
    if items[1..] == [] {
      assert more == end && tail == "\n" + end;
      SkipToClose(depth, ']', rest);
      ItemsStep(x + tail, Normal(items[0]), tail, "]" + rest);
      assert NormalItems(items) == [Normal(items[0])] && ("]" + rest)[1..] == rest;
    } else {
      assert tail[0] == ',' && tail[1..] == "\n" + more;
      SkipNothing(tail);
      ItemsStep(x + tail, Normal(items[0]), tail, tail);
      ReadersSkip("\n", more);
      ReadPrettyItems(items[1..], depth, rest);
    }
  }

  lemma {:induction false} ReadPrettyObject(props: seq<Property>, depth: nat, rest: string)
    requires props != []
    ensures ReadValue(Pretty(Object(props), depth) + rest) == Some((Object(NormalProps(props)), rest))
    decreases props, 2
  {
    var lines := PrettyProps(props, depth) + (Indent(depth) + "}" + rest);
    ObjectText(props, depth, rest);
    PropsStart(props, depth, Indent(depth) + "}" + rest);
    SkipBlank("\n", lines);
    OpenObject("\n" + lines, SkipSpace(lines));
    ReadersSkip("\n", lines);
    ReadPrettyProps(props, depth, rest);
  }

  lemma ObjectText(props: seq<Property>, depth: nat, rest: string)
    requires props != []
    ensures Pretty(Object(props), depth) + rest
            == "{" + ("\n" + (PrettyProps(props, depth) + (Indent(depth) + "}" + rest)))
  {
    Enclosed("{", "\n", PrettyProps(props, depth), Indent(depth), "}", rest);
    assert "{" + "\n" == "{\n";
  }

  /** What stands behind the value of the first member. */
  function LineEnd(props: seq<Property>, depth: nat, end: string): string
    requires props != []
  {
    Comma(props[1..]) + ("\n" + (PrettyProps(props[1..], depth) + end))
  }

  /** What stands behind the key of the first member. */
  function MemberTail(props: seq<Property>, depth: nat, end: string): string
    requires props != []
  {
    Pretty(props[0].value, depth + 1) + LineEnd(props, depth, end)
  }

  lemma PrettyPropsText(props: seq<Property>, depth: nat, end: string)
    requires props != []
    ensures PrettyProps(props, depth) + end
         == Indent(depth + 1) + (Quote(props[0].key) + ":" + (" " + MemberTail(props, depth, end)))
  {
    var dent, key := Indent(depth + 1), Quote(props[0].key);
    var x, comma := Pretty(props[0].value, depth + 1), Comma(props[1..]);
    Line(dent + key + ": ", x, comma, PrettyProps(props[1..], depth), end);
    assert ": " == ":" + " ";
    Regroup(dent, key, ":", " ", MemberTail(props, depth, end));
    Assoc(dent + key, ":", " ");
    Assoc(key, ":", " " + MemberTail(props, depth, end));
  }

  lemma PropsStart(props: seq<Property>, depth: nat, end: string)
    requires props != []
    ensures var u := SkipSpace(PrettyProps(props, depth) + end); u != "" && u[0] != '}'
  {
    var u := Quote(props[0].key) + ":" + (" " + MemberTail(props, depth, end));
    PrettyPropsText(props, depth, end);
    IndentBlank(depth + 1);
    SkipBlank(Indent(depth + 1), u);
    assert u[0] == Quote(props[0].key)[0] == '"';
    SkipNothing(u);
  }

  /** The key of the first member. */
  lemma ReadPrettyKey(props: seq<Property>, depth: nat, end: string)
    requires props != []
    ensures ReadKey(PrettyProps(props, depth) + end) == Some((props[0].key, " " + MemberTail(props, depth, end)))
  {
    var value := " " + MemberTail(props, depth, end);
    PrettyPropsText(props, depth, end);
    IndentBlank(depth + 1);
    ReadersSkip(Indent(depth + 1), Quote(props[0].key) + ":" + value);
    ReadKeyBack(props[0].key, value);
  }

  lemma {:induction false} ReadPrettyMember(props: seq<Property>, depth: nat, end: string)
    requires props != []
    ensures ReadValue(" " + MemberTail(props, depth, end)) == Some((Normal(props[0].value), LineEnd(props, depth, end)))
    decreases props, 0
  {
    ReadersSkip(" ", MemberTail(props, depth, end));
    ReadPretty(props[0].value, depth + 1, LineEnd(props, depth, end));
  }

  /** One member, given what is read behind it. */
  lemma PrettyMemberStep(props: seq<Property>, depth: nat, end: string, v: Value, tail: string, u: string)
    requires props != [] && ReadValue(" " + MemberTail(props, depth, end)) == Some((v, tail)) && SkipSpace(tail) == u
             && u != ""
    ensures ReadProps(PrettyProps(props, depth) + end)
         == if u[0] == '}' then Some(([Property(props[0].key, v)], u[1..]))
            else if u[0] != ',' then None
            else match ReadProps(u[1..])
                 case None => None
                 case Some((ps, rest)) => Some(([Property(props[0].key, v)] + ps, rest))
  {
    ReadPrettyKey(props, depth, end);
    PropsStep(PrettyProps(props, depth) + end, props[0].key, " " + MemberTail(props, depth, end), v, tail, u);
  }

  /** The line break behind the last member leads to the closing brace, behind any other to the next member. */
  lemma AfterMember(props: seq<Property>, depth: nat, end: string, rest: string)
    requires props != [] && end == Indent(depth) + "}" + rest
    ensures var u, more := SkipSpace(LineEnd(props, depth, end)), PrettyProps(props[1..], depth) + end;
            && u != ""
            && (if props[1..] == [] then u[0] == '}' && u[1..] == rest
                else u[0] == ',' && ReadProps(u[1..]) == ReadProps(more))
  {
    var more := PrettyProps(props[1..], depth) + end;
    if props[1..] == [] {
      assert LineEnd(props, depth, end) == "\n" + end;
      SkipToClose(depth, '}', rest);
    } else {
      assert LineEnd(props, depth, end) == "," + ("\n" + more);
      SkipNothing("," + ("\n" + more));
      ReadersSkip("\n", more);
    }
  }

  lemma NormalFirst(props: seq<Property>)
    requires props != []
    ensures var first := Property(props[0].key, Normal(props[0].value));
            NormalProps(props) == if props[1..] == [] then [first] else [first] + NormalProps(props[1..])
  {
  }

  lemma {:induction false} ReadPrettyProps(props: seq<Property>, depth: nat, rest: string)
    requires props != []
    ensures ReadProps(PrettyProps(props, depth) + (Indent(depth) + "}" + rest)) == Some((NormalProps(props), rest))
    decreases props, 1
  {
    var end := Indent(depth) + "}" + rest;
    var tail := LineEnd(props, depth, end);
    ReadPrettyMember(props, depth, end);
    AfterMember(props, depth, end, rest);
    PrettyMemberStep(props, depth, end, Normal(props[0].value), tail, SkipSpace(tail));
    NormalFirst(props);
    if props[1..] != [] {
      ReadPrettyProps(props[1..], depth, rest);
    }
  }

  /** A whole pretty document reads back as the value it was made from. */
  lemma PrettyRoundTrip(v: Value)
    ensures ReadText(Pretty(v, 0)) == Some(Normal(v))
  {
    ReadPretty(v, 0, "");
    assert Pretty(v, 0) + "" == Pretty(v, 0);
  }
}
