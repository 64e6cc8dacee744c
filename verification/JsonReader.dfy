/** A reader for JSON texts (sections 4 to 7 of RFC 8259, integers only), and the round trip with the encoder. */
module JsonReader {
  import opened Options
  import opened Decimals
  import opened Json
  import opened JsonLayout

  // ---- Lexical level ----

  function SkipSpace(s: string): (r: string)
    ensures |r| <= |s|
  {
    if s != "" && IsSpace(s[0]) then SkipSpace(s[1..]) else s
  }

  function HexValue(c: char): (r: Option<nat>)
    ensures r.Some? ==> r.value < 16
  {
    if '0' <= c <= '9' then Some(c as int - '0' as int)
    else if 'a' <= c <= 'f' then Some(c as int - 'a' as int + 10)
    else if 'A' <= c <= 'F' then Some(c as int - 'A' as int + 10)
    else None
  }

  /**
   The character named by four hex digits; surrogates (D800 to DFFF) are not characters, and pairs of them are not
   read.
   */
  function ReadHex4(s: string): Option<char>
    requires |s| >= 4
  {
    match (HexValue(s[0]), HexValue(s[1]), HexValue(s[2]), HexValue(s[3]))
    case (Some(a), Some(b), Some(c), Some(d)) =>
      var code := 4096 * a + 256 * b + 16 * c + d;
      if code < 0xD800 || 0xE000 <= code then Some(code as char) else None
    case _ => None
  }

  /** What follows a backslash in a string literal. */
  function ReadEscape(s: string): (r: Option<(char, string)>)
    ensures r.Some? ==> |r.value.1| < |s|
  {
    if s == "" then None
    else if s[0] == '"' then Some(('"', s[1..]))
    else if s[0] == '\\' then Some(('\\', s[1..]))
    else if s[0] == '/' then Some(('/', s[1..]))
    else if s[0] == 'b' then Some(('\U{8}', s[1..]))
    else if s[0] == 'f' then Some(('\U{c}', s[1..]))
    else if s[0] == 'n' then Some(('\n', s[1..]))
    else if s[0] == 'r' then Some(('\r', s[1..]))
    else if s[0] == 't' then Some(('\t', s[1..]))
    else if s[0] == 'u' && |s| >= 5 then
      match ReadHex4(s[1..5])
      case None => None
      case Some(c) => Some((c, s[5..]))
    else None
  }

  /** The rest of a string literal after its opening quote; control characters must be escaped. */
  function ReadChars(s: string): (r: Option<(string, string)>)
    ensures r.Some? ==> |r.value.1| < |s|
    decreases |s|
  {
    if s == "" then None
    else if s[0] == '"' then Some(("", s[1..]))
    else if s[0] == '\\' then
      match ReadEscape(s[1..])
      case None => None
      case Some((c, rest)) =>
        match ReadChars(rest)
        case None => None
        case Some((t, rest')) => Some(([c] + t, rest'))
    else if s[0] as int < 0x20 then None
    else
      match ReadChars(s[1..])
      case None => None
      case Some((t, rest)) => Some(([s[0]] + t, rest))
  }

  function DigitCount(s: string): (n: nat)
    ensures n <= |s|
  {
    if s != "" && IsDigit(s[0]) then 1 + DigitCount(s[1..]) else 0
  }

  /** An unsigned integer: no leading zero, and no fraction or exponent behind it. */
  function ReadNat(s: string): (r: Option<(int, string)>)
    ensures r.Some? ==> |r.value.1| < |s|
  {
    var n := DigitCount(s);
    if n == 0 || (n > 1 && s[0] == '0') then None
    else if n < |s| && (s[n] == '.' || s[n] == 'e' || s[n] == 'E') then None
    else Some((DigitsValue(s[..n]), s[n..]))
  }

  function ReadNumber(s: string): (r: Option<(Value, string)>)
    ensures r.Some? ==> |r.value.1| < |s|
  {
    if s != "" && s[0] == '-' then
      match ReadNat(s[1..])
      case None => None
      case Some((n, rest)) => Some((Int(-n), rest))
    else
      match ReadNat(s)
      case None => None
      case Some((n, rest)) => Some((Int(n), rest))
  }

  // ---- Values ----

  function ReadValue(s: string): (r: Option<(Value, string)>)
    ensures r.Some? ==> |r.value.1| < |s|
    decreases |s|, 0
  {
    var t := SkipSpace(s);
    if t == "" then None
    else if t[0] == '"' then
      match ReadChars(t[1..])
      case None => None
      case Some((x, rest)) => Some((Str(x), rest))
    else if t[0] == '[' then
      var u := SkipSpace(t[1..]);
      if u != "" && u[0] == ']' then Some((Array([]), u[1..]))
      else
        match ReadItems(t[1..])
        case None => None
        case Some((xs, rest)) => Some((Array(xs), rest))
    else if t[0] == '{' then
      var u := SkipSpace(t[1..]);
      if u != "" && u[0] == '}' then Some((Object([]), u[1..]))
      else
        match ReadProps(t[1..])
        case None => None
        case Some((ps, rest)) => Some((Object(ps), rest))
    else if "null" <= t then Some((Null, t[4..]))
    else if "true" <= t then Some((Bool(true), t[4..]))
    else if "false" <= t then Some((Bool(false), t[5..]))
    else ReadNumber(t)
  }

  /** One or more values separated by commas, and the closing bracket. */
  function ReadItems(s: string): (r: Option<(seq<Value>, string)>)
    ensures r.Some? ==> |r.value.1| < |s|
    decreases |s|, 1
  {
    match ReadValue(s)
    case None => None
    case Some((x, rest)) =>
      var u := SkipSpace(rest);
      if u == "" then None
      else if u[0] == ']' then Some(([x], u[1..]))
      else if u[0] == ',' then
        match ReadItems(u[1..])
        case None => None
        case Some((xs, rest')) => Some(([x] + xs, rest'))
      else None
  }

  /** `"key" :` in front of a member's value. */
  function ReadKey(s: string): (r: Option<(string, string)>)
    ensures r.Some? ==> |r.value.1| < |s|
  {
    var t := SkipSpace(s);
    if t == "" || t[0] != '"' then None
    else
      match ReadChars(t[1..])
      case None => None
      case Some((k, rest)) =>
        var u := SkipSpace(rest);
        if u == "" || u[0] != ':' then None else Some((k, u[1..]))
  }

  function ReadProps(s: string): (r: Option<(seq<Property>, string)>)
    ensures r.Some? ==> |r.value.1| < |s|
    decreases |s|, 1
  {
    match ReadKey(s)
    case None => None
    case Some((k, rest)) =>
      match ReadValue(rest)
      case None => None
      case Some((x, rest')) =>
        var u := SkipSpace(rest');
        if u == "" then None
        else if u[0] == '}' then Some(([Property(k, x)], u[1..]))
        else if u[0] == ',' then
          match ReadProps(u[1..])
          case None => None
          case Some((ps, rest'')) => Some(([Property(k, x)] + ps, rest''))
        else None
  }

  /** A whole text: one value and nothing but whitespace behind it. */
  function ReadText(s: string): Option<Value> {
    match ReadValue(s)
    case None => None
    case Some((v, rest)) => if SkipSpace(rest) == "" then Some(v) else None
  }

  // ---- Round trips of the leaves ----

  lemma ReadOne(c: char, x: string)
    ensures ReadChars(EscapeChar(c) + x)
         == match ReadChars(x) case None => None case Some((t, rest)) => Some(([c] + t, rest))
  {
    var e := EscapeChar(c);
    if |e| == 1 {
      assert (e + x)[1..] == x && (e + x)[0] == c;
    } else if |e| == 2 {
      assert (e + x)[0] == '\\' && (e + x)[1..] == [e[1]] + x && ([e[1]] + x)[1..] == x;
      assert ReadEscape([e[1]] + x) == Some((c, x));
    } else {
      assert (e + x)[0] == '\\' && (e + x)[1..] == e[1..] + x;
      UnicodeReads(c as int, x);
      assert ReadEscape(e[1..] + x) == Some((c, x));
    }
  }

  lemma UnicodeReads(c: nat, x: string)
    requires c < 0x20
    ensures ReadEscape(UnicodeEscape(c)[1..] + x) == Some((c as char, x))
  {
    var h, l := HexDigit(c / 16), HexDigit(c % 16);
    var t := UnicodeEscape(c)[1..];
    assert t == "u00" + [h, l] && |t| == 5;
    assert (t + x)[1..5] == "00" + [h, l] && (t + x)[5..] == x && (t + x)[0] == 'u';
    HexReads(c / 16);
    HexReads(c % 16);
  }

  lemma HexReads(d: nat)
    requires d < 16
    ensures HexValue(HexDigit(d)) == Some(d)
  {
  }

  lemma {:induction false} ReadEscaped(s: string, rest: string)
    ensures ReadChars(Escape(s) + "\"" + rest) == Some((s, rest))
  {
    if s == "" {
      assert Escape(s) + "\"" + rest == "\"" + rest && ("\"" + rest)[1..] == rest;
    } else {
      ReadEscaped(s[1..], rest);
      ReadOne(s[0], Escape(s[1..]) + "\"" + rest);
      assert Escape(s) + "\"" + rest == EscapeChar(s[0]) + (Escape(s[1..]) + "\"" + rest);
      assert [s[0]] + s[1..] == s;
    }
  }

  lemma {:induction false} DigitRun(s: string, rest: string)
    requires forall i :: 0 <= i < |s| ==> IsDigit(s[i])
    requires rest == "" || !IsDigit(rest[0])
    ensures DigitCount(s + rest) == |s|
  {
    if s == "" {
      assert s + rest == rest;
    } else {
      assert (s + rest)[1..] == s[1..] + rest && (s + rest)[0] == s[0];
      DigitRun(s[1..], rest);
    }
  }

  /** What can follow a value. */
  predicate Follows(rest: string) {
    rest == "" || rest[0] == ',' || rest[0] == ']' || rest[0] == '}' || IsSpace(rest[0])
  }

  lemma ReadDecimal(n: nat, rest: string)
    requires Follows(rest)
    ensures ReadNat(Decimal(n) + rest) == Some((n, rest))
  {
    DecimalTokens(n);
    DecimalValue(n);
    DigitRun(Decimal(n), rest);
    var s := Decimal(n) + rest;
    assert s[..|Decimal(n)|] == Decimal(n) && s[|Decimal(n)|..] == rest;
  }

  // ---- The round trip ----

  /** The same tree with every integer in one form. */
  function Normal(v: Value): Value
    decreases v, 1
  {
    match v
    case UInt(u) => Int(u)
    case Array(items) => Array(NormalItems(items))
    case Object(props) => Object(NormalProps(props))
    case _ => v
  }

  function NormalItems(items: seq<Value>): seq<Value>
    decreases items, 0
  {
    if items == [] then [] else [Normal(items[0])] + NormalItems(items[1..])
  }

  function NormalProps(props: seq<Property>): seq<Property>
    decreases props, 0
  {
    if props == [] then [] else [Property(props[0].key, Normal(props[0].value))] + NormalProps(props[1..])
  }

  /** Compact text never starts with whitespace or a closing bracket. */
  lemma CompactStart(v: Value)
    ensures Compact(v) != "" && !IsSpace(Compact(v)[0]) && Compact(v)[0] != ']' && Compact(v)[0] != '}'
  {
    match v
    case Int(i) => DecimalTokens(if i < 0 then -i else i);
    case UInt(u) => DecimalTokens(u);
    case _ =>
  }

  lemma SkipNothing(s: string)
    requires s != "" && !IsSpace(s[0])
    ensures SkipSpace(s) == s
  {
  }

  lemma ReadString(x: string, rest: string)
    ensures ReadValue(Quote(x) + rest) == Some((Str(x), rest))
  {
    var s := Quote(x) + rest;
    SkipNothing(s);
    assert s[1..] == Escape(x) + "\"" + rest;
    ReadEscaped(x, rest);
  }

  lemma NumberStart(s: string)
    requires s != "" && (s[0] == '-' || IsDigit(s[0]))
    ensures ReadValue(s) == ReadNumber(s)
  {
    SkipNothing(s);
    assert "null"[0] != s[0] && "true"[0] != s[0] && "false"[0] != s[0];
  }

  lemma ReadUnsigned(s: string, n: int, rest: string)
    requires s != "" && IsDigit(s[0]) && ReadNat(s) == Some((n, rest))
    ensures ReadNumber(s) == Some((Int(n), rest))
  {
  }

  lemma ReadNegative(s: string, digits: string, n: int, rest: string)
    requires s != "" && s[0] == '-' && s[1..] == digits && ReadNat(digits) == Some((n, rest))
    ensures ReadNumber(s) == Some((Int(-n), rest))
  {
  }

  lemma ReadSigned(digits: string, n: int, rest: string)
    requires digits != "" && IsDigit(digits[0]) && ReadNat(digits + rest) == Some((n, rest))
    ensures ReadValue(digits + rest) == Some((Int(n), rest))
    ensures ReadValue("-" + digits + rest) == Some((Int(-n), rest))
  {
    var t := digits + rest;
    NumberStart(t);
    ReadUnsigned(t, n, rest);
    var s := "-" + digits + rest;
    assert s == "-" + t && s[0] == '-' && s[1..] == t;
    NumberStart(s);
    ReadNegative(s, t, n, rest);
  }

  lemma ReadInteger(i: int, rest: string)
    requires Follows(rest)
    ensures ReadValue(Integer(i) + rest) == Some((Int(i), rest))
  {
    var n := if i < 0 then -i else i;
    DecimalTokens(n);
    ReadDecimal(n, rest);
    ReadSigned(Decimal(n), n, rest);
  }

  lemma ReadWord(w: string, v: Value, rest: string)
    requires (w == "null" && v == Null) || (w == "true" && v == Bool(true)) || (w == "false" && v == Bool(false))
    ensures ReadValue(w + rest) == Some((v, rest))
  {
    var s := w + rest;
    SkipNothing(s);
    assert w <= s && s[|w|..] == rest && s[0] == w[0];
    assert w != "null" ==> !("null" <= s) by { assert w != "null" ==> s[0] != "null"[0]; }
    assert w == "false" ==> !("true" <= s) by { assert w == "false" ==> s[0] != "true"[0]; }
  }

  /**
   Reading compact text recovers the value, with every string and the order of members intact, and leaves the rest.
   */
  lemma {:induction false} ReadCompact(v: Value, rest: string)
    requires Follows(rest)
    ensures ReadValue(Compact(v) + rest) == Some((Normal(v), rest))
    decreases v, 1
  {
    match v
    case Null => ReadWord("null", v, rest);
    case Bool(b) => ReadWord(Compact(v), v, rest);
    case Int(i) => ReadInteger(i, rest);
    case UInt(u) => ReadInteger(u, rest);
    case Str(x) => ReadString(x, rest);
    case Array(items) => ReadArray(items, rest);
    case Object(props) => ReadObject(props, rest);
  }

  lemma {:induction false} ReadArray(items: seq<Value>, rest: string)
    requires Follows(rest)
    ensures ReadValue(Compact(Array(items)) + rest) == Some((Normal(Array(items)), rest))
    decreases items, 1
  {
    var body := CompactItems(items) + "]" + rest;
    assert Compact(Array(items)) + rest == "[" + body;
    if items == [] {
      assert body == "]" + rest;
      SkipNothing(body);
      OpenArray(body, body);
      assert body[1..] == rest;
    } else {
      CompactStart(items[0]);
      assert body[0] == Compact(items[0])[0];
      SkipNothing(body);
      OpenArray(body, body);
      ReadCompactItems(items, rest);
    }
  }

  /** What follows an opening bracket, where u is the text from the next token on. */
  lemma OpenArray(body: string, u: string)
    requires SkipSpace(body) == u && u != ""
    ensures ReadValue("[" + body)
         == if u[0] == ']' then Some((Array([]), u[1..]))
            else match ReadItems(body) case None => None case Some((xs, rest)) => Some((Array(xs), rest))
  {
    var s := "[" + body;
    assert s[0] == '[' && s[1..] == body;
    SkipNothing(s);
  }

  lemma {:induction false} ReadObject(props: seq<Property>, rest: string)
    requires Follows(rest)
    ensures ReadValue(Compact(Object(props)) + rest) == Some((Normal(Object(props)), rest))
    decreases props, 1
  {
    var body := CompactProps(props) + "}" + rest;
    assert Compact(Object(props)) + rest == "{" + body;
    if props == [] {
      assert body == "}" + rest;
      SkipNothing(body);
      OpenObject(body, body);
      assert body[1..] == rest;
    } else {
      assert body[0] == '"' by {
        assert Quote(props[0].key)[0] == '"' && CompactProps(props)[0] == Quote(props[0].key)[0];
      }
      SkipNothing(body);
      OpenObject(body, body);
      ReadCompactProps(props, rest);
    }
  }

  lemma OpenObject(body: string, u: string)
    requires SkipSpace(body) == u && u != ""
    ensures ReadValue("{" + body)
         == if u[0] == '}' then Some((Object([]), u[1..]))
            else match ReadProps(body) case None => None case Some((ps, rest)) => Some((Object(ps), rest))
  {
    var s := "{" + body;
    assert s[0] == '{' && s[1..] == body;
    SkipNothing(s);
  }

  /** One value of an array, given what is read behind it; u is the text from the next token on. */
  lemma ItemsStep(s: string, v: Value, tail: string, u: string)
    requires ReadValue(s) == Some((v, tail)) && SkipSpace(tail) == u && u != ""
    ensures ReadItems(s)
         == if u[0] == ']' then Some(([v], u[1..]))
            else if u[0] != ',' then None
            else match ReadItems(u[1..]) case None => None case Some((vs, rest)) => Some(([v] + vs, rest))
  {
  }

  lemma {:induction false} ReadCompactItems(items: seq<Value>, rest: string)
    requires items != []
    ensures ReadItems(CompactItems(items) + "]" + rest) == Some((NormalItems(items), rest))
    decreases items, 0
  {
    var x, more := Compact(items[0]), CompactItems(items[1..]) + "]" + rest;
    var tail := Comma(items[1..]) + more;
    assert CompactItems(items) + "]" + rest == x + tail;
    if items[1..] == [] {
      assert tail == "]" + rest && tail[0] == ']' && tail[1..] == rest;
      ReadCompact(items[0], tail);
      SkipNothing(tail);
      ItemsStep(x + tail, Normal(items[0]), tail, tail);
      assert NormalItems(items) == [Normal(items[0])];
    } else {
      assert tail == "," + more && tail[0] == ',' && tail[1..] == more;
      ReadCompact(items[0], tail);
      SkipNothing(tail);
      ItemsStep(x + tail, Normal(items[0]), tail, tail);
      ReadCompactItems(items[1..], rest);
    }
  }

  lemma ReadKeyBack(key: string, rest: string)
    ensures ReadKey(Quote(key) + ":" + rest) == Some((key, rest))
  {
    var s := Quote(key) + ":" + rest;
    SkipNothing(s);
    assert s[1..] == Escape(key) + "\"" + (":" + rest);
    ReadEscaped(key, ":" + rest);
    SkipNothing(":" + rest);
    assert (":" + rest)[1..] == rest;
  }

  /** One member of an object, given what is read behind it. */
  lemma PropsStep(s: string, key: string, s': string, v: Value, tail: string, u: string)
    requires ReadKey(s) == Some((key, s')) && ReadValue(s') == Some((v, tail)) && SkipSpace(tail) == u && u != ""
    ensures ReadProps(s)
         == if u[0] == '}' then Some(([Property(key, v)], u[1..]))
            else if u[0] != ',' then None
            else match ReadProps(u[1..])
                 case None => None
                 case Some((ps, rest)) => Some(([Property(key, v)] + ps, rest))
  {
  }

  lemma {:induction false} ReadCompactProps(props: seq<Property>, rest: string)
    requires props != []
    ensures ReadProps(CompactProps(props) + "}" + rest) == Some((NormalProps(props), rest))
    decreases props, 0
  {
    var p := props[0];
    var x, more := Compact(p.value), CompactProps(props[1..]) + "}" + rest;
    var tail := Comma(props[1..]) + more;
    var s := Quote(p.key) + ":" + (x + tail);
    PropsText(props, rest);
    ReadKeyBack(p.key, x + tail);
    if props[1..] == [] {
      assert tail == "}" + rest && tail[0] == '}' && tail[1..] == rest;
      ReadCompact(p.value, tail);
      SkipNothing(tail);
      PropsStep(s, p.key, x + tail, Normal(p.value), tail, tail);
      assert NormalProps(props) == [Property(p.key, Normal(p.value))];
    } else {
      assert tail == "," + more && tail[0] == ',' && tail[1..] == more;
      ReadCompact(p.value, tail);
      SkipNothing(tail);
      PropsStep(s, p.key, x + tail, Normal(p.value), tail, tail);
      ReadCompactProps(props[1..], rest);
    }
  }

  lemma PropsText(props: seq<Property>, rest: string)
    requires props != []
    ensures CompactProps(props) + "}" + rest
         == Quote(props[0].key) + ":"
            + (Compact(props[0].value) + (Comma(props[1..]) + (CompactProps(props[1..]) + "}" + rest)))
  {
    Regroup(Quote(props[0].key) + ":", Compact(props[0].value), Comma(props[1..]), CompactProps(props[1..]),
            "}" + rest);
    Assoc(CompactProps(props), "}", rest);
    Assoc(CompactProps(props[1..]), "}", rest);
  }

  lemma Assoc(a: string, b: string, c: string)
    ensures a + b + c == a + (b + c)
  {
  }

  lemma Regroup(a: string, b: string, c: string, d: string, e: string)
    ensures a + b + c + d + e == a + (b + (c + (d + e)))
  {
    Assoc(a + b + c, d, e);
    Assoc(a + b, c, d + e);
    Assoc(a, b, c + (d + e));
  }

  /** A whole compact document reads back as the value it was made from. */
  lemma CompactRoundTrip(v: Value)
    ensures ReadText(Compact(v)) == Some(Normal(v))
  {
    ReadCompact(v, "");
    assert Compact(v) + "" == Compact(v);
  }
}
