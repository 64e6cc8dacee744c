/** The JSON encoder of `json.rs`: compact and pretty layouts, without floats. */
module Json {
  import opened Decimals

  datatype Value =
    | Null
    | Bool(b: bool)
    | Int(i: int)
    | UInt(u: nat)
    | Str(s: string)
    | Array(items: seq<Value>)
    | Object(props: seq<Property>)

  datatype Property = Property(key: string, value: Value)

  // ---- Text of the leaves ----

  function Integer(i: int): string {
    if i < 0 then "-" + Decimal(-i) else Decimal(i)
  }

  function HexDigit(d: nat): char
    requires d < 16
  {
    "0123456789abcdef"[d]
  }

  /** `\\u{:04x}` of a control character. */
  function UnicodeEscape(c: nat): string
    requires c < 0x20
  {
    "\\u00" + [HexDigit(c / 16), HexDigit(c % 16)]
  }

  function EscapeChar(c: char): string {
    if c == '"' then "\\\""
    else if c == '\\' then "\\\\"
    else if c == '\n' then "\\n"
    else if c == '\r' then "\\r"
    else if c == '\t' then "\\t"
    else if c == '\U{8}' then "\\b"
    else if c == '\U{c}' then "\\f"
    else if c as int < 0x20 then UnicodeEscape(c as int)
    else [c]
  }

  function Escape(s: string): string {
    if s == "" then "" else EscapeChar(s[0]) + Escape(s[1..])
  }

  function Quote(s: string): string {
    "\"" + Escape(s) + "\""
  }

  // ---- The two layouts ----

  function Compact(v: Value): string
    decreases v, 1
  {
    match v
    case Null => "null"
    case Bool(b) => if b then "true" else "false"
    case Int(i) => Integer(i)
    case UInt(u) => Decimal(u)
    case Str(s) => Quote(s)
    case Array(items) => "[" + CompactItems(items) + "]"
    case Object(props) => "{" + CompactProps(props) + "}"
  }

  function Comma<T>(rest: seq<T>): string {
    if rest == [] then "" else ","
  }

  function CompactItems(items: seq<Value>): string
    decreases items, 0
  {
    if items == [] then "" else Compact(items[0]) + Comma(items[1..]) + CompactItems(items[1..])
  }

  function CompactProps(props: seq<Property>): string
    decreases props, 0
  {
    if props == [] then ""
    else Quote(props[0].key) + ":" + Compact(props[0].value) + Comma(props[1..]) + CompactProps(props[1..])
  }

  function Indent(depth: nat): string {
    if depth == 0 then "" else "  " + Indent(depth - 1)
  }

  function Pretty(v: Value, depth: nat): string
    decreases v, 1
  {
    match v
    case Array(items) =>
      if items == [] then "[]" else "[\n" + PrettyItems(items, depth) + Indent(depth) + "]"
    case Object(props) =>
      if props == [] then "{}" else "{\n" + PrettyProps(props, depth) + Indent(depth) + "}"
    case _ => Compact(v)
  }

  function PrettyItems(items: seq<Value>, depth: nat): string
    decreases items, 0
  {
    if items == [] then ""
    else Indent(depth + 1) + Pretty(items[0], depth + 1) + Comma(items[1..]) + "\n" + PrettyItems(items[1..], depth)
  }

  function PrettyProps(props: seq<Property>, depth: nat): string
    decreases props, 0
  {
    if props == [] then ""
    else
      Indent(depth + 1) + Quote(props[0].key) + ": " + Pretty(props[0].value, depth + 1) + Comma(props[1..]) + "\n"
      + PrettyProps(props[1..], depth)
  }
}
