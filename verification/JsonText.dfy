/**
  JSON values and their texts (src/cJSON.c). A text is the characters of a C string before its
  terminator; a character stands for a byte.
 */
module JsonText {

  /** A number is mantissa times ten to the exponent. Children are linked lists. */
  datatype Json =
    | Null
    | False
    | True
    | Number(mantissa: int, exponent: int)
    | String(text: string)
    | Array(items: Items)
    | Object(members: Members)

  datatype Items = NoItems | Item(head: Json, tail: Items)

  datatype Members = NoMembers | Member(name: string, value: Json, tail: Members)

  const INT_MIN: int := -0x8000_0000
  const INT_MAX: int := 0x7fff_ffff

  // ---------------------------------------------------------------------------------------
  // Values whose texts are modelled

  ghost predicate NulFree(s: string) {
    forall i :: 0 <= i < |s| ==> s[i] != '\0'
  }

  /** Integer numbers in range, and strings that C strings can hold. */
  ghost predicate Printable(v: Json) {
    match v
    case Number(m, e) => e == 0 && INT_MIN <= m <= INT_MAX
    case String(s) => NulFree(s)
    case Array(items) => PrintableItems(items)
    case Object(members) => PrintableMembers(members)
    case _ => true
  }

  ghost predicate PrintableItems(items: Items) {
    items.Item? ==> Printable(items.head) && PrintableItems(items.tail)
  }

  ghost predicate PrintableMembers(ms: Members) {
    ms.Member? ==> NulFree(ms.name) && Printable(ms.value) && PrintableMembers(ms.tail)
  }

  // ---------------------------------------------------------------------------------------
  // Strings

  function HexDigit(d: nat): char
    requires d < 16
  {
    "0123456789abcdef"[d]
  }

  /** How one character of a string is written. */
  function Escape(c: char): string {
    if c as int > 31 && c != '\"' && c != '\\' then [c]
    else
      ['\\'] +
      match c
      case '\\' => "\\"
      case '\"' => "\""
      case '\U{08}' => "b"
      case '\U{0C}' => "f"
      case '\n' => "n"
      case '\r' => "r"
      case '\t' => "t"
      case _ => EscapeCode(c as int)
  }

  /** The format u%04x. */
  function EscapeCode(code: nat): string
    requires code < 0x11_0000
  {
    ['u', HexDigit(code / 0x1000 % 16), HexDigit(code / 0x100 % 16), HexDigit(code / 16 % 16), HexDigit(code % 16)]
  }

  function Escaped(s: string): string {
    if s == "" then "" else Escape(s[0]) + Escaped(s[1..])
  }

  function StringText(s: string): string {
    "\"" + Escaped(s) + "\""
  }

  // ---------------------------------------------------------------------------------------
  // Numbers

  function Digit(d: nat): char
    requires d < 10
  {
    "0123456789"[d]
  }

  function Digits(n: nat): string {
    if n < 10 then [Digit(n)] else Digits(n / 10) + [Digit(n % 10)]
  }

  function Decimal(n: int): string {
    if n < 0 then "-" + Digits(-n) else Digits(n)
  }

  // ---------------------------------------------------------------------------------------
  // Values

  function Tabs(n: int): string
    decreases n
  {
    if n <= 0 then "" else "\t" + Tabs(n - 1)
  }

  function If(fmt: bool, s: string): string {
    if fmt then s else ""
  }

  function Text(v: Json, depth: nat, fmt: bool): string {
    match v
    case Null => "null"
    case False => "false"
    case True => "true"
    case Number(m, _) => Decimal(m)
    case String(s) => StringText(s)
    case Array(items) => "[" + ItemsText(items, depth + 1, fmt) + "]"
    case Object(NoMembers) => "{" + If(fmt, "\n" + Tabs(depth - 1)) + "}"
    case Object(ms) => "{" + If(fmt, "\n") + MembersText(ms, depth + 1, fmt) + If(fmt, Tabs(depth)) + "}"
  }

  function ItemsText(items: Items, depth: nat, fmt: bool): string {
    match items
    case NoItems => ""
    case Item(v, NoItems) => Text(v, depth, fmt)
    case Item(v, more) => Text(v, depth, fmt) + "," + If(fmt, " ") + ItemsText(more, depth, fmt)
  }

  function MembersText(ms: Members, depth: nat, fmt: bool): string {
    match ms
    case NoMembers => ""
    case Member(name, v, more) =>
      If(fmt, Tabs(depth)) + StringText(name) + ":" + If(fmt, "\t") + Text(v, depth, fmt) +
      If(more.Member?, ",") + If(fmt, "\n") + MembersText(more, depth, fmt)
  }
}
