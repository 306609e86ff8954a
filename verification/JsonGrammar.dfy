/**
  What the parser of src/cJSON.c makes of a text, as functions. A pointer into the text is the
  rest of the text from there on. A string literal may make the parser read beyond the terminator
  or write beyond its buffer; the result is then Overrun.
 */
module JsonGrammar {
  import opened JsonText

  datatype Result<T> = Failed | Overrun | Parsed(value: T, rest: string)

  /** A result without a value, for another type. */
  function Fault<T, U>(r: Result<T>): Result<U>
    requires !r.Parsed?
  {
    if r.Overrun? then Overrun else Failed
  }

  function Head(s: string): char {
    if s == "" then '\0' else s[0]
  }

  function At(s: string, i: nat): char {
    if i < |s| then s[i] else '\0'
  }

  function Drop(s: string, n: nat): string {
    if n <= |s| then s[n..] else ""
  }

  function Skip(s: string): (r: string)
    ensures |r| <= |s|
  {
    if s != "" && s[0] as int <= 32 then Skip(s[1..]) else s
  }

  // ---------------------------------------------------------------------------------------
  // Numbers

  predicate IsDigit(c: char) {
    '0' <= c <= '9'
  }

  function DigitValue(c: char): (d: nat)
    requires IsDigit(c)
    ensures d < 10
  {
    c as int - '0' as int
  }

  /** Reads digits on top of a number read so far. */
  function ReadDigits(s: string, n: nat): (r: (nat, string))
    ensures |r.1| <= |s|
  {
    if s != "" && IsDigit(s[0]) then ReadDigits(s[1..], 10 * n + DigitValue(s[0])) else (n, s)
  }

  function ReadSign(s: string): (bool, string) {
    if Head(s) == '-' then (true, s[1..]) else (false, s)
  }

  function ReadInteger(s: string): (nat, string) {
    var t := if Head(s) == '0' then s[1..] else s;
    if '1' <= Head(t) <= '9' then ReadDigits(t, 0) else (0, t)
  }

  /** The mantissa with the fraction's digits, and how many these are. */
  function ReadFraction(n: nat, s: string): (nat, nat, string) {
    if Head(s) == '.' && IsDigit(At(s, 1)) then
      var r := ReadDigits(s[1..], n);
      (r.0, |s[1..]| - |r.1|, r.1)
    else (n, 0, s)
  }

  function ReadExponent(s: string): (int, string) {
    if Head(s) == 'e' || Head(s) == 'E' then
      var t := s[1..];
      var minus := Head(t) == '-';
      var u := if minus || Head(t) == '+' then t[1..] else t;
      var r := ReadDigits(u, 0);
      (if minus then 0 - r.0 else r.0, r.1)
    else (0, s)
  }

  function ParseNumber(s: string): Result<Json> {
    var (minus, s1) := ReadSign(s);
    var (n, s2) := ReadInteger(s1);
    var (m, places, s3) := ReadFraction(n, s2);
    var (e, s4) := ReadExponent(s3);
    Parsed(Number(if minus then 0 - m else m, e - places), s4)
  }

  // ---------------------------------------------------------------------------------------
  // Strings

  /** The value of a hexadecimal digit, or 16. */
  function HexValue(c: char): nat {
    if '0' <= c <= '9' then c as int - '0' as int
    else if 'A' <= c <= 'F' then 10 + c as int - 'A' as int
    else if 'a' <= c <= 'f' then 10 + c as int - 'a' as int
    else 16
  }

  /** Four hexadecimal digits from place i on, 0 if there are not that many. */
  function Hex4(s: string, i: nat): (h: nat)
    ensures h < 0x1_0000
  {
    var a, b, c, d := HexValue(At(s, i)), HexValue(At(s, i + 1)), HexValue(At(s, i + 2)), HexValue(At(s, i + 3));
    if a < 16 && b < 16 && c < 16 && d < 16 then ((a * 16 + b) * 16 + c) * 16 + d else 0
  }

  function Continuation(x: nat): char {
    (0x80 + x % 0x40) as char
  }

  /** The UTF-8 bytes of a code point. */
  function Utf8(code: nat): string
    requires code < 0x11_0000
  {
    if code < 0x80 then [code as char]
    else if code < 0x800 then [(0xC0 + code / 0x40) as char, Continuation(code)]
    else if code < 0x1_0000 then [(0xE0 + code / 0x1000) as char, Continuation(code / 0x40), Continuation(code)]
    else [(0xF0 + code / 0x4_0000) as char, Continuation(code / 0x1000), Continuation(code / 0x40), Continuation(code)]
  }

  /** What the escape at the front of s stands for, and its length. */
  function Unescape(s: string): (r: (string, nat))
    ensures r.1 >= 2
  {
    match At(s, 1)
    case 'b' => ("\U{08}", 2)
    case 'f' => ("\U{0C}", 2)
    case 'n' => ("\n", 2)
    case 'r' => ("\r", 2)
    case 't' => ("\t", 2)
    case 'u' => UnescapeCode(s)
    case c => (if |s| < 2 then "" else [c], 2)
  }

  function UnescapeCode(s: string): (r: (string, nat))
    ensures r.1 >= 2
  {
    var (code, width) := CodeAt(s, 0);
    (if code == 0 then "" else Utf8(code), width)
  }

  /** The code point of the escape at place i, 0 if it stands for none, and the length of the escape. */
  function CodeAt(s: string, i: nat): (r: (nat, nat))
    ensures r.0 < 0x11_0000 && r.1 >= 2
  {
    var high := Hex4(s, i + 2);
    if 0xDC00 <= high <= 0xDFFF then (0, 6)
    else if 0xD800 <= high <= 0xDBFF then
      if At(s, i + 6) != '\\' || At(s, i + 7) != 'u' then (0, 6)
      else
        var low := Hex4(s, i + 8);
        if low < 0xDC00 || low > 0xDFFF then (0, 12)
        else (0x1_0000 + high % 0x400 * 0x400 + low % 0x400, 12)
    else (high, 6)
  }

  /** The characters up to a quote or the end. */
  function ParseChars(s: string): (r: (string, string))
    ensures |r.1| <= |s|
    decreases |s|
  {
    if s == "" || s[0] == '\"' then ("", s)
    else if s[0] != '\\' then
      var r := ParseChars(s[1..]);
      ([s[0]] + r.0, r.1)
    else
      var (t, n) := Unescape(s);
      var r := ParseChars(Drop(s, n));
      (t + r.0, r.1)
  }

  // ---------------------------------------------------------------------------------------
  // The buffer of a string

  /** The first pass: how many characters and escapes there are before the closing quote. */
  function Count(s: string): nat
    decreases |s|
  {
    if s == "" || s[0] == '\"' then 0
    else if s[0] != '\\' then 1 + Count(s[1..])
    else 1 + Count(Drop(s, 2))
  }

  /** Where the first pass ends. */
  function End(s: string): (r: string)
    ensures |r| <= |s|
  {
    if s == "" || s[0] == '\"' then s
    else if s[0] != '\\' then End(s[1..])
    else End(Drop(s, 2))
  }

  /** The first pass meets no backslash right before the terminator. */
  predicate Scans(s: string) {
    if s == "" || s[0] == '\"' then true
    else if s[0] != '\\' then Scans(s[1..])
    else |s| >= 2 && Scans(s[2..])
  }

  /** How far the second pass goes at once. */
  function Width(s: string): (n: nat)
    requires s != ""
    ensures n > 0
  {
    if s[0] != '\\' then 1 else Unescape(s).1
  }

  /** The second pass never goes beyond the last n characters. */
  predicate Keeps(s: string, n: nat)
    decreases |s|
  {
    s == "" || s[0] == '\"' || (Width(s) + n <= |s| && Keeps(s[Width(s)..], n))
  }

  /** Both passes over a literal stay within the text, and the second one within the buffer. */
  predicate Contained(s: string) {
    Scans(s) && Keeps(s, 0) && |ParseChars(s).0| <= Count(s)
  }

  function ParseString(s: string): (r: Result<string>)
    ensures r.Parsed? ==> |r.rest| < |s|
  {
    if Head(s) != '\"' then Failed
    else if !Contained(s[1..]) then Overrun
    else
      var (text, rest) := ParseChars(s[1..]);
      Parsed(text, if Head(rest) == '\"' then rest[1..] else rest)
  }

  // ---------------------------------------------------------------------------------------
  // Values

  function ParseValue(s: string): (r: Result<Json>)
    ensures r.Parsed? ==> |r.rest| < |s|
    decreases |s|, 1
  {
    if "null" <= s then Parsed(Null, s[4..])
    else if "false" <= s then Parsed(False, s[5..])
    else if "true" <= s then Parsed(True, s[4..])
    else if Head(s) == '\"' then
      var r := ParseString(s);
      if r.Parsed? then Parsed(String(r.value), r.rest) else Fault(r)
    else if Head(s) == '-' || IsDigit(Head(s)) then NumberShrinks(s); ParseNumber(s)
    else if Head(s) == '[' then ParseArray(s[1..])
    else if Head(s) == '{' then ParseObject(s[1..])
    else Failed
  }

  lemma NumberShrinks(s: string)
    requires Head(s) == '-' || IsDigit(Head(s))
    ensures |ParseNumber(s).rest| < |s|
  {
  }

  function ParseArray(s: string): (r: Result<Json>)
    ensures r.Parsed? ==> |r.rest| < |s|
    decreases |s|, 3
  {
    var t := Skip(s);
    if Head(t) == ']' then Parsed(Array(NoItems), t[1..])
    else
      var r := ParseItems(t);
      if r.Parsed? then Parsed(Array(r.value), r.rest) else Fault(r)
  }

  /** A value, then more of them after commas, up to the closing bracket. */
  function ParseItems(s: string): (r: Result<Items>)
    ensures r.Parsed? ==> |r.rest| < |s|
    decreases |s|, 2
  {
    var v := ParseValue(Skip(s));
    if !v.Parsed? then Fault(v)
    else
      var t := Skip(v.rest);
      if Head(t) == ',' then
        var more := ParseItems(t[1..]);
        if !more.Parsed? then Fault(more) else Parsed(Item(v.value, more.value), more.rest)
      else if Head(t) == ']' then Parsed(Item(v.value, NoItems), t[1..])
      else Failed
  }

  function ParseObject(s: string): (r: Result<Json>)
    ensures r.Parsed? ==> |r.rest| < |s|
    decreases |s|, 3
  {
    var t := Skip(s);
    if Head(t) == '}' then Parsed(Object(NoMembers), t[1..])
    else
      var r := ParseMembers(t);
      if r.Parsed? then Parsed(Object(r.value), r.rest) else Fault(r)
  }

  /** A name, a colon and a value, then more of them after commas, up to the closing brace. */
  function ParseMembers(s: string): (r: Result<Members>)
    ensures r.Parsed? ==> |r.rest| < |s|
    decreases |s|, 2
  {
    var name := ParseString(Skip(s));
    if !name.Parsed? then Fault(name)
    else if Head(Skip(name.rest)) != ':' then Failed
    else
      var v := ParseValue(Skip(Skip(name.rest)[1..]));
      if !v.Parsed? then Fault(v)
      else
        var t := Skip(v.rest);
        if Head(t) == ',' then
          var more := ParseMembers(t[1..]);
          if !more.Parsed? then Fault(more) else Parsed(Member(name.value, v.value, more.value), more.rest)
        else if Head(t) == '}' then Parsed(Member(name.value, v.value, NoMembers), t[1..])
        else Failed
  }

  /** The whole parse, with or without the demand that nothing but white space follows. */
  function Parse(s: string, requireEnd: bool): Result<Json> {
    var r := ParseValue(Skip(s));
    if !r.Parsed? || !requireEnd then r
    else if Skip(r.rest) != "" then Failed
    else Parsed(r.value, Skip(r.rest))
  }
}
