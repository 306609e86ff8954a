/** The escapes for code points, and the UTF-8 bytes they stand for (src/cJSON.c, `parse_string`). */
module JsonUnicode {
  import opened JsonText
  import opened JsonGrammar
  import opened JsonRoundTrip
  import opened JsonBuffer

  /** Code points that an escape can stand for. */
  predicate Scalar(code: nat) {
    0 < code < 0x11_0000 && !(0xD800 <= code <= 0xDFFF)
  }

  function HighHalf(code: nat): nat
    requires 0x1_0000 <= code < 0x11_0000
  {
    0xD800 + (code - 0x1_0000) / 0x400
  }

  function LowHalf(code: nat): nat
    requires 0x1_0000 <= code < 0x11_0000
  {
    0xDC00 + (code - 0x1_0000) % 0x400
  }

  /** A text that starts with an escape of the code point, in digits of either case. */
  predicate Escapes(s: string, code: nat) {
    && |s| >= 6 && s[..2] == "\\u"
    && if code < 0x1_0000 then Hex4(s, 2) == code
       else code < 0x11_0000 && |s| >= 12 && s[6..8] == "\\u" && Hex4(s, 2) == HighHalf(code) && Hex4(s, 8) == LowHalf(code)
  }

  lemma HalvesJoin(code: nat)
    requires 0x1_0000 <= code < 0x11_0000
    ensures 0xD800 <= HighHalf(code) <= 0xDBFF && 0xDC00 <= LowHalf(code) <= 0xDFFF
    ensures 0x1_0000 + HighHalf(code) % 0x400 * 0x400 + LowHalf(code) % 0x400 == code
  {
    var x := code - 0x1_0000;
    assert x == x / 0x400 * 0x400 + x % 0x400;
  }

  /** An escape of a code point, single or a pair, is read as its UTF-8 bytes. */
  lemma ScalarRead(s: string, code: nat)
    requires Scalar(code) && Escapes(s, code)
    ensures var n := if code < 0x1_0000 then 6 else 12;
            ParseChars(s) == (Utf8(code) + ParseChars(s[n..]).0, ParseChars(s[n..]).1)
  {
    var n := if code < 0x1_0000 then 6 else 12;
    assert s[0] == s[..2][0] && s[1] == s[..2][1];
    if code >= 0x1_0000 {
      HalvesJoin(code);
      assert s[6] == s[6..8][0] && s[7] == s[6..8][1];
    }
    assert CodeAt(s, 0) == (code, n);
    assert Drop(s, n) == s[n..];
  }

  /** What a backslash and a letter other than u stand for. */
  function Plain(c: char): char {
    match c
    case 'b' => 8 as char
    case 'f' => 12 as char
    case 'n' => 10 as char
    case 'r' => 13 as char
    case 't' => 9 as char
    case _ => c
  }

  /** Every character but u may be escaped by a backslash; five letters then stand for control characters. */
  lemma PlainRead(c: char, t: string)
    requires c != 'u'
    ensures ParseChars(['\\', c] + t) == ([Plain(c)] + ParseChars(t).0, ParseChars(t).1)
  {
    PlainMeans(c, ['\\', c] + t);
    EscapeStep(['\\', c], t, Plain(c));
  }

  lemma PlainMeans(c: char, s: string)
    requires |s| >= 2 && s[1] == c != 'u'
    ensures Unescape(s) == ([Plain(c)], 2)
  {
  }

  /** Every character that is neither a quote nor a backslash stands for itself. */
  lemma UnescapedRead(c: char, t: string)
    requires c != '\"' && c != '\\'
    ensures ParseChars([c] + t) == ([c] + ParseChars(t).0, ParseChars(t).1)
  {
    PlainStep(c, t);
  }

  /** The escape of a code point as a text. */
  function EscapeOf(code: nat): string
    requires code < 0x11_0000
  {
    if code < 0x1_0000 then ['\\'] + EscapeCode(code)
    else (['\\'] + EscapeCode(HighHalf(code))) + (['\\'] + EscapeCode(LowHalf(code)))
  }

  lemma DigitsJoin(code: nat)
    requires code < 0x1_0000
    ensures ((code / 0x1000 % 16 * 16 + code / 0x100 % 16) * 16 + code / 16 % 16) * 16 + code % 16 == code
  {
  }

  lemma CodeHex(s: string, i: nat, code: nat)
    requires code < 0x1_0000 && i + 5 <= |s| && s[i..i + 5] == EscapeCode(code)
    ensures s[i] == 'u' && Hex4(s, i + 1) == code
  {
    var e := s[i..i + 5];
    assert s[i] == e[0] && s[i + 1] == e[1] && s[i + 2] == e[2] && s[i + 3] == e[3] && s[i + 4] == e[4];
    HexRead(code / 0x1000 % 16);
    HexRead(code / 0x100 % 16);
    HexRead(code / 16 % 16);
    HexRead(code % 16);
    DigitsJoin(code);
  }

  lemma SingleEscapes(code: nat, t: string)
    requires code < 0x1_0000
    ensures Escapes(['\\'] + EscapeCode(code) + t, code)
  {
    var s := ['\\'] + EscapeCode(code) + t;
    assert s[1..6] == EscapeCode(code);
    CodeHex(s, 1, code);
    assert s[..2] == "\\u";
  }

  lemma PairEscapes(code: nat, t: string)
    requires 0x1_0000 <= code < 0x11_0000
    ensures Escapes(EscapeOf(code) + t, code)
  {
    HalvesJoin(code);
    var h, l := EscapeCode(HighHalf(code)), EscapeCode(LowHalf(code));
    var s := EscapeOf(code) + t;
    assert s[1..6] == h;
    assert s[7..12] == l;
    CodeHex(s, 1, HighHalf(code));
    CodeHex(s, 7, LowHalf(code));
    assert s[..2] == "\\u";
    assert s[6..8] == "\\u";
  }

  lemma EscapeOfEscapes(code: nat, t: string)
    requires Scalar(code)
    ensures Escapes(EscapeOf(code) + t, code)
  {
    if code < 0x1_0000 { SingleEscapes(code, t); } else { PairEscapes(code, t); }
  }

  /** Writing the escape of a code point and reading it gives the UTF-8 bytes, whatever follows. */
  lemma EscapeOfRead(code: nat, t: string)
    requires Scalar(code)
    ensures ParseChars(EscapeOf(code) + t) == (Utf8(code) + ParseChars(t).0, ParseChars(t).1)
  {
    EscapeOfEscapes(code, t);
    ScalarRead(EscapeOf(code) + t, code);
    assert (EscapeOf(code) + t)[|EscapeOf(code)|..] == t;
  }

  // ---------------------------------------------------------------------------------------
  // Whole literals

  /** What a literal is made of: characters, escaped characters and escaped code points. */
  datatype Piece = Raw(c: char) | Quoted(c: char) | Coded(code: nat) {
    predicate Valid() {
      match this
      case Raw(c) => c != '\"' && c != '\\'
      case Quoted(c) => c != 'u'
      case Coded(code) => Scalar(code)
    }

    function Text(): string
      requires Valid()
    {
      match this
      case Raw(c) => [c]
      case Quoted(c) => ['\\', c]
      case Coded(code) => EscapeOf(code)
    }

    function Meaning(): string
      requires Valid()
    {
      match this
      case Raw(c) => [c]
      case Quoted(c) => [Plain(c)]
      case Coded(code) => Utf8(code)
    }
  }

  type Part = p: Piece | p.Valid() witness Raw('x')

  function TextOf(ps: seq<Part>): string {
    if ps == [] then "" else ps[0].Text() + TextOf(ps[1..])
  }

  function MeaningOf(ps: seq<Part>): string {
    if ps == [] then "" else ps[0].Meaning() + MeaningOf(ps[1..])
  }

  lemma PartRead(p: Part, t: string)
    ensures ParseChars(p.Text() + t) == (p.Meaning() + ParseChars(t).0, ParseChars(t).1)
  {
    match p
    case Raw(c) => UnescapedRead(c, t);
    case Quoted(c) => PlainRead(c, t);
    case Coded(code) => EscapeOfRead(code, t);
  }

  lemma CodedWell(code: nat, t: string)
    requires Scalar(code)
    ensures WellEscaped(EscapeOf(code) + t, true) == WellEscaped(t, true)
  {
    if code < 0x1_0000 {
      CodeWell(code, t);
    } else {
      HalvesJoin(code);
      var high, low := ['\\'] + EscapeCode(HighHalf(code)), ['\\'] + EscapeCode(LowHalf(code));
      Cat(high, low, t);
      CodeWell(HighHalf(code), low + t);
      CodeWell(LowHalf(code), t);
    }
  }

  lemma PartWell(p: Part, t: string)
    ensures WellEscaped(p.Text() + t, true) == WellEscaped(t, true)
  {
    match p
    case Raw(c) => First([c], t);
    case Quoted(c) => assert (['\\', c] + t)[2..] == t;
    case Coded(code) => CodedWell(code, t);
  }

  lemma {:induction false} PartsRead(ps: seq<Part>, t: string)
    requires Head(t) == '\"'
    ensures ParseChars(TextOf(ps) + t) == (MeaningOf(ps), t) && WellEscaped(TextOf(ps) + t, true) == WellEscaped(t, true)
  {
    if ps == [] {
      assert TextOf(ps) + t == t;
    } else {
      var rest := TextOf(ps[1..]) + t;
      Cat(ps[0].Text(), TextOf(ps[1..]), t);
      PartsRead(ps[1..], t);
      PartRead(ps[0], rest);
      PartWell(ps[0], rest);
    }
  }

  /** Every literal made of such pieces is read as what they mean, one after the other, whatever follows. */
  lemma LiteralRead(ps: seq<Part>, rest: string)
    ensures ParseString("\"" + (TextOf(ps) + ("\"" + rest))) == Parsed(MeaningOf(ps), rest)
  {
    var body := TextOf(ps);
    First("\"", body + ("\"" + rest));
    First("\"", rest);
    PartsRead(ps, "\"");
    PartsRead(ps, "\"" + rest);
    assert WellEscaped("\"", true);
    LiteralContained(body, rest);
  }

  // ---------------------------------------------------------------------------------------
  // UTF-8

  /** The code point at the front of UTF-8 bytes, and how many bytes it takes. */
  function Utf8Front(s: string): (nat, nat) {
    Front(At(s, 0) as int, At(s, 1) as int % 0x40, At(s, 2) as int % 0x40, At(s, 3) as int % 0x40)
  }

  function Front(c: nat, x: nat, y: nat, z: nat): (nat, nat) {
    if c < 0x80 then (c, 1)
    else if c < 0xE0 then ((c - 0xC0) % 0x20 * 0x40 + x, 2)
    else if c < 0xF0 then (((c - 0xE0) * 0x40 + x) * 0x40 + y, 3)
    else ((((c - 0xF0) * 0x40 + x) * 0x40 + y) * 0x40 + z, 4)
  }

  lemma Sextets(code: nat)
    ensures code == code / 0x40 * 0x40 + code % 0x40
    ensures code / 0x40 / 0x40 == code / 0x1000 && code / 0x1000 / 0x40 == code / 0x4_0000
  {
  }

  lemma ContinuationBits(x: nat)
    ensures Continuation(x) as int % 0x40 == x % 0x40
  {
  }

  lemma FrontJoins(code: nat, x: nat, y: nat, z: nat)
    requires code < 0x11_0000
    ensures code < 0x80 ==> Front(code, x, y, z) == (code, 1)
    ensures 0x80 <= code < 0x800 ==> Front(0xC0 + code / 0x40, code % 0x40, y, z) == (code, 2)
    ensures 0x800 <= code < 0x1_0000 ==> Front(0xE0 + code / 0x1000, code / 0x40 % 0x40, code % 0x40, z) == (code, 3)
    ensures 0x1_0000 <= code ==> Front(0xF0 + code / 0x4_0000, code / 0x1000 % 0x40, code / 0x40 % 0x40, code % 0x40) == (code, 4)
  {
    Sextets(code);
    Sextets(code / 0x40);
    Sextets(code / 0x1000);
  }

  /** The bytes of a code point can be told from those of any other, whatever follows. */
  lemma Utf8RoundTrip(code: nat, t: string)
    requires code < 0x11_0000
    ensures Utf8Front(Utf8(code) + t) == (code, |Utf8(code)|)
  {
    var u := Utf8(code);
    var s := u + t;
    assert forall i :: 0 <= i < |u| ==> At(s, i) == u[i];
    ContinuationBits(code);
    ContinuationBits(code / 0x40);
    ContinuationBits(code / 0x1000);
    FrontJoins(code, At(s, 1) as int % 0x40, At(s, 2) as int % 0x40, At(s, 3) as int % 0x40);
  }

  lemma Utf8Injective(a: nat, b: nat, s: string, t: string)
    requires a < 0x11_0000 && b < 0x11_0000 && Utf8(a) + s == Utf8(b) + t
    ensures a == b && s == t
  {
    Utf8RoundTrip(a, s);
    Utf8RoundTrip(b, t);
    assert s == (Utf8(a) + s)[|Utf8(a)|..];
    assert t == (Utf8(b) + t)[|Utf8(b)|..];
  }

  /** Escapes of different code points are read as different strings. */
  lemma EscapesDiffer(a: nat, b: nat, s: string, t: string)
    requires Scalar(a) && Scalar(b) && a != b
    ensures ParseChars(EscapeOf(a) + s).0 != ParseChars(EscapeOf(b) + t).0
  {
    EscapeOfRead(a, s);
    EscapeOfRead(b, t);
    if ParseChars(EscapeOf(a) + s).0 == ParseChars(EscapeOf(b) + t).0 {
      Utf8Injective(a, b, ParseChars(s).0, ParseChars(t).0);
    }
  }
}
