/** Parsing undoes printing, in both formats. */
module JsonRoundTrip {
  import opened JsonText
  import opened JsonGrammar
  import opened JsonBuffer

  // ---------------------------------------------------------------------------------------
  // Concatenation

  lemma Cat(a: string, b: string, c: string)
    ensures (a + b) + c == a + (b + c)
  {
  }

  lemma Nest5(a: string, b: string, c: string, d: string, e: string, z: string)
    ensures a + b + c + d + e + z == a + (b + (c + (d + (e + z))))
  {
    Cat(a + b + c + d, e, z);
    Cat(a + b + c, d, e + z);
    Cat(a + b, c, d + (e + z));
    Cat(a, b, c + (d + (e + z)));
  }

  lemma First(c: string, t: string)
    requires |c| == 1
    ensures c + t != "" && Head(c + t) == c[0] && (c + t)[1..] == t
  {
  }

  // ---------------------------------------------------------------------------------------
  // Strings

  lemma HexRead(d: nat)
    requires d < 16
    ensures HexValue(HexDigit(d)) == d
  {
  }

  lemma PlainStep(c: char, t: string)
    requires c != '\"' && c != '\\'
    ensures ParseChars([c] + t) == ([c] + ParseChars(t).0, ParseChars(t).1)
  {
    assert ([c] + t)[1..] == t;
  }

  lemma EscapeStep(e: string, t: string, c: char)
    requires e != "" && e[0] == '\\' && Unescape(e + t) == ([c], |e|)
    ensures ParseChars(e + t) == ([c] + ParseChars(t).0, ParseChars(t).1)
  {
    assert Drop(e + t, |e|) == t;
  }

  lemma CodeRead(code: nat, t: string)
    requires 0 < code < 32
    ensures Unescape(['\\'] + EscapeCode(code) + t) == ([code as char], 6)
  {
    var s := ['\\'] + EscapeCode(code) + t;
    HexRead(0);
    HexRead(code / 16);
    HexRead(code % 16);
    assert s[1] == 'u' && s[2] == HexDigit(0) && s[3] == HexDigit(0) && s[4] == HexDigit(code / 16) && s[5] == HexDigit(code % 16);
    assert Hex4(s, 2) == code;
  }

  /** One character, read back. */
  lemma EscapeRead(c: char, t: string)
    requires c != '\0'
    ensures ParseChars(Escape(c) + t) == ([c] + ParseChars(t).0, ParseChars(t).1)
  {
    var e := Escape(c);
    if c as int > 31 && c != '\"' && c != '\\' {
      PlainStep(c, t);
    } else {
      if |e| == 2 {
        assert (e + t)[1] == e[1];
      } else {
        CodeRead(c as int, t);
      }
      EscapeStep(e, t, c);
    }
  }

  lemma EscapedStep(s: string, q: string)
    requires s != ""
    ensures Escaped(s) + q == Escape(s[0]) + (Escaped(s[1..]) + q)
  {
  }

  lemma {:induction false} CharsRead(s: string, q: string)
    requires NulFree(s) && Head(q) == '\"'
    ensures ParseChars(Escaped(s) + q) == (s, q)
  {
    if s == "" {
      assert Escaped(s) + q == q;
    } else {
      CharsRead(s[1..], q);
      EscapedStep(s, q);
      EscapeRead(s[0], Escaped(s[1..]) + q);
      assert s == [s[0]] + s[1..];
    }
  }

  lemma HexPlain(d: nat)
    requires d < 16
    ensures HexDigit(d) != '\"' && HexDigit(d) != '\\'
  {
  }

  lemma CodeWell(code: nat, t: string)
    requires code < 0x11_0000
    ensures WellEscaped(['\\'] + EscapeCode(code) + t, true) == WellEscaped(t, true)
  {
    HexPlain(code / 0x1000 % 16);
    HexPlain(code / 0x100 % 16);
    HexPlain(code / 16 % 16);
    HexPlain(code % 16);
    var s := ['\\'] + EscapeCode(code) + t;
    assert s[6..] == t && FourPlain(s, 2);
  }

  lemma EscapeWell(c: char, t: string)
    ensures WellEscaped(Escape(c) + t, true) == WellEscaped(t, true)
  {
    var e := Escape(c);
    if |e| == 1 {
      First(e, t);
    } else if |e| == 2 {
      assert (e + t)[2..] == t && (e + t)[1] == e[1];
    } else {
      CodeWell(c as int, t);
    }
  }

  lemma {:induction false} EscapedWell(s: string, t: string)
    ensures WellEscaped(Escaped(s) + t, true) == WellEscaped(t, true)
  {
    if s == "" {
      assert Escaped(s) + t == t;
    } else {
      EscapedStep(s, t);
      EscapeWell(s[0], Escaped(s[1..]) + t);
      EscapedWell(s[1..], t);
    }
  }

  /** A literal with proper escapes is read within its buffer, whatever follows. */
  lemma LiteralContained(body: string, rest: string)
    requires WellEscaped(body + "\"", true) && ParseChars(body + "\"").1 == "\""
    ensures Contained(body + ("\"" + rest))
  {
    var text := body + "\"";
    WellEscapedKeeps(text, 0);
    WellEscapedKeeps(text, 1);
    ContainedIff(text);
    Cat(body, "\"", rest);
  }

  lemma EscapedContained(s: string, rest: string)
    requires NulFree(s)
    ensures Contained(Escaped(s) + ("\"" + rest))
  {
    assert WellEscaped("\"", true);
    EscapedWell(s, "\"");
    CharsRead(s, "\"");
    LiteralContained(Escaped(s), rest);
  }

  lemma StringSplit(s: string, rest: string)
    ensures StringText(s) + rest == "\"" + (Escaped(s) + ("\"" + rest))
  {
    Cat("\"" + Escaped(s), "\"", rest);
    Cat("\"", Escaped(s), "\"" + rest);
  }

  lemma StringRead(s: string, rest: string)
    requires NulFree(s)
    ensures ParseString(StringText(s) + rest) == Parsed(s, rest)
  {
    StringSplit(s, rest);
    First("\"", rest);
    First("\"", Escaped(s) + ("\"" + rest));
    CharsRead(s, "\"" + rest);
    EscapedContained(s, rest);
  }

  // ---------------------------------------------------------------------------------------
  // Numbers

  /** What may follow a value in a printed text. */
  predicate Ends(s: string) {
    Head(s) == '\0' || Head(s) == ',' || Head(s) == ']' || Head(s) == '}' || Head(s) == '\n'
  }

  lemma DigitRead(d: nat)
    requires d < 10
    ensures IsDigit(Digit(d)) && DigitValue(Digit(d)) == d && (d > 0 ==> '1' <= Digit(d))
  {
  }

  lemma DigitStep(d: nat, t: string, n: nat)
    requires d < 10
    ensures ReadDigits([Digit(d)] + t, n) == ReadDigits(t, 10 * n + d)
  {
    DigitRead(d);
    assert ([Digit(d)] + t)[1..] == t;
  }

  lemma {:induction false} DigitsRead(n: nat, t: string)
    ensures ReadDigits(Digits(n) + t, 0) == ReadDigits(t, n)
  {
    assert 10 * (n / 10) + n % 10 == n;
    DigitStep(n % 10, t, n / 10);
    if n >= 10 {
      DigitsRead(n / 10, [Digit(n % 10)] + t);
      Cat(Digits(n / 10), [Digit(n % 10)], t);
    }
  }

  lemma {:induction false} FirstDigit(n: nat)
    ensures Digits(n) != "" && IsDigit(Digits(n)[0]) && (n > 0 ==> '1' <= Digits(n)[0])
  {
    DigitRead(n % 10);
    if n >= 10 { FirstDigit(n / 10); }
  }

  lemma IntegerRead(n: nat, rest: string)
    requires Ends(rest)
    ensures ReadInteger(Digits(n) + rest) == (n, rest)
  {
    FirstDigit(n);
    DigitsRead(n, rest);
    assert n == 0 ==> (Digits(n) + rest)[1..] == rest;
  }

  lemma SignRead(n: int, rest: string)
    ensures ReadSign(Decimal(n) + rest) == (n < 0, Digits(if n < 0 then 0 - n else n) + rest)
  {
    if n < 0 {
      Cat("-", Digits(-n), rest);
      First("-", Digits(-n) + rest);
    } else {
      FirstDigit(n);
    }
  }

  lemma NumberRead(n: int, rest: string)
    requires Ends(rest)
    ensures ParseNumber(Decimal(n) + rest) == Parsed(Number(n, 0), rest)
  {
    var m: nat := if n < 0 then 0 - n else n;
    SignRead(n, rest);
    IntegerRead(m, rest);
    assert ReadFraction(m, rest) == (m, 0, rest);
    assert ReadExponent(rest) == (0, rest);
  }

  // ---------------------------------------------------------------------------------------
  // White space

  predicate AllSpace(s: string) {
    forall i :: 0 <= i < |s| ==> s[i] as int <= 32
  }

  lemma {:induction false} SkipOver(space: string, s: string)
    requires AllSpace(space)
    ensures Skip(space + s) == Skip(s)
  {
    if space == "" {
      assert space + s == s;
    } else {
      assert (space + s)[1..] == space[1..] + s;
      SkipOver(space[1..], s);
    }
  }

  lemma {:induction false} TabsAreSpace(n: int)
    ensures AllSpace(Tabs(n))
    decreases n
  {
    if n > 0 { TabsAreSpace(n - 1); }
  }

  // ---------------------------------------------------------------------------------------
  // Values

  /** The first character of a value's text tells its kind, and is neither space nor a bracket that closes. */
  predicate Begins(v: Json, c: char) {
    match v
    case Null => c == 'n'
    case False => c == 'f'
    case True => c == 't'
    case Number(_, _) => c == '-' || IsDigit(c)
    case String(_) => c == '\"'
    case Array(_) => c == '['
    case Object(_) => c == '{'
  }

  lemma TextBegins(v: Json, d: nat, fmt: bool)
    ensures Text(v, d, fmt) != "" && Begins(v, Text(v, d, fmt)[0])
  {
    if v.Number? { FirstDigit(if v.mantissa < 0 then 0 - v.mantissa else v.mantissa); }
  }

  lemma NoSkip(v: Json, d: nat, fmt: bool, tail: string)
    ensures Skip(Text(v, d, fmt) + tail) == Text(v, d, fmt) + tail
    ensures Head(Text(v, d, fmt) + tail) != ']' && Head(Text(v, d, fmt) + tail) != '}'
  {
    TextBegins(v, d, fmt);
  }

  /** The first character decides how a value is read. */
  lemma Dispatch(s: string)
    ensures Head(s) == '[' ==> ParseValue(s) == ParseArray(s[1..])
    ensures Head(s) == '{' ==> ParseValue(s) == ParseObject(s[1..])
    ensures Head(s) == '-' || IsDigit(Head(s)) ==> ParseValue(s) == ParseNumber(s)
  {
    assert "null" <= s ==> s[0] == "null"[0];
    assert "false" <= s ==> s[0] == "false"[0];
    assert "true" <= s ==> s[0] == "true"[0];
  }

  lemma {:induction false} ValueRead(v: Json, d: nat, fmt: bool, rest: string)
    requires Printable(v) && Ends(rest)
    ensures ParseValue(Text(v, d, fmt) + rest) == Parsed(v, rest)
    decreases v, 1
  {
    TextBegins(v, d, fmt);
    Dispatch(Text(v, d, fmt) + rest);
    match v
    case Null => assert ("null" + rest)[4..] == rest;
    case False => assert ("false" + rest)[5..] == rest;
    case True => assert ("true" + rest)[4..] == rest;
    case Number(m, _) => NumberRead(m, rest);
    case String(s) => StringRead(s, rest);
    case Array(items) => ArrayRead(items, d, fmt, rest);
    case Object(ms) => ObjectRead(ms, d, fmt, rest);
  }

  lemma ArrayText(items: Items, d: nat, fmt: bool, rest: string)
    ensures (Text(Array(items), d, fmt) + rest)[1..] == ItemsText(items, d + 1, fmt) + ("]" + rest)
  {
    var t := ItemsText(items, d + 1, fmt);
    Cat("[" + t, "]", rest);
    Cat("[", t, "]" + rest);
    First("[", t + ("]" + rest));
  }

  lemma {:induction false} ArrayRead(items: Items, d: nat, fmt: bool, rest: string)
    requires PrintableItems(items)
    ensures ParseArray((Text(Array(items), d, fmt) + rest)[1..]) == Parsed(Array(items), rest)
    decreases items, 1
  {
    var s := ItemsText(items, d + 1, fmt) + ("]" + rest);
    ArrayText(items, d, fmt, rest);
    First("]", rest);
    if items.NoItems? {
      assert s == "]" + rest;
    } else {
      ItemsRead(items, d + 1, fmt, "", rest);
      assert "" + s == s;
      ItemsSplit(items, d + 1, fmt, rest);
      NoSkip(items.head, d + 1, fmt, AfterItem(items.tail, d + 1, fmt, rest));
    }
  }

  /** What follows the first item. */
  function AfterItem(more: Items, d: nat, fmt: bool, rest: string): string {
    if more.NoItems? then "]" + rest else "," + (If(fmt, " ") + (ItemsText(more, d, fmt) + ("]" + rest)))
  }

  lemma ItemsSplit(items: Items, d: nat, fmt: bool, rest: string)
    requires items.Item?
    ensures ItemsText(items, d, fmt) + ("]" + rest) == Text(items.head, d, fmt) + AfterItem(items.tail, d, fmt, rest)
  {
    if items.tail.Item? {
      Nest5(Text(items.head, d, fmt), ",", If(fmt, " "), ItemsText(items.tail, d, fmt), "]", rest);
    }
  }

  lemma {:induction false} ItemsRead(items: Items, d: nat, fmt: bool, space: string, rest: string)
    requires PrintableItems(items) && items.Item? && AllSpace(space)
    ensures ParseItems(space + (ItemsText(items, d, fmt) + ("]" + rest))) == Parsed(items, rest)
    decreases items, 0
  {
    var v, more := items.head, items.tail;
    var tail := AfterItem(more, d, fmt, rest);
    ItemsSplit(items, d, fmt, rest);
    SkipOver(space, Text(v, d, fmt) + tail);
    NoSkip(v, d, fmt, tail);
    ValueRead(v, d, fmt, tail);
    assert Skip(tail) == tail;
    if more.Item? {
      ItemsRead(more, d, fmt, If(fmt, " "), rest);
      assert tail[1..] == If(fmt, " ") + (ItemsText(more, d, fmt) + ("]" + rest));
    } else {
      assert tail[1..] == rest;
    }
  }

  /** What follows the members. */
  function AfterMembers(d: nat, fmt: bool, rest: string): string {
    If(fmt, Tabs(d - 1)) + ("}" + rest)
  }

  /** What follows the first member's value. */
  function AfterMember(more: Members, d: nat, fmt: bool, rest: string): string {
    If(more.Member?, ",") + (If(fmt, "\n") + (MembersText(more, d, fmt) + AfterMembers(d, fmt, rest)))
  }

  lemma MembersSplit(ms: Members, d: nat, fmt: bool, rest: string)
    requires ms.Member?
    ensures MembersText(ms, d, fmt) + AfterMembers(d, fmt, rest) ==
            If(fmt, Tabs(d)) + (StringText(ms.name) + (":" + (If(fmt, "\t") + (Text(ms.value, d, fmt) + AfterMember(ms.tail, d, fmt, rest)))))
  {
    var a, b, c := If(fmt, Tabs(d)), StringText(ms.name), If(fmt, "\t");
    var v, f, g, h := Text(ms.value, d, fmt), If(ms.tail.Member?, ","), If(fmt, "\n"), MembersText(ms.tail, d, fmt);
    var z := AfterMembers(d, fmt, rest);
    var front := a + b + ":" + c + v;
    Cat(front + f + g, h, z);
    Cat(front + f, g, h + z);
    Cat(front, f, g + (h + z));
    Nest5(a, b, ":", c, v, f + (g + (h + z)));
  }

  lemma LastMember(d: nat, fmt: bool, rest: string)
    ensures Skip(AfterMember(NoMembers, d, fmt, rest)) == "}" + rest && Ends(AfterMember(NoMembers, d, fmt, rest))
  {
    var space := If(fmt, "\n") + If(fmt, Tabs(d - 1));
    TabsAreSpace(d - 1);
    SkipOver(space, "}" + rest);
    assert AfterMember(NoMembers, d, fmt, rest) == space + ("}" + rest);
  }

  lemma NameRead(name: string, space: string, after: string)
    requires NulFree(name) && AllSpace(space)
    ensures ParseString(Skip(space + (StringText(name) + (":" + after)))) == Parsed(name, ":" + after)
    ensures Skip(":" + after) == ":" + after && (":" + after)[1..] == after
  {
    SkipOver(space, StringText(name) + (":" + after));
    StringRead(name, ":" + after);
  }

  /** One member read, given how its name and its value are read. */
  lemma MemberStep(s: string, name: string, after: string, v: Json, tail: string)
    requires ParseString(Skip(s)) == Parsed(name, ":" + after) && ParseValue(Skip(after)) == Parsed(v, tail)
    ensures var t := Skip(tail);
            && (Head(t) == ',' && ParseMembers(t[1..]).Parsed? ==>
                  var more := ParseMembers(t[1..]); ParseMembers(s) == Parsed(Member(name, v, more.value), more.rest))
            && (Head(t) == '}' ==> ParseMembers(s) == Parsed(Member(name, v, NoMembers), t[1..]))
  {
    assert Skip(":" + after) == ":" + after && (":" + after)[1..] == after;
  }

  lemma {:induction false} MemberRead(ms: Members, d: nat, fmt: bool, space: string, rest: string)
    requires PrintableMembers(ms) && ms.Member? && AllSpace(space)
    ensures var after := If(fmt, "\t") + (Text(ms.value, d, fmt) + AfterMember(ms.tail, d, fmt, rest));
            && ParseString(Skip(space + (MembersText(ms, d, fmt) + AfterMembers(d, fmt, rest)))) == Parsed(ms.name, ":" + after)
            && ParseValue(Skip(after)) == Parsed(ms.value, AfterMember(ms.tail, d, fmt, rest))
    decreases ms, 0
  {
    var tail := AfterMember(ms.tail, d, fmt, rest);
    var value := Text(ms.value, d, fmt) + tail;
    var after := If(fmt, "\t") + value;
    MembersSplit(ms, d, fmt, rest);
    TabsAreSpace(d);
    Cat(space, If(fmt, Tabs(d)), StringText(ms.name) + (":" + after));
    NameRead(ms.name, space + If(fmt, Tabs(d)), after);
    SkipOver(If(fmt, "\t"), value);
    NoSkip(ms.value, d, fmt, tail);
    LastMember(d, fmt, rest);
    ValueRead(ms.value, d, fmt, tail);
  }

  lemma {:induction false} MembersRead(ms: Members, d: nat, fmt: bool, space: string, rest: string)
    requires PrintableMembers(ms) && ms.Member? && AllSpace(space)
    ensures ParseMembers(space + (MembersText(ms, d, fmt) + AfterMembers(d, fmt, rest))) == Parsed(ms, rest)
    decreases ms, 1
  {
    var tail := AfterMember(ms.tail, d, fmt, rest);
    MemberRead(ms, d, fmt, space, rest);
    MemberStep(space + (MembersText(ms, d, fmt) + AfterMembers(d, fmt, rest)), ms.name, If(fmt, "\t") + (Text(ms.value, d, fmt) + tail), ms.value, tail);
    if ms.tail.Member? {
      MembersRead(ms.tail, d, fmt, If(fmt, "\n"), rest);
      assert tail[1..] == If(fmt, "\n") + (MembersText(ms.tail, d, fmt) + AfterMembers(d, fmt, rest));
    } else {
      LastMember(d, fmt, rest);
      assert ("}" + rest)[1..] == rest;
    }
  }

  lemma EmptyObjectText(d: nat, fmt: bool, rest: string)
    ensures (Text(Object(NoMembers), d, fmt) + rest)[1..] == AfterMember(NoMembers, d, fmt, rest)
  {
    var g, t := If(fmt, "\n"), If(fmt, Tabs(d - 1));
    assert MembersText(NoMembers, d, fmt) == "";
    assert If(fmt, "\n" + Tabs(d - 1)) == g + t;
    assert Text(Object(NoMembers), d, fmt) == "{" + (g + t) + "}";
    assert ("{" + (g + t) + "}" + rest)[1..] == "" + (g + ("" + (t + ("}" + rest))));
  }

  lemma ObjectText(ms: Members, d: nat, fmt: bool, rest: string)
    requires ms.Member?
    ensures (Text(Object(ms), d, fmt) + rest)[1..] == If(fmt, "\n") + (MembersText(ms, d + 1, fmt) + AfterMembers(d + 1, fmt, rest))
  {
    Nest5("{", If(fmt, "\n"), MembersText(ms, d + 1, fmt), If(fmt, Tabs(d)), "}", rest);
    First("{", If(fmt, "\n") + (MembersText(ms, d + 1, fmt) + AfterMembers(d + 1, fmt, rest)));
  }

  /** Past white space, a list of members begins with a quote. */
  lemma MembersBegin(ms: Members, d: nat, fmt: bool, space: string, rest: string)
    requires ms.Member? && AllSpace(space)
    ensures Head(Skip(space + (MembersText(ms, d, fmt) + AfterMembers(d, fmt, rest)))) == '\"'
  {
    var after := ":" + (If(fmt, "\t") + (Text(ms.value, d, fmt) + AfterMember(ms.tail, d, fmt, rest)));
    MembersSplit(ms, d, fmt, rest);
    TabsAreSpace(d);
    SkipOver(space, If(fmt, Tabs(d)) + (StringText(ms.name) + after));
    SkipOver(If(fmt, Tabs(d)), StringText(ms.name) + after);
  }

  lemma {:induction false} SkipTwice(s: string)
    ensures Skip(Skip(s)) == Skip(s)
  {
    if s != "" && s[0] as int <= 32 { SkipTwice(s[1..]); }
  }

  lemma ObjectFrom(s: string, ms: Members, rest: string)
    requires ParseMembers(s) == Parsed(ms, rest) && Head(Skip(s)) != '}'
    ensures ParseObject(s) == Parsed(Object(ms), rest)
  {
    SkipTwice(s);
    assert ParseMembers(Skip(s)) == ParseMembers(s);
  }

  lemma {:induction false} ObjectRead(ms: Members, d: nat, fmt: bool, rest: string)
    requires PrintableMembers(ms)
    ensures ParseObject((Text(Object(ms), d, fmt) + rest)[1..]) == Parsed(Object(ms), rest)
    decreases ms, 2
  {
    if ms.NoMembers? {
      EmptyObjectText(d, fmt, rest);
      LastMember(d, fmt, rest);
    } else {
      ObjectText(ms, d, fmt, rest);
      MembersRead(ms, d + 1, fmt, If(fmt, "\n"), rest);
      MembersBegin(ms, d + 1, fmt, If(fmt, "\n"), rest);
      ObjectFrom(If(fmt, "\n") + (MembersText(ms, d + 1, fmt) + AfterMembers(d + 1, fmt, rest)), ms, rest);
    }
  }

  /** Either text of a value parses back to the value, with or without the check for the end. */
  lemma ParsePrint(v: Json, fmt: bool, requireEnd: bool)
    requires Printable(v)
    ensures Parse(Text(v, 0, fmt), requireEnd) == Parsed(v, "")
  {
    var text := Text(v, 0, fmt);
    NoSkip(v, 0, fmt, "");
    ValueRead(v, 0, fmt, "");
    assert text + "" == text;
  }
}
