/** Removing white space and comments from a text (src/cJSON.c, `cJSON_Minify`). */
module JsonMinify {
  import opened JsonText
  import opened JsonGrammar
  import opened JsonRoundTrip

  predicate IsBlank(c: char) {
    c == ' ' || c == '\t' || c == '\r' || c == '\n'
  }

  /** From the next line end on. */
  function PastLine(s: string): (r: string)
    ensures |r| <= |s|
  {
    if s == "" || s[0] == '\n' then s else PastLine(s[1..])
  }

  /** From behind the next end of a comment on. */
  function PastComment(s: string): (r: string)
    ensures |r| <= |s|
  {
    if s == "" then ""
    else if s[0] == '*' && At(s, 1) == '/' then s[2..]
    else PastComment(s[1..])
  }

  /** What is left of a text. */
  function Minified(s: string): string
    decreases |s|
  {
    if s == "" then ""
    else if IsBlank(s[0]) then Minified(s[1..])
    else if s[0] == '/' && At(s, 1) == '/' then Minified(PastLine(s[1..]))
    else if s[0] == '/' && At(s, 1) == '*' then Minified(PastComment(s[1..]))
    else if s[0] == '\"' then "\"" + MinifiedString(s[1..])
    else [s[0]] + Minified(s[1..])
  }

  /** What is left of a text that starts within a string literal. */
  function MinifiedString(s: string): string
    decreases |s|
  {
    if s == "" then ""
    else if s[0] == '\"' then "\"" + Minified(s[1..])
    else if s[0] == '\\' && |s| > 1 then s[..2] + MinifiedString(s[2..])
    else [s[0]] + MinifiedString(s[1..])
  }

  predicate HasClose(s: string) {
    s != "" && ((s[0] == '*' && At(s, 1) == '/') || HasClose(s[1..]))
  }

  /** Every string literal and every comment of a text ends before the text does. */
  predicate Closed(s: string)
    decreases |s|
  {
    if s == "" then true
    else if IsBlank(s[0]) then Closed(s[1..])
    else if s[0] == '/' && At(s, 1) == '/' then Closed(PastLine(s[1..]))
    else if s[0] == '/' && At(s, 1) == '*' then HasClose(s[1..]) && Closed(PastComment(s[1..]))
    else if s[0] == '\"' then ClosedString(s[1..])
    else Closed(s[1..])
  }

  predicate ClosedString(s: string)
    decreases |s|
  {
    if s == "" then false
    else if s[0] == '\"' then Closed(s[1..])
    else if s[0] == '\\' then |s| > 1 && ClosedString(s[2..])
    else ClosedString(s[1..])
  }

  // ---------------------------------------------------------------------------------------
  // Texts that shrink

  /** Wherever a stands, b is left of it. */
  ghost predicate Shrinks(a: string, b: string) {
    forall rest :: Minified(a + rest) == b + Minified(rest) && Closed(a + rest) == Closed(rest)
  }

  lemma ShrinkCat(a: string, a': string, b: string, b': string)
    requires Shrinks(a, a') && Shrinks(b, b')
    ensures Shrinks(a + b, a' + b')
  {
    forall rest ensures Minified(a + b + rest) == a' + b' + Minified(rest) && Closed(a + b + rest) == Closed(rest) {
      Cat(a, b, rest);
      assert Minified(a + (b + rest)) == a' + Minified(b + rest) && Closed(a + (b + rest)) == Closed(b + rest);
      Cat(a', b', Minified(rest));
    }
  }

  lemma ShrinkNone()
    ensures Shrinks("", "")
  {
    forall rest ensures Minified("" + rest) == "" + Minified(rest) && Closed("" + rest) == Closed(rest) {
      assert "" + rest == rest;
    }
  }

  lemma ShrinkBlank(c: char)
    requires IsBlank(c)
    ensures Shrinks([c], "")
  {
    forall rest ensures Minified([c] + rest) == "" + Minified(rest) && Closed([c] + rest) == Closed(rest) {
      First([c], rest);
    }
  }

  lemma ShrinkChar(c: char)
    requires !IsBlank(c) && c != '/' && c != '\"'
    ensures Shrinks([c], [c])
  {
    forall rest ensures Minified([c] + rest) == [c] + Minified(rest) && Closed([c] + rest) == Closed(rest) {
      First([c], rest);
    }
  }

  lemma {:induction false} ShrinkPlain(s: string)
    requires forall i :: 0 <= i < |s| ==> !IsBlank(s[i]) && s[i] != '/' && s[i] != '\"'
    ensures Shrinks(s, s)
  {
    if s == "" {
      ShrinkNone();
    } else {
      ShrinkChar(s[0]);
      ShrinkPlain(s[1..]);
      ShrinkCat([s[0]], [s[0]], s[1..], s[1..]);
      assert s == [s[0]] + s[1..];
    }
  }

  lemma {:induction false} ShrinkTabs(n: int)
    ensures Shrinks(Tabs(n), "")
    decreases n
  {
    if n <= 0 {
      ShrinkNone();
    } else {
      ShrinkBlank('\t');
      ShrinkTabs(n - 1);
      ShrinkCat("\t", "", Tabs(n - 1), "");
    }
  }

  // ---------------------------------------------------------------------------------------
  // Strings

  lemma PairKept(c: char, s: string)
    ensures MinifiedString(['\\', c] + s) == ['\\', c] + MinifiedString(s) && ClosedString(['\\', c] + s) == ClosedString(s)
  {
    var t := ['\\', c] + s;
    assert t[..2] == ['\\', c] && t[2..] == s;
  }

  /** Text that stays within a string literal, whatever follows. */
  ghost predicate Stays(e: string) {
    if |e| == 1 then e[0] != '\"' && e[0] != '\\'
    else |e| >= 2 && e[0] == '\\' && forall i :: 2 <= i < |e| ==> e[i] != '\"' && e[i] != '\\'
  }

  lemma CodeStays(code: nat)
    requires code < 0x11_0000
    ensures Stays(['\\'] + EscapeCode(code))
  {
    HexPlain(code / 0x1000 % 16);
    HexPlain(code / 0x100 % 16);
    HexPlain(code / 16 % 16);
    HexPlain(code % 16);
  }

  lemma EscapeStays(c: char)
    ensures Stays(Escape(c))
  {
    CodeStays(c as int);
  }

  lemma StaysKept(e: string, rest: string)
    requires Stays(e)
    ensures MinifiedString(e + rest) == e + MinifiedString(rest) && ClosedString(e + rest) == ClosedString(rest)
  {
    if |e| == 1 {
      First(e, rest);
    } else {
      assert e == ['\\', e[1]] + e[2..];
      Cat(['\\', e[1]], e[2..], rest);
      PairKept(e[1], e[2..] + rest);
      PlainKept(e[2..], rest);
      Cat(['\\', e[1]], e[2..], MinifiedString(rest));
    }
  }

  lemma {:induction false} PlainKept(s: string, rest: string)
    requires forall i :: 0 <= i < |s| ==> s[i] != '\"' && s[i] != '\\'
    ensures MinifiedString(s + rest) == s + MinifiedString(rest) && ClosedString(s + rest) == ClosedString(rest)
  {
    if s == "" {
      assert s + rest == rest;
    } else {
      PlainKept(s[1..], rest);
      Cat([s[0]], s[1..], rest);
      First([s[0]], s[1..] + rest);
      assert s == [s[0]] + s[1..];
      Cat([s[0]], s[1..], MinifiedString(rest));
    }
  }

  lemma {:induction false} EscapedKept(s: string, rest: string)
    ensures MinifiedString(Escaped(s) + rest) == Escaped(s) + MinifiedString(rest)
    ensures ClosedString(Escaped(s) + rest) == ClosedString(rest)
  {
    if s == "" {
      assert Escaped(s) + rest == rest;
    } else {
      EscapedStep(s, rest);
      EscapeStays(s[0]);
      StaysKept(Escape(s[0]), Escaped(s[1..]) + rest);
      EscapedKept(s[1..], rest);
      EscapedStep(s, MinifiedString(rest));
    }
  }

  lemma ShrinkString(s: string)
    ensures Shrinks(StringText(s), StringText(s))
  {
    forall rest ensures Minified(StringText(s) + rest) == StringText(s) + Minified(rest) && Closed(StringText(s) + rest) == Closed(rest) {
      StringSplit(s, rest);
      First("\"", Escaped(s) + ("\"" + rest));
      EscapedKept(s, "\"" + rest);
      First("\"", rest);
      StringSplit(s, Minified(rest));
    }
  }

  // ---------------------------------------------------------------------------------------
  // Values

  lemma {:induction false} DigitsPlain(n: nat)
    ensures forall i :: 0 <= i < |Digits(n)| ==> IsDigit(Digits(n)[i])
  {
    DigitRead(n % 10);
    if n >= 10 { DigitsPlain(n / 10); }
  }

  lemma ShrinkNumber(n: int)
    ensures Shrinks(Decimal(n), Decimal(n))
  {
    DigitsPlain(if n < 0 then 0 - n else n);
    ShrinkPlain(Decimal(n));
  }

  /** What is left of the formatted text is the unformatted text. */
  lemma {:induction false} ShrinkText(v: Json, d: nat)
    ensures Shrinks(Text(v, d, true), Text(v, d, false))
    decreases v, 1
  {
    match v
    case Null => ShrinkPlain("null");
    case False => ShrinkPlain("false");
    case True => ShrinkPlain("true");
    case Number(m, _) => ShrinkNumber(m);
    case String(s) => ShrinkString(s);
    case Array(items) => ShrinkArray(items, d);
    case Object(ms) => ShrinkObject(ms, d);
  }

  lemma {:induction false} ShrinkArray(items: Items, d: nat)
    ensures Shrinks(Text(Array(items), d, true), Text(Array(items), d, false))
    decreases items, 1
  {
    ShrinkItems(items, d + 1);
    ShrinkPlain("[");
    ShrinkPlain("]");
    ShrinkCat("[", "[", ItemsText(items, d + 1, true), ItemsText(items, d + 1, false));
    ShrinkCat("[" + ItemsText(items, d + 1, true), "[" + ItemsText(items, d + 1, false), "]", "]");
  }

  lemma {:induction false} ShrinkItems(items: Items, d: nat)
    ensures Shrinks(ItemsText(items, d, true), ItemsText(items, d, false))
    decreases items, 0
  {
    match items
    case NoItems => ShrinkNone();
    case Item(v, NoItems) => ShrinkText(v, d);
    case Item(v, more) =>
      var t, t' := Text(v, d, true), Text(v, d, false);
      ShrinkText(v, d);
      ShrinkItems(more, d);
      ShrinkPlain(",");
      ShrinkBlank(' ');
      ShrinkCat(t, t', ",", ",");
      ShrinkCat(t + ",", t' + ",", " ", "");
      ShrinkCat(t + "," + " ", t' + "," + "", ItemsText(more, d, true), ItemsText(more, d, false));
  }

  /** Five pieces, one after the other. */
  lemma ShrinkCat5(a: string, a': string, b: string, b': string, c: string, c': string, d: string, d': string, e: string, e': string)
    requires Shrinks(a, a') && Shrinks(b, b') && Shrinks(c, c') && Shrinks(d, d') && Shrinks(e, e')
    ensures Shrinks(a + b + c + d + e, a' + b' + c' + d' + e')
  {
    ShrinkCat(a, a', b, b');
    ShrinkCat(a + b, a' + b', c, c');
    ShrinkCat(a + b + c, a' + b' + c', d, d');
    ShrinkCat(a + b + c + d, a' + b' + c' + d', e, e');
  }

  /** Three more pieces. */
  lemma ShrinkCat3(a: string, a': string, b: string, b': string, c: string, c': string, d: string, d': string)
    requires Shrinks(a, a') && Shrinks(b, b') && Shrinks(c, c') && Shrinks(d, d')
    ensures Shrinks(a + b + c + d, a' + b' + c' + d')
  {
    ShrinkCat(a, a', b, b');
    ShrinkCat(a + b, a' + b', c, c');
    ShrinkCat(a + b + c, a' + b' + c', d, d');
  }

  /** One member up to its value. */
  function MemberText(name: string, v: Json, d: nat, fmt: bool): string {
    If(fmt, Tabs(d)) + StringText(name) + ":" + If(fmt, "\t") + Text(v, d, fmt)
  }

  lemma {:induction false} ShrinkMember(ms: Members, d: nat)
    requires ms.Member?
    ensures Shrinks(MemberText(ms.name, ms.value, d, true), MemberText(ms.name, ms.value, d, false))
    decreases ms, 0
  {
    var n, v := StringText(ms.name), ms.value;
    ShrinkTabs(d);
    ShrinkString(ms.name);
    ShrinkPlain(":");
    ShrinkBlank('\t');
    ShrinkText(v, d);
    ShrinkCat5(Tabs(d), "", n, n, ":", ":", "\t", "", Text(v, d, true), Text(v, d, false));
  }

  lemma {:induction false} ShrinkMembers(ms: Members, d: nat)
    ensures Shrinks(MembersText(ms, d, true), MembersText(ms, d, false))
    decreases ms, 1
  {
    if ms.NoMembers? {
      ShrinkNone();
    } else {
      var more, comma := ms.tail, If(ms.tail.Member?, ",");
      ShrinkMember(ms, d);
      ShrinkPlain(comma);
      ShrinkBlank('\n');
      ShrinkMembers(more, d);
      ShrinkCat3(MemberText(ms.name, ms.value, d, true), MemberText(ms.name, ms.value, d, false), comma, comma,
                 If(true, "\n"), If(false, "\n"), MembersText(more, d, true), MembersText(more, d, false));
    }
  }

  lemma {:induction false} ShrinkObject(ms: Members, d: nat)
    ensures Shrinks(Text(Object(ms), d, true), Text(Object(ms), d, false))
    decreases ms, 2
  {
    ShrinkPlain("{");
    ShrinkPlain("}");
    ShrinkBlank('\n');
    if ms.NoMembers? {
      ShrinkTabs(d - 1);
      ShrinkCat("\n", "", Tabs(d - 1), "");
      ShrinkCat("{", "{", "\n" + Tabs(d - 1), "");
      ShrinkCat("{" + ("\n" + Tabs(d - 1)), "{" + "", "}", "}");
    } else {
      ShrinkTabs(d);
      ShrinkMembers(ms, d + 1);
      ShrinkCat5("{", "{", "\n", "", MembersText(ms, d + 1, true), MembersText(ms, d + 1, false), Tabs(d), "", "}", "}");
    }
  }

  /** Minifying the formatted print gives the unformatted print, at every depth. */
  lemma MinifyFormatted(v: Json, d: nat)
    ensures Minified(Text(v, d, true)) == Text(v, d, false) && Closed(Text(v, d, true))
  {
    ShrinkText(v, d);
    var t := Text(v, d, true);
    assert Minified(t + "") == Text(v, d, false) + Minified("") && Closed(t + "") == Closed("");
    assert t + "" == t;
  }
}
