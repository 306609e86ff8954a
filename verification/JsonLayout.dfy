/**
  The layout of formatted prints (src/cJSON.c). A formatter that goes over a text without white
  space once, with a stack of open brackets, makes of the print without format the one with it.
 */
module JsonLayout {
  import opened JsonText
  import opened JsonGrammar
  import opened JsonRoundTrip
  import opened JsonMinify

  /** The open brackets, the outermost first: true for those of objects. */
  type Stack = seq<bool>

  predicate InObject(k: Stack) {
    k != [] && k[|k| - 1]
  }

  function Pop(k: Stack): Stack {
    if k == [] then [] else k[..|k| - 1]
  }

  /**
    Members stand on lines of their own with a tab for each open bracket, items on one line with
    blanks between them. The brace that closes an object stands on a line of its own, one tab
    further to the left if the object is empty than if it is not.
   */
  function Format(s: string, k: Stack): string
    decreases |s|
  {
    if s == "" then ""
    else
      var rest := s[1..];
      match s[0]
      case '\"' => "\"" + FormatLiteral(rest, k)
      case '{' =>
        if Head(rest) == '}' then "{\n" + Tabs(|k| - 1) + "}" + Format(rest[1..], k)
        else "{\n" + Tabs(|k| + 1) + Format(rest, k + [true])
      case '}' => "\n" + Tabs(|k| - 1) + "}" + Format(rest, Pop(k))
      case '[' => "[" + Format(rest, k + [false])
      case ']' => "]" + Format(rest, Pop(k))
      case ',' => "," + (if InObject(k) then "\n" + Tabs(|k|) else " ") + Format(rest, k)
      case ':' => ":\t" + Format(rest, k)
      case c => [c] + Format(rest, k)
  }

  function FormatLiteral(s: string, k: Stack): string
    decreases |s|
  {
    if s == "" then ""
    else if s[0] == '\"' then "\"" + Format(s[1..], k)
    else if s[0] == '\\' && |s| > 1 then s[..2] + FormatLiteral(s[2..], k)
    else [s[0]] + FormatLiteral(s[1..], k)
  }

  lemma {:induction false} TabsAre(n: int)
    ensures |Tabs(n)| == if n < 0 then 0 else n
    ensures forall i :: 0 <= i < |Tabs(n)| ==> Tabs(n)[i] == '\t'
  {
    if n > 0 {
      TabsAre(n - 1);
    }
  }

  // ---------------------------------------------------------------------------------------
  // Strings

  lemma {:induction false} PlainFormatted(s: string, rest: string, k: Stack)
    requires forall i :: 0 <= i < |s| ==> s[i] != '\"' && s[i] != '\\'
    ensures FormatLiteral(s + rest, k) == s + FormatLiteral(rest, k)
  {
    if s == "" {
      assert s + rest == rest;
    } else {
      PlainFormatted(s[1..], rest, k);
      Cat([s[0]], s[1..], rest);
      First([s[0]], s[1..] + rest);
      assert s == [s[0]] + s[1..];
      Cat([s[0]], s[1..], FormatLiteral(rest, k));
    }
  }

  lemma StaysFormatted(e: string, rest: string, k: Stack)
    requires Stays(e)
    ensures FormatLiteral(e + rest, k) == e + FormatLiteral(rest, k)
  {
    if |e| == 1 {
      First(e, rest);
    } else {
      var pair, more := ['\\', e[1]], e[2..] + rest;
      assert e == pair + e[2..];
      Cat(pair, e[2..], rest);
      assert (pair + more)[..2] == pair && (pair + more)[2..] == more;
      PlainFormatted(e[2..], rest, k);
      Cat(pair, e[2..], FormatLiteral(rest, k));
    }
  }

  lemma {:induction false} EscapedFormatted(s: string, rest: string, k: Stack)
    ensures FormatLiteral(Escaped(s) + rest, k) == Escaped(s) + FormatLiteral(rest, k)
  {
    if s == "" {
      assert Escaped(s) + rest == rest;
    } else {
      EscapedStep(s, rest);
      EscapeStays(s[0]);
      StaysFormatted(Escape(s[0]), Escaped(s[1..]) + rest, k);
      EscapedFormatted(s[1..], rest, k);
      EscapedStep(s, FormatLiteral(rest, k));
    }
  }

  lemma StringFormatted(s: string, rest: string, k: Stack)
    ensures Format(StringText(s) + rest, k) == StringText(s) + Format(rest, k)
  {
    StringSplit(s, rest);
    First("\"", Escaped(s) + ("\"" + rest));
    EscapedFormatted(s, "\"" + rest, k);
    First("\"", rest);
    StringSplit(s, Format(rest, k));
  }

  // ---------------------------------------------------------------------------------------
  // Words, numbers and brackets

  predicate Letters(s: string) {
    forall i :: 0 <= i < |s| ==> s[i] !in "\"{}[],:"
  }

  lemma {:induction false} LettersFormatted(s: string, rest: string, k: Stack)
    requires Letters(s)
    ensures Format(s + rest, k) == s + Format(rest, k)
  {
    if s == "" {
      assert s + rest == rest;
    } else {
      LettersFormatted(s[1..], rest, k);
      Cat([s[0]], s[1..], rest);
      First([s[0]], s[1..] + rest);
      assert s == [s[0]] + s[1..];
      Cat([s[0]], s[1..], Format(rest, k));
    }
  }

  lemma NumberFormatted(n: int, rest: string, k: Stack)
    ensures Format(Decimal(n) + rest, k) == Decimal(n) + Format(rest, k)
  {
    DigitsPlain(if n < 0 then 0 - n else n);
    LettersFormatted(Decimal(n), rest, k);
  }

  /** Opening and closing an array. */
  lemma BracketsFormatted(rest: string, k: Stack)
    ensures Format("[" + rest, k) == "[" + Format(rest, k + [false])
    ensures Format("]" + rest, k + [false]) == "]" + Format(rest, k)
  {
    First("[", rest);
    First("]", rest);
    assert Pop(k + [false]) == k;
  }

  /** Opening and closing an object, and the marks within. */
  lemma BracesFormatted(rest: string, k: Stack)
    ensures Head(rest) != '}' ==> Format("{" + rest, k) == "{\n" + Tabs(|k| + 1) + Format(rest, k + [true])
    ensures Format("}" + rest, k + [true]) == "\n" + Tabs(|k|) + "}" + Format(rest, k)
    ensures Format("{}" + rest, k) == "{\n" + Tabs(|k| - 1) + "}" + Format(rest, k)
    ensures Format(":" + rest, k) == ":\t" + Format(rest, k)
    ensures Format("," + rest, k + [true]) == "," + ("\n" + Tabs(|k| + 1)) + Format(rest, k + [true])
    ensures Format("," + rest, k + [false]) == "," + " " + Format(rest, k + [false])
  {
    First("{", rest);
    First("}", rest);
    First(":", rest);
    First(",", rest);
    assert Pop(k + [true]) == k;
    EmptyFormatted(rest, k);
  }

  lemma OpenedEmpty(s: string, k: Stack)
    requires Head(s) == '}'
    ensures Format("{" + s, k) == "{\n" + Tabs(|k| - 1) + "}" + Format(s[1..], k)
  {
    First("{", s);
  }

  lemma EmptyFormatted(rest: string, k: Stack)
    ensures Format("{}" + rest, k) == "{\n" + Tabs(|k| - 1) + "}" + Format(rest, k)
  {
    assert "{}" == "{" + "}";
    Cat("{", "}", rest);
    First("}", rest);
    OpenedEmpty("}" + rest, k);
  }

  // ---------------------------------------------------------------------------------------
  // Values

  /** Wherever a value stands, its print without format becomes the one with it. */
  lemma {:induction false} ValueFormatted(v: Json, k: Stack, rest: string)
    ensures Format(Text(v, |k|, false) + rest, k) == Text(v, |k|, true) + Format(rest, k)
    decreases v, 1
  {
    match v
    case Null => LettersFormatted("null", rest, k);
    case False => LettersFormatted("false", rest, k);
    case True => LettersFormatted("true", rest, k);
    case Number(m, _) => NumberFormatted(m, rest, k);
    case String(s) => StringFormatted(s, rest, k);
    case Array(items) => ArrayFormatted(items, k, rest);
    case Object(NoMembers) => EmptyObjectFormatted(k, rest);
    case Object(ms) => ObjectFormatted(ms, k, rest);
  }

  lemma Bracketed(a: string, t: string, b: string, rest: string)
    ensures (a + t + b) + rest == a + (t + (b + rest))
  {
    Cat(a + t, b, rest);
    Cat(a, t, b + rest);
  }

  lemma {:induction false} ArrayFormatted(items: Items, k: Stack, rest: string)
    ensures Format(Text(Array(items), |k|, false) + rest, k) == Text(Array(items), |k|, true) + Format(rest, k)
    decreases items, 1
  {
    var plain, full := ItemsText(items, |k| + 1, false), ItemsText(items, |k| + 1, true);
    Bracketed("[", plain, "]", rest);
    BracketsFormatted(plain + ("]" + rest), k);
    ItemsFormatted(items, k, "]" + rest);
    BracketsFormatted(rest, k);
    Bracketed("[", full, "]", Format(rest, k));
  }

  lemma {:induction false} ItemsFormatted(items: Items, k: Stack, tail: string)
    ensures Format(ItemsText(items, |k| + 1, false) + tail, k + [false]) == ItemsText(items, |k| + 1, true) + Format(tail, k + [false])
    decreases items, 0
  {
    var d, inner := |k| + 1, k + [false];
    match items
    case NoItems => assert "" + tail == tail;
    case Item(v, NoItems) => ValueFormatted(v, inner, tail);
    case Item(v, more) =>
      var t, t', m, m' := Text(v, d, false), Text(v, d, true), ItemsText(more, d, false), ItemsText(more, d, true);
      assert t + "," + "" == t + ",";
      Bracketed(t, ",", m, tail);
      ValueFormatted(v, inner, "," + (m + tail));
      BracesFormatted(m + tail, k);
      ItemsFormatted(more, k, tail);
      ItemJoined(t', m', Format(tail, inner));
  }

  lemma ItemJoined(t: string, m: string, f: string)
    ensures t + ("," + " " + (m + f)) == (t + "," + " " + m) + f
  {
    Cat(t + "," + " ", m, f);
    Cat(t + ",", " ", m + f);
    Cat(t, ",", " " + (m + f));
    Cat(",", " ", m + f);
  }

  lemma EmptyObjectFormatted(k: Stack, rest: string)
    ensures Format(Text(Object(NoMembers), |k|, false) + rest, k) == Text(Object(NoMembers), |k|, true) + Format(rest, k)
  {
    EmptyFormatted(rest, k);
    assert Text(Object(NoMembers), |k|, false) == "{}";
    assert Text(Object(NoMembers), |k|, true) == "{\n" + Tabs(|k| - 1) + "}";
  }

  /** One member and the mark behind it. */
  lemma {:induction false} MemberFormatted(ms: Members, k: Stack, tail: string)
    requires ms.Member?
    ensures Format(MemberText(ms.name, ms.value, |k| + 1, false) + tail, k + [true]) ==
            StringText(ms.name) + (":\t" + (Text(ms.value, |k| + 1, true) + Format(tail, k + [true])))
    decreases ms, 0
  {
    var n, v, inner := StringText(ms.name), Text(ms.value, |k| + 1, false), k + [true];
    assert "" + n + ":" + "" + v == n + ":" + v;
    Bracketed(n, ":", v, tail);
    StringFormatted(ms.name, ":" + (v + tail), inner);
    BracesFormatted(v + tail, inner);
    ValueFormatted(ms.value, inner, tail);
  }

  lemma LastJoined(t: string, n: string, v: string, t0: string, f: string)
    ensures t + (n + (":\t" + (v + ("\n" + t0 + "}" + f)))) == (t + n + ":" + "\t" + v + "\n") + (t0 + ("}" + f))
  {
    assert ":" + "\t" == ":\t";
    Cat(t + n, ":", "\t");
    Bracketed(t + n, ":\t", v + "\n", t0 + ("}" + f));
    assert t + n + ":\t" + v + "\n" == t + n + ":\t" + (v + "\n");
    Cat(t, n, ":\t" + ((v + "\n") + (t0 + ("}" + f))));
    Cat(v, "\n", t0 + ("}" + f));
    assert "\n" + t0 + "}" + f == "\n" + (t0 + ("}" + f));
  }

  lemma MoreJoined(t: string, n: string, v: string, x: string, m: string, c: string)
    requires t + x == m + c
    ensures t + (n + (":\t" + (v + ("," + ("\n" + t) + x)))) == (t + n + ":" + "\t" + v + "," + "\n" + m) + c
  {
    var e := "," + "\n";
    assert "," + ("\n" + t) + x == e + (m + c);
    assert t + n + ":" + "\t" + v + "," + "\n" + m == t + n + ":\t" + (v + e) + m;
    Cat(t + n + ":\t" + (v + e), m, c);
    Bracketed(t + n, ":\t", v + e, m + c);
    Cat(v, e, m + c);
    Cat(t, n, ":\t" + (v + (e + (m + c))));
  }

  /** The text of the members up to the closing brace, behind the tabs of the first one. */
  lemma {:induction false} MembersFormatted(ms: Members, k: Stack, rest: string)
    requires ms.Member?
    ensures Tabs(|k| + 1) + Format(MembersText(ms, |k| + 1, false) + ("}" + rest), k + [true]) ==
            MembersText(ms, |k| + 1, true) + (Tabs(|k|) + ("}" + Format(rest, k)))
    decreases ms, 2
  {
    var d, more := |k| + 1, ms.tail;
    if more.NoMembers? {
      LastFormatted(ms, k, rest);
    } else {
      var m, tail := MembersText(more, d, false), MembersText(more, d, false) + ("}" + rest);
      MembersFormatted(more, k, rest);
      Bracketed(MemberText(ms.name, ms.value, d, false), ",", m, "}" + rest);
      MemberFormatted(ms, k, "," + tail);
      BracesFormatted(tail, k);
      MoreJoined(Tabs(d), StringText(ms.name), Text(ms.value, d, true), Format(tail, k + [true]),
                 MembersText(more, d, true), Tabs(|k|) + ("}" + Format(rest, k)));
      MembersUnfold(ms, d);
      MembersUnfoldFull(ms, d);
    }
  }

  lemma {:induction false} LastFormatted(ms: Members, k: Stack, rest: string)
    requires ms.Member? && ms.tail.NoMembers?
    ensures Tabs(|k| + 1) + Format(MembersText(ms, |k| + 1, false) + ("}" + rest), k + [true]) ==
            MembersText(ms, |k| + 1, true) + (Tabs(|k|) + ("}" + Format(rest, k)))
    decreases ms, 1
  {
    var d := |k| + 1;
    MemberFormatted(ms, k, "}" + rest);
    BracesFormatted(rest, k);
    LastJoined(Tabs(d), StringText(ms.name), Text(ms.value, d, true), Tabs(|k|), Format(rest, k));
    MembersUnfold(ms, d);
    MembersUnfoldFull(ms, d);
  }

  lemma MembersUnfold(ms: Members, d: nat)
    requires ms.Member?
    ensures MembersText(ms, d, false) ==
            if ms.tail.NoMembers? then MemberText(ms.name, ms.value, d, false)
            else MemberText(ms.name, ms.value, d, false) + "," + MembersText(ms.tail, d, false)
  {
    var a := MemberText(ms.name, ms.value, d, false);
    if ms.tail.NoMembers? {
      assert a + "" + "" + "" == a;
    } else {
      assert a + "," + "" == a + ",";
    }
  }

  lemma MembersStart(ms: Members, d: nat)
    requires ms.Member?
    ensures MembersText(ms, d, false) != "" && MembersText(ms, d, false)[0] == '\"'
  {
    MembersUnfold(ms, d);
    assert MemberText(ms.name, ms.value, d, false)[0] == '\"';
  }

  lemma MembersUnfoldFull(ms: Members, d: nat)
    requires ms.Member?
    ensures var m := Tabs(d) + StringText(ms.name) + ":" + "\t" + Text(ms.value, d, true);
            MembersText(ms, d, true) ==
            if ms.tail.NoMembers? then m + "\n" else m + "," + "\n" + MembersText(ms.tail, d, true)
  {
    var m := Tabs(d) + StringText(ms.name) + ":" + "\t" + Text(ms.value, d, true);
    if ms.tail.NoMembers? {
      assert m + "" + "\n" + "" == m + "\n";
    }
  }

  lemma ObjectJoined(t: string, x: string, m: string, t0: string, f: string)
    requires t + x == m + (t0 + ("}" + f))
    ensures "{\n" + t + x == ("{\n" + m + t0 + "}") + f
  {
    Cat("{\n", t, x);
    Cat("{\n" + m + t0, "}", f);
    Bracketed("{\n", m, t0, "}" + f);
  }

  lemma ObjectUnfold(ms: Members, d: nat)
    requires ms.Member?
    ensures Text(Object(ms), d, false) == "{" + MembersText(ms, d + 1, false) + "}"
    ensures Text(Object(ms), d, true) == "{\n" + MembersText(ms, d + 1, true) + Tabs(d) + "}"
  {
    assert "{" + "\n" == "{\n";
    assert "{" + "" + MembersText(ms, d + 1, false) + "" + "}" == "{" + MembersText(ms, d + 1, false) + "}";
  }

  lemma {:induction false} ObjectFormatted(ms: Members, k: Stack, rest: string)
    requires ms.Member?
    ensures Format(Text(Object(ms), |k|, false) + rest, k) == Text(Object(ms), |k|, true) + Format(rest, k)
    decreases ms, 3
  {
    ObjectUnfold(ms, |k|);
    var plain, full := MembersText(ms, |k| + 1, false), MembersText(ms, |k| + 1, true);
    Bracketed("{", plain, "}", rest);
    MembersFormatted(ms, k, rest);
    ObjectOpened(ms, k, plain + ("}" + rest), full, Format(rest, k));
  }

  lemma ObjectOpened(ms: Members, k: Stack, tail: string, full: string, f: string)
    requires MembersText(ms, |k| + 1, false) <= tail && ms.Member?
    requires Tabs(|k| + 1) + Format(tail, k + [true]) == full + (Tabs(|k|) + ("}" + f))
    ensures Format("{" + tail, k) == ("{\n" + full + Tabs(|k|) + "}") + f
  {
    MembersStart(ms, |k| + 1);
    assert Head(tail) == '\"';
    BracesFormatted(tail, k);
    ObjectJoined(Tabs(|k| + 1), Format(tail, k + [true]), full, Tabs(|k|), f);
  }

  /** At every depth. */
  lemma FormatUnformatted(v: Json, k: Stack)
    ensures Format(Text(v, |k|, false), k) == Text(v, |k|, true)
  {
    ValueFormatted(v, k, "");
    assert Text(v, |k|, false) + "" == Text(v, |k|, false);
    assert Text(v, |k|, true) + Format("", k) == Text(v, |k|, true);
  }
}
