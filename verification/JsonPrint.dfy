/**
  The printer of src/cJSON.c. Each print function works out a length, allocates a buffer of that
  length and fills it; that the buffer is never overrun is part of what is verified here.
 */
module JsonPrint {
  import opened JsonText
  import opened JsonRoundTrip

  datatype Option<T> = None | Some(value: T)

  // ---------------------------------------------------------------------------------------
  // Writing into a buffer

  /** The first `at` characters of the buffer are p. */
  ghost predicate Written(out: array<char>, at: nat, p: string)
    reads out
  {
    at == |p| <= out.Length && out[..at] == p
  }

  method PutChar(out: array<char>, at: nat, c: char, ghost p: string) returns (at': nat)
    requires Written(out, at, p) && at < out.Length
    modifies out
    ensures at' == at + 1 && Written(out, at', p + [c])
  {
    out[at] := c;
    at' := at + 1;
    assert out[..at'] == out[..at] + [c];
  }

  /** Copies a text and its terminator. */
  method PutText(out: array<char>, at: nat, t: string, ghost p: string) returns (at': nat)
    requires Written(out, at, p) && at + |t| < out.Length
    modifies out
    ensures at' == at + |t| && Written(out, at', p + t) && out[at'] == '\0'
  {
    at' := at;
    var i := 0;
    while i < |t|
      invariant 0 <= i <= |t| && at' == at + i && Written(out, at', p + t[..i])
    {
      at' := PutChar(out, at', t[i], p + t[..i]);
      assert (p + t[..i]) + [t[i]] == p + t[..i + 1];
      i := i + 1;
    }
    assert t[..i] == t;
    out[at'] := '\0';
    assert out[..at'] == p + t;
  }

  method PutTabs(out: array<char>, at: nat, n: int, ghost p: string) returns (at': nat)
    requires Written(out, at, p) && at + |Tabs(n)| <= out.Length
    modifies out
    ensures at' == at + |Tabs(n)| && Written(out, at', p + Tabs(n))
  {
    at' := at;
    var i := 0;
    ghost var q := p;
    assert p + Tabs(n) == q + Tabs(n - i);
    while i < n
      invariant 0 <= i && (i <= n || i == 0) && Written(out, at', q) && q + Tabs(n - i) == p + Tabs(n)
      invariant at' + |Tabs(n - i)| == at + |Tabs(n)|
    {
      Cat(q, "\t", Tabs(n - i - 1));
      at' := PutChar(out, at', '\t', q);
      q := q + "\t";
      i := i + 1;
    }
    assert q + "" == q;
  }

  // ---------------------------------------------------------------------------------------
  // Strings and numbers

  /** The room that one character takes. */
  lemma EscapeLength(c: char)
    requires c != '\0'
    ensures |Escape(c)| == 1 + if c in "\"\\\U{08}\U{0C}\n\r\t" then 1 else if c as int < 32 then 5 else 0
  {
  }

  lemma {:induction false} EscapedAppend(s: string, c: char)
    ensures Escaped(s + [c]) == Escaped(s) + Escape(c)
  {
    if s == "" {
      assert s + [c] == [c] && [c][1..] == "";
      assert Escaped([c]) == Escape(c) + Escaped("");
    } else {
      assert (s + [c])[1..] == s[1..] + [c];
      EscapedAppend(s[1..], c);
      Cat(Escape(s[0]), Escaped(s[1..]), Escape(c));
    }
  }

  lemma {:induction false} EscapedPrefix(s: string, i: nat)
    requires i <= |s|
    ensures |Escaped(s[..i])| <= |Escaped(s)|
    ensures i < |s| ==> |Escaped(s[..i])| + |Escape(s[i])| <= |Escaped(s)|
    decreases |s| - i
  {
    if i == |s| {
      assert s[..i] == s;
    } else {
      EscapedPrefix(s, i + 1);
      EscapedAppend(s[..i], s[i]);
      assert s[..i + 1] == s[..i] + [s[i]];
    }
  }

  method EscapedLength(str: string) returns (len: nat)
    requires NulFree(str)
    ensures len == |Escaped(str)|
  {
    len := 0;
    var i := 0;
    while i < |str|
      invariant 0 <= i <= |str| && len == |Escaped(str[..i])|
    {
      EscapeLength(str[i]);
      EscapedAppend(str[..i], str[i]);
      assert str[..i + 1] == str[..i] + [str[i]];
      len := len + 1;
      if str[i] in "\"\\\U{08}\U{0C}\n\r\t" {
        len := len + 1;
      } else if str[i] as int < 32 {
        len := len + 5;
      }
      i := i + 1;
    }
    assert str[..i] == str;
  }

  method PutEscape(out: array<char>, at: nat, c: char, ghost p: string) returns (at': nat)
    requires Written(out, at, p) && at + |Escape(c)| < out.Length
    modifies out
    ensures at' == at + |Escape(c)| && Written(out, at', p + Escape(c))
  {
    if c as int > 31 && c != '\"' && c != '\\' {
      at' := PutChar(out, at, c, p);
      return;
    }
    at' := PutChar(out, at, '\\', p);
    ghost var q := p + ['\\'];
    Cat(p, ['\\'], Escape(c)[1..]);
    assert Escape(c) == ['\\'] + Escape(c)[1..];
    match c
    case '\\' => at' := PutChar(out, at', '\\', q);
    case '\"' => at' := PutChar(out, at', '\"', q);
    case '\U{08}' => at' := PutChar(out, at', 'b', q);
    case '\U{0C}' => at' := PutChar(out, at', 'f', q);
    case '\n' => at' := PutChar(out, at', 'n', q);
    case '\r' => at' := PutChar(out, at', 'r', q);
    case '\t' => at' := PutChar(out, at', 't', q);
    case _ => at' := PutText(out, at', EscapeCode(c as int), q);
  }

  method PrintString(str: string, memory: bool) returns (r: Option<string>)
    requires NulFree(str)
    ensures memory ==> r.Some?
    ensures r.Some? ==> r.value == StringText(str)
  {
    var len := EscapedLength(str);
    var fails: bool := *;
    if fails && !memory { return None; }
    var out := new char[len + 3];
    ghost var p := "";
    var at := PutChar(out, 0, '\"', p);
    p := "\"";
    var i := 0;
    while i < |str|
      invariant 0 <= i <= |str| && p == "\"" + Escaped(str[..i]) && Written(out, at, p)
    {
      EscapedPrefix(str, i);
      at := PutEscape(out, at, str[i], p);
      Cat("\"", Escaped(str[..i]), Escape(str[i]));
      p := p + Escape(str[i]);
      EscapedAppend(str[..i], str[i]);
      assert str[..i + 1] == str[..i] + [str[i]];
      i := i + 1;
    }
    assert str[..i] == str;
    at := PutChar(out, at, '\"', p);
    out[at] := '\0';
    return Some(out[..at]);
  }

  lemma {:induction false} DigitsLength(n: nat, k: nat, bound: nat)
    requires 0 < k && bound == Power(k) && n < bound
    ensures |Digits(n)| <= k
  {
    if n >= 10 {
      DigitsLength(n / 10, k - 1, Power(k - 1));
    }
  }

  ghost function Power(k: nat): nat {
    if k == 0 then 1 else 10 * Power(k - 1)
  }

  lemma IntegerFits(m: int)
    requires INT_MIN <= m <= INT_MAX
    ensures |Decimal(m)| < 21
  {
    var n := if m < 0 then 0 - m else m;
    assert Power(5) == 100_000;
    assert Power(10) == 10_000_000_000;
    DigitsLength(n, 10, Power(10));
  }

  method PrintNumber(m: int, memory: bool) returns (r: Option<string>)
    requires INT_MIN <= m <= INT_MAX
    ensures memory ==> r.Some?
    ensures r.Some? ==> r.value == Decimal(m)
  {
    var fails: bool := *;
    if fails && !memory { return None; }
    var out := new char[21];
    IntegerFits(m);
    var at := PutText(out, 0, Decimal(m), "");
    return Some(out[..at]);
  }

  // ---------------------------------------------------------------------------------------
  // Arrays

  ghost function TextsOf(items: Items, d: nat, fmt: bool): seq<string> {
    if items.NoItems? then [] else [Text(items.head, d, fmt)] + TextsOf(items.tail, d, fmt)
  }

  /** Entries with commas between them. */
  ghost function Joined(entries: seq<string>, fmt: bool): string {
    if entries == [] then ""
    else if |entries| == 1 then entries[0]
    else entries[0] + "," + If(fmt, " ") + Joined(entries[1..], fmt)
  }

  lemma {:induction false} ItemsAreJoined(items: Items, d: nat, fmt: bool)
    ensures ItemsText(items, d, fmt) == Joined(TextsOf(items, d, fmt), fmt)
  {
    if items.Item? {
      assert TextsOf(items, d, fmt)[1..] == TextsOf(items.tail, d, fmt);
      ItemsAreJoined(items.tail, d, fmt);
    }
  }

  /** The room set aside for entries. */
  ghost function Room(entries: seq<string>, extra: nat): nat {
    if entries == [] then 0 else Room(entries[..|entries| - 1], extra) + |entries[|entries| - 1]| + extra
  }

  lemma {:induction false} RoomFirst(entries: seq<string>, extra: nat)
    requires entries != []
    ensures Room(entries, extra) == |entries[0]| + extra + Room(entries[1..], extra)
  {
    var n := |entries| - 1;
    if n > 0 {
      RoomFirst(entries[..n], extra);
      assert entries[..n][1..] == entries[1..][..n - 1];
    }
  }

  lemma {:induction false} JoinedFits(entries: seq<string>, fmt: bool)
    ensures |Joined(entries, fmt)| <= Room(entries, if fmt then 3 else 2)
  {
    if entries != [] {
      RoomFirst(entries, if fmt then 3 else 2);
      JoinedFits(entries[1..], fmt);
    }
  }

  lemma JoinedStep(p: string, entries: seq<string>, fmt: bool)
    requires entries != []
    ensures p + Joined(entries, fmt) ==
            if |entries| == 1 then p + entries[0] else (((p + entries[0]) + ",") + If(fmt, " ")) + Joined(entries[1..], fmt)
  {
    var t := entries[0];
    if |entries| > 1 {
      Cat(p, t + "," + If(fmt, " "), Joined(entries[1..], fmt));
      Cat(p, t + ",", If(fmt, " "));
      Cat(p, t, ",");
    }
  }

  method PutSeparator(out: array<char>, at: nat, fmt: bool, ghost p: string) returns (at': nat)
    requires Written(out, at, p) && at + |If(fmt, " ")| + 1 < out.Length
    modifies out
    ensures at' == at + 1 + |If(fmt, " ")| && Written(out, at', (p + ",") + If(fmt, " "))
  {
    at' := PutChar(out, at, ',', p);
    assert (p + ",") + "" == p + ",";
    if fmt { at' := PutChar(out, at', ' ', p + ","); }
    out[at'] := '\0';
  }

  /** Composes the entries of an array. */
  method PutEntries(out: array<char>, from: nat, entries: seq<string>, fmt: bool, ghost p: string) returns (at: nat)
    requires Written(out, from, p) && from + |Joined(entries, fmt)| < out.Length
    modifies out
    ensures at == from + |Joined(entries, fmt)| && Written(out, at, p + Joined(entries, fmt))
  {
    at := from;
    ghost var q := p;
    var i := 0;
    while i < |entries|
      invariant 0 <= i <= |entries| && Written(out, at, q) && q + Joined(entries[i..], fmt) == p + Joined(entries, fmt)
    {
      JoinedStep(q, entries[i..], fmt);
      assert entries[i..][1..] == entries[i + 1..];
      at := PutText(out, at, entries[i], q);
      q := q + entries[i];
      if i != |entries| - 1 {
        at := PutSeparator(out, at, fmt, q);
        q := (q + ",") + If(fmt, " ");
      } else {
        assert q + Joined([], fmt) == q;
      }
      i := i + 1;
    }
    assert q + Joined([], fmt) == q;
  }

  /** Fills the buffer for the entries of an array. */
  method ComposeArray(entries: seq<string>, len: nat, fmt: bool) returns (text: string)
    requires len == 5 + Room(entries, if fmt then 3 else 2)
    ensures text == "[" + Joined(entries, fmt) + "]"
  {
    JoinedFits(entries, fmt);
    var out := new char[len];
    var at := PutChar(out, 0, '[', "");
    out[at] := '\0';
    at := PutEntries(out, at, entries, fmt, "[");
    at := PutChar(out, at, ']', "[" + Joined(entries, fmt));
    out[at] := '\0';
    text := out[..at];
  }

  /** Prints the items of a list and adds up the room they take. */
  method CollectItems(items: Items, d: nat, fmt: bool, memory: bool) returns (ok: bool, entries: seq<string>, len: nat)
    requires PrintableItems(items)
    ensures memory ==> ok
    ensures ok ==> entries == TextsOf(items, d, fmt) && len == 5 + Room(entries, if fmt then 3 else 2)
    decreases items, 0
  {
    entries, len := [], 5;
    var child := items;
    while child.Item?
      invariant PrintableItems(child) && (child == items || child < items)
      invariant entries + TextsOf(child, d, fmt) == TextsOf(items, d, fmt)
      invariant len == 5 + Room(entries, if fmt then 3 else 2)
      decreases child
    {
      var ret := PrintValue(child.head, d, fmt, memory);
      if ret.None? { return false, entries, len; }
      assert (entries + [ret.value])[..|entries|] == entries;
      entries := entries + [ret.value];
      len := len + |ret.value| + 2 + if fmt then 1 else 0;
      child := child.tail;
    }
    ok := true;
  }

  method PrintArray(items: Items, depth: nat, fmt: bool, memory: bool) returns (r: Option<string>)
    requires PrintableItems(items)
    ensures memory ==> r.Some?
    ensures r.Some? ==> r.value == Text(Array(items), depth, fmt)
    decreases items, 1
  {
    var fails: bool := *;
    if fails && !memory { return None; }
    if items.NoItems? { return Some("[]"); }
    var ok, entries, len := CollectItems(items, depth + 1, fmt, memory);
    if !ok { return None; }
    var text := ComposeArray(entries, len, fmt);
    ItemsAreJoined(items, depth + 1, fmt);
    return Some(text);
  }

  // ---------------------------------------------------------------------------------------
  // Objects

  /** The texts of a member's name and value. */
  datatype Entry = Entry(name: string, value: string)

  ghost function EntriesOf(ms: Members, d: nat, fmt: bool): seq<Entry> {
    if ms.NoMembers? then [] else [Entry(StringText(ms.name), Text(ms.value, d, fmt))] + EntriesOf(ms.tail, d, fmt)
  }

  ghost function JoinedMembers(es: seq<Entry>, d: nat, fmt: bool): string {
    if es == [] then ""
    else
      If(fmt, Tabs(d)) + es[0].name + ":" + If(fmt, "\t") + es[0].value + If(|es| > 1, ",") + If(fmt, "\n") +
      JoinedMembers(es[1..], d, fmt)
  }

  lemma {:induction false} MembersAreJoined(ms: Members, d: nat, fmt: bool)
    ensures MembersText(ms, d, fmt) == JoinedMembers(EntriesOf(ms, d, fmt), d, fmt)
  {
    if ms.Member? {
      assert EntriesOf(ms, d, fmt)[1..] == EntriesOf(ms.tail, d, fmt);
      MembersAreJoined(ms.tail, d, fmt);
    }
  }

  /** The room set aside for one member beside its two texts. */
  function Extra(d: nat, fmt: bool): nat {
    2 + if fmt then 2 + d else 0
  }

  ghost function MemberRoom(es: seq<Entry>, extra: nat): nat {
    if es == [] then 0
    else MemberRoom(es[..|es| - 1], extra) + |es[|es| - 1].name| + |es[|es| - 1].value| + extra
  }

  lemma {:induction false} MemberRoomFirst(es: seq<Entry>, extra: nat)
    requires es != []
    ensures MemberRoom(es, extra) == |es[0].name| + |es[0].value| + extra + MemberRoom(es[1..], extra)
  {
    var n := |es| - 1;
    if n > 0 {
      MemberRoomFirst(es[..n], extra);
      assert es[..n][1..] == es[1..][..n - 1];
    }
  }

  lemma {:induction false} TabsLength(n: int)
    ensures |Tabs(n)| == if n < 0 then 0 else n
    decreases n
  {
    if n > 0 { TabsLength(n - 1); }
  }

  lemma {:induction false} MembersFit(es: seq<Entry>, d: nat, fmt: bool)
    ensures |JoinedMembers(es, d, fmt)| <= MemberRoom(es, Extra(d, fmt))
  {
    if es != [] {
      TabsLength(d);
      MemberRoomFirst(es, Extra(d, fmt));
      MembersFit(es[1..], d, fmt);
    }
  }

  /** The text of one member as it is put together. */
  ghost function AfterEntry(p: string, e: Entry, last: bool, d: nat, fmt: bool): string {
    p + If(fmt, Tabs(d)) + e.name + ":" + If(fmt, "\t") + e.value + If(!last, ",") + If(fmt, "\n")
  }

  lemma JoinedMembersStep(p: string, es: seq<Entry>, d: nat, fmt: bool)
    requires es != []
    ensures p + JoinedMembers(es, d, fmt) == AfterEntry(p, es[0], |es| == 1, d, fmt) + JoinedMembers(es[1..], d, fmt)
  {
    var a, b, c, v, f, g := If(fmt, Tabs(d)), es[0].name, If(fmt, "\t"), es[0].value, If(|es| > 1, ","), If(fmt, "\n");
    Cat(p, a + b + ":" + c + v + f + g, JoinedMembers(es[1..], d, fmt));
    Cat(p, a + b + ":" + c + v + f, g);
    Cat(p, a + b + ":" + c + v, f);
    Cat(p, a + b + ":" + c, v);
    Cat(p, a + b + ":", c);
    Cat(p, a + b, ":");
    Cat(p, a, b);
  }

  /** One member; the terminator is written after it. */
  method PutEntry(out: array<char>, from: nat, e: Entry, last: bool, d: nat, fmt: bool, ghost p: string) returns (at: nat)
    requires Written(out, from, p) && |AfterEntry(p, e, last, d, fmt)| < out.Length
    modifies out
    ensures at == |AfterEntry(p, e, last, d, fmt)| && Written(out, at, AfterEntry(p, e, last, d, fmt))
  {
    at := from;
    if fmt { at := PutTabs(out, at, d, p); }
    ghost var q := p + If(fmt, Tabs(d));
    assert p + "" == p;
    at := PutText(out, at, e.name, q);
    at := PutChar(out, at, ':', q + e.name);
    at := PutRest(out, at, e.value, last, fmt, q + e.name + ":");
  }

  method PutRest(out: array<char>, from: nat, value: string, last: bool, fmt: bool, ghost p: string) returns (at: nat)
    requires Written(out, from, p) && |p + If(fmt, "\t") + value + If(!last, ",") + If(fmt, "\n")| < out.Length
    modifies out
    ensures var q := p + If(fmt, "\t") + value + If(!last, ",") + If(fmt, "\n"); at == |q| && Written(out, at, q)
  {
    at := from;
    if fmt { at := PutChar(out, at, '\t', p); }
    ghost var q := p + If(fmt, "\t");
    assert p + "" == p;
    at := PutText(out, at, value, q);
    q := q + value;
    if !last { at := PutChar(out, at, ',', q); }
    assert q + "" == q;
    q := q + If(!last, ",");
    if fmt { at := PutChar(out, at, '\n', q); }
    assert q + "" == q;
    out[at] := '\0';
  }

  method PutMembers(out: array<char>, from: nat, es: seq<Entry>, d: nat, fmt: bool, ghost p: string) returns (at: nat)
    requires Written(out, from, p) && from + |JoinedMembers(es, d, fmt)| < out.Length
    modifies out
    ensures at == from + |JoinedMembers(es, d, fmt)| && Written(out, at, p + JoinedMembers(es, d, fmt))
  {
    at := from;
    ghost var q := p;
    var i := 0;
    while i < |es|
      invariant 0 <= i <= |es| && Written(out, at, q) && q + JoinedMembers(es[i..], d, fmt) == p + JoinedMembers(es, d, fmt)
    {
      JoinedMembersStep(q, es[i..], d, fmt);
      assert es[i..][1..] == es[i + 1..];
      at := PutEntry(out, at, es[i], i == |es| - 1, d, fmt, q);
      q := AfterEntry(q, es[i], i == |es| - 1, d, fmt);
      i := i + 1;
    }
    assert q + JoinedMembers([], d, fmt) == q;
  }

  /** Fills the buffer for the entries of an object. */
  method ComposeObject(es: seq<Entry>, len: nat, d: nat, fmt: bool) returns (text: string)
    requires d > 0 && len == 7 + (if fmt then d else 0) + MemberRoom(es, Extra(d, fmt))
    ensures text == "{" + If(fmt, "\n") + JoinedMembers(es, d, fmt) + If(fmt, Tabs(d - 1)) + "}"
  {
    MembersFit(es, d, fmt);
    TabsLength(d - 1);
    var out := new char[len];
    var at := PutChar(out, 0, '{', "");
    if fmt { at := PutChar(out, at, '\n', "{"); }
    ghost var p := "{" + If(fmt, "\n");
    assert "{" + "" == "{";
    out[at] := '\0';
    at := PutMembers(out, at, es, d, fmt, p);
    p := p + JoinedMembers(es, d, fmt);
    if fmt { at := PutTabs(out, at, d - 1, p); }
    assert p + "" == p;
    p := p + If(fmt, Tabs(d - 1));
    at := PutChar(out, at, '}', p);
    out[at] := '\0';
    text := out[..at];
  }

  method EmptyObject(depth: nat, fmt: bool) returns (text: string)
    ensures text == Text(Object(NoMembers), depth, fmt)
  {
    TabsLength(depth - 1);
    var out := new char[if fmt then depth + 4 else 3];
    var at := PutChar(out, 0, '{', "");
    if fmt {
      at := PutChar(out, at, '\n', "{");
      at := PutTabs(out, at, depth - 1, "{\n");
      Cat("{", "\n", Tabs(depth - 1));
    }
    assert "{" + "" == "{";
    at := PutChar(out, at, '}', "{" + If(fmt, "\n" + Tabs(depth - 1)));
    out[at] := '\0';
    text := out[..at];
  }

  /** What collecting one more member does. */
  lemma CollectStep(es: seq<Entry>, e: Entry, rest: seq<Entry>, extra: nat)
    ensures (es + [e]) + rest == es + ([e] + rest)
    ensures MemberRoom(es + [e], extra) == MemberRoom(es, extra) + |e.name| + |e.value| + extra
  {
    assert (es + [e])[..|es|] == es;
  }

  /** Prints names and values and adds up the room they take. */
  method CollectMembers(ms: Members, d: nat, fmt: bool, memory: bool) returns (ok: bool, es: seq<Entry>, len: nat)
    requires PrintableMembers(ms)
    ensures memory ==> ok
    ensures ok ==> es == EntriesOf(ms, d, fmt) && len == 7 + (if fmt then d else 0) + MemberRoom(es, Extra(d, fmt))
    decreases ms, 0
  {
    es, len := [], 7 + if fmt then d else 0;
    var child := ms;
    ok := true;
    while child.Member?
      invariant PrintableMembers(child) && (child == ms || child < ms)
      invariant memory ==> ok
      invariant ok ==> es + EntriesOf(child, d, fmt) == EntriesOf(ms, d, fmt)
      invariant ok ==> len == 7 + (if fmt then d else 0) + MemberRoom(es, Extra(d, fmt))
      decreases child
    {
      var str := PrintString(child.name, memory);
      var ret := PrintValue(child.value, d, fmt, memory);
      if str.Some? && ret.Some? {
        var e := Entry(str.value, ret.value);
        CollectStep(es, e, EntriesOf(child.tail, d, fmt), Extra(d, fmt));
        es := es + [e];
        len := len + |ret.value| + |str.value| + 2 + if fmt then 2 + d else 0;
      } else {
        ok := false;
      }
      child := child.tail;
    }
  }

  method PrintObject(ms: Members, depth: nat, fmt: bool, memory: bool) returns (r: Option<string>)
    requires PrintableMembers(ms)
    ensures memory ==> r.Some?
    ensures r.Some? ==> r.value == Text(Object(ms), depth, fmt)
    decreases ms, 1
  {
    var fails: bool := *;
    if fails && !memory { return None; }
    if ms.NoMembers? {
      var empty := EmptyObject(depth, fmt);
      return Some(empty);
    }
    var ok, es, len := CollectMembers(ms, depth + 1, fmt, memory);
    if !ok { return None; }
    MembersAreJoined(ms, depth + 1, fmt);
    var text := ComposeObject(es, len, depth + 1, fmt);
    return Some(text);
  }

  // ---------------------------------------------------------------------------------------
  // Values

  method PrintLiteral(s: string, memory: bool) returns (r: Option<string>)
    ensures memory ==> r.Some?
    ensures r.Some? ==> r.value == s
  {
    var fails: bool := *;
    return if fails && !memory then None else Some(s);
  }

  /** The text of a value, or nothing if memory runs out; `memory` says that it does not. */
  method PrintValue(v: Json, depth: nat, fmt: bool, memory: bool) returns (r: Option<string>)
    requires Printable(v)
    ensures memory ==> r.Some?
    ensures r.Some? ==> r.value == Text(v, depth, fmt)
    decreases v, 0
  {
    match v
    case Null => r := PrintLiteral("null", memory);
    case False => r := PrintLiteral("false", memory);
    case True => r := PrintLiteral("true", memory);
    case Number(m, _) => r := PrintNumber(m, memory);
    case String(s) => r := PrintString(s, memory);
    case Array(items) => r := PrintArray(items, depth, fmt, memory);
    case Object(ms) => r := PrintObject(ms, depth, fmt, memory);
  }
}
