/**
  The parser of src/cJSON.c: loops over the text that find what the grammar functions say. A list
  of children is kept as a sequence while it grows.
 */
module JsonParser {
  import opened JsonText
  import G = JsonGrammar
  import opened JsonPrint
  import RT = JsonRoundTrip
  import B = JsonBuffer

  type Result<T> = G.Result<T>

  method SkipBlanks(text: string) returns (s: string)
    ensures s == G.Skip(text)
  {
    s := text;
    while s != "" && s[0] as int <= 32
      invariant G.Skip(s) == G.Skip(text)
      decreases |s|
    {
      s := s[1..];
    }
  }

  // ---------------------------------------------------------------------------------------
  // Numbers

  method ReadDigits(text: string, start: nat) returns (n: nat, s: string)
    ensures (n, s) == G.ReadDigits(text, start)
  {
    n, s := start, text;
    while G.IsDigit(G.Head(s))
      invariant G.ReadDigits(s, n) == G.ReadDigits(text, start)
      decreases |s|
    {
      n := n * 10 + G.DigitValue(s[0]);
      s := s[1..];
    }
  }

  method ReadInteger(text: string) returns (n: nat, s: string)
    ensures (n, s) == G.ReadInteger(text)
  {
    n, s := 0, text;
    if G.Head(s) == '0' { s := s[1..]; }
    if '1' <= G.Head(s) <= '9' { n, s := ReadDigits(s, 0); }
  }

  method ReadFraction(m: nat, text: string) returns (n: nat, places: nat, s: string)
    ensures (n, places, s) == G.ReadFraction(m, text)
  {
    n, places, s := m, 0, text;
    if G.Head(s) == '.' && G.IsDigit(G.At(s, 1)) {
      n, s := ReadDigits(s[1..], n);
      places := |text| - 1 - |s|;
    }
  }

  method ReadExponent(text: string) returns (e: int, s: string)
    ensures (e, s) == G.ReadExponent(text)
  {
    e, s := 0, text;
    if G.Head(s) != 'e' && G.Head(s) != 'E' { return; }
    s := s[1..];
    var minus := G.Head(s) == '-';
    if minus || G.Head(s) == '+' { s := s[1..]; }
    e, s := ReadDigits(s, 0);
    if minus { e := -e; }
  }

  method ParseNumber(text: string) returns (r: Result<Json>)
    ensures r == G.ParseNumber(text)
  {
    var s, minus := text, G.Head(text) == '-';
    if minus { s := s[1..]; }
    var n, places, e;
    n, s := ReadInteger(s);
    n, places, s := ReadFraction(n, s);
    e, s := ReadExponent(s);
    var m: int := n;
    if minus { m := -m; }
    return G.Parsed(Number(m, e - places), s);
  }

  // ---------------------------------------------------------------------------------------
  // Strings

  /** A character of the text, or its terminator; nothing behind that may be read. */
  function Read(s: string, i: nat): char
    requires i <= |s|
  {
    G.At(s, i)
  }

  /** The first pass. It may step over the terminator, and then the next read is out of bounds. */
  method CountChars(s: string) returns (ok: bool, len: nat)
    ensures ok == G.Scans(s)
    ensures ok ==> len == G.Count(s)
  {
    var pos := 0;
    len := 0;
    assert s[0..] == s;
    while pos < |s| && s[pos] != '\"'
      invariant 0 <= pos <= |s| + 1
      invariant if pos <= |s| then G.Scans(s[pos..]) == G.Scans(s) && len + G.Count(s[pos..]) == G.Count(s) else !G.Scans(s)
    {
      len := len + 1;
      if s[pos] == '\\' { pos := pos + 1; }
      pos := pos + 1;
    }
    ok := pos <= |s|;
  }

  method ReadHex(s: string, i: nat) returns (h: nat)
    requires i <= |s|
    ensures h == G.Hex4(s, i)
  {
    var a := G.HexValue(Read(s, i));
    if a == 16 { return 0; }
    var b := G.HexValue(Read(s, i + 1));
    if b == 16 { return 0; }
    var c := G.HexValue(Read(s, i + 2));
    if c == 16 { return 0; }
    var d := G.HexValue(Read(s, i + 3));
    if d == 16 { return 0; }
    return ((a * 16 + b) * 16 + c) * 16 + d;
  }

  /** Writes the UTF-8 bytes of a code point, the last one first. */
  method PutUtf8(out: array<char>, at: nat, code: nat, ghost p: string) returns (ok: bool, at': nat)
    requires Written(out, at, p) && code < 0x11_0000
    modifies out
    ensures ok == (at + |G.Utf8(code)| <= out.Length)
    ensures ok ==> at' == at + |G.Utf8(code)| && Written(out, at', p + G.Utf8(code))
  {
    var len := Utf8Length(code);
    at' := at + len;
    if at' > out.Length { return false, at; }
    var uc := PutTails(out, at, code, len, p);
    out[at] := ([0, 0xC0, 0xE0, 0xF0][len - 1] + uc) as char;
    ok := true;
    assert out[at..at'] == [out[at]] + out[at + 1..at'];
    assert out[..at'] == out[..at] + out[at..at'];
  }

  function Utf8Length(code: nat): (len: nat)
    requires code < 0x11_0000
    ensures len == |G.Utf8(code)| <= 4
  {
    if code < 0x80 then 1 else if code < 0x800 then 2 else if code < 0x1_0000 then 3 else 4
  }

  /** All bytes of a code point but the first; the bits for that one are left. */
  method PutTails(out: array<char>, at: nat, code: nat, len: nat, ghost p: string) returns (uc: nat)
    requires Written(out, at, p) && code < 0x11_0000 && len == Utf8Length(code) && at + len <= out.Length
    modifies out
    ensures out[..at] == p && out[at + 1..at + len] == G.Utf8(code)[1..]
    ensures G.Utf8(code)[0] as int == [0, 0xC0, 0xE0, 0xF0][len - 1] + uc
  {
    uc := code;
    if len == 4 { uc := PutTail(out, at + 3, uc, p); }
    if len >= 3 { uc := PutTail(out, at + 2, uc, p); }
    if len >= 2 { uc := PutTail(out, at + 1, uc, p); }
  }

  /** Writes six bits, behind the first |p| characters. */
  method PutTail(out: array<char>, i: nat, uc: nat, ghost p: string) returns (more: nat)
    requires |p| <= i < out.Length && out[..|p|] == p
    modifies out
    ensures out[i] == G.Continuation(uc) && more == uc / 0x40 && out[..|p|] == p
    ensures forall k :: i < k < out.Length ==> out[k] == old(out[k])
  {
    out[i] := G.Continuation(uc);
    more := uc / 0x40;
  }

  lemma AtRest(s: string, pos: nat, k: nat)
    requires pos <= |s|
    ensures G.At(s[pos..], k) == G.At(s, pos + k)
  {
  }

  lemma HexRest(s: string, pos: nat, k: nat)
    requires pos <= |s|
    ensures G.Hex4(s[pos..], k) == G.Hex4(s, pos + k)
  {
    AtRest(s, pos, k);
    AtRest(s, pos, k + 1);
    AtRest(s, pos, k + 2);
    AtRest(s, pos, k + 3);
  }

  lemma CodeRest(s: string, pos: nat)
    requires pos <= |s|
    ensures G.CodeAt(s[pos..], 0) == G.CodeAt(s, pos)
  {
    HexRest(s, pos, 2);
    AtRest(s, pos, 6);
    AtRest(s, pos, 7);
    HexRest(s, pos, 8);
  }

  /** The code point of an escape; 0 if it is none. */
  method ReadCode(s: string, pos: nat) returns (code: nat, width: nat)
    requires pos + 2 <= |s|
    ensures (code, width) == G.CodeAt(s, pos)
  {
    var high := ReadHex(s, pos + 2);
    if (0xDC00 <= high <= 0xDFFF) || high == 0 { return 0, 6; }
    if !(0xD800 <= high <= 0xDBFF) { return high, 6; }
    B.HexIsPlain(s, pos + 2);
    if Read(s, pos + 6) != '\\' || Read(s, pos + 7) != 'u' { return 0, 6; }
    var low := ReadHex(s, pos + 8);
    if low < 0xDC00 || low > 0xDFFF { return 0, 12; }
    return 0x1_0000 + high % 0x400 * 0x400 + low % 0x400, 12;
  }

  /** The characters that one step of the second pass writes. */
  ghost function Step(s: string): string
    requires s != ""
  {
    if s[0] != '\\' then [s[0]] else G.Unescape(s).0
  }

  method PutOne(out: array<char>, at: nat, c: char, ghost p: string) returns (ok: bool, at': nat)
    requires Written(out, at, p)
    modifies out
    ensures ok == (at + 1 <= out.Length)
    ensures ok ==> at' == at + 1 && Written(out, at', p + [c])
  {
    if at == out.Length { return false, at; }
    at' := PutChar(out, at, c, p);
    ok := true;
  }

  /** One step of the second pass; not ok if it writes beyond the buffer or goes beyond the text. */
  method PutNext(s: string, pos: nat, out: array<char>, at: nat, ghost p: string) returns (ok: bool, pos': nat, at': nat)
    requires pos < |s| && s[pos] != '\"' && Written(out, at, p)
    modifies out
    ensures ok == (pos + G.Width(s[pos..]) <= |s| && at + |Step(s[pos..])| <= out.Length)
    ensures ok ==> pos' == pos + G.Width(s[pos..]) && at' == at + |Step(s[pos..])| && Written(out, at', p + Step(s[pos..]))
  {
    at' := at;
    if s[pos] != '\\' {
      ok, at' := PutOne(out, at, s[pos], p);
      return ok, pos + 1, at';
    }
    AtRest(s, pos, 1);
    var c := Read(s, pos + 1);
    if c == 'u' && pos + 1 < |s| {
      CodeRest(s, pos);
      var code, width := ReadCode(s, pos);
      pos' := pos + width;
      ok := true;
      assert p + "" == p;
      if code != 0 { ok, at' := PutUtf8(out, at, code, p); }
    } else {
      pos' := pos + 2;
      if pos' > |s| { return false, pos', at'; }
      var plain := match c case 'b' => '\U{08}' case 'f' => '\U{0C}' case 'n' => '\n' case 'r' => '\r' case 't' => '\t' case _ => c;
      ok, at' := PutOne(out, at, plain, p);
    }
    ok := ok && pos' <= |s|;
  }

  /** With p written and s to come: what is written in the end, what is left, and whether the text is kept to. */
  ghost function Outcome(p: string, s: string): (string, string, bool) {
    (p + G.ParseChars(s).0, G.ParseChars(s).1, G.Keeps(s, 0))
  }

  lemma OutcomeStep(p: string, s: string)
    requires s != "" && s[0] != '\"'
    ensures G.Width(s) <= |s| ==> Outcome(p, s) == Outcome(p + Step(s), s[G.Width(s)..])
    ensures G.Width(s) > |s| ==> !G.Keeps(s, 0)
    ensures |Outcome(p, s).0| >= |p| + |Step(s)|
  {
    var w := G.Width(s);
    if w <= |s| {
      assert G.Drop(s, w) == s[w..];
      RT.Cat(p, Step(s), G.ParseChars(s[w..]).0);
    }
  }

  /** The second pass. */
  method FillChars(s: string, out: array<char>) returns (ok: bool, pos: nat, at: nat)
    requires out.Length > 0
    modifies out
    ensures ok == (G.Keeps(s, 0) && |G.ParseChars(s).0| < out.Length)
    ensures ok ==> pos <= |s| && s[pos..] == G.ParseChars(s).1
    ensures ok ==> at < out.Length && out[..at] == G.ParseChars(s).0 && out[at] == '\0'
  {
    pos, at := 0, 0;
    ghost var p := "";
    assert s[0..] == s && "" + G.ParseChars(s).0 == G.ParseChars(s).0;
    while pos < |s| && s[pos] != '\"'
      invariant pos <= |s| && Written(out, at, p) && Outcome(p, s[pos..]) == Outcome("", s)
    {
      ghost var rest := s[pos..];
      OutcomeStep(p, rest);
      ok, pos, at := PutNext(s, pos, out, at, p);
      if !ok { return; }
      assert s[pos..] == rest[G.Width(rest)..];
      p := p + Step(rest);
    }
    assert p + "" == p;
    if at == out.Length { return false, pos, at; }
    out[at] := '\0';
    ok := true;
  }

  method ParseString(text: string, memory: bool) returns (r: Result<string>)
    ensures r == G.ParseString(text) || (r.Failed? && !memory)
  {
    if G.Head(text) != '\"' { return G.Failed; }
    var s := text[1..];
    var ok, len := CountChars(s);
    if !ok { return G.Overrun; }
    var fails: bool := *;
    if fails && !memory { return G.Failed; }
    var out := new char[len + 1];
    var pos, at;
    ok, pos, at := FillChars(s, out);
    if !ok { return G.Overrun; }
    if pos < |s| && s[pos] == '\"' { pos := pos + 1; }
    return G.Parsed(out[..at], s[pos..]);
  }

  // ---------------------------------------------------------------------------------------
  // Arrays

  function ItemsOf(vs: seq<Json>, more: Items): Items {
    if vs == [] then more else ItemsOf(vs[..|vs| - 1], Item(vs[|vs| - 1], more))
  }

  /** What becomes of an array when the items so far are vs and s is next. */
  ghost function MoreItems(vs: seq<Json>, s: string): Result<Json> {
    if G.Head(s) == ',' then
      var more := G.ParseItems(s[1..]);
      if !more.Parsed? then G.Fault(more) else G.Parsed(Array(ItemsOf(vs, more.value)), more.rest)
    else if G.Head(s) == ']' then G.Parsed(Array(ItemsOf(vs, NoItems)), s[1..])
    else G.Failed
  }

  lemma MoreItemsStep(vs: seq<Json>, s: string, v: Result<Json>)
    requires G.Head(s) == ',' && v == G.ParseValue(G.Skip(s[1..]))
    ensures MoreItems(vs, s) == if !v.Parsed? then v else MoreItems(vs + [v.value], G.Skip(v.rest))
  {
    if v.Parsed? { assert (vs + [v.value])[..|vs|] == vs; }
  }

  lemma OneItem(v: Json)
    ensures forall more :: ItemsOf([v], more) == Item(v, more)
  {
    forall more ensures ItemsOf([v], more) == Item(v, more) {
      assert [v][..0] == [];
    }
  }

  lemma FirstItem(s: string, v: Result<Json>)
    requires G.Head(G.Skip(s)) != ']' && v == G.ParseValue(G.Skip(G.Skip(s)))
    ensures G.ParseArray(s) == if !v.Parsed? then v else MoreItems([v.value], G.Skip(v.rest))
  {
    if v.Parsed? { OneItem(v.value); }
  }

  method ParseArray(text: string, memory: bool) returns (r: Result<Json>)
    ensures r == G.ParseArray(text) || (r.Failed? && !memory)
    decreases |text|, 2
  {
    var s := SkipBlanks(text);
    if G.Head(s) == ']' { return G.Parsed(Array(NoItems), s[1..]); }
    var fails: bool := *;
    if fails && !memory { return G.Failed; }
    var t := SkipBlanks(s);
    FirstItem(text, G.ParseValue(t));
    var v := ParseValue(t, memory);
    if !v.Parsed? { return v; }
    var vs := [v.value];
    s := SkipBlanks(v.rest);
    while G.Head(s) == ','
      invariant |s| < |text| && MoreItems(vs, s) == G.ParseArray(text)
      decreases |s|
    {
      fails := *;
      if fails && !memory { return G.Failed; }
      t := SkipBlanks(s[1..]);
      v := ParseValue(t, memory);
      MoreItemsStep(vs, s, G.ParseValue(t));
      if !v.Parsed? { return v; }
      vs := vs + [v.value];
      s := SkipBlanks(v.rest);
    }
    if G.Head(s) == ']' { return G.Parsed(Array(ItemsOf(vs, NoItems)), s[1..]); }
    return G.Failed;
  }

  method ParseValue(s: string, memory: bool) returns (r: Result<Json>)
    ensures r == G.ParseValue(s) || (r.Failed? && !memory)
    decreases |s|, 1
  {
    if "null" <= s { return G.Parsed(Null, s[4..]); }
    if "false" <= s { return G.Parsed(False, s[5..]); }
    if "true" <= s { return G.Parsed(True, s[4..]); }
    var c := G.Head(s);
    if c == '\"' {
      var t := ParseString(s, memory);
      return if t.Parsed? then G.Parsed(String(t.value), t.rest) else G.Fault(t);
    }
    if c == '-' || G.IsDigit(c) { r := ParseNumber(s); return; }
    if c == '[' { r := ParseArray(s[1..], memory); return; }
    if c == '{' { r := ParseObject(s[1..], memory); return; }
    return G.Failed;
  }

  // ---------------------------------------------------------------------------------------
  // Objects

  datatype Pair = Pair(name: string, value: Json)

  function MembersOf(ps: seq<Pair>, more: Members): Members {
    if ps == [] then more else MembersOf(ps[..|ps| - 1], Member(ps[|ps| - 1].name, ps[|ps| - 1].value, more))
  }

  /** One member: a name, a colon and a value. */
  ghost function MemberAt(s: string): Result<Pair> {
    var name := G.ParseString(G.Skip(s));
    if !name.Parsed? then G.Fault(name)
    else if G.Head(G.Skip(name.rest)) != ':' then G.Failed
    else
      var v := G.ParseValue(G.Skip(G.Skip(name.rest)[1..]));
      if !v.Parsed? then G.Fault(v) else G.Parsed(Pair(name.value, v.value), v.rest)
  }

  /** What becomes of an object when the members so far are ps and s is next. */
  ghost function MoreMembers(ps: seq<Pair>, s: string): Result<Json> {
    if G.Head(s) == ',' then
      var more := G.ParseMembers(s[1..]);
      if !more.Parsed? then G.Fault(more) else G.Parsed(Object(MembersOf(ps, more.value)), more.rest)
    else if G.Head(s) == '}' then G.Parsed(Object(MembersOf(ps, NoMembers)), s[1..])
    else G.Failed
  }

  lemma MoreMembersStep(ps: seq<Pair>, s: string)
    requires G.Head(s) == ','
    ensures var m := MemberAt(s[1..]);
            MoreMembers(ps, s) == if !m.Parsed? then G.Fault(m) else MoreMembers(ps + [m.value], G.Skip(m.rest))
  {
    var m := MemberAt(s[1..]);
    if m.Parsed? { assert (ps + [m.value])[..|ps|] == ps; }
  }

  lemma OneMember(p: Pair)
    ensures forall more :: MembersOf([p], more) == Member(p.name, p.value, more)
  {
    forall more ensures MembersOf([p], more) == Member(p.name, p.value, more) {
      assert [p][..0] == [];
    }
  }

  lemma FirstMember(s: string)
    requires G.Head(G.Skip(s)) != '}'
    ensures var m := MemberAt(G.Skip(s));
            G.ParseObject(s) == if !m.Parsed? then G.Fault(m) else MoreMembers([m.value], G.Skip(m.rest))
  {
    var m := MemberAt(G.Skip(s));
    if m.Parsed? { OneMember(m.value); }
  }

  method ParseMember(text: string, memory: bool) returns (r: Result<Pair>)
    ensures r == MemberAt(text) || (r.Failed? && !memory)
    ensures r.Parsed? ==> |r.rest| < |text|
    decreases |text|, 2
  {
    var fails: bool := *;
    if fails && !memory { return G.Failed; }
    var s := SkipBlanks(text);
    var name := ParseString(s, memory);
    if !name.Parsed? { return G.Fault(name); }
    s := SkipBlanks(name.rest);
    if G.Head(s) != ':' { return G.Failed; }
    s := SkipBlanks(s[1..]);
    var v := ParseValue(s, memory);
    return if !v.Parsed? then G.Fault(v) else G.Parsed(Pair(name.value, v.value), v.rest);
  }

  method ParseObject(text: string, memory: bool) returns (r: Result<Json>)
    ensures r == G.ParseObject(text) || (r.Failed? && !memory)
    decreases |text|, 3
  {
    var s := SkipBlanks(text);
    if G.Head(s) == '}' { return G.Parsed(Object(NoMembers), s[1..]); }
    FirstMember(text);
    var m := ParseMember(s, memory);
    if !m.Parsed? { return G.Fault(m); }
    var ps := [m.value];
    s := SkipBlanks(m.rest);
    while G.Head(s) == ','
      invariant |s| < |text| && MoreMembers(ps, s) == G.ParseObject(text)
      decreases |s|
    {
      MoreMembersStep(ps, s);
      m := ParseMember(s[1..], memory);
      if !m.Parsed? { return G.Fault(m); }
      ps := ps + [m.value];
      s := SkipBlanks(m.rest);
    }
    if G.Head(s) == '}' { return G.Parsed(Object(MembersOf(ps, NoMembers)), s[1..]); }
    return G.Failed;
  }

  // ---------------------------------------------------------------------------------------
  // The whole

  method ParseWithOpts(text: string, requireEnd: bool, memory: bool) returns (r: Result<Json>)
    ensures r == G.Parse(text, requireEnd) || (r.Failed? && !memory)
    ensures B.WellEscaped(text, false) ==> !r.Overrun?
  {
    if B.WellEscaped(text, false) { B.WellEscapedIsContained(text, requireEnd); }
    var fails: bool := *;
    if fails && !memory { return G.Failed; }
    var s := SkipBlanks(text);
    r := ParseValue(s, memory);
    if !r.Parsed? || !requireEnd { return; }
    var end := SkipBlanks(r.rest);
    return if end != "" then G.Failed else G.Parsed(r.value, end);
  }

  /** Printing a value in either format and parsing the text gives the value back. */
  method PrintAndParse(v: Json, fmt: bool, requireEnd: bool) returns (r: Result<Json>)
    requires Printable(v)
    ensures r == G.Parsed(v, "")
  {
    var text := PrintValue(v, 0, fmt, true);
    RT.ParsePrint(v, fmt, requireEnd);
    r := ParseWithOpts(text.value, requireEnd, true);
  }
}
