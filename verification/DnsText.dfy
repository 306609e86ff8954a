/** Domain names as text (libowfat/dns/dns_dtda.c, libowfat/dns/dns_dfd.c). */
module DnsText {
  import opened DnsNames
  import opened DnsPacket

  const DOT: byte := 46
  const BACKSLASH: byte := 92
  const LABEL_MAX := 63

  // ---------------------------------------------------------------------------------------
  // From a name to its text

  /** Bytes that stand for themselves: lower case letters, digits, hyphen and underscore. */
  predicate IsPlain(b: byte) {
    97 <= b <= 122 || 48 <= b <= 57 || b == 45 || b == 95
  }

  /** A digit of a byte's octal form. */
  function Octal(d: nat): byte
    requires d < 8
  {
    48 + d
  }

  /** How a byte of a label is written. */
  function ByteText(b: byte): seq<byte> {
    var c := LowerByte(b);
    if IsPlain(c) then [c] else [BACKSLASH, Octal(c / 64), Octal(c / 8 % 8), Octal(c % 8)]
  }

  function LabelText(s: seq<byte>): seq<byte> {
    if s == [] then [] else LabelText(s[..|s| - 1]) + ByteText(s[|s| - 1])
  }

  /** A name, not necessarily a short one. */
  type Name = d: seq<byte> | IsName(d) witness [0]

  /** The labels of a name that is not the root, with dots between them. */
  function LabelsText(d: Name): seq<byte>
    requires d[0] != 0
  {
    LabelText(FirstLabel(d)) + if AfterLabel(d)[0] == 0 then [] else [DOT] + LabelsText(AfterLabel(d))
  }

  function FirstLabel(d: Name): seq<byte>
    requires d[0] != 0
  {
    d[1..1 + d[0]]
  }

  function AfterLabel(d: Name): (r: Name)
    requires d[0] != 0
    ensures |r| < |d|
  {
    d[1 + d[0]..]
  }

  function ToDot(d: Name): seq<byte> {
    if d[0] == 0 then [DOT] else LabelsText(d)
  }

  /** Appends bytes to a text that grows; where memory is not assured, that may fail. */
  method Append(out0: seq<byte>, s: seq<byte>, memory: bool) returns (ok: bool, out: seq<byte>)
    ensures memory ==> ok
    ensures out == if ok then out0 + s else out0
  {
    ok := *;
    ok := ok || memory;
    out := if ok then out0 + s else out0;
  }

  lemma {:induction false} LabelTextPrefix(s: seq<byte>, i: nat)
    requires i <= |s|
    ensures LabelText(s[..i]) <= LabelText(s)
    decreases |s| - i
  {
    if i == |s| {
      assert s[..i] == s;
    } else {
      LabelTextPrefix(s, i + 1);
      assert s[..i + 1][..i] == s[..i];
    }
  }

  /** Appends the text of a label, as far as memory goes. */
  method AppendLabel(out0: seq<byte>, s: seq<byte>, memory: bool) returns (ok: bool, out: seq<byte>)
    ensures memory ==> ok
    ensures ok ==> out == out0 + LabelText(s)
    ensures out0 <= out <= out0 + LabelText(s)
  {
    ok, out := true, out0;
    var i := 0;
    while i < |s|
      invariant 0 <= i <= |s| && ok && out == out0 + LabelText(s[..i])
    {
      LabelTextPrefix(s, i);
      var c := LowerByte(s[i]);
      ghost var before := LabelText(s[..i]);
      if IsPlain(c) {
        ok, out := Append(out, [c], memory);
      } else {
        ok, out := Append(out, [BACKSLASH, Octal(c / 64), Octal(c / 8 % 8), Octal(c % 8)], memory);
      }
      if !ok { return; }
      Cat(out0, before, ByteText(s[i]));
      assert s[..i + 1][..i] == s[..i];
      i := i + 1;
    }
    assert s[..i] == s;
  }

  /** What one turn appends. */
  lemma LabelStep(out: seq<byte>, d: Name)
    requires d[0] != 0 && AfterLabel(d)[0] != 0
    ensures out + LabelsText(d) == ((out + LabelText(FirstLabel(d))) + [DOT]) + LabelsText(AfterLabel(d))
  {
    Cat(out, LabelText(FirstLabel(d)), [DOT] + LabelsText(AfterLabel(d)));
    Cat(out + LabelText(FirstLabel(d)), [DOT], LabelsText(AfterLabel(d)));
  }

  /** Appends the text of a name; if memory runs out, a part of it. */
  method ToDotCat(out0: seq<byte>, name: Name, memory: bool) returns (ok: bool, out: seq<byte>)
    ensures memory ==> ok
    ensures ok ==> out == out0 + ToDot(name)
    ensures out <= out0 + ToDot(name)
  {
    if name[0] == 0 {
      ok, out := Append(out0, [DOT], memory);
      return;
    }
    ok, out := true, out0;
    var d := name;
    while AfterLabel(d)[0] != 0
      invariant d[0] != 0 && out + LabelsText(d) == out0 + LabelsText(name)
      decreases |d|
    {
      LabelStep(out, d);
      ok, out := AppendLabel(out, FirstLabel(d), memory);
      if !ok { return; }
      ok, out := Append(out, [DOT], memory);
      if !ok { return; }
      d := AfterLabel(d);
    }
    ok, out := AppendLabel(out, FirstLabel(d), memory);
  }

  // ---------------------------------------------------------------------------------------
  // From a text to a name

  predicate IsOctal(b: byte) {
    48 <= b <= 55
  }

  function OctalValue(b: byte): nat
    requires IsOctal(b)
  {
    var c: int := b;
    c - 48
  }

  function Wrap(x: nat): byte {
    x % 256
  }

  /** What follows a backslash: up to three octal digits or one other byte, and how many bytes that takes. */
  function Unquote(b: seq<byte>): (r: (byte, nat))
    requires b != []
    ensures 1 <= r.1 <= |b|
  {
    if !IsOctal(b[0]) then (b[0], 1)
    else if |b| < 2 || !IsOctal(b[1]) then (OctalValue(b[0]), 1)
    else if |b| < 3 || !IsOctal(b[2]) then (Wrap(8 * OctalValue(b[0]) + OctalValue(b[1])), 2)
    else (Wrap(64 * OctalValue(b[0]) + 8 * OctalValue(b[1]) + OctalValue(b[2])), 3)
  }

  /** The byte of a label that a text starts with, and how many bytes it takes there. */
  function NextByte(b: seq<byte>): (r: (byte, nat))
    requires b != [] && b != [BACKSLASH]
    ensures 1 <= r.1 <= |b|
  {
    if b[0] != BACKSLASH then (b[0], 1)
    else
      var (c, n) := Unquote(b[1..]);
      (c, 1 + n)
  }

  /** The name with a label added, if there is one and it fits. */
  function Flush(part: seq<byte>, name: seq<byte>): Option<seq<byte>>
    requires |part| <= LABEL_MAX
  {
    if part == [] then Some(name)
    else if |name| + |part| + 1 > NAME_MAX then None
    else Some(name + ([|part|] + part))
  }

  /** What becomes of a text b when the label so far is part and the name before it is name. */
  function Read(b: seq<byte>, part: seq<byte>, name: seq<byte>): Option<seq<byte>>
    requires |part| <= LABEL_MAX
    decreases |b|
  {
    if b == [] || b == [BACKSLASH] then
      var flushed := Flush(part, name);
      if flushed.None? || |flushed.value| + 1 > NAME_MAX then None else Some(flushed.value + [0])
    else if b[0] == DOT then
      var flushed := Flush(part, name);
      if flushed.None? then None else Read(b[1..], [], flushed.value)
    else
      var (c, n) := NextByte(b);
      if |part| >= LABEL_MAX then None else Read(b[n..], part + [c], name)
  }

  function FromDot(b: seq<byte>): Option<seq<byte>> {
    Read(b, [], [])
  }

  /** One byte, read back. */
  lemma ByteRead(b: byte, rest: seq<byte>, part: seq<byte>, name: seq<byte>)
    requires |part| < LABEL_MAX
    ensures Read(ByteText(b) + rest, part, name) == Read(rest, part + [LowerByte(b)], name)
  {
    var c, t := LowerByte(b), ByteText(b) + rest;
    if IsPlain(c) {
      assert ByteText(b) == [c];
      assert t[0] == c && t[1..] == rest;
      assert NextByte(t) == (c, 1);
    } else {
      QuotedNext(c, rest);
      var q := [BACKSLASH, Octal(c / 64), Octal(c / 8 % 8), Octal(c % 8)];
      assert t == q + rest && t[4..] == rest && t[0] == BACKSLASH;
    }
  }

  lemma QuotedNext(c: byte, rest: seq<byte>)
    ensures NextByte([BACKSLASH, Octal(c / 64), Octal(c / 8 % 8), Octal(c % 8)] + rest) == (c, 4)
  {
    var t := [BACKSLASH, Octal(c / 64), Octal(c / 8 % 8), Octal(c % 8)] + rest;
    QuoteRead(c, rest);
    assert t[1..] == [Octal(c / 64), Octal(c / 8 % 8), Octal(c % 8)] + rest;
  }

  lemma QuoteRead(c: byte, rest: seq<byte>)
    ensures Unquote([Octal(c / 64), Octal(c / 8 % 8), Octal(c % 8)] + rest) == (c, 3)
  {
    var q := [Octal(c / 64), Octal(c / 8 % 8), Octal(c % 8)] + rest;
    assert q[0] == Octal(c / 64) && q[1] == Octal(c / 8 % 8) && q[2] == Octal(c % 8);
    assert 64 * (c / 64) + 8 * (c / 8 % 8) + c % 8 == c;
  }

  lemma LowerLast(part: seq<byte>, s: seq<byte>)
    requires s != []
    ensures (part + Lower(s[..|s| - 1])) + [LowerByte(s[|s| - 1])] == part + Lower(s)
  {
  }

  lemma {:induction false} LabelRead(s: seq<byte>, rest: seq<byte>, part: seq<byte>, name: seq<byte>)
    requires |part| + |s| <= LABEL_MAX
    ensures Read(LabelText(s) + rest, part, name) == Read(rest, part + Lower(s), name)
  {
    if s == [] {
      assert LabelText(s) + rest == rest && part + Lower(s) == part;
    } else {
      var init, last := s[..|s| - 1], s[|s| - 1];
      LabelRead(init, ByteText(last) + rest, part, name);
      Cat(LabelText(init), ByteText(last), rest);
      ByteRead(last, rest, part + Lower(init), name);
      LowerLast(part, s);
    }
  }

  lemma LowerSplit(name: seq<byte>, d: Name)
    requires d[0] != 0
    ensures (name + ([d[0]] + Lower(FirstLabel(d)))) + Lower(AfterLabel(d)) == name + Lower(d)
  {
  }

  lemma {:induction false} LabelsRead(d: Name, name: seq<byte>)
    requires d[0] != 0 && |name| + |d| <= NAME_MAX
    ensures Read(LabelsText(d), [], name) == Some(name + Lower(d))
    decreases |d|
  {
    var s, after := FirstLabel(d), AfterLabel(d);
    var more := if after[0] == 0 then [] else [DOT] + LabelsText(after);
    LabelRead(s, more, [], name);
    assert [] + Lower(s) == Lower(s);
    var longer := name + ([d[0]] + Lower(s));
    assert Flush(Lower(s), name) == Some(longer);
    LowerSplit(name, d);
    if after[0] == 0 {
      assert Lower(after) == [0];
    } else {
      assert more[1..] == LabelsText(after);
      LabelsRead(after, longer);
    }
  }

  /** Reading the text of a name gives the name in lower case, so an equal one. */
  lemma DotRoundTrip(d: seq<byte>)
    requires WellFormed(d)
    ensures FromDot(ToDot(d)) == Some(Lower(d)) && Lower(Lower(d)) == Lower(d)
  {
    if d[0] == 0 {
      var dot: seq<byte> := [DOT];
      assert dot[0] != BACKSLASH && dot[1..] == [];
      assert FromDot(dot) == Read(dot[1..], [], []);
      var end: seq<byte> := [] + [0];
      assert Read([], [], []) == Some(end);
      assert Lower(d) == end;
    } else {
      LabelsRead(d, []);
      assert [] + Lower(d) == Lower(d);
    }
  }

  /** Lower case does not disturb the lengths of labels. */
  lemma {:induction false} LowerIsName(d: seq<byte>)
    requires IsName(d)
    ensures IsName(Lower(d))
    decreases |d|
  {
    if d[0] != 0 {
      LowerIsName(d[1 + d[0]..]);
      assert Lower(d)[1 + d[0]..] == Lower(d[1 + d[0]..]);
    }
  }

  // ---------------------------------------------------------------------------------------
  // The reader with its two buffers

  /** Adds the label in the one buffer to the name in the other. */
  method FlushLabel(part: array<byte>, partlen: nat, name: array<byte>, namelen: nat) returns (ok: bool, len: nat)
    requires part != name && part.Length == LABEL_MAX && name.Length == NAME_MAX && partlen <= LABEL_MAX && namelen <= NAME_MAX
    modifies name
    ensures if ok then len <= NAME_MAX && Flush(part[..partlen], old(name[..namelen])) == Some(name[..len])
            else Flush(part[..partlen], old(name[..namelen])) == None
  {
    if partlen == 0 { return true, namelen; }
    if namelen + partlen + 1 > NAME_MAX { return false, namelen; }
    ghost var before := name[..namelen];
    name[namelen] := partlen;
    forall i | 0 <= i < partlen { name[namelen + 1 + i] := part[i]; }
    ok, len := true, namelen + 1 + partlen;
    assert name[..len] == before + ([partlen] + part[..partlen]);
  }

  method TakeByte(part: array<byte>, partlen: nat, c: byte)
    requires part.Length == LABEL_MAX && partlen < LABEL_MAX
    modifies part
    ensures part[..partlen + 1] == old(part[..partlen]) + [c]
  {
    part[partlen] := c;
  }

  /** The name a text stands for; nothing if a label or the name gets too long, or without memory for it. */
  method ReadDot(b: seq<byte>, mallocOk: bool) returns (r: Option<seq<byte>>)
    ensures r == if mallocOk then FromDot(b) else None
  {
    var part, name := new byte[LABEL_MAX], new byte[NAME_MAX];
    var partlen: nat, namelen: nat, rest := 0, 0, b;
    assert part[..0] == [] && name[..0] == [];
    while rest != [] && rest != [BACKSLASH]
      invariant partlen <= LABEL_MAX && namelen <= NAME_MAX
      invariant Read(rest, part[..partlen], name[..namelen]) == FromDot(b)
      decreases |rest|
    {
      if rest[0] == DOT {
        var ok;
        ok, namelen := FlushLabel(part, partlen, name, namelen);
        if !ok { return None; }
        partlen, rest := 0, rest[1..];
        assert part[..0] == [];
      } else {
        var step := NextByte(rest);
        if partlen >= LABEL_MAX { return None; }
        TakeByte(part, partlen, step.0);
        partlen, rest := partlen + 1, rest[step.1..];
      }
    }
    r := Finish(part, partlen, name, namelen);
    if !mallocOk { r := None; }
  }

  /** Adds the last label and the terminator. */
  method Finish(part: array<byte>, partlen: nat, name: array<byte>, namelen: nat) returns (r: Option<seq<byte>>)
    requires part != name && part.Length == LABEL_MAX && name.Length == NAME_MAX && partlen <= LABEL_MAX && namelen <= NAME_MAX
    modifies name
    ensures r == old(Read([], part[..partlen], name[..namelen])) == old(Read([BACKSLASH], part[..partlen], name[..namelen]))
  {
    var ok, len := FlushLabel(part, partlen, name, namelen);
    if !ok || len + 1 > NAME_MAX { return None; }
    ghost var flushed := name[..len];
    name[len] := 0;
    assert name[..len + 1] == flushed + [0];
    return Some(name[..len + 1]);
  }

  /** A name, written as text and read back, is equal to itself. */
  method WriteAndRead(d: seq<byte>) returns (back: Option<seq<byte>>, equal: bool)
    requires WellFormed(d)
    ensures back == Some(Lower(d)) && equal
  {
    var ok, text := ToDotCat([], d, true);
    assert [] + ToDot(d) == ToDot(d);
    DotRoundTrip(d);
    LowerIsName(d);
    back := ReadDot(text, true);
    equal := DomainEqual(d, back.value);
  }
}
