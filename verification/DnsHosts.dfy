/**
  Names by their labels: what the texts of libowfat/dns/dns_dfd.c and libowfat/dns/dns_dtda.c
  stand for, byte by byte, and where names end in packets (libowfat/dns/dns_packet.c).
 */
module DnsHosts {
  import opened DnsNames
  import opened DnsPacket
  import opened DnsText

  type Labels = seq<seq<byte>>

  /** The labels in wire form, each after its length, with a zero at the end. */
  function Wire(labels: Labels): seq<byte>
    requires forall i :: 0 <= i < |labels| ==> |labels[i]| < 256
  {
    if labels == [] then [0] else [|labels[0]|] + labels[0] + Wire(labels[1..])
  }

  /** The labels with dots between them. */
  function Dotted(labels: Labels): seq<byte> {
    if labels == [] then []
    else if |labels| == 1 then labels[0]
    else labels[0] + ([46] + Dotted(labels[1..]))
  }

  /** Not empty, and without dots and backslashes. */
  predicate Unquoted(l: seq<byte>) {
    l != [] && forall i :: 0 <= i < |l| ==> l[i] != 46 && l[i] != 92
  }

  ghost predicate Short(labels: Labels) {
    forall i :: 0 <= i < |labels| ==> |labels[i]| <= 63
  }

  // ---------------------------------------------------------------------------------------
  // Reading one byte

  /** A byte that is neither a dot nor a backslash stands for itself. */
  lemma RawRead(c: byte, rest: seq<byte>, part: seq<byte>, name: seq<byte>)
    requires |part| <= 63 && c != 46 && c != 92
    ensures Read([c] + rest, part, name) == if |part| < 63 then Read(rest, part + [c], name) else None
  {
    var b := [c] + rest;
    assert b[0] == c && b[1..] == rest;
    assert NextByte(b) == (c, 1);
  }

  /** Behind a backslash every byte that is no octal digit stands for itself. */
  lemma QuotedRead(c: byte, rest: seq<byte>, part: seq<byte>, name: seq<byte>)
    requires |part| <= 63 && !(48 <= c <= 55)
    ensures Read([92, c] + rest, part, name) == if |part| < 63 then Read(rest, part + [c], name) else None
  {
    var b := [92, c] + rest;
    assert b[1..][0] == c && b[2..] == rest;
  }

  /** The value of one to three octal digits. */
  function OctalNumber(digits: seq<byte>): nat
    requires 1 <= |digits| <= 3 && forall i :: 0 <= i < |digits| ==> 48 <= digits[i] <= 55
  {
    var x: int := digits[0] - 48;
    if |digits| == 1 then x
    else
      var y: int := digits[1] - 48;
      if |digits| == 2 then 8 * x + y else 64 * x + 8 * y + (digits[2] - 48)
  }

  /** Up to three octal digits behind a backslash stand for their value in eight bits. */
  lemma OctalRead(digits: seq<byte>, rest: seq<byte>, part: seq<byte>, name: seq<byte>)
    requires |part| <= 63 && 1 <= |digits| <= 3 && forall i :: 0 <= i < |digits| ==> 48 <= digits[i] <= 55
    requires |digits| == 3 || rest == [] || !(48 <= rest[0] <= 55)
    ensures Read([92] + digits + rest, part, name) ==
            if |part| < 63 then Read(rest, part + [OctalNumber(digits) % 256], name) else None
  {
    var b, n := [92] + digits + rest, |digits|;
    assert b[1..] == digits + rest && b[1 + n..] == rest;
    OctalMeans(digits, rest);
    assert NextByte(b) == (OctalNumber(digits) % 256, 1 + n);
  }

  lemma OctalMeans(digits: seq<byte>, rest: seq<byte>)
    requires 1 <= |digits| <= 3 && forall i :: 0 <= i < |digits| ==> 48 <= digits[i] <= 55
    requires |digits| == 3 || rest == [] || !(48 <= rest[0] <= 55)
    ensures Unquote(digits + rest) == (OctalNumber(digits) % 256, |digits|)
  {
    var q, n := digits + rest, |digits|;
    assert q[0] == digits[0] && (n > 1 ==> q[1] == digits[1]) && (n > 2 ==> q[2] == digits[2]);
    assert n < |q| ==> q[n] == rest[0];
  }

  // ---------------------------------------------------------------------------------------
  // Reading labels

  lemma {:induction false} LabelReads(l: seq<byte>, rest: seq<byte>, part: seq<byte>, name: seq<byte>)
    requires |part| <= 63 && forall i :: 0 <= i < |l| ==> l[i] != 46 && l[i] != 92
    ensures Read(l + rest, part, name) == if |part| + |l| <= 63 then Read(rest, part + l, name) else None
  {
    if l == [] {
      assert l + rest == rest && part + l == part;
    } else {
      Cat([l[0]], l[1..], rest);
      assert l == [l[0]] + l[1..];
      RawRead(l[0], l[1..] + rest, part, name);
      if |part| < 63 {
        LabelReads(l[1..], rest, part + [l[0]], name);
        Cat(part, [l[0]], l[1..]);
      }
    }
  }

  lemma FlushIs(l: seq<byte>, name: seq<byte>)
    requires 0 < |l| <= 63
    ensures Flush(l, name) == if |name| + 1 + |l| <= 255 then Some(name + ([|l|] + l)) else None
  {
  }

  /** The last thing in a text: nothing, or a dot. */
  lemma EndReads(l: seq<byte>, name: seq<byte>, dot: bool)
    requires |l| <= 63
    ensures Read(if dot then [46] else [], l, name) ==
            var full := if l == [] then name else name + ([|l|] + l); if |full| < 255 then Some(full + [0]) else None
  {
    var b: seq<byte> := if dot then [46] else [];
    if dot { assert b[1..] == []; }
  }

  lemma {:induction false} WireLength(labels: Labels)
    requires Short(labels)
    ensures |Wire(labels)| >= 1 + |labels|
  {
    if labels != [] { WireLength(labels[1..]); }
  }

  /**
    Labels joined by dots, with or without a dot at the end, are read as exactly those labels,
    case kept, if none is longer than 63 bytes and the wire form not longer than 255; else not at all.
   */
  lemma {:induction false} DottedReads(labels: Labels, dot: bool, name: seq<byte>)
    requires forall i :: 0 <= i < |labels| ==> Unquoted(labels[i])
    ensures Read(Dotted(labels) + (if dot then [46] else []), [], name) ==
            if Short(labels) && |name| + |Wire(labels)| <= 255 then Some(name + Wire(labels)) else None
  {
    var end: seq<byte> := if dot then [46] else [];
    if labels == [] {
      assert Dotted(labels) + end == end;
      EndReads([], name, dot);
    } else {
      var l, more := labels[0], labels[1..];
      assert [] + l == l;
      if |labels| == 1 {
        LabelReads(l, end, [], name);
        if |l| <= 63 { OneLabel(l, name, dot); }
      } else {
        var rest := [46] + (Dotted(more) + end);
        Cat(l, [46] + Dotted(more), end);
        Cat([46], Dotted(more), end);
        LabelReads(l, rest, [], name);
        assert rest[1..] == Dotted(more) + end;
        if |l| <= 63 {
          FlushIs(l, name);
          DottedReads(more, dot, name + ([|l|] + l));
          ShortStep(labels);
          if Short(more) {
            WireLength(more);
            Cat(name, [|l|] + l, Wire(more));
          }
        }
      }
    }
  }

  lemma ShortStep(labels: Labels)
    requires labels != []
    ensures Short(labels) <==> |labels[0]| <= 63 && Short(labels[1..])
  {
    assert labels == [labels[0]] + labels[1..];
  }

  lemma OneLabel(l: seq<byte>, name: seq<byte>, dot: bool)
    requires 0 < |l| <= 63
    ensures Wire([l]) == [|l|] + l + [0]
    ensures Read(if dot then [46] else [], l, name) ==
            if |name| + |Wire([l])| <= 255 then Some(name + Wire([l])) else None
  {
    assert [l][1..] == [];
    EndReads(l, name, dot);
    Cat(name, [|l|] + l, [0]);
  }

  /** The whole text of a host name. */
  lemma HostRead(labels: Labels, dot: bool)
    requires forall i :: 0 <= i < |labels| ==> Unquoted(labels[i])
    ensures FromDot(Dotted(labels) + (if dot then [46] else [])) ==
            if Short(labels) && |Wire(labels)| <= 255 then Some(Wire(labels)) else None
  {
    DottedReads(labels, dot, []);
    if Short(labels) { assert [] + Wire(labels) == Wire(labels); }
  }

  // ---------------------------------------------------------------------------------------
  // Writing

  /** Letters are written in lower case, digits, hyphens and underscores as they are, all else as three octal digits. */
  lemma ByteTextIs(b: byte)
    ensures 65 <= b <= 90 ==> ByteText(b) == [b + 32]
    ensures 97 <= b <= 122 || 48 <= b <= 57 || b == 45 || b == 95 ==> ByteText(b) == [b]
    ensures !(65 <= b <= 90 || 97 <= b <= 122 || 48 <= b <= 57 || b == 45 || b == 95) ==>
              var t := ByteText(b);
              && |t| == 4 && t[0] == 92 && 48 <= t[1] <= 51 && 48 <= t[2] <= 55 && 48 <= t[3] <= 55
              && 64 * (t[1] - 48) + 8 * (t[2] - 48) + (t[3] - 48) == b
  {
    OctalForm(b);
  }

  lemma OctalForm(b: byte)
    ensures b / 64 < 4 && 64 * (b / 64) + 8 * (b / 8 % 8) + b % 8 == b
  {
    var c: int := b;
    assert c / 64 == c / 8 / 8;
  }

  ghost function TextsOf(labels: Labels): Labels {
    seq(|labels|, i requires 0 <= i < |labels| => LabelText(labels[i]))
  }

  /** Letters, digits, hyphens and underscores. */
  predicate HostBytes(l: seq<byte>) {
    forall i :: 0 <= i < |l| ==> 65 <= l[i] <= 90 || 97 <= l[i] <= 122 || 48 <= l[i] <= 57 || l[i] == 45 || l[i] == 95
  }

  lemma {:induction false} HostLabelText(l: seq<byte>)
    requires HostBytes(l)
    ensures LabelText(l) == Lower(l)
  {
    if l != [] {
      var init, b := l[..|l| - 1], l[|l| - 1];
      HostLabelText(init);
      ByteTextIs(b);
      assert Lower(l) == Lower(init) + [LowerByte(b)];
    }
  }

  /** The labels of a name. */
  ghost function LabelsOf(d: Name): Labels
    decreases |d|
  {
    if d[0] == 0 then [] else [FirstLabel(d)] + LabelsOf(AfterLabel(d))
  }

  lemma {:induction false} WireOfLabels(d: Name)
    ensures Short(LabelsOf(d)) && Wire(LabelsOf(d)) == d
    decreases |d|
  {
    if d[0] == 0 {
      assert d == [0];
    } else {
      var l, more := FirstLabel(d), LabelsOf(AfterLabel(d));
      WireOfLabels(AfterLabel(d));
      ShortStep([l] + more);
      assert ([l] + more)[1..] == more;
      assert d == [d[0]] + l + AfterLabel(d);
    }
  }

  lemma {:induction false} LabelsDotted(d: Name)
    requires d[0] != 0
    ensures LabelsText(d) == Dotted(TextsOf(LabelsOf(d)))
    decreases |d|
  {
    var l, after := FirstLabel(d), AfterLabel(d);
    var texts := TextsOf(LabelsOf(d));
    assert texts[0] == LabelText(l) && texts[1..] == TextsOf(LabelsOf(after));
    if after[0] == 0 {
      assert LabelText(l) + [] == LabelText(l);
    } else {
      LabelsDotted(after);
    }
  }

  /** A name is written as the texts of its labels with dots between them; the root as a dot. */
  lemma NameText(d: Name)
    ensures ToDot(d) == if LabelsOf(d) == [] then [46] else Dotted(TextsOf(LabelsOf(d)))
  {
    if d[0] != 0 { LabelsDotted(d); }
  }

  ghost function Lowered(labels: Labels): Labels {
    seq(|labels|, i requires 0 <= i < |labels| => Lower(labels[i]))
  }

  /** A host name is written as its labels in lower case with dots between them. */
  lemma HostText(d: Name)
    requires d[0] != 0 && forall i :: 0 <= i < |LabelsOf(d)| ==> HostBytes(LabelsOf(d)[i])
    ensures ToDot(d) == Dotted(Lowered(LabelsOf(d)))
  {
    var labels := LabelsOf(d);
    NameText(d);
    forall i | 0 <= i < |labels| ensures TextsOf(labels)[i] == Lowered(labels)[i] {
      HostLabelText(labels[i]);
    }
    assert TextsOf(labels) == Lowered(labels);
  }

  // ---------------------------------------------------------------------------------------
  // Where a name ends in a packet

  /** Pointers hold fourteen bits. */
  lemma TargetIs(high: nat, low: byte)
    requires high < 64
    ensures Target(192 + high, low) == 256 * high + low
  {
  }

  /** A name with that many pointers is there up to m bytes; then it is over, or the first pointer comes. */
  ghost predicate EndsAt(buf: seq<byte>, pos: nat, name: seq<byte>, hops: nat, m: nat) {
    && m <= |name| && pos + m <= |buf| && buf[pos..pos + m] == name[..m]
    && if hops == 0 then m == |name| && Skip(buf, pos) == pos + m
       else pos + m + 1 < |buf| && buf[pos + m] >= 192 && Skip(buf, pos) == pos + m + 2
  }

  lemma EndsFurther(buf: seq<byte>, pos: nat, n: nat, name: seq<byte>, hops: nat, m: nat)
    requires pos + n <= |buf| && EndsAt(buf, pos + n, name, hops, m) && Skip(buf, pos) == Skip(buf, pos + n)
    ensures EndsAt(buf, pos, buf[pos..pos + n] + name, hops, n + m)
  {
    assert buf[pos..pos + (n + m)] == buf[pos..pos + n] + buf[pos + n..pos + n + m];
  }

  lemma PointerEnds(buf: seq<byte>, pos: nat, name: seq<byte>, hops: nat)
    requires pos + 1 < |buf| && buf[pos] >= 192 && hops > 0
    ensures EndsAt(buf, pos, name, hops, 0)
  {
    assert buf[pos..pos] == name[..0];
  }

  lemma ZeroEnds(buf: seq<byte>, pos: nat)
    requires pos < |buf| && buf[pos] == 0
    ensures EndsAt(buf, pos, [0], 0, 1)
  {
    assert buf[pos..pos + 1] == [0];
  }

  /**
    The place after a name is behind its last byte if it is there as a whole, and else behind the
    first pointer.
   */
  lemma {:induction false} SkipIs(buf: seq<byte>, pos: nat, fuel: nat, name: seq<byte>, hops: nat) returns (m: nat)
    requires Expand(buf, pos, fuel) == Some((name, hops))
    ensures EndsAt(buf, pos, name, hops, m)
    decreases fuel
  {
    if buf[pos] >= 192 {
      m := 0;
      PointerEnds(buf, pos, name, hops);
    } else if buf[pos] == 0 {
      m := 1;
      ZeroEnds(buf, pos);
    } else {
      var n := 1 + buf[pos];
      var rest := Expand(buf, pos + n, fuel - 1).value;
      var k := SkipIs(buf, pos + n, fuel - 1, rest.0, rest.1);
      EndsFurther(buf, pos, n, rest.0, rest.1, k);
      m := n + k;
    }
  }

  /** Places each of which has a label that ends at the next one. */
  predicate Chain(buf: seq<byte>, places: seq<nat>) {
    forall i :: 0 <= i < |places| - 1 ==>
      places[i] < |buf| && 1 <= buf[places[i]] <= 63 && places[i + 1] == places[i] + 1 + buf[places[i]]
  }

  /** Skipping goes from label to label as far as it can. There must be a zero or a pointer at the end. */
  lemma {:induction false} SkipFollows(buf: seq<byte>, pos: nat) returns (places: seq<nat>)
    ensures Chain(buf, places) && places != [] && places[0] == pos
    ensures var q := places[|places| - 1];
            && (q < |buf| ==> buf[q] == 0 || buf[q] > 63)
            && Skip(buf, pos) ==
               if q < |buf| && buf[q] == 0 then q + 1 else if q < |buf| && buf[q] >= 192 then q + 2 else 0
    decreases |buf| - pos
  {
    if pos < |buf| && 1 <= buf[pos] <= 63 {
      var rest := SkipFollows(buf, pos + 1 + buf[pos]);
      places := [pos] + rest;
      assert places[|places| - 1] == rest[|rest| - 1];
    } else {
      places := [pos];
    }
  }
}
