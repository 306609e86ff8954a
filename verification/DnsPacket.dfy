/** Names in packets and names by themselves (libowfat/dns/dns_packet.c, libowfat/dns/dns_domain.c). */
module DnsPacket {
  import opened DnsNames

  // ---------------------------------------------------------------------------------------
  // Packets

  /** Copies n bytes out; 0 if the packet is too short. */
  method PacketCopy(buf: seq<byte>, pos: nat, out: array<byte>) returns (end: nat)
    modifies out
    ensures if pos + out.Length <= |buf| then end == pos + out.Length && out[..] == buf[pos..end]
            else end == if out.Length == 0 then pos else 0
  {
    end := pos;
    var i := 0;
    while i < out.Length
      invariant 0 <= i <= out.Length && end == pos + i && (i > 0 ==> end <= |buf|)
      invariant forall k :: 0 <= k < i ==> out[k] == buf[pos + k]
    {
      if end >= |buf| { return 0; }
      out[i] := buf[end];
      end, i := end + 1, i + 1;
    }
  }

  method SkipName(buf: seq<byte>, start: nat) returns (end: nat)
    ensures end == Skip(buf, start)
  {
    var pos := start;
    while true
      invariant Skip(buf, pos) == Skip(buf, start)
      decreases |buf| - pos
    {
      if pos >= |buf| { return 0; }
      var ch := buf[pos];
      pos := pos + 1;
      if ch >= 192 { return pos + 1; }
      if ch >= 64 { return 0; }
      if ch == 0 { return pos; }
      pos := pos + ch;
    }
    assert false;
  }

  /** What a scan with p written comes to. */
  ghost function Joined(p: seq<byte>, s: Option<seq<byte>>): Option<seq<byte>> {
    if s.None? then None else Some(p + s.value)
  }

  /** Follows pointers from a byte that has been read and counted. */
  method FollowPointers(buf: seq<byte>, at: nat, counted: nat, compress: nat, ghost written: nat)
    returns (ok: bool, pos: nat, loop: nat, firstcompress: nat)
    requires at < |buf| && 0 < counted < LOOP_MAX
    ensures if ok then pos < |buf| && buf[pos] < 192 && 0 < loop < LOOP_MAX &&
                       Scan(buf, pos, 0, written, loop - 1) == Scan(buf, at, 0, written, counted - 1)
            else Scan(buf, at, 0, written, counted - 1) == None
    ensures ok ==> firstcompress == if compress != 0 then compress else if buf[at] >= 192 then at + 2 else 0
    ensures ok ==> counted <= loop && (buf[at] < 192 ==> pos == at)
  {
    pos, loop, firstcompress := at, counted, compress;
    while buf[pos] >= 192
      invariant pos < |buf| && counted <= loop < LOOP_MAX
      invariant Scan(buf, pos, 0, written, loop - 1) == Scan(buf, at, 0, written, counted - 1)
      invariant (pos == at && loop == counted && firstcompress == compress) ||
                (buf[at] >= 192 && firstcompress == if compress != 0 then compress else at + 2)
      decreases LOOP_MAX - loop
    {
      if pos + 1 >= |buf| { return false, pos, loop, firstcompress; }
      if firstcompress == 0 { firstcompress := pos + 2; }
      pos := Target(buf[pos], buf[pos + 1]);
      if pos >= |buf| { return false, pos, loop, firstcompress; }
      loop := loop + 1;
      if loop >= LOOP_MAX { return false, pos, loop, firstcompress; }
    }
    ok := true;
  }

  /** Where a name that goes on at pos, after `state` more bytes, ends in the packet. */
  ghost predicate EndsLike(buf: seq<byte>, start: nat, pos: nat, firstcompress: nat) {
    Skip(buf, start) == if firstcompress != 0 then firstcompress else Skip(buf, pos)
  }

  /** How far the reading of a name has come. */
  datatype Cursor = Cursor(pos: nat, loop: nat, state: nat, firstcompress: nat, namelen: nat)

  /** With the name so far, what is still to come completes what there was to be read from start. */
  ghost predicate OnTrack(buf: seq<byte>, start: nat, name: seq<byte>, c: Cursor) {
    && c.namelen == |name| <= NAME_MAX && c.loop < LOOP_MAX
    && Joined(name, Scan(buf, c.pos, c.state, c.namelen, c.loop)) == Scan(buf, start, 0, 0, 0)
    && EndsLike(buf, start, c.pos + c.state, c.firstcompress)
  }

  /** The next byte of a label. */
  method LabelByte(buf: seq<byte>, start: nat, name: array<byte>, c: Cursor) returns (ok: bool, c': Cursor)
    requires name.Length == NAME_MAX && c.namelen <= NAME_MAX && OnTrack(buf, start, name[..c.namelen], c) && c.state > 0
    modifies name
    ensures if ok then c'.namelen <= NAME_MAX && c'.loop > c.loop && OnTrack(buf, start, name[..c'.namelen], c')
            else Scan(buf, start, 0, 0, 0) == None
  {
    if c.pos >= |buf| || c.loop + 1 >= LOOP_MAX || c.namelen + 1 > NAME_MAX { return false, c; }
    Put(name, c.namelen, buf[c.pos], Scan(buf, c.pos + 1, c.state - 1, c.namelen + 1, c.loop + 1));
    return true, Cursor(c.pos + 1, c.loop + 1, c.state - 1, c.firstcompress, c.namelen + 1);
  }

  /** The next length, or the end of the name. */
  method LengthByte(buf: seq<byte>, start: nat, name: array<byte>, c: Cursor) returns (ok: bool, last: bool, c': Cursor)
    requires name.Length == NAME_MAX && c.namelen <= NAME_MAX && OnTrack(buf, start, name[..c.namelen], c) && c.state == 0
    modifies name
    ensures !ok ==> Scan(buf, start, 0, 0, 0) == None
    ensures ok ==> c'.namelen <= NAME_MAX && c'.loop > c.loop && c'.pos > 0
    ensures ok && !last ==> OnTrack(buf, start, name[..c'.namelen], c')
    ensures ok && last ==> Scan(buf, start, 0, 0, 0) == Some(name[..c'.namelen])
    ensures ok && last ==> Skip(buf, start) == if c'.firstcompress != 0 then c'.firstcompress else c'.pos
  {
    if c.pos >= |buf| || c.loop + 1 >= LOOP_MAX { return false, false, c; }
    var pos, loop, firstcompress;
    ok, pos, loop, firstcompress := FollowPointers(buf, c.pos, c.loop + 1, c.firstcompress, c.namelen);
    if !ok || buf[pos] >= 64 || c.namelen + 1 > NAME_MAX { return false, false, c; }
    var ch := buf[pos];
    Put(name, c.namelen, ch, if ch == 0 then Some([]) else Scan(buf, pos + 1, ch, c.namelen + 1, loop));
    return true, ch == 0, Cursor(pos + 1, loop, ch, firstcompress, c.namelen + 1);
  }

  /** The name at a place and the place after it; nothing if there is no name or it is too long. */
  method GetName(buf: seq<byte>, start: nat, mallocOk: bool) returns (r: Option<seq<byte>>, end: nat)
    ensures r == if mallocOk then Scan(buf, start, 0, 0, 0) else None
    ensures r.Some? ==> WellFormed(r.value) && end == Skip(buf, start) && end > 0
  {
    var name := new byte[NAME_MAX];
    var c := Cursor(start, 0, 0, 0, 0);
    ghost var goal := Scan(buf, start, 0, 0, 0);
    assert goal.Some? ==> name[..0] + goal.value == goal.value;
    var ok, last := true, false;
    while !last
      invariant c.namelen <= NAME_MAX
      invariant !last ==> OnTrack(buf, start, name[..c.namelen], c)
      invariant last ==> c.pos > 0 && goal == Some(name[..c.namelen]) && Skip(buf, start) == if c.firstcompress != 0 then c.firstcompress else c.pos
      decreases LOOP_MAX - c.loop
    {
      if c.state > 0 {
        ok, c := LabelByte(buf, start, name, c);
      } else {
        ok, last, c := LengthByte(buf, start, name, c);
      }
      if !ok { return None, 0; }
    }
    ScanWellFormed(buf, start);
    var d := DomainCopy(name[..], name[..c.namelen], mallocOk);
    if d.None? { return None, 0; }
    return d, if c.firstcompress != 0 then c.firstcompress else c.pos;
  }

  /** Adds a byte to the name; what follows it is rest. */
  method Put(name: array<byte>, n: nat, b: byte, ghost rest: Option<seq<byte>>)
    requires n < name.Length
    modifies name
    ensures name[..n + 1] == old(name[..n]) + [b]
    ensures Joined(name[..n + 1], rest) == old(Joined(name[..n], Before(b, rest)))
  {
    ghost var p := name[..n];
    name[n] := b;
    assert name[..n + 1] == p + [b];
    if rest.Some? { Cat(p, [b], rest.value); }
  }

  // ---------------------------------------------------------------------------------------
  // Names

  /** The length of the name d at the front of a buffer. */
  method DomainLength(x: seq<byte>, ghost d: seq<byte>) returns (len: nat)
    requires IsName(d) && d <= x
    ensures len == |d|
  {
    len := 0;
    assert d[0..] == d;
    while x[len] != 0
      invariant len < |d| && IsName(d[len..])
      decreases |d| - len
    {
      assert d[len..][0] == x[len] && d[len..][1 + x[len]..] == d[len + 1 + x[len]..];
      len := len + 1 + x[len];
    }
    assert d[len..][0] == x[len];
    len := len + 1;
  }

  method DomainCopy(x: seq<byte>, ghost d: seq<byte>, mallocOk: bool) returns (copy: Option<seq<byte>>)
    requires IsName(d) && d <= x
    ensures copy == if mallocOk then Some(d) else None
  {
    var len := DomainLength(x, d);
    assert x[..len] == d;
    copy := if mallocOk then Some(x[..len]) else None;
  }

  /** A byte with letters made lower case. */
  function LowerByte(b: byte): byte {
    if 65 <= b <= 90 then b + 32 else b
  }

  function Lower(s: seq<byte>): seq<byte> {
    seq(|s|, i requires 0 <= i < |s| => LowerByte(s[i]))
  }

  /** The difference of the first bytes that differ other than by case, 0 if none do. */
  method CaseDiff(s: seq<byte>, t: seq<byte>) returns (diff: int)
    requires |s| == |t|
    ensures diff == 0 <==> Lower(s) == Lower(t)
  {
    var i := 0;
    while i < |s|
      invariant 0 <= i <= |s| && forall k :: 0 <= k < i ==> LowerByte(s[k]) == LowerByte(t[k])
    {
      var x: int, y: int := Folded(s[i]), Folded(t[i]);
      if x != y {
        assert Lower(s)[i] != Lower(t)[i];
        return x - y;
      }
      i := i + 1;
    }
    return 0;
  }

  /** Case folding as it is computed, in arithmetic modulo 256. */
  function Folded(b: byte): (x: byte)
    ensures x == LowerByte(b)
  {
    var c: int := b;
    var y := if c >= 65 then c - 65 else c - 65 + 256;
    var z := y + if y <= 25 then 97 else 65;
    if z >= 256 then z - 256 else z
  }

  /** Names are equal exactly if they differ in case only. */
  method DomainEqual(a: seq<byte>, b: seq<byte>) returns (equal: bool)
    requires IsName(a) && IsName(b)
    ensures equal <==> Lower(a) == Lower(b)
  {
    var m := DomainLength(a, a);
    var n := DomainLength(b, b);
    if m != n {
      assert |Lower(a)| != |Lower(b)|;
      return false;
    }
    var diff := CaseDiff(a, b);
    return diff == 0;
  }
}
