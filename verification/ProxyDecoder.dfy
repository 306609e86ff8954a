/** The receiving side of a connection between proxies (src/proxy.c, `process_indata`). */
module ProxyDecoder {
  import opened ProxyStream

  const CAPACITY: nat := 131072

  // ---------------------------------------------------------------------------------------
  // One call

  /** One less, as unsigned numbers have it. */
  function Less(n: nat): nat {
    if n == 0 then SIZE_MAX else n - 1
  }

  /** A turn of the loop: whether it is the last, the packet then, the bytes used and the peers told. */
  datatype Turn = Turn(last: bool, packet: Packet, size: nat, tells: seq<Tell>)

  /** After a header the loop goes on to a torrent at once, whether the header has announced any or not. */
  ghost function TurnOf(p: Packet, s: seq<byte>): (t: Turn)
    ensures t.size <= |s| && (!t.last ==> t.size > 0) && (t.last ==> t.tells == [])
  {
    if p.count == 0 && |s| < HEADER then Turn(true, p, 0, [])
    else
      var q := if p.count == 0 then Header(s) else p;
      var n := if p.count == 0 then HEADER else 0;
      match Record(q.kind, s[n..])
      case None => Turn(true, q, n, [])
      case Some((peers, at)) =>
        Turn(false, q.(count := Less(q.count)), n + (at + PEER * peers), Tells(q.prefix, s[n..], at, peers))
  }

  /** What one call makes of the bytes s. */
  ghost function Process(p: Packet, s: seq<byte>): Outcome
    decreases |s|
  {
    var t := TurnOf(p, s);
    if t.last then Outcome([], t.packet, s[t.size..]) else After(t.tells, Process(t.packet, s[t.size..]))
  }

  /** As long as no header announces an empty packet, a turn is one or two steps. */
  lemma TurnIsSteps(p: Packet, s: seq<byte>)
    requires NoneEmpty(p, s)
    ensures var t := TurnOf(p, s);
            && Run(p, s) == (if t.last then Outcome([], t.packet, s[t.size..]) else After(t.tells, Run(t.packet, s[t.size..])))
            && (!t.last ==> NoneEmpty(t.packet, s[t.size..]))
  {
    if p.count == 0 && |s| >= HEADER {
      var q, u := Header(s), s[HEADER..];
      TornOff(q, u);
      assert Run(p, s) == After([], Run(q, u)) && After([], Run(q, u)).tells == Run(q, u).tells;
      var t := TurnOf(p, s);
      assert s[t.size..] == u[t.size - HEADER..];
    } else if p.count > 0 {
      TornOff(p, s);
      assert s[0..] == s;
    }
  }

  lemma TornOff(q: Packet, u: seq<byte>)
    requires NoneEmpty(q, u) && q.count > 0
    ensures match Record(q.kind, u)
            case None => Run(q, u) == Outcome([], q, u)
            case Some((peers, at)) =>
              var q', u' := q.(count := Less(q.count)), u[at + PEER * peers..];
              Run(q, u) == After(Tells(q.prefix, u, at, peers), Run(q', u')) && NoneEmpty(q', u')
  {
  }

  lemma {:induction false} ProcessIsRun(p: Packet, s: seq<byte>)
    requires NoneEmpty(p, s)
    ensures Process(p, s) == Run(p, s)
    decreases |s|
  {
    TurnIsSteps(p, s);
    var t := TurnOf(p, s);
    if !t.last { ProcessIsRun(t.packet, s[t.size..]); }
  }

  /** An empty packet is taken for one with torrents if bytes follow, and skipped if they come later. */
  lemma EmptyPacketCounterexample(x: seq<byte>)
    requires |x| == MINIMAL && x == seq(MINIMAL, _ => 0)
    ensures |Process(IDLE, [1, 0, 0, 0] + x).tells| == 1
    ensures var first := Process(IDLE, [1, 0, 0, 0]);
            first.tells == [] && Process(first.packet, first.rest + x).tells == []
  {
    var s: seq<byte> := [1, 0, 0, 0];
    assert (s + x)[HEADER..] == x && Header(s + x) == Packet(1, 0, 0);
    assert Record(1, x) == Some((1, TAIL));
    assert |Tells(0, x, TAIL, 1)| == 1;
    var rest := x[TAIL + PEER..];
    assert |Process(Packet(1, 0, SIZE_MAX), rest).tells| == 0;
    assert s[HEADER..] == [] && Process(IDLE, s) == Outcome([], Packet(1, 0, 0), []);
    assert [] + x == x && Header(x) == Packet(0, 0, 0);
    assert |x[HEADER..]| < MINIMAL;
  }

  // ---------------------------------------------------------------------------------------
  // The pieces of a call

  /** x shifted left by seven bits, k times. */
  function Shifted(x: nat, k: nat): nat
    decreases k
  {
    if k == 0 then x else Shifted(128 * x, k - 1)
  }

  lemma {:induction false} ShiftedSum(x: nat, y: nat, k: nat)
    ensures Shifted(x + y, k) == Shifted(x, k) + Shifted(y, k)
    decreases k
  {
    if k > 0 { ShiftedSum(128 * x, 128 * y, k - 1); }
  }

  /** The next group of bits adds to what is there. */
  lemma CountStep(s: seq<byte>, at: nat, shift: nat)
    requires shift < 6 && at + 7 <= |s| + shift && s[at] >= 128
    ensures VarRead(s, at, shift).1 == VarRead(s, at + 1, shift + 1).1
    ensures Shifted(VarRead(s, at, shift).0, shift) == Shifted(Low(s[at]), shift) + Shifted(VarRead(s, at + 1, shift + 1).0, shift + 1)
  {
    ShiftedSum(Low(s[at]), 128 * VarRead(s, at + 1, shift + 1).0, shift);
  }

  /** A group can be shifted to its place within a signed number of 32 bits. */
  predicate ShiftFits(x: nat, shift: nat) {
    7 * shift < 32 && Shifted(x, shift) < 0x8000_0000
  }

  lemma ShiftFitsIff(x: nat, shift: nat)
    requires x < 128
    ensures ShiftFits(x, shift) <==> shift < 4 || (shift == 4 && x < 8)
  {
    if shift < 5 {
      assert Shifted(x, 0) == x && Shifted(x, 1) == 128 * x && Shifted(x, 2) == 128 * 128 * x;
      assert Shifted(x, 3) == 128 * Shifted(x, 2) && Shifted(x, 4) == 128 * Shifted(x, 3);
    }
  }

  /** There are at most four groups, or five of which the last is small. */
  predicate FewGroups(s: seq<byte>, at: nat)
    requires TAIL < at && |s| >= MINIMAL
  {
    at <= TAIL + 4 || (at == TAIL + 5 && Low(s[TAIL + 4]) < 8)
  }

  /** The number of peers in groups of seven bits, and whether an int can do all the shifts. */
  method ReadCount(s: seq<byte>) returns (peers: nat, at: nat, fits: bool)
    requires |s| >= MINIMAL
    ensures (peers, at) == VarRead(s, TAIL, 0)
    ensures fits <==> FewGroups(s, at)
  {
    var shift: nat := 0;
    peers, at, fits := 0, TAIL, true;
    while s[at] >= 128 && shift < 6
      invariant shift <= 6 && at == TAIL + shift
      invariant VarRead(s, at, shift).1 == VarRead(s, TAIL, 0).1
      invariant peers + Shifted(VarRead(s, at, shift).0, shift) == VarRead(s, TAIL, 0).0
      invariant fits <==> shift == 0 || FewGroups(s, at)
      decreases 6 - shift
    {
      CountStep(s, at, shift);
      ShiftFitsIff(Low(s[at]), shift);
      fits := fits && ShiftFits(Low(s[at]), shift);
      peers := peers + Shifted(Low(s[at]), shift);
      at, shift := at + 1, shift + 1;
    }
    ShiftFitsIff(Low(s[at]), shift);
    fits := fits && ShiftFits(Low(s[at]), shift);
    peers, at := peers + Shifted(Low(s[at]), shift), at + 1;
  }

  /** The torrent at the front of the bytes, if it is complete. */
  method FindTorrent(kind: byte, s: seq<byte>) returns (r: Option<(nat, nat)>)
    ensures r == Record(kind, s)
  {
    if |s| < MINIMAL { return None; }
    var peers: nat, at := kind, TAIL;
    if kind == 0 {
      var fits;
      peers, at, fits := ReadCount(s);
    }
    return if at + PEER * peers > |s| then None else Some((peers, at));
  }

  /** Passes on the peers of a torrent. */
  method TellPeers(prefix: byte, s: seq<byte>, at: nat, peers: nat) returns (tells: seq<Tell>)
    requires TAIL <= at && at + PEER * peers <= |s|
    ensures tells == Tells(prefix, s, at, peers)
  {
    tells := [];
    var i := 0;
    while i < peers
      invariant 0 <= i <= peers && tells == Tells(prefix, s, at, i)
    {
      tells := tells + [Tell([prefix] + s[..TAIL], s[at + PEER * i..at + PEER * (i + 1)])];
      i := i + 1;
    }
  }

  /** One turn of the loop over the bytes s. */
  method TakeOne(s: seq<byte>, packet: Packet) returns (t: Turn)
    ensures t == TurnOf(packet, s)
  {
    var p, n := packet, 0;
    if p.count == 0 {
      if HEADER > |s| { return Turn(true, p, 0, []); }
      p, n := Header(s), HEADER;
    }
    var r := FindTorrent(p.kind, s[n..]);
    if r.None? { return Turn(true, p, n, []); }
    var tells := TellPeers(p.prefix, s[n..], r.value.1, r.value.0);
    return Turn(false, p.(count := Less(p.count)), n + (r.value.1 + PEER * r.value.0), tells);
  }

  /** The state of the loop: what is told, the packet, the bytes not used, and whether it is over. */
  datatype Loop = Loop(tells: seq<Tell>, packet: Packet, rest: seq<byte>, last: bool)

  /** What is told and what the rest will add. */
  ghost function Total(l: Loop): Outcome {
    if l.last then Outcome(l.tells, l.packet, l.rest) else After(l.tells, Process(l.packet, l.rest))
  }

  lemma TurnKeepsTotal(l: Loop, t: Turn)
    requires !l.last && t == TurnOf(l.packet, l.rest)
    ensures Total(Loop(l.tells + t.tells, t.packet, l.rest[t.size..], t.last)) == Total(l)
  {
    if t.last {
      assert l.tells + [] == l.tells;
    } else {
      Cat(l.tells, t.tells, Process(t.packet, l.rest[t.size..]).tells);
    }
  }

  /** The loop over the bytes s. */
  method TakeAll(s: seq<byte>, packet: Packet) returns (l: Loop)
    ensures Process(packet, s) == Outcome(l.tells, l.packet, l.rest)
  {
    l := Loop([], packet, s, false);
    ghost var goal := Process(packet, s);
    assert [] + goal.tells == goal.tells;
    while !l.last
      invariant Total(l) == goal
      decreases !l.last, |l.rest|
    {
      var t := TakeOne(l.rest, l.packet);
      TurnKeepsTotal(l, t);
      l := Loop(l.tells + t.tells, t.packet, l.rest[t.size..], t.last);
    }
  }

  /** What is not used is at the end. */
  lemma {:induction false} RestIsSuffix(p: Packet, s: seq<byte>)
    ensures var rest := Process(p, s).rest; |rest| <= |s| && rest == s[|s| - |rest|..]
    decreases |s|
  {
    var t := TurnOf(p, s);
    if !t.last {
      var u := s[t.size..];
      RestIsSuffix(t.packet, u);
      DropDrop(s, t.size, |u| - |Process(t.packet, u).rest|);
    }
  }

  lemma DropDrop(s: seq<byte>, n: nat, k: nat)
    requires n + k <= |s|
    ensures s[n..][k..] == s[n + k..]
  {
  }

  // ---------------------------------------------------------------------------------------
  // A connection

  class Connection {
    /** Bytes received and not yet used. */
    const indata: array<byte>
    var length: nat
    var packet: Packet
    /** The peers passed on so far. */
    var told: seq<Tell>
    /** All that was received. */
    ghost var stream: seq<byte>

    /** The state is what the stream, taken as a whole, leads to. */
    ghost predicate Valid()
      reads this, indata
    {
      && indata.Length == CAPACITY && length <= CAPACITY && NoneEmpty(IDLE, stream)
      && Run(IDLE, stream) == Outcome(told, packet, indata[..length])
    }

    constructor ()
      ensures Valid() && stream == [] && told == [] && fresh(indata)
    {
      indata := new byte[CAPACITY];
      length, packet, told, stream := 0, IDLE, [], [];
    }

    /** Takes in more bytes, as many as there is room for. However a stream is cut, it comes to the same. */
    method Receive(chunk: seq<byte>)
      requires Valid() && length + |chunk| <= CAPACITY && NoneEmpty(IDLE, stream + chunk)
      modifies this, indata
      ensures Valid() && stream == old(stream) + chunk
    {
      ghost var o := Run(IDLE, stream);
      RunSplit(IDLE, stream, chunk);
      NoneEmptySplit(IDLE, stream, chunk);
      ProcessIsRun(o.packet, o.rest + chunk);
      AppendChunk(chunk);
      ProcessIndata();
      stream := stream + chunk;
    }

    method AppendChunk(chunk: seq<byte>)
      requires indata.Length == CAPACITY && length + |chunk| <= CAPACITY
      modifies indata, this`length
      ensures length == old(length) + |chunk| && indata[..length] == old(indata[..length]) + chunk
    {
      ghost var before := indata[..length];
      forall i | 0 <= i < |chunk| { indata[length + i] := chunk[i]; }
      length := length + |chunk|;
      assert indata[..length] == before + chunk;
    }

    method ProcessIndata()
      requires indata.Length == CAPACITY && length <= CAPACITY
      modifies indata, this`length, this`packet, this`told
      ensures length <= CAPACITY
      ensures old(After(told, Process(packet, indata[..length]))) == Outcome(told, packet, indata[..length])
    {
      var l := TakeAll(indata[..length], packet);
      told, packet := told + l.tells, l.packet;
      RestIsSuffix(old(packet), indata[..length]);
      Consume(length - |l.rest|);
    }

    /** Keeps exactly the bytes not used. */
    method Consume(n: nat)
      requires indata.Length == CAPACITY && n <= length <= CAPACITY
      modifies indata, this`length
      ensures length == old(length) - n && indata[..length] == old(indata[n..length])
    {
      var i := 0;
      while i < length - n
        invariant 0 <= i <= length - n && length == old(length)
        invariant forall k :: 0 <= k < i ==> indata[k] == old(indata[n + k])
        invariant forall k :: i <= k < length ==> indata[k] == old(indata[k])
      {
        indata[i] := indata[n + i];
        i := i + 1;
      }
      length := length - n;
    }
  }
}
