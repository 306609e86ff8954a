/**
  The stream between proxies (src/proxy.c): packets of torrents with their peers, and what the
  receiving side makes of the bytes it has.
 */
module ProxyStream {

  type byte = b: int | 0 <= b < 256

  datatype Option<T> = None | Some(value: T)

  /** One peer of one torrent, as it is passed on: 20 bytes of info hash, 7 bytes of peer. */
  datatype Tell = Tell(hash: seq<byte>, peer: seq<byte>)

  const TAIL: nat := 19
  const PEER: nat := 7
  const HEADER: nat := 4
  const MINIMAL: nat := 27
  const SIZE_MAX: nat := 0xffff_ffff_ffff_ffff

  /** The packet being received: its type, the first byte of its hashes, the torrents still to come. */
  datatype Packet = Packet(kind: byte, prefix: byte, count: nat)

  const IDLE := Packet(0, 0, 0)

  // ---------------------------------------------------------------------------------------
  // One torrent

  /** The low seven bits of a byte. */
  function Low(b: byte): nat {
    if b < 128 then b else b - 128
  }

  /** A number in groups of seven bits from place i on, at most seven of them, and the place after it. */
  function VarRead(s: seq<byte>, i: nat, shift: nat): (r: (nat, nat))
    requires shift <= 6 && i + 7 <= |s| + shift
    ensures i < r.1 <= i + 7 - shift
    decreases 6 - shift
  {
    if s[i] < 128 || shift == 6 then (Low(s[i]), i + 1)
    else
      var more := VarRead(s, i + 1, shift + 1);
      (Low(s[i]) + 128 * more.0, more.1)
  }

  /** The number of peers of the torrent at the front, and where they start. */
  function PeersAt(kind: byte, s: seq<byte>): (r: (nat, nat))
    requires |s| >= MINIMAL
    ensures TAIL <= r.1 <= TAIL + 7
  {
    if kind != 0 then (kind, TAIL) else VarRead(s, TAIL, 0)
  }

  /** The same, if the torrent is there with all its peers. */
  function Record(kind: byte, s: seq<byte>): Option<(nat, nat)> {
    if |s| < MINIMAL then None
    else
      var (peers, at) := PeersAt(kind, s);
      if at + PEER * peers > |s| then None else Some((peers, at))
  }

  /** The first n peers told of a torrent. */
  function Tells(prefix: byte, s: seq<byte>, at: nat, n: nat): seq<Tell>
    requires TAIL <= at && at + PEER * n <= |s|
  {
    if n == 0 then []
    else Tells(prefix, s, at, n - 1) + [Tell([prefix] + s[..TAIL], s[at + PEER * (n - 1)..at + PEER * n])]
  }

  // ---------------------------------------------------------------------------------------
  // The stream, step by step

  datatype Step = Step(tells: seq<Tell>, packet: Packet, size: nat)

  /** A header between packets, a torrent within one; nothing while it is not complete. */
  function Next(p: Packet, s: seq<byte>): (r: Option<Step>)
    ensures r.Some? ==> 0 < r.value.size <= |s|
  {
    if p.count == 0 then
      if |s| < HEADER then None else Some(Step([], Header(s), HEADER))
    else
      match Record(p.kind, s)
      case None => None
      case Some((peers, at)) => Some(Step(Tells(p.prefix, s, at, peers), p.(count := p.count - 1), at + PEER * peers))
  }

  function Header(s: seq<byte>): Packet
    requires |s| >= HEADER
  {
    var high: int := s[2];
    Packet(s[0], s[1], 256 * high + s[3])
  }

  /** What comes of a stream: the peers told, the packet one is in, and the bytes not yet used. */
  datatype Outcome = Outcome(tells: seq<Tell>, packet: Packet, rest: seq<byte>)

  ghost function Run(p: Packet, s: seq<byte>): Outcome
    decreases |s|
  {
    match Next(p, s)
    case None => Outcome([], p, s)
    case Some(step) => After(step.tells, Run(step.packet, s[step.size..]))
  }

  ghost function After(tells: seq<Tell>, o: Outcome): Outcome {
    o.(tells := tells + o.tells)
  }

  /** No header announces a packet without torrents. */
  ghost predicate NoneEmpty(p: Packet, s: seq<byte>)
    decreases |s|
  {
    match Next(p, s)
    case None => true
    case Some(step) => (p.count == 0 ==> step.packet.count > 0) && NoneEmpty(step.packet, s[step.size..])
  }

  // ---------------------------------------------------------------------------------------
  // More bytes do not change what the first ones gave

  lemma {:induction false} VarReadMore(s: seq<byte>, t: seq<byte>, i: nat, shift: nat)
    requires shift <= 6 && i + 7 <= |s| + shift
    ensures VarRead(s + t, i, shift) == VarRead(s, i, shift)
    decreases 6 - shift
  {
    if s[i] >= 128 && shift < 6 { VarReadMore(s, t, i + 1, shift + 1); }
  }

  lemma {:induction false} TellsMore(prefix: byte, s: seq<byte>, t: seq<byte>, at: nat, n: nat)
    requires TAIL <= at && at + PEER * n <= |s|
    ensures Tells(prefix, s + t, at, n) == Tells(prefix, s, at, n)
  {
    if n > 0 {
      TellsMore(prefix, s, t, at, n - 1);
      assert (s + t)[..TAIL] == s[..TAIL];
      assert (s + t)[at + PEER * (n - 1)..at + PEER * n] == s[at + PEER * (n - 1)..at + PEER * n];
    }
  }

  lemma NextMore(p: Packet, s: seq<byte>, t: seq<byte>)
    requires Next(p, s).Some?
    ensures Next(p, s + t) == Next(p, s)
  {
    if p.count > 0 {
      if p.kind == 0 { VarReadMore(s, t, TAIL, 0); }
      var (peers, at) := Record(p.kind, s).value;
      TellsMore(p.prefix, s, t, at, peers);
    }
  }

  lemma Cat<T>(a: seq<T>, b: seq<T>, c: seq<T>)
    ensures (a + b) + c == a + (b + c)
  {
  }

  /** Bytes that come later are taken up where the earlier ones left off. */
  lemma {:induction false} RunSplit(p: Packet, s: seq<byte>, t: seq<byte>)
    ensures var o := Run(p, s); Run(p, s + t) == After(o.tells, Run(o.packet, o.rest + t))
    decreases |s|
  {
    match Next(p, s)
    case None =>
      assert After([], Run(p, s + t)).tells == Run(p, s + t).tells;
    case Some(step) =>
      NextMore(p, s, t);
      var s' := s[step.size..];
      assert (s + t)[step.size..] == s' + t;
      RunSplit(step.packet, s', t);
      var o := Run(step.packet, s');
      Cat(step.tells, o.tells, Run(o.packet, o.rest + t).tells);
  }

  lemma {:induction false} NoneEmptySplit(p: Packet, s: seq<byte>, t: seq<byte>)
    requires NoneEmpty(p, s + t)
    ensures var o := Run(p, s); NoneEmpty(p, s) && NoneEmpty(o.packet, o.rest + t)
    decreases |s|
  {
    if Next(p, s).Some? {
      var step := Next(p, s).value;
      NextMore(p, s, t);
      assert (s + t)[step.size..] == s[step.size..] + t;
      NoneEmptySplit(step.packet, s[step.size..], t);
    }
  }
}
