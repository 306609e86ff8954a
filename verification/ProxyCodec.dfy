/** The encoding of a bucket of torrents for the stream between proxies, and that it decodes to the bucket. */
module ProxyCodec {
  import opened ProxyStream

  type Hash = h: seq<byte> | |h| == 20 witness seq(20, _ => 0)
  type Peer = p: seq<byte> | |p| == PEER witness seq(PEER, _ => 0)

  datatype Torrent = Torrent(hash: Hash, peers: seq<Peer>)

  // ---------------------------------------------------------------------------------------
  // Torrents in a packet

  function Flat(peers: seq<Peer>): seq<byte> {
    if peers == [] then [] else peers[0] + Flat(peers[1..])
  }

  /** A number in groups of seven bits, the lowest first. */
  function Var(n: nat): seq<byte> {
    if n <= 127 then [n] else [128 + n % 128] + Var(n / 128)
  }

  /** A torrent in a packet of a type: the tail of its hash, the number of peers in type 0, the peers. */
  function Body(kind: byte, t: Torrent): seq<byte> {
    t.hash[1..] + ((if kind == 0 then Var(|t.peers|) else []) + Flat(t.peers))
  }

  function Bodies(kind: byte, ts: seq<Torrent>): seq<byte> {
    if ts == [] then [] else Body(kind, ts[0]) + Bodies(kind, ts[1..])
  }

  /** What should be told of a torrent. */
  function Pairs(t: Torrent, n: nat): seq<Tell>
    requires n <= |t.peers|
  {
    if n == 0 then [] else Pairs(t, n - 1) + [Tell(t.hash, t.peers[n - 1])]
  }

  function AllPairs(ts: seq<Torrent>): seq<Tell> {
    if ts == [] then [] else Pairs(ts[0], |ts[0].peers|) + AllPairs(ts[1..])
  }

  /** Fit to be sent in a packet of a type: of the packet's prefix, and with the right number of peers. */
  ghost predicate Suits(kind: byte, prefix: byte, t: Torrent) {
    t.hash[0] == prefix && if kind == 0 then 0 < |t.peers| < 0x1000_0000 else |t.peers| == kind
  }

  ghost predicate AllSuit(kind: byte, prefix: byte, ts: seq<Torrent>) {
    forall i :: 0 <= i < |ts| ==> Suits(kind, prefix, ts[i])
  }

  // ---------------------------------------------------------------------------------------
  // Reading one torrent

  lemma {:induction false} FlatAt(peers: seq<Peer>, i: nat)
    requires i < |peers|
    ensures |Flat(peers)| == PEER * |peers| && Flat(peers)[PEER * i..PEER * i + PEER] == peers[i]
  {
    FlatLength(peers);
    FlatLength(peers[1..]);
    var f: seq<byte>, first: seq<byte> := Flat(peers[1..]), peers[0];
    if i == 0 {
      assert (first + f)[0..PEER] == first;
    } else {
      FlatAt(peers[1..], i - 1);
      assert (first + f)[PEER * i..PEER * i + PEER] == f[PEER * (i - 1)..PEER * (i - 1) + PEER];
    }
  }

  lemma {:induction false} FlatLength(peers: seq<Peer>)
    ensures |Flat(peers)| == PEER * |peers|
  {
    if peers != [] { FlatLength(peers[1..]); }
  }

  lemma {:induction false} VarLength(n: nat, k: nat, bound: nat)
    requires k > 0 && bound == Bound(k) && n < bound
    ensures 0 < |Var(n)| <= k
  {
    if n > 127 { VarLength(n / 128, k - 1, Bound(k - 1)); }
  }

  /** Two to the power of seven k. */
  ghost function Bound(k: nat): nat {
    if k == 0 then 1 else 128 * Bound(k - 1)
  }

  /** A number written in groups is read back. */
  lemma {:induction false} VarRoundTrip(s: seq<byte>, i: nat, shift: nat, n: nat, rest: seq<byte>)
    requires i <= |s| && s[i..] == Var(n) + rest && shift + |Var(n)| <= 7 && i + 7 <= |s| + shift && shift <= 6
    ensures VarRead(s, i, shift) == (n, i + |Var(n)|)
    decreases n
  {
    assert s[i] == s[i..][0] == Var(n)[0];
    if n > 127 {
      var high := n / 128;
      assert s[i + 1..] == s[i..][1..] == Var(high) + rest;
      VarRoundTrip(s, i + 1, shift + 1, high, rest);
      assert Low(s[i]) == n % 128;
    }
  }

  /** What groups of seven bits spell, the lowest first. */
  function Spelled(groups: seq<byte>): nat {
    if groups == [] then 0 else groups[0] % 128 + 128 * Spelled(groups[1..])
  }

  /** A number is written as groups that spell it; all but the last are marked by the high bit. */
  lemma {:induction false} VarSpells(n: nat)
    ensures Spelled(Var(n)) == n && Var(n) != []
    ensures forall i :: 0 <= i < |Var(n)| ==> (Var(n)[i] >= 128 <==> i < |Var(n)| - 1)
  {
    if n > 127 {
      VarSpells(n / 128);
      assert Var(n)[1..] == Var(n / 128);
    } else {
      assert [n][1..] == [];
    }
  }

  lemma VarFits(n: nat)
    requires 0 < n < 0x1000_0000
    ensures 0 < |Var(n)| <= 4
  {
    assert Bound(4) == 0x1000_0000;
    VarLength(n, 4, Bound(4));
  }

  /** The numbers that are written can all be read in four groups. */
  lemma WrittenInFour(s: seq<byte>, i: nat, n: nat, rest: seq<byte>)
    requires 0 < n < 0x1000_0000 && i + 7 <= |s| && s[i..] == Var(n) + rest
    ensures VarRead(s, i, 0).0 == n && VarRead(s, i, 0).1 <= i + 4
  {
    VarFits(n);
    VarRoundTrip(s, i, 0, n, rest);
  }

  /** Where the peers of a torrent start in its encoding. */
  function PeersStart(kind: byte, t: Torrent): nat {
    TAIL + if kind == 0 then |Var(|t.peers|)| else 0
  }

  lemma BodyLength(kind: byte, prefix: byte, t: Torrent)
    requires Suits(kind, prefix, t)
    ensures |Body(kind, t)| == PeersStart(kind, t) + PEER * |t.peers|
    ensures |Body(kind, t)| + 1 >= MINIMAL && PeersStart(kind, t) <= TAIL + 4
  {
    FlatLength(t.peers);
    if kind == 0 { VarFits(|t.peers|); }
  }

  /** A torrent is found where it was written, if anything follows it. */
  lemma RecordRead(kind: byte, prefix: byte, t: Torrent, rest: seq<byte>)
    requires Suits(kind, prefix, t) && rest != []
    ensures Record(kind, Body(kind, t) + rest) == Some((|t.peers|, PeersStart(kind, t)))
  {
    var s := Body(kind, t) + rest;
    BodyLength(kind, prefix, t);
    if kind == 0 {
      var tail: seq<byte>, v, f := t.hash[1..], Var(|t.peers|), Flat(t.peers);
      assert s[TAIL..] == v + (f + rest);
      VarRoundTrip(s, TAIL, 0, |t.peers|, f + rest);
    }
  }

  lemma PeerWritten(kind: byte, prefix: byte, t: Torrent, rest: seq<byte>, i: nat)
    requires Suits(kind, prefix, t) && i < |t.peers| && PeersStart(kind, t) + PEER * i + PEER <= |Body(kind, t)|
    ensures (Body(kind, t) + rest)[PeersStart(kind, t) + PEER * i..PeersStart(kind, t) + PEER * i + PEER] == t.peers[i]
  {
    BodyPeers(kind, prefix, t);
    PeerWithin(Body(kind, t), rest, PeersStart(kind, t), t.peers, i);
  }

  lemma PeerWithin(b: seq<byte>, rest: seq<byte>, start: nat, peers: seq<Peer>, i: nat)
    requires i < |peers| && start + PEER * i + PEER <= |b| && b[start..] == Flat(peers)
    ensures (b + rest)[start + PEER * i..start + PEER * i + PEER] == peers[i]
  {
    FlatAt(peers, i);
    SliceAt(b, rest, start, PEER * i, PEER);
  }

  lemma BodyPeers(kind: byte, prefix: byte, t: Torrent)
    requires Suits(kind, prefix, t)
    ensures PeersStart(kind, t) <= |Body(kind, t)| && Body(kind, t)[PeersStart(kind, t)..] == Flat(t.peers)
  {
    BodyLength(kind, prefix, t);
    var tail: seq<byte> := t.hash[1..];
    var v: seq<byte> := if kind == 0 then Var(|t.peers|) else [];
    Cat(tail, v, Flat(t.peers));
    assert ((tail + v) + Flat(t.peers))[|tail + v|..] == Flat(t.peers);
  }

  lemma SliceAt(b: seq<byte>, rest: seq<byte>, start: nat, k: nat, m: nat)
    requires start + k + m <= |b|
    ensures (b + rest)[start + k..start + k + m] == b[start..][k..k + m]
  {
  }

  lemma {:induction false} TellsRead(kind: byte, prefix: byte, t: Torrent, rest: seq<byte>, n: nat)
    requires Suits(kind, prefix, t) && n <= |t.peers|
    ensures PeersStart(kind, t) + PEER * n <= |Body(kind, t) + rest|
    ensures Tells(prefix, Body(kind, t) + rest, PeersStart(kind, t), n) == Pairs(t, n)
  {
    BodyLength(kind, prefix, t);
    if n > 0 {
      TellsRead(kind, prefix, t, rest, n - 1);
      PeerWritten(kind, prefix, t, rest, n - 1);
      HashWritten(kind, prefix, t, rest);
    }
  }

  lemma HashWritten(kind: byte, prefix: byte, t: Torrent, rest: seq<byte>)
    requires t.hash[0] == prefix
    ensures [prefix] + (Body(kind, t) + rest)[..TAIL] == t.hash
  {
    assert (Body(kind, t) + rest)[..TAIL] == t.hash[1..];
  }

  // ---------------------------------------------------------------------------------------
  // Reading a packet

  lemma TorrentRead(kind: byte, prefix: byte, t: Torrent, count: nat, rest: seq<byte>)
    requires Suits(kind, prefix, t) && rest != [] && count > 0
    ensures var p, s := Packet(kind, prefix, count), Body(kind, t) + rest;
            && Run(p, s) == After(Pairs(t, |t.peers|), Run(p.(count := count - 1), rest))
            && NoneEmpty(p, s) == NoneEmpty(p.(count := count - 1), rest)
  {
    var p, s := Packet(kind, prefix, count), Body(kind, t) + rest;
    RecordRead(kind, prefix, t, rest);
    TellsRead(kind, prefix, t, rest, |t.peers|);
    BodyLength(kind, prefix, t);
    assert Next(p, s) == Some(Step(Pairs(t, |t.peers|), p.(count := count - 1), |Body(kind, t)|));
    assert s[|Body(kind, t)|..] == rest;
  }

  lemma {:induction false} BodiesRead(kind: byte, prefix: byte, ts: seq<Torrent>, rest: seq<byte>)
    requires AllSuit(kind, prefix, ts) && rest != []
    ensures var p, s := Packet(kind, prefix, |ts|), Bodies(kind, ts) + rest;
            && Run(p, s) == After(AllPairs(ts), Run(p.(count := 0), rest))
            && NoneEmpty(p, s) == NoneEmpty(p.(count := 0), rest)
  {
    if ts == [] {
      assert Bodies(kind, ts) + rest == rest;
      AfterNone(Run(Packet(kind, prefix, 0), rest));
    } else {
      var more := Bodies(kind, ts[1..]) + rest;
      TorrentRead(kind, prefix, ts[0], |ts|, more);
      BodiesRead(kind, prefix, ts[1..], rest);
      Cat(Body(kind, ts[0]), Bodies(kind, ts[1..]), rest);
      AfterAfter(Pairs(ts[0], |ts[0].peers|), AllPairs(ts[1..]), Run(Packet(kind, prefix, 0), rest));
    }
  }

  lemma AfterNone(o: Outcome)
    ensures After([], o) == o
  {
    assert [] + o.tells == o.tells;
  }

  lemma AfterAfter(a: seq<Tell>, b: seq<Tell>, o: Outcome)
    ensures After(a, After(b, o)) == After(a + b, o)
  {
    Cat(a, b, o.tells);
  }

  /** A packet with its header. */
  function Block(kind: byte, prefix: byte, ts: seq<Torrent>): seq<byte>
    requires |ts| < 0x1_0000
  {
    HeaderBytes(kind, prefix, |ts|) + Bodies(kind, ts)
  }

  function HeaderBytes(kind: byte, prefix: byte, n: nat): (h: seq<byte>)
    requires n < 0x1_0000
    ensures |h| == HEADER && Header(h) == Packet(kind, prefix, n)
  {
    [kind, prefix, n / 256, n % 256]
  }

  /** A header is the type, the prefix and the number of torrents, its high byte first. */
  lemma HeaderIs(kind: byte, prefix: byte, high: byte, low: byte)
    ensures Header([kind, prefix, high, low]) == Packet(kind, prefix, 256 * high + low)
    ensures HeaderBytes(kind, prefix, 256 * high + low) == [kind, prefix, high, low]
  {
    var h: int := high;
    assert (256 * h + low) / 256 == h && (256 * h + low) % 256 == low;
  }

  lemma BlockRead(kind: byte, prefix: byte, ts: seq<Torrent>, rest: seq<byte>, p: Packet)
    requires AllSuit(kind, prefix, ts) && 0 < |ts| < 0x1_0000 && rest != [] && p.count == 0
    ensures var q := Packet(kind, prefix, 0);
            && Run(p, Block(kind, prefix, ts) + rest) == After(AllPairs(ts), Run(q, rest))
            && NoneEmpty(p, Block(kind, prefix, ts) + rest) == NoneEmpty(q, rest)
  {
    var h, b := HeaderBytes(kind, prefix, |ts|), Bodies(kind, ts);
    var s := Block(kind, prefix, ts) + rest;
    Cat(h, b, rest);
    assert s[..HEADER] == h && s[HEADER..] == b + rest;
    assert Header(s) == Header(h);
    assert Next(p, s) == Some(Step([], Packet(kind, prefix, |ts|), HEADER));
    BodiesRead(kind, prefix, ts, rest);
    AfterNone(Run(Packet(kind, prefix, |ts|), b + rest));
  }

  /** Between packets it does not matter what the last one was. */
  lemma BetweenPackets(p: Packet, q: Packet, s: seq<byte>)
    requires p.count == q.count == 0
    ensures Run(p, s).tells == Run(q, s).tells && Run(p, s).rest == Run(q, s).rest
    ensures NoneEmpty(p, s) == NoneEmpty(q, s)
  {
  }

  // ---------------------------------------------------------------------------------------
  // Lengths

  lemma {:induction false} PairsLength(t: Torrent, n: nat)
    requires n <= |t.peers|
    ensures |Pairs(t, n)| == n
  {
    if n > 0 { PairsLength(t, n - 1); }
  }

  lemma {:induction false} AllLengths(kind: byte, prefix: byte, ts: seq<Torrent>)
    requires AllSuit(kind, prefix, ts) && 1 <= kind <= 2
    ensures |AllPairs(ts)| == kind * |ts| && |Bodies(kind, ts)| == (TAIL + PEER * kind) * |ts|
  {
    if ts != [] {
      AllLengths(kind, prefix, ts[1..]);
      PairsLength(ts[0], |ts[0].peers|);
      BodyLength(kind, prefix, ts[0]);
    }
  }
}
