/**
  Empty packets: the encoder can send a header that announces no torrents, and the decoder does
  not expect that. A bucket can be decoded exactly if its encoding has no such header.
 */
module ProxyEmpty {
  import opened ProxyStream
  import opened ProxyDecoder
  import opened ProxyCodec
  import opened ProxyBucket

  /** Whatever is sent after it, the bucket's pairs come out and then what belongs to the rest. */
  ghost predicate Decodable(ts: seq<Torrent>, prefix: byte)
    requires |ts| < 0x1_0000
  {
    forall ext: seq<byte> :: ext != [] && NoneEmpty(IDLE, ext) ==>
      Process(IDLE, Encoding(ts, prefix) + ext).tells == Sent(ts) + Process(IDLE, ext).tells
  }

  lemma DecodableIf(ts: seq<Torrent>, prefix: byte)
    requires IsBucket(ts, prefix) && NoEmptyPacket(ts)
    ensures Decodable(ts, prefix)
  {
    forall ext: seq<byte> | ext != [] && NoneEmpty(IDLE, ext)
      ensures Process(IDLE, Encoding(ts, prefix) + ext).tells == Sent(ts) + Process(IDLE, ext).tells
    {
      DecodeEncode(ts, prefix, ext);
      ProcessIsRun(IDLE, Encoding(ts, prefix) + ext);
      ProcessIsRun(IDLE, ext);
    }
  }

  // ---------------------------------------------------------------------------------------
  // Turns of the decoder on packets

  lemma TorrentTurn(kind: byte, prefix: byte, t: Torrent, count: nat, rest: seq<byte>)
    requires Suits(kind, prefix, t) && rest != [] && count > 0
    ensures Process(Packet(kind, prefix, count), Body(kind, t) + rest) ==
            After(Pairs(t, |t.peers|), Process(Packet(kind, prefix, count - 1), rest))
  {
    var p, b := Packet(kind, prefix, count), Body(kind, t);
    RecordRead(kind, prefix, t, rest);
    TellsRead(kind, prefix, t, rest, |t.peers|);
    BodyLength(kind, prefix, t);
    assert (b + rest)[0..] == b + rest;
    assert TurnOf(p, b + rest) == Turn(false, p.(count := count - 1), |b|, Pairs(t, |t.peers|));
    assert (b + rest)[|b|..] == rest;
  }

  lemma {:induction false} BodiesTurns(kind: byte, prefix: byte, ts: seq<Torrent>, rest: seq<byte>)
    requires AllSuit(kind, prefix, ts) && rest != []
    ensures Process(Packet(kind, prefix, |ts|), Bodies(kind, ts) + rest) == After(AllPairs(ts), Process(Packet(kind, prefix, 0), rest))
  {
    if ts == [] {
      assert Bodies(kind, ts) + rest == rest;
      AfterNone(Process(Packet(kind, prefix, 0), rest));
    } else {
      var more := Bodies(kind, ts[1..]) + rest;
      TorrentTurn(kind, prefix, ts[0], |ts|, more);
      BodiesTurns(kind, prefix, ts[1..], rest);
      Cat(Body(kind, ts[0]), Bodies(kind, ts[1..]), rest);
      AfterAfter(Pairs(ts[0], |ts[0].peers|), AllPairs(ts[1..]), Process(Packet(kind, prefix, 0), rest));
    }
  }

  /** A header that announces torrents is no more than that. */
  lemma HeaderTurn(p: Packet, s: seq<byte>)
    requires p.count == 0 && |s| >= HEADER && Header(s).count > 0
    ensures Process(p, s) == Process(Header(s), s[HEADER..])
  {
    var t := TurnOf(Header(s), s[HEADER..]);
    TurnAfterHeader(p, s);
    DropDrop(s, HEADER, t.size);
  }

  lemma TurnAfterHeader(p: Packet, s: seq<byte>)
    requires p.count == 0 && |s| >= HEADER && Header(s).count > 0
    ensures var t := TurnOf(Header(s), s[HEADER..]); TurnOf(p, s) == t.(size := HEADER + t.size)
  {
    assert s[HEADER..][0..] == s[HEADER..];
  }

  lemma BlockTurns(kind: byte, prefix: byte, ts: seq<Torrent>, rest: seq<byte>, p: Packet)
    requires AllSuit(kind, prefix, ts) && 0 < |ts| < 0x1_0000 && rest != [] && p.count == 0
    ensures Process(p, Block(kind, prefix, ts) + rest) == After(AllPairs(ts), Process(Packet(kind, prefix, 0), rest))
  {
    var h, b := HeaderBytes(kind, prefix, |ts|), Bodies(kind, ts);
    var s := Block(kind, prefix, ts) + rest;
    Cat(h, b, rest);
    assert s[..HEADER] == h && s[HEADER..] == b + rest;
    assert Header(s) == Header(h);
    HeaderTurn(p, s);
    BodiesTurns(kind, prefix, ts, rest);
  }

  /** A packet of one-peer torrents without end tells of one peer for every 26 bytes. */
  lemma {:induction false} OnesBound(p: Packet, s: seq<byte>)
    requires p.kind == 1 && p.count > |s|
    ensures 26 * |Process(p, s).tells| <= |s|
    decreases |s|
  {
    assert s[0..] == s;
    var t := TurnOf(p, s);
    if |s| >= MINIMAL {
      assert |Tells(p.prefix, s, TAIL, 1)| == 1;
      assert t.size == 26 && |t.tells| == 1 && t.packet == p.(count := p.count - 1);
      OnesBound(t.packet, s[t.size..]);
    }
  }

  // ---------------------------------------------------------------------------------------
  // A bucket with an empty packet, and something after it

  function Repeat(b: byte, n: nat): (s: seq<byte>)
    ensures |s| == n && forall i :: 0 <= i < n ==> s[i] == b
  {
    if n == 0 then [] else Repeat(b, n - 1) + [b]
  }

  function Sample(): Torrent {
    Torrent([0] + Repeat(255, 19), [Repeat(255, PEER)])
  }

  /** A packet with one torrent of one peer, and one more byte. */
  function Following(): seq<byte> {
    Block(1, 0, [Sample()]) + [0]
  }

  lemma SampleDecodes()
    ensures |Following()| == 31 && NoneEmpty(IDLE, Following())
    ensures Process(IDLE, Following()).tells == [Tell(Sample().hash, Sample().peers[0])]
  {
    var t := Sample();
    assert Suits(1, 0, t) && AllSuit(1, 0, [t]);
    AllLengths(1, 0, [t]);
    BlockRead(1, 0, [t], [0], IDLE);
    BlockTurns(1, 0, [t], [0], IDLE);
    OnePair(t);
    assert Process(Packet(1, 0, 0), [0]).tells == [];
  }

  lemma OnePair(t: Torrent)
    requires |t.peers| == 1
    ensures AllPairs([t]) == [Tell(t.hash, t.peers[0])]
  {
    assert [t][1..] == [];
    assert Pairs(t, 0) == [];
    assert Pairs(t, 1) == Pairs(t, 0) + [Tell(t.hash, t.peers[0])];
    assert AllPairs([t]) == Pairs(t, 1) + AllPairs([]);
  }

  /** Without larger torrents both packets are sent, whether they are empty or not. */
  lemma TwoPackets(ts: seq<Torrent>, prefix: byte)
    requires |ts| < 0x1_0000 && Many(ts) == 0
    ensures var ones, twos := Pick(ts, PlanOf(ts), 1), Pick(ts, PlanOf(ts), 2);
            && |ones| == Number(ts, 1) < 0x1_0000 && |twos| == Number(ts, 2) < 0x1_0000
            && Encoding(ts, prefix) == Block(1, prefix, ones) + Block(2, prefix, twos)
            && Sent(ts) == AllPairs(ones) + AllPairs(twos)
  {
    var plan := PlanOf(ts);
    PickLength(ts, plan);
    PickFits(ts, plan, 1);
    PickFits(ts, plan, 2);
    assert Block(2, prefix, Pick(ts, plan, 2)) + [] == Block(2, prefix, Pick(ts, plan, 2));
    assert AllPairs(Pick(ts, plan, 2)) + [] == AllPairs(Pick(ts, plan, 2));
  }

  lemma EmptyBlock(kind: byte, prefix: byte)
    ensures Block(kind, prefix, []) == HeaderBytes(kind, prefix, 0)
  {
  }

  /** With no torrents of one peer, those of two are taken for such. */
  lemma NoOnes(prefix: byte, twos: seq<Torrent>)
    requires AllSuit(2, prefix, twos) && 0 < |twos| < 0x1_0000
    ensures |Process(IDLE, (Block(1, prefix, []) + Block(2, prefix, twos)) + [0]).tells| < |AllPairs(twos)|
  {
    var h, u := HeaderBytes(1, prefix, 0), Block(2, prefix, twos) + [0];
    var s := (Block(1, prefix, []) + Block(2, prefix, twos)) + [0];
    EmptyBlock(1, prefix);
    Cat(h, Block(2, prefix, twos), [0]);
    assert s[..HEADER] == h && s[HEADER..] == u;
    assert Header(s) == Header(h);
    AllLengths(2, prefix, twos);
    assert |u| == 5 + 33 * |twos|;
    EndlessOnes(IDLE, s, prefix);
  }

  /** After an empty packet of type 1, one peer is told of for every 26 bytes. */
  lemma EndlessOnes(p: Packet, s: seq<byte>, prefix: byte)
    requires p.count == 0 && HEADER + MINIMAL <= |s| < SIZE_MAX && Header(s) == Packet(1, prefix, 0)
    ensures 26 * |Process(p, s).tells| <= |s| - HEADER
  {
    var u := s[HEADER..];
    assert |Tells(prefix, u, TAIL, 1)| == 1;
    var t := TurnOf(p, s);
    assert t.size == HEADER + 26 && |t.tells| == 1 && t.packet == Packet(1, prefix, SIZE_MAX);
    OnesBound(t.packet, s[t.size..]);
  }

  /** After an empty packet of type 2, bytes too few for two peers are kept. */
  lemma EmptyTwosTurn(prefix: byte, p: Packet, ext: seq<byte>)
    requires p.count == 0 && |ext| < 33
    ensures Process(p, HeaderBytes(2, prefix, 0) + ext).tells == []
  {
    var h := HeaderBytes(2, prefix, 0);
    var s := h + ext;
    assert s[HEADER..] == ext && Header(s) == Packet(2, prefix, 0);
  }

  /** With no torrents of two peers, what follows is taken for one. */
  lemma NoTwos(prefix: byte, ones: seq<Torrent>, ext: seq<byte>)
    requires AllSuit(1, prefix, ones) && 0 < |ones| < 0x1_0000 && |ext| == 31
    ensures Process(IDLE, (Block(1, prefix, ones) + Block(2, prefix, [])) + ext).tells == AllPairs(ones)
  {
    var h := HeaderBytes(2, prefix, 0);
    EmptyBlock(2, prefix);
    Cat(Block(1, prefix, ones), h, ext);
    BlockTurns(1, prefix, ones, h + ext, IDLE);
    EmptyTwosTurn(prefix, Packet(1, prefix, 0), ext);
  }

  /** With neither, it is taken for a torrent of one peer. */
  lemma NoneAtAll(prefix: byte)
    ensures var o := Process(IDLE, (Block(1, prefix, []) + Block(2, prefix, [])) + Following());
            o.tells != [Tell(Sample().hash, Sample().peers[0])]
  {
    var h, k, ext := HeaderBytes(1, prefix, 0), HeaderBytes(2, prefix, 0), Following();
    var s, u := (h + k) + ext, k + ext;
    SampleDecodes();
    EmptyBlock(1, prefix);
    EmptyBlock(2, prefix);
    Cat(h, k, ext);
    assert s[..HEADER] == h && s[HEADER..] == u;
    assert Header(s) == Header(h);
    var tells := Tells(prefix, u, TAIL, 1);
    assert Tells(prefix, u, TAIL, 0) == [] && |tells| == 1 && tells[0].hash == [prefix] + u[..TAIL];
    assert tells[0].hash[1] == u[0] == 2 && Sample().hash[1] == 255;
    var t := TurnOf(IDLE, s);
    assert t.tells == tells && !t.last;
    assert Process(IDLE, s).tells[0] == tells[0];
  }

  /** Decoding gives back the bucket, whatever follows, exactly if no packet is empty. */
  lemma DecodableIff(ts: seq<Torrent>, prefix: byte)
    requires IsBucket(ts, prefix)
    ensures Decodable(ts, prefix) <==> NoEmptyPacket(ts)
  {
    if NoEmptyPacket(ts) {
      DecodableIf(ts, prefix);
    } else {
      var ext := NotDecodable(ts, prefix);
    }
  }

  lemma NotDecodable(ts: seq<Torrent>, prefix: byte) returns (ext: seq<byte>)
    requires IsBucket(ts, prefix) && !NoEmptyPacket(ts)
    ensures ext != [] && NoneEmpty(IDLE, ext)
    ensures Process(IDLE, Encoding(ts, prefix) + ext).tells != Sent(ts) + Process(IDLE, ext).tells
  {
    var plan := PlanOf(ts);
    var ones, twos := Pick(ts, plan, 1), Pick(ts, plan, 2);
    TwoPackets(ts, prefix);
    PickSuits(ts, plan, 1, prefix);
    PickSuits(ts, plan, 2, prefix);
    if ones == [] && twos != [] {
      ext := [0];
      NoOnes(prefix, twos);
      assert AllPairs(ones) == [];
      assert Process(IDLE, ext).tells == [];
    } else {
      ext := Following();
      SampleDecodes();
      if ones == [] {
        NoneAtAll(prefix);
        assert Sent(ts) == [];
      } else {
        NoTwos(prefix, ones, ext);
        assert twos == [] && AllPairs(twos) == [];
      }
    }
  }
}
