/** The encoding of a whole bucket (src/proxy.c, `streamsync_worker`) and when it can be decoded. */
module ProxyBucket {
  import opened ProxyStream
  import opened ProxyDecoder
  import opened ProxyCodec

  // ---------------------------------------------------------------------------------------
  // The three packets

  /** How many torrents have k peers. */
  function Number(ts: seq<Torrent>, k: nat): nat {
    if ts == [] then 0 else Number(ts[..|ts| - 1], k) + if |ts[|ts| - 1].peers| == k then 1 else 0
  }

  /** How many torrents have more than two peers. */
  function Many(ts: seq<Torrent>): nat {
    if ts == [] then 0 else Many(ts[..|ts| - 1]) + if |ts[|ts| - 1].peers| > 2 then 1 else 0
  }

  /** Whether torrents with one peer, and those with two, get a packet of their own. */
  datatype Plan = Plan(ones: bool, twos: bool)

  function PlanOf(ts: seq<Torrent>): Plan {
    var ones := Number(ts, 1) > 4 || Many(ts) == 0;
    var rest := Many(ts) + if ones then 0 else Number(ts, 1);
    Plan(ones, Number(ts, 2) > 4 || rest == 0)
  }

  /** The packet a torrent goes into, by its type; -1 for none. */
  function Place(plan: Plan, t: Torrent): int {
    if |t.peers| == 0 then -1
    else if |t.peers| == 1 && plan.ones then 1
    else if |t.peers| == 2 && plan.twos then 2
    else 0
  }

  function Pick(ts: seq<Torrent>, plan: Plan, place: int): seq<Torrent> {
    if ts == [] then []
    else
      var t := ts[|ts| - 1];
      Pick(ts[..|ts| - 1], plan, place) + if Place(plan, t) == place then [t] else []
  }

  lemma {:induction false} PickLength(ts: seq<Torrent>, plan: Plan)
    ensures |Pick(ts, plan, 1)| == if plan.ones then Number(ts, 1) else 0
    ensures |Pick(ts, plan, 2)| == if plan.twos then Number(ts, 2) else 0
    ensures |Pick(ts, plan, 0)| == Many(ts) + (if plan.ones then 0 else Number(ts, 1)) + if plan.twos then 0 else Number(ts, 2)
  {
    if ts != [] { PickLength(ts[..|ts| - 1], plan); }
  }

  lemma {:induction false} PickFits(ts: seq<Torrent>, plan: Plan, place: int)
    ensures |Pick(ts, plan, place)| <= |ts|
  {
    if ts != [] { PickFits(ts[..|ts| - 1], plan, place); }
  }

  /** Torrents that can be sent with a prefix. */
  ghost predicate IsBucket(ts: seq<Torrent>, prefix: byte) {
    |ts| < 0x1_0000 && forall i :: 0 <= i < |ts| ==> ts[i].hash[0] == prefix && |ts[i].peers| < 0x1000_0000
  }

  function Encoding(ts: seq<Torrent>, prefix: byte): seq<byte>
    requires |ts| < 0x1_0000
  {
    var plan := PlanOf(ts);
    PickFits(ts, plan, 0);
    PickFits(ts, plan, 1);
    PickFits(ts, plan, 2);
    (if plan.ones then Block(1, prefix, Pick(ts, plan, 1)) else []) +
    ((if plan.twos then Block(2, prefix, Pick(ts, plan, 2)) else []) +
     (if Pick(ts, plan, 0) != [] then Block(0, prefix, Pick(ts, plan, 0)) else []))
  }

  /** All pairs of the bucket, in the order in which they are sent. */
  function Sent(ts: seq<Torrent>): seq<Tell> {
    var plan := PlanOf(ts);
    AllPairs(Pick(ts, plan, 1)) + (AllPairs(Pick(ts, plan, 2)) + AllPairs(Pick(ts, plan, 0)))
  }

  /** No packet is empty. */
  predicate NoEmptyPacket(ts: seq<Torrent>) {
    Many(ts) > 0 || (Number(ts, 1) > 0 && Number(ts, 2) > 0)
  }

  // ---------------------------------------------------------------------------------------
  // Nothing is left out and nothing added

  lemma {:induction false} PairsAppend(ts: seq<Torrent>, t: Torrent)
    ensures AllPairs(ts + [t]) == AllPairs(ts) + Pairs(t, |t.peers|)
  {
    if ts == [] {
      assert ts + [t] == [t] && [t][1..] == [];
      assert AllPairs([t]) == Pairs(t, |t.peers|) + AllPairs([]);
    } else {
      assert (ts + [t])[1..] == ts[1..] + [t];
      PairsAppend(ts[1..], t);
      Cat(Pairs(ts[0], |ts[0].peers|), AllPairs(ts[1..]), Pairs(t, |t.peers|));
    }
  }

  ghost function Bag(ts: seq<Torrent>, plan: Plan, place: int): multiset<Tell> {
    multiset(AllPairs(Pick(ts, plan, place)))
  }

  lemma BagLast(ts: seq<Torrent>, plan: Plan, place: int)
    requires ts != []
    ensures var init, t := ts[..|ts| - 1], ts[|ts| - 1];
            Bag(ts, plan, place) == Bag(init, plan, place) + if Place(plan, t) == place then multiset(Pairs(t, |t.peers|)) else multiset{}
  {
    var init, t := ts[..|ts| - 1], ts[|ts| - 1];
    if Place(plan, t) == place {
      PairsAppend(Pick(init, plan, place), t);
    } else {
      assert Pick(init, plan, place) + [] == Pick(init, plan, place);
    }
  }

  lemma Regroup(a: multiset<Tell>, b: multiset<Tell>, c: multiset<Tell>, x: multiset<Tell>)
    ensures (a + x) + b + c == (a + b + c) + x && a + (b + x) + c == (a + b + c) + x && a + b + (c + x) == (a + b + c) + x
    ensures a + multiset{} == a && b + multiset{} == b && c + multiset{} == c
  {
  }

  lemma BagAppend(init: seq<Torrent>, t: Torrent)
    ensures multiset(AllPairs(init + [t])) == multiset(AllPairs(init)) + multiset(Pairs(t, |t.peers|))
  {
    PairsAppend(init, t);
    BagCat(AllPairs(init), Pairs(t, |t.peers|));
  }

  lemma SplitLast(ts: seq<Torrent>)
    requires ts != []
    ensures ts == ts[..|ts| - 1] + [ts[|ts| - 1]]
  {
  }

  lemma BagOfAll(ts: seq<Torrent>)
    requires ts != []
    ensures var init, t := ts[..|ts| - 1], ts[|ts| - 1];
            multiset(AllPairs(ts)) == multiset(AllPairs(init)) + multiset(Pairs(t, |t.peers|))
  {
    SplitLast(ts);
    BagAppend(ts[..|ts| - 1], ts[|ts| - 1]);
  }

  lemma BagCat(a: seq<Tell>, b: seq<Tell>)
    ensures multiset(a + b) == multiset(a) + multiset(b)
  {
  }

  /** The packets together hold each pair of the bucket as often as the bucket does. */
  lemma {:induction false} PickKeepsPairs(ts: seq<Torrent>, plan: Plan)
    ensures Bag(ts, plan, 1) + Bag(ts, plan, 2) + Bag(ts, plan, 0) == multiset(AllPairs(ts))
  {
    if ts != [] {
      var init, t := ts[..|ts| - 1], ts[|ts| - 1];
      PickKeepsPairs(init, plan);
      BagLast(ts, plan, 0);
      BagLast(ts, plan, 1);
      BagLast(ts, plan, 2);
      BagOfAll(ts);
      var x := multiset(Pairs(t, |t.peers|));
      Regroup(Bag(init, plan, 1), Bag(init, plan, 2), Bag(init, plan, 0), x);
      if |t.peers| == 0 {
        assert x == multiset{};
        assert multiset(AllPairs(init)) + multiset{} == multiset(AllPairs(init));
      }
    }
  }

  lemma SentIsAll(ts: seq<Torrent>)
    ensures multiset(Sent(ts)) == multiset(AllPairs(ts))
  {
    PickKeepsPairs(ts, PlanOf(ts));
  }

  // ---------------------------------------------------------------------------------------
  // Decoding

  lemma {:induction false} PickSuits(ts: seq<Torrent>, plan: Plan, place: byte, prefix: byte)
    requires IsBucket(ts, prefix) && place <= 2
    ensures AllSuit(place, prefix, Pick(ts, plan, place))
  {
    if ts != [] { PickSuits(ts[..|ts| - 1], plan, place, prefix); }
  }

  /** A packet unless it would be empty. */
  function Packed(kind: byte, prefix: byte, ts: seq<Torrent>): seq<byte>
    requires |ts| < 0x1_0000
  {
    if ts == [] then [] else Block(kind, prefix, ts)
  }

  /** Without empty packets, a packet is sent exactly if there is something to send in it. */
  lemma PlanIsPacked(ts: seq<Torrent>, prefix: byte)
    requires |ts| < 0x1_0000 && NoEmptyPacket(ts)
    ensures var plan := PlanOf(ts);
            && |Pick(ts, plan, 0)| < 0x1_0000 && |Pick(ts, plan, 1)| < 0x1_0000 && |Pick(ts, plan, 2)| < 0x1_0000
            && Encoding(ts, prefix) == Packed(1, prefix, Pick(ts, plan, 1)) + (Packed(2, prefix, Pick(ts, plan, 2)) + Packed(0, prefix, Pick(ts, plan, 0)))
  {
    var plan := PlanOf(ts);
    PickLength(ts, plan);
    PickFits(ts, plan, 0);
    PickFits(ts, plan, 1);
    PickFits(ts, plan, 2);
  }

  /** The same peers told, the same bytes left, and the same about empty packets. */
  ghost predicate Gives(p: Packet, s: seq<byte>, tells: seq<Tell>, rest: seq<byte>) {
    && Run(p, s).tells == tells + Run(IDLE, rest).tells && Run(p, s).rest == Run(IDLE, rest).rest
    && NoneEmpty(p, s) == NoneEmpty(IDLE, rest)
  }

  lemma PackedRead(kind: byte, prefix: byte, ts: seq<Torrent>, rest: seq<byte>)
    requires AllSuit(kind, prefix, ts) && |ts| < 0x1_0000 && rest != []
    ensures Gives(IDLE, Packed(kind, prefix, ts) + rest, AllPairs(ts), rest)
  {
    if ts == [] {
      assert Packed(kind, prefix, ts) + rest == rest && [] + Run(IDLE, rest).tells == Run(IDLE, rest).tells;
    } else {
      BlockRead(kind, prefix, ts, rest, IDLE);
      BetweenPackets(Packet(kind, prefix, 0), IDLE, rest);
    }
  }

  lemma GivesCat(s: seq<byte>, a: seq<Tell>, t: seq<byte>, b: seq<Tell>, rest: seq<byte>)
    requires Gives(IDLE, s, a, t) && Gives(IDLE, t, b, rest)
    ensures Gives(IDLE, s, a + b, rest)
  {
    Cat(a, b, Run(IDLE, rest).tells);
  }

  /** The encoding of a bucket, with anything after it, decodes to the pairs of the bucket and then what comes after. */
  lemma DecodeEncode(ts: seq<Torrent>, prefix: byte, ext: seq<byte>)
    requires IsBucket(ts, prefix) && NoEmptyPacket(ts) && ext != []
    ensures Gives(IDLE, Encoding(ts, prefix) + ext, Sent(ts), ext)
  {
    var plan := PlanOf(ts);
    PlanIsPacked(ts, prefix);
    var ones, twos, more := Pick(ts, plan, 1), Pick(ts, plan, 2), Pick(ts, plan, 0);
    PickSuits(ts, plan, 1, prefix);
    PickSuits(ts, plan, 2, prefix);
    PickSuits(ts, plan, 0, prefix);
    var a, b, c := Packed(1, prefix, ones), Packed(2, prefix, twos), Packed(0, prefix, more);
    PackedRead(0, prefix, more, ext);
    PackedRead(2, prefix, twos, c + ext);
    PackedRead(1, prefix, ones, b + (c + ext));
    GivesCat(b + (c + ext), AllPairs(twos), c + ext, AllPairs(more), ext);
    GivesCat(a + (b + (c + ext)), AllPairs(ones), b + (c + ext), AllPairs(twos) + AllPairs(more), ext);
    Cat(a, b + c, ext);
    Cat(b, c, ext);
  }
}
