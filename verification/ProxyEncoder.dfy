/**
  The encoder (src/proxy.c, `streamsync_worker`): it works out how much memory three packets may
  take, and then fills them side by side in one block.
 */
module ProxyEncoder {
  import opened ProxyStream
  import opened ProxyCodec
  import opened ProxyBucket

  // ---------------------------------------------------------------------------------------
  // Three regions in one block

  /** s with x written at a place. */
  ghost function Written(s: seq<byte>, at: nat, x: seq<byte>): seq<byte>
    requires at + |x| <= |s|
  {
    s[..at] + x + s[at + |x|..]
  }

  method PutBytes(out: array<byte>, at: nat, x: seq<byte>)
    requires at + |x| <= out.Length
    modifies out
    ensures out[..] == Written(old(out[..]), at, x)
  {
    var i := 0;
    while i < |x|
      invariant 0 <= i <= |x|
      invariant forall k :: 0 <= k < i ==> out[at + k] == x[k]
      invariant forall k :: 0 <= k < out.Length && !(at <= k < at + i) ==> out[k] == old(out[k])
    {
      out[at + i] := x[i];
      i := i + 1;
    }
  }

  /** Where the second and third region start, and how far each is filled. */
  datatype Cursor = Cursor(startB: nat, startC: nat, a: nat, b: nat, c: nat)

  /** The regions hold A, B and C. */
  ghost predicate Laid(s: seq<byte>, p: Cursor, A: seq<byte>, B: seq<byte>, C: seq<byte>) {
    p.a <= p.startB <= p.b <= p.startC <= p.c <= |s| && s[0..p.a] == A && s[p.startB..p.b] == B && s[p.startC..p.c] == C
  }

  lemma WrittenAt(s: seq<byte>, at: nat, x: seq<byte>)
    requires at + |x| <= |s|
    ensures |Written(s, at, x)| == |s|
    ensures forall k :: 0 <= k < |s| ==> Written(s, at, x)[k] == if at <= k < at + |x| then x[k - at] else s[k]
  {
  }

  /** A slice that ends where x begins, or begins behind it, stays; one that ends where x begins grows by x. */
  lemma WrittenSlices(s: seq<byte>, at: nat, x: seq<byte>, i: nat, j: nat)
    requires at + |x| <= |s| && i <= j <= |s|
    ensures var w := Written(s, at, x);
            && |w| == |s|
            && (j <= at || at + |x| <= i ==> w[i..j] == s[i..j])
            && (j == at ==> w[i..j + |x|] == s[i..j] + x)
  {
    WrittenAt(s, at, x);
    var w := Written(s, at, x);
    if j <= at || at + |x| <= i { assert w[i..j] == s[i..j]; }
    if j == at { assert w[i..j + |x|] == s[i..j] + x; }
  }

  lemma LayA(s: seq<byte>, p: Cursor, A: seq<byte>, B: seq<byte>, C: seq<byte>, x: seq<byte>)
    requires Laid(s, p, A, B, C) && p.a + |x| <= p.startB
    ensures Laid(Written(s, p.a, x), p.(a := p.a + |x|), A + x, B, C)
  {
    WrittenSlices(s, p.a, x, 0, p.a);
    WrittenSlices(s, p.a, x, p.startB, p.b);
    WrittenSlices(s, p.a, x, p.startC, p.c);
  }

  lemma LayB(s: seq<byte>, p: Cursor, A: seq<byte>, B: seq<byte>, C: seq<byte>, x: seq<byte>)
    requires Laid(s, p, A, B, C) && p.b + |x| <= p.startC
    ensures Laid(Written(s, p.b, x), p.(b := p.b + |x|), A, B + x, C)
  {
    WrittenSlices(s, p.b, x, 0, p.a);
    WrittenSlices(s, p.b, x, p.startB, p.b);
    WrittenSlices(s, p.b, x, p.startC, p.c);
  }

  lemma LayC(s: seq<byte>, p: Cursor, A: seq<byte>, B: seq<byte>, C: seq<byte>, x: seq<byte>)
    requires Laid(s, p, A, B, C) && p.c + |x| <= |s|
    ensures Laid(Written(s, p.c, x), p.(c := p.c + |x|), A, B, C + x)
  {
    WrittenSlices(s, p.c, x, 0, p.a);
    WrittenSlices(s, p.c, x, p.startB, p.b);
    WrittenSlices(s, p.c, x, p.startC, p.c);
  }

  // ---------------------------------------------------------------------------------------
  // Sizes

  /** What a torrent adds to the memory asked for. */
  function Share(t: Torrent): nat {
    var n := |t.peers|;
    if n == 0 then 0 else if n <= 2 then 20 + PEER * n else 27 + PEER * n
  }

  ghost function Shares(ts: seq<Torrent>): nat {
    if ts == [] then 0 else Shares(ts[..|ts| - 1]) + Share(ts[|ts| - 1])
  }

  lemma BodyFits(kind: byte, prefix: byte, t: Torrent)
    requires Suits(kind, prefix, t) && kind <= 2
    ensures |Body(kind, t)| <= Share(t)
  {
    BodyLength(kind, prefix, t);
    if kind == 0 && |t.peers| <= 2 { assert |Var(|t.peers|)| == 1; }
  }

  lemma {:induction false} BodiesAppend(kind: byte, ts: seq<Torrent>, t: Torrent)
    ensures Bodies(kind, ts + [t]) == Bodies(kind, ts) + Body(kind, t)
  {
    if ts == [] {
      assert ts + [t] == [t] && [t][1..] == [];
      assert Bodies(kind, [t]) == Body(kind, t) + Bodies(kind, []);
    } else {
      assert (ts + [t])[1..] == ts[1..] + [t];
      BodiesAppend(kind, ts[1..], t);
      Cat(Body(kind, ts[0]), Bodies(kind, ts[1..]), Body(kind, t));
    }
  }

  ghost function PickedBytes(ts: seq<Torrent>, plan: Plan, kind: byte): seq<byte> {
    Bodies(kind, Pick(ts, plan, kind))
  }

  lemma PickedLast(ts: seq<Torrent>, plan: Plan, kind: byte)
    requires ts != []
    ensures var init, t := ts[..|ts| - 1], ts[|ts| - 1];
            PickedBytes(ts, plan, kind) == PickedBytes(init, plan, kind) + if Place(plan, t) == kind then Body(kind, t) else []
  {
    var init, t := ts[..|ts| - 1], ts[|ts| - 1];
    if Place(plan, t) == kind {
      BodiesAppend(kind, Pick(init, plan, kind), t);
    } else {
      assert Pick(init, plan, kind) + [] == Pick(init, plan, kind);
      assert PickedBytes(init, plan, kind) + [] == PickedBytes(init, plan, kind);
    }
  }

  /** All torrents together take no more than was asked for them. */
  lemma {:induction false} PicksFit(ts: seq<Torrent>, plan: Plan, prefix: byte)
    requires IsBucket(ts, prefix)
    ensures |PickedBytes(ts, plan, 1)| + |PickedBytes(ts, plan, 2)| + |PickedBytes(ts, plan, 0)| <= Shares(ts)
  {
    if ts != [] {
      var t := ts[|ts| - 1];
      PicksFit(ts[..|ts| - 1], plan, prefix);
      PickedLast(ts, plan, 0);
      PickedLast(ts, plan, 1);
      PickedLast(ts, plan, 2);
      if |t.peers| > 0 { BodyFits(Place(plan, t), prefix, t); }
    }
  }

  /** A part of the bucket takes no more room than all of it. */
  lemma {:induction false} PickedGrows(ts: seq<Torrent>, plan: Plan, kind: byte, i: nat)
    requires i <= |ts|
    ensures |PickedBytes(ts[..i], plan, kind)| <= |PickedBytes(ts, plan, kind)|
    ensures i < |ts| && Place(plan, ts[i]) == kind ==>
              |PickedBytes(ts[..i], plan, kind)| + |Body(kind, ts[i])| <= |PickedBytes(ts, plan, kind)|
    decreases |ts| - i
  {
    if i == |ts| {
      assert ts[..i] == ts;
    } else {
      PickedGrows(ts, plan, kind, i + 1);
      PickedLast(ts[..i + 1], plan, kind);
      assert ts[..i + 1][..i] == ts[..i];
    }
  }

  // ---------------------------------------------------------------------------------------
  // Counting and writing torrents

  datatype Counts = Counts(one: nat, two: nat, more: nat, peers: nat)

  method CountTorrents(ts: seq<Torrent>) returns (c: Counts)
    ensures c.one == Number(ts, 1) && c.two == Number(ts, 2) && c.more == Many(ts)
    ensures 20 * (c.one + c.two) + 27 * c.more + PEER * (c.one + 2 * c.two + c.peers) == Shares(ts)
  {
    c := Counts(0, 0, 0, 0);
    var i := 0;
    while i < |ts|
      invariant 0 <= i <= |ts|
      invariant c.one == Number(ts[..i], 1) && c.two == Number(ts[..i], 2) && c.more == Many(ts[..i])
      invariant 20 * (c.one + c.two) + 27 * c.more + PEER * (c.one + 2 * c.two + c.peers) == Shares(ts[..i])
    {
      var n := |ts[i].peers|;
      if n == 2 {
        c := c.(two := c.two + 1);
      } else if n == 1 {
        c := c.(one := c.one + 1);
      } else if n > 2 {
        c := c.(more := c.more + 1, peers := c.peers + n);
      }
      assert ts[..i + 1][..i] == ts[..i];
      i := i + 1;
    }
    assert ts[..i] == ts;
  }

  /** The number of peers, seven bits at a time. */
  method CountBytes(n: nat) returns (b: seq<byte>)
    requires n > 0
    ensures b == Var(n)
  {
    b := [];
    var left: nat := n;
    while left > 0
      invariant left > 0 ==> b + Var(left) == Var(n)
      invariant left == 0 ==> b == Var(n)
    {
      if left <= 127 {
        b := b + [left];
      } else {
        Cat(b, [128 + left % 128], Var(left / 128));
        b := b + [128 + left % 128];
      }
      left := left / 128;
    }
  }

  lemma {:induction false} FlatAppend(peers: seq<Peer>, p: Peer)
    ensures Flat(peers + [p]) == Flat(peers) + p
  {
    if peers == [] {
      assert peers + [p] == [p] && [p][1..] == [];
      assert Flat([p]) == p + Flat([]);
    } else {
      assert (peers + [p])[1..] == peers[1..] + [p];
      FlatAppend(peers[1..], p);
      Cat(peers[0], Flat(peers[1..]), p);
    }
  }

  method BodyBytes(kind: byte, t: Torrent) returns (b: seq<byte>)
    requires |t.peers| > 0
    ensures b == Body(kind, t)
  {
    b := t.hash[1..];
    if kind == 0 {
      var count := CountBytes(|t.peers|);
      b := b + count;
    }
    ghost var front := b;
    var i := 0;
    while i < |t.peers|
      invariant 0 <= i <= |t.peers| && b == front + Flat(t.peers[..i])
    {
      FlatAppend(t.peers[..i], t.peers[i]);
      assert t.peers[..i] + [t.peers[i]] == t.peers[..i + 1];
      Cat(front, Flat(t.peers[..i]), t.peers[i]);
      b := b + t.peers[i];
      i := i + 1;
    }
    assert t.peers[..i] == t.peers;
    assert front == t.hash[1..] + if kind == 0 then Var(|t.peers|) else [];
    Cat(t.hash[1..], if kind == 0 then Var(|t.peers|) else [], Flat(t.peers));
  }

  // ---------------------------------------------------------------------------------------
  // The bucket

  ghost function Front(present: bool, kind: byte, prefix: byte, n: nat): seq<byte>
    requires n < 0x1_0000
  {
    if present then HeaderBytes(kind, prefix, n) else []
  }

  /** Whether a packet is sent. */
  ghost predicate Present(ts: seq<Torrent>, plan: Plan, kind: byte) {
    if kind == 1 then plan.ones else if kind == 2 then plan.twos else Pick(ts, plan, 0) != []
  }

  /** A region after its header and those of the first i torrents that go into it. */
  ghost function Region(kind: byte, ts: seq<Torrent>, plan: Plan, prefix: byte, i: nat): seq<byte>
    requires i <= |ts| && |Pick(ts, plan, kind)| < 0x1_0000
  {
    Front(Present(ts, plan, kind), kind, prefix, |Pick(ts, plan, kind)|) + PickedBytes(ts[..i], plan, kind)
  }

  ghost predicate FewEnough(ts: seq<Torrent>, plan: Plan) {
    |Pick(ts, plan, 0)| < 0x1_0000 && |Pick(ts, plan, 1)| < 0x1_0000 && |Pick(ts, plan, 2)| < 0x1_0000
  }

  /** The block after the headers and the first i torrents. */
  ghost predicate Filled(s: seq<byte>, p: Cursor, ts: seq<Torrent>, plan: Plan, prefix: byte, i: nat)
    requires i <= |ts| && FewEnough(ts, plan)
  {
    Laid(s, p, Region(1, ts, plan, prefix, i), Region(2, ts, plan, prefix, i), Region(0, ts, plan, prefix, i))
  }

  /** There is room for all of it. */
  ghost predicate Roomy(size: nat, p: Cursor, ts: seq<Torrent>, plan: Plan) {
    && p.startB == (if plan.ones then HEADER else 0) + |PickedBytes(ts, plan, 1)|
    && p.startC == p.startB + (if plan.twos then HEADER else 0) + |PickedBytes(ts, plan, 2)|
    && p.startC + (if Pick(ts, plan, 0) != [] then HEADER else 0) + |PickedBytes(ts, plan, 0)| <= size
  }

  /** A region with a torrent, if it goes there. */
  ghost function Added(X: seq<byte>, kind: byte, plan: Plan, t: Torrent): seq<byte> {
    if Place(plan, t) == kind then X + Body(kind, t) else X
  }

  lemma NextRegion(kind: byte, ts: seq<Torrent>, plan: Plan, prefix: byte, i: nat)
    requires i < |ts| && |Pick(ts, plan, kind)| < 0x1_0000
    ensures Region(kind, ts, plan, prefix, i + 1) == Added(Region(kind, ts, plan, prefix, i), kind, plan, ts[i])
  {
    var front := Front(Present(ts, plan, kind), kind, prefix, |Pick(ts, plan, kind)|);
    PickedLast(ts[..i + 1], plan, kind);
    assert ts[..i + 1][..i] == ts[..i];
    Cat(front, PickedBytes(ts[..i], plan, kind), Body(kind, ts[i]));
    assert PickedBytes(ts[..i], plan, kind) + [] == PickedBytes(ts[..i], plan, kind);
  }

  /** The next torrent fits into its region. */
  lemma RegionFits(kind: byte, ts: seq<Torrent>, plan: Plan, prefix: byte, i: nat)
    requires i < |ts| && |Pick(ts, plan, kind)| < 0x1_0000
    ensures Place(plan, ts[i]) == kind ==>
              |Region(kind, ts, plan, prefix, i)| + |Body(kind, ts[i])| <=
              (if Present(ts, plan, kind) then HEADER else 0) + |PickedBytes(ts, plan, kind)|
  {
    PickedGrows(ts, plan, kind, i);
  }

  /** Writes a torrent at the end of its region. */
  method AddTorrent(out: array<byte>, p: Cursor, t: Torrent, plan: Plan, ghost A: seq<byte>, ghost B: seq<byte>, ghost C: seq<byte>) returns (p': Cursor)
    requires Laid(out[..], p, A, B, C)
    requires (Place(plan, t) == 1 ==> p.a + |Body(1, t)| <= p.startB) && (Place(plan, t) == 2 ==> p.b + |Body(2, t)| <= p.startC)
    requires Place(plan, t) == 0 ==> p.c + |Body(0, t)| <= out.Length
    modifies out
    ensures Laid(out[..], p', Added(A, 1, plan, t), Added(B, 2, plan, t), Added(C, 0, plan, t))
    ensures p'.startB == p.startB && p'.startC == p.startC
  {
    var place := Place(plan, t);
    if place < 0 { return p; }
    var body := BodyBytes(place, t);
    p' := Lay(out, p, place, body, A, B, C);
  }

  method Lay(out: array<byte>, p: Cursor, place: int, x: seq<byte>, ghost A: seq<byte>, ghost B: seq<byte>, ghost C: seq<byte>) returns (p': Cursor)
    requires 0 <= place <= 2 && Laid(out[..], p, A, B, C)
    requires if place == 1 then p.a + |x| <= p.startB else if place == 2 then p.b + |x| <= p.startC else p.c + |x| <= out.Length
    modifies out
    ensures Laid(out[..], p', if place == 1 then A + x else A, if place == 2 then B + x else B, if place == 0 then C + x else C)
    ensures p'.startB == p.startB && p'.startC == p.startC
  {
    if place == 1 {
      LayA(out[..], p, A, B, C, x);
      PutBytes(out, p.a, x);
      p' := p.(a := p.a + |x|);
    } else if place == 2 {
      LayB(out[..], p, A, B, C, x);
      PutBytes(out, p.b, x);
      p' := p.(b := p.b + |x|);
    } else {
      LayC(out[..], p, A, B, C, x);
      PutBytes(out, p.c, x);
      p' := p.(c := p.c + |x|);
    }
  }

  /** The room for packets of their own is what their torrents take. */
  lemma OwnPackets(ts: seq<Torrent>, plan: Plan, prefix: byte)
    requires IsBucket(ts, prefix)
    ensures |PickedBytes(ts, plan, 1)| == if plan.ones then 26 * Number(ts, 1) else 0
    ensures |PickedBytes(ts, plan, 2)| == if plan.twos then 33 * Number(ts, 2) else 0
  {
    PickLength(ts, plan);
    PickSuits(ts, plan, 1, prefix);
    PickSuits(ts, plan, 2, prefix);
    AllLengths(1, prefix, Pick(ts, plan, 1));
    AllLengths(2, prefix, Pick(ts, plan, 2));
  }

  method PutHeaders(out: array<byte>, p: Cursor, plan: Plan, prefix: byte, one: nat, two: nat, more: nat) returns (p': Cursor)
    requires Laid(out[..], p, [], [], []) && one < 0x1_0000 && two < 0x1_0000 && more < 0x1_0000
    requires (plan.ones ==> HEADER <= p.startB) && (plan.twos ==> p.b + HEADER <= p.startC) && (more > 0 ==> p.c + HEADER <= out.Length)
    modifies out
    ensures Laid(out[..], p', Front(plan.ones, 1, prefix, one), Front(plan.twos, 2, prefix, two), Front(more > 0, 0, prefix, more))
    ensures p'.startB == p.startB && p'.startC == p.startC
  {
    ghost var fa, fb := Front(plan.ones, 1, prefix, one), Front(plan.twos, 2, prefix, two);
    p' := LayHeader(out, p, plan.ones, 1, prefix, one, [], [], []);
    p' := LayHeader(out, p', plan.twos, 2, prefix, two, fa, [], []);
    p' := LayHeader(out, p', more > 0, 0, prefix, more, fa, fb, []);
  }

  lemma FirstRegions(ts: seq<Torrent>, plan: Plan, prefix: byte)
    requires FewEnough(ts, plan) && Number(ts, 1) < 0x1_0000 && Number(ts, 2) < 0x1_0000
    ensures Region(1, ts, plan, prefix, 0) == Front(plan.ones, 1, prefix, Number(ts, 1))
    ensures Region(2, ts, plan, prefix, 0) == Front(plan.twos, 2, prefix, Number(ts, 2))
    ensures Region(0, ts, plan, prefix, 0) == Front(|Pick(ts, plan, 0)| > 0, 0, prefix, |Pick(ts, plan, 0)|)
  {
    PickLength(ts, plan);
    FirstRegion(0, ts, plan, prefix);
    FirstRegion(1, ts, plan, prefix);
    FirstRegion(2, ts, plan, prefix);
  }

  lemma FirstRegion(kind: byte, ts: seq<Torrent>, plan: Plan, prefix: byte)
    requires |Pick(ts, plan, kind)| < 0x1_0000
    ensures Region(kind, ts, plan, prefix, 0) == Front(Present(ts, plan, kind), kind, prefix, |Pick(ts, plan, kind)|)
  {
    assert ts[..0] == [] && PickedBytes([], plan, kind) == [];
  }

  /** Writes the header of a region, if it has one. */
  method LayHeader(out: array<byte>, p: Cursor, present: bool, kind: byte, prefix: byte, n: nat,
                   ghost A: seq<byte>, ghost B: seq<byte>, ghost C: seq<byte>) returns (p': Cursor)
    requires kind <= 2 && n < 0x1_0000 && Laid(out[..], p, A, B, C)
    requires if kind == 1 then A == [] else if kind == 2 then B == [] else C == []
    requires present ==> if kind == 1 then HEADER <= p.startB else if kind == 2 then p.b + HEADER <= p.startC else p.c + HEADER <= out.Length
    modifies out
    ensures var x := Front(present, kind, prefix, n);
            Laid(out[..], p', if kind == 1 then x else A, if kind == 2 then x else B, if kind == 0 then x else C)
    ensures p'.startB == p.startB && p'.startC == p.startC
  {
    if !present { return p; }
    var x := HeaderBytes(kind, prefix, n);
    assert [] + x == x;
    p' := Lay(out, p, kind, x, A, B, C);
  }

  /** The first byte of the hashes of a bucket, its ten bits being the first ten of each hash. */
  function PrefixOf(bucket: nat): byte
    requires bucket < 1024
  {
    bucket * 256 / 1024
  }

  function HashBucket(h: Hash): nat {
    var first: int := h[0];
    4 * first + h[1] / 64
  }

  lemma PrefixIsFirst(h: Hash)
    ensures HashBucket(h) < 1024 && PrefixOf(HashBucket(h)) == h[0]
  {
  }

  lemma ThreeParts(s: seq<byte>, p: Cursor)
    requires p.a == p.startB <= p.b == p.startC <= p.c <= |s|
    ensures s[..p.c] == s[0..p.a] + (s[p.startB..p.b] + s[p.startC..p.c])
  {
  }

  lemma PartIsPacket(present: bool, kind: byte, prefix: byte, picked: seq<Torrent>)
    requires |picked| < 0x1_0000 && (!present ==> picked == [])
    ensures Front(present, kind, prefix, |picked|) + Bodies(kind, picked) == if present then Block(kind, prefix, picked) else []
  {
    if !present { assert [] + Bodies(kind, picked) == []; }
  }

  /** The regions, when all is written, are the encoding. */
  lemma AllWritten(s: seq<byte>, p: Cursor, ts: seq<Torrent>, plan: Plan, prefix: byte)
    requires |ts| < 0x1_0000 && FewEnough(ts, plan) && plan == PlanOf(ts)
    requires Filled(s, p, ts, plan, prefix, |ts|) && Roomy(|s|, p, ts, plan)
    ensures p.a <= p.b <= p.c <= |s| && s[..p.c] == Encoding(ts, prefix)
  {
    LastRegion(0, ts, plan, prefix);
    LastRegion(1, ts, plan, prefix);
    LastRegion(2, ts, plan, prefix);
    ThreeParts(s, p);
  }

  lemma LastRegion(kind: byte, ts: seq<Torrent>, plan: Plan, prefix: byte)
    requires kind <= 2 && |Pick(ts, plan, kind)| < 0x1_0000
    ensures Region(kind, ts, plan, prefix, |ts|) == if Present(ts, plan, kind) then Block(kind, prefix, Pick(ts, plan, kind)) else []
    ensures |Region(kind, ts, plan, prefix, |ts|)| == (if Present(ts, plan, kind) then HEADER else 0) + |PickedBytes(ts, plan, kind)|
  {
    assert ts[..|ts|] == ts;
    PickLength(ts, plan);
    PartIsPacket(Present(ts, plan, kind), kind, prefix, Pick(ts, plan, kind));
  }

  /** The encoding of a bucket; nothing for an empty one, or if memory runs out. */
  method EncodeBucket(ts: seq<Torrent>, bucket: nat, memory: bool) returns (r: Option<seq<byte>>)
    requires bucket < 1024 && |ts| < 0x1_0000
    requires forall i :: 0 <= i < |ts| ==> HashBucket(ts[i].hash) == bucket && |ts[i].peers| < 0x1000_0000
    ensures ts == [] ==> r == None
    ensures ts != [] && memory ==> r.Some?
    ensures r.Some? ==> IsBucket(ts, PrefixOf(bucket)) && r.value == Encoding(ts, PrefixOf(bucket))
  {
    if ts == [] { return None; }
    forall i | 0 <= i < |ts| ensures ts[i].hash[0] == PrefixOf(bucket) { PrefixIsFirst(ts[i].hash); }
    var c := CountTorrents(ts);
    var mem := 3 * HEADER + 20 * (c.one + c.two) + 27 * c.more + PEER * (c.one + 2 * c.two + c.peers);
    var fails: bool := *;
    if fails && !memory { return None; }
    var bytes := FillBlock(ts, PrefixOf(bucket), c, mem);
    return Some(bytes);
  }

  /** Which packets there are, and where they start. */
  method Arrange(ts: seq<Torrent>, prefix: byte, c: Counts, mem: nat) returns (plan: Plan, p: Cursor, more: nat)
    requires IsBucket(ts, prefix) && c.one == Number(ts, 1) && c.two == Number(ts, 2) && c.more == Many(ts)
    requires mem == 3 * HEADER + Shares(ts)
    ensures plan == PlanOf(ts) && more == |Pick(ts, plan, 0)| && Roomy(mem, p, ts, plan)
    ensures p == Cursor(p.startB, p.startC, 0, p.startB, p.startC)
  {
    var ones := c.one > 4 || c.more == 0;
    var startB := if ones then HEADER + c.one * 26 else 0;
    more := c.more + if ones then 0 else c.one;
    var twos := c.two > 4 || more == 0;
    var startC := startB + if twos then HEADER + c.two * 33 else 0;
    more := more + if twos then 0 else c.two;
    plan := Plan(ones, twos);
    p := Cursor(startB, startC, 0, startB, startC);
    PickLength(ts, plan);
    OwnPackets(ts, plan, prefix);
    PicksFit(ts, plan, prefix);
  }

  method FillBlock(ts: seq<Torrent>, prefix: byte, c: Counts, mem: nat) returns (bytes: seq<byte>)
    requires IsBucket(ts, prefix) && c.one == Number(ts, 1) && c.two == Number(ts, 2) && c.more == Many(ts)
    requires mem == 3 * HEADER + Shares(ts)
    ensures bytes == Encoding(ts, prefix)
  {
    var out := new byte[mem];
    var plan, p, more := Arrange(ts, prefix, c, mem);
    PickLength(ts, plan);
    PickFits(ts, plan, 0);
    PickFits(ts, plan, 1);
    PickFits(ts, plan, 2);
    NumberFits(ts, 1);
    NumberFits(ts, 2);
    FirstRegions(ts, plan, prefix);
    p := PutHeaders(out, p, plan, prefix, c.one, c.two, more);
    p := PutTorrents(out, p, ts, plan, prefix);
    AllWritten(out[..], p, ts, plan, prefix);
    if p.b > p.c { p := p.(c := p.b); }
    if p.a > p.c { p := p.(c := p.a); }
    bytes := out[..p.c];
  }

  lemma {:induction false} NumberFits(ts: seq<Torrent>, k: nat)
    ensures Number(ts, k) <= |ts|
  {
    if ts != [] { NumberFits(ts[..|ts| - 1], k); }
  }

  method PutTorrents(out: array<byte>, from: Cursor, ts: seq<Torrent>, plan: Plan, prefix: byte) returns (p: Cursor)
    requires FewEnough(ts, plan) && Filled(out[..], from, ts, plan, prefix, 0) && Roomy(out.Length, from, ts, plan)
    modifies out
    ensures Filled(out[..], p, ts, plan, prefix, |ts|) && p.startB == from.startB && p.startC == from.startC
  {
    p := from;
    ghost var r := RegionsAt(ts, plan, prefix, 0);
    var i := 0;
    while i < |ts|
      invariant 0 <= i <= |ts| && Laid(out[..], p, r.A, r.B, r.C) && p.startB == from.startB && p.startC == from.startC
      invariant r == RegionsAt(ts, plan, prefix, i)
    {
      NextFits(ts, plan, prefix, i, p, out.Length, r);
      p := AddTorrent(out, p, ts[i], plan, r.A, r.B, r.C);
      r := NextRegions(ts, plan, prefix, i, r);
      i := i + 1;
    }
  }

  datatype Regions = Regions(A: seq<byte>, B: seq<byte>, C: seq<byte>)

  ghost function RegionsAt(ts: seq<Torrent>, plan: Plan, prefix: byte, i: nat): Regions
    requires i <= |ts| && FewEnough(ts, plan)
  {
    Regions(Region(1, ts, plan, prefix, i), Region(2, ts, plan, prefix, i), Region(0, ts, plan, prefix, i))
  }

  lemma NextRegions(ts: seq<Torrent>, plan: Plan, prefix: byte, i: nat, r: Regions) returns (r': Regions)
    requires i < |ts| && FewEnough(ts, plan) && r == RegionsAt(ts, plan, prefix, i)
    ensures r' == Regions(Added(r.A, 1, plan, ts[i]), Added(r.B, 2, plan, ts[i]), Added(r.C, 0, plan, ts[i]))
    ensures r' == RegionsAt(ts, plan, prefix, i + 1)
  {
    NextRegion(0, ts, plan, prefix, i);
    NextRegion(1, ts, plan, prefix, i);
    NextRegion(2, ts, plan, prefix, i);
    r' := RegionsAt(ts, plan, prefix, i + 1);
  }

  /** There is room for the next torrent. */
  lemma NextFits(ts: seq<Torrent>, plan: Plan, prefix: byte, i: nat, p: Cursor, size: nat, r: Regions)
    requires i < |ts| && FewEnough(ts, plan) && Roomy(size, p, ts, plan) && r == RegionsAt(ts, plan, prefix, i)
    requires p.a == |r.A| && p.b == p.startB + |r.B| && p.c == p.startC + |r.C|
    ensures var t := ts[i];
            && (Place(plan, t) == 1 ==> p.a + |Body(1, t)| <= p.startB)
            && (Place(plan, t) == 2 ==> p.b + |Body(2, t)| <= p.startC)
            && (Place(plan, t) == 0 ==> p.c + |Body(0, t)| <= size)
  {
    RegionFits(0, ts, plan, prefix, i);
    RegionFits(1, ts, plan, prefix, i);
    RegionFits(2, ts, plan, prefix, i);
  }
}
