/**
  The peers of a reply (src/trackerlogic.c, `return_peers_all`, `return_peers_selection`). The
  reply buffer is an array of records: one slot holds the six bytes of ip and port, as a key.
 */
module PeerSelection {
  import opened Arithmetic
  import opened PeerTheory
  import opened PeerBuckets
  import opened PeerVector
  import opened PeerList

  // ---------------------------------------------------------------------------------------
  // Filling a reply from both ends

  function Leechers(C: seq<Peer>): seq<nat> {
    if C == [] then []
    else
      var p := C[|C| - 1];
      Leechers(C[..|C| - 1]) + if p.flags.seeding then [] else [p.key]
  }

  function SeedersBackwards(C: seq<Peer>): seq<nat> {
    if C == [] then []
    else
      var p := C[|C| - 1];
      (if p.flags.seeding then [p.key] else []) + SeedersBackwards(C[..|C| - 1])
  }

  lemma {:induction false} ReplyLength(C: seq<Peer>)
    ensures |Leechers(C)| + |SeedersBackwards(C)| == |C|
  {
    if C != [] { ReplyLength(C[..|C| - 1]); }
  }

  /** The first front slots and all from back on hold the peers C. */
  ghost predicate Filled(slots: seq<nat>, front: nat, back: nat, C: seq<Peer>) {
    front <= back <= |slots| && slots[..front] == Leechers(C) && slots[back..] == SeedersBackwards(C)
  }

  lemma FilledStep(slots: seq<nat>, front: nat, back: nat, C: seq<Peer>, p: Peer)
    requires Filled(slots, front, back, C) && front < back
    ensures if p.flags.seeding then Filled(slots[back - 1 := p.key], front, back - 1, C + [p])
            else Filled(slots[front := p.key], front + 1, back, C + [p])
  {
    assert (C + [p])[..|C|] == C;
  }

  method PutPeer(reply: array<nat>, front: nat, back: nat, p: Peer, ghost C: seq<Peer>) returns (f: nat, b: nat)
    requires Filled(reply[..], front, back, C) && front < back
    modifies reply
    ensures Filled(reply[..], f, b, C + [p]) && b - f == back - front - 1
  {
    FilledStep(reply[..], front, back, C, p);
    f, b := front, back;
    if p.flags.seeding {
      b := b - 1;
      reply[b] := p.key;
    } else {
      reply[f] := p.key;
      f := f + 1;
    }
  }

  lemma FullReply(slots: seq<nat>, m: nat, C: seq<Peer>)
    requires Filled(slots, m, m, C)
    ensures slots == Leechers(C) + SeedersBackwards(C)
  {
    assert slots == slots[..m] + slots[m..];
  }

  /** Puts the peers of one vector. */
  method PutPeers(reply: array<nat>, front: nat, back: nat, peers: seq<Peer>, ghost C: seq<Peer>) returns (f: nat, b: nat)
    requires Filled(reply[..], front, back, C) && |peers| <= back - front
    modifies reply
    ensures Filled(reply[..], f, b, C + peers) && b - f == back - front - |peers|
  {
    f, b := front, back;
    ghost var put := C;
    var i := 0;
    while i < |peers|
      invariant 0 <= i <= |peers| && put == C + peers[..i]
      invariant Filled(reply[..], f, b, put) && b - f == back - front - i
    {
      f, b := PutPeer(reply, f, b, peers[i], put);
      put := put + [peers[i]];
      i := i + 1;
    }
    assert put == C + peers;
  }

  /** All peers: leechers in order from the front, seeders from the back. */
  method ReturnPeersAll(vs: seq<OtVector>, ghost B: Buckets, count: nat) returns (reply: array<nat>)
    requires Holds(vs, B) && count == |Flat(B)|
    ensures fresh(reply) && reply[..] == Leechers(Flat(B)) + SeedersBackwards(Flat(B))
  {
    reply := new nat[count];
    var front, back := 0, count;
    var bucket := 0;
    while bucket < |vs|
      invariant 0 <= bucket <= |vs|
      invariant Filled(reply[..], front, back, Flat(B[..bucket])) && back - front == count - |Flat(B[..bucket])|
    {
      FlatStep(B, bucket);
      PrefixFits(B, bucket + 1);
      front, back := PutPeers(reply, front, back, vs[bucket].data, Flat(B[..bucket]));
      bucket := bucket + 1;
    }
    assert B[..bucket] == B;
    FullReply(reply[..], front, Flat(B));
  }

  lemma {:induction false} PrefixFits(B: Buckets, n: nat)
    requires n <= |B|
    ensures |Flat(B[..n])| <= |Flat(B)|
    decreases |B| - n
  {
    if n == |B| {
      assert B[..n] == B;
    } else {
      FlatStep(B, n);
      PrefixFits(B, n + 1);
    }
  }

  // ---------------------------------------------------------------------------------------
  // Fixed-point strides

  const MAXPREC: nat := 0x2000_0000

  function Pow2(n: nat): nat {
    if n == 0 then 1 else 2 * Pow2(n - 1)
  }

  lemma {:induction false} Pow2Positive(n: nat)
    ensures Pow2(n) > 0
  {
    if n > 0 { Pow2Positive(n - 1); }
  }

  function ShiftRight(x: nat, shift: nat): nat {
    Pow2Positive(shift);
    Div(x, Pow2(shift))
  }

  /** Where a rounds lead, in whole peers. */
  function Mark(a: nat, step: nat, shift: nat): nat {
    ShiftRight(a * step, shift)
  }

  /** The stride between rounds a + 1 and a. */
  function Stride(a: nat, step: nat, shift: nat): int {
    Mark(a + 1, step, shift) - Mark(a, step, shift)
  }

  /** Scaled up so that bit 29 is set. */
  ghost predicate Scaled(count: nat, scaled: nat, shift: nat) {
    0x2000_0000 <= scaled < 0x4000_0000 && scaled == count * Pow2(shift)
  }

  method StepOf(scaled: nat, amount: nat) returns (step: nat)
    requires amount > 0
    ensures step == Div(scaled, amount)
  {
    DivIsQuotient(scaled, amount);
    step := scaled / amount;
  }

  /** With fewer rounds than peers no stride is empty. */
  lemma StridePositive(count: nat, amount: nat, scaled: nat, shift: nat, a: nat)
    requires 0 < amount < count && Scaled(count, scaled, shift)
    ensures Stride(a, Div(scaled, amount), shift) > 0
  {
    var u, step := Pow2(shift), Div(scaled, amount);
    Pow2Positive(shift);
    StepAtLeast(count, amount, u);
    assert (a + 1) * step == a * step + step;
    DivMonotone(a * step + u, a * step + step, u);
  }

  lemma StepAtLeast(count: nat, amount: nat, u: nat)
    requires 0 < amount < count
    ensures Div(count * u, amount) >= u
  {
    assert amount * u <= count * u;
    DivMonotone(u * amount, count * u, amount);
    DivExact(u, amount);
  }

  /** All strides together stay within one turn. */
  lemma StridesFit(count: nat, amount: nat, scaled: nat, shift: nat)
    requires amount > 0 && Scaled(count, scaled, shift)
    ensures Mark(amount, Div(scaled, amount), shift) <= count
  {
    Pow2Positive(shift);
    DivMod(scaled, amount);
    DivMonotone(amount * Div(scaled, amount), scaled, Pow2(shift));
    DivExact(count, Pow2(shift));
  }

  method Scale(count: nat) returns (scaled: nat, shift: nat)
    requires 0 < count < 2 * MAXPREC
    ensures Scaled(count, scaled, shift)
  {
    scaled, shift := count, 0;
    while scaled / MAXPREC % 2 == 0
      invariant 0 < scaled < 2 * MAXPREC && scaled == count * Pow2(shift)
      decreases MAXPREC - scaled
    {
      assert count * Pow2(shift + 1) == 2 * (count * Pow2(shift));
      scaled, shift := scaled * 2, shift + 1;
    }
  }

  // ---------------------------------------------------------------------------------------
  // Positions on the ring of all peers

  /** Where a position less than two turns away ends up. */
  ghost function Wrap(at: nat, count: nat): nat {
    if at < count then at else at - count
  }

  /** The number of peers before bucket i. */
  ghost function Before(B: Buckets, i: nat): nat
    requires i <= |B|
  {
    |Flat(B[..i])|
  }

  /** An offset into bucket i stands for a position, less a turn or not. */
  ghost predicate Stands(B: Buckets, i: nat, offset: nat, at: nat) {
    i < |B| && (Before(B, i) + offset == at || Before(B, i) + offset == at - |Flat(B)|)
  }

  lemma NextBucket(B: Buckets, i: nat, offset: nat, at: nat)
    requires Stands(B, i, offset, at) && offset >= |B[i]| && at < 2 * |Flat(B)|
    ensures var j := if i + 1 < |B| then i + 1 else 0; Stands(B, j, offset - |B[i]|, at)
  {
    FlatStep(B, i);
    if i + 1 == |B| { assert B[..i + 1] == B; }
  }

  lemma {:induction false} FlatAt(B: Buckets, n: nat, i: nat, offset: nat)
    requires i < n <= |B| && offset < |B[i]|
    ensures Before(B, i) + offset < Before(B, n) && Flat(B[..n])[Before(B, i) + offset] == B[i][offset]
  {
    FlatStep(B, n - 1);
    if i < n - 1 { FlatAt(B, n - 1, i, offset); }
  }

  lemma {:induction false} SomeBucket(B: Buckets) returns (e: nat)
    requires |Flat(B)| > 0
    ensures e < |B| && |B[e]| > 0
  {
    e := |B| - 1;
    if |B[e]| == 0 { e := SomeBucket(B[..e]); }
  }

  /** Steps over whole buckets until the offset falls into one. */
  method Seek(vs: seq<OtVector>, ghost B: Buckets, from: nat, offset: nat, ghost at: nat) returns (i: nat, o: nat)
    requires Holds(vs, B) && Stands(B, from, offset, at) && at < 2 * |Flat(B)|
    ensures i < |vs| && o < |vs[i].data| && Stands(B, i, o, at)
    ensures Wrap(at, |Flat(B)|) < |Flat(B)| && Flat(B)[Wrap(at, |Flat(B)|)] == vs[i].data[o]
  {
    ghost var e := SomeBucket(B);
    i, o := from, offset;
    while o >= |vs[i].data|
      invariant i < |vs| && Stands(B, i, o, at)
      decreases o, if i <= e then e - i else e - i + |vs|
    {
      NextBucket(B, i, o, at);
      o := o - |vs[i].data|;
      i := if i + 1 < |vs| then i + 1 else 0;
    }
    FlatAt(B, |B|, i, o);
    assert B[..|B|] == B;
  }

  // ---------------------------------------------------------------------------------------
  // A selection

  /** Ascending positions within one turn of a start. */
  ghost predicate OneTurn(P: seq<nat>, start: nat, count: nat) {
    && (forall i :: 0 <= i < |P| ==> start < P[i] <= start + count)
    && forall i, j :: 0 <= i < j < |P| ==> P[i] < P[j]
  }

  /** C lists the peers F at different places. */
  ghost predicate Selection(F: seq<Peer>, C: seq<Peer>, at: seq<nat>) {
    && |at| == |C| && (forall i :: 0 <= i < |C| ==> at[i] < |F| && C[i] == F[at[i]])
    && forall i, j :: 0 <= i < j < |at| ==> at[i] != at[j]
  }

  /** The peers found at positions P. */
  ghost predicate Picked(F: seq<Peer>, P: seq<nat>, C: seq<Peer>) {
    |P| == |C| && forall i :: 0 <= i < |C| ==> Wrap(P[i], |F|) < |F| && C[i] == F[Wrap(P[i], |F|)]
  }

  /** A walk over the ring: positions P and the peers C chosen there, from start to here. */
  datatype Walk = Walk(P: seq<nat>, C: seq<Peer>, start: nat, here: nat)

  ghost predicate Chosen(F: seq<Peer>, w: Walk) {
    && OneTurn(w.P, w.start, |F|) && Picked(F, w.P, w.C)
    && w.start <= w.here && forall i :: 0 <= i < |w.P| ==> w.P[i] <= w.here
  }

  lemma ChosenStep(F: seq<Peer>, w: Walk, next: nat, p: Peer)
    requires Chosen(F, w) && w.here < next <= w.start + |F|
    requires Wrap(next, |F|) < |F| && F[Wrap(next, |F|)] == p
    ensures Chosen(F, Walk(w.P + [next], w.C + [p], w.start, next))
  {
  }

  lemma TurnSelects(F: seq<Peer>, P: seq<nat>, C: seq<Peer>, start: nat) returns (at: seq<nat>)
    requires start < |F| && OneTurn(P, start, |F|) && Picked(F, P, C)
    ensures Selection(F, C, at)
  {
    at := seq(|P|, i requires 0 <= i < |P| => Wrap(P[i], |F|));
  }

  /** Where a selection stands: the peers chosen so far, and the place in the buckets. */
  datatype Cursor = Cursor(index: nat, offset: nat, front: nat, back: nat)

  ghost predicate Going(B: Buckets, slots: seq<nat>, c: Cursor, w: Walk) {
    && Chosen(Flat(B), w)
    && Stands(B, c.index, c.offset, w.here)
    && Filled(slots, c.front, c.back, w.C)
  }

  /** Moves on by a stride and puts the peer found into the reply. */
  method PickNext(vs: seq<OtVector>, ghost B: Buckets, reply: array<nat>, c: Cursor, stride: nat, ghost w: Walk)
    returns (c': Cursor, ghost w': Walk)
    requires Holds(vs, B) && Going(B, reply[..], c, w) && c.front < c.back
    requires w.start < |Flat(B)| && stride > 0 && w.here + stride <= w.start + |Flat(B)|
    modifies reply
    ensures Going(B, reply[..], c', w') && c'.back - c'.front == c.back - c.front - 1
    ensures w'.here == w.here + stride && |w'.C| == |w.C| + 1 && w'.start == w.start
  {
    ghost var next := w.here + stride;
    var index, offset := Seek(vs, B, c.index, c.offset + stride, next);
    var p := vs[index].data[offset];
    ChosenStep(Flat(B), w, next, p);
    var front, back := PutPeer(reply, c.front, c.back, p, w.C);
    c' := Cursor(index, offset, front, back);
    w' := Walk(w.P + [next], w.C + [p], w.start, next);
  }

  /** Some peers, fewer than there are; no peer is chosen twice, whatever random() says. */
  method ReturnPeersSelection(vs: seq<OtVector>, ghost B: Buckets, count: nat, amount: nat)
    returns (reply: array<nat>, ghost C: seq<Peer>, ghost at: seq<nat>)
    requires Holds(vs, B) && count == |Flat(B)| < 2 * MAXPREC && 0 < amount < count
    ensures fresh(reply) && Selection(Flat(B), C, at) && |C| == amount
    ensures reply[..] == Leechers(C) + SeedersBackwards(C)
  {
    var scaled, shift := Scale(count);
    var step := StepOf(scaled, amount);
    var start: nat :| start < count;
    StridesFit(count, amount, scaled, shift);

    reply := new nat[amount];
    var c := Cursor(0, start, 0, amount);
    ghost var w := Walk([], [], start, start);
    var left := amount;
    while left > 0
      invariant left <= amount && w.start == start
      invariant w.here <= start + Mark(amount, step, shift) - Mark(left, step, shift)
      invariant Going(B, reply[..], c, w) && |w.C| == amount - left && c.back - c.front == left
    {
      left := left - 1;
      StridePositive(count, amount, scaled, shift, left);
      var r: nat :| r < Stride(left, step, shift);
      c, w := PickNext(vs, B, reply, c, 1 + r, w);
    }
    C := w.C;
    FullReply(reply[..], c.front, C);
    at := TurnSelects(Flat(B), w.P, C, start);
  }

  // ---------------------------------------------------------------------------------------
  // What a reply lists

  ghost predicate Distinct(s: seq<nat>) {
    forall i, j :: 0 <= i < j < |s| ==> s[i] != s[j]
  }

  ghost predicate Lists(C: seq<Peer>, k: nat, seeding: bool) {
    exists p: Peer :: p in C && p.key == k && p.flags.seeding == seeding
  }

  lemma ListsLast(C: seq<Peer>, k: nat, seeding: bool)
    requires C != []
    ensures var p := C[|C| - 1];
            Lists(C, k, seeding) <==> Lists(C[..|C| - 1], k, seeding) || (p.key == k && p.flags.seeding == seeding)
  {
    assert C == C[..|C| - 1] + [C[|C| - 1]];
    assert C[|C| - 1] in C;
  }

  lemma {:induction false} ReplyMembers(C: seq<Peer>, k: nat)
    ensures k in Leechers(C) <==> Lists(C, k, false)
    ensures k in SeedersBackwards(C) <==> Lists(C, k, true)
  {
    if C != [] {
      ReplyMembers(C[..|C| - 1], k);
      ListsLast(C, k, false);
      ListsLast(C, k, true);
    }
  }

  lemma ApartLists(C: seq<Peer>, seeding: bool)
    requires C != [] && DistinctKeys(C)
    ensures !Lists(C[..|C| - 1], C[|C| - 1].key, seeding)
  {
  }

  lemma {:induction false} ReplyDistinct(C: seq<Peer>)
    requires DistinctKeys(C)
    ensures Distinct(Leechers(C)) && Distinct(SeedersBackwards(C))
  {
    if C != [] {
      var init, k := C[..|C| - 1], C[|C| - 1].key;
      ReplyDistinct(init);
      ReplyMembers(init, k);
      ApartLists(C, false);
      ApartLists(C, true);
    }
  }

  lemma SelectionApart(F: seq<Peer>, C: seq<Peer>, at: seq<nat>)
    requires DistinctKeys(F) && Selection(F, C, at)
    ensures DistinctKeys(C)
  {
    forall i, j | 0 <= i < j < |C| ensures C[i].key != C[j].key {
      assert at[i] < at[j] || at[j] < at[i];
    }
  }

  /** Different peers of the list: first leechers, then seeders. */
  ghost predicate GoodReply(B: Store, reply: seq<nat>, leechers: nat) {
    && leechers <= |reply| && Distinct(reply)
    && forall i :: 0 <= i < |reply| ==> Get(B, reply[i]).Some? && (Get(B, reply[i]).value.flags.seeding <==> i >= leechers)
  }

  lemma ListedIsStored(B: Store, C: seq<Peer>, at: seq<nat>, k: nat, seeding: bool)
    requires Selection(Flat(B), C, at) && Lists(C, k, seeding)
    ensures Get(B, k).Some? && Get(B, k).value.flags.seeding == seeding
  {
    var p: Peer :| p in C && p.key == k && p.flags.seeding == seeding;
    var i :| 0 <= i < |C| && C[i] == p;
    assert p in Flat(B);
    GetMember(B, p);
  }

  lemma ReplyIsGood(B: Store, C: seq<Peer>, at: seq<nat>)
    requires Selection(Flat(B), C, at)
    ensures GoodReply(B, Leechers(C) + SeedersBackwards(C), |Leechers(C)|)
  {
    WellPlacedApart(B);
    FlatDistinct(B);
    SelectionApart(Flat(B), C, at);
    ReplyDistinct(C);
    var L, S := Leechers(C), SeedersBackwards(C);
    var r := L + S;
    forall i | 0 <= i < |r| ensures Get(B, r[i]).Some? && (Get(B, r[i]).value.flags.seeding <==> i >= |L|) {
      assert i < |L| ==> r[i] in L;
      assert i >= |L| ==> r[i] in S;
      ReplyMembers(C, r[i]);
      ListedIsStored(B, C, at, r[i], i >= |L|);
    }
    forall i, j | 0 <= i < j < |r| ensures r[i] != r[j] {
      assert Get(B, r[i]).Some? && Get(B, r[j]).Some?;
    }
  }

  lemma AllSelected(F: seq<Peer>) returns (at: seq<nat>)
    ensures Selection(F, F, at)
  {
    at := seq(|F|, i => i);
  }

  /** The peers of a reply: as many as asked for or as there are. */
  method ReturnPeers(l: PeerList, asked: nat) returns (reply: array<nat>, ghost leechers: nat)
    requires l.Valid() && l.peerCount < 2 * MAXPREC
    ensures fresh(reply) && reply.Length == if asked > l.peerCount then l.peerCount else asked
    ensures GoodReply(l.B, reply[..], leechers)
  {
    var amount := if asked > l.peerCount then l.peerCount else asked;
    ghost var C: seq<Peer>, at: seq<nat> := [], [];
    if amount == 0 {
      reply := new nat[0];
    } else if amount == l.peerCount {
      reply := ReturnPeersAll(l.buckets, l.B, l.peerCount);
      at := AllSelected(Flat(l.B));
      C := Flat(l.B);
    } else {
      reply, C, at := ReturnPeersSelection(l.buckets, l.B, l.peerCount, amount);
    }
    ReplyLength(C);
    ReplyIsGood(l.B, C, at);
    leechers := |Leechers(C)|;
  }
}
