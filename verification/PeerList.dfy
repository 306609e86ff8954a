/**
  The peers of one torrent (src/trackerlogic.c, src/ot_clean.c, src/ot_vector.c): counters, base
  time and either one vector of peers or a list of hash-selected vectors.

  `View` is what the structure stands for: a map from ip and port to the peer's flags and the
  minute of its last announce.
 */
module PeerList {
  import opened Arithmetic
  import opened PeerTheory
  import opened PeerBuckets
  import opened PeerVector

  const TORRENT_TIMEOUT := 1440
  const BUCKET_MINCOUNT := 512

  // ---------------------------------------------------------------------------------------
  // Lists of vectors

  /** The vectors hold the buckets B. */
  ghost predicate Holds(vs: seq<OtVector>, B: Buckets) {
    |vs| == |B| && forall i :: 0 <= i < |vs| ==> vs[i].Valid() && vs[i].data == B[i]
  }

  /**
    The vector at the root of a peer list: either the only vector of peers itself, or the header
    of a list of them, which is marked by a space of 0.
   */
  function RootSize(vs: seq<OtVector>): nat
    requires |vs| > 0
  {
    if |vs| == 1 then |vs[0].data| else |vs|
  }

  function RootSpace(vs: seq<OtVector>): nat
    requires |vs| > 0
  {
    if |vs| == 1 then vs[0].space else 0
  }

  /** The test that tells a list from a vector. */
  predicate HasBuckets(vs: seq<OtVector>)
    requires |vs| > 0
  {
    RootSpace(vs) < RootSize(vs)
  }

  /** The mark is never taken for a vector, nor a vector for the mark. */
  lemma MarkIsReliable(vs: seq<OtVector>)
    requires |vs| > 0 && forall i :: 0 <= i < |vs| ==> vs[i].Valid()
    ensures HasBuckets(vs) <==> |vs| > 1
    ensures HasBuckets(vs) ==> RootSize(vs) == |vs| && RootSpace(vs) == 0
  {
    assert vs[0].Valid();
  }

  /** The key without its last n bytes. */
  ghost function Rest(key: nat, n: nat): nat {
    if n == 0 then key else Rest(key, n - 1) / 256
  }

  lemma {:induction false} RestIsQuotient(key: nat, n: nat)
    requires n <= 6
    ensures Rest(key, n) == key / [1, 0x100, 0x1_0000, 0x100_0000, 0x1_0000_0000, 0x100_0000_0000, 0x1_0000_0000_0000][n]
  {
    if n > 0 { RestIsQuotient(key, n - 1); }
  }

  /** Byte i of the six that spell a key. */
  function ByteOf(key: nat, i: nat): nat
    requires i < 6
  {
    key / [0x100_0000_0000, 0x1_0000_0000, 0x100_0000, 0x1_0000, 0x100, 1][i] % 256
  }

  lemma ByteIsLast(key: nat, i: nat)
    requires i < 6
    ensures ByteOf(key, i) == Rest(key, 5 - i) % 256
  {
    RestIsQuotient(key, 5 - i);
  }

  lemma HashStep(key: nat, i: nat, hash: nat)
    requires i < 6 && hash == HashKey(Rest(key, 6 - i), i)
    ensures (hash + hash * 32 + ByteOf(key, i)) % WORD == HashKey(Rest(key, 5 - i), i + 1)
  {
    ByteIsLast(key, i);
  }

  /** Computes the vector a key hashes to. */
  method HashPeer(key: nat, buckets: nat) returns (b: nat)
    requires buckets > 0
    ensures b == BucketOf(key, buckets)
  {
    var hash, i := 5381, 0;
    while i < 6
      invariant 0 <= i <= 6 && hash == HashKey(Rest(key, 6 - i), i)
    {
      HashStep(key, i, hash);
      hash := (hash + hash * 32 + ByteOf(key, i)) % WORD;
      i := i + 1;
    }
    ModIsRemainder(hash, buckets);
    b := hash % buckets;
  }

  /** The vector that a key belongs to. */
  method Select(vs: seq<OtVector>, key: nat) returns (b: nat)
    requires |vs| > 0 && forall i :: 0 <= i < |vs| ==> vs[i].Valid()
    ensures b == BucketOf(key, |vs|)
  {
    MarkIsReliable(vs);
    b := 0;
    if HasBuckets(vs) { b := HashPeer(key, RootSize(vs)); }
  }

  // ---------------------------------------------------------------------------------------
  // Re-splitting

  /** The number of vectors that suits a number of peers; in two ranges the present number stays. */
  function SuitableBuckets(peers: nat, now: nat): nat {
    if peers < 255 then 1
    else if peers < 512 then (if now <= 16 then now else 1)
    else if peers < 4096 then 16
    else if peers < 8192 then (if now > 1 then now else 16)
    else if peers == 8192 then 16
    else 64
  }

  /** Lists have 1, 16 or 64 vectors, and re-splitting a list once is enough. */
  lemma SuitableStable(peers: nat, now: nat)
    requires now == 1 || now == 16 || now == 64
    ensures var n := SuitableBuckets(peers, now); (n == 1 || n == 16 || n == 64) && SuitableBuckets(peers, n) == n
  {
  }

  method ChooseBuckets(peers: nat, now: nat) returns (n: nat)
    ensures n == SuitableBuckets(peers, now)
  {
    if peers < 255 { return 1; }
    if peers > 8192 { return 64; }
    if peers >= 512 && peers < 4096 { return 16; }
    if peers < 512 && now <= 16 { return now; }
    if peers < 512 { return 1; }
    if peers < 8192 && now > 1 { return now; }
    return 16;
  }

  lemma DealtStep(F: seq<Peer>, p: Peer, n: nat)
    requires n > 0
    ensures var h := BucketOf(p.key, n); Dealt(F + [p], n) == Dealt(F, n)[h := Dealt(F, n)[h] + [p]]
  {
    assert (F + [p])[..|F|] == F;
  }

  /** n empty vectors; false when memory runs out. In all that follows, `memory` says that it does not. */
  method NewVectors(n: nat, space: nat, memory: bool) returns (ok: bool, vs: seq<OtVector>)
    requires n > 0
    ensures memory ==> ok
    ensures ok ==> |vs| == n && Holds(vs, Dealt([], n))
  {
    vs := [];
    while |vs| < n
      invariant |vs| <= n && forall i :: 0 <= i < |vs| ==> vs[i] == OtVector([], space)
    {
      var fails: bool := *;
      if fails && !memory { return false, vs; }
      vs := vs + [OtVector([], space)];
    }
    ok := true;
  }

  /** Appends the peers of all old vectors to the vectors they hash to. */
  method DealAll(from: seq<OtVector>, ghost B: Buckets, vs0: seq<OtVector>, memory: bool) returns (ok: bool, vs: seq<OtVector>)
    requires Holds(from, B) && |vs0| > 0 && Holds(vs0, Dealt([], |vs0|))
    ensures memory ==> ok
    ensures ok ==> |vs| == |vs0| && Holds(vs, Dealt(Flat(B), |vs0|))
  {
    vs := vs0;
    var x := 0;
    while x < |from|
      invariant 0 <= x <= |from| && |vs| == |vs0| && Holds(vs, Dealt(Flat(B[..x]), |vs0|))
    {
      FlatStep(B, x);
      ok, vs := DealVector(from[x].data, vs, Flat(B[..x]), memory);
      if !ok { return; }
      x := x + 1;
    }
    assert B[..x] == B;
    ok := true;
  }

  method DealVector(peers: seq<Peer>, vs0: seq<OtVector>, ghost F: seq<Peer>, memory: bool) returns (ok: bool, vs: seq<OtVector>)
    requires |vs0| > 0 && Holds(vs0, Dealt(F, |vs0|))
    ensures memory ==> ok
    ensures ok ==> |vs| == |vs0| && Holds(vs, Dealt(F + peers, |vs0|))
  {
    vs := vs0;
    ghost var dealt := F;
    var i := 0;
    while i < |peers|
      invariant 0 <= i <= |peers| && dealt == F + peers[..i]
      invariant |vs| == |vs0| && Holds(vs, Dealt(dealt, |vs0|))
    {
      ok, vs := DealPeer(peers[i], vs, dealt, memory);
      if !ok { return; }
      dealt := dealt + [peers[i]];
      i := i + 1;
    }
    assert dealt == F + peers;
    ok := true;
  }

  method DealPeer(p: Peer, vs0: seq<OtVector>, ghost F: seq<Peer>, memory: bool) returns (ok: bool, vs: seq<OtVector>)
    requires |vs0| > 0 && Holds(vs0, Dealt(F, |vs0|))
    ensures memory ==> ok
    ensures ok ==> |vs| == |vs0| && Holds(vs, Dealt(F + [p], |vs0|))
  {
    var h := 0;
    if |vs0| > 1 { h := HashPeer(p.key, |vs0|); }
    var mallocOk: bool := *;
    var v;
    ok, v := Append(vs0[h], p, mallocOk || memory);
    if !ok { return ok, vs0; }
    HoldsDealt(vs0, F, p, v);
    vs := vs0[h := v];
  }

  lemma HoldsDealt(vs: seq<OtVector>, F: seq<Peer>, p: Peer, v: OtVector)
    requires |vs| > 0 && Holds(vs, Dealt(F, |vs|)) && v.Valid() && v.data == vs[BucketOf(p.key, |vs|)].data + [p]
    ensures Holds(vs[BucketOf(p.key, |vs|) := v], Dealt(F + [p], |vs|))
  {
    DealtStep(F, p, |vs|);
  }

  lemma FlatStep(B: Buckets, x: nat)
    requires x < |B|
    ensures Flat(B[..x + 1]) == Flat(B[..x]) + B[x]
  {
    assert B[..x + 1][..x] == B[..x];
  }

  /** qsort on every vector. */
  method SortEach(vs0: seq<OtVector>, ghost B: Buckets) returns (vs: seq<OtVector>)
    requires Holds(vs0, B)
    ensures Holds(vs, SortAll(B)) && |vs| == |vs0|
  {
    SortAllAt(B);
    vs := vs0;
    var b := 0;
    while b < |vs|
      invariant 0 <= b <= |vs| == |B| == |vs0|
      invariant forall i :: 0 <= i < |vs| ==> vs[i].Valid() && vs[i].data == if i < b then SortPeers(B[i]) else B[i]
    {
      SortLength(B[b]);
      vs := vs[b := vs[b].(data := SortPeers(vs[b].data))];
      b := b + 1;
    }
  }

  /** New vectors with the peers of the old ones, or nothing if memory runs out. */
  method ResplitVectors(from: seq<OtVector>, ghost B: Store, n: nat, peers: nat, memory: bool) returns (ok: bool, vs: seq<OtVector>, ghost R: Store)
    requires Holds(from, B) && n > 0
    ensures memory ==> ok
    ensures ok ==> Holds(vs, R) && SamePeers(B, R) && |vs| == n
  {
    R := B;
    var expected := peers / n;
    var space := MIN_MEMBERS;
    while space < expected
      invariant space > 0
    {
      space := space * GROW_RATIO;
    }
    ok, vs := NewVectors(n, space, memory);
    if !ok { return; }
    ok, vs := DealAll(from, B, vs, memory);
    if !ok { return; }
    vs := SortEach(vs, Dealt(Flat(B), n));
    ResplitSound(B, n);
    R := Resplit(B, n);
  }

  lemma {:induction false} SortedInsertLength(s: seq<Peer>, p: Peer)
    ensures |SortedInsert(s, p)| == |s| + 1
  {
    if s != [] { SortedInsertLength(s[..|s| - 1], p); }
  }

  lemma {:induction false} SortLength(s: seq<Peer>)
    ensures |SortPeers(s)| == |s|
  {
    if s != [] {
      SortLength(s[..|s| - 1]);
      SortedInsertLength(SortPeers(s[..|s| - 1]), s[|s| - 1]);
    }
  }

  // ---------------------------------------------------------------------------------------
  // The peer list

  ghost predicate Young(B: Buckets) {
    forall p: Peer :: p in Flat(B) ==> p.time < PEER_TIMEOUT
  }

  /** Bucket lists as a peer list may hold them. */
  type Store = B: Buckets | WellPlaced(B) && Young(B) witness [[]]

  /** The counters agree with the peers stored. */
  ghost predicate Counted(B: Store, peers: nat, seeds: nat, downs: nat) {
    peers == |Flat(B)| && seeds == NumSeeding(Flat(B)) && downs >= NumCompleted(Flat(B))
  }

  /** The flags of a peer and the minute of its last announce. */
  datatype Seen = Seen(flags: Flags, last: int)

  ghost function SeenOf(p: Option<Peer>, base: int): Option<Seen> {
    if p.Some? then Some(Seen(p.value.flags, base - p.value.time)) else None
  }

  /** The same map, the same multiset of peers and so the same counts. */
  ghost predicate SamePeers(B: Store, R: Store) {
    SameMap(B, R) && multiset(Flat(R)) == multiset(Flat(B)) && TallyAll(R) == TallyAll(B)
  }

  lemma ResplitSound(B: Store, n: nat)
    requires n > 0
    ensures WellPlaced(Resplit(B, n)) && Young(Resplit(B, n)) && SamePeers(B, Resplit(B, n))
  {
    var R := Resplit(B, n);
    ResplitPlaced(B, n);
    SamePeersSameMap(B, R);
    TallyPermutation(Flat(R), Flat(B));
    forall p: Peer | p in Flat(R) ensures p.time < PEER_TIMEOUT {
      assert p in multiset(Flat(R));
      assert p in Flat(B);
    }
  }

  // ---------------------------------------------------------------------------------------
  // Putting one peer

  /** Exchanging peer q for peer p, or adding p when q is None, or taking q out when p is None. */
  ghost predicate Exchanged(B: Store, R: Store, q: Option<Peer>, p: Option<Peer>) {
    && |Flat(R)| + (if q.Some? then 1 else 0) == |Flat(B)| + (if p.Some? then 1 else 0)
    && NumSeeding(Flat(R)) + (if q.Some? then Seeding(q.value) else 0) == NumSeeding(Flat(B)) + (if p.Some? then Seeding(p.value) else 0)
    && NumCompleted(Flat(R)) + (if q.Some? then Completed(q.value) else 0) == NumCompleted(Flat(B)) + (if p.Some? then Completed(p.value) else 0)
  }

  lemma YoungSubset(B: Store, R: Buckets, p: Peer)
    requires p.time < PEER_TIMEOUT && multiset(Flat(R)) <= multiset(Flat(B)) + multiset{p}
    ensures Young(R)
  {
    forall q: Peer | q in Flat(R) ensures q.time < PEER_TIMEOUT {
      assert q in multiset(Flat(R));
      assert q in multiset(Flat(B)) + multiset{p};
      assert q in Flat(B) || q == p;
    }
  }

  lemma FillSlot(s: seq<Peer>, m: nat, x: Peer, p: Peer)
    requires m <= |s|
    ensures InsertAt(s, m, x)[m := p] == InsertAt(s, m, p)
  {
  }

  lemma HoldsUpdate(vs: seq<OtVector>, B: Store, b: nat, v: OtVector, R: Store)
    requires Holds(vs, B) && b < |B| && v.Valid() && R == B[b := v.data]
    ensures Holds(vs[b := v], R)
  {
  }

  lemma StoreNew(B: Store, b: nat, m: nat, p: Peer) returns (R: Store)
    requires b == BucketOf(p.key, |B|) && Splits(B[b], m, p.key) && p.time < PEER_TIMEOUT
    ensures R == B[b := InsertAt(B[b], m, p)]
    ensures Rebinds(B, R, p.key, Some(p)) && Exchanged(B, R, None, Some(p)) && Get(B, p.key) == None
  {
    PutNew(B, b, m, p);
    PutNewFlat(B, b, m, p);
    YoungSubset(B, B[b := InsertAt(B[b], m, p)], p);
    R := B[b := InsertAt(B[b], m, p)];
    TallyAdd(Flat(B), Flat(R), p);
  }

  lemma StoreExisting(B: Store, b: nat, m: nat, p: Peer) returns (R: Store)
    requires b == BucketOf(p.key, |B|) && m < |B[b]| && B[b][m].key == p.key && p.time < PEER_TIMEOUT
    ensures R == B[b := B[b][m := p]] && NumSeeding(Flat(B)) >= Seeding(B[b][m])
    ensures Rebinds(B, R, p.key, Some(p)) && Exchanged(B, R, Some(B[b][m]), Some(p)) && Get(B, p.key) == Some(B[b][m])
  {
    var q := B[b][m];
    var without := StoreRemoval(B, b, m);
    PutExisting(B, b, m, p);
    PutExistingFlat(B, b, m, p);
    YoungSubset(B, B[b := B[b][m := p]], p);
    R := B[b := B[b][m := p]];
    TallyAdd(Flat(R), Flat(R) + [q], q);
    TallyAdd(Flat(B), Flat(R) + [q], p);
  }

  lemma StoreRemoval(B: Store, b: nat, m: nat) returns (R: Store)
    requires b < |B| && m < |B[b]|
    ensures R == B[b := RemoveAt(B[b], m)]
    ensures var q := B[b][m]; Rebinds(B, R, q.key, None) && Exchanged(B, R, Some(q), None) && Get(B, q.key) == Some(q)
  {
    R := WithoutPeer(B, b, m);
    TakeOutFlat(B, b, m);
    TallyAdd(Flat(R), Flat(B), B[b][m]);
  }

  lemma WithoutPeer(B: Store, b: nat, m: nat) returns (R: Store)
    requires b < |B| && m < |B[b]|
    ensures R == B[b := RemoveAt(B[b], m)] && Rebinds(B, R, B[b][m].key, None) && Get(B, B[b][m].key) == Some(B[b][m])
  {
    TakeOut(B, b, m);
    YoungWithout(B, b, m);
    R := B[b := RemoveAt(B[b], m)];
  }

  lemma YoungWithout(B: Store, b: nat, m: nat)
    requires b < |B| && m < |B[b]|
    ensures Young(B[b := RemoveAt(B[b], m)])
  {
    TakeOutFlat(B, b, m);
    YoungSubset(B, B[b := RemoveAt(B[b], m)], Peer(0, Flags(false, false, false), 0));
  }

  /** All that holds after a known peer has been overwritten. */
  lemma RenewFacts(vs: seq<OtVector>, B: Store, b: nat, m: nat, p: Peer, peers: nat, seeds: nat, downs: nat) returns (R: Store)
    requires Holds(vs, B) && Counted(B, peers, seeds, downs)
    requires b == BucketOf(p.key, |B|) && m < |B[b]| && B[b][m].key == p.key && p.time < PEER_TIMEOUT
    ensures seeds >= Seeding(B[b][m]) && Rebinds(B, R, p.key, Some(p))
    ensures Holds(vs[b := vs[b].(data := vs[b].data[m := p])], R)
    ensures Counted(R, peers, seeds - Seeding(B[b][m]) + Seeding(p), downs + if !B[b][m].flags.completed && p.flags.completed then 1 else 0)
  {
    R := StoreExisting(B, b, m, p);
    HoldsUpdate(vs, B, b, vs[b].(data := vs[b].data[m := p]), R);
  }

  lemma RemovalFacts(vs: seq<OtVector>, B: Store, b: nat, m: nat, v: OtVector, peers: nat, seeds: nat, downs: nat) returns (R: Store)
    requires Holds(vs, B) && Counted(B, peers, seeds, downs)
    requires b < |B| && m < |B[b]| && v.Valid() && v.data == RemoveAt(B[b], m)
    ensures seeds >= Seeding(B[b][m]) && peers > 0 && Rebinds(B, R, B[b][m].key, None)
    ensures Holds(vs[b := v], R)
    ensures Counted(R, peers - 1, seeds - Seeding(B[b][m]), downs)
  {
    R := StoreRemoval(B, b, m);
    HoldsUpdate(vs, B, b, v, R);
  }

  lemma AbsentKey(B: Store, b: nat, key: nat)
    requires b == BucketOf(key, |B|) && exists m :: Splits(B[b], m, key)
    ensures Get(B, key) == None && Rebinds(B, B, key, None)
  {
    FindNone(B[b], key);
  }

  // ---------------------------------------------------------------------------------------
  // Ageing

  /** What is left of an entry at minute now. */
  ghost function Fresh(v: Option<Seen>, now: int): Option<Seen> {
    if v.Some? && now - v.value.last < PEER_TIMEOUT then v else None
  }

  /** The map of R at base' is what is left of the map of B at base, at minute now. */
  ghost predicate Refreshed(B: Store, base: int, R: Store, base': int, now: int) {
    forall k {:trigger Get(R, k)} :: SeenOf(Get(R, k), base') == Fresh(SeenOf(Get(B, k), base), now)
  }

  lemma {:induction false} AgedYoung(s: seq<Peer>, dt: nat, p: Peer)
    requires p in Aged(s, dt)
    ensures p.time < PEER_TIMEOUT
  {
    var init := s[..|s| - 1];
    if p in Aged(init, dt) { AgedYoung(init, dt, p); }
  }

  /** What ageing does to a store: the map, and the counts. */
  ghost predicate AgedStore(B: Store, R: Store, dt: nat) {
    && (forall k {:trigger Get(R, k)} :: Get(R, k) == AgedPeer(Get(B, k), dt))
    && |Flat(R)| == |Aged(Flat(B), dt)| <= |Flat(B)|
    && NumSeeding(Flat(B)) == NumSeeding(Flat(R)) + LostSeeders(Flat(B), dt)
    && NumCompleted(Flat(R)) <= NumCompleted(Flat(B))
  }

  lemma AgedAllIsAged(B: Store, dt: nat)
    ensures WellPlaced(AgedAll(B, dt)) && Young(AgedAll(B, dt)) && AgedStore(B, AgedAll(B, dt), dt)
  {
    AgedGet(B, dt);
    FlatAged(B, dt);
    TallyAged(Flat(B), dt);
    forall p: Peer | p in Flat(AgedAll(B, dt)) ensures p.time < PEER_TIMEOUT {
      AgedYoung(Flat(B), dt, p);
    }
  }

  /** All that holds after the peers have been aged. */
  lemma AgeFacts(B: Store, dt: nat, peers: nat, seeds: nat, downs: nat, removed: nat, lost: nat) returns (R: Store)
    requires Counted(B, peers, seeds, downs) && removed + |Aged(Flat(B), dt)| == |Flat(B)| && lost == LostSeeders(Flat(B), dt)
    ensures R == AgedAll(B, dt) && AgedStore(B, R, dt)
    ensures removed <= peers && lost <= seeds && Counted(R, peers - removed, seeds - lost, downs)
  {
    AgedAllIsAged(B, dt);
    R := AgedAll(B, dt);
  }

  /** Ageing leaves a vector so small that its block is to shrink. */
  ghost predicate AgedShrinks(v: OtVector, dt: nat) {
    var left := |Aged(v.data, dt)|;
    2 * left < |v.data| && ShrinkDue(left, v.space)
  }

  /** Runs the cleaning pass over the block of one vector. */
  method CleanVector(v: OtVector, dt: nat, mallocOk: bool) returns (gone: bool, v': OtVector, removed: nat, lost: nat)
    requires v.Valid()
    ensures gone <==> !mallocOk && AgedShrinks(v, dt)
    ensures !gone ==> v'.Valid() && v'.data == Aged(v.data, dt) && removed + |v'.data| == |v.data| && lost == LostSeeders(v.data, dt)
  {
    var block := new Peer[|v.data|](i requires 0 <= i < |v.data| => v.data[i]);
    assert block[..|v.data|] == v.data;
    removed, lost := CleanSingleBucket(block, |v.data|, dt);
    v' := v.(data := block[..|v.data| - removed]);
    gone := false;
    if |v'.data| < removed { gone, v' := Fixup(v', mallocOk); }
  }

  lemma AgedFlatStep(B: Buckets, x: nat, dt: nat)
    requires x < |B|
    ensures |Flat(B[..x + 1])| == |Flat(B[..x])| + |B[x]|
    ensures |Aged(Flat(B[..x + 1]), dt)| == |Aged(Flat(B[..x]), dt)| + |Aged(B[x], dt)|
    ensures LostSeeders(Flat(B[..x + 1]), dt) == LostSeeders(Flat(B[..x]), dt) + LostSeeders(B[x], dt)
  {
    FlatStep(B, x);
    AgedConcat(Flat(B[..x]), B[x], dt);
  }

  /** The first x vectors have been cleaned. */
  ghost predicate Cleaned(vs: seq<OtVector>, B: Buckets, x: nat, dt: nat, removed: nat, lost: nat) {
    && x <= |B| == |vs|
    && (forall i :: 0 <= i < |vs| ==> vs[i].Valid() && vs[i].data == if i < x then Aged(B[i], dt) else B[i])
    && removed + |Aged(Flat(B[..x]), dt)| == |Flat(B[..x])| && lost == LostSeeders(Flat(B[..x]), dt)
  }

  lemma CleanedStep(vs: seq<OtVector>, B: Buckets, x: nat, dt: nat, removed: nat, lost: nat, v: OtVector, n: nat)
    requires Cleaned(vs, B, x, dt, removed, lost) && x < |B|
    requires v.Valid() && v.data == Aged(B[x], dt) && n + |v.data| == |B[x]|
    ensures Cleaned(vs[x := v], B, x + 1, dt, removed + n, lost + LostSeeders(B[x], dt))
  {
    AgedFlatStep(B, x, dt);
  }

  lemma CleanedAll(vs: seq<OtVector>, B: Buckets, dt: nat, removed: nat, lost: nat)
    requires Cleaned(vs, B, |vs|, dt, removed, lost)
    ensures Holds(vs, AgedAll(B, dt)) && removed + |Aged(Flat(B), dt)| == |Flat(B)| && lost == LostSeeders(Flat(B), dt)
  {
    AgedAllAt(B, dt);
    assert B[..|vs|] == B;
  }

  /** The shrinking of some vector after ageing fails; `failing` are those whose smaller block cannot be had. */
  ghost predicate AgeingLoses(vs: seq<OtVector>, dt: nat, failing: set<nat>) {
    exists i: nat :: i < |vs| && i in failing && AgedShrinks(vs[i], dt)
  }

  lemma LosesStep(vs: seq<OtVector>, x: nat, dt: nat, failing: set<nat>)
    requires x < |vs|
    ensures AgeingLoses(vs[..x + 1], dt, failing) <==> AgeingLoses(vs[..x], dt, failing) || (x in failing && AgedShrinks(vs[x], dt))
    ensures AgeingLoses(vs[..x + 1], dt, failing) ==> AgeingLoses(vs, dt, failing)
  {
    forall i: nat | i < x + 1 && i in failing && AgedShrinks(vs[i], dt)
      ensures AgeingLoses(vs[..x + 1], dt, failing) && AgeingLoses(vs, dt, failing) && (i < x ==> AgeingLoses(vs[..x], dt, failing))
    {
      assert vs[..x + 1][i] == vs[i];
      assert i < x ==> vs[..x][i] == vs[i];
    }
    if AgeingLoses(vs[..x + 1], dt, failing) {
      var i: nat :| i < x + 1 && i in failing && AgedShrinks(vs[..x + 1][i], dt);
      assert AgedShrinks(vs[i], dt);
    }
    if AgeingLoses(vs[..x], dt, failing) {
      var i: nat :| i < x && i in failing && AgedShrinks(vs[..x][i], dt);
      assert AgedShrinks(vs[i], dt);
    }
  }

  /** Cleans every vector and adds up what was removed. Stops where the peers of a vector are lost. */
  method CleanVectors(vs0: seq<OtVector>, ghost B: Buckets, dt: nat, failing: set<nat>)
    returns (gone: bool, vs: seq<OtVector>, removed: nat, lost: nat)
    requires Holds(vs0, B)
    ensures gone <==> AgeingLoses(vs0, dt, failing)
    ensures |vs| == |vs0|
    ensures !gone ==> Holds(vs, AgedAll(B, dt)) && removed + |Aged(Flat(B), dt)| == |Flat(B)| && lost == LostSeeders(Flat(B), dt)
  {
    vs, removed, lost := vs0, 0, 0;
    var x := 0;
    while x < |vs|
      invariant 0 <= x <= |vs| == |vs0| && Cleaned(vs, B, x, dt, removed, lost) && !AgeingLoses(vs0[..x], dt, failing)
    {
      var v, n, m;
      gone, v, n, m := CleanVector(vs0[x], dt, x !in failing);
      LosesStep(vs0, x, dt, failing);
      if gone { return; }
      CleanedStep(vs, B, x, dt, removed, lost, v, n);
      vs := vs[x := v];
      removed, lost := removed + n, lost + m;
      x := x + 1;
    }
    gone := false;
    assert vs0[..x] == vs0;
    CleanedAll(vs, B, dt, removed, lost);
  }

  class PeerList {
    var base: int
    var seedCount: nat
    var peerCount: nat
    var downCount: nat
    /** One vector, or the list of buckets. */
    var buckets: seq<OtVector>
    ghost var B: Store

    ghost predicate Valid()
      reads this
    {
      Holds(buckets, B) && Counted(B, peerCount, seedCount, downCount)
    }

    /** What the list stands for. */
    ghost function View(k: nat): Option<Seen>
      reads this
    {
      SeenOf(Get(B, k), base)
    }

    /** A zeroed list: no peers, no counts. */
    constructor (base: int, downCount: nat)
      ensures Valid() && this.base == base && this.downCount == downCount
      ensures peerCount == 0 && forall k :: View(k) == None
    {
      this.base, this.downCount := base, downCount;
      seedCount, peerCount := 0, 0;
      buckets := [EMPTY];
      B := [[]];
    }

    /** Moves the peers to a suitable number of vectors; on lack of memory nothing changes. */
    method RedistributeBuckets(memory: bool)
      requires Valid()
      modifies this`buckets, this`B
      ensures Valid()
      ensures SamePeers(old(B), B)
      ensures |buckets| == SuitableBuckets(peerCount, old(|buckets|)) || (!memory && buckets == old(buckets))
    {
      var n := ChooseBuckets(peerCount, |buckets|);
      if n == |buckets| { return; }
      var ok, vs;
      ghost var R;
      ok, vs, R := ResplitVectors(buckets, B, n, peerCount, memory);
      if !ok { return; }
      buckets, B := vs, R;
    }

    /** Long lists, and those that have several vectors, are re-split. */
    method ResplitIfDue(memory: bool)
      requires Valid()
      modifies this`buckets, this`B
      ensures Valid() && SameMap(old(B), B)
      ensures memory ==> |buckets| == if peerCount > 512 || old(|buckets|) > 1 then SuitableBuckets(peerCount, old(|buckets|)) else 1
    {
      MarkIsReliable(buckets);
      if peerCount > BUCKET_MINCOUNT || HasBuckets(buckets) {
        RedistributeBuckets(memory);
      }
    }

    /** Ages all vectors and adjusts the counts. */
    method AgeEach(dt: nat, failing: set<nat>) returns (gone: bool)
      requires Valid()
      modifies this`buckets, this`B, this`peerCount, this`seedCount
      ensures gone <==> old(AgeingLoses(buckets, dt, failing))
      ensures !gone ==> Valid() && B == AgedAll(old(B), dt) && |buckets| == old(|buckets|)
    {
      var vs, removed, lost;
      gone, vs, removed, lost := CleanVectors(buckets, B, dt, failing);
      if gone { return; }
      ghost var R := AgeFacts(B, dt, peerCount, seedCount, downCount, removed, lost);
      buckets, B := vs, R;
      peerCount, seedCount := peerCount - removed, seedCount - lost;
    }

    /** The part of cleaning that ages the peers by dt minutes and re-splits the list. */
    method AgePeers(dt: nat, memory: bool, failing: set<nat>) returns (gone: bool)
      requires Valid()
      modifies this`buckets, this`B, this`peerCount, this`seedCount
      ensures gone <==> old(AgeingLoses(buckets, dt, failing))
      ensures !gone ==> Valid() && forall k {:trigger Get(B, k)} :: Get(B, k) == AgedPeer(Get(old(B), k), dt)
      ensures !gone && memory ==>
                |buckets| == if peerCount > 512 || old(|buckets|) > 1 then SuitableBuckets(peerCount, old(|buckets|)) else 1
    {
      AgedAllIsAged(B, dt);
      gone := AgeEach(dt, failing);
      if gone { return; }
      ghost var R := B;
      ResplitIfDue(memory);
      assert forall k {:trigger Get(B, k)} :: Get(B, k) == Get(R, k);
    }

    method AgeTo(now: int, dt: nat, memory: bool, failing: set<nat>) returns (gone: bool)
      requires Valid() && 0 < dt <= now - base && (dt == now - base || dt == PEER_TIMEOUT)
      modifies this
      ensures gone <==> old(AgeingLoses(buckets, dt, failing))
      ensures !gone ==> Valid() && downCount == old(downCount) && (base == now || (peerCount == 0 && base < now))
      ensures !gone ==> Refreshed(old(B), old(base), B, base, now)
    {
      ghost var base0, B0 := base, B;
      gone := AgePeers(dt, memory, failing);
      if gone { return; }
      base := if peerCount > 0 then now else now - PEER_TIMEOUT;
      AgedIsFresh(B0, B, base0, base, now, dt);
    }

    /** Cleaning at minute now loses the peers of a vector, because its block cannot be made smaller. */
    ghost predicate CleaningLoses(now: int, failing: set<nat>)
      reads this
    {
      && 0 < now - base <= TORRENT_TIMEOUT && (now - base > PEER_TIMEOUT ==> peerCount > 0)
      && AgeingLoses(buckets, if now - base > PEER_TIMEOUT then PEER_TIMEOUT else now - base, failing)
    }

    /**
      Brings the list up to the minute now. The result is true for a torrent to be dropped; then
      nothing has changed. Otherwise exactly the peers not heard of for 45 minutes are gone, unless
      more are because a block could not be made smaller.
     */
    method CleanSingleTorrent(now: int, memory: bool, failing: set<nat>) returns (timedOut: bool, gone: bool)
      requires Valid() && base <= now
      modifies this
      ensures timedOut <==> Idle(now - old(base), old(peerCount), old(downCount))
      ensures gone <==> old(CleaningLoses(now, failing))
      ensures !gone ==> Valid() && downCount == old(downCount)
      ensures timedOut ==> !gone && base == old(base) && B == old(B)
      ensures !timedOut && !gone ==> base <= now && (base == now || peerCount == 0) && Refreshed(old(B), old(base), B, base, now)
    {
      var timedout := now - base;
      timedOut, gone := false, false;
      if timedout == 0 {
        YoungIsFresh(B, base);
        return;
      }
      if timedout > TORRENT_TIMEOUT { return true, false; }
      if timedout > PEER_TIMEOUT {
        if peerCount == 0 {
          EmptyIsFresh(B, base, now);
          return downCount == 0, false;
        }
        timedout := PEER_TIMEOUT;
      }
      gone := AgeTo(now, timedout, memory, failing);
    }

    /** Puts an announced peer, now of age 0, into its slot and keeps the counts. */
    method StorePeer(key: nat, flags: Flags, memory: bool) returns (ok: bool)
      requires Valid()
      modifies this`buckets, this`B, this`peerCount, this`seedCount, this`downCount
      ensures Valid() && (memory ==> ok)
      ensures ok ==> Rebinds(old(B), B, key, Some(Peer(key, Merged(flags, Get(old(B), key)), 0)))
      ensures downCount == old(downCount) + if ok && NewlyCompleted(flags, Get(old(B), key)) then 1 else 0
      ensures !ok ==> B == old(B) && Get(B, key) == None
    {
      var b := Select(buckets, key);
      var mallocOk: bool := *;
      var v, m, exact;
      ok, v, m, exact := FindOrInsert(buckets[b], key, mallocOk || memory);
      if !ok {
        AbsentKey(B, b, key);
        return;
      }
      var peer := Peer(key, Sanitized(flags), 0);
      if !exact {
        FillNewSlot(b, v, m, peer);
      } else {
        var dest := buckets[b].data[m];
        FindAt(B[b], m);
        RenewSlot(b, m, peer, if dest.flags.completed then peer.(flags := peer.flags.(completed := true)) else peer);
      }
    }

    /** A peer not known before: count it, then copy it into the new slot. */
    method FillNewSlot(b: nat, v: OtVector, m: nat, peer: Peer)
      requires Valid() && b == BucketOf(peer.key, |buckets|) && peer.time < PEER_TIMEOUT
      requires Splits(B[b], m, peer.key) && v.Valid() && m < |v.data| && v.data == InsertAt(B[b], m, v.data[m])
      modifies this`buckets, this`B, this`peerCount, this`seedCount, this`downCount
      ensures Valid() && Rebinds(old(B), B, peer.key, Some(peer)) && Get(old(B), peer.key) == None
      ensures downCount == old(downCount) + if peer.flags.completed then 1 else 0
    {
      ghost var R := StoreNew(B, b, m, peer);
      var v' := v.(data := v.data[m := peer]);
      FillSlot(B[b], m, v.data[m], peer);
      HoldsUpdate(buckets, B, b, v', R);
      CountNew(peer);
      buckets, B := buckets[b := v'], R;
    }

    method CountNew(peer: Peer)
      modifies this`peerCount, this`seedCount, this`downCount
      ensures peerCount == old(peerCount) + 1
      ensures seedCount == old(seedCount) + Seeding(peer) && downCount == old(downCount) + Completed(peer)
    {
      peerCount := peerCount + 1;
      if peer.flags.completed { downCount := downCount + 1; }
      if peer.flags.seeding { seedCount := seedCount + 1; }
    }

    method CountRenewed(dest: Peer, peer: Peer)
      requires seedCount >= Seeding(dest)
      modifies this`seedCount, this`downCount
      ensures seedCount + Seeding(dest) == old(seedCount) + Seeding(peer)
      ensures downCount == old(downCount) + if !dest.flags.completed && peer.flags.completed then 1 else 0
    {
      if dest.flags.seeding && !peer.flags.seeding { seedCount := seedCount - 1; }
      if !dest.flags.seeding && peer.flags.seeding { seedCount := seedCount + 1; }
      if !dest.flags.completed && peer.flags.completed { downCount := downCount + 1; }
    }

    /** A known peer: count what changed, then overwrite it with p, its completion kept. */
    method RenewSlot(b: nat, m: nat, peer: Peer, p: Peer)
      requires Valid() && b == BucketOf(p.key, |buckets|) && p.time < PEER_TIMEOUT
      requires m < |B[b]| && B[b][m].key == p.key && Seeding(p) == Seeding(peer)
      requires p.flags.completed == (peer.flags.completed || B[b][m].flags.completed)
      modifies this`buckets, this`B, this`seedCount, this`downCount
      ensures Valid() && Rebinds(old(B), B, p.key, Some(p))
      ensures downCount == old(downCount) + if !old(B)[b][m].flags.completed && peer.flags.completed then 1 else 0
    {
      ghost var R := RenewFacts(buckets, B, b, m, p, peerCount, seedCount, downCount);
      CountRenewed(buckets[b].data[m], peer);
      buckets := buckets[b := buckets[b].(data := buckets[b].data[m := p])];
      B := R;
    }

    /**
      An announce at minute now. A torrent known before is cleaned first, and the outcome of the
      cleaning is ignored. Unless that was due because the peers had been left alone for more
      than a day, the map afterwards is the old one without what timed out, with the announcing
      peer at minute now.
     */
    method Announce(now: int, key: nat, flags: Flags, isNew: bool, memory: bool, failing: set<nat>) returns (ok: bool, gone: bool)
      requires Valid() && base <= now && (isNew ==> peerCount == 0)
      modifies this
      ensures gone <==> !isNew && old(CleaningLoses(now, failing))
      ensures !gone ==> Valid() && base == now && (memory ==> ok)
      ensures !gone && !Neglected(now - old(base), old(peerCount)) ==> Announced(old(B), old(base), B, now, key, flags, ok)
      ensures !gone && !Neglected(now - old(base), old(peerCount)) ==>
                downCount == old(downCount) + if ok && NewlySeen(flags, Fresh(old(View(key)), now)) then 1 else 0
      ensures Neglected(now - old(base), old(peerCount)) ==>
                (forall k {:trigger Get(B, k)} :: k != key ==> Get(B, k) == Get(old(B), k)) &&
                (Announced(old(B), old(base), B, now, key, flags, ok) <==> Harmless(old(B), key, flags))
    {
      ghost var base0, B0 := base, B;
      gone := BringUpToDate(now, isNew, memory, failing);
      if gone { return false, gone; }
      ok := StoreAnnounced(key, flags, memory, B0, base0);
    }

    /** The part of an announce that stores the peer, in a list brought up to date from B0 at base0 if possible. */
    method StoreAnnounced(key: nat, flags: Flags, memory: bool, ghost B0: Store, ghost base0: int) returns (ok: bool)
      requires Valid()
      requires if Neglected(base - base0, |Flat(B0)|) then B == B0 else Refreshed(B0, base0, B, base, base)
      modifies this`buckets, this`B, this`peerCount, this`seedCount, this`downCount
      ensures Valid() && (memory ==> ok)
      ensures !Neglected(base - base0, |Flat(B0)|) ==> Announced(B0, base0, B, base, key, flags, ok)
      ensures !Neglected(base - base0, |Flat(B0)|) ==>
                downCount == old(downCount) + if ok && NewlySeen(flags, Fresh(SeenOf(Get(B0, key), base0), base)) then 1 else 0
      ensures Neglected(base - base0, |Flat(B0)|) ==>
                (forall k {:trigger Get(B, k)} :: k != key ==> Get(B, k) == Get(B0, k)) &&
                (Announced(B0, base0, B, base, key, flags, ok) <==> Harmless(B0, key, flags))
    {
      ghost var B1 := B;
      ok := StorePeer(key, flags, memory);
      if !Neglected(base - base0, |Flat(B0)|) {
        AnnouncedFrom(B0, base0, B1, B, base, key, flags, ok);
      } else {
        NeglectedAnnounce(B0, base0, B, base, key, flags, ok);
      }
    }

    /** The part of an announce before the peer is looked up. */
    method BringUpToDate(now: int, isNew: bool, memory: bool, failing: set<nat>) returns (gone: bool)
      requires Valid() && base <= now && (isNew ==> peerCount == 0)
      modifies this
      ensures gone <==> !isNew && old(CleaningLoses(now, failing))
      ensures !gone ==> Valid() && base == now && downCount == old(downCount)
      ensures Neglected(now - old(base), old(peerCount)) ==> B == old(B)
      ensures !gone && !Neglected(now - old(base), old(peerCount)) ==> Refreshed(old(B), old(base), B, now, now)
    {
      ghost var base0, B0 := base, B;
      if peerCount == 0 { EmptyIsFresh(B, base, now); }
      gone := false;
      if !isNew {
        var ignored;
        ignored, gone := CleanSingleTorrent(now, memory, failing);
        if gone { return; }
      }
      if !Neglected(now - old(base), old(peerCount)) { Rebased(B0, base0, B, base, now); }
      base := now;
    }

    /** Taking a key out leaves its vector so small that the block is to shrink. */
    ghost predicate RemovalShrinks(key: nat)
      requires Valid()
      reads this
    {
      var v := buckets[BucketOf(key, |buckets|)];
      Get(B, key).Some? && |v.data| > 0 && ShrinkDue(|v.data| - 1, v.space)
    }

    /** Takes a stopped peer out, and loses all peers of its vector if the block cannot be made smaller. */
    method RemovePeer(key: nat, mallocOk: bool) returns (gone: bool)
      requires Valid()
      modifies this`buckets, this`B, this`peerCount, this`seedCount
      ensures gone <==> !mallocOk && old(RemovalShrinks(key))
      ensures !gone ==> Valid() && Rebinds(old(B), B, key, None) && peerCount <= old(peerCount)
    {
      var b := Select(buckets, key);
      var r, v, m;
      r, gone, v, m := Remove(buckets[b], key, mallocOk);
      if r == 0 {
        AbsentKey(B, b, key);
        return;
      }
      FindAt(B[b], m);
      if !gone { PutShorter(b, m, v, r == 2); }
    }

    /** Puts the vector without its member m in place, and counts. */
    method PutShorter(b: nat, ghost m: nat, v: OtVector, seeding: bool)
      requires Valid() && b < |B| && m < |B[b]| && v.Valid() && v.data == RemoveAt(B[b], m) && seeding == B[b][m].flags.seeding
      modifies this`buckets, this`B, this`peerCount, this`seedCount
      ensures Valid() && Rebinds(old(B), B, old(B)[b][m].key, None) && peerCount <= old(peerCount)
    {
      ghost var R := RemovalFacts(buckets, B, b, m, v, peerCount, seedCount, downCount);
      if seeding { seedCount := seedCount - 1; }
      peerCount := peerCount - 1;
      buckets, B := buckets[b := v], R;
    }
  }

  /** The peers have not been looked at for more than a day, so that cleaning gives up on them. */
  predicate Neglected(minutes: int, peers: nat) {
    minutes > TORRENT_TIMEOUT && peers > 0
  }

  ghost function MergedSeen(f: Flags, known: Option<Seen>): Flags {
    var s := Sanitized(f);
    if known.Some? && known.value.flags.completed then s.(completed := true) else s
  }

  ghost predicate NewlySeen(f: Flags, known: Option<Seen>) {
    Sanitized(f).completed && !(known.Some? && known.value.flags.completed)
  }

  /** The map of R is that of B, brought up to minute now, with the peer just heard of. */
  ghost predicate Announced(B: Store, base: int, R: Store, now: int, key: nat, flags: Flags, ok: bool) {
    forall k {:trigger Get(R, k)} ::
      SeenOf(Get(R, k), now) ==
      var was := Fresh(SeenOf(Get(B, k), base), now);
      if ok && k == key then Some(Seen(MergedSeen(flags, was), now)) else was
  }

  /** Moving the base to now is harmless if it is there already or no peer depends on it. */
  lemma Rebased(B: Store, base: int, R: Store, base': int, now: int)
    requires Refreshed(B, base, R, base', now) && (base' == now || |Flat(R)| == 0)
    ensures Refreshed(B, base, R, now, now)
  {
    forall k ensures SeenOf(Get(R, k), now) == Fresh(SeenOf(Get(B, k), base), now) {
      if |Flat(R)| == 0 { EmptyGet(R, k); }
    }
  }

  lemma AnnouncedFrom(B: Store, base: int, B1: Store, R: Store, now: int, key: nat, flags: Flags, ok: bool)
    requires Refreshed(B, base, B1, now, now)
    requires ok ==> Rebinds(B1, R, key, Some(Peer(key, Merged(flags, Get(B1, key)), 0)))
    requires !ok ==> R == B1
    ensures Announced(B, base, R, now, key, flags, ok)
    ensures NewlyCompleted(flags, Get(B1, key)) == NewlySeen(flags, Fresh(SeenOf(Get(B, key), base), now))
  {
    assert SeenOf(Get(B1, key), now) == Fresh(SeenOf(Get(B, key), base), now);
    forall k ensures SeenOf(Get(R, k), now) ==
                     var was := Fresh(SeenOf(Get(B, k), base), now);
                     if ok && k == key then Some(Seen(MergedSeen(flags, was), now)) else was
    {
      assert SeenOf(Get(B1, k), now) == Fresh(SeenOf(Get(B, k), base), now);
    }
  }

  /**
    A neglected list hides its neglect only if the announcing peer is the only one in it, and if
    that peer is not taken for completed on the strength of what should have been forgotten.
   */
  ghost predicate Harmless(B: Store, key: nat, flags: Flags) {
    && (forall k {:trigger Get(B, k)} :: k != key ==> Get(B, k) == None)
    && (Get(B, key).Some? && Get(B, key).value.flags.completed ==> Sanitized(flags).completed)
  }

  lemma StoredIsYoung(B: Store, k: nat)
    requires Get(B, k).Some?
    ensures Get(B, k).value.time < PEER_TIMEOUT
  {
    var i := FindIsMember(B[BucketOf(k, |B|)], k);
    GetMember(B, Get(B, k).value);
  }

  lemma NonEmptyGet(B: Store) returns (k: nat)
    requires |Flat(B)| > 0
    ensures Get(B, k).Some?
  {
    var p := Flat(B)[0];
    GetMember(B, p);
    k := p.key;
  }

  /** Nothing stored is fresh any more. */
  ghost predicate Stale(B: Store, base: int, now: int) {
    forall k {:trigger Get(B, k)} :: Fresh(SeenOf(Get(B, k), base), now) == None
  }

  lemma NeglectedIsStale(B: Store, base: int, now: int)
    requires now - base > TORRENT_TIMEOUT
    ensures Stale(B, base, now)
  {
    forall k ensures Fresh(SeenOf(Get(B, k), base), now) == None {
      if Get(B, k).Some? { StoredIsYoung(B, k); }
    }
  }

  /** The announce as it is stored when no cleaning went before it. */
  ghost predicate StoredBare(B: Store, R: Store, key: nat, flags: Flags, ok: bool) {
    if ok then Rebinds(B, R, key, Some(Peer(key, Merged(flags, Get(B, key)), 0))) else R == B && Get(B, key) == None
  }

  lemma AnnouncedIsHarmless(B: Store, base: int, R: Store, now: int, key: nat, flags: Flags, ok: bool)
    requires Stale(B, base, now) && StoredBare(B, R, key, flags, ok)
    requires Announced(B, base, R, now, key, flags, ok)
    ensures Harmless(B, key, flags)
  {
    assert SeenOf(Get(R, key), now) ==
           var was := Fresh(SeenOf(Get(B, key), base), now);
           if ok then Some(Seen(MergedSeen(flags, was), now)) else was;
    forall k | k != key ensures Get(B, k) == None {
      assert SeenOf(Get(R, k), now) == Fresh(SeenOf(Get(B, k), base), now);
    }
  }

  lemma RenewedAlone(p: Peer, key: nat, flags: Flags, now: int)
    requires p.flags.completed ==> Sanitized(flags).completed
    ensures SeenOf(Some(Peer(key, Merged(flags, Some(p)), 0)), now) == Some(Seen(MergedSeen(flags, None), now))
  {
  }

  lemma HarmlessIsAnnounced(B: Store, base: int, R: Store, now: int, key: nat, flags: Flags, ok: bool)
    requires Stale(B, base, now) && StoredBare(B, R, key, flags, ok) && |Flat(B)| > 0
    requires Harmless(B, key, flags)
    ensures Announced(B, base, R, now, key, flags, ok)
  {
    var k0 := NonEmptyGet(B);
    assert k0 == key;
    RenewedAlone(Get(B, key).value, key, flags, now);
    forall k ensures SeenOf(Get(R, k), now) ==
                     var was := Fresh(SeenOf(Get(B, k), base), now);
                     if ok && k == key then Some(Seen(MergedSeen(flags, was), now)) else was
    {
      assert Fresh(SeenOf(Get(B, k), base), now) == None;
      assert Get(R, k) == if k == key then Some(Peer(key, Merged(flags, Get(B, key)), 0)) else None;
    }
  }

  /** What an announce does to a list left alone for more than a day, and when it shows. */
  lemma NeglectedAnnounce(B: Store, base: int, R: Store, now: int, key: nat, flags: Flags, ok: bool)
    requires Neglected(now - base, |Flat(B)|) && StoredBare(B, R, key, flags, ok)
    ensures Announced(B, base, R, now, key, flags, ok) <==> Harmless(B, key, flags)
  {
    NeglectedIsStale(B, base, now);
    if Announced(B, base, R, now, key, flags, ok) { AnnouncedIsHarmless(B, base, R, now, key, flags, ok); }
    if Harmless(B, key, flags) { HarmlessIsAnnounced(B, base, R, now, key, flags, ok); }
  }

  /** Any other peer of a neglected list is kept, and shown with a later time than it was heard of. */
  lemma NeglectedKeepsOthers(B: Store, base: int, R: Store, now: int, key: nat, flags: Flags, ok: bool, p: Peer)
    requires Neglected(now - base, |Flat(B)|) && StoredBare(B, R, key, flags, ok)
    requires p.key != key && Get(B, p.key) == Some(p)
    ensures SeenOf(Get(R, p.key), now) == SeenOf(Some(p), now) && !Announced(B, base, R, now, key, flags, ok)
  {
    assert Get(R, p.key) == Get(B, p.key);
    NeglectedAnnounce(B, base, R, now, key, flags, ok);
  }

  lemma SingleIsStore(s: seq<Peer>) returns (B: Store)
    requires Sorted(s) && forall i :: 0 <= i < |s| ==> s[i].time < PEER_TIMEOUT
    ensures B == [s] && Flat(B) == s
  {
    assert [s][..0] == [];
    assert Flat([s]) == s;
    B := [s];
  }

  lemma SecondPeer(p: Peer, q: Peer)
    requires p.key < q.key
    ensures Rebinds([[p]], [[p, q]], q.key, Some(q)) && Get([[p]], p.key) == Some(p) && Get([[p]], q.key) == None
  {
    assert Splits([p], 1, q.key);
    assert InsertAt([p], 1, q) == [p, q];
    PutNew([[p]], 0, 1, q);
    assert [[p]][0 := [p, q]] == [[p, q]];
  }

  lemma PairIsStore(p: Peer, q: Peer) returns (R: Store)
    requires p.key < q.key && p.time < PEER_TIMEOUT && q.time < PEER_TIMEOUT
    ensures R == [[p, q]]
  {
    assert Sorted([p, q]);
    R := SingleIsStore([p, q]);
  }

  lemma NewIsStored(B: Store, R: Store, key: nat, flags: Flags)
    requires Rebinds(B, R, key, Some(Peer(key, Sanitized(flags), 0))) && Get(B, key) == None
    ensures StoredBare(B, R, key, flags, true)
  {
  }

  lemma SecondStored(p: Peer, key: nat, flags: Flags) returns (B: Store, R: Store)
    requires p.key < key && p.time < PEER_TIMEOUT
    ensures B == [[p]] && R == [[p, Peer(key, Sanitized(flags), 0)]]
    ensures |Flat(B)| == 1 && Get(B, p.key) == Some(p) && StoredBare(B, R, key, flags, true)
  {
    var q := Peer(key, Sanitized(flags), 0);
    B := SingleIsStore([p]);
    R := PairIsStore(p, q);
    assert Get(B, p.key) == Some(p) && Get(B, key) == None && StoredBare(B, R, key, flags, true) by {
      SecondPeer(p, q);
      NewIsStored(B, R, key, flags);
    }
  }

  /** For instance a list of one peer, and an announce by a second one. */
  lemma NeglectedCounterexample(p: Peer, key: nat, flags: Flags, base: int, now: int) returns (B: Store, R: Store)
    requires p.key < key && p.time < PEER_TIMEOUT && now > base + TORRENT_TIMEOUT
    ensures B == [[p]] && R == [[p, Peer(key, Sanitized(flags), 0)]]
    ensures Neglected(now - base, |Flat(B)|) && StoredBare(B, R, key, flags, true)
    ensures !Announced(B, base, R, now, key, flags, true)
  {
    B, R := SecondStored(p, key, flags);
    NeglectedKeepsOthers(B, base, R, now, key, flags, true, p);
  }

  /** Whoever claims to have completed must be a seeder. */
  function Sanitized(f: Flags): (r: Flags)
    ensures r.completed <==> f.completed && f.seeding
    ensures r.seeding == f.seeding && r.stopped == f.stopped
  {
    if f.completed && !f.seeding then f.(completed := false) else f
  }

  /** A completed peer stays completed. */
  ghost function Merged(f: Flags, known: Option<Peer>): Flags {
    var s := Sanitized(f);
    if known.Some? && known.value.flags.completed then s.(completed := true) else s
  }

  ghost predicate NewlyCompleted(f: Flags, known: Option<Peer>) {
    Sanitized(f).completed && !(known.Some? && known.value.flags.completed)
  }

  /** When a torrent is given up. */
  predicate Idle(minutes: int, peers: nat, downs: nat) {
    minutes > 24 * 60 || (minutes > 45 && peers == 0 && downs == 0)
  }

  lemma YoungIsFresh(B: Store, base: int)
    ensures Refreshed(B, base, B, base, base)
  {
    forall k ensures SeenOf(Get(B, k), base) == Fresh(SeenOf(Get(B, k), base), base) {
      if Get(B, k).Some? {
        var i := FindIsMember(B[BucketOf(k, |B|)], k);
        GetMember(B, Get(B, k).value);
      }
    }
  }

  lemma EmptyGet(B: Store, k: nat)
    requires |Flat(B)| == 0
    ensures Get(B, k) == None
  {
    if Get(B, k).Some? {
      var i := FindIsMember(B[BucketOf(k, |B|)], k);
      GetMember(B, Get(B, k).value);
    }
  }

  lemma EmptyIsFresh(B: Store, base: int, now: int)
    requires |Flat(B)| == 0
    ensures Refreshed(B, base, B, base, now)
  {
    forall k ensures SeenOf(Get(B, k), base) == Fresh(SeenOf(Get(B, k), base), now) {
      EmptyGet(B, k);
    }
  }

  lemma AgedPeerIsFresh(p: Option<Peer>, dt: nat, base: int, base': int, now: int)
    requires 0 < dt <= now - base && (dt == now - base || dt == PEER_TIMEOUT)
    requires base' == now || AgedPeer(p, dt) == None
    ensures SeenOf(AgedPeer(p, dt), base') == Fresh(SeenOf(p, base), now)
  {
  }

  lemma AgedIsFresh(B: Store, R: Store, base: int, base': int, now: int, dt: nat)
    requires forall k {:trigger Get(R, k)} :: Get(R, k) == AgedPeer(Get(B, k), dt)
    requires 0 < dt <= now - base && (dt == now - base || dt == PEER_TIMEOUT)
    requires base' == if |Flat(R)| > 0 then now else now - PEER_TIMEOUT
    ensures Refreshed(B, base, R, base', now)
  {
    forall k ensures SeenOf(Get(R, k), base') == Fresh(SeenOf(Get(B, k), base), now) {
      if |Flat(R)| == 0 { EmptyGet(R, k); }
      AgedPeerIsFresh(Get(B, k), dt, base, base', now);
    }
  }
}
