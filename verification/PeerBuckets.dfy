/** Lists of peer buckets: where a peer belongs, what the list holds, and how it is re-split. */
module PeerBuckets {
  import opened Arithmetic
  import opened PeerTheory

  // ---------------------------------------------------------------------------------------
  // Counting

  function Seeding(p: Peer): nat {
    if p.flags.seeding then 1 else 0
  }

  function Completed(p: Peer): nat {
    if p.flags.completed then 1 else 0
  }

  function NumSeeding(s: seq<Peer>): nat {
    if s == [] then 0 else NumSeeding(s[..|s| - 1]) + Seeding(s[|s| - 1])
  }

  function NumCompleted(s: seq<Peer>): nat {
    if s == [] then 0 else NumCompleted(s[..|s| - 1]) + Completed(s[|s| - 1])
  }

  /** The three numbers a peer list keeps track of. */
  datatype Tally = Tally(peers: nat, seeding: nat, completed: nat)

  ghost function TallyOf(s: seq<Peer>): Tally {
    Tally(|s|, NumSeeding(s), NumCompleted(s))
  }

  lemma TallyAppend(s: seq<Peer>, p: Peer)
    ensures NumSeeding(s + [p]) == NumSeeding(s) + Seeding(p)
    ensures NumCompleted(s + [p]) == NumCompleted(s) + Completed(p)
  {
    assert (s + [p])[..|s|] == s;
  }

  lemma {:induction false} TallyConcat(s: seq<Peer>, t: seq<Peer>)
    ensures NumSeeding(s + t) == NumSeeding(s) + NumSeeding(t)
    ensures NumCompleted(s + t) == NumCompleted(s) + NumCompleted(t)
  {
    if t == [] {
      assert s + t == s;
    } else {
      var init, p := t[..|t| - 1], t[|t| - 1];
      TallyConcat(s, init);
      assert s + t == (s + init) + [p];
      TallyAppend(s + init, p);
    }
  }

  lemma TallyMiddle(a: seq<Peer>, p: Peer, c: seq<Peer>)
    ensures NumSeeding(a + [p] + c) == NumSeeding(a + c) + Seeding(p)
    ensures NumCompleted(a + [p] + c) == NumCompleted(a + c) + Completed(p)
  {
    TallyConcat(a + [p], c);
    TallyAppend(a, p);
    TallyConcat(a, c);
  }

  lemma TallyRemoveAt(s: seq<Peer>, m: nat)
    requires m < |s|
    ensures NumSeeding(s) == NumSeeding(RemoveAt(s, m)) + Seeding(s[m])
    ensures NumCompleted(s) == NumCompleted(RemoveAt(s, m)) + Completed(s[m])
  {
    Rejoin(s, m);
    TallyMiddle(s[..m], s[m], s[m + 1..]);
  }

  lemma Rejoin(s: seq<Peer>, m: nat)
    requires m < |s|
    ensures s[..m] + [s[m]] + s[m + 1..] == s
  {
  }

  lemma MultisetRemoveAt(s: seq<Peer>, m: nat)
    requires m < |s|
    ensures multiset(s) == multiset(RemoveAt(s, m)) + multiset{s[m]}
  {
    Rejoin(s, m);
  }

  lemma MultisetInsertAt(s: seq<Peer>, m: nat, p: Peer)
    requires m <= |s|
    ensures multiset(InsertAt(s, m, p)) == multiset(s) + multiset{p}
  {
    assert s == s[..m] + s[m..];
  }

  lemma MultisetReplace(s: seq<Peer>, m: nat, p: Peer)
    requires m < |s|
    ensures multiset(s[m := p]) + multiset{s[m]} == multiset(s) + multiset{p}
  {
    MultisetRemoveAt(s, m);
    MultisetRemoveAt(s[m := p], m);
    assert RemoveAt(s[m := p], m) == RemoveAt(s, m);
  }

  lemma MultisetCancel(x: multiset<Peer>, y: multiset<Peer>, p: Peer)
    requires x + multiset{p} == y + multiset{p}
    ensures x == y
  {
    forall e: Peer ensures x[e] == y[e] {
      assert (x + multiset{p})[e] == (y + multiset{p})[e];
    }
  }

  /** Only the multiset of peers counts. */
  lemma {:induction false} TallyPermutation(s: seq<Peer>, t: seq<Peer>)
    requires multiset(s) == multiset(t)
    ensures TallyOf(s) == TallyOf(t)
    decreases |s|
  {
    assert |s| == |multiset(s)| && |t| == |multiset(t)|;
    if s != [] {
      var n := |s| - 1;
      var m := IndexOf(t, s[n]);
      MultisetRemoveAt(t, m);
      MultisetRemoveAt(s, n);
      MultisetCancel(multiset(RemoveAt(s, n)), multiset(RemoveAt(t, m)), s[n]);
      TallyPermutation(RemoveAt(s, n), RemoveAt(t, m));
      TallyRemoveAt(t, m);
      TallyRemoveAt(s, n);
    }
  }

  lemma IndexOf(t: seq<Peer>, p: Peer) returns (m: nat)
    requires p in multiset(t)
    ensures m < |t| && t[m] == p
  {
    assert p in t;
    m :| 0 <= m < |t| && t[m] == p;
  }

  lemma TallyAdd(s: seq<Peer>, t: seq<Peer>, p: Peer)
    requires multiset(t) == multiset(s) + multiset{p}
    ensures |t| == |s| + 1 && NumSeeding(t) == NumSeeding(s) + Seeding(p) && NumCompleted(t) == NumCompleted(s) + Completed(p)
  {
    assert multiset(s + [p]) == multiset(t);
    TallyPermutation(s + [p], t);
    TallyAppend(s, p);
  }

  lemma {:induction false} TallyAged(s: seq<Peer>, dt: nat)
    ensures |Aged(s, dt)| <= |s|
    ensures NumSeeding(s) == NumSeeding(Aged(s, dt)) + LostSeeders(s, dt)
    ensures NumCompleted(Aged(s, dt)) <= NumCompleted(s)
  {
    if s != [] {
      var init, last := s[..|s| - 1], s[|s| - 1];
      TallyAged(init, dt);
      if last.time + dt < PEER_TIMEOUT {
        TallyAppend(Aged(init, dt), last.(time := last.time + dt));
      } else {
        assert Aged(s, dt) == Aged(init, dt);
      }
    }
  }

  lemma {:induction false} TallyBounds(s: seq<Peer>)
    ensures NumSeeding(s) <= |s| && NumCompleted(s) <= |s|
  {
    if s != [] { TallyBounds(s[..|s| - 1]); }
  }

  // ---------------------------------------------------------------------------------------
  // Bucket lists

  const WORD := 0x1_0000_0000

  /** hash += (hash << 5) + byte, for the six bytes of a key, most significant first. */
  function HashKey(k: nat, n: nat): nat
    decreases n
  {
    if n == 0 then 5381 else (33 * HashKey(k / 256, n - 1) + k % 256) % WORD
  }

  function BucketOf(k: nat, buckets: nat): (b: nat)
    requires buckets > 0
    ensures b < buckets
  {
    if buckets == 1 then 0 else Mod(HashKey(k, 6), buckets)
  }

  /** The bytes as digits of a number. */
  function Number(bytes: seq<nat>): nat {
    if bytes == [] then 0 else 256 * Number(bytes[..|bytes| - 1]) + bytes[|bytes| - 1]
  }

  /** The bytes as digits to the base 33, behind 5381. */
  function Mixed(bytes: seq<nat>): nat {
    if bytes == [] then 5381 else 33 * Mixed(bytes[..|bytes| - 1]) + bytes[|bytes| - 1]
  }

  lemma WrapMore(x: nat, y: nat, c: nat)
    requires y == x % 0x1_0000_0000
    ensures (33 * y + c) % 0x1_0000_0000 == (33 * x + c) % 0x1_0000_0000
  {
    var q, z := x / 0x1_0000_0000, (33 * y + c) / 0x1_0000_0000;
    assert 33 * x + c == 0x1_0000_0000 * (33 * q + z) + (33 * y + c) % 0x1_0000_0000;
  }

  lemma {:induction false} HashIsMixed(bytes: seq<nat>)
    requires forall i :: 0 <= i < |bytes| ==> bytes[i] < 256
    ensures HashKey(Number(bytes), |bytes|) == Mixed(bytes) % 0x1_0000_0000
  {
    if bytes != [] {
      var init, c := bytes[..|bytes| - 1], bytes[|bytes| - 1];
      HashIsMixed(init);
      WrapMore(Mixed(init), HashKey(Number(init), |init|), c);
      assert Number(bytes) / 256 == Number(init) && Number(bytes) % 256 == c;
    }
  }

  /** A peer belongs to the bucket that the six bytes of its ip and port give, mixed in 32 bits. */
  lemma BucketIs(bytes: seq<nat>, buckets: nat)
    requires |bytes| == 6 && buckets > 0 && forall i :: 0 <= i < |bytes| ==> bytes[i] < 256
    ensures BucketOf(Number(bytes), buckets) == Mixed(bytes) % 0x1_0000_0000 % buckets
  {
    HashIsMixed(bytes);
    ModIsRemainder(HashKey(Number(bytes), 6), buckets);
  }

  type Buckets = seq<seq<Peer>>

  /** Each bucket is sorted and holds only peers that hash to it. */
  ghost predicate WellPlaced(B: Buckets) {
    && |B| > 0
    && (forall b :: 0 <= b < |B| ==> Sorted(B[b]))
    && (forall b, i :: 0 <= b < |B| && 0 <= i < |B[b]| ==> BucketOf(B[b][i].key, |B|) == b)
  }

  /** The peer list as a map from keys to peers. */
  function Get(B: Buckets, k: nat): Option<Peer>
    requires |B| > 0
  {
    FindIn(B[BucketOf(k, |B|)], k)
  }

  ghost predicate SameMap(B: Buckets, B': Buckets)
    requires |B| > 0 && |B'| > 0
  {
    forall k :: Get(B, k) == Get(B', k)
  }

  /** All peers, bucket after bucket. */
  ghost function Flat(B: Buckets): seq<Peer> {
    if B == [] then [] else Flat(B[..|B| - 1]) + B[|B| - 1]
  }

  ghost function TallyAll(B: Buckets): Tally {
    TallyOf(Flat(B))
  }

  lemma Shift(x: multiset<Peer>, y: multiset<Peer>, l: multiset<Peer>, p: multiset<Peer>, s: multiset<Peer>)
    requires x + p == y + s
    ensures (x + l) + p == (y + l) + s
  {
    assert (x + l) + p == (x + p) + l;
    assert (y + l) + s == (y + s) + l;
  }

  /** What q and p differ by, x and y differ by. */
  lemma Cancel(x: multiset<Peer>, y: multiset<Peer>, p: multiset<Peer>, q: multiset<Peer>, a: multiset<Peer>, b: multiset<Peer>)
    requires x + p == y + q && q + a == p + b
    ensures x + a == y + b
  {
    forall e: Peer ensures (x + a)[e] == (y + b)[e] {
      assert (x + p)[e] == (y + q)[e] && (q + a)[e] == (p + b)[e];
    }
  }

  lemma {:induction false} FlatUpdate(B: Buckets, b: nat, s: seq<Peer>)
    requires b < |B|
    ensures multiset(Flat(B[b := s])) + multiset(B[b]) == multiset(Flat(B)) + multiset(s)
  {
    var n := |B| - 1;
    var B' := B[b := s];
    if b < n {
      FlatUpdate(B[..n], b, s);
      assert B'[..n] == B[..n][b := s];
      assert Flat(B') == Flat(B[..n][b := s]) + B[n];
      assert Flat(B) == Flat(B[..n]) + B[n];
      Shift(multiset(Flat(B[..n][b := s])), multiset(Flat(B[..n])), multiset(B[n]), multiset(B[b]), multiset(s));
    } else {
      assert B'[..n] == B[..n];
      assert Flat(B') == Flat(B[..n]) + s;
    }
  }

  ghost predicate InSome(B: Buckets, p: Peer) {
    exists b :: 0 <= b < |B| && p in B[b]
  }

  lemma {:induction false} FlatMember(B: Buckets, p: Peer)
    ensures p in Flat(B) <==> InSome(B, p)
  {
    if B != [] {
      var init, last := B[..|B| - 1], B[|B| - 1];
      FlatMember(init, p);
      assert B == init + [last];
      assert InSome(B, p) <==> InSome(init, p) || p in last by {
        if InSome(init, p) {
          var b :| 0 <= b < |init| && p in init[b];
          assert p in B[b];
        }
        if p in last { assert p in B[|B| - 1]; }
      }
    }
  }

  /** A well placed list answers with key k what the flat list holds under k. */
  lemma GetMember(B: Buckets, p: Peer)
    requires WellPlaced(B)
    ensures p in Flat(B) <==> Get(B, p.key) == Some(p)
  {
    FlatMember(B, p);
    var h := BucketOf(p.key, |B|);
    if Get(B, p.key) == Some(p) {
      var i := FindIsMember(B[h], p.key);
    }
    if p in Flat(B) {
      var b :| 0 <= b < |B| && p in B[b];
      var i :| 0 <= i < |B[b]| && B[b][i] == p;
      FindAt(B[b], i);
    }
  }

  // ---------------------------------------------------------------------------------------
  // Edits of one bucket

  /** Exchanging one bucket for another run of the same bucket. */
  lemma GetUpdate(B: Buckets, b: nat, s: seq<Peer>)
    requires WellPlaced(B) && b < |B| && Sorted(s)
    requires forall i :: 0 <= i < |s| ==> BucketOf(s[i].key, |B|) == b
    ensures WellPlaced(B[b := s])
    ensures forall k :: Get(B[b := s], k) == if BucketOf(k, |B|) == b then FindIn(s, k) else Get(B, k)
  {
    var B': Buckets := B[b := s];
    forall c, i | 0 <= c < |B'| && 0 <= i < |B'[c]| ensures BucketOf(B'[c][i].key, |B|) == c {
      assert c != b ==> B'[c] == B[c];
    }
    forall k ensures Get(B', k) == if BucketOf(k, |B|) == b then FindIn(s, k) else Get(B, k) {
      assert BucketOf(k, |B|) != b ==> B'[BucketOf(k, |B|)] == B[BucketOf(k, |B|)];
    }
  }

  /** The map of B' is that of B with k bound to v. */
  ghost predicate Rebinds(B: Buckets, B': Buckets, k: nat, v: Option<Peer>) {
    |B| > 0 && |B'| > 0 &&
    forall j {:trigger Get(B', j)} :: Get(B', j) == if j == k then v else Get(B, j)
  }

  lemma PutNew(B: Buckets, b: nat, m: nat, p: Peer)
    requires WellPlaced(B) && b == BucketOf(p.key, |B|) && Splits(B[b], m, p.key)
    ensures WellPlaced(B[b := InsertAt(B[b], m, p)])
    ensures Rebinds(B, B[b := InsertAt(B[b], m, p)], p.key, Some(p)) && Get(B, p.key) == None
  {
    var s := InsertAt(B[b], m, p);
    forall k ensures FindIn(s, k) == if k == p.key then Some(p) else FindIn(B[b], k) {
      InsertFind(B[b], m, p, k);
    }
    InsertSorted(B[b], m, p);
    assert forall i :: 0 <= i < |s| ==> s[i] == if i < m then B[b][i] else if i == m then p else B[b][i - 1];
    GetUpdate(B, b, s);
    FindNone(B[b], p.key);
  }

  lemma PutNewFlat(B: Buckets, b: nat, m: nat, p: Peer)
    requires b < |B| && m <= |B[b]|
    ensures multiset(Flat(B[b := InsertAt(B[b], m, p)])) == multiset(Flat(B)) + multiset{p}
  {
    FlatUpdate(B, b, InsertAt(B[b], m, p));
    MultisetInsertAt(B[b], m, p);
  }

  lemma PutExisting(B: Buckets, b: nat, m: nat, p: Peer)
    requires WellPlaced(B) && b == BucketOf(p.key, |B|) && m < |B[b]| && B[b][m].key == p.key
    ensures WellPlaced(B[b := B[b][m := p]])
    ensures Rebinds(B, B[b := B[b][m := p]], p.key, Some(p)) && Get(B, p.key) == Some(B[b][m])
  {
    var s := B[b][m := p];
    forall k ensures FindIn(s, k) == if k == p.key then Some(p) else FindIn(B[b], k) {
      ReplaceFind(B[b], m, p, k);
    }
    ReplaceFind(B[b], m, p, p.key);
    GetUpdate(B, b, s);
    FindAt(B[b], m);
  }

  lemma PutExistingFlat(B: Buckets, b: nat, m: nat, p: Peer)
    requires b < |B| && m < |B[b]|
    ensures multiset(Flat(B[b := B[b][m := p]])) + multiset{B[b][m]} == multiset(Flat(B)) + multiset{p}
  {
    var t := B[b][m := p];
    FlatUpdate(B, b, t);
    MultisetReplace(B[b], m, p);
    Cancel(multiset(Flat(B[b := t])), multiset(Flat(B)), multiset(B[b]), multiset(t), multiset{B[b][m]}, multiset{p});
  }

  lemma RemovePlaced(s: seq<Peer>, m: nat, b: nat, n: nat)
    requires m < |s| && n > 0 && forall i :: 0 <= i < |s| ==> BucketOf(s[i].key, n) == b
    ensures forall i :: 0 <= i < |RemoveAt(s, m)| ==> BucketOf(RemoveAt(s, m)[i].key, n) == b
  {
    var t := RemoveAt(s, m);
    assert forall i :: 0 <= i < |t| ==> t[i] == s[if i < m then i else i + 1];
  }

  lemma TakeOut(B: Buckets, b: nat, m: nat)
    requires WellPlaced(B) && b < |B| && m < |B[b]|
    ensures WellPlaced(B[b := RemoveAt(B[b], m)])
    ensures Rebinds(B, B[b := RemoveAt(B[b], m)], B[b][m].key, None) && Get(B, B[b][m].key) == Some(B[b][m])
  {
    var was := B[b];
    var s := RemoveAt(was, m);
    forall k ensures Sorted(s) && FindIn(s, k) == if k == was[m].key then None else FindIn(was, k) {
      RemoveFind(was, m, k);
    }
    RemoveFind(was, m, 0);
    RemovePlaced(was, m, b, |B|);
    GetUpdate(B, b, s);
    FindAt(was, m);
  }

  lemma TakeOutFlat(B: Buckets, b: nat, m: nat)
    requires b < |B| && m < |B[b]|
    ensures multiset(Flat(B[b := RemoveAt(B[b], m)])) + multiset{B[b][m]} == multiset(Flat(B))
  {
    var t := RemoveAt(B[b], m);
    FlatUpdate(B, b, t);
    MultisetRemoveAt(B[b], m);
    Cancel(multiset(Flat(B[b := t])), multiset(Flat(B)), multiset(B[b]), multiset(t), multiset{B[b][m]}, multiset{});
  }

  // ---------------------------------------------------------------------------------------
  // Ageing of all buckets

  function AgedAll(B: Buckets, dt: nat): Buckets {
    if B == [] then [] else AgedAll(B[..|B| - 1], dt) + [Aged(B[|B| - 1], dt)]
  }

  lemma {:induction false} AgedAllAt(B: Buckets, dt: nat)
    ensures |AgedAll(B, dt)| == |B| && forall b :: 0 <= b < |B| ==> AgedAll(B, dt)[b] == Aged(B[b], dt)
  {
    if B != [] { AgedAllAt(B[..|B| - 1], dt); }
  }

  lemma AgedAppend(s: seq<Peer>, p: Peer, dt: nat)
    ensures Aged(s + [p], dt) == Aged(s, dt) + if p.time + dt < PEER_TIMEOUT then [p.(time := p.time + dt)] else []
    ensures LostSeeders(s + [p], dt) == LostSeeders(s, dt) + if p.time + dt >= PEER_TIMEOUT && p.flags.seeding then 1 else 0
  {
    assert (s + [p])[..|s|] == s;
  }

  lemma {:induction false} AgedConcat(s: seq<Peer>, t: seq<Peer>, dt: nat)
    ensures Aged(s + t, dt) == Aged(s, dt) + Aged(t, dt)
    ensures LostSeeders(s + t, dt) == LostSeeders(s, dt) + LostSeeders(t, dt)
  {
    if t == [] {
      assert s + t == s;
    } else {
      var init, p := t[..|t| - 1], t[|t| - 1];
      AgedConcat(s, init, dt);
      assert s + t == (s + init) + [p];
      AgedAppend(s + init, p, dt);
      var e := if p.time + dt < PEER_TIMEOUT then [p.(time := p.time + dt)] else [];
      assert (Aged(s, dt) + Aged(init, dt)) + e == Aged(s, dt) + (Aged(init, dt) + e);
    }
  }

  lemma FlatAppend(B: Buckets, s: seq<Peer>)
    ensures Flat(B + [s]) == Flat(B) + s
  {
    assert (B + [s])[..|B|] == B;
  }

  lemma {:induction false} FlatAged(B: Buckets, dt: nat)
    ensures Flat(AgedAll(B, dt)) == Aged(Flat(B), dt)
  {
    if B != [] {
      var init, last := B[..|B| - 1], B[|B| - 1];
      FlatAged(init, dt);
      AgedConcat(Flat(init), last, dt);
      FlatAppend(AgedAll(init, dt), Aged(last, dt));
    }
  }

  lemma {:induction false} AgedKeys(s: seq<Peer>, dt: nat, i: nat) returns (j: nat)
    requires i < |Aged(s, dt)|
    ensures j < |s| && Aged(s, dt)[i].key == s[j].key
  {
    var init := s[..|s| - 1];
    if i < |Aged(init, dt)| { j := AgedKeys(init, dt, i); } else { j := |s| - 1; }
  }

  /** Ageing ages and drops exactly as the map says. */
  lemma AgedGet(B: Buckets, dt: nat)
    requires WellPlaced(B)
    ensures WellPlaced(AgedAll(B, dt))
    ensures forall k :: Get(AgedAll(B, dt), k) == AgedPeer(Get(B, k), dt)
  {
    var B' := AgedAll(B, dt);
    AgedAllAt(B, dt);
    forall b | 0 <= b < |B| ensures Sorted(B'[b]) {
      AgedSorted(B[b], dt);
    }
    forall b, i | 0 <= b < |B| && 0 <= i < |B'[b]| ensures BucketOf(B'[b][i].key, |B|) == b {
      var j := AgedKeys(B[b], dt, i);
    }
    forall k ensures Get(B', k) == AgedPeer(Get(B, k), dt) {
      AgedFind(B[BucketOf(k, |B|)], dt, k);
    }
  }

  // ---------------------------------------------------------------------------------------
  // Re-splitting

  /** The peers of F dealt out to n buckets, in order. */
  function Dealt(F: seq<Peer>, n: nat): (B: Buckets)
    requires n > 0
    ensures |B| == n
  {
    if F == [] then seq(n, _ => [])
    else
      var B, p := Dealt(F[..|F| - 1], n), F[|F| - 1];
      var h := BucketOf(p.key, n);
      B[h := B[h] + [p]]
  }

  lemma {:induction false} FlatOfEmpty(B: Buckets)
    requires forall b :: 0 <= b < |B| ==> B[b] == []
    ensures Flat(B) == []
  {
    if B != [] { FlatOfEmpty(B[..|B| - 1]); }
  }

  lemma AppendFlat(B: Buckets, h: nat, p: Peer)
    requires h < |B|
    ensures multiset(Flat(B[h := B[h] + [p]])) == multiset(Flat(B)) + multiset{p}
  {
    var t := B[h] + [p];
    FlatUpdate(B, h, t);
    assert multiset(t) == multiset(B[h]) + multiset{p};
    Cancel(multiset(Flat(B[h := t])), multiset(Flat(B)), multiset(B[h]), multiset(t), multiset{}, multiset{p});
  }

  lemma {:induction false} DealtFlat(F: seq<Peer>, n: nat)
    requires n > 0
    ensures multiset(Flat(Dealt(F, n))) == multiset(F)
  {
    if F == [] {
      FlatOfEmpty(Dealt(F, n));
    } else {
      var init, p := F[..|F| - 1], F[|F| - 1];
      DealtFlat(init, n);
      var B, h := Dealt(init, n), BucketOf(p.key, n);
      AppendFlat(B, h, p);
      assert F == init + [p];
    }
  }

  lemma {:induction false} DealtPlaced(F: seq<Peer>, n: nat)
    requires n > 0
    ensures forall b, i :: 0 <= b < n && 0 <= i < |Dealt(F, n)[b]| ==> BucketOf(Dealt(F, n)[b][i].key, n) == b
  {
    if F != [] { DealtPlaced(F[..|F| - 1], n); }
  }

  /** qsort with the key comparison. */
  function SortPeers(s: seq<Peer>): seq<Peer> {
    if s == [] then [] else SortedInsert(SortPeers(s[..|s| - 1]), s[|s| - 1])
  }

  function SortedInsert(s: seq<Peer>, p: Peer): seq<Peer> {
    if s == [] || s[|s| - 1].key < p.key then s + [p] else SortedInsert(s[..|s| - 1], p) + [s[|s| - 1]]
  }

  ghost predicate DistinctKeys(s: seq<Peer>) {
    forall i, j :: 0 <= i < j < |s| ==> s[i].key != s[j].key
  }

  lemma SortedAppend(s: seq<Peer>, p: Peer)
    requires Sorted(s) && forall q: Peer :: q in s ==> q.key < p.key
    ensures Sorted(s + [p])
  {
    forall i | 0 <= i < |s| ensures s[i].key < p.key {
      assert s[i] in s;
    }
  }

  lemma {:induction false} SortedInsertCorrect(s: seq<Peer>, p: Peer)
    requires Sorted(s) && forall i :: 0 <= i < |s| ==> s[i].key != p.key
    ensures Sorted(SortedInsert(s, p)) && multiset(SortedInsert(s, p)) == multiset(s) + multiset{p}
  {
    if s == [] || s[|s| - 1].key < p.key {
      SortedAppend(s, p);
    } else {
      var init, last := s[..|s| - 1], s[|s| - 1];
      SortedInsertCorrect(init, p);
      assert s == init + [last];
      var t := SortedInsert(init, p);
      forall q: Peer | q in t ensures q.key < last.key {
        assert q in multiset(t);
        assert q in init || q == p;
      }
      SortedAppend(t, last);
    }
  }

  lemma {:induction false} SortPeersCorrect(s: seq<Peer>)
    requires DistinctKeys(s)
    ensures Sorted(SortPeers(s)) && multiset(SortPeers(s)) == multiset(s)
  {
    if s != [] {
      var init, last := s[..|s| - 1], s[|s| - 1];
      SortPeersCorrect(init);
      var t := SortPeers(init);
      forall i | 0 <= i < |t| ensures t[i].key != last.key {
        MemberOf(t, init, i);
      }
      SortedInsertCorrect(t, last);
      LastApart(s);
    }
  }

  lemma MemberOf(s: seq<Peer>, t: seq<Peer>, i: nat)
    requires multiset(s) == multiset(t) && i < |s|
    ensures s[i] in t
  {
    assert s[i] in multiset(s);
  }

  lemma LastApart(s: seq<Peer>)
    requires s != []
    ensures multiset(s) == multiset(s[..|s| - 1]) + multiset{s[|s| - 1]}
  {
    assert s == s[..|s| - 1] + [s[|s| - 1]];
  }

  function SortAll(B: Buckets): Buckets {
    if B == [] then [] else SortAll(B[..|B| - 1]) + [SortPeers(B[|B| - 1])]
  }

  lemma {:induction false} SortAllAt(B: Buckets)
    ensures |SortAll(B)| == |B| && forall b :: 0 <= b < |B| ==> SortAll(B)[b] == SortPeers(B[b])
  {
    if B != [] { SortAllAt(B[..|B| - 1]); }
  }

  lemma {:induction false} SortAllFlat(B: Buckets)
    requires forall b :: 0 <= b < |B| ==> DistinctKeys(B[b])
    ensures multiset(Flat(SortAll(B))) == multiset(Flat(B))
  {
    if B != [] {
      var init, last := B[..|B| - 1], B[|B| - 1];
      SortAllFlat(init);
      SortPeersCorrect(last);
      FlatAppend(SortAll(init), SortPeers(last));
    }
  }

  /** The list dealt out to n buckets and sorted. */
  function Resplit(B: Buckets, n: nat): Buckets
    requires n > 0
  {
    SortAll(Dealt(FlatOf(B), n))
  }

  function FlatOf(B: Buckets): (F: seq<Peer>)
    ensures F == Flat(B)
  {
    if B == [] then [] else FlatOf(B[..|B| - 1]) + B[|B| - 1]
  }

  lemma {:induction false} DealtMember(F: seq<Peer>, n: nat, b: nat, p: Peer)
    requires n > 0 && b < n && p in Dealt(F, n)[b]
    ensures p in F
  {
    var init, last := F[..|F| - 1], F[|F| - 1];
    if p in Dealt(init, n)[b] { DealtMember(init, n, b, p); }
  }

  lemma {:induction false} DealtDistinct(F: seq<Peer>, n: nat)
    requires n > 0 && DistinctKeys(F)
    ensures forall b :: 0 <= b < n ==> DistinctKeys(Dealt(F, n)[b])
  {
    if F != [] {
      var init, p := F[..|F| - 1], F[|F| - 1];
      DealtDistinct(init, n);
      var s := Dealt(init, n)[BucketOf(p.key, n)];
      forall i | 0 <= i < |s| ensures s[i].key != p.key {
        DealtMember(init, n, BucketOf(p.key, n), s[i]);
      }
    }
  }

  ghost predicate Apart(B: Buckets) {
    && (forall b :: 0 <= b < |B| ==> Sorted(B[b]))
    && forall b, c, p: Peer, q: Peer :: 0 <= b < c < |B| && p in B[b] && q in B[c] ==> p.key != q.key
  }

  lemma {:induction false} FlatDistinct(B: Buckets)
    requires Apart(B)
    ensures DistinctKeys(Flat(B))
  {
    if B != [] {
      var n := |B| - 1;
      var F, s := Flat(B[..n]), B[n];
      FlatDistinct(B[..n]);
      forall i, j | 0 <= i < |F| && 0 <= j < |s| ensures F[i].key != s[j].key {
        FlatMember(B[..n], F[i]);
        var b :| 0 <= b < n && F[i] in B[..n][b];
        assert F[i] in B[b] && s[j] in B[n];
      }
    }
  }

  lemma WellPlacedApart(B: Buckets)
    requires WellPlaced(B)
    ensures Apart(B)
  {
    forall b, c, p: Peer, q: Peer | 0 <= b < c < |B| && p in B[b] && q in B[c] ensures p.key != q.key {
      var i :| 0 <= i < |B[b]| && B[b][i] == p;
      var j :| 0 <= j < |B[c]| && B[c][j] == q;
      assert BucketOf(p.key, |B|) == b && BucketOf(q.key, |B|) == c;
    }
  }

  lemma ResplitPlaced(B: Buckets, n: nat)
    requires WellPlaced(B) && n > 0
    ensures WellPlaced(Resplit(B, n)) && |Resplit(B, n)| == n
    ensures multiset(Flat(Resplit(B, n))) == multiset(Flat(B))
  {
    var F := Flat(B);
    WellPlacedApart(B);
    FlatDistinct(B);
    DealtDistinct(F, n);
    DealtFlat(F, n);
    DealtPlaced(F, n);
    var D := Dealt(F, n);
    SortAllAt(D);
    SortAllFlat(D);
    forall b | 0 <= b < n ensures Sorted(SortAll(D)[b]) {
      SortPeersCorrect(D[b]);
    }
    forall b, i | 0 <= b < n && 0 <= i < |SortAll(D)[b]| ensures BucketOf(SortAll(D)[b][i].key, n) == b {
      SortPeersCorrect(D[b]);
      assert SortPeers(D[b])[i] in multiset(D[b]);
      var j :| 0 <= j < |D[b]| && D[b][j] == SortPeers(D[b])[i];
    }
  }

  /** Well placed lists with the same peers are the same map. */
  lemma SamePeersSameMap(B: Buckets, B': Buckets)
    requires WellPlaced(B) && WellPlaced(B') && multiset(Flat(B)) == multiset(Flat(B'))
    ensures SameMap(B, B')
  {
    forall k ensures Get(B, k) == Get(B', k) {
      GetTransfers(B, B', k);
      GetTransfers(B', B, k);
    }
  }

  lemma GetTransfers(B: Buckets, B': Buckets, k: nat)
    requires WellPlaced(B) && WellPlaced(B') && multiset(Flat(B)) == multiset(Flat(B'))
    ensures Get(B, k).Some? ==> Get(B', k) == Get(B, k)
  {
    if Get(B, k).Some? {
      var p := Get(B, k).value;
      var i := FindIsMember(B[BucketOf(k, |B|)], k);
      GetMember(B, p);
      GetMember(B', p);
      assert p in multiset(Flat(B));
    }
  }
}
