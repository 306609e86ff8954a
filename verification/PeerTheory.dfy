/**
  Peers, sorted runs of peers and hash-selected buckets of such runs, as values.

  A peer is identified by its ip and port: six bytes compared with memcmp, read here as one
  big-endian number. `Get` reads a whole bucket list as a map from these keys to peers.
 */
module PeerTheory {

  datatype Option<+T> = None | Some(value: T)

  /** The flag bits 0x80, 0x40 and 0x20 of a peer. */
  datatype Flags = Flags(seeding: bool, completed: bool, stopped: bool)

  datatype Peer = Peer(key: nat, flags: Flags, time: nat)

  const PEER_TIMEOUT := 45

  ghost predicate Sorted(s: seq<Peer>) {
    forall i, j :: 0 <= i < j < |s| ==> s[i].key < s[j].key
  }

  /** The peer with key k in a run of peers. */
  function FindIn(s: seq<Peer>, k: nat): Option<Peer> {
    if s == [] then None
    else if s[|s| - 1].key == k then Some(s[|s| - 1])
    else FindIn(s[..|s| - 1], k)
  }

  lemma {:induction false} FindNone(s: seq<Peer>, k: nat)
    ensures FindIn(s, k) == None <==> forall i :: 0 <= i < |s| ==> s[i].key != k
  {
    if s != [] { FindNone(s[..|s| - 1], k); }
  }

  lemma {:induction false} FindAt(s: seq<Peer>, i: nat)
    requires Sorted(s) && i < |s|
    ensures FindIn(s, s[i].key) == Some(s[i])
  {
    if i < |s| - 1 { FindAt(s[..|s| - 1], i); }
  }

  /** What FindIn returns is in the run and has the key. */
  lemma {:induction false} FindIsMember(s: seq<Peer>, k: nat) returns (i: nat)
    requires FindIn(s, k).Some?
    ensures i < |s| && s[i] == FindIn(s, k).value && s[i].key == k
  {
    if s[|s| - 1].key == k { i := |s| - 1; } else { i := FindIsMember(s[..|s| - 1], k); }
  }

  lemma FindAppend(s: seq<Peer>, p: Peer, k: nat)
    ensures FindIn(s + [p], k) == if p.key == k then Some(p) else FindIn(s, k)
  {
    assert (s + [p])[..|s|] == s;
  }

  lemma FindSubset(s: seq<Peer>, t: seq<Peer>, k: nat)
    requires Sorted(t)
    requires forall p: Peer :: p.key == k && p in s ==> p in t
    ensures FindIn(s, k).Some? ==> FindIn(t, k) == FindIn(s, k)
  {
    if FindIn(s, k).Some? {
      var i := FindIsMember(s, k);
      assert s[i] in t;
      var j :| 0 <= j < |t| && t[j] == s[i];
      FindAt(t, j);
    }
  }

  /** Two runs with the same peers answer alike. */
  lemma SameMembersFind(s: seq<Peer>, t: seq<Peer>, k: nat)
    requires Sorted(s) && Sorted(t)
    requires forall p: Peer :: p.key == k ==> (p in s <==> p in t)
    ensures FindIn(s, k) == FindIn(t, k)
  {
    FindSubset(s, t, k);
    FindSubset(t, s, k);
  }

  // ---------------------------------------------------------------------------------------
  // Edits of one run

  function InsertAt(s: seq<Peer>, m: nat, p: Peer): seq<Peer>
    requires m <= |s|
  {
    s[..m] + [p] + s[m..]
  }

  function RemoveAt(s: seq<Peer>, m: nat): seq<Peer>
    requires m < |s|
  {
    s[..m] + s[m + 1..]
  }

  /** m is where key k belongs. */
  ghost predicate Splits(s: seq<Peer>, m: nat, k: nat) {
    && m <= |s|
    && (forall i :: 0 <= i < m ==> s[i].key < k)
    && (forall i :: m <= i < |s| ==> k < s[i].key)
  }

  lemma InsertSorted(s: seq<Peer>, m: nat, p: Peer)
    requires Sorted(s) && Splits(s, m, p.key)
    ensures Sorted(InsertAt(s, m, p))
  {
    var t := InsertAt(s, m, p);
    assert forall i :: 0 <= i < |t| ==> t[i] == if i < m then s[i] else if i == m then p else s[i - 1];
  }

  lemma InsertFind(s: seq<Peer>, m: nat, p: Peer, k: nat)
    requires Sorted(s) && Splits(s, m, p.key)
    ensures Sorted(InsertAt(s, m, p))
    ensures FindIn(InsertAt(s, m, p), k) == if k == p.key then Some(p) else FindIn(s, k)
  {
    var t := InsertAt(s, m, p);
    InsertSorted(s, m, p);
    if k == p.key {
      FindAt(t, m);
    } else {
      assert s == s[..m] + s[m..];
      assert forall q :: q in t <==> q in s || q == p;
      SameMembersFind(s, t, k);
    }
  }

  lemma ReplaceFind(s: seq<Peer>, m: nat, p: Peer, k: nat)
    requires Sorted(s) && m < |s| && s[m].key == p.key
    ensures Sorted(s[m := p])
    ensures FindIn(s[m := p], k) == if k == p.key then Some(p) else FindIn(s, k)
  {
    var t := s[m := p];
    if k == p.key {
      FindAt(t, m);
    } else {
      forall q: Peer | q.key == k ensures q in s <==> q in t {
        if q in s {
          var i :| 0 <= i < |s| && s[i] == q;
          assert t[i] == q;
        }
        if q in t {
          var i :| 0 <= i < |t| && t[i] == q;
          assert s[i] == q;
        }
      }
      SameMembersFind(s, t, k);
    }
  }

  lemma RemoveFind(s: seq<Peer>, m: nat, k: nat)
    requires Sorted(s) && m < |s|
    ensures Sorted(RemoveAt(s, m))
    ensures FindIn(RemoveAt(s, m), k) == if k == s[m].key then None else FindIn(s, k)
  {
    var t := RemoveAt(s, m);
    assert forall i :: 0 <= i < |t| ==> t[i] == s[if i < m then i else i + 1];
    if k == s[m].key {
      FindNone(t, k);
    } else {
      forall q: Peer | q.key == k ensures q in s <==> q in t {
        if q in s {
          var i :| 0 <= i < |s| && s[i] == q;
          assert t[if i < m then i else i - 1] == q;
        }
      }
      SameMembersFind(s, t, k);
    }
  }

  // ---------------------------------------------------------------------------------------
  // Ageing

  /** The peers that survive dt more minutes, with their ages advanced. */
  function Aged(s: seq<Peer>, dt: nat): seq<Peer> {
    if s == [] then []
    else
      var last := s[|s| - 1];
      Aged(s[..|s| - 1], dt) + if last.time + dt < PEER_TIMEOUT then [last.(time := last.time + dt)] else []
  }

  /** The number of seeders among those that do not survive. */
  function LostSeeders(s: seq<Peer>, dt: nat): nat {
    if s == [] then 0
    else
      var last := s[|s| - 1];
      LostSeeders(s[..|s| - 1], dt) + if last.time + dt >= PEER_TIMEOUT && last.flags.seeding then 1 else 0
  }

  lemma {:induction false} AgedSorted(s: seq<Peer>, dt: nat)
    requires Sorted(s)
    ensures Sorted(Aged(s, dt)) && |Aged(s, dt)| <= |s|
    ensures forall p :: p in Aged(s, dt) ==> p.time < PEER_TIMEOUT
    ensures s != [] ==> forall p :: p in Aged(s, dt) ==> p.key <= s[|s| - 1].key
  {
    if s != [] {
      AgedSorted(s[..|s| - 1], dt);
    }
  }

  ghost function AgedPeer(p: Option<Peer>, dt: nat): Option<Peer> {
    if p.Some? && p.value.time + dt < PEER_TIMEOUT then Some(p.value.(time := p.value.time + dt)) else None
  }

  lemma {:induction false} AgedFind(s: seq<Peer>, dt: nat, k: nat)
    requires Sorted(s)
    ensures FindIn(Aged(s, dt), k) == AgedPeer(FindIn(s, k), dt)
  {
    if s != [] {
      var init, last := s[..|s| - 1], s[|s| - 1];
      AgedFind(init, dt, k);
      if last.key == k { FindNone(init, k); }
      AgedLast(s, dt, k);
    }
  }

  lemma AgedLast(s: seq<Peer>, dt: nat, k: nat)
    requires s != []
    ensures var last := s[|s| - 1];
            FindIn(Aged(s, dt), k) ==
            if last.key == k && last.time + dt < PEER_TIMEOUT then Some(last.(time := last.time + dt))
            else FindIn(Aged(s[..|s| - 1], dt), k)
  {
    var init, last := s[..|s| - 1], s[|s| - 1];
    if last.time + dt < PEER_TIMEOUT {
      FindAppend(Aged(init, dt), last.(time := last.time + dt), k);
    } else {
      assert Aged(init, dt) + [] == Aged(init, dt);
    }
  }
}
