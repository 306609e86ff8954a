/** The growable sorted vector of peers (src/ot_vector.c). */
module PeerVector {
  import opened PeerTheory

  const MIN_MEMBERS := 2
  const GROW_RATIO := 2
  const SHRINK_THRESH := 4
  const SHRINK_RATIO := 2

  /**
    An ot_vector: the members in use and the number there is room for. The C struct is embedded
    by value in its owner, which reassigns it here.
   */
  datatype OtVector = OtVector(data: seq<Peer>, space: nat) {
    ghost predicate Valid() {
      |data| <= space
    }
  }

  const EMPTY := OtVector([], 0)

  /** Where the key is, or else where it belongs. */
  method BinarySearch(key: nat, data: seq<Peer>) returns (m: nat, exact: bool)
    requires Sorted(data)
    ensures exact ==> m < |data| && data[m].key == key
    ensures !exact ==> Splits(data, m, key)
  {
    var base, interval := 0, |data|;
    while interval > 0
      invariant 0 <= base && 0 <= interval && base + interval <= |data|
      invariant forall i :: 0 <= i < base ==> data[i].key < key
      invariant forall i :: base + interval <= i < |data| ==> key < data[i].key
    {
      var lookat := base + interval / 2;
      if data[lookat].key == key {
        base := lookat;
        break;
      }
      if data[lookat].key < key {
        base := lookat + 1;
        interval := interval - 1;
      }
      interval := interval / 2;
    }
    m, exact := base, interval != 0;
  }

  /** Room for one more member; false when memory runs out. */
  method Grow(v: OtVector, mallocOk: bool) returns (ok: bool, v': OtVector)
    requires v.Valid()
    ensures v'.Valid() && v'.data == v.data
    ensures ok ==> |v'.data| < v'.space == if |v.data| < v.space then v.space else if v.space > 0 then 2 * v.space else 2
    ensures !ok ==> !mallocOk && v' == v
  {
    v' := v;
    if |v.data| + 1 > v.space {
      var space := if v.space > 0 then GROW_RATIO * v.space else MIN_MEMBERS;
      if !mallocOk { return false, v; }
      v' := v.(space := space);
    }
    ok := true;
  }

  /**
    Finds the slot of the key or moves the members behind it to make one. The new slot still
    holds whatever was there.
   */
  method FindOrInsert(v: OtVector, key: nat, mallocOk: bool) returns (ok: bool, v': OtVector, m: nat, exact: bool)
    requires v.Valid() && Sorted(v.data)
    ensures v'.Valid()
    ensures !ok ==> !mallocOk && !exact && v' == v && Splits(v.data, m, key)
    ensures exact ==> ok && v' == v && m < |v.data| && v.data[m].key == key
    ensures ok && !exact ==> Splits(v.data, m, key) && m < |v'.data| && v'.data == InsertAt(v.data, m, v'.data[m])
  {
    v' := v;
    m, exact := BinarySearch(key, v.data);
    if exact { return true, v, m, exact; }
    ok, v' := Grow(v, mallocOk);
    if !ok { return; }
    var rest := v'.data[m..];
    v' := v'.(data := v'.data[..m] + (if rest == [] then [Peer(key, Flags(false, false, false), 0)] else rest[..1]) + rest);
  }

  /** Less than a quarter of the room is in use, and there is room to give back. */
  predicate ShrinkDue(members: nat, space: nat) {
    members > 0 && members * 4 < space && space >= 4
  }

  /**
    Gives room back after removals. Nobody looks whether the smaller block could be had: if not,
    the members are lost, while the size still counts them.
   */
  method Fixup(v: OtVector, mallocOk: bool) returns (lost: bool, v': OtVector)
    requires v.Valid()
    ensures lost <==> !mallocOk && ShrinkDue(|v.data|, v.space)
    ensures v'.space <= v.space && v'.data == if lost then [] else v.data
    ensures !lost ==> v'.Valid() && (v.data == [] ==> v' == EMPTY)
    ensures |v.data| * 4 >= v'.space || v'.space < 4
    ensures v'.space == v.space || v.data == [] || |v.data| * 4 <= 2 * v'.space
  {
    if v.data == [] { return false, EMPTY; }
    var space, needFix := v.space, 0;
    while |v.data| * SHRINK_THRESH < space && space >= SHRINK_RATIO * MIN_MEMBERS
      invariant |v.data| <= space <= v.space && 0 <= needFix
      invariant if needFix == 0 then space == v.space else ShrinkDue(|v.data|, v.space) && |v.data| * 4 <= 2 * space
      decreases space
    {
      space := space / SHRINK_RATIO;
      needFix := needFix + 1;
    }
    lost := needFix > 0 && !mallocOk;
    v' := OtVector(if lost then [] else v.data, space);
  }

  /** Takes the key out: 0 if it was not there, 2 if it was seeding, else 1. */
  method Remove(v: OtVector, key: nat, mallocOk: bool) returns (r: nat, lost: bool, v': OtVector, m: nat)
    requires v.Valid() && Sorted(v.data)
    ensures r == 0 ==> !lost && v' == v && Splits(v.data, m, key)
    ensures r != 0 ==> m < |v.data| && v.data[m].key == key && r == if v.data[m].flags.seeding then 2 else 1
    ensures r != 0 ==> (lost <==> !mallocOk && ShrinkDue(|v.data| - 1, v.space))
    ensures r != 0 ==> v'.data == if lost then [] else RemoveAt(v.data, m)
    ensures !lost ==> v'.Valid()
  {
    var exact;
    m, exact := BinarySearch(key, v.data);
    if !exact { return 0, false, v, m; }
    r := if v.data[m].flags.seeding then 2 else 1;
    lost, v' := Fixup(v.(data := v.data[..m] + v.data[m + 1..]), mallocOk);
  }

  /** Two members in room for eight: taking one out without memory loses the other one. */
  method RemovalCounterexample(p: Peer, q: Peer) returns (v: OtVector, r: nat, lost: bool, v': OtVector)
    requires p.key < q.key
    ensures v == OtVector([p, q], 8) && r != 0 && lost && v'.data == []
  {
    v := OtVector([p, q], 8);
    assert v.data[0] == p;
    var m;
    r, lost, v', m := Remove(v, p.key, false);
  }

  /** Adds a member at the end, as re-splitting does. */
  method Append(v: OtVector, p: Peer, mallocOk: bool) returns (ok: bool, v': OtVector)
    requires v.Valid()
    ensures v'.Valid() && (mallocOk ==> ok)
    ensures ok ==> v'.data == v.data + [p]
  {
    ok, v' := Grow(v, mallocOk);
    if ok { v' := v'.(data := v'.data + [p]); }
  }

  lemma AgedStep(s: seq<Peer>, i: nat, dt: nat)
    requires i < |s|
    ensures Aged(s[..i + 1], dt) ==
            Aged(s[..i], dt) + if s[i].time + dt < PEER_TIMEOUT then [s[i].(time := s[i].time + dt)] else []
    ensures LostSeeders(s[..i + 1], dt) ==
            LostSeeders(s[..i], dt) + if s[i].time + dt >= PEER_TIMEOUT && s[i].flags.seeding then 1 else 0
  {
    var upto := s[..i + 1];
    assert upto[..|upto| - 1] == s[..i] && upto[|upto| - 1] == s[i];
  }

  /** Up to i, the block s has been worked off: the survivors stand at the front. */
  ghost predicate Worked(peers: seq<Peer>, s: seq<Peer>, i: nat, kept: nat, lost: nat, dt: nat) {
    && |s| <= |peers| && kept <= i <= |s|
    && peers[..kept] == Aged(s[..i], dt) && lost == LostSeeders(s[..i], dt)
    && forall j :: i <= j < |s| ==> peers[j] == s[j]
  }

  lemma WorkedKeep(peers: seq<Peer>, s: seq<Peer>, i: nat, kept: nat, lost: nat, dt: nat)
    requires Worked(peers, s, i, kept, lost, dt) && i < |s| && s[i].time + dt < PEER_TIMEOUT
    ensures var q := s[i].(time := dt + s[i].time);
            Worked(peers[i := q][kept := q], s, i + 1, kept + 1, lost, dt)
  {
    AgedStep(s, i, dt);
    var q := s[i].(time := dt + s[i].time);
    assert peers[i := q][kept := q][..kept + 1] == peers[..kept] + [q];
  }

  lemma WorkedDrop(peers: seq<Peer>, s: seq<Peer>, i: nat, kept: nat, lost: nat, dt: nat)
    requires Worked(peers, s, i, kept, lost, dt) && i < |s| && s[i].time + dt >= PEER_TIMEOUT
    ensures Worked(peers, s, i + 1, kept, lost + if s[i].flags.seeding then 1 else 0, dt)
  {
    AgedStep(s, i, dt);
    assert Aged(s[..i], dt) + [] == Aged(s[..i], dt);
  }

  /** The first scan only advances ages, up to the first peer that timed out. */
  method AgeLeading(peers: array<Peer>, count: nat, dt: nat) returns (i: nat)
    requires count <= peers.Length
    modifies peers
    ensures Worked(peers[..], old(peers[..count]), i, i, 0, dt)
  {
    ghost var s := peers[..count];
    i := 0;
    while i < count && dt + peers[i].time < PEER_TIMEOUT
      invariant Worked(peers[..], s, i, i, 0, dt)
    {
      WorkedKeep(peers[..], s, i, i, 0, dt);
      peers[i] := peers[i].(time := dt + peers[i].time);
      i := i + 1;
    }
  }

  /**
    Advances the age of every peer of the block by dt minutes and moves those that have not
    timed out to its front, in order. Returns how many were removed, and counts the seeders
    among them.
   */
  method CleanSingleBucket(peers: array<Peer>, count: nat, dt: nat) returns (removed: nat, removedSeeders: nat)
    requires count <= peers.Length
    modifies peers
    ensures removed <= count && peers[..count - removed] == Aged(old(peers[..count]), dt)
    ensures removedSeeders == LostSeeders(old(peers[..count]), dt)
  {
    ghost var s := peers[..count];
    var i := AgeLeading(peers, count, dt);
    var insertPoint: nat := i;
    removedSeeders := 0;
    while i < count
      invariant Worked(peers[..], s, i, insertPoint, removedSeeders, dt)
    {
      if dt + peers[i].time < PEER_TIMEOUT {
        WorkedKeep(peers[..], s, i, insertPoint, removedSeeders, dt);
        peers[i] := peers[i].(time := dt + peers[i].time);
        peers[insertPoint] := peers[i];
        insertPoint := insertPoint + 1;
      } else {
        WorkedDrop(peers[..], s, i, insertPoint, removedSeeders, dt);
        if peers[i].flags.seeding { removedSeeders := removedSeeders + 1; }
      }
      i := i + 1;
    }
    assert s[..i] == s;
    removed := i - insertPoint;
  }
}
