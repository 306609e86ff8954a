/**
  The open-addressed hash tables of a constant database.

  A table has twice as many slots as entries; an entry goes to the first free slot at or after
  its home slot, cyclically. This module says what the tables hold and proves the two facts
  that make them work: a free slot always exists, and probing from a hash's home slot meets the
  entries of that hash in the order in which they were added.
 */
module CdbTable {
  import opened Arithmetic

  /** A hash and the file position of its record; position 0 marks a free slot. */
  datatype Hp = Hp(h: nat, p: nat)

  const FREE := Hp(0, 0)

  /** The slot at which the search for hash h starts in a table of n slots. */
  function Home(n: nat, h: nat): (s: nat)
    requires n > 0
    ensures s < n
  {
    Mod(h / 256, n)
  }

  /** The slot at distance d from the home slot of h. */
  function Slot(n: nat, h: nat, d: nat): (s: nat)
    requires d < n
    ensures s < n
  {
    var x := Home(n, h) + d;
    if x < n then x else x - n
  }

  /** The home slot is given by the hash without its low byte; the slots after it go round. */
  lemma SlotIs(n: nat, h: nat, d: nat)
    requires d < n
    ensures Home(n, h) == h / 256 % n && Slot(n, h, d) == (h / 256 + d) % n
  {
    var q := h / 256;
    ModIsRemainder(q, n);
    RemainderUnique(q + d, n, if q % n + d < n then q / n else q / n + 1, Slot(n, h, d));
  }

  /** The distance from the home slot of h to slot s. */
  function Distance(n: nat, h: nat, s: nat): (d: nat)
    requires s < n
    ensures d < n && Slot(n, h, d) == s
  {
    if Home(n, h) <= s then s - Home(n, h) else s + n - Home(n, h)
  }

  predicate InBucket(e: Hp, b: nat) {
    e.h % 256 == b
  }

  /** Entry e sits at distance d from its home, and everything before it on the way is taken. */
  ghost predicate Placed(T: seq<Hp>, e: Hp, d: nat) {
    && d < |T|
    && T[Slot(|T|, e.h, d)] == e
    && forall d' :: 0 <= d' < d ==> T[Slot(|T|, e.h, d')].p != 0
  }

  /**
    T is the table of bucket b after the first n of the entries E have been added;
    D gives the distance at which each entry was put.
   */
  ghost predicate TableHolds(T: seq<Hp>, E: seq<Hp>, n: nat, b: nat, D: seq<nat>) {
    && n <= |E| && |D| == |E|
    && (forall j :: 0 <= j < n && InBucket(E[j], b) ==> Placed(T, E[j], D[j]))
    && (forall s :: 0 <= s < |T| && T[s].p != 0 ==> Owned(s, |T|, T[s], E, n, b, D))
    && (forall i, j :: 0 <= i < j < n && InBucket(E[i], b) && E[i].h == E[j].h ==> D[i] < D[j])
  }

  ghost predicate Owned(s: nat, len: nat, e: Hp, E: seq<Hp>, n: nat, b: nat, D: seq<nat>)
    requires n <= |E| && |D| == |E|
  {
    exists j :: 0 <= j < n && InBucket(E[j], b) && E[j] == e && D[j] < len && Slot(len, E[j].h, D[j]) == s
  }

  function Count(E: seq<Hp>, b: nat): nat {
    if E == [] then 0 else Count(E[..|E| - 1], b) + if InBucket(E[|E| - 1], b) then 1 else 0
  }

  // ---------------------------------------------------------------------------------------
  // A free slot exists

  ghost function UsedSlots(len: nat, E: seq<Hp>, n: nat, b: nat, D: seq<nat>): set<nat>
    requires n <= |E| == |D|
  {
    if n == 0 then {}
    else if InBucket(E[n - 1], b) && D[n - 1] < len then UsedSlots(len, E, n - 1, b, D) + {Slot(len, E[n - 1].h, D[n - 1])}
    else UsedSlots(len, E, n - 1, b, D)
  }

  lemma {:induction false} UsedSlotsBound(len: nat, E: seq<Hp>, n: nat, b: nat, D: seq<nat>)
    requires n <= |E| == |D|
    ensures |UsedSlots(len, E, n, b, D)| <= Count(E[..n], b)
  {
    if n > 0 {
      UsedSlotsBound(len, E, n - 1, b, D);
      assert E[..n][..n - 1] == E[..n - 1];
    }
  }

  lemma {:induction false} UsedSlotsComplete(len: nat, E: seq<Hp>, n: nat, b: nat, D: seq<nat>, j: nat)
    requires n <= |E| == |D| && j < n && InBucket(E[j], b) && D[j] < len
    ensures Slot(len, E[j].h, D[j]) in UsedSlots(len, E, n, b, D)
  {
    if j < n - 1 {
      UsedSlotsComplete(len, E, n - 1, b, D, j);
    }
  }

  lemma {:induction false} Interval(n: nat) returns (s: set<nat>)
    ensures forall x :: x in s <==> 0 <= x < n
    ensures |s| == n
  {
    if n == 0 {
      s := {};
    } else {
      var s' := Interval(n - 1);
      s := s' + {n - 1};
    }
  }

  lemma SubsetSize(a: set<nat>, b: set<nat>)
    requires a <= b
    ensures |a| <= |b|
  {
    if a != {} {
      var x :| x in a;
      SubsetSize(a - {x}, b - {x});
    }
  }

  /** Pigeonhole: a table with more slots than entries has a free one. */
  lemma FreeSlotExists(T: seq<Hp>, E: seq<Hp>, n: nat, b: nat, D: seq<nat>) returns (s: nat)
    requires TableHolds(T, E, n, b, D) && Count(E[..n], b) < |T|
    ensures s < |T| && T[s].p == 0
  {
    if x :| 0 <= x < |T| && T[x].p == 0 {
      s := x;
    } else {
      var all := Interval(|T|);
      var used := UsedSlots(|T|, E, n, b, D);
      forall x | x in all ensures x in used {
        var j :| 0 <= j < n && InBucket(E[j], b) && E[j] == T[x] && D[j] < |T| && Slot(|T|, E[j].h, D[j]) == x;
        UsedSlotsComplete(|T|, E, n, b, D, j);
      }
      SubsetSize(all, used);
      UsedSlotsBound(|T|, E, n, b, D);
      assert false;
    }
  }

  // ---------------------------------------------------------------------------------------
  // Adding an entry

  lemma SlotInjective(n: nat, h: nat, d: nat, d': nat)
    requires d < n && d' < n && Slot(n, h, d) == Slot(n, h, d')
    ensures d == d'
  {
  }

  /** Entries of other buckets change nothing. */
  lemma SkipEntries(T: seq<Hp>, E: seq<Hp>, n: nat, m: nat, b: nat, D: seq<nat>)
    requires TableHolds(T, E, n, b, D) && n <= m <= |E|
    requires forall j :: n <= j < m ==> !InBucket(E[j], b)
    ensures TableHolds(T, E, m, b, D)
  {
    forall s | 0 <= s < |T| && T[s].p != 0 ensures Owned(s, |T|, T[s], E, m, b, D) {
      assert Owned(s, |T|, T[s], E, n, b, D);
    }
  }

  /** The table after the first free slot on the way from home has been given to entry n. */
  lemma AddEntry(T: seq<Hp>, E: seq<Hp>, n: nat, b: nat, D: seq<nat>, d: nat)
    requires TableHolds(T, E, n, b, D) && n < |E| && InBucket(E[n], b) && E[n].p != 0
    requires forall j :: 0 <= j < n && InBucket(E[j], b) ==> E[j].p != 0
    requires d < |T| && T[Slot(|T|, E[n].h, d)].p == 0
    requires forall d' :: 0 <= d' < d ==> T[Slot(|T|, E[n].h, d')].p != 0
    ensures TableHolds(T[Slot(|T|, E[n].h, d) := E[n]], E, n + 1, b, D[n := d])
  {
    var len, e := |T|, E[n];
    var w := Slot(len, e.h, d);
    var T', D' := T[w := e], D[n := d];
    forall j | 0 <= j < n && InBucket(E[j], b) ensures Placed(T', E[j], D'[j]) {
      assert Placed(T, E[j], D[j]);
      assert Slot(len, E[j].h, D[j]) != w;
    }
    assert Placed(T', e, d);
    forall s | 0 <= s < |T'| && T'[s].p != 0 ensures Owned(s, len, T'[s], E, n + 1, b, D') {
      if s != w {
        assert Owned(s, len, T[s], E, n, b, D);
        var j :| 0 <= j < n && InBucket(E[j], b) && E[j] == T[s] && D[j] < len && Slot(len, E[j].h, D[j]) == s;
        assert D'[j] == D[j];
      } else {
        assert D'[n] == d;
      }
    }
    forall i | 0 <= i < n && InBucket(E[i], b) && E[i].h == e.h ensures D[i] < d {
      assert Placed(T, E[i], D[i]);
    }
  }

  // ---------------------------------------------------------------------------------------
  // Probing

  /** A taken slot at distance d from home that has the hash looked for belongs to an entry put there. */
  lemma ProbeHit(T: seq<Hp>, E: seq<Hp>, b: nat, D: seq<nat>, h: nat, d: nat) returns (j: nat)
    requires TableHolds(T, E, |E|, b, D) && d < |T|
    requires T[Slot(|T|, h, d)].p != 0 && T[Slot(|T|, h, d)].h == h
    ensures j < |E| && InBucket(E[j], b) && E[j] == T[Slot(|T|, h, d)] && D[j] == d
  {
    var s := Slot(|T|, h, d);
    assert Owned(s, |T|, T[s], E, |E|, b, D);
    j :| 0 <= j < |E| && InBucket(E[j], b) && E[j] == T[s] && D[j] < |T| && Slot(|T|, E[j].h, D[j]) == s;
    SlotInjective(|T|, h, d, D[j]);
  }

  /** A free slot at distance d ends the search: every entry of that hash lies before it. */
  lemma ProbeEnd(T: seq<Hp>, E: seq<Hp>, b: nat, D: seq<nat>, h: nat, d: nat)
    requires TableHolds(T, E, |E|, b, D) && d < |T| && T[Slot(|T|, h, d)].p == 0
    requires forall j :: 0 <= j < |E| && InBucket(E[j], b) ==> E[j].p != 0
    ensures forall j :: 0 <= j < |E| && E[j].h == h && h % 256 == b ==> D[j] < d
  {
    forall j | 0 <= j < |E| && E[j].h == h && h % 256 == b ensures D[j] < d {
      assert Placed(T, E[j], D[j]);
    }
  }
}
