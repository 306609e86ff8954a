/**
  Sorting the entries of a constant database by bucket: how many there are per bucket, where
  each bucket starts and where each entry goes. The layout is a stable counting sort.
 */
module CdbBuckets {
  import opened CdbTable

  lemma CountStep(E: seq<Hp>, j: nat, b: nat)
    requires j < |E|
    ensures Count(E[..j + 1], b) == Count(E[..j], b) + if InBucket(E[j], b) then 1 else 0
  {
    var upto := E[..j + 1];
    assert upto[..|upto| - 1] == E[..j] && upto[|upto| - 1] == E[j];
  }

  lemma {:induction false} CountMonotone(E: seq<Hp>, i: nat, j: nat, b: nat)
    requires i <= j <= |E|
    ensures Count(E[..i], b) <= Count(E[..j], b) <= Count(E[..i], b) + j - i
    decreases j
  {
    if i < j {
      CountMonotone(E, i, j - 1, b);
      CountStep(E, j - 1, b);
    }
  }

  lemma CountAll(E: seq<Hp>, j: nat, b: nat)
    requires j <= |E|
    ensures Count(E[..j], b) <= Count(E, b) <= |E|
  {
    assert E[..|E|] == E;
    CountMonotone(E, j, |E|, b);
    CountMonotone(E, 0, |E|, b);
  }

  /** Equal counts at i and j mean that there is nothing of the bucket in between. */
  lemma NoneBetween(E: seq<Hp>, i: nat, j: nat, b: nat)
    requires i <= j <= |E| && Count(E[..i], b) == Count(E[..j], b)
    ensures forall k :: i <= k < j ==> !InBucket(E[k], b)
  {
    forall k | i <= k < j ensures !InBucket(E[k], b) {
      CountMonotone(E, i, k, b);
      CountStep(E, k, b);
      CountMonotone(E, k + 1, j, b);
    }
  }

  /** The index of the u-th entry of a bucket. */
  ghost function Nth(E: seq<Hp>, b: nat, u: nat): (j: nat)
    requires u < Count(E, b)
    ensures j < |E| && InBucket(E[j], b) && Count(E[..j], b) == u
  {
    var last := |E| - 1;
    if InBucket(E[last], b) && Count(E[..last], b) == u then last
    else
      var j := Nth(E[..last], b, u);
      assert E[..last][..j] == E[..j];
      j
  }

  /** The number of entries in buckets below b. */
  function Base(E: seq<Hp>, b: nat): nat {
    if b == 0 then 0 else Base(E, b - 1) + Count(E, b - 1)
  }

  /** Adding an entry moves the start of every bucket above its own. */
  lemma {:induction false} BaseStep(E: seq<Hp>, b: nat)
    requires E != []
    ensures Base(E, b) == Base(E[..|E| - 1], b) + if E[|E| - 1].h % 256 < b then 1 else 0
  {
    if b > 0 { BaseStep(E, b - 1); }
  }

  lemma {:induction false} BaseOfNone(b: nat)
    ensures Base([], b) == 0
  {
    if b > 0 { BaseOfNone(b - 1); }
  }

  /** All entries are in some bucket. */
  lemma {:induction false} BaseTotal(E: seq<Hp>)
    ensures Base(E, 256) == |E|
  {
    if E == [] {
      BaseOfNone(256);
    } else {
      BaseTotal(E[..|E| - 1]);
      BaseStep(E, 256);
    }
  }

  lemma {:induction false} BaseMonotone(E: seq<Hp>, b: nat, c: nat)
    requires b < c
    ensures Base(E, b) + Count(E, b) <= Base(E, c)
    decreases c
  {
    if b < c - 1 { BaseMonotone(E, b, c - 1); }
  }

  /** Where the counting sort puts entry j. */
  ghost function Place(E: seq<Hp>, j: nat): nat
    requires j < |E|
  {
    Base(E, E[j].h % 256) + Count(E[..j], E[j].h % 256)
  }

  lemma PlaceInRange(E: seq<Hp>, j: nat)
    requires j < |E|
    ensures Place(E, j) < Base(E, E[j].h % 256) + Count(E, E[j].h % 256) <= |E|
  {
    var b := E[j].h % 256;
    CountStep(E, j, b);
    CountAll(E, j + 1, b);
    BaseTotal(E);
    BaseMonotone(E, b, 256);
  }

  lemma PlaceInjective(E: seq<Hp>, i: nat, j: nat)
    requires i < j < |E|
    ensures Place(E, i) != Place(E, j)
  {
    var b, c := E[i].h % 256, E[j].h % 256;
    PlaceInRange(E, i);
    PlaceInRange(E, j);
    if b == c {
      CountStep(E, i, b);
      CountMonotone(E, i + 1, j, b);
    } else if b < c {
      BaseMonotone(E, b, c);
    } else {
      BaseMonotone(E, c, b);
    }
  }

  /** Two distance lists that agree on a bucket serve its table equally. */
  lemma TableHoldsFrame(T: seq<Hp>, E: seq<Hp>, n: nat, b: nat, D: seq<nat>, D': seq<nat>)
    requires TableHolds(T, E, n, b, D) && |D'| == |D|
    requires forall j :: 0 <= j < |E| && InBucket(E[j], b) ==> D'[j] == D[j]
    ensures TableHolds(T, E, n, b, D')
  {
    forall s | 0 <= s < |T| && T[s].p != 0 ensures Owned(s, |T|, T[s], E, n, b, D') {
      assert Owned(s, |T|, T[s], E, n, b, D);
      var j :| 0 <= j < n && InBucket(E[j], b) && E[j] == T[s] && D[j] < |T| && Slot(|T|, E[j].h, D[j]) == s;
      assert D'[j] == D[j];
    }
  }
}
