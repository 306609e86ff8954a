/**
  The locks on the buckets of torrents (src/ot_mutex.c): a list of locked buckets, and the count
  of all torrents that every unlock brings up to date.
 */
module BucketLocks {

  const MAX_THREADS := 64
  const BUCKETS := 1024

  type Bucket = b: nat | b < 1024

  // ---------------------------------------------------------------------------------------
  // The lock list

  /** A bucket cannot be locked now. */
  predicate Blocked(locks: seq<int>, bucket: int) {
    |locks| == 64 || bucket in locks
  }

  /** The list without the first occurrence of a bucket. */
  function Without(locks: seq<int>, bucket: int): seq<int> {
    if locks == [] then []
    else if locks[0] == bucket then locks[1..]
    else [locks[0]] + Without(locks[1..], bucket)
  }

  ghost predicate Distinct(locks: seq<int>) {
    forall i, j :: 0 <= i < j < |locks| ==> locks[i] != locks[j]
  }

  lemma {:induction false} WithoutAt(locks: seq<int>, bucket: int, i: nat)
    requires i < |locks| && locks[i] == bucket && bucket !in locks[..i]
    ensures Without(locks, bucket) == locks[..i] + locks[i + 1..]
  {
    if i > 0 {
      assert locks[1..][..i - 1] == locks[1..i];
      assert locks[0] in locks[..i];
      WithoutAt(locks[1..], bucket, i - 1);
    }
  }

  lemma {:induction false} WithoutAbsent(locks: seq<int>, bucket: int)
    requires bucket !in locks
    ensures Without(locks, bucket) == locks
  {
    if locks != [] { WithoutAbsent(locks[1..], bucket); }
  }

  lemma {:induction false} WithoutMembers(locks: seq<int>, bucket: int)
    requires Distinct(locks)
    ensures Distinct(Without(locks, bucket))
    ensures forall b :: b in Without(locks, bucket) <==> b in locks && b != bucket
    ensures |Without(locks, bucket)| == if bucket in locks then |locks| - 1 else |locks|
  {
    if locks != [] {
      var rest := locks[1..];
      assert locks == [locks[0]] + rest;
      WithoutMembers(rest, bucket);
      assert locks[0] !in rest;
    }
  }

  class LockList {
    const list: array<int>
    var count: nat
    var torrentCount: int

    ghost predicate Valid()
      reads this
    {
      list.Length == MAX_THREADS && count <= MAX_THREADS
    }

    ghost function Held(): seq<int>
      reads this, list
      requires Valid()
    {
      list[..count]
    }

    constructor ()
      ensures Valid() && fresh(list) && Held() == [] && torrentCount == 0
    {
      list := new int[MAX_THREADS];
      count, torrentCount := 0, 0;
    }

    method Check(bucket: int) returns (blocked: bool)
      requires Valid()
      ensures blocked <==> Blocked(Held(), bucket)
    {
      if count == MAX_THREADS { return true; }
      var i := 0;
      while i < count
        invariant 0 <= i <= count && bucket !in list[..i]
      {
        if list[i] == bucket {
          assert list[..count][i] == bucket;
          return true;
        }
        i := i + 1;
      }
      return false;
    }

    method Push(bucket: int)
      requires Valid() && count < MAX_THREADS
      modifies this`count, list
      ensures Valid() && Held() == old(Held()) + [bucket]
    {
      list[count] := bucket;
      count := count + 1;
    }

    method Remove(bucket: int)
      requires Valid()
      modifies this`count, list
      ensures Valid() && Held() == Without(old(Held()), bucket)
    {
      ghost var was := Held();
      var i := 0;
      while i < count && list[i] != bucket
        invariant 0 <= i <= count && bucket !in list[..i]
      {
        i := i + 1;
      }
      if i == count {
        WithoutAbsent(was, bucket);
        return;
      }
      assert was[..i] == list[..i];
      WithoutAt(was, bucket, i);
      CloseGap(i);
      count := count - 1;
    }

    /** Moves the entries after i down by one. */
    method CloseGap(i: nat)
      requires Valid() && i < count
      modifies list
      ensures list[..count - 1] == old(list[..i] + list[i + 1..count])
    {
      var k := i;
      while k < count - 1
        invariant i <= k <= count - 1
        invariant forall j :: 0 <= j < i ==> list[j] == old(list[j])
        invariant forall j :: i <= j < k ==> list[j] == old(list[j + 1])
        invariant forall j :: k < j < count ==> list[j] == old(list[j])
      {
        list[k] := list[k + 1];
        k := k + 1;
      }
    }

    /** One turn of the loop that waits for a bucket; false means that the thread waits on. */
    method TryLock(bucket: int) returns (ok: bool)
      requires Valid()
      modifies this`count, list
      ensures Valid() && ok == !Blocked(old(Held()), bucket)
      ensures Held() == if ok then old(Held()) + [bucket] else old(Held())
    {
      var blocked := Check(bucket);
      if !blocked { Push(bucket); }
      return !blocked;
    }

    method Unlock(bucket: int, delta: int)
      requires Valid()
      modifies this, list
      ensures Valid() && Held() == Without(old(Held()), bucket) && torrentCount == old(torrentCount) + delta
    {
      Remove(bucket);
      torrentCount := torrentCount + delta;
    }
  }

  // ---------------------------------------------------------------------------------------
  // Threads

  /**
    A thread that waits for a bucket sleeps on the condition variable or is about to look at the
    list. A thread that holds a bucket has a local count of torrents added and removed; `uncounted`
    is 1 between the insertion of a torrent and either its counting or its removal for lack of
    memory.
   */
  datatype Thread = Idle | Waiting(bucket: Bucket, asleep: bool) | Holding(bucket: Bucket, delta: int, uncounted: nat)

  /** Shared state and threads. `booked` is the part of the count that is due to each bucket. */
  datatype World = World(locks: seq<int>, count: int, threads: seq<Thread>, sizes: seq<nat>, booked: seq<nat>)

  datatype Action = Request(bucket: Bucket) | Sleep | Wake | Acquire | Insert | Undo | Count | Drop | Release

  function With(w: World, t: nat, thread: Thread): World
    requires t < |w.threads|
  {
    w.(threads := w.threads[t := thread])
  }

  /** A broadcast wakes all that sleep. */
  function Awake(t: Thread): Thread {
    if t.Waiting? then t.(asleep := false) else t
  }

  function AllAwake(ts: seq<Thread>): (r: seq<Thread>)
    ensures |r| == |ts|
  {
    seq(|ts|, i requires 0 <= i < |ts| => Awake(ts[i]))
  }

  /** Thread t takes a step from w to w'. A thread may also wake for no reason. */
  ghost predicate Does(w: World, t: nat, a: Action, w': World) {
    && t < |w.threads| && |w.sizes| == |w.booked| == BUCKETS
    && match a
       case Request(b) => w.threads[t].Idle? && w' == With(w, t, Waiting(b, false))
       case Sleep =>
         && w.threads[t].Waiting? && !w.threads[t].asleep && Blocked(w.locks, w.threads[t].bucket)
         && w' == With(w, t, w.threads[t].(asleep := true))
       case Wake => w.threads[t].Waiting? && w.threads[t].asleep && w' == With(w, t, w.threads[t].(asleep := false))
       case Acquire =>
         && w.threads[t].Waiting? && !w.threads[t].asleep && !Blocked(w.locks, w.threads[t].bucket)
         && w' == With(w, t, Holding(w.threads[t].bucket, 0, 0)).(locks := w.locks + [w.threads[t].bucket])
       case _ => w.threads[t].Holding? && Works(w, t, a, w')
  }

  /** What a thread does to the bucket it holds. */
  ghost predicate Works(w: World, t: nat, a: Action, w': World)
    requires t < |w.threads| && w.threads[t].Holding? && |w.sizes| == |w.booked| == BUCKETS
  {
    var Holding(b, delta, uncounted) := w.threads[t];
    match a
    case Insert => uncounted == 0 && w' == With(w, t, Holding(b, delta, 1)).(sizes := w.sizes[b := w.sizes[b] + 1])
    case Undo => uncounted == 1 && w.sizes[b] > 0 && w' == With(w, t, Holding(b, delta, 0)).(sizes := w.sizes[b := w.sizes[b] - 1])
    case Count => uncounted == 1 && w' == With(w, t, Holding(b, delta + 1, 0))
    case Drop => uncounted == 0 && w.sizes[b] > 0 && w' == With(w, t, Holding(b, delta - 1, 0)).(sizes := w.sizes[b := w.sizes[b] - 1])
    case Release =>
      && uncounted == 0
      && w' == World(Without(w.locks, b), w.count + delta, AllAwake(w.threads[t := Idle]), w.sizes, w.booked[b := w.sizes[b]])
    case _ => false
  }

  ghost predicate Step(w: World, w': World) {
    exists t: nat, a :: Does(w, t, a, w')
  }

  // ---------------------------------------------------------------------------------------
  // Sums over threads and buckets

  function PendingOf(t: Thread): int {
    if t.Holding? then t.delta + t.uncounted else 0
  }

  /** What the holders have changed and not yet booked. */
  ghost function Pending(ts: seq<Thread>): int {
    if ts == [] then 0 else Pending(ts[..|ts| - 1]) + PendingOf(ts[|ts| - 1])
  }

  ghost function Holders(ts: seq<Thread>): nat {
    if ts == [] then 0 else Holders(ts[..|ts| - 1]) + if ts[|ts| - 1].Holding? then 1 else 0
  }

  ghost function Total(s: seq<nat>): nat {
    if s == [] then 0 else Total(s[..|s| - 1]) + s[|s| - 1]
  }

  lemma {:induction false} TotalUpdate(s: seq<nat>, i: nat, x: nat)
    requires i < |s|
    ensures Total(s[i := x]) == Total(s) - s[i] + x
  {
    var n := |s| - 1;
    if i < n {
      assert s[i := x][..n] == s[..n][i := x];
      TotalUpdate(s[..n], i, x);
    } else {
      assert s[i := x][..n] == s[..n];
    }
  }

  lemma {:induction false} ThreadUpdate(ts: seq<Thread>, t: nat, x: Thread)
    requires t < |ts|
    ensures Pending(ts[t := x]) == Pending(ts) - PendingOf(ts[t]) + PendingOf(x)
    ensures Holders(ts[t := x]) == Holders(ts) - (if ts[t].Holding? then 1 else 0) + if x.Holding? then 1 else 0
  {
    var n := |ts| - 1;
    if t < n {
      assert ts[t := x][..n] == ts[..n][t := x];
      ThreadUpdate(ts[..n], t, x);
    } else {
      assert ts[t := x][..n] == ts[..n];
    }
  }

  lemma {:induction false} AwakeSame(ts: seq<Thread>)
    ensures Pending(AllAwake(ts)) == Pending(ts) && Holders(AllAwake(ts)) == Holders(ts)
  {
    if ts != [] {
      var n := |ts| - 1;
      assert AllAwake(ts)[..n] == AllAwake(ts[..n]);
      AwakeSame(ts[..n]);
    }
  }

  lemma {:induction false} HoldersBound(ts: seq<Thread>)
    ensures Holders(ts) <= |ts|
    ensures (exists t :: 0 <= t < |ts| && !ts[t].Holding?) ==> Holders(ts) < |ts|
  {
    if ts != [] { HoldersBound(ts[..|ts| - 1]); }
  }

  // ---------------------------------------------------------------------------------------
  // What every step keeps

  ghost predicate Holds(w: World, t: nat, b: nat) {
    t < |w.threads| && w.threads[t].Holding? && w.threads[t].bucket == b
  }

  /** No bucket is held twice, and the list names exactly the buckets held. */
  ghost predicate Exclusive(w: World) {
    && Distinct(w.locks) && |w.locks| <= MAX_THREADS && |w.locks| == Holders(w.threads)
    && (forall t: nat, b: nat :: Holds(w, t, b) ==> b in w.locks)
    && (forall b: int :: b in w.locks ==> b >= 0 && exists t: nat :: Holds(w, t, b))
    && forall t: nat, u: nat, b: nat :: Holds(w, t, b) && Holds(w, u, b) ==> t == u
  }

  /** The count, what holders have yet to book, and the torrents stored. */
  ghost predicate Conserved(w: World) {
    && |w.sizes| == |w.booked| == BUCKETS
    && w.count + Pending(w.threads) == Total(w.sizes)
    && w.count == Total(w.booked)
    && (forall b: nat :: b < BUCKETS && b !in w.locks ==> w.booked[b] == w.sizes[b])
    && forall t: nat, b: nat :: b < BUCKETS && Holds(w, t, b) ==> w.booked[b] + PendingOf(w.threads[t]) == w.sizes[b]
  }

  /** Nobody sleeps while the bucket could be had: no wake-up is lost. */
  ghost predicate Attentive(w: World) {
    forall t: nat :: t < |w.threads| && w.threads[t].Waiting? && w.threads[t].asleep ==> Blocked(w.locks, w.threads[t].bucket)
  }

  ghost predicate OneUncounted(w: World) {
    forall t: nat :: t < |w.threads| && w.threads[t].Holding? ==> w.threads[t].uncounted <= 1
  }

  ghost predicate Inv(w: World) {
    Exclusive(w) && Conserved(w) && Attentive(w) && OneUncounted(w)
  }

  ghost predicate Init(w: World) {
    && w.locks == [] && w.count == 0 && (forall t :: 0 <= t < |w.threads| ==> w.threads[t].Idle?)
    && w.sizes == w.booked == seq(BUCKETS, _ => 0)
  }

  lemma {:induction false} AllZero(n: nat)
    ensures Total(seq(n, _ => 0)) == 0
  {
    if n > 0 {
      var s: seq<nat> := seq(n, _ => 0);
      assert s[..n - 1] == seq(n - 1, _ => 0);
      AllZero(n - 1);
    }
  }

  lemma {:induction false} AllIdle(ts: seq<Thread>)
    requires forall t :: 0 <= t < |ts| ==> ts[t].Idle?
    ensures Pending(ts) == 0 && Holders(ts) == 0
  {
    if ts != [] { AllIdle(ts[..|ts| - 1]); }
  }

  lemma InitInv(w: World)
    requires Init(w)
    ensures Inv(w)
  {
    AllZero(BUCKETS);
    AllIdle(w.threads);
  }

  /** Thread t holds the same before and after, and the list has not changed. */
  ghost predicate SameHold(w: World, t: nat, w': World) {
    && t < |w.threads| == |w'.threads| && w'.threads == w.threads[t := w'.threads[t]] && w'.locks == w.locks
    && w'.threads[t].Holding? == w.threads[t].Holding?
    && (w.threads[t].Holding? ==> w'.threads[t].bucket == w.threads[t].bucket)
  }

  lemma SameHoldKeeps(w: World, t: nat, w': World)
    requires Exclusive(w) && SameHold(w, t, w')
    ensures Exclusive(w') && forall u: nat, b: nat :: Holds(w', u, b) <==> Holds(w, u, b)
  {
    ThreadUpdate(w.threads, t, w'.threads[t]);
    forall u: nat, b: nat ensures Holds(w', u, b) <==> Holds(w, u, b) {
      assert u != t && u < |w.threads| ==> w'.threads[u] == w.threads[u];
    }
    forall b: int | b in w'.locks ensures b >= 0 && exists u: nat :: Holds(w', u, b) {
      var u: nat :| Holds(w, u, b);
      assert Holds(w', u, b);
    }
  }

  lemma WaitKeeps(w: World, t: nat, a: Action, w': World)
    requires Inv(w) && Does(w, t, a, w') && (a.Request? || a.Sleep? || a.Wake?)
    ensures Inv(w')
  {
    SameHoldKeeps(w, t, w');
    ThreadUpdate(w.threads, t, w'.threads[t]);
    forall u: nat, b: nat | Holds(w', u, b) && b < BUCKETS
      ensures w'.booked[b] + PendingOf(w'.threads[u]) == w'.sizes[b]
    {
      assert Holds(w, u, b);
    }
  }

  /** Adding to and taking from a bucket keeps the books, as only its holder does so. */
  lemma WorkKeeps(w: World, t: nat, a: Action, w': World)
    requires Inv(w) && Does(w, t, a, w') && (a.Insert? || a.Undo? || a.Count? || a.Drop?)
    ensures Inv(w')
  {
    var b := w.threads[t].bucket;
    assert Holds(w, t, b);
    SameHoldKeeps(w, t, w');
    ThreadUpdate(w.threads, t, w'.threads[t]);
    TotalUpdate(w.sizes, b, w'.sizes[b]);
    assert w'.sizes == w.sizes[b := w'.sizes[b]];
    forall u: nat, c: nat | Holds(w', u, c) && c < BUCKETS
      ensures w'.booked[c] + PendingOf(w'.threads[u]) == w'.sizes[c]
    {
      assert Holds(w, u, c);
    }
  }

  lemma AcquireKeeps(w: World, t: nat, w': World)
    requires Inv(w) && Does(w, t, Acquire, w')
    ensures Inv(w')
  {
    var b := w.threads[t].bucket;
    ThreadUpdate(w.threads, t, w'.threads[t]);
    forall u: nat, c: nat ensures Holds(w', u, c) <==> Holds(w, u, c) || (u == t && c == b) {
      assert u != t && u < |w.threads| ==> w'.threads[u] == w.threads[u];
    }
    forall c: int | c in w'.locks ensures c >= 0 && exists u: nat :: Holds(w', u, c) {
      if c == b {
        assert Holds(w', t, c);
      } else {
        var u: nat :| Holds(w, u, c);
        assert Holds(w', u, c);
      }
    }
    forall u: nat, c: nat | Holds(w', u, c) && c < BUCKETS
      ensures w'.booked[c] + PendingOf(w'.threads[u]) == w'.sizes[c]
    {
      assert u != t ==> Holds(w, u, c) && w'.threads[u] == w.threads[u];
    }
  }

  lemma ReleaseKeeps(w: World, t: nat, w': World)
    requires Inv(w) && Does(w, t, Release, w')
    ensures Inv(w')
  {
    var b := w.threads[t].bucket;
    assert Holds(w, t, b);
    WithoutMembers(w.locks, b);
    ThreadUpdate(w.threads, t, Idle);
    AwakeSame(w.threads[t := Idle]);
    TotalUpdate(w.booked, b, w.sizes[b]);
    forall u: nat, c: nat ensures Holds(w', u, c) <==> Holds(w, u, c) && u != t {
      assert u != t && u < |w.threads| ==> w'.threads[u] == Awake(w.threads[u]);
    }
    forall c: int | c in w'.locks ensures c >= 0 && exists u: nat :: Holds(w', u, c) {
      var u: nat :| Holds(w, u, c);
      assert Holds(w', u, c);
    }
    forall u: nat, c: nat | Holds(w', u, c) && c < BUCKETS
      ensures w'.booked[c] + PendingOf(w'.threads[u]) == w'.sizes[c] && c in w'.locks
    {
      assert Holds(w, u, c);
    }
  }

  lemma StepKeeps(w: World, w': World)
    requires Inv(w) && Step(w, w')
    ensures Inv(w')
  {
    var t: nat, a :| Does(w, t, a, w');
    match a
    case Request(_) => WaitKeeps(w, t, a, w');
    case Sleep => WaitKeeps(w, t, a, w');
    case Wake => WaitKeeps(w, t, a, w');
    case Acquire => AcquireKeeps(w, t, w');
    case Release => ReleaseKeeps(w, t, w');
    case _ => WorkKeeps(w, t, a, w');
  }

  // ---------------------------------------------------------------------------------------
  // Whole runs

  ghost predicate IsRun(run: seq<World>) {
    run != [] && Init(run[0]) && forall i :: 0 <= i < |run| - 1 ==> Step(run[i], run[i + 1])
  }

  /**
    In every interleaving: no two threads hold one bucket, the list has no bucket twice, nobody
    sleeps while the bucket could be had, and the count is what it would be if the changes still to
    be booked had not been made.
   */
  lemma {:induction false} RunIsSafe(run: seq<World>, i: nat)
    requires IsRun(run) && i < |run|
    ensures Inv(run[i]) && run[i].count >= 0 && |run[i].sizes| == 1024
  {
    if i == 0 {
      InitInv(run[0]);
    } else {
      RunIsSafe(run, i - 1);
      assert Step(run[i - 1], run[i - 1 + 1]);
      StepKeeps(run[i - 1], run[i]);
    }
  }

  /** Thread t cannot go on before thread u has released its bucket. */
  ghost predicate WaitsFor(w: World, t: nat, u: nat) {
    && t < |w.threads| && u < |w.threads| && w.threads[t].Waiting? && w.threads[u].Holding?
    && Blocked(w.locks, w.threads[t].bucket)
    && (w.threads[t].bucket in w.locks ==> w.threads[u].bucket == w.threads[t].bucket)
  }

  /** A thread that waits can take the lock, or waits for a thread that is at work. */
  lemma WaitingHasReason(w: World, t: nat)
    requires Inv(w) && t < |w.threads| && w.threads[t].Waiting?
    ensures (exists w' :: Does(w, t, Acquire, w')) || exists u: nat :: WaitsFor(w, t, u)
  {
    var b := w.threads[t].bucket;
    if !Blocked(w.locks, b) {
      var w' := With(w, t, Holding(b, 0, 0)).(locks := w.locks + [b]);
      assert Does(w, t, Acquire, w');
    } else {
      var c: int := w.locks[0];
      if b in w.locks { c := b; }
      assert c in w.locks;
      var u: nat :| Holds(w, u, c);
      assert WaitsFor(w, t, u);
    }
  }

  /** With no more threads than list entries, a thread waits only for its own bucket. */
  lemma ListNeverFull(w: World, t: nat)
    requires Inv(w) && |w.threads| <= 64 && t < |w.threads| && w.threads[t].Waiting?
    ensures Blocked(w.locks, w.threads[t].bucket) <==> exists u: nat :: Holds(w, u, w.threads[t].bucket)
  {
    HoldersBound(w.threads);
  }

  // ---------------------------------------------------------------------------------------
  // Progress

  /** A step that brings a thread closer to its release, not just to sleep or out of it. */
  ghost predicate Advances(w: World, t: nat, w': World) {
    exists a: Action :: !a.Request? && !a.Sleep? && !a.Wake? && Does(w, t, a, w')
  }

  /** A thread that holds a bucket is never in the way of its own release. */
  lemma HolderAdvances(w: World, t: nat) returns (w': World)
    requires Inv(w) && t < |w.threads| && w.threads[t].Holding?
    ensures Advances(w, t, w')
    ensures if w.threads[t].uncounted == 1 then w' == With(w, t, w.threads[t].(delta := w.threads[t].delta + 1, uncounted := 0))
            else Does(w, t, Release, w')
  {
    var Holding(b, delta, uncounted) := w.threads[t];
    if uncounted == 1 {
      w' := With(w, t, Holding(b, delta + 1, 0));
      assert Does(w, t, Count, w');
    } else {
      w' := World(Without(w.locks, b), w.count + delta, AllAwake(w.threads[t := Idle]), w.sizes, w.booked[b := w.sizes[b]]);
      assert Does(w, t, Release, w');
    }
  }

  lemma WaiterAdvances(w: World, t: nat) returns (w': World)
    requires Inv(w) && t < |w.threads| && w.threads[t].Waiting? && w.locks == []
    ensures Does(w, t, Acquire, w') && Advances(w, t, w') && w'.threads[t] == Holding(w.threads[t].bucket, 0, 0)
  {
    var b := w.threads[t].bucket;
    w' := With(w, t, Holding(b, 0, 0)).(locks := w.locks + [b]);
    assert Does(w, t, Acquire, w');
  }

  /** In every state of every run in which some thread is not idle, some such thread can advance. */
  lemma NoDeadlock(run: seq<World>, i: nat, t: nat) returns (u: nat, w': World)
    requires IsRun(run) && i < |run| && t < |run[i].threads| && !run[i].threads[t].Idle?
    ensures u < |run[i].threads| && !run[i].threads[u].Idle? && Advances(run[i], u, w')
  {
    RunIsSafe(run, i);
    var w := run[i];
    if w.locks == [] && w.threads[t].Waiting? {
      u := t;
      w' := WaiterAdvances(w, t);
    } else {
      u := t;
      if w.threads[t].Waiting? {
        assert w.locks[0] in w.locks;
        u :| Holds(w, u, w.locks[0]);
      }
      w' := HolderAdvances(w, u);
    }
  }

  /** Steps one after the other, from w on. */
  ghost predicate IsPath(w: World, path: seq<World>)
    decreases |path|
  {
    path == [] || (Step(w, path[0]) && IsPath(path[0], path[1..]))
  }

  ghost function Last(w: World, path: seq<World>): World {
    if path == [] then w else path[|path| - 1]
  }

  lemma Prepend(w: World, x: World, path: seq<World>)
    requires Step(w, x) && IsPath(x, path)
    ensures IsPath(w, [x] + path) && Last(w, [x] + path) == Last(x, path)
  {
    assert ([x] + path)[1..] == path;
  }

  /** A holder that has counted everything releases: one thread less holds, and the waiting ones wait on. */
  lemma HolderReleases(w: World, u: nat, t: nat) returns (path: seq<World>)
    requires Inv(w) && u < |w.threads| && w.threads[u].Holding? && t < |w.threads| && w.threads[t].Waiting?
    ensures IsPath(w, path)
    ensures var x := Last(w, path);
            && Inv(x) && Holders(x.threads) < Holders(w.threads) && |x.threads| == |w.threads|
            && x.threads[t].Waiting? && x.threads[t].bucket == w.threads[t].bucket
  {
    var x := HolderAdvances(w, u);
    assert Step(w, x);
    StepKeeps(w, x);
    if w.threads[u].uncounted == 1 {
      ThreadUpdate(w.threads, u, x.threads[u]);
      var y := HolderAdvances(x, u);
      assert Step(x, y);
      StepKeeps(x, y);
      ReleaseCounts(x, u, y);
      path := [x, y];
      assert path[1..] == [y];
      assert [y][1..] == [];
    } else {
      ReleaseCounts(w, u, x);
      path := [x];
      assert path[1..] == [];
    }
  }

  lemma ReleaseCounts(w: World, u: nat, w': World)
    requires Does(w, u, Release, w')
    ensures Holders(w'.threads) == Holders(w.threads) - 1 && |w'.threads| == |w.threads|
    ensures forall t :: 0 <= t < |w.threads| && t != u ==> w'.threads[t] == Awake(w.threads[t])
  {
    ThreadUpdate(w.threads, u, Idle);
    AwakeSame(w.threads[u := Idle]);
  }

  lemma {:induction false} PathCat(w: World, p: seq<World>, q: seq<World>)
    requires IsPath(w, p) && IsPath(Last(w, p), q)
    ensures IsPath(w, p + q) && Last(w, p + q) == Last(Last(w, p), q)
    decreases |p|
  {
    if p == [] {
      assert p + q == q;
    } else {
      PathCat(p[0], p[1..], q);
      assert p + q == [p[0]] + (p[1..] + q);
      Prepend(w, p[0], p[1..] + q);
    }
  }

  lemma {:induction false} WaiterGetsThere(w: World, t: nat) returns (path: seq<World>)
    requires Inv(w) && t < |w.threads| && w.threads[t].Waiting?
    ensures IsPath(w, path)
    ensures var x := Last(w, path); |x.threads| == |w.threads| && x.threads[t] == Holding(w.threads[t].bucket, 0, 0)
    decreases Holders(w.threads)
  {
    if w.locks == [] {
      var x := WaiterAdvances(w, t);
      assert Step(w, x);
      path := [x];
      assert path[1..] == [];
    } else {
      assert w.locks[0] in w.locks;
      var u: nat :| Holds(w, u, w.locks[0]);
      var first := HolderReleases(w, u, t);
      var rest := WaiterGetsThere(Last(w, first), t);
      PathCat(w, first, rest);
      path := first + rest;
    }
  }

  /** From every state of every run, every waiting thread may still come to hold its bucket. */
  lemma WaiterMayAcquire(run: seq<World>, i: nat, t: nat) returns (path: seq<World>)
    requires IsRun(run) && i < |run| && t < |run[i].threads| && run[i].threads[t].Waiting?
    ensures IsPath(run[i], path)
    ensures var x := Last(run[i], path); t < |x.threads| && x.threads[t] == Holding(run[i].threads[t].bucket, 0, 0)
  {
    RunIsSafe(run, i);
    path := WaiterGetsThere(run[i], t);
  }
}
