/** The busiest networks (src/ot_stats.c): a walk over the trie that keeps the highest scores. */
module NetworkStats {
  import opened NetworkTrie

  /** A network, as the half bytes of its prefix, and the number of addresses in it. */
  datatype Entry = Entry(prefix: seq<nibble>, count: nat)

  // ---------------------------------------------------------------------------------------
  // The networks of a trie

  ghost function CountAt(t: Trie, i: nat): nat {
    match t
    case Absent => 0
    case Inner(kids) => if i < |kids| then Total(kids[i]) else 0
    case Leaf(counters) => if i < |counters| then counters[i] else 0
  }

  /** The networks of the first n children of a node. */
  ghost function EntriesUpTo(t: Trie, level: nat, limit: nat, path: seq<nibble>, n: nat): seq<Entry>
    requires Shaped(t, level) && level <= limit <= LAST && !t.Absent? && n <= WAYS
    decreases LAST - level, n
  {
    if n == 0 then [] else EntriesUpTo(t, level, limit, path, n - 1) + EntriesAt(t, level, limit, path, n - 1)
  }

  ghost function EntriesAt(t: Trie, level: nat, limit: nat, path: seq<nibble>, i: nibble): seq<Entry>
    requires Shaped(t, level) && level <= limit <= LAST && !t.Absent?
    decreases LAST - level, i
  {
    if level < limit then Entries(t.kids[i], level + 1, limit, path + [i]) else [Entry(path + [i], CountAt(t, i))]
  }

  /** All networks of a trie, in the order of the walk. */
  ghost function Entries(t: Trie, level: nat, limit: nat, path: seq<nibble>): seq<Entry>
    requires Shaped(t, level) && level <= limit <= LAST
    decreases LAST - level, WAYS + 1
  {
    if t.Absent? then [] else EntriesUpTo(t, level, limit, path, WAYS)
  }

  /** An entry for a network below the path, with its count. */
  ghost predicate Belongs(e: Entry, t: Trie, level: nat, limit: nat, path: seq<nibble>) {
    && |e.prefix| == limit + 1 && level <= limit && |path| == level && path <= e.prefix
    && e.count == Count(t, e.prefix[level..])
  }

  /** Entries of child i, as entries of the node. */
  lemma BelongsUp(e: Entry, t: Trie, level: nat, limit: nat, path: seq<nibble>, i: nibble)
    requires Shaped(t, level) && t.Inner? && level < limit <= LAST && |path| == level
    ensures Belongs(e, t.kids[i], level + 1, limit, path + [i]) <==>
            Belongs(e, t, level, limit, path) && e.prefix[level] == i
  {
    if |e.prefix| == limit + 1 {
      assert e.prefix[level..][1..] == e.prefix[level + 1..] && e.prefix[level..][0] == e.prefix[level];
      assert path + [i] <= e.prefix <==> path <= e.prefix && e.prefix[level] == i;
    }
  }

  lemma CountOne(t: Trie, i: nibble)
    ensures Count(t, [i]) == CountAt(t, i)
  {
    assert [i][1..] == [];
  }

  lemma RowBelongs(e: Entry, t: Trie, limit: nat, path: seq<nibble>, i: nibble)
    requires Shaped(t, limit) && !t.Absent? && limit <= LAST && |path| == limit
    ensures e == Entry(path + [i], CountAt(t, i)) <==> Belongs(e, t, limit, limit, path) && e.prefix[limit] == i
  {
    var p := path + [i];
    assert p[limit..] == [i];
    CountOne(t, i);
    if |e.prefix| == limit + 1 && path <= e.prefix && e.prefix[limit] == i { assert e.prefix == p; }
  }

  /** The entries of the first n children are those that belong to the node and go to one of these. */
  lemma {:induction false} EntriesAreThose(t: Trie, level: nat, limit: nat, path: seq<nibble>, n: nat, e: Entry)
    requires Shaped(t, level) && level <= limit <= LAST && !t.Absent? && n <= WAYS && |path| == level
    ensures e in EntriesUpTo(t, level, limit, path, n) ==> Belongs(e, t, level, limit, path) && e.prefix[level] < n
    ensures Belongs(e, t, level, limit, path) && e.prefix[level] < n && e.count > 0 ==> e in EntriesUpTo(t, level, limit, path, n)
    decreases LAST - level, n
  {
    if n > 0 {
      EntriesAreThose(t, level, limit, path, n - 1, e);
      ChildEntries(t, level, limit, path, n - 1, e);
    }
  }

  lemma {:induction false} ChildEntries(t: Trie, level: nat, limit: nat, path: seq<nibble>, i: nibble, e: Entry)
    requires Shaped(t, level) && level <= limit <= LAST && !t.Absent? && |path| == level
    ensures e in EntriesAt(t, level, limit, path, i) ==> Belongs(e, t, level, limit, path) && e.prefix[level] == i
    ensures Belongs(e, t, level, limit, path) && e.prefix[level] == i && e.count > 0 ==> e in EntriesAt(t, level, limit, path, i)
    decreases LAST - level, i
  {
    if level < limit {
      var kid := t.kids[i];
      BelongsUp(e, t, level, limit, path, i);
      assert EntriesAt(t, level, limit, path, i) == Entries(kid, level + 1, limit, path + [i]);
      if kid.Absent? {
        assert Count(kid, e.prefix[if level + 1 <= |e.prefix| then level + 1 else 0..]) == 0;
      } else {
        EntriesAreThose(kid, level + 1, limit, path + [i], WAYS, e);
        assert Entries(kid, level + 1, limit, path + [i]) == EntriesUpTo(kid, level + 1, limit, path + [i], WAYS);
      }
    } else {
      RowBelongs(e, t, limit, path, i);
    }
  }

  /** The walk meets exactly the networks with addresses, with their counts. */
  lemma EntriesComplete(t: Trie, limit: nat, prefix: seq<nibble>)
    requires Shaped(t, 0) && limit <= LAST && |prefix| == limit + 1
    ensures forall e :: e in Entries(t, 0, limit, []) ==> |e.prefix| == limit + 1 && e.count == Count(t, e.prefix)
    ensures Count(t, prefix) > 0 ==> Entry(prefix, Count(t, prefix)) in Entries(t, 0, limit, [])
  {
    if !t.Absent? {
      forall e | e in Entries(t, 0, limit, []) ensures |e.prefix| == limit + 1 && e.count == Count(t, e.prefix) {
        EntriesAreThose(t, 0, limit, [], WAYS, e);
        assert e.prefix[0..] == e.prefix;
      }
      assert prefix[0..] == prefix;
      EntriesAreThose(t, 0, limit, [], WAYS, Entry(prefix, Count(t, prefix)));
    }
  }

  // ---------------------------------------------------------------------------------------
  // The highest scores

  ghost predicate Ascending(S: seq<nat>) {
    forall i, j :: 0 <= i < j < |S| ==> S[i] <= S[j]
  }

  /** The network at place k of the list is e. */
  ghost predicate Listed(S: seq<nat>, N: seq<seq<nibble>>, e: Entry, k: nat) {
    k < |S| == |N| && N[k] == e.prefix && S[k] == e.count
  }

  /**
    Of the networks D, the list S, N holds those with the highest scores: what it holds is in D,
    nothing twice, and what it does not hold has no higher score than anything it holds.
   */
  ghost predicate Ranked(S: seq<nat>, N: seq<seq<nibble>>, D: seq<Entry>) {
    0 < |S| == |N| && Ascending(S) && Real(S, N, D) && Apart(S, N) && forall e :: e in D ==> Placed(S, N, e)
  }

  ghost predicate Real(S: seq<nat>, N: seq<seq<nibble>>, D: seq<Entry>) {
    |S| == |N| && forall k :: 0 <= k < |S| && S[k] > 0 ==> Entry(N[k], S[k]) in D
  }

  ghost predicate Apart(S: seq<nat>, N: seq<seq<nibble>>) {
    |S| == |N| && forall k, m :: 0 <= k < m < |S| && S[k] > 0 && S[m] > 0 ==> N[k] != N[m]
  }

  ghost predicate Placed(S: seq<nat>, N: seq<seq<nibble>>, e: Entry) {
    0 < |S| && (e.count <= S[0] || exists k: nat :: Listed(S, N, e, k))
  }

  ghost predicate NotYet(D: seq<Entry>, prefix: seq<nibble>) {
    forall e :: e in D ==> e.prefix != prefix
  }

  /** The first j + 1 values move up by one, and x takes place j. */
  function Shifted<T>(s: seq<T>, j: nat, x: T): seq<T>
    requires j < |s|
  {
    s[1..j + 1] + [x] + s[j + 1..]
  }

  /** Where a score belongs. */
  ghost predicate Fits(S: seq<nat>, c: nat, j: nat) {
    j < |S| && (forall k :: 0 <= k <= j ==> S[k] < c) && (j + 1 < |S| ==> c <= S[j + 1])
  }

  lemma ShiftedAt<T>(s: seq<T>, j: nat, x: T, k: nat)
    requires j < |s| && k < |s|
    ensures |Shifted(s, j, x)| == |s| && Shifted(s, j, x)[k] == if k < j then s[k + 1] else if k == j then x else s[k]
  {
  }

  lemma ShiftAscends(S: seq<nat>, c: nat, j: nat)
    requires Ascending(S) && Fits(S, c, j)
    ensures Ascending(Shifted(S, j, c)) && S[0] <= Shifted(S, j, c)[0]
  {
  }

  lemma ShiftPlaced(S: seq<nat>, N: seq<seq<nibble>>, c: nat, p: seq<nibble>, j: nat, e: Entry)
    requires |S| == |N| && Ascending(S) && Fits(S, c, j) && Placed(S, N, e)
    ensures Placed(Shifted(S, j, c), Shifted(N, j, p), e)
  {
    ShiftAscends(S, c, j);
    if e.count > S[0] {
      var k: nat :| Listed(S, N, e, k);
      var m := if k <= j then k - 1 else k;
      ShiftedAt(S, j, c, m);
      ShiftedAt(N, j, p, m);
      assert Listed(Shifted(S, j, c), Shifted(N, j, p), e, m);
    }
  }

  lemma ShiftReal(S: seq<nat>, N: seq<seq<nibble>>, D: seq<Entry>, p: seq<nibble>, c: nat, j: nat)
    requires |S| == |N| && Real(S, N, D) && j < |S|
    ensures Real(Shifted(S, j, c), Shifted(N, j, p), D + [Entry(p, c)])
  {
    var S', N', D' := Shifted(S, j, c), Shifted(N, j, p), D + [Entry(p, c)];
    forall k | 0 <= k < |S'| && S'[k] > 0 ensures Entry(N'[k], S'[k]) in D' {
      ShiftedAt(S, j, c, k);
      ShiftedAt(N, j, p, k);
      assert D'[|D|] == Entry(p, c);
    }
  }

  lemma ShiftApart(S: seq<nat>, N: seq<seq<nibble>>, D: seq<Entry>, p: seq<nibble>, c: nat, j: nat)
    requires |S| == |N| && Real(S, N, D) && Apart(S, N) && j < |S| && NotYet(D, p)
    ensures Apart(Shifted(S, j, c), Shifted(N, j, p))
  {
    var S', N' := Shifted(S, j, c), Shifted(N, j, p);
    forall k, m | 0 <= k < m < |S'| && S'[k] > 0 && S'[m] > 0 ensures N'[k] != N'[m] {
      ShiftedAt(S, j, c, k);
      ShiftedAt(N, j, p, k);
      ShiftedAt(S, j, c, m);
      ShiftedAt(N, j, p, m);
      assert k == j ==> Entry(N[m], S[m]) in D;
      assert m == j ==> Entry(N[k + 1], S[k + 1]) in D;
    }
  }

  lemma ShiftRanks(S: seq<nat>, N: seq<seq<nibble>>, D: seq<Entry>, p: seq<nibble>, c: nat, j: nat)
    requires Ranked(S, N, D) && Fits(S, c, j) && NotYet(D, p)
    ensures Ranked(Shifted(S, j, c), Shifted(N, j, p), D + [Entry(p, c)])
  {
    var S', N' := Shifted(S, j, c), Shifted(N, j, p);
    ShiftAscends(S, c, j);
    ShiftReal(S, N, D, p, c, j);
    ShiftApart(S, N, D, p, c, j);
    forall e | e in D + [Entry(p, c)] ensures Placed(S', N', e) {
      if e in D {
        ShiftPlaced(S, N, c, p, j, e);
      } else {
        ShiftedAt(S, j, c, j);
        ShiftedAt(N, j, p, j);
        assert Listed(S', N', e, j);
      }
    }
  }

  lemma SkipRanks(S: seq<nat>, N: seq<seq<nibble>>, D: seq<Entry>, p: seq<nibble>, c: nat)
    requires Ranked(S, N, D) && c <= S[0]
    ensures Ranked(S, N, D + [Entry(p, c)])
  {
    forall e | e in D + [Entry(p, c)] ensures Placed(S, N, e) {
      assert e !in D ==> e.count <= S[0];
    }
  }
}
