/** The functions of src/ot_stats.c that count addresses and find the busiest networks. */
module NetworkWalk {
  import opened NetworkTrie
  import opened NetworkStats

  /** Sixteen bytes, as addresses are kept. */
  type Ip = s: seq<byte> | |s| == 16 witness seq(16, _ => 0)

  // ---------------------------------------------------------------------------------------
  // Counting

  /** Counts an address; nothing is counted if memory runs out. */
  method Increase(t: Trie, level: nat, ip: Ip, memory: bool) returns (ok: bool, t': Trie)
    requires level <= LAST && Shaped(t, level)
    ensures memory ==> ok
    ensures ok ==> t' == Increased(t, level, Nibbles(ip, LAST + 1))
    ensures Shaped(t', level)
    ensures !ok ==> forall path: seq<nibble> :: Count(t', path) == Count(t, path)
    decreases LAST - level
  {
    var way := NibbleAt(ip, level);
    t' := t;
    if t.Absent? {
      var fails: bool := *;
      if fails && !memory { return false, t; }
      t' := Fresh(level);
      forall path: seq<nibble> ensures Count(t', path) == Count(t, path) { FreshIsEmpty(level, path); }
    }
    FreshIsEmpty(level, []);
    ghost var node := t';
    if level < LAST {
      var kid;
      ok, kid := Increase(t'.kids[way], level + 1, ip, memory);
      t' := Inner(t'.kids[way := kid]);
      forall path: seq<nibble> | !ok ensures Count(t', path) == Count(t, path) {
        CountAfter(node.kids, way, kid, path);
        assert Count(kid, []) == Count(node.kids[way], []);
      }
    } else {
      ok, t' := true, Leaf(t'.counters[way := t'.counters[way] + 1]);
    }
  }

  /** A whole trie. */
  type Root = t: Trie | Shaped(t, 0) witness Absent

  /** One more address. */
  method CountOneMore(t: Root, ip: Ip, memory: bool, ghost addresses: seq<seq<nibble>>) returns (ok: bool, t': Root)
    requires Counts(t, addresses)
    ensures memory ==> ok
    ensures Counts(t', if ok then addresses + [Nibbles(ip, LAST + 1)] else addresses)
  {
    ok, t' := Increase(t, 0, ip, memory);
    if ok {
      CountsMore(t, addresses, Nibbles(ip, LAST + 1));
    } else {
      CountsSame(t, t', addresses);
    }
  }

  /** Counts a list of addresses, up to the first for which memory runs out. */
  method IncreaseAll(ips: seq<Ip>, memory: bool) returns (n: nat, t: Root)
    ensures n <= |ips| && (memory ==> n == |ips|)
    ensures Counts(t, Addresses(ips[..n]))
  {
    t, n := Absent, 0;
    CountsNone();
    var ok := true;
    while n < |ips| && ok
      invariant n <= |ips| && (memory ==> ok) && Counts(t, Addresses(ips[..n]))
      decreases ok, |ips| - n
    {
      ok, t := CountOneMore(t, ips[n], memory, Addresses(ips[..n]));
      if ok {
        OneMore(ips, n);
        n := n + 1;
      }
    }
  }

  lemma CountsSame(t: Trie, t': Trie, addresses: seq<seq<nibble>>)
    requires Counts(t, addresses) && forall path: seq<nibble> :: Count(t', path) == Count(t, path)
    ensures Counts(t', addresses)
  {
  }

  lemma OneMore(ips: seq<Ip>, n: nat)
    requires n < |ips|
    ensures Addresses(ips[..n + 1]) == Addresses(ips[..n]) + [Nibbles(ips[n], LAST + 1)]
  {
  }

  /** The seven half bytes of each address that are looked at. */
  ghost function Addresses(ips: seq<Ip>): seq<seq<nibble>> {
    seq(|ips|, i requires 0 <= i < |ips| => Nibbles(ips[i], LAST + 1))
  }

  /** What is counted of an address are its first 28 bits, four by four from the highest on. */
  lemma AddressIs(ips: seq<Ip>, i: nat)
    requires i < |ips|
    ensures var a: seq<int>, ip := Addresses(ips)[i], ips[i];
            |a| == 7 && 16 * a[0] + a[1] == ip[0] && 16 * a[2] + a[3] == ip[1] && 16 * a[4] + a[5] == ip[2] && a[6] == ip[3] / 16
  {
    var ip := ips[i];
    assert 0 / 2 == 1 / 2 == 0 && 2 / 2 == 3 / 2 == 1 && 4 / 2 == 5 / 2 == 2 && 6 / 2 == 3;
    assert Addresses(ips)[i] == Nibbles(ip, LAST + 1);
  }

  // ---------------------------------------------------------------------------------------
  // The list of high scores

  ghost function Prefixes(networks: seq<Ip>, n: nat): (p: seq<seq<nibble>>)
    requires n <= 32
    ensures |p| == |networks|
  {
    seq(|networks|, k requires 0 <= k < |networks| => Nibbles(networks[k], n))
  }

  lemma PrefixesShifted(networks: seq<Ip>, j: nat, value: Ip, n: nat)
    requires j < |networks| && n <= 32
    ensures Prefixes(Shifted(networks, j, value), n) == Shifted(Prefixes(networks, n), j, Nibbles(value, n))
  {
    forall k | 0 <= k < |networks| ensures Prefixes(Shifted(networks, j, value), n)[k] == Shifted(Prefixes(networks, n), j, Nibbles(value, n))[k] {
      ShiftedAt(networks, j, value, k);
      ShiftedAt(Prefixes(networks, n), j, Nibbles(value, n), k);
    }
  }

  /** Moves the first j + 1 values up by one, over the first, and puts x at place j. */
  method ShiftIn<T>(a: array<T>, j: nat, x: T)
    requires j < a.Length
    modifies a
    ensures a[..] == Shifted(old(a[..]), j, x)
  {
    var k := 0;
    while k < j
      invariant 0 <= k <= j
      invariant forall m :: 0 <= m < k ==> a[m] == old(a[m + 1])
      invariant forall m :: k <= m < a.Length ==> a[m] == old(a[m])
    {
      a[k] := a[k + 1];
      k := k + 1;
    }
    a[j] := x;
  }

  /** Where a score above the lowest belongs. */
  method FindPlace(scores: array<nat>, c: nat) returns (j: nat)
    requires scores.Length > 0 && scores[0] < c
    ensures Fits(scores[..], c, j)
  {
    j := 1;
    while j < scores.Length && c > scores[j]
      invariant 1 <= j <= scores.Length && forall k :: 0 <= k < j ==> scores[k] < c
    {
      j := j + 1;
    }
    j := j - 1;
  }

  /** Enters a network if its score is above the lowest. */
  method Enter(scores: array<nat>, networks: array<Ip>, c: nat, value: Ip, n: nat, ghost D: seq<Entry>)
    requires n <= 32 && scores.Length == networks.Length > 0 && scores[0] < c
    requires Ranked(scores[..], Prefixes(networks[..], n), D) && NotYet(D, Nibbles(value, n))
    modifies scores, networks
    ensures Ranked(scores[..], Prefixes(networks[..], n), D + [Entry(Nibbles(value, n), c)])
  {
    var j := FindPlace(scores, c);
    ShiftRanks(scores[..], Prefixes(networks[..], n), D, Nibbles(value, n), c, j);
    PrefixesShifted(networks[..], j, value, n);
    ShiftIn(scores, j, c);
    ShiftIn(networks, j, value);
  }

  // ---------------------------------------------------------------------------------------
  // The walk

  /** What the first n children of a node add up to. */
  ghost function Part(t: Trie, n: nat): nat {
    match t
    case Absent => 0
    case Inner(kids) => if n <= |kids| then TotalOf(kids[..n]) else 0
    case Leaf(counters) => if n <= |counters| then Sum(counters[..n]) else 0
  }

  lemma PartStep(t: Trie, level: nat, i: nat)
    requires Shaped(t, level) && i < WAYS && !t.Absent?
    ensures Part(t, 0) == 0 && Part(t, i + 1) == Part(t, i) + CountAt(t, i)
    ensures Part(t, WAYS) == Total(t)
  {
    match t
    case Inner(kids) =>
      assert kids[..i + 1][..i] == kids[..i];
      assert kids[..WAYS] == kids;
    case Leaf(counters) =>
      assert counters[..i + 1][..i] == counters[..i];
      assert counters[..WAYS] == counters;
    case Absent =>
  }

  /** Adds up all below a node, beyond the level of the networks. */
  method Add(t: Trie, level: nat) returns (score: nat)
    requires Shaped(t, level)
    ensures score == Total(t)
    decreases t
  {
    score := 0;
    if t.Absent? { return; }
    var i := 0;
    PartStep(t, level, 0);
    while i < WAYS
      invariant 0 <= i <= WAYS && score == Part(t, i)
    {
      PartStep(t, level, i);
      if t.Inner? {
        var n := Add(t.kids[i], level + 1);
        score := score + n;
      } else {
        score := score + t.counters[i];
      }
      i := i + 1;
    }
  }

  /** Sets one half byte of a network. */
  method SetNibble(value: array<byte>, l: nat, v: nibble)
    requires value.Length == 16 && l < 32
    modifies value
    ensures Nibbles(value[..], l) == old(Nibbles(value[..], l))
    ensures Nibbles(value[..], l + 1) == old(Nibbles(value[..], l)) + [v]
  {
    value[l / 2] := StoreNibble(value[l / 2], l, v);
  }

  /** No network yet met lies below the path. */
  ghost predicate NewGround(D: seq<Entry>, path: seq<nibble>) {
    forall e :: e in D ==> !(path <= e.prefix)
  }

  /** Nor, after the first i children of a node, below its child i. */
  lemma NextGround(D: seq<Entry>, t: Trie, level: nat, limit: nat, path: seq<nibble>, i: nibble)
    requires Shaped(t, level) && level <= limit <= LAST && !t.Absent? && |path| == level && NewGround(D, path)
    ensures NewGround(D + EntriesUpTo(t, level, limit, path, i), path + [i])
    ensures level == limit ==> NotYet(D + EntriesUpTo(t, level, limit, path, i), path + [i])
  {
    forall e | e in D + EntriesUpTo(t, level, limit, path, i) ensures !(path + [i] <= e.prefix) {
      if e in D {
        assert path + [i] <= e.prefix ==> path <= e.prefix;
      } else {
        EntriesAreThose(t, level, limit, path, i, e);
      }
    }
  }

  /** What is known of the lists and the path between two steps. */
  ghost predicate Sound(value: array<byte>, scores: array<nat>, networks: array<Ip>, level: nat, limit: nat, path: seq<nibble>, D: seq<Entry>)
    reads value, scores, networks
  {
    && value.Length == 16 && scores.Length == networks.Length > 0 && level <= limit <= LAST
    && Nibbles(value[..], level) == path
    && Ranked(scores[..], Prefixes(networks[..], limit + 1), D)
  }

  /** The networks one level below. */
  method Score(t: Trie, value: array<byte>, scores: array<nat>, networks: array<Ip>, limit: nat,
               ghost path: seq<nibble>, ghost D: seq<Entry>) returns (score: nat)
    requires Shaped(t, limit) && !t.Absent? && NewGround(D, path) && Sound(value, scores, networks, limit, limit, path, D)
    modifies value, scores, networks
    ensures score == Total(t) && Sound(value, scores, networks, limit, limit, path, D + Entries(t, limit, limit, path))
  {
    score := 0;
    ghost var D' := D;
    PartStep(t, limit, 0);
    var i := 0;
    while i < WAYS
      invariant 0 <= i <= WAYS && score == Part(t, i)
      invariant D' == D + EntriesUpTo(t, limit, limit, path, i) && Sound(value, scores, networks, limit, limit, path, D')
    {
      PartStep(t, limit, i);
      NextGround(D, t, limit, limit, path, i);
      var n := ScoreChild(t, value, scores, networks, limit, i, path, D');
      score := score + n;
      EntriesCat(D, t, limit, limit, path, i);
      D' := D' + EntriesAt(t, limit, limit, path, i);
      i := i + 1;
    }
  }

  method ScoreChild(t: Trie, value: array<byte>, scores: array<nat>, networks: array<Ip>, limit: nat, i: nibble,
                    ghost path: seq<nibble>, ghost D: seq<Entry>) returns (n: nat)
    requires Shaped(t, limit) && !t.Absent? && Sound(value, scores, networks, limit, limit, path, D) && NotYet(D, path + [i])
    modifies value, scores, networks
    ensures n == CountAt(t, i) && Sound(value, scores, networks, limit, limit, path, D + EntriesAt(t, limit, limit, path, i))
  {
    if t.Leaf? { n := t.counters[i]; } else { n := Add(t.kids[i], limit + 1); }
    ScoreOne(value, scores, networks, limit, i, n, path, D);
  }

  method ScoreOne(value: array<byte>, scores: array<nat>, networks: array<Ip>, limit: nat, i: nibble, n: nat,
                  ghost path: seq<nibble>, ghost D: seq<Entry>)
    requires Sound(value, scores, networks, limit, limit, path, D) && NotYet(D, path + [i])
    modifies value, scores, networks
    ensures Sound(value, scores, networks, limit, limit, path, D + [Entry(path + [i], n)])
  {
    if n <= scores[0] {
      SkipRanks(scores[..], Prefixes(networks[..], limit + 1), D, path + [i], n);
      return;
    }
    SetNibble(value, limit, i);
    Enter(scores, networks, n, value[..], limit + 1, D);
  }

  /** Walks the trie down to the level of the networks. */
  method GetHighscores(t: Trie, level: nat, value: array<byte>, scores: array<nat>, networks: array<Ip>, limit: nat,
                       ghost path: seq<nibble>, ghost D: seq<Entry>) returns (score: nat)
    requires Shaped(t, level) && NewGround(D, path) && Sound(value, scores, networks, level, limit, path, D)
    modifies value, scores, networks
    ensures score == Total(t) && Sound(value, scores, networks, level, limit, path, D + Entries(t, level, limit, path))
    decreases t, 1
  {
    score := 0;
    if t.Absent? {
      assert D + [] == D;
      return;
    }
    if level == limit {
      score := Score(t, value, scores, networks, limit, path, D);
      return;
    }
    ghost var D' := D;
    PartStep(t, level, 0);
    var i := 0;
    while i < WAYS
      invariant 0 <= i <= WAYS && score == Part(t, i)
      invariant D' == D + EntriesUpTo(t, level, limit, path, i) && Sound(value, scores, networks, level, limit, path, D')
    {
      PartStep(t, level, i);
      NextGround(D, t, level, limit, path, i);
      var n := VisitChild(t, level, value, scores, networks, limit, i, path, D');
      score := score + n;
      EntriesCat(D, t, level, limit, path, i);
      D' := D' + EntriesAt(t, level, limit, path, i);
      i := i + 1;
    }
  }

  lemma EntriesCat(D: seq<Entry>, t: Trie, level: nat, limit: nat, path: seq<nibble>, i: nibble)
    requires Shaped(t, level) && level <= limit <= LAST && !t.Absent?
    ensures (D + EntriesUpTo(t, level, limit, path, i)) + EntriesAt(t, level, limit, path, i) == D + EntriesUpTo(t, level, limit, path, i + 1)
  {
  }

  method VisitChild(t: Trie, level: nat, value: array<byte>, scores: array<nat>, networks: array<Ip>, limit: nat, i: nibble,
                    ghost path: seq<nibble>, ghost D: seq<Entry>) returns (n: nat)
    requires t.Inner? && Shaped(t, level) && level < limit && Sound(value, scores, networks, level, limit, path, D)
    requires NewGround(D, path + [i])
    modifies value, scores, networks
    ensures n == CountAt(t, i) && Sound(value, scores, networks, level, limit, path, D + EntriesAt(t, level, limit, path, i))
    decreases t, 0
  {
    if t.kids[i].Absent? {
      assert D + [] == D;
      return 0;
    }
    SetNibble(value, level, i);
    n := GetHighscores(t.kids[i], level + 1, value, scores, networks, limit, path + [i], D);
    NibblesBack(value[..], level, path, i);
  }

  lemma NibblesBack(v: seq<byte>, l: nat, path: seq<nibble>, i: nibble)
    requires l < 2 * |v| && Nibbles(v, l + 1) == path + [i] && |path| == l
    ensures Nibbles(v, l) == path
  {
    assert Nibbles(v, l) == Nibbles(v, l + 1)[..l];
  }

  // ---------------------------------------------------------------------------------------
  // The busiest networks

  lemma {:induction false} BelowAll(addresses: seq<seq<nibble>>)
    ensures Below(addresses, []) == |addresses|
  {
    if addresses != [] { BelowAll(addresses[..|addresses| - 1]); }
  }

  /** The lists hold the networks with the most of the addresses. */
  ghost predicate Busiest(S: seq<nat>, N: seq<seq<nibble>>, addresses: seq<seq<nibble>>, n: nat) {
    && 0 < |S| == |N| && Ascending(S) && Apart(S, N)
    && (forall k :: 0 <= k < |S| && S[k] > 0 ==> |N[k]| == n && S[k] == Below(addresses, N[k]))
    && forall p: seq<nibble> :: |p| == n ==> Placed(S, N, Entry(p, Below(addresses, p)))
  }

  lemma RankedIsBusiest(S: seq<nat>, N: seq<seq<nibble>>, t: Root, limit: nat, addresses: seq<seq<nibble>>)
    requires limit <= LAST && Counts(t, addresses) && Ranked(S, N, Entries(t, 0, limit, []))
    ensures Busiest(S, N, addresses, limit + 1)
  {
    var D := Entries(t, 0, limit, []);
    var zeros: seq<nibble> := seq(limit + 1, _ => 0);
    EntriesComplete(t, limit, zeros);
    forall k | 0 <= k < |S| && S[k] > 0 ensures |N[k]| == limit + 1 && S[k] == Below(addresses, N[k]) {
      assert Entry(N[k], S[k]) in D;
    }
    forall p: seq<nibble> | |p| == limit + 1 ensures Placed(S, N, Entry(p, Below(addresses, p))) {
      EntriesComplete(t, limit, p);
      assert Count(t, p) == Below(addresses, p);
    }
  }

  lemma NoneRanked(amount: nat, N: seq<seq<nibble>>)
    requires amount > 0 && |N| == amount
    ensures Ranked(seq(amount, _ => 0), N, [])
  {
  }

  /** The total of all addresses, and the networks of a size with the most of them. */
  method BusyNetworks(ips: seq<Ip>, amount: nat, limit: nat) returns (total: nat, scores: array<nat>, networks: array<Ip>)
    requires amount > 0 && limit <= LAST
    ensures total == |ips| && fresh(scores) && fresh(networks) && scores.Length == networks.Length == amount
    ensures Busiest(scores[..], Prefixes(networks[..], limit + 1), Addresses(ips), limit + 1)
  {
    var n, t := IncreaseAll(ips, true);
    assert ips[..n] == ips;
    scores := new nat[amount](_ => 0);
    networks := new Ip[amount](_ => seq(16, _ => 0));
    var value := new byte[16](_ => 0);
    NoneRanked(amount, Prefixes(networks[..], limit + 1));
    assert scores[..] == seq(amount, _ => 0);
    total := GetHighscores(t, 0, value, scores, networks, limit, [], []);
    BelowAll(Addresses(ips));
    assert Count(t, []) == Below(Addresses(ips), []);
    assert [] + Entries(t, 0, limit, []) == Entries(t, 0, limit, []);
    RankedIsBusiest(scores[..], Prefixes(networks[..], limit + 1), t, limit, Addresses(ips));
  }
}
