/**
  Counters per network (src/ot_stats.c): a trie over the half bytes of addresses, 16 ways at each
  of seven levels, with counters at the last.
 */
module NetworkTrie {

  type byte = b: int | 0 <= b < 256
  type nibble = n: int | 0 <= n < 16

  const WAYS := 16
  const LAST := 6

  datatype Trie = Absent | Inner(kids: seq<Trie>) | Leaf(counters: seq<nat>)

  /** Shaped as a node of a level. */
  ghost predicate Shaped(t: Trie, level: nat)
    decreases t
  {
    match t
    case Absent => true
    case Inner(kids) => level < LAST && |kids| == WAYS && forall i :: 0 <= i < |kids| ==> Shaped(kids[i], level + 1)
    case Leaf(counters) => level == LAST && |counters| == WAYS
  }

  // ---------------------------------------------------------------------------------------
  // Half bytes of an address

  /** Half byte number l, the high half of a byte first. */
  function NibbleAt(ip: seq<byte>, l: nat): nibble
    requires l / 2 < |ip|
  {
    if l % 2 == 0 then ip[l / 2] / 16 else ip[l / 2] % 16
  }

  function Nibbles(ip: seq<byte>, n: nat): (p: seq<nibble>)
    requires n <= 2 * |ip|
    ensures |p| == n && forall l :: 0 <= l < n ==> p[l] == NibbleAt(ip, l)
  {
    seq(n, l requires 0 <= l < n => NibbleAt(ip, l))
  }

  /** The byte with half byte number l set to v. */
  function StoreNibble(b: byte, l: nat, v: nibble): (r: byte)
    ensures if l % 2 == 0 then r / 16 == v && r % 16 == b % 16 else r % 16 == v && r / 16 == b / 16
  {
    if l % 2 == 0 then 16 * v + b % 16 else b / 16 * 16 + v
  }

  // ---------------------------------------------------------------------------------------
  // Counts

  ghost function Sum(s: seq<nat>): nat {
    if s == [] then 0 else Sum(s[..|s| - 1]) + s[|s| - 1]
  }

  ghost function Total(t: Trie): nat
    decreases t, 0
  {
    match t
    case Absent => 0
    case Inner(kids) => TotalOf(kids)
    case Leaf(counters) => Sum(counters)
  }

  ghost function TotalOf(kids: seq<Trie>): nat
    decreases kids, 1
  {
    if kids == [] then 0 else TotalOf(kids[..|kids| - 1]) + Total(kids[|kids| - 1])
  }

  /** The number counted below a path. */
  ghost function Count(t: Trie, path: seq<nibble>): nat
    decreases path
  {
    if path == [] then Total(t)
    else
      match t
      case Absent => 0
      case Inner(kids) => if path[0] < |kids| then Count(kids[path[0]], path[1..]) else 0
      case Leaf(counters) => if path[0] < |counters| && |path| == 1 then counters[path[0]] else 0
  }

  lemma {:induction false} SumUpdate(s: seq<nat>, i: nat, x: nat)
    requires i < |s|
    ensures Sum(s[i := x]) == Sum(s) - s[i] + x
  {
    var n := |s| - 1;
    if i < n {
      assert s[i := x][..n] == s[..n][i := x];
      SumUpdate(s[..n], i, x);
    } else {
      assert s[i := x][..n] == s[..n];
    }
  }

  lemma {:induction false} TotalUpdate(kids: seq<Trie>, i: nat, t: Trie)
    requires i < |kids|
    ensures TotalOf(kids[i := t]) == TotalOf(kids) - Total(kids[i]) + Total(t)
  {
    var n := |kids| - 1;
    if i < n {
      assert kids[i := t][..n] == kids[..n][i := t];
      TotalUpdate(kids[..n], i, t);
    } else {
      assert kids[i := t][..n] == kids[..n];
    }
  }

  lemma {:induction false} NothingYet(n: nat)
    ensures Sum(seq(n, _ => 0)) == 0 && TotalOf(seq(n, _ => Absent)) == 0
  {
    if n > 0 {
      var s: seq<nat>, k: seq<Trie> := seq(n, _ => 0), seq(n, _ => Absent);
      assert s[..n - 1] == seq(n - 1, _ => 0) && k[..n - 1] == seq(n - 1, _ => Absent);
      NothingYet(n - 1);
    }
  }

  // ---------------------------------------------------------------------------------------
  // Counting an address

  /** A node with nothing in it. */
  function Fresh(level: nat): Trie {
    if level < LAST then Inner(seq(WAYS, _ => Absent)) else Leaf(seq(WAYS, _ => 0))
  }

  lemma FreshIsEmpty(level: nat, path: seq<nibble>)
    requires level <= LAST
    ensures Shaped(Fresh(level), level) && Count(Fresh(level), path) == 0
  {
    NothingYet(WAYS);
  }

  /** The trie with an address counted. */
  function Increased(t: Trie, level: nat, a: seq<nibble>): Trie
    requires level <= LAST && Shaped(t, level) && |a| == LAST + 1
    decreases LAST - level
  {
    var node := if t.Absent? then Fresh(level) else t;
    var way := a[level];
    if level < LAST then Inner(node.kids[way := Increased(node.kids[way], level + 1, a)])
    else Leaf(node.counters[way := node.counters[way] + 1])
  }

  /** The count of a path after one child was replaced. */
  lemma CountAfter(kids: seq<Trie>, way: nibble, kid: Trie, path: seq<nibble>)
    requires |kids| == WAYS
    ensures Count(Inner(kids[way := kid]), path) ==
            if path == [] then Total(Inner(kids)) - Total(kids[way]) + Total(kid)
            else if path[0] == way then Count(kid, path[1..]) else Count(Inner(kids), path)
  {
    if path == [] { TotalUpdate(kids, way, kid); }
  }

  lemma CountLeaf(counters: seq<nat>, way: nibble, path: seq<nibble>)
    requires |counters| == WAYS && |path| <= 1
    ensures Count(Leaf(counters[way := counters[way] + 1]), path) == Count(Leaf(counters), path) + if path <= [way] then 1 else 0
  {
    SumUpdate(counters, way, counters[way] + 1);
  }

  lemma PathStep(a: seq<nibble>, level: nat, path: seq<nibble>)
    requires path != [] && level + |path| <= |a|
    ensures path == a[level..level + |path|] <==> path[0] == a[level] && path[1..] == a[level + 1..level + |path|]
  {
    assert a[level..level + |path|] == [a[level]] + a[level + 1..level + |path|];
    assert path == [path[0]] + path[1..];
  }

  /** Counting an address raises exactly the counts of the paths it lies on. */
  lemma {:induction false} CountIncreased(t: Trie, level: nat, a: seq<nibble>, path: seq<nibble>)
    requires level <= LAST && Shaped(t, level) && |a| == LAST + 1 && level + |path| <= LAST + 1
    ensures Count(Increased(t, level, a), path) == Count(t, path) + if path == a[level..level + |path|] then 1 else 0
    decreases LAST - level
  {
    FreshIsEmpty(level, path);
    var node, way := if t.Absent? then Fresh(level) else t, a[level];
    if path != [] { PathStep(a, level, path); }
    if level < LAST {
      CountIncreased(node.kids[way], level + 1, a, if path == [] then [] else path[1..]);
      CountAfter(node.kids, way, Increased(node.kids[way], level + 1, a), path);
    } else {
      CountLeaf(node.counters, way, path);
    }
  }

  // ---------------------------------------------------------------------------------------
  // Histories

  /** How many of the addresses lie below a path. */
  ghost function Below(addresses: seq<seq<nibble>>, path: seq<nibble>): nat {
    if addresses == [] then 0
    else Below(addresses[..|addresses| - 1], path) + if path <= addresses[|addresses| - 1] then 1 else 0
  }

  /** The trie counts exactly the addresses. */
  ghost predicate Counts(t: Trie, addresses: seq<seq<nibble>>) {
    forall path: seq<nibble> :: |path| <= LAST + 1 ==> Count(t, path) == Below(addresses, path)
  }

  lemma CountsNone()
    ensures Counts(Absent, [])
  {
  }

  lemma CountsMore(t: Trie, addresses: seq<seq<nibble>>, a: seq<nibble>)
    requires Shaped(t, 0) && Counts(t, addresses) && |a| == LAST + 1
    ensures Counts(Increased(t, 0, a), addresses + [a])
  {
    forall path: seq<nibble> | |path| <= LAST + 1 ensures Count(Increased(t, 0, a), path) == Below(addresses + [a], path) {
      CountMore(t, addresses, a, path);
    }
  }

  lemma CountMore(t: Trie, addresses: seq<seq<nibble>>, a: seq<nibble>, path: seq<nibble>)
    requires Shaped(t, 0) && |a| == LAST + 1 && |path| <= LAST + 1 && Count(t, path) == Below(addresses, path)
    ensures Count(Increased(t, 0, a), path) == Below(addresses + [a], path)
  {
    CountIncreased(t, 0, a, path);
    BelowMore(addresses, a, path);
    PrefixIs(path, a);
  }

  lemma BelowMore(addresses: seq<seq<nibble>>, a: seq<nibble>, path: seq<nibble>)
    ensures Below(addresses + [a], path) == Below(addresses, path) + if path <= a then 1 else 0
  {
    assert (addresses + [a])[..|addresses|] == addresses;
  }

  lemma PrefixIs(path: seq<nibble>, a: seq<nibble>)
    requires |path| <= |a|
    ensures path <= a <==> path == a[0..|path|]
  {
  }
}
