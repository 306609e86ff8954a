/**
  The crit-bit tree as a value: what its shape means and what insertion, deletion and prefix
  search do to that shape. Inner nodes carry a tag, which the pointer structure uses to say
  which heap object holds the node.
 */
module CritbitTrie {
  import opened CritbitBits

  datatype Trie<T> = Leaf(key: Key) | Node(tag: T, n: nat, left: Trie<T>, right: Trie<T>)

  function Keys<T>(t: Trie<T>): set<Key> {
    match t
    case Leaf(k) => {k}
    case Node(_, _, l, r) => Keys(l) + Keys(r)
  }

  /** Critical bits strictly increase downwards, and a node splits its keys by its critical bit. */
  ghost predicate WellFormed<T>(t: Trie<T>) {
    match t
    case Leaf(k) => NulFree(k)
    case Node(_, n, l, r) =>
      && WellFormed(l) && WellFormed(r)
      && Below(n, l) && Below(n, r)
      && (forall k :: k in Keys(l) ==> !Bit(k, n))
      && (forall k :: k in Keys(r) ==> Bit(k, n))
      && AllAgree(Keys(t), n)
  }

  /** The order of the critical bits alone. */
  predicate Increasing<T>(t: Trie<T>) {
    t.Node? ==>
      && (t.left.Node? ==> t.n < t.left.n) && Increasing(t.left)
      && (t.right.Node? ==> t.n < t.right.n) && Increasing(t.right)
  }

  lemma {:induction false} WellFormedIncreases<T>(t: Trie<T>)
    requires WellFormed(t)
    ensures Increasing(t)
  {
    if t.Node? {
      WellFormedIncreases(t.left);
      WellFormedIncreases(t.right);
    }
  }

  predicate Below<T>(n: nat, t: Trie<T>) {
    t.Node? ==> n < t.n
  }

  ghost predicate AllAgree(s: set<Key>, n: nat) {
    forall x, y :: x in s && y in s ==> Agree(x, y, n)
  }

  function Child<T>(t: Trie<T>, dir: bool): Trie<T>
    requires t.Node?
  {
    if dir then t.right else t.left
  }

  /** The leaf that the bits of u lead to. */
  function Walk<T>(t: Trie<T>, u: Key): Key {
    match t
    case Leaf(k) => k
    case Node(_, n, l, r) => if Bit(u, n) then Walk(r, u) else Walk(l, u)
  }

  lemma {:induction false} WalkIsKey<T>(t: Trie<T>, u: Key)
    ensures Walk(t, u) in Keys(t)
  {
    if t.Node? {
      WalkIsKey(Child(t, Bit(u, t.n)), u);
    }
  }

  lemma {:induction false} KeysNulFree<T>(t: Trie<T>, k: Key)
    requires WellFormed(t) && k in Keys(t)
    ensures NulFree(k)
  {
    if t.Node? {
      if k in Keys(t.left) {
        KeysNulFree(t.left, k);
      } else {
        KeysNulFree(t.right, k);
      }
    }
  }

  /** A stored key is found by walking. */
  lemma {:induction false} WalkFindsMembers<T>(t: Trie<T>, u: Key)
    requires WellFormed(t)
    ensures u in Keys(t) <==> Walk(t, u) == u
  {
    WalkIsKey(t, u);
    if t.Node? {
      WalkFindsMembers(Child(t, Bit(u, t.n)), u);
    }
  }

  // ---------------------------------------------------------------------------------------
  // Insertion

  /** The edge that insertion splits: the first one that leads below bit d. */
  predicate SplitsHere<T>(t: Trie<T>, d: nat) {
    t.Leaf? || t.n > d
  }

  function Insert<T>(t: Trie<T>, u: Key, d: nat, tag: T): Trie<T> {
    if SplitsHere(t, d) then
      if Bit(u, d) then Node(tag, d, t, Leaf(u)) else Node(tag, d, Leaf(u), t)
    else if Bit(u, t.n) then
      Node(t.tag, t.n, t.left, Insert(t.right, u, d, tag))
    else
      Node(t.tag, t.n, Insert(t.left, u, d, tag), t.right)
  }

  lemma {:induction false} InsertKeys<T>(t: Trie<T>, u: Key, d: nat, tag: T)
    ensures Keys(Insert(t, u, d, tag)) == Keys(t) + {u}
  {
    if !SplitsHere(t, d) {
      InsertKeys(Child(t, Bit(u, t.n)), u, d, tag);
    }
  }

  /** The critical bit of u and the leaf reached is never the critical bit of a node passed. */
  lemma DifferOffPath<T>(t: Trie<T>, u: Key, d: nat)
    requires WellFormed(t) && t.Node? && DifferAt(u, Walk(t, u), d)
    ensures t.n != d
  {
    WalkIsKey(Child(t, Bit(u, t.n)), u);
  }

  lemma AgreeTransitive(x: Key, y: Key, z: Key, n: nat)
    requires Agree(x, y, n) && Agree(y, z, n)
    ensures Agree(x, z, n)
  {
  }

  /** Adding a key that agrees with the members up to n keeps them in agreement. */
  lemma AllAgreeExtend(s: set<Key>, p: Key, u: Key, n: nat)
    requires AllAgree(s, n) && p in s && Agree(u, p, n)
    ensures AllAgree(s + {u}, n)
  {
    forall x, y | x in s + {u} && y in s + {u} ensures Agree(x, y, n) {
      if x == u {
        if y != u { AgreeTransitive(u, p, y, n); }
      } else if y == u {
        AgreeTransitive(x, p, u, n);
      }
    }
  }

  lemma AllAgreeBelow(s: set<Key>, n: nat, m: nat)
    requires AllAgree(s, n) && m <= n
    ensures AllAgree(s, m)
  {
  }

  /** A subtree whose critical bit lies below d agrees on bit d with the leaf reached. */
  lemma SplitWellFormed<T>(t: Trie<T>, u: Key, d: nat, tag: T)
    requires WellFormed(t) && NulFree(u) && SplitsHere(t, d)
    requires DifferAt(u, Walk(t, u), d)
    ensures WellFormed(Insert(t, u, d, tag))
  {
    var p := Walk(t, u);
    WalkIsKey(t, u);
    var s := Keys(t);
    if t.Leaf? {
      assert s == {p};
    } else {
      AllAgreeBelow(s, t.n, d);
    }
    forall k | k in s ensures Bit(k, d) != Bit(u, d) {
      if t.Node? {
        assert Agree(k, p, t.n);
      }
    }
    AllAgreeExtend(s, p, u, d);
    assert Keys(Insert(t, u, d, tag)) == s + {u};
  }

  lemma {:induction false} InsertWellFormed<T>(t: Trie<T>, u: Key, d: nat, tag: T)
    requires WellFormed(t) && NulFree(u)
    requires DifferAt(u, Walk(t, u), d)
    ensures WellFormed(Insert(t, u, d, tag))
    ensures forall m: nat :: m < d && Below(m, t) ==> Below(m, Insert(t, u, d, tag))
  {
    if SplitsHere(t, d) {
      SplitWellFormed(t, u, d, tag);
    } else {
      DifferOffPath(t, u, d);
      var dir := Bit(u, t.n);
      var c := Child(t, dir);
      InsertWellFormed(c, u, d, tag);
      InsertKeys(c, u, d, tag);
      WalkIsKey(c, u);
      AllAgreeExtend(Keys(t), Walk(t, u), u, t.n);
      assert Keys(Insert(t, u, d, tag)) == Keys(t) + {u} by { InsertKeys(t, u, d, tag); }
    }
  }

  // ---------------------------------------------------------------------------------------
  // Deletion

  /** The sibling replaces the parent of the leaf that u leads to. */
  function Delete<T>(t: Trie<T>, u: Key): Trie<T>
    requires t.Node?
  {
    var dir := Bit(u, t.n);
    var c := Child(t, dir);
    if c.Leaf? then
      Child(t, !dir)
    else if dir then
      Node(t.tag, t.n, t.left, Delete(c, u))
    else
      Node(t.tag, t.n, Delete(c, u), t.right)
  }

  lemma {:induction false} DeleteCorrect<T>(t: Trie<T>, u: Key)
    requires WellFormed(t) && t.Node? && u in Keys(t)
    ensures Keys(Delete(t, u)) == Keys(t) - {u}
    ensures WellFormed(Delete(t, u))
    ensures forall m: nat :: Below(m, t) ==> Below(m, Delete(t, u))
  {
    var dir := Bit(u, t.n);
    var c := Child(t, dir);
    assert u !in Keys(Child(t, !dir));
    if c.Node? {
      DeleteCorrect(c, u);
    }
  }

  // ---------------------------------------------------------------------------------------
  // Canonical form

  /** The tree without its tags. */
  function Erase<T>(t: Trie<T>): Trie<()> {
    match t
    case Leaf(k) => Leaf(k)
    case Node(_, n, l, r) => Node((), n, Erase(l), Erase(r))
  }

  lemma {:induction false} SomeKey<T>(t: Trie<T>) returns (k: Key)
    ensures k in Keys(t)
  {
    if t.Leaf? { k := t.key; } else { k := SomeKey(t.left); }
  }

  /** A node's critical bit is fixed by its set of keys. */
  lemma SameCriticalBit<S, T>(s: Trie<S>, t: Trie<T>)
    requires WellFormed(s) && WellFormed(t) && Keys(s) == Keys(t) && s.Node?
    ensures t.Node? && !(s.n < t.n)
  {
    var x := SomeKey(s.left);
    var y := SomeKey(s.right);
    assert x in Keys(t) && y in Keys(t) && Bit(x, s.n) != Bit(y, s.n);
    assert t.Node? ==> Agree(x, y, t.n);
  }

  /** The shape of a crit-bit tree depends on its set of keys only. */
  lemma {:induction false} Canonical<S, T>(s: Trie<S>, t: Trie<T>)
    requires WellFormed(s) && WellFormed(t) && Keys(s) == Keys(t)
    ensures Erase(s) == Erase(t)
  {
    if s.Leaf? && t.Leaf? {
      assert s.key in Keys(t);
    } else {
      if s.Node? { SameCriticalBit(s, t); }
      SameCriticalBit(t, s);
      SameCriticalBit(s, t);
      SplitByBit(s);
      SplitByBit(t);
      Canonical(s.left, t.left);
      Canonical(s.right, t.right);
    }
  }

  lemma SplitByBit<T>(t: Trie<T>)
    requires WellFormed(t) && t.Node?
    ensures Keys(t.left) == set k | k in Keys(t) && !Bit(k, t.n)
    ensures Keys(t.right) == set k | k in Keys(t) && Bit(k, t.n)
  {
  }

  /** Deleting a key just inserted restores the very same tree. */
  lemma DeleteUndoesInsert<T>(t: Trie<T>, u: Key, d: nat, tag: T)
    requires WellFormed(t) && NulFree(u) && u !in Keys(t)
    requires DifferAt(u, Walk(t, u), d)
    ensures Erase(Delete(Insert(t, u, d, tag), u)) == Erase(t)
  {
    InsertWellFormed(t, u, d, tag);
    InsertKeys(t, u, d, tag);
    DeleteCorrect(Insert(t, u, d, tag), u);
    assert Keys(t) + {u} - {u} == Keys(t);
    Canonical(Delete(Insert(t, u, d, tag), u), t);
  }

  // ---------------------------------------------------------------------------------------
  // Ordered prefix enumeration

  function InOrder<T>(t: Trie<T>): seq<Key> {
    match t
    case Leaf(k) => [k]
    case Node(_, _, l, r) => InOrder(l) + InOrder(r)
  }

  function Elements(s: seq<Key>): set<Key> {
    set k | k in s
  }

  ghost predicate Ascending(s: seq<Key>) {
    forall i, j :: 0 <= i < j < |s| ==> Less(s[i], s[j])
  }

  lemma {:induction false} InOrderKeys<T>(t: Trie<T>)
    ensures Elements(InOrder(t)) == Keys(t)
  {
    if t.Node? {
      InOrderKeys(t.left);
      InOrderKeys(t.right);
      var l, r := InOrder(t.left), InOrder(t.right);
      assert Elements(l + r) == Elements(l) + Elements(r);
    }
  }

  /** Left to right, the leaves are in ascending strcmp order; so each key occurs once. */
  lemma {:induction false} InOrderAscending<T>(t: Trie<T>)
    requires WellFormed(t)
    ensures Ascending(InOrder(t))
  {
    if t.Node? {
      InOrderAscending(t.left);
      InOrderAscending(t.right);
      var l, r := InOrder(t.left), InOrder(t.right);
      forall i, j | 0 <= i < |l| && 0 <= j < |r| ensures Less(l[i], r[j]) {
        InOrderKeys(t.left);
        InOrderKeys(t.right);
        assert l[i] in Keys(t.left) && r[j] in Keys(t.right);
        assert Agree(l[i], r[j], t.n);
        CriticalBitOrders(l[i], r[j], t.n);
      }
      AscendingConcat(l, r);
    }
  }

  lemma AscendingConcat(l: seq<Key>, r: seq<Key>)
    requires Ascending(l) && Ascending(r)
    requires forall i, j :: 0 <= i < |l| && 0 <= j < |r| ==> Less(l[i], r[j])
    ensures Ascending(l + r)
  {
    var s := l + r;
    forall i, j | 0 <= i < j < |s| ensures Less(s[i], s[j]) {
      if i < |l| && |l| <= j {
        assert Less(l[i], r[j - |l|]);
      } else if |l| <= i {
        assert Less(r[i - |l|], r[j - |l|]);
      } else {
        assert Less(l[i], l[j]);
      }
    }
  }

  predicate IsPrefix(p: Key, k: Key) {
    p <= k
  }

  /** The subtree below the last node that tests a byte of the prefix. */
  function Top<T>(t: Trie<T>, p: Key): Trie<T> {
    if t.Leaf? || t.n / 8 >= |p| then t else Top(Child(t, Bit(p, t.n)), p)
  }

  lemma PrefixBits(p: Key, k: Key)
    requires NulFree(p)
    ensures IsPrefix(p, k) <==> Agree(p, k, 8 * |p|)
  {
    AgreeBytes(p, k, |p|);
    if Agree(p, k, 8 * |p|) {
      forall j: nat | j < |p| ensures j < |k| && p[j] == k[j] {
        assert At(p, j) == At(k, j);
      }
      if |p| > 0 {
        assert At(p, |p| - 1) == At(k, |p| - 1);
      }
    }
  }

  /** Every stored key with the prefix is below Top. */
  lemma {:induction false} TopHasAll<T>(t: Trie<T>, p: Key, k: Key)
    requires WellFormed(t) && NulFree(p) && k in Keys(t) && IsPrefix(p, k)
    ensures k in Keys(Top(t, p))
  {
    if t.Node? && t.n / 8 < |p| {
      PrefixBits(p, k);
      assert Bit(p, t.n) == Bit(k, t.n);
      TopHasAll(Child(t, Bit(p, t.n)), p, k);
    }
  }

  lemma {:induction false} TopProperties<T>(t: Trie<T>, p: Key)
    requires WellFormed(t)
    ensures WellFormed(Top(t, p)) && Keys(Top(t, p)) <= Keys(t)
    ensures Walk(Top(t, p), p) == Walk(t, p)
    ensures Top(t, p).Leaf? || Top(t, p).n / 8 >= |p|
  {
    if t.Node? && t.n / 8 < |p| {
      TopProperties(Child(t, Bit(p, t.n)), p);
    }
  }

  /** If the leaf reached has the prefix, every key below Top has it; otherwise no stored key has. */
  lemma TopIsPrefixed<T>(t: Trie<T>, p: Key)
    requires WellFormed(t) && NulFree(p)
    ensures (set k | k in Keys(t) && IsPrefix(p, k)) ==
            if IsPrefix(p, Walk(t, p)) then Keys(Top(t, p)) else {}
  {
    var top, w := Top(t, p), Walk(t, p);
    TopProperties(t, p);
    WalkIsKey(top, p);
    PrefixBits(p, w);
    forall k | k in Keys(t) && IsPrefix(p, k) ensures k in Keys(top) {
      TopHasAll(t, p, k);
    }
    forall k | k in Keys(top) ensures IsPrefix(p, k) <==> IsPrefix(p, w) {
      PrefixBits(p, k);
      if top.Node? {
        assert Agree(k, w, top.n) && Agree(w, k, top.n);
        assert Agree(k, w, 8 * |p|) && Agree(w, k, 8 * |p|);
      }
    }
  }

  /** What a prefix search has to deliver: the stored keys with the prefix, ascending. */
  ghost predicate IsPrefixListing(s: seq<Key>, keys: set<Key>, p: Key) {
    Ascending(s) && Elements(s) == set k | k in keys && IsPrefix(p, k)
  }

  lemma NoElements(s: seq<Key>)
    ensures Elements(s) == {} <==> s == []
  {
    if s != [] { assert s[0] in Elements(s); }
  }

  lemma ListingIsUnique(s: seq<Key>, s': seq<Key>)
    requires Ascending(s) && Ascending(s') && Elements(s) == Elements(s')
    ensures s == s'
  {
    NoElements(s);
    NoElements(s');
    if s != [] {
      assert s[0] in Elements(s) && s'[0] in Elements(s');
      var i :| 0 <= i < |s'| && s'[i] == s[0];
      var j :| 0 <= j < |s| && s[j] == s'[0];
      assert s[0] == s'[0] by {
        if i != 0 && j != 0 {
          LessAsymmetric(s'[0], s'[i]);
        }
      }
      DropHead(s);
      DropHead(s');
      ListingIsUnique(s[1..], s'[1..]);
    }
  }

  lemma DropHead(s: seq<Key>)
    requires s != [] && Ascending(s)
    ensures Ascending(s[1..])
    ensures Elements(s[1..]) == Elements(s) - {s[0]}
  {
    forall k | k in s[1..] ensures k != s[0] {
      var i :| 1 <= i < |s| && s[i] == k;
      LessAsymmetric(s[0], s[i]);
    }
    assert s == [s[0]] + s[1..];
  }
}
