/**
  The crit-bit tree as the pointer structure of libowfat/critbit/critbit.c.

  A child pointer is either the address of a string (`External`) or the tagged address of an
  inner node (`Internal`). The ghost field `shape` says which object sits where; `Linked` ties
  the objects to it.
 */
module Critbit {
  import opened CritbitBits
  import opened CritbitTrie

  class InnerNode {
    var child0: Ref
    var child1: Ref
    var byte: nat
    var otherbits: bv8

    constructor (byte: nat, otherbits: bv8, newdirection: bool, x: Ref, sub: Ref)
      ensures Now() == Cell(if newdirection then x else sub, if newdirection then sub else x, byte, otherbits)
    {
      this.byte, this.otherbits := byte, otherbits;
      child0 := if newdirection then x else sub;
      child1 := if newdirection then sub else x;
    }

    function Now(): Cell
      reads this
    {
      Cell(child0, child1, byte, otherbits)
    }

    method SetChild(dir: bool, c: Ref)
      modifies this
      ensures Now() == old(Now()).Redirect(dir, c)
    {
      if dir { child1 := c; } else { child0 := c; }
    }
  }

  datatype Ref = External(key: Key) | Internal(node: InnerNode)

  datatype Option<+T> = None | Some(value: T)

  function ChildOf(q: InnerNode, dir: bool): Ref
    reads q
  {
    if dir then q.child1 else q.child0
  }

  /** The direction in which u leaves node q. */
  function NodeDirection(q: InnerNode, u: Key): (d: bool)
    requires IsOtherbits(q.otherbits)
    reads q
    ensures d == Bit(u, Crit(q.byte, q.otherbits))
  {
    Direction(q.otherbits, if q.byte < |u| then u[q.byte] else 0)
  }

  ghost function Objs(t: Trie<InnerNode>): set<InnerNode> {
    match t
    case Leaf(_) => {}
    case Node(q, _, l, r) => {q} + Objs(l) + Objs(r)
  }

  /** No object occurs twice. */
  ghost predicate Separate(t: Trie<InnerNode>) {
    match t
    case Leaf(_) => true
    case Node(q, _, l, r) =>
      Separate(l) && Separate(r) && q !in Objs(l) && q !in Objs(r) && Objs(l) !! Objs(r)
  }

  /** A tree that the structure may hold. */
  type Shape = t: Trie<InnerNode> | WellFormed(t) && Separate(t) witness Leaf([])

  /** What an inner node holds, and what a set of inner nodes holds at one moment. */
  datatype Cell = Cell(child0: Ref, child1: Ref, byte: nat, otherbits: bv8) {
    ghost predicate Tests(n: nat) {
      IsOtherbits(otherbits) && n == Crit(byte, otherbits)
    }

    function At(dir: bool): Ref {
      if dir then child1 else child0
    }

    function Redirect(dir: bool, c: Ref): Cell {
      if dir then this.(child1 := c) else this.(child0 := c)
    }
  }

  type Heap = map<InnerNode, Cell>

  ghost function Snapshot(s: set<InnerNode>): (h: Heap)
    reads s
    ensures h.Keys == s
  {
    map q | q in s :: q.Now()
  }

  /** Following p through heap h finds exactly the tree t. */
  ghost predicate Linked(h: Heap, p: Ref, t: Trie<InnerNode>)
    decreases t
  {
    match t
    case Leaf(k) => p == External(k)
    case Node(q, n, l, r) =>
      p == Internal(q) && q in h && h[q].Tests(n) && Linked(h, h[q].child0, l) && Linked(h, h[q].child1, r)
  }

  lemma {:induction false} LinkedFrame(h: Heap, h': Heap, p: Ref, t: Trie<InnerNode>)
    requires Linked(h, p, t)
    requires forall o :: o in Objs(t) ==> o in h' && o in h && h'[o] == h[o]
    ensures Linked(h', p, t)
    decreases t
  {
    if t.Node? {
      LinkedFrame(h, h', h[t.tag].child0, t.left);
      LinkedFrame(h, h', h[t.tag].child1, t.right);
    }
  }

  lemma {:induction false} LinkedExtend(h: Heap, h': Heap, p: Ref, t: Trie<InnerNode>)
    requires Linked(h, p, t)
    requires forall o :: o in h ==> o in h' && h'[o] == h[o]
    ensures Linked(h', p, t)
    decreases t
  {
    if t.Node? {
      LinkedExtend(h, h', h[t.tag].child0, t.left);
      LinkedExtend(h, h', h[t.tag].child1, t.right);
    }
  }

  /** The last node passed before the edge that insertion of critical bit d splits. */
  ghost function SplitNode(t: Trie<InnerNode>, u: Key, d: nat): (s: Trie<InnerNode>)
    requires !SplitsHere(t, d)
    ensures s.Node?
  {
    var c := Child(t, Bit(u, t.n));
    if SplitsHere(c, d) then t else SplitNode(c, u, d)
  }

  ghost function SplitParent(t: Trie<InnerNode>, u: Key, d: nat): InnerNode
    requires !SplitsHere(t, d)
  {
    SplitNode(t, u, d).tag
  }

  /** The pointer that insertion splits leads to this subtree. */
  ghost function SplitTarget(t: Trie<InnerNode>, u: Key, d: nat): Trie<InnerNode> {
    if SplitsHere(t, d) then t else SplitTarget(Child(t, Bit(u, t.n)), u, d)
  }

  /** Between h and h' only node w changed, and of w only the child in direction dir. */
  ghost predicate OnlyRedirects(h: Heap, h': Heap, s: set<InnerNode>, w: InnerNode, dir: bool, c: Ref) {
    && s <= h.Keys && s <= h'.Keys && w in s
    && (forall o :: o in s && o != w ==> h'[o] == h[o])
    && h'[w] == h[w].Redirect(dir, c)
  }

  lemma {:induction false} SplitParentInside(t: Trie<InnerNode>, u: Key, d: nat)
    requires !SplitsHere(t, d)
    ensures SplitParent(t, u, d) in Objs(t)
  {
    var c := Child(t, Bit(u, t.n));
    if !SplitsHere(c, d) { SplitParentInside(c, u, d); }
  }

  /** Rewriting the one child pointer of the split parent links the whole tree anew. */
  lemma {:induction false} RelinkInsert(h: Heap, h': Heap, p: Ref, t: Trie<InnerNode>, u: Key, d: nat, q: InnerNode)
    requires Linked(h, p, t) && Separate(t) && !SplitsHere(t, d) && q !in Objs(t)
    requires OnlyRedirects(h, h', Objs(t), SplitParent(t, u, d), Bit(u, SplitNode(t, u, d).n), Internal(q))
    requires Linked(h', Internal(q), Insert(SplitTarget(t, u, d), u, d, q))
    ensures Linked(h', p, Insert(t, u, d, q))
    decreases t
  {
    var side := Bit(u, t.n);
    var c := Child(t, side);
    if !SplitsHere(c, d) { SplitParentInside(c, u, d); }
    LinkedFrame(h, h', h[t.tag].At(!side), Child(t, !side));
    if SplitsHere(c, d) {
      assert SplitTarget(c, u, d) == c && h'[t.tag].At(side) == Internal(q);
    } else {
      RelinkInsert(h, h', h[t.tag].At(side), c, u, d, q);
    }
  }

  /** c tests bit d and holds the new leaf next to the subtree to split off. */
  ghost predicate NewCell(h: Heap, c: Cell, t: Trie<InnerNode>, u: Key, d: nat) {
    c.Tests(d) && c.At(Bit(u, d)) == External(u) && Linked(h, c.At(!Bit(u, d)), SplitTarget(t, u, d))
  }

  lemma InsertLinks(h: Heap, h': Heap, p: Ref, t: Trie<InnerNode>, u: Key, d: nat, q: InnerNode, c: Cell)
    requires Linked(h, p, t) && Separate(t) && q !in Objs(t) && !SplitsHere(t, d) && NewCell(h, c, t, u, d)
    requires q in h' && h'[q] == c
    requires OnlyRedirects(h, h', Objs(t), SplitParent(t, u, d), Bit(u, SplitNode(t, u, d).n), Internal(q))
    ensures Linked(h', p, Insert(t, u, d, q))
  {
    SplitTargetApart(t, u, d);
    SplitTargetSplits(t, u, d);
    LinkedFrame(h, h', c.At(!Bit(u, d)), SplitTarget(t, u, d));
    RelinkInsert(h, h', p, t, u, d, q);
  }

  lemma {:induction false} SplitTargetSplits(t: Trie<InnerNode>, u: Key, d: nat)
    ensures SplitsHere(SplitTarget(t, u, d), d)
  {
    if !SplitsHere(t, d) { SplitTargetSplits(Child(t, Bit(u, t.n)), u, d); }
  }

  lemma {:induction false} SeparateInsert(t: Trie<InnerNode>, u: Key, d: nat, q: InnerNode)
    requires Separate(t) && q !in Objs(t)
    ensures Separate(Insert(t, u, d, q))
    ensures Objs(Insert(t, u, d, q)) == Objs(t) + {q}
  {
    if !SplitsHere(t, d) { SeparateInsert(Child(t, Bit(u, t.n)), u, d, q); }
  }

  ghost predicate Inserts(t: Trie<InnerNode>, u: Key, d: nat, q: InnerNode) {
    var t' := Insert(t, u, d, q);
    WellFormed(t') && Separate(t') && Objs(t') == Objs(t) + {q} && Keys(t') == Keys(t) + {u}
  }

  lemma InsertedTree(t: Trie<InnerNode>, u: Key, d: nat, q: InnerNode)
    requires WellFormed(t) && NulFree(u) && DifferAt(u, Walk(t, u), d) && Separate(t) && q !in Objs(t)
    ensures Inserts(t, u, d, q)
  {
    SeparateInsert(t, u, d, q);
    InsertKeys(t, u, d, q);
    InsertWellFormed(t, u, d, q);
  }

  lemma DeletedTree(t: Trie<InnerNode>, u: Key)
    requires WellFormed(t) && t.Node? && u in Keys(t) && Separate(t)
    ensures var t' := Delete(t, u);
            WellFormed(t') && Separate(t') && Objs(t') <= Objs(t) && Keys(t') == Keys(t) - {u}
  {
    DeleteCorrect(t, u);
    DeleteObjs(t, u);
  }

  /** The parent and grandparent pointers that deletion rewrites. */
  ghost function LeafParent(t: Trie<InnerNode>, u: Key): Trie<InnerNode>
    requires t.Node?
    ensures LeafParent(t, u).Node?
  {
    var c := Child(t, Bit(u, t.n));
    if c.Leaf? then t else LeafParent(c, u)
  }

  ghost function GrandNode(t: Trie<InnerNode>, u: Key): (s: Trie<InnerNode>)
    requires t.Node? && Child(t, Bit(u, t.n)).Node?
    ensures s.Node?
  {
    var c := Child(t, Bit(u, t.n));
    if Child(c, Bit(u, c.n)).Leaf? then t else GrandNode(c, u)
  }

  lemma {:induction false} GrandParentInside(t: Trie<InnerNode>, u: Key)
    requires t.Node? && Child(t, Bit(u, t.n)).Node?
    ensures GrandNode(t, u).tag in Objs(t)
  {
    var c := Child(t, Bit(u, t.n));
    if Child(c, Bit(u, c.n)).Node? { GrandParentInside(c, u); }
  }

  lemma {:induction false} DeleteObjs(t: Trie<InnerNode>, u: Key)
    requires t.Node? && Separate(t)
    ensures Separate(Delete(t, u)) && Objs(Delete(t, u)) <= Objs(t)
  {
    var c := Child(t, Bit(u, t.n));
    if c.Node? { DeleteObjs(c, u); }
  }

  /** Pointing the grandparent past the parent links the tree without the leaf. */
  lemma {:induction false} RelinkDelete(h: Heap, h': Heap, p: Ref, t: Trie<InnerNode>, u: Key, dir: bool)
    requires Linked(h, p, t) && Separate(t) && t.Node? && Child(t, Bit(u, t.n)).Node?
    requires dir == Bit(u, GrandNode(t, u).n) && LeafParent(t, u).tag in h
    requires var q := LeafParent(t, u);
             OnlyRedirects(h, h', Objs(t), GrandNode(t, u).tag, dir, h[q.tag].At(!Bit(u, q.n)))
    ensures Linked(h', p, Delete(t, u))
    decreases t
  {
    var side := Bit(u, t.n);
    var c := Child(t, side);
    if Child(c, Bit(u, c.n)).Node? { GrandParentInside(c, u); }
    LinkedFrame(h, h', h[t.tag].At(!side), Child(t, !side));
    if Child(c, Bit(u, c.n)).Node? {
      RelinkDelete(h, h', h[t.tag].At(side), c, u, dir);
    } else {
      LinkedFrame(h, h', h[c.tag].At(!Bit(u, c.n)), Child(c, !Bit(u, c.n)));
    }
  }

  lemma {:induction false} LeafParentInside(t: Trie<InnerNode>, u: Key)
    requires t.Node?
    ensures LeafParent(t, u).tag in Objs(t)
  {
    var c := Child(t, Bit(u, t.n));
    if c.Node? { LeafParentInside(c, u); }
  }

  // ---------------------------------------------------------------------------------------
  // What the three changes to the nodes do to the tree

  /** One child pointer of w is redirected. */
  ghost function Redirected(h: Heap, w: InnerNode, dir: bool, c: Ref): Heap
    requires w in h
  {
    h[w := h[w].Redirect(dir, c)]
  }

  /** A new node q with cell c, ready to take the place of the pointer to split. */
  ghost predicate Ready(h: Heap, t: Trie<InnerNode>, u: Key, d: nat, q: InnerNode) {
    q in h && q !in Objs(t) && NewCell(h, h[q], t, u, d)
  }

  lemma AddedNode(h: Heap, p: Ref, t: Trie<InnerNode>, u: Key, d: nat, q: InnerNode, c: Cell)
    requires Linked(h, p, t) && Objs(t) <= h.Keys && q !in h && NewCell(h, c, t, u, d)
    ensures Linked(h[q := c], p, t) && Ready(h[q := c], t, u, d, q)
  {
    LinkedExtend(h, h[q := c], p, t);
    LinkedExtend(h, h[q := c], c.At(!Bit(u, d)), SplitTarget(t, u, d));
  }

  lemma AttachedNode(h: Heap, p: Ref, t: Trie<InnerNode>, u: Key, d: nat, q: InnerNode)
    requires Linked(h, p, t) && Separate(t) && Objs(t) <= h.Keys && Ready(h, t, u, d, q) && !SplitsHere(t, d)
    ensures SplitParent(t, u, d) in h
    ensures Linked(Redirected(h, SplitParent(t, u, d), Bit(u, SplitNode(t, u, d).n), Internal(q)), p, Insert(t, u, d, q))
  {
    SplitParentInside(t, u, d);
    var w, dir := SplitParent(t, u, d), Bit(u, SplitNode(t, u, d).n);
    InsertLinks(h, Redirected(h, w, dir, Internal(q)), p, t, u, d, q, h[q]);
  }

  lemma UnlinkedNode(h: Heap, p: Ref, t: Trie<InnerNode>, u: Key)
    requires Linked(h, p, t) && Separate(t) && Objs(t) <= h.Keys && t.Node? && Child(t, Bit(u, t.n)).Node?
    ensures GrandNode(t, u).tag in h && LeafParent(t, u).tag in h
    ensures var q, g := LeafParent(t, u), GrandNode(t, u);
            Linked(Redirected(h, g.tag, Bit(u, g.n), h[q.tag].At(!Bit(u, q.n))), p, Delete(t, u))
  {
    GrandParentInside(t, u);
    LeafParentInside(t, u);
    var q, g := LeafParent(t, u), GrandNode(t, u);
    RelinkDelete(h, Redirected(h, g.tag, Bit(u, g.n), h[q.tag].At(!Bit(u, q.n))), p, t, u, Bit(u, g.n));
  }

  // ---------------------------------------------------------------------------------------
  // The handler of a prefix search

  /** A caller's handler; its state is the list of keys it has been given so far. */
  type Handler = (seq<Key>, Key) -> int

  /** Offer keys one by one until the handler returns something other than 1. */
  ghost function Deliver(keys: seq<Key>, seen: seq<Key>, handle: Handler): (int, seq<Key>)
    decreases |keys|
  {
    if keys == [] then (1, seen)
    else
      var r := handle(seen, keys[0]);
      if r != 1 then (r, seen + [keys[0]]) else Deliver(keys[1..], seen + [keys[0]], handle)
  }

  lemma {:induction false} DeliverConcat(a: seq<Key>, b: seq<Key>, seen: seq<Key>, handle: Handler)
    ensures Deliver(a + b, seen, handle) ==
            var m := Deliver(a, seen, handle);
            if m.0 != 1 then m else Deliver(b, m.1, handle)
    decreases |a|
  {
    if a == [] {
      assert a + b == b;
    } else {
      assert (a + b)[1..] == a[1..] + b;
      if handle(seen, a[0]) == 1 {
        DeliverConcat(a[1..], b, seen + [a[0]], handle);
      }
    }
  }

  /** A handler that keeps returning 1 sees every key. */
  lemma {:induction false} DeliverAll(keys: seq<Key>, seen: seq<Key>, handle: Handler)
    requires forall s, k :: handle(s, k) == 1
    ensures Deliver(keys, seen, handle) == (1, seen + keys)
    decreases |keys|
  {
    if keys == [] {
      assert seen + keys == seen;
    } else {
      DeliverAll(keys[1..], seen + [keys[0]], handle);
      assert seen + [keys[0]] + keys[1..] == seen + keys;
    }
  }

  /** A handler gets the keys up to and including the first one for which it does not return 1. */
  lemma {:induction false} DeliverStops(keys: seq<Key>, seen: seq<Key>, handle: Handler, i: nat)
    requires i < |keys| && handle(seen + keys[..i], keys[i]) != 1
    requires forall k :: 0 <= k < i ==> handle(seen + keys[..k], keys[k]) == 1
    ensures Deliver(keys, seen, handle) == (handle(seen + keys[..i], keys[i]), seen + keys[..i + 1])
    decreases i
  {
    assert seen + keys[..0] == seen;
    if i == 0 {
      assert keys[..1] == [keys[0]];
    } else {
      var more := seen + [keys[0]];
      forall k | 0 <= k < i ensures more + keys[1..][..k] == seen + keys[..k + 1] {
        assert keys[..k + 1] == [keys[0]] + keys[1..][..k];
      }
      assert handle(seen + keys[..0], keys[0]) == 1;
      assert more + keys[1..][..i - 1] == seen + keys[..i];
      forall k | 0 <= k < i - 1 ensures handle(more + keys[1..][..k], keys[1..][k]) == 1 {
        assert handle(seen + keys[..k + 1], keys[k + 1]) == 1;
      }
      DeliverStops(keys[1..], more, handle, i - 1);
      assert keys[..i + 1] == [keys[0]] + keys[1..][..i];
      assert more + keys[1..][..i] == seen + keys[..i + 1] && keys[1..][i - 1] == keys[i];
    }
  }

  // ---------------------------------------------------------------------------------------
  // The tree

  class CritbitTree {
    var root: Option<Ref>
    ghost var shape: Option<Shape>
    ghost var Repr: set<InnerNode>

    ghost predicate Valid()
      reads this, Repr
    {
      match shape
      case None => root.None?
      case Some(t) => root.Some? && Objs(t) <= Repr && Linked(Snapshot(Repr), root.value, t)
    }

    /** The set of strings stored. */
    ghost function Contents(): set<Key>
      reads this
    {
      if shape.None? then {} else Keys(shape.value)
    }

    constructor ()
      ensures Valid() && fresh(Repr) && Contents() == {}
    {
      root := None;
      shape := None;
      Repr := {};
    }

    /** Follow the bits of u from a pointer to a leaf. */
    static method Descend(start: Ref, ghost repr: set<InnerNode>, ghost t0: Trie<InnerNode>, u: Key) returns (key: Key)
      requires Linked(Snapshot(repr), start, t0)
      ensures key == Walk(t0, u)
    {
      var p := start;
      ghost var h, t := Snapshot(repr), t0;
      while p.Internal?
        invariant Linked(h, p, t) && Walk(t, u) == Walk(t0, u)
        decreases t
      {
        var q := p.node;
        var direction := NodeDirection(q, u);
        p := ChildOf(q, direction);
        t := Child(t, direction);
      }
      key := p.key;
    }

    method Contains(u: Key) returns (r: nat)
      requires Valid() && NulFree(u)
      ensures r == if u in Contents() then 1 else 0
    {
      if root.None? { return 0; }
      var p := Descend(root.value, Repr, shape.value, u);
      WalkFindsMembers(shape.value, u);
      r := if u == p then 1 else 0;
    }

    /** The first byte at which u and the stored string p differ, and the isolated bit. */
    static method FindCritical(p: Key, u: Key) returns (same: bool, newbyte: nat, newotherbits: bv8)
      requires NulFree(p) && NulFree(u)
      ensures same <==> p == u
      ensures !same ==> newbyte <= |p| && newbyte <= |u| && IsOtherbits(newotherbits)
      ensures !same ==> DifferAt(u, p, Crit(newbyte, newotherbits))
    {
      newbyte, newotherbits := 0, 0xff;
      while newbyte < |u|
        invariant newbyte <= |u| && newbyte <= |p|
        invariant forall j: nat :: j < newbyte ==> At(u, j) == At(p, j)
      {
        if (if newbyte < |p| then p[newbyte] else 0) != u[newbyte] {
          IsolateIsCritical(u, p, newbyte);
          newotherbits := Isolate(u[newbyte] ^ if newbyte < |p| then p[newbyte] else 0);
          return false, newbyte, newotherbits;
        }
        newbyte := newbyte + 1;
      }
      if newbyte < |p| {
        IsolateIsCritical(u, p, newbyte);
        XorIdentity(p[newbyte]);
        newotherbits := Isolate(p[newbyte]);
        return false, newbyte, newotherbits;
      }
      SameBytesSameKey(u, p);
      return true, newbyte, newotherbits;
    }

    /**
      Adds u. The result is 2 for a new string, 1 for one already stored, and 0 when an
      allocation fails, in which case nothing has changed.
     */
    method Insert(u: Key, mallocOk: bool) returns (r: nat)
      requires Valid() && NulFree(u)
      modifies this, Repr
      ensures Valid() && fresh(Repr - old(Repr))
      ensures r == if u in old(Contents()) then 1 else if mallocOk then 2 else 0
      ensures Contents() == if r == 0 then old(Contents()) else old(Contents()) + {u}
      ensures r != 2 ==> shape == old(shape)
    {
      if root.None? {
        if !mallocOk { return 0; }
        root := Some(External(u));
        shape := Some(Leaf(u));
        return 2;
      }
      ghost var t0 := shape.value;
      ghost var h := Snapshot(Repr);
      var p := Descend(root.value, Repr, t0, u);
      WalkFindsMembers(t0, u);
      WalkIsKey(t0, u);
      KeysNulFree(t0, p);
      var same, newbyte, newotherbits := FindCritical(p, u);
      assert Snapshot(Repr) == h;
      if same { return 1; }
      if !mallocOk { return 0; }
      var newdirection := Direction(newotherbits, if newbyte < |p| then p[newbyte] else 0);
      Splice(u, newbyte, newotherbits, newdirection);
      return 2;
    }

    /** Find the pointer to split: walk while the node tests a bit above the new one. */
    static method FindSplit(start: Ref, ghost repr: set<InnerNode>, ghost t0: Trie<InnerNode>, u: Key, newbyte: nat, newotherbits: bv8)
      returns (cur: Ref, parent: InnerNode?, direction: bool)
      requires Linked(Snapshot(repr), start, t0) && IsOtherbits(newotherbits)
      ensures var d := Crit(newbyte, newotherbits);
              && Linked(Snapshot(repr), cur, SplitTarget(t0, u, d))
              && (parent == null <==> SplitsHere(t0, d))
              && (parent != null ==> parent == SplitParent(t0, u, d) && direction == Bit(u, SplitNode(t0, u, d).n))
    {
      cur, parent, direction := start, null, false;
      ghost var d, h, t := Crit(newbyte, newotherbits), Snapshot(repr), t0;
      while cur.Internal? && !LiesBelow(cur.node.byte, cur.node.otherbits, newbyte, newotherbits)
        invariant Linked(h, cur, t) && SplitTarget(t, u, d) == SplitTarget(t0, u, d)
        invariant if parent == null then t == t0 else AtSplitEdge(t0, t, parent, direction, u, d)
        decreases t
      {
        parent := cur.node;
        direction := NodeDirection(parent, u);
        cur := ChildOf(parent, direction);
        t := Child(t, direction);
      }
    }

    /** Build the new inner node and put it in place of the pointer to split. */
    method Splice(u: Key, newbyte: nat, newotherbits: bv8, newdirection: bool)
      requires Valid() && NulFree(u) && shape.Some? && IsOtherbits(newotherbits)
      requires DifferAt(u, Walk(shape.value, u), Crit(newbyte, newotherbits))
      requires newdirection == !Bit(u, Crit(newbyte, newotherbits))
      modifies this, Repr
      ensures Valid() && fresh(Repr - old(Repr))
      ensures Contents() == old(Contents()) + {u}
    {
      var cur, parent, direction := FindSplit(root.value, Repr, shape.value, u, newbyte, newotherbits);
      ghost var d := Crit(newbyte, newotherbits);
      var q := NewInner(u, d, newbyte, newotherbits, newdirection, cur);
      InsertedTree(shape.value, u, d, q);
      if parent == null {
        AttachRoot(u, d, q);
      } else {
        AttachBelow(u, d, q, parent, direction, CritbitTrie.Insert(shape.value, u, d, q));
      }
    }

    /** q is ready to take the place of the pointer to split. */
    ghost predicate Prepared(u: Key, d: nat, q: InnerNode)
      reads this, Repr
    {
      shape.Some? && Ready(Snapshot(Repr), shape.value, u, d, q)
    }

    method NewInner(u: Key, ghost d: nat, newbyte: nat, newotherbits: bv8, newdirection: bool, cur: Ref) returns (q: InnerNode)
      requires Valid() && shape.Some?
      requires Linked(Snapshot(Repr), cur, SplitTarget(shape.value, u, d))
      requires IsOtherbits(newotherbits) && d == Crit(newbyte, newotherbits) && newdirection == !Bit(u, d)
      modifies this`Repr
      ensures fresh(q) && Repr == old(Repr) + {q}
      ensures Valid() && Prepared(u, d, q)
    {
      ghost var h := Snapshot(Repr);
      q := new InnerNode(newbyte, newotherbits, newdirection, External(u), cur);
      AddedNode(h, root.value, shape.value, u, d, q, q.Now());
      TakeIn(q);
    }

    /** Redirects one child pointer of a node; the tree is then t. */
    method Redirect(w: InnerNode, dir: bool, c: Ref, ghost t: Shape)
      requires w in Repr
      modifies this`shape, Repr
      ensures shape == Some(t) && Snapshot(Repr) == Redirected(old(Snapshot(Repr)), w, dir, c)
    {
      w.SetChild(dir, c);
      shape := Some(t);
    }

    /** Takes a new node into the representation. */
    method TakeIn(q: InnerNode)
      requires q !in Repr
      modifies this`Repr
      ensures Repr == old(Repr) + {q} && Snapshot(Repr) == old(Snapshot(Repr))[q := q.Now()]
    {
      Repr := Repr + {q};
    }

    method AttachRoot(u: Key, ghost d: nat, q: InnerNode)
      requires Valid() && Prepared(u, d, q) && SplitsHere(shape.value, d) && Inserts(shape.value, u, d, q)
      modifies this
      ensures Valid() && Repr == old(Repr) && Contents() == old(Contents()) + {u}
    {
      ghost var t0, h := shape.value, Snapshot(Repr);
      root := Some(Internal(q));
      shape := Some(CritbitTrie.Insert(t0, u, d, q));
      assert Snapshot(Repr) == h;
    }

    method AttachBelow(u: Key, ghost d: nat, q: InnerNode, parent: InnerNode, direction: bool, ghost t: Shape)
      requires Valid() && Prepared(u, d, q) && !SplitsHere(shape.value, d)
      requires t == CritbitTrie.Insert(shape.value, u, d, q) && Objs(t) <= Repr && Keys(t) == Keys(shape.value) + {u}
      requires parent == SplitParent(shape.value, u, d) && direction == Bit(u, SplitNode(shape.value, u, d).n)
      modifies this, Repr
      ensures Valid() && Repr == old(Repr) && Contents() == old(Contents()) + {u}
    {
      AttachedNode(Snapshot(Repr), root.value, shape.value, u, d, q);
      Redirect(parent, direction, Internal(q), t);
    }

    /** Descend, remembering the last two inner nodes passed and the directions taken there. */
    static method DescendTwo(start: Ref, ghost repr: set<InnerNode>, ghost t0: Trie<InnerNode>, u: Key)
      returns (key: Key, q: InnerNode?, direction: bool, whereq: InnerNode?, qdirection: bool)
      requires Linked(Snapshot(repr), start, t0)
      ensures key == Walk(t0, u)
      ensures q == null <==> t0.Leaf?
      ensures t0.Node? ==> LeafParent(t0, u).tag == q && direction == Bit(u, LeafParent(t0, u).n)
      ensures t0.Node? ==> (whereq == null <==> Child(t0, Bit(u, t0.n)).Leaf?)
      ensures t0.Node? && whereq != null ==> GrandNode(t0, u).tag == whereq && qdirection == Bit(u, GrandNode(t0, u).n)
    {
      q, direction, whereq, qdirection := null, false, null, false;
      var p := start;
      ghost var h, t, s := Snapshot(repr), t0, t0;
      while p.Internal?
        invariant Linked(h, p, t) && Walk(t, u) == Walk(t0, u)
        invariant q == null ==> t == t0
        invariant q != null ==> AtLeafEdge(t0, t, s, q, direction, u)
        invariant q != null && whereq == null ==> s == t0
        invariant whereq != null ==> q != null && AtGrandEdge(t0, t, s, whereq, qdirection, u)
        decreases t
      {
        whereq, qdirection, s := q, direction, t;
        q := p.node;
        direction := NodeDirection(q, u);
        p := ChildOf(q, direction);
        t := Child(t, direction);
      }
      key := p.key;
    }

    /** Removes u. The result is 1 if it was stored and 0 if not. */
    method Delete(u: Key) returns (r: nat)
      requires Valid() && NulFree(u)
      modifies this, Repr
      ensures Valid() && Repr == old(Repr)
      ensures r == if u in old(Contents()) then 1 else 0
      ensures Contents() == old(Contents()) - {u}
    {
      if root.None? { return 0; }
      ghost var t0 := shape.value;
      ghost var h := Snapshot(Repr);
      var p, q, direction, whereq, qdirection := DescendTwo(root.value, Repr, t0, u);
      assert Snapshot(Repr) == h;
      WalkFindsMembers(t0, u);
      if u != p { return 0; }
      if q == null {
        root := None;
        shape := None;
        return 1;
      }
      if whereq == null {
        UnlinkRoot(u, q, direction);
      } else {
        UnlinkBelow(u, q, direction, whereq, qdirection);
      }
      return 1;
    }

    /** The leaf hangs off the root node: its sibling becomes the root. */
    method UnlinkRoot(u: Key, q: InnerNode, direction: bool)
      requires Valid() && shape.Some? && shape.value.Node? && u in Keys(shape.value)
      requires var t := shape.value; t.tag == q && direction == Bit(u, t.n) && Child(t, direction).Leaf?
      modifies this
      ensures Valid() && Repr == old(Repr) && Contents() == old(Contents()) - {u}
    {
      ghost var t0, h := shape.value, Snapshot(Repr);
      root := Some(ChildOf(q, !direction));
      DeletedTree(t0, u);
      shape := Some(CritbitTrie.Delete(t0, u));
    }

    /** Put the sibling of the leaf in place of their parent q. */
    method UnlinkBelow(u: Key, q: InnerNode, direction: bool, whereq: InnerNode, qdirection: bool)
      requires Valid() && shape.Some? && shape.value.Node? && u in Keys(shape.value)
      requires var t := shape.value; LeafParent(t, u).tag == q && direction == Bit(u, LeafParent(t, u).n)
      requires var t := shape.value; Child(t, Bit(u, t.n)).Node? && GrandNode(t, u).tag == whereq
      requires qdirection == Bit(u, GrandNode(shape.value, u).n)
      modifies this, Repr
      ensures Valid() && Repr == old(Repr) && Contents() == old(Contents()) - {u}
    {
      UnlinkedNode(Snapshot(Repr), root.value, shape.value, u);
      DeletedTree(shape.value, u);
      Redirect(whereq, qdirection, ChildOf(q, !direction), CritbitTrie.Delete(shape.value, u));
    }

    /** Hands the keys below top to the handler from left to right. */
    static method AllprefixedTraverse(top: Ref, ghost repr: set<InnerNode>, ghost t: Trie<InnerNode>, seen: seq<Key>, handle: Handler)
      returns (r: int, seen': seq<Key>)
      requires Linked(Snapshot(repr), top, t)
      ensures var m := Deliver(InOrder(t), seen, handle);
              seen' == m.1 && r == if t.Leaf? || m.0 == 1 || m.0 == 0 then m.0 else -1
      decreases t
    {
      if top.Internal? {
        var q := top.node;
        DeliverConcat(InOrder(t.left), InOrder(t.right), seen, handle);
        r, seen' := AllprefixedTraverse(q.child0, repr, t.left, seen, handle);
        if r == 0 { return 0, seen'; }
        if r != 1 { return -1, seen'; }
        r, seen' := AllprefixedTraverse(q.child1, repr, t.right, seen', handle);
        if r == 0 { return 0, seen'; }
        if r != 1 { return -1, seen'; }
        return 1, seen';
      }
      r, seen' := handle(seen, top.key), seen + [top.key];
    }

    /** The leaf the prefix leads to, and the last pointer taken while bytes of the prefix were examined. */
    static method FindTop(start: Ref, ghost repr: set<InnerNode>, ghost t0: Trie<InnerNode>, prefix: Key) returns (key: Key, top: Ref)
      requires Linked(Snapshot(repr), start, t0) && Increasing(t0)
      ensures key == Walk(t0, prefix) && Linked(Snapshot(repr), top, Top(t0, prefix))
    {
      ghost var h, t, topShape := Snapshot(repr), t0, t0;
      var p := start;
      top := start;
      while p.Internal?
        invariant Linked(h, p, t) && Linked(h, top, topShape) && Increasing(t)
        invariant Walk(t, prefix) == Walk(t0, prefix) && Top(topShape, prefix) == Top(t0, prefix)
        invariant topShape == t || (topShape.Node? && topShape.n / 8 >= |prefix| && (t.Node? ==> t.n / 8 >= |prefix|))
        decreases t
      {
        var q := p.node;
        var direction := NodeDirection(q, prefix);
        p := ChildOf(q, direction);
        if q.byte < |prefix| {
          top, topShape := p, Child(t, direction);
        }
        t := Child(t, direction);
      }
      key := p.key;
    }

    /** Does the string w, NUL-terminated, start with the prefix? */
    static method StartsWith(w: Key, prefix: Key) returns (b: bool)
      requires NulFree(w) && NulFree(prefix)
      ensures b <==> IsPrefix(prefix, w)
    {
      var i := 0;
      while i < |prefix|
        invariant i <= |prefix| && i <= |w| && prefix[..i] == w[..i]
      {
        if (if i < |w| then w[i] else 0) != prefix[i] { return false; }
        i := i + 1;
      }
      return true;
    }

    /** Visits the stored keys that have the prefix, in ascending order. */
    method Allprefixed(prefix: Key, handle: Handler) returns (r: int, seen: seq<Key>, ghost listing: seq<Key>)
      requires Valid() && NulFree(prefix)
      ensures IsPrefixListing(listing, Contents(), prefix)
      ensures seen == Deliver(listing, [], handle).1
      ensures r == Deliver(listing, [], handle).0 || (r == -1 && |listing| > 1 && Deliver(listing, [], handle).0 !in {0, 1})
    {
      listing := [];
      if root.None? { return 1, [], []; }
      ghost var t0, h := shape.value, Snapshot(Repr);
      WellFormedIncreases(t0);
      var key, top := FindTop(root.value, Repr, t0, prefix);
      WalkIsKey(t0, prefix);
      KeysNulFree(t0, key);
      var found := StartsWith(key, prefix);
      PrefixListing(t0, prefix);
      if !found { return 1, [], []; }
      listing := InOrder(Top(t0, prefix));
      NodesListTwo(Top(t0, prefix));
      assert Snapshot(Repr) == h;
      r, seen := AllprefixedTraverse(top, Repr, Top(t0, prefix), [], handle);
    }
  }

  lemma {:induction false} NodesListTwo(t: Trie<InnerNode>)
    ensures |InOrder(t)| >= if t.Node? then 2 else 1
  {
    if t.Node? {
      NodesListTwo(t.left);
      NodesListTwo(t.right);
    }
  }

  /** The listing of a prefix, read off the tree. */
  lemma PrefixListing(t: Trie<InnerNode>, prefix: Key)
    requires WellFormed(t) && NulFree(prefix)
    ensures IsPrefixListing(if IsPrefix(prefix, Walk(t, prefix)) then InOrder(Top(t, prefix)) else [], Keys(t), prefix)
  {
    TopIsPrefixed(t, prefix);
    TopProperties(t, prefix);
    InOrderKeys(Top(t, prefix));
    InOrderAscending(Top(t, prefix));
  }

  /** The loop of insertion stands on the edge from parent down to t. */
  ghost predicate AtSplitEdge(t0: Trie<InnerNode>, t: Trie<InnerNode>, parent: InnerNode, dir: bool, u: Key, d: nat) {
    && !SplitsHere(t0, d)
    && (if SplitsHere(t, d) then SplitParent(t0, u, d) == parent && dir == Bit(u, SplitNode(t0, u, d).n)
        else SplitNode(t0, u, d) == SplitNode(t, u, d))
  }

  /** The loop of deletion stands on the edge from node s, held by q, down to t. */
  ghost predicate AtLeafEdge(t0: Trie<InnerNode>, t: Trie<InnerNode>, s: Trie<InnerNode>, q: InnerNode, dir: bool, u: Key) {
    && t0.Node? && s.Node? && s.tag == q && dir == Bit(u, s.n) && t == Child(s, dir)
    && LeafParent(t0, u) == if t.Leaf? then s else LeafParent(t, u)
  }

  /** ... and w is the node above s. */
  ghost predicate AtGrandEdge(t0: Trie<InnerNode>, t: Trie<InnerNode>, s: Trie<InnerNode>, w: InnerNode, dir: bool, u: Key) {
    && t0.Node? && Child(t0, Bit(u, t0.n)).Node? && s.Node? && t == Child(s, Bit(u, s.n))
    && (if t.Leaf? then GrandNode(t0, u).tag == w && dir == Bit(u, GrandNode(t0, u).n)
        else GrandNode(t0, u) == GrandNode(s, u))
  }

  lemma {:induction false} SplitTargetApart(t: Trie<InnerNode>, u: Key, d: nat)
    requires Separate(t)
    ensures Objs(SplitTarget(t, u, d)) <= Objs(t)
    ensures !SplitsHere(t, d) ==> SplitParent(t, u, d) !in Objs(SplitTarget(t, u, d))
  {
    if !SplitsHere(t, d) { SplitTargetApart(Child(t, Bit(u, t.n)), u, d); }
  }

  lemma XorIdentity(c: bv8)
    ensures 0 ^ c == c
  {
  }
}
