/**
  Strings as bit strings, the way the crit-bit tree reads them.

  A key is a NUL-free byte string. Bit `n` of a key is bit `n % 8`, counted from the most
  significant one, of byte `n / 8`; past its end a key reads as its NUL terminator.
  The lemmas of this module carry all of the bit-twiddling of the tree, so that the tree
  itself is reasoned about through `Bit` alone.
 */
module CritbitBits {

  type Key = seq<bv8>

  predicate NulFree(k: Key) {
    forall i :: 0 <= i < |k| ==> k[i] != 0
  }

  /** The byte the C code reads at index i, the terminator included. */
  function At(k: Key, i: nat): bv8 {
    if i < |k| then k[i] else 0
  }

  function Mask(k: nat): bv8
    requires k < 8
  {
    match k
    case 0 => 0x80
    case 1 => 0x40
    case 2 => 0x20
    case 3 => 0x10
    case 4 => 0x08
    case 5 => 0x04
    case 6 => 0x02
    case _ => 0x01
  }

  predicate BitOf(c: bv8, k: nat)
    requires k < 8
  {
    c & Mask(k) != 0
  }

  predicate Bit(key: Key, n: nat) {
    BitOf(At(key, n / 8), n % 8)
  }

  /** True when x and y have the same first n bits. */
  ghost predicate Agree(x: Key, y: Key, n: nat) {
    forall i: nat :: i < n ==> Bit(x, i) == Bit(y, i)
  }

  /** n is the critical bit of x and y: the first one on which they differ. */
  ghost predicate DifferAt(x: Key, y: Key, n: nat) {
    Agree(x, y, n) && Bit(x, n) != Bit(y, n)
  }

  /** otherbits has every bit set except exactly one. */
  predicate IsOtherbits(o: bv8) {
    o == 0x7f || o == 0xbf || o == 0xdf || o == 0xef || o == 0xf7 || o == 0xfb || o == 0xfd || o == 0xfe
  }

  /** The position of the one bit missing from otherbits. */
  function PosOf(o: bv8): (k: nat)
    requires IsOtherbits(o)
    ensures k < 8 && o == Mask(k) ^ 0xff
  {
    if o == 0x7f then 0
    else if o == 0xbf then 1
    else if o == 0xdf then 2
    else if o == 0xef then 3
    else if o == 0xf7 then 4
    else if o == 0xfb then 5
    else if o == 0xfd then 6
    else 7
  }

  /** The expression (1 + (otherbits | c)) >> 8, read as a child index. */
  function Direction(otherbits: bv8, c: bv8): (d: bool)
    ensures forall k: nat :: k < 8 && otherbits == Mask(k) ^ 0xff ==> d == BitOf(c, k)
  {
    (1 + ((otherbits | c) as bv16)) >> 8 != 0
  }

  /** The three smearing steps and the final mask that turn a byte difference into otherbits. */
  function Isolate(diff: bv8): (o: bv8)
    requires diff != 0
    ensures IsOtherbits(o)
    ensures BitOf(diff, PosOf(o))
    ensures forall j: nat :: j < PosOf(o) ==> !BitOf(diff, j)
  {
    var x1 := diff | (diff >> 1);
    var x2 := x1 | (x1 >> 2);
    var x3 := x2 | (x2 >> 4);
    var o := (x3 & !(x3 >> 1)) ^ 0xff;
    IsolateCases(diff, o);
    o
  }

  lemma IsolateCases(diff: bv8, o: bv8)
    requires diff != 0
    requires var x1 := diff | (diff >> 1); var x2 := x1 | (x1 >> 2); var x3 := x2 | (x2 >> 4);
             o == (x3 & !(x3 >> 1)) ^ 0xff
    ensures IsOtherbits(o)
    ensures BitOf(diff, PosOf(o))
    ensures forall j: nat :: j < PosOf(o) ==> !BitOf(diff, j)
  {
    var k: nat :=
      if diff & 0x80 != 0 then 0 else if diff & 0x40 != 0 then 1 else if diff & 0x20 != 0 then 2
      else if diff & 0x10 != 0 then 3 else if diff & 0x08 != 0 then 4 else if diff & 0x04 != 0 then 5
      else if diff & 0x02 != 0 then 6 else 7;
    assert o == Mask(k) ^ 0xff;
    assert PosOf(o) == k;
  }

  /** The two-field node label (byte, otherbits) as one bit index. */
  function Crit(byte: nat, otherbits: bv8): (n: nat)
    requires IsOtherbits(otherbits)
    ensures n / 8 == byte && n % 8 == PosOf(otherbits)
  {
    8 * byte + PosOf(otherbits)
  }

  lemma MasksDiffer(j: nat, k: nat)
    requires j < k < 8
    ensures (Mask(j) ^ 0xff) < (Mask(k) ^ 0xff)
  {
  }

  /** Comparing otherbits is comparing bit positions, so the C test on (byte, otherbits) orders bits. */
  lemma CritOrder(b: nat, o: bv8, b': nat, o': bv8)
    requires IsOtherbits(o) && IsOtherbits(o')
    ensures Crit(b, o) > Crit(b', o') <==> b > b' || (b == b' && o > o')
  {
    var k, k' := PosOf(o), PosOf(o');
    if k < k' {
      MasksDiffer(k, k');
    } else if k' < k {
      MasksDiffer(k', k);
    }
  }

  /** The test in the second walk of insertion: does node (b, o) lie below the new node (b', o')? */
  predicate LiesBelow(b: nat, o: bv8, b': nat, o': bv8)
    requires IsOtherbits(o) && IsOtherbits(o')
    ensures LiesBelow(b, o, b', o') <==> Crit(b, o) > Crit(b', o')
  {
    CritOrder(b, o, b', o');
    b > b' || (b == b' && o > o')
  }

  lemma SameBitsSameByte(c: bv8, d: bv8)
    requires forall k: nat :: k < 8 ==> BitOf(c, k) == BitOf(d, k)
    ensures c == d
  {
    assert BitOf(c, 0) == BitOf(d, 0) && BitOf(c, 1) == BitOf(d, 1) && BitOf(c, 2) == BitOf(d, 2) && BitOf(c, 3) == BitOf(d, 3);
    assert BitOf(c, 4) == BitOf(d, 4) && BitOf(c, 5) == BitOf(d, 5) && BitOf(c, 6) == BitOf(d, 6) && BitOf(c, 7) == BitOf(d, 7);
  }

  lemma AgreeBytes(x: Key, y: Key, i: nat)
    ensures Agree(x, y, 8 * i) <==> forall j: nat :: j < i ==> At(x, j) == At(y, j)
  {
    if Agree(x, y, 8 * i) {
      forall j: nat | j < i ensures At(x, j) == At(y, j) {
        forall k: nat | k < 8 ensures BitOf(At(x, j), k) == BitOf(At(y, j), k) {
          assert Bit(x, 8 * j + k) == Bit(y, 8 * j + k);
        }
        SameBitsSameByte(At(x, j), At(y, j));
      }
    }
  }

  lemma XorBit(c: bv8, d: bv8, k: nat)
    requires k < 8
    ensures BitOf(c ^ d, k) <==> BitOf(c, k) != BitOf(d, k)
  {
    XorMask(c, d, Mask(k));
  }

  lemma XorMask(c: bv8, d: bv8, m: bv8)
    requires m in [0x80, 0x40, 0x20, 0x10, 0x08, 0x04, 0x02, 0x01]
    ensures (c ^ d) & m != 0 <==> (c & m != 0) != (d & m != 0)
  {
    assert (c ^ d) & m == (c & m) ^ (d & m);
    assert (c & m) == 0 || (c & m) == m;
    assert (d & m) == 0 || (d & m) == m;
  }

  /** The isolated bit of two bytes is the first one on which they differ. */
  lemma FirstDifferingBit(c: bv8, d: bv8)
    requires c != d
    ensures c ^ d != 0
    ensures var k := PosOf(Isolate(c ^ d));
            BitOf(c, k) != BitOf(d, k) && forall j: nat :: j < k ==> BitOf(c, j) == BitOf(d, j)
  {
    XorZero(c, d);
    var k := PosOf(Isolate(c ^ d));
    XorBit(c, d, k);
    forall j: nat | j < k ensures BitOf(c, j) == BitOf(d, j) {
      XorBit(c, d, j);
    }
  }

  /** Isolating the difference of the first unequal bytes gives the critical bit. */
  lemma IsolateIsCritical(x: Key, y: Key, i: nat)
    requires forall j: nat :: j < i ==> At(x, j) == At(y, j)
    requires At(x, i) != At(y, i)
    ensures At(x, i) ^ At(y, i) != 0
    ensures DifferAt(x, y, Crit(i, Isolate(At(x, i) ^ At(y, i))))
  {
    FirstDifferingBit(At(x, i), At(y, i));
    AgreeBytes(x, y, i);
    AgreeBits(x, y, i, PosOf(Isolate(At(x, i) ^ At(y, i))));
  }

  lemma AgreeBits(x: Key, y: Key, i: nat, k: nat)
    requires k < 8 && Agree(x, y, 8 * i)
    requires forall j: nat :: j < k ==> BitOf(At(x, i), j) == BitOf(At(y, i), j)
    ensures Agree(x, y, 8 * i + k)
  {
    forall m: nat | m < 8 * i + k ensures Bit(x, m) == Bit(y, m) {
      if m >= 8 * i {
        assert m / 8 == i;
      }
    }
  }

  lemma XorZero(c: bv8, d: bv8)
    ensures c ^ d == 0 <==> c == d
  {
  }

  /** NUL-free keys with the same bytes, terminators included, are the same key. */
  lemma SameBytesSameKey(x: Key, y: Key)
    requires NulFree(x) && NulFree(y)
    requires forall j: nat :: j <= |x| ==> At(x, j) == At(y, j)
    ensures x == y
  {
    assert |x| >= |y| by { assert At(x, |x|) == At(y, |x|); }
    assert At(x, |y|) == At(y, |y|);
    forall j | 0 <= j < |x| ensures x[j] == y[j] {
      assert At(x, j) == At(y, j);
    }
  }

  /** strcmp order: unsigned bytes, with the terminator below every byte of a key. */
  ghost predicate Less(x: Key, y: Key) {
    exists i: nat :: LessAt(x, y, i)
  }

  ghost predicate LessAt(x: Key, y: Key, i: nat) {
    At(x, i) < At(y, i) && forall j: nat :: j < i ==> At(x, j) == At(y, j)
  }

  lemma LessByte(c: bv8, d: bv8, k: nat)
    requires k < 8 && !BitOf(c, k) && BitOf(d, k)
    requires forall j: nat :: j < k ==> BitOf(c, j) == BitOf(d, j)
    ensures c < d
  {
    if k == 0 {
    } else if k == 1 {
      assert BitOf(c, 0) == BitOf(d, 0);
    } else {
      assert BitOf(c, 0) == BitOf(d, 0) && BitOf(c, 1) == BitOf(d, 1);
      assert k > 2 ==> BitOf(c, 2) == BitOf(d, 2);
      assert k > 3 ==> BitOf(c, 3) == BitOf(d, 3);
      assert k > 4 ==> BitOf(c, 4) == BitOf(d, 4);
      assert k > 5 ==> BitOf(c, 5) == BitOf(d, 5);
      assert k > 6 ==> BitOf(c, 6) == BitOf(d, 6);
    }
  }

  /** The order of two keys is decided by their critical bit. */
  lemma CriticalBitOrders(x: Key, y: Key, n: nat)
    requires DifferAt(x, y, n) && !Bit(x, n)
    ensures Less(x, y)
  {
    var i := n / 8;
    assert Agree(x, y, 8 * i);
    AgreeBytes(x, y, i);
    forall j: nat | j < n % 8 ensures BitOf(At(x, i), j) == BitOf(At(y, i), j) {
      assert Bit(x, 8 * i + j) == Bit(y, 8 * i + j);
    }
    LessByte(At(x, i), At(y, i), n % 8);
    assert LessAt(x, y, i);
  }

  /** Less is a strict order. */
  lemma LessAsymmetric(x: Key, y: Key)
    requires Less(x, y)
    ensures !Less(y, x) && x != y
  {
    var i: nat :| LessAt(x, y, i);
    forall j: nat ensures !LessAt(y, x, j) {
      assert j < i ==> At(x, j) == At(y, j);
      assert i < j && LessAt(y, x, j) ==> At(y, i) == At(x, i);
    }
  }
}
