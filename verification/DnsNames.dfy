/** Domain names in wire form, and their decompression (section 4.1.4 of RFC 1035). */
module DnsNames {

  type byte = b: int | 0 <= b < 256

  datatype Option<T> = None | Some(value: T)

  const NAME_MAX := 255
  const LOOP_MAX := 1000

  // ---------------------------------------------------------------------------------------
  // Names

  /** Labels of 1 to 63 bytes, each after its length, and a zero at the end. */
  predicate IsName(d: seq<byte>) {
    d != [] && if d[0] == 0 then |d| == 1 else d[0] < 64 && 1 + d[0] < |d| && IsName(d[1 + d[0]..])
  }

  /** A name that is not longer than a name may be. */
  predicate WellFormed(d: seq<byte>) {
    IsName(d) && |d| <= NAME_MAX
  }

  // ---------------------------------------------------------------------------------------
  // What a name in a packet stands for

  /** Where a pointer leads. */
  function Target(high: byte, low: byte): nat
    requires high >= 192
  {
    var h: int := high;
    (h - 192) * 256 + low
  }

  /** The name at a place and the number of pointers followed for it, if it takes at most `fuel` labels and pointers. */
  ghost function Expand(buf: seq<byte>, pos: nat, fuel: nat): Option<(seq<byte>, nat)>
    decreases fuel
  {
    if fuel == 0 || pos >= |buf| then None
    else if buf[pos] >= 192 then
      if pos + 1 >= |buf| then None
      else
        match Expand(buf, Target(buf[pos], buf[pos + 1]), fuel - 1)
        case None => None
        case Some((name, hops)) => Some((name, hops + 1))
    else if buf[pos] >= 64 then None
    else if buf[pos] == 0 then Some(([0], 0))
    else if pos + 1 + buf[pos] > |buf| then None
    else
      match Expand(buf, pos + 1 + buf[pos], fuel - 1)
      case None => None
      case Some((name, hops)) => Some((buf[pos..pos + 1 + buf[pos]] + name, hops))
  }

  /** The packet has the name at the place. */
  ghost predicate Names(buf: seq<byte>, pos: nat, name: seq<byte>, hops: nat) {
    exists fuel: nat :: Expand(buf, pos, fuel) == Some((name, hops))
  }

  lemma {:induction false} MoreFuel(buf: seq<byte>, pos: nat, fuel: nat, more: nat)
    requires Expand(buf, pos, fuel).Some? && fuel <= more
    ensures Expand(buf, pos, more) == Expand(buf, pos, fuel)
    decreases fuel
  {
    if buf[pos] >= 192 {
      MoreFuel(buf, Target(buf[pos], buf[pos + 1]), fuel - 1, more - 1);
    } else if buf[pos] > 0 {
      MoreFuel(buf, pos + 1 + buf[pos], fuel - 1, more - 1);
    }
  }

  /** A packet has at most one name at a place. */
  lemma NamesUnique(buf: seq<byte>, pos: nat, a: seq<byte>, i: nat, b: seq<byte>, j: nat)
    requires Names(buf, pos, a, i) && Names(buf, pos, b, j)
    ensures a == b && i == j
  {
    var f: nat :| Expand(buf, pos, f) == Some((a, i));
    var g: nat :| Expand(buf, pos, g) == Some((b, j));
    MoreFuel(buf, pos, f, f + g);
    MoreFuel(buf, pos, g, f + g);
  }

  lemma {:induction false} ExpandIsName(buf: seq<byte>, pos: nat, fuel: nat)
    requires Expand(buf, pos, fuel).Some?
    ensures IsName(Expand(buf, pos, fuel).value.0)
    decreases fuel
  {
    if buf[pos] >= 192 {
      ExpandIsName(buf, Target(buf[pos], buf[pos + 1]), fuel - 1);
    } else if buf[pos] > 0 {
      ExpandIsName(buf, pos + 1 + buf[pos], fuel - 1);
      var front, rest := buf[pos..pos + 1 + buf[pos]], Expand(buf, pos + 1 + buf[pos], fuel - 1).value.0;
      assert (front + rest)[1 + buf[pos]..] == rest;
    }
  }

  /** The place after a name, 0 if it does not end. */
  function Skip(buf: seq<byte>, pos: nat): nat
    decreases |buf| - pos
  {
    if pos >= |buf| then 0
    else if buf[pos] >= 192 then pos + 2
    else if buf[pos] >= 64 then 0
    else if buf[pos] == 0 then pos + 1
    else Skip(buf, pos + 1 + buf[pos])
  }

  // ---------------------------------------------------------------------------------------
  // Byte by byte

  /**
    What is still to be read: `state` bytes of a label, then more labels, with `written` bytes
    of the name and `loop` bytes of the packet behind.
   */
  ghost function Scan(buf: seq<byte>, pos: nat, state: nat, written: nat, loop: nat): Option<seq<byte>>
    decreases LOOP_MAX - loop
  {
    if pos >= |buf| || loop + 1 >= LOOP_MAX then None
    else if state > 0 then
      if written + 1 > NAME_MAX then None else Before(buf[pos], Scan(buf, pos + 1, state - 1, written + 1, loop + 1))
    else if buf[pos] >= 192 then
      if pos + 1 >= |buf| then None
      else Scan(buf, Target(buf[pos], buf[pos + 1]), 0, written, loop + 1)
    else if buf[pos] >= 64 || written + 1 > NAME_MAX then None
    else if buf[pos] == 0 then Some([0])
    else Before(buf[pos], Scan(buf, pos + 1, buf[pos], written + 1, loop + 1))
  }

  ghost function Before(b: byte, s: Option<seq<byte>>): Option<seq<byte>> {
    if s.None? then None else Some([b] + s.value)
  }

  /** What is read fits. */
  lemma {:induction false} ScanFits(buf: seq<byte>, pos: nat, state: nat, written: nat, loop: nat)
    ensures var s := Scan(buf, pos, state, written, loop);
            s.Some? ==> s.value != [] && written + |s.value| <= NAME_MAX && loop + |s.value| < LOOP_MAX
    decreases LOOP_MAX - loop
  {
    if pos >= |buf| || loop + 1 >= LOOP_MAX {
    } else if state > 0 {
      ScanFits(buf, pos + 1, state - 1, written + 1, loop + 1);
    } else if buf[pos] >= 192 {
      if pos + 1 < |buf| { ScanFits(buf, Target(buf[pos], buf[pos + 1]), 0, written, loop + 1); }
    } else if 0 < buf[pos] < 64 {
      ScanFits(buf, pos + 1, buf[pos], written + 1, loop + 1);
    }
  }

  lemma Cat(a: seq<byte>, b: seq<byte>, c: seq<byte>)
    ensures (a + b) + c == a + (b + c)
  {
  }

  /** Reading the rest of a label. */
  lemma {:induction false} ScanLabel(buf: seq<byte>, pos: nat, state: nat, written: nat, loop: nat)
    ensures var rest := Scan(buf, pos + state, 0, written + state, loop + state);
            Scan(buf, pos, state, written, loop) ==
            if pos + state <= |buf| && rest.Some? then Some(buf[pos..pos + state] + rest.value) else None
    decreases state
  {
    var rest := Scan(buf, pos + state, 0, written + state, loop + state);
    if state == 0 {
      if pos <= |buf| && rest.Some? { assert buf[pos..pos] + rest.value == rest.value; }
    } else {
      ScanLabel(buf, pos + 1, state - 1, written + 1, loop + 1);
      ScanFits(buf, pos + state, 0, written + state, loop + state);
      if pos + state <= |buf| && rest.Some? {
        assert buf[pos..pos + state] == [buf[pos]] + buf[pos + 1..pos + state];
        Cat([buf[pos]], buf[pos + 1..pos + state], rest.value);
      }
    }
  }

  /** A whole label after its length. */
  lemma ScanStep(buf: seq<byte>, pos: nat, written: nat, loop: nat)
    requires pos < |buf| && 0 < buf[pos] < 64
    ensures var n := 1 + buf[pos];
            var rest := Scan(buf, pos + n, 0, written + n, loop + n);
            Scan(buf, pos, 0, written, loop) ==
            if pos + n <= |buf| && rest.Some? then Some(buf[pos..pos + n] + rest.value) else None
  {
    var n := 1 + buf[pos];
    var rest := Scan(buf, pos + n, 0, written + n, loop + n);
    ScanLabel(buf, pos + 1, buf[pos], written + 1, loop + 1);
    ScanFits(buf, pos + n, 0, written + n, loop + n);
    if pos + n <= |buf| && rest.Some? {
      assert buf[pos..pos + n] == [buf[pos]] + buf[pos + 1..pos + n];
      Cat([buf[pos]], buf[pos + 1..pos + n], rest.value);
    }
  }

  /** What the scan finds is the name in the packet. */
  lemma {:induction false} ScanSound(buf: seq<byte>, pos: nat, written: nat, loop: nat) returns (fuel: nat, hops: nat)
    requires Scan(buf, pos, 0, written, loop).Some?
    ensures var s := Scan(buf, pos, 0, written, loop).value;
            Expand(buf, pos, fuel) == Some((s, hops)) && written + |s| <= NAME_MAX && loop + |s| + hops < LOOP_MAX
    decreases LOOP_MAX - loop
  {
    if buf[pos] >= 192 {
      fuel, hops := ScanSound(buf, Target(buf[pos], buf[pos + 1]), written, loop + 1);
      fuel, hops := fuel + 1, hops + 1;
    } else if buf[pos] == 0 {
      fuel, hops := 1, 0;
    } else {
      var n := 1 + buf[pos];
      ScanStep(buf, pos, written, loop);
      fuel, hops := ScanSound(buf, pos + n, written + n, loop + n);
      fuel := fuel + 1;
    }
  }

  /** The scan finds every name in the packet that is not too long. */
  lemma {:induction false} ScanComplete(buf: seq<byte>, pos: nat, written: nat, loop: nat, fuel: nat)
    requires Expand(buf, pos, fuel).Some?
    requires var (name, hops) := Expand(buf, pos, fuel).value; written + |name| <= NAME_MAX && loop + |name| + hops < LOOP_MAX
    ensures Scan(buf, pos, 0, written, loop) == Some(Expand(buf, pos, fuel).value.0)
    decreases fuel
  {
    if buf[pos] >= 192 {
      ScanComplete(buf, Target(buf[pos], buf[pos + 1]), written, loop + 1, fuel - 1);
    } else if buf[pos] > 0 {
      var n := 1 + buf[pos];
      ScanStep(buf, pos, written, loop);
      ScanComplete(buf, pos + n, written + n, loop + n, fuel - 1);
    }
  }

  /** The name found at a place, exactly when there is one that is not too long. */
  lemma ScanIsName(buf: seq<byte>, pos: nat, name: seq<byte>)
    ensures Scan(buf, pos, 0, 0, 0) == Some(name) <==>
            exists hops: nat :: Names(buf, pos, name, hops) && |name| <= 255 && |name| + hops < 1000
  {
    if Scan(buf, pos, 0, 0, 0) == Some(name) {
      var fuel, hops := ScanSound(buf, pos, 0, 0);
      assert Names(buf, pos, name, hops);
    }
    if hops: nat :| Names(buf, pos, name, hops) && |name| <= NAME_MAX && |name| + hops < LOOP_MAX {
      var fuel: nat :| Expand(buf, pos, fuel) == Some((name, hops));
      ScanComplete(buf, pos, 0, 0, fuel);
    }
  }

  lemma ScanWellFormed(buf: seq<byte>, pos: nat)
    requires Scan(buf, pos, 0, 0, 0).Some?
    ensures WellFormed(Scan(buf, pos, 0, 0, 0).value)
  {
    var fuel, hops := ScanSound(buf, pos, 0, 0);
    ExpandIsName(buf, pos, fuel);
  }
}
