/** Where the header of a request ends (src/opentracker.c, `header_complete`). */
module HeaderScan {

  type byte = b: int | 0 <= b < 256

  const CR: byte := 13
  const LF: byte := 10

  /** An empty line ends just before place e: two line feeds, or twice carriage return and line feed. */
  predicate EndsAt(r: seq<byte>, e: nat) {
    || (2 <= e <= |r| && r[e - 2] == 10 && r[e - 1] == 10)
    || (4 <= e <= |r| && r[e - 4] == 13 && r[e - 3] == 10 && r[e - 2] == 13 && r[e - 1] == 10)
  }

  /** Such an end starts at place p. */
  predicate StartsAt(r: seq<byte>, p: int) {
    || (0 <= p && p + 2 <= |r| && r[p] == LF && r[p + 1] == LF)
    || (0 <= p && p + 4 <= |r| && r[p] == CR && r[p + 1] == LF && r[p + 2] == CR && r[p + 3] == LF)
  }

  predicate IsBreak(b: byte) {
    b == CR || b == LF
  }

  /** The test of a byte as a signed character. */
  predicate AtMost13(b: byte) {
    b <= 13 || b >= 128
  }

  /** The two bits kept for a byte: none before the place where a scan began. */
  function Code(r: seq<byte>, from: nat, k: int): nat {
    if from <= k < |r| && IsBreak(r[k]) then (if r[k] == CR then 1 else 2) else 0
  }

  /** The codes of the last four bytes, the newest in the highest bits. */
  function State(r: seq<byte>, from: nat, k: nat): nat {
    64 * Code(r, from, k - 1) + 16 * Code(r, from, k - 2) + 4 * Code(r, from, k - 3) + Code(r, from, k - 4)
  }

  /** What the test of the state finds is what ended here, if it began within the scan. */
  lemma StateTells(r: seq<byte>, from: nat, k: nat)
    requires from < k <= |r| && forall i :: from <= i < k ==> IsBreak(r[i])
    requires forall p :: p < from ==> !StartsAt(r, p)
    ensures State(r, from, k) >= 0xa0 || State(r, from, k) == 0x99 <==> EndsAt(r, k)
  {
    assert k - 2 < from ==> !StartsAt(r, k - 2);
    assert k - 4 < from ==> !StartsAt(r, k - 4);
  }

  /** Scans line breaks from a place on, up to the end of a header or another byte. */
  method ScanBreaks(r: seq<byte>, from: nat) returns (i: nat, found: bool)
    requires from < |r| && forall p :: p < from ==> !StartsAt(r, p)
    ensures from <= i <= |r|
    ensures found ==> i < |r| && EndsAt(r, i + 1)
    ensures forall e: nat :: e <= i ==> !EndsAt(r, e)
    ensures !found && i < |r| ==> !IsBreak(r[i])
  {
    i := from;
    var state := 0;
    NoneEnded(r, from);
    while i < |r|
      invariant from <= i <= |r| && state == State(r, from, i)
      invariant forall k :: from <= k < i ==> IsBreak(r[k])
      invariant forall e: nat :: e <= i ==> !EndsAt(r, e)
    {
      var c := r[i];
      if !IsBreak(c) { return i, false; }
      state := state / 4 + if c == CR then 0x40 else 0x80;
      StateTells(r, from, i + 1);
      if state >= 0xa0 || state == 0x99 { return i, true; }
      i := i + 1;
    }
    found := false;
  }

  lemma NoneEnded(r: seq<byte>, from: nat)
    requires from < |r| && forall p :: p < from ==> !StartsAt(r, p)
    ensures forall e: nat :: e <= from ==> !EndsAt(r, e)
    ensures State(r, from, from) == 0
  {
    forall e: nat | e <= from ensures !EndsAt(r, e) {
      assert !StartsAt(r, e - 2) && !StartsAt(r, e - 4);
    }
  }

  /** Nothing starts up to a byte that breaks off a scan, or the end of the buffer. */
  lemma NoneStarts(r: seq<byte>, b: nat, p: int)
    requires b <= |r| && (b < |r| ==> !IsBreak(r[b])) && (forall e: nat :: e <= b ==> !EndsAt(r, e)) && p <= b
    ensures !StartsAt(r, p)
  {
    if p >= 0 { assert !EndsAt(r, if p + 2 <= b then p + 2 else b) && !EndsAt(r, if p + 4 <= b then p + 4 else b); }
  }

  /** The earliest end of a header in the buffer, and 0 if there is none. */
  method HeaderComplete(r: seq<byte>) returns (end: nat)
    ensures end > 0 ==> EndsAt(r, end) && forall e: nat :: e < end ==> !EndsAt(r, e)
    ensures end == 0 ==> forall e: nat :: !EndsAt(r, e)
  {
    var i := 1;
    while i < |r|
      invariant i >= 1 && forall p :: p < i - 1 ==> !StartsAt(r, p)
      decreases |r| - i
    {
      if AtMost13(r[i]) {
        var found;
        i, found := ScanBreaks(r, i - 1);
        if found { return i + 1; }
        forall p | p <= i ensures !StartsAt(r, p) { NoneStarts(r, i, p); }
      }
      i := i + 2;
    }
    end := 0;
    forall e: nat ensures !EndsAt(r, e) {
      assert 2 <= e <= |r| ==> !StartsAt(r, e - 2);
      assert 4 <= e <= |r| ==> !StartsAt(r, e - 4);
    }
  }
}
