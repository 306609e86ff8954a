/**
  The file format of a constant database: packed 32-bit numbers, the hash function, records
  and what a finished file has to look like for a given list of records.
 */
module CdbFormat {
  import opened CdbTable

  type byte = x: int | 0 <= x < 256

  const WORD := 0x1_0000_0000

  type u32 = x: int | 0 <= x < WORD

  /** Unsigned 32-bit addition wraps. */
  function Add32(a: u32, b: u32): u32 {
    if a + b < WORD then a + b else a + b - WORD
  }

  /** x << 3 in 32 bits. */
  function Times8(x: u32): u32 {
    if 8 * x < WORD then 8 * x else 8 * x % WORD
  }

  /** A little-endian number. */
  function LittleEndian(s: seq<byte>): (u: nat)
    requires |s| <= 4
    ensures |s| == 0 ==> u == 0
    ensures |s| == 1 ==> u < 0x100
    ensures |s| == 2 ==> u < 0x1_0000
    ensures |s| == 3 ==> u < 0x100_0000
    ensures |s| == 4 ==> u < WORD
  {
    if s == [] then 0 else s[0] + 0x100 * LittleEndian(s[1..])
  }

  function Pack(u: u32): (s: seq<byte>)
    ensures |s| == 4
  {
    [u % 256, u / 0x100 % 256, u / 0x10000 % 256, u / 0x1000000]
  }

  function Unpack(s: seq<byte>): u32
    requires |s| == 4
  {
    LittleEndian(s)
  }

  lemma UnpackPack(u: u32)
    ensures Unpack(Pack(u)) == u
  {
    var v: int, w: int, x: int := u / 0x100, u / 0x10000, u / 0x1000000;
    assert u == 0x100 * v + u % 256;
    assert w == v / 0x100 && v == 0x100 * w + v % 256;
    assert x == w / 0x100 && w == 0x100 * x + w % 256;
    var s := Pack(u);
    assert s[1..][1..][1..] == [x];
    assert LittleEndian([x]) == x;
    assert LittleEndian(s[1..][1..]) == w;
    assert LittleEndian(s[1..]) == v;
  }

  /** Four bytes, the lowest first. */
  lemma UnpackIs(a: byte, b: byte, c: byte, d: byte)
    ensures Unpack([a, b, c, d]) == a + 0x100 * b + 0x1_0000 * c + 0x100_0000 * d
  {
    var s := [a, b, c, d];
    assert s[1..] == [b, c, d] && [b, c, d][1..] == [c, d] && [c, d][1..] == [d];
    assert LittleEndian([d]) == d;
    assert LittleEndian([c, d]) == c + 0x100 * d;
    assert LittleEndian([b, c, d]) == b + 0x100 * (c + 0x100 * d);
  }

  function XorByte(x: byte, y: byte): byte {
    ((x as bv8) ^ (y as bv8)) as int
  }

  /** h * 33 in 32 bits, with the byte xor-ed into the low end. */
  function HashAdd(h: u32, c: byte): u32 {
    var h' := Add32(h, (h * 32) % WORD);
    var high := h' / 256;
    assert high < 0x100_0000;
    256 * high + XorByte(h' % 256, c)
  }

  function Hash(s: seq<byte>): u32 {
    if s == [] then 5381 else HashAdd(Hash(s[..|s| - 1]), s[|s| - 1])
  }

  /** The hash starts with 5381; each byte multiplies it by 33 in 32 bits and is xor-ed into its low end. */
  lemma HashIs(s: seq<byte>, c: byte)
    ensures Hash([]) == 5381
    ensures Hash(s + [c]) / 256 == 33 * Hash(s) % 0x1_0000_0000 / 256
    ensures Hash(s + [c]) % 256 == (((33 * Hash(s) % 256) as bv8) ^ (c as bv8)) as int
  {
    assert (s + [c])[..|s|] == s;
    var h := Hash(s);
    TimesThirtyThree(h);
  }

  lemma TimesThirtyThree(h: u32)
    ensures Add32(h, h * 32 % WORD) == 33 * h % WORD && 33 * h % WORD % 256 == 33 * h % 256
  {
    var q, r := h * 32 / WORD, h * 32 % WORD;
    LowBits(33 * h, if h + r < WORD then q else q + 1, Add32(h, r));
  }

  lemma LowBits(x: nat, q: nat, r: u32)
    requires x == 0x1_0000_0000 * q + r
    ensures x % 0x1_0000_0000 == r && x % 256 == r % 256
  {
    assert x == 256 * (0x100_0000 * q + r / 256) + r % 256;
  }

  method ComputeHash(buf: seq<byte>) returns (h: u32)
    ensures h == Hash(buf)
  {
    h := 5381;
    var i := 0;
    while i < |buf|
      invariant i <= |buf| && h == Hash(buf[..i])
    {
      assert buf[..i + 1][..i] == buf[..i];
      h := HashAdd(h, buf[i]);
      i := i + 1;
    }
    assert buf[..i] == buf;
  }

  // ---------------------------------------------------------------------------------------
  // Records

  datatype Record = Record(key: seq<byte>, data: seq<byte>)

  function Size(r: Record): nat {
    8 + |r.key| + |r.data|
  }

  /** The file position after the given records; the first 2048 bytes hold the table directory. */
  function End(recs: seq<Record>): (p: nat)
    ensures p >= 2048
  {
    if recs == [] then 2048 else End(recs[..|recs| - 1]) + Size(recs[|recs| - 1])
  }

  ghost predicate Fits(recs: seq<Record>) {
    End(recs) < WORD
  }

  lemma EndStep(recs: seq<Record>, i: nat)
    requires i < |recs|
    ensures End(recs[..i + 1]) == End(recs[..i]) + Size(recs[i])
  {
    var upto := recs[..i + 1];
    assert upto[..|upto| - 1] == recs[..i] && upto[|upto| - 1] == recs[i];
  }

  lemma {:induction false} EndMonotone(recs: seq<Record>, i: nat, j: nat)
    requires i <= j <= |recs|
    ensures End(recs[..i]) + 8 * (j - i) <= End(recs[..j])
    decreases j
  {
    if i < j {
      EndMonotone(recs, i, j - 1);
      EndStep(recs, j - 1);
    }
  }

  function RecordBytes(r: Record): (s: seq<byte>)
    requires Size(r) < WORD
    ensures |s| == Size(r)
  {
    Pack(|r.key|) + Pack(|r.data|) + r.key + r.data
  }

  /** A record's length fields, key and data can be read at position p. */
  ghost predicate RecordAt(file: seq<byte>, p: nat, r: Record) {
    && p + Size(r) <= |file|
    && Unpack(file[p..p + 4]) == |r.key| && Unpack(file[p + 4..p + 8]) == |r.data|
    && file[p + 8..p + 8 + |r.key|] == r.key
    && file[p + 8 + |r.key|..p + Size(r)] == r.data
  }

  /** The records follow one another from position 2048 on. */
  ghost predicate RecordsAt(file: seq<byte>, recs: seq<Record>) {
    forall i {:trigger RecordAt(file, End(recs[..i]), recs[i])} ::
      0 <= i < |recs| ==> RecordAt(file, End(recs[..i]), recs[i])
  }

  lemma SubSlice(s: seq<byte>, i: nat, j: nat, k: nat, l: nat)
    requires i <= j <= |s| && k <= l <= j - i
    ensures s[i..j][k..l] == s[i + k..i + l]
  {
    assert forall m :: 0 <= m < l - k ==> s[i..j][k..l][m] == s[i + k..i + l][m];
  }

  lemma SliceGrows(s: seq<byte>, i: nat, j: nat, n: nat)
    requires i <= j && j + n <= |s|
    ensures s[i..j + n] == s[i..j] + s[j..j + n]
  {
  }

  /** The hash table entries of the records, in insertion order. */
  ghost function Entries(recs: seq<Record>): (E: seq<Hp>)
    ensures |E| == |recs|
  {
    if recs == [] then []
    else
      var init := recs[..|recs| - 1];
      Entries(init) + [Hp(Hash(recs[|recs| - 1].key), End(init))]
  }

  lemma {:induction false} EntriesAt(recs: seq<Record>, i: nat)
    requires i < |recs|
    ensures Entries(recs)[i] == Hp(Hash(recs[i].key), End(recs[..i]))
    decreases |recs|
  {
    if i < |recs| - 1 {
      EntriesAt(recs[..|recs| - 1], i);
      assert recs[..|recs| - 1][..i] == recs[..i];
    }
  }

  // ---------------------------------------------------------------------------------------
  // Files

  function DirPos(file: seq<byte>, b: nat): u32
    requires b < 256 && |file| >= 2048
  {
    Unpack(file[8 * b..8 * b + 4])
  }

  function DirLen(file: seq<byte>, b: nat): u32
    requires b < 256 && |file| >= 2048
  {
    Unpack(file[8 * b + 4..8 * b + 8])
  }

  ghost predicate SlotAt(file: seq<byte>, p: nat, e: Hp) {
    p + 8 <= |file| && Unpack(file[p..p + 4]) == e.h && Unpack(file[p + 4..p + 8]) == e.p
  }

  ghost predicate TableAt(file: seq<byte>, pos: nat, T: seq<Hp>) {
    pos + 8 * |T| <= |file| && forall s :: 0 <= s < |T| ==> SlotAt(file, pos + 8 * s, T[s])
  }

  /** The table of bucket b is where the directory says. */
  ghost predicate BucketAt(file: seq<byte>, recs: seq<Record>, b: nat, T: seq<Hp>, D: seq<nat>)
    requires b < 256 && |file| >= 2048
  {
    && DirLen(file, b) == |T|
    && TableAt(file, DirPos(file, b), T)
    && TableHolds(T, Entries(recs), |recs|, b, D)
  }

  ghost predicate BucketsAt(file: seq<byte>, recs: seq<Record>, T: seq<seq<Hp>>, D: seq<nat>)
    requires |T| <= 256 && |file| >= 2048
  {
    forall b {:trigger BucketAt(file, recs, b, T[b], D)} :: 0 <= b < |T| ==> BucketAt(file, recs, b, T[b], D)
  }

  /** file is a database of the records; T and D say what its tables hold. */
  ghost predicate IsCdb(file: seq<byte>, recs: seq<Record>, T: seq<seq<Hp>>, D: seq<nat>) {
    && 2048 <= End(recs) <= |file| < WORD
    && RecordsAt(file, recs)
    && DirPos(file, 0) == End(recs)
    && |T| == 256
    && BucketsAt(file, recs, T, D)
  }

  // ---------------------------------------------------------------------------------------
  // The multimap a database stands for

  /** The indices of the records with the key, in insertion order. */
  ghost function Matches(recs: seq<Record>, key: seq<byte>): (M: seq<nat>)
    ensures forall m :: 0 <= m < |M| ==> M[m] < |recs| && recs[M[m]].key == key
    ensures forall m, m' :: 0 <= m < m' < |M| ==> M[m] < M[m']
    ensures forall i :: 0 <= i < |recs| && recs[i].key == key ==> i in M
  {
    if recs == [] then []
    else
      var last := |recs| - 1;
      Matches(recs[..last], key) + if recs[last].key == key then [last] else []
  }

  /** The data stored under the key, in insertion order. */
  ghost function Values(recs: seq<Record>, key: seq<byte>): seq<seq<byte>> {
    if recs == [] then []
    else
      var last := |recs| - 1;
      Values(recs[..last], key) + if recs[last].key == key then [recs[last].data] else []
  }

  lemma {:induction false} ValuesAreMatches(recs: seq<Record>, key: seq<byte>)
    ensures |Values(recs, key)| == |Matches(recs, key)|
    ensures forall m :: 0 <= m < |Matches(recs, key)| ==> Values(recs, key)[m] == recs[Matches(recs, key)[m]].data
  {
    if recs != [] {
      ValuesAreMatches(recs[..|recs| - 1], key);
    }
  }
}
