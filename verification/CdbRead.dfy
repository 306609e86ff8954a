/**
  Looking keys up in a constant database (libowfat/cdb/cdb.c, the memory-mapped case) and
  walking over all its records (libowfat/cdb/cdb_traverse.c).
 */
module CdbRead {
  import opened CdbTable
  import opened CdbFormat

  /** The slot that the probe loop looks at after d steps. */
  function NextSlot(n: nat, h: nat, d: nat): nat
    requires d <= n && n > 0
  {
    if d == n then Home(n, h) else Slot(n, h, d)
  }

  /** How many of len bytes at a place can be compared: all, or the whole chunks of 32 that lie in the file. */
  function Comparable(at: nat, len: nat, size: nat): nat {
    if at + len <= size then len else if at > size then 0 else (size - at) / 32 * 32
  }

  /** The next chunk can be compared exactly if it lies in the file. */
  lemma NextChunk(at: nat, len: nat, size: nat, done: nat, n: nat)
    requires done < len && done % 32 == 0 && done <= Comparable(at, len, size)
    requires n == if 32 > len - done then len - done else 32
    ensures at + done + n <= size ==> done + n <= Comparable(at, len, size)
    ensures at + done + n > size ==> Comparable(at, len, size) == done
  {
  }

  /** Of the entries listed in M, put at distances D, exactly the first k lie within the first L probes. */
  ghost predicate FirstWithin(M: seq<nat>, D: seq<nat>, L: nat, k: nat) {
    && (forall m :: 0 <= m < |M| ==> M[m] < |D|)
    && k <= |M|
    && (forall m :: 0 <= m < k ==> D[M[m]] < L)
    && (forall m :: k <= m < |M| ==> D[M[m]] >= L)
  }

  ghost predicate Spreading(M: seq<nat>, D: seq<nat>) {
    && (forall m :: 0 <= m < |M| ==> M[m] < |D|)
    && forall m, m' :: 0 <= m < m' < |M| ==> D[M[m]] < D[M[m']]
  }

  lemma NextWithin(M: seq<nat>, D: seq<nat>, L: nat, k: nat, m: nat)
    requires FirstWithin(M, D, L, k) && Spreading(M, D) && m < |M| && D[M[m]] == L
    ensures m == k && FirstWithin(M, D, L + 1, k + 1)
  {
  }

  /** After L probes exactly the first k matches have been met. */
  ghost predicate Met(recs: seq<Record>, key: seq<byte>, D: seq<nat>, L: nat, k: nat) {
    |D| == |recs| && FirstWithin(Matches(recs, key), D, L, k)
  }

  ghost predicate Holds(recs: seq<Record>, key: seq<byte>, t: seq<Hp>, D: seq<nat>) {
    TableHolds(t, Entries(recs), |recs|, Hash(key) % 256, D)
  }

  lemma MatchEntries(recs: seq<Record>, key: seq<byte>)
    ensures forall i :: 0 <= i < |recs| && recs[i].key == key ==> Entries(recs)[i].h == Hash(key)
    ensures forall i :: 0 <= i < |recs| ==> Entries(recs)[i].p != 0
  {
    forall i | 0 <= i < |recs| ensures Entries(recs)[i].p != 0 && (recs[i].key == key ==> Entries(recs)[i].h == Hash(key)) {
      EntriesAt(recs, i);
    }
  }

  /** Meeting a record with the key at probe L is meeting the next match. */
  lemma MeetMatch(recs: seq<Record>, key: seq<byte>, t: seq<Hp>, D: seq<nat>, L: nat, k: nat, j: nat)
    requires Holds(recs, key, t, D) && Met(recs, key, D, L, k)
    requires j < |recs| && recs[j].key == key && D[j] == L
    ensures k < |Matches(recs, key)| && Matches(recs, key)[k] == j
    ensures Met(recs, key, D, L + 1, k + 1)
  {
    DistancesIncrease(recs, key, t, D);
    var M := Matches(recs, key);
    var m :| 0 <= m < |M| && M[m] == j;
    NextWithin(M, D, L, k, m);
  }

  /** Matches were put at increasing distances from their common home slot. */
  lemma DistancesIncrease(recs: seq<Record>, key: seq<byte>, t: seq<Hp>, D: seq<nat>)
    requires Holds(recs, key, t, D)
    ensures Spreading(Matches(recs, key), D)
  {
    MatchEntries(recs, key);
    var M := Matches(recs, key);
    forall m, m' | 0 <= m < m' < |M| ensures D[M[m]] < D[M[m']] {
      assert Entries(recs)[M[m]].h == Hash(key) && Entries(recs)[M[m']].h == Hash(key);
    }
  }

  /** Passing a slot that holds no record with the key meets nothing. */
  lemma MeetNothing(recs: seq<Record>, key: seq<byte>, t: seq<Hp>, D: seq<nat>, L: nat, k: nat)
    requires Holds(recs, key, t, D) && Met(recs, key, D, L, k) && L < |t|
    requires forall i :: 0 <= i < |recs| && Entries(recs)[i] == t[Slot(|t|, Hash(key), L)] ==> recs[i].key != key
    ensures Met(recs, key, D, L + 1, k)
  {
    MatchEntries(recs, key);
    var M := Matches(recs, key);
    forall m | k <= m < |M| ensures D[M[m]] != L {
      assert Placed(t, Entries(recs)[M[m]], D[M[m]]);
    }
  }

  /** A free slot at probe L means that all matches have been met. */
  lemma MeetEnd(recs: seq<Record>, key: seq<byte>, t: seq<Hp>, D: seq<nat>, L: nat, k: nat)
    requires Holds(recs, key, t, D) && Met(recs, key, D, L, k)
    requires L == |t| || (L < |t| && t[Slot(|t|, Hash(key), L)].p == 0)
    ensures k == |Matches(recs, key)|
  {
    MatchEntries(recs, key);
    var M, h := Matches(recs, key), Hash(key);
    var next := if k < |M| then D[M[k]] else 0;
    forall m | 0 <= m < |M| ensures D[M[m]] < L {
      assert Entries(recs)[M[m]].h == h;
      if L < |t| {
        ProbeEnd(t, Entries(recs), h % 256, D, h, L);
      } else {
        assert Placed(t, Entries(recs)[M[m]], D[M[m]]);
      }
    }
  }

  /** Entries name their records: no two have the same position. */
  lemma EntriesDistinct(recs: seq<Record>, i: nat, j: nat)
    requires i < |recs| && j < |recs| && i != j
    ensures Entries(recs)[i].p != Entries(recs)[j].p
  {
    EntriesAt(recs, i);
    EntriesAt(recs, j);
    EndMonotone(recs, if i < j then i else j, if i < j then j else i);
  }

  lemma MissByHash(recs: seq<Record>, key: seq<byte>, t: seq<Hp>, D: seq<nat>, L: nat, k: nat)
    requires Holds(recs, key, t, D) && Met(recs, key, D, L, k) && L < |t|
    requires t[Slot(|t|, Hash(key), L)].h != Hash(key)
    ensures Met(recs, key, D, L + 1, k)
  {
    MatchEntries(recs, key);
    MeetNothing(recs, key, t, D, L, k);
  }

  lemma MissByKey(recs: seq<Record>, key: seq<byte>, t: seq<Hp>, D: seq<nat>, L: nat, k: nat, j: nat)
    requires Holds(recs, key, t, D) && Met(recs, key, D, L, k) && L < |t|
    requires j < |recs| && Entries(recs)[j] == t[Slot(|t|, Hash(key), L)] && recs[j].key != key
    ensures Met(recs, key, D, L + 1, k)
  {
    forall i | 0 <= i < |recs| && Entries(recs)[i] == Entries(recs)[j] ensures recs[i].key != key {
      if i != j { EntriesDistinct(recs, i, j); }
    }
    MeetNothing(recs, key, t, D, L, k);
  }

  lemma NoSlotsNoMatch(recs: seq<Record>, key: seq<byte>, t: seq<Hp>, D: seq<nat>)
    requires Holds(recs, key, t, D)
    ensures Matches(recs, key) != [] ==> |t| > 0
  {
    MatchEntries(recs, key);
    var M := Matches(recs, key);
    if M != [] {
      assert Placed(t, Entries(recs)[M[0]], D[M[0]]);
    }
  }

  lemma FirstSlot(n: nat, h: nat, hpos: u32, home: nat)
    requires n > 0 && home == Home(n, h) && hpos + 8 * n < WORD
    ensures home * 8 < WORD && NextSlot(n, h, 0) == home && Add32(hpos, home * 8) == hpos + 8 * home
  {
  }

  /** Stepping to the next slot, with the wrap at the end of the table. */
  lemma StepSlot(n: nat, h: nat, d: nat, hpos: u32, kpos: u32)
    requires d < n && hpos + 8 * n < WORD && kpos == hpos + 8 * NextSlot(n, h, d)
    ensures var k := Add32(kpos, 8); var end := Add32(hpos, Times8(n));
            (if k == end then hpos else k) == hpos + 8 * NextSlot(n, h, d + 1)
  {
  }

  lemma DirectoryOffset(u: u32)
    ensures Times8(u) % 2048 == 8 * (u % 256)
  {
    var q := u * 8 / WORD;
    assert u * 8 == q * WORD + u * 8 % WORD;
    assert u == 256 * (u / 256) + u % 256;
    assert u * 8 % WORD == 2048 * (u / 256 - q * (WORD / 2048)) + 8 * (u % 256);
  }

  lemma UpToEnd(recs: seq<Record>, j: nat)
    requires j <= |recs|
    ensures End(recs[..j]) <= End(recs) && (j == |recs| ==> End(recs[..j]) == End(recs))
  {
    EndMonotone(recs, j, |recs|);
    assert recs[..|recs|] == recs;
  }

  lemma CursorBounds(recs: seq<Record>, i: nat)
    requires i < |recs|
    ensures End(recs[..i + 1]) == End(recs[..i]) + Size(recs[i]) && End(recs[..i + 1]) <= End(recs)
  {
    EndStep(recs, i);
    UpToEnd(recs, i + 1);
  }

  class Cdb {
    const file: seq<byte>
    var loop: u32
    var khash: u32
    var kpos: u32
    var hpos: u32
    var hslots: u32
    var dpos: u32
    var dlen: u32
    ghost const recs: seq<Record>
    ghost const T: seq<seq<Hp>>
    ghost const D: seq<nat>

    ghost predicate Valid() {
      IsCdb(file, recs, T, D)
    }

    constructor (file: seq<byte>, ghost recs: seq<Record>, ghost T: seq<seq<Hp>>, ghost D: seq<nat>)
      requires IsCdb(file, recs, T, D)
      ensures Valid() && this.file == file && this.recs == recs && loop == 0
    {
      this.file := file;
      this.recs, this.T, this.D := recs, T, D;
      loop := 0;
    }

    /** The state of a search: k records with the key have been reported so far. */
    ghost predicate Searching(key: seq<byte>, k: nat)
      reads this
    {
      Valid() && if loop == 0 then k == 0 else Probing(key, k)
    }

    ghost predicate Probing(key: seq<byte>, k: nat)
      reads this
    {
      Positioned(key) && Met(recs, key, D, loop, k)
    }

    /** The fields describe a probe of the key's bucket after loop steps. */
    ghost predicate Positioned(key: seq<byte>)
      reads this
    {
      && Valid()
      && var h := Hash(key); var t := T[h % 256];
      && khash == h && hslots == |t| && hslots > 0 && hpos == DirPos(file, h % 256)
      && loop <= hslots && kpos == hpos + 8 * NextSlot(|t|, h, loop)
    }

    /** cdb_read on a mapped file. */
    method Read(len: nat, pos: u32) returns (ok: bool, buf: seq<byte>)
      ensures ok <==> pos + len <= |file|
      ensures ok ==> buf == file[pos..pos + len]
    {
      if pos > |file| || |file| - pos < len { return false, []; }
      return true, file[pos..pos + len];
    }

    /**
      Compares the key with the file in chunks of 32 bytes. A difference in a chunk within the file
      is found before a chunk beyond it is missed.
     */
    method Match(key: seq<byte>, at: u32) returns (r: int)
      requires |file| < WORD
      ensures var m := Comparable(at, |key|, |file|);
              r == if m > 0 && file[at..at + m] != key[..m] then 0 else if m == |key| then 1 else -1
    {
      var done, pos: u32 := 0, at;
      ghost var m := Comparable(at, |key|, |file|);
      while done < |key|
        invariant done <= m <= |key| && pos == at + done && (done % 32 == 0 || done == |key|)
        invariant m > 0 ==> file[at..at + done] == key[..done]
      {
        var n := if 32 > |key| - done then |key| - done else 32;
        var ok, buf := Read(n, pos);
        NextChunk(at, |key|, |file|, done, n);
        if !ok { return -1; }
        if buf != key[done..done + n] {
          SubSlice(file, at, at + m, done, done + n);
          SubSlice(key, 0, m, done, done + n);
          return 0;
        }
        SliceGrows(file, at, at + done, n);
        SliceGrows(key, 0, done, n);
        pos := Add32(pos, n);
        done := done + n;
      }
      assert key[..done] == key;
      return 1;
    }

    method FindStart()
      modifies this`loop
      ensures loop == 0
    {
      loop := 0;
    }

    /** Reads the directory entry of the key's bucket; no slots means no records. */
    method BeginSearch(key: seq<byte>) returns (r: bool)
      requires Valid() && loop == 0
      modifies this
      ensures loop == 0
      ensures r ==> Probing(key, 0)
      ensures !r ==> Matches(recs, key) == []
    {
      var u := ComputeHash(key);
      BucketFacts(key);
      var tablePos, slots := ReadDirectory(u);
      hslots := slots;
      if hslots == 0 { return false; }
      hpos := tablePos;
      khash := u;
      var home := Home(hslots, u);
      FirstSlot(hslots, u, hpos, home);
      kpos := Add32(hpos, home * 8);
      return true;
    }

    /** The directory entry of the bucket of hash u. */
    method ReadDirectory(u: u32) returns (tablePos: u32, slots: u32)
      requires Valid()
      ensures tablePos == DirPos(file, u % 256) && slots == DirLen(file, u % 256)
    {
      DirectoryOffset(u);
      ghost var b := u % 256;
      var ok, buf := Read(8, Times8(u) % 2048);
      SubSlice(file, 8 * b, 8 * b + 8, 0, 4);
      SubSlice(file, 8 * b, 8 * b + 8, 4, 8);
      tablePos, slots := Unpack(buf[0..4]), Unpack(buf[4..8]);
    }

    lemma BucketFacts(key: seq<byte>)
      requires Valid()
      ensures var b := Hash(key) % 256;
              DirLen(file, b) == |T[b]| && DirPos(file, b) + 8 * |T[b]| <= |file|
      ensures Matches(recs, key) != [] ==> |T[Hash(key) % 256]| > 0
      ensures Met(recs, key, D, 0, 0)
    {
      assert BucketAt(file, recs, Hash(key) % 256, T[Hash(key) % 256], D);
      NoSlotsNoMatch(recs, key, T[Hash(key) % 256], D);
    }

    /** The slot the search stands on. */
    ghost function Current(key: seq<byte>): Hp
      requires Positioned(key) && loop < hslots
      reads this
    {
      T[Hash(key) % 256][Slot(hslots, Hash(key), loop)]
    }

    lemma CurrentInFile(key: seq<byte>)
      requires Positioned(key) && loop < hslots
      ensures SlotAt(file, kpos, Current(key))
    {
      var h := Hash(key);
      var t := T[h % 256];
      assert BucketAt(file, recs, h % 256, t, D);
      assert SlotAt(file, DirPos(file, h % 256) + 8 * Slot(|t|, h, loop), t[Slot(|t|, h, loop)]);
    }

    method ReadSlot(key: seq<byte>) returns (u: u32, pos: u32)
      requires Positioned(key) && loop < hslots
      ensures Hp(u, pos) == Current(key)
    {
      CurrentInFile(key);
      var ok, buf := Read(8, kpos);
      SubSlice(file, kpos, kpos + 8, 0, 4);
      SubSlice(file, kpos, kpos + 8, 4, 8);
      u, pos := Unpack(buf[0..4]), Unpack(buf[4..8]);
    }

    /** The record that a taken slot with the right hash points to. */
    lemma CurrentRecord(key: seq<byte>, k: nat, e: Hp) returns (j: nat)
      requires Probing(key, k) && loop < hslots && e == Current(key)
      requires e.p != 0 && e.h == Hash(key)
      ensures j < |recs| && Entries(recs)[j] == e && e.p == End(recs[..j]) && D[j] == loop
      ensures recs[j].key == key ==> k < |Matches(recs, key)| && Matches(recs, key)[k] == j && Met(recs, key, D, loop + 1, k + 1)
      ensures recs[j].key != key ==> Met(recs, key, D, loop + 1, k)
    {
      var h := Hash(key);
      var t := T[h % 256];
      assert BucketAt(file, recs, h % 256, t, D);
      j := ProbeHit(t, Entries(recs), h % 256, D, h, loop);
      EntriesAt(recs, j);
      if recs[j].key == key {
        MeetMatch(recs, key, t, D, loop, k, j);
      } else {
        MissByKey(recs, key, t, D, loop, k, j);
      }
    }

    lemma SearchOver(key: seq<byte>, k: nat)
      requires Probing(key, k)
      requires loop == hslots || Current(key).p == 0
      ensures k == |Matches(recs, key)|
    {
      assert BucketAt(file, recs, Hash(key) % 256, T[Hash(key) % 256], D);
      MeetEnd(recs, key, T[Hash(key) % 256], D, loop, k);
    }

    lemma OtherHash(key: seq<byte>, k: nat)
      requires Probing(key, k) && loop < hslots && Current(key).h != Hash(key)
      ensures Met(recs, key, D, loop + 1, k)
    {
      assert BucketAt(file, recs, Hash(key) % 256, T[Hash(key) % 256], D);
      MissByHash(recs, key, T[Hash(key) % 256], D, loop, k);
    }

    /** The two length fields of record j, at pos. */
    method ReadHeader(pos: u32, ghost j: nat) returns (klen: u32, len: u32)
      requires Valid() && j < |recs| && pos == End(recs[..j])
      ensures klen == |recs[j].key| && len == |recs[j].data|
    {
      assert RecordAt(file, End(recs[..j]), recs[j]);
      var ok, buf := Read(8, pos);
      SubSlice(file, pos, pos + 8, 0, 4);
      SubSlice(file, pos, pos + 8, 4, 8);
      klen, len := Unpack(buf[0..4]), Unpack(buf[4..8]);
    }

    /** Does record j, at pos, have the key? */
    method CheckRecord(key: seq<byte>, pos: u32, ghost j: nat) returns (r: int, len: u32)
      requires Valid() && j < |recs| && pos == End(recs[..j])
      ensures r == if recs[j].key == key then 1 else 0
      ensures r == 1 ==> len == |recs[j].data|
      ensures pos + Size(recs[j]) <= |file|
    {
      assert RecordAt(file, End(recs[..j]), recs[j]);
      var klen;
      klen, len := ReadHeader(pos, j);
      r := 0;
      if klen == |key| {
        r := Match(key, Add32(pos, 8));
      }
    }

    /** Look at one slot: 0 if it is free, 1 if it holds the next record with the key, else 2. */
    method Probe(key: seq<byte>, ghost k: nat) returns (r: nat)
      requires Probing(key, k) && loop < hslots
      modifies this`dpos, this`dlen
      ensures r <= 2 && (r == 0 ==> k == |Matches(recs, key)|)
      ensures r == 1 ==> k < |Matches(recs, key)| && Met(recs, key, D, loop + 1, k + 1) && Reports(key, Matches(recs, key)[k])
      ensures r == 2 ==> Met(recs, key, D, loop + 1, k)
    {
      var u, pos := ReadSlot(key);
      if pos == 0 {
        SearchOver(key, k);
        return 0;
      }
      if u != khash {
        OtherHash(key, k);
        return 2;
      }
      ghost var j := CurrentRecord(key, k, Hp(u, pos));
      var m, len := CheckRecord(key, pos, j);
      if m == 0 { return 2; }
      dlen := len;
      dpos := Add32(pos, 8 + |key|);
      return 1;
    }

    /** dpos and dlen delimit the data of record i, which has the key. */
    ghost predicate Reports(key: seq<byte>, i: nat)
      reads this
    {
      i < |recs| && recs[i].key == key && dpos == End(recs[..i]) + 8 + |key| && dlen == |recs[i].data|
    }

    /**
      Continues the search for the key. With k records reported before, the result is 1 and
      dpos, dlen delimit the data of the next record with the key, or 0 if there is none left.
     */
    method FindNext(key: seq<byte>, ghost k: nat) returns (r: int)
      requires Searching(key, k)
      modifies this
      ensures r == if k < |Matches(recs, key)| then 1 else 0
      ensures Searching(key, k + r)
      ensures r == 1 ==> Reports(key, Matches(recs, key)[k])
    {
      if loop == 0 {
        var more := BeginSearch(key);
        if !more { return 0; }
      }
      while loop < hslots
        invariant Probing(key, k)
        decreases hslots - loop
      {
        var outcome := Probe(key, k);
        if outcome == 0 { return 0; }
        Advance(key, if outcome == 1 then k + 1 else k);
        if outcome == 1 { return 1; }
      }
      SearchOver(key, k);
      return 0;
    }

    method Advance(key: seq<byte>, ghost k: nat)
      requires Positioned(key) && loop < hslots && Met(recs, key, D, loop + 1, k)
      modifies this`loop, this`kpos
      ensures Probing(key, k) && loop == old(loop) + 1
    {
      BucketFacts(key);
      StepSlot(hslots, khash, loop, hpos, kpos);
      loop := loop + 1;
      kpos := Add32(kpos, 8);
      if kpos == Add32(hpos, Times8(hslots)) { kpos := hpos; }
    }

    method Find(key: seq<byte>) returns (r: int)
      requires Valid()
      modifies this
      ensures r == if Matches(recs, key) != [] then 1 else 0
      ensures Searching(key, r)
      ensures r == 1 ==> Reports(key, Matches(recs, key)[0])
    {
      FindStart();
      r := FindNext(key, 0);
    }

    /** Fetches the data of the record just reported. */
    method Data(key: seq<byte>, ghost i: nat) returns (data: seq<byte>)
      requires Valid() && Reports(key, i)
      ensures data == recs[i].data
    {
      assert RecordAt(file, End(recs[..i]), recs[i]);
      var ok;
      ok, data := Read(dlen, dpos);
    }

    /** Repeated cdb_findnext: the data of the matches from the k-th on. */
    method FindRest(key: seq<byte>, ghost k: nat) returns (values: seq<seq<byte>>)
      requires Searching(key, k) && k <= |Matches(recs, key)|
      modifies this
      ensures |Values(recs, key)| == |Matches(recs, key)| && values == Values(recs, key)[k..]
      decreases |Matches(recs, key)| - k
    {
      ValuesAreMatches(recs, key);
      var r := FindNext(key, k);
      if r == 0 { return []; }
      var data := Data(key, Matches(recs, key)[k]);
      var rest := FindRest(key, k + 1);
      values := [data] + rest;
    }

    /** cdb_find and then cdb_findnext until it returns 0 yield the data stored under the key. */
    method FindAll(key: seq<byte>) returns (values: seq<seq<byte>>)
      requires Valid()
      modifies this
      ensures values == Values(recs, key)
    {
      ValuesAreMatches(recs, key);
      var r := Find(key);
      if r == 0 { return []; }
      var data := Data(key, Matches(recs, key)[0]);
      var rest := FindRest(key, 1);
      values := [data] + rest;
    }

    // -------------------------------------------------------------------------------------
    // Traversal

    /** The next record at the cursor: 0 past the last record, else 1 and the cursor behind it. */
    method DoIt(cursor: u32, ghost i: nat) returns (r: int, next: u32)
      requires Valid() && i <= |recs| && cursor == End(recs[..i])
      modifies this
      ensures r == if i < |recs| then 1 else 0
      ensures r == 1 ==> OnRecord(i) && next == End(recs[..i + 1])
    {
      if i < |recs| { CursorBounds(recs, i); } else { UpToEnd(recs, i); }
      var ok, buf := Read(4, 0);
      var eod := Unpack(buf);
      next := cursor;
      if eod < 8 || eod - 8 < cursor { return 0, next; }
      kpos := Add32(cursor, 8);
      if kpos < cursor { return -1, next; }
      FindStart();
      hslots := 1;
      var klen;
      klen, dlen := ReadHeader(cursor, i);
      dpos := Add32(kpos, klen);
      next := Add32(cursor, Add32(Add32(8, klen), dlen));
      return 1, next;
    }

    /** kpos, dpos and dlen delimit key and data of record i. */
    ghost predicate OnRecord(i: nat)
      reads this
    {
      i < |recs| && kpos == End(recs[..i]) + 8 && dpos == kpos + |recs[i].key| && dlen == |recs[i].data|
    }

    method CurrentKeyAndData(ghost i: nat) returns (rec: Record)
      requires Valid() && OnRecord(i)
      ensures rec == recs[i]
    {
      assert RecordAt(file, End(recs[..i]), recs[i]);
      var ok1, key := Read(dpos - kpos, kpos);
      var ok2, data := Read(dlen, dpos);
      rec := Record(key, data);
    }

    /** cdb_firstkey and then cdb_nextkey until it returns 0 visit every record, in insertion order. */
    method AllRecords() returns (all: seq<Record>)
      requires Valid()
      modifies this
      ensures all == recs
    {
      all := [];
      var r, cursor := DoIt(2048, 0);
      while r == 1
        invariant |all| <= |recs| && all == recs[..|all|]
        invariant r == if |all| < |recs| then 1 else 0
        invariant r == 1 ==> OnRecord(|all|) && cursor == End(recs[..|all| + 1])
        decreases |recs| - |all|
      {
        var rec := CurrentKeyAndData(|all|);
        assert recs[..|all| + 1] == recs[..|all|] + [recs[|all|]];
        all := all + [rec];
        r, cursor := DoIt(cursor, |all|);
      }
    }
  }
}
