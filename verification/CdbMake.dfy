/** Building a constant database (libowfat/cdb/cdb_make.c). */
module CdbMake {
  import opened CdbTable
  import opened CdbBuckets
  import opened CdbFormat

  const CHUNK := 1000

  /** The entries of the chunk list, oldest first; the list starts with the newest chunk. */
  ghost function Flatten(lists: seq<seq<Hp>>): seq<Hp> {
    if lists == [] then [] else Flatten(lists[1..]) + lists[0]
  }

  /** The number of entries in chunks older than chunk x. */
  ghost function Older(lists: seq<seq<Hp>>, x: nat): nat
    requires x < |lists|
  {
    |Flatten(lists[x + 1..])|
  }

  lemma {:induction false} FlattenAt(lists: seq<seq<Hp>>, x: nat)
    requires x < |lists|
    ensures Older(lists, x) + |lists[x]| <= |Flatten(lists)|
    ensures Flatten(lists)[Older(lists, x)..Older(lists, x) + |lists[x]|] == lists[x]
    ensures x > 0 ==> Older(lists, x) + |lists[x]| == Older(lists, x - 1)
    ensures x == 0 ==> Older(lists, x) + |lists[x]| == |Flatten(lists)|
  {
    if x > 0 {
      FlattenAt(lists[1..], x - 1);
      assert lists[1..][x..] == lists[x + 1..];
      assert lists[x..][1..] == lists[x + 1..];
    }
  }

  // ---------------------------------------------------------------------------------------
  // Bytes written stay readable

  lemma RecordAtPrefix(file: seq<byte>, more: seq<byte>, p: nat, r: Record)
    requires RecordAt(file, p, r)
    ensures RecordAt(file + more, p, r)
  {
    var f := file + more;
    assert f[p..p + 4] == file[p..p + 4] && f[p + 4..p + 8] == file[p + 4..p + 8];
    assert f[p + 8..p + 8 + |r.key|] == file[p + 8..p + 8 + |r.key|];
    assert f[p + 8 + |r.key|..p + Size(r)] == file[p + 8 + |r.key|..p + Size(r)];
  }

  lemma RecordAtEnd(file: seq<byte>, r: Record)
    requires Size(r) < WORD
    ensures RecordAt(file + RecordBytes(r), |file|, r)
  {
    var f, p, k, d := file + RecordBytes(r), |file|, Pack(|r.key|), Pack(|r.data|);
    assert f[p..p + 4] == k && f[p + 4..p + 8] == d;
    UnpackPack(|r.key|);
    UnpackPack(|r.data|);
    assert f[p + 8..p + 8 + |r.key|] == r.key;
    assert f[p + 8 + |r.key|..p + Size(r)] == r.data;
  }

  lemma RecordsAtAdd(file: seq<byte>, recs: seq<Record>, r: Record)
    requires RecordsAt(file, recs) && |file| == End(recs) && Size(r) < WORD
    ensures RecordsAt(file + RecordBytes(r), recs + [r]) && End(recs + [r]) == End(recs) + Size(r)
  {
    var recs', f := recs + [r], file + RecordBytes(r);
    assert recs'[..|recs|] == recs;
    forall i | 0 <= i < |recs'| ensures RecordAt(f, End(recs'[..i]), recs'[i]) {
      if i < |recs| {
        assert recs'[..i] == recs[..i];
        assert RecordAt(file, End(recs[..i]), recs[i]);
        RecordAtPrefix(file, RecordBytes(r), End(recs[..i]), recs[i]);
      } else {
        RecordAtEnd(file, r);
      }
    }
  }

  class Maker {
    var lists: seq<seq<Hp>>
    var pos: u32
    var numentries: nat
    var file: seq<byte>
    ghost var recs: seq<Record>

    ghost predicate Valid()
      reads this
    {
      && Fits(recs) && pos == End(recs) == |file| && numentries == |recs|
      && RecordsAt(file, recs)
      && Flatten(lists) == Entries(recs)
    }

    /** The first 2048 bytes are left free for the directory. */
    constructor ()
      ensures Valid() && recs == []
    {
      lists := [];
      pos := 2048;
      numentries := 0;
      file := seq(2048, _ => 0);
      recs := [];
    }

    method PosPlus(len: u32) returns (r: int)
      modifies this`pos
      ensures r == if old(pos) + len < WORD then 0 else -1
      ensures pos == if r == 0 then old(pos) + len else old(pos)
    {
      var newpos := Add32(pos, len);
      if newpos < len { return -1; }
      pos := newpos;
      return 0;
    }

    method AddEnd(keylen: u32, datalen: u32, h: u32, mallocOk: bool) returns (r: int)
      modifies this`lists, this`pos, this`numentries
      ensures r == 0 ==> old(pos) + 8 + keylen + datalen < WORD
      ensures r == -1 ==> old(pos) + 8 + keylen + datalen >= WORD || !mallocOk
      ensures r == 0 || r == -1
      ensures r == 0 ==> pos == old(pos) + 8 + keylen + datalen
      ensures r == 0 ==> numentries == old(numentries) + 1
      ensures r == 0 ==> Flatten(lists) == old(Flatten(lists)) + [Hp(h, old(pos))]
    {
      ghost var before := lists;
      if lists == [] || |lists[0]| >= CHUNK {
        if !mallocOk { return -1; }
        lists := [[]] + lists;
        assert lists[1..] == before;
      }
      ghost var current := lists;
      lists := [lists[0] + [Hp(h, pos)]] + lists[1..];
      assert lists[1..] == current[1..];
      numentries := numentries + 1;
      r := PosPlus(8);
      if r == -1 { return; }
      r := PosPlus(keylen);
      if r == -1 { return; }
      r := PosPlus(datalen);
    }

    /** Appends a record. It fits if it ends below 2^32. */
    method Add(key: seq<byte>, data: seq<byte>, mallocOk: bool) returns (r: int)
      requires Valid()
      modifies this
      ensures r == 0 || r == -1
      ensures mallocOk ==> (r == 0 <==> End(old(recs)) + Size(Record(key, data)) < WORD)
      ensures r == 0 ==> Valid() && recs == old(recs) + [Record(key, data)]
    {
      if |key| > 0xffff_ffff || |data| > 0xffff_ffff { return -1; }
      ghost var rec := Record(key, data);
      file := file + (Pack(|key|) + Pack(|data|) + key + data);
      var h := ComputeHash(key);
      r := AddEnd(|key|, |data|, h, mallocOk);
      if r == 0 {
        RecordsAtAdd(old(file), recs, rec);
        recs := recs + [rec];
        assert recs[..|recs| - 1] == old(recs);
      }
    }

    // -------------------------------------------------------------------------------------
    // Finishing

    /** How many entries each bucket has, found by walking the chunk list. */
    method CountBuckets() returns (count: array<nat>)
      ensures fresh(count) && count.Length == 256
      ensures forall b :: 0 <= b < 256 ==> count[b] == Count(Flatten(lists), b)
    {
      ghost var E := Flatten(lists);
      count := new nat[256](_ => 0);
      ghost var g := |E|;
      assert E[..g] == E;
      var x := 0;
      while x < |lists|
        invariant x <= |lists| && g == if x == 0 then |E| else Older(lists, x - 1)
        invariant g <= |E|
        invariant forall b :: 0 <= b < 256 ==> count[b] + Count(E[..g], b) == Count(E, b)
      {
        FlattenAt(lists, x);
        ghost var o := Older(lists, x);
        var i := |lists[x]|;
        while i > 0
          invariant 0 <= i <= |lists[x]| && g == o + i
          invariant forall b :: 0 <= b < 256 ==> count[b] + Count(E[..g], b) == Count(E, b)
        {
          i := i - 1;
          g := g - 1;
          assert E[g] == E[o..o + |lists[x]|][i];
          forall b | 0 <= b < 256 { CountStep(E, g, b); }
          var c := lists[x][i].h % 256;
          count[c] := count[c] + 1;
        }
        x := x + 1;
      }
      assert g == 0 by {
        if |lists| > 0 { assert lists[|lists|..] == []; }
      }
    }

    /** The end of each bucket in the sorted array: running sums of the counts. */
    method BucketEnds(count: array<nat>, ghost E: seq<Hp>) returns (start: array<nat>)
      requires count.Length == 256
      requires forall b :: 0 <= b < 256 ==> count[b] == Count(E, b)
      ensures fresh(start) && Starts(start[..], E, |E|)
    {
      assert E[..|E|] == E;
      start := new nat[256](_ => 0);
      var u, i := 0, 0;
      while i < 256
        invariant 0 <= i <= 256 && u == Base(E, i)
        invariant forall b :: 0 <= b < i ==> start[b] == Base(E, b) + Count(E, b)
      {
        u := u + count[i];
        start[i] := u;
        i := i + 1;
      }
    }

    /** Sorts the entries by bucket into the front of mem, keeping their order; start ends up at the bucket starts. */
    method SplitEntries(start: array<nat>, mem: array<Hp>)
      requires Starts(start[..], Flatten(lists), |Flatten(lists)|) && |Flatten(lists)| <= mem.Length
      modifies start, mem
      ensures Starts(start[..], Flatten(lists), 0) && Sorted(mem[..], Flatten(lists), 0)
    {
      ghost var E := Flatten(lists);
      ghost var g := |E|;
      var x := 0;
      while x < |lists|
        invariant x <= |lists| && g == (if x == 0 then |E| else Older(lists, x - 1)) && g <= |E|
        invariant Starts(start[..], E, g) && Sorted(mem[..], E, g)
      {
        FlattenAt(lists, x);
        g := Older(lists, x);
        SplitChunk(lists[x], start, mem, E, g);
        x := x + 1;
      }
      assert g == 0 by {
        if |lists| > 0 { assert lists[|lists|..] == []; }
      }
    }

    /** The memory needed for the sorted entries and the largest table, in entries: enough, and no more than that. */
    method MemSize(count: array<nat>) returns (memsize: nat)
      requires count.Length == 256
      ensures memsize > numentries && forall b :: 0 <= b < 256 ==> memsize >= numentries + 2 * count[b]
      ensures memsize == numentries + 1 || exists b :: 0 <= b < 256 && memsize == numentries + 2 * count[b]
    {
      memsize := 1;
      var i := 0;
      while i < 256
        invariant 0 <= i <= 256 && memsize >= 1 && forall b :: 0 <= b < i ==> memsize >= 2 * count[b]
        invariant memsize == 1 || exists b :: 0 <= b < i && memsize == 2 * count[b]
      {
        var u := count[i] * 2;
        if u > memsize { memsize := u; }
        i := i + 1;
      }
      memsize := memsize + numentries;
    }

    /** Appends the table of len slots behind the first n entries of mem to the file. */
    method WriteTable(mem: array<Hp>, n: nat, len: nat) returns (r: int, ghost more: seq<byte>)
      requires pos == |file| && n + len <= mem.Length && Words(mem[n..n + len])
      modifies this`file, this`pos
      ensures r == if old(pos) + 8 * len < WORD then 0 else -1
      ensures r == 0 ==> pos == |file| == old(pos) + 8 * len && file == old(file) + more
      ensures r == 0 ==> TableAt(file, old(pos), mem[n..n + len])
    {
      more := [];
      var u := 0;
      ghost var hash := mem[n..n + len];
      while u < len
        invariant 0 <= u <= len && pos == |file| == old(pos) + 8 * u && file == old(file) + more
        invariant TableAt(file, old(pos), hash[..u])
      {
        var e := mem[n + u];
        assert e == hash[u];
        var buf := Pack(e.h) + Pack(e.p);
        TableAtAdd(file, old(pos), hash[..u], e);
        assert hash[..u] + [e] == hash[..u + 1];
        more := more + buf;
        assert old(file) + more == file + buf;
        file := file + buf;
        r := PosPlus(8);
        if r == -1 { return; }
        u := u + 1;
      }
      assert hash[..u] == hash;
      r := 0;
    }

    /** The tables written so far are those of w. */
    ghost predicate Agrees(w: Ledger, dir: seq<byte>)
      reads this
    {
      w.recs == recs && w.file == file && w.dir == dir && pos == |file| && numentries == |recs|
    }

    /** Builds and writes the table of the next bucket. */
    method FinishBucket(mem: array<Hp>, start: nat, count: nat, dir: seq<byte>, ghost split: seq<Hp>, ghost w: Ledger)
      returns (r: int, dir': seq<byte>, ghost w': Ledger)
      requires Fits(recs) && Agrees(w, dir) && |w.T| < 256
      requires Sorted(split, Entries(recs), 0) && start == Base(Entries(recs), |w.T|) && count == Count(Entries(recs), |w.T|)
      requires numentries + 2 * count <= mem.Length && mem[..numentries] == split
      modifies this`file, this`pos, mem
      ensures mem[..numentries] == split
      ensures r == if old(pos) + 16 * count < WORD then 0 else -1
      ensures r == 0 ==> pos == old(pos) + 16 * count && Agrees(w', dir') && |w'.T| == |w.T| + 1
    {
      CountBound(w);
      ghost var t := BuildNext(mem, numentries, start, count, split, w);
      r, dir', w' := AppendTable(mem, count + count, dir, t, w);
    }

    /** Writes the table just built and the directory entry for it. */
    method AppendTable(mem: array<Hp>, len: nat, dir: seq<byte>, ghost t: Filled, ghost w: Ledger)
      returns (r: int, dir': seq<byte>, ghost w': Ledger)
      requires Agrees(w, dir) && NextTable(w, t)
      requires numentries + len <= mem.Length && len < WORD && t.T == mem[numentries..numentries + len]
      modifies this`file, this`pos
      ensures r == if old(pos) + 8 * len < WORD then 0 else -1
      ensures r == 0 ==> pos == old(pos) + 8 * len && Agrees(w', dir') && |w'.T| == |w.T| + 1
    {
      ghost var more;
      dir', w' := dir + (Pack(pos) + Pack(len)), w;
      r, more := WriteTable(mem, numentries, len);
      if r == 0 { w' := LedgerAdd(w, more, t); }
    }

    /** Counts, allocates and sorts. The sorted entries and each table in turn share one block. */
    method SortEntries(mallocOk: bool) returns (ok: bool, count: array<nat>, start: array<nat>, mem: array<Hp>)
      requires Valid()
      ensures fresh(mem)
      ensures !ok ==> !mallocOk || End(recs) + 16 * |recs| >= WORD
      ensures ok ==> mallocOk && count.Length == 256 && forall b :: 0 <= b < 256 ==> count[b] == Count(Entries(recs), b)
      ensures ok ==> forall b :: 0 <= b < 256 ==> numentries + 2 * Count(Entries(recs), b) <= mem.Length
      ensures ok ==> Starts(start[..], Entries(recs), 0) && Sorted(mem[..], Entries(recs), 0)
    {
      ghost var E := Entries(recs);
      EntriesGood(recs);
      count := CountBuckets();
      start, mem := new nat[0], new Hp[0];
      var memsize := MemSize(count);
      assert memsize <= 3 * |recs| + 1 by {
        forall b | 0 <= b < 256 { CountAll(E, 0, b); }
      }
      if memsize > 0xffff_ffff / 8 || !mallocOk { return false, count, start, mem; }
      mem := new Hp[memsize](_ => FREE);
      start := BucketEnds(count, E);
      SplitEntries(start, mem);
      ok := true;
    }

    /** Appends the 256 tables and collects the directory. */
    method WriteTables(count: array<nat>, start: array<nat>, mem: array<Hp>) returns (r: int, dir: seq<byte>, ghost w: Ledger)
      requires Valid()
      requires count.Length == 256 && forall b :: 0 <= b < 256 ==> count[b] == Count(Entries(recs), b)
      requires forall b :: 0 <= b < 256 ==> numentries + 2 * Count(Entries(recs), b) <= mem.Length
      requires Starts(start[..], Entries(recs), 0) && Sorted(mem[..], Entries(recs), 0)
      modifies this`file, this`pos, mem
      ensures r == if End(recs) + 16 * |recs| < WORD then 0 else -1
      ensures r == 0 ==> |file| < WORD && Agrees(w, dir) && |w.T| == 256
    {
      ghost var E := Entries(recs);
      ghost var split := mem[..numentries];
      SortedFront(mem[..], split, E);
      BaseTotal(E);
      dir, w := [], LedgerStart(file, recs);
      var i := 0;
      while i < 256
        invariant 0 <= i <= 256 && |w.T| == i && mem[..numentries] == split && Agrees(w, dir)
        invariant pos == End(recs) + 16 * Base(E, i)
        modifies this`file, this`pos, mem
      {
        BaseBound(E, start[..], i);
        r, dir, w := FinishBucket(mem, start[i], count[i], dir, split, w);
        if r == -1 { return; }
        i := i + 1;
      }
      r := 0;
    }

    /**
      Writes the 256 tables and the directory. This works out exactly when memory is there and
      the file, tables included, stays below 2^32 bytes; the file then is a database of the
      records added.
     */
    method Finish(mallocOk: bool) returns (r: int, ghost T: seq<seq<Hp>>, ghost D: seq<nat>)
      requires Valid()
      modifies this
      ensures recs == old(recs)
      ensures r == if mallocOk && End(recs) + 16 * |recs| < WORD then 0 else -1
      ensures r == 0 ==> IsCdb(file, recs, T, D)
    {
      T, D := [], [];
      var ok, count, start, mem := SortEntries(mallocOk);
      if !ok { return -1, T, D; }
      var dir;
      ghost var w;
      r, dir, w := WriteTables(count, start, mem);
      if r == -1 { return; }
      T, D := w.T, w.D;
      IsCdbFinal(w);
      file := dir + file[2048..];
    }
  }

  lemma BaseBound(E: seq<Hp>, start: seq<nat>, i: nat)
    requires i < 256 && Starts(start, E, 0)
    ensures start[i] == Base(E, i) && Base(E, i) + Count(E, i) == Base(E, i + 1) <= |E|
  {
    BaseTotal(E);
    BaseMonotone(E, i, 256);
  }

  /** The directory and the file while the tables are being written, with tables and distances so far. */
  datatype Book = Book(dir: seq<byte>, file: seq<byte>, recs: seq<Record>, T: seq<seq<Hp>>, D: seq<nat>)

  ghost predicate Kept(w: Book) {
    && End(w.recs) <= |w.file| && RecordsAt(w.file, w.recs)
    && BucketsDone(w.dir, w.file, Entries(w.recs), w.T, w.D) && |w.D| == |w.recs|
    && (w.T != [] ==> Unpack(w.dir[0..4]) == End(w.recs)) && (w.T == [] ==> |w.file| == End(w.recs))
  }

  type Ledger = w: Book | Kept(w) ghost witness Book([], seq(2048, _ => 0), [], [], [])

  ghost function LedgerStart(file: seq<byte>, recs: seq<Record>): Ledger
    requires |file| == End(recs) && RecordsAt(file, recs)
  {
    Book([], file, recs, [], seq(|recs|, _ => 0))
  }

  /** t is the table of the next bucket, complete. */
  ghost predicate NextTable(w: Ledger, t: Filled) {
    t.E == Entries(w.recs) && t.b == |w.T| < 256 && t.u == Count(t.E, t.b) && t.done == |t.E| && Spares(t, w.D)
  }

  lemma LedgerAdd(w: Ledger, more: seq<byte>, t: Filled) returns (w': Ledger)
    requires NextTable(w, t) && |w.file| < WORD && |t.T| < WORD && TableAt(w.file + more, |w.file|, t.T)
    ensures w' == Book(w.dir + (Pack(|w.file|) + Pack(|t.T|)), w.file + more, w.recs, w.T + [t.T], t.D)
  {
    BucketsDoneAdd(w.dir, w.file, more, t.E, w.T, t.T, w.D, t.D);
    RecordsAtPrefix(w.file, more, w.recs);
    FirstWord(w.dir, |w.file|, Pack(|t.T|));
    w' := Book(w.dir + (Pack(|w.file|) + Pack(|t.T|)), w.file + more, w.recs, w.T + [t.T], t.D);
  }

  lemma FirstWord(dir: seq<byte>, p: u32, q: seq<byte>)
    ensures var dir' := dir + (Pack(p) + q);
            (|dir| >= 4 ==> dir'[0..4] == dir[0..4]) && (dir == [] ==> Unpack(dir'[0..4]) == p)
  {
    UnpackPack(p);
    if dir == [] {
      assert (dir + (Pack(p) + q))[0..4] == Pack(p);
    }
  }

  /** The entries of one chunk, from its last one down. */
  method SplitChunk(chunk: seq<Hp>, start: array<nat>, split: array<Hp>, ghost E: seq<Hp>, ghost o: nat)
    requires o + |chunk| <= |E| && E[o..o + |chunk|] == chunk
    requires Starts(start[..], E, o + |chunk|) && Sorted(split[..], E, o + |chunk|)
    modifies start, split
    ensures Starts(start[..], E, o) && Sorted(split[..], E, o)
  {
    var i := |chunk|;
    while i > 0
      invariant 0 <= i <= |chunk|
      invariant Starts(start[..], E, o + i) && Sorted(split[..], E, o + i)
    {
      i := i - 1;
      PutEntry(start, split, chunk[i], E, o + i);
    }
  }

  /** One step of the sort, from the last entry down: split[--start[255 & h]] = entry. */
  method PutEntry(start: array<nat>, split: array<Hp>, e: Hp, ghost E: seq<Hp>, ghost g: nat)
    requires g < |E| && e == E[g]
    requires Starts(start[..], E, g + 1) && Sorted(split[..], E, g + 1)
    modifies start, split
    ensures Starts(start[..], E, g) && Sorted(split[..], E, g)
  {
    var c := e.h % 256;
    CountStep(E, g, c);
    SortedStep(split[..], E, g);
    StartsStep(start[..], E, g);
    assert start[c] - 1 == Place(E, g);
    start[c] := start[c] - 1;
    split[start[c]] := e;
  }

  /** Each bucket's cursor stands behind its entries among the first g. */
  ghost predicate Starts(start: seq<nat>, E: seq<Hp>, g: nat) {
    && |start| == 256 && g <= |E|
    && forall b :: 0 <= b < 256 ==> start[b] == Base(E, b) + Count(E[..g], b)
  }

  lemma StartsStep(start: seq<nat>, E: seq<Hp>, g: nat)
    requires Starts(start, E, g + 1)
    ensures var c := E[g].h % 256; start[c] > 0 && Starts(start[c := start[c] - 1], E, g)
  {
    forall b | 0 <= b < 256
      ensures Count(E[..g + 1], b) == Count(E[..g], b) + if b == E[g].h % 256 then 1 else 0
    {
      CountStep(E, g, b);
    }
  }

  /** The entries from g on are where the counting sort puts them. */
  ghost predicate Sorted(split: seq<Hp>, E: seq<Hp>, g: nat) {
    && |E| <= |split|
    && forall j :: g <= j < |E| ==> Place(E, j) < |E| && split[Place(E, j)] == E[j]
  }

  lemma SortedStep(split: seq<Hp>, E: seq<Hp>, g: nat)
    requires Sorted(split, E, g + 1) && g < |E|
    ensures Place(E, g) < |E| && Sorted(split[Place(E, g) := E[g]], E, g)
  {
    PlaceInRange(E, g);
    forall j | g < j < |E| ensures Place(E, j) != Place(E, g) {
      PlaceInjective(E, g, j);
    }
  }

  /** Only the front matters. */
  lemma SortedFront(split: seq<Hp>, front: seq<Hp>, E: seq<Hp>)
    requires Sorted(split, E, 0) && |front| == |E| && front <= split
    ensures Sorted(front, E, 0)
  {
  }

  // ---------------------------------------------------------------------------------------
  // Filling one hash table

  ghost predicate GoodEntries(E: seq<Hp>) {
    forall j :: 0 <= j < |E| ==> 0 < E[j].p < WORD && E[j].h < WORD
  }

  lemma EntriesGood(recs: seq<Record>)
    requires Fits(recs)
    ensures GoodEntries(Entries(recs))
    ensures End(recs) >= 2048 + 8 * |recs|
  {
    assert recs[..|recs|] == recs && recs[..0] == [];
    EndMonotone(recs, 0, |recs|);
    forall j | 0 <= j < |recs| ensures 0 < Entries(recs)[j].p < WORD && Entries(recs)[j].h < WORD {
      EntriesAt(recs, j);
      EndMonotone(recs, j, |recs|);
    }
  }

  lemma RecordsAtPrefix(file: seq<byte>, more: seq<byte>, recs: seq<Record>)
    requires RecordsAt(file, recs)
    ensures RecordsAt(file + more, recs)
  {
    forall i | 0 <= i < |recs| ensures RecordAt(file + more, End(recs[..i]), recs[i]) {
      assert RecordAt(file, End(recs[..i]), recs[i]);
      RecordAtPrefix(file, more, End(recs[..i]), recs[i]);
    }
  }

  /** From the home slot of h on, the first free slot of the table behind the first n entries; there is one. */
  method FindFree(mem: array<Hp>, n: nat, len: nat, h: nat, ghost hash: seq<Hp>, ghost free: nat) returns (where: nat, ghost d: nat)
    requires n + len <= mem.Length && hash == mem[n..n + len] && free < len && hash[free].p == 0
    ensures d < len && where == Slot(len, h, d) && hash[where].p == 0
    ensures forall d' :: 0 <= d' < d ==> hash[Slot(len, h, d')].p != 0
  {
    where, d := Home(len, h), 0;
    while mem[n + where].p != 0
      invariant d <= Distance(len, h, free) && where == Slot(len, h, d)
      invariant forall d' :: 0 <= d' < d ==> hash[Slot(len, h, d')].p != 0
      decreases Distance(len, h, free) - d
    {
      where, d := where + 1, d + 1;
      if where == len { where := 0; }
    }
  }

  /** The u-th entry of the bucket, read from the sorted array. */
  lemma SplitEntry(split: seq<Hp>, E: seq<Hp>, b: nat, u: nat)
    requires Sorted(split, E, 0) && b < 256 && u < Count(E, b)
    ensures var j := Nth(E, b, u); Base(E, b) + u < |E| && split[Base(E, b) + u] == E[j]
  {
    var j := Nth(E, b, u);
    assert Place(E, j) == Base(E, b) + u;
  }

  /** Entry j of E, the u-th of its bucket, is the next one for a table that holds the first u. */
  lemma NextEntry(T: seq<Hp>, E: seq<Hp>, n: nat, b: nat, D: seq<nat>, u: nat) returns (j: nat)
    requires TableHolds(T, E, n, b, D) && Count(E[..n], b) == u < Count(E, b)
    ensures j == Nth(E, b, u) && TableHolds(T, E, j, b, D)
    ensures Count(E[..j + 1], b) == u + 1
  {
    j := Nth(E, b, u);
    CountStep(E, j, b);
    if j < n {
      CountMonotone(E, j + 1, n, b);
    }
    NoneBetween(E, n, j, b);
    SkipEntries(T, E, n, j, b, D);
  }

  ghost predicate Words(T: seq<Hp>) {
    forall s :: 0 <= s < |T| ==> T[s].h < WORD && T[s].p < WORD
  }

  /** Table T of bucket b holds the first u entries of it, all among the first `done` of E, at distances D from home. */
  datatype Part = Part(T: seq<Hp>, E: seq<Hp>, b: nat, u: nat, done: nat, D: seq<nat>)

  ghost predicate Filling(t: Part) {
    && t.done <= |t.E| == |t.D| && Count(t.E[..t.done], t.b) == t.u
    && TableHolds(t.T, t.E, t.done, t.b, t.D) && Words(t.T)
  }

  type Filled = t: Part | Filling(t) ghost witness Part([], [], 0, 0, 0, [])

  /** The distances of other buckets' entries are as in D0. */
  ghost predicate Spares(t: Filled, D0: seq<nat>) {
    |D0| == |t.E| && forall j :: 0 <= j < |t.E| && !InBucket(t.E[j], t.b) ==> t.D[j] == D0[j]
  }

  ghost function FillStart(len: nat, E: seq<Hp>, b: nat, D0: seq<nat>): (t: Filled)
    requires |D0| == |E|
    ensures Spares(t, D0)
  {
    Part(seq(len, _ => FREE), E, b, 0, 0, D0)
  }

  lemma FillFree(t: Filled) returns (free: nat)
    requires t.u < |t.T|
    ensures free < |t.T| && t.T[free].p == 0
  {
    free := FreeSlotExists(t.T, t.E, t.done, t.b, t.D);
  }

  /** t' is t with one more entry. */
  ghost predicate OneMore(t: Filled, t': Filled) {
    && t'.E == t.E && t'.b == t.b && t'.u == t.u + 1
    && forall j :: 0 <= j < |t.E| && !InBucket(t.E[j], t.b) ==> t'.D[j] == t.D[j]
  }

  lemma PutNext(t: Filled, d: nat) returns (j: nat)
    requires t.u < Count(t.E, t.b) && GoodEntries(t.E) && d < |t.T|
    requires var h := t.E[Nth(t.E, t.b, t.u)].h;
             t.T[Slot(|t.T|, h, d)].p == 0 && forall d' :: 0 <= d' < d ==> t.T[Slot(|t.T|, h, d')].p != 0
    ensures j == Nth(t.E, t.b, t.u) && Count(t.E[..j + 1], t.b) == t.u + 1 && InBucket(t.E[j], t.b)
    ensures Words(t.T[Slot(|t.T|, t.E[j].h, d) := t.E[j]])
    ensures TableHolds(t.T[Slot(|t.T|, t.E[j].h, d) := t.E[j]], t.E, j + 1, t.b, t.D[j := d])
  {
    j := NextEntry(t.T, t.E, t.done, t.b, t.D, t.u);
    AddEntry(t.T, t.E, j, t.b, t.D, d);
  }

  lemma FillStep(t: Filled, hp: Hp, d: nat) returns (t': Filled)
    requires t.u < Count(t.E, t.b) && hp == t.E[Nth(t.E, t.b, t.u)] && GoodEntries(t.E)
    requires d < |t.T| && t.T[Slot(|t.T|, hp.h, d)].p == 0 && forall d' :: 0 <= d' < d ==> t.T[Slot(|t.T|, hp.h, d')].p != 0
    ensures OneMore(t, t') && t'.T == t.T[Slot(|t.T|, hp.h, d) := hp]
  {
    var j := PutNext(t, d);
    t' := Part(t.T[Slot(|t.T|, hp.h, d) := hp], t.E, t.b, t.u + 1, j + 1, t.D[j := d]);
  }

  lemma FillEnd(t: Filled) returns (t': Filled)
    requires t.u == Count(t.E, t.b)
    ensures t' == t.(done := |t.E|)
  {
    assert t.E[..|t.E|] == t.E;
    NoneBetween(t.E, t.done, |t.E|, t.b);
    SkipEntries(t.T, t.E, t.done, |t.E|, t.b, t.D);
    t' := t.(done := |t.E|);
  }

  /** Puts the next entry of the bucket into the first free slot from its home on. */
  method AddToTable(mem: array<Hp>, n: nat, len: nat, hp: Hp, ghost t: Filled) returns (ghost t': Filled)
    requires t.u < Count(t.E, t.b) < len && GoodEntries(t.E) && hp == t.E[Nth(t.E, t.b, t.u)]
    requires n + len <= mem.Length && t.T == mem[n..n + len]
    modifies mem
    ensures mem[..n] == old(mem[..n]) && t'.T == mem[n..n + len] && OneMore(t, t')
  {
    ghost var free := FillFree(t);
    var where;
    ghost var d;
    where, d := FindFree(mem, n, len, hp.h, t.T, free);
    t' := FillStep(t, hp, d);
    Put(mem, n, len, where, hp);
  }

  method Put(mem: array<Hp>, n: nat, len: nat, where: nat, hp: Hp)
    requires n + len <= mem.Length && where < len
    modifies mem
    ensures mem[..n] == old(mem[..n]) && mem[n..n + len] == old(mem[n..n + len])[where := hp]
  {
    mem[n + where] := hp;
  }

  /** Empties the table. */
  method Clear(mem: array<Hp>, n: nat, len: nat)
    requires n + len <= mem.Length
    modifies mem
    ensures mem[..n] == old(mem[..n]) && mem[n..n + len] == seq(len, _ => FREE)
  {
    var u := 0;
    while u < len
      invariant 0 <= u <= len && mem[..n] == old(mem[..n])
      invariant forall k :: n <= k < n + u ==> mem[k] == FREE
    {
      mem[n + u] := FREE;
      u := u + 1;
    }
  }

  /** The table of bucket b, behind the n sorted entries: twice as many slots as entries, filled in insertion order. */
  method BuildTable(mem: array<Hp>, n: nat, start: nat, count: nat, ghost split: seq<Hp>, ghost b: nat, ghost E: seq<Hp>, ghost D0: seq<nat>)
    returns (ghost t: Filled)
    requires b < 256 && Sorted(split, E, 0) && start == Base(E, b) && count == Count(E, b) && |D0| == |E| && GoodEntries(E)
    requires n == |E| && n + 2 * count <= mem.Length && mem[..n] == split
    modifies mem
    ensures mem[..n] == split && t.T == mem[n..n + 2 * count] && t.E == E && t.b == b && t.u == count && t.done == |E| && Spares(t, D0)
  {
    var len := count + count;
    Clear(mem, n, len);
    t := FillStart(len, E, b, D0);
    var u := 0;
    while u < count
      invariant 0 <= u <= count && mem[..n] == split && t.T == mem[n..n + len]
      invariant t.E == E && t.b == b && t.u == u && Spares(t, D0)
    {
      SplitEntry(split, E, b, u);
      var hp := mem[start + u];
      assert hp == split[start + u];
      t := AddToTable(mem, n, len, hp, t);
      u := u + 1;
    }
    t := FillEnd(t);
  }

  lemma CountBound(w: Ledger)
    requires Fits(w.recs) && |w.T| < 256
    ensures 2 * Count(Entries(w.recs), |w.T|) < WORD
  {
    EntriesGood(w.recs);
    CountAll(Entries(w.recs), 0, |w.T|);
  }

  /** The table of the next bucket. */
  method BuildNext(mem: array<Hp>, n: nat, start: nat, count: nat, ghost split: seq<Hp>, ghost w: Ledger) returns (ghost t: Filled)
    requires Fits(w.recs) && |w.T| < 256 && n == |w.recs|
    requires Sorted(split, Entries(w.recs), 0) && start == Base(Entries(w.recs), |w.T|) && count == Count(Entries(w.recs), |w.T|)
    requires n + 2 * count <= mem.Length && mem[..n] == split
    modifies mem
    ensures mem[..n] == split && t.T == mem[n..n + 2 * count] && NextTable(w, t)
  {
    EntriesGood(w.recs);
    t := BuildTable(mem, n, start, count, split, |w.T|, Entries(w.recs), w.D);
  }

  // ---------------------------------------------------------------------------------------
  // Writing tables and directory

  lemma SlotAtPrefix(file: seq<byte>, more: seq<byte>, p: nat, e: Hp)
    requires SlotAt(file, p, e)
    ensures SlotAt(file + more, p, e)
  {
    var f := file + more;
    assert f[p..p + 4] == file[p..p + 4] && f[p + 4..p + 8] == file[p + 4..p + 8];
  }

  lemma SlotAtEnd(file: seq<byte>, h: u32, p: u32)
    ensures SlotAt(file + (Pack(h) + Pack(p)), |file|, Hp(h, p))
  {
    var f, n := file + (Pack(h) + Pack(p)), |file|;
    assert f[n..n + 4] == Pack(h) && f[n + 4..n + 8] == Pack(p);
    UnpackPack(h);
    UnpackPack(p);
  }

  lemma TableAtPrefix(file: seq<byte>, more: seq<byte>, pos: nat, T: seq<Hp>)
    requires TableAt(file, pos, T)
    ensures TableAt(file + more, pos, T)
  {
    forall s | 0 <= s < |T| ensures SlotAt(file + more, pos + 8 * s, T[s]) {
      SlotAtPrefix(file, more, pos + 8 * s, T[s]);
    }
  }

  lemma TableAtAdd(file: seq<byte>, pos: nat, T: seq<Hp>, e: Hp)
    requires TableAt(file, pos, T) && |file| == pos + 8 * |T| && e.h < WORD && e.p < WORD
    ensures TableAt(file + (Pack(e.h) + Pack(e.p)), pos, T + [e])
  {
    TableAtPrefix(file, Pack(e.h) + Pack(e.p), pos, T);
    SlotAtEnd(file, e.h, e.p);
    var f, T' := file + (Pack(e.h) + Pack(e.p)), T + [e];
    forall s | 0 <= s < |T'| ensures SlotAt(f, pos + 8 * s, T'[s]) {
      if s < |T| { assert SlotAt(f, pos + 8 * s, T[s]); }
    }
  }

  /** Bucket b is described by the directory so far and its table is in the file. */
  ghost predicate BucketDone(dir: seq<byte>, file: seq<byte>, E: seq<Hp>, b: nat, t: seq<Hp>, D: seq<nat>) {
    && 8 * b + 8 <= |dir|
    && Unpack(dir[8 * b..8 * b + 4]) >= 2048 && Unpack(dir[8 * b + 4..8 * b + 8]) == |t|
    && TableAt(file, Unpack(dir[8 * b..8 * b + 4]), t)
    && TableHolds(t, E, |E|, b, D)
  }

  ghost predicate BucketsDone(dir: seq<byte>, file: seq<byte>, E: seq<Hp>, T: seq<seq<Hp>>, D: seq<nat>) {
    && |T| <= 256 && |dir| == 8 * |T|
    && forall b {:trigger BucketDone(dir, file, E, b, T[b], D)} :: 0 <= b < |T| ==> BucketDone(dir, file, E, b, T[b], D)
  }

  lemma BucketDoneGrows(dir: seq<byte>, moreDir: seq<byte>, file: seq<byte>, more: seq<byte>, E: seq<Hp>, b: nat, t: seq<Hp>,
                        D: seq<nat>, D': seq<nat>)
    requires BucketDone(dir, file, E, b, t, D) && |D'| == |D|
    requires forall j :: 0 <= j < |E| && InBucket(E[j], b) ==> D'[j] == D[j]
    ensures BucketDone(dir + moreDir, file + more, E, b, t, D')
  {
    var d := dir + moreDir;
    assert d[8 * b..8 * b + 4] == dir[8 * b..8 * b + 4] && d[8 * b + 4..8 * b + 8] == dir[8 * b + 4..8 * b + 8];
    TableAtPrefix(file, more, Unpack(dir[8 * b..8 * b + 4]), t);
    TableHoldsFrame(t, E, |E|, b, D, D');
  }

  lemma BucketsDoneAdd(dir: seq<byte>, file: seq<byte>, more: seq<byte>, E: seq<Hp>, T: seq<seq<Hp>>, t: seq<Hp>, D: seq<nat>, D': seq<nat>)
    requires BucketsDone(dir, file, E, T, D) && |T| < 256 && |D| == |D'| == |E|
    requires 2048 <= |file| < WORD && |t| < WORD && TableAt(file + more, |file|, t)
    requires TableHolds(t, E, |E|, |T|, D')
    requires forall j :: 0 <= j < |E| && !InBucket(E[j], |T|) ==> D'[j] == D[j]
    ensures BucketsDone(dir + (Pack(|file|) + Pack(|t|)), file + more, E, T + [t], D')
  {
    var entry := Pack(|file|) + Pack(|t|);
    var T' := T + [t];
    forall b | 0 <= b < |T'| ensures BucketDone(dir + entry, file + more, E, b, T'[b], D') {
      if b < |T| {
        assert BucketDone(dir, file, E, b, T[b], D);
        BucketDoneGrows(dir, entry, file, more, E, b, T[b], D, D');
      } else {
        SlotAtEnd(dir, |file|, |t|);
        assert SlotAt(dir + entry, 8 * b, Hp(|file|, |t|));
      }
    }
  }

  /** Putting the directory in front changes nothing behind it. */
  lemma DirectoryInFront(dir: seq<byte>, file: seq<byte>, i: nat, j: nat)
    requires |dir| == 2048 && 2048 <= i <= j <= |file|
    ensures (dir + file[2048..])[i..j] == file[i..j]
  {
  }

  lemma RecordAtFinal(dir: seq<byte>, file: seq<byte>, p: nat, r: Record)
    requires |dir| == 2048 <= |file| && RecordAt(file, p, r) && p >= 2048
    ensures RecordAt(dir + file[2048..], p, r)
  {
    DirectoryInFront(dir, file, p, p + 4);
    DirectoryInFront(dir, file, p + 4, p + 8);
    DirectoryInFront(dir, file, p + 8, p + 8 + |r.key|);
    DirectoryInFront(dir, file, p + 8 + |r.key|, p + Size(r));
  }

  lemma BucketAtFinal(dir: seq<byte>, file: seq<byte>, recs: seq<Record>, b: nat, t: seq<Hp>, D: seq<nat>)
    requires |dir| == 2048 <= |file| && b < 256 && BucketDone(dir, file, Entries(recs), b, t, D)
    ensures BucketAt(dir + file[2048..], recs, b, t, D)
  {
    var f, pos := dir + file[2048..], Unpack(dir[8 * b..8 * b + 4]);
    assert f[8 * b..8 * b + 4] == dir[8 * b..8 * b + 4] && f[8 * b + 4..8 * b + 8] == dir[8 * b + 4..8 * b + 8];
    forall s | 0 <= s < |t| ensures SlotAt(f, pos + 8 * s, t[s]) {
      assert SlotAt(file, pos + 8 * s, t[s]);
      DirectoryInFront(dir, file, pos + 8 * s, pos + 8 * s + 4);
      DirectoryInFront(dir, file, pos + 8 * s + 4, pos + 8 * s + 8);
    }
  }

  lemma IsCdbFinal(w: Ledger)
    requires |w.T| == 256 && |w.file| < WORD
    ensures IsCdb(w.dir + w.file[2048..], w.recs, w.T, w.D)
  {
    var f, recs := w.dir + w.file[2048..], w.recs;
    forall i | 0 <= i < |recs| ensures RecordAt(f, End(recs[..i]), recs[i]) {
      assert RecordAt(w.file, End(recs[..i]), recs[i]);
      RecordAtFinal(w.dir, w.file, End(recs[..i]), recs[i]);
    }
    forall b | 0 <= b < 256 ensures BucketAt(f, recs, b, w.T[b], w.D) {
      assert BucketDone(w.dir, w.file, Entries(recs), b, w.T[b], w.D);
      BucketAtFinal(w.dir, w.file, recs, b, w.T[b], w.D);
    }
    assert f[0..4] == w.dir[0..4];
  }
}
