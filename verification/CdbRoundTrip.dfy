/** A database built from a list of records answers every lookup as the list does. */
module CdbRoundTrip {
  import opened CdbFormat
  import CdbMake
  import CdbRead

  /** Adds the records one by one, until one does not fit. */
  method AddAll(m: CdbMake.Maker, records: seq<Record>) returns (ok: bool)
    requires m.Valid() && m.recs == []
    modifies m
    ensures ok <==> Fits(records)
    ensures ok ==> m.Valid() && m.recs == records
  {
    var i := 0;
    while i < |records|
      invariant 0 <= i <= |records| && m.Valid() && m.recs == records[..i]
    {
      var r := m.Add(records[i].key, records[i].data, true);
      EndStep(records, i);
      if r == -1 {
        EndMonotone(records, i + 1, |records|);
        assert records[..|records|] == records;
        return false;
      }
      assert records[..i + 1] == records[..i] + [records[i]];
      i := i + 1;
    }
    assert records[..i] == records;
    return true;
  }

  /** The database built from the records, or nothing if they do not fit into 2^32 bytes. */
  method Build(records: seq<Record>) returns (ok: bool, db: CdbRead.Cdb?)
    ensures ok <==> End(records) + 16 * |records| < WORD
    ensures ok ==> db != null && fresh(db) && db.Valid() && db.recs == records
  {
    var m := new CdbMake.Maker();
    db := null;
    ok := AddAll(m, records);
    if !ok { return; }
    ghost var T, D;
    var r;
    r, T, D := m.Finish(true);
    if r == -1 { return false, null; }
    db := new CdbRead.Cdb(m.file, m.recs, T, D);
  }

  /** Build, then find the key and all its further occurrences. */
  method BuildAndFind(records: seq<Record>, key: seq<byte>) returns (ok: bool, values: seq<seq<byte>>)
    ensures ok <==> End(records) + 16 * |records| < WORD
    ensures ok ==> values == Values(records, key)
  {
    var db;
    ok, db := Build(records);
    values := [];
    if ok { values := db.FindAll(key); }
  }

  /** Build, then walk over all records. */
  method BuildAndTraverse(records: seq<Record>) returns (ok: bool, all: seq<Record>)
    ensures ok <==> End(records) + 16 * |records| < WORD
    ensures ok ==> all == records
  {
    var db;
    ok, db := Build(records);
    all := [];
    if ok { all := db.AllRecords(); }
  }
}
