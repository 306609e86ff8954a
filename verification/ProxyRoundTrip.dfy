/** A bucket sent over a connection: encoder and decoder of src/proxy.c one after the other. */
module ProxyRoundTrip {
  import opened ProxyStream
  import opened ProxyDecoder
  import opened ProxyCodec
  import opened ProxyBucket
  import opened ProxyEncoder

  /** The encoding with one byte of whatever comes next. */
  lemma OneMoreByte(ts: seq<Torrent>, prefix: byte, b: byte)
    requires IsBucket(ts, prefix) && NoEmptyPacket(ts)
    ensures Run(IDLE, Encoding(ts, prefix) + [b]).tells == Sent(ts) && NoneEmpty(IDLE, Encoding(ts, prefix) + [b])
  {
    DecodeEncode(ts, prefix, [b]);
    assert Next(IDLE, [b]) == None;
    assert Sent(ts) + [] == Sent(ts);
  }

  /** Passes on some of the bytes that are left. */
  method FeedSome(conn: Connection, data: seq<byte>, pos: nat) returns (pos': nat)
    requires conn.Valid() && conn.length < CAPACITY && pos < |data| && conn.stream == data[..pos] && NoneEmpty(IDLE, data)
    modifies conn, conn.indata
    ensures conn.Valid() && pos < pos' <= |data| && conn.stream == data[..pos']
  {
    var n: nat :| 0 < n <= |data| - pos && conn.length + n <= CAPACITY;
    pos' := pos + n;
    assert data == data[..pos'] + data[pos'..];
    assert data[..pos'] == data[..pos] + data[pos..pos'];
    NoneEmptySplit(IDLE, data[..pos'], data[pos'..]);
    conn.Receive(data[pos..pos']);
  }

  /** Passes on all bytes, cut in any way; stuck if a torrent does not fit into the buffer of the other side. */
  method Feed(conn: Connection, data: seq<byte>) returns (stuck: bool)
    requires conn.Valid() && conn.stream == [] && NoneEmpty(IDLE, data)
    modifies conn, conn.indata
    ensures conn.Valid() && if stuck then conn.length == CAPACITY else conn.stream == data
  {
    var pos := 0;
    while pos < |data|
      invariant 0 <= pos <= |data| && conn.Valid() && conn.stream == data[..pos]
    {
      if conn.length == CAPACITY { return true; }
      pos := FeedSome(conn, data, pos);
    }
    assert data[..pos] == data;
    stuck := false;
  }

  /**
    Sends the encoding of a bucket and the first byte of the next one, cut in any way. The other
    side tells exactly the pairs of the bucket, each as often as the bucket has it, unless it gets
    stuck because a torrent does not fit into its buffer.
   */
  method SendBucket(ts: seq<Torrent>, bucket: nat, next: byte) returns (conn: Connection, stuck: bool)
    requires bucket < 1024 && |ts| < 0x1_0000 && NoEmptyPacket(ts)
    requires forall i :: 0 <= i < |ts| ==> HashBucket(ts[i].hash) == bucket && |ts[i].peers| < 0x1000_0000
    ensures fresh(conn) && conn.Valid() && (stuck ==> conn.length == 131072)
    ensures !stuck ==> conn.told == Sent(ts) && multiset(conn.told) == multiset(AllPairs(ts))
  {
    conn := new Connection();
    var encoded := EncodeBucket(ts, bucket, true);
    OneMoreByte(ts, PrefixOf(bucket), next);
    SentIsAll(ts);
    stuck := Feed(conn, encoded.value + [next]);
  }
}
