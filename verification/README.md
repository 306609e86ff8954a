# A verified model of the tracker

This project models the parts of the tracker, of libowfat and of cJSON in which correctness is
hardest to see, and proves what they are for. Every method is proved against a specification
that does not mention its body: a set, a map, a list of records, a history of events, a text and
the value it stands for.

- **Crit-bit tree** (`Critbit*.dfy`). Pointer-linked inner nodes, walked and relinked in place,
  stand for a trie whose critical bits strictly increase; the trie stands for a set of strings.
  Insertion isolates the critical bit with the bit tricks of the original, on 8-bit vectors. The
  shape is canonical, deletion undoes insertion, and a prefix query lists exactly the keys with
  that prefix in ascending order.
- **Constant database** (`Cdb*.dfy`). The writer sorts entries into 256 open-addressed tables
  which are at most half full, so its probing ends; the reader, on the bytes written, answers as
  the plain list of records does. The condition under which a database can be written is exact.
- **Peer store** (`Peer*.dfy`, `TrackerRuns.dfy`). Sorted vectors, one or many selected by a
  hash, stand for a map from ip and port to flags and the minute of the last announce. Counters,
  ageing and re-splitting agree with the map; over whole runs the map is a function of the
  history of events. Selection of peers for a reply never picks a peer twice.
- **Locks and work queue** (`BucketLocks.dfy`, `WorkQueue.dfy`). State machines over the steps of
  any number of threads, with the shared structures as classes.
- **cJSON** (`Json*.dfy`). Printer, parser and minifier against a function from values to texts;
  what every literal, numeral and comment stands for, and how formatted texts are laid out.
- **Proxy stream** (`Proxy*.dfy`). An incremental decoder whose result does not depend on how the
  bytes were cut, and an encoder that fills three packets side by side in one block.
- **DNS names** (`Dns*.dfy`). Decompression against a reference expansion of names after section
  4.1.4 of RFC 1035, and the conversion to text and back.
- **Request header scan** (`HeaderScan.dfy`) and **network statistics** (`Network*.dfy`).

Memory allocation that may fail is a parameter (`mallocOk`, or `memory` where several allocations
may fail independently: it says that none does) together with a free choice; `failing` is the set
of vectors whose block cannot be made smaller; `random()` is a free choice; the clock is a
parameter. Peers are keyed by the number that their six bytes of ip and
port spell, so that `memcmp` is the order of numbers.

Some properties one might expect do not hold of the code, and are stated with their exact
conditions:

- An announce on a torrent that holds peers and was left alone for more than 24 hours moves the
  base time without ageing the peers, because the result of the cleaning is ignored. The map is
  then right if and only if the announcing peer is the only one stored and its stored completion
  does not outlive it (`PeerList.PeerList.Announce`, `PeerList.NeglectedAnnounce`, `PeerList.NeglectedCounterexample`).
- The encoder for the proxy stream can send packets without torrents, which the decoder takes for
  packets with torrents. A bucket decodes, whatever follows it, if and only if it has a torrent
  with more than two peers, or torrents with one peer and torrents with two
  (`ProxyEmpty.DecodableIff`). `ProxyDecoder.EmptyPacketCounterexample` shows the dependence on
  the cutting of the stream.
- Cancelling an entry of the work queue drops every entry in front of it. Only the entry itself is
  removed if and only if it is the first one, or the list is empty (`WorkQueue.Queue.CancelTask`);
  other sockets lose nothing if and only if the first job still there belongs to the socket
  (`WorkQueue.CancelSparesOthers`, `WorkQueue.CancelCounterexample`).
- The block of a vector is shrunk without looking at whether that worked. The members of a vector
  survive a removal or a cleaning if and only if the smaller block can be had, or none is needed
  (`PeerVector.Fixup`, `PeerVector.RemovalCounterexample`, `PeerList.PeerList.RemovePeer`,
  `PeerList.PeerList.CleanSingleTorrent`).
- The two passes over a JSON string literal do not agree on where it ends if an escape with u is
  cut short. A literal is parsed within text and buffer, whatever follows it, if and only if the
  second pass does not jump over the quote that ends the first (`JsonBuffer.ContainedIff`,
  `JsonBuffer.JumpCounterexample`).
- The minifier stays within the text if and only if every string literal and every comment ends
  (`JsonMinifier.Minify`, `JsonMinifier.UnclosedExamples`).
- A slash right behind the star that opens a block comment ends the comment for the minifier
  (`JsonComments.SlashClosesComment`, `JsonComments.CommentCounterexample`); comments in which none
  stands there are removed whole (`JsonComments.PiecesMinified`).

## Model

| member | source | states |
|---|---|---|
| `CritbitBits.Direction` | libowfat/critbit/critbit.c:35 | the direction taken at a node is the bit of the key at the node's critical position |
| `CritbitBits.IsolateIsCritical` | libowfat/critbit/critbit.c:70-88 | the bit isolated from two bytes that differ is the first one, from the top, at which the two keys differ |
| `CritbitBits.CritOrder` | libowfat/critbit/critbit.c:113-114 | comparing byte and otherbits, as the walk for the insertion point does, compares critical positions |
| `CritbitBits.CriticalBitOrders` | libowfat/critbit/critbit.c:200-226 | of two NUL-free keys the one with a 0 at the critical bit is smaller in unsigned-byte order |
| `CritbitTrie.WellFormedIncreases` | libowfat/critbit/critbit.c:107-123 | critical positions strictly increase on every path from the root |
| `CritbitTrie.WalkFindsMembers` | libowfat/critbit/critbit.c:28-40 | following the bits of a key ends at that key if and only if it is stored |
| `CritbitTrie.InsertKeys` | libowfat/critbit/critbit.c:107-123 | splitting at the critical position adds exactly the new key |
| `CritbitTrie.InsertWellFormed` | libowfat/critbit/critbit.c:107-123 | and keeps the structural invariant |
| `CritbitTrie.DeleteCorrect` | libowfat/critbit/critbit.c:154-160 | removing a leaf and its parent removes exactly that key and keeps the invariant |
| `CritbitTrie.Canonical` | libowfat/critbit/critbit.c:9-13 | two well-formed tries with the same keys have the same shape |
| `CritbitTrie.DeleteUndoesInsert` | libowfat/critbit/critbit.c:43-163 | deleting a key just inserted gives back the same trie |
| `CritbitTrie.InOrderAscending` | libowfat/critbit/critbit.c:184-198 | left-to-right traversal meets the keys in strictly ascending unsigned-byte order |
| `CritbitTrie.TopIsPrefixed` | libowfat/critbit/critbit.c:208-223 | the subtree below the last node that tests a byte of the prefix holds all keys with the prefix, and only those if its witness has it |
| `CritbitTrie.ListingIsUnique` | libowfat/critbit/critbit.c:200-226 | there is only one ascending list of the keys with a prefix |
| `Critbit.RelinkInsert` | libowfat/critbit/critbit.c:122-123 | redirecting the one pointer found makes the nodes stand for the trie with the key inserted |
| `Critbit.RelinkDelete` | libowfat/critbit/critbit.c:159 | redirecting the pointer to the parent makes the nodes stand for the trie with the key deleted |
| `Critbit.CritbitTree.constructor` | libowfat/critbit/critbit.c:15-19 | a new tree is empty |
| `Critbit.CritbitTree.Descend` | libowfat/critbit/critbit.c:28-38 | the pointer walk ends at the leaf that the walk in the trie ends at |
| `Critbit.CritbitTree.Contains` | libowfat/critbit/critbit.c:21-41 | 1 if the string is in the set, else 0 |
| `Critbit.CritbitTree.FindCritical` | libowfat/critbit/critbit.c:70-88 | finds whether two strings are the same and, if not, their critical byte and bit |
| `Critbit.CritbitTree.FindSplit` | libowfat/critbit/critbit.c:107-120 | finds the pointer at which the new node belongs, and the node that holds it |
| `Critbit.CritbitTree.Splice` | libowfat/critbit/critbit.c:92-123 | the new node put there adds the string to the set and keeps the tree valid |
| `Critbit.CritbitTree.Insert` | libowfat/critbit/critbit.c:43-126 | 1 if the string was there, 2 if it is new and memory is there, 0 if it is not; the set grows by the string unless the result is 0 |
| `Critbit.CritbitTree.DescendTwo` | libowfat/critbit/critbit.c:139-148 | finds the leaf, its parent and the pointer to the parent |
| `Critbit.CritbitTree.Delete` | libowfat/critbit/critbit.c:128-163 | 1 if the string was there, else 0; the set loses it |
| `Critbit.CritbitTree.AllprefixedTraverse` | libowfat/critbit/critbit.c:184-198 | the handler gets the keys in order until it returns something else than 1, and the result says what |
| `Critbit.CritbitTree.Allprefixed` | libowfat/critbit/critbit.c:200-226 | the handler gets exactly the keys with the prefix, ascending, until it stops |
| `Critbit.DeliverAll` | libowfat/critbit/critbit.c:184-198 | a handler that always returns 1 gets all of them, once each |
| `Critbit.DeliverStops` | libowfat/critbit/critbit.c:184-198 | a handler gets the keys up to and including the first one for which it does not return 1, and that is the result |
| `CritbitRuns.Replay` | libowfat/critbit/critbit.c:43-163 | after every sequence of insertions and deletions the tree holds exactly the expected set, and every answer was the expected one |
| `CdbTable.FreeSlotExists` | libowfat/cdb/cdb_make.c:137-141 | in a table with more slots than entries probing meets a free slot |
| `CdbTable.SlotIs` | libowfat/cdb/cdb_make.c:137-140 | an entry starts at its hash without the low byte, modulo the number of slots, and goes round from there |
| `CdbTable.AddEntry` | libowfat/cdb/cdb_make.c:136-142 | an entry put into the first free slot from its home keeps the table a correct one for the entries so far |
| `CdbTable.ProbeHit` | libowfat/cdb/cdb.c:133-154 | a taken slot met while probing for a hash that has this hash belongs to an entry put there, at that distance from its home |
| `CdbTable.ProbeEnd` | libowfat/cdb/cdb.c:133-136 | at a free slot every entry with the same home has been met |
| `CdbBuckets.PlaceInjective` | libowfat/cdb/cdb_make.c:113-123 | counting sort puts different entries at different places |
| `CdbBuckets.BaseTotal` | libowfat/cdb/cdb_make.c:113-117 | the bucket counts add up to the number of entries |
| `CdbFormat.UnpackPack` | libowfat/cdb/cdb_make.c:61-62 | four little-endian bytes are read back as the number packed |
| `CdbFormat.UnpackIs` | libowfat/cdb/cdb_make.c:61-62 | four bytes are read with the lowest first |
| `CdbFormat.HashIs` | libowfat/cdb/cdb_hash.c:4-7 | the hash of nothing is 5381, and one more byte multiplies it by 33 modulo 2^32 and is xor-ed into its low eight bits |
| `CdbFormat.ComputeHash` | libowfat/cdb/cdb_hash.c:9-19 | the loop computes, in arithmetic modulo 2^32, the hash that CdbFormat.HashIs determines |
| `CdbFormat.ValuesAreMatches` | libowfat/cdb/cdb.c:115-162 | the values of a key are the data of the matching records in insertion order |
| `CdbMake.Maker.PosPlus` | libowfat/cdb/cdb_make.c:27-32 | advances the position unless that would wrap, and tells; it stays where it is if it would |
| `CdbMake.Maker.AddEnd` | libowfat/cdb/cdb_make.c:34-53 | records hash and position of the record just written |
| `CdbMake.Maker.Add` | libowfat/cdb/cdb_make.c:55-73 | appends a record; succeeds exactly if it ends below 2^32, given memory |
| `CdbMake.Maker.CountBuckets` | libowfat/cdb/cdb_make.c:87-94 | counts the entries of each bucket |
| `CdbMake.Maker.BucketEnds` | libowfat/cdb/cdb_make.c:113-117 | computes where each bucket ends |
| `CdbMake.Maker.SplitEntries` | libowfat/cdb/cdb_make.c:119-123 | sorts the entries by bucket, stably, into the front of the block |
| `CdbMake.Maker.MemSize` | libowfat/cdb/cdb_make.c:96-103 | the room for all entries and, behind them, the table of any bucket: enough for each, and no more than the largest takes |
| `CdbMake.BuildTable` | libowfat/cdb/cdb_make.c:128-142 | fills a table of twice as many slots as entries behind the sorted entries, which stay; it is then a correct table for them |
| `CdbMake.FindFree` | libowfat/cdb/cdb_make.c:137-140 | probing ends at the first free slot |
| `CdbMake.Clear` | libowfat/cdb/cdb_make.c:132-133 | empties the slots of the table and leaves the sorted entries before it alone |
| `CdbMake.Maker.WriteTable` | libowfat/cdb/cdb_make.c:144-149 | appends the table to the file, unless the position would wrap |
| `CdbMake.Maker.WriteTables` | libowfat/cdb/cdb_make.c:125-150 | all 256 tables and the directory that points to them |
| `CdbMake.Maker.Finish` | libowfat/cdb/cdb_make.c:75-155 | succeeds exactly if memory is there and records and tables stay below 2^32 bytes; the file is then a database of the records |
| `CdbRead.Cdb.Read` | libowfat/cdb/cdb.c:61-97 | the bytes asked for, exactly if they lie within the file |
| `CdbRead.Cdb.Match` | libowfat/cdb/cdb.c:99-113 | compares a key with the file in chunks of 32 bytes: 0 if a chunk within the file differs, else 1 if the whole key lies within the file, else -1 |
| `CdbRead.Cdb.FindNext` | libowfat/cdb/cdb.c:115-157 | with k matches reported before: 1 and the data of match k, or 0 if there are no more |
| `CdbRead.Cdb.Find` | libowfat/cdb/cdb.c:159-162 | starts over and reports the first match |
| `CdbRead.Cdb.FindAll` | libowfat/cdb/cdb.c:115-162 | find, then findnext until 0, yields the data of all records with the key in insertion order |
| `CdbRead.Cdb.DoIt` | libowfat/cdb/cdb_traverse.c:3-19 | delimits the record at the cursor and moves to the next, 0 after the last |
| `CdbRead.Cdb.AllRecords` | libowfat/cdb/cdb_traverse.c:21-28 | firstkey, then nextkey until 0, visits every record in insertion order |
| `CdbRoundTrip.Build` | libowfat/cdb/cdb_make.c:34-155 | a list of records can be built into a database exactly if it fits into 2^32 bytes |
| `CdbRoundTrip.BuildAndFind` | libowfat/cdb/cdb.c:99-163 | for every list that fits and every key, lookup answers as the list does |
| `CdbRoundTrip.BuildAndTraverse` | libowfat/cdb/cdb_traverse.c:3-28 | for every list that fits, traversal gives the list |
| `PeerVector.BinarySearch` | src/ot_vector.c:28-48 | the index of the key in a sorted vector, or the place where it belongs |
| `PeerVector.Grow` | src/ot_vector.c:94-104 | room for one more: two slots at first, then twice as many each time; on failure the vector is as before |
| `PeerVector.FindOrInsert` | src/ot_vector.c:85-109 | the slot of the key, or a new slot in its place with the others moved up; on failure the vector is as before |
| `PeerVector.Remove` | src/ot_vector.c:116-136 | 0, 1 or 2 for no such peer, a leecher, a seeder; exactly that peer is gone, and all others are lost exactly if shrinking is due and the smaller block cannot be had |
| `PeerVector.RemovalCounterexample` | src/ot_vector.c:257-263 | two members in room for eight: taking one out when the smaller block cannot be had loses the other one |
| `PeerVector.Fixup` | src/ot_vector.c:247-264 | gives back room without touching the members, as far as the ratio allows; they are lost exactly if shrinking is due and the smaller block cannot be had |
| `PeerVector.CleanSingleBucket` | src/ot_clean.c:22-44 | ages the peers in place, drops exactly those of 45 minutes or more, keeps the order and counts seeders dropped |
| `PeerBuckets.TallyPermutation` | src/ot_vector.c:206-228 | the counts depend only on the multiset of peers |
| `PeerBuckets.ResplitPlaced` | src/ot_vector.c:206-228 | dealing the peers out by hash and sorting gives sorted, duplicate-free buckets with every peer in its hash bucket and the same multiset |
| `PeerBuckets.SamePeersSameMap` | src/ot_vector.c:161-245 | the same peers, differently split, are the same map |
| `PeerBuckets.BucketIs` | src/ot_vector.c:50-55 | a peer belongs to the bucket given by the six bytes of its ip and port as digits to the base 33 behind 5381, modulo 2^32 and then the number of buckets |
| `PeerBuckets.AgedGet` | src/ot_clean.c:76-84 | ageing all buckets ages the map |
| `PeerList.MarkIsReliable` | src/ot_vector.c:88-90 | the test of space against size tells a list of vectors from a vector, never wrongly |
| `PeerList.HashPeer` | src/ot_vector.c:50-55 | the loop over the six bytes computes the vector a key hashes to |
| `PeerList.Select` | src/ot_vector.c:88-90 | the vector of a key: the one it hashes to in a list, else the only one |
| `PeerList.NewVectors` | src/ot_vector.c:188-204 | empty vectors for all buckets, or failure |
| `PeerList.DealAll` | src/ot_vector.c:206-223 | every peer is appended to the vector it hashes to |
| `PeerList.ChooseBuckets` | src/ot_vector.c:170-183 | the chain of tests gives one vector below 255 peers, 16 from 512 to 4095 and at 8192, and 64 above; from 255 to 511 a list keeps up to 16 vectors, from 4096 to 8191 it keeps more than one, else it gets 1 and 16 |
| `PeerList.SuitableStable` | src/ot_vector.c:170-186 | lists have 1, 16 or 64 vectors, and splitting anew twice in a row does nothing the second time |
| `PeerList.PeerList.ResplitIfDue` | src/ot_clean.c:86-88 | lists of more than 512 peers, and those with several vectors, get the number of vectors suited to them; the map stays |
| `PeerList.ResplitVectors` | src/ot_vector.c:188-228 | new vectors hold the same map and the same multiset as the old ones |
| `PeerList.CleanVector` | src/ot_clean.c:76-80 | one vector aged; its peers are lost exactly if more than half timed out, shrinking is due and the smaller block cannot be had |
| `PeerList.CleanVectors` | src/ot_clean.c:76-86 | all vectors aged, with the numbers of peers and seeders dropped; peers are lost exactly if that happens to some vector |
| `PeerList.PeerList.constructor` | src/trackerlogic.c:67-69 | a new list has no peers |
| `PeerList.PeerList.RedistributeBuckets` | src/ot_vector.c:161-245 | the list has the number of vectors suited to its population and the same peers; on failure it is unchanged |
| `PeerList.PeerList.CleanSingleTorrent` | src/ot_clean.c:49-99 | true exactly for an idle torrent, and then nothing changed; else exactly the peers not heard of for 45 minutes are gone, unless a block could not be shrunk, with the exact condition |
| `PeerList.PeerList.StorePeer` | src/trackerlogic.c:113-173 | the map has the announcing peer at age 0, marked as complete exactly if it was or announces itself as complete and seeding; counters agree; nothing changed on failure |
| `PeerList.PeerList.Announce` | src/trackerlogic.c:96-173 | the map is the old one without what timed out and with the announcing peer at this minute; the exact conditions under which it is not, for neglected lists and for blocks that could not be shrunk |
| `PeerList.NeglectedAnnounce` | src/trackerlogic.c:109-111 | on a list neglected for more than a day the map comes out right if and only if only the announcing peer was stored and its old completion does not show |
| `PeerList.NeglectedKeepsOthers` | src/trackerlogic.c:108-111 | an announce on a list neglected for more than a day keeps every other peer and shows it with a later time than it was heard of |
| `PeerList.NeglectedCounterexample` | src/trackerlogic.c:108-111 | for instance a list of one peer and an announce by a second one: the map comes out wrong |
| `PeerList.PeerList.RemovePeer` | src/trackerlogic.c:352-372 | exactly the stopped peer is gone, and counters agree; the peers of its vector are lost exactly if shrinking is due and the smaller block cannot be had |
| `PeerSelection.ReturnPeersAll` | src/trackerlogic.c:186-211 | the reply is filled exactly, leechers in order from the front and seeders from the back |
| `PeerSelection.Scale` | src/trackerlogic.c:227-230 | the count is shifted until bit 29 is set |
| `PeerSelection.StepOf` | src/trackerlogic.c:230 | the quotient is the one the bounds on the strides are about |
| `PeerSelection.StridePositive` | src/trackerlogic.c:240-243 | with fewer rounds than peers no stride is 0, so the remainder is defined |
| `PeerSelection.StridesFit` | src/trackerlogic.c:240-243 | all strides together are at most the number of peers |
| `PeerSelection.Seek` | src/trackerlogic.c:245-249 | stepping over whole buckets ends, at the peer with that position on the ring of all peers |
| `PeerSelection.ReturnPeersSelection` | src/trackerlogic.c:213-259 | for 0 < amount < count < 2^30, every layout and all random choices, the chosen peers are at different places and fill the reply exactly |
| `PeerSelection.ReplyIsGood` | src/trackerlogic.c:186-259 | a reply lists different stored peers, first those not seeding and then those seeding |
| `PeerSelection.ReturnPeers` | src/trackerlogic.c:265-289 | a reply has as many peers as asked for or as there are, and is of that kind |
| `TrackerRuns.StoredSinceLastAnnounce` | src/ot_clean.c:22-99 | by the specification of histories, a peer is stored exactly if its last announce was followed by no stop of it and no touch of the torrent 45 minutes later, and its recorded minute is that of this announce |
| `TrackerRuns.CompletedInStay` | src/trackerlogic.c:123-170 | a stored peer is marked as complete exactly if some announce of its present stay that succeeded said both complete and seeding |
| `TrackerRuns.FirstIsNew` | src/trackerlogic.c:136-170 | an announce is the first such announce of its stay exactly if it meets no entry marked as complete |
| `TrackerRuns.Torrent.Announce` | src/trackerlogic.c:74-173 | keeps the entry equal to what the history specifies, unless the cleaning loses peers, with the exact condition; the downloads counted are the announces that are the first complete and seeding one of their stay |
| `TrackerRuns.Torrent.Stop` | src/trackerlogic.c:352-372 | keeps the entry equal to what the history specifies, unless the removal loses peers, with the exact condition |
| `TrackerRuns.Torrent.Visit` | src/ot_clean.c:110-119 | after any time, keeps the entry equal to what the history specifies, also when it is dropped, unless the cleaning loses peers, with the exact condition |
| `TrackerRuns.Torrent.Scrape` | src/trackerlogic.c:296-318 | after any time, complete and incomplete are the numbers of seeding and other peers that the history leaves, and downloaded the number of first completions of a stay, unless the cleaning loses peers |
| `TrackerRuns.RosterOf` | src/trackerlogic.c:311-313 | the counters are the numbers of peers and seeders that the history leaves, each counted once |
| `TrackerRuns.DroppedUnknown` | src/ot_clean.c:59-67 | a visit that drops an entry drops nothing that was still to be kept |
| `TrackerRuns.Replay` | src/trackerlogic.c:74-372 | every run of announces, stops and visits, with any of their allocations failing, in which time does not go back and no announce comes more than a day after the last touch while peers are left, keeps the entry equal to what the history specifies, up to a loss by a block that could not be shrunk; none is lost while memory lasts |
| `BucketLocks.LockList.Check` | src/ot_mutex.c:39-57 | a bucket cannot be locked exactly if it is in the list or the list is full |
| `BucketLocks.LockList.Push` | src/ot_mutex.c:59-61 | appends the bucket |
| `BucketLocks.LockList.Remove` | src/ot_mutex.c:63-78 | removes the first occurrence and closes the gap; nothing changes if there is none |
| `BucketLocks.LockList.TryLock` | src/ot_mutex.c:81-88 | one turn of the waiting loop: takes the lock exactly if it can |
| `BucketLocks.LockList.Unlock` | src/ot_mutex.c:94-100 | releases the bucket and books the change |
| `BucketLocks.StepKeeps` | src/ot_mutex.c:81-100 | every step of every thread, sleeping and waking included, keeps mutual exclusion and the books, and lets nobody sleep while the bucket could be had |
| `BucketLocks.RunIsSafe` | src/ot_mutex.c:39-112 | in every interleaving no bucket is held twice, the list has at most 64 entries and none twice, no wake-up is lost, and the count is that of the torrents but for what holders have yet to book |
| `BucketLocks.WorkKeeps` | src/trackerlogic.c:90-128 | adding and removing torrents while holding the bucket keeps the books |
| `BucketLocks.ReleaseKeeps` | src/ot_clean.c:110-120 | unlocking with the accumulated change keeps the books |
| `BucketLocks.NoDeadlock` | src/ot_mutex.c:81-100 | in every state of every run in which some thread is not idle, some such thread can take a step towards its release |
| `BucketLocks.WaiterMayAcquire` | src/ot_mutex.c:81-100 | from every state of every run with a waiting thread, steps lead on to a state in which that thread holds its bucket |
| `BucketLocks.WaitingHasReason` | src/ot_mutex.c:81-88 | a waiting thread can go on or waits for a thread at work |
| `BucketLocks.ListNeverFull` | src/ot_mutex.c:43-47 | with at most 64 threads a thread waits only for its own bucket |
| `WorkQueue.PopsDiffer` | src/ot_mutex.c:214-218 | in every run, task ids increase and no task goes to two workers |
| `WorkQueue.DeliveriesDiffer` | src/ot_mutex.c:289-318 | in every run, no result is delivered twice |
| `WorkQueue.NothingLost` | src/ot_mutex.c:130-318 | in every run, what was pushed is in the list, or was delivered, or was dropped by a cancellation: the numbers add up, and without cancellations none are dropped |
| `WorkQueue.MirrorsCount` | src/ot_mutex.c:114-126 | the list has as many entries as there are jobs neither delivered nor dropped |
| `WorkQueue.Replay` | src/ot_mutex.c:130-318 | any calls on a new queue are such a run, and entries, deliveries and dropped jobs add up to the pushes |
| `WorkQueue.DroppedByCancel` | src/ot_mutex.c:168-197 | in every run a job is dropped only by a cancellation that found it still there, and by one for its own socket only as the job searched for |
| `WorkQueue.CancelSparesOthers` | src/ot_mutex.c:176-191 | a cancellation leaves the jobs of other sockets alone if and only if the first job still there belongs to the socket |
| `WorkQueue.CancelCounterexample` | src/ot_mutex.c:176-191 | a run in which cancelling for socket 2 drops the job of socket 1 |
| `WorkQueue.CutOff` | src/ot_mutex.c:176-191 | moving the head of the list past the entry found drops exactly the jobs up to it, and the list still shows the jobs that are left |
| `WorkQueue.DeliveryAnswersPush` | src/ot_mutex.c:289-318 | every delivery goes to the socket of the push it answers, with the last result given for the job, and without any only if it was pushed as done |
| `WorkQueue.AnswerFollowsPop` | src/ot_mutex.c:259-287 | a result given under a task id is for the one job that was popped with that id |
| `WorkQueue.HappensNumbered` | src/ot_mutex.c:214-218 | every call keeps task ids different and not above the last one |
| `WorkQueue.ClassIs` | src/ot_mutex.c:211 | the class of a type is its third hexadecimal digit, whatever the digits before and behind |
| `WorkQueue.PushAndPop` | src/ot_mutex.c:130-233 | a task of any type, just pushed, can be popped by its class, whatever its other digits, and comes back unchanged if none of the class waited before |
| `WorkQueue.Queue.PushTask` | src/ot_mutex.c:130-166 | adds a job, or nothing without memory |
| `WorkQueue.Queue.PopTask` | src/ot_mutex.c:199-233 | assigns a new id to the earliest entry of the class without one, or finds none; classes are those of WorkQueue.ClassIs |
| `WorkQueue.Queue.PushResult` | src/ot_mutex.c:259-287 | records the result for the first entry with the id, or -1 exactly if no such entry is there |
| `WorkQueue.Queue.PopResult` | src/ot_mutex.c:289-318 | takes out the earliest finished entry with its socket and result, or finds none |
| `WorkQueue.Queue.CancelTask` | src/ot_mutex.c:168-197 | drops every job up to the first one of the socket, all if there is none; the list is the one without the cancelled entry exactly if that entry was the first or the list empty |
| `JsonPrint.EscapedLength` | src/cJSON.c:220 | the length computed is that of the escaped text |
| `JsonPrint.PutEscape` | src/cJSON.c:229-244 | writes the escape of one character |
| `JsonPrint.PrintString` | src/cJSON.c:215-248 | the text of a string, in a buffer of the computed length |
| `JsonPrint.PrintNumber` | src/cJSON.c:118-138 | the decimal text of an int, within 21 characters |
| `JsonPrint.ComposeArray` | src/cJSON.c:389-402 | the buffer computed for an array is enough, and holds the entries with separators |
| `JsonPrint.PrintArray` | src/cJSON.c:348-403 | the text of an array |
| `JsonPrint.ComposeObject` | src/cJSON.c:489-506 | the buffer computed for an object is enough, and holds its text |
| `JsonPrint.EmptyObject` | src/cJSON.c:451-459 | the text of an empty object, within the computed length |
| `JsonPrint.PrintObject` | src/cJSON.c:442-507 | the text of an object |
| `JsonPrint.PrintValue` | src/cJSON.c:302-317 | the text of a value at a depth in a format, whenever memory is there |
| `JsonLayout.FormatUnformatted` | src/cJSON.c:302-507 | a formatter that goes over a text once, with a stack of open brackets, makes the print with format of the print without: members on lines of their own behind as many tabs as brackets are open, items on one line with blanks between them, the closing brace one tab to the left, two for an empty object |
| `JsonLayout.TabsAre` | src/cJSON.c:494 | the indentation is made of that many tabs |
| `JsonRoundTrip.StringRead` | src/cJSON.c:155-212 | a string's text parses to the string |
| `JsonRoundTrip.NumberRead` | src/cJSON.c:96-115 | an integer's text parses to the integer |
| `JsonRoundTrip.ArrayRead` | src/cJSON.c:320-345 | an array's text parses to the array |
| `JsonRoundTrip.ObjectRead` | src/cJSON.c:406-439 | an object's text parses to the object |
| `JsonRoundTrip.ParsePrint` | src/cJSON.c:264-317 | for every printable value and either format, parsing the text gives the value and leaves nothing |
| `JsonBuffer.WritesCounted` | src/cJSON.c:160-207 | if the second pass does not jump over the end of the first, it writes no more than was counted |
| `JsonBuffer.ContainedIff` | src/cJSON.c:155-212 | a literal is parsed within bounds, whatever follows it, if and only if the second pass does not jump over the quote that ends the first |
| `JsonBuffer.UnclosedContained` | src/cJSON.c:155-212 | a literal that the text breaks off is parsed within bounds if and only if the second pass stays within the text |
| `JsonBuffer.JumpCounterexample` | src/cJSON.c:160-207 | the text of an escape with u, a quote, abcdef and a quote is parsed out of bounds |
| `JsonBuffer.LiteralAtEnd` | src/cJSON.c:160 | so is every literal that the text breaks off right behind a backslash |
| `JsonBuffer.WellEscapedIsContained` | src/cJSON.c:264-278 | every text in whose literals each backslash has a character after it, and each \u four more that are neither quotes nor backslashes, is parsed within bounds |
| `JsonUnicode.ScalarRead` | src/cJSON.c:179-201 | the escape of every code point, single or as a surrogate pair, in digits of either case, is read as its UTF-8 bytes |
| `JsonUnicode.EscapeOfRead` | src/cJSON.c:179-201 | the escape written for a code point is read as its UTF-8 bytes, whatever follows |
| `JsonUnicode.Utf8RoundTrip` | src/cJSON.c:192-200 | the code point can be told from its bytes, whatever follows |
| `JsonUnicode.EscapesDiffer` | src/cJSON.c:179-201 | escapes of different code points are read as different strings |
| `JsonUnicode.PlainRead` | src/cJSON.c:172-202 | a backslash with b, f, n, r or t is read as code point 8, 12, 10, 13 or 9; with every other character but u as that character |
| `JsonUnicode.UnescapedRead` | src/cJSON.c:168 | every character but a quote and a backslash stands for itself |
| `JsonUnicode.LiteralRead` | src/cJSON.c:155-212 | every literal of characters, such escapes and escaped code points is read as their meanings one after the other, whatever follows it |
| `JsonParser.SkipBlanks` | src/cJSON.c:261 | the loop skips what the grammar skips |
| `JsonParser.ParseNumber` | src/cJSON.c:96-115 | for every text the result is that of the grammar function, in unbounded decimal numbers |
| `JsonNumbers.NumeralRead` | src/cJSON.c:96-115 | a sign, digits, a fraction and an exponent with either letter and sign are read as the number they spell, and reading stops there |
| `JsonParser.CountChars` | src/cJSON.c:160 | the first pass counts characters and escapes, and reads beyond the terminator exactly if a backslash stands before it |
| `JsonParser.ReadHex` | src/cJSON.c:140-151 | four hexadecimal digits, read one by one and never beyond the terminator, 0 if one is none |
| `JsonParser.ReadCode` | src/cJSON.c:180-190 | the code point of an escape or of a surrogate pair, none if it is no character |
| `JsonParser.PutUtf8` | src/cJSON.c:192-200 | writes the UTF-8 bytes of a code point, last one first, exactly if they fit |
| `JsonParser.FillChars` | src/cJSON.c:165-207 | the second pass fills the buffer with the string and its terminator exactly if it stays within text and buffer; the string is what JsonUnicode.LiteralRead says for a literal in any mixture of escapes |
| `JsonParser.ParseString` | src/cJSON.c:155-212 | for every text, both passes with every access to text and buffer: the result is that of the grammar function, Overrun exactly if an access is out of bounds, or failure without memory |
| `JsonParser.ParseArray` | src/cJSON.c:320-345 | for every text the loop finds the items the grammar gives, or Overrun where it says so |
| `JsonParser.ParseObject` | src/cJSON.c:406-439 | for every text the loop finds the members the grammar gives, or Overrun where it says so |
| `JsonParser.ParseValue` | src/cJSON.c:287-299 | for every text the result is that of the grammar function, Overrun included |
| `JsonParser.ParseWithOpts` | src/cJSON.c:264-278 | the whole parse, with or without the demand that nothing follows; no access is out of bounds if in every literal each backslash has a character after it and each \u four more that are neither quotes nor backslashes |
| `JsonParser.PrintAndParse` | src/cJSON.c:264-317 | the printing method followed by the parsing method gives back the value |
| `JsonMinify.ShrinkText` | src/cJSON.c:581-596 | wherever a formatted text stands, minifying leaves the unformatted one of it |
| `JsonMinify.MinifyFormatted` | src/cJSON.c:581-596 | minifying the formatted text of a value gives its unformatted text, at every depth |
| `JsonComments.PiecesMinified` | src/cJSON.c:581-596 | of every text made of literals, other characters, white space, line comments and block comments exactly the white space and the comments go |
| `JsonComments.SlashClosesComment` | src/cJSON.c:591 | a slash right behind the star that opens a comment closes it |
| `JsonComments.CommentCounterexample` | src/cJSON.c:591 | so a comment with the text /1 is not removed but leaves its end |
| `JsonMinifier.Minify` | src/cJSON.c:581-596 | the in-place loop leaves exactly the minified text, terminated, if and only if every string literal and comment ends; else it runs beyond the terminator |
| `JsonMinifier.UnclosedExamples` | src/cJSON.c:591-592 | a quote alone and an opened comment are such texts |
| `JsonMinifier.TextNulFree` | src/cJSON.c:302-317 | no print holds a terminator |
| `JsonMinifier.PrintAndMinify` | src/cJSON.c:581-596 | the formatting printer followed by the minifier gives the print without format |
| `ProxyStream.RunSplit` | src/proxy.c:770-819 | bytes that come later are taken up where the earlier ones left off |
| `ProxyDecoder.ProcessIsRun` | src/proxy.c:770-814 | without empty packets one call takes step after step as far as the bytes go |
| `ProxyDecoder.EmptyPacketCounterexample` | src/proxy.c:777-788 | with an empty packet the result depends on where the stream is cut |
| `ProxyDecoder.ReadCount` | src/proxy.c:797-800 | reads the number of peers in groups of seven bits; an int can do all the shifts exactly if there are at most four groups, or five of which the last is below 8 |
| `ProxyDecoder.FindTorrent` | src/proxy.c:787-807 | finds a torrent exactly if it is complete with all its peers |
| `ProxyDecoder.TellPeers` | src/proxy.c:809-812 | passes on the peers of a torrent in order |
| `ProxyDecoder.TakeAll` | src/proxy.c:775-814 | the loop does what is specified for a call, for all bytes and states |
| `ProxyDecoder.Connection.ProcessIndata` | src/proxy.c:770-819 | tells what the bytes give and keeps exactly the bytes not used |
| `ProxyDecoder.Connection.Receive` | src/proxy.c:403-410 | whatever the chunks, peers told, packet state and bytes kept are those of the whole stream |
| `ProxyCodec.VarRoundTrip` | src/proxy.c:682-689 | a number written in groups of seven bits is read back |
| `ProxyCodec.VarSpells` | src/proxy.c:682-690 | the groups spell the number in base 128 with the lowest first; all but the last have the high bit |
| `ProxyCodec.HeaderIs` | src/proxy.c:633-662 | a header is type, prefix and the number of torrents, high byte first, both as read and as written |
| `ProxyCodec.WrittenInFour` | src/proxy.c:682-690 | the numbers that are written are read in at most four groups |
| `ProxyCodec.RecordRead` | src/proxy.c:787-807 | a torrent is found where it was written if at least one byte follows |
| `ProxyCodec.BlockRead` | src/proxy.c:633-662 | a packet decodes to the pairs of its torrents, and then what follows |
| `ProxyBucket.SentIsAll` | src/proxy.c:664-699 | the three packets together hold each pair of the bucket exactly as often as the bucket does |
| `ProxyBucket.DecodeEncode` | src/proxy.c:607-814 | for every bucket without an empty packet, its encoding and anything after it decode to exactly the pairs of the bucket and then what comes after |
| `ProxyEmpty.DecodableIff` | src/proxy.c:631-650 | decoding gives back the bucket, whatever follows, if and only if no packet is empty |
| `ProxyEmpty.NotDecodable` | src/proxy.c:631-650 | for every bucket with an empty packet, something to follow it that breaks the decoding |
| `ProxyEncoder.CountTorrents` | src/proxy.c:609-625 | counts torrents by population, and the memory asked for is what the torrents take at most |
| `ProxyEncoder.CountBytes` | src/proxy.c:682-689 | the number of peers in groups of seven bits |
| `ProxyEncoder.BodyBytes` | src/proxy.c:677-697 | the bytes of one torrent |
| `ProxyEncoder.PicksFit` | src/proxy.c:622-624 | all torrents in their packets take no more than was asked for them |
| `ProxyEncoder.EncodeBucket` | src/proxy.c:595-711 | filling the three packets in one block, within the memory asked for, gives the encoding of the bucket |
| `ProxyRoundTrip.SendBucket` | src/proxy.c:595-819 | a bucket without an empty packet, encoded, sent in pieces of any size and followed by one more byte, is told as exactly its pairs, unless a torrent does not fit into the buffer of the other side |
| `DnsNames.NamesUnique` | libowfat/dns/dns_packet.c:35-82 | a packet has at most one name at a place |
| `DnsNames.ScanIsName` | libowfat/dns/dns_packet.c:35-82 | the bytewise scan finds a name exactly if the packet has that name there, it has at most 255 bytes, and bytes and pointers together are fewer than 1000 |
| `DnsNames.ScanWellFormed` | libowfat/dns/dns_packet.c:35-82 | what is found is a sequence of labels under 64 bytes with a terminator, at most 255 bytes in all |
| `DnsHosts.TargetIs` | libowfat/dns/dns_packet.c:57-61 | a pointer has fourteen bits |
| `DnsHosts.SkipIs` | libowfat/dns/dns_packet.c:18-33 | a name without pointers ends after as many bytes as it has; one with pointers, two bytes after the place of the first |
| `DnsHosts.SkipFollows` | libowfat/dns/dns_packet.c:18-33 | for every packet and place, skipping goes from label to label until a byte that is no length of one; it ends behind a zero or a pointer there, and gives 0 for anything else |
| `DnsPacket.PacketCopy` | libowfat/dns/dns_packet.c:8-16 | copies exactly if the packet is long enough |
| `DnsPacket.SkipName` | libowfat/dns/dns_packet.c:18-33 | the place after a name, 0 if it does not end |
| `DnsPacket.FollowPointers` | libowfat/dns/dns_packet.c:56-66 | following pointers ends and keeps what there is to be found |
| `DnsPacket.GetName` | libowfat/dns/dns_packet.c:35-82 | for every packet and place it ends; with memory for the copy it finds the name exactly if there is one that is not too long, without it none |
| `DnsPacket.DomainLength` | libowfat/dns/dns_domain.c:6-15 | the length of the name at the front of a buffer |
| `DnsPacket.DomainCopy` | libowfat/dns/dns_domain.c:25-37 | the copy is the name; none without memory |
| `DnsPacket.CaseDiff` | libowfat/case/case_diffb.c:3-20 | 0 exactly if the bytes agree but for case |
| `DnsPacket.DomainEqual` | libowfat/dns/dns_domain.c:39-48 | equal exactly if the names agree but for case |
| `DnsText.ToDotCat` | libowfat/dns/dns_dtda.c:4-35 | appends the text of the name; if memory runs out, a part of it from the front |
| `DnsText.ReadDot` | libowfat/dns/dns_dfd.c:6-68 | for every text, the name it stands for, or nothing if a label or the name gets too long or without memory |
| `DnsHosts.HostRead` | libowfat/dns/dns_dfd.c:6-68 | labels joined by dots, with or without a dot at the end, are read as each label behind its length and a terminator, case kept, exactly if no label has more than 63 bytes and the name no more than 255 |
| `DnsHosts.RawRead` | libowfat/dns/dns_dfd.c:47-48 | every byte but a dot and a backslash stands for itself, unless the label has 63 |
| `DnsHosts.QuotedRead` | libowfat/dns/dns_dfd.c:30-48 | a backslash and a byte that is no octal digit are read as that byte |
| `DnsHosts.OctalRead` | libowfat/dns/dns_dfd.c:33-44 | a backslash and one to three octal digits are read as their number modulo 256 |
| `DnsHosts.ByteTextIs` | libowfat/dns/dns_dtda.c:4-35 | letters are written in lower case, digits, hyphens and underscores as they are, all else as a backslash and three octal digits of its number |
| `DnsHosts.WireOfLabels` | libowfat/dns/dns_domain.c:6-15 | every well-formed name consists of its labels, each behind its length |
| `DnsHosts.NameText` | libowfat/dns/dns_dtda.c:4-35 | a name is written as the texts of its labels with dots between them, the root as a dot |
| `DnsHosts.HostText` | libowfat/dns/dns_dtda.c:4-35 | a host name is written as its labels in lower case |
| `DnsText.DotRoundTrip` | libowfat/dns/dns_dfd.c:6-68 | for every well-formed name, reading its text gives the name in lower case |
| `DnsText.WriteAndRead` | libowfat/dns/dns_domain.c:39-48 | for every well-formed name, writing it as text and reading that gives an equal name |
| `HeaderScan.StateTells` | src/opentracker.c:147-151 | the state byte tells exactly whether an empty line ends here |
| `HeaderScan.ScanBreaks` | src/opentracker.c:143-152 | the inner loop finds the first end within a run of line breaks |
| `HeaderScan.HeaderComplete` | src/opentracker.c:138-154 | probing every second byte still finds the earliest end of an empty line, and 0 exactly if there is none |
| `NetworkTrie.CountIncreased` | src/ot_stats.c:94-111 | counting an address raises by one exactly the counts of the prefixes it has |
| `NetworkWalk.Increase` | src/ot_stats.c:94-111 | counts the address, or nothing at all without memory |
| `NetworkWalk.IncreaseAll` | src/ot_stats.c:239-241 | after any list of addresses every count is the number of addresses with the prefix |
| `NetworkWalk.AddressIs` | src/ot_stats.c:70-84 | an address is counted by its first 28 bits, as seven digits of four bits, the highest first |
| `NetworkStats.EntriesComplete` | src/ot_stats.c:133-186 | the walk meets exactly the networks that have addresses, with their counts |
| `NetworkStats.ShiftRanks` | src/ot_stats.c:174-182 | putting a score in its place keeps the list ascending, without repetition, and nothing outside it higher than anything inside |
| `NetworkWalk.ShiftIn` | src/ot_stats.c:179-182 | moves the lower entries down by one and puts the new one |
| `NetworkWalk.FindPlace` | src/ot_stats.c:176-177 | the place where a score belongs |
| `NetworkWalk.Add` | src/ot_stats.c:148-158 | the sum of all counters below a node |
| `NetworkWalk.GetHighscores` | src/ot_stats.c:133-186 | returns the total below a node and ranks its networks with those ranked before |
| `NetworkWalk.BusyNetworks` | src/ot_stats.c:188-199 | after any addresses: the total is their number, and the scores are the highest counts in ascending order, each with a different prefix that has that count |

## Left out

- Sockets, epoll, sendfile, mapping of files, signals, configuration and privileges: input and output only.
- HTTP and UDP request parsing, bencoded replies and the formatting of statistics: text assembly around the numbers and peers modelled.
- Access lists, full scrapes, live sync packets and the statistics not named above: they would add only easy members.
- `src/ot_rijndael.c`: fixed tables.
- Floating-point numbers of cJSON: a number is a mantissa and a decimal exponent, printing is modelled for ints only, and rounding is not modelled.
- cJSON trees are values with linked lists of children: nodes, their `prev` pointers, references and deletion are not modelled.
- JsonParser.ParseNumber: mantissa and exponent are unbounded numbers: rounding of doubles and overflow of the exponent's `int` are not modelled.
- Lengths in `print_array` and `print_object` are unbounded numbers: overflow of `int` is not modelled.
- Crit-bit nodes count bytes without bound: strings of 2^32 bytes and more, and the freeing of nodes, are not modelled; `critbit0_clear` is left out.
- `cdb_read` without a mapping, `cdb_successor` and errors of writing are left out.
- Vectors are value structures within the peer list, so that aliasing of their blocks is not modelled; only the cleaning pass works on an array.
- PeerVector.FindOrInsert: the bytes left in a new slot are those moved, as the original leaves them, until the caller fills it.
- PeerSelection.ReturnPeersSelection: a slot of the reply is one record of six bytes, and the header of a reply is left out.
- Vectors of torrents are modelled one torrent at a time, with the number of torrents in the lock model; `trackerlogic_deinit` is left out.
- BucketLocks.RunIsSafe: what a thread does with a bucket it holds is reduced to adding, taking back, counting and removing torrents.
- Fairness of the scheduler is not modelled: a waiting thread may be passed over for ever, but it can always still be served.
- WorkQueue.Queue.PushTask: the list is a sequence; freeing and unmapping are left out, and task ids are unbounded.
- `mutex_workqueue_pushsuccess` is left out: nothing calls it, and it searches as `mutex_workqueue_canceltask` does.
- ProxyDecoder.ReadCount: where an `int` cannot do a shift, which is told, the number goes on unbounded, while C leaves it open.
- ProxyDecoder.Connection.Receive: streams with empty packets are excluded here and treated in ProxyEmpty.
- The outgoing buffer of `livesync_proxytell` and reconnection are left out.
- ProxyEncoder.EncodeBucket: freeing the bucket after it is encoded is left out.
- DNS positions are unbounded numbers: wrap-around of 32-bit positions is not modelled.
- NetworkWalk.Increase: the trie is a value, so that update in place through pointers is not modelled; `stats_shift_down_network_count` and the wider IPv6 trie are left out.
- NetworkWalk.ShiftIn: the original copies overlapping memory with `memcpy`, whose result C leaves open; it is modelled as a copy from the front.
