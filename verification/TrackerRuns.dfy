/**
  Whole runs of announces, stops and visits on one torrent, against a specification that only
  looks at the history of events.
 */
module TrackerRuns {
  import opened PeerTheory
  import opened PeerBuckets
  import opened PeerList

  /** A visit is a scrape or a pass of the cleaning thread. An announce that is not ok failed for lack of memory. */
  datatype Event =
    | Announce(now: int, key: nat, flags: Flags, ok: bool)
    | Stop(key: nat)
    | Visit(now: int)

  /** What should be known about key k after a history. */
  ghost function Expected(h: seq<Event>, k: nat): Option<Seen> {
    if h == [] then None
    else
      var before := Expected(h[..|h| - 1], k);
      match h[|h| - 1]
      case Announce(now, key, flags, ok) =>
        var was := Fresh(before, now);
        if ok && k == key then Some(Seen(MergedSeen(flags, was), now)) else was
      case Stop(key) => if k == key then None else before
      case Visit(now) => Fresh(before, now)
  }

  // ---------------------------------------------------------------------------------------
  // What that means in terms of single events

  predicate Heard(e: Event, k: nat) {
    e.Announce? && e.ok && e.key == k
  }

  /** The event does not end the stay of a peer with key k last heard of at minute t. */
  predicate Keeps(e: Event, k: nat, t: int) {
    match e
    case Announce(now, key, _, ok) => !(ok && key == k) && now - t < 45
    case Stop(key) => key != k
    case Visit(now) => now - t < 45
  }

  /** Event i is the last word of peer k, and nothing since has removed it. */
  ghost predicate Stays(h: seq<Event>, k: nat, i: nat) {
    i < |h| && Heard(h[i], k) && forall j :: i < j < |h| ==> Keeps(h[j], k, h[i].now)
  }

  /**
    A peer is stored exactly if its last announce is followed by no stop of it and by nothing
    that touches the torrent 45 minutes later; its recorded minute is that of this announce.
   */
  lemma {:induction false} StoredSinceLastAnnounce(h: seq<Event>, k: nat)
    ensures Expected(h, k).Some? <==> exists i: nat :: Stays(h, k, i)
    ensures forall i: nat :: Stays(h, k, i) ==>
              && Expected(h, k).Some? && Expected(h, k).value.last == h[i].now
              && Expected(h, k).value.flags.seeding == h[i].flags.seeding && Expected(h, k).value.flags.stopped == h[i].flags.stopped
  {
    if h != [] {
      var init, e := h[..|h| - 1], h[|h| - 1];
      StoredSinceLastAnnounce(init, k);
      forall i: nat | Stays(h, k, i)
        ensures Expected(h, k).Some? && Expected(h, k).value.last == h[i].now
        ensures Expected(h, k).value.flags.seeding == h[i].flags.seeding && Expected(h, k).value.flags.stopped == h[i].flags.stopped
      {
        StaysBefore(h, k, i);
      }
      if Expected(h, k).Some? {
        var i := WitnessStays(h, k);
      }
    }
  }

  lemma StaysBefore(h: seq<Event>, k: nat, i: nat)
    requires Stays(h, k, i)
    ensures i < |h| - 1 ==> Stays(h[..|h| - 1], k, i) && h[..|h| - 1][i] == h[i] && Keeps(h[|h| - 1], k, h[i].now)
  {
  }

  lemma WitnessStays(h: seq<Event>, k: nat) returns (i: nat)
    requires h != [] && Expected(h, k).Some?
    requires var init := h[..|h| - 1];
             (Expected(init, k).Some? ==> exists j: nat :: Stays(init, k, j)) &&
             forall j: nat :: Stays(init, k, j) ==> Expected(init, k).Some? && Expected(init, k).value.last == init[j].now
    ensures Stays(h, k, i)
  {
    var init, e := h[..|h| - 1], h[|h| - 1];
    if Heard(e, k) {
      i := |h| - 1;
    } else {
      i :| Stays(init, k, i);
      assert h == init + [e];
    }
  }

  /** The minute of the last announce of a peer. */
  ghost function LastHeard(h: seq<Event>, k: nat): int {
    if h == [] then 0
    else if Heard(h[|h| - 1], k) then h[|h| - 1].now
    else LastHeard(h[..|h| - 1], k)
  }

  /** The event does not interrupt the stay of a peer with key k last heard of at minute t; an announce in time goes on with it. */
  predicate GoesOn(e: Event, k: nat, t: int) {
    match e
    case Announce(now, _, _, _) => now - t < 45
    case Stop(key) => key != k
    case Visit(now) => now - t < 45
  }

  /** Event i is an announce of peer k, and nothing since has interrupted the peer's stay. */
  ghost predicate InStay(h: seq<Event>, k: nat, i: nat) {
    && i < |h|
    && if i == |h| - 1 then Heard(h[i], k)
       else InStay(h[..|h| - 1], k, i) && GoesOn(h[|h| - 1], k, LastHeard(h[..|h| - 1], k))
  }

  /** An announce that reports a completed download, as only a seeder can. */
  predicate Completes(e: Event) {
    e.Announce? && e.ok && e.flags.completed && e.flags.seeding
  }

  ghost predicate CompletedAt(h: seq<Event>, k: nat, i: nat) {
    InStay(h, k, i) && Completes(h[i])
  }

  /** The last event completes a download, and no earlier one of the same stay did. */
  ghost predicate FirstCompletion(h: seq<Event>)
    requires h != []
  {
    var n := |h| - 1;
    Completes(h[n]) && forall i: nat :: CompletedAt(h, h[n].key, i) ==> i == n
  }

  /** The downloads since event number born: the completions that are the first of their stay. */
  ghost function Downloads(h: seq<Event>, born: nat): nat {
    if |h| <= born then 0
    else Downloads(h[..|h| - 1], born) + if FirstCompletion(h) then 1 else 0
  }

  lemma {:induction false} LastHeardIsKnown(h: seq<Event>, k: nat)
    requires Expected(h, k).Some?
    ensures LastHeard(h, k) == Expected(h, k).value.last
  {
    if !Heard(h[|h| - 1], k) { LastHeardIsKnown(h[..|h| - 1], k); }
  }

  /** An event leaves a stay in which the peer is known exactly if what is known stays fresh. */
  lemma {:induction false} InStayIsKnown(h: seq<Event>, k: nat, i: nat)
    requires InStay(h, k, i)
    ensures Expected(h, k).Some?
  {
    if i < |h| - 1 {
      var init := h[..|h| - 1];
      InStayIsKnown(init, k, i);
      LastHeardIsKnown(init, k);
    }
  }

  /** What the events before the last one say of the stay after it. */
  lemma StayStep(h: seq<Event>, k: nat, i: nat)
    requires h != [] && i < |h| - 1
    ensures var init, e := h[..|h| - 1], h[|h| - 1];
            CompletedAt(h, k, i) <==> CompletedAt(init, k, i) && GoesOn(e, k, LastHeard(init, k)) && init[i] == h[i]
  {
  }

  /**
    A stored peer is marked as completed exactly if some announce of its present stay reported a
    completed download of a seeder.
   */
  lemma {:induction false} CompletedInStay(h: seq<Event>, k: nat)
    requires Expected(h, k).Some?
    ensures Expected(h, k).value.flags.completed <==> exists i: nat :: CompletedAt(h, k, i)
  {
    var n := |h| - 1;
    var init, e := h[..n], h[n];
    var before := Expected(init, k);
    if before.Some? {
      CompletedInStay(init, k);
      LastHeardIsKnown(init, k);
      if before.value.flags.completed && GoesOn(e, k, before.value.last) {
        var i: nat :| CompletedAt(init, k, i);
        StayStep(h, k, i);
        assert CompletedAt(h, k, i);
      }
    }
    if Heard(e, k) && e.flags.completed && e.flags.seeding { assert CompletedAt(h, k, n); }
    forall i: nat | CompletedAt(h, k, i) ensures Expected(h, k).value.flags.completed {
      if i < n {
        StayStep(h, k, i);
        InStayIsKnown(init, k, i);
      }
    }
  }

  /** An announce is the first completion of its stay exactly if the entry it meets is not marked. */
  lemma FirstIsNew(h: seq<Event>)
    requires h != [] && h[|h| - 1].Announce? && h[|h| - 1].ok
    ensures var init, e := h[..|h| - 1], h[|h| - 1];
            FirstCompletion(h) <==> NewlySeen(e.flags, Fresh(Expected(init, e.key), e.now))
  {
    var n := |h| - 1;
    var init, e := h[..n], h[n];
    var before := Expected(init, e.key);
    if before.Some? {
      CompletedInStay(init, e.key);
      LastHeardIsKnown(init, e.key);
    }
    if i: nat :| CompletedAt(init, e.key, i) && GoesOn(e, e.key, LastHeard(init, e.key)) {
      StayStep(h, e.key, i);
      InStayIsKnown(init, e.key, i);
      assert CompletedAt(h, e.key, i);
    }
    forall i: nat | CompletedAt(h, e.key, i) && i < n
      ensures CompletedAt(init, e.key, i) && GoesOn(e, e.key, LastHeard(init, e.key)) && before.Some?
    {
      StayStep(h, e.key, i);
      InStayIsKnown(init, e.key, i);
    }
  }

  // ---------------------------------------------------------------------------------------
  // One event

  /** The store stands for what the history says. */
  ghost predicate Tracks(h: seq<Event>, B: Store, base: int) {
    forall k {:trigger Get(B, k)} :: Expected(h, k) == SeenOf(Get(B, k), base)
  }

  ghost predicate Unknown(h: seq<Event>) {
    forall k :: Expected(h, k) == None
  }

  lemma Appended(h: seq<Event>, e: Event)
    ensures (h + [e])[..|h + [e]| - 1] == h && (h + [e])[|h + [e]| - 1] == e
  {
  }

  lemma AnnounceTracks(h: seq<Event>, born: nat, B: Store, base: int, R: Store, e: Event)
    requires Tracks(h, B, base) && e.Announce? && Announced(B, base, R, e.now, e.key, e.flags, e.ok) && born <= |h|
    ensures Tracks(h + [e], R, e.now)
    ensures Downloads(h + [e], born) == Downloads(h, born) +
                                        if e.ok && NewlySeen(e.flags, Fresh(SeenOf(Get(B, e.key), base), e.now)) then 1 else 0
  {
    Appended(h, e);
    if e.ok { FirstIsNew(h + [e]); }
    assert Expected(h, e.key) == SeenOf(Get(B, e.key), base);
    forall k ensures Expected(h + [e], k) == SeenOf(Get(R, k), e.now) {
      assert Expected(h, k) == SeenOf(Get(B, k), base);
    }
  }

  lemma StopTracks(h: seq<Event>, born: nat, B: Store, base: int, R: Store, key: nat)
    requires Tracks(h, B, base) && Rebinds(B, R, key, None) && born <= |h|
    ensures Tracks(h + [Stop(key)], R, base) && Downloads(h + [Stop(key)], born) == Downloads(h, born)
  {
    Appended(h, Stop(key));
    forall k ensures Expected(h + [Stop(key)], k) == SeenOf(Get(R, k), base) {
      assert Expected(h, k) == SeenOf(Get(B, k), base);
    }
  }

  lemma VisitTracks(h: seq<Event>, born: nat, B: Store, base: int, R: Store, base': int, now: int)
    requires Tracks(h, B, base) && Refreshed(B, base, R, base', now) && born <= |h|
    ensures Tracks(h + [Visit(now)], R, base') && Downloads(h + [Visit(now)], born) == Downloads(h, born)
  {
    Appended(h, Visit(now));
    forall k ensures Expected(h + [Visit(now)], k) == SeenOf(Get(R, k), base') {
      assert Expected(h, k) == SeenOf(Get(B, k), base);
    }
  }

  /** Nothing comes to be known but by an announce that succeeds. */
  lemma StaysUnknown(h: seq<Event>, e: Event)
    requires Unknown(h) && (e.Announce? ==> !e.ok)
    ensures Unknown(h + [e])
  {
    Appended(h, e);
    forall k ensures Expected(h + [e], k) == None {
      assert Expected(h, k) == None;
    }
  }

  lemma EmptyTracks(h: seq<Event>, B: Store, base: int)
    requires |Flat(B)| == 0
    ensures Tracks(h, B, base) <==> Unknown(h)
  {
    forall k ensures Get(B, k) == None {
      EmptyGet(B, k);
    }
    if Tracks(h, B, base) {
      forall k ensures Expected(h, k) == None {
        assert Expected(h, k) == SeenOf(Get(B, k), base);
      }
    }
  }

  /** Nothing that a dropped entry held was to be kept. */
  lemma DroppedUnknown(h: seq<Event>, B: Store, base: int, now: int)
    requires Tracks(h, B, base) && (|Flat(B)| == 0 || now - base > TORRENT_TIMEOUT)
    ensures Unknown(h + [Visit(now)])
  {
    if |Flat(B)| == 0 {
      EmptyTracks(h, B, base);
      StaysUnknown(h, Visit(now));
    } else {
      NeglectedIsStale(B, base, now);
      Appended(h, Visit(now));
      forall k ensures Expected(h + [Visit(now)], k) == None {
        assert Fresh(SeenOf(Get(B, k), base), now) == None;
        assert Expected(h, k) == SeenOf(Get(B, k), base);
      }
    }
  }

  // ---------------------------------------------------------------------------------------
  // The counters against the history

  /** Exactly the peers the history leaves, each once. */
  ghost predicate IsRoster(h: seq<Event>, K: seq<nat>) {
    && (forall i, j :: 0 <= i < j < |K| ==> K[i] != K[j])
    && forall k :: k in K <==> Expected(h, k).Some?
  }

  ghost function Seeders(h: seq<Event>, K: seq<nat>): nat {
    if K == [] then 0
    else
      var e := Expected(h, K[|K| - 1]);
      Seeders(h, K[..|K| - 1]) + if e.Some? && e.value.flags.seeding then 1 else 0
  }

  ghost function KeysOf(s: seq<Peer>): seq<nat> {
    seq(|s|, i requires 0 <= i < |s| => s[i].key)
  }

  lemma {:induction false} SeedersOfKeys(h: seq<Event>, s: seq<Peer>, base: int)
    requires forall p: Peer :: p in s ==> Expected(h, p.key) == SeenOf(Some(p), base)
    ensures Seeders(h, KeysOf(s)) == NumSeeding(s)
  {
    if s != [] {
      assert KeysOf(s)[..|s| - 1] == KeysOf(s[..|s| - 1]);
      SeedersOfKeys(h, s[..|s| - 1], base);
      assert s[|s| - 1] in s;
    }
  }

  lemma InRoster(B: Store, k: nat)
    ensures k in KeysOf(Flat(B)) <==> Get(B, k).Some?
  {
    if Get(B, k).Some? {
      var p := Get(B, k).value;
      var i := FindIsMember(B[BucketOf(k, |B|)], k);
      GetMember(B, p);
      var j :| 0 <= j < |Flat(B)| && Flat(B)[j] == p;
      assert KeysOf(Flat(B))[j] == k;
    }
    if k in KeysOf(Flat(B)) {
      var j :| 0 <= j < |Flat(B)| && KeysOf(Flat(B))[j] == k;
      GetMember(B, Flat(B)[j]);
    }
  }

  lemma RosterOf(h: seq<Event>, B: Store, base: int) returns (K: seq<nat>)
    requires Tracks(h, B, base)
    ensures IsRoster(h, K) && |K| == |Flat(B)| && Seeders(h, K) == NumSeeding(Flat(B))
  {
    K := KeysOf(Flat(B));
    assert forall i, j :: 0 <= i < j < |K| ==> K[i] != K[j] by {
      WellPlacedApart(B);
      FlatDistinct(B);
    }
    forall p: Peer | p in Flat(B) ensures Expected(h, p.key) == SeenOf(Some(p), base) {
      GetMember(B, p);
    }
    SeedersOfKeys(h, Flat(B), base);
    forall k: nat ensures k in K <==> Expected(h, k).Some? {
      InRoster(B, k);
      assert Expected(h, k) == SeenOf(Get(B, k), base);
    }
  }

  // ---------------------------------------------------------------------------------------
  // The machine

  /** The tracker's entry for one info hash. */
  class Torrent {
    /** Null while no entry exists. */
    var list: PeerList?
    ghost var trace: seq<Event>
    /** The number of events before the present entry was made. */
    ghost var born: nat
    /** The minute of the last announce or visit. */
    ghost var touched: int

    /** The entry is what the history says it should be. */
    ghost predicate Valid()
      reads this, list
    {
      born <= |trace| && if list == null then Unknown(trace) else Matches(list)
    }

    ghost predicate Matches(l: PeerList)
      reads this, l
    {
      && l.Valid() && Tracks(trace, l.B, l.base) && l.downCount == Downloads(trace, born)
      && l.base <= touched && (l.peerCount > 0 ==> l.base == touched)
    }

    /** The clock has not gone back, and peers have not been left alone for more than a day. */
    ghost predicate Attended(now: int)
      reads this, list
    {
      touched <= now && (list != null && list.peerCount > 0 ==> now - touched <= TORRENT_TIMEOUT)
    }

    constructor (now: int)
      ensures Valid() && list == null && trace == [] && touched == now
    {
      list, trace, born, touched := null, [], 0, now;
    }

    /** The entry of a torrent not known before; none if memory runs out. */
    method Create(now: int, memory: bool) returns (ok: bool)
      requires Valid() && list == null
      modifies this`list, this`born
      ensures memory ==> ok
      ensures if ok then list != null && fresh(list) && list.Valid() && Tracks(trace, list.B, list.base) && list.base == now &&
                         list.peerCount == 0 && list.downCount == 0 && born == |trace|
              else list == null && born == old(born)
    {
      ok := *;
      ok := ok || memory;
      if !ok { return; }
      list := new PeerList(now, 0);
      born := |trace|;
      EmptyTracks(trace, list.B, list.base);
    }

    /** The cleaning at minute now would lose the peers of a vector; `failing` are those whose block cannot be made smaller. */
    ghost predicate CleaningLoses(now: int, failing: set<nat>)
      reads this, list
    {
      list != null && list.CleaningLoses(now, failing)
    }

    /** An announce; not ok if memory runs out, gone if the cleaning lost peers. */
    method Announce(now: int, key: nat, flags: Flags, memory: bool, failing: set<nat>) returns (ok: bool, gone: bool)
      requires Valid() && Attended(now)
      modifies this, list
      ensures list == old(list) || fresh(list)
      ensures gone <==> old(CleaningLoses(now, failing))
      ensures !gone ==> Valid() && touched == now && (memory ==> ok)
      ensures trace == if gone then old(trace) else old(trace) + [Event.Announce(now, key, flags, ok)]
    {
      var isNew := list == null;
      ok, gone := true, false;
      if isNew { ok := Create(now, memory); }
      if ok {
        ok, gone := AnnounceTo(list, now, key, flags, isNew, memory, failing);
      } else {
        StaysUnknown(trace, Event.Announce(now, key, flags, false));
        trace := trace + [Event.Announce(now, key, flags, false)];
      }
      touched := now;
    }

    method AnnounceTo(l: PeerList, now: int, key: nat, flags: Flags, isNew: bool, memory: bool, failing: set<nat>)
      returns (ok: bool, gone: bool)
      requires l.Valid() && Tracks(trace, l.B, l.base) && l.downCount == Downloads(trace, born) && born <= |trace|
      requires l.base <= now && (isNew ==> l.peerCount == 0) && !Neglected(now - l.base, l.peerCount)
      modifies this`trace, l
      ensures gone <==> !isNew && old(l.CleaningLoses(now, failing))
      ensures !gone ==> l.Valid() && Tracks(trace, l.B, l.base) && l.downCount == Downloads(trace, born) && l.base == now && (memory ==> ok)
      ensures trace == if gone then old(trace) else old(trace) + [Event.Announce(now, key, flags, ok)]
    {
      ghost var B, base := l.B, l.base;
      ok, gone := l.Announce(now, key, flags, isNew, memory, failing);
      if gone { return; }
      AnnounceTracks(trace, born, B, base, l.B, Event.Announce(now, key, flags, ok));
      trace := trace + [Event.Announce(now, key, flags, ok)];
    }

    /** Taking out a key would lose the peers of its vector if the block cannot be made smaller. */
    ghost predicate RemovalShrinks(key: nat)
      requires Valid()
      reads this, list
    {
      list != null && list.RemovalShrinks(key)
    }

    /** A stopped peer; gone if other peers were lost with it. */
    method Stop(key: nat, mallocOk: bool) returns (gone: bool)
      requires Valid()
      modifies this, list
      ensures touched == old(touched) && list == old(list)
      ensures gone <==> !mallocOk && old(RemovalShrinks(key))
      ensures !gone ==> Valid()
      ensures trace == if gone then old(trace) else old(trace) + [Event.Stop(key)]
    {
      gone := false;
      if list != null {
        ghost var B := list.B;
        gone := list.RemovePeer(key, mallocOk);
        if gone { return; }
        StopTracks(trace, born, B, list.base, list.B, key);
      } else {
        StaysUnknown(trace, Event.Stop(key));
      }
      trace := trace + [Event.Stop(key)];
    }

    /** A scrape: the numbers of seeders, downloads and leechers. */
    method Scrape(now: int, memory: bool, failing: set<nat>)
      returns (complete: nat, downloaded: nat, incomplete: nat, gone: bool, ghost K: seq<nat>)
      requires Valid() && touched <= now
      modifies this, list
      ensures list == old(list) || list == null
      ensures gone <==> old(CleaningLoses(now, failing))
      ensures !gone ==> Valid() && touched == now && trace == old(trace) + [Event.Visit(now)]
      ensures !gone ==> IsRoster(trace, K) && complete == Seeders(trace, K) && complete + incomplete == |K|
      ensures !gone ==> downloaded == if list == null then 0 else Downloads(trace, born)
    {
      gone := Visit(now, memory, failing);
      if gone || list == null {
        return 0, 0, 0, gone, [];
      }
      TallyBounds(Flat(list.B));
      K := RosterOf(trace, list.B, list.base);
      return list.seedCount, list.downCount, list.peerCount - list.seedCount, gone, K;
    }

    /** A scrape, or the cleaning thread passing by: an entry that has idled out is dropped. */
    method Visit(now: int, memory: bool, failing: set<nat>) returns (gone: bool)
      requires Valid() && touched <= now
      modifies this, list
      ensures list == old(list) || list == null
      ensures gone <==> old(CleaningLoses(now, failing))
      ensures !gone ==> Valid() && touched == now
      ensures trace == if gone then old(trace) else old(trace) + [Event.Visit(now)]
    {
      gone := false;
      if list != null {
        ghost var B, base := list.B, list.base;
        var timedOut;
        timedOut, gone := list.CleanSingleTorrent(now, memory, failing);
        if gone { return; }
        if timedOut {
          DroppedUnknown(trace, B, base, now);
          list := null;
        } else {
          VisitTracks(trace, born, B, base, list.B, list.base, now);
        }
      } else {
        StaysUnknown(trace, Event.Visit(now));
      }
      trace, touched := trace + [Event.Visit(now)], now;
    }
  }

  // ---------------------------------------------------------------------------------------
  // Whole runs

  /** What is asked of an entry; `memory` says that no allocation fails on the way. */
  datatype Request =
    | ToAnnounce(now: int, key: nat, flags: Flags, memory: bool)
    | ToStop(key: nat, memory: bool)
    | ToVisit(now: int, memory: bool)

  /** An event that a request may lead to. */
  predicate Answers(e: Event, q: Request) {
    match q
    case ToAnnounce(now, key, flags, memory) => e.Announce? && e == Announce(now, key, flags, e.ok) && (memory ==> e.ok)
    case ToStop(key, _) => e == Stop(key)
    case ToVisit(now, _) => e == Visit(now)
  }

  ghost predicate MayHappen(qs: seq<Request>, h: seq<Event>) {
    |qs| == |h| && forall i :: 0 <= i < |qs| ==> Answers(h[i], qs[i])
  }

  /** The minute of the last announce or visit. */
  function LastTouch(qs: seq<Request>, start: int): int {
    if qs == [] then start
    else
      match qs[|qs| - 1]
      case ToStop(_, _) => LastTouch(qs[..|qs| - 1], start)
      case q => q.now
  }

  /** Request i does not go back in time; and if it is an announce after more than a day, no peers are left by then. */
  ghost predicate InTime(qs: seq<Request>, start: int, i: nat)
    requires i < |qs|
  {
    var touched := LastTouch(qs[..i], start);
    && (!qs[i].ToStop? ==> touched <= qs[i].now)
    && (qs[i].ToAnnounce? && qs[i].now > touched + 24 * 60 ==> forall h :: MayHappen(qs[..i], h) ==> Unknown(h))
  }

  ghost predicate Timely(qs: seq<Request>, start: int) {
    forall i: nat :: i < |qs| ==> InTime(qs, start, i)
  }

  lemma StoredIsKnown(h: seq<Event>, B: Store, base: int) returns (k: nat)
    requires Tracks(h, B, base) && |Flat(B)| > 0
    ensures Expected(h, k).Some?
  {
    k := NonEmptyGet(B);
    assert Expected(h, k) == SeenOf(Get(B, k), base);
  }

  lemma UnknownIsEmpty(h: seq<Event>, B: Store, base: int)
    requires Tracks(h, B, base) && Unknown(h)
    ensures |Flat(B)| == 0
  {
    if |Flat(B)| > 0 { var k := StoredIsKnown(h, B, base); }
  }

  lemma Attends(t: Torrent, qs: seq<Request>, start: int, i: nat)
    requires t.Valid() && i < |qs| && InTime(qs, start, i) && qs[i].ToAnnounce?
    requires MayHappen(qs[..i], t.trace) && t.touched == LastTouch(qs[..i], start)
    ensures t.Attended(qs[i].now)
  {
    if t.list != null && qs[i].now > t.touched + TORRENT_TIMEOUT {
      assert Unknown(t.trace);
      UnknownIsEmpty(t.trace, t.list.B, t.list.base);
    }
  }

  /** One request. Where memory is not assured, any allocation may fail. */
  method Answer(t: Torrent, q: Request) returns (gone: bool)
    requires t.Valid() && (!q.ToStop? ==> t.touched <= q.now) && (q.ToAnnounce? ==> t.Attended(q.now))
    modifies t, t.list
    ensures t.list == old(t.list) || t.list == null || fresh(t.list)
    ensures q.memory ==> !gone
    ensures !gone ==> t.Valid() && t.touched == (if q.ToStop? then old(t.touched) else q.now)
    ensures gone ==> t.trace == old(t.trace)
    ensures !gone ==> |t.trace| == |old(t.trace)| + 1 && t.trace[..|old(t.trace)|] == old(t.trace)
    ensures !gone ==> Answers(t.trace[|old(t.trace)|], q)
  {
    var failing: set<nat> := *;
    if q.memory { failing := {}; }
    match q {
      case ToAnnounce(now, key, flags, memory) =>
        var ok;
        ok, gone := t.Announce(now, key, flags, memory, failing);
      case ToStop(key, memory) =>
        var mallocOk: bool := *;
        gone := t.Stop(key, mallocOk || memory);
      case ToVisit(now, memory) =>
        gone := t.Visit(now, memory, failing);
    }
  }

  /**
    Runs a list of requests on a fresh entry, as far as no peers are lost to a block that cannot
    be made smaller; that is to the end if memory is assured.
   */
  method Replay(qs: seq<Request>, start: int) returns (t: Torrent, n: nat)
    requires Timely(qs, start)
    ensures n <= |qs| && (n < |qs| ==> !qs[n].memory)
    ensures fresh(t) && MayHappen(qs[..n], t.trace) && (n == |qs| ==> t.Valid())
  {
    t := new Torrent(start);
    n := 0;
    while n < |qs|
      invariant n <= |qs| && fresh(t) && (t.list == null || fresh(t.list)) && t.Valid()
      invariant MayHappen(qs[..n], t.trace) && t.touched == LastTouch(qs[..n], start)
    {
      assert InTime(qs, start, n);
      if qs[n].ToAnnounce? { Attends(t, qs, start, n); }
      ghost var before := t.trace;
      var gone := Answer(t, qs[n]);
      if gone { return; }
      assert qs[..n + 1] == qs[..n] + [qs[n]] && qs[..n + 1][..n] == qs[..n];
      assert forall i :: 0 <= i < n ==> t.trace[i] == before[i];
      n := n + 1;
    }
  }
}
