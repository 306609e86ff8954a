/**
  The queue of tasks between the front end and the workers (src/ot_mutex.c): what each call does
  to the list of tasks, and what that means for the jobs behind them over whole runs.
 */
module WorkQueue {

  const TASK_DONE: nat := 0x0f00

  /** The class bits of a task type. */
  function Class(kind: nat): nat {
    kind / 0x100 % 0x10 * 0x100
  }

  /** The class of a type does not depend on its flags, above, nor on its low byte. */
  lemma ClassIs(flags: nat, group: nat, low: nat)
    requires group < 16 && low < 0x100
    ensures Class(0x1000 * flags + 0x100 * group + low) == 0x100 * group
  {
    var kind := 0x1000 * flags + 0x100 * group + low;
    assert kind / 0x100 == 0x10 * flags + group;
  }

  datatype Option<T> = None | Some(value: T)

  // ---------------------------------------------------------------------------------------
  // Jobs

  /** Still in the list, or out of it: cancelling drops jobs. */
  datatype Fate = Live | Delivered | Dropped

  /** A task with all that ever becomes of it; id is the number handed to its worker, 0 before. */
  datatype Job<R> = Job(sock: int, kind: nat, id: nat, answer: Option<R>, fate: Fate) {
    /** Fit to be delivered. A task may also be pushed as done. */
    predicate Done() {
      answer.Some? || kind == 0x0f00
    }
  }

  /** All jobs ever pushed, in order, and the last task id given out. */
  datatype Board<R> = Board(jobs: seq<Job<R>>, last: nat)

  /** The effect of one call. Calls that find nothing have none. */
  datatype Event<R> =
    | Push(sock: int, kind: nat)
    | Pop(job: nat, id: nat)
    | Answer(job: nat, id: nat, result: R)
    | Deliver(job: nat, sock: int, answer: Option<R>)
    | Cancel(sock: int, upto: nat)

  function SetJob<R>(b: Board<R>, j: nat, job: Job<R>): Board<R>
    requires j < |b.jobs|
  {
    b.(jobs := b.jobs[j := job])
  }

  /** Drops every job before n that is still there. */
  function Cut<R>(jobs: seq<Job<R>>, n: nat): (r: seq<Job<R>>)
    ensures |r| == |jobs|
  {
    seq(|jobs|, i requires 0 <= i < |jobs| => if i < n && jobs[i].fate.Live? then jobs[i].(fate := Dropped) else jobs[i])
  }

  /** Job j is still there and belongs to the socket. */
  ghost predicate Owned<R>(b: Board<R>, sock: int, j: nat) {
    j < |b.jobs| && b.jobs[j].fate.Live? && b.jobs[j].sock == sock
  }

  /** A search for the socket ends after job n - 1, which is the first one it owns, or after all jobs. */
  ghost predicate SearchEnds<R>(b: Board<R>, sock: int, n: nat) {
    && n <= |b.jobs|
    && (forall j: nat :: j + 1 < n ==> !Owned(b, sock, j))
    && (n < |b.jobs| ==> n > 0 && Owned(b, sock, n - 1))
  }

  ghost predicate LiveAt<R>(b: Board<R>, j: nat) {
    j < |b.jobs| && b.jobs[j].fate.Live?
  }

  /** The event is possible and leads to b'. */
  ghost predicate Happens<R>(b: Board<R>, e: Event<R>, b': Board<R>) {
    match e
    case Push(sock, kind) => b' == b.(jobs := b.jobs + [Job(sock, kind, 0, None, Live)])
    case Pop(j, id) =>
      && LiveAt(b, j) && b.jobs[j].id == 0 && id == b.last + 1
      && b' == SetJob(b, j, b.jobs[j].(id := id)).(last := id)
    case Answer(j, id, result) =>
      LiveAt(b, j) && b.jobs[j].id == id && b' == SetJob(b, j, b.jobs[j].(answer := Some(result)))
    case Deliver(j, sock, answer) =>
      && LiveAt(b, j) && b.jobs[j].Done() && b.jobs[j].sock == sock && b.jobs[j].answer == answer
      && b' == SetJob(b, j, b.jobs[j].(fate := Delivered))
    case Cancel(sock, n) => SearchEnds(b, sock, n) && b' == b.(jobs := Cut(b.jobs, n))
  }

  /** Ids given out differ and are not above the last one. */
  ghost predicate Numbered<R>(b: Board<R>) {
    && b.last >= 1
    && (forall j :: 0 <= j < |b.jobs| && b.jobs[j].id != 0 ==> 1 < b.jobs[j].id <= b.last)
    && forall i, j :: 0 <= i < j < |b.jobs| && b.jobs[i].id != 0 ==> b.jobs[i].id != b.jobs[j].id
  }

  lemma CutNumbered<R>(b: Board<R>, n: nat)
    requires Numbered(b)
    ensures Numbered(b.(jobs := Cut(b.jobs, n)))
  {
  }

  lemma HappensNumbered<R>(b: Board<R>, e: Event<R>, b': Board<R>)
    requires Numbered(b) && Happens(b, e, b')
    ensures Numbered(b')
  {
    if e.Cancel? { CutNumbered(b, e.upto); }
  }

  // ---------------------------------------------------------------------------------------
  // Runs

  /** boards[i] is the state before event i. */
  ghost predicate IsRun<R>(boards: seq<Board<R>>, events: seq<Event<R>>) {
    && |boards| == |events| + 1 && boards[0] == Board([], 1)
    && forall i :: 0 <= i < |events| ==> Happens(boards[i], events[i], boards[i + 1])
  }

  /** The socket of a job, its id once given and its fate once decided never change. */
  ghost predicate Later<R>(x: Job<R>, y: Job<R>) {
    && x.sock == y.sock && x.kind == y.kind
    && (x.id != 0 ==> y.id == x.id)
    && (x.answer.Some? ==> y.answer.Some?)
    && (!x.fate.Live? ==> y == x)
  }

  ghost predicate Extends<R>(b: Board<R>, b': Board<R>) {
    |b.jobs| <= |b'.jobs| && b.last <= b'.last && forall j :: 0 <= j < |b.jobs| ==> Later(b.jobs[j], b'.jobs[j])
  }

  lemma {:induction false} RunExtends<R>(boards: seq<Board<R>>, events: seq<Event<R>>, i: nat, k: nat)
    requires IsRun(boards, events) && i <= k < |boards|
    ensures Extends(boards[i], boards[k])
  {
    if i < k {
      RunExtends(boards, events, i, k - 1);
      assert Happens(boards[k - 1], events[k - 1], boards[k - 1 + 1]);
    }
  }

  /** Task ids are never used twice, and no job goes to two workers. */
  lemma PopsDiffer<R>(boards: seq<Board<R>>, events: seq<Event<R>>, i: nat, k: nat)
    requires IsRun(boards, events) && i < k < |events| && events[i].Pop? && events[k].Pop?
    ensures events[i].id < events[k].id && events[i].job != events[k].job
  {
    assert Happens(boards[i], events[i], boards[i + 1]);
    assert Happens(boards[k], events[k], boards[k + 1]);
    RunExtends(boards, events, i + 1, k);
    var j := events[i].job;
    assert Later(boards[i + 1].jobs[j], boards[k].jobs[j]);
  }

  /** No result is delivered twice. */
  lemma DeliveriesDiffer<R>(boards: seq<Board<R>>, events: seq<Event<R>>, i: nat, k: nat)
    requires IsRun(boards, events) && i < k < |events| && events[i].Deliver? && events[k].Deliver?
    ensures events[i].job != events[k].job
  {
    assert Happens(boards[i], events[i], boards[i + 1]);
    assert Happens(boards[k], events[k], boards[k + 1]);
    RunExtends(boards, events, i + 1, k);
    var j := events[i].job;
    assert Later(boards[i + 1].jobs[j], boards[k].jobs[j]);
  }

  /** The number of pushes, and of deliveries, among the first n events. */
  ghost function Pushes<R>(events: seq<Event<R>>, n: nat): nat
    requires n <= |events|
  {
    if n == 0 then 0 else Pushes(events, n - 1) + if events[n - 1].Push? then 1 else 0
  }

  ghost function Deliveries<R>(events: seq<Event<R>>, n: nat): nat
    requires n <= |events|
  {
    if n == 0 then 0 else Deliveries(events, n - 1) + if events[n - 1].Deliver? then 1 else 0
  }

  /** How many jobs have a fate. */
  ghost function Tally<R>(jobs: seq<Job<R>>, fate: Fate): nat {
    if jobs == [] then 0 else Tally(jobs[..|jobs| - 1], fate) + if jobs[|jobs| - 1].fate == fate then 1 else 0
  }

  lemma {:induction false} TallySet<R>(jobs: seq<Job<R>>, j: nat, job: Job<R>, fate: Fate)
    requires j < |jobs|
    ensures Tally(jobs[j := job], fate) + (if jobs[j].fate == fate then 1 else 0) ==
            Tally(jobs, fate) + if job.fate == fate then 1 else 0
  {
    var n := |jobs| - 1;
    if j < n {
      assert jobs[j := job][..n] == jobs[..n][j := job];
      TallySet(jobs[..n], j, job, fate);
    } else {
      assert jobs[j := job][..n] == jobs[..n];
    }
  }

  lemma {:induction false} TallyCut<R>(jobs: seq<Job<R>>, n: nat)
    ensures Tally(Cut(jobs, n), Delivered) == Tally(jobs, Delivered)
  {
    if jobs != [] {
      var m := |jobs| - 1;
      assert Cut(jobs, n)[..m] == Cut(jobs[..m], n);
      TallyCut(jobs[..m], n);
    }
  }

  lemma {:induction false} TallyAll<R>(jobs: seq<Job<R>>)
    ensures Tally(jobs, Live) + Tally(jobs, Delivered) + Tally(jobs, Dropped) == |jobs|
  {
    if jobs != [] { TallyAll(jobs[..|jobs| - 1]); }
  }

  /** What one event does to the numbers of jobs and of deliveries. */
  lemma HappensCounts<R>(b: Board<R>, e: Event<R>, b': Board<R>)
    requires Happens(b, e, b')
    ensures |b'.jobs| == |b.jobs| + if e.Push? then 1 else 0
    ensures Tally(b'.jobs, Delivered) == Tally(b.jobs, Delivered) + if e.Deliver? then 1 else 0
  {
    match e
    case Push(_, _) => assert b'.jobs[..|b.jobs|] == b.jobs;
    case Cancel(_, n) => TallyCut(b.jobs, n);
    case _ => TallySet(b.jobs, e.job, b'.jobs[e.job], Delivered);
  }

  lemma {:induction false} RunCounts<R>(boards: seq<Board<R>>, events: seq<Event<R>>, n: nat)
    requires IsRun(boards, events) && n <= |events|
    ensures |boards[n].jobs| == Pushes(events, n) && Tally(boards[n].jobs, Delivered) == Deliveries(events, n)
  {
    if n > 0 {
      RunCounts(boards, events, n - 1);
      HappensCounts(boards[n - 1], events[n - 1], boards[n - 1 + 1]);
    }
  }

  /** Conservation: what was pushed is in the list, or has been delivered, or was dropped. */
  lemma NothingLost<R>(boards: seq<Board<R>>, events: seq<Event<R>>, n: nat)
    requires IsRun(boards, events) && n <= |events|
    ensures Tally(boards[n].jobs, Live) + Deliveries(events, n) + Tally(boards[n].jobs, Dropped) == Pushes(events, n)
    ensures (forall i :: 0 <= i < n ==> !events[i].Cancel?) ==> Tally(boards[n].jobs, Dropped) == 0
  {
    RunCounts(boards, events, n);
    TallyAll(boards[n].jobs);
    if Tally(boards[n].jobs, Dropped) > 0 {
      var j := DroppedOne(boards[n].jobs);
      var c := DroppedByCancel(boards, events, n, j);
    }
  }

  lemma {:induction false} DroppedOne<R>(jobs: seq<Job<R>>) returns (j: nat)
    requires Tally(jobs, Dropped) > 0
    ensures j < |jobs| && jobs[j].fate.Dropped?
  {
    j := |jobs| - 1;
    if !jobs[j].fate.Dropped? { j := DroppedOne(jobs[..j]); }
  }

  /** A job that is there was pushed, with the socket and the type it has. */
  lemma {:induction false} JobWasPushed<R>(boards: seq<Board<R>>, events: seq<Event<R>>, k: nat, j: nat) returns (p: nat)
    requires IsRun(boards, events) && k <= |events| && j < |boards[k].jobs|
    ensures p < k && events[p] == Push(boards[k].jobs[j].sock, boards[k].jobs[j].kind) && Pushes(events, p) == j
  {
    assert k > 0;
    assert Happens(boards[k - 1], events[k - 1], boards[k - 1 + 1]);
    if j < |boards[k - 1].jobs| {
      p := JobWasPushed(boards, events, k - 1, j);
    } else {
      RunCounts(boards, events, k - 1);
      p := k - 1;
    }
  }

  lemma {:induction false} JobWasPopped<R>(boards: seq<Board<R>>, events: seq<Event<R>>, k: nat, j: nat) returns (q: nat)
    requires IsRun(boards, events) && k <= |events| && j < |boards[k].jobs| && boards[k].jobs[j].id != 0
    ensures q < k && events[q] == Pop(j, boards[k].jobs[j].id)
  {
    assert k > 0;
    assert Happens(boards[k - 1], events[k - 1], boards[k - 1 + 1]);
    if j < |boards[k - 1].jobs| && boards[k - 1].jobs[j].id != 0 {
      q := JobWasPopped(boards, events, k - 1, j);
    } else {
      q := k - 1;
    }
  }

  /** The result of a job is the last one given for it. */
  lemma {:induction false} JobWasAnswered<R>(boards: seq<Board<R>>, events: seq<Event<R>>, k: nat, j: nat) returns (a: nat)
    requires IsRun(boards, events) && k <= |events| && j < |boards[k].jobs| && boards[k].jobs[j].answer.Some?
    ensures a < k && events[a].Answer? && events[a].job == j && events[a].result == boards[k].jobs[j].answer.value
    ensures forall i :: a < i < k ==> !(events[i].Answer? && events[i].job == j)
  {
    assert k > 0;
    assert Happens(boards[k - 1], events[k - 1], boards[k - 1 + 1]);
    if events[k - 1].Answer? && events[k - 1].job == j {
      a := k - 1;
    } else {
      a := JobWasAnswered(boards, events, k - 1, j);
    }
  }

  /**
    Every delivery answers one push: it goes to the socket of that push, with the last result
    given for the job, and without any only if it was pushed as done.
   */
  lemma DeliveryAnswersPush<R>(boards: seq<Board<R>>, events: seq<Event<R>>, d: nat) returns (p: nat, a: nat)
    requires IsRun(boards, events) && d < |events| && events[d].Deliver?
    ensures p < d && events[p].Push? && Pushes(events, p) == events[d].job && events[p].sock == events[d].sock
    ensures events[d].answer.None? ==> events[p].kind == TASK_DONE
    ensures events[d].answer.Some? ==>
              && a < d && events[a].Answer? && events[a].job == events[d].job && events[a].result == events[d].answer.value
              && forall i :: a < i < d ==> !(events[i].Answer? && events[i].job == events[d].job)
  {
    assert Happens(boards[d], events[d], boards[d + 1]);
    p := JobWasPushed(boards, events, d, events[d].job);
    a := 0;
    if events[d].answer.Some? { a := JobWasAnswered(boards, events, d, events[d].job); }
  }

  /** A result given under a task id is for the one job that was popped with that id. */
  lemma AnswerFollowsPop<R>(boards: seq<Board<R>>, events: seq<Event<R>>, a: nat) returns (q: nat)
    requires IsRun(boards, events) && a < |events| && events[a].Answer? && events[a].id != 0
    ensures q < a && events[q] == Pop(events[a].job, events[a].id)
    ensures forall i :: 0 <= i < |events| && events[i].Pop? && events[i].id == events[a].id ==> i == q
  {
    assert Happens(boards[a], events[a], boards[a + 1]);
    q := JobWasPopped(boards, events, a, events[a].job);
    forall i | 0 <= i < |events| && events[i].Pop? && events[i].id == events[a].id ensures i == q {
      if i < q { PopsDiffer(boards, events, i, q); }
      if i > q { PopsDiffer(boards, events, q, i); }
    }
  }

  /** Job j is the first one still there. */
  ghost predicate Front<R>(b: Board<R>, j: nat) {
    LiveAt(b, j) && forall i :: 0 <= i < j ==> !b.jobs[i].fate.Live?
  }

  lemma {:induction false} FrontExists<R>(b: Board<R>, j: nat) returns (f: nat)
    requires LiveAt(b, j)
    ensures f <= j && Front(b, f)
  {
    if i :| 0 <= i < j && b.jobs[i].fate.Live? {
      f := FrontExists(b, i);
    } else {
      f := j;
    }
  }

  /**
    Cancelling for a socket leaves the jobs of all other sockets alone if and only if the first
    job still there, if any, belongs to the socket.
   */
  lemma CancelSparesOthers<R>(b: Board<R>, sock: int, n: nat, b': Board<R>)
    requires Happens(b, Cancel(sock, n), b')
    ensures (forall j :: 0 <= j < |b.jobs| && b.jobs[j].sock != sock ==> b'.jobs[j] == b.jobs[j])
       <==> (forall f: nat :: Front(b, f) ==> b.jobs[f].sock == sock)
  {
    forall j | 0 <= j < |b.jobs| && b.jobs[j].sock != sock && b'.jobs[j] != b.jobs[j]
      ensures exists f: nat :: Front(b, f) && b.jobs[f].sock != sock
    {
      var f := FrontExists(b, j);
      assert f + 1 < n ==> !Owned(b, sock, f);
    }
    forall f: nat | Front(b, f) && b.jobs[f].sock != sock ensures b'.jobs[f] != b.jobs[f] {
      assert n < |b.jobs| ==> Owned(b, sock, n - 1);
    }
  }

  /** Pushes for sockets 1 and 2, then the cancellation for 2: the job of socket 1 is dropped too. */
  lemma CancelCounterexample<R>() returns (boards: seq<Board<R>>, events: seq<Event<R>>)
    ensures IsRun(boards, events) && events == [Push(1, 0x100), Push(2, 0x100), Cancel(2, 2)]
    ensures boards[3].jobs == [Job(1, 0x100, 0, None, Dropped), Job(2, 0x100, 0, None, Dropped)]
  {
    var first, second := Job(1, 0x100, 0, Option<R>.None, Live), Job(2, 0x100, 0, Option<R>.None, Live);
    var both := Board([first, second], 1);
    boards := [Board([], 1), Board([first], 1), both, both.(jobs := Cut(both.jobs, 2))];
    events := [Push(1, 0x100), Push(2, 0x100), Cancel(2, 2)];
    assert !Owned(both, 2, 0);
  }

  /** A job is dropped only by a cancellation, and if that was for its own socket, then as the job searched for. */
  lemma {:induction false} DroppedByCancel<R>(boards: seq<Board<R>>, events: seq<Event<R>>, k: nat, j: nat) returns (c: nat)
    requires IsRun(boards, events) && k <= |events| && j < |boards[k].jobs| && boards[k].jobs[j].fate.Dropped?
    ensures c < k && events[c].Cancel? && j < events[c].upto && LiveAt(boards[c], j)
    ensures boards[k].jobs[j].sock == events[c].sock ==> events[c].upto == j + 1
  {
    assert k > 0;
    assert Happens(boards[k - 1], events[k - 1], boards[k - 1 + 1]);
    if j < |boards[k - 1].jobs| && boards[k - 1].jobs[j].fate.Dropped? {
      c := DroppedByCancel(boards, events, k - 1, j);
    } else {
      c := k - 1;
      assert j + 1 < events[c].upto ==> !Owned(boards[c], events[c].sock, j);
    }
  }

  // ---------------------------------------------------------------------------------------
  // The list of tasks

  /** An entry of the list; id 0 means that no worker has it yet. */
  datatype Task<R> = Task(id: nat, kind: nat, sock: int, result: Option<R>)

  /** The entry of a job. A result makes its type that of a task that is done. */
  ghost function EntryOf<R>(job: Job<R>): Task<R> {
    Task(job.id, if job.answer.Some? then TASK_DONE else job.kind, job.sock, job.answer)
  }

  ghost predicate Ascending(s: seq<nat>) {
    forall i, j :: 0 <= i < j < |s| ==> s[i] < s[j]
  }

  /** The list shows the jobs `places`: all that are still there, in the order of their pushes. */
  ghost predicate Mirrors<R>(tasks: seq<Task<R>>, places: seq<nat>, jobs: seq<Job<R>>) {
    && |tasks| == |places| && Ascending(places)
    && (forall i :: 0 <= i < |places| ==> places[i] < |jobs| && jobs[places[i]].fate.Live? && tasks[i] == EntryOf(jobs[places[i]]))
    && forall j: nat :: j < |jobs| && jobs[j].fate.Live? ==> j in places
  }

  lemma MirrorsPush<R>(tasks: seq<Task<R>>, places: seq<nat>, b: Board<R>, sock: int, kind: nat)
    requires Mirrors(tasks, places, b.jobs)
    ensures Mirrors(tasks + [Task(0, kind, sock, None)], places + [|b.jobs|], b.jobs + [Job(sock, kind, 0, None, Live)])
  {
    var jobs, more := b.jobs + [Job(sock, kind, 0, None, Live)], places + [|b.jobs|];
    forall j: nat | j < |jobs| && jobs[j].fate.Live? ensures j in more {
      if j < |b.jobs| {
        assert j in places;
      } else {
        assert more[|places|] == j;
      }
    }
  }

  lemma MirrorsChange<R>(tasks: seq<Task<R>>, places: seq<nat>, b: Board<R>, i: nat, job: Job<R>)
    requires Mirrors(tasks, places, b.jobs) && i < |tasks| && job.fate.Live?
    ensures Mirrors(tasks[i := EntryOf(job)], places, SetJob(b, places[i], job).jobs)
  {
  }

  lemma DropPlace(places: seq<nat>, i: nat)
    requires Ascending(places) && i < |places|
    ensures var less := places[..i] + places[i + 1..];
            Ascending(less) && forall j: nat :: j in places && j != places[i] ==> j in less
  {
    var less := places[..i] + places[i + 1..];
    forall j: nat | j in places && j != places[i] ensures j in less {
      var k :| 0 <= k < |places| && places[k] == j;
      assert k < i ==> less[k] == j;
      assert k > i ==> less[k - 1] == j;
    }
  }

  lemma MirrorsRemoval<R>(tasks: seq<Task<R>>, places: seq<nat>, b: Board<R>, i: nat, job: Job<R>)
    requires Mirrors(tasks, places, b.jobs) && i < |tasks| && !job.fate.Live?
    ensures Mirrors(tasks[..i] + tasks[i + 1..], places[..i] + places[i + 1..], SetJob(b, places[i], job).jobs)
  {
    DropPlace(places, i);
    var jobs, less, left := SetJob(b, places[i], job).jobs, places[..i] + places[i + 1..], tasks[..i] + tasks[i + 1..];
    forall k | 0 <= k < |less| ensures less[k] < |jobs| && jobs[less[k]].fate.Live? && left[k] == EntryOf(jobs[less[k]]) {
      var m := if k < i then k else k + 1;
      assert less[k] == places[m] && left[k] == tasks[m] && places[m] != places[i];
    }
    forall j: nat | j < |jobs| && jobs[j].fate.Live? ensures j in less {
      assert j in places;
    }
  }

  /** A job that is still there is shown before place i unless it comes later. */
  lemma ShownBefore<R>(tasks: seq<Task<R>>, places: seq<nat>, jobs: seq<Job<R>>, i: nat, j: nat)
    requires Mirrors(tasks, places, jobs) && i <= |tasks| && j < |jobs|
    requires i < |tasks| ==> j < places[i]
    ensures jobs[j].fate.Live? ==> exists k :: 0 <= k < i && places[k] == j
  {
    if jobs[j].fate.Live? {
      var k :| 0 <= k < |places| && places[k] == j;
      assert forall m :: 0 <= m < k ==> places[m] < places[k];
    }
  }

  /** Where the list is cut: what stands before place m is before job n, the rest is not. */
  lemma MirrorsCut<R>(tasks: seq<Task<R>>, places: seq<nat>, jobs: seq<Job<R>>, m: nat, n: nat)
    requires Mirrors(tasks, places, jobs) && m <= |tasks|
    requires forall i :: 0 <= i < m ==> places[i] < n
    requires forall i :: m <= i < |tasks| ==> n <= places[i]
    ensures Mirrors(tasks[m..], places[m..], Cut(jobs, n))
  {
    var cut := Cut(jobs, n);
    forall j: nat | j < |cut| && cut[j].fate.Live? ensures j in places[m..] {
      var i :| 0 <= i < |places| && places[i] == j;
      assert places[m..][i - m] == j;
    }
  }

  /** The search through the list that ends at place m is the search through the jobs. */
  lemma SearchInList<R>(tasks: seq<Task<R>>, places: seq<nat>, b: Board<R>, sock: int, m: nat)
    requires Mirrors(tasks, places, b.jobs) && m <= |tasks|
    requires forall k :: 0 <= k < m ==> tasks[k].sock != sock
    requires m < |tasks| ==> tasks[m].sock == sock
    ensures SearchEnds(b, sock, if m < |tasks| then places[m] + 1 else |b.jobs|)
  {
    var n := if m < |tasks| then places[m] else |b.jobs|;
    forall j: nat | j < n ensures !Owned(b, sock, j) {
      ShownBefore(tasks, places, b.jobs, m, j);
    }
  }

  /** The list has as many entries as there are jobs still there. */
  lemma {:induction false} MirrorsCount<R>(tasks: seq<Task<R>>, places: seq<nat>, jobs: seq<Job<R>>)
    requires Mirrors(tasks, places, jobs)
    ensures |tasks| == Tally(jobs, Live)
    decreases |jobs|
  {
    assert places == [] || places[0] < |jobs|;
    if jobs != [] {
      var n := |jobs| - 1;
      if jobs[n].fate.Live? {
        LastShown(tasks, places, jobs);
        MirrorsCount(tasks[..|tasks| - 1], places[..|places| - 1], jobs[..n]);
      } else {
        MirrorsPrefix(tasks, places, jobs);
        MirrorsCount(tasks, places, jobs[..n]);
      }
    }
  }

  lemma LastShown<R>(tasks: seq<Task<R>>, places: seq<nat>, jobs: seq<Job<R>>)
    requires Mirrors(tasks, places, jobs) && jobs != [] && jobs[|jobs| - 1].fate.Live?
    ensures tasks != [] && Mirrors(tasks[..|tasks| - 1], places[..|places| - 1], jobs[..|jobs| - 1])
  {
    var n, m := |jobs| - 1, |places| - 1;
    var i :| 0 <= i < |places| && places[i] == n;
    assert places[m] <= n && i == m;
    forall j: nat | j < n && jobs[..n][j].fate.Live? ensures j in places[..m] {
      var k :| 0 <= k < |places| && places[k] == j;
      assert places[..m][k] == j;
    }
  }

  lemma MirrorsPrefix<R>(tasks: seq<Task<R>>, places: seq<nat>, jobs: seq<Job<R>>)
    requires Mirrors(tasks, places, jobs) && jobs != [] && !jobs[|jobs| - 1].fate.Live?
    ensures Mirrors(tasks, places, jobs[..|jobs| - 1])
  {
    var n := |jobs| - 1;
    forall i | 0 <= i < |places| ensures places[i] < n && tasks[i] == EntryOf(jobs[..n][places[i]]) && jobs[..n][places[i]].fate.Live? {
      assert places[i] != n;
    }
  }

  /** What one would expect of a removal: the first task of the socket is gone, the others stay. */
  function WithoutSock<R>(tasks: seq<Task<R>>, sock: int): seq<Task<R>> {
    if tasks == [] then []
    else if tasks[0].sock == sock then tasks[1..]
    else [tasks[0]] + WithoutSock(tasks[1..], sock)
  }

  lemma {:induction false} WithoutSockLength<R>(tasks: seq<Task<R>>, sock: int)
    ensures |WithoutSock(tasks, sock)| >= |tasks| - 1
  {
    if tasks != [] { WithoutSockLength(tasks[1..], sock); }
  }

  ghost function After(m: nat, end: nat): nat {
    if m < end then m + 1 else m
  }

  /** A search that ends at place m, and the cut after it, do to the jobs what Cancel says. */
  lemma CutOff<R>(tasks: seq<Task<R>>, places: seq<nat>, b: Board<R>, sock: int, m: nat)
    requires Mirrors(tasks, places, b.jobs) && Numbered(b) && m <= |tasks|
    requires forall k :: 0 <= k < m ==> tasks[k].sock != sock
    requires m < |tasks| ==> tasks[m].sock == sock
    ensures var n := if m < |tasks| then places[m] + 1 else |b.jobs|;
            var b' := b.(jobs := Cut(b.jobs, n));
            var keep := After(m, |tasks|);
            Happens(b, Cancel(sock, n), b') && Numbered(b') && Mirrors(tasks[keep..], places[keep..], b'.jobs)
  {
    var n := if m < |tasks| then places[m] + 1 else |b.jobs|;
    SearchInList(tasks, places, b, sock, m);
    MirrorsCut(tasks, places, b.jobs, After(m, |tasks|), n);
    CutNumbered(b, n);
  }

  lemma CutOffIsRemoval<R>(tasks: seq<Task<R>>, sock: int, m: nat)
    requires m <= |tasks|
    requires forall k :: 0 <= k < m ==> tasks[k].sock != sock
    requires m < |tasks| ==> tasks[m].sock == sock
    ensures tasks[After(m, |tasks|)..] == WithoutSock(tasks, sock) <==> tasks == [] || tasks[0].sock == sock
  {
    WithoutSockLength(tasks, sock);
  }

  lemma RestAfter<R>(tasks: seq<Task<R>>, m: nat)
    requires m <= |tasks|
    ensures (if m < |tasks| then tasks[m..][1..] else tasks[m..]) == tasks[After(m, |tasks|)..]
  {
  }

  class Queue<R> {
    var tasks: seq<Task<R>>
    var nextFreeTaskid: nat
    ghost var places: seq<nat>
    ghost var board: Board<R>

    ghost predicate Valid()
      reads this
    {
      Mirrors(tasks, places, board.jobs) && Numbered(board) && board.last == nextFreeTaskid
    }

    constructor ()
      ensures Valid() && board == Board([], 1)
    {
      tasks, nextFreeTaskid := [], 1;
      places, board := [], Board([], 1);
    }

    method PushTask(sock: int, kind: nat, mallocOk: bool) returns (r: int)
      requires Valid()
      modifies this
      ensures Valid()
      ensures r == if mallocOk then 0 else -1
      ensures if r == 0 then Happens(old(board), Push(sock, kind), board) else board == old(board)
    {
      if !mallocOk { return -1; }
      MirrorsPush(tasks, places, board, sock, kind);
      ghost var b := board.(jobs := board.jobs + [Job(sock, kind, 0, None, Live)]);
      HappensNumbered(board, Push(sock, kind), b);
      tasks := tasks + [Task(0, kind, sock, None)];
      places, board := places + [|board.jobs|], b;
      return 0;
    }

    /** Job j has no worker yet, and its entry is of the class. */
    ghost predicate Wanted(b: Board<R>, wanted: nat, j: nat)
    {
      LiveAt(b, j) && b.jobs[j].id == 0 && Class(EntryOf(b.jobs[j]).kind) == wanted
    }

    /** Takes the first task of a class that no worker has; 0 means that the worker waits on. */
    method PopTask(wanted: nat) returns (id: nat, kind: nat, ghost j: nat)
      requires Valid()
      modifies this
      ensures Valid()
      ensures if id != 0 then Happens(old(board), Pop(j, id), board) && Wanted(old(board), wanted, j) && kind == EntryOf(board.jobs[j]).kind
              else board == old(board) && j == |board.jobs|
      ensures forall k: nat :: k < j ==> !Wanted(old(board), wanted, k)
    {
      var i: nat := 0;
      while i < |tasks| && (Class(tasks[i].kind) != wanted || tasks[i].id != 0)
        invariant 0 <= i <= |tasks| && forall k :: 0 <= k < i ==> Class(tasks[k].kind) != wanted || tasks[k].id != 0
      {
        i := i + 1;
      }
      j := if i < |tasks| then places[i] else |board.jobs|;
      forall k: nat | k < j ensures !Wanted(board, wanted, k) {
        ShownBefore(tasks, places, board.jobs, i, k);
      }
      if i == |tasks| { return 0, wanted, j; }
      id := nextFreeTaskid + 1;
      kind := tasks[i].kind;
      Assign(i, id);
    }

    method Assign(i: nat, id: nat)
      requires Valid() && i < |tasks| && tasks[i].id == 0 && id == nextFreeTaskid + 1
      modifies this
      ensures Valid() && Happens(old(board), Pop(old(places)[i], id), board)
    {
      ghost var job := board.jobs[places[i]].(id := id);
      ghost var b := SetJob(board, places[i], job).(last := id);
      MirrorsChange(tasks, places, board, i, job);
      HappensNumbered(board, Pop(places[i], id), b);
      tasks, nextFreeTaskid, board := tasks[i := tasks[i].(id := id)], id, b;
    }

    ghost predicate Has(b: Board<R>, id: nat, j: nat)
    {
      LiveAt(b, j) && b.jobs[j].id == id
    }

    /** Records a result for the first entry with the id; -1 tells the worker to throw it away. */
    method PushResult(id: nat, result: R) returns (r: int, ghost j: nat)
      requires Valid()
      modifies this
      ensures Valid()
      ensures if r == 0 then Happens(old(board), Answer(j, id, result), board)
              else r == -1 && board == old(board) && j == |board.jobs|
      ensures forall k: nat :: k < j ==> !Has(old(board), id, k)
    {
      var i: nat := 0;
      while i < |tasks| && tasks[i].id != id
        invariant 0 <= i <= |tasks| && forall k :: 0 <= k < i ==> tasks[k].id != id
      {
        i := i + 1;
      }
      j := if i < |tasks| then places[i] else |board.jobs|;
      forall k: nat | k < j ensures !Has(board, id, k) {
        ShownBefore(tasks, places, board.jobs, i, k);
      }
      if i == |tasks| { return -1, j; }
      Record(i, result);
      r := 0;
    }

    method Record(i: nat, result: R)
      requires Valid() && i < |tasks|
      modifies this
      ensures Valid() && Happens(old(board), Answer(old(places)[i], old(tasks)[i].id, result), board)
    {
      ghost var job := board.jobs[places[i]].(answer := Some(result));
      ghost var b := SetJob(board, places[i], job);
      MirrorsChange(tasks, places, board, i, job);
      HappensNumbered(board, Answer(places[i], tasks[i].id, result), b);
      tasks, board := tasks[i := tasks[i].(kind := TASK_DONE, result := Some(result))], b;
    }

    ghost predicate Ready(b: Board<R>, j: nat)
    {
      LiveAt(b, j) && b.jobs[j].Done()
    }

    /** Takes the first finished task out, with its result if it has one; -1 when there is none. */
    method PopResult() returns (found: bool, sock: int, result: Option<R>, ghost j: nat)
      requires Valid()
      modifies this
      ensures Valid()
      ensures if found then Happens(old(board), Deliver(j, sock, result), board)
              else sock == -1 && result.None? && board == old(board) && j == |board.jobs|
      ensures forall k: nat :: k < j ==> !Ready(old(board), k)
    {
      var i: nat := 0;
      while i < |tasks| && tasks[i].kind != TASK_DONE
        invariant 0 <= i <= |tasks| && forall k :: 0 <= k < i ==> tasks[k].kind != TASK_DONE
      {
        i := i + 1;
      }
      j := if i < |tasks| then places[i] else |board.jobs|;
      forall k: nat | k < j ensures !Ready(board, k) {
        ShownBefore(tasks, places, board.jobs, i, k);
      }
      if i == |tasks| { return false, -1, None, j; }
      found, sock, result := true, tasks[i].sock, tasks[i].result;
      Unlink(i);
    }

    method Unlink(i: nat)
      requires Valid() && i < |tasks| && tasks[i].kind == TASK_DONE
      modifies this
      ensures Valid() && Happens(old(board), Deliver(old(places)[i], old(tasks)[i].sock, old(tasks)[i].result), board)
    {
      ghost var j := places[i];
      ghost var job := board.jobs[j].(fate := Delivered);
      ghost var b := SetJob(board, j, job);
      MirrorsRemoval(tasks, places, board, i, job);
      HappensNumbered(board, Deliver(j, tasks[i].sock, tasks[i].result), b);
      tasks := tasks[..i] + tasks[i + 1..];
      places, board := places[..i] + places[i + 1..], b;
    }

    /**
      Cancels the first entry of a socket. The head of the list moves along with the search, so
      what is left is the part after that entry; that is the list without the entry exactly if it
      was the first one.
     */
    method CancelTask(sock: int) returns (ghost n: nat)
      requires Valid()
      modifies this
      ensures Valid() && Happens(old(board), Cancel(sock, n), board)
      ensures tasks == WithoutSock(old(tasks), sock) <==> old(tasks) == [] || old(tasks)[0].sock == sock
    {
      ghost var all := tasks;
      ghost var m := SkipTo(sock);
      CutOffIsRemoval(all, sock, m);
      RestAfter(all, m);
      if tasks != [] { tasks := tasks[1..]; }
      n := FollowCut(all, sock, m, board);
    }

    /** Brings the board up to date with the list. */
    ghost method FollowCut(all: seq<Task<R>>, sock: int, m: nat, b: Board<R>) returns (n: nat)
      requires board == b && Mirrors(all, places, b.jobs) && Numbered(b) && b.last == nextFreeTaskid && m <= |all|
      requires forall k :: 0 <= k < m ==> all[k].sock != sock
      requires m < |all| ==> all[m].sock == sock
      requires tasks == all[After(m, |all|)..]
      modifies `places, `board
      ensures Valid() && Happens(b, Cancel(sock, n), board)
    {
      CutOff(all, places, board, sock, m);
      n := if m < |places| then places[m] + 1 else |board.jobs|;
      places, board := places[After(m, |places|)..], board.(jobs := Cut(board.jobs, n));
    }

    /** Moves the head of the list to the first entry of the socket. */
    method SkipTo(sock: int) returns (ghost m: nat)
      modifies `tasks
      ensures m <= |old(tasks)| && tasks == old(tasks)[m..]
      ensures forall k :: 0 <= k < m ==> old(tasks)[k].sock != sock
      ensures tasks != [] ==> tasks[0].sock == sock
    {
      m := 0;
      while tasks != [] && tasks[0].sock != sock
        invariant 0 <= m <= |old(tasks)| && tasks == old(tasks)[m..]
        invariant forall k :: 0 <= k < m ==> old(tasks)[k].sock != sock
        decreases |tasks|
      {
        tasks := tasks[1..];
        m := m + 1;
      }
    }
  }

  // ---------------------------------------------------------------------------------------
  // Calls one after the other

  datatype Call<R> =
    | CallPushTask(sock: int, kind: nat, mallocOk: bool)
    | CallPopTask(wanted: nat)
    | CallPushResult(id: nat, result: R)
    | CallPopResult
    | CallCancelTask(sock: int)

  /** Makes one call; whatever it does is one event or none. */
  method Make<R>(q: Queue<R>, c: Call<R>) returns (ghost events: seq<Event<R>>)
    requires q.Valid()
    modifies q
    ensures q.Valid()
    ensures events == [] ==> q.board == old(q.board)
    ensures events != [] ==> |events| == 1 && Happens(old(q.board), events[0], q.board)
    ensures events != [] && events[0].Cancel? ==> c.CallCancelTask?
  {
    events := [];
    match c {
      case CallPushTask(sock, kind, mallocOk) =>
        var r := q.PushTask(sock, kind, mallocOk);
        if r == 0 { events := [Push(sock, kind)]; }
      case CallPopTask(wanted) =>
        var id, kind, j := q.PopTask(wanted);
        if id != 0 { events := [Pop(j, id)]; }
      case CallPushResult(id, result) =>
        var r, j := q.PushResult(id, result);
        if r == 0 { events := [Answer(j, id, result)]; }
      case CallPopResult =>
        var found, sock, result, j := q.PopResult();
        if found { events := [Deliver(j, sock, result)]; }
      case CallCancelTask(sock) =>
        ghost var n := q.CancelTask(sock);
        events := [Cancel(sock, n)];
    }
  }

  /** A task of any type is given to a worker that wants its class, whatever its flags and its low byte. */
  method PushAndPop<R>(q: Queue<R>, sock: int, flags: nat, group: nat, low: nat) returns (id: nat, kind: nat, ghost j: nat)
    requires q.Valid() && group < 16 && low < 0x100
    modifies q
    ensures q.Valid() && id != 0 && j <= |old(q.board).jobs| && Class(kind) == 0x100 * group
    ensures (forall k: nat :: k < |old(q.board).jobs| ==> !q.Wanted(old(q.board), 0x100 * group, k)) ==>
              j == |old(q.board).jobs| && kind == 0x1000 * flags + 0x100 * group + low
  {
    ClassIs(flags, group, low);
    var r := q.PushTask(sock, 0x1000 * flags + 0x100 * group + low, true);
    ghost var b := q.board;
    assert q.Wanted(b, 0x100 * group, |b.jobs| - 1);
    assert forall k: nat :: k < |b.jobs| - 1 && q.Wanted(b, 0x100 * group, k) ==> q.Wanted(old(q.board), 0x100 * group, k);
    id, kind, j := q.PopTask(0x100 * group);
  }

  lemma RunStep<R>(boards: seq<Board<R>>, events: seq<Event<R>>, e: Event<R>, b: Board<R>)
    requires IsRun(boards, events) && Happens(boards[|boards| - 1], e, b)
    ensures IsRun(boards + [b], events + [e])
  {
  }

  /**
    Any calls on a new queue are a run, and at its end every push is accounted for by the entries
    in the list, the deliveries and the jobs that cancellations dropped.
   */
  method Replay<R>(calls: seq<Call<R>>) returns (q: Queue<R>, ghost boards: seq<Board<R>>, ghost events: seq<Event<R>>)
    ensures fresh(q) && q.Valid() && IsRun(boards, events) && q.board == boards[|events|]
    ensures |q.tasks| + Deliveries(events, |events|) + Tally(q.board.jobs, Dropped) == Pushes(events, |events|)
    ensures (forall c :: c in calls ==> !c.CallCancelTask?) ==> Tally(q.board.jobs, Dropped) == 0
  {
    q := new Queue<R>();
    boards, events := [q.board], [];
    var i := 0;
    while i < |calls|
      invariant 0 <= i <= |calls| && fresh(q) && q.Valid() && IsRun(boards, events) && q.board == boards[|events|]
      invariant (forall c :: c in calls ==> !c.CallCancelTask?) ==> forall k :: 0 <= k < |events| ==> !events[k].Cancel?
    {
      ghost var more := Make(q, calls[i]);
      if more != [] {
        RunStep(boards, events, more[0], q.board);
        boards, events := boards + [q.board], events + [more[0]];
      }
      i := i + 1;
    }
    NothingLost(boards, events, |events|);
    MirrorsCount(q.tasks, q.places, q.board.jobs);
  }
}
