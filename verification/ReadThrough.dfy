/** How poll results reach other processes (get_cached in app/log_stats_cache.py and
    app/threat_stats_cache.py, over the shared row of app/collector_store.py).

    One collector publishes; workers, each with several threads sharing one memory, read
    through. A read is three separate steps: look at memory under the lock, read the
    store, fill memory under the lock. Everything may interleave. */
module ReadThrough {
  import opened Prelude

  type Dict = map<string, Value>

  /** A cache dictionary at its start-up state. */
  predicate Empty(m: Dict) {
    "collected_at" !in m || m["collected_at"] == Null
  }

  /** Where a thread is in get_cached. */
  datatype Pc = Idle | Missed | Holding(stored: Option<Dict>)

  datatype Worker = Worker(memory: Dict, threads: seq<Pc>, answers: seq<Dict>)

  /** `unwritten` is a snapshot taken under the collector's lock and not yet stored;
      `published` lists every snapshot taken. */
  datatype World = World(store: Option<Dict>, collector: Dict, unwritten: Option<Dict>, workers: seq<Worker>, published: seq<Dict>)

  datatype Event =
    | Publish(fields: Dict)
    | WriteStore
    | FailedCycle
    | Look(w: nat, th: nat)
    | Fetch(w: nat, th: nat)
    | Fill(w: nat, th: nat)

  predicate HasThread(s: World, w: nat, th: nat) {
    w < |s.workers| && th < |s.workers[w].threads|
  }

  /** A poll assigns every key of the cache dictionary and a collection time, and does
      not overlap another. */
  predicate Enabled(s: World, e: Event) {
    match e
    case Publish(fields) => s.unwritten.None? && fields.Keys == s.collector.Keys && !Empty(fields)
    case WriteStore => s.unwritten.Some?
    case FailedCycle => true
    case Look(w, th) => HasThread(s, w, th) && s.workers[w].threads[th].Idle?
    case Fetch(w, th) => HasThread(s, w, th) && s.workers[w].threads[th].Missed?
    case Fill(w, th) => HasThread(s, w, th) && s.workers[w].threads[th].Holding?
  }

  function Looked(k: Worker, th: nat): Worker
    requires th < |k.threads|
  {
    if !Empty(k.memory) then k.(answers := k.answers + [k.memory])
    else k.(threads := k.threads[th := Missed])
  }

  function Filled(k: Worker, th: nat): Worker
    requires th < |k.threads| && k.threads[th].Holding?
  {
    var stored := k.threads[th].stored;
    var memory := if stored.Some? then k.memory + stored.value else k.memory;
    Worker(memory, k.threads[th := Idle], k.answers + [memory])
  }

  function Next(s: World, e: Event): World
    requires Enabled(s, e)
  {
    match e
    case Publish(fields) =>
      var memory := s.collector + fields;
      s.(collector := memory, unwritten := Some(memory), published := s.published + [memory])
    case WriteStore => s.(store := s.unwritten, unwritten := None)
    case FailedCycle => s
    case Look(w, th) => s.(workers := s.workers[w := Looked(s.workers[w], th)])
    case Fetch(w, th) =>
      var k := s.workers[w];
      s.(workers := s.workers[w := k.(threads := k.threads[th := Holding(s.store)])])
    case Fill(w, th) => s.(workers := s.workers[w := Filled(s.workers[w], th)])
  }

  /** Processes start with the same empty dictionary and idle threads. */
  predicate Starts(s: World, init: Dict) {
    && Empty(init) && s.store.None? && s.collector == init && s.unwritten.None? && s.published == []
    && forall w :: 0 <= w < |s.workers| ==>
         s.workers[w].memory == init && s.workers[w].answers == [] &&
         forall th :: 0 <= th < |s.workers[w].threads| ==> s.workers[w].threads[th].Idle?
  }

  predicate Feasible(s: World, events: seq<Event>)
    decreases |events|
  {
    events == [] || (Enabled(s, events[0]) && Feasible(Next(s, events[0]), events[1..]))
  }

  function Run(s: World, events: seq<Event>): World
    requires Feasible(s, events)
    decreases |events|
  {
    if events == [] then s else Run(Next(s, events[0]), events[1..])
  }

  // ---------- What every interleaving keeps ----------

  predicate Whole(m: Dict, init: Dict, published: seq<Dict>) {
    m == init || m in published
  }

  predicate WorkerOk(k: Worker, init: Dict, published: seq<Dict>) {
    && Whole(k.memory, init, published)
    && (forall th :: 0 <= th < |k.threads| && k.threads[th].Holding? && k.threads[th].stored.Some? ==>
          k.threads[th].stored.value in published)
    && (forall i :: 0 <= i < |k.answers| ==> Whole(k.answers[i], init, published))
  }

  predicate Inv(s: World, init: Dict) {
    && Empty(init)
    && Whole(s.collector, init, s.published)
    && (s.store.Some? ==> s.store.value in s.published)
    && (s.unwritten.Some? ==> s.unwritten.value in s.published)
    && (forall i :: 0 <= i < |s.published| ==> s.published[i].Keys == init.Keys && !Empty(s.published[i]))
    && (forall w :: 0 <= w < |s.workers| ==> WorkerOk(s.workers[w], init, s.published))
  }

  lemma OverwriteWhole(m: Dict, d: Dict)
    requires m.Keys == d.Keys
    ensures m + d == d
  {
  }

  lemma WorkerStaysOk(k: Worker, init: Dict, published: seq<Dict>, more: seq<Dict>)
    requires WorkerOk(k, init, published)
    ensures WorkerOk(k, init, published + more)
  {
  }

  lemma LookedIsOk(k: Worker, th: nat, init: Dict, published: seq<Dict>)
    requires WorkerOk(k, init, published) && th < |k.threads|
    ensures WorkerOk(Looked(k, th), init, published)
  {
  }

  lemma FilledIsOk(k: Worker, th: nat, init: Dict, published: seq<Dict>)
    requires WorkerOk(k, init, published) && th < |k.threads| && k.threads[th].Holding?
    requires forall i :: 0 <= i < |published| ==> published[i].Keys == init.Keys
    ensures WorkerOk(Filled(k, th), init, published)
    ensures k.threads[th].stored.Some? ==> Filled(k, th).memory == k.threads[th].stored.value
  {
    if k.threads[th].stored.Some? {
      OverwriteWhole(k.memory, k.threads[th].stored.value);
    }
  }

  lemma StepKeepsInv(s: World, e: Event, init: Dict)
    requires Inv(s, init) && Enabled(s, e)
    ensures Inv(Next(s, e), init)
  {
    match e
    case Publish(fields) =>
      OverwriteWhole(s.collector, fields);
      forall w | 0 <= w < |s.workers| ensures WorkerOk(s.workers[w], init, s.published + [fields]) {
        WorkerStaysOk(s.workers[w], init, s.published, [fields]);
      }
    case WriteStore =>
    case FailedCycle =>
    case Look(w, th) => LookedIsOk(s.workers[w], th, init, s.published);
    case Fetch(w, th) =>
    case Fill(w, th) => FilledIsOk(s.workers[w], th, init, s.published);
  }

  lemma {:induction false} RunKeepsInv(s: World, events: seq<Event>, init: Dict)
    requires Inv(s, init) && Feasible(s, events)
    ensures Inv(Run(s, events), init)
    decreases |events|
  {
    if events == [] {
    } else {
      StepKeepsInv(s, events[0], init);
      RunKeepsInv(Next(s, events[0]), events[1..], init);
    }
  }

  /** Under any interleaving, every worker's memory, and every answer it ever gave, is
      the initial dictionary or exactly one published snapshot, never a mix of two. */
  lemma NeverAMixOfSnapshots(s: World, events: seq<Event>, init: Dict, w: nat)
    requires Starts(s, init) && Feasible(s, events) && w < |Run(s, events).workers|
    ensures var r := Run(s, events);
            && Whole(r.workers[w].memory, init, r.published)
            && forall i :: 0 <= i < |r.workers[w].answers| ==> Whole(r.workers[w].answers[i], init, r.published)
  {
    RunKeepsInv(s, events, init);
    assert WorkerOk(Run(s, events).workers[w], init, Run(s, events).published);
  }

  // ---------- Snapshots are stored in the order they are published ----------

  /** How many snapshots have been stored. */
  function Stored(s: World): int {
    |s.published| - if s.unwritten.Some? then 1 else 0
  }

  predicate InOrder(s: World) {
    && Stored(s) >= 0
    && s.store == (if Stored(s) == 0 then None else Some(s.published[Stored(s) - 1]))
    && (s.unwritten.Some? ==> s.unwritten.value == s.published[|s.published| - 1])
  }

  lemma StepKeepsOrder(s: World, e: Event)
    requires InOrder(s) && Enabled(s, e)
    ensures InOrder(Next(s, e)) && s.published <= Next(s, e).published
    ensures Stored(Next(s, e)) == Stored(s) + if e.WriteStore? then 1 else 0
  {
  }

  predicate AllDifferent(snapshots: seq<Dict>) {
    forall i, j :: 0 <= i < j < |snapshots| ==> snapshots[i] != snapshots[j]
  }

  // ---------- One thread ----------

  /** Every answer so far is empty, or is what memory holds. */
  predicate Settled(k: Worker) {
    && (forall i :: 0 <= i < |k.answers| ==> Empty(k.answers[i]) || k.answers[i] == k.memory)
    && (forall i, j :: 0 <= i < j < |k.answers| && !Empty(k.answers[i]) ==> k.answers[j] == k.answers[i])
  }

  /** A worker's single thread is never inside a read once memory is filled. */
  predicate Alone(k: Worker) {
    |k.threads| == 1 && Settled(k) && (!Empty(k.memory) ==> k.threads[0].Idle?)
  }

  lemma {:induction false} AloneRun(s: World, events: seq<Event>, w: nat)
    requires Feasible(s, events) && w < |s.workers| && Alone(s.workers[w])
    ensures |Run(s, events).workers| == |s.workers| && Alone(Run(s, events).workers[w])
    decreases |events|
  {
    if events == [] {
    } else {
      AloneRun(Next(s, events[0]), events[1..], w);
    }
  }

  /** A worker with one thread never changes its answer once it is non-empty, however
      its steps interleave with polls and with other workers. */
  lemma OneThreadNeverChangesItsAnswer(s: World, events: seq<Event>, init: Dict, w: nat)
    requires Starts(s, init) && Feasible(s, events) && w < |s.workers| && |s.workers[w].threads| == 1
    ensures var r := Run(s, events);
            && |r.workers| == |s.workers|
            && forall i, j :: 0 <= i < j < |r.workers[w].answers| && !Empty(r.workers[w].answers[i]) ==>
                 r.workers[w].answers[j] == r.workers[w].answers[i]
  {
    AloneRun(s, events, w);
  }

  // ---------- Several threads ----------

  /** For each fetch of worker `w` that found a snapshot, how many snapshots had been
      stored by then. Only threads that looked before the first fill ever fetch. */
  function Fetched(s: World, events: seq<Event>, w: nat): seq<int>
    requires Feasible(s, events)
    decreases |events|
  {
    if events == [] then []
    else FetchedBy(s, events[0], w) + Fetched(Next(s, events[0]), events[1..], w)
  }

  /** One of the fetches returned `d`. */
  predicate Came(published: seq<Dict>, fetched: seq<int>, d: Dict) {
    exists i :: 0 <= i < |fetched| && 0 < fetched[i] <= |published| && published[fetched[i] - 1] == d
  }

  predicate Answered(k: Worker, d: Dict) {
    d in k.answers || exists th :: 0 <= th < |k.threads| && k.threads[th] == Holding(Some(d))
  }

  /** A worker's memory, answers and held snapshots all came from its fetches, and what
      was fetched has been answered or is still held. */
  predicate Traced(k: Worker, published: seq<Dict>, fetched: seq<int>) {
    && (!Empty(k.memory) ==> Came(published, fetched, k.memory))
    && (forall i :: 0 <= i < |k.answers| ==> Empty(k.answers[i]) || Came(published, fetched, k.answers[i]))
    && (forall th :: 0 <= th < |k.threads| && k.threads[th].Holding? && k.threads[th].stored.Some? ==>
          Came(published, fetched, k.threads[th].stored.value))
    && (forall i :: 0 <= i < |fetched| ==> 0 < fetched[i] <= |published| && Answered(k, published[fetched[i] - 1]))
  }

  lemma CameStays(published: seq<Dict>, more: seq<Dict>, fetched: seq<int>, again: seq<int>, d: Dict)
    requires Came(published, fetched, d)
    ensures Came(published + more, fetched + again, d)
  {
    var i :| 0 <= i < |fetched| && 0 < fetched[i] <= |published| && published[fetched[i] - 1] == d;
    assert (fetched + again)[i] == fetched[i];
  }

  lemma PublishKeepsTraced(k: Worker, published: seq<Dict>, d: Dict, fetched: seq<int>)
    requires Traced(k, published, fetched)
    ensures Traced(k, published + [d], fetched)
  {
    assert fetched + [] == fetched;
    forall x | Came(published, fetched, x) ensures Came(published + [d], fetched, x) {
      CameStays(published, [d], fetched, [], x);
    }
  }

  lemma LookKeepsTraced(k: Worker, th: nat, published: seq<Dict>, fetched: seq<int>)
    requires Traced(k, published, fetched) && th < |k.threads| && k.threads[th].Idle?
    ensures Traced(Looked(k, th), published, fetched)
  {
    forall d | Answered(k, d) ensures Answered(Looked(k, th), d) {
      if d !in k.answers {
        var u :| 0 <= u < |k.threads| && k.threads[u] == Holding(Some(d));
        assert Looked(k, th).threads[u] == Holding(Some(d));
      }
    }
  }

  lemma FetchKeepsTraced(k: Worker, th: nat, store: Option<Dict>, stored: int, published: seq<Dict>, fetched: seq<int>)
    requires Traced(k, published, fetched) && th < |k.threads| && k.threads[th].Missed?
    requires 0 <= stored <= |published| && store == (if stored == 0 then None else Some(published[stored - 1]))
    ensures Traced(k.(threads := k.threads[th := Holding(store)]), published, fetched + if store.Some? then [stored] else [])
  {
    var k' := k.(threads := k.threads[th := Holding(store)]);
    var again := if store.Some? then [stored] else [];
    assert k'.threads[th] == Holding(store);
    assert published + [] == published;
    forall d | Came(published, fetched, d) ensures Came(published, fetched + again, d) {
      CameStays(published, [], fetched, again, d);
    }
    if store.Some? {
      assert (fetched + again)[|fetched|] == stored;
      assert Came(published, fetched + again, store.value);
    }
    forall d | Answered(k, d) ensures Answered(k', d) {
      if d !in k.answers {
        var u :| 0 <= u < |k.threads| && k.threads[u] == Holding(Some(d));
        assert k'.threads[u] == Holding(Some(d));
      }
    }
  }

  lemma FillKeepsTraced(k: Worker, th: nat, init: Dict, published: seq<Dict>, fetched: seq<int>)
    requires WorkerOk(k, init, published) && Traced(k, published, fetched) && th < |k.threads| && k.threads[th].Holding?
    requires forall i :: 0 <= i < |published| ==> published[i].Keys == init.Keys
    ensures Traced(Filled(k, th), published, fetched)
  {
    FilledIsOk(k, th, init, published);
    var k' := Filled(k, th);
    assert k'.answers[|k.answers|] == k'.memory;
    forall d | Answered(k, d) ensures Answered(k', d) {
      if d in k.answers {
        assert d in k'.answers;
      } else {
        var u :| 0 <= u < |k.threads| && k.threads[u] == Holding(Some(d));
        if u != th {
          assert k'.threads[u] == Holding(Some(d));
        }
      }
    }
  }

  predicate Tracked(s: World, init: Dict, w: nat, fetched: seq<int>) {
    Inv(s, init) && InOrder(s) && w < |s.workers| && Traced(s.workers[w], s.published, fetched)
  }

  /** What one step adds to `Fetched`. */
  function FetchedBy(s: World, e: Event, w: nat): seq<int> {
    if e.Fetch? && e.w == w && s.store.Some? then [Stored(s)] else []
  }

  lemma StepKeepsTraced(s: World, e: Event, init: Dict, w: nat, fetched: seq<int>)
    requires Tracked(s, init, w, fetched) && Enabled(s, e)
    ensures w < |Next(s, e).workers|
    ensures Traced(Next(s, e).workers[w], Next(s, e).published, fetched + FetchedBy(s, e, w))
  {
    var k := s.workers[w];
    assert fetched + [] == fetched;
    match e
    case Publish(fields) => PublishKeepsTraced(k, s.published, s.collector + fields, fetched);
    case WriteStore =>
    case FailedCycle =>
    case Look(v, th) =>
      if v == w { LookKeepsTraced(k, th, s.published, fetched); }
    case Fetch(v, th) =>
      if v == w { FetchKeepsTraced(k, th, s.store, Stored(s), s.published, fetched); }
    case Fill(v, th) =>
      if v == w {
        assert WorkerOk(k, init, s.published);
        FillKeepsTraced(k, th, init, s.published, fetched);
      }
  }

  lemma StepKeepsTracked(s: World, e: Event, init: Dict, w: nat, fetched: seq<int>)
    requires Tracked(s, init, w, fetched) && Enabled(s, e)
    ensures Tracked(Next(s, e), init, w, fetched + FetchedBy(s, e, w))
  {
    StepKeepsTraced(s, e, init, w, fetched);
    StepKeepsInv(s, e, init);
    StepKeepsOrder(s, e);
  }

  lemma {:induction false} RunKeepsTracked(s: World, events: seq<Event>, init: Dict, w: nat, fetched: seq<int>)
    requires Tracked(s, init, w, fetched) && Feasible(s, events)
    ensures Tracked(Run(s, events), init, w, fetched + Fetched(s, events, w))
    decreases |events|
  {
    if events == [] {
      assert fetched + [] == fetched;
    } else {
      StepKeepsTracked(s, events[0], init, w, fetched);
      RunKeepsTracked(Next(s, events[0]), events[1..], init, w, fetched + FetchedBy(s, events[0], w));
      Regroup(fetched, FetchedBy(s, events[0], w), Fetched(Next(s, events[0]), events[1..], w));
    }
  }

  lemma Regroup(a: seq<int>, b: seq<int>, c: seq<int>)
    ensures a + b + c == a + (b + c)
  {
  }

  /** All non-empty answers are the same. */
  predicate Constant(answers: seq<Dict>) {
    forall i, j :: 0 <= i < |answers| && 0 <= j < |answers| && !Empty(answers[i]) && !Empty(answers[j]) ==>
      answers[i] == answers[j]
  }

  predicate AllEqual(ns: seq<int>) {
    forall i, j :: 0 <= i < |ns| && 0 <= j < |ns| ==> ns[i] == ns[j]
  }

  /** With every read finished and no snapshot published twice: a worker of any number
      of threads has given one answer only if and only if no snapshot was stored between
      two of its fetches that found one. */
  lemma AnswersAgreeIffNothingWasStoredBetweenFetches(s: World, events: seq<Event>, init: Dict, w: nat)
    requires Starts(s, init) && Feasible(s, events) && w < |s.workers|
    requires AllDifferent(Run(s, events).published)
    requires w < |Run(s, events).workers| && forall th :: 0 <= th < |Run(s, events).workers[w].threads| ==>
               Run(s, events).workers[w].threads[th].Idle?
    ensures Constant(Run(s, events).workers[w].answers) <==> AllEqual(Fetched(s, events, w))
  {
    var r, fetched := Run(s, events), Fetched(s, events, w);
    RunKeepsTracked(s, events, init, w, []);
    assert [] + fetched == fetched;
    AnswersMatchFetches(r.workers[w], init, r.published, fetched);
  }

  lemma AnswersMatchFetches(k: Worker, init: Dict, published: seq<Dict>, fetched: seq<int>)
    requires Traced(k, published, fetched) && AllDifferent(published)
    requires forall th :: 0 <= th < |k.threads| ==> k.threads[th].Idle?
    requires forall i :: 0 <= i < |published| ==> !Empty(published[i])
    ensures Constant(k.answers) <==> AllEqual(fetched)
  {
    if Constant(k.answers) {
      forall i, j | 0 <= i < |fetched| && 0 <= j < |fetched| ensures fetched[i] == fetched[j] {
        assert Answered(k, published[fetched[i] - 1]) && Answered(k, published[fetched[j] - 1]);
        var a :| 0 <= a < |k.answers| && k.answers[a] == published[fetched[i] - 1];
        var b :| 0 <= b < |k.answers| && k.answers[b] == published[fetched[j] - 1];
        assert k.answers[a] == k.answers[b];
      }
    }
    if AllEqual(fetched) {
      forall a, b | 0 <= a < |k.answers| && 0 <= b < |k.answers| && !Empty(k.answers[a]) && !Empty(k.answers[b])
        ensures k.answers[a] == k.answers[b]
      {
        assert Came(published, fetched, k.answers[a]) && Came(published, fetched, k.answers[b]);
      }
    }
  }

  // ---------- Answers can go back ----------

  /** Both threads miss, and thread 0 fetches the first snapshot. */
  function FirstHalf(first: Dict): seq<Event> {
    [Look(0, 0), Look(0, 1), Publish(first), WriteStore, Fetch(0, 0)]
  }

  /** A second snapshot is stored, thread 1 reads it through, then thread 0 fills. */
  function SecondHalf(second: Dict): seq<Event> {
    [Publish(second), WriteStore, Fetch(0, 1), Fill(0, 1), Fill(0, 0)]
  }

  /** Two threads of one worker can make its answers go from a newer snapshot back to an
      older one. */
  lemma AnswersCanGoBack(init: Dict, first: Dict, second: Dict)
    requires Empty(init) && !Empty(first) && !Empty(second)
    requires first.Keys == init.Keys && second.Keys == init.Keys
    ensures var s := World(None, init, None, [Worker(init, [Idle, Idle], [])], []);
            var events := FirstHalf(first) + SecondHalf(second);
            && Starts(s, init) && Feasible(s, events)
            && Run(s, events) ==
                 World(Some(second), second, None, [Worker(first, [Idle, Idle], [second, first])], [first, second])
  {
    GoingBackFirstHalf(init, first);
    GoingBackSecondHalf(init, first, second);
    RunOfConcatenation(World(None, init, None, [Worker(init, [Idle, Idle], [])], []), FirstHalf(first), SecondHalf(second));
  }

  lemma {:induction false} RunOfConcatenation(s: World, a: seq<Event>, b: seq<Event>)
    requires Feasible(s, a) && Feasible(Run(s, a), b)
    ensures Feasible(s, a + b) && Run(s, a + b) == Run(Run(s, a), b)
    decreases |a|
  {
    if a == [] {
      assert a + b == b;
    } else {
      assert (a + b)[1..] == a[1..] + b;
      RunOfConcatenation(Next(s, a[0]), a[1..], b);
    }
  }

  lemma GoingBackFirstHalf(init: Dict, first: Dict)
    requires Empty(init) && !Empty(first) && first.Keys == init.Keys
    ensures var s0 := World(None, init, None, [Worker(init, [Idle, Idle], [])], []);
            Feasible(s0, FirstHalf(first)) &&
            Run(s0, FirstHalf(first)) == World(Some(first), first, None, [Worker(init, [Holding(Some(first)), Missed], [])], [first])
  {
    OverwriteWhole(init, first);
    var e := FirstHalf(first);
    var s0 := World(None, init, None, [Worker(init, [Idle, Idle], [])], []);
    var s1 := Next(s0, e[0]);
    assert s1.workers[0].threads == [Missed, Idle];
    var s2 := Next(s1, e[1]);
    assert s2.workers[0].threads == [Missed, Missed];
    var s3 := Next(s2, e[2]);
    var s4 := Next(s3, e[3]);
    var s5 := Next(s4, e[4]);
    assert s5.workers[0].threads == [Holding(Some(first)), Missed];
    assert s5.workers == [Worker(init, [Holding(Some(first)), Missed], [])];
    Step(s4, e[4..], s5); Step(s3, e[3..], s4); Step(s2, e[2..], s3); Step(s1, e[1..], s2); Step(s0, e, s1);
  }

  lemma GoingBackSecondHalf(init: Dict, first: Dict, second: Dict)
    requires Empty(init) && !Empty(first) && !Empty(second)
    requires first.Keys == init.Keys && second.Keys == init.Keys
    ensures var s5 := World(Some(first), first, None, [Worker(init, [Holding(Some(first)), Missed], [])], [first]);
            Feasible(s5, SecondHalf(second)) &&
            Run(s5, SecondHalf(second)) == World(Some(second), second, None, [Worker(first, [Idle, Idle], [second, first])], [first, second])
  {
    OverwriteWhole(first, second);
    OverwriteWhole(init, second);
    OverwriteWhole(second, first);
    var e := SecondHalf(second);
    var s5 := World(Some(first), first, None, [Worker(init, [Holding(Some(first)), Missed], [])], [first]);
    var s6 := Next(s5, e[0]);
    var s7 := Next(s6, e[1]);
    var s8 := Next(s7, e[2]);
    assert s8.workers[0] == Worker(init, [Holding(Some(first)), Holding(Some(second))], []);
    var s9 := Next(s8, e[3]);
    assert s9.workers[0] == Worker(second, [Holding(Some(first)), Idle], [second]);
    var s10 := Next(s9, e[4]);
    assert s10.workers[0] == Worker(first, [Idle, Idle], [second, first]);
    assert s10.workers == [Worker(first, [Idle, Idle], [second, first])] && s10.published == [first, second];
    Step(s9, e[4..], s10); Step(s8, e[3..], s9); Step(s7, e[2..], s8); Step(s6, e[1..], s7); Step(s5, e, s6);
  }

  lemma Step(s: World, events: seq<Event>, s': World)
    requires events != [] && Enabled(s, events[0]) && Next(s, events[0]) == s' && Feasible(s', events[1..])
    ensures Feasible(s, events) && Run(s, events) == Run(s', events[1..])
  {
  }

  // ---------- Which fetch an answer rests on ----------

  /** For a worker: how many snapshots had been stored at each thread's last fetch, and at
      the fetch behind the fill that set memory. */
  datatype Tags = Tags(fetched: map<nat, int>, memory: int)

  function TagOf(tags: Tags, th: nat): int {
    if th in tags.fetched then tags.fetched[th] else 0
  }

  /** A fetch is tagged with the number of stores so far; a fill that finds a snapshot
      takes its thread's tag. */
  function Retagged(s: World, e: Event, w: nat, tags: Tags): Tags
    requires Enabled(s, e)
  {
    match e
    case Fetch(v, th) => if v == w then tags.(fetched := tags.fetched[th := Stored(s)]) else tags
    case Fill(v, th) =>
      if v == w && s.workers[w].threads[th].stored.Some? then tags.(memory := TagOf(tags, th)) else tags
    case _ => tags
  }

  function TagsAfter(s: World, events: seq<Event>, w: nat, tags: Tags): Tags
    requires Feasible(s, events)
    decreases |events|
  {
    if events == [] then tags
    else TagsAfter(Next(s, events[0]), events[1..], w, Retagged(s, events[0], w, tags))
  }

  /** Snapshot number `tag` of those stored. */
  predicate IsNumber(published: seq<Dict>, stored: int, tag: int, d: Dict) {
    0 < tag <= stored <= |published| && published[tag - 1] == d
  }

  /** Memory and every held snapshot are the ones their tags say. */
  predicate Tagged(k: Worker, published: seq<Dict>, stored: int, tags: Tags) {
    && (!Empty(k.memory) ==> IsNumber(published, stored, tags.memory, k.memory))
    && (forall th :: 0 <= th < |k.threads| && k.threads[th].Holding? && k.threads[th].stored.Some? ==>
          IsNumber(published, stored, TagOf(tags, th), k.threads[th].stored.value))
  }

  lemma PublishKeepsTags(k: Worker, published: seq<Dict>, d: Dict, stored: int, tags: Tags)
    requires Tagged(k, published, stored, tags)
    ensures Tagged(k, published + [d], stored, tags)
  {
  }

  lemma StoreKeepsTags(k: Worker, published: seq<Dict>, stored: int, tags: Tags)
    requires Tagged(k, published, stored, tags) && stored < |published|
    ensures Tagged(k, published, stored + 1, tags)
  {
  }

  lemma LookKeepsTags(k: Worker, th: nat, published: seq<Dict>, stored: int, tags: Tags)
    requires Tagged(k, published, stored, tags) && th < |k.threads|
    ensures Tagged(Looked(k, th), published, stored, tags)
  {
  }

  lemma FetchKeepsTags(k: Worker, th: nat, store: Option<Dict>, published: seq<Dict>, stored: int, tags: Tags)
    requires Tagged(k, published, stored, tags) && th < |k.threads|
    requires 0 <= stored <= |published| && store == (if stored == 0 then None else Some(published[stored - 1]))
    ensures Tagged(k.(threads := k.threads[th := Holding(store)]), published, stored,
                   tags.(fetched := tags.fetched[th := stored]))
  {
  }

  lemma FillKeepsTags(k: Worker, th: nat, init: Dict, published: seq<Dict>, stored: int, tags: Tags)
    requires WorkerOk(k, init, published) && Tagged(k, published, stored, tags) && th < |k.threads| && k.threads[th].Holding?
    requires forall i :: 0 <= i < |published| ==> published[i].Keys == init.Keys
    ensures Tagged(Filled(k, th), published, stored,
                   if k.threads[th].stored.Some? then tags.(memory := TagOf(tags, th)) else tags)
  {
    FilledIsOk(k, th, init, published);
  }

  predicate Labelled(s: World, init: Dict, w: nat, tags: Tags) {
    Inv(s, init) && InOrder(s) && w < |s.workers| && Tagged(s.workers[w], s.published, Stored(s), tags)
  }

  lemma StepKeepsTags(s: World, e: Event, init: Dict, w: nat, tags: Tags)
    requires Labelled(s, init, w, tags) && Enabled(s, e)
    ensures w < |Next(s, e).workers|
    ensures Tagged(Next(s, e).workers[w], Next(s, e).published, Stored(Next(s, e)), Retagged(s, e, w, tags))
  {
    var k, stored := s.workers[w], Stored(s);
    match e
    case Publish(fields) => PublishKeepsTags(k, s.published, s.collector + fields, stored, tags);
    case WriteStore => StoreKeepsTags(k, s.published, stored, tags);
    case FailedCycle =>
    case Look(v, th) =>
      if v == w { LookKeepsTags(k, th, s.published, stored, tags); }
    case Fetch(v, th) =>
      if v == w { FetchKeepsTags(k, th, s.store, s.published, stored, tags); }
    case Fill(v, th) =>
      if v == w {
        assert WorkerOk(k, init, s.published);
        FillKeepsTags(k, th, init, s.published, stored, tags);
      }
  }

  lemma StepKeepsLabelled(s: World, e: Event, init: Dict, w: nat, tags: Tags)
    requires Labelled(s, init, w, tags) && Enabled(s, e)
    ensures Labelled(Next(s, e), init, w, Retagged(s, e, w, tags))
  {
    StepKeepsTags(s, e, init, w, tags);
    StepKeepsInv(s, e, init);
    StepKeepsOrder(s, e);
  }

  lemma {:induction false} RunKeepsLabelled(s: World, events: seq<Event>, init: Dict, w: nat, tags: Tags)
    requires Labelled(s, init, w, tags) && Feasible(s, events)
    ensures Labelled(Run(s, events), init, w, TagsAfter(s, events, w, tags))
    decreases |events|
  {
    if events == [] {
    } else {
      StepKeepsLabelled(s, events[0], init, w, tags);
      RunKeepsLabelled(Next(s, events[0]), events[1..], init, w, Retagged(s, events[0], w, tags));
    }
  }

  const NO_TAGS: Tags := Tags(map[], 0)

  /** The worker's memory, if filled, is the snapshot that was stored last when the fetch
      behind its last fill was made. */
  lemma MemoryIsWhatItsFetchFound(s: World, events: seq<Event>, init: Dict, w: nat)
    requires Starts(s, init) && Feasible(s, events) && w < |s.workers|
    ensures var r := Run(s, events);
            var tag := TagsAfter(s, events, w, NO_TAGS).memory;
            && w < |r.workers| && 0 <= Stored(r) <= |r.published|
            && r.store == (if Stored(r) == 0 then None else Some(r.published[Stored(r) - 1]))
            && (!Empty(r.workers[w].memory) ==> 0 < tag <= Stored(r) && r.workers[w].memory == r.published[tag - 1])
  {
    RunKeepsLabelled(s, events, init, w, NO_TAGS);
  }

  /** The worker answers at this event: a look at a filled memory, or a fill. */
  predicate GivesAnswer(s: World, e: Event, w: nat)
    requires Enabled(s, e)
  {
    (e.Look? && e.w == w && !Empty(s.workers[w].memory)) || (e.Fill? && e.w == w)
  }

  lemma AnswerIsMemory(s: World, e: Event, w: nat)
    requires Enabled(s, e) && GivesAnswer(s, e, w)
    ensures var k := Next(s, e).workers[w];
            k.answers == s.workers[w].answers + [k.memory]
  {
  }

  /** Under any interleaving, when no snapshot is published twice: a non-empty answer is
      the collector's latest stored snapshot if and only if nothing was stored since the
      fetch behind the fill that set the worker's memory. */
  lemma AnswerIsLatestIffNothingWasStoredSinceItsFetch(s: World, events: seq<Event>, e: Event, init: Dict, w: nat)
    requires Starts(s, init) && Feasible(s, events) && w < |s.workers|
    requires Enabled(Run(s, events), e) && w < |Run(s, events).workers| && GivesAnswer(Run(s, events), e, w)
    requires AllDifferent(Run(s, events).published)
    ensures var r := Next(Run(s, events), e);
            var tags := Retagged(Run(s, events), e, w, TagsAfter(s, events, w, NO_TAGS));
            && r.workers[w].answers == Run(s, events).workers[w].answers + [r.workers[w].memory]
            && (!Empty(r.workers[w].memory) ==> r.store.Some?)
            && (!Empty(r.workers[w].memory) ==> (r.workers[w].memory == r.store.value <==> tags.memory == Stored(r)))
  {
    var before := Run(s, events);
    var tags := TagsAfter(s, events, w, NO_TAGS);
    RunKeepsLabelled(s, events, init, w, NO_TAGS);
    StepKeepsLabelled(before, e, init, w, tags);
    AnswerIsMemory(before, e, w);
    AnsweringPublishesNothing(before, e, w);
    LatestIffLatestTag(Next(before, e), init, w, Retagged(before, e, w, tags));
  }

  lemma AnsweringPublishesNothing(s: World, e: Event, w: nat)
    requires Enabled(s, e) && GivesAnswer(s, e, w)
    ensures Next(s, e).published == s.published
  {
  }

  lemma LatestIffLatestTag(s: World, init: Dict, w: nat, tags: Tags)
    requires Labelled(s, init, w, tags) && AllDifferent(s.published)
    ensures !Empty(s.workers[w].memory) ==> s.store.Some?
    ensures !Empty(s.workers[w].memory) ==> (s.workers[w].memory == s.store.value <==> tags.memory == Stored(s))
  {
  }

  /** A thread looks, finds the first snapshot, and fills only after a second is stored. */
  function LateFill(first: Dict, second: Dict): seq<Event> {
    [Look(0, 0), Publish(first), WriteStore, Fetch(0, 0)] + [Publish(second), WriteStore, Fill(0, 0)]
  }

  lemma LateFillFirstHalf(init: Dict, first: Dict)
    requires Empty(init) && !Empty(first) && first.Keys == init.Keys
    ensures var s := World(None, init, None, [Worker(init, [Idle], [])], []);
            var events := [Look(0, 0), Publish(first), WriteStore, Fetch(0, 0)];
            && Feasible(s, events)
            && Run(s, events) == World(Some(first), first, None, [Worker(init, [Holding(Some(first))], [])], [first])
  {
    OverwriteWhole(init, first);
    var e := [Look(0, 0), Publish(first), WriteStore, Fetch(0, 0)];
    var s0 := World(None, init, None, [Worker(init, [Idle], [])], []);
    var s1 := Next(s0, e[0]);
    assert s1.workers[0].threads == [Missed];
    var s2 := Next(s1, e[1]);
    var s3 := Next(s2, e[2]);
    var s4 := Next(s3, e[3]);
    assert s4.workers[0].threads == [Holding(Some(first))];
    Step(s3, e[3..], s4); Step(s2, e[2..], s3); Step(s1, e[1..], s2); Step(s0, e, s1);
  }

  lemma LateFillSecondHalf(init: Dict, first: Dict, second: Dict)
    requires Empty(init) && !Empty(first) && !Empty(second)
    requires first.Keys == init.Keys && second.Keys == init.Keys
    ensures var s := World(Some(first), first, None, [Worker(init, [Holding(Some(first))], [])], [first]);
            var events := [Publish(second), WriteStore, Fill(0, 0)];
            && Feasible(s, events)
            && Run(s, events) == World(Some(second), second, None, [Worker(first, [Idle], [first])], [first, second])
  {
    OverwriteWhole(init, first);
    OverwriteWhole(first, second);
    var e := [Publish(second), WriteStore, Fill(0, 0)];
    var s0 := World(Some(first), first, None, [Worker(init, [Holding(Some(first))], [])], [first]);
    var s1 := Next(s0, e[0]);
    var s2 := Next(s1, e[1]);
    var s3 := Next(s2, e[2]);
    assert s3.workers[0] == Worker(first, [Idle], [first]);
    Step(s2, e[2..], s3); Step(s1, e[1..], s2); Step(s0, e, s1);
  }

  /** An answer that is stale although nothing was stored since the worker was filled:
      the snapshot was replaced between the fetch and the fill. */
  lemma FreshlyFilledWorkerIsStale(init: Dict, first: Dict, second: Dict)
    requires Empty(init) && !Empty(first) && !Empty(second)
    requires first.Keys == init.Keys && second.Keys == init.Keys
    ensures var s := World(None, init, None, [Worker(init, [Idle], [])], []);
            && Starts(s, init) && Feasible(s, LateFill(first, second))
            && Run(s, LateFill(first, second))
                 == World(Some(second), second, None, [Worker(first, [Idle], [first])], [first, second])
  {
    LateFillFirstHalf(init, first);
    LateFillSecondHalf(init, first, second);
    RunOfConcatenation(World(None, init, None, [Worker(init, [Idle], [])], []),
                       [Look(0, 0), Publish(first), WriteStore, Fetch(0, 0)], [Publish(second), WriteStore, Fill(0, 0)]);
  }

  // ---------- When get_cached is not interrupted ----------

  /** A complete get_cached of worker w with nothing in between. */
  function Get(s: World, w: nat): World
    requires w < |s.workers|
  {
    var k := s.workers[w];
    var memory := if Empty(k.memory) && s.store.Some? then k.memory + s.store.value else k.memory;
    s.(workers := s.workers[w := k.(memory := memory, answers := k.answers + [memory])])
  }

  /** It is what one idle thread does in its own steps. */
  lemma GetIsTheThreeSteps(s: World, w: nat, th: nat)
    requires HasThread(s, w, th) && s.workers[w].threads[th].Idle?
    ensures var looked := Next(s, Look(w, th));
            Get(s, w) ==
              if !Empty(s.workers[w].memory) then looked
              else Next(Next(looked, Fetch(w, th)), Fill(w, th))
  {
    var k := s.workers[w];
    assert k.threads[th := Missed][th := Holding(s.store)][th := Idle] == k.threads;
    if Empty(k.memory) {
      var looked := Next(s, Look(w, th));
      var fetched := Next(looked, Fetch(w, th));
      assert fetched.workers[w].threads[th] == Holding(s.store);
      assert fetched.workers[w].threads[th := Idle] == k.threads;
    }
  }

  /** Polls, and complete reads by any worker. */
  datatype Coarse = Poll(e: Event) | Read(w: nat)

  predicate CoarseEnabled(s: World, c: Coarse) {
    match c
    case Poll(e) => (e.Publish? || e.WriteStore? || e.FailedCycle?) && Enabled(s, e)
    case Read(w) => w < |s.workers|
  }

  function CoarseNext(s: World, c: Coarse): World
    requires CoarseEnabled(s, c)
  {
    match c
    case Poll(e) => Next(s, e)
    case Read(w) => Get(s, w)
  }

  predicate CoarseFeasible(s: World, steps: seq<Coarse>)
    decreases |steps|
  {
    steps == [] || (CoarseEnabled(s, steps[0]) && CoarseFeasible(CoarseNext(s, steps[0]), steps[1..]))
  }

  function CoarseRun(s: World, steps: seq<Coarse>): World
    requires CoarseFeasible(s, steps)
    decreases |steps|
  {
    if steps == [] then s else CoarseRun(CoarseNext(s, steps[0]), steps[1..])
  }

  lemma {:induction false} SettledRun(s: World, steps: seq<Coarse>, w: nat)
    requires CoarseFeasible(s, steps) && w < |s.workers| && Settled(s.workers[w])
    ensures |CoarseRun(s, steps).workers| == |s.workers| && Settled(CoarseRun(s, steps).workers[w])
    decreases |steps|
  {
    if steps == [] {
    } else {
      SettledRun(CoarseNext(s, steps[0]), steps[1..], w);
    }
  }

  /** With uninterrupted reads a worker's answer never changes once it is non-empty. */
  lemma AnswersNeverChangeOnceFilled(s: World, steps: seq<Coarse>, init: Dict, w: nat)
    requires Starts(s, init) && CoarseFeasible(s, steps) && w < |s.workers|
    ensures var r := CoarseRun(s, steps);
            && |r.workers| == |s.workers|
            && forall i, j :: 0 <= i < j < |r.workers[w].answers| && !Empty(r.workers[w].answers[i]) ==>
                 r.workers[w].answers[j] == r.workers[w].answers[i]
  {
    SettledRun(s, steps, w);
  }

  // ---------- How far behind a worker is ----------

  /** How many snapshots were stored while worker `w` was already filled. */
  function StoresSinceFill(s: World, steps: seq<Coarse>, w: nat): nat
    requires CoarseFeasible(s, steps) && w < |s.workers|
    decreases |steps|
  {
    if steps == [] then 0
    else FallsBack(s, steps[0], w) + StoresSinceFill(CoarseNext(s, steps[0]), steps[1..], w)
  }

  /** A filled worker holds the snapshot stored `n` stores ago. */
  predicate Behind(s: World, w: nat, n: nat)
    requires w < |s.workers|
  {
    if Empty(s.workers[w].memory) then n == 0
    else n < Stored(s) <= |s.published| && s.workers[w].memory == s.published[Stored(s) - 1 - n]
  }

  lemma GetKeepsInv(s: World, init: Dict, v: nat)
    requires Inv(s, init) && InOrder(s) && v < |s.workers|
    ensures Inv(Get(s, v), init) && InOrder(Get(s, v))
    ensures Get(s, v).workers[v].memory ==
              if Empty(s.workers[v].memory) && s.store.Some? then s.store.value else s.workers[v].memory
  {
    assert WorkerOk(s.workers[v], init, s.published);
    if s.store.Some? {
      OverwriteWhole(s.workers[v].memory, s.store.value);
    }
    assert WorkerOk(Get(s, v).workers[v], init, s.published);
  }

  predicate Lags(s: World, init: Dict, w: nat, n: nat) {
    Inv(s, init) && InOrder(s) && w < |s.workers| && Behind(s, w, n)
  }

  /** What one step adds to `StoresSinceFill`. */
  function FallsBack(s: World, c: Coarse, w: nat): nat
    requires w < |s.workers|
  {
    if c == Poll(WriteStore) && !Empty(s.workers[w].memory) then 1 else 0
  }

  lemma PollKeepsBehind(s: World, e: Event, w: nat, n: nat)
    requires InOrder(s) && Enabled(s, e) && (e.Publish? || e.WriteStore? || e.FailedCycle?)
    requires w < |s.workers| && Behind(s, w, n)
    ensures Next(s, e).workers == s.workers && Behind(Next(s, e), w, n + FallsBack(s, Poll(e), w))
  {
  }

  lemma CoarseStepKeepsLag(s: World, c: Coarse, init: Dict, w: nat, n: nat)
    requires Lags(s, init, w, n) && CoarseEnabled(s, c)
    ensures Lags(CoarseNext(s, c), init, w, n + FallsBack(s, c, w))
  {
    match c
    case Poll(e) =>
      StepKeepsInv(s, e, init);
      StepKeepsOrder(s, e);
      PollKeepsBehind(s, e, w, n);
    case Read(v) =>
      GetKeepsInv(s, init, v);
  }

  lemma {:induction false} CoarseRunKeepsWorkers(s: World, steps: seq<Coarse>)
    requires CoarseFeasible(s, steps)
    ensures |CoarseRun(s, steps).workers| == |s.workers|
    decreases |steps|
  {
    if steps == [] {
    } else {
      CoarseRunKeepsWorkers(CoarseNext(s, steps[0]), steps[1..]);
    }
  }

  lemma {:induction false} CoarseRunKeepsLag(s: World, steps: seq<Coarse>, init: Dict, w: nat, n: nat, total: nat)
    requires Lags(s, init, w, n) && CoarseFeasible(s, steps) && total == n + StoresSinceFill(s, steps, w)
    ensures Lags(CoarseRun(s, steps), init, w, total)
    decreases |steps|
  {
    if steps == [] {
    } else {
      CoarseStepKeepsLag(s, steps[0], init, w, n);
      CoarseRunKeepsLag(CoarseNext(s, steps[0]), steps[1..], init, w, n + FallsBack(s, steps[0], w), total);
    }
  }

  /** The answer of a read made now. */
  function AnswerOf(s: World, w: nat): Dict
    requires w < |s.workers|
  {
    var answers := Get(s, w).workers[w].answers;
    answers[|answers| - 1]
  }

  /** After any run of polls and uninterrupted reads, a worker answers with the snapshot
      that lies exactly as many stores back as were made since it was filled. */
  lemma WorkerIsThatManyStoresBehind(s: World, steps: seq<Coarse>, init: Dict, w: nat)
    requires Starts(s, init) && CoarseFeasible(s, steps) && w < |s.workers|
    ensures var r := CoarseRun(s, steps);
            var n := StoresSinceFill(s, steps, w);
            && |r.workers| == |s.workers| && 0 <= Stored(r) <= |r.published|
            && (Stored(r) == 0 ==> AnswerOf(r, w) == init)
            && (Stored(r) > 0 ==> n < Stored(r) && AnswerOf(r, w) == r.published[Stored(r) - 1 - n])
  {
    var r := CoarseRun(s, steps);
    CoarseRunKeepsWorkers(s, steps);
    CoarseRunKeepsLag(s, steps, init, w, 0, StoresSinceFill(s, steps, w));
    GetKeepsInv(r, init, w);
    assert WorkerOk(r.workers[w], init, r.published);
  }

  /** So, with uninterrupted reads and when no snapshot is published twice, an answer is the collector's latest
      stored snapshot if and only if nothing was stored since the worker was filled. */
  lemma UninterruptedAnswerIsLatestIffNothingWasStoredSinceTheFill(s: World, steps: seq<Coarse>, init: Dict, w: nat)
    requires Starts(s, init) && CoarseFeasible(s, steps) && w < |s.workers|
    requires AllDifferent(CoarseRun(s, steps).published) && CoarseRun(s, steps).store.Some?
    ensures var r := CoarseRun(s, steps);
            && |r.workers| == |s.workers|
            && (AnswerOf(r, w) == r.store.value <==> StoresSinceFill(s, steps, w) == 0)
  {
    WorkerIsThatManyStoresBehind(s, steps, init, w);
    CoarseRunKeepsWorkers(s, steps);
    CoarseRunKeepsLag(s, steps, init, w, 0, StoresSinceFill(s, steps, w));
  }

  /** A collector that stores two snapshots, around a read. */
  function StoreAndRead(d: Dict): seq<Coarse> {
    [Poll(Publish(d)), Poll(WriteStore), Read(0)]
  }

  lemma FirstReadFills(init: Dict, first: Dict)
    requires Empty(init) && !Empty(first) && first.Keys == init.Keys
    ensures var s := World(None, init, None, [Worker(init, [Idle], [])], []);
            && CoarseFeasible(s, StoreAndRead(first))
            && CoarseRun(s, StoreAndRead(first)) == World(Some(first), first, None, [Worker(first, [Idle], [first])], [first])
  {
    OverwriteWhole(init, first);
    var steps := StoreAndRead(first);
    var s0 := World(None, init, None, [Worker(init, [Idle], [])], []);
    var s1 := CoarseNext(s0, steps[0]);
    var s2 := CoarseNext(s1, steps[1]);
    var s3 := CoarseNext(s2, steps[2]);
    assert s3.workers[0] == Worker(first, [Idle], [first]);
    CoarseStep(s2, steps[2..], s3); CoarseStep(s1, steps[1..], s2); CoarseStep(s0, steps, s1);
  }

  lemma SecondReadIsStale(first: Dict, second: Dict)
    requires !Empty(first) && !Empty(second) && first.Keys == second.Keys
    ensures var s := World(Some(first), first, None, [Worker(first, [Idle], [first])], [first]);
            && CoarseFeasible(s, StoreAndRead(second))
            && CoarseRun(s, StoreAndRead(second))
                 == World(Some(second), second, None, [Worker(first, [Idle], [first, first])], [first, second])
  {
    OverwriteWhole(first, second);
    var steps := StoreAndRead(second);
    var s0 := World(Some(first), first, None, [Worker(first, [Idle], [first])], [first]);
    var s1 := CoarseNext(s0, steps[0]);
    var s2 := CoarseNext(s1, steps[1]);
    var s3 := CoarseNext(s2, steps[2]);
    assert s3.workers[0] == Worker(first, [Idle], [first, first]);
    CoarseStep(s2, steps[2..], s3); CoarseStep(s1, steps[1..], s2); CoarseStep(s0, steps, s1);
  }

  /** A run in which the worker still answers with the first snapshot after a second was
      stored. */
  lemma FilledWorkerGoesStale(init: Dict, first: Dict, second: Dict)
    requires Empty(init) && !Empty(first) && !Empty(second)
    requires first.Keys == init.Keys && second.Keys == init.Keys
    ensures var s := World(None, init, None, [Worker(init, [Idle], [])], []);
            var steps := StoreAndRead(first) + StoreAndRead(second);
            && Starts(s, init) && CoarseFeasible(s, steps)
            && CoarseRun(s, steps) == World(Some(second), second, None, [Worker(first, [Idle], [first, first])], [first, second])
  {
    FirstReadFills(init, first);
    SecondReadIsStale(first, second);
    CoarseRunOfConcatenation(World(None, init, None, [Worker(init, [Idle], [])], []), StoreAndRead(first), StoreAndRead(second));
  }

  lemma {:induction false} CoarseRunOfConcatenation(s: World, a: seq<Coarse>, b: seq<Coarse>)
    requires CoarseFeasible(s, a) && CoarseFeasible(CoarseRun(s, a), b)
    ensures CoarseFeasible(s, a + b) && CoarseRun(s, a + b) == CoarseRun(CoarseRun(s, a), b)
    decreases |a|
  {
    if a == [] {
      assert a + b == b;
    } else {
      assert (a + b)[1..] == a[1..] + b;
      CoarseRunOfConcatenation(CoarseNext(s, a[0]), a[1..], b);
    }
  }

  lemma CoarseStep(s: World, steps: seq<Coarse>, s': World)
    requires steps != [] && CoarseEnabled(s, steps[0]) && CoarseNext(s, steps[0]) == s' && CoarseFeasible(s', steps[1..])
    ensures CoarseFeasible(s, steps) && CoarseRun(s, steps) == CoarseRun(s', steps[1..])
  {
  }
}
