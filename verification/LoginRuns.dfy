/** Concurrent guarantee of the login limiter. Requests interleave at the granularity
    of its critical sections: a request checks, then (while others run) verifies the
    password, then records a failure or clears the keys, or does neither because the
    password check raised. */
module LoginRuns {
  import opened LoginLimiter

  /** A request that passed the check and has not yet recorded, cleared or given up. */
  datatype Attempt = Attempt(ip: string, name: string, checkedAt: real)

  /** The tables, the failures recorded under each key since that key was last reset
      (cleared or evicted), the requests in flight, and the highest clock reading that
      has reached the lock. */
  datatype World = World(tables: Tables, ipLog: map<string, seq<real>>, userLog: map<string, seq<real>>,
                         pending: seq<Attempt>, latest: real)

  datatype Event =
    | Check(ip: string, name: string, now: real)
    | Fail(i: nat, now: real)
    | Succeed(i: nat)
    | Abandon(i: nat)

  datatype Dim = ByIp | ByUser

  function Limit(dim: Dim): nat { if dim == ByIp then IP_MAX else USER_MAX }

  function KeyOf(dim: Dim, a: Attempt): string { if dim == ByIp then a.ip else a.name }

  function Table(dim: Dim, w: World): map<string, seq<real>> {
    if dim == ByIp then w.tables.ip else w.tables.user
  }

  /** The failures recorded under a key since its last reset. */
  function SinceReset(w: World, dim: Dim, key: string): seq<real> {
    Get(if dim == ByIp then w.ipLog else w.userLog, key)
  }

  function Later(a: real, b: real): real { if a <= b then b else a }

  function Without(p: seq<Attempt>, i: nat): seq<Attempt>
    requires i < |p|
  {
    p[..i] + p[i + 1..]
  }

  /** A request's own readings are in order; a reading reaches the lock at most `slack`
      behind one that got there before it. */
  predicate Enabled(w: World, e: Event, slack: real) {
    match e
    case Check(_, _, now) => now >= w.latest - slack
    case Fail(i, now) => i < |w.pending| && now >= w.latest - slack && now >= w.pending[i].checkedAt
    case Succeed(i) => i < |w.pending|
    case Abandon(i) => i < |w.pending|
  }

  function Next(w: World, e: Event, slack: real): World
    requires Enabled(w, e, slack)
  {
    match e
    case Check(ip, name, now) =>
      var t := Checked(w.tables, ip, name, now);
      w.(tables := t, latest := Later(w.latest, now),
         pending := if Limited(t, ip, name) then w.pending else w.pending + [Attempt(ip, name, now)])
    case Fail(i, now) =>
      var a := w.pending[i];
      var kept := if Evicts(w.tables, a.name) then w.userLog - {w.tables.order[0]} else w.userLog;
      World(Recorded(w.tables, a.ip, a.name, now),
            w.ipLog[a.ip := Get(w.ipLog, a.ip) + [now]],
            kept[a.name := Get(kept, a.name) + [now]],
            Without(w.pending, i), Later(w.latest, now))
    case Succeed(i) =>
      var a := w.pending[i];
      World(Cleared(w.tables, a.ip, a.name), w.ipLog - {a.ip}, w.userLog - {a.name},
            Without(w.pending, i), w.latest)
    case Abandon(i) => w.(pending := Without(w.pending, i))
  }

  function Start(t0: real): World {
    World(Tables(map[], map[], []), map[], map[], [], t0)
  }

  predicate Feasible(t0: real, events: seq<Event>, slack: real)
    decreases |events|, 0
  {
    events == [] ||
    (Feasible(t0, events[..|events| - 1], slack) &&
     Enabled(Run(t0, events[..|events| - 1], slack), events[|events| - 1], slack))
  }

  function Run(t0: real, events: seq<Event>, slack: real): World
    requires Feasible(t0, events, slack)
    decreases |events|, 1
  {
    if events == [] then Start(t0)
    else Next(Run(t0, events[..|events| - 1], slack), events[|events| - 1], slack)
  }

  // ---------- Counting ----------

  /** How many of the times lie in the half-open window (lo, hi]. */
  function CountIn(times: seq<real>, lo: real, hi: real): nat {
    if times == [] then 0
    else CountIn(times[..|times| - 1], lo, hi) + if lo < times[|times| - 1] <= hi then 1 else 0
  }

  /** Requests in flight for a key. */
  function InFlight(p: seq<Attempt>, dim: Dim, key: string): nat {
    if p == [] then 0
    else InFlight(p[..|p| - 1], dim, key) + if KeyOf(dim, p[|p| - 1]) == key then 1 else 0
  }

  /** Each request counts once for its own keys and not for others. */
  lemma {:induction false} InFlightAddsUp(p: seq<Attempt>, q: seq<Attempt>, dim: Dim, key: string)
    ensures InFlight(p + q, dim, key) == InFlight(p, dim, key) + InFlight(q, dim, key)
    ensures forall a: Attempt :: InFlight([a], dim, key) == if key == (if dim == ByIp then a.ip else a.name) then 1 else 0
  {
    assert forall a: Attempt :: [a][..0] == [];
    if q == [] {
      assert p + q == p;
    } else {
      assert (p + q)[..|p + q| - 1] == p + q[..|q| - 1];
      InFlightAddsUp(p, q[..|q| - 1], dim, key);
    }
  }

  /** Those of them that were checked no later than `hi`. */
  function InFlightBy(p: seq<Attempt>, dim: Dim, key: string, hi: real): nat {
    if p == [] then 0
    else
      InFlightBy(p[..|p| - 1], dim, key, hi) +
      if KeyOf(dim, p[|p| - 1]) == key && p[|p| - 1].checkedAt <= hi then 1 else 0
  }

  lemma {:induction false} InFlightByAtMost(p: seq<Attempt>, dim: Dim, key: string, hi: real)
    ensures InFlightBy(p, dim, key, hi) <= InFlight(p, dim, key)
  {
    if p == [] {
    } else {
      InFlightByAtMost(p[..|p| - 1], dim, key, hi);
    }
  }

  lemma RecentOfAppended(times: seq<real>, t: real, cutoff: real)
    ensures Recent(times + [t], cutoff) == Recent(times, cutoff) + if t > cutoff then [t] else []
  {
    assert (times + [t])[..|times|] == times;
  }

  lemma CountOfAppended(times: seq<real>, t: real, lo: real, hi: real)
    ensures CountIn(times + [t], lo, hi) == CountIn(times, lo, hi) + if lo < t <= hi then 1 else 0
  {
    assert (times + [t])[..|times|] == times;
  }

  lemma {:induction false} RecentTwice(times: seq<real>, c1: real, c2: real)
    ensures Recent(Recent(times, c1), c2) == Recent(times, Later(c1, c2))
  {
    if times == [] {
    } else {
      var rest, last := times[..|times| - 1], times[|times| - 1];
      RecentTwice(rest, c1, c2);
      if last > c1 {
        RecentOfAppended(Recent(rest, c1), last, c2);
      } else {
        assert Recent(times, c1) == Recent(rest, c1);
      }
    }
  }

  lemma {:induction false} WindowFitsInRecent(times: seq<real>, lo: real, hi: real, cutoff: real)
    requires cutoff <= lo
    ensures CountIn(times, lo, hi) <= |Recent(times, cutoff)|
  {
    if times == [] {
    } else {
      WindowFitsInRecent(times[..|times| - 1], lo, hi, cutoff);
    }
  }

  lemma WithoutSplits(p: seq<Attempt>, i: nat)
    requires i < |p| - 1
    ensures Without(p, i) == Without(p[..|p| - 1], i) + [p[|p| - 1]]
  {
  }

  lemma InFlightByAppended(p: seq<Attempt>, a: Attempt, dim: Dim, key: string, hi: real)
    ensures InFlightBy(p + [a], dim, key, hi) ==
            InFlightBy(p, dim, key, hi) + if KeyOf(dim, a) == key && a.checkedAt <= hi then 1 else 0
  {
    assert (p + [a])[..|p|] == p;
  }

  lemma {:induction false} InFlightByWithout(p: seq<Attempt>, i: nat, dim: Dim, key: string, hi: real)
    requires i < |p|
    ensures InFlightBy(Without(p, i), dim, key, hi) ==
            InFlightBy(p, dim, key, hi) - (if KeyOf(dim, p[i]) == key && p[i].checkedAt <= hi then 1 else 0)
    decreases |p|
  {
    var n := |p| - 1;
    if i == n {
      assert Without(p, i) == p[..n];
    } else {
      InFlightByWithout(p[..n], i, dim, key, hi);
      WithoutSplits(p, i);
      InFlightByAppended(Without(p[..n], i), p[n], dim, key, hi);
    }
  }

  // ---------- The invariant of one key ----------

  predicate KeptSince(kept: seq<real>, log: seq<real>, cutoff: real) {
    kept == Recent(log, cutoff)
  }

  /** The table still holds every logged failure newer than some cutoff that no check
      has pushed beyond `latest` minus the window. */
  ghost predicate Retains(w: World, dim: Dim, key: string) {
    exists cutoff :: cutoff <= w.latest - WINDOW &&
      KeptSince(Get(Table(dim, w), key), SinceReset(w, dim, key), cutoff)
  }

  /** Failures already in a window, plus requests in flight that may still land in it. */
  function Load(w: World, dim: Dim, key: string, lo: real, hi: real): nat {
    CountIn(SinceReset(w, dim, key), lo, hi) + InFlightBy(w.pending, dim, key, hi)
  }

  ghost predicate Bounded(w: World, dim: Dim, key: string, k: nat, slack: real) {
    forall lo, hi {:trigger Load(w, dim, key, lo, hi)} :: hi - lo <= WINDOW - slack ==>
      Load(w, dim, key, lo, hi) <= Limit(dim) - 1 + k
  }

  ghost predicate KeyInv(w: World, dim: Dim, key: string, k: nat, slack: real) {
    Retains(w, dim, key) && Bounded(w, dim, key, k, slack)
  }

  lemma CheckRetains(w: World, ip: string, name: string, now: real, slack: real, dim: Dim, key: string)
    requires Enabled(w, Check(ip, name, now), slack) && Retains(w, dim, key)
    ensures Retains(Next(w, Check(ip, name, now), slack), dim, key)
  {
    var w' := Next(w, Check(ip, name, now), slack);
    var cutoff :| cutoff <= w.latest - WINDOW &&
      KeptSince(Get(Table(dim, w), key), SinceReset(w, dim, key), cutoff);
    RecentTwice(SinceReset(w, dim, key), cutoff, now - WINDOW);
    var cutoff' := if KeyOf(dim, Attempt(ip, name, now)) == key then Later(cutoff, now - WINDOW) else cutoff;
    assert KeptSince(Get(Table(dim, w'), key), SinceReset(w', dim, key), cutoff');
  }

  /** A request for the key is let through only while its table is below the limit, so
      the failures in any window are too. */
  lemma AdmittedWindow(w: World, dim: Dim, key: string, lo: real, hi: real, slack: real, now: real)
    requires Retains(w, dim, key) && |Get(Table(dim, w), key)| < Limit(dim)
    requires hi - lo <= WINDOW - slack && now >= w.latest - slack && now <= hi
    ensures CountIn(SinceReset(w, dim, key), lo, hi) <= Limit(dim) - 1
  {
    var cutoff :| cutoff <= w.latest - WINDOW &&
      KeptSince(Get(Table(dim, w), key), SinceReset(w, dim, key), cutoff);
    WindowFitsInRecent(SinceReset(w, dim, key), lo, hi, cutoff);
  }

  lemma CheckStaysBounded(w: World, ip: string, name: string, now: real, slack: real, dim: Dim, key: string, k: nat)
    requires 0.0 <= slack
    requires Enabled(w, Check(ip, name, now), slack) && KeyInv(w, dim, key, k, slack)
    requires InFlight(Next(w, Check(ip, name, now), slack).pending, dim, key) <= k
    ensures Bounded(Next(w, Check(ip, name, now), slack), dim, key, k, slack)
  {
    var w' := Next(w, Check(ip, name, now), slack);
    var a := Attempt(ip, name, now);
    CheckRetains(w, ip, name, now, slack, dim, key);
    forall lo, hi | hi - lo <= WINDOW - slack
      ensures Load(w', dim, key, lo, hi) <= Limit(dim) - 1 + k
    {
      assert Load(w, dim, key, lo, hi) <= Limit(dim) - 1 + k;
      if w'.pending != w.pending {
        InFlightByAppended(w.pending, a, dim, key, hi);
        if KeyOf(dim, a) == key && now <= hi {
          AdmittedWindow(w', dim, key, lo, hi, slack, now);
          InFlightByAtMost(w'.pending, dim, key, hi);
        }
      }
    }
  }

  lemma AppendKeepsRecent(kept: seq<real>, log: seq<real>, cutoff: real, now: real)
    requires KeptSince(kept, log, cutoff) && now > cutoff
    ensures KeptSince(kept + [now], log + [now], cutoff)
  {
    RecentOfAppended(log, now, cutoff);
  }

  /** Table and log of a key change together: both grow, both start over, or neither
      moves (a new username may also empty both for the key it pushes out). */
  lemma TableAndLogAfterFail(w: World, i: nat, now: real, slack: real, dim: Dim, key: string)
    requires Enabled(w, Fail(i, now), slack)
    ensures var w' := Next(w, Fail(i, now), slack);
            var table, log := Get(Table(dim, w), key), SinceReset(w, dim, key);
            var table', log' := Get(Table(dim, w'), key), SinceReset(w', dim, key);
            if KeyOf(dim, w.pending[i]) == key
            then (table' == table + [now] && log' == log + [now]) || (table' == [] + [now] && log' == [] + [now])
            else (table' == table && log' == log) || (table' == [] && log' == [])
  {
  }

  lemma FailRetains(w: World, i: nat, now: real, slack: real, dim: Dim, key: string)
    requires slack < WINDOW
    requires Enabled(w, Fail(i, now), slack) && Retains(w, dim, key)
    ensures Retains(Next(w, Fail(i, now), slack), dim, key)
  {
    var w' := Next(w, Fail(i, now), slack);
    var table, log := Get(Table(dim, w), key), SinceReset(w, dim, key);
    var cutoff :| cutoff <= w.latest - WINDOW && KeptSince(table, log, cutoff);
    TableAndLogAfterFail(w, i, now, slack, dim, key);
    AppendKeepsRecent(table, log, cutoff, now);
    AppendKeepsRecent([], [], cutoff, now);
    assert w'.latest >= w.latest;
    assert KeptSince(Get(Table(dim, w'), key), SinceReset(w', dim, key), cutoff);
  }

  lemma FailStaysBounded(w: World, i: nat, now: real, slack: real, dim: Dim, key: string, k: nat)
    requires Enabled(w, Fail(i, now), slack) && Bounded(w, dim, key, k, slack)
    requires InFlight(w.pending, dim, key) <= k
    ensures Bounded(Next(w, Fail(i, now), slack), dim, key, k, slack)
  {
    var w' := Next(w, Fail(i, now), slack);
    TableAndLogAfterFail(w, i, now, slack, dim, key);
    forall lo, hi | hi - lo <= WINDOW - slack
      ensures Load(w', dim, key, lo, hi) <= Limit(dim) - 1 + k
    {
      assert Load(w, dim, key, lo, hi) <= Limit(dim) - 1 + k;
      InFlightByWithout(w.pending, i, dim, key, hi);
      InFlightByAtMost(w.pending, dim, key, hi);
      CountOfAppended(SinceReset(w, dim, key), now, lo, hi);
      CountOfAppended([], now, lo, hi);
    }
  }

  lemma SucceedKeepsInv(w: World, i: nat, slack: real, dim: Dim, key: string, k: nat)
    requires Enabled(w, Succeed(i), slack) && KeyInv(w, dim, key, k, slack)
    requires InFlight(w.pending, dim, key) <= k
    ensures KeyInv(Next(w, Succeed(i), slack), dim, key, k, slack)
  {
    var w' := Next(w, Succeed(i), slack);
    var cutoff :| cutoff <= w.latest - WINDOW &&
      KeptSince(Get(Table(dim, w), key), SinceReset(w, dim, key), cutoff);
    assert KeptSince(Get(Table(dim, w'), key), SinceReset(w', dim, key), cutoff);
    forall lo, hi | hi - lo <= WINDOW - slack
      ensures Load(w', dim, key, lo, hi) <= Limit(dim) - 1 + k
    {
      assert Load(w, dim, key, lo, hi) <= Limit(dim) - 1 + k;
      InFlightByWithout(w.pending, i, dim, key, hi);
      InFlightByAtMost(w.pending, dim, key, hi);
    }
  }

  lemma AbandonKeepsInv(w: World, i: nat, slack: real, dim: Dim, key: string, k: nat)
    requires Enabled(w, Abandon(i), slack) && KeyInv(w, dim, key, k, slack)
    ensures KeyInv(Next(w, Abandon(i), slack), dim, key, k, slack)
  {
    var w' := Next(w, Abandon(i), slack);
    var cutoff :| cutoff <= w.latest - WINDOW &&
      KeptSince(Get(Table(dim, w), key), SinceReset(w, dim, key), cutoff);
    assert KeptSince(Get(Table(dim, w'), key), SinceReset(w', dim, key), cutoff);
    forall lo, hi | hi - lo <= WINDOW - slack
      ensures Load(w', dim, key, lo, hi) <= Limit(dim) - 1 + k
    {
      assert Load(w, dim, key, lo, hi) <= Limit(dim) - 1 + k;
      InFlightByWithout(w.pending, i, dim, key, hi);
    }
  }

  lemma {:induction false} RunKeepsInv(t0: real, events: seq<Event>, slack: real, dim: Dim, key: string, k: nat)
    requires 0.0 <= slack < WINDOW && Feasible(t0, events, slack)
    requires AtMostInFlight(t0, events, slack, dim, key, k)
    ensures KeyInv(Run(t0, events, slack), dim, key, k, slack)
  {
    if events == [] {
      var w := Start(t0);
      assert KeptSince(Get(Table(dim, w), key), SinceReset(w, dim, key), t0 - WINDOW);
    } else {
      var before, e := events[..|events| - 1], events[|events| - 1];
      RunKeepsInv(t0, before, slack, dim, key, k);
      var w := Run(t0, before, slack);
      AtMostBefore(t0, before, slack, dim, key, k);
      match e
      case Check(ip, name, now) =>
        CheckRetains(w, ip, name, now, slack, dim, key);
        CheckStaysBounded(w, ip, name, now, slack, dim, key, k);
      case Fail(i, now) =>
        FailRetains(w, i, now, slack, dim, key);
        FailStaysBounded(w, i, now, slack, dim, key, k);
      case Succeed(i) => SucceedKeepsInv(w, i, slack, dim, key, k);
      case Abandon(i) => AbandonKeepsInv(w, i, slack, dim, key, k);
    }
  }

  lemma AtMostBefore(t0: real, events: seq<Event>, slack: real, dim: Dim, key: string, k: nat)
    requires Feasible(t0, events, slack) && AtMostInFlight(t0, events, slack, dim, key, k)
    ensures InFlight(Run(t0, events, slack).pending, dim, key) <= k
  {
  }

  /** At no moment of the run are more than `k` requests for the key in flight. */
  predicate AtMostInFlight(t0: real, events: seq<Event>, slack: real, dim: Dim, key: string, k: nat)
    requires Feasible(t0, events, slack)
  {
    && InFlight(Run(t0, events, slack).pending, dim, key) <= k
    && (events != [] ==> AtMostInFlight(t0, events[..|events| - 1], slack, dim, key, k))
  }

  // ---------- The guarantee ----------

  /** With at most `k` requests for a key in flight at any moment, no window of the
      limiter's length (shortened by the clock slack) holds more than limit - 1 + k
      failures recorded under the key since its last reset. */
  lemma ConcurrentFailureBound(t0: real, events: seq<Event>, slack: real, dim: Dim, key: string, k: nat, lo: real, hi: real)
    requires 0.0 <= slack < 600.0 && Feasible(t0, events, slack)
    requires AtMostInFlight(t0, events, slack, dim, key, k)
    requires hi - lo <= 600.0 - slack
    ensures CountIn(SinceReset(Run(t0, events, slack), dim, key), lo, hi) <= (if dim == ByIp then 10 else 5) - 1 + k
  {
    RunKeepsInv(t0, events, slack, dim, key, k);
    assert Load(Run(t0, events, slack), dim, key, lo, hi) <= Limit(dim) - 1 + k;
  }

  /** One request at a time on an orderly clock: five per username, ten per address,
      in every 600 second window. */
  lemma SequentialFailureBound(t0: real, events: seq<Event>, ip: string, name: string, lo: real)
    requires Feasible(t0, events, 0.0)
    requires AtMostInFlight(t0, events, 0.0, ByUser, name, 1) && AtMostInFlight(t0, events, 0.0, ByIp, ip, 1)
    ensures CountIn(SinceReset(Run(t0, events, 0.0), ByUser, name), lo, lo + 600.0) <= 5
    ensures CountIn(SinceReset(Run(t0, events, 0.0), ByIp, ip), lo, lo + 600.0) <= 10
  {
    ConcurrentFailureBound(t0, events, 0.0, ByUser, name, 1, lo, lo + 600.0);
    ConcurrentFailureBound(t0, events, 0.0, ByIp, ip, 1, lo, lo + 600.0);
  }

  // ---------- Old failures stop counting ----------

  /** Nothing logged lies after the highest reading. */
  ghost predicate Past(w: World, dim: Dim, key: string) {
    var log := SinceReset(w, dim, key);
    forall i :: 0 <= i < |log| ==> log[i] <= w.latest
  }

  lemma {:induction false} RunKeepsPast(t0: real, events: seq<Event>, slack: real, dim: Dim, key: string)
    requires Feasible(t0, events, slack)
    ensures Past(Run(t0, events, slack), dim, key)
  {
    if events == [] {
    } else {
      RunKeepsPast(t0, events[..|events| - 1], slack, dim, key);
      StepKeepsPast(Run(t0, events[..|events| - 1], slack), events[|events| - 1], slack, dim, key);
    }
  }

  lemma StepKeepsPast(w: World, e: Event, slack: real, dim: Dim, key: string)
    requires Enabled(w, e, slack) && Past(w, dim, key)
    ensures Past(Next(w, e, slack), dim, key)
  {
    var log, log' := SinceReset(w, dim, key), SinceReset(Next(w, e, slack), dim, key);
    if e.Fail? {
      TableAndLogAfterFail(w, e.i, e.now, slack, dim, key);
      assert log' == log || log' == log + [e.now] || log' == [] + [e.now] || log' == [];
    } else {
      assert log' == log || log' == [];
    }
  }

  lemma {:induction false} RunKeepsRetains(t0: real, events: seq<Event>, slack: real, dim: Dim, key: string)
    requires 0.0 <= slack < WINDOW && Feasible(t0, events, slack)
    ensures Retains(Run(t0, events, slack), dim, key)
  {
    if events == [] {
      var w := Start(t0);
      assert KeptSince(Get(Table(dim, w), key), SinceReset(w, dim, key), t0 - WINDOW);
    } else {
      var w, e := Run(t0, events[..|events| - 1], slack), events[|events| - 1];
      RunKeepsRetains(t0, events[..|events| - 1], slack, dim, key);
      match e
      case Check(ip, name, now) => CheckRetains(w, ip, name, now, slack, dim, key);
      case Fail(i, now) => FailRetains(w, i, now, slack, dim, key);
      case Succeed(i) => RemovalRetains(w, e, slack, dim, key);
      case Abandon(i) => RemovalRetains(w, e, slack, dim, key);
    }
  }

  lemma RemovalRetains(w: World, e: Event, slack: real, dim: Dim, key: string)
    requires Enabled(w, e, slack) && (e.Succeed? || e.Abandon?) && Retains(w, dim, key)
    ensures Retains(Next(w, e, slack), dim, key)
  {
    var w' := Next(w, e, slack);
    var cutoff :| cutoff <= w.latest - WINDOW && KeptSince(Get(Table(dim, w), key), SinceReset(w, dim, key), cutoff);
    assert KeptSince(Get(Table(dim, w'), key), SinceReset(w', dim, key), cutoff);
  }

  lemma {:induction false} RecentIsCounted(times: seq<real>, lo: real, hi: real)
    requires forall i :: 0 <= i < |times| ==> times[i] <= hi
    ensures |Recent(times, lo)| == CountIn(times, lo, hi)
  {
    if times == [] {
    } else {
      RecentIsCounted(times[..|times| - 1], lo, hi);
    }
  }

  /** What a check at `now` still sees of a key. */
  lemma CheckSeesTheWindow(w: World, dim: Dim, key: string, now: real)
    requires Retains(w, dim, key) && Past(w, dim, key) && w.latest <= now
    ensures |Recent(Get(Table(dim, w), key), now - WINDOW)| == CountIn(SinceReset(w, dim, key), now - WINDOW, now)
  {
    var cutoff :| cutoff <= w.latest - WINDOW && KeptSince(Get(Table(dim, w), key), SinceReset(w, dim, key), cutoff);
    RecentTwice(SinceReset(w, dim, key), cutoff, now - WINDOW);
    RecentIsCounted(SinceReset(w, dim, key), now - WINDOW, now);
  }

  /** Exactly when a request is refused: over any run, at a check not behind the clock,
      ten failures of the address or five of the username were logged since that key's
      last reset and within the last 600 seconds. Older ones never count. */
  lemma RefusedIffTooManyRecentFailures(t0: real, events: seq<Event>, slack: real, ip: string, name: string, now: real)
    requires 0.0 <= slack < 600.0 && Feasible(t0, events, slack) && Run(t0, events, slack).latest <= now
    ensures var w := Run(t0, events, slack);
            var refused := Next(w, Check(ip, name, now), slack).pending == w.pending;
            refused <==>
              || CountIn(SinceReset(w, ByIp, ip), now - 600.0, now) >= 10
              || CountIn(SinceReset(w, ByUser, name), now - 600.0, now) >= 5
  {
    var w := Run(t0, events, slack);
    RunKeepsRetains(t0, events, slack, ByIp, ip);
    RunKeepsRetains(t0, events, slack, ByUser, name);
    RunKeepsPast(t0, events, slack, ByIp, ip);
    RunKeepsPast(t0, events, slack, ByUser, name);
    CheckSeesTheWindow(w, ByIp, ip, now);
    CheckSeesTheWindow(w, ByUser, name, now);
  }

  // ---------- The bound is exact ----------

  /** `n` failures at time 0. */
  function Failures(n: nat): seq<real> {
    if n == 0 then [] else Failures(n - 1) + [0.0]
  }

  lemma {:induction false} FailuresAreRecent(n: nat)
    ensures |Failures(n)| == n && Recent(Failures(n), -WINDOW) == Failures(n)
    ensures CountIn(Failures(n), -WINDOW, 0.0) == n
  {
    if n == 0 {
    } else {
      FailuresAreRecent(n - 1);
    }
  }

  /** A key no earlier request used; never empty, which the login form refuses. */
  function Fresh(m: nat): string { seq(m + 1, _ => 'x') }

  /** The m-th request for the key; its other key is new. */
  function Request(dim: Dim, key: string, m: nat): Attempt {
    if dim == ByIp then Attempt(key, Fresh(m), 0.0) else Attempt(Fresh(m), key, 0.0)
  }

  function OtherDim(dim: Dim): Dim { if dim == ByIp then ByUser else ByIp }

  function CheckOf(dim: Dim, key: string, m: nat): Event {
    Check(Request(dim, key, m).ip, Request(dim, key, m).name, 0.0)
  }

  predicate IsRequest(a: Attempt, dim: Dim, key: string, m: nat) {
    a.checkedAt == 0.0 && KeyOf(dim, a) == key && |KeyOf(OtherDim(dim), a)| < m + 1
  }

  predicate Requests(p: seq<Attempt>, dim: Dim, key: string, m: nat) {
    forall i :: 0 <= i < |p| ==> IsRequest(p[i], dim, key, m)
  }

  lemma {:induction false} RequestsAreInFlight(p: seq<Attempt>, dim: Dim, key: string, m: nat)
    requires Requests(p, dim, key, m)
    ensures InFlight(p, dim, key) == |p|
  {
    if p == [] {
    } else {
      RequestsAreInFlight(p[..|p| - 1], dim, key, m);
    }
  }

  /** `n` failures of the key logged, `p` requests for it in flight, `m` made so far. */
  predicate Steady(w: World, dim: Dim, key: string, n: nat, p: nat, m: nat) {
    && w.latest == 0.0 && |w.pending| == p && Requests(w.pending, dim, key, m)
    && (dim == ByUser && p > 0 ==> key in w.tables.user)
    && Get(Table(dim, w), key) == SinceReset(w, dim, key) == Failures(n)
    && (forall o :: o in Table(OtherDim(dim), w) ==> |o| < m + 1)
  }

  /** A check of a fresh request leaves the key's failures and lets the request through. */
  lemma FreshCheckPasses(w: World, dim: Dim, key: string, n: nat, p: nat, m: nat, a: Attempt, t: Tables)
    requires n < Limit(dim) && Steady(w, dim, key, n, p, m)
    requires a == Request(dim, key, m) && t == Checked(w.tables, a.ip, a.name, 0.0)
    ensures !Limited(t, a.ip, a.name)
    ensures (if dim == ByIp then Get(t.ip, key) else Get(t.user, key)) == Failures(n)
    ensures dim == ByUser ==> key in t.user
  {
    FailuresAreRecent(n);
    assert Fresh(m) !in Table(OtherDim(dim), w);
    assert 0.0 - WINDOW == -WINDOW;
  }

  lemma SteadyCheck(w: World, dim: Dim, key: string, n: nat, p: nat, m: nat)
    requires n < Limit(dim) && Steady(w, dim, key, n, p, m)
    ensures Steady(Next(w, CheckOf(dim, key, m), 0.0), dim, key, n, p + 1, m + 1)
  {
    var a := Request(dim, key, m);
    FreshCheckPasses(w, dim, key, n, p, m, a, Checked(w.tables, a.ip, a.name, 0.0));
    assert IsRequest(a, dim, key, m + 1);
    var w' := Next(w, CheckOf(dim, key, m), 0.0);
    assert w'.pending == w.pending + [a];
    assert SinceReset(w', dim, key) == SinceReset(w, dim, key);
  }

  lemma SteadyFailure(w: World, dim: Dim, key: string, n: nat, p: nat, m: nat)
    requires 0 < p && Steady(w, dim, key, n, p, m)
    ensures Enabled(w, Fail(p - 1, 0.0), 0.0)
    ensures Steady(Next(w, Fail(p - 1, 0.0), 0.0), dim, key, n + 1, p - 1, m)
  {
    assert IsRequest(w.pending[p - 1], dim, key, m);
    assert Without(w.pending, p - 1) == w.pending[..p - 1];
  }

  /** The run gets there with never more than `k` requests for the key in flight. */
  ghost predicate Reaches(events: seq<Event>, dim: Dim, key: string, n: nat, p: nat, m: nat, k: nat) {
    && Feasible(0.0, events, 0.0) && AtMostInFlight(0.0, events, 0.0, dim, key, k)
    && Steady(Run(0.0, events, 0.0), dim, key, n, p, m)
  }

  lemma Extend(events: seq<Event>, e: Event, dim: Dim, key: string, n: nat, p: nat, m: nat, k: nat)
    requires Feasible(0.0, events, 0.0) && AtMostInFlight(0.0, events, 0.0, dim, key, k)
    requires Enabled(Run(0.0, events, 0.0), e, 0.0)
    requires p <= k && Steady(Next(Run(0.0, events, 0.0), e, 0.0), dim, key, n, p, m)
    ensures Reaches(events + [e], dim, key, n, p, m, k)
  {
    assert (events + [e])[..|events|] == events;
    RequestsAreInFlight(Next(Run(0.0, events, 0.0), e, 0.0).pending, dim, key, m);
  }

  lemma CheckReaches(events: seq<Event>, dim: Dim, key: string, n: nat, p: nat, m: nat, k: nat)
    requires n < Limit(dim) && p < k && Reaches(events, dim, key, n, p, m, k)
    ensures Reaches(events + [CheckOf(dim, key, m)], dim, key, n, p + 1, m + 1, k)
  {
    SteadyCheck(Run(0.0, events, 0.0), dim, key, n, p, m);
    Extend(events, CheckOf(dim, key, m), dim, key, n, p + 1, m + 1, k);
  }

  lemma FailureReaches(events: seq<Event>, dim: Dim, key: string, n: nat, p: nat, m: nat, k: nat)
    requires 0 < p <= k && Reaches(events, dim, key, n, p, m, k)
    ensures Reaches(events + [Fail(p - 1, 0.0)], dim, key, n + 1, p - 1, m, k)
  {
    SteadyFailure(Run(0.0, events, 0.0), dim, key, n, p, m);
    Extend(events, Fail(p - 1, 0.0), dim, key, n + 1, p - 1, m, k);
  }

  ghost predicate Reachable(dim: Dim, key: string, n: nat, p: nat, m: nat, k: nat) {
    exists events :: Reaches(events, dim, key, n, p, m, k)
  }

  // The run, counted: (failures, in flight, made) in terms of what can be reached.

  /** A check adds a request while the limit is not reached, a failure takes one away. */
  ghost predicate Counts(reached: (nat, nat, nat) -> bool, limit: nat, k: nat) {
    && reached(0, 0, 0)
    && (forall n: nat, p: nat, m: nat :: n < limit && p < k && reached(n, p, m) ==> reached(n, p + 1, m + 1))
    && (forall n: nat, p: nat, m: nat :: 0 < p <= k && reached(n, p, m) ==> reached(n + 1, p - 1, m))
  }

  /** n failures, one request at a time. */
  lemma {:induction false} OneByOne(reached: (nat, nat, nat) -> bool, limit: nat, k: nat, n: nat)
    requires Counts(reached, limit, k) && k >= 1 && n < limit
    ensures reached(n, 0, n)
  {
    if n == 0 {
    } else {
      OneByOne(reached, limit, k, n - 1);
      assert reached(n - 1, 1, n);
    }
  }

  /** Then `p` requests let through together. */
  lemma {:induction false} Crowd(reached: (nat, nat, nat) -> bool, limit: nat, k: nat, n: nat, p: nat)
    requires Counts(reached, limit, k) && p <= k && k >= 1 && n < limit
    ensures reached(n, p, n + p)
  {
    if p == 0 {
      OneByOne(reached, limit, k, n);
    } else {
      Crowd(reached, limit, k, n, p - 1);
    }
  }

  /** All of which fail. */
  lemma {:induction false} CrowdFails(reached: (nat, nat, nat) -> bool, limit: nat, k: nat, n: nat, left: nat, m: nat)
    requires Counts(reached, limit, k) && left <= k && reached(n, left, m)
    ensures reached(n + left, 0, m)
    decreases left
  {
    if left == 0 {
    } else {
      CrowdFails(reached, limit, k, n + 1, left - 1, m);
    }
  }

  ghost function Reached(dim: Dim, key: string, k: nat): (nat, nat, nat) -> bool {
    (n: nat, p: nat, m: nat) => Reachable(dim, key, n, p, m, k)
  }

  lemma FullWindow(reached: (nat, nat, nat) -> bool, limit: nat, k: nat)
    requires Counts(reached, limit, k) && k >= 1 && limit >= 1
    ensures reached(limit - 1 + k, 0, limit - 1 + k)
  {
    Crowd(reached, limit, k, limit - 1, k);
    CrowdFails(reached, limit, k, limit - 1, k, limit - 1 + k);
  }

  lemma RunsStart(dim: Dim, key: string, k: nat)
    ensures Reachable(dim, key, 0, 0, 0, k)
  {
    assert Reaches([], dim, key, 0, 0, 0, k);
  }

  lemma RunsCheck(dim: Dim, key: string, n: nat, p: nat, m: nat, k: nat)
    requires n < Limit(dim) && p < k && Reachable(dim, key, n, p, m, k)
    ensures Reachable(dim, key, n, p + 1, m + 1, k)
  {
    var events :| Reaches(events, dim, key, n, p, m, k);
    CheckReaches(events, dim, key, n, p, m, k);
  }

  lemma RunsFail(dim: Dim, key: string, n: nat, p: nat, m: nat, k: nat)
    requires 0 < p <= k && Reachable(dim, key, n, p, m, k)
    ensures Reachable(dim, key, n + 1, p - 1, m, k)
  {
    var events :| Reaches(events, dim, key, n, p, m, k);
    FailureReaches(events, dim, key, n, p, m, k);
  }

  lemma RunsCount(dim: Dim, key: string, k: nat)
    ensures Counts(Reached(dim, key, k), Limit(dim), k)
  {
    RunsStart(dim, key, k);
    forall n: nat, p: nat, m: nat | n < Limit(dim) && p < k && Reachable(dim, key, n, p, m, k)
      ensures Reachable(dim, key, n, p + 1, m + 1, k)
    {
      RunsCheck(dim, key, n, p, m, k);
    }
    forall n: nat, p: nat, m: nat | 0 < p <= k && Reachable(dim, key, n, p, m, k)
      ensures Reachable(dim, key, n + 1, p - 1, m, k)
    {
      RunsFail(dim, key, n, p, m, k);
    }
  }

  /** For every `k`, username and address some run with at most `k` requests for the key
      in flight records exactly limit - 1 + k failures under it inside one window. */
  lemma BoundIsAttained(dim: Dim, key: string, k: nat) returns (events: seq<Event>)
    requires k >= 1
    ensures Feasible(0.0, events, 0.0) && AtMostInFlight(0.0, events, 0.0, dim, key, k)
    ensures CountIn(SinceReset(Run(0.0, events, 0.0), dim, key), -600.0, 0.0) == (if dim == ByIp then 10 else 5) - 1 + k
  {
    var most := Limit(dim) - 1 + k;
    RunsCount(dim, key, k);
    FullWindow(Reached(dim, key, k), Limit(dim), k);
    events :| Reaches(events, dim, key, most, 0, most, k);
    FailuresAreRecent(most);
  }
}
