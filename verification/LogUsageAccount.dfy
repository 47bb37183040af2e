/** What a log-usage answer guarantees: every requested device is accounted for, every
    row is counted once, and a run the deadline did not stop gives each device exactly
    the fate it would have on its own. */
module LogUsageAccount {
  import opened Prelude
  import opened Text
  import opened SortedNames
  import opened LogUsage

  ghost predicate Answered(net: Net, requested: set<string>, targets: nat, trace: seq<Search>, stop: Stop, r: Response) {
    Accounts(net, requested, targets, trace, stop, Success(r))
  }

  lemma {:induction false} SearchForFacts(trace: seq<Search>, n: string)
    ensures SearchFor(trace, n).Some? <==> n in Names(trace)
    ensures SearchFor(trace, n).Some? ==> SearchFor(trace, n).value in trace && SearchFor(trace, n).value.name == n
  {
    if trace == [] {
    } else {
      SearchForFacts(trace[..|trace| - 1], n);
    }
  }

  lemma {:induction false} GoodFacts(trace: seq<Search>)
    ensures forall s :: s in Good(trace) <==> s in trace && s.result.Ok?
  {
    if trace == [] {
    } else {
      GoodFacts(trace[..|trace| - 1]);
      assert trace == trace[..|trace| - 1] + [trace[|trace| - 1]];
    }
  }

  lemma OneSearchPerName(net: Net, trace: seq<Search>, requested: set<string>, a: Search, b: Search)
    requires Traced(net, trace, requested) && a in trace && b in trace && a.name == b.name
    ensures a == b
  {
    var i :| 0 <= i < |trace| && trace[i] == a;
    var j :| 0 <= j < |trace| && trace[j] == b;
    assert !(i < j) && !(j < i);
  }

  lemma NamesHold(trace: seq<Search>, n: string)
    ensures n in Names(trace) <==> exists s :: s in trace && s.name == n
  {
    if n in Names(trace) {
      var i :| 0 <= i < |trace| && trace[i].name == n;
      assert trace[i] in trace;
    }
  }

  /** In a trace without repeated names, a name was fetched exactly when its one search
      came back good. */
  lemma FetchedMeansGood(net: Net, trace: seq<Search>, requested: set<string>, n: string)
    requires Traced(net, trace, requested)
    ensures n in Names(Good(trace)) <==> SearchFor(trace, n).Some? && SearchFor(trace, n).value.result.Ok?
  {
    SearchForFacts(trace, n);
    GoodFacts(trace);
    NamesHold(trace, n);
    NamesHold(Good(trace), n);
    if exists s :: s in Good(trace) && s.name == n {
      var s :| s in Good(trace) && s.name == n;
      OneSearchPerName(net, trace, requested, s, SearchFor(trace, n).value);
    }
  }

  lemma ListingErrorHasTarget(net: Net, t: nat)
    requires FirstListingError(net, t).Some?
    ensures exists u: nat :: u < t && net.listing(u) == Unreachable(FirstListingError(net, t).value)
  {
    if FirstListingError(net, t - 1).None? {
      assert net.listing(t - 1).Unreachable?;
    }
  }

  lemma OneNameAccounted(net: Net, requested: set<string>, targets: nat, trace: seq<Search>, stop: Stop, r: Response, n: string)
    requires Answered(net, requested, targets, trace, stop, r) && n in requested
    ensures n in r.queried || n in r.notFound || n in r.errors
    ensures n in r.queried ==> n !in r.notFound && n !in r.errors
    ensures n in r.notFound && n in r.errors ==>
              stop.Ran? && n !in Names(trace) && exists u: nat :: u < targets && net.listing(u) == Unreachable(r.errors[n])
  {
    FetchedMeansGood(net, trace, requested, n);
    SearchForFacts(trace, n);
    if stop.Ran? && n !in Names(trace) && FirstListingError(net, targets).Some? {
      ListingErrorHasTarget(net, targets);
    }
  }

  /** In every 200 answer each requested name is queried, not found or in error; queried
      names are in neither other list; a name is both not found and in error only if no
      target resolved it and some target's listing failed, with that failure as its
      message; and when the deadline fell nothing is reported as not found. */
  lemma EveryDeviceIsAccountedFor(net: Net, requested: set<string>, targets: nat, trace: seq<Search>, stop: Stop, r: Response)
    requires Answered(net, requested, targets, trace, stop, r)
    ensures forall n :: n in requested <==> n in r.queried || n in r.notFound || n in r.errors
    ensures forall n :: n in r.queried ==> n !in r.notFound && n !in r.errors
    ensures forall n :: n in r.notFound && n in r.errors ==>
              stop.Ran? && n !in Names(trace) && exists u: nat :: u < targets && net.listing(u) == Unreachable(r.errors[n])
    ensures stop.At? ==> r.notFound == []
  {
    forall n | n in requested
      ensures n in r.queried || n in r.notFound || n in r.errors
      ensures n in r.queried ==> n !in r.notFound && n !in r.errors
      ensures n in r.notFound && n in r.errors ==>
                stop.Ran? && n !in Names(trace) && exists u: nat :: u < targets && net.listing(u) == Unreachable(r.errors[n])
    {
      OneNameAccounted(net, requested, targets, trace, stop, r, n);
    }
    forall n | n in r.queried || n in r.notFound || n in r.errors ensures n in requested {
      ReportedWasRequested(net, requested, targets, trace, stop, r, n);
    }
    assert r.notFound == [] || r.notFound[0] in r.notFound;
  }

  lemma ReportedWasRequested(net: Net, requested: set<string>, targets: nat, trace: seq<Search>, stop: Stop, r: Response, n: string)
    requires Answered(net, requested, targets, trace, stop, r)
    requires n in r.queried || n in r.notFound || n in r.errors
    ensures n in requested
  {
    if n in r.queried {
      GoodFacts(trace);
      NamesHold(Good(trace), n);
      var s :| s in Good(trace) && s.name == n;
      var i :| 0 <= i < |trace| && trace[i] == s;
      assert SoundSearch(net, trace[i], requested, i);
    }
  }

  /** No device is searched twice, and no search starts at or after the deadline,
      whatever the outcome. */
  lemma SearchesAreOncePerDeviceAndInTime(net: Net, requested: set<string>, targets: nat, trace: seq<Search>, stop: Stop, out: Outcome)
    requires Accounts(net, requested, targets, trace, stop, out)
    ensures forall i, j :: 0 <= i < j < |trace| ==> trace[i].name != trace[j].name
    ensures forall i :: 0 <= i < |trace| ==> trace[i].at == net.clock(i + 1) && trace[i].at < net.clock(0) + 75.0
    ensures (forall k: nat :: net.clock(k) < net.clock(0) + 75.0) && !out.Crashed? && targets > 0 ==> stop.Ran?
  {
    assert forall i :: 0 <= i < |trace| ==> SoundSearch(net, trace[i], requested, i);
  }

  /** A device asked for in two spellings is searched once: the names of the searches
      differ even without regard to case, since the request keeps one spelling each. */
  lemma DevicesAreSearchedOnce(net: Net, names: seq<string>, targets: nat, trace: seq<Search>, stop: Stop, out: Outcome)
    requires Accounts(net, (set n | n in FirstSeen(names)), targets, trace, stop, out)
    ensures forall i, j :: 0 <= i < j < |trace| ==> Lower(trace[i].name) != Lower(trace[j].name)
  {
    var kept := FirstSeen(names);
    var requested := set n | n in kept;
    FirstSeenIsDistinct(names);
    forall i, j | 0 <= i < j < |trace| ensures Lower(trace[i].name) != Lower(trace[j].name) {
      assert SoundSearch(net, trace[i], requested, i) && SoundSearch(net, trace[j], requested, j);
      var a :| 0 <= a < |kept| && kept[a] == trace[i].name;
      var b :| 0 <= b < |kept| && kept[b] == trace[j].name;
      assert a != b;
    }
  }

  // ---------- Requests that crash ----------

  /** The remote side answered this search with a row whose port cannot be converted. */
  predicate GotBadRow(net: Net, s: Search) {
    var reply := net.search(s.target, s.name, s.devid);
    reply.Rows? && HasBadRow(reply.rows)
  }

  /** A request ends in an exception no handler catches if and only if one of its
      searches was answered with such a row. */
  lemma CrashesIffARowCannotBeConverted(net: Net, requested: set<string>, targets: nat, trace: seq<Search>, stop: Stop, out: Outcome)
    requires Accounts(net, requested, targets, trace, stop, out)
    ensures out.Crashed? <==> exists i :: 0 <= i < |trace| && GotBadRow(net, trace[i])
  {
    forall i | 0 <= i < |trace| ensures GotBadRow(net, trace[i]) <==> trace[i].result == Err(BadRow) {
      assert SoundSearch(net, trace[i], requested, i);
    }
  }

  // ---------- One outcome only ----------

  lemma {:induction false} EachInTurn(net: Net, trace: seq<Search>, requested: set<string>, i: nat)
    requires InTurn(net, trace, requested) && i < |trace|
    ensures Next(net, trace[..i], requested, trace[i].target, trace[i].name)
  {
    if i < |trace| - 1 {
      EachInTurn(net, trace[..|trace| - 1], requested, i);
      assert trace[..|trace| - 1][..i] == trace[..i];
    }
  }

  lemma NextIsUnique(net: Net, trace: seq<Search>, requested: set<string>, t: nat, n: string, u: nat, m: string)
    requires Next(net, trace, requested, t, n) && Next(net, trace, requested, u, m)
    ensures t == u && n == m
  {
    if n != m {
      LessIsTransitive(n, m, n);
      LessIsStrict(n);
    }
  }

  lemma SameNextSearch(net: Net, requested: set<string>, a: seq<Search>, b: seq<Search>, i: nat)
    requires Traced(net, a, requested) && Traced(net, b, requested) && i < |a| && i < |b|
    requires a[..i] == b[..i]
    ensures a[i] == b[i]
  {
    EachInTurn(net, a, requested, i);
    EachInTurn(net, b, requested, i);
    NextIsUnique(net, a[..i], requested, a[i].target, a[i].name, b[i].target, b[i].name);
    assert SoundSearch(net, a[i], requested, i) && SoundSearch(net, b[i], requested, i);
  }

  lemma PrefixGrows(a: seq<Search>, b: seq<Search>, i: nat)
    requires i < |a| && i < |b| && a[..i] == b[..i] && a[i] == b[i]
    ensures a[..i + 1] == b[..i + 1]
  {
    assert a[..i + 1] == a[..i] + [a[i]] && b[..i + 1] == b[..i] + [b[i]];
  }

  /** Two accounts make the same searches as far as both go. */
  lemma {:induction false} SameSearches(net: Net, requested: set<string>, a: seq<Search>, b: seq<Search>, k: nat)
    requires Traced(net, a, requested) && Traced(net, b, requested) && k <= |a| && k <= |b|
    ensures a[..k] == b[..k]
  {
    if k == 0 {
    } else {
      var i := k - 1;
      SameSearches(net, requested, a, b, i);
      SameNextSearch(net, requested, a, b, i);
      PrefixGrows(a, b, i);
    }
  }

  /** A run that ends leaves no search that it could still have made. */
  lemma NothingNext(net: Net, requested: set<string>, targets: nat, trace: seq<Search>, stop: Stop, out: Outcome,
                    t: nat, name: string)
    requires Accounts(net, requested, targets, trace, stop, out) && !out.Crashed? && t < targets
    requires net.clock(|trace| + 1) < net.clock(0) + DEADLINE
    ensures !Next(net, trace, requested, t, name)
  {
  }

  lemma NoLongerRun(net: Net, requested: set<string>, targets: nat,
                    a: seq<Search>, stopA: Stop, outA: Outcome, b: seq<Search>, stopB: Stop, outB: Outcome)
    requires Accounts(net, requested, targets, a, stopA, outA) && Accounts(net, requested, targets, b, stopB, outB)
    ensures |b| <= |a|
  {
    if |a| < |b| {
      var s := b[|a|];
      SameSearches(net, requested, a, b, |a|);
      EachInTurn(net, b, requested, |a|);
      assert b[..|a|] == a;
      assert SoundSearch(net, s, requested, |a|);
      if !outA.Crashed? {
        NothingNext(net, requested, targets, a, stopA, outA, s.target, s.name);
      }
    }
  }

  lemma StopIsUnique(net: Net, trace: seq<Search>, requested: set<string>, targets: nat, a: Stop, b: Stop)
    requires Complete(net, trace, requested, targets, a) && Complete(net, trace, requested, targets, b)
    ensures a == b
  {
    if a.At? && b.At? {
      NextIsUnique(net, trace, requested, a.target, a.name, b.target, b.name);
    }
  }

  lemma ReportIsUnique(net: Net, trace: seq<Search>, requested: set<string>, targets: nat, stop: Stop, a: Outcome, b: Outcome)
    requires Reported(net, trace, requested, targets, stop, a) && Reported(net, trace, requested, targets, stop, b)
    ensures a == b
  {
    if a.Success? && b.Success? {
      AscendingIsUnique(a.response.queried, b.response.queried);
      AscendingIsUnique(a.response.notFound, b.response.notFound);
    }
  }

  lemma TraceIsUnique(net: Net, requested: set<string>, targets: nat,
                      traceA: seq<Search>, stopA: Stop, a: Outcome, traceB: seq<Search>, stopB: Stop, b: Outcome)
    requires Accounts(net, requested, targets, traceA, stopA, a) && Accounts(net, requested, targets, traceB, stopB, b)
    ensures traceA == traceB
  {
    NoLongerRun(net, requested, targets, traceA, stopA, a, traceB, stopB, b);
    NoLongerRun(net, requested, targets, traceB, stopB, b, traceA, stopA, a);
    SameSearches(net, requested, traceA, traceB, |traceA|);
    assert traceA[..|traceA|] == traceA && traceB[..|traceB|] == traceB;
  }

  lemma AnswerIsUnique(net: Net, requested: set<string>, targets: nat, trace: seq<Search>,
                       stopA: Stop, a: Outcome, stopB: Stop, b: Outcome)
    requires Accounts(net, requested, targets, trace, stopA, a) && Accounts(net, requested, targets, trace, stopB, b)
    ensures a == b
  {
    if targets > 0 && !a.Crashed? {
      StopIsUnique(net, trace, requested, targets, stopA, stopB);
      ReportIsUnique(net, trace, requested, targets, stopA, a, b);
    }
  }

  /** What the remote side and the clock do determines the searches and every field of
      the answer: the account leaves a run no choice. */
  lemma OutcomeIsDetermined(net: Net, requested: set<string>, targets: nat, a: Outcome, b: Outcome)
    requires IsOutcome(net, requested, targets, a) && IsOutcome(net, requested, targets, b)
    ensures a == b
  {
    var traceA, stopA :| Accounts(net, requested, targets, traceA, stopA, a);
    var traceB, stopB :| Accounts(net, requested, targets, traceB, stopB, b);
    TraceIsUnique(net, requested, targets, traceA, stopA, a, traceB, stopB, b);
    AnswerIsUnique(net, requested, targets, traceA, stopA, a, stopB, b);
  }

  // ---------- Every row counts once ----------

  predicate RowsCame(net: Net, s: Search) {
    s.result.Ok? && net.search(s.target, s.name, s.devid).Rows?
  }

  function RowsOf(net: Net, s: Search): seq<LogRow>
    requires RowsCame(net, s)
  {
    net.search(s.target, s.name, s.devid).rows
  }

  /** Rows returned by the searches that succeeded. */
  function RowTotal(net: Net, trace: seq<Search>): nat {
    if trace == [] then 0
    else (if RowsCame(net, trace[0]) then |RowsOf(net, trace[0])| else 0) + RowTotal(net, trace[1..])
  }

  lemma {:induction false} RowTotalAppend(net: Net, trace: seq<Search>, s: Search)
    ensures RowTotal(net, trace + [s]) == RowTotal(net, trace) + if RowsCame(net, s) then |RowsOf(net, s)| else 0
  {
    if trace == [] {
      assert [] + [s] == [s];
    } else {
      assert (trace + [s])[1..] == trace[1..] + [s];
      RowTotalAppend(net, trace[1..], s);
    }
  }

  ghost predicate Honest(net: Net, trace: seq<Search>) {
    forall i :: 0 <= i < |trace| ==> trace[i].result == Contributed(net.search(trace[i].target, trace[i].name, trace[i].devid))
  }

  predicate HasRow(net: Net, trace: seq<Search>, i: nat, k: nat)
  {
    i < |trace| && RowsCame(net, trace[i]) && k < |RowsOf(net, trace[i])|
  }

  lemma {:induction false} TallyCountsRows(net: Net, trace: seq<Search>)
    requires Honest(net, trace)
    ensures Tally(trace).logCount == RowTotal(net, trace)
  {
    if trace == [] {
    } else {
      var before, last := trace[..|trace| - 1], trace[|trace| - 1];
      TallyCountsRows(net, before);
      assert trace == before + [last];
      RowTotalAppend(net, before, last);
      TallyAppend(before, last);
    }
  }

  predicate GaveSource(s: Search, x: string) { s.result.Ok? && x in s.result.value.srcips }

  predicate GaveDestination(s: Search, x: string) { s.result.Ok? && x in s.result.value.dstips }

  predicate GavePort(s: Search, p: int) { s.result.Ok? && p in s.result.value.dstports }

  predicate GaveTruncated(s: Search) { s.result.Ok? && s.result.value.truncated }

  lemma {:induction false} TallySource(trace: seq<Search>, x: string)
    ensures x in Tally(trace).srcips <==> exists i :: 0 <= i < |trace| && GaveSource(trace[i], x)
  {
    if trace == [] {
    } else {
      var n := |trace| - 1;
      TallySource(trace[..n], x);
      assert forall i :: 0 <= i < n ==> trace[..n][i] == trace[i];
      assert x in Tally(trace).srcips <==> x in Tally(trace[..n]).srcips || GaveSource(trace[n], x);
    }
  }

  lemma {:induction false} TallyDestination(trace: seq<Search>, x: string)
    ensures x in Tally(trace).dstips <==> exists i :: 0 <= i < |trace| && GaveDestination(trace[i], x)
  {
    if trace == [] {
    } else {
      var n := |trace| - 1;
      TallyDestination(trace[..n], x);
      assert forall i :: 0 <= i < n ==> trace[..n][i] == trace[i];
      assert x in Tally(trace).dstips <==> x in Tally(trace[..n]).dstips || GaveDestination(trace[n], x);
    }
  }

  lemma {:induction false} TallyPort(trace: seq<Search>, p: int)
    ensures p in Tally(trace).dstports <==> exists i :: 0 <= i < |trace| && GavePort(trace[i], p)
  {
    if trace == [] {
    } else {
      var n := |trace| - 1;
      TallyPort(trace[..n], p);
      assert forall i :: 0 <= i < n ==> trace[..n][i] == trace[i];
      assert p in Tally(trace).dstports <==> p in Tally(trace[..n]).dstports || GavePort(trace[n], p);
    }
  }

  lemma {:induction false} TallyTruncated(trace: seq<Search>)
    ensures Tally(trace).truncated <==> exists i :: 0 <= i < |trace| && GaveTruncated(trace[i])
  {
    if trace == [] {
    } else {
      var n := |trace| - 1;
      TallyTruncated(trace[..n]);
      assert forall i :: 0 <= i < n ==> trace[..n][i] == trace[i];
      assert Tally(trace).truncated <==> Tally(trace[..n]).truncated || GaveTruncated(trace[n]);
    }
  }

  lemma SourceCameFromARow(net: Net, trace: seq<Search>, x: string)
    requires Honest(net, trace)
    ensures x in Tally(trace).srcips <==>
              x != "" && exists i: nat, k: nat :: HasRow(net, trace, i, k) && RowsOf(net, trace[i])[k].srcip == x
  {
    TallySource(trace, x);
    if x in Tally(trace).srcips {
      var i :| 0 <= i < |trace| && GaveSource(trace[i], x);
      var k :| 0 <= k < |RowsOf(net, trace[i])| && RowsOf(net, trace[i])[k].srcip == x;
      assert HasRow(net, trace, i, k);
    }
  }

  lemma DestinationCameFromARow(net: Net, trace: seq<Search>, x: string)
    requires Honest(net, trace)
    ensures x in Tally(trace).dstips <==>
              x != "" && exists i: nat, k: nat :: HasRow(net, trace, i, k) && RowsOf(net, trace[i])[k].dstip == x
  {
    TallyDestination(trace, x);
    if x in Tally(trace).dstips {
      var i :| 0 <= i < |trace| && GaveDestination(trace[i], x);
      var k :| 0 <= k < |RowsOf(net, trace[i])| && RowsOf(net, trace[i])[k].dstip == x;
      assert HasRow(net, trace, i, k);
    }
  }

  lemma {:induction false} PortsAreRowPorts(rows: seq<LogRow>, p: int)
    ensures p in Ports(rows) <==> exists k :: 0 <= k < |rows| && PortOf(rows[k].dstport) == Number(p)
  {
    if rows == [] {
    } else {
      var n := |rows| - 1;
      PortsAreRowPorts(rows[..n], p);
      assert forall k :: 0 <= k < n ==> rows[..n][k] == rows[k];
      assert p in PortsIn(rows[n]) <==> PortOf(rows[n].dstport) == Number(p);
    }
  }

  lemma PortCameFromARow(net: Net, trace: seq<Search>, p: int)
    requires Honest(net, trace)
    ensures p in Tally(trace).dstports <==>
              exists i: nat, k: nat :: HasRow(net, trace, i, k) && PortOf(RowsOf(net, trace[i])[k].dstport) == Number(p)
  {
    TallyPort(trace, p);
    if p in Tally(trace).dstports {
      var i :| 0 <= i < |trace| && GavePort(trace[i], p);
      PortsAreRowPorts(RowsOf(net, trace[i]), p);
      var k :| 0 <= k < |RowsOf(net, trace[i])| && PortOf(RowsOf(net, trace[i])[k].dstport) == Number(p);
      assert HasRow(net, trace, i, k);
    }
    if i: nat, k: nat :| HasRow(net, trace, i, k) && PortOf(RowsOf(net, trace[i])[k].dstport) == Number(p) {
      PortsAreRowPorts(RowsOf(net, trace[i]), p);
      assert GavePort(trace[i], p);
    }
  }

  /** `log_count` is the number of rows the successful searches returned; the address and
      port sets hold exactly the values of those rows; `truncated` is their disjunction. */
  lemma TotalsAreExact(net: Net, requested: set<string>, targets: nat, trace: seq<Search>, stop: Stop, r: Response)
    requires Answered(net, requested, targets, trace, stop, r)
    ensures r.logCount == RowTotal(net, trace)
    ensures forall x :: x in r.srcips <==>
              x != "" && exists i: nat, k: nat :: HasRow(net, trace, i, k) && RowsOf(net, trace[i])[k].srcip == x
    ensures forall x :: x in r.dstips <==>
              x != "" && exists i: nat, k: nat :: HasRow(net, trace, i, k) && RowsOf(net, trace[i])[k].dstip == x
    ensures forall p :: p in r.dstports <==>
              exists i: nat, k: nat :: HasRow(net, trace, i, k) && PortOf(RowsOf(net, trace[i])[k].dstport) == Number(p)
    ensures r.truncated <==>
              exists i :: 0 <= i < |trace| && RowsCame(net, trace[i]) && net.search(trace[i].target, trace[i].name, trace[i].devid).truncated
  {
    HonestTrace(net, trace, requested);
    TallyCountsRows(net, trace);
    TruncatedCameFromASearch(net, trace);
    ValuesCameFromRows(net, trace);
  }

  lemma ValuesCameFromRows(net: Net, trace: seq<Search>)
    requires Honest(net, trace)
    ensures forall x :: x in Tally(trace).srcips <==>
              x != "" && exists i: nat, k: nat :: HasRow(net, trace, i, k) && RowsOf(net, trace[i])[k].srcip == x
    ensures forall x :: x in Tally(trace).dstips <==>
              x != "" && exists i: nat, k: nat :: HasRow(net, trace, i, k) && RowsOf(net, trace[i])[k].dstip == x
    ensures forall p :: p in Tally(trace).dstports <==>
              exists i: nat, k: nat :: HasRow(net, trace, i, k) && PortOf(RowsOf(net, trace[i])[k].dstport) == Number(p)
  {
    forall x { SourceCameFromARow(net, trace, x); }
    forall x { DestinationCameFromARow(net, trace, x); }
    forall p { PortCameFromARow(net, trace, p); }
  }

  lemma TruncatedCameFromASearch(net: Net, trace: seq<Search>)
    requires Honest(net, trace)
    ensures Tally(trace).truncated <==>
              exists i :: 0 <= i < |trace| && RowsCame(net, trace[i]) && net.search(trace[i].target, trace[i].name, trace[i].devid).truncated
  {
    TallyTruncated(trace);
    assert forall i :: 0 <= i < |trace| && GaveTruncated(trace[i]) ==> RowsCame(net, trace[i]);
    forall i | 0 <= i < |trace| && RowsCame(net, trace[i]) && net.search(trace[i].target, trace[i].name, trace[i].devid).truncated
      ensures GaveTruncated(trace[i])
    {
    }
  }

  lemma HonestTrace(net: Net, trace: seq<Search>, requested: set<string>)
    requires Traced(net, trace, requested)
    ensures Honest(net, trace)
  {
    assert forall i :: 0 <= i < |trace| ==> SoundSearch(net, trace[i], requested, i);
  }

  predicate IsLastGood(net: Net, trace: seq<Search>, i: nat)
    requires i < |trace|
  {
    RowsCame(net, trace[i]) && forall j :: i < j < |trace| ==> !RowsCame(net, trace[j])
  }

  /** The reported time range is that of the last search that succeeded, if any did. */
  lemma RangeIsOfTheLastGoodSearch(net: Net, requested: set<string>, targets: nat, trace: seq<Search>, stop: Stop, r: Response, i: nat)
    requires Answered(net, requested, targets, trace, stop, r) && i < |trace| && IsLastGood(net, trace, i)
    ensures var reply := net.search(trace[i].target, trace[i].name, trace[i].devid);
            r.timeRange == TimeRange(reply.start, reply.end)
  {
    HonestTrace(net, trace, requested);
    RangeOfLast(net, trace, i);
  }

  lemma NoRangeWithoutAGoodSearch(net: Net, requested: set<string>, targets: nat, trace: seq<Search>, stop: Stop, r: Response)
    requires Answered(net, requested, targets, trace, stop, r)
    requires forall i :: 0 <= i < |trace| ==> !RowsCame(net, trace[i])
    ensures r.timeRange == NoRange
  {
    HonestTrace(net, trace, requested);
    RangeStays(net, trace, 0);
    assert trace[..0] == [];
  }

  lemma ContributedRange(reply: SearchReply)
    ensures Contributed(reply).Ok? ==>
              reply.Rows? && Contributed(reply).value.start == reply.start && Contributed(reply).value.end == reply.end
  {
  }

  lemma LastRange(trace: seq<Search>)
    requires trace != [] && trace[|trace| - 1].result.Ok?
    ensures var c := trace[|trace| - 1].result.value;
            Tally(trace).timeRange == TimeRange(c.start, c.end)
  {
  }

  lemma RangeOfLast(net: Net, trace: seq<Search>, i: nat)
    requires Honest(net, trace) && i < |trace| && IsLastGood(net, trace, i)
    ensures var reply := net.search(trace[i].target, trace[i].name, trace[i].devid);
            Tally(trace).timeRange == TimeRange(reply.start, reply.end)
  {
    var upTo := trace[..i + 1];
    RangeStays(net, trace, i + 1);
    assert upTo[|upTo| - 1] == trace[i];
    LastRange(upTo);
    ContributedRange(net.search(trace[i].target, trace[i].name, trace[i].devid));
  }

  /** Searches that do not succeed leave the range alone. */
  lemma {:induction false} RangeStays(net: Net, trace: seq<Search>, n: nat)
    requires Honest(net, trace) && n <= |trace|
    requires forall j :: n <= j < |trace| ==> !RowsCame(net, trace[j])
    ensures Tally(trace).timeRange == Tally(trace[..n]).timeRange
  {
    if n == |trace| {
      assert trace[..n] == trace;
    } else {
      var m := |trace| - 1;
      RangeStays(net, trace[..m], n);
      assert trace[..m][..n] == trace[..n];
      assert !RowsCame(net, trace[m]);
    }
  }

  // ---------- Errors ----------

  /** The errors of an answer, whether it is a 200 or a 502. */
  function ErrorsOf(out: Outcome): map<string, string>
    requires out.Success? || out.AllFailed?
  {
    if out.Success? then out.response.errors else out.errors
  }

  lemma ErrorsAreFinal(net: Net, requested: set<string>, targets: nat, trace: seq<Search>, stop: Stop, out: Outcome)
    requires Accounts(net, requested, targets, trace, stop, out) && (out.Success? || out.AllFailed?)
    ensures ErrorsOf(out) == FinalErrors(net, targets, trace, requested, stop)
  {
  }

  /** A searched name is in error exactly when its search failed, with its message. */
  lemma SearchedErrorIsItsReply(net: Net, requested: set<string>, targets: nat, trace: seq<Search>, stop: Stop, out: Outcome, i: nat)
    requires Accounts(net, requested, targets, trace, stop, out) && (out.Success? || out.AllFailed?) && i < |trace|
    ensures var reply := net.search(trace[i].target, trace[i].name, trace[i].devid);
            var errors := ErrorsOf(out);
            && (trace[i].name in errors <==> reply.Failed?)
            && (reply.Failed? ==> errors[trace[i].name] == reply.msg)
  {
    var s := trace[i];
    ErrorsAreFinal(net, requested, targets, trace, stop, out);
    assert SoundSearch(net, s, requested, i);
    SearchForFacts(trace, s.name);
    OneSearchPerName(net, trace, requested, s, SearchFor(trace, s.name).value);
    NotCrashedHasNoBadRow(net, requested, targets, trace, stop, out, s.name);
  }

  /** Target `t` is the first whose listing failed. */
  predicate FirstUnreachable(net: Net, t: nat) {
    net.listing(t).Unreachable? && forall u: nat :: u < t ==> net.listing(u).Devices?
  }

  /** A name that was not searched is in error with the message of the first target whose
      listing failed, if any did; if the deadline stopped the run, as skipped. */
  lemma UnsearchedErrorIsListingOrDeadline(net: Net, requested: set<string>, targets: nat, trace: seq<Search>, stop: Stop, out: Outcome,
                                           n: string)
    requires Accounts(net, requested, targets, trace, stop, out) && (out.Success? || out.AllFailed?)
    requires n in requested && forall i :: 0 <= i < |trace| ==> trace[i].name != n
    ensures var errors := ErrorsOf(out);
            && (stop.At? ==> n in errors && errors[n] == "skipped: request deadline exceeded")
            && (stop.Ran? ==> (n in errors <==> exists t: nat :: t < targets && net.listing(t).Unreachable?))
            && (stop.Ran? ==> forall t: nat :: t < targets && FirstUnreachable(net, t) ==> errors[n] == net.listing(t).msg)
  {
    ErrorsAreFinal(net, requested, targets, trace, stop, out);
    SearchForFacts(trace, n);
    assert n !in Names(trace);
    FirstListingErrorIs(net, targets);
  }

  lemma {:induction false} FirstListingErrorIs(net: Net, targets: nat)
    ensures FirstListingError(net, targets).Some? <==> exists t: nat :: t < targets && net.listing(t).Unreachable?
    ensures forall t: nat :: t < targets && FirstUnreachable(net, t) ==>
              FirstListingError(net, targets) == Some(net.listing(t).msg)
  {
    if targets == 0 {
    } else {
      FirstListingErrorIs(net, targets - 1);
    }
  }

  /** The answer is a 502 exactly when no search succeeded and some name is in error. */
  lemma AllFailedMeansNothingFetched(net: Net, requested: set<string>, targets: nat, trace: seq<Search>, stop: Stop, out: Outcome)
    requires Accounts(net, requested, targets, trace, stop, out) && (out.Success? || out.AllFailed?)
    ensures out.AllFailed? <==> (forall i :: 0 <= i < |trace| ==> !RowsCame(net, trace[i])) && ErrorsOf(out) != map[]
  {
    HonestTrace(net, trace, requested);
    GoodFacts(trace);
    ErrorsAreFinal(net, requested, targets, trace, stop, out);
    if Good(trace) != [] {
      assert Good(trace)[0] in trace;
      var i :| 0 <= i < |trace| && trace[i] == Good(trace)[0];
      assert RowsCame(net, trace[i]);
    }
    if i :| 0 <= i < |trace| && RowsCame(net, trace[i]) {
      assert trace[i] in Good(trace);
    }
  }

  // ---------- Device by device ----------

  /** What happens to one name taken on its own, target after target. */
  datatype Fate = Fetched(c: Contribution) | Broken(f: Failure) | Absent(listingError: Option<string>)

  function FateFrom(net: Net, t: nat, targets: nat, n: string, listingError: Option<string>): Fate
    requires t <= targets
    decreases targets - t
  {
    if t == targets then Absent(listingError)
    else match net.listing(t)
      case Unreachable(msg) =>
        FateFrom(net, t + 1, targets, n, if listingError.None? then Some(msg) else listingError)
      case Devices(devs) =>
        match Resolve(devs, n)
        case None => FateFrom(net, t + 1, targets, n, listingError)
        case Some(id) =>
          match Contributed(net.search(t, n, id))
          case Ok(c) => Fetched(c)
          case Err(f) => Broken(f)
  }

  function FateOf(net: Net, targets: nat, n: string): Fate {
    FateFrom(net, 0, targets, n, None)
  }

  lemma {:induction false} FateUnresolved(net: Net, t: nat, u: nat, targets: nat, n: string)
    requires t <= u <= targets
    requires forall v: nat :: t <= v < u ==> ResolvesAt(net, v, n).None?
    ensures FateFrom(net, t, targets, n, FirstListingError(net, t)) == FateFrom(net, u, targets, n, FirstListingError(net, u))
    decreases u - t
  {
    if t < u {
      FateUnresolved(net, t + 1, u, targets, n);
      assert ResolvesAt(net, t, n).None?;
    }
  }

  lemma FateOfSearched(net: Net, requested: set<string>, targets: nat, trace: seq<Search>, i: nat)
    requires Traced(net, trace, requested) && i < |trace| && trace[i].target < targets
    ensures FateOf(net, targets, trace[i].name) ==
              match trace[i].result
              case Ok(c) => Fetched(c)
              case Err(f) => Broken(f)
  {
    var s := trace[i];
    assert SoundSearch(net, s, requested, i);
    FateUnresolved(net, 0, s.target, targets, s.name);
  }

  /** A run the deadline did not stop reports each device exactly as its own fate says:
      the shared loop, its early exit and the other devices make no difference. */
  lemma UninterruptedRunIsDeviceByDevice(net: Net, requested: set<string>, targets: nat, trace: seq<Search>, r: Response, n: string)
    requires Answered(net, requested, targets, trace, Ran, r) && n in requested
    ensures match FateOf(net, targets, n)
            case Fetched(c) => n in r.queried && n !in r.notFound && n !in r.errors
            case Broken(f) => n !in r.queried && n !in r.notFound && n in r.errors && r.errors[n] == MessageOf(f)
            case Absent(None) => n !in r.queried && n in r.notFound && n !in r.errors
            case Absent(Some(msg)) => n !in r.queried && n in r.notFound && n in r.errors && r.errors[n] == msg
  {
    SearchForFacts(trace, n);
    FetchedMeansGood(net, trace, requested, n);
    match SearchFor(trace, n)
    case Some(s) =>
      var i :| 0 <= i < |trace| && trace[i] == s;
      FateOfSearched(net, requested, targets, trace, i);
    case None =>
      FateUnresolved(net, 0, targets, targets, n);
  }

  lemma SearchedIsBroken(net: Net, requested: set<string>, targets: nat, trace: seq<Search>, stop: Stop, out: Outcome, n: string)
    requires Accounts(net, requested, targets, trace, stop, out) && n in Names(trace)
    ensures FateOf(net, targets, n) == Broken(BadRow) <==>
              SearchFor(trace, n).Some? && SearchFor(trace, n).value.result == Err(BadRow)
  {
    SearchForFacts(trace, n);
    var i :| 0 <= i < |trace| && trace[i] == SearchFor(trace, n).value;
    FateOfSearched(net, requested, targets, trace, i);
  }

  /** When every clock reading is early, the crash can be told from the devices alone: some
      requested name, taken on its own, meets a row that cannot be converted. */
  lemma EarlyRunCrashesIffSomeDeviceDoes(net: Net, requested: set<string>, targets: nat, out: Outcome)
    requires IsOutcome(net, requested, targets, out)
    requires forall k: nat :: net.clock(k) < net.clock(0) + 75.0
    ensures out.Crashed? <==> exists n :: n in requested && FateOf(net, targets, n) == Broken(BadRow)
  {
    var trace, stop :| Accounts(net, requested, targets, trace, stop, out);
    if out.Crashed? {
      var i := |trace| - 1;
      FateOfSearched(net, requested, targets, trace, i);
      assert SoundSearch(net, trace[i], requested, i);
    } else if n :| n in requested && FateOf(net, targets, n) == Broken(BadRow) {
      if n in Names(trace) {
        SearchedIsBroken(net, requested, targets, trace, stop, out, n);
        NotCrashedHasNoBadRow(net, requested, targets, trace, stop, out, n);
      } else if targets > 0 {
        SearchesAreOncePerDeviceAndInTime(net, requested, targets, trace, stop, out);
        FateUnresolved(net, 0, targets, targets, n);
      }
    }
  }

  lemma NotCrashedHasNoBadRow(net: Net, requested: set<string>, targets: nat, trace: seq<Search>, stop: Stop, out: Outcome, n: string)
    requires Accounts(net, requested, targets, trace, stop, out) && !out.Crashed?
    ensures SearchFor(trace, n).Some? ==> SearchFor(trace, n).value.result != Err(BadRow)
  {
    SearchForFacts(trace, n);
  }

  /** One target, one device, one row with the port `--5`. */
  function TwoHyphenNet(): Net {
    Net(t => Devices([Device("fw", "1")]),
        (t, name, id) => Rows([LogRow("", "", Str("--5"))], false, "", ""),
        k => 0.0)
  }

  lemma TwoHyphenRowIsBad()
    ensures Contributed(TwoHyphenNet().search(0, "fw", "1")) == Err(BadRow)
    ensures ResolvesAt(TwoHyphenNet(), 0, "fw") == Some("1")
  {
    var rows := [LogRow("", "", Str("--5"))];
    TwoHyphensRaise();
    assert PortOf(rows[0].dstport).Raises?;
    OnlyDeviceResolves(Device("fw", "1"));
  }

  /** The request for that device crashes, and has no other outcome. */
  lemma PortWithTwoHyphensCrashes(out: Outcome)
    ensures IsOutcome(TwoHyphenNet(), {"fw"}, 1, out) <==> out.Crashed?
  {
    var net := TwoHyphenNet();
    var search := Search(0, "fw", "1", 0.0, Err(BadRow));
    TwoHyphenRowIsBad();
    assert Names([]) == {};
    assert Next(net, [], {"fw"}, 0, "fw");
    assert [search][..0] == [];
    assert InTurn(net, [search], {"fw"});
    assert SoundSearch(net, search, {"fw"}, 0);
    assert Accounts(net, {"fw"}, 1, [search], Ran, Crashed);
    if IsOutcome(net, {"fw"}, 1, out) {
      OutcomeIsDetermined(net, {"fw"}, 1, out, Crashed);
    }
  }

  lemma OnlyDeviceResolves(d: Device)
    requires d.name != "" && d.devid != ""
    ensures Resolve([d], d.name) == Some(d.devid)
  {
    assert [d][..0] == [];
  }
}
