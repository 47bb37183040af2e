/** The submit-and-poll loops of the FortiAnalyzer client (search_logs and run_fortiview
    in app/faz_client.py): request ids, the deadline, and a computed termination bound. */
module FazPolling {
  import opened Prelude

  /** One answer to a fetch: an error, or a progress report with its rows and, if the
      server gave one, its own line count. */
  datatype FetchReply = Broken | Progress(percentage: real, rows: seq<string>, returnLines: Option<nat>)

  datatype Outcome = Finished(rows: seq<string>, truncated: bool) | TimedOut | Failed

  /** What the server and the clock do: whether submitting gives a task id, the k-th
      fetch reply, the k-th reading of the monotonic clock. */
  datatype Server = Server(submitOk: bool, reply: nat -> FetchReply, clock: nat -> real)

  /** The first check follows the deadline's reading, and every sleep lasts at least the
      poll interval. */
  ghost predicate Orderly(s: Server, pollInterval: real) {
    && s.clock(1) >= s.clock(0)
    && forall k: nat {:trigger s.clock(k + 1)} :: k >= 1 ==> s.clock(k + 1) >= s.clock(k) + pollInterval
  }

  /** ceil(timeout / pollInterval), and 0 for a timeout that is not positive. */
  function MaxFetches(timeout: real, pollInterval: real): nat
    requires pollInterval > 0.0
  {
    if timeout <= 0.0 then 0
    else
      var q := timeout / pollInterval;
      QuotientIsPositive(timeout, pollInterval);
      if q.Floor as real == q then q.Floor else q.Floor + 1
  }

  /** It is the least number of intervals that reach the timeout. */
  lemma MaxFetchesIsTheCeiling(timeout: real, pollInterval: real)
    requires pollInterval > 0.0
    ensures var n := MaxFetches(timeout, pollInterval);
            && n as real * pollInterval >= timeout
            && (n > 0 ==> (n as real - 1.0) * pollInterval < timeout)
  {
    if timeout > 0.0 {
      var q := timeout / pollInterval;
      QuotientIsPositive(timeout, pollInterval);
      QuotientTimes(timeout, pollInterval);
      CeilingFits(MaxFetches(timeout, pollInterval) as real, q, pollInterval, timeout);
    }
  }

  lemma CeilingFits(n: real, q: real, m: real, timeout: real)
    requires m > 0.0 && q * m == timeout && n - 1.0 < q <= n
    ensures n * m >= timeout && (n - 1.0) * m < timeout
  {
    ScalesUp(q, n, m);
    var before := n - 1.0;
    ScalesUpStrictly(before, q, m);
    assert before * m < timeout;
  }

  lemma ScalesUp(x: real, y: real, m: real)
    requires m > 0.0 && x <= y
    ensures x * m <= y * m
  {
    assert (y - x) * m == y * m - x * m;
  }

  lemma ScalesUpStrictly(x: real, y: real, m: real)
    requires m > 0.0 && x < y
    ensures x * m < y * m
  {
    assert (y - x) * m == y * m - x * m;
  }

  lemma QuotientIsPositive(timeout: real, pollInterval: real)
    requires timeout > 0.0 && pollInterval > 0.0
    ensures timeout / pollInterval > 0.0
  {
  }

  lemma QuotientTimes(timeout: real, pollInterval: real)
    requires pollInterval > 0.0
    ensures (timeout / pollInterval) * pollInterval == timeout
  {
  }

  lemma LessByFactor(x: real, y: real, m: real)
    requires m > 0.0 && x * m < y * m
    ensures x < y
  {
    assert (x - y) * m == x * m - y * m;
  }

  /** n intervals that fit strictly inside the timeout leave room for one more fetch. */
  lemma FitsUnderBound(n: nat, timeout: real, pollInterval: real)
    requires pollInterval > 0.0 && n as real * pollInterval < timeout
    ensures n < MaxFetches(timeout, pollInterval)
  {
    var q := timeout / pollInterval;
    assert n as real * pollInterval >= 0.0;
    QuotientTimes(timeout, pollInterval);
    LessByFactor(n as real, q, pollInterval);
  }

  lemma {:induction false} ElapsedSinceFirstCheck(s: Server, pollInterval: real, n: nat)
    requires Orderly(s, pollInterval)
    ensures s.clock(n + 1) >= s.clock(0) + Elapsed(n, pollInterval)
  {
    if n == 0 {
    } else {
      ElapsedSinceFirstCheck(s, pollInterval, n - 1);
      assert s.clock(n + 1) >= s.clock(n) + pollInterval;
    }
  }

  function Elapsed(n: nat, pollInterval: real): real {
    if n == 0 then 0.0 else Elapsed(n - 1, pollInterval) + pollInterval
  }

  lemma {:induction false} ElapsedMultiplies(n: nat, pollInterval: real)
    ensures Elapsed(n, pollInterval) == n as real * pollInterval
  {
    if n == 0 {
    } else {
      ElapsedMultiplies(n - 1, pollInterval);
      OneMore(n as real, pollInterval);
    }
  }

  lemma OneMore(x: real, m: real)
    ensures (x - 1.0) * m + m == x * m
  {
  }

  /** A check that passed before the n-th fetch (counting from 0) keeps the bound. */
  lemma PassedCheckKeepsBound(s: Server, timeout: real, pollInterval: real, n: nat)
    requires pollInterval > 0.0 && Orderly(s, pollInterval)
    requires InTime(s, timeout, n)
    ensures n < MaxFetches(timeout, pollInterval)
  {
    ElapsedSinceFirstCheck(s, pollInterval, n);
    ElapsedMultiplies(n, pollInterval);
    FitsUnderBound(n, timeout, pollInterval);
  }

  /** The check before the k-th fetch (from 0) saw the deadline not yet reached. */
  predicate InTime(s: Server, timeout: real, k: nat) {
    s.clock(k + 1) < s.clock(0) + timeout
  }

  predicate Unfinished(s: Server, k: nat) {
    s.reply(k).Progress? && s.reply(k).percentage < 100.0
  }

  /** What the first `fetches` rounds of a wait did: each began before the deadline and,
      unless it was the last, came back unfinished. */
  ghost predicate Rounds(s: Server, timeout: real, fetches: nat) {
    && (forall k: nat :: k < fetches ==> InTime(s, timeout, k))
    && (forall k: nat :: k < fetches - 1 ==> Unfinished(s, k))
  }

  /** The outcome of a wait that fetched `fetches` times. */
  ghost predicate Explained(s: Server, timeout: real, limit: nat, fetches: nat, out: Outcome) {
    && Rounds(s, timeout, fetches)
    && match out
       case Finished(rows, truncated) =>
         && fetches > 0
         && var last := s.reply(fetches - 1);
            && last.Progress? && last.percentage >= 100.0 && rows == last.rows
            && truncated == ((if last.returnLines.Some? then last.returnLines.value else |rows|) >= limit)
       case TimedOut =>
         && s.submitOk && !InTime(s, timeout, fetches) && (fetches > 0 ==> Unfinished(s, fetches - 1))
       case Failed => (!s.submitOk && fetches == 0) || (fetches > 0 && s.reply(fetches - 1).Broken?)
  }

  class FazClient {
    var reqId: nat
    /** Every request id handed out, oldest first. */
    ghost var issued: seq<nat>

    ghost predicate Valid()
      reads this
    {
      && (forall i :: 0 <= i < |issued| ==> issued[i] <= reqId)
      && (forall i, j :: 0 <= i < j < |issued| ==> issued[i] < issued[j])
    }

    constructor ()
      ensures Valid() && reqId == 0 && issued == []
    {
      reqId, issued := 0, [];
    }

    method NextId() returns (id: nat)
      requires Valid()
      modifies this
      ensures Valid() && reqId == old(reqId) + 1 == id && issued == old(issued) + [id]
    {
      reqId := reqId + 1;
      id := reqId;
      issued := issued + [id];
    }

    /** Submit a task and poll it to completion. */
    method RunTask(s: Server, limit: nat, pollInterval: real, timeout: real) returns (out: Outcome, fetches: nat)
      requires Valid() && pollInterval > 0.0 && Orderly(s, pollInterval)
      modifies this
      ensures Valid() && old(issued) <= issued && |issued| == |old(issued)| + 1 + fetches
      ensures fetches <= MaxFetches(timeout, pollInterval)
      ensures Explained(s, timeout, limit, fetches, out)
    {
      fetches := 0;
      var submitId := NextId();
      if !s.submitOk {
        return Failed, 0;
      }
      var deadline := s.clock(0) + timeout;
      while true
        invariant Valid() && old(issued) <= issued && |issued| == |old(issued)| + 1 + fetches
        invariant fetches <= MaxFetches(timeout, pollInterval) && Rounds(s, timeout, fetches)
        invariant fetches > 0 ==> Unfinished(s, fetches - 1)
        decreases MaxFetches(timeout, pollInterval) - fetches
      {
        if s.clock(fetches + 1) >= deadline {
          return TimedOut, fetches;
        }
        PassedCheckKeepsBound(s, timeout, pollInterval, fetches);
        var fetchId := NextId();
        var last := s.reply(fetches);
        fetches := fetches + 1;
        if last.Broken? {
          return Failed, fetches;
        }
        if last.percentage >= 100.0 {
          var returnLines := if last.returnLines.Some? then last.returnLines.value else |last.rows|;
          return Finished(last.rows, returnLines >= limit), fetches;
        }
      }
    }
  }

  /** The outcome and the number of fetches are determined by the server: two accounts of
      one wait agree. */
  lemma WaitIsDetermined(s: Server, timeout: real, limit: nat, n1: nat, out1: Outcome, n2: nat, out2: Outcome)
    requires s.submitOk
    requires Explained(s, timeout, limit, n1, out1) && Explained(s, timeout, limit, n2, out2)
    ensures n1 == n2 && out1 == out2
  {
    NotEarlier(s, timeout, limit, n1, out1, n2);
    NotEarlier(s, timeout, limit, n2, out2, n1);
  }

  lemma NotEarlier(s: Server, timeout: real, limit: nat, n1: nat, out1: Outcome, n2: nat)
    requires s.submitOk && Explained(s, timeout, limit, n1, out1) && Rounds(s, timeout, n2)
    ensures n1 >= n2
  {
    assert n1 < n2 ==> InTime(s, timeout, n1) && (n1 > 0 ==> Unfinished(s, n1 - 1));
  }
}
