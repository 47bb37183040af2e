/** Timed guarantees of the session checker over whole runs. The calls of a run,
    their clock readings and the outcome of every fetch are arbitrary; readings may
    reach the lock out of order. */
module SessionRuns {
  import opened Prelude
  import opened RevocationPayload
  import opened SessionChecker

  /** One call: the answer of the remote side matters only if the call fetches. */
  datatype Call = Call(now: real, reply: Option<Payload>, username: string, loginAt: real)

  function Run(cfg: Config, created: real, calls: seq<Call>): World {
    if calls == [] then Start(created)
    else
      var c := calls[|calls| - 1];
      Step(cfg, Run(cfg, created, calls[..|calls| - 1]), c.now, c.reply)
  }

  /** The answer the last call of a run gets. */
  predicate Accepted(cfg: Config, created: real, calls: seq<Call>)
    requires calls != []
  {
    var c := calls[|calls| - 1];
    Answer(cfg, Run(cfg, created, calls).state, c.now, c.username, c.loginAt)
  }

  // ---------- Reading the fetch log ----------

  /** Index of the last successful attempt, -1 if there is none. */
  function LastGood(log: seq<Attempt>): (i: int)
    ensures -1 <= i < |log|
    ensures i >= 0 ==> log[i].reply.Some?
    ensures forall j :: i < j < |log| ==> log[j].reply.None?
  {
    if log == [] then -1
    else if log[|log| - 1].reply.Some? then |log| - 1
    else LastGood(log[..|log| - 1])
  }

  /** The moment the grace is counted from. */
  function GraceBase(created: real, log: seq<Attempt>): real {
    var g := LastGood(log);
    if g < 0 then created else log[g].now
  }

  predicate FailedPastGrace(cfg: Config, created: real, log: seq<Attempt>, i: nat)
    requires i < |log|
  {
    log[i].reply.None? && log[i].now - GraceBase(created, log[..i]) > cfg.graceSeconds
  }

  /** How long the checker waits after attempt i before it may try again. */
  function Wait(cfg: Config, created: real, log: seq<Attempt>, i: nat): real
    requires i < |log|
  {
    if FailedPastGrace(cfg, created, log, i) then Min(cfg.cacheSeconds, RETRY_SECONDS) else cfg.cacheSeconds
  }

  predicate Spaced(cfg: Config, created: real, log: seq<Attempt>) {
    forall i {:trigger Wait(cfg, created, log, i)} :: 0 <= i < |log| - 1 ==>
      log[i + 1].now >= log[i].now + Wait(cfg, created, log, i)
  }

  /** The four fields, recomputed from the log alone. */
  function StateOf(cfg: Config, created: real, log: seq<Attempt>): State {
    var g := LastGood(log);
    var n := |log|;
    var fetched := if n == 0 then None
                   else Some(log[n - 1].now - cfg.cacheSeconds + Wait(cfg, created, log, n - 1));
    if g < 0 then State(map[], 0.0, fetched, created)
    else State(log[g].reply.value.users, log[g].reply.value.serverTime - log[g].now, fetched, log[g].now)
  }

  lemma WaitIgnoresLaterAttempts(cfg: Config, created: real, log: seq<Attempt>, more: seq<Attempt>, i: nat)
    requires i < |log|
    ensures Wait(cfg, created, log + more, i) == Wait(cfg, created, log, i)
  {
    assert (log + more)[..i] == log[..i];
  }

  lemma LastGoodOfAppended(log: seq<Attempt>, a: Attempt)
    ensures LastGood(log + [a]) == if a.reply.Some? then |log| else LastGood(log)
  {
    assert (log + [a])[..|log|] == log;
  }

  lemma SpacedAfterAppend(cfg: Config, created: real, log: seq<Attempt>, a: Attempt)
    requires Spaced(cfg, created, log)
    requires log != [] ==> a.now >= log[|log| - 1].now + Wait(cfg, created, log, |log| - 1)
    ensures Spaced(cfg, created, log + [a])
  {
    var after := log + [a];
    forall i | 0 <= i < |after| - 1
      ensures after[i + 1].now >= after[i].now + Wait(cfg, created, after, i)
    {
      WaitIgnoresLaterAttempts(cfg, created, log, [a], i);
      if i < |log| - 1 {
        assert log[i + 1].now >= log[i].now + Wait(cfg, created, log, i);
      }
    }
  }

  lemma StepFollowsTheLog(cfg: Config, created: real, w: World, now: real, reply: Option<Payload>)
    requires w.state == StateOf(cfg, created, w.log) && Spaced(cfg, created, w.log)
    ensures var w' := Step(cfg, w, now, reply);
            w'.state == StateOf(cfg, created, w'.log) && Spaced(cfg, created, w'.log)
  {
    if Due(cfg, w.state, now) {
      var a := Attempt(now, reply);
      LastGoodOfAppended(w.log, a);
      assert (w.log + [a])[..|w.log|] == w.log;
      SpacedAfterAppend(cfg, created, w.log, a);
    }
  }

  /** The mutable fields never hold anything the fetch log does not determine, and
      attempts keep their distance. */
  lemma {:induction false} FieldsFollowTheLog(cfg: Config, created: real, calls: seq<Call>)
    ensures var w := Run(cfg, created, calls);
            w.state == StateOf(cfg, created, w.log) && Spaced(cfg, created, w.log)
  {
    if calls == [] {
    } else {
      var c := calls[|calls| - 1];
      FieldsFollowTheLog(cfg, created, calls[..|calls| - 1]);
      StepFollowsTheLog(cfg, created, Run(cfg, created, calls[..|calls| - 1]), c.now, c.reply);
    }
  }

  // ---------- Safety: bounded staleness ----------

  predicate Revokes(a: Attempt, username: string, loginAt: real)
    requires a.reply.Some?
  {
    var p := a.reply.value;
    username in p.users && p.users[username] > loginAt + (p.serverTime - a.now)
  }

  /** Exactly when a call is accepted, in terms of the fetches made so far: the last
      good payload is within the grace and does not revoke the session, or nothing
      was ever fetched and the checker itself is within the grace. */
  lemma AcceptanceIsDecidedByTheLastGoodFetch(cfg: Config, created: real, calls: seq<Call>)
    requires calls != []
    ensures var c := calls[|calls| - 1];
            var log := Run(cfg, created, calls).log;
            var g := LastGood(log);
            Accepted(cfg, created, calls) <==>
              if g >= 0
              then log[g].now >= c.now - cfg.graceSeconds && !Revokes(log[g], c.username, c.loginAt)
              else c.now <= created + cfg.graceSeconds
  {
    FieldsFollowTheLog(cfg, created, calls);
  }

  /** The same in terms of the JSON value the last good fetch returned: within the grace a
      session is refused exactly when the value lists a time for its user that is later
      than its login on the server's clock. */
  lemma ReturnedValueDecides(cfg: Config, created: real, calls: seq<Call>, v: Value)
    requires calls != []
    requires var log := Run(cfg, created, calls).log;
             var g := LastGood(log);
             g >= 0 && log[g].reply == Received(Returned(v)) && calls[|calls| - 1].now - log[g].now <= cfg.graceSeconds
    ensures v.Dict? && "users" in v.entries && v.entries["users"].Dict? && "server_time" in v.entries
    ensures var c := calls[|calls| - 1];
            var log := Run(cfg, created, calls).log;
            var users := v.entries["users"].entries;
            !Accepted(cfg, created, calls) <==>
              && c.username in users
              && exists logout, server :: Shows(users[c.username], logout) && Shows(v.entries["server_time"], server) &&
                   logout > c.loginAt + (server - log[LastGood(log)].now)
  {
    var c := calls[|calls| - 1];
    DecodedHoldsTheValues(v);
    AcceptanceIsDecidedByTheLastGoodFetch(cfg, created, calls);
    if c.username in Decoded(v).value.users {
      assert Shows(v.entries["users"].entries[c.username], Decoded(v).value.users[c.username]);
    }
  }

  /** A fetch that raises, or returns anything else, is not a good one. */
  lemma OnlyWellFormedValuesAreGood(reply: Reply)
    ensures Received(reply).Some? <==> reply.Returned? && WellFormed(reply.v)
  {
  }

  /** Exactly when a call fetches: nothing was fetched yet, or the last attempt is a cache
      interval old; the shorter of that and five seconds is enough after an attempt that
      failed more than the grace after the last good one (or the checker's creation). */
  lemma CallFetchesExactlyWhenDue(cfg: Config, created: real, calls: seq<Call>)
    requires calls != []
    ensures var c := calls[|calls| - 1];
            var before := Run(cfg, created, calls[..|calls| - 1]).log;
            var n := |before| - 1;
            Run(cfg, created, calls).log ==
              if (|| before == []
                  || c.now - before[n].now >= cfg.cacheSeconds
                  || (&& before[n].reply.None?
                      && before[n].now > cfg.graceSeconds + (if LastGood(before) < 0 then created else before[LastGood(before)].now)
                      && c.now - before[n].now >= 5.0))
              then before + [Attempt(c.now, c.reply)] else before
  {
    var before := Run(cfg, created, calls[..|calls| - 1]);
    FieldsFollowTheLog(cfg, created, calls[..|calls| - 1]);
    DueByTheLog(cfg, created, before.log, calls[|calls| - 1].now);
  }

  lemma DueByTheLog(cfg: Config, created: real, log: seq<Attempt>, now: real)
    ensures var n := |log| - 1;
            Due(cfg, StateOf(cfg, created, log), now) <==>
              || log == []
              || now - log[n].now >= cfg.cacheSeconds
              || (&& log[n].reply.None?
                  && log[n].now > cfg.graceSeconds + (if LastGood(log) < 0 then created else log[LastGood(log)].now)
                  && now - log[n].now >= 5.0)
  {
    if log != [] {
      GraceBaseOfFailed(created, log);
    }
  }

  /** A failed attempt does not move the moment the grace is counted from. */
  lemma GraceBaseOfFailed(created: real, log: seq<Attempt>)
    requires log != []
    ensures log[|log| - 1].reply.None? ==> GraceBase(created, log[..|log| - 1]) == GraceBase(created, log)
  {
    var n := |log| - 1;
    assert log == log[..n] + [log[n]];
    LastGoodOfAppended(log[..n], log[n]);
  }


  /** A logout that every payload fetched from `t` on lists is refused once both `t`
      and the checker's creation are more than the grace in the past, whatever fails. */
  lemma ListedLogoutIsRefusedAfterTheGrace(cfg: Config, created: real, calls: seq<Call>, t: real)
    requires calls != []
    requires var c := calls[|calls| - 1];
             var log := Run(cfg, created, calls).log;
             forall i :: 0 <= i < |log| && log[i].reply.Some? && log[i].now >= t ==>
               Revokes(log[i], c.username, c.loginAt)
    requires var c := calls[|calls| - 1];
             c.now > t + cfg.graceSeconds && c.now > created + cfg.graceSeconds
    ensures !Accepted(cfg, created, calls)
  {
    AcceptanceIsDecidedByTheLastGoodFetch(cfg, created, calls);
  }

  // ---------- Rate: order and spacing of attempts ----------

  /** `n` intervals of length `m`, one after the other. */
  function Intervals(n: nat, m: real): real {
    if n == 0 then 0.0 else Intervals(n - 1, m) + m
  }

  lemma Peel(x: real, m: real)
    ensures (x - 1.0) * m + m == x * m
  {
  }

  lemma {:induction false} IntervalsMultiply(n: nat, m: real)
    ensures Intervals(n, m) == n as real * m
  {
    if n == 0 {
    } else {
      IntervalsMultiply(n - 1, m);
      Peel(n as real, m);
    }
  }

  lemma {:induction false} SpacedLogIsRateLimited(cfg: Config, created: real, log: seq<Attempt>, i: nat, j: nat)
    requires Spaced(cfg, created, log) && i <= j < |log|
    ensures log[j].now - log[i].now >= Intervals(j - i, Min(cfg.cacheSeconds, RETRY_SECONDS))
    ensures cfg.cacheSeconds >= 0.0 ==> log[i].now <= log[j].now
    decreases j
  {
    if i < j {
      SpacedLogIsRateLimited(cfg, created, log, i, j - 1);
      assert log[j].now >= log[j - 1].now + Wait(cfg, created, log, j - 1);
    }
  }

  lemma SpacedLogInSeconds(cfg: Config, created: real, log: seq<Attempt>, i: nat, j: nat, m: real)
    requires m == Min(cfg.cacheSeconds, RETRY_SECONDS)
    requires Spaced(cfg, created, log) && i <= j < |log|
    ensures log[j].now - log[i].now >= (j - i) as real * m
    ensures cfg.cacheSeconds >= 0.0 ==> log[i].now <= log[j].now
  {
    SpacedLogIsRateLimited(cfg, created, log, i, j);
    IntervalsMultiply(j - i, m);
  }

  lemma RateInSeconds(cfg: Config, created: real, calls: seq<Call>, i: nat, j: nat, m: real)
    requires m == Min(cfg.cacheSeconds, RETRY_SECONDS)
    requires i <= j < |Run(cfg, created, calls).log|
    ensures var log := Run(cfg, created, calls).log;
            && log[j].now - log[i].now >= (j - i) as real * m
            && (cfg.cacheSeconds >= 0.0 ==> log[i].now <= log[j].now)
  {
    FieldsFollowTheLog(cfg, created, calls);
    SpacedLogInSeconds(cfg, created, Run(cfg, created, calls).log, i, j, m);
  }

  /** Attempts stay ordered and spaced although callers' readings may not be: the
      (j - i) attempts after attempt i take at least (j - i) retry intervals. */
  lemma AttemptsAreRateLimited(cfg: Config, created: real, calls: seq<Call>, i: nat, j: nat)
    requires i <= j < |Run(cfg, created, calls).log|
    ensures var log := Run(cfg, created, calls).log;
            && log[j].now - log[i].now >= (j - i) as real * (if cfg.cacheSeconds <= 5.0 then cfg.cacheSeconds else 5.0)
            && (cfg.cacheSeconds >= 0.0 ==> log[i].now <= log[j].now)
  {
    RateInSeconds(cfg, created, calls, i, j, Min(cfg.cacheSeconds, RETRY_SECONDS));
  }

  /** Between neighbouring attempts the full cache interval passes, unless the
      earlier one failed past the grace: then the retry interval is enough. */
  lemma NeighbouringAttemptsAreSpaced(cfg: Config, created: real, calls: seq<Call>, i: nat)
    requires i + 1 < |Run(cfg, created, calls).log|
    ensures var log := Run(cfg, created, calls).log;
            && log[i + 1].now >= log[i].now + (if cfg.cacheSeconds <= 5.0 then cfg.cacheSeconds else 5.0)
            && (!FailedPastGrace(cfg, created, log, i) ==> log[i + 1].now >= log[i].now + cfg.cacheSeconds)
  {
    FieldsFollowTheLog(cfg, created, calls);
    var log := Run(cfg, created, calls).log;
    assert log[i + 1].now >= log[i].now + Wait(cfg, created, log, i);
  }

  /** From the first good fetch on, the field `last_good` never moves backwards. */
  lemma LastGoodNeverDecreases(cfg: Config, created: real, calls: seq<Call>)
    requires cfg.cacheSeconds >= 0.0 && calls != []
    requires LastGood(Run(cfg, created, calls[..|calls| - 1]).log) >= 0
    ensures Run(cfg, created, calls[..|calls| - 1]).state.lastGood <= Run(cfg, created, calls).state.lastGood
  {
    var before, after := Run(cfg, created, calls[..|calls| - 1]), Run(cfg, created, calls);
    FieldsFollowTheLog(cfg, created, calls[..|calls| - 1]);
    FieldsFollowTheLog(cfg, created, calls);
    if after != before {
      var g := LastGood(before.log);
      SpacedLogIsRateLimited(cfg, created, after.log, g, |after.log| - 1);
    }
  }

  // ---------- Recovery ----------

  ghost predicate SucceedsFrom(log: seq<Attempt>, t: real) {
    forall i :: 0 <= i < |log| && log[i].now >= t ==> log[i].reply.Some?
  }

  /** Some probe before `t` failed past the grace, and no later one before `t` succeeded. */
  ghost predicate GraceRanOutBefore(cfg: Config, created: real, log: seq<Attempt>, t: real) {
    exists i: nat :: i < |log| && FailedPastGrace(cfg, created, log, i) && log[i].now < t &&
      forall j :: i < j < |log| && log[j].now < t ==> log[j].reply.None?
  }

  lemma {:induction false} StaysPastGrace(cfg: Config, created: real, log: seq<Attempt>, i: nat, j: nat)
    requires cfg.cacheSeconds >= 0.0 && Spaced(cfg, created, log)
    requires i <= j < |log| && FailedPastGrace(cfg, created, log, i)
    requires forall k :: i < k <= j ==> log[k].reply.None?
    ensures FailedPastGrace(cfg, created, log, j)
    decreases j
  {
    if i < j {
      StaysPastGrace(cfg, created, log, i, j - 1);
      SpacedLogIsRateLimited(cfg, created, log, j - 1, j);
      LastGoodOfAppended(log[..j - 1], log[j - 1]);
      assert log[..j] == log[..j - 1] + [log[j - 1]];
    }
  }

  lemma LastAttemptRanOut(cfg: Config, created: real, log: seq<Attempt>, t: real)
    requires cfg.cacheSeconds >= 0.0 && Spaced(cfg, created, log)
    requires log != [] && log[|log| - 1].now < t && GraceRanOutBefore(cfg, created, log, t)
    ensures FailedPastGrace(cfg, created, log, |log| - 1)
  {
    var last := |log| - 1;
    var i: nat :| i < |log| && FailedPastGrace(cfg, created, log, i) && log[i].now < t &&
      forall j :: i < j < |log| && log[j].now < t ==> log[j].reply.None?;
    forall k | i < k <= last ensures log[k].reply.None? {
      SpacedLogIsRateLimited(cfg, created, log, k, last);
    }
    StaysPastGrace(cfg, created, log, i, last);
  }

  lemma RecoveredStep(cfg: Config, created: real, w: World, now: real, reply: Option<Payload>, t: real)
    requires cfg.cacheSeconds >= 0.0
    requires w.state == StateOf(cfg, created, w.log) && Spaced(cfg, created, w.log)
    requires var log := Step(cfg, w, now, reply).log;
             && SucceedsFrom(log, t)
             && (|| now >= t + cfg.cacheSeconds
                 || (now >= t + Min(cfg.cacheSeconds, RETRY_SECONDS) && GraceRanOutBefore(cfg, created, log, t)))
    ensures var log := Step(cfg, w, now, reply).log;
            LastGood(log) >= 0 && log[LastGood(log)].now >= t
  {
    var w' := Step(cfg, w, now, reply);
    var log := w'.log;
    StepFollowsTheLog(cfg, created, w, now, reply);
    if log[|log| - 1].now < t && now < t + cfg.cacheSeconds {
      LastAttemptRanOut(cfg, created, log, t);
    }
  }

  /** Once fetches succeed again, a full cache interval later every answer rests on a
      list fetched after the recovery; the short retry interval is enough if the
      grace had already run out. */
  lemma RecoveredAnswersUseAFreshList(cfg: Config, created: real, calls: seq<Call>, t: real)
    requires cfg.cacheSeconds >= 0.0 && calls != []
    requires var log := Run(cfg, created, calls).log;
             var c := calls[|calls| - 1];
             && SucceedsFrom(log, t)
             && (|| c.now >= t + cfg.cacheSeconds
                 || (c.now >= t + (if cfg.cacheSeconds <= 5.0 then cfg.cacheSeconds else 5.0) && GraceRanOutBefore(cfg, created, log, t)))
    ensures var log := Run(cfg, created, calls).log;
            LastGood(log) >= 0 && log[LastGood(log)].now >= t
  {
    var c := calls[|calls| - 1];
    FieldsFollowTheLog(cfg, created, calls[..|calls| - 1]);
    RecoveredStep(cfg, created, Run(cfg, created, calls[..|calls| - 1]), c.now, c.reply, t);
  }

  /** So a logout listed by every payload from `t` on is refused from one cache
      interval after `t`, if fetches succeed from `t` on. */
  lemma ListedLogoutIsRefusedAfterRecovery(cfg: Config, created: real, calls: seq<Call>, t: real)
    requires cfg.cacheSeconds >= 0.0 && calls != []
    requires var log := Run(cfg, created, calls).log;
             var c := calls[|calls| - 1];
             && SucceedsFrom(log, t) && c.now >= t + cfg.cacheSeconds
             && forall i :: 0 <= i < |log| && log[i].reply.Some? && log[i].now >= t ==>
                  Revokes(log[i], c.username, c.loginAt)
    ensures !Accepted(cfg, created, calls)
  {
    RecoveredAnswersUseAFreshList(cfg, created, calls, t);
    AcceptanceIsDecidedByTheLastGoodFetch(cfg, created, calls);
  }

  // ---------- Clock skew ----------

  /** The server clock runs `delta` ahead, and stamps its payload at most `d` seconds
      after the checker's own reading. */
  predicate StampedWithin(a: Attempt, delta: real, d: real)
    requires a.reply.Some?
  {
    a.now + delta <= a.reply.value.serverTime <= a.now + delta + d
  }

  /** In any run whose payloads are stamped that way, while the last good fetch is
      within the grace: a logout (at checker time `l`, listed as l + delta) at or
      before the login never ends the session; one more than `d` after it always does. */
  lemma SkewCorrectionBound(cfg: Config, created: real, calls: seq<Call>, delta: real, d: real, l: real)
    requires calls != []
    requires var log := Run(cfg, created, calls).log;
             var g := LastGood(log);
             var c := calls[|calls| - 1];
             && g >= 0 && StampedWithin(log[g], delta, d)
             && c.now - log[g].now <= cfg.graceSeconds
             && c.username in log[g].reply.value.users
             && log[g].reply.value.users[c.username] == l + delta
    ensures delta <= Run(cfg, created, calls).state.offset <= delta + d
    ensures var c := calls[|calls| - 1];
            && (l <= c.loginAt ==> Accepted(cfg, created, calls))
            && (l > c.loginAt + d ==> !Accepted(cfg, created, calls))
  {
    FieldsFollowTheLog(cfg, created, calls);
  }

  /** Between the two bounds either answer can come: for every logout after the login
      by at most `d`, an honest stamp exists that accepts the session and one that
      refuses it. */
  lemma SkewBandIsUndecided(cfg: Config, username: string, loginAt: real, l: real, delta: real, d: real)
    requires cfg.graceSeconds >= 0.0
    requires loginAt < l <= loginAt + d
    ensures exists early, late ::
      && StampedWithin(Attempt(loginAt, Some(early)), delta, d)
      && StampedWithin(Attempt(loginAt, Some(late)), delta, d)
      && early.users == late.users == map[username := l + delta]
      && !Accepted(cfg, loginAt, [Call(loginAt, Some(early), username, loginAt)])
      && Accepted(cfg, loginAt, [Call(loginAt, Some(late), username, loginAt)])
  {
    var early := Payload(map[username := l + delta], loginAt + delta);
    var late := Payload(map[username := l + delta], loginAt + delta + d);
    FirstCall(cfg, username, loginAt, early);
    FirstCall(cfg, username, loginAt, late);
  }

  lemma FirstCall(cfg: Config, username: string, loginAt: real, p: Payload)
    requires cfg.graceSeconds >= 0.0
    ensures Accepted(cfg, loginAt, [Call(loginAt, Some(p), username, loginAt)]) <==>
              !Revokes(Attempt(loginAt, Some(p)), username, loginAt)
  {
    var call := Call(loginAt, Some(p), username, loginAt);
    assert [call][..0] == [];
    assert Run(cfg, loginAt, [call][..0]) == Start(loginAt);
    assert Run(cfg, loginAt, [call]) == Step(cfg, Start(loginAt), loginAt, Some(p));
  }
}
