/** What a session checker fetches: the validation of a revocation payload and the
    bounded read of the HTTP response that carries it (app/tsuite_adapter.py). */
module RevocationPayload {
  import opened Prelude

  /** A validated payload: the recorded logout time of each listed user, and the
      server's own clock reading. */
  datatype Payload = Payload(users: map<string, real>, serverTime: real)

  predicate IsFiniteNumber(v: Value) {
    v.Int? || v.Float?
  }

  function AsReal(v: Value): real
    requires IsFiniteNumber(v)
  {
    match v
    case Int(n) => n as real
    case Float(x) => x
  }

  predicate WellFormed(v: Value) {
    && v.Dict?
    && "users" in v.entries && v.entries["users"].Dict?
    && "server_time" in v.entries && IsFiniteNumber(v.entries["server_time"])
    && var users := v.entries["users"].entries;
       forall name :: name in users ==> IsFiniteNumber(users[name])
  }

  function Decoded(v: Value): Option<Payload> {
    if WellFormed(v) then
      var users := v.entries["users"].entries;
      Some(Payload(map name | name in users :: AsReal(users[name]), AsReal(v.entries["server_time"])))
    else None
  }

  /** What decoding must give, read off the value itself: it succeeds exactly on an object
      with an object of finite numbers under `users` and a finite number under
      `server_time`, and then holds every one of these numbers and no others. */
  lemma DecodedHoldsTheValues(v: Value)
    ensures Decoded(v).Some? <==>
              && v.Dict? && "users" in v.entries && v.entries["users"].Dict?
              && "server_time" in v.entries && (v.entries["server_time"].Int? || v.entries["server_time"].Float?)
              && forall name :: name in v.entries["users"].entries ==>
                   v.entries["users"].entries[name].Int? || v.entries["users"].entries[name].Float?
    ensures Decoded(v).Some? ==> Decoded(v).value.users.Keys == v.entries["users"].entries.Keys
    ensures Decoded(v).Some? ==>
              forall name :: name in Decoded(v).value.users ==>
                Shows(v.entries["users"].entries[name], Decoded(v).value.users[name])
    ensures Decoded(v).Some? ==> Shows(v.entries["server_time"], Decoded(v).value.serverTime)
  {
  }

  /** The number, whole or not, that a JSON value is. */
  predicate Shows(v: Value, x: real) {
    v == Float(x) || (v.Int? && x == v.n as real)
  }

  method ParseRevocations(v: Value) returns (r: Result<Payload, string>)
    ensures r.Ok? <==>
              && v.Dict? && "users" in v.entries && v.entries["users"].Dict?
              && "server_time" in v.entries && (v.entries["server_time"].Int? || v.entries["server_time"].Float?)
              && forall name :: name in v.entries["users"].entries ==>
                   v.entries["users"].entries[name].Int? || v.entries["users"].entries[name].Float?
    ensures r.Ok? ==> r.value.users.Keys == v.entries["users"].entries.Keys
    ensures r.Ok? ==> forall name :: name in r.value.users ==> Shows(v.entries["users"].entries[name], r.value.users[name])
    ensures r.Ok? ==> Shows(v.entries["server_time"], r.value.serverTime)
    ensures (if r.Ok? then Some(r.value) else None) == Decoded(v)
  {
    DecodedHoldsTheValues(v);
    if !v.Dict? {
      return Err("revocations payload must be an object");
    }
    var users := if "users" in v.entries then v.entries["users"] else Null;
    var serverTime := if "server_time" in v.entries then v.entries["server_time"] else Null;
    if !users.Dict? || !IsFiniteNumber(serverTime) {
      return Err("revocations payload has the wrong shape");
    }
    var parsed := ParseUsers(users.entries);
    if parsed.None? {
      return Err("revocations payload has a bad entry");
    }
    r := Ok(Payload(parsed.value, AsReal(serverTime)));
  }

  method ParseUsers(users: map<string, Value>) returns (parsed: Option<map<string, real>>)
    ensures parsed.Some? <==> forall name :: name in users ==> IsFiniteNumber(users[name])
    ensures parsed.Some? ==> parsed.value == map name | name in users :: AsReal(users[name])
  {
    var times: map<string, real> := map[];
    var todo := users.Keys;
    while todo != {}
      invariant todo <= users.Keys && times.Keys == users.Keys - todo
      invariant forall name :: name in times ==> IsFiniteNumber(users[name]) && times[name] == AsReal(users[name])
      decreases |todo|
    {
      var name :| name in todo;
      if !IsFiniteNumber(users[name]) {
        return None;
      }
      times := times[name := AsReal(users[name])];
      todo := todo - {name};
    }
    parsed := Some(times);
  }

  const MAX_BODY: nat := 1024 * 1024
  const CHUNK: nat := 8192

  datatype ReadError = TooSlow | TooLarge

  function Least(a: nat, b: nat): nat { if a <= b then a else b }

  /** How much the i-th read brings when `total` bytes are there: the network decides
      (`pieces(i)`), but at least one byte, if any is left, and never more than asked for. */
  function Piece(length: nat, pieces: nat -> nat, i: nat, total: nat): (got: nat)
    requires total <= length && total <= MAX_BODY + 1
    ensures total + got <= length && total + got <= MAX_BODY + 1
    ensures got == 0 ==> total == length || total == MAX_BODY + 1
  {
    var ask := Least(CHUNK, MAX_BODY + 1 - total);
    Least(Least(ask, if pieces(i) == 0 then 1 else pieces(i)), length - total)
  }

  /** How much has arrived after `n` reads. */
  function Arrived(length: nat, pieces: nat -> nat, n: nat): (total: nat)
    ensures total <= length && total <= MAX_BODY + 1
  {
    if n == 0 then 0
    else
      var before := Arrived(length, pieces, n - 1);
      before + Piece(length, pieces, n - 1, before)
  }

  /** The clock was in time before each of the first `n` reads. */
  predicate InTime(clock: nat -> real, deadline: real, n: nat) {
    forall i :: 0 <= i < n ==> clock(i) <= deadline
  }

  /** What holds after `n` reads that brought `taken` bytes. */
  predicate Reading(body: seq<bv8>, pieces: nat -> nat, clock: nat -> real, deadline: real,
                    n: nat, taken: nat, chunks: seq<bv8>) {
    && taken == Arrived(|body|, pieces, n) && chunks == body[..taken]
    && InTime(clock, deadline, n) && (n > 0 ==> Arrived(|body|, pieces, n - 1) <= MAX_BODY)
  }

  /** The read loop of the HTTP fetch. The network decides how the body arrives and the
      clock what it shows before each read; `tries` counts the reads made. */
  method ReadChunks(body: seq<bv8>, pieces: nat -> nat, clock: nat -> real, deadline: real)
    returns (slow: bool, chunks: seq<bv8>, taken: nat, tries: nat)
    ensures Reading(body, pieces, clock, deadline, tries, taken, chunks)
    ensures slow ==> clock(tries) > deadline && taken <= MAX_BODY
    ensures !slow && taken <= MAX_BODY ==> tries > 0 && taken == |body| == Arrived(|body|, pieces, tries - 1)
  {
    slow, chunks, taken, tries := false, [], 0, 0;
    while taken <= MAX_BODY
      invariant Reading(body, pieces, clock, deadline, tries, taken, chunks) && !slow
      decreases MAX_BODY + 1 - taken
    {
      if clock(tries) > deadline {
        slow := true;
        return;
      }
      var got := Piece(|body|, pieces, tries, taken);
      OneMoreRead(body, pieces, clock, deadline, tries, taken, chunks);
      tries := tries + 1;
      if got == 0 {
        return;
      }
      chunks := chunks + body[taken..taken + got];
      taken := taken + got;
    }
  }

  lemma OneMoreRead(body: seq<bv8>, pieces: nat -> nat, clock: nat -> real, deadline: real, n: nat, taken: nat, chunks: seq<bv8>)
    requires Reading(body, pieces, clock, deadline, n, taken, chunks) && clock(n) <= deadline && taken <= MAX_BODY
    ensures var got := Piece(|body|, pieces, n, taken);
            Reading(body, pieces, clock, deadline, n + 1, taken + got, chunks + body[taken..taken + got])
  {
    var got := Piece(|body|, pieces, n, taken);
    assert body[..taken] + body[taken..taken + got] == body[..taken + got];
  }

  /** The bounded read. Every clock reading taken was in time, except the last one of a
      run that was too slow. */
  method ReadBody(body: seq<bv8>, pieces: nat -> nat, clock: nat -> real, deadline: real)
    returns (r: Result<seq<bv8>, ReadError>, taken: nat, tries: nat)
    ensures taken == Arrived(|body|, pieces, tries) && InTime(clock, deadline, tries)
    ensures tries > 0 ==> Arrived(|body|, pieces, tries - 1) <= MAX_BODY
    ensures r.Ok? ==> r.value == body && |body| <= 1_048_576 && tries > 0 && Arrived(|body|, pieces, tries - 1) == |body|
    ensures r == Err(TooLarge) ==> |body| > 1_048_576 && taken == 1_048_577
    ensures r == Err(TooSlow) ==> clock(tries) > deadline && taken <= MAX_BODY
  {
    var slow, chunks;
    slow, chunks, taken, tries := ReadChunks(body, pieces, clock, deadline);
    if slow {
      return Err(TooSlow), taken, tries;
    }
    if taken > MAX_BODY {
      return Err(TooLarge), taken, tries;
    }
    assert chunks == body[..|body|] == body;
    r := Ok(chunks);
  }
}
