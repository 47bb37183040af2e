/** The SSO session checker (app/tsuite_adapter.py, make_session_checker): a cached
    revocation list with an outage grace, a fast retry once the grace has run out,
    and a clock-skew correction.

    The class keeps the four fields of the source. A ghost log records every fetch
    attempt; the functions below say what one locked section does to both. */
module SessionChecker {
  import opened Prelude
  import opened RevocationPayload

  const RETRY_SECONDS: real := 5.0

  datatype Config = Config(cacheSeconds: real, graceSeconds: real)

  /** One fetch attempt: the clock reading it was made with, and what came back. */
  datatype Attempt = Attempt(now: real, reply: Option<Payload>)

  datatype State = State(users: map<string, real>, offset: real, fetchedAt: Option<real>, lastGood: real)

  datatype World = World(state: State, log: seq<Attempt>)

  /** What the remote side does if it is asked: raise, or return some JSON value. */
  datatype Reply = Raised | Returned(v: Value)

  function Received(reply: Reply): Option<Payload> {
    match reply
    case Raised => None
    case Returned(v) => Decoded(v)
  }

  function Min(a: real, b: real): real { if a <= b then a else b }

  function Start(created: real): World {
    World(State(map[], 0.0, None, created), [])
  }

  predicate Due(cfg: Config, st: State, now: real) {
    st.fetchedAt.None? || now - st.fetchedAt.value >= cfg.cacheSeconds
  }

  function Refreshed(cfg: Config, st: State, now: real, reply: Option<Payload>): State {
    match reply
    case None =>
      var retry := if now - st.lastGood > cfg.graceSeconds
                   then Min(cfg.cacheSeconds, RETRY_SECONDS) else cfg.cacheSeconds;
      st.(fetchedAt := Some(now - cfg.cacheSeconds + retry))
    case Some(p) => State(p.users, p.serverTime - now, Some(now), now)
  }

  /** One locked section entered with clock reading `now`. */
  function Step(cfg: Config, w: World, now: real, reply: Option<Payload>): World {
    if Due(cfg, w.state, now)
    then World(Refreshed(cfg, w.state, now, reply), w.log + [Attempt(now, reply)])
    else w
  }

  predicate Answer(cfg: Config, st: State, now: real, username: string, loginAt: real) {
    && now - st.lastGood <= cfg.graceSeconds
    && (username in st.users ==> st.users[username] <= loginAt + st.offset)
  }

  class Checker {
    const cfg: Config
    var users: map<string, real>
    var offset: real
    var fetchedAt: Option<real>
    var lastGood: real
    ghost var log: seq<Attempt>

    ghost function Now(): World
      reads this
    {
      World(State(users, offset, fetchedAt, lastGood), log)
    }

    constructor (cfg: Config, created: real)
      ensures this.cfg == cfg && Now() == Start(created)
    {
      this.cfg := cfg;
      users, offset, fetchedAt, lastGood := map[], 0.0, None, created;
      log := [];
    }

    method Refresh(now: real, reply: Reply)
      modifies this
      ensures Now() == World(Refreshed(cfg, old(Now()).state, now, Received(reply)),
                             old(log) + [Attempt(now, Received(reply))])
    {
      log := log + [Attempt(now, Received(reply))];
      var parsed: Result<Payload, string> := Err("unavailable");
      if reply.Returned? {
        parsed := ParseRevocations(reply.v);
      }
      if parsed.Err? {
        var retry := cfg.cacheSeconds;
        if now - lastGood > cfg.graceSeconds {
          retry := Min(cfg.cacheSeconds, RETRY_SECONDS);
        }
        fetchedAt := Some(now - cfg.cacheSeconds + retry);
        return;
      }
      users := parsed.value.users;
      offset := parsed.value.serverTime - now;
      fetchedAt := Some(now);
      lastGood := now;
    }

    /** `now` was read before the lock was taken, so successive calls may bring
        readings in any order. `reply` is used only if a fetch is made. */
    method SsoSessionValid(now: real, reply: Reply, username: string, loginAt: real) returns (valid: bool)
      modifies this
      ensures Now() == Step(cfg, old(Now()), now, Received(reply))
      ensures valid == Answer(cfg, Now().state, now, username, loginAt)
    {
      if fetchedAt.None? || now - fetchedAt.value >= cfg.cacheSeconds {
        Refresh(now, reply);
      }
      if now - lastGood > cfg.graceSeconds {
        return false;
      }
      if username !in users {
        return true;
      }
      var loggedOutAt := users[username];
      return !(loggedOutAt > loginAt + offset);
    }
  }
}
