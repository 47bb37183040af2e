/** The in-memory sliding-window limiter of the login page (app/routes/auth_routes.py).

    `Limiter` holds the two failure tables and changes them in place, one critical
    section per method. The functions say what each critical section does. */
module LoginLimiter {
  import opened Text

  const WINDOW: real := 600.0
  const IP_MAX: nat := 10
  const USER_MAX: nat := 5
  const USER_KEYS_MAX: nat := 10_000

  /** Failure times per key. `order` lists the keys of `user`, oldest insertion first. */
  datatype Tables = Tables(ip: map<string, seq<real>>, user: map<string, seq<real>>, order: seq<string>)

  predicate Distinct(s: seq<string>) {
    forall i, j :: 0 <= i < j < |s| ==> s[i] != s[j]
  }

  ghost predicate Consistent(t: Tables) {
    && Distinct(t.order)
    && (forall key :: key in t.user <==> key in t.order)
  }

  function Norm(username: string): string {
    Lower(Strip(username))
  }

  function Get(m: map<string, seq<real>>, key: string): seq<real> {
    if key in m then m[key] else []
  }

  /** The entries newer than the cutoff, in order. */
  function Recent(times: seq<real>, cutoff: real): (r: seq<real>)
    ensures forall t :: t in r <==> t in times && t > cutoff
  {
    if times == [] then []
    else
      var last := times[|times| - 1];
      Recent(times[..|times| - 1], cutoff) + (if last > cutoff then [last] else [])
  }

  function Enlisted(order: seq<string>, user: map<string, seq<real>>, name: string): seq<string> {
    if name in user then order else order + [name]
  }

  function WithoutKey(s: seq<string>, key: string): (r: seq<string>)
    ensures forall k :: k in r <==> k in s && k != key
  {
    if s == [] then []
    else if s[0] == key then WithoutKey(s[1..], key)
    else [s[0]] + WithoutKey(s[1..], key)
  }

  lemma {:induction false} WithoutKeyStaysDistinct(s: seq<string>, key: string)
    requires Distinct(s)
    ensures Distinct(WithoutKey(s, key))
  {
    if s == [] {
    } else {
      WithoutKeyStaysDistinct(s[1..], key);
      assert s[0] !in s[1..];
    }
  }

  function Checked(t: Tables, ip: string, name: string, now: real): Tables {
    Tables(t.ip[ip := Recent(Get(t.ip, ip), now - WINDOW)],
           t.user[name := Recent(Get(t.user, name), now - WINDOW)],
           Enlisted(t.order, t.user, name))
  }

  predicate Limited(t: Tables, ip: string, name: string) {
    |Get(t.ip, ip)| >= IP_MAX || |Get(t.user, name)| >= USER_MAX
  }

  /** The key a new name pushes out of a full user table, if any. */
  predicate Evicts(t: Tables, name: string) {
    t.order != [] && |t.order| >= USER_KEYS_MAX && name !in t.user
  }

  function Trimmed(t: Tables, name: string): Tables {
    if Evicts(t, name) then Tables(t.ip, t.user - {t.order[0]}, t.order[1..]) else t
  }

  function Recorded(t: Tables, ip: string, name: string, now: real): Tables {
    var r := Trimmed(t, name);
    Tables(t.ip[ip := Get(t.ip, ip) + [now]],
           r.user[name := Get(r.user, name) + [now]],
           Enlisted(r.order, r.user, name))
  }

  function Cleared(t: Tables, ip: string, name: string): Tables {
    Tables(t.ip - {ip}, t.user - {name}, WithoutKey(t.order, name))
  }

  /** A username is one key in any case and with any white space around it. */
  lemma NormIgnoresCaseAndPadding(left: string, name: string, right: string, other: string)
    requires Blank(left) && Tight(name) && Blank(right)
    ensures Norm(left + name + right) == Lower(name)
    ensures Tight(other) ==> (Norm(name) == Norm(other) <==> Lower(name) == Lower(other))
  {
    StripTakesOffTheOutside(left, name, right);
    StripTakesOffTheOutside("", name, "");
    assert "" + name + "" == name;
    if Tight(other) {
      StripTakesOffTheOutside("", other, "");
      assert "" + other + "" == other;
    }
  }

  /** Recording a failure adds it to the two keys. Nothing else changes, but that a new
      name pushes the oldest one out of a table of 10,000. */
  lemma RecordingAddsOneFailure(t: Tables, ip: string, name: string, now: real)
    requires Consistent(t)
    ensures var r := Recorded(t, ip, name, now);
            var full := |t.order| >= 10_000 && name !in t.user;
            && Get(r.ip, ip) == Get(t.ip, ip) + [now]
            && (forall a :: a != ip ==> Get(r.ip, a) == Get(t.ip, a))
            && Get(r.user, name) == Get(t.user, name) + [now]
            && (forall u :: u != name ==> Get(r.user, u) == if full && u == t.order[0] then [] else Get(t.user, u))
            && r.user.Keys == (if full then t.user.Keys - {t.order[0]} else t.user.Keys) + {name}
            && r.order == (if full then t.order[1..] else t.order) + (if name in t.user then [] else [name])
  {
    assert t.order + [] == t.order;
    if |t.order| > 0 {
      assert t.order[0] in t.order;
    }
  }

  /** A successful login forgets the two keys and nothing else. */
  lemma ClearingForgetsTheTwoKeys(t: Tables, ip: string, name: string)
    ensures var r := Cleared(t, ip, name);
            && ip !in r.ip && name !in r.user
            && (forall a :: a != ip ==> Get(r.ip, a) == Get(t.ip, a))
            && (forall u :: u != name ==> Get(r.user, u) == Get(t.user, u) && (u in r.user <==> u in t.user))
  {
  }

  datatype Status = BadRequest | TooMany | LoggedIn | Rejected

  class Limiter {
    var ip: map<string, seq<real>>
    var user: map<string, seq<real>>
    var order: seq<string>

    function Now(): Tables
      reads this
    {
      Tables(ip, user, order)
    }

    constructor ()
      ensures Now() == Tables(map[], map[], []) && Consistent(Now())
    {
      ip, user, order := map[], map[], [];
    }

    method IsRateLimited(addr: string, username: string, now: real) returns (limited: bool)
      requires Consistent(Now())
      modifies this
      ensures Consistent(Now()) && Now() == Checked(old(Now()), addr, Norm(username), now)
      ensures limited == Limited(Now(), addr, Norm(username))
    {
      var cutoff := now - WINDOW;
      var norm := Norm(username);
      ip := ip[addr := Recent(Get(ip, addr), cutoff)];
      order := Enlisted(order, user, norm);
      user := user[norm := Recent(Get(user, norm), cutoff)];
      limited := |ip[addr]| >= IP_MAX || |user[norm]| >= USER_MAX;
    }

    method RecordFailure(addr: string, username: string, now: real)
      requires Consistent(Now())
      modifies this
      ensures Consistent(Now()) && Now() == Recorded(old(Now()), addr, Norm(username), now)
    {
      var norm := Norm(username);
      ip := ip[addr := Get(ip, addr) + [now]];
      if |order| >= USER_KEYS_MAX && norm !in user {
        var oldest := order[0];
        user := user - {oldest};
        order := order[1..];
      }
      order := Enlisted(order, user, norm);
      user := user[norm := Get(user, norm) + [now]];
    }

    method ClearFailures(addr: string, username: string)
      requires Consistent(Now())
      modifies this
      ensures Consistent(Now()) && Now() == Cleared(old(Now()), addr, Norm(username))
    {
      var norm := Norm(username);
      ip := ip - {addr};
      user := user - {norm};
      WithoutKeyStaysDistinct(order, norm);
      order := WithoutKey(order, norm);
    }

    /** The order in which one undisturbed login request uses the three sections.
        `authentic` is the verdict of the password check. */
    method Login(addr: string, form: string, password: string, authentic: bool, checkedAt: real, failedAt: real)
      returns (status: Status)
      requires Consistent(Now())
      modifies this
      ensures Consistent(Now())
      ensures var name := Norm(Strip(form));
              var seen := Checked(old(Now()), addr, name, checkedAt);
              && (status.BadRequest? <==> Strip(form) == "" || password == "")
              && (status.BadRequest? ==> Now() == old(Now()))
              && (!status.BadRequest? ==> (status.TooMany? <==> Limited(seen, addr, name)))
              && (status.TooMany? ==> Now() == seen)
              && (status.LoggedIn? ==> authentic && Now() == Cleared(seen, addr, name))
              && (status.Rejected? ==> !authentic && Now() == Recorded(seen, addr, name, failedAt))
    {
      var username := Strip(form);
      if username == "" || password == "" {
        return BadRequest;
      }
      var limited := IsRateLimited(addr, username, checkedAt);
      if limited {
        return TooMany;
      }
      if authentic {
        ClearFailures(addr, username);
        return LoggedIn;
      }
      RecordFailure(addr, username, failedAt);
      return Rejected;
    }
  }
}
