/** The log-usage search of the external API (app/routes/external_api_routes.py): one
    bounded search per requested device, over every FortiAnalyzer target of the ADOM,
    with failures at two levels, an early exit and a deadline. */
module LogUsage {
  import opened Prelude
  import opened Text
  import opened SortedNames

  const DEADLINE: real := 75.0

  // ---------- Request validation ----------

  datatype Request = Request(adom: string, devices: seq<string>, policyid: int, days: int)

  predicate IsDeviceList(v: Value) {
    v.List? && v.items != [] && forall i :: 0 <= i < |v.items| ==> v.items[i].Str? && Strip(v.items[i].s) != ""
  }

  /** The names, without later repetitions that differ only in case. */
  function FirstSeen(items: seq<string>): seq<string> {
    if items == [] then []
    else
      var before, last := FirstSeen(items[..|items| - 1]), items[|items| - 1];
      if Listed(before, last) then before else before + [last]
  }

  /** Some listed name equals `name` up to case. */
  predicate Listed(names: seq<string>, name: string) {
    exists i :: 0 <= i < |names| && Lower(names[i]) == Lower(name)
  }

  lemma ListedAppend(names: seq<string>, last: string, n: string)
    ensures Listed(names + [last], n) <==> Listed(names, n) || Lower(last) == Lower(n)
  {
    var all := names + [last];
    assert all[|names|] == last;
    assert forall i :: 0 <= i < |names| ==> all[i] == names[i];
  }

  /** What is kept was given, nothing given is lost but for its case, and no two kept
      names differ only in case. */
  lemma {:induction false} FirstSeenIsDistinct(items: seq<string>)
    ensures forall n :: n in FirstSeen(items) ==> n in items
    ensures forall n :: n in items ==> Listed(FirstSeen(items), n)
    ensures forall i, j :: 0 <= i < j < |FirstSeen(items)| ==> Lower(FirstSeen(items)[i]) != Lower(FirstSeen(items)[j])
  {
    if items == [] {
    } else {
      var before, last := items[..|items| - 1], items[|items| - 1];
      FirstSeenIsDistinct(before);
      assert items == before + [last];
      forall n | n in items ensures Listed(FirstSeen(items), n) {
        ListedAppend(FirstSeen(before), last, n);
      }
    }
  }

  lemma KeptWasListed(items: seq<string>, n: string)
    ensures Listed(FirstSeen(items), n) ==> Listed(items, n)
  {
    FirstSeenIsDistinct(items);
    if Listed(FirstSeen(items), n) {
      var k :| 0 <= k < |FirstSeen(items)| && Lower(FirstSeen(items)[k]) == Lower(n);
      assert FirstSeen(items)[k] in items;
    }
  }

  /** A name is kept in the spelling that came first. */
  lemma {:induction false} FirstSpellingIsKept(items: seq<string>, i: nat)
    requires i < |items| && forall j :: 0 <= j < i ==> Lower(items[j]) != Lower(items[i])
    ensures items[i] in FirstSeen(items)
  {
    var before := items[..|items| - 1];
    if i < |before| {
      FirstSpellingIsKept(before, i);
    } else {
      KeptWasListed(before, items[i]);
    }
  }

  function Stripped(items: seq<Value>): (r: seq<string>)
    requires forall i :: 0 <= i < |items| ==> items[i].Str?
    ensures |r| == |items| && forall i :: 0 <= i < |r| ==> r[i] == Strip(items[i].s)
  {
    seq(|items|, i requires 0 <= i < |items| => Strip(items[i].s))
  }

  method Deduplicate(names: seq<string>) returns (deduped: seq<string>)
    ensures deduped == FirstSeen(names)
  {
    deduped := [];
    for n := 0 to |names|
      invariant deduped == FirstSeen(names[..n])
    {
      assert names[..n + 1][..n] == names[..n];
      assert names[..n + 1][n] == names[n];
      if !Listed(deduped, names[n]) {
        deduped := deduped + [names[n]];
      }
    }
    assert names[..|names|] == names;
  }

  /** `adom` is the text of the request's own field, empty if absent. */
  method ValidateLogUsageRequest(adom: string, devices: Value, policyid: Value, days: Value)
    returns (r: Result<Request, string>)
    ensures r.Ok? <==>
              && Strip(adom) != ""
              && devices.List? && devices.items != []
              && (forall i :: 0 <= i < |devices.items| ==> devices.items[i].Str? && Strip(devices.items[i].s) != "")
              && policyid.Int? && policyid.n > 0
              && days.Int? && 1 <= days.n <= 60
    ensures r.Ok? ==> r.value == Request(Strip(adom), FirstSeen(Stripped(devices.items)), policyid.n, days.n)
  {
    if Strip(adom) == "" {
      return Err("adom is required");
    }
    if !IsDeviceList(devices) {
      return Err("devices must be a non-empty list of strings");
    }
    if !policyid.Int? || policyid.n <= 0 {
      return Err("policyid must be a positive integer");
    }
    if !days.Int? || !(1 <= days.n <= 60) {
      return Err("days must be an integer between 1 and 60");
    }
    var deduped := Deduplicate(Stripped(devices.items));
    r := Ok(Request(Strip(adom), deduped, policyid.n, days.n));
  }

  // ---------- What the targets answer ----------

  datatype Device = Device(name: string, devid: string)

  datatype Listing = Devices(devs: seq<Device>) | Unreachable(msg: string)

  /** The fields of a log row that are used; an absent or empty address is "". */
  datatype LogRow = LogRow(srcip: string, dstip: string, dstport: Value)

  datatype SearchReply =
    | Rows(rows: seq<LogRow>, truncated: bool, start: string, end: string)
    | Failed(msg: string)

  /** Everything the remote side and the clock may do. `clock(k)` is the k-th reading. */
  datatype Net = Net(
    listing: nat -> Listing,
    search: (nat, string, string) -> SearchReply,
    clock: nat -> real)

  datatype Port = Number(n: int) | Skipped | Raises

  /** A port value: an integer, or text that is digits after its leading hyphens. Text
      with two or more hyphens passes that test and then cannot be converted. */
  function PortOf(v: Value): Port {
    match v
    case Int(n) => Number(n)
    case Str(s) =>
      var t := Strip(s);
      if !AllDigits(SkipDashes(t)) then Skipped
      else if AllDigits(t) then Number(ParseNat(t))
      else if AllDigits(t[1..]) then Number(0 - ParseNat(t[1..]))
      else Raises
    case _ => Skipped
  }

  lemma {:induction false} DashesSkipped(s: string)
    ensures AllDigits(s) ==> SkipDashes(s) == s
    ensures s != "" && s[0] == '-' ==> SkipDashes(s) == SkipDashes(s[1..])
  {
    if AllDigits(s) {
      assert s[0] in s;
    }
  }

  /** A port raises exactly when it is text with at least two hyphens before its digits. */
  lemma PortRaisesOnTwoHyphens(v: Value)
    ensures PortOf(v).Raises? <==>
              v.Str? && AllDigits(SkipDashes(Strip(v.s))) && |Strip(v.s)| > 2 && Strip(v.s)[..2] == "--"
  {
    if v.Str? {
      var t := Strip(v.s);
      DashesSkipped(t);
      if t != "" {
        DashesSkipped(t[1..]);
        if |t| > 1 {
          DashesSkipped(t[2..]);
        }
      }
    }
  }

  /** A port value counts as a number when it is one, or is text that is digits with at
      most one hyphen before them, white space aside. */
  lemma PortNumberIs(v: Value, p: int)
    ensures PortOf(v) == Number(p) <==>
              || v == Int(p)
              || (v.Str? && AllDigits(Strip(v.s)) && p == ParseNat(Strip(v.s)))
              || (v.Str? && |Strip(v.s)| > 0 && Strip(v.s)[0] == '-' && AllDigits(Strip(v.s)[1..]) && p == 0 - ParseNat(Strip(v.s)[1..]))
  {
    if v.Str? {
      var t := Strip(v.s);
      DashesSkipped(t);
      if t != "" {
        DashesSkipped(t[1..]);
        assert t[0] in t;
        assert t[0] != '-' ==> SkipDashes(t) == t;
      }
    }
  }

  lemma TwoHyphensRaise()
    ensures PortOf(Str("--5")) == Raises
  {
    assert Strip("--5") == "--5";
    assert SkipDashes("--5") == SkipDashes("-5") == SkipDashes("5") == "5";
    PortRaisesOnTwoHyphens(Str("--5"));
  }

  datatype Contribution = Contribution(
    start: string, end: string, srcips: set<string>, dstips: set<string>, dstports: set<int>,
    logCount: nat, truncated: bool)

  datatype Failure = Remote(msg: string) | BadRow

  function Contributed(reply: SearchReply): Result<Contribution, Failure> {
    match reply
    case Failed(msg) => Err(Remote(msg))
    case Rows(rows, truncated, start, end) =>
      if HasBadRow(rows) then Err(BadRow)
      else
        Ok(Contribution(start, end, Sources(rows), Destinations(rows), Ports(rows), |rows|, truncated))
  }

  predicate HasBadRow(rows: seq<LogRow>) {
    exists i :: 0 <= i < |rows| && PortOf(rows[i].dstport).Raises?
  }

  function Sources(rows: seq<LogRow>): set<string> {
    set i | 0 <= i < |rows| && rows[i].srcip != "" :: rows[i].srcip
  }

  function Destinations(rows: seq<LogRow>): set<string> {
    set i | 0 <= i < |rows| && rows[i].dstip != "" :: rows[i].dstip
  }

  function PortsIn(row: LogRow): set<int> {
    var port := PortOf(row.dstport);
    if port.Number? then {port.n} else {}
  }

  function Ports(rows: seq<LogRow>): set<int> {
    if rows == [] then {} else Ports(rows[..|rows| - 1]) + PortsIn(rows[|rows| - 1])
  }

  lemma AddressesAppend(rows: seq<LogRow>, row: LogRow)
    ensures Sources(rows + [row]) == Sources(rows) + if row.srcip != "" then {row.srcip} else {}
    ensures Destinations(rows + [row]) == Destinations(rows) + if row.dstip != "" then {row.dstip} else {}
  {
    var all := rows + [row];
    assert all[|rows|] == row && forall i :: 0 <= i < |rows| ==> all[i] == rows[i];
  }

  lemma BadRowAppend(rows: seq<LogRow>, row: LogRow)
    ensures HasBadRow(rows + [row]) <==> HasBadRow(rows) || PortOf(row.dstport).Raises?
  {
    var all := rows + [row];
    assert all[|rows|] == row && forall i :: 0 <= i < |rows| ==> all[i] == rows[i];
  }

  lemma PortsAppend(rows: seq<LogRow>, row: LogRow)
    ensures Ports(rows + [row]) == Ports(rows) + PortsIn(row)
  {
    assert (rows + [row])[..|rows|] == rows;
  }

  method SearchOneDevice(reply: SearchReply) returns (r: Result<Contribution, Failure>)
    ensures r == Contributed(reply)
  {
    if reply.Failed? {
      return Err(Remote(reply.msg));
    }
    var bad, v := CollectRows(reply.rows);
    if bad {
      return Err(BadRow);
    }
    r := Ok(Contribution(reply.start, reply.end, v.srcips, v.dstips, v.dstports, |reply.rows|, reply.truncated));
  }

  datatype Values = Values(srcips: set<string>, dstips: set<string>, dstports: set<int>)

  function ValuesOf(rows: seq<LogRow>): Values {
    Values(Sources(rows), Destinations(rows), Ports(rows))
  }

  /** One more row's values. */
  method AddRow(v: Values, row: LogRow, ghost seen: seq<LogRow>) returns (bad: bool, w: Values)
    requires v == ValuesOf(seen)
    ensures bad == PortOf(row.dstport).Raises?
    ensures w == ValuesOf(seen + [row])
  {
    AddressesAppend(seen, row);
    PortsAppend(seen, row);
    var Values(srcips, dstips, dstports) := v;
    if row.srcip != "" {
      srcips := srcips + {row.srcip};
    }
    if row.dstip != "" {
      dstips := dstips + {row.dstip};
    }
    dstports := dstports + PortsIn(row);
    bad, w := PortOf(row.dstport).Raises?, Values(srcips, dstips, dstports);
  }

  /** The loop over the rows; it stops at the first value that cannot be converted. */
  method CollectRows(rows: seq<LogRow>) returns (bad: bool, v: Values)
    ensures bad == HasBadRow(rows)
    ensures !bad ==> v == ValuesOf(rows)
  {
    bad, v := false, Values({}, {}, {});
    for n := 0 to |rows|
      invariant !bad && !HasBadRow(rows[..n]) && v == ValuesOf(rows[..n])
    {
      assert rows[..n + 1] == rows[..n] + [rows[n]];
      BadRowAppend(rows[..n], rows[n]);
      bad, v := AddRow(v, rows[n], rows[..n]);
      if bad {
        BadPrefix(rows, n + 1);
        return;
      }
    }
    assert rows[..|rows|] == rows;
  }

  lemma BadPrefix(rows: seq<LogRow>, n: nat)
    requires n <= |rows| && HasBadRow(rows[..n])
    ensures HasBadRow(rows)
  {
    var i :| 0 <= i < n && PortOf(rows[..n][i].dstport).Raises?;
    assert PortOf(rows[i].dstport).Raises?;
  }

  // ---------- Resolving names on one target ----------

  /** Device ids by lower-cased name; a later device of the same name wins. */
  function ByName(devs: seq<Device>): map<string, string> {
    if devs == [] then map[]
    else
      var d := devs[|devs| - 1];
      var before := ByName(devs[..|devs| - 1]);
      if d.name != "" && d.devid != "" then before[Lower(d.name) := d.devid] else before
  }

  function Resolve(devs: seq<Device>, name: string): Option<string> {
    var m := ByName(devs);
    if Lower(name) in m then Some(m[Lower(name)]) else None
  }

  /** A listed device that counts for the name: it has a name and an id, and the name is
      the same up to case. */
  predicate IsNamed(d: Device, name: string) {
    d.name != "" && d.devid != "" && Lower(d.name) == Lower(name)
  }

  /** The k-th listed device is the last one that counts for the name. */
  predicate IsLastNamed(devs: seq<Device>, name: string, k: nat) {
    && k < |devs| && IsNamed(devs[k], name)
    && forall j :: k < j < |devs| ==> !IsNamed(devs[j], name)
  }

  /** The id of the last device listed for the name. */
  predicate Gives(devs: seq<Device>, name: string, id: string) {
    exists k :: 0 <= k < |devs| && IsLastNamed(devs, name, k) && devs[k].devid == id
  }

  /** A name resolves to the id of the last device listed for it, and to nothing exactly if
      none is. */
  lemma ResolvesToTheLastNamed(devs: seq<Device>, name: string)
    ensures Resolve(devs, name).None? <==> forall k :: 0 <= k < |devs| ==> !IsNamed(devs[k], name)
    ensures forall id :: Resolve(devs, name) == Some(id) <==> Gives(devs, name, id)
  {
    ResolvesByLastNamed(devs, name);
    if Resolve(devs, name).Some? {
      var k: nat :| IsLastNamed(devs, name, k);
      assert Gives(devs, name, devs[k].devid);
    }
  }

  lemma {:induction false} ResolvesByLastNamed(devs: seq<Device>, name: string)
    ensures Resolve(devs, name).None? <==> forall k :: 0 <= k < |devs| ==> !IsNamed(devs[k], name)
    ensures forall k: nat :: IsLastNamed(devs, name, k) ==> Resolve(devs, name) == Some(devs[k].devid)
    ensures Resolve(devs, name).Some? ==> exists k: nat :: IsLastNamed(devs, name, k)
  {
    if devs == [] {
    } else {
      var before, n := devs[..|devs| - 1], |devs| - 1;
      ResolvesByLastNamed(before, name);
      assert forall k :: 0 <= k < n ==> before[k] == devs[k];
      if IsNamed(devs[n], name) {
        assert IsLastNamed(devs, name, n);
      } else {
        assert Resolve(devs, name) == Resolve(before, name);
        forall k: nat ensures IsLastNamed(devs, name, k) <==> IsLastNamed(before, name, k) {
        }
      }
    }
  }

  method ResolveDevices(devs: seq<Device>, requested: seq<string>)
    returns (resolved: seq<(string, string)>, notFound: seq<string>)
    requires Ascending(requested)
    ensures forall k :: 0 <= k < |resolved| ==> Gives(devs, resolved[k].0, resolved[k].1)
    ensures forall n :: n in notFound <==> n in requested && forall d :: 0 <= d < |devs| ==> !IsNamed(devs[d], n)
    ensures forall k :: 0 <= k < |resolved| ==>
              resolved[k].0 in requested && Resolve(devs, resolved[k].0) == Some(resolved[k].1)
    ensures forall i, j :: 0 <= i < j < |resolved| ==> Less(resolved[i].0, resolved[j].0)
    ensures forall n :: n in requested && Resolve(devs, n).Some? ==> exists k :: 0 <= k < |resolved| && resolved[k].0 == n
    ensures forall n :: n in notFound <==> n in requested && Resolve(devs, n).None?
  {
    var byNameLower := ByName(devs);
    resolved, notFound := [], [];
    for i := 0 to |requested|
      invariant forall k :: 0 <= k < |resolved| ==>
        resolved[k].0 in requested[..i] && Resolve(devs, resolved[k].0) == Some(resolved[k].1)
      invariant forall j, k :: 0 <= j < k < |resolved| ==> Less(resolved[j].0, resolved[k].0)
      invariant forall n :: n in requested[..i] && Resolve(devs, n).Some? ==>
        exists k :: 0 <= k < |resolved| && resolved[k].0 == n
      invariant forall n :: n in notFound <==> n in requested[..i] && Resolve(devs, n).None?
    {
      var name := requested[i];
      assert requested[..i + 1] == requested[..i] + [name];
      ghost var was := resolved;
      if Lower(name) in byNameLower {
        resolved := resolved + [(name, byNameLower[Lower(name)])];
        assert resolved[|was|].0 == name;
        assert forall k :: 0 <= k < |was| ==> resolved[k] == was[k];
      } else {
        notFound := notFound + [name];
      }
    }
    assert requested[..|requested|] == requested;
    forall n ensures Resolve(devs, n).None? <==> forall d :: 0 <= d < |devs| ==> !IsNamed(devs[d], n) {
      ResolvesToTheLastNamed(devs, n);
    }
    forall k | 0 <= k < |resolved| ensures Gives(devs, resolved[k].0, resolved[k].1) {
      ResolvesToTheLastNamed(devs, resolved[k].0);
    }
  }

  // ---------- The run and its account ----------

  /** One search that was made. */
  datatype Search = Search(target: nat, name: string, devid: string, at: real, result: Result<Contribution, Failure>)

  datatype TimeRange = NoRange | TimeRange(start: string, end: string)

  datatype Response = Response(
    timeRange: TimeRange, srcips: set<string>, dstips: set<string>, dstports: set<int>,
    logCount: nat, truncated: bool,
    queried: seq<string>, notFound: seq<string>, errors: map<string, string>)

  /** 404, 502, 200, or an exception no handler catches. */
  datatype Outcome = NoTarget | AllFailed(errors: map<string, string>) | Success(response: Response) | Crashed

  function ResolvesAt(net: Net, t: nat, name: string): Option<string> {
    match net.listing(t)
    case Devices(devs) => Resolve(devs, name)
    case Unreachable(_) => None
  }

  /** The message of the first of the targets before `t` whose listing failed. */
  function FirstListingError(net: Net, t: nat): Option<string> {
    if t == 0 then None
    else if FirstListingError(net, t - 1).Some? then FirstListingError(net, t - 1)
    else if net.listing(t - 1).Unreachable? then Some(net.listing(t - 1).msg) else None
  }

  function Names(trace: seq<Search>): (r: set<string>)
    ensures forall n :: n in r <==> exists i :: 0 <= i < |trace| && trace[i].name == n
  {
    if trace == [] then {}
    else
      var before, last := trace[..|trace| - 1], trace[|trace| - 1];
      assert trace == before + [last];
      Names(before) + {last.name}
  }

  function Good(trace: seq<Search>): seq<Search> {
    if trace == [] then []
    else Good(trace[..|trace| - 1]) + if trace[|trace| - 1].result.Ok? then [trace[|trace| - 1]] else []
  }

  function Tally(trace: seq<Search>): Response {
    if trace == [] then Response(NoRange, {}, {}, {}, 0, false, [], [], map[])
    else
      var r, last := Tally(trace[..|trace| - 1]), trace[|trace| - 1];
      if last.result.Err? then r
      else
        var c := last.result.value;
        Response(TimeRange(c.start, c.end), r.srcips + c.srcips, r.dstips + c.dstips, r.dstports + c.dstports,
                 r.logCount + c.logCount, r.truncated || c.truncated, r.queried + [last.name], [], map[])
  }

  /** The search made for a name, if any. */
  function SearchFor(trace: seq<Search>, name: string): Option<Search> {
    if trace == [] then None
    else if trace[|trace| - 1].name == name then Some(trace[|trace| - 1])
    else SearchFor(trace[..|trace| - 1], name)
  }

  function MessageOf(f: Failure): string {
    match f
    case Remote(msg) => msg
    case BadRow => ""
  }

  const SKIPPED: string := "skipped: request deadline exceeded"

  /** The error to report for a name after the targets before `t`, if any. */
  function ErrorFor(net: Net, t: nat, trace: seq<Search>, name: string): Option<string> {
    match SearchFor(trace, name)
    case None => FirstListingError(net, t)
    case Some(s) => if s.result.Err? then Some(MessageOf(s.result.error)) else None
  }

  function Errors(net: Net, t: nat, trace: seq<Search>, requested: set<string>): map<string, string> {
    map n | n in requested && ErrorFor(net, t, trace, n).Some? :: ErrorFor(net, t, trace, n).value
  }

  /** Every search is the one the run had to make: on the first target that resolves
      the name, with that target's id, before the deadline, in order, once per name. */
  ghost predicate Traced(net: Net, trace: seq<Search>, requested: set<string>) {
    && (forall i :: 0 <= i < |trace| ==> SoundSearch(net, trace[i], requested, i))
    && (forall i, j :: 0 <= i < j < |trace| ==> Precedes(trace[i], trace[j]) && trace[i].name != trace[j].name)
    && InTurn(net, trace, requested)
  }

  /** The search to make after `trace`: the first target that resolves an unsearched
      name, and the least such name there. */
  ghost predicate Next(net: Net, trace: seq<Search>, requested: set<string>, t: nat, name: string) {
    && name in requested - Names(trace) && ResolvesAt(net, t, name).Some?
    && (forall n, u: nat :: n in requested - Names(trace) && u < t ==> ResolvesAt(net, u, n).None?)
    && (forall n :: n in requested - Names(trace) && ResolvesAt(net, t, n).Some? ==> n == name || Less(name, n))
  }

  ghost predicate InTurn(net: Net, trace: seq<Search>, requested: set<string>) {
    trace == [] ||
      var before, last := trace[..|trace| - 1], trace[|trace| - 1];
      InTurn(net, before, requested) && Next(net, before, requested, last.target, last.name)
  }

  ghost predicate SoundSearch(net: Net, s: Search, requested: set<string>, i: nat) {
    && s.name in requested
    && ResolvesAt(net, s.target, s.name) == Some(s.devid)
    && (forall t: nat :: t < s.target ==> ResolvesAt(net, t, s.name).None?)
    && s.at == net.clock(i + 1) && s.at < net.clock(0) + DEADLINE
    && s.result == Contributed(net.search(s.target, s.name, s.devid))
  }

  predicate Precedes(a: Search, b: Search) {
    a.target < b.target || (a.target == b.target && Less(a.name, b.name))
  }

  /** Where the deadline stopped the run: the target and the name about to be searched. */
  datatype Stop = Ran | At(target: nat, name: string)

  /** Nothing was passed over: an unsearched name resolves on no target, or the deadline
      fell before the search that came next. */
  ghost predicate Complete(net: Net, trace: seq<Search>, requested: set<string>, targets: nat, stop: Stop) {
    match stop
    case Ran => forall n, t: nat :: n in requested - Names(trace) && t < targets ==> ResolvesAt(net, t, n).None?
    case At(last, name) =>
      && last < targets && Next(net, trace, requested, last, name)
      && net.clock(|trace| + 1) >= net.clock(0) + DEADLINE
  }

  /** The errors of a run the deadline stopped: every unsearched name is skipped. */
  function LateErrors(net: Net, trace: seq<Search>, requested: set<string>): map<string, string> {
    map n | n in requested && (n in requested - Names(trace) || ErrorFor(net, 0, trace, n).Some?) ::
      if n in requested - Names(trace) then SKIPPED else ErrorFor(net, 0, trace, n).value
  }

  function FinalErrors(net: Net, targets: nat, trace: seq<Search>, requested: set<string>, stop: Stop): map<string, string> {
    if stop.Ran? then Errors(net, targets, trace, requested) else LateErrors(net, trace, requested)
  }

  /** The 200/502 answer for a finished trace. */
  ghost predicate Reported(net: Net, trace: seq<Search>, requested: set<string>, targets: nat, stop: Stop, out: Outcome) {
    var unsearched := requested - Names(trace);
    var errors := FinalErrors(net, targets, trace, requested, stop);
    if Good(trace) == [] && errors != map[] then out == AllFailed(errors)
    else
      && out.Success?
      && var r := out.response;
         && r == Tally(trace).(queried := r.queried, notFound := r.notFound, errors := errors)
         && Ascending(r.queried) && (forall n :: n in r.queried <==> n in Names(Good(trace)))
         && Ascending(r.notFound) && (forall n :: n in r.notFound <==> stop.Ran? && n in unsearched)
  }

  /** The whole account of a run. */
  ghost predicate Accounts(net: Net, requested: set<string>, targets: nat, trace: seq<Search>, stop: Stop, out: Outcome) {
    && Traced(net, trace, requested)
    && (forall i :: 0 <= i < |trace| ==> trace[i].target < targets)
    && (targets == 0 <==> out.NoTarget?)
    && (targets == 0 ==> trace == [])
    && (forall i :: 0 <= i < |trace| - 1 ==> trace[i].result != Err(BadRow))
    && (out.Crashed? <==> trace != [] && trace[|trace| - 1].result == Err(BadRow))
    && (targets > 0 && !out.Crashed? ==>
          Complete(net, trace, requested, targets, stop) && Reported(net, trace, requested, targets, stop, out))
  }

  /** The outcome of the run, as a caller sees it. */
  ghost predicate IsOutcome(net: Net, requested: set<string>, targets: nat, out: Outcome) {
    exists trace, stop :: Accounts(net, requested, targets, trace, stop, out)
  }

  // ---------- The run ----------

  lemma NamesAppend(trace: seq<Search>, s: Search)
    ensures Names(trace + [s]) == Names(trace) + {s.name}
  {
    assert (trace + [s])[..|trace|] == trace;
  }

  lemma TallyAppend(trace: seq<Search>, s: Search)
    ensures Good(trace + [s]) == Good(trace) + if s.result.Ok? then [s] else []
    ensures var r := Tally(trace);
            Tally(trace + [s]) ==
              if s.result.Err? then r
              else
                var c := s.result.value;
                Response(TimeRange(c.start, c.end), r.srcips + c.srcips, r.dstips + c.dstips, r.dstports + c.dstports,
                         r.logCount + c.logCount, r.truncated || c.truncated, r.queried + [s.name], [], map[])
  {
    assert (trace + [s])[..|trace|] == trace;
  }

  lemma {:induction false} SearchForAbsent(trace: seq<Search>, name: string)
    ensures SearchFor(trace, name).None? <==> name !in Names(trace)
  {
    if trace == [] {
    } else {
      SearchForAbsent(trace[..|trace| - 1], name);
    }
  }

  lemma ErrorsAfterListing(net: Net, t: nat, trace: seq<Search>, requested: set<string>)
    ensures net.listing(t).Devices? ==> Errors(net, t + 1, trace, requested) == Errors(net, t, trace, requested)
    ensures net.listing(t).Unreachable? ==>
              forall n :: n in requested ==>
                ErrorFor(net, t + 1, trace, n) ==
                  if n !in Names(trace) && ErrorFor(net, t, trace, n).None? then Some(net.listing(t).msg)
                  else ErrorFor(net, t, trace, n)
  {
    forall n ensures SearchFor(trace, n).None? <==> n !in Names(trace) { SearchForAbsent(trace, n); }
  }

  lemma ErrorsAppend(net: Net, t: nat, trace: seq<Search>, s: Search, requested: set<string>)
    requires s.name in requested
    ensures var before := Errors(net, t, trace, requested) - {s.name};
            Errors(net, t, trace + [s], requested) ==
              if s.result.Err? then before[s.name := MessageOf(s.result.error)] else before
  {
    assert (trace + [s])[..|trace|] == trace;
    forall n | n != s.name ensures ErrorFor(net, t, trace + [s], n) == ErrorFor(net, t, trace, n) {
    }
  }

  lemma InTurnAppend(net: Net, trace: seq<Search>, requested: set<string>, s: Search)
    requires InTurn(net, trace, requested) && Next(net, trace, requested, s.target, s.name)
    ensures InTurn(net, trace + [s], requested)
  {
    assert (trace + [s])[..|trace|] == trace;
  }

  lemma TracedAppend(net: Net, trace: seq<Search>, requested: set<string>, s: Search)
    requires Traced(net, trace, requested) && SoundSearch(net, s, requested, |trace|)
    requires forall i :: 0 <= i < |trace| ==> Precedes(trace[i], s) && trace[i].name != s.name
    requires Next(net, trace, requested, s.target, s.name)
    ensures Traced(net, trace + [s], requested)
  {
    InTurnAppend(net, trace, requested, s);
  }

  /** What holds before target `t`: the trace so far, the names still unsearched, none
      of which an earlier target resolves, and the accumulated response. */
  ghost predicate Between(net: Net, requested: set<string>, t: nat, trace: seq<Search>, remaining: set<string>, acc: Response) {
    && Traced(net, trace, requested)
    && (forall i :: 0 <= i < |trace| ==> trace[i].target < t && trace[i].result != Err(BadRow))
    && remaining == requested - Names(trace)
    && (forall n, u: nat :: n in remaining && u < t ==> ResolvesAt(net, u, n).None?)
    && acc == Tally(trace).(errors := Errors(net, t, trace, requested))
  }

  /** The names a listing resolves, in order, with their ids. */
  ghost predicate ResolvedFrom(devs: seq<Device>, names: set<string>, resolved: seq<(string, string)>) {
    && (forall k :: 0 <= k < |resolved| ==> resolved[k].0 in names && Resolve(devs, resolved[k].0) == Some(resolved[k].1))
    && (forall i, j :: 0 <= i < j < |resolved| ==> Less(resolved[i].0, resolved[j].0))
    && (forall n :: n in names && Resolve(devs, n).Some? ==> exists k :: 0 <= k < |resolved| && resolved[k].0 == n)
  }

  datatype Verdict = Done | Late(name: string) | Broke

  /** The searches so far come before the names from the j-th on, which are what is left
      of the resolved ones. */
  ghost predicate Ahead(t: nat, trace: seq<Search>, remaining: set<string>, resolved: seq<(string, string)>, j: nat) {
    && (forall i, k :: 0 <= i < |trace| && trace[i].target == t && j <= k < |resolved| ==> Less(trace[i].name, resolved[k].0))
    && (forall k :: 0 <= k < |resolved| ==> (resolved[k].0 in remaining <==> j <= k))
  }

  /** The searches made while target `t` is the last one reached, what they leave to do
      and what they add up to. */
  ghost predicate Recorded(net: Net, requested: set<string>, t: nat, trace: seq<Search>, remaining: set<string>, acc: Response) {
    && Traced(net, trace, requested)
    && (forall i :: 0 <= i < |trace| ==> trace[i].target <= t && trace[i].result != Err(BadRow))
    && remaining == requested - Names(trace)
    && acc == Tally(trace).(errors := Errors(net, t, trace, requested))
  }

  /** What holds inside target `t`, before the j-th resolved name. */
  ghost predicate Within(net: Net, requested: set<string>, t: nat, trace: seq<Search>, remaining: set<string>, acc: Response,
                         resolved: seq<(string, string)>, j: nat)
  {
    j <= |resolved| && Ahead(t, trace, remaining, resolved, j) && Recorded(net, requested, t, trace, remaining, acc)
  }

  /** The accumulated response after one more search. */
  function Absorb(acc: Response, name: string, result: Result<Contribution, Failure>): Response {
    var errors := acc.errors - {name};
    match result
    case Err(f) => acc.(errors := errors[name := MessageOf(f)])
    case Ok(c) =>
      Response(TimeRange(c.start, c.end), acc.srcips + c.srcips, acc.dstips + c.dstips, acc.dstports + c.dstports,
               acc.logCount + c.logCount, acc.truncated || c.truncated, acc.queried + [name], [], errors)
  }

  lemma SearchKeepsTraced(net: Net, requested: set<string>, t: nat, trace: seq<Search>, remaining: set<string>, acc: Response,
                          resolved: seq<(string, string)>, j: nat, s: Search)
    requires Within(net, requested, t, trace, remaining, acc, resolved, j) && j < |resolved|
    requires s.target == t && s.name == resolved[j].0 && SoundSearch(net, s, requested, |trace|)
    requires Next(net, trace, requested, t, s.name)
    ensures Traced(net, trace + [s], requested)
  {
    forall i | 0 <= i < |trace| ensures Precedes(trace[i], s) && trace[i].name != s.name {
      assert trace[i].name in Names(trace);
    }
    TracedAppend(net, trace, requested, s);
  }

  lemma SearchKeepsAhead(t: nat, trace: seq<Search>, remaining: set<string>, resolved: seq<(string, string)>, j: nat, s: Search)
    requires Ahead(t, trace, remaining, resolved, j) && j < |resolved| && s.name == resolved[j].0
    requires forall a, b :: 0 <= a < b < |resolved| ==> Less(resolved[a].0, resolved[b].0)
    ensures Ahead(t, trace + [s], remaining - {s.name}, resolved, j + 1)
  {
    forall k | 0 <= k < |resolved| && k != j ensures resolved[k].0 != s.name {
      LessIsStrict(s.name);
    }
  }

  lemma SearchKeepsRecorded(net: Net, requested: set<string>, t: nat, trace: seq<Search>, remaining: set<string>, acc: Response,
                            s: Search)
    requires Recorded(net, requested, t, trace, remaining, acc) && acc.notFound == []
    requires Traced(net, trace + [s], requested) && s.target == t && s.result != Err(BadRow) && s.name in requested
    ensures Recorded(net, requested, t, trace + [s], remaining - {s.name}, Absorb(acc, s.name, s.result))
  {
    NamesAppend(trace, s);
    AbsorbFollowsTally(net, requested, t, trace, acc, s);
  }

  lemma AbsorbFollowsTally(net: Net, requested: set<string>, t: nat, trace: seq<Search>, acc: Response, s: Search)
    requires s.name in requested && acc.notFound == []
    requires acc == Tally(trace).(errors := Errors(net, t, trace, requested))
    ensures Absorb(acc, s.name, s.result) == Tally(trace + [s]).(errors := Errors(net, t, trace + [s], requested))
  {
    TallyAppend(trace, s);
    ErrorsAppend(net, t, trace, s, requested);
  }

  /** The names in `names` reach target `t`, whose listing resolves the given ones. */
  ghost predicate Opened(net: Net, t: nat, names: set<string>, resolved: seq<(string, string)>) {
    && net.listing(t).Devices? && ResolvedFrom(net.listing(t).devs, names, resolved)
    && (forall n, u: nat :: n in names && u < t ==> ResolvesAt(net, u, n).None?)
  }

  lemma ResolvedIsNext(net: Net, requested: set<string>, t: nat, trace: seq<Search>, remaining: set<string>, acc: Response,
                       resolved: seq<(string, string)>, j: nat, names: set<string>)
    requires Within(net, requested, t, trace, remaining, acc, resolved, j) && j < |resolved|
    requires Opened(net, t, names, resolved) && remaining <= names
    ensures Next(net, trace, requested, t, resolved[j].0)
  {
    forall n | n in remaining && ResolvesAt(net, t, n).Some?
      ensures n == resolved[j].0 || Less(resolved[j].0, n)
    {
      var k :| 0 <= k < |resolved| && resolved[k].0 == n;
    }
  }

  /** The next resolved name, searched in time. */
  lemma SearchIsRight(net: Net, requested: set<string>, t: nat, trace: seq<Search>, remaining: set<string>, acc: Response,
                      resolved: seq<(string, string)>, j: nat, names: set<string>, s: Search)
    requires Within(net, requested, t, trace, remaining, acc, resolved, j) && j < |resolved|
    requires Opened(net, t, names, resolved) && remaining <= names && acc.notFound == []
    requires s.target == t && s.name == resolved[j].0 && s.devid == resolved[j].1
    requires s.at == net.clock(|trace| + 1) < net.clock(0) + DEADLINE
    requires s.result == Contributed(net.search(t, s.name, s.devid))
    ensures if s.result == Err(BadRow)
            then Ended(net, requested, t, Broke, trace + [s], remaining - {s.name}, acc)
            else Within(net, requested, t, trace + [s], remaining - {s.name}, Absorb(acc, s.name, s.result), resolved, j + 1)
  {
    ResolvedIsNext(net, requested, t, trace, remaining, acc, resolved, j, names);
    SearchKeepsTraced(net, requested, t, trace, remaining, acc, resolved, j, s);
    if s.result != Err(BadRow) {
      SearchKeepsAhead(t, trace, remaining, resolved, j, s);
      SearchKeepsRecorded(net, requested, t, trace, remaining, acc, s);
    }
  }

  /** The next resolved name, reached too late. */
  lemma LateIsEnded(net: Net, requested: set<string>, t: nat, trace: seq<Search>, remaining: set<string>, acc: Response,
                    resolved: seq<(string, string)>, j: nat, names: set<string>)
    requires Within(net, requested, t, trace, remaining, acc, resolved, j) && j < |resolved|
    requires Opened(net, t, names, resolved) && remaining <= names
    requires net.clock(|trace| + 1) >= net.clock(0) + DEADLINE
    ensures Ended(net, requested, t, Late(resolved[j].0), trace, remaining, acc)
  {
    ResolvedIsNext(net, requested, t, trace, remaining, acc, resolved, j, names);
  }

  lemma DoneIsBetween(net: Net, requested: set<string>, t: nat, trace: seq<Search>, remaining: set<string>, acc: Response,
                      resolved: seq<(string, string)>, names: set<string>)
    requires Within(net, requested, t, trace, remaining, acc, resolved, |resolved|)
    requires Opened(net, t, names, resolved) && remaining <= names
    ensures Between(net, requested, t + 1, trace, remaining, acc)
  {
    ErrorsAfterListing(net, t, trace, requested);
  }

  lemma StartsWithin(net: Net, requested: set<string>, t: nat, trace: seq<Search>, remaining: set<string>, acc: Response,
                     resolved: seq<(string, string)>)
    requires Between(net, requested, t, trace, remaining, acc) && Opened(net, t, remaining, resolved)
    ensures Within(net, requested, t, trace, remaining, acc, resolved, 0) && acc.notFound == []
  {
    TallyIsBare(trace);
  }

  lemma {:induction false} TallyIsBare(trace: seq<Search>)
    ensures Tally(trace).notFound == [] && Tally(trace).errors == map[]
  {
    if trace == [] {
    } else {
      TallyIsBare(trace[..|trace| - 1]);
    }
  }

  /** How the search of one target ended: all names done; the deadline fell before a
      name; or a row could not be converted. */
  ghost predicate Ended(net: Net, requested: set<string>, t: nat, verdict: Verdict, trace: seq<Search>,
                        remaining: set<string>, acc: Response) {
    match verdict
    case Done => Between(net, requested, t + 1, trace, remaining, acc)
    case Late(name) =>
      && Recorded(net, requested, t, trace, remaining, acc)
      && Complete(net, trace, requested, t + 1, At(t, name))
    case Broke =>
      && Traced(net, trace, requested) && trace != []
      && (forall i :: 0 <= i < |trace| ==> trace[i].target <= t)
      && (forall i :: 0 <= i < |trace| - 1 ==> trace[i].result != Err(BadRow))
      && trace[|trace| - 1].result == Err(BadRow)
  }

  /** The inner loop: search the resolved names of one target until the deadline. */
  method SearchResolved(net: Net, t: nat, resolved: seq<(string, string)>, deadline: real, ghost requested: set<string>,
                        ghost trace0: seq<Search>, remaining0: set<string>, acc0: Response, readings0: nat)
    returns (verdict: Verdict, remaining: set<string>, acc: Response, readings: nat, ghost trace: seq<Search>)
    requires Between(net, requested, t, trace0, remaining0, acc0) && Opened(net, t, remaining0, resolved)
    requires deadline == net.clock(0) + DEADLINE && readings0 == |trace0| + 1
    ensures Ended(net, requested, t, verdict, trace, remaining, acc) && readings == |trace| + 1
  {
    trace, remaining, acc, readings := trace0, remaining0, acc0, readings0;
    StartsWithin(net, requested, t, trace, remaining, acc, resolved);
    for j := 0 to |resolved|
      invariant Within(net, requested, t, trace, remaining, acc, resolved, j)
      invariant remaining <= remaining0 && readings == |trace| + 1 && acc.notFound == []
    {
      var (name, devid) := resolved[j];
      if net.clock(readings) >= deadline {
        LateIsEnded(net, requested, t, trace, remaining, acc, resolved, j, remaining0);
        return Late(name), remaining, acc, readings, trace;
      }
      var result := SearchOneDevice(net.search(t, name, devid));
      ghost var s := Search(t, name, devid, net.clock(readings), result);
      SearchIsRight(net, requested, t, trace, remaining, acc, resolved, j, remaining0, s);
      remaining := remaining - {name};
      trace := trace + [s];
      readings := readings + 1;
      if result == Err(BadRow) {
        return Broke, remaining, acc, readings, trace;
      }
      acc := Absorb(acc, name, result);
    }
    DoneIsBetween(net, requested, t, trace, remaining, acc, resolved, remaining0);
    verdict := Done;
  }

  function Constant(names: set<string>, msg: string): map<string, string> {
    map n | n in names :: msg
  }

  /** Record a failed listing for every name still unsearched and without an error. */
  method MarkUnreachable(errors: map<string, string>, remaining: set<string>, msg: string) returns (marked: map<string, string>)
    ensures marked == Constant(remaining, msg) + errors
  {
    marked := errors;
    var todo := remaining;
    while todo != {}
      invariant todo <= remaining && marked == Constant(remaining - todo, msg) + errors
      decreases |todo|
    {
      var name :| name in todo;
      if name !in marked {
        marked := marked[name := msg];
      }
      todo := todo - {name};
    }
  }

  /** Overwrite the error of every name the deadline left unsearched. */
  method MarkSkipped(errors: map<string, string>, remaining: set<string>) returns (marked: map<string, string>)
    ensures marked == errors + Constant(remaining, SKIPPED)
  {
    marked := errors;
    var todo := remaining;
    while todo != {}
      invariant todo <= remaining && marked == errors + Constant(remaining - todo, SKIPPED)
      decreases |todo|
    {
      var name :| name in todo;
      marked := marked[name := SKIPPED];
      todo := todo - {name};
    }
  }

  lemma UnreachableErrors(net: Net, t: nat, trace: seq<Search>, requested: set<string>)
    requires net.listing(t).Unreachable?
    ensures Constant(requested - Names(trace), net.listing(t).msg) + Errors(net, t, trace, requested)
            == Errors(net, t + 1, trace, requested)
  {
    ErrorsAfterListing(net, t, trace, requested);
    forall n ensures SearchFor(trace, n).None? <==> n !in Names(trace) { SearchForAbsent(trace, n); }
  }

  lemma UnreachableResolvesNothing(net: Net, t: nat, names: set<string>)
    requires net.listing(t).Unreachable?
    requires forall n, u: nat :: n in names && u < t ==> ResolvesAt(net, u, n).None?
    ensures forall n, u: nat :: n in names && u < t + 1 ==> ResolvesAt(net, u, n).None?
  {
  }

  lemma UnreachableIsBetween(net: Net, requested: set<string>, t: nat, trace: seq<Search>, remaining: set<string>, acc: Response)
    requires Between(net, requested, t, trace, remaining, acc) && net.listing(t).Unreachable?
    ensures Between(net, requested, t + 1, trace, remaining,
                    acc.(errors := Constant(remaining, net.listing(t).msg) + acc.errors))
  {
    var errors := Constant(remaining, net.listing(t).msg) + acc.errors;
    UnreachableErrors(net, t, trace, requested);
    UnreachableResolvesNothing(net, t, remaining);
    assert errors == Errors(net, t + 1, trace, requested);
  }

  lemma {:induction false} TallyNames(trace: seq<Search>)
    ensures forall n :: n in Tally(trace).queried <==> n in Names(Good(trace))
    ensures Tally(trace).queried == [] <==> Good(trace) == []
  {
    if trace == [] {
    } else {
      var before, last := trace[..|trace| - 1], trace[|trace| - 1];
      TallyNames(before);
      assert trace == before + [last];
      TallyAppend(before, last);
      if last.result.Ok? {
        NamesAppend(Good(before), last);
      } else {
        assert Good(trace) == Good(before);
      }
    }
  }

  lemma SkippedErrors(net: Net, t: nat, trace: seq<Search>, requested: set<string>)
    ensures Errors(net, t, trace, requested) + Constant(requested - Names(trace), SKIPPED) == LateErrors(net, trace, requested)
  {
    forall n ensures SearchFor(trace, n).None? <==> n !in Names(trace) { SearchForAbsent(trace, n); }
  }

  /** After the targets: the sorted lists, and the choice between 502 and 200. */
  method Conclude(net: Net, ghost requested: set<string>, ghost targets: nat, ghost trace: seq<Search>, ghost stop: Stop,
                  notFound: set<string>, acc: Response)
    returns (out: Outcome)
    requires notFound == if stop.Ran? then requested - Names(trace) else {}
    requires acc == Tally(trace).(errors := FinalErrors(net, targets, trace, requested, stop))
    ensures Reported(net, trace, requested, targets, stop, out) && (out.AllFailed? || out.Success?)
  {
    TallyNames(trace);
    var missing := Sorted(notFound);
    if acc.queried == [] && acc.errors != map[] {
      return AllFailed(acc.errors);
    }
    var queried := Sorted(set n | n in acc.queried);
    out := Success(acc.(queried := queried, notFound := missing));
  }

  /** One target: list its devices, then search the names it resolves. */
  method VisitTarget(net: Net, t: nat, deadline: real, ghost requested: set<string>,
                     ghost trace0: seq<Search>, remaining0: set<string>, acc0: Response, readings0: nat)
    returns (verdict: Verdict, remaining: set<string>, acc: Response, readings: nat, ghost trace: seq<Search>)
    requires Between(net, requested, t, trace0, remaining0, acc0)
    requires deadline == net.clock(0) + DEADLINE && readings0 == |trace0| + 1
    ensures Ended(net, requested, t, verdict, trace, remaining, acc) && readings == |trace| + 1
  {
    match net.listing(t) {
      case Unreachable(msg) =>
        var marked := MarkUnreachable(acc0.errors, remaining0, msg);
        UnreachableIsBetween(net, requested, t, trace0, remaining0, acc0);
        verdict, remaining, acc, readings, trace := Done, remaining0, acc0.(errors := marked), readings0, trace0;
      case Devices(devs) =>
        var names := Sorted(remaining0);
        var resolved, _ := ResolveDevices(devs, names);
        verdict, remaining, acc, readings, trace :=
          SearchResolved(net, t, resolved, deadline, requested, trace0, remaining0, acc0, readings0);
    }
  }

  /** The deadline fell: the unsearched names are reported as skipped. */
  method FinishLate(net: Net, ghost requested: set<string>, t: nat, targets: nat, name: string, ghost trace: seq<Search>,
                    remaining: set<string>, acc: Response)
    returns (out: Outcome)
    requires Ended(net, requested, t, Late(name), trace, remaining, acc) && t < targets
    ensures Accounts(net, requested, targets, trace, At(t, name), out)
  {
    var skipped := MarkSkipped(acc.errors, remaining);
    SkippedErrors(net, t, trace, requested);
    out := Conclude(net, requested, targets, trace, At(t, name), {}, acc.(errors := skipped));
  }

  /** Every target was used, or no name was left. */
  method FinishAll(net: Net, ghost requested: set<string>, t: nat, targets: nat, ghost trace: seq<Search>,
                   remaining: set<string>, acc: Response)
    returns (out: Outcome)
    requires Between(net, requested, t, trace, remaining, acc) && 0 < targets && t <= targets
    requires t == targets || remaining == {}
    ensures Accounts(net, requested, targets, trace, Ran, out)
  {
    FinalIsTally(net, requested, t, targets, trace, remaining, acc);
    out := Conclude(net, requested, targets, trace, Ran, remaining, acc);
  }

  lemma FinalIsTally(net: Net, requested: set<string>, t: nat, targets: nat, trace: seq<Search>,
                     remaining: set<string>, acc: Response)
    requires Between(net, requested, t, trace, remaining, acc) && t <= targets
    requires t == targets || remaining == {}
    ensures acc == Tally(trace).(errors := FinalErrors(net, targets, trace, requested, Ran))
  {
    if t < targets {
      NothingLeft(net, t, targets, trace, requested);
    }
  }

  lemma OpeningIsBetween(net: Net, requested: set<string>)
    ensures Between(net, requested, 0, [], requested, Response(NoRange, {}, {}, {}, 0, false, [], [], map[]))
  {
  }

  method Finish(net: Net, ghost requested: set<string>, t: nat, targets: nat, verdict: Verdict, ghost trace: seq<Search>,
                remaining: set<string>, acc: Response)
    returns (out: Outcome, ghost stop: Stop)
    requires 0 < targets
    requires verdict.Done? ==>
               t <= targets && (t == targets || remaining == {}) && Between(net, requested, t, trace, remaining, acc)
    requires !verdict.Done? ==> t < targets && Ended(net, requested, t, verdict, trace, remaining, acc)
    ensures Accounts(net, requested, targets, trace, stop, out)
  {
    stop := Ran;
    match verdict {
      case Broke => out := Crashed;
      case Late(name) =>
        stop := At(t, name);
        out := FinishLate(net, requested, t, targets, name, trace, remaining, acc);
      case Done => out := FinishAll(net, requested, t, targets, trace, remaining, acc);
    }
  }

  /** The loop over targets; it ends when the targets or the names run out, or it is stopped. */
  method VisitTargets(net: Net, targets: nat, requested: set<string>)
    returns (t: nat, verdict: Verdict, remaining: set<string>, acc: Response, ghost trace: seq<Search>)
    ensures verdict.Done? ==>
              t <= targets && (t == targets || remaining == {}) && Between(net, requested, t, trace, remaining, acc)
    ensures !verdict.Done? ==> t < targets && Ended(net, requested, t, verdict, trace, remaining, acc)
  {
    remaining, acc := requested, Response(NoRange, {}, {}, {}, 0, false, [], [], map[]);
    var deadline := net.clock(0) + DEADLINE;
    var readings := 1;
    t, verdict, trace := 0, Done, [];
    OpeningIsBetween(net, requested);
    while t < targets && remaining != {}
      invariant t <= targets && readings == |trace| + 1 && verdict.Done?
      invariant Between(net, requested, t, trace, remaining, acc)
      decreases targets - t
    {
      var ended, left, gathered, read;
      ghost var made;
      ended, left, gathered, read, made := VisitTarget(net, t, deadline, requested, trace, remaining, acc, readings);
      verdict, remaining, acc, readings, trace := ended, left, gathered, read, made;
      match ended {
        case Done => t := t + 1;
        case _ => return;
      }
    }
  }

  /** The search over `targets` matching targets for the requested devices. */
  method RunLogUsageSearch(devices: seq<string>, targets: nat, net: Net)
    returns (out: Outcome, ghost trace: seq<Search>, ghost stop: Stop)
    ensures Accounts(net, (set n | n in devices), targets, trace, stop, out)
    ensures IsOutcome(net, (set n | n in devices), targets, out)
  {
    var requested := set n | n in devices;
    out, trace, stop := NoTarget, [], Ran;
    if targets == 0 {
      assert Accounts(net, requested, targets, trace, stop, out);
      return;
    }
    var t, verdict, remaining, acc;
    t, verdict, remaining, acc, trace := VisitTargets(net, targets, requested);
    out, stop := Finish(net, requested, t, targets, verdict, trace, remaining, acc);
  }

  /** With every name searched, later targets add no listing errors. */
  lemma {:induction false} NothingLeft(net: Net, t: nat, targets: nat, trace: seq<Search>, requested: set<string>)
    requires requested <= Names(trace)
    ensures Errors(net, t, trace, requested) == Errors(net, targets, trace, requested)
  {
    forall n | n in requested ensures ErrorFor(net, t, trace, n) == ErrorFor(net, targets, trace, n) {
      SearchForAbsent(trace, n);
    }
  }
}
