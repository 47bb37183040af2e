/** The fleet-wide threat rollups (app/threat_stats_cache.py): VPN tunnels and users
    folded per target and united over targets, and top lists merged and ranked. */
module ThreatRollup {
  import opened Prelude
  import opened StableOrder

  // ---------- VPN tunnels and users ----------

  /** A field as the rows carry it; one that is absent reads as "". */
  datatype Cell = Nil | Num(n: int) | Text(s: string)

  /** What Python takes for false. */
  predicate Falsy(c: Cell) { c == Nil || c == Num(0) || c == Text("") }

  datatype TunnelRow = TunnelRow(vpnname: Cell, tunnelid: Cell, dvid: Cell, eTime: Cell)

  datatype UserRow = UserRow(dvid: Cell, user: Cell, endTime: Cell)

  /** Device and name, as they stand in the row: null, 0 and "" are different devices. */
  type Key = (Cell, Cell)

  function NameOf(row: TunnelRow): Cell {
    if !Falsy(row.vpnname) then row.vpnname
    else if !Falsy(row.tunnelid) then row.tunnelid
    else Text("")
  }

  predicate IsNamed(row: TunnelRow) { !Falsy(NameOf(row)) }

  function KeyOf(row: TunnelRow): Key { (row.dvid, NameOf(row)) }

  predicate IsOpen(row: TunnelRow) { Falsy(row.eTime) }

  /** The tunnels a list of rows names. */
  function Seen(rows: seq<TunnelRow>): set<Key> {
    set i | 0 <= i < |rows| && IsNamed(rows[i]) :: KeyOf(rows[i])
  }

  /** Those with at least one open session. */
  function Up(rows: seq<TunnelRow>): set<Key> {
    set i | 0 <= i < |rows| && IsNamed(rows[i]) && IsOpen(rows[i]) :: KeyOf(rows[i])
  }

  function UsersNow(rows: seq<UserRow>): set<Key> {
    set i | 0 <= i < |rows| && Falsy(rows[i].endTime) && !Falsy(rows[i].user) :: (rows[i].dvid, rows[i].user)
  }

  /** The per-target fold over session rows. */
  method FoldTunnels(rows: seq<TunnelRow>) returns (tunnelUp: map<Key, bool>)
    ensures tunnelUp.Keys == Seen(rows)
    ensures forall key :: key in tunnelUp ==> (tunnelUp[key] <==> key in Up(rows))
  {
    tunnelUp := map[];
    for n := 0 to |rows|
      invariant tunnelUp.Keys == Seen(rows[..n])
      invariant forall key :: key in tunnelUp ==> (tunnelUp[key] <==> key in Up(rows[..n]))
    {
      assert rows[..n + 1] == rows[..n] + [rows[n]];
      SeenAppend(rows[..n], rows[n]);
      if !IsNamed(rows[n]) {
        continue;
      }
      var key := KeyOf(rows[n]);
      var was := if key in tunnelUp then tunnelUp[key] else false;
      tunnelUp := tunnelUp[key := was || IsOpen(rows[n])];
    }
    assert rows[..|rows|] == rows;
  }

  lemma SeenAppend(rows: seq<TunnelRow>, row: TunnelRow)
    ensures Seen(rows + [row]) == Seen(rows) + if IsNamed(row) then {KeyOf(row)} else {}
    ensures Up(rows + [row]) == Up(rows) + if IsNamed(row) && IsOpen(row) then {KeyOf(row)} else {}
    ensures Up(rows) <= Seen(rows)
  {
    var all := rows + [row];
    assert all[|rows|] == row;
    assert forall i :: 0 <= i < |rows| ==> all[i] == rows[i];
  }

  /** What one target reports for its rows. */
  datatype TargetStats = TargetStats(tunnels: set<Key>, up: set<Key>, users: set<Key>)

  method PollVpn(tunnelRows: seq<TunnelRow>, userRows: seq<UserRow>) returns (r: TargetStats)
    ensures r == TargetStats(Seen(tunnelRows), Up(tunnelRows), UsersNow(userRows))
  {
    var tunnelUp := FoldTunnels(tunnelRows);
    SeenAppend(tunnelRows, TunnelRow(Nil, Nil, Nil, Nil));
    r := TargetStats(tunnelUp.Keys, (set key | key in tunnelUp && tunnelUp[key]), UsersNow(userRows));
    assert r.up == Up(tunnelRows);
  }

  datatype VpnCounts = VpnCounts(total: nat, down: nat, users: nat)

  /** The unions over the targets that answered. */
  function United(results: seq<TargetStats>): TargetStats {
    if results == [] then TargetStats({}, {}, {})
    else
      var before, last := United(results[..|results| - 1]), results[|results| - 1];
      TargetStats(before.tunnels + last.tunnels, before.up + last.up, before.users + last.users)
  }

  function FleetVpn(results: seq<TargetStats>): VpnCounts {
    var all := United(results);
    VpnCounts(|all.tunnels|, |all.tunnels - all.up|, |all.users|)
  }

  /** One target's rows. */
  datatype TargetRows = TargetRows(tunnels: seq<TunnelRow>, users: seq<UserRow>)

  function StatsOf(t: TargetRows): TargetStats {
    TargetStats(Seen(t.tunnels), Up(t.tunnels), UsersNow(t.users))
  }

  function AllStats(fleet: seq<TargetRows>): seq<TargetStats> {
    seq(|fleet|, i requires 0 <= i < |fleet| => StatsOf(fleet[i]))
  }

  predicate HasTunnelRow(fleet: seq<TargetRows>, row: TunnelRow) {
    exists t :: 0 <= t < |fleet| && row in fleet[t].tunnels
  }

  predicate HasUserRow(fleet: seq<TargetRows>, row: UserRow) {
    exists t :: 0 <= t < |fleet| && row in fleet[t].users
  }

  // The direct reading: all rows of the fleet, in one list.

  function TunnelRows(fleet: seq<TargetRows>): seq<TunnelRow> {
    if fleet == [] then [] else TunnelRows(fleet[..|fleet| - 1]) + fleet[|fleet| - 1].tunnels
  }

  function UserRows(fleet: seq<TargetRows>): seq<UserRow> {
    if fleet == [] then [] else UserRows(fleet[..|fleet| - 1]) + fleet[|fleet| - 1].users
  }

  /** A tunnel is down: some row names it, and every row that does is closed. */
  predicate IsDown(rows: seq<TunnelRow>, key: Key) {
    && (exists i :: 0 <= i < |rows| && IsNamed(rows[i]) && KeyOf(rows[i]) == key)
    && (forall i :: 0 <= i < |rows| && IsNamed(rows[i]) && KeyOf(rows[i]) == key ==> !IsOpen(rows[i]))
  }

  lemma SeenOfConcatenation(a: seq<TunnelRow>, b: seq<TunnelRow>)
    ensures Seen(a + b) == Seen(a) + Seen(b) && Up(a + b) == Up(a) + Up(b)
  {
    assert forall i :: 0 <= i < |a| ==> (a + b)[i] == a[i];
    assert forall i :: 0 <= i < |b| ==> (a + b)[|a| + i] == b[i];
  }

  lemma UsersOfConcatenation(a: seq<UserRow>, b: seq<UserRow>)
    ensures UsersNow(a + b) == UsersNow(a) + UsersNow(b)
  {
    assert forall i :: 0 <= i < |a| ==> (a + b)[i] == a[i];
    assert forall i :: 0 <= i < |b| ==> (a + b)[|a| + i] == b[i];
  }

  lemma {:induction false} UnionsAreConcatenation(fleet: seq<TargetRows>)
    ensures United(AllStats(fleet)) == TargetStats(Seen(TunnelRows(fleet)), Up(TunnelRows(fleet)), UsersNow(UserRows(fleet)))
  {
    if fleet == [] {
    } else {
      var n := |fleet| - 1;
      UnionsAreConcatenation(fleet[..n]);
      SeenOfConcatenation(TunnelRows(fleet[..n]), fleet[n].tunnels);
      UsersOfConcatenation(UserRows(fleet[..n]), fleet[n].users);
      assert AllStats(fleet)[..n] == AllStats(fleet[..n]);
    }
  }

  /** The fleet counts are those of one computation over all targets' rows together: a
      tunnel counts once, and is down iff it appears on some target and every session of
      it, on every target, is closed. */
  lemma FleetCountsAreDirectCounts(fleet: seq<TargetRows>)
    ensures var rows := TunnelRows(fleet);
            var c := FleetVpn(AllStats(fleet));
            && c.total == |Seen(rows)|
            && c.down == |set key | key in Seen(rows) && IsDown(rows, key)|
            && c.users == |UsersNow(UserRows(fleet))|
            && c.down <= c.total
  {
    UnionsAreConcatenation(fleet);
    var rows := TunnelRows(fleet);
    var down := set key | key in Seen(rows) && IsDown(rows, key);
    assert down == Seen(rows) - Up(rows);
    Subset(down, Seen(rows));
  }

  /** A session row of the fleet that belongs to the tunnel: its device is the key's, and
      its tunnel name, or without one its tunnel id, is the key's name. */
  predicate IsSession(row: TunnelRow, key: Key) {
    && key.0 == row.dvid
    && key.1 == (if row.vpnname in {Nil, Num(0), Text("")} then row.tunnelid else row.vpnname)
    && key.1 !in {Nil, Num(0), Text("")}
  }

  ghost predicate HasSession(fleet: seq<TargetRows>, key: Key) {
    exists row :: HasTunnelRow(fleet, row) && IsSession(row, key)
  }

  /** Every session of the tunnel, on every target, has an end time. */
  ghost predicate AllClosed(fleet: seq<TargetRows>, key: Key) {
    forall row :: HasTunnelRow(fleet, row) && IsSession(row, key) ==> row.eTime !in {Nil, Num(0), Text("")}
  }

  /** Some dial-up session of that user on that device has no end time. */
  ghost predicate IsConnected(fleet: seq<TargetRows>, key: Key) {
    && key.1 !in {Nil, Num(0), Text("")}
    && exists row :: HasUserRow(fleet, row) && row.dvid == key.0 && row.user == key.1 && row.endTime in {Nil, Num(0), Text("")}
  }

  /** The fleet counts, read off the rows: the tunnels with a session anywhere, those of
      them with every session closed, and the users with an open one. */
  lemma FleetCountsReadOffTheRows(fleet: seq<TargetRows>, tunnels: set<Key>, down: set<Key>, users: set<Key>)
    requires forall key :: key in tunnels <==> HasSession(fleet, key)
    requires forall key :: key in down <==> HasSession(fleet, key) && AllClosed(fleet, key)
    requires forall key :: key in users <==> IsConnected(fleet, key)
    ensures FleetVpn(AllStats(fleet)) == VpnCounts(|tunnels|, |down|, |users|)
  {
    var rows, logins := TunnelRows(fleet), UserRows(fleet);
    UnionsAreConcatenation(fleet);
    RowsAreMembers(fleet);
    forall key ensures key in Seen(rows) <==> HasSession(fleet, key) {
      SeenMeansSession(fleet, rows, key);
    }
    forall key ensures key in Up(rows) <==> HasSession(fleet, key) && !AllClosed(fleet, key) {
      UpMeansOpenSession(fleet, rows, key);
    }
    forall key ensures key in UsersNow(logins) <==> IsConnected(fleet, key) {
      UsersMeanOpenSessions(fleet, logins, key);
    }
    assert tunnels == Seen(rows) && down == Seen(rows) - Up(rows) && users == UsersNow(logins);
  }

  lemma SeenMeansSession(fleet: seq<TargetRows>, rows: seq<TunnelRow>, key: Key)
    requires forall row :: row in rows <==> HasTunnelRow(fleet, row)
    ensures key in Seen(rows) <==> HasSession(fleet, key)
  {
    if key in Seen(rows) {
      var i :| 0 <= i < |rows| && IsNamed(rows[i]) && KeyOf(rows[i]) == key;
      assert rows[i] in rows && IsSession(rows[i], key);
    }
    if HasSession(fleet, key) {
      var row :| HasTunnelRow(fleet, row) && IsSession(row, key);
      var i :| 0 <= i < |rows| && rows[i] == row;
      assert IsNamed(rows[i]) && KeyOf(rows[i]) == key;
    }
  }

  lemma UpMeansOpenSession(fleet: seq<TargetRows>, rows: seq<TunnelRow>, key: Key)
    requires forall row :: row in rows <==> HasTunnelRow(fleet, row)
    ensures key in Up(rows) <==> HasSession(fleet, key) && !AllClosed(fleet, key)
  {
    if key in Up(rows) {
      var i :| 0 <= i < |rows| && IsNamed(rows[i]) && IsOpen(rows[i]) && KeyOf(rows[i]) == key;
      assert rows[i] in rows && IsSession(rows[i], key);
    }
    if !AllClosed(fleet, key) {
      var row :| HasTunnelRow(fleet, row) && IsSession(row, key) && row.eTime in {Nil, Num(0), Text("")};
      var i :| 0 <= i < |rows| && rows[i] == row;
      assert IsNamed(rows[i]) && IsOpen(rows[i]) && KeyOf(rows[i]) == key;
    }
  }

  lemma UsersMeanOpenSessions(fleet: seq<TargetRows>, rows: seq<UserRow>, key: Key)
    requires forall row :: row in rows <==> HasUserRow(fleet, row)
    ensures key in UsersNow(rows) <==> IsConnected(fleet, key)
  {
    if key in UsersNow(rows) {
      var i :| 0 <= i < |rows| && Falsy(rows[i].endTime) && !Falsy(rows[i].user) && (rows[i].dvid, rows[i].user) == key;
      assert rows[i] in rows;
    }
    if IsConnected(fleet, key) {
      var row :| HasUserRow(fleet, row) && row.dvid == key.0 && row.user == key.1 && row.endTime in {Nil, Num(0), Text("")};
      var i :| 0 <= i < |rows| && rows[i] == row;
      assert Falsy(rows[i].endTime) && !Falsy(rows[i].user);
    }
  }

  lemma {:induction false} Subset(a: set<Key>, b: set<Key>)
    requires a <= b
    ensures |a| <= |b|
  {
    assert b == a + (b - a);
  }

  lemma {:induction false} RowsAreMembers(fleet: seq<TargetRows>)
    ensures forall row :: row in TunnelRows(fleet) <==> HasTunnelRow(fleet, row)
    ensures forall row :: row in UserRows(fleet) <==> HasUserRow(fleet, row)
  {
    if fleet == [] {
    } else {
      var n := |fleet| - 1;
      RowsAreMembers(fleet[..n]);
      assert forall t :: 0 <= t < n ==> fleet[..n][t] == fleet[t];
    }
  }

  lemma CountsDependOnMembership(a: seq<TunnelRow>, b: seq<TunnelRow>, ua: seq<UserRow>, ub: seq<UserRow>)
    requires forall row :: row in a <==> row in b
    requires forall row :: row in ua <==> row in ub
    ensures Seen(a) == Seen(b) && Up(a) == Up(b) && UsersNow(ua) == UsersNow(ub)
  {
    forall i | 0 <= i < |a| ensures exists j :: 0 <= j < |b| && b[j] == a[i] { assert a[i] in a; }
    forall i | 0 <= i < |b| ensures exists j :: 0 <= j < |a| && a[j] == b[i] { assert b[i] in b; }
    forall i | 0 <= i < |ua| ensures exists j :: 0 <= j < |ub| && ub[j] == ua[i] { assert ua[i] in ua; }
    forall i | 0 <= i < |ub| ensures exists j :: 0 <= j < |ua| && ua[j] == ub[i] { assert ub[i] in ub; }
  }

  /** Target order, repetition and the way rows are split over targets do not matter:
      two fleets with the same rows somewhere have the same counts. */
  lemma CountsIgnoreDistribution(a: seq<TargetRows>, b: seq<TargetRows>)
    requires forall row :: HasTunnelRow(a, row) <==> HasTunnelRow(b, row)
    requires forall row :: HasUserRow(a, row) <==> HasUserRow(b, row)
    ensures FleetVpn(AllStats(a)) == FleetVpn(AllStats(b))
  {
    UnionsAreConcatenation(a);
    UnionsAreConcatenation(b);
    RowsAreMembers(a);
    RowsAreMembers(b);
    CountsDependOnMembership(TunnelRows(a), TunnelRows(b), UserRows(a), UserRows(b));
  }

  // ---------- Top lists ----------

  datatype Entry = Entry(name: string, count: int)

  function Flatten(lists: seq<seq<Entry>>): seq<Entry> {
    if lists == [] then [] else Flatten(lists[..|lists| - 1]) + lists[|lists| - 1]
  }

  /** The lists are read one after the other. */
  lemma {:induction false} FlattenFollowsTheLists(a: seq<seq<Entry>>, b: seq<seq<Entry>>)
    ensures Flatten(a + b) == Flatten(a) + Flatten(b)
    ensures forall list :: Flatten([list]) == list
  {
    assert forall list: seq<Entry> :: [list][..0] == [];
    if b == [] {
      assert a + b == a && Flatten(a) + [] == Flatten(a);
    } else {
      var c, last := b[..|b| - 1], b[|b| - 1];
      FlattenFollowsTheLists(a, c);
      assert (a + b)[..|a + b| - 1] == a + c;
      assert Flatten(a) + Flatten(c) + last == Flatten(a) + (Flatten(c) + last);
    }
  }

  /** The sum of a name's counts. */
  function TotalFor(rows: seq<Entry>, name: string): int {
    if rows == [] then 0
    else TotalFor(rows[..|rows| - 1], name) + if rows[|rows| - 1].name == name then rows[|rows| - 1].count else 0
  }

  /** The names in order of first appearance. */
  function Appearing(rows: seq<Entry>): seq<string> {
    if rows == [] then []
    else
      var before, last := Appearing(rows[..|rows| - 1]), rows[|rows| - 1];
      if last.name in before then before else before + [last.name]
  }

  /** They are the names of the rows, each once. */
  lemma {:induction false} AppearingNames(rows: seq<Entry>)
    ensures forall n :: n in Appearing(rows) <==> exists i :: 0 <= i < |rows| && rows[i].name == n
    ensures forall i, j :: 0 <= i < j < |Appearing(rows)| ==> Appearing(rows)[i] != Appearing(rows)[j]
  {
    if rows == [] {
    } else {
      AppearingNames(rows[..|rows| - 1]);
      assert rows == rows[..|rows| - 1] + [rows[|rows| - 1]];
    }
  }

  /** Where a name first occurs. */
  function FirstRow(rows: seq<Entry>, name: string): (i: nat)
    ensures i <= |rows| && (i < |rows| ==> rows[i].name == name)
    ensures forall j :: 0 <= j < i ==> rows[j].name != name
  {
    if rows == [] || rows[0].name == name then 0 else 1 + FirstRow(rows[1..], name)
  }

  lemma FirstRowStays(before: seq<Entry>, last: Entry, name: string)
    ensures FirstRow(before + [last], name) ==
              if FirstRow(before, name) < |before| then FirstRow(before, name)
              else if last.name == name then |before| else |before| + 1
    ensures name in Appearing(before) <==> FirstRow(before, name) < |before|
  {
    var all := before + [last];
    AppearingNames(before);
    assert forall k :: 0 <= k < |before| ==> all[k] == before[k];
    assert all[|before|] == last;
  }

  /** Names appear in the order of their first rows. */
  lemma {:induction false} AppearingFollowsFirstRows(rows: seq<Entry>, i: nat, j: nat)
    requires i < j < |Appearing(rows)|
    ensures FirstRow(rows, Appearing(rows)[i]) < FirstRow(rows, Appearing(rows)[j]) < |rows|
  {
    var before, last := rows[..|rows| - 1], rows[|rows| - 1];
    var names := Appearing(before);
    FirstRowStays(before, last, Appearing(rows)[i]);
    FirstRowStays(before, last, Appearing(rows)[j]);
    assert rows == before + [last];
    if j < |names| {
      AppearingFollowsFirstRows(before, i, j);
    } else {
      assert names[i] in names;
    }
  }

  function Totals(rows: seq<Entry>): (r: seq<Entry>)
    ensures |r| == |Appearing(rows)|
    ensures forall i :: 0 <= i < |r| ==> r[i] == Entry(Appearing(rows)[i], TotalFor(rows, Appearing(rows)[i]))
  {
    var names := Appearing(rows);
    seq(|names|, i requires 0 <= i < |names| => Entry(names[i], TotalFor(rows, names[i])))
  }

  /** Larger counts first. */
  function ByCount(): Entry -> Rank {
    (e: Entry) => Rank(0, -(e.count as real))
  }

  function Top(rows: seq<Entry>, limit: nat): seq<Entry> {
    var ranked := StableSort(Totals(rows), ByCount());
    ranked[..if limit <= |ranked| then limit else |ranked|]
  }

  /** The dictionary after some rows: `order` keeps its insertion order. */
  ghost predicate Summed(rows: seq<Entry>, order: seq<string>, totals: map<string, int>) {
    && order == Appearing(rows)
    && (forall n :: n in totals <==> n in order)
    && (forall n :: n in totals ==> totals[n] == TotalFor(rows, n))
  }

  lemma SummedAppend(rows: seq<Entry>, order: seq<string>, totals: map<string, int>, e: Entry)
    requires Summed(rows, order, totals)
    ensures var was := if e.name in totals then totals[e.name] else 0;
            Summed(rows + [e], if e.name in totals then order else order + [e.name], totals[e.name := was + e.count])
  {
    assert (rows + [e])[..|rows|] == rows;
    AbsentTotal(rows, e.name);
    forall n ensures TotalFor(rows + [e], n) == TotalFor(rows, n) + if n == e.name then e.count else 0 {
    }
  }

  method AddRows(rows: seq<Entry>, order0: seq<string>, totals0: map<string, int>, ghost before: seq<Entry>)
    returns (order: seq<string>, totals: map<string, int>)
    requires Summed(before, order0, totals0)
    ensures Summed(before + rows, order, totals)
  {
    order, totals := order0, totals0;
    assert before + rows[..0] == before;
    for k := 0 to |rows|
      invariant Summed(before + rows[..k], order, totals)
    {
      var name, count := rows[k].name, rows[k].count;
      SummedAppend(before + rows[..k], order, totals, rows[k]);
      assert before + rows[..k + 1] == before + rows[..k] + [rows[k]];
      if name in totals {
        totals := totals[name := totals[name] + count];
      } else {
        order := order + [name];
        totals := totals[name := 0 + count];
      }
    }
    assert rows[..|rows|] == rows;
  }

  method MergeTopLists(lists: seq<seq<Entry>>, limit: nat) returns (r: seq<Entry>)
    ensures r == Top(Flatten(lists), limit)
  {
    var totals: map<string, int> := map[];
    var order: seq<string> := [];
    for n := 0 to |lists|
      invariant Summed(Flatten(lists[..n]), order, totals)
    {
      assert lists[..n + 1][..n] == lists[..n];
      order, totals := AddRows(lists[n], order, totals, Flatten(lists[..n]));
    }
    assert lists[..|lists|] == lists;
    var items := seq(|order|, i requires 0 <= i < |order| && order[i] in totals => Entry(order[i], totals[order[i]]));
    assert items == Totals(Flatten(lists));
    var ranked := StableSort(items, ByCount());
    r := ranked[..if limit <= |ranked| then limit else |ranked|];
  }

  lemma {:induction false} AbsentTotal(rows: seq<Entry>, name: string)
    ensures name !in Appearing(rows) ==> TotalFor(rows, name) == 0
  {
    if rows == [] {
    } else {
      AbsentTotal(rows[..|rows| - 1], name);
    }
  }

  /** The merged list: as many entries as there are names, up to the limit; every count
      the full sum over all lists; counts never increase. */
  lemma TopListIsExact(rows: seq<Entry>, limit: nat)
    ensures var top := Top(rows, limit);
            && |top| == (if limit <= |Appearing(rows)| then limit else |Appearing(rows)|)
            && (forall i :: 0 <= i < |top| ==> top[i].name in Appearing(rows) && top[i].count == TotalFor(rows, top[i].name))
            && (forall i, j :: 0 <= i < j < |top| ==> top[i].count >= top[j].count && top[i].name != top[j].name)
  {
    RankedEntriesAreTotals(rows);
    forall i | 0 <= i < |Top(rows, limit)|
      ensures Top(rows, limit)[i].name in Appearing(rows)
      ensures Top(rows, limit)[i].count == TotalFor(rows, Top(rows, limit)[i].name)
    {
      assert Top(rows, limit)[i] == StableSort(Totals(rows), ByCount())[i];
    }
    forall i, j | 0 <= i < j < |Top(rows, limit)|
      ensures Top(rows, limit)[i].count >= Top(rows, limit)[j].count && Top(rows, limit)[i].name != Top(rows, limit)[j].name
    {
      RankedCountsFall(rows, i, j);
      RankedNamesAreDistinct(rows, i, j);
    }
  }

  lemma RankedCountsFall(rows: seq<Entry>, i: nat, j: nat)
    requires i < j < |Totals(rows)|
    ensures StableSort(Totals(rows), ByCount())[i].count >= StableSort(Totals(rows), ByCount())[j].count
  {
    var ranked := StableSort(Totals(rows), ByCount());
    StableSortRanks(Totals(rows), ByCount());
    assert !Ahead(ByCount()(ranked[j]), ByCount()(ranked[i]));
  }

  /** No name left out has a larger sum than one reported. */
  lemma NothingLargerIsLeftOut(rows: seq<Entry>, limit: nat, n: string, i: nat)
    requires i < |Top(rows, limit)| && n in Appearing(rows)
    requires forall k :: 0 <= k < |Top(rows, limit)| ==> Top(rows, limit)[k].name != n
    ensures Top(rows, limit)[i].count >= TotalFor(rows, n)
  {
    var ranked := StableSort(Totals(rows), ByCount());
    EveryNameIsRanked(rows, n);
    assert forall k :: 0 <= k < |Top(rows, limit)| ==> Top(rows, limit)[k] == ranked[k];
    var j :| 0 <= j < |ranked| && ranked[j] == Entry(n, TotalFor(rows, n));
    RankedCountsFall(rows, i, j);
  }

  lemma RankedEntriesAreTotals(rows: seq<Entry>)
    ensures var ranked := StableSort(Totals(rows), ByCount());
            forall i :: 0 <= i < |ranked| ==>
              ranked[i].name in Appearing(rows) && ranked[i].count == TotalFor(rows, ranked[i].name)
  {
    var ranked := StableSort(Totals(rows), ByCount());
    StableSortPermutes(Totals(rows), ByCount());
    forall i | 0 <= i < |ranked|
      ensures ranked[i].name in Appearing(rows) && ranked[i].count == TotalFor(rows, ranked[i].name)
    {
      assert ranked[i] in multiset(ranked);
      assert ranked[i] in Totals(rows);
    }
  }

  lemma EveryNameIsRanked(rows: seq<Entry>, n: string)
    requires n in Appearing(rows)
    ensures Entry(n, TotalFor(rows, n)) in StableSort(Totals(rows), ByCount())
  {
    StableSortPermutes(Totals(rows), ByCount());
    var i :| 0 <= i < |Appearing(rows)| && Appearing(rows)[i] == n;
    assert Totals(rows)[i] in multiset(Totals(rows));
  }

  lemma RankedNamesAreDistinct(rows: seq<Entry>, i: nat, j: nat)
    requires i < j < |Totals(rows)|
    ensures StableSort(Totals(rows), ByCount())[i].name != StableSort(Totals(rows), ByCount())[j].name
  {
    var items := Totals(rows);
    var ranked := StableSort(items, ByCount());
    RankedEntriesAreTotals(rows);
    if ranked[i].name == ranked[j].name {
      AppearingNames(rows);
      StableSortKeepsTies(items, ByCount(), i, j);
    }
  }

  /** Names with equal sums are ranked in order of first appearance. */
  lemma TiesKeepFirstAppearance(rows: seq<Entry>, limit: nat, i: nat, j: nat)
    requires i < j < |Top(rows, limit)| && Top(rows, limit)[i].count == Top(rows, limit)[j].count
    ensures FirstRow(rows, Top(rows, limit)[i].name) < FirstRow(rows, Top(rows, limit)[j].name) < |rows|
  {
    var items := Totals(rows);
    StableSortKeepsTies(items, ByCount(), i, j);
    var a, b :| 0 <= a < b < |items| && items[a] == StableSort(items, ByCount())[i] && items[b] == StableSort(items, ByCount())[j];
    assert Appearing(rows)[a] == items[a].name && Appearing(rows)[b] == items[b].name;
    AppearingFollowsFirstRows(rows, a, b);
  }

  // ---------- Lists that each target has already cut ----------

  /** What a target sends of a ranking when asked for `n` entries. */
  function Cut(list: seq<Entry>, n: nat): seq<Entry> {
    list[..if n <= |list| then n else |list|]
  }

  function Cuts(lists: seq<seq<Entry>>, n: nat): seq<seq<Entry>> {
    seq(|lists|, i requires 0 <= i < |lists| => Cut(lists[i], n))
  }

  /** A target's full ranking: distinct names, counts that fall and are not negative. */
  predicate IsRanking(list: seq<Entry>) {
    && (forall i, j :: 0 <= i < j < |list| ==> list[i].name != list[j].name && list[i].count >= list[j].count)
    && (forall i :: 0 <= i < |list| ==> list[i].count >= 0)
  }

  /** The last count sent, if something was cut off behind it. */
  function LastShown(list: seq<Entry>, n: nat): int
    requires n > 0
  {
    if |list| > n then list[n - 1].count else 0
  }

  /** The sum of the last counts sent, over the targets that cut something off. */
  function Hidden(lists: seq<seq<Entry>>, n: nat): int
    requires n > 0
  {
    if lists == [] then 0 else Hidden(lists[..|lists| - 1], n) + LastShown(lists[|lists| - 1], n)
  }

  lemma {:induction false} UnnamedTotal(rows: seq<Entry>, name: string)
    requires forall i :: 0 <= i < |rows| ==> rows[i].name != name
    ensures TotalFor(rows, name) == 0
  {
    if rows == [] {
    } else {
      UnnamedTotal(rows[..|rows| - 1], name);
    }
  }

  lemma LastShownStays(list: seq<Entry>, n: nat)
    requires IsRanking(list) && 0 < n < |list|
    ensures LastShown(list[..|list| - 1], n) <= LastShown(list, n) && list[|list| - 1].count <= LastShown(list, n)
  {
  }

  lemma {:induction false} OneCutHides(list: seq<Entry>, n: nat, name: string)
    requires IsRanking(list) && n > 0
    ensures TotalFor(Cut(list, n), name) <= TotalFor(list, name) <= TotalFor(Cut(list, n), name) + LastShown(list, n)
  {
    if |list| <= n {
      assert Cut(list, n) == list;
    } else {
      var before, last := list[..|list| - 1], list[|list| - 1];
      OneCutHides(before, n, name);
      assert Cut(list, n) == Cut(before, n);
      LastShownStays(list, n);
      if last.name == name {
        UnnamedTotal(before, name);
        UnnamedTotal(Cut(list, n), name);
      }
    }
  }

  lemma {:induction false} TotalOfConcatenation(a: seq<Entry>, b: seq<Entry>, name: string)
    ensures TotalFor(a + b, name) == TotalFor(a, name) + TotalFor(b, name)
  {
    if b == [] {
      assert a + b == a;
    } else {
      assert (a + b)[..|a + b| - 1] == a + b[..|b| - 1];
      TotalOfConcatenation(a, b[..|b| - 1], name);
    }
  }

  /** Of no name do the cut lists hide more than the last counts they show, summed. */
  lemma {:induction false} CutsHideAtMost(lists: seq<seq<Entry>>, n: nat, name: string)
    requires n > 0 && forall i :: 0 <= i < |lists| ==> IsRanking(lists[i])
    ensures var shown := TotalFor(Flatten(Cuts(lists, n)), name);
            shown <= TotalFor(Flatten(lists), name) <= shown + Hidden(lists, n)
  {
    if lists == [] {
    } else {
      var k := |lists| - 1;
      CutsHideAtMost(lists[..k], n, name);
      OneCutHides(lists[k], n, name);
      assert Cuts(lists, n)[..k] == Cuts(lists[..k], n);
      TotalOfConcatenation(Flatten(lists[..k]), lists[k], name);
      TotalOfConcatenation(Flatten(Cuts(lists[..k], n)), Cut(lists[k], n), name);
    }
  }

  /** The merged list against the fleet's true sums: a reported count is at most the true
      sum and short of it by at most what is hidden, and a name left out has a true sum of
      at most any reported count plus what is hidden. */
  lemma MergedTopIsOffByAtMostTheHidden(lists: seq<seq<Entry>>, n: nat, limit: nat, i: nat, name: string)
    requires n > 0 && forall k :: 0 <= k < |lists| ==> IsRanking(lists[k])
    requires i < |Top(Flatten(Cuts(lists, n)), limit)|
    ensures var e := Top(Flatten(Cuts(lists, n)), limit)[i];
            e.count <= TotalFor(Flatten(lists), e.name) <= e.count + Hidden(lists, n)
    ensures (forall k :: 0 <= k < |Top(Flatten(Cuts(lists, n)), limit)| ==> Top(Flatten(Cuts(lists, n)), limit)[k].name != name) ==>
              TotalFor(Flatten(lists), name) <= Top(Flatten(Cuts(lists, n)), limit)[i].count + Hidden(lists, n)
  {
    var rows := Flatten(Cuts(lists, n));
    var top := Top(rows, limit);
    TopListIsExact(rows, limit);
    CutsHideAtMost(lists, n, top[i].name);
    CutsHideAtMost(lists, n, name);
    ShownCountsAreNatural(lists, n, top[i].name);
    if name in Appearing(rows) {
      if forall k :: 0 <= k < |top| ==> top[k].name != name {
        NothingLargerIsLeftOut(rows, limit, name, i);
      }
    } else {
      AbsentTotal(rows, name);
    }
  }

  lemma {:induction false} NaturalTotal(rows: seq<Entry>, name: string)
    requires forall i :: 0 <= i < |rows| ==> rows[i].count >= 0
    ensures TotalFor(rows, name) >= 0
  {
    if rows == [] {
    } else {
      NaturalTotal(rows[..|rows| - 1], name);
    }
  }

  lemma {:induction false} ShownCountsAreNatural(lists: seq<seq<Entry>>, n: nat, name: string)
    requires forall i :: 0 <= i < |lists| ==> IsRanking(lists[i])
    ensures TotalFor(Flatten(Cuts(lists, n)), name) >= 0
  {
    if lists == [] {
    } else {
      var k := |lists| - 1;
      ShownCountsAreNatural(lists[..k], n, name);
      NaturalTotal(Cut(lists[k], n), name);
      assert Cuts(lists, n)[..k] == Cuts(lists[..k], n);
      TotalOfConcatenation(Flatten(Cuts(lists[..k], n)), Cut(lists[k], n), name);
    }
  }

  // The cut does hide the fleet's first name in some fleets.

  /** The name made of `m` letters. */
  function Letters(m: nat): string { seq(m, _ => 'x') }

  /** `n` names with 9 each, and the name `c` with 8 behind them. */
  function LongList(n: nat, from: nat): seq<Entry> {
    seq(n, i requires 0 <= i => Entry(Letters(from + i), 9)) + [Entry("c", 8)]
  }

  /** Two targets whose rankings have nothing in common but their last name. */
  function SplitFleet(n: nat): seq<seq<Entry>> {
    [LongList(n, 2), LongList(n, 2 + n)]
  }

  lemma SplitRows(n: nat)
    ensures Flatten(SplitFleet(n)) == LongList(n, 2) + LongList(n, 2 + n)
    ensures Flatten(Cuts(SplitFleet(n), n)) == LongList(n, 2)[..n] + LongList(n, 2 + n)[..n]
  {
    var a, b := LongList(n, 2), LongList(n, 2 + n);
    FlattenPair(a, b);
    assert Cuts(SplitFleet(n), n) == [a[..n], b[..n]];
    FlattenPair(a[..n], b[..n]);
  }

  lemma FlattenPair(a: seq<Entry>, b: seq<Entry>)
    ensures Flatten([a, b]) == a + b
  {
    assert [a, b][..1] == [a] && [a][..0] == [];
    assert Flatten([a]) == [] + a == a;
  }

  lemma LongListNames(n: nat, from: nat)
    requires from >= 2
    ensures |LongList(n, from)| == n + 1 && LongList(n, from)[n] == Entry("c", 8)
    ensures forall i :: 0 <= i < n ==> |LongList(n, from)[i].name| == from + i && LongList(n, from)[i].count == 9
    ensures IsRanking(LongList(n, from))
  {
    var list := LongList(n, from);
    forall i | 0 <= i < n ensures |list[i].name| == from + i && list[i].count == 9 {
      assert list[i] == Entry(Letters(from + i), 9);
    }
    forall i, j | 0 <= i < j < |list| ensures list[i].name != list[j].name {
      assert |list[i].name| != |list[j].name|;
    }
  }

  lemma LongListTotals(n: nat, from: nat, name: string)
    requires from >= 2
    ensures var shown := LongList(n, from)[..n];
            && TotalFor(LongList(n, from), name) == TotalFor(shown, name) + (if name == "c" then 8 else 0)
            && TotalFor(shown, name) <= 9
            && (TotalFor(shown, name) > 0 ==> from <= |name| < from + n)
  {
    var list := LongList(n, from);
    LongListNames(n, from);
    SingleTotal(list[..n], name, 9);
    if !(from <= |name| < from + n) {
      UnnamedTotal(list[..n], name);
    }
  }

  lemma {:induction false} SingleTotal(rows: seq<Entry>, name: string, most: nat)
    requires forall i, j :: 0 <= i < j < |rows| ==> rows[i].name != rows[j].name
    requires forall i :: 0 <= i < |rows| ==> 0 <= rows[i].count <= most
    ensures 0 <= TotalFor(rows, name) <= most
  {
    if rows == [] {
    } else {
      var before := rows[..|rows| - 1];
      SingleTotal(before, name, most);
      if rows[|rows| - 1].name == name {
        UnnamedTotal(before, name);
      }
    }
  }

  lemma SplitFleetTotals(n: nat, name: string)
    ensures TotalFor(Flatten(SplitFleet(n)), "c") == 16
    ensures name != "c" ==> TotalFor(Flatten(SplitFleet(n)), name) <= 9
  {
    var a, b := LongList(n, 2), LongList(n, 2 + n);
    SplitRows(n);
    LongListTotals(n, 2, name);
    LongListTotals(n, 2 + n, name);
    TotalOfConcatenation(a, b, name);
    LongListTotals(n, 2, "c");
    LongListTotals(n, 2 + n, "c");
    NaturalTotal(a[..n], "c");
    NaturalTotal(b[..n], "c");
    TotalOfConcatenation(a, b, "c");
  }

  lemma ShownNamesAreLong(n: nat, k: nat)
    requires k < |Flatten(Cuts(SplitFleet(n), n))|
    ensures |Flatten(Cuts(SplitFleet(n), n))[k].name| >= 2
  {
    SplitRows(n);
    LongListNames(n, 2);
    LongListNames(n, 2 + n);
  }

  /** With lists cut to any length, the name with the largest true sum can be missing: `c`
      sums to 16 and is not reported, and no reported name sums to more than 9. */
  lemma CutListsCanHideTheFirstName(n: nat, limit: nat, i: nat)
    requires n > 0 && i < |Top(Flatten(Cuts(SplitFleet(n), n)), limit)|
    ensures var e := Top(Flatten(Cuts(SplitFleet(n), n)), limit)[i];
            e.name != "c" && TotalFor(Flatten(SplitFleet(n)), e.name) <= 9
    ensures TotalFor(Flatten(SplitFleet(n)), "c") == 16 && IsRanking(SplitFleet(n)[0]) && IsRanking(SplitFleet(n)[1])
  {
    LongListNames(n, 2);
    LongListNames(n, 2 + n);
    var rows := Flatten(Cuts(SplitFleet(n), n));
    var name := Top(rows, limit)[i].name;
    TopListIsExact(rows, limit);
    AppearingNames(rows);
    var k :| 0 <= k < |rows| && rows[k].name == name;
    ShownNamesAreLong(n, k);
    SplitFleetTotals(n, name);
  }
}
