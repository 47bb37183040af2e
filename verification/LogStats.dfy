/** Silent-device detection and its publication (app/log_stats_cache.py). */
module LogStats {
  import opened Prelude
  import opened StableOrder
  import opened RollupHistory

  const SILENT_DETAILS_MAX: nat := 50

  datatype Stat = Stat(devid: string, devname: string, lastLog: Option<real>, lograte: real)

  /** FortiAnalyzer has received a log from the device: a timestamp that is not 0. */
  predicate HasLogged(d: Stat) {
    d.lastLog.Some? && d.lastLog.value != 0.0
  }

  predicate IsLogging(d: Stat, now: real, thresholdMinutes: real) {
    HasLogged(d) && now - d.lastLog.value <= thresholdMinutes * 60.0
  }

  // ---------- Splitting and ranking ----------

  /** The devices that are (or are not) logging, in input order. */
  function Split(stats: seq<Stat>, now: real, thresholdMinutes: real, wanted: bool): seq<Stat> {
    if stats == [] then []
    else
      var d := stats[|stats| - 1];
      Split(stats[..|stats| - 1], now, thresholdMinutes, wanted) +
      if IsLogging(d, now, thresholdMinutes) == wanted then [d] else []
  }

  method ClassifyDevices(stats: seq<Stat>, now: real, thresholdMinutes: real)
    returns (logging: seq<Stat>, silent: seq<Stat>)
    ensures logging == Split(stats, now, thresholdMinutes, true)
    ensures silent == Split(stats, now, thresholdMinutes, false)
  {
    var thresholdSeconds := thresholdMinutes * 60.0;
    logging, silent := [], [];
    for n := 0 to |stats|
      invariant logging == Split(stats[..n], now, thresholdMinutes, true)
      invariant silent == Split(stats[..n], now, thresholdMinutes, false)
    {
      assert stats[..n + 1][..n] == stats[..n];
      if HasLogged(stats[n]) && now - stats[n].lastLog.value <= thresholdSeconds {
        logging := logging + [stats[n]];
      } else {
        silent := silent + [stats[n]];
      }
    }
    assert stats[..|stats|] == stats;
  }

  /** Never-logged devices first, then the oldest timestamp. */
  function Severity(): Stat -> Rank {
    (d: Stat) => if HasLogged(d) then Rank(1, d.lastLog.value) else Rank(0, 0.0)
  }

  datatype Detail = Detail(devid: string, devname: string, lastLogAt: Option<real>)

  function DetailOf(d: Stat): Detail {
    Detail(d.devid, d.devname, if HasLogged(d) then d.lastLog else None)
  }

  function Details(silent: seq<Stat>, limit: nat): (r: seq<Detail>)
    ensures |r| == if limit <= |silent| then limit else |silent|
    ensures forall i :: 0 <= i < |r| ==> r[i] == DetailOf(StableSort(silent, Severity())[i])
  {
    var ordered := StableSort(silent, Severity());
    seq(if limit <= |ordered| then limit else |ordered|, i requires 0 <= i < |ordered| => DetailOf(ordered[i]))
  }

  method BuildSilentDetails(silent: seq<Stat>, limit: nat) returns (details: seq<Detail>)
    ensures details == Details(silent, limit)
  {
    var ordered := StableSort(silent, Severity());
    var top := ordered[..if limit <= |ordered| then limit else |ordered|];
    details := [];
    for n := 0 to |top|
      invariant |details| == n && forall i :: 0 <= i < n ==> details[i] == DetailOf(ordered[i])
    {
      details := details + [DetailOf(top[n])];
    }
  }

  /** The drill-down list is the head of the severity order: listed devices are in
      order, and no device left out is more severe than a listed one. */
  lemma OmittedDevicesAreNoWorse(silent: seq<Stat>, limit: nat, i: nat, j: nat)
    requires i < |Details(silent, limit)| && i < j < |silent|
    ensures var ordered := StableSort(silent, Severity());
            && multiset(ordered) == multiset(silent)
            && Details(silent, limit)[i] == DetailOf(ordered[i])
            && (HasLogged(ordered[i]) ==> HasLogged(ordered[j]) && ordered[i].lastLog.value <= ordered[j].lastLog.value)
  {
    StableSortRanks(silent, Severity());
    StableSortPermutes(silent, Severity());
    var ordered := StableSort(silent, Severity());
    assert !Ahead(Severity()(ordered[j]), Severity()(ordered[i]));
  }

  lemma SameSeverity(a: Stat, b: Stat)
    requires HasLogged(a) == HasLogged(b) && (HasLogged(a) ==> a.lastLog.value == b.lastLog.value)
    ensures Severity()(a) == Severity()(b)
  {
  }

  /** Equally severe devices are listed in input order. */
  lemma EqualSeverityKeepsOrder(silent: seq<Stat>, i: nat, j: nat)
    requires i < j < |silent|
    requires var ordered := StableSort(silent, Severity());
             HasLogged(ordered[i]) == HasLogged(ordered[j]) &&
             (HasLogged(ordered[i]) ==> ordered[i].lastLog.value == ordered[j].lastLog.value)
    ensures InOrder(silent, StableSort(silent, Severity())[i], StableSort(silent, Severity())[j])
  {
    SameSeverity(StableSort(silent, Severity())[i], StableSort(silent, Severity())[j]);
    StableSortKeepsTies(silent, Severity(), i, j);
  }

  // ---------- One record per device ----------

  /** Device ids in order of first appearance. */
  function Ids(stats: seq<Stat>): seq<string> {
    if stats == [] then []
    else
      var before, last := Ids(stats[..|stats| - 1]), stats[|stats| - 1];
      if last.devid in before then before else before + [last.devid]
  }

  /** The last record reported for an id. */
  function LastFor(stats: seq<Stat>, id: string): Option<Stat> {
    if stats == [] then None
    else if stats[|stats| - 1].devid == id then Some(stats[|stats| - 1])
    else LastFor(stats[..|stats| - 1], id)
  }

  lemma {:induction false} IdsAndRecords(stats: seq<Stat>)
    ensures forall id :: id in Ids(stats) <==> LastFor(stats, id).Some?
    ensures forall id :: LastFor(stats, id).Some? ==> LastFor(stats, id).value in stats && LastFor(stats, id).value.devid == id
    ensures forall i, j :: 0 <= i < j < |Ids(stats)| ==> Ids(stats)[i] != Ids(stats)[j]
    ensures forall d :: d in stats ==> d.devid in Ids(stats)
  {
    if stats == [] {
    } else {
      IdsAndRecords(stats[..|stats| - 1]);
      assert stats == stats[..|stats| - 1] + [stats[|stats| - 1]];
    }
  }

  /** One record per id: the last one, at the place of the first. */
  function Fleet(stats: seq<Stat>): (r: seq<Stat>)
    ensures |r| == |Ids(stats)|
    ensures forall i :: 0 <= i < |r| ==> LastFor(stats, Ids(stats)[i]) == Some(r[i])
  {
    IdsAndRecords(stats);
    var ids := Ids(stats);
    seq(|ids|, i requires 0 <= i < |ids| && LastFor(stats, ids[i]).Some? => LastFor(stats, ids[i]).value)
  }

  /** The dictionary after some records: `order` is its insertion order. */
  ghost predicate Gathered(stats: seq<Stat>, order: seq<string>, byId: map<string, Stat>) {
    && order == Ids(stats)
    && (forall id :: id in byId <==> id in order)
    && (forall id :: id in byId ==> LastFor(stats, id) == Some(byId[id]))
  }

  lemma GatheredAppend(stats: seq<Stat>, order: seq<string>, byId: map<string, Stat>, d: Stat)
    requires Gathered(stats, order, byId)
    ensures Gathered(stats + [d], if d.devid in byId then order else order + [d.devid], byId[d.devid := d])
  {
    assert (stats + [d])[..|stats|] == stats;
  }

  datatype TargetReply = NotPolled | Failed | Reported(stats: seq<Stat>)

  /** Everything reported this cycle, target after target. */
  function AllStats(replies: seq<TargetReply>): seq<Stat> {
    if replies == [] then []
    else
      var last := replies[|replies| - 1];
      AllStats(replies[..|replies| - 1]) + if last.Reported? then last.stats else []
  }

  predicate AnyReported(replies: seq<TargetReply>) {
    exists i :: 0 <= i < |replies| && replies[i].Reported?
  }

  method GatherDevices(replies: seq<TargetReply>) returns (polledOk: bool, devices: seq<Stat>)
    ensures polledOk == AnyReported(replies) && devices == Fleet(AllStats(replies))
  {
    var byId: map<string, Stat> := map[];
    var order: seq<string> := [];
    polledOk := false;
    for n := 0 to |replies|
      invariant polledOk == AnyReported(replies[..n]) && Gathered(AllStats(replies[..n]), order, byId)
    {
      assert replies[..n + 1] == replies[..n] + [replies[n]] && replies[..n + 1][..n] == replies[..n];
      assert AllStats(replies[..n]) + [] == AllStats(replies[..n]);
      if !replies[n].Reported? {
        continue;
      }
      polledOk := true;
      assert replies[..n + 1][n].Reported?;
      order, byId := AddStats(replies[n].stats, order, byId, AllStats(replies[..n]));
    }
    assert replies[..|replies|] == replies;
    devices := seq(|order|, i requires 0 <= i < |order| && order[i] in byId => byId[order[i]]);
    assert devices == Fleet(AllStats(replies));
  }

  method AddStats(stats: seq<Stat>, order0: seq<string>, byId0: map<string, Stat>, ghost before: seq<Stat>)
    returns (order: seq<string>, byId: map<string, Stat>)
    requires Gathered(before, order0, byId0)
    ensures Gathered(before + stats, order, byId)
  {
    order, byId := order0, byId0;
    ghost var seen := before;
    for k := 0 to |stats|
      invariant seen == before + stats[..k] && Gathered(seen, order, byId)
    {
      var dev := stats[k];
      GatheredAppend(seen, order, byId, dev);
      seen := seen + [dev];
      order := if dev.devid in byId then order else order + [dev.devid];
      byId := byId[dev.devid := dev];
    }
    assert stats[..|stats|] == stats;
  }

  function DevIds(stats: seq<Stat>): (r: seq<string>)
    ensures |r| == |stats| && forall i :: 0 <= i < |r| ==> r[i] == stats[i].devid
  {
    seq(|stats|, i requires 0 <= i < |stats| => stats[i].devid)
  }

  lemma SplitLast(before: seq<Stat>, d: Stat, now: real, thresholdMinutes: real, wanted: bool)
    ensures Split(before + [d], now, thresholdMinutes, wanted) ==
              Split(before, now, thresholdMinutes, wanted) + if IsLogging(d, now, thresholdMinutes) == wanted then [d] else []
  {
    assert (before + [d])[..|before|] == before;
  }

  lemma {:induction false} SplitPartitions(stats: seq<Stat>, now: real, thresholdMinutes: real)
    ensures multiset(Split(stats, now, thresholdMinutes, true)) + multiset(Split(stats, now, thresholdMinutes, false)) == multiset(stats)
  {
    if stats == [] {
    } else {
      var before, d := stats[..|stats| - 1], stats[|stats| - 1];
      SplitPartitions(before, now, thresholdMinutes);
      SplitLast(before, d, now, thresholdMinutes, true);
      SplitLast(before, d, now, thresholdMinutes, false);
      assert stats == before + [d];
      AddOne(Split(before, now, thresholdMinutes, true), Split(before, now, thresholdMinutes, false), before, d);
    }
  }

  lemma AddOne(a: seq<Stat>, b: seq<Stat>, all: seq<Stat>, d: Stat)
    requires multiset(a) + multiset(b) == multiset(all)
    ensures multiset(a + [d]) + multiset(b + []) == multiset(all + [d])
    ensures multiset(a + []) + multiset(b + [d]) == multiset(all + [d])
  {
    assert a + [] == a && b + [] == b;
  }

  lemma {:induction false} SplitSelects(stats: seq<Stat>, now: real, thresholdMinutes: real, wanted: bool)
    ensures forall d :: d in Split(stats, now, thresholdMinutes, wanted) <==>
              d in stats && IsLogging(d, now, thresholdMinutes) == wanted
  {
    if stats == [] {
    } else {
      SplitSelects(stats[..|stats| - 1], now, thresholdMinutes, wanted);
      assert stats == stats[..|stats| - 1] + [stats[|stats| - 1]];
    }
  }

  /** Within each list devices keep their order. */
  lemma {:induction false} SplitKeepsOrder(stats: seq<Stat>, now: real, thresholdMinutes: real, wanted: bool, i: nat, j: nat)
    requires i < j < |Split(stats, now, thresholdMinutes, wanted)|
    ensures exists a, b :: 0 <= a < b < |stats| &&
              stats[a] == Split(stats, now, thresholdMinutes, wanted)[i] &&
              stats[b] == Split(stats, now, thresholdMinutes, wanted)[j]
  {
    var n := |stats| - 1;
    var before := Split(stats[..n], now, thresholdMinutes, wanted);
    if j < |before| {
      SplitKeepsOrder(stats[..n], now, thresholdMinutes, wanted, i, j);
      var a, b :| 0 <= a < b < n && stats[..n][a] == before[i] && stats[..n][b] == before[j];
      assert stats[a] == before[i] && stats[b] == before[j];
    } else {
      SplitSelects(stats[..n], now, thresholdMinutes, wanted);
      assert before[i] in stats[..n];
      var a :| 0 <= a < n && stats[a] == before[i];
      assert stats[n] == Split(stats, now, thresholdMinutes, wanted)[j];
    }
  }

  /** After a poll every id that was reported is in exactly one of the two lists, once,
      with the record of the last target that reported it. */
  lemma EveryDeviceIsClassifiedOnce(stats: seq<Stat>, now: real, thresholdMinutes: real)
    ensures var fleet := Fleet(stats);
            var logging, silent := Split(fleet, now, thresholdMinutes, true), Split(fleet, now, thresholdMinutes, false);
            && DevIds(fleet) == Ids(stats)
            && multiset(logging) + multiset(silent) == multiset(fleet)
            && (forall d :: d in logging || d in silent ==> LastFor(stats, d.devid) == Some(d))
            && (forall d :: d in logging ==> IsLogging(d, now, thresholdMinutes))
            && (forall d :: d in silent ==> !IsLogging(d, now, thresholdMinutes))
    ensures forall i, j :: 0 <= i < j < |Ids(stats)| ==> Ids(stats)[i] != Ids(stats)[j]
    ensures forall d :: d in stats ==> d.devid in Ids(stats)
  {
    var fleet := Fleet(stats);
    IdsAndRecords(stats);
    SplitPartitions(fleet, now, thresholdMinutes);
    SplitSelects(fleet, now, thresholdMinutes, true);
    SplitSelects(fleet, now, thresholdMinutes, false);
    FleetRecords(stats);
  }

  lemma FleetRecords(stats: seq<Stat>)
    ensures DevIds(Fleet(stats)) == Ids(stats)
    ensures forall d :: d in Fleet(stats) ==> LastFor(stats, d.devid) == Some(d)
  {
    var fleet := Fleet(stats);
    IdsAndRecords(stats);
    forall i | 0 <= i < |fleet| ensures fleet[i].devid == Ids(stats)[i] && LastFor(stats, fleet[i].devid) == Some(fleet[i]) {
      assert LastFor(stats, Ids(stats)[i]) == Some(fleet[i]);
    }
  }

  // ---------- What a poll publishes, read off the reports ----------

  /** Reports follow one another target by target; a target that failed adds none. */
  lemma {:induction false} ReportsFollowTheTargets(a: seq<TargetReply>, b: seq<TargetReply>)
    ensures AllStats(a + b) == AllStats(a) + AllStats(b)
    ensures forall stats :: AllStats([Reported(stats)]) == stats
    ensures AllStats([Failed]) == AllStats([NotPolled]) == []
  {
    assert forall r: TargetReply :: [r][..0] == [];
    if b == [] {
      assert a + b == a && AllStats(a) + [] == AllStats(a);
    } else {
      var c, last := b[..|b| - 1], b[|b| - 1];
      ReportsFollowTheTargets(a, c);
      assert (a + b)[..|a + b| - 1] == a + c;
      var more := if last.Reported? then last.stats else [];
      assert AllStats(a) + AllStats(c) + more == AllStats(a) + (AllStats(c) + more);
    }
  }

  /** The last record reported for its id. */
  predicate IsLastRecord(stats: seq<Stat>, d: Stat) {
    exists i :: 0 <= i < |stats| && stats[i] == d && forall j :: i < j < |stats| ==> stats[j].devid != d.devid
  }

  lemma {:induction false} LastRecords(stats: seq<Stat>, d: Stat)
    ensures LastFor(stats, d.devid) == Some(d) <==> IsLastRecord(stats, d)
  {
    if stats == [] {
    } else {
      var before, n := stats[..|stats| - 1], |stats| - 1;
      LastRecords(before, d);
      assert forall i :: 0 <= i < n ==> before[i] == stats[i];
      if stats[n].devid == d.devid {
        assert stats[n] == d ==> IsLastRecord(stats, d);
      } else if IsLastRecord(before, d) {
        var i :| 0 <= i < n && before[i] == d && forall j :: i < j < n ==> before[j].devid != d.devid;
        assert stats[i] == d && forall j :: i < j < |stats| ==> stats[j].devid != d.devid;
      }
    }
  }

  /** Where an id is first reported. */
  function FirstReport(stats: seq<Stat>, id: string): (i: nat)
    ensures i <= |stats| && (i < |stats| ==> stats[i].devid == id)
    ensures forall j :: 0 <= j < i ==> stats[j].devid != id
  {
    if stats == [] || stats[0].devid == id then 0 else 1 + FirstReport(stats[1..], id)
  }

  /** Ids are listed in the order of their first reports. */
  lemma {:induction false} IdsFollowFirstReports(stats: seq<Stat>, i: nat, j: nat)
    requires i < j < |Ids(stats)|
    ensures FirstReport(stats, Ids(stats)[i]) < FirstReport(stats, Ids(stats)[j]) < |stats|
  {
    var before, last := stats[..|stats| - 1], stats[|stats| - 1];
    var ids := Ids(before);
    IdsAndRecords(before);
    ReportStays(before, last, Ids(stats)[i]);
    ReportStays(before, last, Ids(stats)[j]);
    assert stats == before + [last];
    if j < |ids| {
      IdsFollowFirstReports(before, i, j);
    } else {
      assert ids[i] in ids;
    }
  }

  lemma ReportStays(before: seq<Stat>, last: Stat, id: string)
    ensures FirstReport(before + [last], id) ==
              if FirstReport(before, id) < |before| then FirstReport(before, id)
              else if last.devid == id then |before| else |before| + 1
    ensures id in Ids(before) <==> FirstReport(before, id) < |before|
  {
    var all := before + [last];
    IdsAndRecords(before);
    assert forall k :: 0 <= k < |before| ==> all[k] == before[k];
    assert all[|before|] == last;
    if id in Ids(before) {
      assert LastFor(before, id).Some?;
      assert LastFor(before, id).value in before;
    }
  }

  /** The device has logged, and not longer ago than the threshold. */
  predicate LoggedWithin(d: Stat, now: real, thresholdMinutes: real) {
    d.lastLog.Some? && d.lastLog.value != 0.0 && d.lastLog.value >= now - thresholdMinutes * 60.0
  }

  /** More urgent: never logged, or last logged earlier. */
  predicate Worse(a: Stat, b: Stat) {
    var ta, tb := if a.lastLog == None then 0.0 else a.lastLog.value, if b.lastLog == None then 0.0 else b.lastLog.value;
    (ta == 0.0 && tb != 0.0) || (ta != 0.0 && tb != 0.0 && ta < tb)
  }

  /** A listing of the devices, the worst first, equally bad ones in input order. */
  ghost predicate WorstFirst(silent: seq<Stat>, ordered: seq<Stat>) {
    && multiset(ordered) == multiset(silent)
    && forall i, j :: 0 <= i < j < |ordered| ==>
         !Worse(ordered[j], ordered[i]) && (Worse(ordered[i], ordered[j]) || InOrder(silent, ordered[i], ordered[j]))
  }

  /** The details are those of the fifty worst. */
  ghost predicate DetailsOfWorst(silent: seq<Stat>, details: seq<Detail>) {
    exists ordered :: WorstFirst(silent, ordered) && DetailsOf(ordered, details)
  }

  predicate DetailsOf(ordered: seq<Stat>, details: seq<Detail>) {
    && |details| == (if |ordered| <= 50 then |ordered| else 50)
    && forall i :: 0 <= i < |details| ==>
         && details[i].devid == ordered[i].devid && details[i].devname == ordered[i].devname
         && details[i].lastLogAt == (if ordered[i].lastLog == Some(0.0) then None else ordered[i].lastLog)
  }

  /** One list of a snapshot: exactly the wanted last records, once per id, in the order
      in which their ids were first reported. */
  ghost predicate Lists(stats: seq<Stat>, now: real, thresholdMinutes: real, wanted: bool, list: seq<Stat>) {
    && (forall d :: d in list <==> IsLastRecord(stats, d) && LoggedWithin(d, now, thresholdMinutes) == wanted)
    && (forall i, j :: 0 <= i < j < |list| ==> FirstReport(stats, list[i].devid) < FirstReport(stats, list[j].devid))
  }

  /** What a cycle with these reports publishes. */
  ghost predicate Publishes(stats: seq<Stat>, now: real, thresholdMinutes: real, stamp: string, p: Snapshot) {
    && Lists(stats, now, thresholdMinutes, true, p.logging)
    && Lists(stats, now, thresholdMinutes, false, p.silent)
    && DetailsOfWorst(p.silent, p.details)
    && p.collectedAt == Some(stamp)
  }

  lemma SplitLists(stats: seq<Stat>, now: real, thresholdMinutes: real, wanted: bool)
    ensures Lists(stats, now, thresholdMinutes, wanted, Split(Fleet(stats), now, thresholdMinutes, wanted))
  {
    var fleet := Fleet(stats);
    var list := Split(fleet, now, thresholdMinutes, wanted);
    SplitSelects(fleet, now, thresholdMinutes, wanted);
    FleetRecords(stats);
    forall d ensures d in fleet <==> IsLastRecord(stats, d) {
      LastRecords(stats, d);
      FleetHas(stats, d);
    }
    forall i, j | 0 <= i < j < |list| ensures FirstReport(stats, list[i].devid) < FirstReport(stats, list[j].devid) {
      SplitKeepsOrder(fleet, now, thresholdMinutes, wanted, i, j);
      var a, b :| 0 <= a < b < |fleet| && fleet[a] == list[i] && fleet[b] == list[j];
      assert DevIds(fleet)[a] == fleet[a].devid && DevIds(fleet)[b] == fleet[b].devid;
      IdsFollowFirstReports(stats, a, b);
    }
  }

  lemma FleetHas(stats: seq<Stat>, d: Stat)
    ensures LastFor(stats, d.devid) == Some(d) <==> d in Fleet(stats)
  {
    IdsAndRecords(stats);
    FleetRecords(stats);
    if LastFor(stats, d.devid) == Some(d) {
      var i :| 0 <= i < |Ids(stats)| && Ids(stats)[i] == d.devid;
      assert Fleet(stats)[i] == d;
    }
  }

  lemma SortIsWorstFirst(silent: seq<Stat>)
    ensures WorstFirst(silent, StableSort(silent, Severity()))
  {
    var ordered := StableSort(silent, Severity());
    StableSortPermutes(silent, Severity());
    StableSortRanks(silent, Severity());
    forall i, j | 0 <= i < j < |ordered|
      ensures !Worse(ordered[j], ordered[i]) && (Worse(ordered[i], ordered[j]) || InOrder(silent, ordered[i], ordered[j]))
    {
      var a, b := ordered[i], ordered[j];
      assert !Ahead(Severity()(b), Severity()(a));
      WorseIsAhead(a, b);
      WorseIsAhead(b, a);
      if !Worse(a, b) {
        StableSortKeepsTies(silent, Severity(), i, j);
      }
    }
  }

  lemma WorseIsAhead(a: Stat, b: Stat)
    ensures Worse(a, b) <==> Ahead(Severity()(a), Severity()(b))
    ensures !Worse(a, b) && !Worse(b, a) ==> Severity()(a) == Severity()(b)
  {
  }

  // ---------- The poll and its publication ----------

  datatype Snapshot = Snapshot(logging: seq<Stat>, silent: seq<Stat>, details: seq<Detail>, collectedAt: Option<string>)

  const EMPTY: Snapshot := Snapshot([], [], [], None)

  /** The sum of the rates. */
  lemma {:induction false} RatesAddUp(a: seq<Stat>, b: seq<Stat>)
    ensures Rates(a + b) == Rates(a) + Rates(b)
    ensures Rates([]) == 0.0 && forall d :: Rates([d]) == d.lograte
  {
    assert forall d: Stat :: [d][..0] == [];
    if b == [] {
      assert a + b == a;
    } else {
      assert (a + b)[..|a + b| - 1] == a + b[..|b| - 1];
      RatesAddUp(a, b[..|b| - 1]);
    }
  }

  function Rates(stats: seq<Stat>): real {
    if stats == [] then 0.0 else Rates(stats[..|stats| - 1]) + stats[|stats| - 1].lograte
  }

  /** The store row a process publishes to and others read. */
  class Store {
    var cell: Option<Snapshot>

    constructor ()
      ensures cell == None
    {
      cell := None;
    }

    method WriteCache(data: Snapshot)
      modifies this
      ensures cell == Some(data)
    {
      cell := Some(data);
    }

    method ReadCache() returns (r: Option<Snapshot>)
      ensures r == cell
    {
      r := cell;
    }
  }

  /** What a cycle publishes. */
  function Polled(replies: seq<TargetReply>, now: real, thresholdMinutes: real, stamp: string): Snapshot {
    var fleet := Fleet(AllStats(replies));
    var silent := Split(fleet, now, thresholdMinutes, false);
    Snapshot(Split(fleet, now, thresholdMinutes, true), silent, Details(silent, SILENT_DETAILS_MAX), Some(stamp))
  }

  lemma PolledPublishes(replies: seq<TargetReply>, now: real, thresholdMinutes: real, stamp: string)
    ensures Publishes(AllStats(replies), now, thresholdMinutes, stamp, Polled(replies, now, thresholdMinutes, stamp))
  {
    var p := Polled(replies, now, thresholdMinutes, stamp);
    SplitLists(AllStats(replies), now, thresholdMinutes, true);
    SplitLists(AllStats(replies), now, thresholdMinutes, false);
    SortIsWorstFirst(p.silent);
    assert DetailsOf(StableSort(p.silent, Severity()), p.details);
  }

  class LogStatsCache {
    var logging: seq<Stat>
    var silent: seq<Stat>
    var details: seq<Detail>
    var collectedAt: Option<string>

    function Memory(): Snapshot
      reads this
    {
      Snapshot(logging, silent, details, collectedAt)
    }

    constructor ()
      ensures Memory() == EMPTY
    {
      logging, silent, details, collectedAt := [], [], [], None;
    }

    /** The read-through, undisturbed by other threads of the process. */
    method GetCached(store: Store) returns (r: Snapshot)
      modifies this
      ensures Memory() == if old(collectedAt).None? && store.cell.Some? then store.cell.value else old(Memory())
      ensures r == Memory()
    {
      if collectedAt.Some? {
        return Memory();
      }
      var stored := store.ReadCache();
      if stored.Some? {
        logging, silent := stored.value.logging, stored.value.silent;
        details, collectedAt := stored.value.details, stored.value.collectedAt;
      }
      r := Memory();
    }

    /** One poll cycle. If no target answered, memory, store and history stay as they are. */
    method PollAllTargets(store: Store, history: History, replies: seq<TargetReply>, now: real, thresholdMinutes: real,
                          stamp: string, cutoff: string)
      modifies this, store, history
      ensures (forall i :: 0 <= i < |replies| ==> !replies[i].Reported?) ==>
                Memory() == old(Memory()) && store.cell == old(store.cell) && history.rows == old(history.rows)
      ensures (exists i :: 0 <= i < |replies| && replies[i].Reported?) ==>
                && Publishes(AllStats(replies), now, thresholdMinutes, stamp, Memory()) && store.cell == Some(Memory())
                && history.rows == Kept(old(history.rows) + [Rollup(stamp, |logging|, |silent|, Rates(logging))], cutoff)
                && Memory() == Polled(replies, now, thresholdMinutes, stamp)
    {
      PolledPublishes(replies, now, thresholdMinutes, stamp);
      var polledOk, devices := GatherDevices(replies);
      if !polledOk {
        return;
      }
      var loggingDevices, silentDevices := ClassifyDevices(devices, now, thresholdMinutes);
      var silentDetails := BuildSilentDetails(silentDevices, SILENT_DETAILS_MAX);
      logging := loggingDevices;
      silent := silentDevices;
      details := silentDetails;
      collectedAt := Some(stamp);
      store.WriteCache(Memory());
      history.WriteRollup(|logging|, |silent|, Rates(logging), stamp);
      history.PruneOldRows(cutoff);
    }
  }
}
