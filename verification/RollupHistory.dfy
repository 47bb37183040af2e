/** The history of log-volume rollups (app/log_stats_history.py): a table whose rows are
    ordered and pruned by comparing timestamp strings. */
module RollupHistory {
  import opened Prelude
  import opened SortedNames
  import opened Stamps

  datatype Rollup = Rollup(collectedAt: string, devicesLogging: nat, devicesSilent: nat, totalLograte: real)

  /** `DELETE ... WHERE collected_at < cutoff`. */
  function Kept(rows: seq<Rollup>, cutoff: string): seq<Rollup> {
    if rows == [] then []
    else Kept(rows[..|rows| - 1], cutoff) + if Less(rows[|rows| - 1].collectedAt, cutoff) then [] else [rows[|rows| - 1]]
  }

  class History {
    var rows: seq<Rollup>

    constructor ()
      ensures rows == []
    {
      rows := [];
    }

    method WriteRollup(devicesLogging: nat, devicesSilent: nat, totalLograte: real, collectedAt: string)
      modifies this
      ensures rows == old(rows) + [Rollup(collectedAt, devicesLogging, devicesSilent, totalLograte)]
    {
      rows := rows + [Rollup(collectedAt, devicesLogging, devicesSilent, totalLograte)];
    }

    /** `ORDER BY collected_at DESC LIMIT 1`. */
    method GetLatestRollup() returns (r: Option<Rollup>)
      ensures r.None? <==> rows == []
      ensures r.Some? ==> r.value in rows && forall row :: row in rows ==> !Less(r.value.collectedAt, row.collectedAt)
    {
      if rows == [] {
        return None;
      }
      var latest := rows[0];
      LessIsStrict(latest.collectedAt);
      for i := 1 to |rows|
        invariant latest in rows[..i]
        invariant forall row :: row in rows[..i] ==> !Less(latest.collectedAt, row.collectedAt)
      {
        LessIsStrict(rows[i].collectedAt);
        if Less(latest.collectedAt, rows[i].collectedAt) {
          forall row | row in rows[..i] ensures !Less(rows[i].collectedAt, row.collectedAt) {
            if Less(rows[i].collectedAt, row.collectedAt) {
              LessIsTransitive(latest.collectedAt, rows[i].collectedAt, row.collectedAt);
            }
          }
          latest := rows[i];
        }
      }
      r := Some(latest);
    }

    method PruneOldRows(cutoff: string)
      modifies this
      ensures rows == Kept(old(rows), cutoff)
    {
      rows := Kept(rows, cutoff);
    }
  }

  // ---------- In terms of instants ----------

  /** The rows carry the stamps of the given UTC times. */
  ghost predicate StampedAt(rows: seq<Rollup>, times: seq<Civil>) {
    && |rows| == |times|
    && forall i :: 0 <= i < |rows| ==> Valid(times[i]) && rows[i].collectedAt == RowStamp(times[i])
  }

  /** The rows later than an instant, in order. */
  function After(rows: seq<Rollup>, times: seq<Civil>, instant: int): seq<Rollup>
    requires |rows| == |times|
  {
    if rows == [] then []
    else
      var n := |rows| - 1;
      After(rows[..n], times[..n], instant) + if Instant(times[n]) > instant then [rows[n]] else []
  }

  /** Pruning with a `Z` cutoff against `+00:00` rows deletes every row up to and
      including the cutoff second, and keeps every later row. */
  lemma {:induction false} PruningIsChronological(rows: seq<Rollup>, times: seq<Civil>, cutoff: Civil)
    requires StampedAt(rows, times) && Valid(cutoff)
    ensures Kept(rows, CutoffStamp(cutoff)) == After(rows, times, Instant(cutoff))
  {
    if rows == [] {
    } else {
      var n := |rows| - 1;
      PruningIsChronological(rows[..n], times[..n], cutoff);
      CutoffOrder(times[n], cutoff);
    }
  }

  /** A row with the greatest stamp is the chronologically newest, and the only one at
      its instant if poll times differ. */
  lemma LatestRowIsNewest(rows: seq<Rollup>, times: seq<Civil>, k: nat)
    requires StampedAt(rows, times) && k < |rows|
    ensures (forall i :: 0 <= i < |rows| ==> !Less(rows[k].collectedAt, rows[i].collectedAt)) <==>
              forall i :: 0 <= i < |rows| ==> Instant(times[i]) <= Instant(times[k])
  {
    forall i | 0 <= i < |rows|
      ensures Less(rows[k].collectedAt, rows[i].collectedAt) <==> Instant(times[k]) < Instant(times[i])
    {
      RowOrder(times[k], times[i]);
    }
  }

  /** A row written and then pruned with an older cutoff survives, as the last row. */
  lemma FreshRowSurvivesPruning(rows: seq<Rollup>, row: Rollup, now: Civil, cutoff: Civil)
    requires Valid(now) && Valid(cutoff) && row.collectedAt == RowStamp(now) && Instant(cutoff) < Instant(now)
    ensures Kept(rows + [row], CutoffStamp(cutoff)) == Kept(rows, CutoffStamp(cutoff)) + [row]
  {
    assert (rows + [row])[..|rows|] == rows;
    CutoffOrder(now, cutoff);
  }
}
