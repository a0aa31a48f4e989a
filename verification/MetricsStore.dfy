/**
  The metrics database object (app/database/metrics_db.py:299-395, 454-552): batch insertion in one
  transaction, pruning, and the two queries, each of which may meet a database error at any point.
*/
module MetricsStore {
  import opened Text
  import opened IsoClock
  import opened MetricsHistory

  class MetricsDb {
    // The table on disk, and as the one connection sees it with its open transaction
    var committed: seq<Snapshot>
    var rows: seq<Snapshot>

    constructor ()
      ensures rows == committed == []
    {
      rows, committed := [], [];
    }

    // All rows or none: None stands for the database error that is raised after the rollback
    method RecordSnapshotsBatch(snapshots: seq<Snapshot>) returns (inserted: Option<nat>)
      modifies this
      ensures inserted.Some? ==> inserted.value == |snapshots| && rows == old(rows) + snapshots
      ensures inserted.Some? && snapshots != [] ==> committed == rows
      ensures inserted.Some? && snapshots == [] ==> committed == old(committed)
      ensures inserted.None? ==> rows == committed == old(committed)
    {
      if snapshots == [] {
        return Some(0);
      }
      var i := 0;
      while i < |snapshots|
        invariant 0 <= i <= |snapshots|
        invariant rows == old(rows) + snapshots[..i] && committed == old(committed)
      {
        var fault: bool := *;
        if fault {
          rows := committed;
          return None;
        }
        rows := rows + [snapshots[i]];
        i := i + 1;
      }
      var fault: bool := *;
      if fault {
        rows := committed;
        return None;
      }
      committed := rows;
      inserted := Some(|snapshots|);
    }

    // A database error is swallowed. When it comes from the commit the rows are gone from the
    // connection's view and still on disk. None stands for an OverflowError of the date arithmetic.
    method PruneOlderThan(now: DateTime, days: int) returns (deleted: Option<nat>)
      requires Valid(now)
      modifies this
      ensures deleted.Some? <==> MinusDays(now, days).Some?
      ensures rows == old(rows) || (deleted.Some? && rows == Since(old(rows), IsoFormat(MinusDays(now, days).value)))
      ensures committed == old(committed) || committed == rows
      ensures deleted.Some? && deleted.value != 0 ==>
        && committed == rows == Since(old(rows), IsoFormat(MinusDays(now, days).value))
        && deleted.value == |old(rows)| - |rows|
    {
      var cutoff := MinusDays(now, days);
      if cutoff.None? {
        return None;
      }
      var fault: bool := *;
      if fault {
        return Some(0);
      }
      SinceShorter(rows, IsoFormat(cutoff.value));
      var count := |rows| - |Since(rows, IsoFormat(cutoff.value))|;
      rows := Since(rows, IsoFormat(cutoff.value));
      fault := *;
      if fault {
        return Some(0);
      }
      committed := rows;
      deleted := Some(count);
    }

    method GetHistory(now: DateTime, window: string, fault: bool) returns (buckets: Option<seq<Bucket>>)
      requires Valid(now)
      ensures buckets == match WindowStart(now, WindowOf(window))
        case None => None
        case Some(start) => Some(if fault then [] else History(rows, WindowOf(window), IsoFormat(start)))
    {
      var start := WindowStart(now, WindowOf(window));
      if start.None? {
        return None;
      }
      if fault {
        return Some([]);
      }
      buckets := Some(History(rows, WindowOf(window), IsoFormat(start.value)));
    }

    method Get30DaySummary(now: DateTime, fault: bool) returns (summary: Option<Summary>)
      requires Valid(now)
      ensures summary == match WindowStart(now, Month)
        case None => None
        case Some(start) => Some(if fault then NO_SUMMARY else SummaryOf(Since(rows, IsoFormat(start))))
    {
      var start := WindowStart(now, Month);
      if start.None? {
        return None;
      }
      if fault {
        return Some(NO_SUMMARY);
      }
      summary := Some(SummaryOf(Since(rows, IsoFormat(start.value))));
    }
  }

  lemma {:induction false} SinceShorter(rows: seq<Snapshot>, cutoff: string)
    ensures |Since(rows, cutoff)| <= |rows|
  {
    if rows != [] { SinceShorter(rows[..|rows| - 1], cutoff); }
  }
}
