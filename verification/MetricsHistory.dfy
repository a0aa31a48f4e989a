/**
  The metrics table and the queries over it (app/database/metrics_db.py:48-143, 363-390, 454-522):
  pruning, the downsampled history and the 30-day summary. The columns no query reads are left out.
*/
module MetricsHistory {
  import opened Text
  import opened IsoClock

  datatype Snapshot = Snapshot(
    timestamp: string, serverFps: real, serverFrameTimeMs: real, activePlayers: int, cpuAvgPct: real, hostRamPct: real)

  datatype Column = Fps | FrameTime | Players | Cpu | Ram

  function Cell(row: Snapshot, col: Column): real {
    match col
    case Fps => row.serverFps
    case FrameTime => row.serverFrameTimeMs
    case Players => row.activePlayers as real
    case Cpu => row.cpuAvgPct
    case Ram => row.hostRamPct
  }

  // ---------- WHERE timestamp >= cutoff, and the rows DELETE ... WHERE timestamp < cutoff leaves ----------

  function Since(rows: seq<Snapshot>, cutoff: string): seq<Snapshot> {
    if rows == [] then []
    else
      var row := rows[|rows| - 1];
      Since(rows[..|rows| - 1], cutoff) + if StrLess(row.timestamp, cutoff) then [] else [row]
  }

  // ---------- GROUP BY bucket ORDER BY bucket ASC ----------

  datatype Window = Hour | Day | Week | Month

  function WindowOf(name: string): Window {
    if name == "1h" then Hour else if name == "7d" then Week else if name == "30d" then Month else Day
  }

  function PrefixLength(w: Window): nat {
    match w case Hour => 16 case Day => 15 case Week => 13 case Month => 10
  }

  function Suffix(w: Window): string {
    match w case Hour => ":00Z" case Day => "0:00Z" case Week => ":00:00Z" case Month => "T00:00:00Z"
  }

  // substr(timestamp, 1, n)
  function Prefix(s: string, n: nat): string { if |s| <= n then s else s[..n] }

  function Label(timestamp: string, w: Window): string { Prefix(timestamp, PrefixLength(w)) + Suffix(w) }

  datatype Group = Group(key: string, members: seq<Snapshot>)

  // The row joins the group of its key; a new key takes its place in the order
  function Insert(groups: seq<Group>, key: string, row: Snapshot): seq<Group> {
    if groups == [] || StrLess(key, groups[0].key) then [Group(key, [row])] + groups
    else if groups[0].key == key then [Group(key, groups[0].members + [row])] + groups[1..]
    else [groups[0]] + Insert(groups[1..], key, row)
  }

  function Groups(rows: seq<Snapshot>, w: Window): seq<Group> {
    if rows == [] then []
    else
      var row := rows[|rows| - 1];
      Insert(Groups(rows[..|rows| - 1], w), Label(row.timestamp, w), row)
  }

  // ---------- Aggregates ----------

  function Sum(rows: seq<Snapshot>, col: Column): real {
    if rows == [] then 0.0 else Sum(rows[..|rows| - 1], col) + Cell(rows[|rows| - 1], col)
  }

  function Min(rows: seq<Snapshot>, col: Column): real
    requires rows != []
  {
    var x := Cell(rows[|rows| - 1], col);
    if |rows| == 1 then x else var m := Min(rows[..|rows| - 1], col); if x < m then x else m
  }

  function Max(rows: seq<Snapshot>, col: Column): real
    requires rows != []
  {
    var x := Cell(rows[|rows| - 1], col);
    if |rows| == 1 then x else var m := Max(rows[..|rows| - 1], col); if x > m then x else m
  }

  function Avg(rows: seq<Snapshot>, col: Column): real
    requires rows != []
  {
    Sum(rows, col) / |rows| as real
  }

  // ROUND(x, 2), in hundredths: halves go away from zero
  function Hundredths(x: real): int {
    if x >= 0.0 then (x * 100.0 + 0.5).Floor else -((-x * 100.0 + 0.5).Floor)
  }

  function Round2(x: real): real { Hundredths(x) as real / 100.0 }

  datatype Bucket = Bucket(
    bucketTimestamp: string, avgFps: real, minFps: real, maxFps: real, avgFrameTimeMs: real, avgPlayers: real, maxPlayers: real,
    avgCpuPct: real, maxCpuPct: real, avgRamPct: real, maxRamPct: real, sampleCount: nat)

  function BucketOf(g: Group): Bucket
    requires g.members != []
  {
    var m := g.members;
    Bucket(g.key, Round2(Avg(m, Fps)), Round2(Min(m, Fps)), Round2(Max(m, Fps)), Round2(Avg(m, FrameTime)),
           Round2(Avg(m, Players)), Max(m, Players), Round2(Avg(m, Cpu)), Round2(Max(m, Cpu)),
           Round2(Avg(m, Ram)), Round2(Max(m, Ram)), |m|)
  }

  predicate NoneEmpty(groups: seq<Group>) { groups == [] || (groups[0].members != [] && NoneEmpty(groups[1..])) }

  function Buckets(groups: seq<Group>): (r: seq<Bucket>)
    requires NoneEmpty(groups)
    ensures |r| == |groups|
  {
    if groups == [] then [] else [BucketOf(groups[0])] + Buckets(groups[1..])
  }

  // COALESCE(..., 0) and COALESCE(..., '') over an empty window
  datatype Summary = Summary(
    totalSamples: nat, peakPlayers: real, avgPlayers: real, lowestFps: real, avgFps: real, peakCpuPct: real,
    avgCpuPct: real, peakRamPct: real, avgRamPct: real, windowStart: string, windowEnd: string)

  const NO_SUMMARY := Summary(0, 0.0, 0.0, 0.0, 0.0, 0.0, 0.0, 0.0, 0.0, "", "")

  function FirstTime(rows: seq<Snapshot>): string
    requires rows != []
  {
    var x := rows[|rows| - 1].timestamp;
    if |rows| == 1 then x else var m := FirstTime(rows[..|rows| - 1]); if StrLess(x, m) then x else m
  }

  function LastTime(rows: seq<Snapshot>): string
    requires rows != []
  {
    var x := rows[|rows| - 1].timestamp;
    if |rows| == 1 then x else var m := LastTime(rows[..|rows| - 1]); if StrLess(m, x) then x else m
  }

  function SummaryOf(rows: seq<Snapshot>): Summary {
    if rows == [] then NO_SUMMARY
    else Summary(|rows|, Max(rows, Players), Round2(Avg(rows, Players)), Round2(Min(rows, Fps)), Round2(Avg(rows, Fps)),
                 Round2(Max(rows, Cpu)), Round2(Avg(rows, Cpu)), Round2(Max(rows, Ram)), Round2(Avg(rows, Ram)),
                 FirstTime(rows), LastTime(rows))
  }

  // ---------- The two queries ----------

  function WindowStart(now: DateTime, w: Window): (r: Option<DateTime>)
    requires Valid(now)
    ensures r.Some? ==> Valid(r.value)
  {
    match w case Hour => MinusHour(now) case Day => MinusDays(now, 1) case Week => MinusDays(now, 7) case Month => MinusDays(now, 30)
  }

  function WindowMicros(w: Window): nat {
    match w
    case Hour => MICROS_PER_HOUR case Day => MICROS_PER_DAY case Week => 7 * MICROS_PER_DAY case Month => 30 * MICROS_PER_DAY
  }

  function History(rows: seq<Snapshot>, w: Window, cutoff: string): seq<Bucket> {
    GroupsOk(Since(rows, cutoff), w);
    Buckets(Groups(Since(rows, cutoff), w))
  }

  // ---------- What the groups are ----------

  // The rows of one key, in table order: the meaning of GROUP BY
  function Labelled(rows: seq<Snapshot>, w: Window, key: string): seq<Snapshot> {
    if rows == [] then []
    else
      var row := rows[|rows| - 1];
      Labelled(rows[..|rows| - 1], w, key) + if Label(row.timestamp, w) == key then [row] else []
  }

  // Every key of the groups comes after this one
  predicate Above(key: string, groups: seq<Group>) {
    groups == [] || (StrLess(key, groups[0].key) && Above(key, groups[1..]))
  }

  predicate Ascending(groups: seq<Group>) {
    groups == [] || (Above(groups[0].key, groups[1..]) && Ascending(groups[1..]))
  }

  // The members of the group with this key
  function MembersOf(groups: seq<Group>, key: string): seq<Snapshot> {
    if groups == [] then []
    else if groups[0].key == key then groups[0].members
    else MembersOf(groups[1..], key)
  }

  function CountAll(groups: seq<Group>): nat { if groups == [] then 0 else |groups[0].members| + CountAll(groups[1..]) }

  lemma {:induction false} AboveTransitive(a: string, b: string, groups: seq<Group>)
    requires StrLess(a, b) && Above(b, groups)
    ensures Above(a, groups)
  {
    if groups != [] {
      StrLessTransitive(a, b, groups[0].key);
      AboveTransitive(a, b, groups[1..]);
    }
  }

  lemma {:induction false} InsertAbove(bound: string, groups: seq<Group>, key: string, row: Snapshot)
    requires Above(bound, groups) && StrLess(bound, key)
    ensures Above(bound, Insert(groups, key, row))
  {
    if groups != [] { InsertAbove(bound, groups[1..], key, row); }
  }

  lemma {:induction false} InsertOk(groups: seq<Group>, key: string, row: Snapshot)
    requires Ascending(groups) && NoneEmpty(groups)
    ensures var r := Insert(groups, key, row); Ascending(r) && NoneEmpty(r) && CountAll(r) == CountAll(groups) + 1
  {
    if groups != [] {
      StrLessTotal(key, groups[0].key);
      if StrLess(key, groups[0].key) {
        AboveTransitive(key, groups[0].key, groups[1..]);
        assert Insert(groups, key, row)[1..] == groups;
      } else if groups[0].key != key {
        InsertOk(groups[1..], key, row);
        InsertAbove(groups[0].key, groups[1..], key, row);
        assert Insert(groups, key, row)[1..] == Insert(groups[1..], key, row);
      }
    }
  }

  lemma {:induction false} GroupsOk(rows: seq<Snapshot>, w: Window)
    ensures var g := Groups(rows, w); Ascending(g) && NoneEmpty(g) && CountAll(g) == |rows|
  {
    if rows != [] {
      GroupsOk(rows[..|rows| - 1], w);
      InsertOk(Groups(rows[..|rows| - 1], w), Label(rows[|rows| - 1].timestamp, w), rows[|rows| - 1]);
    }
  }
}
