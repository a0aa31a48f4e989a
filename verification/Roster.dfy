/**
  The player roster (app/monitoring/tracker.py:465-545): every poll of the server merges its list of
  live players into a ledger that never forgets anyone.
*/
module Roster {
  import opened Text

  // A player as the server reports it; what is missing is None
  datatype Raw = Raw(playerId: Option<string>, userId: Option<string>, name: Option<string>, accountName: Option<string>,
                     level: Option<int>, ping: Option<real>, x: Option<real>, y: Option<real>)

  datatype Player = Player(userId: string, name: string, level: int, ping: real, x: real, y: real, firstSeen: string, lastSeen: string)

  datatype Listed = Listed(playerId: string, player: Player)

  datatype Matrix = Matrix(activeCount: nat, totalRegistered: nat, active: seq<Listed>, offline: seq<Listed>)

  // The ledger is a dictionary: ids in order of their first appearance
  datatype Ledger = Ledger(ids: seq<string>, players: map<string, Player>)

  // a or b: a value that is missing or empty does not count
  function FirstOf(a: Option<string>, b: Option<string>, fallback: string): string {
    if a.Some? && a.value != "" then a.value else if b.Some? && b.value != "" then b.value else fallback
  }

  function Get<T>(o: Option<T>, fallback: T): T { if o.Some? then o.value else fallback }

  function IdOf(p: Raw): string { FirstOf(p.playerId, p.userId, "Unknown") }

  function NameOf(p: Raw): string { FirstOf(p.name, p.accountName, "Tamer") }

  // What a report makes of a player
  function Reported(ledger: Ledger, p: Raw, now: string): Player {
    var id := IdOf(p);
    if id in ledger.players then
      var r := ledger.players[id];
      r.(name := NameOf(p), lastSeen := now, level := Get(p.level, r.level), ping := Get(p.ping, r.ping),
         x := Get(p.x, r.x), y := Get(p.y, r.y))
    else
      Player(Get(p.userId, ""), NameOf(p), Get(p.level, 1), Get(p.ping, 0.0), Get(p.x, 0.0), Get(p.y, 0.0), now, now)
  }

  function Enter(ledger: Ledger, p: Raw, now: string): Ledger {
    var id := IdOf(p);
    Ledger(if id in ledger.players then ledger.ids else ledger.ids + [id], ledger.players[id := Reported(ledger, p, now)])
  }

  function Merged(ledger: Ledger, live: seq<Raw>, now: string): Ledger {
    if live == [] then ledger
    else Enter(Merged(ledger, live[..|live| - 1], now), live[|live| - 1], now)
  }

  function Ids(live: seq<Raw>): set<string> {
    if live == [] then {} else Ids(live[..|live| - 1]) + {IdOf(live[|live| - 1])}
  }

  // The active list: one entry per report, as it stood just after it
  function ActiveList(ledger: Ledger, live: seq<Raw>, now: string): seq<Listed> {
    if live == [] then []
    else
      var (init, p) := (live[..|live| - 1], live[|live| - 1]);
      ActiveList(ledger, init, now) + [Listed(IdOf(p), Reported(Merged(ledger, init, now), p, now))]
  }

  function OfflineList(ids: seq<string>, players: map<string, Player>, active: set<string>): seq<Listed> {
    if ids == [] then []
    else
      var (init, id) := (ids[..|ids| - 1], ids[|ids| - 1]);
      OfflineList(init, players, active) +
      if id in active || id !in players then [] else [Listed(id, players[id].(ping := 0.0))]
  }

  // The ids are the keys, once each
  ghost predicate WellKept(ledger: Ledger) {
    && (forall id :: id in ledger.players <==> id in ledger.ids)
    && (forall i, j :: 0 <= i < j < |ledger.ids| ==> ledger.ids[i] != ledger.ids[j])
  }

  const NOBODY := Ledger([], map[])

  class CommunityTracker {
    var ids: seq<string>
    var players: map<string, Player>

    ghost function History(): Ledger
      reads this
    {
      Ledger(ids, players)
    }

    constructor ()
      ensures History() == NOBODY
    {
      ids, players := [], map[];
    }

    method UpdateAndGetPlayers(live: seq<Raw>, now: string) returns (matrix: Matrix)
      modifies this
      ensures History() == Merged(old(History()), live, now)
      ensures matrix == Matrix(|live|, |players|, ActiveList(old(History()), live, now), OfflineList(ids, players, Ids(live)))
    {
      var activeIds: set<string>, activeList: seq<Listed> := {}, [];
      for n := 0 to |live|
        invariant History() == Merged(old(History()), live[..n], now)
        invariant activeIds == Ids(live[..n]) && activeList == ActiveList(old(History()), live[..n], now)
        invariant |activeList| == n
      {
        var p := live[n];
        var id := IdOf(p);
        assert live[..n + 1][..n] == live[..n];
        activeIds := activeIds + {id};
        if id !in players {
          ids := ids + [id];
          players := players[id := Player(Get(p.userId, ""), NameOf(p), Get(p.level, 1), Get(p.ping, 0.0),
                                          Get(p.x, 0.0), Get(p.y, 0.0), now, now)];
        } else {
          var record := players[id];
          record := record.(name := NameOf(p), lastSeen := now);
          record := record.(level := Get(p.level, record.level), ping := Get(p.ping, record.ping));
          record := record.(x := Get(p.x, record.x), y := Get(p.y, record.y));
          players := players[id := record];
        }
        activeList := activeList + [Listed(id, players[id])];
      }
      assert live[..|live|] == live;
      var offlineList: seq<Listed> := [];
      for n := 0 to |ids|
        invariant offlineList == OfflineList(ids[..n], players, activeIds)
      {
        assert ids[..n + 1][..n] == ids[..n];
        if ids[n] !in activeIds && ids[n] in players {
          offlineList := offlineList + [Listed(ids[n], players[ids[n]].(ping := 0.0))];
        }
      }
      assert ids[..|ids|] == ids;
      matrix := Matrix(|activeList|, |players|, activeList, offlineList);
    }
  }

  // ---------- One poll ----------

  lemma {:induction false} MergeKeeps(ledger: Ledger, live: seq<Raw>, now: string)
    requires WellKept(ledger)
    ensures var after := Merged(ledger, live, now);
      && WellKept(after) && ledger.ids <= after.ids
      && (forall id :: id in after.players <==> id in ledger.players || id in Ids(live))
      && (forall id :: id in ledger.players ==>
            after.players[id].firstSeen == ledger.players[id].firstSeen && after.players[id].userId == ledger.players[id].userId)
      && (forall id :: id in ledger.players && id !in Ids(live) ==> after.players[id] == ledger.players[id])
      && (forall id :: id in Ids(live) ==> after.players[id].lastSeen == now)
      && (forall id :: id in Ids(live) && id !in ledger.players ==> after.players[id].firstSeen == now)
  {
    if live != [] {
      MergeKeeps(ledger, live[..|live| - 1], now);
    }
  }

  // How often a list names an id
  function Times(list: seq<Listed>, id: string): nat {
    if list == [] then 0 else Times(list[..|list| - 1], id) + if list[|list| - 1].playerId == id then 1 else 0
  }

  lemma TimesMore(list: seq<Listed>, entry: Listed, id: string)
    ensures Times(list + [entry], id) == Times(list, id) + if entry.playerId == id then 1 else 0
  {
    assert (list + [entry])[..|list|] == list;
  }

  function Reports(live: seq<Raw>, id: string): nat {
    if live == [] then 0 else Reports(live[..|live| - 1], id) + if IdOf(live[|live| - 1]) == id then 1 else 0
  }

  lemma {:induction false} ActiveTimes(ledger: Ledger, live: seq<Raw>, now: string, id: string)
    ensures Times(ActiveList(ledger, live, now), id) == Reports(live, id)
    ensures Reports(live, id) > 0 <==> id in Ids(live)
  {
    if live != [] {
      var (init, p) := (live[..|live| - 1], live[|live| - 1]);
      ActiveTimes(ledger, init, now, id);
      TimesMore(ActiveList(ledger, init, now), Listed(IdOf(p), Reported(Merged(ledger, init, now), p, now)), id);
    }
  }

  lemma {:induction false} OfflineTimes(ids: seq<string>, players: map<string, Player>, active: set<string>, id: string)
    requires forall i, j :: 0 <= i < j < |ids| ==> ids[i] != ids[j]
    ensures Times(OfflineList(ids, players, active), id) == if id in ids && id in players && id !in active then 1 else 0
  {
    if ids != [] {
      var (init, last) := (ids[..|ids| - 1], ids[|ids| - 1]);
      OfflineTimes(init, players, active, id);
      assert ids == init + [last];
      var before := OfflineList(init, players, active);
      if last in active || last !in players {
        assert before + [] == before;
      } else {
        TimesMore(before, Listed(last, players[last].(ping := 0.0)), id);
      }
    }
  }

  // A player that a poll listed is in the active list, once for each report, and not in the other; a
  // player of the ledger that it did not list is in the offline list, once; and nobody else is in either
  lemma ListsPartitionLedger(ledger: Ledger, live: seq<Raw>, now: string, id: string)
    requires WellKept(ledger)
    ensures var after := Merged(ledger, live, now);
      var (active, offline) := (Times(ActiveList(ledger, live, now), id), Times(OfflineList(after.ids, after.players, Ids(live)), id));
      && active == Reports(live, id) && offline <= 1
      && (id in after.players <==> active + offline > 0)
      && (active > 0 ==> offline == 0)
  {
    hide ActiveList, OfflineList, Merged;
    var after := Merged(ledger, live, now);
    MergeKeeps(ledger, live, now);
    ActiveTimes(ledger, live, now, id);
    OfflineTimes(after.ids, after.players, Ids(live), id);
  }

  // The offline entries are the ledger's records with the ping set to zero
  lemma {:induction false} OfflineRecords(ids: seq<string>, players: map<string, Player>, active: set<string>, i: nat)
    requires i < |OfflineList(ids, players, active)|
    ensures var e := OfflineList(ids, players, active)[i]; e.playerId in players && e.player == players[e.playerId].(ping := 0.0)
  {
    if ids != [] {
      var init := ids[..|ids| - 1];
      if i < |OfflineList(init, players, active)| { OfflineRecords(init, players, active, i); }
    }
  }

  // ---------- Any number of polls ----------

  datatype Poll = Poll(live: seq<Raw>, now: string)

  function Polled(polls: seq<Poll>): Ledger {
    if polls == [] then NOBODY else Merged(Polled(polls[..|polls| - 1]), polls[|polls| - 1].live, polls[|polls| - 1].now)
  }

  // The times of the polls that listed a player, in order
  function Sightings(polls: seq<Poll>, id: string): seq<string> {
    if polls == [] then []
    else Sightings(polls[..|polls| - 1], id) + if id in Ids(polls[|polls| - 1].live) then [polls[|polls| - 1].now] else []
  }

  // The ledger after any polls: a player is in it exactly when some poll listed it, seen first at the
  // first such poll and last at the last one
  lemma {:induction false} LedgerRemembers(polls: seq<Poll>, id: string)
    ensures WellKept(Polled(polls))
    ensures var (ledger, times) := (Polled(polls), Sightings(polls, id));
      && (id in ledger.players <==> times != [])
      && (times != [] ==> ledger.players[id].firstSeen == times[0] && ledger.players[id].lastSeen == times[|times| - 1])
  {
    if polls != [] {
      var (init, poll) := (polls[..|polls| - 1], polls[|polls| - 1]);
      LedgerRemembers(init, id);
      MergeKeeps(Polled(init), poll.live, poll.now);
    }
  }

  // No poll removes an id, moves it, or changes when it was first seen and under which user id
  lemma {:induction false} NeverForgotten(polls: seq<Poll>, n: nat, id: string)
    requires n <= |polls| && id in Polled(polls[..n]).players
    ensures var (early, late) := (Polled(polls[..n]), Polled(polls));
      && early.ids <= late.ids && id in late.players
      && late.players[id].firstSeen == early.players[id].firstSeen && late.players[id].userId == early.players[id].userId
    decreases |polls|
  {
    if n == |polls| {
      assert polls[..n] == polls;
    } else {
      var init := polls[..|polls| - 1];
      assert init[..n] == polls[..n];
      NeverForgotten(init, n, id);
      LedgerRemembers(init, id);
      MergeKeeps(Polled(init), polls[|polls| - 1].live, polls[|polls| - 1].now);
    }
  }
}
