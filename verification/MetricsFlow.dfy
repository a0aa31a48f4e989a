/**
  The sample buffer in front of the metrics table (app/routers/deps.py:64-93) as a step machine:
  samples arrive, and any number of flushes take the buffer, store their batch, or put it back after
  a database error, in any interleaving.
*/
module MetricsFlow {
  import opened MetricsHistory

  type FlushId = nat

  const KEPT: nat := 1000

  // The local variable batch of a flush under way
  datatype Flight = Flight(id: FlushId, batch: seq<Snapshot>)

  // The last three record the history: all samples in order of arrival, all that were stored in the
  // order of storing, and all that were dropped
  datatype State = State(buffer: seq<Snapshot>, flights: seq<Flight>,
                         stored: seq<Snapshot>, arrived: seq<Snapshot>, dropped: seq<Snapshot>)

  datatype Event = Append(row: Snapshot) | Take(id: FlushId) | Commit(id: FlushId) | PutBack(id: FlushId)

  predicate Has(flights: seq<Flight>, id: FlushId) { flights != [] && (flights[0].id == id || Has(flights[1..], id)) }

  function BatchOf(flights: seq<Flight>, id: FlushId): seq<Snapshot> {
    if flights == [] then [] else if flights[0].id == id then flights[0].batch else BatchOf(flights[1..], id)
  }

  function Without(flights: seq<Flight>, id: FlushId): seq<Flight> {
    if flights == [] then [] else if flights[0].id == id then flights[1..] else [flights[0]] + Without(flights[1..], id)
  }

  // batch[:1000] and the rest
  function Front(batch: seq<Snapshot>): seq<Snapshot> { if |batch| <= KEPT then batch else batch[..KEPT] }
  function Beyond(batch: seq<Snapshot>): seq<Snapshot> { if |batch| <= KEPT then [] else batch[KEPT..] }

  function Next(s: State, e: Event): State {
    match e
    case Append(row) => s.(buffer := s.buffer + [row], arrived := s.arrived + [row])
    case Take(id) =>
      if s.buffer == [] || Has(s.flights, id) then s
      else s.(buffer := [], flights := s.flights + [Flight(id, s.buffer)])
    case Commit(id) => s.(flights := Without(s.flights, id), stored := s.stored + BatchOf(s.flights, id))
    case PutBack(id) =>
      var batch := BatchOf(s.flights, id);
      s.(buffer := Front(batch) + s.buffer, flights := Without(s.flights, id), dropped := s.dropped + Beyond(batch))
  }

  function After(events: seq<Event>): State {
    if events == [] then State([], [], [], [], []) else Next(After(events[..|events| - 1]), events[|events| - 1])
  }

  // ---------- Conservation ----------

  function InFlight(flights: seq<Flight>): multiset<Snapshot> {
    if flights == [] then multiset{} else multiset(flights[0].batch) + InFlight(flights[1..])
  }

  lemma {:induction false} InFlightAppend(flights: seq<Flight>, f: Flight)
    ensures InFlight(flights + [f]) == InFlight(flights) + multiset(f.batch)
  {
    if flights == [] {
      assert [] + [f] == [f] && [f][1..] == [];
    } else {
      InFlightAppend(flights[1..], f);
      assert (flights + [f])[1..] == flights[1..] + [f];
    }
  }

  lemma {:induction false} InFlightWithout(flights: seq<Flight>, id: FlushId)
    ensures InFlight(flights) == InFlight(Without(flights, id)) + multiset(BatchOf(flights, id))
  {
    if flights != [] && flights[0].id != id {
      InFlightWithout(flights[1..], id);
      assert Without(flights, id)[1..] == Without(flights[1..], id);
    }
  }

  // Nothing is lost or doubled: every sample that arrived is buffered, held by a flush, stored or
  // dropped, as often as it arrived, whatever the interleaving
  lemma {:induction false} Conservation(events: seq<Event>)
    ensures var s := After(events);
      multiset(s.arrived) == multiset(s.buffer) + InFlight(s.flights) + multiset(s.stored) + multiset(s.dropped)
  {
    if events != [] {
      var (init, e) := (events[..|events| - 1], events[|events| - 1]);
      var s := After(init);
      Conservation(init);
      match e {
        case Append(row) =>
        case Take(id) => InFlightAppend(s.flights, Flight(id, s.buffer));
        case Commit(id) => InFlightWithout(s.flights, id);
        case PutBack(id) =>
          InFlightWithout(s.flights, id);
          SplitBatch(BatchOf(s.flights, id));
      }
    }
  }

  lemma SplitBatch(batch: seq<Snapshot>)
    ensures Front(batch) + Beyond(batch) == batch && |Front(batch)| <= KEPT
    ensures multiset(batch) == multiset(Front(batch)) + multiset(Beyond(batch))
  {
    assert Front(batch) + Beyond(batch) == batch;
  }

  function Flying(flights: seq<Flight>): nat { if flights == [] then 0 else |flights[0].batch| + Flying(flights[1..]) }

  lemma {:induction false} FlyingSize(flights: seq<Flight>)
    ensures |InFlight(flights)| == Flying(flights)
  {
    if flights != [] { FlyingSize(flights[1..]); }
  }

  lemma {:induction false} BatchWithin(flights: seq<Flight>, id: FlushId)
    ensures |BatchOf(flights, id)| <= Flying(flights)
  {
    if flights != [] { BatchWithin(flights[1..], id); }
  }

  lemma Counted(events: seq<Event>)
    ensures var s := After(events);
      |s.arrived| == |s.buffer| + Flying(s.flights) + |s.stored| + |s.dropped|
  {
    Conservation(events);
    var s := After(events);
    FlyingSize(s.flights);
    assert |multiset(s.arrived)| == |s.arrived|;
  }

  // Samples that are neither stored nor given up
  function Outstanding(s: State): int { |s.arrived| - |s.stored| - |s.dropped| }

  // Only a failed flush drops, only the part of its batch beyond the first thousand, and only while
  // more than a thousand samples wait to be stored
  lemma DropsOnlyOverflow(events: seq<Event>, e: Event)
    ensures var (s, s') := (After(events), Next(After(events), e));
      s'.dropped != s.dropped ==>
        && e.PutBack? && |BatchOf(s.flights, e.id)| > KEPT
        && s'.dropped == s.dropped + BatchOf(s.flights, e.id)[KEPT..]
        && s'.buffer == BatchOf(s.flights, e.id)[..KEPT] + s.buffer
        && Outstanding(s) > KEPT
  {
    Counted(events);
    if e.PutBack? { BatchWithin(After(events).flights, e.id); }
  }

  // A loss means that at some moment more than a thousand samples were waiting
  lemma {:induction false} LossNeedsBacklog(events: seq<Event>)
    ensures After(events).dropped != [] ==>
      exists k :: 0 <= k <= |events| && Outstanding(After(events[..k])) > KEPT
  {
    if events != [] {
      var init := events[..|events| - 1];
      LossNeedsBacklog(init);
      DropsOnlyOverflow(init, events[|events| - 1]);
      if After(init).dropped != [] {
        var k :| 0 <= k <= |init| && Outstanding(After(init[..k])) > KEPT;
        assert events[..k] == init[..k];
      }
    }
  }

  lemma LastStep(events: seq<Event>)
    ensures After([]) == State([], [], [], [], [])
    ensures events != [] ==> After(events) == Next(After(events[..|events| - 1]), events[|events| - 1])
  {
  }

  // ---------- One flush, seen from its own code ----------

  // No flush holds two batches
  ghost predicate OneBatchEach(flights: seq<Flight>) {
    flights == [] || (!Has(flights[1..], flights[0].id) && OneBatchEach(flights[1..]))
  }

  lemma {:induction false} OthersBatch(flights: seq<Flight>, id: FlushId, me: FlushId, batch: seq<Snapshot>)
    requires id != me
    ensures Has(Without(flights, id), me) == Has(flights, me) && BatchOf(Without(flights, id), me) == BatchOf(flights, me)
    ensures var more := flights + [Flight(id, batch)]; Has(more, me) == Has(flights, me) && BatchOf(more, me) == BatchOf(flights, me)
  {
    var more := flights + [Flight(id, batch)];
    if flights == [] {
      assert more[1..] == [];
    } else {
      OthersBatch(flights[1..], id, me, batch);
      assert more[1..] == flights[1..] + [Flight(id, batch)];
      if flights[0].id != id { assert Without(flights, id)[1..] == Without(flights[1..], id); }
    }
  }

  lemma {:induction false} OwnBatch(flights: seq<Flight>, me: FlushId, batch: seq<Snapshot>)
    requires !Has(flights, me) && OneBatchEach(flights)
    ensures var more := flights + [Flight(me, batch)]; Has(more, me) && BatchOf(more, me) == batch && OneBatchEach(more)
  {
    var more := flights + [Flight(me, batch)];
    if flights == [] {
      assert more[1..] == [];
    } else {
      OwnBatch(flights[1..], me, batch);
      assert more[1..] == flights[1..] + [Flight(me, batch)];
      OthersBatch(flights[1..], me, flights[0].id, batch);
    }
  }

  lemma {:induction false} GivenUp(flights: seq<Flight>, id: FlushId)
    requires OneBatchEach(flights)
    ensures !Has(Without(flights, id), id) && OneBatchEach(Without(flights, id))
  {
    if flights != [] {
      GivenUp(flights[1..], id);
      if flights[0].id != id {
        assert Without(flights, id)[1..] == Without(flights[1..], id);
        OthersBatch(flights[1..], id, flights[0].id, []);
      }
    }
  }

  lemma {:induction false} AlwaysOneBatch(events: seq<Event>)
    ensures OneBatchEach(After(events).flights)
  {
    if events != [] {
      var (init, e) := (events[..|events| - 1], events[|events| - 1]);
      var s := After(init);
      AlwaysOneBatch(init);
      match e {
        case Append(_) =>
        case Take(id) => if !Has(s.flights, id) { OwnBatch(s.flights, id, s.buffer); }
        case Commit(id) => GivenUp(s.flights, id);
        case PutBack(id) => GivenUp(s.flights, id);
      }
    }
  }

  // The rows that flush me stored after the first n events
  function StoredBy(events: seq<Event>, n: nat, me: FlushId): nat {
    if |events| <= n then 0
    else
      var init := events[..|events| - 1];
      StoredBy(init, n, me) + if events[|events| - 1] == Commit(me) then |BatchOf(After(init).flights, me)| else 0
  }

  lemma {:induction false} StoredBySplit(events: seq<Event>, n: nat, m: nat, me: FlushId)
    requires n <= m <= |events|
    ensures StoredBy(events, n, me) == StoredBy(events[..m], n, me) + StoredBy(events, m, me)
  {
    if |events| == m {
      assert events[..m] == events;
    } else {
      StoredBySplit(events[..|events| - 1], n, m, me);
      assert events[..|events| - 1][..m] == events[..m];
    }
  }
}
