/**
  The code around the sample buffer in its own form: flush_metrics_buffer (app/routers/deps.py:74-93)
  and the collector's loop (app/main.py:146-195), giving way at each await, where samples may arrive
  and other flushes may move. Every execution is proved to be a run of the buffer's step machine.
*/
module MetricsCollector {
  import opened Text
  import opened IsoClock
  import opened MetricsHistory
  import opened MetricsTheorems
  import opened MetricsStore
  import opened MetricsFlow
  import opened MetricsOrder

  class Collector {
    const db: MetricsDb
    // metrics_buffer, and the batches that flushes under way hold in a local variable
    var buffer: seq<Snapshot>
    var flights: seq<Flight>
    // everything that has happened to the buffer, the latest cutoff of a prune, and whether nothing
    // but the flush or the pass under view has moved so far
    ghost var events: seq<Event>
    ghost var floor: string
    ghost var alone: bool

    // The buffer is the machine's, and the table lacks no stored row that is not older than the
    // latest cutoff, neither on disk nor in the connection's view
    ghost predicate Valid()
      reads this, db
    {
      var s := After(events);
      && s.buffer == buffer && s.flights == flights
      && Since(db.rows, floor) == Since(s.stored, floor) && Since(db.committed, floor) == Since(s.stored, floor)
    }

    constructor ()
      ensures Valid() && fresh(db) && events == [] && floor == "" && alone
    {
      db := new MetricsDb();
      buffer, flights := [], [];
      events, floor, alone := [], "", true;
    }

    ghost method Record(e: Event)
      modifies this`events
      ensures events == old(events) + [e] && After(events) == Next(After(old(events)), e)
    {
      Recorded(events, e);
      events := events + [e];
    }

    // A sample is added
    method AppendSample(row: Snapshot)
      requires Valid()
      modifies this`buffer, this`events
      ensures Valid() && buffer == old(buffer) + [row] && events == old(events) + [Append(row)]
    {
      hide After, Since;
      buffer := buffer + [row];
      Record(Append(row));
    }

    // The first step of a flush that found the buffer filled
    method TakeBuffer(id: FlushId) returns (batch: seq<Snapshot>)
      requires Valid() && buffer != [] && !Has(flights, id)
      modifies this`buffer, this`flights, this`events
      ensures Valid() && batch == old(buffer) && buffer == [] && flights == old(flights) + [Flight(id, batch)]
      ensures events == old(events) + [Take(id)]
    {
      hide After, Since;
      batch := buffer;
      buffer := [];
      flights := flights + [Flight(id, batch)];
      Record(Take(id));
    }

    // The insertion in its worker thread; nothing happens to the buffer when it fails
    method InsertBatch(id: FlushId, batch: seq<Snapshot>) returns (inserted: Option<nat>)
      requires Valid() && BatchOf(flights, id) == batch
      modifies this`flights, this`events, db
      ensures Valid()
      ensures inserted.None? ==> flights == old(flights) && events == old(events)
      ensures inserted.Some? ==> inserted.value == |batch| && flights == Without(old(flights), id) && events == old(events) + [Commit(id)]
    {
      hide After, Since;
      ghost var stored := After(events).stored;
      inserted := db.RecordSnapshotsBatch(batch);
      if inserted.Some? {
        SameSince(old(db.rows), stored, batch, floor);
        SameSince(old(db.committed), stored, batch, floor);
        assert batch == [] ==> old(db.committed) + batch == db.committed;
        flights := Without(flights, id);
        Record(Commit(id));
      }
    }

    // metrics_buffer[0:0] = batch[:1000]
    method SpliceBack(id: FlushId, batch: seq<Snapshot>)
      requires Valid() && BatchOf(flights, id) == batch
      modifies this`buffer, this`flights, this`events
      ensures Valid() && buffer == Front(batch) + old(buffer) && flights == Without(old(flights), id)
      ensures events == old(events) + [PutBack(id)]
    {
      hide After, Since;
      buffer := (if |batch| <= KEPT then batch else batch[..KEPT]) + buffer;
      flights := Without(flights, id);
      Record(PutBack(id));
    }

    // A step of another coroutine or thread
    method Environment(me: FlushId, e: Event)
      requires Valid() && (e.Append? || e.id != me)
      modifies this, db
      ensures Valid() && floor == old(floor) && !alone
      ensures events == old(events) || events == old(events) + [e]
      ensures Has(flights, me) == Has(old(flights), me) && BatchOf(flights, me) == BatchOf(old(flights), me)
    {
      hide After, Since;
      alone := false;
      match e {
        case Append(row) => AppendSample(row);
        case Take(id) =>
          OthersBatch(flights, id, me, buffer);
          if buffer != [] && !Has(flights, id) {
            var _ := TakeBuffer(id);
          }
        case Commit(id) =>
          OthersBatch(flights, id, me, []);
          var _ := InsertBatch(id, BatchOf(flights, id));
        case PutBack(id) =>
          OthersBatch(flights, id, me, []);
          SpliceBack(id, BatchOf(flights, id));
      }
    }

    // What may happen while the flush or pass me waits
    method Interference(me: FlushId)
      requires Valid()
      modifies this, db
      ensures Valid() && floor == old(floor) && old(events) <= events
      ensures StoredBy(events, |old(events)|, me) == 0
      ensures Has(flights, me) == Has(old(flights), me) && BatchOf(flights, me) == BatchOf(old(flights), me)
      ensures alone ==> old(alone) && events == old(events) && buffer == old(buffer) && flights == old(flights)
    {
      hide After, Since, Has, BatchOf;
      var rounds: nat := *;
      while rounds > 0
        invariant Valid() && floor == old(floor) && old(events) <= events
        invariant StoredBy(events, |old(events)|, me) == 0
        invariant Has(flights, me) == Has(old(flights), me) && BatchOf(flights, me) == BatchOf(old(flights), me)
        invariant alone ==> old(alone) && events == old(events) && buffer == old(buffer) && flights == old(flights)
      {
        var e: Event := *;
        if e.Append? || ((e.Take? || e.Commit? || e.PutBack?) && e.id != me) {
          OthersStore(events, e, |old(events)|, me);
          Environment(me, e);
        }
        rounds := rounds - 1;
      }
    }

    // Whatever else happens meanwhile, a flush returns the number of rows it has stored itself and
    // leaves no batch in the air. Undisturbed, it takes the buffer and stores it or puts it back.
    method FlushMetricsBuffer(me: FlushId) returns (count: nat)
      requires Valid() && !Has(flights, me)
      modifies this, db
      ensures Valid() && floor == old(floor) && !Has(flights, me) && old(events) <= events
      ensures count == StoredBy(events, |old(events)|, me)
      ensures alone ==> old(alone) && if old(buffer) == [] then events == old(events)
                else events == old(events) + [Take(me), Commit(me)] || events == old(events) + [Take(me), PutBack(me)]
    {
      hide After, Since, StoredBy;
      Interference(me);  // async with metrics_buffer_lock
      if buffer == [] {
        return 0;
      }
      ghost var before := events;
      AlwaysOneBatch(events);
      OwnBatch(flights, me, buffer);
      var batch := TakeBuffer(me);
      OwnStore(before, Take(me), |old(events)|, me);
      count := StoreOrPutBack(me, batch, |old(events)|);
    }

    // The rest of a flush, from the call of the insertion
    method StoreOrPutBack(me: FlushId, batch: seq<Snapshot>, ghost from: nat) returns (count: nat)
      requires Valid() && Has(flights, me) && BatchOf(flights, me) == batch
      requires from <= |events| && StoredBy(events, from, me) == 0
      modifies this, db
      ensures Valid() && floor == old(floor) && !Has(flights, me) && old(events) <= events
      ensures count == StoredBy(events, from, me)
      ensures alone ==> old(alone) && (events == old(events) + [Commit(me)] || events == old(events) + [PutBack(me)])
    {
      hide After, Since, StoredBy, Has, BatchOf;
      ghost var e0 := events;
      Interference(me);  // asyncio.to_thread
      assert events[..|e0|] == e0;
      StoredBySplit(events, from, |e0|, me);
      ghost var e1 := events;
      AlwaysOneBatch(events);
      GivenUp(flights, me);
      OwnStore(e1, Commit(me), from, me);
      var inserted := InsertBatch(me, batch);
      ghost var e2 := events;
      Interference(me);  // the worker's result, or the lock again
      assert events[..|e2|] == e2;
      StoredBySplit(events, from, |e2|, me);
      if inserted.Some? {
        return inserted.value;
      }
      ghost var e3 := events;
      AlwaysOneBatch(events);
      GivenUp(flights, me);
      SpliceBack(me, batch);
      OwnStore(e3, PutBack(me), from, me);
      count := 0;
    }

    // One sample, and the flush behind it when the time or a thousand samples call for one
    method CollectorPass(me: FlushId, row: Snapshot, flushDue: bool) returns (flushed: bool)
      requires Valid() && !Has(flights, me)
      modifies this, db
      ensures Valid() && floor == old(floor) && !Has(flights, me) && old(events) <= events
      ensures alone ==> old(alone)
      ensures alone && !flushed ==> !flushDue && events == old(events) + [Append(row)] && |buffer| < KEPT
      ensures alone && flushed ==>
        events == old(events) + [Append(row), Take(me), Commit(me)] || events == old(events) + [Append(row), Take(me), PutBack(me)]
    {
      hide After, Since, StoredBy;
      Interference(me);
      AppendSample(row);
      var size := |buffer|;
      flushed := flushDue || size >= KEPT;
      if flushed {
        ghost var middle := events;
        var _ := FlushMetricsBuffer(me);
        assert alone ==> middle == old(events) + [Append(row)];
      }
    }

    // The collector's loop, for any number of passes, any clock, and any failure to take a sample. As
    // long as nothing else touches the buffer it holds at most a thousand samples between passes, and
    // the table and the buffer together are the arrivals in order.
    method CollectorLoop(me: FlushId, passes: nat, flushInterval: int, retentionDays: int)
      requires Valid() && events == [] && alone
      modifies this, db
      ensures Valid()
      ensures alone ==> Solo(events) && flights == [] && |buffer| <= KEPT
      ensures alone ==> var s := After(events);
        Subsequence(s.stored + buffer, s.arrived) && (s.stored + buffer == s.arrived <==> s.dropped == [])
    {
      hide Since, StoredBy, Subsequence, After, Solo, Has;
      NothingHappened(me);
      var lastFlush: int, lastPrune: int := *, *;
      var done := 0;
      while done < passes
        invariant Valid() && !Has(flights, me)
        invariant alone ==> Solo(events) && flights == []
        invariant alone && events != [] && events[|events| - 1].Append? ==> |buffer| < KEPT
      {
        var sampled: bool := *;
        if sampled {
          var row: Snapshot, now: int, today: DateTime := *, *, *;
          ghost var before := events;
          var flushed := CollectorPass(me, row, now - lastFlush >= flushInterval);
          if alone { SoloPass(before, events, row, me, flushed); }
          if flushed {
            lastFlush := now;
          }
          if now - lastPrune >= 3600 && IsoClock.Valid(today) {
            var _ := Prune(today, retentionDays);
            lastPrune := now;
          }
        }
        Interference(me);  // asyncio.sleep
        done := done + 1;
      }
      if alone { BetweenPasses(events); }
    }

    // The step of the collector that prunes: what it may remove is older than the latest cutoff
    method Prune(now: DateTime, days: int) returns (raised: bool)
      requires Valid() && IsoClock.Valid(now)
      modifies this`floor, db
      ensures Valid() && raised == MinusDays(now, days).None?
      ensures raised ==> floor == old(floor)
      ensures !raised ==>
        var cutoff := IsoFormat(MinusDays(now, days).value);
        floor == if StrLess(old(floor), cutoff) then cutoff else old(floor)
    {
      hide After, Since, IsoFormat, MinusDays;
      var deleted := db.PruneOlderThan(now, days);
      raised := deleted.None?;
      if raised { return; }
      ghost var cutoff := IsoFormat(MinusDays(now, days).value);
      ghost var stored := After(events).stored;
      RaiseFloor(old(db.rows), stored, cutoff, floor);
      RaiseFloor(old(db.committed), stored, cutoff, floor);
      if StrLess(floor, cutoff) { floor := cutoff; }
    }
  }

  // A pass without disturbance is what a collector alone may do
  lemma SoloPass(before: seq<Event>, events: seq<Event>, row: Snapshot, me: FlushId, flushed: bool)
    requires Solo(before) && After(before).flights == []
    requires before != [] && before[|before| - 1].Append? ==> |After(before).buffer| < KEPT
    requires if flushed
      then events == before + [Append(row), Take(me), Commit(me)] || events == before + [Append(row), Take(me), PutBack(me)]
      else events == before + [Append(row)]
    ensures Solo(events) && After(events).flights == []
    ensures flushed <==> !events[|events| - 1].Append?
  {
    hide Has, BatchOf, Without, After, Front, Beyond, SoloOk;
    var one := before + [Append(row)];
    Recorded(before, Append(row));
    assert one[..|before|] == before && Solo(one);
    if flushed {
      var two := one + [Take(me)];
      Recorded(one, Take(me));
      assert two[..|one|] == one && Solo(two);
      Recorded(two, events[|events| - 1]);
      assert events[..|two|] == two && events == two + [events[|events| - 1]];
      SoloKeeps(two);
      SoloFlight(two, me);
    }
  }

  lemma BetweenPasses(events: seq<Event>)
    requires Solo(events) && After(events).flights == []
    requires events != [] && events[|events| - 1].Append? ==> |After(events).buffer| < KEPT
    ensures var s := After(events);
      |s.buffer| <= KEPT && Subsequence(s.stored + s.buffer, s.arrived) && (s.stored + s.buffer == s.arrived <==> s.dropped == [])
  {
    hide Subsequence, Solo;
    SoloKeeps(events);
    SoloFlow(events);
    assert events == [] ==> After(events).buffer == [];
  }

  lemma NothingHappened(me: FlushId)
    ensures After([]).flights == [] && After([]).buffer == [] && Solo([]) && !Has([], me)
  {
  }

  lemma Recorded(events: seq<Event>, e: Event)
    ensures After(events + [e]) == Next(After(events), e)
  {
    assert (events + [e])[..|events|] == events;
  }

  // Two tables that agree from a cutoff on still do with the same rows added
  lemma SameSince(a: seq<Snapshot>, b: seq<Snapshot>, more: seq<Snapshot>, cutoff: string)
    requires Since(a, cutoff) == Since(b, cutoff)
    ensures Since(a + more, cutoff) == Since(b + more, cutoff)
  {
    SinceConcat(a, more, cutoff);
    SinceConcat(b, more, cutoff);
  }

  // They agree from a later cutoff on, also when one of them has been pruned in between
  lemma RaiseFloor(rows: seq<Snapshot>, stored: seq<Snapshot>, cutoff: string, floor: string)
    requires Since(rows, floor) == Since(stored, floor)
    ensures var high := if StrLess(floor, cutoff) then cutoff else floor;
      Since(rows, high) == Since(stored, high) && Since(Since(rows, cutoff), high) == Since(stored, high)
  {
    var high := if StrLess(floor, cutoff) then cutoff else floor;
    StrLessTotal(floor, cutoff);
    StrLessTotal(high, high);
    SinceTwice(rows, floor, high);
    SinceTwice(stored, floor, high);
    SinceTwice(rows, cutoff, high);
  }

  lemma OthersStore(events: seq<Event>, e: Event, n: nat, me: FlushId)
    requires n <= |events| && e != Commit(me)
    ensures StoredBy(events + [e], n, me) == StoredBy(events, n, me)
  {
    assert (events + [e])[..|events|] == events;
  }

  lemma OwnStore(events: seq<Event>, e: Event, n: nat, me: FlushId)
    requires n <= |events|
    ensures StoredBy(events + [e], n, me) ==
            StoredBy(events, n, me) + if e == Commit(me) then |BatchOf(After(events).flights, me)| else 0
  {
    assert (events + [e])[..|events|] == events;
  }
}
