/**
  When samples are stored in the order in which they arrived: as long as no flush takes the buffer
  while another is under way, and not longer. The collector as the only flusher is the special case.
*/
module MetricsOrder {
  import opened MetricsHistory
  import opened MetricsFlow

  // ---------- Subsequences ----------

  // a can be got from b by leaving elements out
  ghost predicate Subsequence(a: seq<Snapshot>, b: seq<Snapshot>) {
    a == [] || (b != [] && (
      (a[|a| - 1] == b[|b| - 1] && Subsequence(a[..|a| - 1], b[..|b| - 1])) || Subsequence(a, b[..|b| - 1])))
  }

  lemma SubsequenceBoth(a: seq<Snapshot>, b: seq<Snapshot>, x: Snapshot)
    requires Subsequence(a, b)
    ensures Subsequence(a + [x], b + [x])
  {
    assert (a + [x])[..|a|] == a && (b + [x])[..|b|] == b;
  }

  lemma {:induction false} SubsequenceDrop(a: seq<Snapshot>, x: Snapshot, b: seq<Snapshot>)
    requires Subsequence(a + [x], b)
    ensures Subsequence(a, b)
  {
    assert (a + [x])[..|a|] == a;
    if (a + [x])[|a|] == b[|b| - 1] && Subsequence(a, b[..|b| - 1]) {
    } else {
      SubsequenceDrop(a, x, b[..|b| - 1]);
    }
  }

  lemma {:induction false} SubsequencePrefix(a: seq<Snapshot>, c: seq<Snapshot>, b: seq<Snapshot>)
    requires Subsequence(a + c, b)
    ensures Subsequence(a, b)
    decreases |c|
  {
    if c == [] {
      assert a + c == a;
    } else {
      var (init, x) := (c[..|c| - 1], c[|c| - 1]);
      assert a + c == a + init + [x];
      SubsequenceDrop(a + init, x, b);
      SubsequencePrefix(a, init, b);
    }
  }

  // A part in the middle may go
  lemma {:induction false} SubsequenceMiddle(a: seq<Snapshot>, m: seq<Snapshot>, c: seq<Snapshot>, b: seq<Snapshot>)
    requires Subsequence(a + m + c, b)
    ensures Subsequence(a + c, b)
    decreases |b|
  {
    var whole := a + m + c;
    if c == [] {
      assert whole == a + m && a + c == a;
      SubsequencePrefix(a, m, b);
    } else {
      var (init, x) := (c[..|c| - 1], c[|c| - 1]);
      assert whole[..|whole| - 1] == a + m + init && whole[|whole| - 1] == x;
      assert (a + c)[..|a + c| - 1] == a + init && (a + c)[|a + c| - 1] == x;
      if x == b[|b| - 1] && Subsequence(a + m + init, b[..|b| - 1]) {
        SubsequenceMiddle(a, m, init, b[..|b| - 1]);
      } else {
        SubsequenceMiddle(a, m, c, b[..|b| - 1]);
      }
    }
  }

  lemma {:induction false} SubsequenceLonger(a: seq<Snapshot>, b: seq<Snapshot>)
    requires Subsequence(a, b)
    ensures |a| <= |b| && (|a| == |b| ==> a == b)
  {
    if a != [] {
      if a[|a| - 1] == b[|b| - 1] && Subsequence(a[..|a| - 1], b[..|b| - 1]) {
        SubsequenceLonger(a[..|a| - 1], b[..|b| - 1]);
      } else {
        SubsequenceLonger(a, b[..|b| - 1]);
      }
    }
  }

  // Where the elements of a subsequence stand, and that they stand in the same order
  lemma {:induction false} Place(a: seq<Snapshot>, b: seq<Snapshot>, p: nat) returns (i: nat)
    requires Subsequence(a, b) && p < |a|
    ensures i < |b| && b[i] == a[p]
  {
    if a[|a| - 1] == b[|b| - 1] && Subsequence(a[..|a| - 1], b[..|b| - 1]) {
      if p == |a| - 1 { i := |b| - 1; } else { i := Place(a[..|a| - 1], b[..|b| - 1], p); }
    } else {
      i := Place(a, b[..|b| - 1], p);
    }
  }

  lemma {:induction false} Places(a: seq<Snapshot>, b: seq<Snapshot>, p: nat, q: nat) returns (i: nat, j: nat)
    requires Subsequence(a, b) && p < q < |a|
    ensures i < j < |b| && b[i] == a[p] && b[j] == a[q]
  {
    if a[|a| - 1] == b[|b| - 1] && Subsequence(a[..|a| - 1], b[..|b| - 1]) {
      if q == |a| - 1 {
        j := |b| - 1;
        i := Place(a[..|a| - 1], b[..|b| - 1], p);
      } else {
        i, j := Places(a[..|a| - 1], b[..|b| - 1], p, q);
      }
    } else {
      i, j := Places(a, b[..|b| - 1], p, q);
    }
  }

  predicate NoRepeats(b: seq<Snapshot>) { forall i, j :: 0 <= i < j < |b| ==> b[i] != b[j] }

  // Two samples cannot stand in both orders
  lemma NotBothOrders(s: seq<Snapshot>, a: seq<Snapshot>, c: seq<Snapshot>, b: seq<Snapshot>)
    requires NoRepeats(b) && a != [] && c != []
    ensures !Subsequence(s + a + c, b) || !Subsequence(s + c + a, b)
  {
    if Subsequence(s + a + c, b) && Subsequence(s + c + a, b) {
      var (one, two) := (s + a + c, s + c + a);
      assert one[|s|] == a[0] && one[|s| + |a|] == c[0] && two[|s|] == c[0] && two[|s| + |c|] == a[0];
      var i, j := Places(one, b, |s|, |s| + |a|);
      var k, l := Places(two, b, |s|, |s| + |c|);
    }
  }

  // ---------- Taking turns ----------

  // From position n on no flush takes the buffer while another is under way
  predicate SerialFrom(events: seq<Event>, n: nat) {
    forall k :: n <= k < |events| && events[k].Take? ==> After(events[..k]).flights == []
  }

  predicate Serial(events: seq<Event>) { SerialFrom(events, 0) }

  function Held(s: State): seq<Snapshot> { if s.flights == [] then [] else s.flights[0].batch }

  // Everything that is stored, held or buffered, in this order
  function InLine(s: State): seq<Snapshot> { s.stored + Held(s) + s.buffer }

  lemma SerialInit(events: seq<Event>)
    requires Serial(events) && events != []
    ensures Serial(events[..|events| - 1])
    ensures events[|events| - 1].Take? ==> After(events[..|events| - 1]).flights == []
  {
    var init := events[..|events| - 1];
    forall k | 0 <= k < |init| && init[k].Take? ensures After(init[..k]).flights == [] {
      assert init[..k] == events[..k] && init[k] == events[k];
    }
  }

  // What one event does to the line, with at most one flush under way
  ghost predicate LineOk(s: State) { |s.flights| <= 1 && Subsequence(InLine(s), s.arrived) }

  lemma LineStep(s: State, e: Event)
    requires LineOk(s) && (e.Take? ==> s.flights == [])
    ensures LineOk(Next(s, e))
  {
    hide LineOk, Next;
    match e
    case Append(row) => AppendInLine(s, row);
    case Take(id) => TakeInLine(s, id);
    case Commit(id) => CommitInLine(s, id);
    case PutBack(id) => PutBackInLine(s, id);
  }

  lemma AppendInLine(s: State, row: Snapshot)
    requires LineOk(s)
    ensures LineOk(Next(s, Append(row)))
  {
    hide Subsequence;
    SubsequenceBoth(InLine(s), s.arrived, row);
    assert InLine(Next(s, Append(row))) == InLine(s) + [row];
  }

  lemma TakeInLine(s: State, id: FlushId)
    requires LineOk(s) && s.flights == []
    ensures LineOk(Next(s, Take(id)))
  {
    hide Subsequence, Has;
    assert InLine(Next(s, Take(id))) == InLine(s);
  }

  lemma CommitInLine(s: State, id: FlushId)
    requires LineOk(s)
    ensures LineOk(Next(s, Commit(id)))
  {
    hide Subsequence, Without, BatchOf;
    OneFlight(s.flights, id);
    assert InLine(Next(s, Commit(id))) == InLine(s);
  }

  lemma PutBackInLine(s: State, id: FlushId)
    requires LineOk(s)
    ensures LineOk(Next(s, PutBack(id)))
  {
    hide Subsequence, Without, BatchOf, Front, Beyond;
    OneFlight(s.flights, id);
    var (batch, after) := (BatchOf(s.flights, id), Next(s, PutBack(id)));
    SplitBatch(batch);
    if batch == [] {
      assert Front(batch) == [] && InLine(after) == s.stored + (Held(after) + s.buffer);
      SubsequenceMiddle(s.stored, Held(s), s.buffer, s.arrived);
      assert after.flights == s.flights || after.flights == [];
      assert s.stored + s.buffer == s.stored + ([] + s.buffer);
      assert InLine(after) == InLine(s) || InLine(after) == s.stored + s.buffer;
    } else {
      assert InLine(s) == s.stored + Front(batch) + Beyond(batch) + s.buffer;
      SubsequenceMiddle(s.stored + Front(batch), Beyond(batch), s.buffer, s.arrived);
      assert InLine(after) == s.stored + Front(batch) + s.buffer;
    }
  }

  lemma OneFlight(flights: seq<Flight>, id: FlushId)
    requires |flights| <= 1
    ensures if flights != [] && flights[0].id == id then Without(flights, id) == [] && BatchOf(flights, id) == flights[0].batch
            else Without(flights, id) == flights && BatchOf(flights, id) == []
  {
    if flights != [] { assert flights[1..] == []; }
  }

  // Whoever flushes, as long as they take turns, and with samples arriving at any time: what is
  // stored, held and buffered is the arrivals in order with some left out, and it is all of them
  // exactly when nothing was dropped
  lemma {:induction false} InOrder(events: seq<Event>)
    requires Serial(events)
    ensures var s := After(events);
      && |s.flights| <= 1 && Subsequence(InLine(s), s.arrived)
      && (InLine(s) == s.arrived <==> s.dropped == [])
  {
    hide Subsequence, Next;
    assert LineOk(After([])) by { NothingYet(); }
    if events != [] {
      SerialInit(events);
      InOrder(events[..|events| - 1]);
      LineStep(After(events[..|events| - 1]), events[|events| - 1]);
    }
    var s := After(events);
    Counted(events);
    HeldSize(s.flights);
    SubsequenceLonger(InLine(s), s.arrived);
  }

  lemma NothingYet()
    ensures Subsequence(InLine(After([])), After([]).arrived)
  {
  }

  lemma HeldSize(flights: seq<Flight>)
    requires |flights| <= 1
    ensures Flying(flights) == if flights == [] then 0 else |flights[0].batch|
  {
    if flights != [] { assert flights[1..] == []; }
  }

  // ---------- Not taking turns ----------

  // A flush under way holds something
  lemma {:induction false} HeldIsFilled(events: seq<Event>, id: FlushId)
    requires Has(After(events).flights, id)
    ensures BatchOf(After(events).flights, id) != []
  {
    if events != [] {
      var (init, e) := (events[..|events| - 1], events[|events| - 1]);
      var s := After(init);
      AlwaysOneBatch(init);
      if Has(s.flights, id) { HeldIsFilled(init, id); }
      match e {
        case Append(_) =>
        case Take(other) =>
          if s.buffer != [] && !Has(s.flights, other) {
            if other == id { OwnBatch(s.flights, id, s.buffer); } else { OthersBatch(s.flights, other, id, s.buffer); }
          }
        case Commit(other) => if other == id { GivenUp(s.flights, id); } else { OthersBatch(s.flights, other, id, []); }
        case PutBack(other) => if other == id { GivenUp(s.flights, id); } else { OthersBatch(s.flights, other, id, []); }
      }
    }
  }

  lemma AfterMore(events: seq<Event>, e: Event)
    ensures After(events + [e]) == Next(After(events), e)
  {
    assert (events + [e])[..|events|] == events;
  }

  lemma CommitBoth(events: seq<Event>, a: FlushId, b: FlushId)
    requires a != b
    ensures var (s, t) := (After(events), After(events + [Commit(a), Commit(b)]));
      t.stored == s.stored + BatchOf(s.flights, a) + BatchOf(s.flights, b) && t.arrived == s.arrived
  {
    AfterMore(events, Commit(a));
    AfterMore(events + [Commit(a)], Commit(b));
    assert events + [Commit(a)] + [Commit(b)] == events + [Commit(a), Commit(b)];
    OthersBatch(After(events).flights, a, b, []);
  }

  // Two flushes under way can always finish in an order that stores the samples out of order
  lemma TwoFlushesOvertake(events: seq<Event>, a: FlushId, b: FlushId)
    requires var s := After(events); a != b && Has(s.flights, a) && Has(s.flights, b) && NoRepeats(s.arrived)
    ensures var (one, two) := (After(events + [Commit(a), Commit(b)]), After(events + [Commit(b), Commit(a)]));
      !Subsequence(one.stored, one.arrived) || !Subsequence(two.stored, two.arrived)
  {
    hide After, Subsequence;
    CommitBoth(events, a, b);
    CommitBoth(events, b, a);
    HeldIsFilled(events, a);
    HeldIsFilled(events, b);
    var s := After(events);
    NotBothOrders(s.stored, BatchOf(s.flights, a), BatchOf(s.flights, b), s.arrived);
  }

  // Every continuation in which flushes take turns again stores in order
  ghost predicate StaysInOrder(events: seq<Event>) {
    forall more :: SerialFrom(events + more, |events|) ==>
      Subsequence(After(events + more).stored, After(events + more).arrived)
  }

  // Taking the buffer endangers the order exactly when another flush is under way
  lemma TakeIsSafeIff(events: seq<Event>, id: FlushId)
    requires var s := After(events); Serial(events) && NoRepeats(s.arrived) && s.buffer != [] && !Has(s.flights, id)
    ensures StaysInOrder(events + [Take(id)]) <==> After(events).flights == []
  {
    hide After, StaysInOrder, Serial, NoRepeats, Has;
    if After(events).flights == [] { TakingTurns(events, id); } else { TakingAnyway(events, id); }
  }

  lemma TakingTurns(events: seq<Event>, id: FlushId)
    requires Serial(events) && After(events).flights == []
    ensures StaysInOrder(events + [Take(id)])
  {
    hide After, Subsequence, Serial, SerialFrom;
    var taken := events + [Take(id)];
    forall more | SerialFrom(taken + more, |taken|) ensures Subsequence(After(taken + more).stored, After(taken + more).arrived) {
      SerialJoin(events, id, more);
      InOrder(taken + more);
      var t := After(taken + more);
      assert InLine(t) == t.stored + (Held(t) + t.buffer);
      SubsequencePrefix(t.stored, Held(t) + t.buffer, t.arrived);
    }
  }

  lemma TakingAnyway(events: seq<Event>, id: FlushId)
    requires var s := After(events); NoRepeats(s.arrived) && s.buffer != [] && !Has(s.flights, id) && s.flights != []
    ensures !StaysInOrder(events + [Take(id)])
  {
    hide After, Subsequence, Has, SerialFrom, NoRepeats, Next;
    var (taken, other) := (events + [Take(id)], After(events).flights[0].id);
    AfterMore(events, Take(id));
    BothUnderWay(After(events), id, other);
    TwoFlushesOvertake(taken, other, id);
    CommitsTakeNothing(taken, other, id);
    CommitsTakeNothing(taken, id, other);
  }

  lemma BothUnderWay(s: State, id: FlushId, other: FlushId)
    requires s.flights != [] && s.flights[0].id == other && s.buffer != [] && !Has(s.flights, id)
    ensures id != other && Has(Next(s, Take(id)).flights, id) && Has(Next(s, Take(id)).flights, other)
    ensures Next(s, Take(id)).arrived == s.arrived
  {
    HasLast(s.flights, Flight(id, s.buffer));
  }

  lemma {:induction false} HasLast(flights: seq<Flight>, f: Flight)
    ensures Has(flights + [f], f.id)
  {
    if flights != [] {
      HasLast(flights[1..], f);
      assert (flights + [f])[1..] == flights[1..] + [f];
    }
  }

  lemma CommitsTakeNothing(events: seq<Event>, a: FlushId, b: FlushId)
    ensures SerialFrom(events + [Commit(a), Commit(b)], |events|)
  {
  }

  lemma SerialJoin(events: seq<Event>, id: FlushId, more: seq<Event>)
    requires Serial(events) && After(events).flights == [] && SerialFrom(events + [Take(id)] + more, |events| + 1)
    ensures Serial(events + [Take(id)] + more)
  {
    var all := events + [Take(id)] + more;
    forall k | 0 <= k < |all| && all[k].Take? ensures After(all[..k]).flights == [] {
      if k < |events| { assert all[..k] == events[..k] && all[k] == events[k]; }
      if k == |events| { assert all[..k] == events; }
    }
  }

  // Two flushes can overtake each other: the rows need not be stored in order of arrival
  lemma FlushesCanOvertake(x: Snapshot, y: Snapshot)
    ensures var s := After([Append(x), Take(0), Append(y), Take(1), Commit(1), Commit(0)]);
      s.arrived == [x, y] && s.stored == [y, x]
  {
    hide After, Has, BatchOf, Without;
    var es := [Append(x), Take(0), Append(y), Take(1), Commit(1), Commit(0)];
    forall k | 0 < k <= 6 ensures After(es[..k]) == Next(After(es[..k - 1]), es[k - 1]) {
      LastStep(es[..k]);
      assert es[..k][..k - 1] == es[..k - 1];
    }
    LastStep([]);
    var (f, g) := (Flight(0, [x]), Flight(1, [y]));
    TwoFlights(f, g);
    assert es[..0] == [] && es[..6] == es;
    assert After(es[..1]) == State([x], [], [], [x], []);
    assert After(es[..2]) == State([], [f], [], [x], []);
    assert After(es[..3]) == State([y], [f], [], [x, y], []);
    assert After(es[..4]) == State([], [f, g], [], [x, y], []);
    assert After(es[..5]) == State([], [f], [y], [x, y], []);
  }

  lemma TwoFlights(f: Flight, g: Flight)
    requires f.id == 0 && g.id == 1
    ensures !Has([], 0) && [] + [f] == [f] && !Has([f], 1) && [f] + [g] == [f, g]
    ensures BatchOf([f, g], 1) == g.batch && Without([f, g], 1) == [f]
    ensures BatchOf([f], 0) == f.batch && Without([f], 0) == []
  {
    assert [f][1..] == [] && [f, g][1..] == [g] && [g][1..] == [];
    assert Without([f, g], 1) == [f] + Without([g], 1);
  }

  // ---------- The collector as the only flusher ----------

  // The next event of a collector that has produced these events: a pass appends a sample, flushes
  // at once when that makes a thousand, and otherwise may
  predicate SoloNext(events: seq<Event>, e: Event) {
    var s := After(events);
    match e
    case Append(_) =>
      s.flights == [] && !(events != [] && events[|events| - 1].Append? && |s.buffer| >= KEPT)
    case Take(_) => s.flights == [] && events != [] && events[|events| - 1].Append?
    case Commit(id) => events != [] && events[|events| - 1] == Take(id)
    case PutBack(id) => events != [] && events[|events| - 1] == Take(id)
  }

  predicate Solo(events: seq<Event>) {
    events == [] || (Solo(events[..|events| - 1]) && SoloNext(events[..|events| - 1], events[|events| - 1]))
  }

  lemma {:induction false} SoloIsSerial(events: seq<Event>)
    requires Solo(events)
    ensures Serial(events)
  {
    if events != [] {
      var init := events[..|events| - 1];
      SoloIsSerial(init);
      forall k | 0 <= k < |events| && events[k].Take? ensures After(events[..k]).flights == [] {
        if k < |init| { assert events[..k] == init[..k] && events[k] == init[k]; }
      }
    }
  }

  // Buffered or held by the one flush
  function Waiting(s: State): seq<Snapshot> { if s.flights == [] then s.buffer else s.flights[0].batch }

  ghost predicate SoloOk(events: seq<Event>) {
    var s := After(events);
    && (if s.flights == [] then events == [] || !events[|events| - 1].Take?
        else |s.flights| == 1 && s.buffer == [] && s.flights[0].batch != []
             && events != [] && events[|events| - 1] == Take(s.flights[0].id))
    && |Waiting(s)| <= KEPT + 1
    && (|Waiting(s)| == KEPT + 1 ==> events != [] && (events[|events| - 1].Append? || events[|events| - 1].Take?))
    && (events != [] && events[|events| - 1].Append? ==> s.buffer != [])
  }

  lemma {:induction false} SoloKeeps(events: seq<Event>)
    requires Solo(events)
    ensures SoloOk(events)
  {
    if events != [] {
      var (init, e) := (events[..|events| - 1], events[|events| - 1]);
      SoloKeeps(init);
      if e.Commit? || e.PutBack? { SoloFlight(init, e.id); }
    }
  }

  // The flush that took last is the only one under way
  lemma SoloFlight(init: seq<Event>, id: FlushId)
    requires SoloOk(init) && init != [] && init[|init| - 1] == Take(id)
    ensures var f := After(init).flights; |f| == 1 && f[0].id == id && BatchOf(f, id) == f[0].batch && Without(f, id) == []
  {
  }

  // With the collector as the only flusher the buffer never exceeds 1001 samples, and holds at most
  // 1000 after a flush; what is stored, followed by what waits, is the arrivals in order with some
  // left out, and it is all of them exactly when nothing was dropped
  lemma SoloFlow(events: seq<Event>)
    requires Solo(events)
    ensures var s := After(events);
      && |s.buffer| <= KEPT + 1
      && (events != [] && (events[|events| - 1].Commit? || events[|events| - 1].PutBack?) ==> |s.buffer| <= KEPT)
      && Subsequence(s.stored + Waiting(s), s.arrived)
      && (s.stored + Waiting(s) == s.arrived <==> s.dropped == [])
  {
    hide Subsequence;
    SoloKeeps(events);
    SoloIsSerial(events);
    InOrder(events);
    var s := After(events);
    assert InLine(s) == s.stored + Waiting(s);
  }

  // The rows of a failing batch that are dropped are the newest: in an outage with a full buffer
  // every pass gives up the sample it has just taken and keeps the thousand oldest
  lemma OutageKeepsOldest(events: seq<Event>, row: Snapshot, id: FlushId)
    requires After(events).flights == [] && |After(events).buffer| == KEPT
    ensures var (s, s') := (After(events), After(events + [Append(row), Take(id), PutBack(id)]));
      s' == s.(arrived := s.arrived + [row], dropped := s.dropped + [row])
  {
    var all := events + [Append(row), Take(id), PutBack(id)];
    var n := |events|;
    assert all[..n + 2][..n + 1] == events + [Append(row)] && all[..n + 2] == all[..|all| - 1];
    assert (events + [Append(row)])[..n] == events;
    var s := After(events);
    var one := After(events + [Append(row)]);
    assert one.buffer == s.buffer + [row];
    var two := After(all[..n + 2]);
    assert two == one.(buffer := [], flights := [Flight(id, s.buffer + [row])]);
    assert (s.buffer + [row])[..KEPT] == s.buffer && (s.buffer + [row])[KEPT..] == [row];
    assert s.buffer + [] == s.buffer;
  }
}
