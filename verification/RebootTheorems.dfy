/**
  What every interleaving of reboot runs, cancels and staged settings keeps.
*/
module RebootTheorems {
  import opened Text
  import opened RebootMachine

  // The state after a list of events, from a fresh engine
  function After(events: seq<Event>): State { Exec(Init(), events) }

  lemma {:induction false} Reachable(events: seq<Event>)
    ensures Inv(After(events))
  {
    if events != [] {
      Reachable(events[..|events| - 1]);
      StepKeepsInv(After(events[..|events| - 1]), events[|events| - 1]);
    }
  }

  // In every interleaving at most one run is past the lock, and the phase shown is that run's own
  lemma AtMostOneActive(events: seq<Event>)
    ensures var s := After(events);
      && (forall a, b :: a in s.runs && b in s.runs && Inside(s.runs[a].pc) && Inside(s.runs[b].pc) ==> a == b)
      && (s.shared.life.phase != Idle ==>
            s.holder.Some? && s.holder.value in s.runs && PhaseAt(s.runs[s.holder.value].pc) == s.shared.life.phase)
      && (forall a :: a in s.runs && PhaseAt(s.runs[a].pc) != Idle ==> s.shared.life.phase == PhaseAt(s.runs[a].pc))
  {
    Reachable(events);
  }

  // ---------- The order of the phases ----------

  // The edges of a run that no exception ends
  predicate PhaseEdge(a: Phase, b: Phase) {
    match a
    case Idle => b == Countdown || b == Saving
    case Countdown => b == Saving || b == Idle
    case Saving => b == Maintenance
    case Maintenance => b == Probing
    case Probing => b == Idle
  }

  lemma PhaseOfFollows(a: Pc, b: Pc)
    requires Follows(a, b) && Inside(a)
    ensures PhaseAt(b) == PhaseAt(a) || PhaseEdge(PhaseAt(a), PhaseAt(b))
    ensures PhaseAt(a) == Countdown && PhaseAt(b) == Idle ==> a == CancelNotify
    ensures PhaseAt(a) == Idle && PhaseAt(b) == Saving ==> a == InstantNotify
  {
  }

  // A step changes the phase only along the diagram, or back to idle when an await raises; only the
  // run that holds the lock, or is just taking it, changes it; and the countdown falls back to idle
  // without an exception only in a run that was cancelled.
  lemma PhaseOrder(events: seq<Event>, e: Event)
    ensures var s, s' := After(events), Next(After(events), e);
      s'.shared.life.phase != s.shared.life.phase ==>
        && (if e.Resume? && e.outcome.Raised? then s'.shared.life.phase == Idle else PhaseEdge(s.shared.life.phase, s'.shared.life.phase))
        && ((e.Acquire? && s'.holder == Some(e.id)) || (e.Resume? && s.holder == Some(e.id)))
        && (s.shared.life.phase == Countdown && s'.shared.life.phase == Idle && e.Resume? && !e.outcome.Raised? ==>
              s.runs[e.id].cancelled)
  {
    Reachable(events);
    var s := After(events);
    if e.Resume? && e.id in s.runs && Inside(s.runs[e.id].pc) {
      var run := s.runs[e.id];
      ResumedOk(s.shared, run, e.outcome);
      RangeOf(run);
      NextPcFollows(s.shared.cancelSet, run, e.outcome);
      if !e.outcome.Raised? {
        PhaseOfFollows(run.pc, NextPc(s.shared.cancelSet, run.params, run.pc, e.outcome));
      }
    } else if e.Acquire? && CanAcquire(s, e.id) {
      AcquiredOk(s.shared, s.runs[e.id]);
    }
  }

  // ---------- Cancelling ----------

  // A cancel event reached the countdown of run id
  predicate CancelsAt(events: seq<Event>, k: nat, id: RunId)
    requires k < |events|
  {
    var s := After(events[..k]);
    events[k].Cancel? && s.shared.life.phase == Countdown && s.holder == Some(id)
  }

  // A step marks a run as cancelled only when it is a cancel accepted during that run's countdown
  lemma MarkedByStep(s: State, e: Event, id: RunId)
    requires Inv(s) && id in Next(s, e).runs
    ensures Next(s, e).runs[id].cancelled <==>
      (id in s.runs && s.runs[id].cancelled) || (e.Cancel? && s.shared.life.phase == Countdown && s.holder == Some(id))
    ensures id in s.runs ==> Next(s, e).runs[id].params == s.runs[id].params
  {
    if e.Start? && id !in s.runs { assert !Next(s, e).runs[id].cancelled; }
  }

  lemma {:induction false} CancelledIff(events: seq<Event>, id: RunId)
    requires id in After(events).runs
    ensures After(events).runs[id].cancelled <==> exists k :: 0 <= k < |events| && CancelsAt(events, k, id)
  {
    if events != [] {
      var n := |events| - 1;
      var before := events[..n];
      assert CancelsAt(events, n, id) <==>
        events[n].Cancel? && After(before).shared.life.phase == Countdown && After(before).holder == Some(id);
      Reachable(before);
      MarkedByStep(After(before), events[n], id);
      forall k | 0 <= k < n ensures CancelsAt(events, k, id) <==> CancelsAt(before, k, id) {
        assert events[..k] == before[..k];
      }
      if id in After(before).runs {
        CancelledIff(before, id);
        if After(before).runs[id].cancelled {
          var k :| 0 <= k < n && CancelsAt(before, k, id);
          assert CancelsAt(events, k, id);
        }
      } else {
        NotYetCancelled(before, id);
      }
    }
  }

  lemma {:induction false} NotYetCancelled(events: seq<Event>, id: RunId)
    requires id !in After(events).runs
    ensures forall k :: 0 <= k < |events| ==> !CancelsAt(events, k, id)
  {
    if events != [] {
      var n := |events| - 1;
      Reachable(events[..n]);
      NotYetCancelled(events[..n], id);
      forall k | 0 <= k < n ensures !CancelsAt(events, k, id) {
        assert events[..k] == events[..n][..k];
        assert !CancelsAt(events[..n], k, id);
      }
    }
  }

  // The fate of a run that ends without an exception: it restarts the server exactly when no cancel
  // was accepted during its own countdown, and otherwise has neither saved nor restarted and has
  // cleared the update flags. A cancel that hit another run's countdown does not count.
  lemma FateOfRun(events: seq<Event>, id: RunId)
    requires var s := After(events); id in s.runs && Over(s.runs[id].pc) && !s.runs[id].raised
    ensures var run := After(events).runs[id];
      var hit := exists k :: 0 <= k < |events| && CancelsAt(events, k, id);
      && (run.restarted <==> !hit) && (run.saved <==> !hit) && (run.cleared <==> hit)
  {
    Reachable(events);
    CancelledIff(events, id);
  }

  // Whatever happens after an accepted cancel, exceptions included, that run never saves or restarts
  lemma CancelledRunNeverRestarts(events: seq<Event>, k: nat, id: RunId)
    requires k < |events| && CancelsAt(events, k, id)
    ensures var s := After(events); id in s.runs && !s.runs[id].saved && !s.runs[id].restarted
  {
    Reachable(events);
    if id !in After(events).runs { NotYetCancelled(events, id); }
    CancelledIff(events, id);
  }

  // A cancel outside the countdown changes nothing at all; one inside changes the event, the reason
  // and the mark on the running countdown, and nothing else.
  lemma CancelEffect(events: seq<Event>, reason: string)
    ensures var s, s' := After(events), Next(After(events), Cancel(reason));
      if s.shared.life.phase != Countdown then s' == s
      else
        && s.holder.Some? && s.holder.value in s.runs
        && s'.shared == s.shared.(cancelSet := true, reason := reason) && s'.holder == s.holder
        && s'.runs == s.runs[s.holder.value := s.runs[s.holder.value].(cancelled := true)]
  {
    Reachable(events);
  }

  // ---------- Every run ends ----------

  // An upper bound on the steps a run suspended at pc still takes
  function Rank(p: Params, pc: Pc): nat {
    match pc
    case WaitLock => 4 * Seconds(p) + 200
    case StartWs => 4 * Seconds(p) + 197
    case TickBroadcast(r) => 4 * r + 196
    case TickNotify(r) => 4 * r + 195
    case TickWs(r) => 4 * r + 194
    case TickWait(r) => 4 * r + 193
    case CancelBroadcast => 3
    case CancelNotify => 2
    case InstantBroadcast => 198
    case InstantNotify => 197
    case SaveWs => 196
    case SaveBroadcast => 195
    case SaveWorld => 194
    case SaveSleep => 193
    case MaintWs => 192
    case MaintRestart => 191
    case MaintSleep => 190
    case ProbeWs => 189
    case ProbeCheck(i) => if i < PROBES then 2 * (PROBES - i) + 3 else 3
    case ProbeSleep(i) => if i < PROBES then 2 * (PROBES - i) + 2 else 2
    case ProbeNotify => 2
    case FinalWs => 1
    case Done => 0
  }

  lemma FollowsRank(p: Params, a: Pc, b: Pc)
    requires InRange(p, a) && InRange(p, b) && Follows(a, b) && Inside(a)
    ensures Rank(p, b) < Rank(p, a)
  {
  }

  lemma FinalRank(p: Params, a: Pc)
    requires Inside(a) && a != FinalWs
    ensures Rank(p, FinalWs) < Rank(p, a)
  {
  }

  lemma ResumedRank(sh: Shared, run: Run, outcome: Outcome)
    requires RunOk(run) && Inside(run.pc)
    ensures var run' := Resumed(sh, run, outcome).1;
      run'.params == run.params && Rank(run.params, run'.pc) < Rank(run.params, run.pc)
  {
    hide Rank, NextPc, InRange;
    RangeOf(run);
    var next := NextPc(sh.cancelSet, run.params, run.pc, outcome);
    NextPcFollows(sh.cancelSet, run, outcome);
    FollowsRank(run.params, run.pc, next);
    if run.pc != FinalWs { FinalRank(run.params, run.pc); }
  }

  // Event e moves run id from one await to another
  predicate Moves(s: State, e: Event, id: RunId) {
    id in s.runs && id in Next(s, e).runs && Next(s, e).runs[id].pc != s.runs[id].pc
  }

  lemma StepRank(s: State, e: Event, id: RunId)
    requires Inv(s) && id in s.runs
    ensures var s' := Next(s, e); id in s'.runs && s'.runs[id].params == s.runs[id].params
    ensures var p, pc, pc' := s.runs[id].params, s.runs[id].pc, Next(s, e).runs[id].pc;
      if Moves(s, e, id) then Rank(p, pc') < Rank(p, pc) else pc' == pc
  {
    hide RunOk, Resumed, Rank;
    if e.Resume? && e.id == id {
      if Inside(s.runs[id].pc) {
        ResumedRank(s.shared, s.runs[id], e.outcome);
      } else {
        WaitRank(s.runs[id].params);
      }
    } else if e == Acquire(id) {
      WaitRank(s.runs[id].params);
    }
  }

  lemma WaitRank(p: Params)
    ensures Rank(p, StartWs) < Rank(p, WaitLock) && Rank(p, InstantBroadcast) < Rank(p, WaitLock)
    ensures Rank(p, Done) < Rank(p, WaitLock)
  {
  }

  // How many of the events moved run id
  function Steps(events: seq<Event>, id: RunId): nat {
    if events == [] then 0
    else
      var n := |events| - 1;
      Steps(events[..n], id) + if Moves(After(events[..n]), events[n], id) then 1 else 0
  }

  function Bound(p: Params): nat { 4 * Seconds(p) + 2 * PROBES + 20 }

  // Every run takes at most four steps for each second of its countdown, two for each of the ninety
  // probes and twenty more, in any interleaving; with that many steps taken it is done.
  lemma {:induction false} StepsBounded(events: seq<Event>, id: RunId)
    ensures var s := After(events);
      if id in s.runs then Steps(events, id) + Rank(s.runs[id].params, s.runs[id].pc) <= Bound(s.runs[id].params)
      else Steps(events, id) == 0
  {
    if events != [] {
      var n := |events| - 1;
      StepsBounded(events[..n], id);
      Reachable(events[..n]);
      if id in After(events[..n]).runs { StepRank(After(events[..n]), events[n], id); }
    }
  }

  lemma DoneInBound(events: seq<Event>, id: RunId)
    requires id in After(events).runs && Steps(events, id) >= Bound(After(events).runs[id].params)
    ensures After(events).runs[id].pc == Done
  {
    hide Rank;
    StepsBounded(events, id);
    RankZero(After(events).runs[id].params, After(events).runs[id].pc);
  }

  lemma RankZero(p: Params, pc: Pc)
    ensures Rank(p, pc) == 0 ==> pc == Done
  {
  }

  // Nothing blocks: the run that holds the lock can always be resumed, and when nobody holds it
  // every waiting run can take it; once no run is inside, the engine is idle.
  lemma NeverStuck(events: seq<Event>, id: RunId, outcome: Outcome)
    requires id in After(events).runs
    ensures var s := After(events);
      && (s.holder == Some(id) ==> Moves(s, Resume(id, outcome), id))
      && (s.holder.None? && s.runs[id].pc == WaitLock ==> Moves(s, Acquire(id), id))
      && (s.holder.None? ==> AtRest(s.shared))
  {
    Reachable(events);
    var s := After(events);
    if s.holder == Some(id) { ResumedRank(s.shared, s.runs[id], outcome); }
  }
}
