/**
  The reboot coroutine in its own form (app/engine/service.py:555-802): sequential code that gives
  way at each await, where any number of cancels, staged settings and other runs may step in. Every
  execution is proved to be a run of the step machine, so the machine's theorems hold of it.
*/
module PalEngine {
  import opened Text
  import opened RebootMachine
  import opened RebootTheorems

  // The three candidate paths of an update flag
  const FLAG_PATHS: set<nat> := {0, 1, 2}

  class PalEngine {
    var lifecycle: Lifecycle
    // _cancel_state
    var cancelEvent: bool
    var cancelReason: string
    // _staged_ini, the holder of _lifecycle_lock, and the candidate paths that hold an update flag
    var stagedIni: Option<string>
    var lockHolder: Option<RunId>
    var updateFlags: set<nat>
    // lock_file exists; nothing here depends on it
    var lockFile: bool
    // everything that has happened, and the machine after the same events
    ghost var taken: set<nat>  // the flags that others have removed
    ghost var events: seq<Event>
    ghost var machine: State

    ghost function SharedNow(): Shared
      reads this`lifecycle, this`cancelEvent, this`cancelReason, this`stagedIni
    {
      Shared(lifecycle, cancelEvent, cancelReason, stagedIni)
    }

    // No flag has appeared, and every flag that has gone was removed by others
    ghost predicate FlagsSince(before: set<nat>, takenBefore: set<nat>)
      reads this`updateFlags, this`taken
    {
      updateFlags <= before <= updateFlags + taken && takenBefore <= taken
    }

    // Between two events the engine is where the machine is
    ghost predicate Valid()
      reads this`machine, this`events, this`lockHolder, this`lifecycle, this`cancelEvent, this`cancelReason, this`stagedIni
    {
      machine == After(events) && lockHolder == machine.holder && SharedNow() == machine.shared
    }

    // Run me is at work: the lock is its own. The machine still stands at its last await.
    ghost predicate Mine(me: RunId)
      reads this`machine, this`events, this`lockHolder
    {
      && machine == After(events) && lockHolder == machine.holder == Some(me)
      && me in machine.runs && Inside(machine.runs[me].pc)
    }

    // The code since the last await is the machine's step from there to next
    ghost predicate Does(me: RunId, outcome: Outcome, next: Pc, sh: Shared)
      reads this`machine, this`events, this`lockHolder
    {
      && Mine(me)
      && var run := machine.runs[me];
      && next == (if Fails(run.pc, outcome) then FinalWs else NextPc(machine.shared.cancelSet, run.params, run.pc, outcome))
      && sh == NextShared(machine.shared, run.pc, next)
    }

    constructor ()
      ensures Valid() && events == [] && lockHolder.None?
    {
      lifecycle := IDLE;
      cancelEvent, cancelReason, stagedIni, lockHolder, updateFlags, lockFile := false, "", None, None, {}, false;
      taken, events, machine := {}, [], Init();
    }

    ghost method Record(e: Event)
      requires machine == After(events)
      modifies this`events, this`machine
      ensures events == old(events) + [e] && machine == Next(old(machine), e) && machine == After(events)
    {
      Appended(events, e);
      events, machine := events + [e], Next(machine, e);
    }

    method CancelCountdown(reason: string) returns (dispatched: bool)
      requires Valid()
      modifies this
      ensures Valid() && events == old(events) + [Cancel(reason)] && machine == Next(old(machine), Cancel(reason))
      ensures dispatched == (old(lifecycle.phase) == Countdown) && FlagsSince(old(updateFlags), old(taken))
    {
      hide After;
      if lifecycle.phase != Countdown {
        dispatched := false;
      } else {
        cancelReason := reason;
        cancelEvent := true;
        dispatched := true;
      }
      Record(Cancel(reason));
    }

    method StageSettings(ini: string)
      requires Valid()
      modifies this
      ensures Valid() && events == old(events) + [Stage(ini)] && machine == Next(old(machine), Stage(ini))
      ensures FlagsSince(old(updateFlags), old(taken))
    {
      hide After;
      stagedIni := Some(ini);
      Record(Stage(ini));
    }

    // What may happen while run me is suspended: cancels, staged settings, other runs that arrive, fail
    // to get the lock, or are given up, and the restart hook that removes update flags
    method Interference(me: RunId)
      requires Valid() && lockHolder == Some(me) && me in machine.runs
      modifies this
      ensures Valid() && lockHolder == Some(me) && me in machine.runs && old(events) <= events
      ensures machine.runs[me] == old(machine).runs[me].(cancelled := machine.runs[me].cancelled)
      ensures lifecycle == old(lifecycle) && FlagsSince(old(updateFlags), old(taken))
    {
      hide After;
      var rounds: nat := *;
      while rounds > 0
        invariant Valid() && lockHolder == Some(me) && me in machine.runs && old(events) <= events
        invariant machine.runs[me] == old(machine).runs[me].(cancelled := machine.runs[me].cancelled)
        invariant lifecycle == old(lifecycle) && FlagsSince(old(updateFlags), old(taken))
      {
        var e: Event, hook: set<nat> := *, *;
        taken, updateFlags := taken + updateFlags * hook, updateFlags - hook;
        Environment(me, e);
        rounds := rounds - 1;
      }
    }

    method Environment(me: RunId, e: Event)
      requires Valid() && lockHolder == Some(me) && me in machine.runs
      modifies this
      ensures Valid() && lockHolder == Some(me) && me in machine.runs && old(events) <= events
      ensures machine.runs[me] == old(machine).runs[me].(cancelled := machine.runs[me].cancelled)
      ensures lifecycle == old(lifecycle) && FlagsSince(old(updateFlags), old(taken))
    {
      hide After;
      if e.Cancel? {
        var _ := CancelCountdown(e.reason);
      } else if e.Stage? {
        StageSettings(e.ini);
      } else if (e.Start? || e.Acquire? || e.Resume?) && e.id != me {
        OthersWait(events, me, e);
        Record(e);
      }
    }

    // await: the step ends here, others run, and then the await returns or raises
    method Await(me: RunId, ghost outcome: Outcome, ghost next: Pc) returns (raised: bool)
      requires Does(me, outcome, next, SharedNow()) && next != Done && next != WaitLock
      modifies this
      ensures Valid() && Mine(me) && old(events) <= events
      ensures lifecycle == old(lifecycle) && FlagsSince(old(updateFlags), old(taken))
      ensures machine.runs[me].pc == next && machine.runs[me].params == old(machine).runs[me].params
    {
      hide After, NextPc, NextShared, Next;
      StepTo(machine, me, outcome);
      Record(Resume(me, outcome));
      Interference(me);
      raised := *;
    }

    method RunCountdownLoop(me: RunId, p: Params) returns (raised: bool, completed: bool)
      requires Valid() && Mine(me) && machine.runs[me].pc == StartWs
      requires p.seconds > 0 && machine.runs[me].params == p
      modifies this
      ensures old(events) <= events && FlagsSince(old(updateFlags), old(taken)) && SharedNow() == machine.shared
      ensures Does(me, if raised then Raised else Returned,
                   if raised then FinalWs else if completed then SaveWs else CancelBroadcast,
                   if raised then IdleAgain(SharedNow()) else if completed then SavingNow() else SharedNow())
      ensures machine.runs[me].pc != FinalWs && machine.runs[me].params == old(machine).runs[me].params
    {
      hide After;
      var remaining: nat := p.seconds;
      completed, raised := false, false;
      while remaining > 0
        invariant Valid() && Mine(me) && old(events) <= events && FlagsSince(old(updateFlags), old(taken))
        invariant machine.runs[me].params == old(machine).runs[me].params
        invariant remaining <= p.seconds
        invariant if machine.runs[me].pc == StartWs then remaining == p.seconds
                  else machine.runs[me].pc == TickWait(remaining + 1) && !cancelEvent
      {
        if cancelEvent {
          return false, false;
        }
        raised := Tick(me, remaining, p);
        if raised {
          return true, false;
        }
        if cancelEvent {
          return false, false;
        }
        remaining := remaining - 1;
      }
      completed := true;
    }

    // One pass of the loop body, up to the end of its wait
    method Tick(me: RunId, remaining: nat, p: Params) returns (raised: bool)
      requires Valid() && Mine(me) && machine.runs[me].params == p
      requires 0 < remaining <= p.seconds && !cancelEvent
      requires if machine.runs[me].pc == StartWs then remaining == p.seconds
               else machine.runs[me].pc == TickWait(remaining + 1)
      modifies this
      ensures Valid() && Mine(me) && old(events) <= events && FlagsSince(old(updateFlags), old(taken))
      ensures machine.runs[me].params == old(machine).runs[me].params && machine.runs[me].pc != FinalWs
      ensures !raised ==> machine.runs[me].pc == TickWait(remaining)
    {
      hide After, NextPc, NextShared;
      raised := AnnounceIfDue(me, remaining, p);
      if raised { return; }
      raised := WaitASecond(me, remaining);
    }

    // The remaining seconds, and the announcement when one is due
    method AnnounceIfDue(me: RunId, remaining: nat, p: Params) returns (raised: bool)
      requires Valid() && Mine(me) && machine.runs[me].params == p
      requires 0 < remaining <= p.seconds && !cancelEvent
      requires if machine.runs[me].pc == StartWs then remaining == p.seconds
               else machine.runs[me].pc == TickWait(remaining + 1)
      modifies this
      ensures old(events) <= events && FlagsSince(old(updateFlags), old(taken))
      ensures if raised then Valid() && Mine(me) && machine.runs[me].pc != FinalWs
              else Does(me, Returned, TickWs(remaining), SharedNow())
      ensures machine.runs[me].params == p
    {
      hide After, Announced, Mirrored, PhaseAt;
      lifecycle := lifecycle.(remaining := remaining);
      raised := false;
      if Announced(remaining, p) {
        raised := Announce(me, remaining, p);
      }
    }

    // The update of the sockets, and the wait for the event
    method WaitASecond(me: RunId, remaining: nat) returns (raised: bool)
      requires Does(me, Returned, TickWs(remaining), SharedNow())
      modifies this
      ensures Valid() && Mine(me) && old(events) <= events && FlagsSince(old(updateFlags), old(taken))
      ensures machine.runs[me].params == old(machine).runs[me].params
      ensures machine.runs[me].pc == TickWait(remaining) || (raised && machine.runs[me].pc == TickWs(remaining))
    {
      hide After, NextPc, NextShared;
      raised := Await(me, Returned, TickWs(remaining));
      if raised { return; }
      // wait_for(event.wait(), 1.0): an event that is set ends the wait, otherwise it times out
      raised := Onward(me, TickWait(remaining));
    }

    method Announce(me: RunId, remaining: nat, p: Params) returns (raised: bool)
      requires Does(me, Returned, TickBroadcast(remaining), SharedNow()) && machine.runs[me].params == p
      modifies this
      ensures Valid() && Mine(me) && old(events) <= events && FlagsSince(old(updateFlags), old(taken))
      ensures machine.runs[me].params == p && machine.runs[me].pc != FinalWs
      ensures !raised ==> machine.runs[me].pc == if Mirrored(remaining, p) then TickNotify(remaining) else TickBroadcast(remaining)
    {
      hide After, Mirrored;
      raised := Await(me, Returned, TickBroadcast(remaining));
      if raised { return; }
      if Mirrored(remaining, p) {
        raised := Await(me, Returned, TickNotify(remaining));
      }
    }

    ghost function SavingNow(): Shared
      reads this`lifecycle, this`cancelEvent, this`cancelReason, this`stagedIni
    {
      SharedNow().(life := lifecycle.(phase := Saving))
    }

    // Where a coroutine enters the finally clause
    ghost predicate AtFinally(me: RunId, last: Outcome)
      reads this`machine, this`events, this`lockHolder, this`lifecycle, this`cancelEvent, this`cancelReason, this`stagedIni
    {
      Does(me, last, FinalWs, IdleAgain(SharedNow())) && machine.runs[me].pc != FinalWs
    }

    method RestartAndAwaitReadiness(me: RunId) returns (raised: bool, ghost last: Outcome)
      requires Does(me, Returned, SaveWs, SavingNow())
      modifies this
      ensures old(events) <= events && FlagsSince(old(updateFlags), old(taken)) && Mine(me) && AtFinally(me, last)
      ensures machine.runs[me].params == old(machine).runs[me].params && (last.Raised? <==> raised)
      ensures PhaseAt(machine.runs[me].pc) != Countdown
    {
      hide After;
      last := Raised;
      raised := SaveWorldState(me);
      if raised { return; }
      raised := RestartService(me);
      if raised { return; }
      raised, last := ProbeReadiness(me);
    }

    method SaveWorldState(me: RunId) returns (raised: bool)
      requires Does(me, Returned, SaveWs, SavingNow())
      modifies this
      ensures Valid() && Mine(me) && old(events) <= events && FlagsSince(old(updateFlags), old(taken))
      ensures machine.runs[me].params == old(machine).runs[me].params
      ensures PhaseAt(machine.runs[me].pc) == Saving && (!raised ==> machine.runs[me].pc == SaveSleep)
    {
      hide After, NextPc, NextShared;
      lifecycle := lifecycle.(phase := Saving);
      raised := Await(me, Returned, SaveWs);
      if raised { return; }
      raised := AnnounceSave(me);
    }

    method AnnounceSave(me: RunId) returns (raised: bool)
      requires Valid() && Mine(me) && machine.runs[me].pc == SaveWs
      modifies this
      ensures Valid() && Mine(me) && old(events) <= events && FlagsSince(old(updateFlags), old(taken))
      ensures machine.runs[me].params == old(machine).runs[me].params
      ensures PhaseAt(machine.runs[me].pc) == Saving && (!raised ==> machine.runs[me].pc == SaveSleep)
    {
      hide After, NextPc, NextShared;
      raised := Onward(me, SaveBroadcast);
      if raised { return; }
      raised := SaveAndSettle(me);
    }

    // The REST call that saves, and the pause behind it
    method SaveAndSettle(me: RunId) returns (raised: bool)
      requires Valid() && Mine(me) && machine.runs[me].pc == SaveBroadcast
      modifies this
      ensures Valid() && Mine(me) && old(events) <= events && FlagsSince(old(updateFlags), old(taken))
      ensures machine.runs[me].params == old(machine).runs[me].params
      ensures machine.runs[me].pc == SaveSleep || (raised && machine.runs[me].pc == SaveWorld)
    {
      hide After, NextPc, NextShared;
      raised := Onward(me, SaveWorld);
      if raised { return; }
      raised := Onward(me, SaveSleep);
    }

    // An await that nothing but the next await lies behind
    method Onward(me: RunId, ghost next: Pc) returns (raised: bool)
      requires Valid() && Mine(me) && Straight(machine.runs[me].pc, next)
      modifies this
      ensures Valid() && Mine(me) && old(events) <= events
      ensures lifecycle == old(lifecycle) && FlagsSince(old(updateFlags), old(taken))
      ensures machine.runs[me].pc == next && machine.runs[me].params == old(machine).runs[me].params
    {
      hide After, Next;
      raised := Await(me, Returned, next);
    }

    method RestartService(me: RunId) returns (raised: bool)
      requires Valid() && Mine(me) && machine.runs[me].pc == SaveSleep
      modifies this
      ensures Valid() && Mine(me) && old(events) <= events && FlagsSince(old(updateFlags), old(taken))
      ensures machine.runs[me].params == old(machine).runs[me].params
      ensures PhaseAt(machine.runs[me].pc) == Maintenance && (!raised ==> machine.runs[me].pc == MaintSleep)
    {
      hide After;
      lifecycle := lifecycle.(phase := Maintenance);
      raised := Await(me, Returned, MaintWs);
      if raised { return; }
      raised := WriteStagedAndRestart(me);
    }

    method WriteStagedAndRestart(me: RunId) returns (raised: bool)
      requires Valid() && Mine(me) && machine.runs[me].pc == MaintWs
      modifies this
      ensures Valid() && Mine(me) && old(events) <= events && FlagsSince(old(updateFlags), old(taken))
      ensures machine.runs[me].params == old(machine).runs[me].params
      ensures machine.runs[me].pc == MaintSleep || (raised && machine.runs[me].pc == MaintRestart)
    {
      hide After;
      // the staged configuration is written out before the restart
      if stagedIni.Some? {
        stagedIni := None;
      }
      raised := Await(me, Returned, MaintRestart);
      if raised { return; }
      raised := Onward(me, MaintSleep);
    }

    method ProbeReadiness(me: RunId) returns (raised: bool, ghost last: Outcome)
      requires Valid() && Mine(me) && machine.runs[me].pc == MaintSleep
      modifies this
      ensures old(events) <= events && FlagsSince(old(updateFlags), old(taken)) && AtFinally(me, last)
      ensures machine.runs[me].params == old(machine).runs[me].params && (last.Raised? <==> raised)
      ensures PhaseAt(machine.runs[me].pc) != Countdown
    {
      hide After, NextPc, NextShared, Does;
      raised := EnterProbing(me);
      if !raised {
        raised := ProbeLoop(me);
      }
      last := if raised then Raised else Returned;
    }

    method EnterProbing(me: RunId) returns (raised: bool)
      requires Valid() && Mine(me) && machine.runs[me].pc == MaintSleep
      modifies this
      ensures Valid() && Mine(me) && old(events) <= events && FlagsSince(old(updateFlags), old(taken))
      ensures machine.runs[me].params == old(machine).runs[me].params && machine.runs[me].pc == ProbeWs
      ensures raised ==> AtFinally(me, Raised)
    {
      hide After;
      lifecycle := lifecycle.(phase := Probing);
      raised := Await(me, Returned, ProbeWs);
    }

    // At most ninety checks
    method ProbeLoop(me: RunId) returns (raised: bool)
      requires Valid() && Mine(me) && machine.runs[me].pc == ProbeWs
      modifies this
      ensures Valid() && Mine(me) && old(events) <= events && FlagsSince(old(updateFlags), old(taken))
      ensures machine.runs[me].params == old(machine).runs[me].params && PhaseAt(machine.runs[me].pc) == Probing
      ensures AtFinally(me, if raised then Raised else Returned)
    {
      hide After, Next;
      for i := 0 to PROBES
        invariant Valid() && Mine(me) && old(events) <= events && FlagsSince(old(updateFlags), old(taken))
        invariant machine.runs[me].params == old(machine).runs[me].params
        invariant machine.runs[me].pc == if i == 0 then ProbeWs else ProbeSleep(i - 1)
      {
        var restored: bool;
        raised, restored := Probe(me, i);
        if raised || restored { return; }
      }
      raised := false;
    }

    // One readiness check, and the notice or the pause behind it
    method Probe(me: RunId, i: nat) returns (raised: bool, restored: bool)
      requires Valid() && Mine(me) && i < PROBES
      requires machine.runs[me].pc == if i == 0 then ProbeWs else ProbeSleep(i - 1)
      modifies this
      ensures Valid() && Mine(me) && old(events) <= events && FlagsSince(old(updateFlags), old(taken))
      ensures machine.runs[me].params == old(machine).runs[me].params && PhaseAt(machine.runs[me].pc) == Probing
      ensures !raised ==> machine.runs[me].pc == if restored then ProbeNotify else ProbeSleep(i)
    {
      hide After;
      restored := false;
      raised := Await(me, Returned, ProbeCheck(i));
      if raised { return; }
      restored := *;
      raised := Await(me, Ready(restored), if restored then ProbeNotify else ProbeSleep(i));
    }

    method AnnounceCancellation(me: RunId) returns (raised: bool)
      requires Does(me, Returned, CancelBroadcast, SharedNow())
      modifies this
      ensures Valid() && Mine(me) && old(events) <= events && FlagsSince(old(updateFlags), old(taken))
      ensures machine.runs[me].params == old(machine).runs[me].params
      ensures Cancelling(machine.runs[me].pc) && (!raised ==> machine.runs[me].pc == CancelNotify)
    {
      hide After;
      raised := Await(me, Returned, CancelBroadcast);
      if raised { return; }
      raised := Onward(me, CancelNotify);
    }

    // _release_reboot_lock: an unlink that fails is swallowed
    method ReleaseRebootLock(unlinkOk: bool)
      modifies this`lifecycle, this`lockFile
      ensures lifecycle == IDLE && lockFile == (old(lockFile) && !unlinkOk)
    {
      if lockFile && unlinkOk {
        lockFile := false;
      }
      lifecycle := IDLE;
    }

    // _check_and_acquire_lock, before the lifecycle lock is asked for. The age of the file is None when
    // it cannot be inspected. A file of at most 900 seconds is no reason to refuse, so two runs can both
    // have passed.
    method CheckAndAcquireLock(age: Option<int>, unlinkOk: bool, touchOk: bool) returns (raised: bool)
      modifies this`lockFile
      ensures raised <==> (old(lockFile) && (age.None? || (age.value > 900 && !unlinkOk))) || !touchOk
      ensures !raised ==> lockFile
      ensures old(lockFile) && age.Some? && age.value <= 900 && touchOk ==> !raised
    {
      if lockFile {
        if age.None? {
          return true;
        }
        if age.value > 900 {
          if !unlinkOk {
            return true;
          }
          lockFile := false;
        }
      }
      if !touchOk {
        return true;
      }
      lockFile := true;
      raised := false;
    }

    // The lock has been taken, and the code up to the first await is the machine's acquiring step
    method FirstAwait(me: RunId, countdownSeconds: int, triggerUpdate: bool) returns (raised: bool)
      requires machine == After(events) && CanAcquire(machine, me) && AtRest(machine.shared)
      requires machine.runs[me].params == Params(countdownSeconds, triggerUpdate)
      requires lockHolder == Some(me) && SharedNow() == machine.shared.(cancelSet := false, reason := "")
      modifies this
      ensures Valid() && Mine(me) && old(events) <= events && FlagsSince(old(updateFlags), old(taken))
      ensures machine.runs[me].params == old(machine).runs[me].params
      ensures raised ==> AtFinally(me, Raised)
      ensures machine.runs[me].pc == if countdownSeconds > 0 then StartWs else InstantBroadcast
    {
      hide After, NextPc, Next;
      EnterCountdown(me, countdownSeconds, triggerUpdate);
      Interference(me);
      raised := *;
    }

    method EnterCountdown(me: RunId, countdownSeconds: int, triggerUpdate: bool)
      requires machine == After(events) && CanAcquire(machine, me) && AtRest(machine.shared)
      requires machine.runs[me].params == Params(countdownSeconds, triggerUpdate)
      requires lockHolder == Some(me) && SharedNow() == machine.shared.(cancelSet := false, reason := "")
      modifies this
      ensures Valid() && lockHolder == Some(me) && me in machine.runs && old(events) <= events && FlagsSince(old(updateFlags), old(taken))
      ensures machine.runs[me].params == old(machine).runs[me].params
      ensures machine.runs[me].pc == if countdownSeconds > 0 then StartWs else InstantBroadcast
    {
      hide After;
      if countdownSeconds > 0 {
        lifecycle := Lifecycle(Countdown, countdownSeconds, countdownSeconds, triggerUpdate);
      }
      Record(Acquire(me));
    }

    method AnnounceInstant(me: RunId) returns (raised: bool)
      requires Valid() && Mine(me) && machine.runs[me].pc == InstantBroadcast
      modifies this
      ensures old(events) <= events && FlagsSince(old(updateFlags), old(taken)) && Mine(me)
      ensures machine.runs[me].params == old(machine).runs[me].params
      ensures if raised then AtFinally(me, Raised) else Does(me, Returned, SaveWs, SavingNow())
      ensures machine.runs[me].pc != CancelNotify
    {
      hide After;
      raised := Onward(me, InstantNotify);
    }

    // The countdown, and the announcement when it was cancelled
    method CountDown(me: RunId, p: Params) returns (raised: bool, completed: bool)
      requires Valid() && Mine(me) && machine.runs[me].pc == StartWs
      requires p.seconds > 0 && machine.runs[me].params == p
      modifies this
      ensures old(events) <= events && FlagsSince(old(updateFlags), old(taken)) && Mine(me)
      ensures if completed then !raised && Does(me, Returned, SaveWs, SavingNow())
              else AtFinally(me, if raised then Raised else Returned) && (!raised ==> machine.runs[me].pc == CancelNotify)
      ensures machine.runs[me].params == p
    {
      hide After;
      raised, completed := RunCountdownLoop(me, p);
      if !raised && !completed {
        raised := AnnounceCancellation(me);
      }
      completed := completed && !raised;
    }

    // _set_update_flags: a path that cannot be written is passed over
    method SetUpdateFlags(writable: set<nat>)
      modifies this`updateFlags
      ensures updateFlags == old(updateFlags) + FLAG_PATHS * writable
    {
      for path := 0 to 3
        invariant updateFlags == old(updateFlags) + (set p | p in FLAG_PATHS * writable && p < path)
      {
        if path in writable {
          updateFlags := updateFlags + {path};
        }
      }
    }

    // _clear_update_flags: a path that cannot be emptied and removed is passed over
    method ClearUpdateFlags(removable: set<nat>)
      modifies this`updateFlags
      ensures updateFlags == old(updateFlags) - FLAG_PATHS * removable
    {
      for path := 0 to 3
        invariant updateFlags == old(updateFlags) - (set p | p in FLAG_PATHS * removable && p < path)
      {
        if path in updateFlags && path in removable {
          updateFlags := updateFlags - {path};
        }
      }
    }

    // What this run sets
    ghost function Wanted(triggerUpdate: bool, writable: set<nat>): set<nat> {
      if triggerUpdate then FLAG_PATHS * writable else {}
    }

    // The body of the try statement, up to where the finally clause takes over
    method TryBody(me: RunId, countdownSeconds: int, triggerUpdate: bool, writable: set<nat>, removable: set<nat>)
      returns (raised: bool, ghost last: Outcome)
      requires machine == After(events) && CanAcquire(machine, me) && AtRest(machine.shared)
      requires machine.runs[me].params == Params(countdownSeconds, triggerUpdate)
      requires lockHolder == Some(me) && SharedNow() == machine.shared.(cancelSet := false, reason := "")
      modifies this
      ensures old(events) <= events && Mine(me) && AtFinally(me, last) && (last.Raised? <==> raised)
      ensures machine.runs[me].params == old(machine).runs[me].params && old(taken) <= taken
      // the flags: cleared where the cancelling branch was taken to its end, and only there
      ensures var all := old(updateFlags) + Wanted(triggerUpdate, writable);
        var removed := if !raised && machine.runs[me].pc == CancelNotify then FLAG_PATHS * removable else {};
        updateFlags !! removed && updateFlags <= all <= updateFlags + taken + removed
    {
      hide After, NextPc, NextShared, Does, AtFinally;
      last := Raised;
      if triggerUpdate {
        SetUpdateFlags(writable);
      }
      raised := FirstAwait(me, countdownSeconds, triggerUpdate);
      if raised { return; }
      if countdownSeconds > 0 {
        var completed: bool;
        raised, completed := CountDown(me, Params(countdownSeconds, triggerUpdate));
        if raised { return; }
        if !completed {
          ClearUpdateFlags(removable);
          last := Returned;
          return;
        }
      } else {
        raised := AnnounceInstant(me);
        if raised { return; }
      }
      raised, last := RestartAndAwaitReadiness(me);
    }

    // The coroutine from the moment it gets the lock. It always terminates, gives the lock back and
    // leaves the engine idle; everything in between is a run of the machine. Unless an exception ended
    // it, it has restarted the server exactly when no cancel hit its own countdown, and has tried to
    // clear the update flags exactly when one did: then those that can be removed are gone. A flag that
    // was there or that it set is otherwise still there, unless others have removed it.
    method ExecuteCountdownAndReboot(me: RunId, countdownSeconds: int, triggerUpdate: bool,
                                     writable: set<nat>, removable: set<nat>)
      requires Valid() && CanAcquire(machine, me)
      requires machine.runs[me].params == Params(countdownSeconds, triggerUpdate)
      modifies this
      ensures Valid() && old(events) <= events
      ensures lockHolder.None? && lifecycle == IDLE
      ensures me in machine.runs && machine.runs[me].pc == Done
      ensures updateFlags <= old(updateFlags) + Wanted(triggerUpdate, writable)
      ensures !machine.runs[me].raised ==>
        var hit := exists k :: 0 <= k < |events| && CancelsAt(events, k, me);
        var removed := if hit then FLAG_PATHS * removable else {};
        && (machine.runs[me].restarted <==> !hit) && (machine.runs[me].cleared <==> hit)
        && updateFlags !! removed && old(updateFlags) + Wanted(triggerUpdate, writable) <= updateFlags + taken + removed
    {
      hide After, NextPc, NextShared;
      RestAt(events);
      lockHolder := Some(me);
      cancelEvent := false;
      cancelReason := "";
      TryFinally(me, countdownSeconds, triggerUpdate, writable, removable);
      if !machine.runs[me].raised { Fate(events, me); }
    }

    // The try statement with its finally clause, and the lock given back
    method TryFinally(me: RunId, countdownSeconds: int, triggerUpdate: bool, writable: set<nat>, removable: set<nat>)
      requires machine == After(events) && CanAcquire(machine, me) && AtRest(machine.shared)
      requires machine.runs[me].params == Params(countdownSeconds, triggerUpdate)
      requires lockHolder == Some(me) && SharedNow() == machine.shared.(cancelSet := false, reason := "")
      modifies this
      ensures Valid() && old(events) <= events && lockHolder.None? && lifecycle == IDLE
      ensures me in machine.runs && machine.runs[me].pc == Done
      ensures var all := old(updateFlags) + Wanted(triggerUpdate, writable);
        var removed := if machine.runs[me].cleared then FLAG_PATHS * removable else {};
        updateFlags !! removed && updateFlags <= all <= updateFlags + taken + removed
    {
      hide After, NextPc, NextShared, Does, AtFinally;
      var raised; ghost var last: Outcome;
      raised, last := TryBody(me, countdownSeconds, triggerUpdate, writable, removable);
      NothingYetCleared(me, last);
      Finally(me, last);
    }

    lemma NothingYetCleared(me: RunId, last: Outcome)
      requires AtFinally(me, last)
      ensures !machine.runs[me].cleared && !machine.runs[me].raised
    {
      hide After, NextPc, NextShared;
      NothingCleared(events, me);
    }

    // The finally clause, and the lock given back
    method Finally(me: RunId, ghost last: Outcome)
      requires AtFinally(me, last) && Mine(me)
      modifies this
      ensures Valid() && lockHolder.None? && lifecycle == IDLE && FlagsSince(old(updateFlags), old(taken))
      ensures old(events) <= events && me in machine.runs && machine.runs[me].pc == Done
      ensures machine.runs[me].cleared == (old(machine).runs[me].cleared || (old(machine).runs[me].pc == CancelNotify && !last.Raised?))
      ensures machine.runs[me].raised == (old(machine).runs[me].raised || last.Raised?)
    {
      hide After, NextPc, NextShared;
      var unlinkOk: bool := *;
      ReleaseRebootLock(unlinkOk);
      var raised := FinalAwait(me, last);
      LeaveLock(me);
    }

    method LeaveLock(me: RunId)
      requires Valid() && Mine(me) && machine.runs[me].pc == FinalWs
      modifies this
      ensures Valid() && lockHolder.None? && lifecycle == old(lifecycle) && FlagsSince(old(updateFlags), old(taken))
      ensures old(events) <= events && me in machine.runs && machine.runs[me].pc == Done
      ensures machine.runs[me].cleared == old(machine).runs[me].cleared && machine.runs[me].raised == old(machine).runs[me].raised
    {
      hide After, Next;
      lockHolder := None;
      StepTo(machine, me, Returned);
      Record(Resume(me, Returned));
    }

    // The await of the finally clause, and what the step before it leaves in the run's record
    method FinalAwait(me: RunId, ghost last: Outcome) returns (raised: bool)
      requires Does(me, last, FinalWs, SharedNow()) && machine.runs[me].pc != FinalWs
      modifies this
      ensures Valid() && Mine(me) && old(events) <= events
      ensures lifecycle == old(lifecycle) && FlagsSince(old(updateFlags), old(taken))
      ensures machine.runs[me].pc == FinalWs && machine.runs[me].params == old(machine).runs[me].params
      ensures machine.runs[me].cleared == (old(machine).runs[me].cleared || (old(machine).runs[me].pc == CancelNotify && !last.Raised?))
      ensures machine.runs[me].raised == (old(machine).runs[me].raised || last.Raised?)
    {
      hide After, NextPc, NextShared, Next;
      StepTo(machine, me, last);
      Record(Resume(me, last));
      Interference(me);
      raised := *;
    }
  }

  // The code between these two awaits changes nothing and has no choice
  predicate Straight(a: Pc, b: Pc) {
    || (a == SaveWs && b == SaveBroadcast)
    || (a == SaveBroadcast && b == SaveWorld)
    || (a == SaveWorld && b == SaveSleep)
    || (a == MaintRestart && b == MaintSleep)
    || (a == ProbeWs && b == ProbeCheck(0))
    || (a == CancelBroadcast && b == CancelNotify)
    || (a == InstantBroadcast && b == InstantNotify)
    || (a.TickWs? && b == TickWait(a.r))
  }

  lemma Appended(events: seq<Event>, e: Event)
    ensures After(events + [e]) == Next(After(events), e)
  {
    assert (events + [e])[..|events|] == events;
  }

  // While me holds the lock, an event of another run leaves me, the lock and the shared state alone
  lemma OthersWait(events: seq<Event>, me: RunId, e: Event)
    requires var s := After(events); s.holder == Some(me) && me in s.runs
    requires (e.Start? || e.Acquire? || e.Resume?) && e.id != me
    ensures var s, s' := After(events), Next(After(events), e);
      s'.holder == s.holder && s'.shared == s.shared && me in s'.runs && s'.runs[me] == s.runs[me]
  {
    Reachable(events);
  }

  lemma StepTo(s: State, me: RunId, outcome: Outcome)
    requires s.holder == Some(me) && me in s.runs && Inside(s.runs[me].pc)
    ensures var run := s.runs[me];
      var next := if Fails(run.pc, outcome) then FinalWs else NextPc(s.shared.cancelSet, run.params, run.pc, outcome);
      var s' := Next(s, Resume(me, outcome));
      && me in s'.runs && s'.runs[me].pc == next && s'.runs[me].params == run.params
      && s'.runs[me].cleared == (run.cleared || (run.pc == CancelNotify && !Fails(run.pc, outcome)))
      && s'.runs[me].raised == (run.raised || Fails(run.pc, outcome))
      && s'.shared == NextShared(s.shared, run.pc, next)
      && s'.holder == if next == Done then None else Some(me)
  {
  }

  lemma RestAt(events: seq<Event>)
    ensures After(events).holder.None? ==> AtRest(After(events).shared)
  {
    Reachable(events);
  }

  lemma NothingCleared(events: seq<Event>, me: RunId)
    requires me in After(events).runs && !Over(After(events).runs[me].pc)
    ensures !After(events).runs[me].cleared && !After(events).runs[me].raised
  {
    Reachable(events);
  }

  lemma Fate(events: seq<Event>, me: RunId)
    requires var s := After(events); me in s.runs && s.runs[me].pc == Done && !s.runs[me].raised
    ensures var hit := exists k :: 0 <= k < |events| && CancelsAt(events, k, me);
      (After(events).runs[me].restarted <==> !hit) && (After(events).runs[me].cleared <==> hit)
  {
    FateOfRun(events, me);
  }
}
