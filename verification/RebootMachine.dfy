/**
  The reboot lifecycle as a step machine (app/engine/service.py:555-802). A run is suspended at an
  await; an event resumes it, or starts another run, or cancels, or stages settings. Every list of
  events is an interleaving, and an event that is not possible changes nothing.
*/
module RebootMachine {
  import opened Text

  type RunId = nat

  datatype Phase = Idle | Countdown | Saving | Maintenance | Probing

  datatype Params = Params(seconds: int, update: bool)

  // The await at which a run is suspended; r is the seconds remaining, i the probes made before
  datatype Pc =
    | WaitLock
    | StartWs
    | TickBroadcast(r: nat) | TickNotify(r: nat) | TickWs(r: nat) | TickWait(r: nat)
    | CancelBroadcast | CancelNotify
    | InstantBroadcast | InstantNotify
    | SaveWs | SaveBroadcast | SaveWorld | SaveSleep
    | MaintWs | MaintRestart | MaintSleep
    | ProbeWs | ProbeCheck(i: nat) | ProbeNotify | ProbeSleep(i: nat)
    | FinalWs
    | Done

  // The flags are history: whether a cancel was accepted while this run held the lock, whether the
  // run asked for a world save and for a restart, cleared the update flags, and left by an exception.
  datatype Run = Run(params: Params, pc: Pc, cancelled: bool, saved: bool, restarted: bool, cleared: bool, raised: bool)

  // lifecycle_state
  datatype Lifecycle = Lifecycle(phase: Phase, remaining: nat, total: nat, updating: bool)

  const IDLE := Lifecycle(Idle, 0, 0, false)

  // lifecycle_state, _cancel_state and _staged_ini
  datatype Shared = Shared(life: Lifecycle, cancelSet: bool, reason: string, staged: Option<string>)

  datatype State = State(shared: Shared, holder: Option<RunId>, runs: map<RunId, Run>)

  datatype Outcome = Returned | Ready(ready: bool) | Raised

  datatype Event =
    | Start(id: RunId, params: Params)
    | Acquire(id: RunId)
    | Resume(id: RunId, outcome: Outcome)
    | Cancel(reason: string)
    | Stage(ini: string)

  const PROBES: nat := 90
  const COUNTDOWN_DISCORD_INTERVALS: set<int> := {600, 300, 60}
  const COUNTDOWN_ALL_INTERVALS: set<int> := {600, 300, 180, 120, 60, 30, 15, 10, 5, 4, 3, 2, 1}

  predicate Announced(r: nat, p: Params) { r in COUNTDOWN_ALL_INTERVALS || r == p.seconds }

  predicate Mirrored(r: nat, p: Params) { r in COUNTDOWN_DISCORD_INTERVALS || r == p.seconds }

  function Init(): State { State(Shared(IDLE, false, "", None), None, map[]) }

  function NewRun(p: Params): Run { Run(p, WaitLock, false, false, false, false, false) }

  // ---------- One run, from one await to the next ----------

  // The reset in _release_reboot_lock
  function IdleAgain(sh: Shared): Shared { sh.(life := IDLE) }

  function Seconds(p: Params): nat { if p.seconds > 0 then p.seconds else 0 }

  // The head of the countdown loop, with r seconds remaining
  function LoopTop(cancelSet: bool, p: Params, r: nat): Pc {
    if r == 0 then SaveWs
    else if cancelSet then CancelBroadcast
    else if Announced(r, p) then TickBroadcast(r)
    else TickWs(r)
  }

  // Where a run that is not leaving by an exception is suspended next
  function NextPc(cancelSet: bool, p: Params, pc: Pc, outcome: Outcome): Pc {
    match pc
    case StartWs => LoopTop(cancelSet, p, Seconds(p))
    case TickBroadcast(r) => if Mirrored(r, p) then TickNotify(r) else TickWs(r)
    case TickNotify(r) => TickWs(r)
    case TickWs(r) => TickWait(r)
    case TickWait(r) => if cancelSet then CancelBroadcast else LoopTop(false, p, if r > 0 then r - 1 else 0)
    case CancelBroadcast => CancelNotify
    case CancelNotify => FinalWs
    case InstantBroadcast => InstantNotify
    case InstantNotify => SaveWs
    case SaveWs => SaveBroadcast
    case SaveBroadcast => SaveWorld
    case SaveWorld => SaveSleep
    case SaveSleep => MaintWs
    case MaintWs => MaintRestart
    case MaintRestart => MaintSleep
    case MaintSleep => ProbeWs
    case ProbeWs => ProbeCheck(0)
    case ProbeCheck(i) => if outcome == Ready(true) then ProbeNotify else ProbeSleep(i)
    case ProbeNotify => FinalWs
    case ProbeSleep(i) => if i + 1 < PROBES then ProbeCheck(i + 1) else FinalWs
    case FinalWs => Done
    case _ => pc
  }

  // What the code between the awaits pc and next does to the shared state
  function NextShared(sh: Shared, pc: Pc, next: Pc): Shared {
    if next == FinalWs then IdleAgain(sh)
    else if next == SaveWs then sh.(life := sh.life.(phase := Saving))
    else if next == MaintWs then sh.(life := sh.life.(phase := Maintenance))
    else if next == MaintRestart then sh.(staged := None)
    else if next == ProbeWs then sh.(life := sh.life.(phase := Probing))
    else if (pc == StartWs || pc.TickWait?) && (next.TickBroadcast? || next.TickWs?) then sh.(life := sh.life.(remaining := next.r))
    else sh
  }

  function Acquired(sh: Shared, run: Run): (Shared, Run) {
    var p := run.params;
    var sh' := sh.(cancelSet := false, reason := "");
    if p.seconds > 0 then
      (sh'.(life := Lifecycle(Countdown, p.seconds, p.seconds, p.update)), run.(pc := StartWs))
    else (sh', run.(pc := InstantBroadcast))
  }

  // The exception of an await, outside the finally clause
  predicate Fails(pc: Pc, outcome: Outcome) { outcome.Raised? && pc != FinalWs }

  function Resumed(sh: Shared, run: Run, outcome: Outcome): (Shared, Run) {
    var failed := Fails(run.pc, outcome);
    var next := if failed then FinalWs else NextPc(sh.cancelSet, run.params, run.pc, outcome);
    (NextShared(sh, run.pc, next),
     run.(pc := next,
          saved := run.saved || next == SaveWorld,
          restarted := run.restarted || next == MaintRestart,
          cleared := run.cleared || (run.pc == CancelNotify && !failed),
          raised := run.raised || failed))
  }

  // ---------- The whole engine ----------

  // Holding the lifecycle lock
  predicate Inside(pc: Pc) { pc != WaitLock && pc != Done }

  predicate CanAcquire(s: State, id: RunId) { id in s.runs && s.runs[id].pc == WaitLock && s.holder.None? }

  function Next(s: State, e: Event): State {
    match e
    case Start(id, params) => if id in s.runs then s else s.(runs := s.runs[id := NewRun(params)])
    case Acquire(id) =>
      if !CanAcquire(s, id) then s
      else var (sh, run) := Acquired(s.shared, s.runs[id]); State(sh, Some(id), s.runs[id := run])
    case Resume(id, outcome) =>
      if id !in s.runs then s
      else if Inside(s.runs[id].pc) then
        var (sh, run) := Resumed(s.shared, s.runs[id], outcome);
        State(sh, if run.pc == Done then None else s.holder, s.runs[id := run])
      else if s.runs[id].pc == WaitLock && outcome.Raised? then
        s.(runs := s.runs[id := s.runs[id].(raised := true, pc := Done)])
      else s
    case Cancel(reason) =>
      if s.shared.life.phase != Countdown then s
      else State(s.shared.(reason := reason, cancelSet := true), s.holder,
                 if s.holder.Some? && s.holder.value in s.runs
                 then s.runs[s.holder.value := s.runs[s.holder.value].(cancelled := true)] else s.runs)
    case Stage(ini) => s.(shared := s.shared.(staged := Some(ini)))
  }

  function Exec(s: State, events: seq<Event>): State {
    if events == [] then s else Next(Exec(s, events[..|events| - 1]), events[|events| - 1])
  }

  // ---------- The invariant of every reachable state ----------

  // The phase a run shows while it is suspended at pc
  function PhaseAt(pc: Pc): Phase {
    match pc
    case StartWs => Countdown
    case TickBroadcast(_) => Countdown case TickNotify(_) => Countdown
    case TickWs(_) => Countdown case TickWait(_) => Countdown
    case CancelBroadcast => Countdown case CancelNotify => Countdown
    case SaveWs => Saving case SaveBroadcast => Saving case SaveWorld => Saving case SaveSleep => Saving
    case MaintWs => Maintenance case MaintRestart => Maintenance case MaintSleep => Maintenance
    case ProbeWs => Probing case ProbeCheck(_) => Probing case ProbeNotify => Probing case ProbeSleep(_) => Probing
    case _ => Idle
  }

  predicate Cancelling(pc: Pc) { pc == CancelBroadcast || pc == CancelNotify }

  predicate Over(pc: Pc) { pc == FinalWs || pc == Done }

  predicate InRange(p: Params, pc: Pc) {
    match pc
    case StartWs => p.seconds > 0
    case TickBroadcast(r) => 0 < r <= p.seconds
    case TickNotify(r) => 0 < r <= p.seconds
    case TickWs(r) => 0 < r <= p.seconds
    case TickWait(r) => 0 < r <= p.seconds
    case ProbeCheck(i) => i < PROBES
    case ProbeSleep(i) => i < PROBES
    case _ => true
  }

  // What the history of a run says about where it is
  predicate RunOk(run: Run) {
    var pc := run.pc;
    && InRange(run.params, run.pc)
    && (pc == WaitLock ==> !run.cancelled && !run.saved && !run.restarted && !run.cleared && !run.raised)
    // a cancelled run neither saves nor restarts, and no other run takes the cancelling branch
    && (run.cancelled ==> !run.saved && !run.restarted && (PhaseAt(pc) == Countdown || Over(pc)))
    && (Cancelling(pc) ==> run.cancelled)
    && (run.saved ==> pc == SaveWorld || pc == SaveSleep || PhaseAt(pc) == Maintenance || PhaseAt(pc) == Probing || Over(pc))
    && (run.restarted ==> run.saved && (pc == MaintRestart || pc == MaintSleep || PhaseAt(pc) == Probing || Over(pc)))
    && (run.cleared ==> run.cancelled)
    && (pc == SaveWorld || pc == SaveSleep || PhaseAt(pc) == Maintenance ==> run.saved)
    && (pc == MaintRestart || pc == MaintSleep || PhaseAt(pc) == Probing ==> run.restarted)
    && (run.raised || run.cleared ==> Over(pc))
    && (Over(pc) && !run.raised ==> if run.cancelled then run.cleared else run.restarted)
  }

  // The shared state belongs to the run that holds the lock
  predicate Linked(sh: Shared, run: Run) {
    && sh.life.phase == PhaseAt(run.pc)
    && (sh.life.phase == Countdown ==> (sh.cancelSet <==> run.cancelled))
    && (sh.life.phase == Idle ==> AtRest(sh))
  }

  predicate AtRest(sh: Shared) { sh.life == IDLE }

  ghost predicate Inv(s: State) {
    && (forall id :: id in s.runs ==> RunOk(s.runs[id]))
    && (forall id :: id in s.runs && Inside(s.runs[id].pc) ==> s.holder == Some(id))
    && (s.holder.Some? ==>
          s.holder.value in s.runs && Inside(s.runs[s.holder.value].pc) && Linked(s.shared, s.runs[s.holder.value]))
    && (s.holder.None? ==> AtRest(s.shared))
  }

  // Where a resumed run can go
  predicate Follows(a: Pc, b: Pc) {
    match a
    case StartWs => b.TickBroadcast? || b.TickWs? || b == CancelBroadcast
    case TickBroadcast(r) => b == TickNotify(r) || b == TickWs(r)
    case TickNotify(r) => b == TickWs(r)
    case TickWs(r) => b == TickWait(r)
    case TickWait(r) =>
      b == CancelBroadcast || if r == 1 then b == SaveWs else r > 1 && (b == TickBroadcast(r - 1) || b == TickWs(r - 1))
    case CancelBroadcast => b == CancelNotify
    case InstantBroadcast => b == InstantNotify
    case InstantNotify => b == SaveWs
    case SaveWs => b == SaveBroadcast
    case SaveBroadcast => b == SaveWorld
    case SaveWorld => b == SaveSleep
    case SaveSleep => b == MaintWs
    case MaintWs => b == MaintRestart
    case MaintRestart => b == MaintSleep
    case MaintSleep => b == ProbeWs
    case ProbeWs => b == ProbeCheck(0)
    case ProbeCheck(i) => b == ProbeNotify || b == ProbeSleep(i)
    case ProbeSleep(i) => b == if i + 1 < PROBES then ProbeCheck(i + 1) else FinalWs
    case FinalWs => b == Done
    case _ => b == FinalWs
  }

  lemma NextPcFollows(cancelSet: bool, run: Run, outcome: Outcome)
    requires InRange(run.params, run.pc) && Inside(run.pc)
    ensures var next := NextPc(cancelSet, run.params, run.pc, outcome);
      Follows(run.pc, next) && InRange(run.params, next)
  {
  }

  // The cancelling branch is taken when the event is set, and the loop ends by itself when it is not
  lemma NextPcChoice(cancelSet: bool, run: Run, outcome: Outcome)
    requires InRange(run.params, run.pc) && PhaseAt(run.pc) == Countdown
    ensures var next := NextPc(cancelSet, run.params, run.pc, outcome);
      (next == CancelBroadcast ==> cancelSet) && (next == SaveWs ==> !cancelSet)
  {
  }

  lemma ResumedOk(sh: Shared, run: Run, outcome: Outcome)
    requires RunOk(run) && Inside(run.pc) && Linked(sh, run)
    ensures var (sh', run') := Resumed(sh, run, outcome);
      RunOk(run') && run'.pc != WaitLock && Linked(sh', run') && (run'.pc == Done ==> AtRest(sh'))
  {
    hide RunOk, Linked, InRange, Resumed;
    ResumedRunOk(sh, run, outcome);
    ResumedLinked(sh, run, outcome);
  }

  lemma ResumedRunOk(sh: Shared, run: Run, outcome: Outcome)
    requires RunOk(run) && Inside(run.pc) && Linked(sh, run)
    ensures RunOk(Resumed(sh, run, outcome).1)
  {
    hide NextPc, InRange, NextShared;
    RangeOf(run);
    NextPcFollows(sh.cancelSet, run, outcome);
    if Fails(run.pc, outcome) { return; }
    if PhaseAt(run.pc) == Countdown { NextPcChoice(sh.cancelSet, run, outcome); }
  }

  lemma ResumedLinked(sh: Shared, run: Run, outcome: Outcome)
    requires RunOk(run) && Inside(run.pc) && Linked(sh, run)
    ensures var (sh', run') := Resumed(sh, run, outcome);
      run'.pc != WaitLock && Linked(sh', run') && (run'.pc == Done ==> AtRest(sh'))
  {
    hide NextPc, InRange, RunOk;
    RangeOf(run);
    NextPcFollows(sh.cancelSet, run, outcome);
  }

  lemma RangeOf(run: Run)
    requires RunOk(run)
    ensures InRange(run.params, run.pc) && InRange(run.params, FinalWs)
  {
  }

  lemma AcquiredOk(sh: Shared, run: Run)
    requires RunOk(run) && run.pc == WaitLock && AtRest(sh)
    ensures var (sh', run') := Acquired(sh, run);
      RunOk(run') && Inside(run'.pc) && Linked(sh', run')
  {
  }

  lemma StepKeepsInv(s: State, e: Event)
    requires Inv(s)
    ensures Inv(Next(s, e))
  {
    hide RunOk, Linked, Resumed, Acquired;
    match e {
      case Start(id, params) => NewRunOk(params);
      case Acquire(id) =>
        if CanAcquire(s, id) { AcquiredOk(s.shared, s.runs[id]); }
      case Resume(id, outcome) =>
        if id in s.runs {
          if Inside(s.runs[id].pc) {
            ResumedOk(s.shared, s.runs[id], outcome);
          } else if s.runs[id].pc == WaitLock {
            AbandonedOk(s.runs[id]);
          }
        }
      case Cancel(reason) =>
        if s.shared.life.phase == Countdown && s.holder.Some? { CancelledOk(s.shared, s.runs[s.holder.value], reason); }
      case Stage(ini) =>
        if s.holder.Some? { StagedOk(s.shared, s.runs[s.holder.value], ini); }
    }
  }

  lemma NewRunOk(p: Params)
    ensures RunOk(NewRun(p)) && !Inside(NewRun(p).pc)
  {
  }

  lemma AbandonedOk(run: Run)
    requires RunOk(run) && run.pc == WaitLock
    ensures RunOk(run.(raised := true, pc := Done))
  {
  }

  lemma CancelledOk(sh: Shared, run: Run, reason: string)
    requires RunOk(run) && Inside(run.pc) && Linked(sh, run) && sh.life.phase == Countdown
    ensures RunOk(run.(cancelled := true))
    ensures Linked(sh.(reason := reason, cancelSet := true), run.(cancelled := true))
  {
  }

  lemma StagedOk(sh: Shared, run: Run, ini: string)
    requires Linked(sh, run)
    ensures Linked(sh.(staged := Some(ini)), run)
  {
  }
}
