/**
  The progress of a deployment, read off the tail of its log (app/engine/updater.py:478-643).
*/
module DeployProgress {
  import opened Text
  import opened DeployLog

  datatype Status = Pending | Running | Completed | Failed

  datatype Progress = Progress(active: bool, currentStep: nat, percentage: nat, steps: seq<Status>)

  const WINDOW: nat := 30

  // f.readlines()[-30:]
  function Tail<T>(log: seq<T>): seq<T> { if |log| <= WINDOW then log else log[|log| - WINDOW..] }

  lemma {:induction false} HasMax(s: set<nat>) returns (m: nat)
    requires s != {}
    ensures m in s && forall x :: x in s ==> x <= m
  {
    m :| m in s;
    var rest := s - {m};
    assert s == rest + {m};
    if rest != {} {
      var top := HasMax(rest);
      if top > m { m := top; }
    }
  }

  lemma MaxExists(s: set<nat>)
    requires s != {}
    ensures exists m :: m in s && forall x :: x in s ==> x <= m
  {
    var m := HasMax(s);
  }

  function Max(s: set<nat>): (m: nat)
    requires s != {}
    ensures m in s && forall x :: x in s ==> x <= m
  {
    MaxExists(s);
    var m :| m in s && forall x :: x in s ==> x <= m;
    m
  }

  // ---------- What the log says ----------

  function Started(lines: seq<LogLine>): set<nat> {
    if lines == [] then {}
    else Started(lines[..|lines| - 1]) + if lines[|lines| - 1].step.Some? then {lines[|lines| - 1].step.value} else {}
  }

  // An OK line completes its own step, or else the highest one started
  function Finished(lines: seq<LogLine>): set<nat> {
    if lines == [] then {}
    else
      var (init, line) := (lines[..|lines| - 1], lines[|lines| - 1]);
      Finished(init) +
      if !line.ok then {}
      else if line.step.Some? then {line.step.value}
      else if Started(init) != {} then {Max(Started(init))}
      else {}
  }

  function FirstStatus(s: nat, started: set<nat>, finished: set<nat>): Status {
    if s in finished then Completed
    else if s in started || (s == 1 && started == {}) then Running
    else Pending
  }

  // The last of the steps up to n that is running, or the first step
  function LastRunning(n: nat, started: set<nat>, finished: set<nat>): (r: nat)
    requires n <= 5
    ensures 1 <= r <= 5
  {
    if n == 0 then 1
    else if n in started && n !in finished then n
    else if n == 1 && started == {} && n !in finished then 1
    else LastRunning(n - 1, started, finished)
  }

  function Current(started: set<nat>, finished: set<nat>): (r: nat)
    ensures 1 <= r <= 5
  {
    if finished == {} then LastRunning(5, started, finished)
    else if Max(finished) < 5 then Max(finished) + 1
    else 5
  }

  // The step after the highest finished one runs
  function StatusOf(s: nat, started: set<nat>, finished: set<nat>): Status {
    var first := FirstStatus(s, started, finished);
    if finished != {} && Max(finished) < 5 && s == Max(finished) + 1 && first == Pending then Running else first
  }

  function Percent(started: set<nat>, finished: set<nat>): nat {
    if |finished| == 5 then 100
    else
      var partial := if StatusOf(Current(started, finished), started, finished) == Running then 10 else 0;
      var sum := 20 * |finished| + partial;
      if sum < 5 then 5 else if sum > 95 then 95 else sum
  }

  predicate Aborted(lines: seq<LogLine>) { exists i :: 0 <= i < |lines| && lines[i].aborted }

  function ProgressOf(lines: seq<LogLine>): Progress {
    var (started, finished) := (Started(lines), Finished(lines));
    var current := Current(started, finished);
    var steps := seq(5, i requires 0 <= i < 5 =>
      if Aborted(lines) && i + 1 == current then Failed else StatusOf(i + 1, started, finished));
    Progress(!Aborted(lines), current, Percent(started, finished), steps)
  }

  // ---------- The computation ----------

  // The summary the last deployment left behind
  datatype LastUpdate = LastUpdate(acknowledged: bool, failed: bool)

  // The answer while no deployment is under way
  function Idle(last: Option<LastUpdate>): Progress {
    if last.None? || last.value.acknowledged then Progress(false, 0, 0, [Pending, Pending, Pending, Pending, Pending])
    else if last.value.failed then Progress(false, 1, 0, [Failed, Pending, Pending, Pending, Pending])
    else Progress(false, 5, 100, [Completed, Completed, Completed, Completed, Completed])
  }

  method GetDeploymentProgress(log: seq<string>, active: bool, last: Option<LastUpdate>) returns (progress: Progress)
    ensures progress == if active then ProgressOf(Read(Tail(log))) else Idle(last)
  {
    hide Started, Finished, Current, LastRunning, ReadLine, ProgressOf;
    if !active {
      var steps := [Pending, Pending, Pending, Pending, Pending];
      if last.Some? && !last.value.acknowledged {
        if last.value.failed {
          return Progress(false, 1, 0, steps[0 := Failed]);
        }
        return Progress(false, 5, 100, [Completed, Completed, Completed, Completed, Completed]);
      }
      return Progress(false, 0, 0, steps);
    }
    progress := ReadProgress(Read(if |log| <= WINDOW then log else log[|log| - WINDOW..]));
  }

  // The part that reads the lines
  method ReadProgress(lines: seq<LogLine>) returns (progress: Progress)
    ensures progress == ProgressOf(lines)
  {
    hide Started, Finished, Current, LastRunning;
    var started, completed := Scan(lines);
    var steps, current := MarkSteps(started, completed);
    var percentage: nat;
    if |completed| == 5 {
      percentage := 100;
    } else {
      var partial := if steps[current - 1] == Running then 10 else 0;
      percentage := 20 * |completed| + partial;
      if percentage < 5 {
        percentage := 5;
      }
      if percentage > 95 {
        percentage := 95;
      }
    }
    var aborted := Aborted(lines);
    if aborted {
      steps := steps[current - 1 := Failed];
    }
    progress := Progress(!aborted, current, percentage, steps);
  }

  // The step numbers seen so far, line by line
  method Scan(lines: seq<LogLine>) returns (started: set<nat>, completed: set<nat>)
    ensures started == Started(lines) && completed == Finished(lines)
  {
    started, completed := {}, {};
    for n := 0 to |lines|
      invariant started == Started(lines[..n]) && completed == Finished(lines[..n])
    {
      assert lines[..n + 1][..n] == lines[..n];
      if lines[n].step.Some? {
        started := started + {lines[n].step.value};
      }
      if lines[n].ok {
        if lines[n].step.Some? {
          completed := completed + {lines[n].step.value};
        } else if started != {} {
          completed := completed + {Max(started)};
        }
      }
    }
    assert lines[..|lines|] == lines;
  }

  // The status of every step, and the current one
  method MarkSteps(started: set<nat>, completed: set<nat>) returns (steps: seq<Status>, current: nat)
    ensures |steps| == 5 && forall i :: 0 <= i < 5 ==> steps[i] == StatusOf(i + 1, started, completed)
    ensures current == Current(started, completed) && 1 <= current <= 5
  {
    steps := [Pending, Pending, Pending, Pending, Pending];
    current := 1;
    for s := 1 to 6
      invariant |steps| == 5 && forall i :: 0 <= i < s - 1 ==> steps[i] == FirstStatus(i + 1, started, completed)
      invariant forall i :: s - 1 <= i < 5 ==> steps[i] == Pending
      invariant current == LastRunning(s - 1, started, completed) && 1 <= current <= 5
    {
      if s in completed {
        steps := steps[s - 1 := Completed];
      } else if s in started {
        steps := steps[s - 1 := Running];
        current := s;
      } else if s == 1 && started == {} {
        steps := steps[0 := Running];
        current := 1;
      } else {
        steps := steps[s - 1 := Pending];
      }
    }
    if completed != {} {
      var top := Max(completed);
      if top < 5 {
        current := top + 1;
        if steps[current - 1] == Pending {
          steps := steps[current - 1 := Running];
        }
      } else {
        current := 5;
      }
    }
  }

  // ---------- What the numbers mean ----------

  const STEPS: set<nat> := {1, 2, 3, 4, 5}

  predicate Numbered(lines: seq<LogLine>) {
    forall i :: 0 <= i < |lines| && lines[i].step.Some? ==> lines[i].step.value in STEPS
  }

  lemma {:induction false} OnlySteps(lines: seq<LogLine>)
    requires Numbered(lines)
    ensures Started(lines) <= STEPS && Finished(lines) <= STEPS
  {
    if lines != [] { OnlySteps(lines[..|lines| - 1]); }
  }

  // Before anything is finished the current step runs
  lemma {:induction false} FirstRuns(n: nat, started: set<nat>)
    requires 1 <= n <= 5 && (started == {} || exists s :: s in started && 1 <= s <= n)
    ensures StatusOf(LastRunning(n, started, {}), started, {}) == Running
  {
    if n > 1 && n !in started { FirstRuns(n - 1, started); }
  }

  lemma CurrentRuns(started: set<nat>, finished: set<nat>)
    requires started <= STEPS && finished <= STEPS
    ensures StatusOf(Current(started, finished), started, finished) == if 5 in finished then Completed else Running
  {
    if finished == {} {
      if started != {} {
        var s :| s in started;
        assert s in STEPS;
      }
      FirstRuns(5, started);
    } else {
      assert Max(finished) in STEPS;
    }
  }

  // With step numbers 1 to 5 the percentage is twenty for every finished step, and ten more until
  // the last one is finished
  lemma PercentIs(lines: seq<LogLine>)
    requires Numbered(lines)
    ensures Percent(Started(lines), Finished(lines)) == 20 * |Finished(lines)| + if 5 in Finished(lines) then 0 else 10
    ensures |Finished(lines)| <= 5 && (|Finished(lines)| == 5 <==> Finished(lines) == STEPS)
  {
    hide Current, StatusOf, Started, Finished;
    OnlySteps(lines);
    SubsetSize(Finished(lines), STEPS);
    CurrentRuns(Started(lines), Finished(lines));
    if 5 in Finished(lines) { SubsetSize({5}, Finished(lines)); }
  }

  // It is 100 exactly when all five steps are finished, and otherwise from 10 to 90
  lemma HundredIff(lines: seq<LogLine>)
    requires Numbered(lines)
    ensures var p := Percent(Started(lines), Finished(lines));
      (p == 100 <==> Finished(lines) == STEPS) && (p != 100 ==> 10 <= p <= 90)
  {
    hide Percent, Started, Finished;
    PercentIs(lines);
    OnlySteps(lines);
    if 5 !in Finished(lines) { SubsetSize(Finished(lines), STEPS - {5}); } else { SubsetSize({5}, Finished(lines)); }
  }

  // The log of the deployment so far makes the percentage fall when this line comes
  predicate Falls(log: seq<string>, line: string) {
    ProgressOf(Read(Tail(log))).percentage > ProgressOf(Read(Tail(log + [line]))).percentage
  }

  // Another line never lowers it within thirty lines, and never undoes a finished step
  lemma NeverFalls(log: seq<string>, line: string)
    requires |log| < WINDOW && Numbered(Read(log + [line]))
    ensures !Falls(log, line) && Finished(Read(Tail(log))) <= Finished(Read(Tail(log + [line])))
  {
    hide Percent, Current, StatusOf, ReadLine;
    var (before, after) := (Read(log), Read(log + [line]));
    assert after == before + [ReadLine(line)] && after[..|log|] == before;
    assert Numbered(before) by {
      forall i | 0 <= i < |log| && before[i].step.Some? ensures before[i].step.value in STEPS { assert after[i] == before[i]; }
    }
    PercentIs(before);
    PercentIs(after);
    var (a, b) := (Finished(before), Finished(after));
    SubsetSize(a, b);
    if 5 in b && 5 !in a {
      assert a <= b - {5};
      SubsetSize(a, b - {5});
    }
  }

  const DONE := StepText(1, 5, "x [ OK ]")

  function Blanks(n: nat): seq<string> { seq(n, i => "") }

  lemma Silent(n: nat)
    ensures Started(Read(Blanks(n))) == {} && Finished(Read(Blanks(n))) == {} && Numbered(Read(Blanks(n)))
  {
    forall i | 0 <= i < n ensures Read(Blanks(n))[i] == LogLine(None, false, false) { BlankLine(); }
    SilentLines(Read(Blanks(n)));
  }

  lemma BlankLine()
    ensures ReadLine("") == LogLine(None, false, false)
  {
  }

  lemma {:induction false} SilentLines(lines: seq<LogLine>)
    requires forall i :: 0 <= i < |lines| ==> lines[i] == LogLine(None, false, false)
    ensures Started(lines) == {} && Finished(lines) == {}
  {
    if lines != [] { SilentLines(lines[..|lines| - 1]); }
  }

  lemma {:induction false} OneDone(done: LogLine, lines: seq<LogLine>)
    requires done.step == Some(1) && done.ok && forall i :: 0 <= i < |lines| ==> lines[i] == LogLine(None, false, false)
    ensures Finished([done] + lines) == {1} && Numbered([done] + lines)
    decreases |lines|
  {
    var all := [done] + lines;
    if lines == [] {
      assert all == [done] && all[..0] == [];
    } else {
      OneDone(done, lines[..|lines| - 1]);
      assert all[..|all| - 1] == [done] + lines[..|lines| - 1];
    }
  }

  lemma TitleOk()
    ensures OccursIn(OK_MARK, "x [ OK ]")
  {
    assert OccursAt("x [ OK ]", OK_MARK, 2);
  }

  lemma DoneIsRead()
    ensures ReadLine(DONE).step == Some(1) && ReadLine(DONE).ok
  {
    var title := "x [ OK ]";
    TitleOk();
    StepIsRead(1, 5, title);
  }

  // A log of n lines that falls: a finished step, with blank lines before it and twenty-nine behind
  function Falling(n: nat): seq<string>
    requires n >= WINDOW
  {
    Blanks(n - WINDOW) + [DONE] + Blanks(WINDOW - 1)
  }

  lemma FallingFalls(n: nat)
    requires n >= WINDOW
    ensures |Falling(n)| == n && Numbered(Read(Falling(n) + [""])) && Falls(Falling(n), "")
  {
    hide ReadLine, Percent, Started, Finished;
    var (done, log, tail) := (ReadLine(DONE), Falling(n), Read(Blanks(WINDOW - 1)));
    DoneIsRead();
    BlankLine();
    assert Tail(log) == [DONE] + Blanks(WINDOW - 1) && Tail(log + [""]) == Blanks(WINDOW);
    assert Read(Tail(log)) == [done] + tail;
    OneDone(done, tail);
    Silent(WINDOW);
    PercentIs([done] + tail);
    PercentIs(Read(Blanks(WINDOW)));
    assert |{1}| == 1;
  }

  // Whether a log with steps numbered 1 to 5 can make the percentage fall depends on its length
  // alone: it can exactly from thirty lines on, when the line that finished a step leaves the window
  lemma FallsIffLong(n: nat)
    ensures (exists log: seq<string>, line: string :: |log| == n && Numbered(Read(log + [line])) && Falls(log, line)) <==> n >= WINDOW
  {
    hide Numbered, Falls, Read;
    if n >= WINDOW {
      FallingFalls(n);
    } else {
      forall log: seq<string>, line: string | |log| == n && Numbered(Read(log + [line])) ensures !Falls(log, line) {
        NeverFalls(log, line);
      }
    }
  }

  // ---------- Any step numbers ----------

  // 100 means that as many strange numbers are finished as steps are missing
  lemma HundredMeans(lines: seq<LogLine>)
    ensures var f := Finished(lines);
      Percent(Started(lines), f) == 100 <==> |f - STEPS| == |STEPS - f|
  {
    hide Current, StatusOf, Started, Finished;
    var f := Finished(lines);
    assert f == (f - STEPS) + (f * STEPS) && STEPS == (STEPS - f) + (f * STEPS);
    assert |f| == |f - STEPS| + |f * STEPS| && |STEPS| == |STEPS - f| + |f * STEPS|;
    assert |STEPS| == 5;
  }

  // It tells the truth exactly when no strange number is finished, or when some step is missing and
  // the strange numbers are not just as many
  lemma HundredIsTruthIff(lines: seq<LogLine>)
    ensures var f := Finished(lines);
      (Percent(Started(lines), f) == 100 <==> STEPS <= f)
      <==> f <= STEPS || (!(STEPS <= f) && |f - STEPS| != |STEPS - f|)
  {
    hide Percent, Started, Finished;
    var f := Finished(lines);
    HundredMeans(lines);
    if STEPS <= f {
      assert STEPS - f == {};
      if f <= STEPS { assert f - STEPS == {}; } else { var x :| x in f - STEPS; assert f - STEPS != {}; }
    } else {
      var x :| x in STEPS - f;
      if f <= STEPS { assert f - STEPS == {}; }
    }
  }

  // Five lines numbered 0 to 4, each finished
  const STRAY: seq<string> := seq(5, i requires 0 <= i < 5 => StepText(i, 5, "x [ OK ]"))

  function Below(k: nat): set<nat> { if k == 0 then {} else Below(k - 1) + {k - 1} }

  lemma {:induction false} FinishedAre(lines: seq<LogLine>, k: nat)
    requires k <= |lines| <= 5 && forall i :: 0 <= i < |lines| ==> lines[i].step == Some(i) && lines[i].ok
    ensures Finished(lines[..k]) == Below(k)
  {
    if k > 0 {
      FinishedAre(lines, k - 1);
      assert lines[..k][..k - 1] == lines[..k - 1];
    }
  }

  lemma StrayLines()
    ensures Finished(Read(STRAY)) == {0, 1, 2, 3, 4}
  {
    hide ReadLine, StepText, OccursIn, Finished;
    var lines := Read(STRAY);
    TitleOk();
    forall i | 0 <= i < 5 ensures lines[i].step == Some(i) && lines[i].ok {
      StepIsRead(i, 5, "x [ OK ]");
    }
    FinishedAre(lines, 5);
    assert lines[..5] == lines;
    assert Below(5) == {0, 1, 2, 3, 4};
  }

  // With them the answer is 100 while the last step is not completed
  lemma StrayNumbers()
    ensures var p := ProgressOf(Read(Tail(STRAY)));
      |STRAY| <= WINDOW && p.percentage == 100 && |p.steps| == 5 && p.steps[4] != Completed
  {
    hide Current, Read, StatusOf, Percent, Started, Finished;
    StrayLines();
    StrayStatus(Started(Read(STRAY)));
  }

  lemma StrayStatus(started: set<nat>)
    ensures Percent(started, {0, 1, 2, 3, 4}) == 100 && StatusOf(5, started, {0, 1, 2, 3, 4}) != Completed
  {
    assert |{0, 1, 2, 3, 4}| == 5;
  }
}
