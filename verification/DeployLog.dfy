/**
  What a line of the deployment log tells (app/engine/updater.py:490-500, 565-576, 617): the leftmost
  match of the step pattern, and the two markers.
*/
module DeployLog {
  import opened Text

  // The step number; "[ OK ]"; "Deployment aborted with error"
  datatype LogLine = LogLine(step: Option<nat>, ok: bool, aborted: bool)

  const OK_MARK := "[ OK ]"
  const ABORT_MARK := "Deployment aborted with error"

  predicate OccursIn(pat: string, s: string) { exists i: nat | i <= |s| :: OccursAt(s, pat, i) }

  // The word STEP and white space behind it may be left out
  function NumberStart(s: string, i: nat): (j: nat)
    requires i <= |s|
    ensures i <= j <= |s|
  {
    if i + 4 < |s| && s[i..i + 4] == "STEP" && IsSpace(s[i + 4]) then SpacesEnd(s, i + 4) else i
  }

  // \[(?:STEP\s+)?(\d+)/(\d+)\]\s+ at i; what follows in the pattern always matches
  function StepAt(s: string, i: nat): Option<nat>
    requires i <= |s|
  {
    if i == |s| || s[i] != '[' then None
    else
      var j := NumberStart(s, i + 1);
      var d := DigitsEnd(s, j);
      if d == j || d == |s| || s[d] != '/' then None
      else
        var e := DigitsEnd(s, d + 1);
        if e == d + 1 || e + 1 >= |s| || s[e] != ']' || !IsSpace(s[e + 1]) then None
        else Some(DigitsValue(s[j..d]))
  }

  function StepFrom(s: string, i: nat): Option<nat>
    requires i <= |s|
    decreases |s| - i
  {
    if i == |s| then None else if StepAt(s, i).Some? then StepAt(s, i) else StepFrom(s, i + 1)
  }

  // A line as it is read: white space at its end is gone
  function ReadLine(raw: string): LogLine {
    var s := StripRight(raw);
    LogLine(StepFrom(s, 0), OccursIn(OK_MARK, s), OccursIn(ABORT_MARK, s))
  }

  function Read(log: seq<string>): seq<LogLine> { seq(|log|, i requires 0 <= i < |log| => ReadLine(log[i])) }

  // ---------- The lines the deployer prints ----------

  function StepText(n: nat, total: nat, title: string): string {
    "[STEP " + NatToString(n) + "/" + NatToString(total) + "] " + title
  }

  // A printed step line is read as its number, whatever the title
  lemma StepIsRead(n: nat, total: nat, title: string)
    requires title != "" && !IsSpace(title[|title| - 1])
    ensures ReadLine(StepText(n, total, title)).step == Some(n)
    ensures OccursIn(OK_MARK, title) ==> ReadLine(StepText(n, total, title)).ok
  {
    hide OccursIn, NatToString;
    var (a, b) := (NatToString(n), NatToString(total));
    var s := StepText(n, total, title);
    var head := "[STEP " + a + "/" + b + "] ";
    assert s == head + title && s[|s| - 1] == title[|title| - 1];
    assert StripRight(s) == s;
    StepRead(s, a, b, title);
    NatToStringValue(n);
    if OccursIn(OK_MARK, title) { OccursBehind(OK_MARK, head, title); }
  }

  lemma OccursBehind(pat: string, head: string, s: string)
    requires OccursIn(pat, s)
    ensures OccursIn(pat, head + s)
  {
    var i: nat :| i <= |s| && OccursAt(s, pat, i);
    assert (head + s)[|head| + i..|head| + i + |pat|] == pat;
    assert OccursAt(head + s, pat, |head| + i);
  }

  lemma StepPieces(s: string, a: string, b: string, title: string)
    requires s == "[STEP " + a + "/" + b + "] " + title
    ensures var (d, e) := (6 + |a|, 7 + |a| + |b|);
      && e + 1 < |s| && s[0] == '[' && s[1..5] == "STEP" && s[5] == ' '
      && s[6..d] == a && s[d] == '/' && s[d + 1..e] == b && s[e] == ']' && s[e + 1] == ' '
      && (a != "" ==> s[6] == a[0])
  {
    assert s == "[STEP " + (a + ("/" + (b + ("] " + title))));
  }

  lemma StepRead(s: string, a: string, b: string, title: string)
    requires s == "[STEP " + a + "/" + b + "] " + title
    requires a != "" && b != "" && AllDigits(a) && AllDigits(b)
    ensures StepFrom(s, 0) == Some(DigitsValue(a))
  {
    var (d, e) := (6 + |a|, 7 + |a| + |b|);
    hide DigitsEnd, DigitsValue;
    StepPieces(s, a, b, title);
    assert IsDigit(a[0]) && s[6] == a[0] && SpacesEnd(s, 5) == 6;
    DigitsEndIs(s, 6, d);
    DigitsEndIs(s, d + 1, e);
  }

  // Without the blank behind the bracket the pattern does not match, and a line loses its last blanks
  lemma BareStepIsNone()
    ensures ReadLine("[1/5]").step == None && ReadLine("[1/5] ").step == None
  {
    var s := "[1/5]";
    assert "[1/5] "[..5] == s && StripRight("[1/5] ") == StripRight(s) == s;
    assert DigitsEnd(s, 1) == 2 && DigitsEnd(s, 3) == 4;
    assert StepAt(s, 0) == None && StepFrom(s, 1) == StepFrom(s, 2) == StepFrom(s, 3) == StepFrom(s, 4) == StepFrom(s, 5) == None;
  }
}
