/**
  What atomic writes guarantee over failures and over whole runs of writes.
*/
module BackupRotation {
  import opened Text
  import opened AtomicIo

  // The target is all old or all new and says which; an aborted write whose cleanup works leaves no
  // staging file; files that are neither the target nor its backups are never touched.
  lemma AllOrNothing(fs: Files, target: string, content: Bytes, makeBackup: bool, mode: Option<nat>, io: Io,
                     maxBackups: int, victims: set<string>)
    requires GoodNames(fs, target, io) && VictimsOk(fs, target, makeBackup, maxBackups, io, victims)
    ensures var r := Outcome(fs, target, content, makeBackup, mode, io, victims);
      && Get(r, target) == (if Succeeds(io) then Some(File(content, io.now, StagedMode(fs, target, mode, io)))
                            else Get(fs, target))
      && (Succeeds(io) || !io.mkdirOk || !io.createOk || io.cleanupOk <==> io.staging !in r)
      && forall p :: p != target && p != io.staging && !IsBackupName(target, p) ==> Get(r, p) == Get(fs, p)
  {
  }

  // One write as a request; nothing goes wrong in it
  datatype Request = Request(content: Bytes, mode: Option<nat>, stamp: string, now: int)

  function CleanIo(q: Request): Io {
    Io("", q.stamp, q.now, true, true, true, true, 0, true, true, true, true, None, true, {}, {}, true, true)
  }

  // A write with backups on in which every call succeeds
  ghost predicate CleanWrite(fs: Files, q: Request, target: string, maxBackups: int, r: Files) {
    exists victims ::
      VictimsOk(fs, target, true, maxBackups, CleanIo(q), victims) &&
      r == Outcome(fs, target, q.content, true, q.mode, CleanIo(q), victims)
  }

  // A version that was backed up
  datatype Version = Version(name: string, file: File)

  function Names(log: seq<Version>): seq<string> {
    seq(|log|, i requires 0 <= i < |log| => log[i].name)
  }

  function Newest(log: seq<Version>, n: nat): seq<Version> {
    if |log| <= n then log else log[|log| - n..]
  }

  predicate InOrder(log: seq<Version>) {
    forall i, j :: 0 <= i < j < |log| ==>
      log[i].file.mtime <= log[j].file.mtime && StrLess(log[i].name, log[j].name)
  }

  // The backups in the directory are exactly the last maxBackups versions of the log
  predicate Keeps(fs: Files, target: string, maxBackups: nat, log: seq<Version>) {
    var kept := Newest(log, maxBackups);
    && InOrder(log)
    && Backups(fs, target) == Elements(Names(kept))
    && forall i :: 0 <= i < |kept| ==> kept[i].name in fs && fs[kept[i].name] == kept[i].file
  }

  // What the next write adds to the log: the version it replaces, unless there is none or it is empty
  function Logged(fs: Files, target: string, q: Request, log: seq<Version>): seq<Version> {
    if target in fs && |fs[target].data| > 0 then log + [Version(BackupName(target, q.stamp), fs[target])]
    else log
  }

  // The clock: the target is not older than its backups, the write not older than the target, and
  // its timestamp sorts after every earlier one
  predicate ClockOk(fs: Files, target: string, q: Request, log: seq<Version>) {
    && (target in fs ==> fs[target].mtime <= q.now)
    && (forall i :: 0 <= i < |log| ==>
          && StrLess(log[i].name, BackupName(target, q.stamp))
          && log[i].file.mtime <= if target in fs then fs[target].mtime else q.now)
  }

  lemma NotItself(target: string, stamp: string)
    ensures !IsBackupName(target, target) && IsBackupName(target, BackupName(target, stamp))
  {
  }

  lemma ElementsSnoc(s: seq<string>, x: string)
    ensures Elements(s + [x]) == Elements(s) + {x}
  {
  }

  // The directory right after the copy holds the kept versions and the new one, oldest first
  lemma AfterCopyAscends(fs: Files, target: string, maxBackups: nat, q: Request, log: seq<Version>)
    requires Keeps(fs, target, maxBackups, log) && ClockOk(fs, target, q, log)
    requires target in fs && |fs[target].data| > 0
    ensures var copied := AfterCopy(fs, target, true, CleanIo(q));
      var list := Names(Newest(log, maxBackups)) + [BackupName(target, q.stamp)];
      Ascending(copied, {}, list) && Elements(list) == Backups(copied, target)
  {
    var name := BackupName(target, q.stamp);
    var kept := Newest(log, maxBackups);
    var copied := AfterCopy(fs, target, true, CleanIo(q));
    var list := Names(kept) + [name];
    NotItself(target, q.stamp);
    ElementsSnoc(Names(kept), name);
    assert Backups(copied, target) == Backups(fs, target) + {name};
    forall i | 0 <= i < |kept|
      ensures kept[i].name != name && copied[kept[i].name] == kept[i].file
      ensures StrLess(kept[i].name, name) && kept[i].file.mtime <= fs[target].mtime
    {
      assert exists j :: 0 <= j < |log| && log[j] == kept[i] by {
        assert kept[i] == log[|log| - |kept| + i];
      }
      StrLessTotal(name, name);
    }
    forall i, j | 0 <= i < j < |list| ensures Before(copied, {}, list[i], list[j]) {
      assert list[i] == kept[i].name;
      if j < |kept| {
        assert kept[i] == log[|log| - |kept| + i] && kept[j] == log[|log| - |kept| + j];
      }
    }
  }

  // One clean write: the log grows by the version replaced, and again its newest entries are kept
  lemma CleanWriteKeeps(fs: Files, q: Request, target: string, maxBackups: nat, r: Files, log: seq<Version>)
    requires CleanWrite(fs, q, target, maxBackups, r)
    requires Keeps(fs, target, maxBackups, log) && ClockOk(fs, target, q, log)
    ensures Keeps(r, target, maxBackups, Logged(fs, target, q, log))
  {
    hide AfterCopy, IsBackupName, StrLess, IsOldest, Before, StagedMode, BackupName, Elements, VictimsOk;
    var io := CleanIo(q);
    var victims :|
      VictimsOk(fs, target, true, maxBackups, io, victims) && r == Outcome(fs, target, q.content, true, q.mode, io, victims);
    NotItself(target, q.stamp);
    var copied := AfterCopy(fs, target, true, io);
    if target in fs && |fs[target].data| > 0 {
      var v := Version(BackupName(target, q.stamp), fs[target]);
      var longer := Newest(log, maxBackups) + [v];
      var list := Names(longer);
      assert list == Names(Newest(log, maxBackups)) + [v.name];
      AfterCopyAscends(fs, target, maxBackups, q, log);
      PrefixSize(copied, {}, list);
      var n := Excess(|list|, maxBackups);
      OldestIsPrefix(copied, {}, list, victims, n);
      VictimsAre(fs, target, q, maxBackups, victims);
      assert victims == Elements(list[..n]);
      NewestSnoc(log, v, maxBackups);
      Survivors(fs, q, target, maxBackups, log, longer, n, r[target]);
      InOrderSnoc(log, v);
      assert r == (copied - Elements(list[..n]))[target := r[target]];
      KeepsOf(r, target, maxBackups, log + [v], longer[n..]);
    } else {
      NoCopy(fs, target, q, maxBackups, victims);
      assert Backups(r, target) == Backups(fs, target);
      KeptAreBackups(fs, target, maxBackups, log);
      KeepsOf(r, target, maxBackups, log, Newest(log, maxBackups));
    }
  }

  lemma VictimsAre(fs: Files, target: string, q: Request, maxBackups: nat, victims: set<string>)
    requires target in fs && |fs[target].data| > 0
    requires VictimsOk(fs, target, true, maxBackups, CleanIo(q), victims)
    ensures var copied := AfterCopy(fs, target, true, CleanIo(q));
      IsOldest(copied, {}, Backups(copied, target), victims, Excess(|Backups(copied, target)|, maxBackups))
  {
  }

  lemma KeepsOf(r: Files, target: string, maxBackups: nat, log: seq<Version>, kept: seq<Version>)
    requires InOrder(log) && kept == Newest(log, maxBackups)
    requires Backups(r, target) == Elements(Names(kept))
    requires forall i :: 0 <= i < |kept| ==> kept[i].name in r && r[kept[i].name] == kept[i].file
    ensures Keeps(r, target, maxBackups, log)
  {
  }

  lemma KeptAreBackups(fs: Files, target: string, maxBackups: nat, log: seq<Version>)
    requires Keeps(fs, target, maxBackups, log)
    ensures forall i :: 0 <= i < |Newest(log, maxBackups)| ==> Newest(log, maxBackups)[i].name in Backups(fs, target)
  {
    var kept := Newest(log, maxBackups);
    forall i | 0 <= i < |kept| ensures kept[i].name in Elements(Names(kept)) {
      assert Names(kept)[i] == kept[i].name;
    }
  }

  lemma NoCopy(fs: Files, target: string, q: Request, maxBackups: nat, victims: set<string>)
    requires !(target in fs && |fs[target].data| > 0)
    requires VictimsOk(fs, target, true, maxBackups, CleanIo(q), victims)
    ensures AfterCopy(fs, target, true, CleanIo(q)) == fs && victims == {}
  {
  }

  // After the first n of the longer list are gone, the rest are there with their contents
  lemma Survivors(fs: Files, q: Request, target: string, maxBackups: nat, log: seq<Version>, longer: seq<Version>, n: nat, f: File)
    requires Keeps(fs, target, maxBackups, log) && ClockOk(fs, target, q, log)
    requires target in fs && |fs[target].data| > 0
    requires longer == Newest(log, maxBackups) + [Version(BackupName(target, q.stamp), fs[target])] && n <= |longer|
    ensures var left := AfterCopy(fs, target, true, CleanIo(q)) - Elements(Names(longer)[..n]);
      && Backups(left, target) == Elements(Names(longer[n..]))
      && Backups(left[target := f], target) == Backups(left, target)
      && forall i :: n <= i < |longer| ==>
           longer[i].name in left && left[longer[i].name] == longer[i].file && longer[i].name != target
  {
    hide StrLess, Before;
    var copied := AfterCopy(fs, target, true, CleanIo(q));
    var list := Names(longer);
    assert list == Names(Newest(log, maxBackups)) + [BackupName(target, q.stamp)];
    AfterCopyAscends(fs, target, maxBackups, q, log);
    SplitElements(copied, list, n);
    NotItself(target, q.stamp);
    assert Names(longer[n..]) == list[n..];
    var left := copied - Elements(list[..n]);
    assert Backups(left, target) == Backups(copied, target) - Elements(list[..n]);
    forall i | n <= i < |longer|
      ensures longer[i].name in left && left[longer[i].name] == longer[i].file && longer[i].name != target
    {
      assert list[n..][i - n] == longer[i].name;
      assert longer[i].name in Elements(list[n..]);
      CopiedFile(fs, q, target, maxBackups, log, longer, i);
    }
  }

  lemma CopiedFile(fs: Files, q: Request, target: string, maxBackups: nat, log: seq<Version>, longer: seq<Version>, i: nat)
    requires Keeps(fs, target, maxBackups, log) && ClockOk(fs, target, q, log)
    requires target in fs && |fs[target].data| > 0 && i < |longer|
    requires longer == Newest(log, maxBackups) + [Version(BackupName(target, q.stamp), fs[target])]
    ensures var copied := AfterCopy(fs, target, true, CleanIo(q));
      longer[i].name in copied && copied[longer[i].name] == longer[i].file
  {
    if i < |longer| - 1 {
      var kept := Newest(log, maxBackups);
      assert kept[i] == log[|log| - |kept| + i];
      StrLessTotal(kept[i].name, BackupName(target, q.stamp));
    }
  }

  lemma InOrderSnoc(log: seq<Version>, v: Version)
    requires InOrder(log)
    requires forall i :: 0 <= i < |log| ==> log[i].file.mtime <= v.file.mtime && StrLess(log[i].name, v.name)
    ensures InOrder(log + [v])
  {
  }

  // An ascending list has no name twice
  lemma SplitElements(fs: Files, list: seq<string>, n: nat)
    requires n <= |list| && Ascending(fs, {}, list)
    ensures Elements(list) - Elements(list[..n]) == Elements(list[n..])
  {
    forall i, j | 0 <= i < n <= j < |list| ensures list[i] != list[j] {
      BeforeTotal(fs, {}, list[i], list[j]);
    }
    assert list == list[..n] + list[n..];
  }

  lemma NewestSnoc(log: seq<Version>, v: Version, maxBackups: nat)
    ensures var longer := Newest(log, maxBackups) + [v];
      var n := Excess(|longer|, maxBackups);
      n <= |longer| && Newest(log + [v], maxBackups) == longer[n..]
  {
  }

  // The log after the first n writes of a run
  function RunLog(states: seq<Files>, writes: seq<Request>, target: string, log: seq<Version>, n: nat): seq<Version>
    requires n <= |writes| && n <= |states|
  {
    if n == 0 then log
    else Logged(states[n - 1], target, writes[n - 1], RunLog(states, writes, target, log, n - 1))
  }

  // The clock of a run: it does not go back, and the time stamps sort in the order of the writes
  predicate ClockRuns(writes: seq<Request>) {
    forall i, j :: 0 <= i < j < |writes| ==> writes[i].now <= writes[j].now && StrLess(writes[i].stamp, writes[j].stamp)
  }

  lemma StampOrder(target: string, a: string, b: string)
    requires StrLess(a, b)
    ensures StrLess(BackupName(target, a), BackupName(target, b))
  {
    StrLessPrefix(target + ".bak.", a, b);
  }

  // The clock that fits one write fits the next
  lemma ClockGoesOn(fs: Files, target: string, q: Request, next: Request, maxBackups: nat, r: Files, log: seq<Version>)
    requires CleanWrite(fs, q, target, maxBackups, r) && ClockOk(fs, target, q, log)
    requires q.now <= next.now && StrLess(q.stamp, next.stamp)
    ensures ClockOk(r, target, next, Logged(fs, target, q, log))
  {
    hide AfterCopy, VictimsOk, StrLess, StagedMode, BackupName;
    var after := Logged(fs, target, q, log);
    var victims :| VictimsOk(fs, target, true, maxBackups, CleanIo(q), victims) && r == Outcome(fs, target, q.content, true, q.mode, CleanIo(q), victims);
    assert target in r && r[target].mtime == q.now;
    StampOrder(target, q.stamp, next.stamp);
    forall i | 0 <= i < |after|
      ensures StrLess(after[i].name, BackupName(target, next.stamp)) && after[i].file.mtime <= r[target].mtime
    {
      if i < |log| {
        assert after[i] == log[i];
        StrLessTransitive(log[i].name, BackupName(target, q.stamp), BackupName(target, next.stamp));
      }
    }
  }

  lemma {:induction false} ClockFits(states: seq<Files>, writes: seq<Request>, target: string,
                                     maxBackups: nat, log: seq<Version>, n: nat)
    requires |states| == |writes| + 1 && n < |writes| && ClockRuns(writes) && ClockOk(states[0], target, writes[0], log)
    requires forall i :: 0 <= i < n ==> CleanWrite(states[i], writes[i], target, maxBackups, states[i + 1])
    ensures ClockOk(states[n], target, writes[n], RunLog(states, writes, target, log, n))
  {
    if n > 0 {
      hide CleanWrite, ClockOk;
      ClockFits(states, writes, target, maxBackups, log, n - 1);
      ClockGoesOn(states[n - 1], target, writes[n - 1], writes[n], maxBackups, states[n],
                  RunLog(states, writes, target, log, n - 1));
    }
  }

  // After any number of clean writes the backups are exactly the last maxBackups non-empty versions
  // that were replaced, with their contents, and sort in the order in which they were replaced. The
  // clock is asked to run forward from write to write, and to fit the directory before the first.
  lemma {:induction false} BackupsAreLastVersions(states: seq<Files>, writes: seq<Request>, target: string,
                                                  maxBackups: nat, log: seq<Version>, n: nat)
    requires |states| == |writes| + 1 && n <= |writes|
    requires Keeps(states[0], target, maxBackups, log)
    requires ClockRuns(writes) && (n > 0 ==> ClockOk(states[0], target, writes[0], log))
    requires forall i :: 0 <= i < n ==> CleanWrite(states[i], writes[i], target, maxBackups, states[i + 1])
    ensures Keeps(states[n], target, maxBackups, RunLog(states, writes, target, log, n))
  {
    if n > 0 {
      hide CleanWrite, ClockOk, Keeps;
      BackupsAreLastVersions(states, writes, target, maxBackups, log, n - 1);
      ClockFits(states, writes, target, maxBackups, log, n - 1);
      CleanWriteKeeps(states[n - 1], writes[n - 1], target, maxBackups, states[n],
                      RunLog(states, writes, target, log, n - 1));
    }
  }
}
