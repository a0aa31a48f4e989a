/**
  Crash-safe file replacement with rotating backups (app/core/atomic_io.py:71-262). Every operating
  system call may fail, and the trace records every state of the directory a crash could leave.
*/
module AtomicIo {
  import opened Text

  type Bytes = seq<Byte>

  datatype File = File(data: Bytes, mtime: int, mode: nat)

  // The target's directory: names and what they hold
  type Files = map<string, File>

  function Get(fs: Files, p: string): Option<File> { if p in fs then Some(fs[p]) else None }

  // How the operating system answers during one write
  datatype Io = Io(
    staging: string,            // the name mkstemp picks
    stamp: string,              // the timestamp in the backup's name
    now: int,
    mkdirOk: bool, modeStatOk: bool, createOk: bool,
    writeOk: bool, written: nat, // bytes that reach a staging file whose write fails
    fsyncOk: bool, chmodOk: bool,
    sizeStatOk: bool, copyOk: bool, copied: Option<nat>, // what a failing copy leaves behind
    listOk: bool, statFails: set<string>, unlinkFails: set<string>,
    replaceOk: bool, cleanupOk: bool)

  datatype WriteResult = Written(bytes: nat, backup: Option<string>) | OsError

  // ---------- Backup names and their order ----------

  function BackupName(target: string, stamp: string): string { target + ".bak." + stamp }

  // The glob pattern target.bak.*
  predicate IsBackupName(target: string, p: string) {
    target + ".bak." <= p
  }

  function Backups(fs: Files, target: string): set<string> {
    set p | p in fs && IsBackupName(target, p)
  }

  // The sort key (mtime, name), with mtime 0 for a file that cannot be inspected
  function Mtime(fs: Files, statFails: set<string>, p: string): int
    requires p in fs
  {
    if p in statFails then 0 else fs[p].mtime
  }

  predicate Before(fs: Files, statFails: set<string>, a: string, b: string)
    requires a in fs && b in fs
  {
    var s, t := Mtime(fs, statFails, a), Mtime(fs, statFails, b);
    s < t || (s == t && StrLess(a, b))
  }

  lemma BeforeTotal(fs: Files, statFails: set<string>, a: string, b: string)
    requires a in fs && b in fs
    ensures Before(fs, statFails, a, b) || a == b || Before(fs, statFails, b, a)
    ensures !(Before(fs, statFails, a, b) && Before(fs, statFails, b, a))
  {
    StrLessTotal(a, b);
  }

  lemma BeforeTransitive(fs: Files, statFails: set<string>, a: string, b: string, c: string)
    requires a in fs && b in fs && c in fs
    requires Before(fs, statFails, a, b) && Before(fs, statFails, b, c)
    ensures Before(fs, statFails, a, c)
  {
    if StrLess(a, b) && StrLess(b, c) { StrLessTransitive(a, b, c); }
  }

  predicate Ascending(fs: Files, statFails: set<string>, s: seq<string>) {
    (forall i :: 0 <= i < |s| ==> s[i] in fs) &&
    forall i, j :: 0 <= i < j < |s| ==> Before(fs, statFails, s[i], s[j])
  }

  function Elements(s: seq<string>): set<string> { set p | p in s }

  function Insert(fs: Files, statFails: set<string>, x: string, s: seq<string>): seq<string>
    requires x in fs && forall p :: p in s ==> p in fs
  {
    if s == [] then [x]
    else if Before(fs, statFails, x, s[0]) then [x] + s
    else [s[0]] + Insert(fs, statFails, x, s[1..])
  }

  lemma {:induction false} InsertAscending(fs: Files, statFails: set<string>, x: string, s: seq<string>)
    requires x in fs && Ascending(fs, statFails, s) && x !in s
    ensures var r := Insert(fs, statFails, x, s);
      Ascending(fs, statFails, r) && Elements(r) == Elements(s) + {x} && |r| == |s| + 1
  {
    var r := Insert(fs, statFails, x, s);
    if s == [] {
    } else if Before(fs, statFails, x, s[0]) {
      forall i, j | 0 <= i < j < |r| ensures Before(fs, statFails, r[i], r[j]) {
        if i == 0 && j > 1 { BeforeTransitive(fs, statFails, x, s[0], s[j - 1]); }
      }
    } else {
      var t := Insert(fs, statFails, x, s[1..]);
      InsertAscending(fs, statFails, x, s[1..]);
      BeforeTotal(fs, statFails, x, s[0]);
      forall j | 0 < j < |r| ensures Before(fs, statFails, r[0], r[j]) {
        assert r[j] == t[j - 1] && t[j - 1] in Elements(t);
        if r[j] != x {
          var k :| 0 <= k < |s[1..]| && s[1..][k] == r[j];
          assert s[k + 1] == r[j];
        }
      }
      assert Elements(s) == {s[0]} + Elements(s[1..]);
      assert Elements(r) == {s[0]} + Elements(t);
    }
  }

  // The n oldest of a set of backups
  predicate IsOldest(fs: Files, statFails: set<string>, all: set<string>, victims: set<string>, n: nat)
    requires all <= fs.Keys
  {
    && victims <= all && |victims| == n
    && forall v, k :: v in victims && k in all - victims ==> Before(fs, statFails, v, k)
  }

  function Excess(count: nat, maxBackups: int): nat {
    if maxBackups < 0 || count <= maxBackups then 0 else count - maxBackups
  }

  lemma {:induction false} PrefixSize(fs: Files, statFails: set<string>, s: seq<string>)
    requires Ascending(fs, statFails, s)
    ensures |Elements(s)| == |s|
  {
    if s != [] {
      var n := |s| - 1;
      PrefixSize(fs, statFails, s[..n]);
      assert s[n] !in s[..n] by {
        forall i | 0 <= i < n ensures s[i] != s[n] { BeforeTotal(fs, statFails, s[i], s[n]); }
      }
      assert Elements(s) == Elements(s[..n]) + {s[n]};
    }
  }

  // The oldest n of an ascending list are its first n, and no other set qualifies
  lemma OldestIsPrefix(fs: Files, statFails: set<string>, s: seq<string>, victims: set<string>, n: nat)
    requires Ascending(fs, statFails, s) && n <= |s|
    ensures Elements(s) <= fs.Keys
    ensures IsOldest(fs, statFails, Elements(s), victims, n) <==> victims == Elements(s[..n])
  {
    var first := Elements(s[..n]);
    assert Ascending(fs, statFails, s[..n]);
    PrefixSize(fs, statFails, s[..n]);
    assert IsOldest(fs, statFails, Elements(s), first, n) by {
      forall v, k | v in first && k in Elements(s) - first ensures Before(fs, statFails, v, k) {
        var i :| 0 <= i < n && s[i] == v;
        var j :| 0 <= j < |s| && s[j] == k;
        assert j >= n by { assert forall m :: 0 <= m < n ==> s[..n][m] == s[m] && s[m] in first; }
      }
    }
    if IsOldest(fs, statFails, Elements(s), victims, n) && victims != first {
      SameSizeDiffer(first, victims);
      var p :| p in first - victims;
      var v :| v in victims - first;
      assert p in Elements(s) - victims && v in Elements(s) - first;
      BeforeTotal(fs, statFails, p, v);
      assert false;
    }
  }

  lemma SameSizeDiffer<T>(a: set<T>, b: set<T>)
    requires |a| == |b| && a != b
    ensures a - b != {} && b - a != {}
  {
    Intersection(a, b);
    Intersection(b, a);
    assert a * b == b * a;
    assert |a - b| == |b - a|;
    assert a == (a - b) + a * b && b == (b - a) + a * b;
  }

  lemma Intersection<T>(a: set<T>, b: set<T>)
    ensures |a| == |a - b| + |a * b|
  {
    assert a == (a - b) + a * b;
  }

  // ---------- What one write leaves ----------

  function TargetMode(fs: Files, target: string, mode: Option<nat>, io: Io): nat {
    if mode.Some? then mode.value
    else if target in fs && io.modeStatOk then fs[target].mode
    else 0x1A4  // octal 644
  }

  function StagedMode(fs: Files, target: string, mode: Option<nat>, io: Io): nat {
    if io.chmodOk then TargetMode(fs, target, mode, io) else 0x180  // octal 600
  }

  predicate Snapshots(fs: Files, target: string, makeBackup: bool, io: Io) {
    makeBackup && target in fs && io.sizeStatOk && |fs[target].data| > 0
  }

  // The directory after the copy of the old version, before any pruning
  function AfterCopy(fs: Files, target: string, makeBackup: bool, io: Io): Files {
    if !Snapshots(fs, target, makeBackup, io) then fs
    else
      var name := BackupName(target, io.stamp);
      if io.copyOk then fs[name := fs[target]]
      else match io.copied
        case None => fs
        case Some(n) =>
          var data := fs[target].data;
          fs[name := File(data[..if n < |data| then n else |data|], io.now, 0x1A4)]
  }

  predicate VictimsOk(fs: Files, target: string, makeBackup: bool, maxBackups: int, io: Io, victims: set<string>) {
    var copied := AfterCopy(fs, target, makeBackup, io);
    var all := Backups(copied, target);
    if Snapshots(fs, target, makeBackup, io) && io.copyOk && io.listOk then
      IsOldest(copied, io.statFails, all, victims, Excess(|all|, maxBackups))
    else victims == {}
  }

  // The whole directory after a write, given which backups were chosen for deletion
  function Outcome(fs: Files, target: string, content: Bytes, makeBackup: bool, mode: Option<nat>,
                   io: Io, victims: set<string>): Files {
    if !io.mkdirOk || !io.createOk then fs
    else if !io.writeOk || !io.fsyncOk then
      if io.cleanupOk then fs
      else fs[io.staging := File(if io.writeOk then content else Partial(content, io.written), io.now, 0x180)]
    else
      var staged := File(content, io.now, StagedMode(fs, target, mode, io));
      var kept := AfterCopy(fs, target, makeBackup, io) - (victims - io.unlinkFails);
      if io.replaceOk then kept[target := staged]
      else if io.cleanupOk then kept
      else kept[io.staging := staged]
  }

  function Partial(content: Bytes, n: nat): Bytes { content[..if n < |content| then n else |content|] }

  predicate Succeeds(io: Io) { io.mkdirOk && io.createOk && io.writeOk && io.fsyncOk && io.replaceOk }

  // mkstemp names are new and never look like the target or one of its backups
  predicate GoodNames(fs: Files, target: string, io: Io) {
    && io.staging !in fs && io.staging != target && !IsBackupName(target, io.staging)
    && io.staging != BackupName(target, io.stamp)
  }

  // ---------- The writer ----------

  class Directory {
    var files: Files
    ghost var trace: seq<Files>  // every state so far, the current one last

    ghost predicate Valid()
      reads this
    {
      trace != [] && trace[|trace| - 1] == files
    }

    constructor (initial: Files)
      ensures Valid() && files == initial && trace == [initial]
    {
      files := initial;
      trace := [initial];
    }

    // What p held in every state since the trace had the given length
    ghost predicate SteadySince(n: nat, p: string, was: Option<File>)
      reads this
    {
      forall i :: n <= i < |trace| ==> Get(trace[i], p) == was
    }

    method Store(p: string, f: File)
      requires Valid()
      modifies this
      ensures Valid() && files == old(files)[p := f] && trace == old(trace) + [files]
    {
      files := files[p := f];
      trace := trace + [files];
    }

    method Unlink(p: string)
      requires Valid()
      modifies this
      ensures Valid() && files == old(files) - {p} && trace == old(trace) + [files]
    {
      files := files - {p};
      trace := trace + [files];
    }

    // os.replace: one atomic step
    method Replace(src: string, dst: string)
      requires Valid() && src in files
      modifies this
      ensures Valid() && files == old(files)[dst := old(files)[src]] - (if src == dst then {} else {src})
      ensures trace == old(trace) + [files]
    {
      var f := files[src];
      files := files[dst := f] - (if src == dst then {} else {src});
      trace := trace + [files];
    }

    // The names the glob returns, sorted by (mtime, name)
    method SortedBackups(target: string, statFails: set<string>) returns (names: seq<string>)
      ensures Ascending(files, statFails, names) && Elements(names) == Backups(files, target)
    {
      var rest := Backups(files, target);
      names := [];
      while rest != {}
        invariant Ascending(files, statFails, names)
        invariant rest <= files.Keys && rest !! Elements(names)
        invariant rest + Elements(names) == Backups(files, target)
        decreases rest
      {
        var p :| p in rest;
        InsertAscending(files, statFails, p, names);
        names := Insert(files, statFails, p, names);
        rest := rest - {p};
      }
    }

    method PruneBackups(target: string, maxBackups: int, io: Io) returns (ghost victims: set<string>)
      requires Valid()
      modifies this
      ensures Valid() && old(trace) <= trace
      ensures var all := Backups(old(files), target);
        if io.listOk then IsOldest(old(files), io.statFails, all, victims, Excess(|all|, maxBackups))
        else victims == {}
      ensures files == old(files) - (victims - io.unlinkFails)
      ensures forall p :: !IsBackupName(target, p) ==> SteadySince(|old(trace)|, p, old(Get(files, p)))
    {
      victims := {};
      if maxBackups < 0 || !io.listOk {
        return;
      }
      var candidates := SortedBackups(target, io.statFails);
      PrefixSize(files, io.statFails, candidates);
      var excess := |candidates| - maxBackups;
      if excess <= 0 {
        return;
      }
      for i := 0 to excess
        invariant Valid() && old(trace) <= trace
        invariant files == old(files) - (Elements(candidates[..i]) - io.unlinkFails)
        invariant forall p :: !IsBackupName(target, p) ==> SteadySince(|old(trace)|, p, old(Get(files, p)))
      {
        assert Elements(candidates[..i + 1]) == Elements(candidates[..i]) + {candidates[i]};
        assert candidates[i] in Elements(candidates);
        if candidates[i] !in io.unlinkFails {
          Unlink(candidates[i]);
        }
      }
      victims := Elements(candidates[..excess]);
      OldestIsPrefix(old(files), io.statFails, candidates, victims, excess);
    }

    method CreateBackupSnapshot(target: string, maxBackups: int, io: Io)
      returns (backup: Option<string>, ghost victims: set<string>)
      requires Valid()
      modifies this
      ensures Valid() && old(trace) <= trace
      ensures VictimsOk(old(files), target, true, maxBackups, io, victims)
      ensures files == AfterCopy(old(files), target, true, io) - (victims - io.unlinkFails)
      ensures backup == if Snapshots(old(files), target, true, io) && io.copyOk
                        then Some(BackupName(target, io.stamp)) else None
      ensures forall p :: !IsBackupName(target, p) ==> SteadySince(|old(trace)|, p, old(Get(files, p)))
    {
      victims := {};
      backup := None;
      if target !in files || !io.sizeStatOk || |files[target].data| == 0 {
        return;
      }
      var name := BackupName(target, io.stamp);
      if !io.copyOk {
        if io.copied.Some? {
          Store(name, File(Partial(files[target].data, io.copied.value), io.now, 0x1A4));
        }
        return;
      }
      Store(name, files[target]);
      victims := PruneBackups(target, maxBackups, io);
      backup := Some(name);
    }

    // The target holds its whole old content in every state up to the replacement, and its whole
    // new content in every state from then on.
    ghost predicate NeverTorn(n: nat, target: string, before: Option<File>, after: File)
      reads this
    {
      && (forall i :: n <= i < |trace| ==> Get(trace[i], target) == before || Get(trace[i], target) == Some(after))
      && (forall i, j :: n <= i < j < |trace| && Get(trace[i], target) != before ==> Get(trace[j], target) == Some(after))
    }

    method AtomicWriteFile(target: string, content: Bytes, maxBackups: int, makeBackup: bool, mode: Option<nat>, io: Io)
      returns (r: WriteResult, ghost victims: set<string>)
      requires Valid() && GoodNames(files, target, io)
      modifies this
      ensures Valid() && old(trace) <= trace
      // a crash between any two steps
      ensures NeverTorn(|old(trace)|, target, old(Get(files, target)),
                        File(content, io.now, old(StagedMode(files, target, mode, io))))
      // the directory in the end, failures included
      ensures if io.mkdirOk && io.createOk && io.writeOk && io.fsyncOk
              then VictimsOk(old(files), target, makeBackup, maxBackups, io, victims) else victims == {}
      ensures files == Outcome(old(files), target, content, makeBackup, mode, io, victims)
      ensures r == if !Succeeds(io) then OsError
                   else Written(|content|, if old(Snapshots(files, target, makeBackup, io)) && io.copyOk
                                           then Some(BackupName(target, io.stamp)) else None)
    {
      hide AfterCopy, VictimsOk, Snapshots, IsBackupName, Partial, TargetMode, StagedMode;
      victims := {};
      if !io.mkdirOk || !io.createOk {
        return OsError, {};
      }
      NoSnapshot(files, target, maxBackups, io);
      var staged, backup: Option<string>;
      staged, backup, victims := StageAndSnapshot(target, content, maxBackups, makeBackup, mode, io);
      var replaceCompleted := PublishOrCleanUp(target, staged, io);
      r := if replaceCompleted then Written(|content|, backup) else OsError;
    }

    // The try block up to the replacement
    method StageAndSnapshot(target: string, content: Bytes, maxBackups: int, makeBackup: bool, mode: Option<nat>, io: Io)
      returns (staged: bool, backup: Option<string>, ghost victims: set<string>)
      requires Valid() && GoodNames(files, target, io)
      modifies this
      ensures Valid() && old(trace) <= trace && SteadySince(|old(trace)|, target, old(Get(files, target)))
      ensures staged == (io.writeOk && io.fsyncOk)
      ensures !staged ==> victims == {} && files == old(files)[io.staging :=
        File(if io.writeOk then content else Partial(content, io.written), io.now, 0x180)]
      ensures staged ==>
        && VictimsOk(old(files), target, makeBackup, maxBackups, io, victims)
        && io.staging !in victims && io.staging !in AfterCopy(old(files), target, makeBackup, io)
        && files == (AfterCopy(old(files), target, makeBackup, io) - (victims - io.unlinkFails))
                    [io.staging := File(content, io.now, StagedMode(old(files), target, mode, io))]
        && backup == if Snapshots(old(files), target, makeBackup, io) && io.copyOk
                     then Some(BackupName(target, io.stamp)) else None
    {
      hide AfterCopy, VictimsOk, Snapshots, IsBackupName, Partial, TargetMode;
      victims := {};
      backup := None;
      ghost var fs := files;
      NoSnapshot(fs, target, maxBackups, io);
      var targetMode := TargetMode(files, target, mode, io);
      staged := StageContent(target, content, targetMode, io);
      if staged && makeBackup {
        ghost var stage := files[io.staging];
        StagingIsNoBackup(fs, target, io, stage);
        ghost var chosen;
        backup, chosen := CreateBackupSnapshot(target, maxBackups, io);
        victims := chosen;
        VictimsIgnoreStaging(fs, target, maxBackups, io, stage, victims);
      }
    }

    // The replacement, and the finally clause that unlinks a staging file left behind
    method PublishOrCleanUp(target: string, staged: bool, io: Io) returns (replaceCompleted: bool)
      requires Valid() && io.staging in files && io.staging != target
      modifies this
      ensures Valid() && old(trace) <= trace && |trace| <= |old(trace)| + 1
      ensures replaceCompleted == (staged && io.replaceOk)
      ensures files == if replaceCompleted then old(files)[target := old(files)[io.staging]] - {io.staging}
                       else if io.cleanupOk then old(files) - {io.staging}
                       else old(files)
    {
      replaceCompleted := false;
      if staged && io.replaceOk {
        Replace(io.staging, target);
        replaceCompleted := true;
      }
      if !replaceCompleted && io.cleanupOk {
        Unlink(io.staging);
      }
    }

    // Writing, flushing and adjusting the staging file; on failure a part of it may be there
    method StageContent(target: string, content: Bytes, targetMode: nat, io: Io) returns (ok: bool)
      requires Valid() && GoodNames(files, target, io)
      modifies this
      ensures Valid() && old(trace) <= trace
      ensures ok == (io.writeOk && io.fsyncOk)
      ensures files == old(files)[io.staging :=
        File(if io.writeOk then content else Partial(content, io.written), io.now,
             if ok && io.chmodOk then targetMode else 0x180)]
      ensures forall p :: p != io.staging ==> SteadySince(|old(trace)|, p, old(Get(files, p)))
    {
      Store(io.staging, File([], io.now, 0x180));
      if !io.writeOk {
        Store(io.staging, File(Partial(content, io.written), io.now, 0x180));
        return false;
      }
      Store(io.staging, File(content, io.now, 0x180));
      if !io.fsyncOk {
        return false;
      }
      if io.chmodOk {
        Store(io.staging, File(content, io.now, targetMode));
      }
      ok := true;
    }
  }

  lemma StagingIsNoBackup(fs: Files, target: string, io: Io, staged: File)
    requires GoodNames(fs, target, io)
    ensures Snapshots(fs[io.staging := staged], target, true, io) == Snapshots(fs, target, true, io)
    ensures AfterCopy(fs[io.staging := staged], target, true, io) == AfterCopy(fs, target, true, io)[io.staging := staged]
    ensures Backups(AfterCopy(fs[io.staging := staged], target, true, io), target) == Backups(AfterCopy(fs, target, true, io), target)
  {
  }

  lemma VictimsIgnoreStaging(fs: Files, target: string, maxBackups: int, io: Io, staged: File, victims: set<string>)
    requires GoodNames(fs, target, io)
    requires VictimsOk(fs[io.staging := staged], target, true, maxBackups, io, victims)
    ensures VictimsOk(fs, target, true, maxBackups, io, victims)
    ensures io.staging !in victims
  {
    StagingIsNoBackup(fs, target, io, staged);
  }

  lemma NoSnapshot(fs: Files, target: string, maxBackups: int, io: Io)
    requires GoodNames(fs, target, io)
    ensures !IsBackupName(target, target)
    ensures AfterCopy(fs, target, false, io) == fs && !Snapshots(fs, target, false, io)
    ensures VictimsOk(fs, target, false, maxBackups, io, {})
    ensures io.staging !in AfterCopy(fs, target, true, io)
  {
  }
}
