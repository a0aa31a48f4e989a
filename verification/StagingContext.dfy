/**
  The staging context manager (app/core/atomic_io.py:297-426): commit by two renames with a
  tombstone and a rollback, cleanup, and the exit rule.
*/
module StagingContext {
  import opened Text
  import opened DirectoryDisk

  // How the operating system answers during one commit
  datatype CommitIo = CommitIo(tombstone: string, moveOldOk: bool, moveNewOk: bool, rollbackOk: bool, removal: Removal)

  datatype CommitResult = Committed(path: string) | StageMissing | SwapFailed

  // The directories after commit() of a stage that exists and a rename that is wanted
  function AfterCommit(ds: Dirs, stage: string, target: string, io: CommitIo): Dirs
    requires stage in ds
  {
    if target !in ds then
      if io.moveNewOk then ds[target := ds[stage]] - {stage} else ds
    else if !io.moveOldOk then ds
    else if io.moveNewOk then
      AfterRemoval(ds[io.tombstone := ds[target]][target := ds[stage]] - {stage}, io.tombstone, io.removal)
    else if io.rollbackOk then ds
    else ds[io.tombstone := ds[target]] - {target}
  }

  predicate CommitOk(ds: Dirs, target: string, io: CommitIo) {
    io.moveNewOk && (target in ds ==> io.moveOldOk)
  }

  class Context {
    const targetDir: string
    const atomicRename: bool
    const disk: Disk
    var stageDir: Option<string>
    var committed: bool

    ghost predicate Valid()
      reads this, disk
    {
      && disk.Valid()
      && (stageDir.Some? ==> stageDir.value != targetDir)
    }

    constructor (disk: Disk, targetDir: string, atomicRename: bool)
      requires disk.Valid()
      ensures Valid() && this.disk == disk && this.targetDir == targetDir && this.atomicRename == atomicRename
      ensures stageDir == None && !committed
    {
      this.disk, this.targetDir, this.atomicRename := disk, targetDir, atomicRename;
      stageDir, committed := None, false;
    }

    // __enter__: mkdtemp gives a new path
    method Enter(stage: string)
      requires Valid() && stage !in disk.dirs && stage != targetDir
      modifies this, disk
      ensures Valid() && stageDir == Some(stage) && !committed
      ensures disk.dirs == (if atomicRename || targetDir in old(disk.dirs) then old(disk.dirs)
                            else old(disk.dirs)[targetDir := map[]])[stage := map[]]
    {
      if !atomicRename && targetDir !in disk.dirs {
        disk.dirs := disk.dirs[targetDir := map[]];
        disk.trace := disk.trace + [disk.dirs];
      }
      disk.dirs := disk.dirs[stage := map[]];
      disk.trace := disk.trace + [disk.dirs];
      stageDir, committed := Some(stage), false;
    }

    method Commit(io: CommitIo) returns (r: CommitResult)
      requires Valid() && io.tombstone !in disk.dirs && io.tombstone != targetDir
      modifies this, disk
      ensures Valid() && stageDir == old(stageDir) && old(disk.trace) <= disk.trace
      // a repeated commit does nothing
      ensures old(committed) ==> r == Committed(targetDir) && committed && disk.dirs == old(disk.dirs) && disk.trace == old(disk.trace)
      ensures !old(committed) && (stageDir.None? || stageDir.value !in old(disk.dirs)) ==>
        r == StageMissing && !committed && disk.dirs == old(disk.dirs) && disk.trace == old(disk.trace)
      ensures !old(committed) && stageDir.Some? && stageDir.value in old(disk.dirs) ==>
        if !atomicRename then
          r == Committed(stageDir.value) && committed && disk.dirs == old(disk.dirs) && disk.trace == old(disk.trace)
        else
          && committed == old(CommitOk(disk.dirs, targetDir, io))
          && r == (if committed then Committed(targetDir) else SwapFailed)
          && disk.dirs == AfterCommit(old(disk.dirs), stageDir.value, targetDir, io)
          // a crash at any step
          && (targetDir in old(disk.dirs) ==>
                OldOrNew(disk.trace, |old(disk.trace)|, targetDir, io.tombstone,
                         old(disk.dirs)[targetDir], old(disk.dirs)[stageDir.value]))
    {
      if committed {
        return Committed(targetDir);
      }
      if stageDir.None? || stageDir.value !in disk.dirs {
        return StageMissing;
      }
      var stage := stageDir.value;
      if !atomicRename {
        committed := true;
        return Committed(stage);
      }
      if targetDir !in disk.dirs {
        if !io.moveNewOk {
          return SwapFailed;
        }
        disk.Rename(stage, targetDir);
        committed := true;
        return Committed(targetDir);
      }
      committed := SwapWithTombstone(stage, io);
      r := if committed then Committed(targetDir) else SwapFailed;
    }

    // The two renames over an existing target, the rollback, and the removal of the tombstone
    method SwapWithTombstone(stage: string, io: CommitIo) returns (ok: bool)
      requires disk.Valid() && stage in disk.dirs && targetDir in disk.dirs && stage != targetDir
      requires io.tombstone !in disk.dirs && io.tombstone != targetDir
      modifies disk
      ensures disk.Valid() && old(disk.trace) <= disk.trace && ok == (io.moveOldOk && io.moveNewOk)
      ensures disk.dirs == AfterCommit(old(disk.dirs), stage, targetDir, io)
      ensures OldOrNew(disk.trace, |old(disk.trace)|, targetDir, io.tombstone, old(disk.dirs)[targetDir], old(disk.dirs)[stage])
    {
      ok := false;
      if !io.moveOldOk {
        return;
      }
      disk.Rename(targetDir, io.tombstone);
      if !io.moveNewOk {
        if io.rollbackOk {
          disk.Rename(io.tombstone, targetDir);
          assert disk.dirs == old(disk.dirs);
        }
        return;
      }
      disk.Rename(stage, targetDir);
      disk.RemoveTree(io.tombstone, io.removal);
      ok := true;
    }

    method Cleanup(removal: Removal)
      requires Valid()
      modifies disk
      ensures Valid() && old(disk.trace) <= disk.trace
      ensures disk.dirs == if stageDir.Some? && stageDir.value in old(disk.dirs) && !committed
                           then AfterRemoval(old(disk.dirs), stageDir.value, removal) else old(disk.dirs)
      ensures forall i :: |old(disk.trace)| <= i < |disk.trace| ==>
        Get(disk.trace[i], targetDir) == old(Get(disk.dirs, targetDir))
    {
      if stageDir.Some? && stageDir.value in disk.dirs && !committed {
        disk.RemoveTree(stageDir.value, removal);
      }
    }

    // __exit__: a failing body never reaches the target; a clean one commits, once. None is returned
    // when no commit was due.
    method Exit(bodyFailed: bool, io: CommitIo, removal: Removal) returns (r: Option<CommitResult>)
      requires Valid() && io.tombstone !in disk.dirs && io.tombstone != targetDir
      modifies this, disk
      ensures Valid() && old(disk.trace) <= disk.trace
      ensures r.Some? <==> !bodyFailed && atomicRename && !old(committed)
      ensures r.None? ==> committed == old(committed)
      ensures r.None? ==> forall i :: |old(disk.trace)| <= i < |disk.trace| ==>
        Get(disk.trace[i], targetDir) == old(Get(disk.dirs, targetDir))
      ensures r.None? && old(committed) ==> disk.dirs == old(disk.dirs)
      ensures r.None? && removal.ok && !old(committed) && stageDir.Some? ==>
        disk.dirs == old(disk.dirs) - {stageDir.value}
      ensures r.Some? && (stageDir.None? || stageDir.value !in old(disk.dirs)) ==>
        r.value == StageMissing && !committed && disk.dirs == old(disk.dirs) && disk.trace == old(disk.trace)
      ensures r.Some? && stageDir.Some? && stageDir.value in old(disk.dirs) ==>
        && disk.dirs == AfterCommit(old(disk.dirs), stageDir.value, targetDir, io)
        && r.value == (if old(CommitOk(disk.dirs, targetDir, io)) then Committed(targetDir) else SwapFailed)
        && (targetDir in old(disk.dirs) ==>
              OldOrNew(disk.trace, |old(disk.trace)|, targetDir, io.tombstone,
                       old(disk.dirs)[targetDir], old(disk.dirs)[stageDir.value]))
    {
      if bodyFailed {
        Cleanup(removal);
        return None;
      }
      if atomicRename && !committed {
        var c := Commit(io);
        return Some(c);
      } else if !committed {
        Cleanup(removal);
      }
      return None;
    }
  }

  // What a commit means for the old tree: on success the target holds the staged tree and the stage
  // is gone; on failure the old tree is whole at the target, except that it is whole at the
  // tombstone exactly when the second rename and the rollback both failed. Nothing else moves.
  lemma CommitOutcome(ds: Dirs, stage: string, target: string, io: CommitIo)
    requires stage in ds && stage != target && io.tombstone !in ds && io.tombstone != target
    ensures var r := AfterCommit(ds, stage, target, io);
      var stranded := target in ds && io.moveOldOk && !io.moveNewOk && !io.rollbackOk;
      && (CommitOk(ds, target, io) ==> Get(r, target) == Some(ds[stage]) && stage !in r)
      && (!CommitOk(ds, target, io) ==>
            && Get(r, stage) == Some(ds[stage])
            && Get(r, target) == (if stranded then None else Get(ds, target))
            && Get(r, io.tombstone) == (if stranded then Get(ds, target) else None))
      && forall p :: p != stage && p != target && p != io.tombstone ==> Get(r, p) == Get(ds, p)
  {
  }
}
