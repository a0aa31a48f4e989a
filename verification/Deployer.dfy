/**
  The release swap (app/engine/deployer.py:302-447): rename with rollback, a copying fallback when
  there is no target yet, and archiving of the replaced tree.
*/
module Deployer {
  import opened Text
  import opened DirectoryDisk

  // How the operating system answers during one swap
  datatype SwapIo = SwapIo(
    stamp: string, parentOk: bool,
    renameOk: bool, fallback: Move,                          // no target yet
    moveOldOk: bool, moveNewOk: bool, rollbackOk: bool,      // target exists
    removal: Removal,                                        // removing the tombstone
    backupParentOk: bool, archiveRenameOk: bool, archiveFallback: Move)

  function Tombstone(target: string, io: SwapIo): string { target + ".old." + io.stamp }

  // An existing backup directory collects the archives; a new one becomes the archive
  function ArchiveDest(ds: Dirs, backup: string, name: string, io: SwapIo): string {
    if backup in ds then backup + "/" + name + ".backup." + io.stamp else backup
  }

  // The tombstone and the archive
  function SwapPaths(ds: Dirs, tombstone: string, name: string, backup: Option<string>, io: SwapIo): set<string> {
    {tombstone} + if backup.Some? then {ArchiveDest(ds, backup.value, name, io)} else {}
  }

  // What becomes of the tombstone
  function AfterArchive(ds: Dirs, tombstone: string, name: string, backup: Option<string>, io: SwapIo): Dirs
    requires tombstone in ds
  {
    match backup
    case None => AfterRemoval(ds, tombstone, io.removal)
    case Some(b) =>
      if !io.backupParentOk then AfterRemoval(ds, tombstone, io.removal)
      else
        var dest := ArchiveDest(ds, b, name, io);
        if io.archiveRenameOk then ds[dest := ds[tombstone]] - {tombstone}
        else
          var moved := AfterMove(ds, tombstone, dest, io.archiveFallback);
          if MoveOk(io.archiveFallback) || tombstone !in moved then moved
          else AfterRemoval(moved, tombstone, io.removal)
  }

  // The swap gets as far as touching directories
  predicate Attempted(ds: Dirs, staged: string, target: string, io: SwapIo) {
    staged in ds && staged != target && io.parentOk
  }

  function Result(ds: Dirs, staged: string, target: string, io: SwapIo): bool {
    Attempted(ds, staged, target, io) &&
    if target !in ds then io.renameOk || MoveOk(io.fallback) else io.moveOldOk && io.moveNewOk
  }

  // The directories after a swap that found a target: the two renames only
  function AfterRenames(ds: Dirs, staged: string, target: string, io: SwapIo): Dirs
    requires staged in ds && target in ds
  {
    if !io.moveOldOk then ds
    else if io.moveNewOk then ds[Tombstone(target, io) := ds[target]][target := ds[staged]] - {staged}
    else if io.rollbackOk then ds
    else ds[Tombstone(target, io) := ds[target]] - {target}
  }

  // The paths involved are different places
  predicate Apart(ds: Dirs, staged: string, target: string, name: string, backup: Option<string>, io: SwapIo) {
    var t := Tombstone(target, io);
    && t !in ds && t != staged && t != target
    && (backup.Some? ==>
          var dest := ArchiveDest(ds, backup.value, name, io);
          && backup.value !in {staged, target, t}
          && dest !in ds && dest !in {staged, target, t})
  }

  // The archive is reached, by the rename or by a complete copy
  predicate Archives(io: SwapIo) { io.backupParentOk && (io.archiveRenameOk || !io.archiveFallback.CopyFailed?) }

  // In every state from n on the tree is whole at one of these places
  predicate WholeAt(trace: seq<Dirs>, n: nat, tree: Tree, places: set<string>) {
    forall i :: n <= i < |trace| ==> WholeNow(trace[i], tree, places)
  }

  predicate WholeNow(ds: Dirs, tree: Tree, places: set<string>) { exists p :: p in places && Get(ds, p) == Some(tree) }

  method PerformInitialTargetMove(disk: Disk, staged: string, target: string, io: SwapIo) returns (ok: bool)
    requires disk.Valid() && staged in disk.dirs && target !in disk.dirs && staged != target
    modifies disk
    ensures disk.Valid() && old(disk.trace) <= disk.trace
    ensures ok == (io.renameOk || MoveOk(io.fallback))
    ensures disk.dirs == AfterMove(old(disk.dirs), staged, target, if io.renameOk then Renamed else io.fallback)
    // a crash at any step: the new tree is whole at one of the two places
    ensures WholeAt(disk.trace, |old(disk.trace)|, old(disk.dirs)[staged], {staged, target})
  {
    if io.renameOk {
      disk.Rename(staged, target);
      return true;
    }
    ok := disk.MoveTree(staged, target, io.fallback);
  }

  method SwapDirectoriesWithRollback(disk: Disk, staged: string, target: string, io: SwapIo) returns (ok: bool)
    requires disk.Valid() && staged in disk.dirs && target in disk.dirs && staged != target
    requires Apart(disk.dirs, staged, target, "", None, io)
    modifies disk
    ensures disk.Valid() && old(disk.trace) <= disk.trace
    ensures ok == (io.moveOldOk && io.moveNewOk)
    ensures disk.dirs == AfterRenames(old(disk.dirs), staged, target, io)
    ensures OldOrNew(disk.trace, |old(disk.trace)|, target, Tombstone(target, io), old(disk.dirs)[target], old(disk.dirs)[staged])
    // the old tree is whole at one of the two places, whatever happens
    ensures WholeAt(disk.trace, |old(disk.trace)|, old(disk.dirs)[target], {target, Tombstone(target, io)})
  {
    var tombstone := Tombstone(target, io);
    if !io.moveOldOk {
      return false;
    }
    disk.Rename(target, tombstone);
    if io.moveNewOk {
      disk.Rename(staged, target);
      return true;
    }
    if io.rollbackOk {
      disk.Rename(tombstone, target);
      assert disk.dirs == old(disk.dirs);
    }
    ok := false;
  }

  method ArchiveOrCleanupTombstone(disk: Disk, tombstone: string, name: string, backup: Option<string>, io: SwapIo)
    requires disk.Valid() && tombstone in disk.dirs
    requires backup.Some? ==> ArchiveDest(disk.dirs, backup.value, name, io) !in disk.dirs
    modifies disk
    ensures disk.Valid() && old(disk.trace) <= disk.trace
    ensures disk.dirs == AfterArchive(old(disk.dirs), tombstone, name, backup, io)
    // no other directory is touched meanwhile
    ensures var busy := SwapPaths(old(disk.dirs), tombstone, name, backup, io);
      forall i, p :: |old(disk.trace)| <= i < |disk.trace| && p !in busy ==>
        Get(disk.trace[i], p) == Get(old(disk.dirs), p)
    // a crash while archiving: the tree is whole at the tombstone or in the archive
    ensures backup.Some? && Archives(io) ==>
      WholeAt(disk.trace, |old(disk.trace)|, old(disk.dirs)[tombstone], SwapPaths(old(disk.dirs), tombstone, name, backup, io))
  {
    if backup.None? {
      disk.RemoveTree(tombstone, io.removal);
      return;
    }
    var archived := false;
    if io.backupParentOk {
      var archiveDest := ArchiveDest(disk.dirs, backup.value, name, io);
      if io.archiveRenameOk {
        disk.Rename(tombstone, archiveDest);
        archived := true;
      } else {
        archived := disk.MoveTree(tombstone, archiveDest, io.archiveFallback);
      }
    }
    if !archived && tombstone in disk.dirs {
      ghost var places := SwapPaths(old(disk.dirs), tombstone, name, backup, io);
      ghost var middle := disk.trace;
      assert Archives(io) ==> WholeAt(middle, |old(disk.trace)|, old(disk.dirs)[tombstone], places);
      disk.RemoveTree(tombstone, io.removal);
      if Archives(io) {
        assert forall i :: |middle| <= i < |disk.trace| ==> WholeNow(disk.trace[i], old(disk.dirs)[tombstone], places);
        LongerAt(middle, disk.trace, |old(disk.trace)|, old(disk.dirs)[tombstone], places);
      }
    }
  }

  // The directories after a whole swap
  function AfterSwap(ds: Dirs, staged: string, target: string, name: string, backup: Option<string>, io: SwapIo): Dirs
    requires Apart(ds, staged, target, name, backup, io)
  {
    if !Attempted(ds, staged, target, io) then ds
    else if target !in ds then AfterMove(ds, staged, target, if io.renameOk then Renamed else io.fallback)
    else
      var renamed := AfterRenames(ds, staged, target, io);
      if io.moveOldOk && io.moveNewOk then AfterArchive(renamed, Tombstone(target, io), name, backup, io) else renamed
  }

  method ExecuteAtomicSwap(disk: Disk, staged: string, target: string, name: string, backup: Option<string>, io: SwapIo)
    returns (ok: bool)
    requires disk.Valid() && Apart(disk.dirs, staged, target, name, backup, io)
    modifies disk
    ensures disk.Valid() && old(disk.trace) <= disk.trace
    ensures ok == Result(old(disk.dirs), staged, target, io)
    ensures disk.dirs == AfterSwap(old(disk.dirs), staged, target, name, backup, io)
    // a crash at any step of replacing an existing target
    ensures staged in old(disk.dirs) && target in old(disk.dirs) ==>
      OldOrNew(disk.trace, |old(disk.trace)|, target, Tombstone(target, io), old(disk.dirs)[target], old(disk.dirs)[staged])
    // a crash at any step of a first deployment
    ensures staged in old(disk.dirs) && target !in old(disk.dirs) ==>
      WholeAt(disk.trace, |old(disk.trace)|, old(disk.dirs)[staged], {staged, target})
    // with an archive that is reached, the old tree is whole somewhere at every step
    ensures staged in old(disk.dirs) && target in old(disk.dirs) && backup.Some? && Archives(io) ==>
      WholeAt(disk.trace, |old(disk.trace)|, old(disk.dirs)[target],
              {target} + SwapPaths(old(disk.dirs), Tombstone(target, io), name, backup, io))
  {
    if staged !in disk.dirs || staged == target || !io.parentOk {
      return false;
    }
    if target !in disk.dirs {
      ok := PerformInitialTargetMove(disk, staged, target, io);
      return;
    }
    ghost var places := {target} + SwapPaths(disk.dirs, Tombstone(target, io), name, backup, io);
    ok := SwapDirectoriesWithRollback(disk, staged, target, io);
    WiderAt(disk.trace, |old(disk.trace)|, old(disk.dirs)[target], {target, Tombstone(target, io)}, places);
    if ok {
      ghost var middle := disk.trace;
      assert backup.Some? ==> (backup.value in disk.dirs <==> backup.value in old(disk.dirs));
      ghost var archive := SwapPaths(disk.dirs, Tombstone(target, io), name, backup, io);
      ArchiveOrCleanupTombstone(disk, Tombstone(target, io), name, backup, io);
      if backup.Some? && Archives(io) {
        WiderAt(disk.trace, |middle|, old(disk.dirs)[target], archive, places);
        LongerAt(middle, disk.trace, |old(disk.trace)|, old(disk.dirs)[target], places);
      }
    }
  }

  lemma WiderAt(trace: seq<Dirs>, n: nat, tree: Tree, places: set<string>, wider: set<string>)
    requires WholeAt(trace, n, tree, places) && places <= wider
    ensures WholeAt(trace, n, tree, wider)
  {
    forall i | n <= i < |trace| ensures WholeNow(trace[i], tree, wider) {
      assert WholeNow(trace[i], tree, places);
    }
  }

  lemma LongerAt(first: seq<Dirs>, all: seq<Dirs>, n: nat, tree: Tree, places: set<string>)
    requires first <= all && WholeAt(first, n, tree, places) && WholeAt(all, |first|, tree, places)
    ensures WholeAt(all, n, tree, places)
  {
    hide WholeNow;
    forall i | n <= i < |all| ensures WholeNow(all[i], tree, places) {
      if i < |first| { assert all[i] == first[i]; }
    }
  }

  // A successful swap leaves the staged tree at the target, nothing at the staged path and nothing
  // else changed but the tombstone and the archive.
  lemma SuccessIsLive(ds: Dirs, staged: string, target: string, name: string, backup: Option<string>, io: SwapIo)
    requires Apart(ds, staged, target, name, backup, io) && Result(ds, staged, target, io)
    ensures var r := AfterSwap(ds, staged, target, name, backup, io);
      && Get(r, target) == Some(ds[staged]) && staged !in r
      && forall p :: p !in {staged, target} + SwapPaths(ds, Tombstone(target, io), name, backup, io) ==>
           Get(r, p) == Get(ds, p)
  {
    if target in ds && backup.Some? {
      var renamed := AfterRenames(ds, staged, target, io);
      assert backup.value in renamed <==> backup.value in ds;
    }
  }

  // A failed swap of an existing target keeps the old tree whole: at the target, or at the
  // tombstone exactly when the rollback failed too. The staged tree is kept as well.
  lemma FailureKeepsOld(ds: Dirs, staged: string, target: string, name: string, backup: Option<string>, io: SwapIo)
    requires Apart(ds, staged, target, name, backup, io) && !Result(ds, staged, target, io)
    requires staged in ds && target in ds
    ensures var r := AfterSwap(ds, staged, target, name, backup, io);
      var stranded := Attempted(ds, staged, target, io) && io.moveOldOk && !io.rollbackOk;
      && Get(r, if stranded then Tombstone(target, io) else target) == Some(ds[target])
      && (stranded ==> target !in r)
      && Get(r, staged) == Some(ds[staged])
  {
  }

  // The old tree is archived whole exactly when the backup place was reached, by the rename or by a
  // copy that brought everything, whether or not that copy then failed; otherwise it is gone, or left
  // in pieces by a failing removal.
  lemma ArchivedIff(ds: Dirs, staged: string, target: string, name: string, b: string, io: SwapIo)
    requires Apart(ds, staged, target, name, Some(b), io) && Result(ds, staged, target, io) && target in ds
    ensures var r := AfterSwap(ds, staged, target, name, Some(b), io);
      Get(r, ArchiveDest(ds, b, name, io)) == Some(ds[target])
      <==> io.backupParentOk && (io.archiveRenameOk || CopyArrives(io.archiveFallback, ds[target]))
  {
    var renamed := AfterRenames(ds, staged, target, io);
    assert b in renamed <==> b in ds;
  }

  // A move that has brought the whole tree, also one that then fails: over metadata at the end of the
  // copy, or over the removal of the source
  predicate CopyArrives(m: Move, tree: Tree) { !m.CopyFailed? || m.partial == Some(tree) }

  // The answer tells whether the target holds the staged tree, with one exception: no target was
  // there, the rename failed, and the fallback brought everything but then failed. Then False is
  // returned over a complete deployment.
  lemma AnswerIsTruthIff(ds: Dirs, staged: string, target: string, name: string, backup: Option<string>, io: SwapIo)
    requires Apart(ds, staged, target, name, backup, io) && staged in ds && staged != target
    requires Get(ds, target) != Some(ds[staged])
    ensures var r := AfterSwap(ds, staged, target, name, backup, io);
      (Result(ds, staged, target, io) <==> Get(r, target) == Some(ds[staged]))
      <==> !(io.parentOk && target !in ds && !io.renameOk && CopyArrives(io.fallback, ds[staged]) && !MoveOk(io.fallback))
  {
    if Result(ds, staged, target, io) { SuccessIsLive(ds, staged, target, name, backup, io); }
  }
}
