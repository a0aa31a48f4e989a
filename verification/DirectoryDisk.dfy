/**
  Directories as whole trees, and the operating system calls that move and remove them. The trace
  records every state a crash could leave, partial copies and partial removals included.
*/
module DirectoryDisk {
  import opened Text

  // A directory: relative file paths and contents
  type Tree = map<string, string>

  type Dirs = map<string, Tree>

  function Get(ds: Dirs, p: string): Option<Tree> { if p in ds then Some(ds[p]) else None }

  // rmtree: the states it goes through, and what a failing run leaves
  datatype Removal = Removal(ok: bool, passing: seq<Tree>, left: Tree)

  // shutil.move of a directory onto a path that does not exist, after a first rename has failed
  datatype Move =
    | Renamed
    | CopyFailed(copying: seq<Tree>, partial: Option<Tree>)
    | Copied(copying: seq<Tree>, removal: Removal)

  function AfterRemoval(ds: Dirs, p: string, r: Removal): Dirs {
    if r.ok then ds - {p} else ds[p := r.left]
  }

  function AfterMove(ds: Dirs, src: string, dst: string, m: Move): Dirs
    requires src in ds
  {
    match m
    case Renamed => ds[dst := ds[src]] - {src}
    case CopyFailed(_, partial) => if partial.Some? then ds[dst := partial.value] else ds
    case Copied(_, removal) => AfterRemoval(ds[dst := ds[src]], src, removal)
  }

  // The states a directory at p goes through
  function Passing(ds: Dirs, p: string, ts: seq<Tree>): seq<Dirs> {
    seq(|ts|, i requires 0 <= i < |ts| => ds[p := ts[i]])
  }

  predicate MoveOk(m: Move) { m.Renamed? || (m.Copied? && m.removal.ok) }

  class Disk {
    var dirs: Dirs
    ghost var trace: seq<Dirs>

    ghost predicate Valid()
      reads this
    {
      trace != [] && trace[|trace| - 1] == dirs
    }

    constructor (initial: Dirs)
      ensures Valid() && dirs == initial && trace == [initial]
    {
      dirs := initial;
      trace := [initial];
    }

    // os.replace of a directory onto a free path: one atomic step
    method Rename(src: string, dst: string)
      requires Valid() && src in dirs && src != dst
      modifies this
      ensures Valid() && dirs == old(dirs)[dst := old(dirs)[src]] - {src}
      ensures trace == old(trace) + [dirs]
    {
      dirs := dirs[dst := dirs[src]] - {src};
      trace := trace + [dirs];
    }

    method RemoveTree(p: string, r: Removal)
      requires Valid() && p in dirs
      modifies this
      ensures Valid() && dirs == AfterRemoval(old(dirs), p, r)
      ensures old(trace) <= trace
      ensures forall i, q :: |old(trace)| <= i < |trace| && q != p ==> Get(trace[i], q) == old(Get(dirs, q))
    {
      trace := trace + Passing(dirs, p, r.passing);
      dirs := AfterRemoval(dirs, p, r);
      trace := trace + [dirs];
    }

    // shutil.move
    method MoveTree(src: string, dst: string, m: Move) returns (ok: bool)
      requires Valid() && src in dirs && dst !in dirs && src != dst
      modifies this
      ensures Valid() && ok == MoveOk(m)
      ensures dirs == AfterMove(old(dirs), src, dst, m)
      ensures old(trace) <= trace
      ensures forall i, q :: |old(trace)| <= i < |trace| && q != src && q != dst ==> Get(trace[i], q) == old(Get(dirs, q))
      // until the copy is complete the source is untouched
      ensures forall i :: |old(trace)| <= i < |trace| ==>
        Get(trace[i], src) == old(Get(dirs, src)) || Get(trace[i], dst) == old(Get(dirs, src))
    {
      match m {
        case Renamed =>
          Rename(src, dst);
        case CopyFailed(copying, partial) =>
          trace := trace + Passing(dirs, dst, copying);
          if partial.Some? {
            dirs := dirs[dst := partial.value];
          }
          trace := trace + [dirs];
        case Copied(copying, removal) =>
          trace := trace + Passing(dirs, dst, copying);
          dirs := dirs[dst := dirs[src]];
          trace := trace + [dirs];
          ghost var soFar := trace;
          assert forall i :: |old(trace)| <= i < |soFar| ==> Get(soFar[i], src) == old(Get(dirs, src));
          assert Get(dirs, dst) == old(Get(dirs, src));
          RemoveTree(src, removal);
          assert forall i :: |soFar| <= i < |trace| ==> Get(trace[i], dst) == old(Get(dirs, src));
          assert forall i :: |old(trace)| <= i < |soFar| ==> trace[i] == soFar[i];
      }
      ok := MoveOk(m);
    }
  }

  // In every state from n on the old tree is whole at the target, or whole at the tombstone with
  // the target path free, or the new tree is whole at the target; and there it then stays.
  predicate OldOrNew(trace: seq<Dirs>, n: nat, target: string, tombstone: string, oldTree: Tree, newTree: Tree) {
    && (forall i :: n <= i < |trace| ==>
          || Get(trace[i], target) == Some(oldTree)
          || (target !in trace[i] && Get(trace[i], tombstone) == Some(oldTree))
          || Get(trace[i], target) == Some(newTree))
    && (forall i, j :: n <= i < j < |trace| && target in trace[i] && trace[i][target] != oldTree ==>
          Get(trace[j], target) == Some(newTree))
  }
}
