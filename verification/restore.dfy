/** The vault restore: stage the snapshot, move the live contents aside, swap, and roll back on any
    error.  Every call may fail, in any of its ways, at any point. */
module Restore {
  import opened Options
  import opened Trees
  import opened Merge

  /** How a rename is refused. */
  datatype Errno = Done | EXDEV | EBUSY | EOTHER

  /** How a move of entries ends: all moved, some source paths left out of a copy, or an error. */
  datatype MoveEnd = AllMoved | LeftOver | Raised

  /** How a restore ends.  `Refused`: before the swap began; `RolledBack`: after an error, with the
      old contents put back; `UndoFailed`: the roll-back failed too, and the backup is kept. */
  datatype RestoreEnd = Restored | Refused | RolledBack | UndoFailed

  type Kids = map<Name, Tree>

  /** The entry `n` is in `dir` exactly as it was in `was`. */
  predicate Has(dir: Kids, was: Kids, n: Name) {
    n in was && n in dir && dir[n] == was[n]
  }

  /** Whether any call has failed, other than a rename refused with EXDEV, or the box has come between. */
  class Faults {
    ghost var seen: bool
    /** The removal of a whole directory has failed. */
    ghost var stuck: bool

    constructor ()
      ensures !seen && !stuck
    {
      seen, stuck := false, false;
    }
  }

  /** A directory beside the vault, or the vault itself. */
  class Folder {
    var there: bool
    var kids: Kids

    constructor (kids: Kids, there: bool)
      ensures this.kids == kids && this.there == there
    {
      this.kids, this.there := kids, there;
    }

    /** The entry names; the callers take them in some order. */
    method ListDir(f: Faults) returns (ok: bool, names: set<Name>)
      modifies f`seen
      ensures ok ==> there && names == kids.Keys
      ensures (!ok && there) || old(f.seen) ==> f.seen
    {
      ok := *;
      if !ok || !there {
        f.seen := f.seen || there;
        return false, {};
      }
      names := kids.Keys;
    }

    method MakeDir(f: Faults) returns (ok: bool)
      modifies this, f`seen
      ensures ok ==> !old(there) && there && kids == map[]
      ensures !ok ==> there == old(there) && kids == old(kids)
      ensures (!ok && !old(there)) || old(f.seen) ==> f.seen
    {
      ok := *;
      if !ok || there {
        f.seen := f.seen || !there;
        return false;
      }
      there, kids := true, map[];
    }

    /** Remove the entry `n` and everything in it.  An error may leave any part of it. */
    method Remove(f: Faults, n: Name) returns (ok: bool)
      modifies this`kids, f`seen
      ensures ok ==> kids == old(kids) - {n}
      ensures kids - {n} == old(kids) - {n}
      ensures !ok || old(f.seen) ==> f.seen
    {
      var junk: Kids := *;
      ok := *;
      kids := kids - {n};
      if !ok {
        f.seen := true;
        if n in junk {
          kids := kids[n := junk[n]];
        }
      }
    }

    /** Remove the whole directory, if it is there; an error may leave any part of it. */
    method RemoveDir(f: Faults) returns (ok: bool)
      modifies this, f
      ensures (ok ==> !there) && (there ==> old(there))
      ensures kids.Keys <= old(kids.Keys)
      ensures !ok || old(f.seen) ==> f.seen
      ensures f.stuck <==> !ok || old(f.stuck)
    {
      var junk: Kids := *;
      ok := *;
      there, kids := there && !ok, if ok then map[] else map n | n in kids && n in junk :: junk[n];
      f.seen, f.stuck := f.seen || !ok, f.stuck || !ok;
    }

    /** Fill this directory with an exact copy of a snapshot. */
    method CopyFrom(f: Faults, snapshot: Kids) returns (ok: bool)
      modifies this`kids, f`seen
      ensures ok ==> kids == snapshot
      ensures !ok || old(f.seen) ==> f.seen
    {
      var junk: Kids := *;
      ok := *;
      kids := if ok then snapshot else junk;
      f.seen := f.seen || !ok;
    }
  }

  /** One rename of the entry `n` from `src` to `dst` (module TreeLevel derives it from `Moves.Rename`). */
  method RenameEntry(f: Faults, src: Folder, dst: Folder, n: Name) returns (e: Errno)
    requires src != dst
    modifies src`kids, dst`kids, f`seen
    ensures e.Done? ==>
              && n in old(src.kids) && src.kids == old(src.kids) - {n}
              && dst.kids == old(dst.kids)[n := old(src.kids)[n]]
    ensures !e.Done? ==> src.kids == old(src.kids) && dst.kids == old(dst.kids)
    ensures e.Done? && n in old(dst.kids) ==>
              && old(src.kids[n]).DirT? == old(dst.kids[n]).DirT?
              && (old(dst.kids[n]).DirT? ==> old(dst.kids[n]).kids == map[])
    ensures e.EOTHER? && !f.seen && n in src.kids ==>
              n in dst.kids && (src.kids[n].DirT? ==> dst.kids[n].DirT? ==> dst.kids[n].kids != map[])
              && (src.kids[n].DirT? || dst.kids[n].DirT?)
    ensures e.EBUSY? || old(f.seen) ==> f.seen
  {
    if * { return EXDEV; }
    if n !in src.kids { return EOTHER; }
    if n in dst.kids && (src.kids[n].DirT? != dst.kids[n].DirT? || (dst.kids[n].DirT? && dst.kids[n].kids != map[])) {
      return EOTHER;
    }
    if * {
      f.seen := true;
      if * { return EBUSY; }
      return EOTHER;
    }
    dst.kids := dst.kids[n := src.kids[n]];
    src.kids := src.kids - {n};
    return Done;
  }

  /** Merge a copy of `src` into `dst` without following a link (the merge of module Merge; module
      TreeLevel derives both clauses from `CopyTree.Copy`).  An error, or a link the box plants in the way,
      may leave anything under the names of `src` and under temp names, but no entry of `dst` with another
      name is touched. */
  method CopyMerge(f: Faults, src: Folder, dst: Folder) returns (r: MoveEnd)
    requires src != dst
    requires forall p :: !LeftOut(AsSrc(DirT(src.kids)), Some(DirT(dst.kids)), false, p)
    modifies dst`kids, f`seen
    ensures r.AllMoved? ==> dst.kids == MergedKids(AsSrc(DirT(src.kids)), old(dst.kids), false)
    ensures !r.AllMoved? ==> forall n | n in old(dst.kids) && n !in src.kids :: Has(dst.kids, old(dst.kids), n)
    ensures !r.AllMoved? || old(f.seen) ==> f.seen
  {
    if * {
      dst.kids := MergedKids(AsSrc(DirT(src.kids)), dst.kids, false);
      return AllMoved;
    }
    var kept := map n | n in dst.kids && n !in src.kids :: dst.kids[n];
    var junk: Kids := *;
    dst.kids := junk + kept;
    f.seen := true;
    if * { return LeftOver; }
    return Raised;
  }

  /** Where a move of all the entries of `src` into `dst` stands: what is `done` is whole in `dst`,
      the rest still whole in `src`, and `dst` keeps what it had. */
  ghost predicate Midway(src: Kids, dst: Kids, src0: Kids, dst0: Kids, done: set<Name>) {
    && done <= src0.Keys && src.Keys <= src0.Keys
    && (forall n | n in done :: Has(dst, src0, n))
    && (forall n | n in src0 && n !in done :: Has(src, src0, n))
    && (forall n | n in dst0 :: Has(dst, dst0, n))
  }

  /** Move every entry of `src`, the `names`, to `dst`: by renames, or, once a rename is refused
      with EXDEV, the rest by one merging copy and a removal.  `done`: what is whole in `dst`. */
  method MoveEntries(f: Faults, src: Folder, dst: Folder, names: set<Name>, check: bool)
    returns (r: MoveEnd, done: set<Name>)
    requires src != dst && names == src.kids.Keys
    requires src.kids.Keys !! dst.kids.Keys && PlainKids(src.kids)
    modifies src`kids, dst`kids, f`seen
    ensures Midway(src.kids, dst.kids, old(src.kids), old(dst.kids), done)
    ensures r.AllMoved? ==> src.kids == map[] && dst.kids == old(dst.kids) + old(src.kids) && done == names
    ensures !r.AllMoved? || old(f.seen) ==> f.seen
  {
    ghost var src0, dst0 := src.kids, dst.kids;
    done := {};
    var rest := names;
    while rest != {}
      invariant rest + done == src0.Keys && rest !! done
      invariant src.kids == src0 - done && dst.kids.Keys == dst0.Keys + done
      invariant Midway(src.kids, dst.kids, src0, dst0, done)
      invariant old(f.seen) ==> f.seen
    {
      var n :| n in rest;
      if check {
        if * {
          f.seen := true;
          return Raised, done;
        }
      }
      var e := RenameEntry(f, src, dst, n);
      if e.EXDEV? {
        r, done := CopyRest(f, src, dst, rest, done, check, src0, dst0);
        return;
      }
      if !e.Done? { return Raised, done; }
      done, rest := done + {n}, rest - {n};
    }
    r := AllMoved;
    UnionIs(dst.kids, dst0, src0);
  }

  lemma UnionIs(dst: Kids, dst0: Kids, src0: Kids)
    requires dst.Keys == dst0.Keys + src0.Keys && dst0.Keys !! src0.Keys
    requires (forall n | n in src0 :: Has(dst, src0, n)) && forall n | n in dst0 :: Has(dst, dst0, n)
    ensures dst == dst0 + src0
  {
    forall n | n in dst ensures dst[n] == (dst0 + src0)[n] {
      assert n in src0 ==> Has(dst, src0, n);
      assert n in dst0 ==> Has(dst, dst0, n);
    }
  }

  /** ... the `rest`, which renames cannot move: copy all of `src` into `dst`, then remove. */
  method CopyRest(f: Faults, src: Folder, dst: Folder, rest: set<Name>, before: set<Name>, check: bool,
                  ghost src0: Kids, ghost dst0: Kids)
    returns (r: MoveEnd, done: set<Name>)
    requires src != dst && rest + before == src0.Keys && rest !! before
    requires PlainKids(src0) && src0.Keys !! dst0.Keys
    requires Midway(src.kids, dst.kids, src0, dst0, before)
    requires src.kids == src0 - before && dst.kids.Keys == dst0.Keys + before
    modifies src`kids, dst`kids, f`seen
    ensures Midway(src.kids, dst.kids, src0, dst0, done)
    ensures r.AllMoved? ==> src.kids == map[] && dst.kids == dst0 + src0 && done == src0.Keys
    ensures !r.AllMoved? || old(f.seen) ==> f.seen
  {
    done := before;
    if * {
      f.seen := true;
      return Raised, done;
    }
    ghost var src1, dst1 := src.kids, dst.kids;
    CopyDisjoint(src1, dst1);
    r := CopyMerge(f, src, dst);
    if !r.AllMoved? { return; }
    CopiedIsUnion(src1, dst1, dst.kids, src0, dst0, before);
    if * {
      f.seen := true;
      return Raised, done;
    }
    done := done + rest;
    var ok := RemoveNames(f, src, rest);
    OutsideKept(src.kids, src1, rest);
    r := if ok then AllMoved else Raised;
  }

  /** Remove the entries `names`, in some order, up to the first error. */
  method RemoveNames(f: Faults, dir: Folder, names: set<Name>) returns (ok: bool)
    modifies dir`kids, f`seen
    ensures dir.kids - names == old(dir.kids) - names
    ensures ok ==> dir.kids == old(dir.kids) - names
    ensures !ok || old(f.seen) ==> f.seen
  {
    var left := names;
    while left != {}
      invariant left <= names && dir.kids - left == old(dir.kids) - names
      invariant old(f.seen) ==> f.seen
    {
      var n :| n in left;
      ghost var was := dir.kids;
      ok := dir.Remove(f, n);
      if !ok {
        assert dir.kids - left == (dir.kids - {n}) - left == (was - {n}) - left == was - left;
        RemovedWithin(dir.kids, old(dir.kids), left, names);
        return;
      }
      assert dir.kids - (left - {n}) == was - left;
      left := left - {n};
    }
    assert dir.kids - {} == dir.kids;
    RemovedWithin(dir.kids, old(dir.kids), {}, names);
    ok := true;
  }

  lemma RemovedWithin(now: Kids, was: Kids, left: set<Name>, names: set<Name>)
    requires left <= names && now - left == was - names
    ensures now - names == was - names
  {
    assert now - names == (now - left) - names;
    assert (was - names) - names == was - names;
  }

  lemma CopiedIsUnion(src1: Kids, dst1: Kids, dst: Kids, src0: Kids, dst0: Kids, before: set<Name>)
    requires Midway(src1, dst1, src0, dst0, before) && src0.Keys !! dst0.Keys
    requires src1 == src0 - before && dst1.Keys == dst0.Keys + before && dst == dst1 + src1
    ensures dst == dst0 + src0
    ensures forall n | n in src0 :: Has(dst, src0, n)
    ensures forall n | n in dst0 :: Has(dst, dst0, n)
  {
    forall n | n in src0 ensures Has(dst, src0, n) {
      assert n in before ==> Has(dst1, src0, n);
    }
    forall n | n in dst0 ensures Has(dst, dst0, n) {
      assert Has(dst1, dst0, n);
    }
    UnionIs(dst, dst0, src0);
  }

  /** Between the first move and the end of a roll-back: what is `moved` is whole in the backup, the
      rest is still in place, unless the swap has begun, when everything was moved. */
  ghost predicate Aside(live: Kids, backup: Kids, was: Kids, moved: set<Name>, swapping: bool) {
    && moved <= was.Keys
    && (forall n | n in moved :: Has(backup, was, n))
    && (forall n | n in was && n !in moved :: Has(live, was, n))
    && (if swapping then moved == was.Keys else live.Keys <= was.Keys)
  }

  /** No old entry is lost: each is whole in the vault or in the backup. */
  ghost predicate Safe(live: Kids, backup: Kids, was: Kids) {
    forall n | n in was :: Has(live, was, n) || Has(backup, was, n)
  }

  /** Put the old contents back: clear what made it in, drop what is not whole in the backup, and
      move the backup back. */
  method RollBack(f: Faults, live: Folder, backup: Folder, moved: set<Name>, swapping: bool, ghost was: Kids)
    returns (ok: bool)
    requires live != backup && PlainKids(was)
    requires Aside(live.kids, backup.kids, was, moved, swapping)
    modifies live`kids, backup`kids, f`seen
    ensures ok ==> live.kids == was
    ensures !ok ==> Safe(live.kids, backup.kids, was)
    ensures (!ok && live.there && backup.there) || old(f.seen) ==> f.seen
    ensures !backup.there && moved == {} && !swapping ==> !ok && live.kids == old(live.kids)
  {
    var names: set<Name>;
    ok, names := live.ListDir(f);
    if !ok { return; }
    var clear := set n | n in names && (swapping || n in moved);
    ghost var live0, backup0 := live.kids, backup.kids;
    ok := RemoveNames(f, live, clear);
    StillSafe(live.kids, live0, backup0, backup0, was, moved, swapping, clear, {});
    assert clear == {} ==> live.kids - {} == live.kids && live0 - {} == live0;
    if !ok { return; }
    LiveCleared(live0, backup0, was, moved, swapping, clear);
    ok, names := backup.ListDir(f);
    if !ok { return; }
    ok := RemoveNames(f, backup, names - moved);
    StillSafe(live.kids, live0, backup.kids, backup0, was, moved, swapping, clear, names - moved);
    if !ok { return; }
    ghost var kept := backup.kids;
    BackupCleared(live0, backup0, was, moved, swapping);
    var r, done := MoveEntries(f, backup, live, moved, false);
    BackAgain(live.kids, backup.kids, was, moved, kept, done, r);
    ok := r.AllMoved?;
  }

  /** The vault cleared of what made it in holds what was not moved. */
  lemma LiveCleared(live0: Kids, backup0: Kids, was: Kids, moved: set<Name>, swapping: bool, clear: set<Name>)
    requires Aside(live0, backup0, was, moved, swapping)
    requires clear == set n | n in live0.Keys && (swapping || n in moved)
    ensures live0 - clear == was - moved
  {
    forall n | n in live0 - clear ensures n in was && n !in moved && live0[n] == was[n] {
      assert n in was && n !in moved ==> Has(live0, was, n);
    }
    forall n | n in was && n !in moved ensures n in live0 - clear {
      assert Has(live0, was, n);
    }
  }

  /** The backup cleared of what is not whole there holds what was moved. */
  lemma BackupCleared(live0: Kids, backup0: Kids, was: Kids, moved: set<Name>, swapping: bool)
    requires Aside(live0, backup0, was, moved, swapping)
    ensures
      var kept := backup0 - (backup0.Keys - moved);
      kept.Keys == moved && forall n | n in moved :: Has(kept, was, n)
  {
    forall n | n in moved ensures n in backup0 && Has(backup0 - (backup0.Keys - moved), was, n) {
      assert Has(backup0, was, n);
    }
  }

  /** Clearing either side, to its end or not, loses no old entry. */
  lemma StillSafe(live: Kids, live0: Kids, backup: Kids, backup0: Kids, was: Kids, moved: set<Name>, swapping: bool,
                  clear: set<Name>, drop: set<Name>)
    requires Aside(live0, backup0, was, moved, swapping)
    requires clear == set n | n in live0.Keys && (swapping || n in moved)
    requires live - clear == live0 - clear && backup - drop == backup0 - drop && drop !! moved
    ensures Safe(live, backup, was)
  {
    OutsideKept(live, live0, clear);
    OutsideKept(backup, backup0, drop);
    forall n | n in was ensures Has(live, was, n) || Has(backup, was, n) {
      assert if n in moved then Has(backup0, was, n) else Has(live0, was, n);
    }
  }

  /** What was not removed is as it was. */
  lemma OutsideKept(now: Kids, before: Kids, names: set<Name>)
    requires now - names == before - names
    ensures forall n | n !in names :: n in now <==> n in before
    ensures forall n | n !in names && n in before :: now[n] == before[n]
  {
    forall n | n !in names ensures n in now <==> n in before {
      assert n in now <==> n in now - names;
      assert n in before <==> n in before - names;
    }
    forall n | n !in names && n in before ensures now[n] == before[n] {
      assert now[n] == (now - names)[n] && before[n] == (before - names)[n];
    }
  }

  lemma BackAgain(live: Kids, backup: Kids, was: Kids, moved: set<Name>, kept: Kids, done: set<Name>, r: MoveEnd)
    requires moved <= was.Keys && kept.Keys == moved && forall n | n in moved :: Has(kept, was, n)
    requires Midway(backup, live, kept, was - moved, done)
    requires r.AllMoved? ==> live == (was - moved) + kept
    ensures r.AllMoved? ==> live == was
    ensures Safe(live, backup, was)
  {
    forall n | n in was ensures Has(live, was, n) || Has(backup, was, n) {
      if n !in moved {
        assert Has(live, was - moved, n);
      } else {
        assert Has(kept, was, n);
        assert n in done ==> Has(live, kept, n);
        assert n !in done ==> Has(backup, kept, n);
      }
    }
    if r.AllMoved? {
      forall n | n in live ensures n in was && live[n] == was[n] {
        assert n in moved ==> Has(kept, was, n);
      }
    }
  }

  /** Restore the vault `live` from `snapshot` (`None`: no such snapshot in this box's store).  `made`: the
      backup directory was made.  It is removed unless the roll-back failed, and so is the staging directory;
      what is left of either is what a removal that failed left. */
  method RestoreSnapshot(f: Faults, live: Folder, backup: Folder, staging: Folder, snapshot: Option<Kids>)
    returns (r: RestoreEnd, ghost made: bool)
    requires live != backup && live != staging && backup != staging && live.there
    requires PlainKids(live.kids) && (snapshot.Some? ==> PlainKids(snapshot.value))
    modifies live`kids, backup, staging, f
    ensures r.Restored? ==> snapshot.Some? && live.kids == snapshot.value
    ensures r.Refused? || r.RolledBack? ==> live.kids == old(live.kids)
    ensures r.UndoFailed? ==> Safe(live.kids, backup.kids, old(live.kids))
    ensures old(backup.there) ==> r.Refused? && backup.there && backup.kids == old(backup.kids)
    ensures !r.Restored? ==> f.seen || snapshot.None? || old(backup.there)
    ensures r.UndoFailed? ==> (made <==> backup.there) && (!made ==> live.kids == old(live.kids))
    ensures !old(backup.there) && !r.UndoFailed? && backup.there ==> f.stuck
    ensures staging.there ==> f.stuck || (r.Refused? && old(staging.there) && staging.kids == old(staging.kids))
    ensures snapshot.Some? && !old(backup.there) && !f.seen ==> r.Restored? && !backup.there && !staging.there
    ensures f.stuck && !old(f.stuck) ==> f.seen
    ensures old(f.seen) ==> f.seen
  {
    made := false;
    if snapshot.None? || backup.there { return Refused, made; }
    if * {
      f.seen := true;
      return Refused, made;
    }
    var ok := staging.RemoveDir(f);
    if !ok { return Refused, made; }
    ok := staging.MakeDir(f);
    if !ok { return Refused, made; }
    ok := staging.CopyFrom(f, snapshot.value);
    if ok {
      ok := *;
      f.seen := f.seen || !ok;
    }
    if !ok {
      r := Refused;
    } else {
      r, made := Swap(f, live, backup, staging);
    }
    var gone := staging.RemoveDir(f);
    if !r.UndoFailed? {
      gone := backup.RemoveDir(f);
    }
  }

  /** Two restores one after the other: where no call fails, the first leaves nothing that refuses the second. */
  method RestoreTwice(f: Faults, live: Folder, backup: Folder, staging: Folder, first: Kids, second: Kids)
    returns (r: RestoreEnd)
    requires live != backup && live != staging && backup != staging && live.there && !backup.there
    requires PlainKids(live.kids) && PlainKids(first) && PlainKids(second)
    modifies live`kids, backup, staging, f
    ensures !f.seen ==> r.Restored? && live.kids == second && !backup.there && !staging.there
  {
    ghost var made;
    r, made := RestoreSnapshot(f, live, backup, staging, Some(first));
    if r.Restored? {
      r, made := RestoreSnapshot(f, live, backup, staging, Some(second));
    }
  }

  /** Move the live contents aside and the staged contents in; on any error, roll back. */
  method Swap(f: Faults, live: Folder, backup: Folder, staging: Folder) returns (r: RestoreEnd, ghost made: bool)
    requires live != backup && live != staging && backup != staging
    requires PlainKids(live.kids) && PlainKids(staging.kids) && live.there && staging.there && !backup.there
    modifies live`kids, backup, staging`kids, f`seen
    ensures !r.Refused? && (!r.Restored? || old(f.seen) ==> f.seen)
    ensures r.Restored? ==> live.kids == old(staging.kids)
    ensures r.RolledBack? ==> live.kids == old(live.kids)
    ensures r.UndoFailed? ==> Safe(live.kids, backup.kids, old(live.kids))
    ensures made <==> backup.there
    ensures !made ==> r.UndoFailed? && live.kids == old(live.kids)
  {
    ghost var was, staged := live.kids, staging.kids;
    var moved: set<Name>, swapping: bool := {}, false;
    var names: set<Name>;
    var ok := backup.MakeDir(f);
    made := ok;
    if ok {
      ok, names := live.ListDir(f);
      if ok {
        var end: MoveEnd;
        end, moved := MoveEntries(f, live, backup, names, false);
        if end.AllMoved? {
          swapping := true;
          ok, names := staging.ListDir(f);
          if ok {
            var placed: set<Name>;
            end, placed := MoveEntries(f, staging, live, names, true);
            if end.AllMoved? { return Restored, made; }
          }
        }
      }
    }
    ok := RollBack(f, live, backup, moved, swapping, was);
    return if ok then RolledBack else UndoFailed, made;
  }
}
