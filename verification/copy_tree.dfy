/** `copy_tree`: where a copy may start, and what it delivers for a whole directory. */
module CopyTree {
  import opened Options
  import opened Trees
  import opened Merge
  import opened CopySteps
  import opened CopyEnters
  import opened CopyScope
  import opened BoxFs

  /** The directory a copy to `leaf` of `parent` writes into: the one there, or the next inode. */
  function Dest(d: Disk, parent: Ino, leaf: Name): Ino {
    if leaf in Entries(d.nodes, parent) then Entries(d.nodes, parent)[leaf] else d.next
  }

  /** A copy of the directory `sfd` to `leaf` of `parent` cannot run into itself: the walk of the
      source stays in `reach`, which holds no directory of the destination's tree `kids`. */
  ghost predicate Apart(d: Disk, mode: Mode, reach: set<Ino>, sfd: Ino, parent: Ino, leaf: Name,
                        kids: map<Name, Tree>) {
    var dest := Dest(d, parent, leaf);
    && mode.avoid == dest
    && ReachClosed(d.nodes, mode, reach)
    && sfd in reach
    && (if IsDir(d.nodes, dest) then IsTree(d.nodes, dest, kids) && Owned(d.nodes, dest, kids) !! reach
        else kids == map[])
  }

  /** What the copy may write: the destination's directories, and its parent when it is made. */
  ghost function Writes(d: Disk, parent: Ino, leaf: Name, kids: map<Name, Tree>): set<Ino> {
    Owned(d.nodes, Dest(d, parent, leaf), kids) + if leaf in Entries(d.nodes, parent) then {} else {parent}
  }

  /** The source, as the copy reads it once the destination exists. */
  ghost function Source(d: Disk, mode: Mode, reach: set<Ino>, sfd: Ino, parent: Ino, leaf: Name): Src {
    Read(WithDir(d, parent, leaf).nodes, mode, reach, {}, sfd)
  }

  lemma {:induction false} OwnsClosed(nodes: Nodes, i: Ino, t: Tree, k: Ino, n: Name)
    requires Rep(nodes, i, t) && Owns(nodes, i, t, k)
    requires n in Entries(nodes, k) && IsDir(nodes, Entries(nodes, k)[n])
    ensures Owns(nodes, i, t, Entries(nodes, k)[n])
    decreases t
  {
    if k == i {
      var c := Entries(nodes, i)[n];
      assert Rep(nodes, c, t.kids[n]);
      assert Owns(nodes, c, t.kids[n], c);
      assert OwnsName(nodes, i, t, n, c);
    } else {
      var m :| m in t.kids && OwnsName(nodes, i, t, m, k);
      OwnsClosed(nodes, Entries(nodes, i)[m], t.kids[m], k, n);
      assert OwnsName(nodes, i, t, m, Entries(nodes, k)[n]);
    }
  }

  /** The destination is open: the one there, or the one just made; the walk of the source cannot reach
      what is written. */
  ghost predicate Opened(d: Disk, e: Disk, mode: Mode, reach: set<Ino>, sfd: Ino, parent: Ino, leaf: Name,
                         kids: map<Name, Tree>) {
    var dest := Dest(d, parent, leaf);
    && Ready(d) && IsDir(d.nodes, parent) && e == WithDir(d, parent, leaf) && Ready(e)
    && (leaf !in Entries(d.nodes, parent) ==> kids == map[])
    && ReachClosed(e.nodes, mode, reach) && sfd in reach && mode.avoid == dest
    && IsTree(e.nodes, dest, kids) && Owned(e.nodes, dest, kids) !! reach
  }

  /** A copy into an open destination can start. */
  lemma CopyStarts(e: Disk, mode: Mode, list: Listing, reach: set<Ino>, sfd: Ino, dfd: Ino, kids: map<Name, Tree>)
    requires Ready(e) && IsTree(e.nodes, dfd, kids) && Owned(e.nodes, dfd, kids) !! reach && mode.avoid == dfd
    requires ReachClosed(e.nodes, mode, reach) && sfd in reach && Lists(list)
    ensures
      var read := Read(e.nodes, mode, reach, {}, sfd);
      && read.SDir?
      && Starts(e, mode, reach, {sfd}, sfd, dfd, list(sfd, Entries(e.nodes, sfd).Keys), read, kids)
  {
    assert Owns(e.nodes, dfd, DirT(kids), dfd);
    assert dfd in e.nodes;
    assert {} + {sfd} == {sfd};
  }

  /** Making the destination does not open a way out of the source. */
  lemma MkdirOpens(d: Disk, mode: Mode, reach: set<Ino>, sfd: Ino, parent: Ino, leaf: Name)
    requires Ready(d) && IsDir(d.nodes, parent)
    requires Apart(d, mode, reach, sfd, parent, leaf, map[]) && leaf !in Entries(d.nodes, parent)
    ensures Opened(d, Put(d, parent, leaf, Dir(map[])), mode, reach, sfd, parent, leaf, map[])
  {
    var e := Put(d, parent, leaf, Dir(map[]));
    PutReady(d, parent, leaf, Dir(map[]));
    forall k ensures Owns(e.nodes, d.next, DirT(map[]), k) <==> k == d.next {
    }
    forall i, n | i in reach && n in Entries(e.nodes, i)
      ensures Entries(e.nodes, i)[n] in e.nodes && Inside(e.nodes, mode, reach, Entries(e.nodes, i)[n])
    {
      if i != parent || n != leaf {
        assert Entries(e.nodes, i)[n] == Entries(d.nodes, i)[n];
        assert Inside(d.nodes, mode, reach, Entries(d.nodes, i)[n]);
        assert e.nodes[Entries(d.nodes, i)[n]].Link? <==> d.nodes[Entries(d.nodes, i)[n]].Link?;
      }
    }
  }

  // --- every state on the way ----------------------------------------------------------

  /** The files of the destination that the source has files for. */
  ghost function Replaces(d: Disk, mode: Mode, reach: set<Ino>, sfd: Ino, parent: Ino, leaf: Name,
                          kids: map<Name, Tree>):
      set<(Ino, Name)> {
    Touchable(d.nodes, Dest(d, parent, leaf), kids, Source(d, mode, reach, sfd, parent, leaf))
  }

  /** What holds at every moment of a copy, and however it ends: only the destination was written, no name
      is lost, only files the source has files for are replaced, and what the source does not name at the
      destination, and every link there, holds what it held. */
  ghost predicate OnTheWay(d: Disk, nodes: Nodes, mode: Mode, reach: set<Ino>, sfd: Ino, parent: Ino, leaf: Name,
                           kids: map<Name, Tree>) {
    && OnlyWrites(d.nodes, nodes, Writes(d, parent, leaf, kids))
    && Grown(d.nodes, nodes, Replaces(d, mode, reach, sfd, parent, leaf, kids))
    && Spared(nodes, Dest(d, parent, leaf), kids, Source(d, mode, reach, sfd, parent, leaf))
  }

  ghost predicate AllOnTheWay(d: Disk, steps: seq<Nodes>, from: nat, mode: Mode, reach: set<Ino>, sfd: Ino, parent: Ino,
                              leaf: Name, kids: map<Name, Tree>) {
    forall k | from <= k < |steps| :: OnTheWay(d, steps[k], mode, reach, sfd, parent, leaf, kids)
  }

  /** A copy so far, or as it ended. */
  ghost predicate Underway(d: Disk, f: Disk, steps: seq<Nodes>, from: nat, mode: Mode, reach: set<Ino>, sfd: Ino,
                           parent: Ino, leaf: Name, kids: map<Name, Tree>) {
    && NewFall(d.nodes, f.nodes) && (leaf !in Entries(d.nodes, parent) ==> MadeOnly(d, f, parent, leaf))
    && OnTheWay(d, f.nodes, mode, reach, sfd, parent, leaf, kids)
    && AllOnTheWay(d, steps, from, mode, reach, sfd, parent, leaf, kids)
  }

  lemma {:induction false} EmptyTree(p: Path)
    ensures TreeAt(Some(DirT(map[])), p).Some? <==> p == []
  {
  }

  /** Of a destination just made there is nothing to replace, and nothing else to enter. */
  lemma NothingToTouch(nodes: Nodes, dfd: Ino, read: Src)
    ensures Touchable(nodes, dfd, map[], read) == {} && Enterable(nodes, dfd, map[], read) <= {dfd}
  {
    forall k, n | MayReplace(nodes, dfd, map[], read, k, n) ensures false {
      var p :| EntersAt(nodes, dfd, map[], read, k, p) && ReplacesAt(map[], read, p + [n]);
      EmptyTree(p + [n]);
    }
    forall k | MayEnter(nodes, dfd, map[], read, k) ensures k == dfd {
      var p :| EntersAt(nodes, dfd, map[], read, k, p);
      EmptyTree(p);
    }
  }

  /** A state within the scope of the copy's entries, seen from the start. */
  lemma WayFrom(d: Disk, e: Disk, nodes: Nodes, mode: Mode, reach: set<Ino>, sfd: Ino, parent: Ino, leaf: Name,
                kids: map<Name, Tree>)
    requires Opened(d, e, mode, reach, sfd, parent, leaf, kids)
    requires
      var dest, read := Dest(d, parent, leaf), Read(e.nodes, mode, reach, {}, sfd);
      OnlyWrites(e.nodes, nodes, Enterable(e.nodes, dest, kids, read))
        && Grown(e.nodes, nodes, Touchable(e.nodes, dest, kids, read))
    ensures OnTheWay(d, nodes, mode, reach, sfd, parent, leaf, kids)
  {
    var dest, read := Dest(d, parent, leaf), Read(e.nodes, mode, reach, {}, sfd);
    SparedBy(e.nodes, nodes, dest, kids, read);
    if leaf in Entries(d.nodes, parent) {
      EnterableOwned(e.nodes, dest, kids, read);
    } else {
      NothingToTouch(e.nodes, dest, read);
      NothingToTouch(d.nodes, dest, read);
      MadeGrown(d, e, nodes, parent, leaf, Enterable(e.nodes, dest, kids, read));
    }
  }

  lemma MadeGrown(d: Disk, e: Disk, nodes: Nodes, parent: Ino, leaf: Name, dirs: set<Ino>)
    requires Ready(d) && IsDir(d.nodes, parent) && leaf !in Entries(d.nodes, parent)
    requires e == Put(d, parent, leaf, Dir(map[])) && dirs <= {d.next}
    requires OnlyWrites(e.nodes, nodes, dirs) && Grown(e.nodes, nodes, {})
    ensures OnlyWrites(d.nodes, nodes, {parent}) && Grown(d.nodes, nodes, {})
  {
    forall k: Ino, n: Name | Names(d.nodes, k, n)
      ensures Entries(d.nodes, k)[n] in d.nodes && n in Entries(nodes, k)
              && Entries(nodes, k)[n] == Entries(d.nodes, k)[n]
    {
      assert Names(e.nodes, k, n);
    }
  }

  /** A copy that has not begun to write. */
  lemma WayStarts(d: Disk, mode: Mode, reach: set<Ino>, sfd: Ino, parent: Ino, leaf: Name, kids: map<Name, Tree>)
    requires Ready(d) && Apart(d, mode, reach, sfd, parent, leaf, kids)
    ensures OnTheWay(d, d.nodes, mode, reach, sfd, parent, leaf, kids)
  {
    var dest, read := Dest(d, parent, leaf), Source(d, mode, reach, sfd, parent, leaf);
    if IsDir(d.nodes, dest) {
      SparedBy(d.nodes, d.nodes, dest, kids, read);
    } else {
      forall p ensures !SparedAt(kids, read, p) {
        EmptyTree(p);
      }
    }
  }

  // --- the copy ------------------------------------------------------------------------

  /** What a copy leaves when it comes through: the merged tree at its destination, a report of
      exactly what was left out, and nothing else written. */
  ghost predicate CopyDone(d: Disk, e: Disk, mode: Mode, reach: set<Ino>, sfd: Ino, parent: Ino, leaf: Name,
                           kids: map<Name, Tree>, path: Path, skipped: seq<Path>) {
    var read := Source(d, mode, reach, sfd, parent, leaf);
    && read.SDir?
    && leaf in Entries(e.nodes, parent)
    && Entries(e.nodes, parent)[leaf] == Dest(d, parent, leaf)
    && IsTree(e.nodes, Dest(d, parent, leaf), MergedKids(read, kids, mode.skipLinks))
    && (forall k | Owns(e.nodes, Dest(d, parent, leaf), DirT(MergedKids(read, kids, mode.skipLinks)), k) ::
          k in Owned(d.nodes, Dest(d, parent, leaf), kids) || k !in d.nodes)
    && Reports(skipped, read, Some(DirT(kids)), mode.skipLinks, path)
  }

  /** The parent of a destination that was not there has, if anything, the new directory more. */
  ghost predicate MadeOnly(d: Disk, e: Disk, parent: Ino, leaf: Name) {
    && (Entries(e.nodes, parent) == Entries(d.nodes, parent)
        || (Entries(e.nodes, parent) == Entries(d.nodes, parent)[leaf := d.next] && IsDir(e.nodes, d.next)))
    && IsDir(e.nodes, parent)
  }

  /** From a directory made since `before`, only later ones made since can be entered. */
  ghost predicate NewFall(before: Nodes, nodes: Nodes) {
    forall k, n {:trigger Names(nodes, k, n)} | k !in before && Names(nodes, k, n)
      && IsDir(nodes, Entries(nodes, k)[n]) ::
      Entries(nodes, k)[n] !in before && k < Entries(nodes, k)[n]
  }

  /** The copy is refused without any call failing: the destination is there and not to be merged into,
      is no directory, or is the source itself. */
  predicate Refused(d: Disk, sfd: Ino, parent: Ino, leaf: Name, merge: bool) {
    leaf in Entries(d.nodes, parent)
    && (!merge || !IsDir(d.nodes, Entries(d.nodes, parent)[leaf]) || Entries(d.nodes, parent)[leaf] == sfd)
  }

  /** A directory of the set is entered by the copy. */
  ghost predicate Meets(d: Disk, mode: Mode, reach: set<Ino>, sfd: Ino, parent: Ino, leaf: Name,
                        kids: map<Name, Tree>, some: set<Ino>) {
    EntersAny(WithDir(d, parent, leaf).nodes, mode, reach, sfd, kids, some)
  }

  /** Every name in use in `after` is `leaf`, or was in use somewhere before. */
  ghost predicate CleanBut(before: Nodes, after: Nodes, leaf: Name) {
    forall k, m {:trigger Names(after, k, m)} | Names(after, k, m) :: m == leaf || exists i :: Names(before, i, m)
  }

  lemma CleanMade(d: Disk, parent: Ino, leaf: Name, nodes: Nodes)
    requires Ready(d) && Clean(WithDir(d, parent, leaf).nodes, nodes)
    ensures CleanBut(d.nodes, nodes, leaf)
  {
    PutIsNew(d, parent, leaf, Dir(map[]));
    var made := WithDir(d, parent, leaf).nodes;
    forall k, m | Names(nodes, k, m) && m != leaf ensures exists i :: Names(d.nodes, i, m) {
      var i :| Names(made, i, m);
      assert Names(d.nodes, i, m);
    }
  }

  /** Copy the directory `sfd` to the entry `leaf` of the directory `parent`. */
  method Copy(b: BoxDisk, mode: Mode, sfd: Ino, parent: Ino, leaf: Name, merge: bool, path: Path,
              ghost reach: set<Ino>, ghost kids: map<Name, Tree>)
    returns (r: CopyResult)
    requires b.Valid() && Ready(b.disk) && IsDir(b.disk.nodes, parent) && IsDir(b.disk.nodes, sfd)
    requires sfd == Dest(b.disk, parent, leaf) || (!merge && leaf in Entries(b.disk.nodes, parent))
             || Apart(b.disk, mode, reach, sfd, parent, leaf, kids)
    modifies b`disk, b`steps, b`fds, b`failed, b`stuck
    ensures Ready(b.disk) && old(b.steps) <= b.steps && NewFall(old(b.disk.nodes), b.disk.nodes)
    ensures (old(b.stuck) ==> b.stuck) && (!b.stuck ==> CleanBut(old(b.disk.nodes), b.disk.nodes, leaf))
    ensures old(Apart(b.disk, mode, reach, sfd, parent, leaf, kids)) ==>
              && OnTheWay(old(b.disk), b.disk.nodes, mode, reach, sfd, parent, leaf, kids)
              && AllOnTheWay(old(b.disk), b.steps, |old(b.steps)|, mode, reach, sfd, parent, leaf, kids)
    ensures leaf !in old(Entries(b.disk.nodes, parent)) ==> MadeOnly(old(b.disk), b.disk, parent, leaf)
    ensures r.Copied? ==> CopyDone(old(b.disk), b.disk, mode, reach, sfd, parent, leaf, kids, path, r.skipped)
    ensures r.Copied? ==>
              (merge || leaf !in old(Entries(b.disk.nodes, parent))) && sfd != old(Dest(b.disk, parent, leaf))
    ensures old(Refused(b.disk, sfd, parent, leaf, merge)) ==>
              r.Raised? && b.disk == old(b.disk) && b.steps == old(b.steps)
    ensures !b.failed && b.unlistable == {} ==>
              (r.Copied? <==>
               leaf in old(Entries(b.disk.nodes, parent)) ==>
                 && merge && old(IsDir(b.disk.nodes, Entries(b.disk.nodes, parent)[leaf]))
                 && old(Entries(b.disk.nodes, parent)[leaf]) != sfd)
    ensures b.fds == old(b.fds) + if r == Raised(true) then 2 else 0
    ensures old(Refused(b.disk, sfd, parent, leaf, merge)) ==> r == Raised(false)
    ensures !old(Refused(b.disk, sfd, parent, leaf, merge)) ==>
              EndsAs(r, sfd in b.unlistable, old(Meets(b.disk, mode, reach, sfd, parent, leaf, kids, b.unlistable)),
                     b.failed)
  {
    var dest := Dest(b.disk, parent, leaf);
    ghost var was := b.disk.nodes;
    assert CleanBut(was, was, leaf);
    if Apart(b.disk, mode, reach, sfd, parent, leaf, kids) {
      WayStarts(b.disk, mode, reach, sfd, parent, leaf, kids);
    }
    NothingFell(b.disk);
    if * {
      b.failed := true;
      return Raised(false);
    }
    if leaf !in Entries(b.disk.nodes, parent) {
      r := CopyFresh(b, mode, sfd, parent, leaf, path, reach);
      return;
    }
    if IsLink(b.disk.nodes, dest) || !merge || !IsDir(b.disk.nodes, dest) || dest == sfd {
      return Raised(false);
    }
    if * {
      b.failed := true;
      return Raised(false);
    }
    r := CopyInto(b, b.disk, mode, sfd, parent, leaf, path, reach, kids, |b.steps|);
    assert !b.stuck ==> Clean(was, b.disk.nodes);
  }

  lemma NothingFell(d: Disk)
    ensures NewFall(d.nodes, d.nodes)
  {
  }

  /** ... no destination yet: make it first. */
  method CopyFresh(b: BoxDisk, mode: Mode, sfd: Ino, parent: Ino, leaf: Name, path: Path, ghost reach: set<Ino>)
    returns (r: CopyResult)
    requires b.Valid() && Ready(b.disk) && IsDir(b.disk.nodes, parent) && leaf !in Entries(b.disk.nodes, parent)
    requires Apart(b.disk, mode, reach, sfd, parent, leaf, map[])
    modifies b`disk, b`steps, b`fds, b`failed, b`stuck
    ensures Ready(b.disk) && old(b.steps) <= b.steps
    ensures (old(b.stuck) ==> b.stuck) && (!b.stuck ==> CleanBut(old(b.disk.nodes), b.disk.nodes, leaf))
    ensures Underway(old(b.disk), b.disk, b.steps, |old(b.steps)|, mode, reach, sfd, parent, leaf, map[])
    ensures r.Copied? ==> CopyDone(old(b.disk), b.disk, mode, reach, sfd, parent, leaf, map[], path, r.skipped)
    ensures b.fds == old(b.fds) + if r == Raised(true) then 2 else 0
    ensures EndsAs(r, sfd in b.unlistable,
                   old(Meets(b.disk, mode, reach, sfd, parent, leaf, map[], b.unlistable)), b.failed)
  {
    ghost var d, from := b.disk, |b.steps|;
    if * {
      b.failed := true;
      WayStarts(d, mode, reach, sfd, parent, leaf, map[]);
      NothingFell(d);
      return Raised(false);
    }
    MkdirOpens(d, mode, reach, sfd, parent, leaf);
    b.Write(Put(b.disk, parent, leaf, Dir(map[])));
    if * {
      b.failed := true;
      MadeWay(d, b.disk, mode, reach, sfd, parent, leaf, map[]);
      StillClean(b.disk.nodes);
      CleanMade(d, parent, leaf, b.disk.nodes);
      return Raised(false);
    }
    r := CopyInto(b, d, mode, sfd, parent, leaf, path, reach, map[], from);
    if !b.stuck {
      CleanMade(d, parent, leaf, b.disk.nodes);
    }
  }

  /** The destination is open, and nothing else was done yet. */
  lemma MadeWay(d: Disk, e: Disk, mode: Mode, reach: set<Ino>, sfd: Ino, parent: Ino, leaf: Name, kids: map<Name, Tree>)
    requires Opened(d, e, mode, reach, sfd, parent, leaf, kids)
    ensures OnTheWay(d, e.nodes, mode, reach, sfd, parent, leaf, kids) && NewFall(d.nodes, e.nodes)
  {
    WayFrom(d, e, e.nodes, mode, reach, sfd, parent, leaf, kids);
  }

  /** ... the destination exists: copy the entries, then set its mode and times. */
  method CopyInto(b: BoxDisk, ghost d: Disk, mode: Mode, sfd: Ino, parent: Ino, leaf: Name, path: Path,
                  ghost reach: set<Ino>, ghost kids: map<Name, Tree>, ghost from: nat)
    returns (r: CopyResult)
    requires b.Valid() && Opened(d, b.disk, mode, reach, sfd, parent, leaf, kids)
    requires from <= |b.steps| && forall k | from <= k < |b.steps| :: b.steps[k] == b.disk.nodes
    modifies b`disk, b`steps, b`fds, b`failed, b`stuck
    ensures Ready(b.disk) && old(b.steps) <= b.steps
    ensures (old(b.stuck) ==> b.stuck) && Tidy(b.stuck, old(b.disk.nodes), b.disk.nodes)
    ensures Underway(d, b.disk, b.steps, from, mode, reach, sfd, parent, leaf, kids)
    ensures r.Copied? ==> CopyDone(d, b.disk, mode, reach, sfd, parent, leaf, kids, path, r.skipped)
    ensures b.fds == old(b.fds) + if r == Raised(true) then 2 else 0
    ensures EndsAs(r, sfd in b.unlistable, Meets(d, mode, reach, sfd, parent, leaf, kids, b.unlistable), b.failed)
  {
    r := IntoDest(b, d, mode, sfd, parent, leaf, path, reach, kids, from);
    if r.Copied? {
      if * {
        b.failed := true;
        return Raised(false);
      }
    }
  }

  /** ... the entries. */
  method IntoDest(b: BoxDisk, ghost d: Disk, mode: Mode, sfd: Ino, parent: Ino, leaf: Name, path: Path,
                  ghost reach: set<Ino>, ghost kids: map<Name, Tree>, ghost from: nat)
    returns (r: CopyResult)
    requires b.Valid() && Opened(d, b.disk, mode, reach, sfd, parent, leaf, kids)
    requires from <= |b.steps| && forall k | from <= k < |b.steps| :: b.steps[k] == b.disk.nodes
    modifies b`disk, b`steps, b`fds, b`failed, b`stuck
    ensures Ready(b.disk) && old(b.steps) <= b.steps
    ensures (old(b.stuck) ==> b.stuck) && Tidy(b.stuck, old(b.disk.nodes), b.disk.nodes)
    ensures Underway(d, b.disk, b.steps, from, mode, reach, sfd, parent, leaf, kids)
    ensures r.Copied? ==> CopyDone(d, b.disk, mode, reach, sfd, parent, leaf, kids, path, r.skipped)
    ensures b.fds == old(b.fds) + if r == Raised(true) then 2 else 0
    ensures EndsAs(r, sfd in b.unlistable, Meets(d, mode, reach, sfd, parent, leaf, kids, b.unlistable), b.failed)
  {
    var dfd := Entries(b.disk.nodes, parent)[leaf];
    ghost var e := b.disk;
    CopyStarts(e, mode, b.list, reach, sfd, dfd, kids);
    r := b.CopyEntries(mode, sfd, dfd, path, reach, Read(e.nodes, mode, reach, {}, sfd), kids);
    AllWay(d, e, b.disk, mode, reach, sfd, parent, leaf, kids, b.steps, |old(b.steps)|, from);
    if r.Copied? {
      CopyDoneFrom(d, e, b.disk, mode, reach, sfd, parent, leaf, kids, path, r.skipped);
    }
  }

  /** The entries were copied, or some of them: seen from the start. */
  lemma AllWay(d: Disk, e: Disk, f: Disk, mode: Mode, reach: set<Ino>, sfd: Ino, parent: Ino, leaf: Name,
               kids: map<Name, Tree>, steps: seq<Nodes>, mid: nat, from: nat)
    requires Opened(d, e, mode, reach, sfd, parent, leaf, kids) && from <= mid <= |steps|
    requires forall k | from <= k < mid :: steps[k] == e.nodes
    requires
      var g := ScopeOf(e.nodes, mode, reach, Dest(d, parent, leaf), kids, Read(e.nodes, mode, reach, {}, sfd));
      Within(g, f, steps[..mid], steps)
    ensures Underway(d, f, steps, from, mode, reach, sfd, parent, leaf, kids)
    ensures leaf in Entries(f.nodes, parent) && Entries(f.nodes, parent)[leaf] == Dest(d, parent, leaf)
  {
    assert Names(e.nodes, parent, leaf);
    WayFrom(d, e, f.nodes, mode, reach, sfd, parent, leaf, kids);
    forall k | from <= k < |steps| ensures OnTheWay(d, steps[k], mode, reach, sfd, parent, leaf, kids) {
      if steps[k] == e.nodes {
        MadeWay(d, e, mode, reach, sfd, parent, leaf, kids);
      } else {
        WayFrom(d, e, steps[k], mode, reach, sfd, parent, leaf, kids);
      }
    }
    FallFrom(d, e, f, parent, leaf);
    if leaf !in Entries(d.nodes, parent) {
      NothingToTouch(e.nodes, d.next, Read(e.nodes, mode, reach, {}, sfd));
      assert parent !in Enterable(e.nodes, d.next, kids, Read(e.nodes, mode, reach, {}, sfd));
    }
  }

  lemma FallFrom(d: Disk, e: Disk, f: Disk, parent: Ino, leaf: Name)
    requires Ready(d) && IsDir(d.nodes, parent) && e == WithDir(d, parent, leaf) && Numbered(e.nodes, f.nodes)
    ensures NewFall(d.nodes, f.nodes)
  {
  }

  lemma CopyDoneFrom(d: Disk, e: Disk, f: Disk, mode: Mode, reach: set<Ino>, sfd: Ino, parent: Ino, leaf: Name,
                     kids: map<Name, Tree>, path: Path, skipped: seq<Path>)
    requires Ready(d) && IsDir(d.nodes, parent) && e == WithDir(d, parent, leaf)
    requires leaf !in Entries(d.nodes, parent) ==> kids == map[]
    requires leaf in Entries(f.nodes, parent) && Entries(f.nodes, parent)[leaf] == Dest(d, parent, leaf)
    requires IsDir(e.nodes, Dest(d, parent, leaf))
    requires var read := Read(e.nodes, mode, reach, {}, sfd);
      && read.SDir?
      && Became(e, f, Dest(d, parent, leaf), kids, MergedKids(read, kids, mode.skipLinks))
      && Reports(skipped, read, Some(DirT(kids)), mode.skipLinks, path)
    ensures CopyDone(d, f, mode, reach, sfd, parent, leaf, kids, path, skipped)
  {
    var dest := Dest(d, parent, leaf);
    var read := Read(e.nodes, mode, reach, {}, sfd);
    assert Names(e.nodes, parent, leaf);
    forall k | Owns(f.nodes, dest, DirT(MergedKids(read, kids, mode.skipLinks)), k)
      ensures k in Owned(d.nodes, dest, kids) || k !in d.nodes
    {
      if k in e.nodes {
        assert Owns(e.nodes, dest, DirT(kids), k);
        if leaf !in Entries(d.nodes, parent) {
          assert k == dest;
        }
      }
    }
  }

  // --- on a disk that is a tree --------------------------------------------------------

  /** No directory has two names: what the kernel keeps of every file system. */
  ghost predicate Forest(nodes: Nodes) {
    forall i, m, j, n {:trigger Names(nodes, i, m), Names(nodes, j, n)} |
      Names(nodes, i, m) && Names(nodes, j, n) && Entries(nodes, i)[m] == Entries(nodes, j)[n]
        && IsDir(nodes, Entries(nodes, i)[m]) ::
      i == j && m == n
  }

  lemma {:induction false} OwnsParent(nodes: Nodes, i: Ino, t: Tree, k: Ino) returns (p: Ino, n: Name)
    requires Rep(nodes, i, t) && Owns(nodes, i, t, k) && k != i
    ensures Owns(nodes, i, t, p) && Names(nodes, p, n) && Entries(nodes, p)[n] == k
    decreases t
  {
    n :| n in t.kids && OwnsName(nodes, i, t, n, k);
    if Entries(nodes, i)[n] == k {
      p := i;
    } else {
      var m := n;
      p, n := OwnsParent(nodes, Entries(nodes, i)[m], t.kids[m], k);
      assert OwnsName(nodes, i, t, m, p);
    }
  }

  /** The directories outside the destination: where the walk of the source stays. */
  ghost function Outside(d: Disk, parent: Ino, leaf: Name, kids: map<Name, Tree>): set<Ino> {
    set i | i in d.nodes && IsDir(d.nodes, i) && i !in Owned(d.nodes, Dest(d, parent, leaf), kids)
  }

  /** No followed link leads to a directory inside the destination (to the destination it may). */
  ghost predicate ResolvesOutside(d: Disk, mode: Mode, parent: Ino, leaf: Name, kids: map<Name, Tree>) {
    forall i | i in mode.resolve ::
      var j := mode.resolve[i];
      j in d.nodes && !d.nodes[j].Link?
        && (j == Dest(d, parent, leaf) || j !in Owned(d.nodes, Dest(d, parent, leaf), kids))
  }

  /** It is enough that the destination is not the source or above it, and that no followed link
      leads inside it: then the walk is bounded, links back to an open directory included. */
  lemma ForestApart(d: Disk, mode: Mode, sfd: Ino, parent: Ino, leaf: Name, kids: map<Name, Tree>)
    requires Ready(d) && Forest(d.nodes) && IsDir(d.nodes, sfd)
    requires mode.avoid == Dest(d, parent, leaf)
    requires mode.follow ==> ResolvesOutside(d, mode, parent, leaf, kids)
    requires if IsDir(d.nodes, Dest(d, parent, leaf)) then IsTree(d.nodes, Dest(d, parent, leaf), kids)
             else kids == map[]
    requires IsDir(d.nodes, Dest(d, parent, leaf)) ==> !Owns(d.nodes, Dest(d, parent, leaf), DirT(kids), sfd)
    ensures Apart(d, mode, Outside(d, parent, leaf, kids), sfd, parent, leaf, kids)
  {
    var dest := Dest(d, parent, leaf);
    var reach := Outside(d, parent, leaf, kids);
    assert sfd in reach by {
      assert Owns(d.nodes, dest, DirT(map[]), sfd) ==> sfd == dest;
    }
    forall i, n | i in reach && n in Entries(d.nodes, i)
      ensures Entries(d.nodes, i)[n] in d.nodes && Inside(d.nodes, mode, reach, Entries(d.nodes, i)[n])
    {
      assert Names(d.nodes, i, n);
      var c := Entries(d.nodes, i)[n];
      if c != dest && IsDir(d.nodes, dest) && Owns(d.nodes, dest, DirT(kids), c) {
        OwnsFromInside(d.nodes, dest, DirT(kids), i, n);
      }
    }
  }

  /** In a forest, a tree's directory below its top is named only from inside the tree. */
  lemma OwnsFromInside(nodes: Nodes, top: Ino, t: Tree, i: Ino, n: Name)
    requires Forest(nodes) && Rep(nodes, top, t)
    requires n in Entries(nodes, i) && Owns(nodes, top, t, Entries(nodes, i)[n]) && Entries(nodes, i)[n] != top
    ensures Owns(nodes, top, t, i)
  {
    var c := Entries(nodes, i)[n];
    OwnsDirs(nodes, top, t, c);
    var p, m := OwnsParent(nodes, top, t, c);
    assert Names(nodes, i, n);
  }

  lemma KidReachable(nodes: Nodes, mode: Mode, reach: set<Ino>, open: set<Ino>, i: Ino, t: Tree, n: Name)
    requires Rep(nodes, i, t) && Sep(nodes, i, t) && t.DirT? && n in t.kids
    requires forall j | Owns(nodes, i, t, j) :: j in reach && j !in open && j != mode.avoid
    ensures forall j | Owns(nodes, nodes[i].entries[n], t.kids[n], j) ::
              j in reach && j !in open + {i} && j != mode.avoid
  {
    forall j | Owns(nodes, nodes[i].entries[n], t.kids[n], j)
      ensures j in reach && j !in open + {i} && j != mode.avoid
    {
      assert OwnsName(nodes, i, t, n, j);
      assert Owns(nodes, i, t, j);
    }
  }

  /** A directory is read as its entries are. */
  lemma ReadIsDir(nodes: Nodes, mode: Mode, reach: set<Ino>, open: set<Ino>, i: Ino, kids: map<Name, Tree>)
    requires IsDir(nodes, i) && nodes[i].entries.Keys == kids.Keys
    requires i in reach && i !in open && i != mode.avoid
    requires forall n | n in kids :: Read(nodes, mode, reach, open + {i}, nodes[i].entries[n]) == AsSrc(kids[n])
    ensures Read(nodes, mode, reach, open, i) == AsSrc(DirT(kids))
  {
    ReadEnters(nodes, mode, reach, open, i, i);
    var read, src := ReadKids(nodes, mode, reach, open + {i}, i).kids, map n | n in kids :: AsSrc(kids[n]);
    forall n | n in kids ensures read[n] == src[n] {
      assert read[n] == Read(nodes, mode, reach, open + {i}, nodes[i].entries[n]);
    }
    assert read == src;
  }

  /** A copy that follows nothing reads a tree that does not hold the destination as that tree. */
  lemma {:induction false} ReadIsTree(nodes: Nodes, mode: Mode, reach: set<Ino>, open: set<Ino>, i: Ino, t: Tree)
    requires Rep(nodes, i, t) && Sep(nodes, i, t) && !mode.follow
    requires forall j | Owns(nodes, i, t, j) :: j in reach && j !in open && j != mode.avoid
    ensures Read(nodes, mode, reach, open, i) == AsSrc(t)
    decreases t
  {
    if t.DirT? {
      assert Owns(nodes, i, t, i);
      forall n | n in t.kids
        ensures Read(nodes, mode, reach, open + {i}, nodes[i].entries[n]) == AsSrc(t.kids[n])
      {
        KidReachable(nodes, mode, reach, open, i, t, n);
        ReadIsTree(nodes, mode, reach, open + {i}, nodes[i].entries[n], t.kids[n]);
      }
      ReadIsDir(nodes, mode, reach, open, i, t.kids);
    }
  }

  /** The destination, met inside the source, is not entered, and what it holds there stays. */
  lemma {:induction false} DestNotEntered(s: Src, there: Option<Tree>, skipLinks: bool, p: Path)
    requires SrcAt(s, p) == Some(SDest)
    ensures TreeAt(Merged(s, there, skipLinks), p) == TreeAt(there, p)
    decreases |p|
  {
    if p != [] {
      var d := if there.Some? && there.value.DirT? then there.value.kids else map[];
      MergedKidsAt(s, d, p[0], skipLinks);
      DestNotEntered(s.kids[p[0]], Get(d, p[0]), skipLinks, p[1..]);
      NothingAt(p[1..]);
    }
  }
}
