/** Moving an entry: one rename, or, when that is refused with EXDEV, a copy and then a removal. */
module Moves {
  import opened Options
  import opened Trees
  import opened Merge
  import opened CopySteps
  import opened BoxFs
  import opened CopyTree

  // --- removal -------------------------------------------------------------------------

  /** From the directories `region` only lower-ranked ones of them can be entered: the kernel lets
      no directory be below itself. */
  ghost predicate Falls(nodes: Nodes, region: set<Ino>, rank: Ino -> nat) {
    forall k, n {:trigger Names(nodes, k, n)} | k in region && Names(nodes, k, n)
      && IsDir(nodes, Entries(nodes, k)[n]) ::
      Entries(nodes, k)[n] in region && rank(Entries(nodes, k)[n]) < rank(k)
  }

  /** What removing the inode `c` may write: a directory and what can be below it. */
  ghost function Inner(nodes: Nodes, region: set<Ino>, rank: Ino -> nat, c: Ino): set<Ino> {
    if IsDir(nodes, c) then set k | k in region && (k == c || rank(k) < rank(c)) else {}
  }

  /** Entries were only taken away. */
  ghost predicate Shrunk(before: Nodes, after: Nodes) {
    forall k, n {:trigger Names(after, k, n)} | Names(after, k, n) ::
      n in Entries(before, k) && Entries(after, k)[n] == Entries(before, k)[n]
  }

  /** An entry that names a directory was taken away only with the directory empty. */
  ghost predicate EmptyFirst(before: Nodes, after: Nodes) {
    forall k, n {:trigger Names(before, k, n)} | Names(before, k, n) && !Names(after, k, n)
      && IsDir(before, Entries(before, k)[n]) :: Entries(after, Entries(before, k)[n]) == map[]
  }

  /** Only the entry `n` of `dir`, and the directories `inner`, may differ. */
  ghost predicate OnlyEntry(before: Nodes, after: Nodes, dir: Ino, n: Name, inner: set<Ino>) {
    && OnlyWrites(before, after, {dir} + inner)
    && forall m | m in Entries(before, dir) && m != n ::
         m in Entries(after, dir) && Entries(after, dir)[m] == Entries(before, dir)[m]
  }

  /** Every state since `from` differs from `before` only at the entry `n` of `dir` and in `inner`. */
  ghost predicate EntrySteps(before: Nodes, dir: Ino, n: Name, inner: set<Ino>, from: seq<Nodes>, to: seq<Nodes>) {
    from <= to && forall k | |from| <= k < |to| :: OnlyEntry(before, to[k], dir, n, inner)
  }

  /** Every state since `from` differs from `before` only in the directories `inner`. */
  ghost predicate StepsWithin(before: Nodes, inner: set<Ino>, from: seq<Nodes>, to: seq<Nodes>) {
    from <= to && forall k | |from| <= k < |to| :: OnlyWrites(before, to[k], inner)
  }

  /** Remove the entry `n` of `dir`: a directory with everything in it, in whatever order it is
      listed, else the entry itself.  Links are removed, never followed. */
  method RemoveAt(b: BoxDisk, dir: Ino, n: Name, ghost region: set<Ino>, ghost rank: Ino -> nat) returns (ok: bool)
    requires b.Valid() && Ready(b.disk) && IsDir(b.disk.nodes, dir) && n in Entries(b.disk.nodes, dir)
    requires Falls(b.disk.nodes, region, rank)
    requires var c := Entries(b.disk.nodes, dir)[n];
      (IsDir(b.disk.nodes, c) ==> c in region) && dir !in Inner(b.disk.nodes, region, rank, c)
    modifies b`disk, b`steps, b`failed, b`stuck
    ensures Ready(b.disk) && Shrunk(old(b.disk.nodes), b.disk.nodes)
    ensures EmptyFirst(old(b.disk.nodes), b.disk.nodes)
    ensures
      var inner := Inner(old(b.disk.nodes), region, rank, old(Entries(b.disk.nodes, dir))[n]);
      && OnlyEntry(old(b.disk.nodes), b.disk.nodes, dir, n, inner)
      && EntrySteps(old(b.disk.nodes), dir, n, inner, old(b.steps), b.steps)
    ensures !ok || old(b.failed) ==> b.failed
    ensures b.stuck <==> !ok || old(b.stuck)
    ensures Entries(b.disk.nodes, dir) == if ok then old(Entries(b.disk.nodes, dir)) - {n}
            else old(Entries(b.disk.nodes, dir))
    decreases if IsDir(b.disk.nodes, Entries(b.disk.nodes, dir)[n]) then rank(Entries(b.disk.nodes, dir)[n]) else 0,
              if IsDir(b.disk.nodes, Entries(b.disk.nodes, dir)[n]) then 3 else 0
  {
    ghost var before := b.disk.nodes;
    var c := Entries(b.disk.nodes, dir)[n];
    ghost var inner := Inner(before, region, rank, c);
    if * {
      b.failed, b.stuck := true, true;
      return false;
    }
    if IsDir(b.disk.nodes, c) {
      ok := RemoveKids(b, c, region, rank);
      KidsAreEntry(before, b.disk.nodes, dir, n, inner, old(b.steps), b.steps);
      if !ok { return; }
    }
    if * {
      b.failed, b.stuck := true, true;
      return false;
    }
    UnlinkEntry(before, b.disk, dir, n, inner);
    LastUnlink(before, b.disk, dir, n);
    b.Write(Unlink(b.disk, dir, n));
    return true;
  }

  lemma KidsAreEntry(before: Nodes, after: Nodes, dir: Ino, n: Name, inner: set<Ino>, from: seq<Nodes>, to: seq<Nodes>)
    requires IsDir(before, dir) && dir !in inner
    requires OnlyWrites(before, after, inner) && StepsWithin(before, inner, from, to)
    ensures OnlyEntry(before, after, dir, n, inner) && EntrySteps(before, dir, n, inner, from, to)
    ensures Entries(after, dir) == Entries(before, dir)
  {
  }

  lemma UnlinkEntry(before: Nodes, d: Disk, dir: Ino, n: Name, inner: set<Ino>)
    requires Ready(d) && Shrunk(before, d.nodes)
    requires OnlyEntry(before, d.nodes, dir, n, inner) && IsDir(d.nodes, dir)
    ensures Ready(Unlink(d, dir, n)) && Shrunk(before, Unlink(d, dir, n).nodes)
    ensures OnlyEntry(before, Unlink(d, dir, n).nodes, dir, n, inner)
  {
    var e := Unlink(d, dir, n);
    forall k, m | Names(e.nodes, k, m)
      ensures Entries(e.nodes, k)[m] in e.nodes && m in Entries(before, k)
              && Entries(before, k)[m] == Entries(e.nodes, k)[m]
    {
      assert Names(d.nodes, k, m);
    }
  }

  lemma LastUnlink(before: Nodes, d: Disk, dir: Ino, n: Name)
    requires Names(before, dir, n) && Shrunk(before, d.nodes) && EmptyFirst(before, d.nodes) && IsDir(d.nodes, dir)
    requires Entries(d.nodes, dir) == Entries(before, dir) && Entries(before, dir)[n] != dir
    requires IsDir(before, Entries(before, dir)[n]) ==> Entries(d.nodes, Entries(before, dir)[n]) == map[]
    ensures EmptyFirst(before, Unlink(d, dir, n).nodes)
  {
    var e := Unlink(d, dir, n);
    forall k, m | Names(before, k, m) && !Names(e.nodes, k, m) && IsDir(before, Entries(before, k)[m])
      ensures Entries(e.nodes, Entries(before, k)[m]) == map[]
    {
      assert (k == dir && m == n) || !Names(d.nodes, k, m);
      assert Entries(d.nodes, Entries(before, k)[m]) == map[];
    }
  }

  /** What was emptied stays empty. */
  lemma EmptyFirstTrans(a: Nodes, b: Nodes, c: Nodes)
    requires EmptyFirst(a, b) && EmptyFirst(b, c) && Shrunk(a, b) && Shrunk(b, c)
    requires forall i | IsDir(a, i) :: IsDir(b, i)
    ensures EmptyFirst(a, c)
  {
    forall k, n | Names(a, k, n) && !Names(c, k, n) && IsDir(a, Entries(a, k)[n])
      ensures Entries(c, Entries(a, k)[n]) == map[]
    {
      var j := Entries(a, k)[n];
      if Names(b, k, n) {
        assert Names(b, k, n) && Entries(b, k)[n] == j;
      } else {
        assert Entries(b, j) == map[];
        forall m ensures m !in Entries(c, j) {
          assert Names(c, j, m) ==> m in Entries(b, j);
        }
      }
    }
  }

  /** Remove everything in the directory `c`, entry by entry. */
  method RemoveKids(b: BoxDisk, c: Ino, ghost region: set<Ino>, ghost rank: Ino -> nat) returns (ok: bool)
    requires b.Valid() && Ready(b.disk) && IsDir(b.disk.nodes, c) && c in region && Falls(b.disk.nodes, region, rank)
    modifies b`disk, b`steps, b`failed, b`stuck
    ensures Ready(b.disk) && Shrunk(old(b.disk.nodes), b.disk.nodes)
    ensures OnlyWrites(old(b.disk.nodes), b.disk.nodes, Inner(old(b.disk.nodes), region, rank, c))
    ensures StepsWithin(old(b.disk.nodes), Inner(old(b.disk.nodes), region, rank, c), old(b.steps), b.steps)
    ensures EmptyFirst(old(b.disk.nodes), b.disk.nodes)
    ensures ok ==> Entries(b.disk.nodes, c) == map[]
    ensures !ok || old(b.failed) ==> b.failed
    ensures b.stuck <==> !ok || old(b.stuck)
    decreases rank(c), 2
  {
    ghost var before, inner := b.disk.nodes, Inner(b.disk.nodes, region, rank, c);
    if * {
      b.failed, b.stuck := true, true;
      return false;
    }
    var names := b.list(c, Entries(b.disk.nodes, c).Keys);
    var i := 0;
    while i < |names|
      invariant 0 <= i <= |names|
      invariant Ready(b.disk) && Shrunk(before, b.disk.nodes) && OnlyWrites(before, b.disk.nodes, inner)
      invariant StepsWithin(before, inner, old(b.steps), b.steps)
      invariant EmptyFirst(before, b.disk.nodes)
      invariant (old(b.failed) ==> b.failed) && b.stuck == old(b.stuck)
      invariant forall m :: m in Entries(b.disk.nodes, c) <==> m in names[i..]
    {
      ghost var mid, was := b.disk, b.steps;
      assert names[i..] == [names[i]] + names[i + 1..];
      FallsStill(before, mid.nodes, region, rank, c, names[i]);
      ok := RemoveAt(b, c, names[i], region, rank);
      RemovedOne(before, mid.nodes, b.disk.nodes, c, names[i], region, rank, b.steps, |was|);
      EmptyFirstTrans(before, mid.nodes, b.disk.nodes);
      if !ok { return; }
      assert names[i] !in names[i + 1..];
      i := i + 1;
    }
    ok := true;
  }

  lemma FallsStill(before: Nodes, mid: Nodes, region: set<Ino>, rank: Ino -> nat, c: Ino, m: Name)
    requires Falls(before, region, rank) && Shrunk(before, mid) && c in region
    requires forall k | IsDir(before, k) :: IsDir(mid, k)
    requires forall k | k in before :: k in mid && (!before[k].Dir? ==> mid[k] == before[k])
    requires forall k, n | Names(before, k, n) :: Entries(before, k)[n] in before
    requires m in Entries(mid, c)
    ensures Falls(mid, region, rank)
    ensures
      var j := Entries(mid, c)[m];
      (IsDir(mid, j) ==> j in region && rank(j) < rank(c)) && c !in Inner(mid, region, rank, j)
  {
    forall k, n | k in region && Names(mid, k, n) && IsDir(mid, Entries(mid, k)[n])
      ensures Entries(mid, k)[n] in region && rank(Entries(mid, k)[n]) < rank(k)
    {
      assert Names(before, k, n);
    }
    assert Names(mid, c, m);
  }

  lemma RemovedOne(before: Nodes, mid: Nodes, after: Nodes, c: Ino, m: Name, region: set<Ino>, rank: Ino -> nat,
                   steps: seq<Nodes>, from: nat)
    requires IsDir(before, c) && c in region && IsDir(mid, c) && m in Entries(mid, c)
    requires var j := Entries(mid, c)[m]; IsDir(mid, j) ==> j in region && rank(j) < rank(c)
    requires OnlyWrites(before, mid, Inner(before, region, rank, c)) && Shrunk(before, mid)
    requires OnlyEntry(mid, after, c, m, Inner(mid, region, rank, Entries(mid, c)[m])) && Shrunk(mid, after)
    requires from <= |steps|
    requires forall k | from <= k < |steps| ::
              OnlyEntry(mid, steps[k], c, m, Inner(mid, region, rank, Entries(mid, c)[m]))
    ensures OnlyWrites(before, after, Inner(before, region, rank, c)) && Shrunk(before, after)
    ensures forall k | from <= k < |steps| :: OnlyWrites(before, steps[k], Inner(before, region, rank, c))
  {
    var inner, some := Inner(before, region, rank, c), {c} + Inner(mid, region, rank, Entries(mid, c)[m]);
    assert some <= inner;
    OnlyWritesTrans(before, mid, after, inner, some);
    forall k | from <= k < |steps| ensures OnlyWrites(before, steps[k], inner) {
      OnlyWritesTrans(before, mid, steps[k], inner, some);
    }
    forall k, n | Names(after, k, n)
      ensures n in Entries(before, k) && Entries(before, k)[n] == Entries(after, k)[n]
    {
      assert Names(mid, k, n);
    }
  }

  /** Once a directory is empty, so is every directory that was below it: nothing of a removed tree is left. */
  lemma {:induction false} AllEmptied(before: Nodes, after: Nodes, i: Ino, t: Tree, j: Ino)
    requires Rep(before, i, t) && Owns(before, i, t, j)
    requires EmptyFirst(before, after) && Entries(after, i) == map[]
    ensures Entries(after, j) == map[]
    decreases t
  {
    if j != i {
      var n :| n in t.kids && OwnsName(before, i, t, n, j);
      var c := Entries(before, i)[n];
      assert Rep(before, c, t.kids[n]) && Names(before, i, n) && !Names(after, i, n);
      AllEmptied(before, after, c, t.kids[n], j);
    }
  }

  // --- the move ------------------------------------------------------------------------

  /** A move of the entry `sname` of `sdir` to `dname` of `ddir`. */
  datatype Trip = Trip(sdir: Ino, sname: Name, ddir: Ino, dname: Name)

  /** How a move ends.  `Kept`: the source is as it was; `partial`: something of a copy was left
      beside it.  `Both`: the destination is whole, the source was not (wholly) removed. */
  datatype MoveResult = MovedOk | Kept(partial: bool) | Both

  /** The entry `n` of directory `i` holds exactly the tree `t`. */
  ghost predicate Whole(nodes: Nodes, i: Ino, n: Name, t: Tree) {
    n in Entries(nodes, i) && Rep(nodes, Entries(nodes, i)[n], t)
  }

  /** ... or `t` less its special files, which a copy does not carry. */
  ghost predicate Arrived(nodes: Nodes, i: Ino, n: Name, t: Tree) {
    Whole(nodes, i, n, t) || (Carried(t).Some? && Whole(nodes, i, n, Carried(t).value))
  }

  /** A move of an entry that holds `t`, to a destination that is another name and not inside it. */
  ghost predicate Departs(d: Disk, m: Trip, t: Tree) {
    && Ready(d) && IsDir(d.nodes, m.sdir) && IsDir(d.nodes, m.ddir)
    && (m.sdir != m.ddir || m.sname != m.dname)
    && Whole(d.nodes, m.sdir, m.sname, t)
    && Sep(d.nodes, Entries(d.nodes, m.sdir)[m.sname], t)
    && !Owns(d.nodes, Entries(d.nodes, m.sdir)[m.sname], t, m.sdir)
    && !Owns(d.nodes, Entries(d.nodes, m.sdir)[m.sname], t, m.ddir)
  }

  /** ... and no directory is below itself. */
  ghost predicate Movable(d: Disk, m: Trip, t: Tree, rank: Ino -> nat) {
    Departs(d, m, t) && Falls(d.nodes, d.nodes.Keys, rank)
  }

  /** The directories of the source itself. */
  ghost function SourceRegion(d: Disk, m: Trip, t: Tree): set<Ino> {
    if m.sname !in Entries(d.nodes, m.sdir) then {}
    else set k | k in d.nodes && Owns(d.nodes, Entries(d.nodes, m.sdir)[m.sname], t, k)
  }

  /** The entry, if it was there, names the inode it named. */
  ghost predicate Stays(before: Nodes, after: Nodes, dir: Ino, n: Name) {
    n in Entries(before, dir) ==> n in Entries(after, dir) && Entries(after, dir)[n] == Entries(before, dir)[n]
  }

  /** What a move never touches: only the two directories, and those of the source itself, are written, and
      every other entry of the two names what it named. */
  ghost predicate Framed(d: Disk, now: Nodes, m: Trip, t: Tree) {
    && OnlyWrites(d.nodes, now, {m.sdir, m.ddir} + SourceRegion(d, m, t))
    && (forall n | n != m.sname && (m.sdir != m.ddir || n != m.dname) :: Stays(d.nodes, now, m.sdir, n))
    && forall n | n != m.dname && (m.sdir != m.ddir || n != m.sname) :: Stays(d.nodes, now, m.ddir, n)
  }

  /** No entry of either directory is touched, the source and the destination included. */
  ghost predicate AllStay(d: Disk, now: Nodes, m: Trip) {
    forall n :: Stays(d.nodes, now, m.sdir, n) && Stays(d.nodes, now, m.ddir, n)
  }

  /** Neither directory has a name more, but for the destination. */
  ghost predicate NoNew(d: Disk, now: Nodes, m: Trip) {
    && (forall n | n in Entries(now, m.sdir) && (m.sdir != m.ddir || n != m.dname) :: n in Entries(d.nodes, m.sdir))
    && forall n | n in Entries(now, m.ddir) && n != m.dname :: n in Entries(d.nodes, m.ddir)
  }

  /** The entry is whole at its source or at its destination, and nothing else was touched. */
  ghost predicate Safe(d: Disk, now: Nodes, m: Trip, t: Tree) {
    && Framed(d, now, m, t)
    && (Whole(now, m.sdir, m.sname, t) || Arrived(now, m.ddir, m.dname, t))
  }

  /** ... at every step since `from`. */
  ghost predicate NeverLost(d: Disk, from: seq<Nodes>, to: seq<Nodes>, m: Trip, t: Tree) {
    from <= to && forall k | |from| <= k < |to| :: Safe(d, to[k], m, t)
  }

  /** Every inode there was is as it was. */
  ghost predicate AsBefore(before: Nodes, after: Nodes) {
    forall i | i in before :: i in after && after[i] == before[i]
  }

  /** What arrives of the tree `t`: all of it, or, across devices, all but its special files. */
  function Landing(exdev: bool, t: Tree): Option<Tree> {
    if exdev then Carried(t) else Some(t)
  }

  ghost predicate Landed(nodes: Nodes, m: Trip, t: Tree, exdev: bool) {
    Landing(exdev, t).Some? && Whole(nodes, m.ddir, m.dname, Landing(exdev, t).value)
  }

  /** What each way a move ends says of the disk. */
  ghost predicate MoveDone(d: Disk, e: Disk, m: Trip, t: Tree, exdev: bool, r: MoveResult) {
    && Framed(d, e.nodes, m, t)
    && match r
       case MovedOk =>
         && Landed(e.nodes, m, t, exdev) && NoNew(d, e.nodes, m)
         && (m.sname !in Entries(e.nodes, m.sdir) || (e == d && SameFile(d, m)))
       case Kept(partial) =>
         && Whole(e.nodes, m.sdir, m.sname, t) && OnlyWrites(d.nodes, e.nodes, {m.ddir})
         && AllStay(d, e.nodes, m) && (!partial ==> AsBefore(d.nodes, e.nodes))
       case Both => Landed(e.nodes, m, t, exdev) && NoNew(d, e.nodes, m)
  }

  /** Source and destination are two names of one inode: a rename does nothing. */
  predicate SameFile(d: Disk, m: Trip) {
    && m.sname in Entries(d.nodes, m.sdir) && m.dname in Entries(d.nodes, m.ddir)
    && Entries(d.nodes, m.ddir)[m.dname] == Entries(d.nodes, m.sdir)[m.sname]
  }

  /** While only the destination's directory is written, and only at the destination's name, the source is
      whole and nothing else is touched. */
  lemma SourceSafe(d: Disk, now: Nodes, m: Trip, t: Tree)
    requires Departs(d, m, t) && OnlyWrites(d.nodes, now, {m.ddir})
    requires forall n | n != m.dname :: Stays(d.nodes, now, m.ddir, n)
    ensures Safe(d, now, m, t) && Whole(now, m.sdir, m.sname, t) && Stays(d.nodes, now, m.sdir, m.sname)
    ensures Stays(d.nodes, now, m.ddir, m.dname) ==> AllStay(d, now, m)
  {
    FrameRep(d.nodes, now, Entries(d.nodes, m.sdir)[m.sname], t, {m.ddir});
    forall n | n != m.sname && (m.sdir != m.ddir || n != m.dname) ensures Stays(d.nodes, now, m.sdir, n) {
      assert m.sdir != m.ddir ==> now[m.sdir] == d.nodes[m.sdir];
    }
    assert Stays(d.nodes, now, m.sdir, m.sname) by {
      assert m.sdir != m.ddir ==> now[m.sdir] == d.nodes[m.sdir];
    }
  }

  // --- leaves --------------------------------------------------------------------------

  /** A new leaf put under a temp name and renamed over `leaf` is the leaf put there. */
  lemma PutRename(d: Disk, dir: Ino, tmp: Name, leaf: Name, node: Node)
    requires Ready(d) && IsDir(d.nodes, dir) && tmp !in Entries(d.nodes, dir)
    ensures
      var e := Put(d, dir, tmp, node);
      && tmp in Entries(e.nodes, dir)
      && RenameIn(e, dir, tmp, leaf) == Put(d, dir, leaf, node)
      && Unlink(e, dir, tmp).nodes == d.nodes[d.next := node]
  {
    var entries := Entries(d.nodes, dir);
    assert entries[tmp := d.next] - {tmp} == entries;
  }

  predicate DirAt(d: Disk, dir: Ino, n: Name) {
    n in Entries(d.nodes, dir) && IsDir(d.nodes, Entries(d.nodes, dir)[n])
  }

  /** Put a new file or link at `leaf` through a temp name: over a file, a link, or nothing.
      `left`: a failure left the temp entry behind. */
  method PutLeaf(b: BoxDisk, dir: Ino, leaf: Name, node: Node) returns (ok: bool, left: bool)
    requires b.Valid() && Ready(b.disk) && IsDir(b.disk.nodes, dir) && (node.File? || node.Link?)
    modifies b`disk, b`steps, b`failed, b`stuck
    ensures Ready(b.disk) && (old(b.failed) ==> b.failed)
    ensures ok ==> b.disk == Put(old(b.disk), dir, leaf, node) && !old(DirAt(b.disk, dir, leaf))
    ensures !ok ==> b.failed || old(DirAt(b.disk, dir, leaf))
    ensures OnlyEntry(old(b.disk.nodes), b.disk.nodes, dir, leaf, {})
    ensures EntrySteps(old(b.disk.nodes), dir, leaf, {}, old(b.steps), b.steps)
    ensures !ok ==> Stays(old(b.disk.nodes), b.disk.nodes, dir, leaf)
    ensures !ok && !left ==> AsBefore(old(b.disk.nodes), b.disk.nodes)
    ensures (old(b.stuck) ==> b.stuck) && (left ==> !ok && b.stuck)
  {
    ghost var d := b.disk;
    if * {
      b.failed := true;
      return false, false;
    }
    var tmp := b.tmpName(leaf, Entries(b.disk.nodes, dir).Keys);
    var made := MakeTemp(b, dir, tmp, leaf, node);
    ok, left := LandTemp(b, d, dir, tmp, leaf, made, node);
  }

  /** Rename the temp entry over the leaf, if it is what it is to be and no directory is there; else take it
      away again, unless that fails as well. */
  method LandTemp(b: BoxDisk, ghost d: Disk, dir: Ino, tmp: Name, leaf: Name, made: Node, node: Node)
    returns (ok: bool, left: bool)
    requires Ready(d) && IsDir(d.nodes, dir) && tmp !in Entries(d.nodes, dir) && !made.Dir?
    requires Ready(b.disk) && b.disk == Put(d, dir, tmp, made) && (made != node ==> b.failed)
    modifies b`disk, b`steps, b`failed, b`stuck
    ensures Ready(b.disk) && (old(b.failed) ==> b.failed)
    ensures ok ==> b.disk == Put(d, dir, leaf, node) && !DirAt(d, dir, leaf)
    ensures !ok ==> b.failed || DirAt(d, dir, leaf)
    ensures OnlyEntry(d.nodes, b.disk.nodes, dir, leaf, {}) && EntrySteps(d.nodes, dir, leaf, {}, old(b.steps), b.steps)
    ensures !ok ==> Stays(d.nodes, b.disk.nodes, dir, leaf)
    ensures !ok && !left ==> AsBefore(d.nodes, b.disk.nodes)
    ensures (old(b.stuck) ==> b.stuck) && (left ==> !ok && b.stuck)
  {
    PutRename(d, dir, tmp, leaf, made);
    var isDir := leaf in Entries(b.disk.nodes, dir) && IsDir(b.disk.nodes, Entries(b.disk.nodes, dir)[leaf]);
    var fails := *;
    if made == node && !fails && !isDir {
      PutEntry(d, dir, leaf, leaf, node);
      b.Write(RenameIn(b.disk, dir, tmp, leaf));
      return true, false;
    }
    b.failed := b.failed || fails;
    if * {
      b.stuck := true;
      return false, true;
    }
    UnlinkReady(b.disk, dir, tmp);
    b.Write(Unlink(b.disk, dir, tmp));
    return false, false;
  }

  /** Make the temp entry: a link at once, a file empty and then filled, unless that fails. */
  method MakeTemp(b: BoxDisk, dir: Ino, tmp: Name, ghost leaf: Name, node: Node) returns (made: Node)
    requires Ready(b.disk) && IsDir(b.disk.nodes, dir) && (node.File? || node.Link?)
    requires tmp !in Entries(b.disk.nodes, dir)
    modifies b`disk, b`steps, b`failed, b`stuck
    ensures (made.File? || made.Link?) && b.disk == Put(old(b.disk), dir, tmp, made) && Ready(b.disk)
    ensures (made != node || old(b.failed) ==> b.failed) && b.stuck == old(b.stuck)
    ensures OnlyEntry(old(b.disk.nodes), b.disk.nodes, dir, leaf, {})
    ensures EntrySteps(old(b.disk.nodes), dir, leaf, {}, old(b.steps), b.steps)
  {
    ghost var d := b.disk;
    var ino := b.disk.next;
    made := if node.File? then File([]) else node;
    PutEntry(d, dir, tmp, leaf, made);
    b.Write(Put(b.disk, dir, tmp, made));
    if node.File? {
      if * {
        b.failed := true;
        return;
      }
      made := node;
      ReplaceIsPut(d, dir, tmp, leaf, node.data);
      PutEntry(d, dir, tmp, leaf, node);
      b.Write(Fill(b.disk, ino, node.data));
    }
  }

  lemma PutEntry(d: Disk, dir: Ino, n: Name, leaf: Name, node: Node)
    requires Ready(d) && IsDir(d.nodes, dir) && !node.Dir? && (n !in Entries(d.nodes, dir) || n == leaf)
    ensures Ready(Put(d, dir, n, node)) && OnlyEntry(d.nodes, Put(d, dir, n, node).nodes, dir, leaf, {})
  {
    PutReady(d, dir, n, node);
  }

  lemma UnlinkReady(d: Disk, dir: Ino, n: Name)
    requires Ready(d) && IsDir(d.nodes, dir)
    ensures Ready(Unlink(d, dir, n))
  {
    var e := Unlink(d, dir, n);
    forall k, m | Names(e.nodes, k, m) ensures Entries(e.nodes, k)[m] in e.nodes {
      assert Names(d.nodes, k, m);
    }
  }

  // --- the rename ----------------------------------------------------------------------

  /** A rename is refused without any call failing: what stands at the destination is of another kind,
      or a directory that is not empty. */
  predicate Blocked(d: Disk, m: Trip)
    requires m.sname in Entries(d.nodes, m.sdir)
  {
    m.dname in Entries(d.nodes, m.ddir) && !SameFile(d, m)
    && (IsDir(d.nodes, Entries(d.nodes, m.sdir)[m.sname]) != IsDir(d.nodes, Entries(d.nodes, m.ddir)[m.dname])
        || Entries(d.nodes, Entries(d.nodes, m.ddir)[m.dname]) != map[])
  }

  /** The fallback is: a special file stays, a directory is copied to an absent destination only, and a
      leaf never replaces a directory. */
  predicate BlockedAcross(d: Disk, m: Trip)
    requires m.sname in Entries(d.nodes, m.sdir) && Entries(d.nodes, m.sdir)[m.sname] in d.nodes
  {
    match d.nodes[Entries(d.nodes, m.sdir)[m.sname]]
    case Special => true
    case Dir(_) => m.dname in Entries(d.nodes, m.ddir)
    case _ => DirAt(d, m.ddir, m.dname)
  }

  /** Move an entry.  `exdev`: the kernel refuses the rename, as one from device to device; `across`: then
      fall back to a copy.  The move comes through exactly where nothing blocks it and no call fails. */
  method Rename(b: BoxDisk, m: Trip, across: bool, exdev: bool, path: Path, ghost t: Tree, ghost rank: Ino -> nat)
    returns (r: MoveResult)
    requires b.Valid() && Movable(b.disk, m, t, rank)
    modifies b`disk, b`steps, b`fds, b`failed, b`stuck
    ensures NeverLost(old(b.disk), old(b.steps), b.steps, m, t)
    ensures MoveDone(old(b.disk), b.disk, m, t, exdev, r)
    ensures old(b.failed) ==> b.failed
    ensures (old(b.stuck) ==> b.stuck) && (r == Kept(true) || r.Both? ==> b.stuck)
    ensures !b.failed ==>
              (r == MovedOk <==> if exdev then across && !old(BlockedAcross(b.disk, m)) else !old(Blocked(b.disk, m)))
    ensures (if exdev then !across || old(BlockedAcross(b.disk, m)) else old(Blocked(b.disk, m))) ==> r.Kept?
  {
    var si := Entries(b.disk.nodes, m.sdir)[m.sname];
    if * {
      b.failed := true;
      return Kept(false);
    }
    if exdev {
      r := Kept(false);
      if across {
        r := MoveAcross(b, m, path, t, rank);
      }
      return;
    }
    if m.dname in Entries(b.disk.nodes, m.ddir) {
      var di := Entries(b.disk.nodes, m.ddir)[m.dname];
      if di == si { return MovedOk; }
      if IsDir(b.disk.nodes, si) != IsDir(b.disk.nodes, di) || Entries(b.disk.nodes, di) != map[] {
        return Kept(false);
      }
    }
    RenameMoves(b.disk, m, t);
    b.Write(RenameTo(b.disk, m));
    return MovedOk;
  }

  /** Rename the entry over the destination. */
  function RenameTo(d: Disk, m: Trip): Disk
    requires m.sname in Entries(d.nodes, m.sdir)
  {
    var e := Unlink(d, m.sdir, m.sname);
    e.(nodes := e.nodes[m.ddir := Dir(Entries(e.nodes, m.ddir)[m.dname := Entries(d.nodes, m.sdir)[m.sname]])])
  }

  lemma RenameMoves(d: Disk, m: Trip, t: Tree)
    requires Departs(d, m, t)
    ensures MoveDone(d, RenameTo(d, m), m, t, false, MovedOk) && Safe(d, RenameTo(d, m).nodes, m, t)
  {
    var e := RenameTo(d, m);
    FrameRep(d.nodes, e.nodes, Entries(d.nodes, m.sdir)[m.sname], t, {m.sdir, m.ddir});
  }

  // --- the fallback --------------------------------------------------------------------

  /** The fallback for a rename refused with EXDEV: copy the entry without following a link, then
      remove the source.  A special file stays where it is. */
  method MoveAcross(b: BoxDisk, m: Trip, path: Path, ghost t: Tree, ghost rank: Ino -> nat)
    returns (r: MoveResult)
    requires b.Valid() && Movable(b.disk, m, t, rank)
    modifies b`disk, b`steps, b`fds, b`failed, b`stuck
    ensures NeverLost(old(b.disk), old(b.steps), b.steps, m, t)
    ensures MoveDone(old(b.disk), b.disk, m, t, true, r)
    ensures old(b.failed) ==> b.failed
    ensures (old(b.stuck) ==> b.stuck) && (r == Kept(true) || r.Both? ==> b.stuck)
    ensures !b.failed ==> (r == MovedOk <==> !old(BlockedAcross(b.disk, m)))
    ensures old(BlockedAcross(b.disk, m)) ==> r.Kept?
  {
    var si := Entries(b.disk.nodes, m.sdir)[m.sname];
    if * {
      b.failed := true;
      return Kept(false);
    }
    match b.disk.nodes[si]
    case Special => return Kept(false);
    case Dir(_) => r := MoveDir(b, m, path, t, rank);
    case _ => r := MoveLeaf(b, m, t);
  }

  /** ... a file or a link: put it at the destination, then unlink the source. */
  method MoveLeaf(b: BoxDisk, m: Trip, ghost t: Tree) returns (r: MoveResult)
    requires b.Valid() && Departs(b.disk, m, t) && (t.FileT? || t.LinkT?)
    modifies b`disk, b`steps, b`failed, b`stuck
    ensures NeverLost(old(b.disk), old(b.steps), b.steps, m, t)
    ensures MoveDone(old(b.disk), b.disk, m, t, true, r)
    ensures old(b.failed) ==> b.failed
    ensures (old(b.stuck) ==> b.stuck) && (r == Kept(true) || r.Both? ==> b.stuck)
    ensures !b.failed ==> (r == MovedOk <==> !old(DirAt(b.disk, m.ddir, m.dname)))
    ensures old(DirAt(b.disk, m.ddir, m.dname)) ==> r.Kept?
  {
    ghost var d, was := b.disk, b.steps;
    var node := b.disk.nodes[Entries(b.disk.nodes, m.sdir)[m.sname]];
    var ok, left := PutLeaf(b, m.ddir, m.dname, node);
    forall k | |was| <= k < |b.steps| ensures Safe(d, b.steps[k], m, t) {
      SourceSafe(d, b.steps[k], m, t);
    }
    SourceSafe(d, b.disk.nodes, m, t);
    if !ok { return Kept(left); }
    LeafIsPut(d, b.disk, m, t, node);
    if * {
      b.failed, b.stuck := true, true;
      return Both;
    }
    LeafMoved(d, b.disk, m, t, node);
    b.Write(Unlink(b.disk, m.sdir, m.sname));
    return MovedOk;
  }

  lemma LeafIsPut(d: Disk, e: Disk, m: Trip, t: Tree, node: Node)
    requires Departs(d, m, t) && (t.FileT? || t.LinkT?) && node == d.nodes[Entries(d.nodes, m.sdir)[m.sname]]
    requires e == Put(d, m.ddir, m.dname, node)
    ensures MoveDone(d, e, m, t, true, Both)
  {
    SourceSafe(d, e.nodes, m, t);
    assert e.nodes[d.next] == node;
  }

  lemma LeafMoved(d: Disk, e: Disk, m: Trip, t: Tree, node: Node)
    requires Departs(d, m, t) && (t.FileT? || t.LinkT?) && node == d.nodes[Entries(d.nodes, m.sdir)[m.sname]]
    requires e == Put(d, m.ddir, m.dname, node)
    ensures MoveDone(d, Unlink(e, m.sdir, m.sname), m, t, true, MovedOk)
            && Safe(d, Unlink(e, m.sdir, m.sname).nodes, m, t)
  {
    var f := Unlink(e, m.sdir, m.sname);
    assert f.nodes[d.next] == node;
    assert Entries(f.nodes, m.ddir)[m.dname] == d.next;
  }

  /** ... a directory: copy it to an absent destination, then remove the source.  A copy that fails,
      or leaves anything out, is dropped again and the source kept. */
  method MoveDir(b: BoxDisk, m: Trip, path: Path, ghost t: Tree, ghost rank: Ino -> nat) returns (r: MoveResult)
    requires b.Valid() && Movable(b.disk, m, t, rank) && t.DirT?
    modifies b`disk, b`steps, b`fds, b`failed, b`stuck
    ensures NeverLost(old(b.disk), old(b.steps), b.steps, m, t)
    ensures MoveDone(old(b.disk), b.disk, m, t, true, r)
    ensures old(b.failed) ==> b.failed
    ensures (old(b.stuck) ==> b.stuck) && (r == Kept(true) || r.Both? ==> b.stuck)
    ensures !b.failed ==> (r == MovedOk <==> m.dname !in old(Entries(b.disk.nodes, m.ddir)))
    ensures m.dname in old(Entries(b.disk.nodes, m.ddir)) ==> r.Kept?
  {
    ghost var d := b.disk;
    SourceSafe(d, d.nodes, m, t);
    if * {
      b.failed := true;
      return Kept(false);
    }
    if m.dname in Entries(b.disk.nodes, m.ddir) {
      return Kept(false);
    }
    var ok := CopyAside(b, m, path, t);
    if ok {
      r := DropSource(b, d, m, t, rank);
    } else {
      r := DropPartial(b, d, m, t);
    }
  }

  /** A copy to an absent destination is there, whole or in part, and nothing else changed. */
  ghost predicate Partial(d: Disk, e: Disk, m: Trip) {
    && Ready(e)
    && OnlyWrites(d.nodes, e.nodes, {m.ddir})
    && m.dname !in Entries(d.nodes, m.ddir)
    && MadeOnly(d, e, m.ddir, m.dname)
    && NewFall(d.nodes, e.nodes)
  }

  lemma PartialSafe(d: Disk, e: Disk, m: Trip, t: Tree)
    requires Departs(d, m, t) && Partial(d, e, m)
    ensures Safe(d, e.nodes, m, t) && Whole(e.nodes, m.sdir, m.sname, t) && AllStay(d, e.nodes, m)
            && NoNew(d, e.nodes, m)
  {
    SourceSafe(d, e.nodes, m, t);
    if m.sdir != m.ddir {
      assert e.nodes[m.sdir] == d.nodes[m.sdir];
    }
  }

  /** Copy the directory beside its source; `ok`: it arrived, and nothing was left out.  A directory that cannot
      be listed counts as a failed call. */
  method CopyAside(b: BoxDisk, m: Trip, path: Path, ghost t: Tree) returns (ok: bool)
    requires b.Valid() && Departs(b.disk, m, t) && t.DirT? && m.dname !in Entries(b.disk.nodes, m.ddir)
    modifies b`disk, b`steps, b`fds, b`failed, b`stuck
    ensures Partial(old(b.disk), b.disk, m)
    ensures NeverLost(old(b.disk), old(b.steps), b.steps, m, t)
    ensures ok ==> WholeCopy(old(b.disk), b.disk, m, t)
    ensures (!ok || old(b.failed) ==> b.failed) && (old(b.stuck) ==> b.stuck)
  {
    ghost var d, was, failed := b.disk, b.steps, b.failed;
    var si, first := Entries(b.disk.nodes, m.sdir)[m.sname], b.disk.next;
    var mode := Mode(false, false, first, map[]);
    AbsentApart(d, mode, si, m.ddir, m.dname);
    var c := Copy(b, mode, si, m.ddir, m.dname, false, path, Dirs(d), map[]);
    CopiedSafe(d, b.disk, mode, m, t, was, b.steps);
    if c.Copied? {
      CopyArrives(d, b.disk, mode, m, t, path, c.skipped);
    }
    var wrote := BoxWrites(b, d, first, m, t);
    ok := c.Copied? && c.skipped == [] && !wrote;
    b.failed := b.failed || failed || wrote || c.Raised?;
  }

  /** The copy holds the source less its special files, in directories of its own. */
  ghost predicate WholeCopy(d: Disk, e: Disk, m: Trip, t: Tree) {
    && Carried(t).Some? && Whole(e.nodes, m.ddir, m.dname, Carried(t).value)
    && forall k | Owns(e.nodes, Entries(e.nodes, m.ddir)[m.dname], Carried(t).value, k) :: k !in d.nodes
  }

  ghost function Dirs(d: Disk): set<Ino> {
    set i | i in d.nodes && IsDir(d.nodes, i)
  }

  /** Nothing is in the way of a copy to an absent destination. */
  lemma AbsentApart(d: Disk, mode: Mode, si: Ino, ddir: Ino, dname: Name)
    requires Ready(d) && IsDir(d.nodes, si) && dname !in Entries(d.nodes, ddir)
    requires mode.avoid == d.next && !mode.follow
    ensures Apart(d, mode, Dirs(d), si, ddir, dname, map[])
    ensures Writes(d, ddir, dname, map[]) == {ddir}
  {
    forall i, n | i in Dirs(d) && n in Entries(d.nodes, i)
      ensures Entries(d.nodes, i)[n] in d.nodes && Inside(d.nodes, mode, Dirs(d), Entries(d.nodes, i)[n])
    {
      assert Names(d.nodes, i, n);
    }
    forall k | k in d.nodes ensures !Owns(d.nodes, d.next, DirT(map[]), k) {
    }
  }

  /** At every step of the copy the source is whole, and at its end it is there in part at least. */
  lemma CopiedSafe(d: Disk, e: Disk, mode: Mode, m: Trip, t: Tree, from: seq<Nodes>, to: seq<Nodes>)
    requires Departs(d, m, t) && m.dname !in Entries(d.nodes, m.ddir) && from <= to && Ready(e)
    requires Writes(d, m.ddir, m.dname, map[]) == {m.ddir}
    requires NewFall(d.nodes, e.nodes) && MadeOnly(d, e, m.ddir, m.dname)
    requires OnTheWay(d, e.nodes, mode, Dirs(d), Entries(d.nodes, m.sdir)[m.sname], m.ddir, m.dname, map[])
    requires AllOnTheWay(d, to, |from|, mode, Dirs(d), Entries(d.nodes, m.sdir)[m.sname], m.ddir, m.dname, map[])
    ensures Partial(d, e, m) && NeverLost(d, from, to, m, t)
  {
    var si := Entries(d.nodes, m.sdir)[m.sname];
    NothingToTouch(d.nodes, d.next, Source(d, mode, Dirs(d), si, m.ddir, m.dname));
    forall k | |from| <= k < |to| ensures Safe(d, to[k], m, t) {
      assert OnTheWay(d, to[k], mode, Dirs(d), si, m.ddir, m.dname, map[]);
      forall n | n != m.dname ensures Stays(d.nodes, to[k], m.ddir, n) {
        assert n in Entries(d.nodes, m.ddir) ==> Names(d.nodes, m.ddir, n);
      }
      SourceSafe(d, to[k], m, t);
    }
  }

  /** The box may write in the new directories, whatever it likes and as often: a copy it has come between
      counts as one that left something out. */
  method BoxWrites(b: BoxDisk, ghost d: Disk, first: Ino, m: Trip, ghost t: Tree) returns (wrote: bool)
    requires Departs(d, m, t) && Partial(d, b.disk, m) && first == d.next
    modifies b`disk, b`steps
    ensures Partial(d, b.disk, m) && NeverLost(d, old(b.steps), b.steps, m, t)
    ensures !wrote ==> b.disk == old(b.disk)
  {
    wrote := false;
    var times: nat := *;
    while times > 0
      invariant Partial(d, b.disk, m) && NeverLost(d, old(b.steps), b.steps, m, t)
      invariant !wrote ==> b.disk == old(b.disk)
    {
      times := times - 1;
      var dir: Ino, name: Name, node: Node := *, *, *;
      if dir >= first && IsDir(b.disk.nodes, dir) && (node.Dir? ==> node.entries == map[]) {
        ghost var e := b.disk;
        wrote := true;
        if * {
          b.Write(Put(b.disk, dir, name, node));
        } else {
          b.Write(Unlink(b.disk, dir, name));
        }
        BoxStep(d, e, b.disk, dir, name, node, m);
        PartialSafe(d, b.disk, m, t);
      }
    }
  }

  lemma BoxStep(d: Disk, e: Disk, f: Disk, dir: Ino, name: Name, node: Node, m: Trip)
    requires Ready(d) && IsDir(d.nodes, m.ddir) && Partial(d, e, m)
    requires dir >= d.next && IsDir(e.nodes, dir) && (node.Dir? ==> node.entries == map[])
    requires f == Put(e, dir, name, node) || f == Unlink(e, dir, name)
    ensures Partial(d, f, m)
  {
    assert dir !in d.nodes;
    if f == Put(e, dir, name, node) {
      PutReady(e, dir, name, node);
    } else {
      UnlinkReady(e, dir, name);
    }
    forall k, n | k !in d.nodes && Names(f.nodes, k, n) && IsDir(f.nodes, Entries(f.nodes, k)[n])
      ensures Entries(f.nodes, k)[n] !in d.nodes && k < Entries(f.nodes, k)[n]
    {
      if Entries(f.nodes, k)[n] != e.next || f == Unlink(e, dir, name) {
        assert Names(e.nodes, k, n);
      }
    }
  }

  /** What was copied is the source less its special files, and nothing is reported. */
  lemma CopyArrives(d: Disk, e: Disk, mode: Mode, m: Trip, t: Tree, path: Path, skipped: seq<Path>)
    requires Departs(d, m, t) && t.DirT?
    requires m.dname !in Entries(d.nodes, m.ddir) && mode == Mode(false, false, d.next, map[])
    requires CopyDone(d, e, mode, Dirs(d), Entries(d.nodes, m.sdir)[m.sname], m.ddir, m.dname, map[], path, skipped)
    ensures WholeCopy(d, e, m, t) && skipped == []
  {
    SourceIsTree(d, mode, Entries(d.nodes, m.sdir)[m.sname], m.ddir, m.dname, t);
    CopyToAbsent(t);
    var kids := MergedKids(AsSrc(t), map[], false);
    assert Carried(t) == Some(DirT(kids));
    assert forall p :: LeftOut(AsSrc(t), Some(DirT(map[])), false, p) ==> LeftOut(AsSrc(t), None, false, p);
    FirstIn(skipped);
    forall k | Owns(e.nodes, d.next, DirT(kids), k) ensures k !in d.nodes {
      assert k in Owned(d.nodes, d.next, map[]) ==> k == d.next;
    }
  }

  lemma FirstIn(s: seq<Path>)
    ensures s == [] || s[0] in s
  {
  }

  /** The copy reads the source entry as its tree. */
  lemma SourceIsTree(d: Disk, mode: Mode, si: Ino, ddir: Ino, dname: Name, t: Tree)
    requires Ready(d) && IsDir(d.nodes, ddir) && Rep(d.nodes, si, t) && Sep(d.nodes, si, t)
             && !Owns(d.nodes, si, t, ddir)
    requires dname !in Entries(d.nodes, ddir) && mode == Mode(false, false, d.next, map[])
    ensures Source(d, mode, Dirs(d), si, ddir, dname) == AsSrc(t)
  {
    var f := WithDir(d, ddir, dname);
    FrameRep(d.nodes, f.nodes, si, t, {ddir});
    FrameSep(d.nodes, f.nodes, si, t, {ddir});
    forall j | Owns(f.nodes, si, t, j) ensures j in Dirs(d) && j != d.next {
      FrameOwns(d.nodes, f.nodes, si, t, {ddir}, j);
      OwnsDirs(d.nodes, si, t, j);
    }
    ReadIsTree(f.nodes, mode, Dirs(d), {}, si, t);
  }

  /** Remove the partial copy; a failure leaves (some of) it beside the source. */
  method DropPartial(b: BoxDisk, ghost d: Disk, m: Trip, ghost t: Tree) returns (r: MoveResult)
    requires b.Valid() && Departs(d, m, t) && Partial(d, b.disk, m)
    modifies b`disk, b`steps, b`failed, b`stuck
    ensures NeverLost(d, old(b.steps), b.steps, m, t)
    ensures r.Kept? && MoveDone(d, b.disk, m, t, true, r)
    ensures old(b.failed) ==> b.failed
    ensures b.stuck <==> r == Kept(true) || old(b.stuck)
  {
    ghost var e, was := b.disk, b.steps;
    PartialSafe(d, e, m, t);
    if m.dname !in Entries(b.disk.nodes, m.ddir) {
      return Kept(false);
    }
    ghost var region := set k | k in e.nodes && k !in d.nodes;
    ghost var rank := (k: Ino) => if k <= e.next then e.next - k else 0;
    forall k, n | k in region && Names(e.nodes, k, n) && IsDir(e.nodes, Entries(e.nodes, k)[n])
      ensures Entries(e.nodes, k)[n] in region && rank(Entries(e.nodes, k)[n]) < rank(k)
    {
    }
    var ok := RemoveAt(b, m.ddir, m.dname, region, rank);
    ghost var inner := Inner(e.nodes, region, rank, Entries(e.nodes, m.ddir)[m.dname]);
    forall k | |was| <= k < |b.steps| ensures Safe(d, b.steps[k], m, t) {
      PartialGone(d, e, b.steps[k], m, t, inner);
    }
    PartialGone(d, e, b.disk.nodes, m, t, inner);
    return Kept(!ok);
  }

  lemma PartialGone(d: Disk, e: Disk, now: Nodes, m: Trip, t: Tree, inner: set<Ino>)
    requires Departs(d, m, t) && Partial(d, e, m)
    requires OnlyEntry(e.nodes, now, m.ddir, m.dname, inner) && forall k | k in inner :: k !in d.nodes
    ensures Safe(d, now, m, t) && Whole(now, m.sdir, m.sname, t) && AllStay(d, now, m)
            && OnlyWrites(d.nodes, now, {m.ddir})
    ensures Entries(now, m.ddir) == Entries(e.nodes, m.ddir) - {m.dname} ==> AsBefore(d.nodes, now)
  {
    OnlyWritesTrans(d.nodes, e.nodes, now, {m.ddir}, {m.ddir} + inner);
    SourceSafe(d, now, m, t);
    if Entries(now, m.ddir) == Entries(e.nodes, m.ddir) - {m.dname} {
      assert Entries(now, m.ddir) == Entries(d.nodes, m.ddir);
      assert now[m.ddir] == Dir(Entries(now, m.ddir));
    }
  }

  /** The copy is whole: remove the source tree. */
  method DropSource(b: BoxDisk, ghost d: Disk, m: Trip, ghost t: Tree, ghost rank: Ino -> nat) returns (r: MoveResult)
    requires b.Valid() && Movable(d, m, t, rank) && t.DirT? && Partial(d, b.disk, m) && WholeCopy(d, b.disk, m, t)
    modifies b`disk, b`steps, b`failed, b`stuck
    ensures NeverLost(d, old(b.steps), b.steps, m, t)
    ensures !r.Kept? && MoveDone(d, b.disk, m, t, true, r)
    ensures r != MovedOk || old(b.failed) ==> b.failed
    ensures b.stuck <==> r.Both? || old(b.stuck)
  {
    ghost var e, was := b.disk, b.steps;
    ghost var region := SourceRegion(d, m, t);
    PartialSafe(d, e, m, t);
    SourceFalls(d, e, m, t, rank);
    ghost var inner := Inner(e.nodes, region, rank, Entries(e.nodes, m.sdir)[m.sname]);
    var ok := RemoveAt(b, m.sdir, m.sname, region, rank);
    forall k | |was| <= k < |b.steps| ensures Safe(d, b.steps[k], m, t) {
      SourceGone(d, e, b.steps[k], m, t, inner);
    }
    SourceGone(d, e, b.disk.nodes, m, t, inner);
    assert NoNew(d, b.disk.nodes, m) by {
      assert forall k, n | n in Entries(b.disk.nodes, k) :: Names(b.disk.nodes, k, n);
    }
    return if ok then MovedOk else Both;
  }

  lemma SourceFalls(d: Disk, e: Disk, m: Trip, t: Tree, rank: Ino -> nat)
    requires Movable(d, m, t, rank) && t.DirT? && Partial(d, e, m)
    ensures Falls(e.nodes, SourceRegion(d, m, t), rank)
    ensures Entries(d.nodes, m.sdir)[m.sname] in SourceRegion(d, m, t)
  {
    var si := Entries(d.nodes, m.sdir)[m.sname];
    var region := SourceRegion(d, m, t);
    forall k, n | k in region && Names(e.nodes, k, n) && IsDir(e.nodes, Entries(e.nodes, k)[n])
      ensures Entries(e.nodes, k)[n] in region && rank(Entries(e.nodes, k)[n]) < rank(k)
    {
      assert Names(d.nodes, k, n);
      OwnsClosed(d.nodes, si, t, k, n);
    }
    assert Owns(d.nodes, si, t, si);
  }

  lemma SourceGone(d: Disk, e: Disk, now: Nodes, m: Trip, t: Tree, inner: set<Ino>)
    requires Departs(d, m, t) && Partial(d, e, m) && WholeCopy(d, e, m, t) && inner <= SourceRegion(d, m, t)
    requires OnlyEntry(e.nodes, now, m.sdir, m.sname, inner)
    ensures Safe(d, now, m, t) && Landed(now, m, t, true)
  {
    OnlyWritesTrans(d.nodes, e.nodes, now, {m.sdir, m.ddir} + SourceRegion(d, m, t), {m.sdir} + inner);
    CopyStays(d, e, now, m, t, inner);
  }

  /** The copy stays whole meanwhile. */
  lemma CopyStays(d: Disk, e: Disk, now: Nodes, m: Trip, t: Tree, inner: set<Ino>)
    requires Departs(d, m, t) && Partial(d, e, m) && WholeCopy(d, e, m, t) && inner <= SourceRegion(d, m, t)
    requires OnlyEntry(e.nodes, now, m.sdir, m.sname, inner)
    ensures Carried(t).Some? && Whole(now, m.ddir, m.dname, Carried(t).value)
  {
    FrameRep(e.nodes, now, Entries(e.nodes, m.ddir)[m.dname], Carried(t).value, {m.sdir} + inner);
    if m.sdir != m.ddir {
      assert now[m.ddir] == e.nodes[m.ddir];
    }
  }
}
