/** What the calls on inodes come to for directories seen as maps of names to trees: each clause that the
    primitives of modules Restore and Relocate promise follows from what is proved of the calls. */
module TreeLevel {
  import opened Options
  import opened Trees
  import opened Merge
  import opened CopySteps
  import opened CopyScope
  import opened BoxFs
  import opened CopyTree
  import opened Moves
  import R = Restore

  type Kids = R.Kids

  /** An inode holds one tree at most. */
  lemma {:induction false} OneTree(nodes: Nodes, i: Ino, t: Tree, u: Tree)
    requires Rep(nodes, i, t) && Rep(nodes, i, u)
    ensures t == u
    decreases t
  {
    if t.DirT? {
      forall n | n in t.kids ensures t.kids[n] == u.kids[n] {
        OneTree(nodes, nodes[i].entries[n], t.kids[n], u.kids[n]);
      }
    }
  }

  /** An entry that still names the inode it named, whose tree was not written, is there as it was. */
  lemma Untouched(before: Nodes, after: Nodes, dir: Ino, was: Kids, now: Kids, n: Name, writes: set<Ino>)
    requires Rep(before, dir, DirT(was)) && Rep(after, dir, DirT(now)) && n in was
    requires OnlyWrites(before, after, writes) && Stays(before, after, dir, n)
    requires forall k | k in writes :: !OwnsName(before, dir, DirT(was), n, k)
    ensures R.Has(now, was, n)
  {
    var c := Entries(before, dir)[n];
    assert Rep(before, c, was[n]);
    forall k | k in writes ensures !Owns(before, c, was[n], k) {
      assert !OwnsName(before, dir, DirT(was), n, k);
    }
    FrameRep(before, after, c, was[n], writes);
    assert Rep(after, c, now[n]);
    OneTree(after, c, was[n], now[n]);
  }

  // --- a merging copy ------------------------------------------------------------------

  /** A copy, without following links, of the directory `sfd` onto the one at `leaf`, which hold these
      trees; the two have no directory in common. */
  ghost predicate Merging(d: Disk, mode: Mode, reach: set<Ino>, sfd: Ino, parent: Ino, leaf: Name, src: Kids,
                          dst: Kids) {
    && Ready(d) && leaf in Entries(d.nodes, parent) && IsDir(d.nodes, Dest(d, parent, leaf)) && !mode.follow
    && Apart(d, mode, reach, sfd, parent, leaf, dst)
    && IsTree(d.nodes, sfd, src) && Owned(d.nodes, sfd, src) <= reach
  }

  lemma MergingReads(d: Disk, mode: Mode, reach: set<Ino>, sfd: Ino, parent: Ino, leaf: Name, src: Kids, dst: Kids)
    requires Merging(d, mode, reach, sfd, parent, leaf, src, dst)
    ensures Source(d, mode, reach, sfd, parent, leaf) == AsSrc(DirT(src))
  {
    var dest := Dest(d, parent, leaf);
    forall j | Owns(d.nodes, sfd, DirT(src), j) ensures j in reach && j != dest {
      OwnsDirs(d.nodes, sfd, DirT(src), j);
      assert Owns(d.nodes, dest, DirT(dst), dest);
    }
    ReadIsTree(d.nodes, mode, reach, {}, sfd, DirT(src));
  }

  /** A copy that comes through leaves the merge of the two trees, and leaves something out exactly where
      the merge does (`Restore.CopyMerge`). */
  lemma CopyComes(d: Disk, e: Disk, mode: Mode, reach: set<Ino>, sfd: Ino, parent: Ino, leaf: Name, src: Kids,
                  dst: Kids,
                  path: Path, skipped: seq<Path>, now: Kids)
    requires Merging(d, mode, reach, sfd, parent, leaf, src, dst)
    requires CopyDone(d, e, mode, reach, sfd, parent, leaf, dst, path, skipped)
    requires Rep(e.nodes, Dest(d, parent, leaf), DirT(now))
    ensures now == MergedKids(AsSrc(DirT(src)), dst, mode.skipLinks)
    ensures if skipped == [] then forall p :: !LeftOut(AsSrc(DirT(src)), Some(DirT(dst)), mode.skipLinks, p)
            else exists p :: LeftOut(AsSrc(DirT(src)), Some(DirT(dst)), mode.skipLinks, p)
  {
    MergingReads(d, mode, reach, sfd, parent, leaf, src, dst);
    OneTree(e.nodes, Dest(d, parent, leaf), DirT(now), DirT(MergedKids(AsSrc(DirT(src)), dst, mode.skipLinks)));
    NothingLeftOut(skipped, AsSrc(DirT(src)), Some(DirT(dst)), mode.skipLinks, path);
  }

  lemma NothingLeftOut(skipped: seq<Path>, s: Src, there: Option<Tree>, skipLinks: bool, path: Path)
    requires Reports(skipped, s, there, skipLinks, path)
    ensures if skipped == [] then forall p :: !LeftOut(s, there, skipLinks, p)
            else exists p :: LeftOut(s, there, skipLinks, p)
  {
    FirstIn(skipped);
    if skipped == [] {
      forall p ensures !LeftOut(s, there, skipLinks, p) {
        assert (path + p)[|path|..] == p;
        assert path + p !in skipped;
      }
    } else {
      assert LeftOut(s, there, skipLinks, skipped[0][|path|..]);
    }
  }

  /** However a copy ends, and at every step of it, an entry the source does not name is as it was, and so is
      the source (`Restore.CopyMerge`). */
  lemma CopySpares(d: Disk, nodes: Nodes, mode: Mode, reach: set<Ino>, sfd: Ino, parent: Ino, leaf: Name, src: Kids,
                   dst: Kids, now: Kids)
    requires Merging(d, mode, reach, sfd, parent, leaf, src, dst)
    requires OnTheWay(d, nodes, mode, reach, sfd, parent, leaf, dst) && Rep(nodes, Dest(d, parent, leaf), DirT(now))
    ensures forall n | n in dst && (n !in src || dst[n].LinkT?) :: R.Has(now, dst, n)
    ensures Rep(nodes, sfd, DirT(src))
  {
    MergingReads(d, mode, reach, sfd, parent, leaf, src, dst);
    var dest := Dest(d, parent, leaf);
    forall n | n in dst && (n !in src || dst[n].LinkT?) ensures R.Has(now, dst, n) {
      SparedName(nodes, dest, src, dst, now, n);
    }
    forall k | k in Writes(d, parent, leaf, dst) ensures !Owns(d.nodes, sfd, DirT(src), k) {
      assert Owns(d.nodes, sfd, DirT(src), k) ==> k in Owned(d.nodes, sfd, src);
    }
    FrameRep(d.nodes, nodes, sfd, DirT(src), Writes(d, parent, leaf, dst));
  }

  lemma SparedName(nodes: Nodes, dest: Ino, src: Kids, dst: Kids, now: Kids, n: Name)
    requires Spared(nodes, dest, dst, AsSrc(DirT(src))) && Rep(nodes, dest, DirT(now))
    requires n in dst && (n !in src || dst[n].LinkT?)
    ensures R.Has(now, dst, n)
  {
    var p: Path := [n];
    assert p[1..] == [];
    assert TreeAt(Some(DirT(dst)), p) == Some(dst[n]);
    assert SparedAt(dst, AsSrc(DirT(src)), p);
    assert InoAt(nodes, dest, p) == Some(Entries(nodes, dest)[n]);
    OneTree(nodes, Entries(nodes, dest)[n], dst[n], now[n]);
  }

  // --- a move --------------------------------------------------------------------------

  /** A move from one directory to another; the two have no directory in common. */
  ghost predicate Stores(d: Disk, m: Trip, src: Kids, dst: Kids) {
    && Ready(d) && IsTree(d.nodes, m.sdir, src) && IsTree(d.nodes, m.ddir, dst) && m.sname in src
    && Owned(d.nodes, m.sdir, src) !! Owned(d.nodes, m.ddir, dst)
  }

  lemma InOwned(d: Disk, i: Ino, kids: Kids, k: Ino)
    requires Rep(d.nodes, i, DirT(kids)) && (k == i || exists n :: NameOwns(d.nodes, i, kids, n, k))
    ensures k in Owned(d.nodes, i, kids)
  {
    if k != i {
      var n :| NameOwns(d.nodes, i, kids, n, k);
    }
    OwnsDirs(d.nodes, i, DirT(kids), k);
  }

  /** Such a move may be made. */
  lemma StoresDepart(d: Disk, m: Trip, src: Kids, dst: Kids)
    requires Stores(d, m, src, dst)
    ensures Departs(d, m, src[m.sname]) && m.sdir != m.ddir
  {
    var c, t := Entries(d.nodes, m.sdir)[m.sname], src[m.sname];
    InOwned(d, m.sdir, src, m.sdir);
    InOwned(d, m.ddir, dst, m.ddir);
    forall k | Owns(d.nodes, c, t, k)
      ensures OwnsName(d.nodes, m.sdir, DirT(src), m.sname, k) && k in Owned(d.nodes, m.sdir, src)
    {
      assert NameOwns(d.nodes, m.sdir, src, m.sname, k);
      InOwned(d, m.sdir, src, k);
    }
  }

  /** Whatever state a move is in, every other entry of the two directories is as it was. */
  lemma OthersStay(d: Disk, now: Nodes, m: Trip, src: Kids, dst: Kids, src': Kids, dst': Kids)
    requires Stores(d, m, src, dst) && Framed(d, now, m, src[m.sname])
    requires Rep(now, m.sdir, DirT(src')) && Rep(now, m.ddir, DirT(dst'))
    ensures forall n | n in src && n != m.sname :: R.Has(src', src, n)
    ensures forall n | n in dst && n != m.dname :: R.Has(dst', dst, n)
    ensures forall n | n in dst && Stays(d.nodes, now, m.ddir, n) :: R.Has(dst', dst, n)
  {
    StoresDepart(d, m, src, dst);
    var t := src[m.sname];
    var writes := {m.sdir, m.ddir} + SourceRegion(d, m, t);
    forall n | n in src && n != m.sname ensures R.Has(src', src, n) {
      forall k | k in writes ensures !OwnsName(d.nodes, m.sdir, DirT(src), n, k) {
        NotOwned(d, m, src, dst, n, k);
      }
      Untouched(d.nodes, now, m.sdir, src, src', n, writes);
    }
    forall n | n in dst && Stays(d.nodes, now, m.ddir, n) ensures R.Has(dst', dst, n) {
      forall k | k in writes ensures !OwnsName(d.nodes, m.ddir, DirT(dst), n, k) {
        NotOwnedThere(d, m, src, dst, n, k);
      }
      Untouched(d.nodes, now, m.ddir, dst, dst', n, writes);
    }
  }

  lemma NotOwned(d: Disk, m: Trip, src: Kids, dst: Kids, n: Name, k: Ino)
    requires Stores(d, m, src, dst) && n in src && n != m.sname
    requires k in {m.sdir, m.ddir} + SourceRegion(d, m, src[m.sname])
    ensures !OwnsName(d.nodes, m.sdir, DirT(src), n, k)
  {
    if OwnsName(d.nodes, m.sdir, DirT(src), n, k) {
      assert NameOwns(d.nodes, m.sdir, src, n, k);
      InOwned(d, m.sdir, src, k);
      InOwned(d, m.ddir, dst, m.ddir);
      if k in SourceRegion(d, m, src[m.sname]) {
        assert OwnsName(d.nodes, m.sdir, DirT(src), m.sname, k);
      }
    }
  }

  lemma NotOwnedThere(d: Disk, m: Trip, src: Kids, dst: Kids, n: Name, k: Ino)
    requires Stores(d, m, src, dst) && n in dst && k in {m.sdir, m.ddir} + SourceRegion(d, m, src[m.sname])
    ensures !OwnsName(d.nodes, m.ddir, DirT(dst), n, k)
  {
    if OwnsName(d.nodes, m.ddir, DirT(dst), n, k) {
      assert NameOwns(d.nodes, m.ddir, dst, n, k);
      InOwned(d, m.ddir, dst, k);
      InOwned(d, m.sdir, src, m.sdir);
      if k in SourceRegion(d, m, src[m.sname]) {
        assert NameOwns(d.nodes, m.sdir, src, m.sname, k);
        InOwned(d, m.sdir, src, k);
      }
    }
  }

  /** How a move ends, for the two directories: what it moved has gone from one to the other, whole, or less
      its special files across devices; or the destination keeps all it had and the source is untouched; or
      both hold it.  A rename over another name of the same inode does nothing (`Restore.RenameEntry`,
      `Relocate.MoveEntry`). */
  lemma MoveEnds(d: Disk, e: Disk, m: Trip, exdev: bool, r: MoveResult, src: Kids, dst: Kids, src': Kids, dst': Kids)
    requires Stores(d, m, src, dst) && MoveDone(d, e, m, src[m.sname], exdev, r)
    requires Rep(e.nodes, m.sdir, DirT(src')) && Rep(e.nodes, m.ddir, DirT(dst'))
    ensures r == MovedOk && !SameFile(d, m) ==> src' == src - {m.sname}
    ensures !r.Kept? ==>
              Landing(exdev, src[m.sname]).Some? && dst' == dst[m.dname := Landing(exdev, src[m.sname]).value]
    ensures r.Kept? ==> src' == src && forall n | n in dst :: R.Has(dst', dst, n)
    ensures src' - {m.sname} == src - {m.sname}
  {
    StoresDepart(d, m, src, dst);
    OthersStay(d, e.nodes, m, src, dst, src', dst');
    if r.Kept? {
      KeptSource(d, e, m, src, dst, src');
    } else {
      TookOver(d, e, m, exdev, src, dst, src', dst');
    }
  }

  lemma TookOver(d: Disk, e: Disk, m: Trip, exdev: bool, src: Kids, dst: Kids, src': Kids, dst': Kids)
    requires m.sname in src && m.sdir != m.ddir && NoNew(d, e.nodes, m) && Moves.Landed(e.nodes, m, src[m.sname], exdev)
    requires Rep(d.nodes, m.sdir, DirT(src)) && Rep(d.nodes, m.ddir, DirT(dst))
    requires Rep(e.nodes, m.sdir, DirT(src')) && Rep(e.nodes, m.ddir, DirT(dst'))
    requires forall n | n in src && n != m.sname :: R.Has(src', src, n)
    requires forall n | n in dst && n != m.dname :: R.Has(dst', dst, n)
    ensures dst' == dst[m.dname := Landing(exdev, src[m.sname]).value] && src' - {m.sname} == src - {m.sname}
    ensures m.sname !in Entries(e.nodes, m.sdir) ==> src' == src - {m.sname}
  {
    OneTree(e.nodes, Entries(e.nodes, m.ddir)[m.dname], dst'[m.dname], Landing(exdev, src[m.sname]).value);
    assert Entries(d.nodes, m.ddir).Keys == dst.Keys && Entries(d.nodes, m.sdir).Keys == src.Keys;
    assert Entries(e.nodes, m.ddir).Keys == dst'.Keys && Entries(e.nodes, m.sdir).Keys == src'.Keys;
    OneName(dst, dst', m.dname);
    OneName(src, src', m.sname);
  }

  /** Two directories that differ at one name at most. */
  lemma OneName(was: Kids, now: Kids, n: Name)
    requires forall o | o in was && o != n :: R.Has(now, was, o)
    requires forall o | o in now && o != n :: o in was
    ensures now - {n} == was - {n}
    ensures if n in now then now == was[n := now[n]] else now == was - {n}
  {
    assert forall o | o in was && o != n :: now[o] == was[o] by {
      forall o | o in was && o != n ensures o in now && now[o] == was[o] {
        assert R.Has(now, was, o);
      }
    }
    assert now - {n} == was - {n};
    if n in now {
      assert now == was[n := now[n]];
    } else {
      assert now == now - {n};
    }
  }

  lemma KeptSource(d: Disk, e: Disk, m: Trip, src: Kids, dst: Kids, src': Kids)
    requires Stores(d, m, src, dst) && OnlyWrites(d.nodes, e.nodes, {m.ddir}) && Rep(e.nodes, m.sdir, DirT(src'))
    ensures src' == src
  {
    if Owns(d.nodes, m.sdir, DirT(src), m.ddir) {
      OwnsDirs(d.nodes, m.sdir, DirT(src), m.ddir);
      InOwned(d, m.ddir, dst, m.ddir);
    }
    FrameRep(d.nodes, e.nodes, m.sdir, DirT(src), {m.ddir});
    OneTree(e.nodes, m.sdir, DirT(src), DirT(src'));
  }

  /** A move onto a free name or a link is refused exactly where a directory would land on the link, or a
      special file is to go across devices (`Relocate.MoveEntry`); one onto any name, by a rename, where
      what stands there is of another kind or a directory that is not empty (`Restore.RenameEntry`). */
  lemma MoveIsRefused(d: Disk, m: Trip, exdev: bool, src: Kids, dst: Kids)
    requires Stores(d, m, src, dst) && !SameFile(d, m)
    ensures Entries(d.nodes, m.sdir)[m.sname] in d.nodes
    ensures
      var t := src[m.sname];
      (m.dname in dst ==> dst[m.dname].LinkT?) ==>
        ((if exdev then BlockedAcross(d, m) else Blocked(d, m))
          <==> (t.DirT? && m.dname in dst) || Landing(exdev, t).None?)
    ensures
      var t := src[m.sname];
      Blocked(d, m) <==> m.dname in dst && (t.DirT? != dst[m.dname].DirT? || (t.DirT? && dst[m.dname].kids != map[]))
  {
    var t := src[m.sname];
    assert Rep(d.nodes, Entries(d.nodes, m.sdir)[m.sname], t);
    if m.dname in dst {
      var u := dst[m.dname];
      assert Rep(d.nodes, Entries(d.nodes, m.ddir)[m.dname], u);
      if u.DirT? {
        SameKeys(Entries(d.nodes, Entries(d.nodes, m.ddir)[m.dname]), u.kids);
      }
    }
  }

  lemma SameKeys(entries: map<Name, Ino>, kids: Kids)
    requires entries.Keys == kids.Keys
    ensures entries == map[] <==> kids == map[]
  {
    assert entries == map[] <==> entries.Keys == {};
    assert kids == map[] <==> kids.Keys == {};
  }

  // --- a removal -----------------------------------------------------------------------

  /** The directories below the entry `n`: where a removal of it goes. */
  ghost function BelowName(d: Disk, dir: Ino, kids: Kids, n: Name): set<Ino> {
    set k | k in d.nodes && NameOwns(d.nodes, dir, kids, n, k)
  }

  /** A removal of the entry may start there. */
  lemma RemovalStarts(d: Disk, dir: Ino, n: Name, kids: Kids, rank: Ino -> nat)
    requires IsTree(d.nodes, dir, kids) && n in kids
    ensures
      var c, region := Entries(d.nodes, dir)[n], BelowName(d, dir, kids, n);
      (IsDir(d.nodes, c) ==> c in region) && dir !in Inner(d.nodes, region, rank, c)
  {
    var c := Entries(d.nodes, dir)[n];
    assert Rep(d.nodes, c, kids[n]);
    if IsDir(d.nodes, c) {
      assert Owns(d.nodes, c, kids[n], c);
    }
  }

  /** Removing an entry (`Moves.RemoveAt`) leaves the other entries as they were, also where it fails
      part-way; one that comes through leaves nothing else (`Restore.Folder.Remove`). */
  lemma RemovalEnds(d: Disk, after: Nodes, dir: Ino, n: Name, kids: Kids, now: Kids, rank: Ino -> nat, ok: bool)
    requires IsTree(d.nodes, dir, kids) && n in kids && Rep(after, dir, DirT(now))
    requires OnlyEntry(d.nodes, after, dir, n,
                       Inner(d.nodes, BelowName(d, dir, kids, n), rank, Entries(d.nodes, dir)[n]))
    requires Entries(after, dir) == if ok then Entries(d.nodes, dir) - {n} else Entries(d.nodes, dir)
    ensures now - {n} == kids - {n}
    ensures ok ==> now == kids - {n} && IsTree(after, dir, now)
  {
    var writes := {dir} + Inner(d.nodes, BelowName(d, dir, kids, n), rank, Entries(d.nodes, dir)[n]);
    if ok {
      Prune(d.nodes, after, dir, kids, n, writes);
      OneTree(after, dir, DirT(now), DirT(kids - {n}));
    } else {
      forall o | o in kids && o != n ensures now[o] == kids[o] {
        Siblings(d.nodes, after, dir, kids, n, o, writes);
        OneTree(after, Entries(after, dir)[o], now[o], kids[o]);
      }
      assert now - {n} == kids - {n};
    }
  }

  /** What is left at `i` of the tree `t`, once entries were taken away. */
  ghost function LeftOf(after: Nodes, i: Ino, t: Tree): Tree
    decreases t
  {
    if t.DirT? then
      DirT(map n | n in t.kids && n in Entries(after, i) :: LeftOf(after, Entries(after, i)[n], t.kids[n]))
    else t
  }

  lemma {:induction false} LeftIsThere(before: Nodes, after: Nodes, i: Ino, t: Tree, writes: set<Ino>)
    requires Rep(before, i, t) && Shrunk(before, after) && OnlyWrites(before, after, writes)
    ensures Rep(after, i, LeftOf(after, i, t))
    decreases t
  {
    if t.DirT? {
      forall n | n in Entries(after, i)
        ensures n in t.kids && Rep(after, Entries(after, i)[n], LeftOf(after, Entries(after, i)[n], t.kids[n]))
      {
        assert Names(after, i, n);
        LeftIsThere(before, after, Entries(before, i)[n], t.kids[n], writes);
      }
    }
  }

  /** Remove the entry `n` of a directory that holds `kids`; `now`: what it holds then (`Restore.Folder.Remove`). */
  method RemoveEntry(b: BoxDisk, dir: Ino, n: Name, ghost kids: Kids, ghost rank: Ino -> nat)
    returns (ok: bool, ghost now: Kids)
    requires b.Valid() && Ready(b.disk) && IsTree(b.disk.nodes, dir, kids) && n in kids
    requires forall k, m {:trigger Names(b.disk.nodes, k, m)} |
               k in BelowName(b.disk, dir, kids, n) && Names(b.disk.nodes, k, m)
               && IsDir(b.disk.nodes, Entries(b.disk.nodes, k)[m]) :: rank(Entries(b.disk.nodes, k)[m]) < rank(k)
    modifies b`disk, b`steps, b`failed, b`stuck
    ensures Rep(b.disk.nodes, dir, DirT(now)) && now - {n} == kids - {n}
    ensures if ok then now == kids - {n} && IsTree(b.disk.nodes, dir, now) else b.failed
    ensures ok ==> forall j | old(Owns(b.disk.nodes, Entries(b.disk.nodes, dir)[n], kids[n], j)) ::
                     Entries(b.disk.nodes, j) == map[]
  {
    ghost var d := b.disk;
    ghost var c, region := Entries(d.nodes, dir)[n], BelowName(d, dir, kids, n);
    RemovalStarts(d, dir, n, kids, rank);
    assert Rep(d.nodes, c, kids[n]);
    forall k, m | k in region && Names(d.nodes, k, m) && IsDir(d.nodes, Entries(d.nodes, k)[m])
      ensures Entries(d.nodes, k)[m] in region
    {
      OwnsClosed(d.nodes, c, kids[n], k, m);
    }
    ok := RemoveAt(b, dir, n, region, rank);
    LeftIsThere(d.nodes, b.disk.nodes, dir, DirT(kids), {dir} + Inner(d.nodes, region, rank, c));
    now := LeftOf(b.disk.nodes, dir, DirT(kids)).kids;
    RemovalEnds(d, b.disk.nodes, dir, n, kids, now, rank, ok);
    if ok {
      forall j | Owns(d.nodes, c, kids[n], j) ensures Entries(b.disk.nodes, j) == map[] {
        assert Names(d.nodes, dir, n) && !Names(b.disk.nodes, dir, n);
        AllEmptied(d.nodes, b.disk.nodes, c, kids[n], j);
      }
    }
  }
}
