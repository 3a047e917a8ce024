/** What a copy may touch while it runs, and what it leaves alone however it ends. */
module CopyScope {
  import opened Options
  import opened Trees
  import opened Merge
  import opened CopySteps

  predicate IsFile(nodes: Nodes, i: Ino) {
    i in nodes && nodes[i].File?
  }

  predicate IsLink(nodes: Nodes, i: Ino) {
    i in nodes && nodes[i].Link?
  }

  /** The reach of one copy: the directories it may write and the files it may replace, of those there
      were, and which source directory it may be in while it is in which destination directory, with these
      directories held open. */
  datatype Scope = Scope(
    before: Nodes,
    mode: Mode,
    dirs: set<Ino>,
    files: set<(Ino, Name)>,
    visits: (Ino, Ino, set<Ino>) -> bool)

  /** Nothing that was there is lost or redirected: every name stays, and only one of the `files` may be
      replaced, by a file. */
  ghost predicate Grown(before: Nodes, after: Nodes, files: set<(Ino, Name)>) {
    forall k: Ino, n: Name {:trigger Names(before, k, n)} | Names(before, k, n) ::
      && Entries(before, k)[n] in before
      && n in Entries(after, k)
      && (Entries(after, k)[n] == Entries(before, k)[n]
          || ((k, n) in files && IsFile(before, Entries(before, k)[n]) && IsFile(after, Entries(after, k)[n])))
  }

  /** A directory has no new name unless it is new itself, and then a later one than the directory
      that names it. */
  ghost predicate Numbered(before: Nodes, nodes: Nodes) {
    forall k, n {:trigger Names(nodes, k, n)} | Names(nodes, k, n) && IsDir(nodes, Entries(nodes, k)[n]) ::
      || (Entries(nodes, k)[n] !in before && k < Entries(nodes, k)[n])
      || (n in Entries(before, k) && Entries(before, k)[n] == Entries(nodes, k)[n])
  }

  /** What holds of the disk at every moment of a copy. */
  ghost predicate Growing(g: Scope, d: Disk) {
    && Ready(d)
    && OnlyWrites(g.before, d.nodes, g.dirs)
    && Grown(g.before, d.nodes, g.files)
    && Numbered(g.before, d.nodes)
  }

  /** Every state since `from` differs from `before` only in `dirs` and `files`, and lost nothing. */
  ghost predicate Recorded(before: Nodes, dirs: set<Ino>, files: set<(Ino, Name)>, from: seq<Nodes>, to: seq<Nodes>) {
    from <= to && forall k | |from| <= k < |to| :: OnlyWrites(before, to[k], dirs) && Grown(before, to[k], files)
  }

  ghost predicate Logged(g: Scope, from: seq<Nodes>, to: seq<Nodes>) {
    Recorded(g.before, g.dirs, g.files, from, to)
  }

  /** A stretch of a copy that kept to its scope. */
  ghost predicate Within(g: Scope, d: Disk, from: seq<Nodes>, to: seq<Nodes>) {
    Growing(g, d) && Logged(g, from, to)
  }

  /** A copy may write the directory `i` now: it is in its reach, or new. */
  predicate Target(g: Scope, d: Disk, i: Ino) {
    IsDir(d.nodes, i) && (i in g.dirs || i !in g.before)
  }

  /** The entry `n` of `cd` may be replaced by a file: it is in reach, or new. */
  predicate Replaceable(g: Scope, d: Disk, cd: Ino, n: Name) {
    && n in Entries(d.nodes, cd) && IsFile(d.nodes, Entries(d.nodes, cd)[n])
    && (n in Entries(g.before, cd) ==> (cd, n) in g.files)
  }

  /** Every entry of `dir` names the inode it named. */
  ghost predicate EntriesKept(d: Disk, e: Disk, dir: Ino) {
    forall n | n in Entries(d.nodes, dir) ::
      n in Entries(e.nodes, dir) && Entries(e.nodes, dir)[n] == Entries(d.nodes, dir)[n]
  }

  /** Every directory is one still. */
  ghost predicate KeepsDirs(d: Disk, e: Disk) {
    forall k | IsDir(d.nodes, k) :: IsDir(e.nodes, k)
  }

  /** A new entry where nothing was, or a new file in the place of one in reach, loses nothing. */
  lemma GrowPut(g: Scope, d: Disk, cd: Ino, n: Name, node: Node)
    requires Growing(g, d) && Target(g, d, cd)
    requires node.Dir? ==> node.entries == map[]
    requires n in Entries(d.nodes, cd) ==> node.File? && Replaceable(g, d, cd, n)
    ensures Growing(g, Put(d, cd, n, node)) && KeepsDirs(d, Put(d, cd, n, node))
  {
    PutReady(d, cd, n, node);
    PutNumbered(g, d, cd, n, node);
    PutGrown(g, d, cd, n, node);
  }

  lemma PutNumbered(g: Scope, d: Disk, cd: Ino, n: Name, node: Node)
    requires Growing(g, d) && Target(g, d, cd)
    requires node.Dir? ==> node.entries == map[]
    ensures Numbered(g.before, Put(d, cd, n, node).nodes)
  {
    var e := Put(d, cd, n, node);
    forall k, m | Names(e.nodes, k, m) && IsDir(e.nodes, Entries(e.nodes, k)[m])
      ensures (Entries(e.nodes, k)[m] !in g.before && k < Entries(e.nodes, k)[m])
              || (m in Entries(g.before, k) && Entries(g.before, k)[m] == Entries(e.nodes, k)[m])
    {
      if (k != cd || m != n) && k != d.next {
        assert Names(d.nodes, k, m);
      }
    }
  }

  lemma PutGrown(g: Scope, d: Disk, cd: Ino, n: Name, node: Node)
    requires Growing(g, d) && Target(g, d, cd)
    requires n in Entries(d.nodes, cd) ==> node.File? && Replaceable(g, d, cd, n)
    ensures Grown(g.before, Put(d, cd, n, node).nodes, g.files)
  {
    var e := Put(d, cd, n, node);
    forall k: Ino, m: Name | Names(g.before, k, m)
      ensures m in Entries(e.nodes, k)
      ensures Entries(e.nodes, k)[m] == Entries(g.before, k)[m]
              || ((k, m) in g.files && IsFile(g.before, Entries(g.before, k)[m])
                && IsFile(e.nodes, Entries(e.nodes, k)[m]))
    {
      assert Names(d.nodes, k, m);
    }
  }

  /** An inode that no directory names changes nothing. */
  lemma GrowOrphan(g: Scope, d: Disk, data: Bytes)
    requires Growing(g, d)
    ensures Growing(g, Orphan(d, data)) && KeepsDirs(d, Orphan(d, data))
  {
    var e := Orphan(d, data);
    forall k ensures Entries(e.nodes, k) == Entries(d.nodes, k) {
    }
    forall k, m | Names(e.nodes, k, m)
      ensures Entries(e.nodes, k)[m] in e.nodes
      ensures IsDir(e.nodes, Entries(e.nodes, k)[m]) ==>
                (Entries(e.nodes, k)[m] !in g.before && k < Entries(e.nodes, k)[m])
                || (m in Entries(g.before, k) && Entries(g.before, k)[m] == Entries(e.nodes, k)[m])
    {
      assert Names(d.nodes, k, m);
    }
    forall k: Ino, m: Name | Names(g.before, k, m)
      ensures m in Entries(e.nodes, k)
      ensures Entries(e.nodes, k)[m] == Entries(g.before, k)[m]
              || ((k, m) in g.files && IsFile(g.before, Entries(g.before, k)[m])
                && IsFile(e.nodes, Entries(e.nodes, k)[m]))
    {
      assert Names(d.nodes, k, m);
    }
  }

  function Orphan(d: Disk, data: Bytes): Disk {
    Disk(d.nodes[d.next := File(data)], d.next + 1)
  }

  // --- from directory to directory -----------------------------------------------------

  /** A source entry, read from the inode `st`, meets the destination entry `there`: a file replaces only
      a file in reach, and a directory that is entered leads to one that may be visited. */
  ghost predicate Meets(g: Scope, cd: Ino, n: Name, open: set<Ino>, st: Ino, there: Ino) {
    && st in g.before
    && (g.before[st].File? && IsFile(g.before, there) ==> (cd, n) in g.files)
    && (g.before[st].Dir? && IsDir(g.before, there) && st != g.mode.avoid && st !in open ==>
          g.visits(st, there, open + {st}))
  }

  /** A visit is to a directory that may be written, from one that may not, and leads to visits. */
  ghost predicate Visit(g: Scope, cs: Ino, cd: Ino, open: set<Ino>) {
    && IsDir(g.before, cs) && cs !in g.dirs && cd in g.dirs && cd in g.before
    && forall n | n in Entries(g.before, cs) && n in Entries(g.before, cd) ::
         var seen := Seen(g.before, g.mode, Entries(g.before, cs)[n]);
         seen.Some? ==> Meets(g, cd, n, open, seen.value, Entries(g.before, cd)[n])
  }

  ghost predicate Scoped(g: Scope) {
    forall cs, cd, open | g.visits(cs, cd, open) :: Visit(g, cs, cd, open)
  }

  /** What the copy may do with a destination entry it finds: replace a file by a file, or enter. */
  ghost predicate Allowed(g: Scope, d: Disk, cd: Ino, n: Name, open: set<Ino>, st: Ino)
    requires n in Entries(d.nodes, cd)
  {
    var there := Entries(d.nodes, cd)[n];
    && (IsFile(d.nodes, st) && IsFile(d.nodes, there) ==> Replaceable(g, d, cd, n))
    && (IsDir(d.nodes, st) && IsDir(d.nodes, there) && st != g.mode.avoid && st !in open ==>
          Target(g, d, there) && (there in g.before ==> g.visits(st, there, open + {st})))
  }

  /** A copy may be in `cd` now, with `cs` open on the other side. */
  ghost predicate May(g: Scope, d: Disk, cs: Ino, cd: Ino, open: set<Ino>) {
    Target(g, d, cd) && (cd in g.before ==> g.visits(cs, cd, open))
  }

  /** While the copy runs, an entry it meets in a visited directory is still what it was before. */
  lemma MeetsStill(g: Scope, d: Disk, cs: Ino, cd: Ino, n: Name, open: set<Ino>)
    requires Growing(g, d) && Scoped(g) && May(g, d, cs, cd, open)
    requires n in Entries(d.nodes, cs) && n in Entries(d.nodes, cd)
    ensures var seen := Seen(d.nodes, g.mode, Entries(d.nodes, cs)[n]);
            seen.Some? && seen.value in d.nodes ==> Allowed(g, d, cd, n, open, seen.value)
  {
    assert Names(d.nodes, cd, n);
    var there := Entries(d.nodes, cd)[n];
    if cd in g.before {
      assert Visit(g, cs, cd, open);
      assert Names(g.before, cs, n);
      assert Seen(d.nodes, g.mode, Entries(d.nodes, cs)[n]) == Seen(g.before, g.mode, Entries(g.before, cs)[n]);
      if n in Entries(g.before, cd) {
        assert Names(g.before, cd, n);
        var seen := Seen(d.nodes, g.mode, Entries(d.nodes, cs)[n]);
        if seen.Some? && IsDir(d.nodes, seen.value) && there in g.before && IsDir(d.nodes, there)
           && seen.value != g.mode.avoid && seen.value !in open {
          assert g.visits(seen.value, there, open + {seen.value});
          assert Visit(g, seen.value, there, open + {seen.value});
        }
      }
    }
  }

  // --- the scope of a copy of one tree into another ------------------------------------

  /** The inode at `p`, from the directory `i` down. */
  function InoAt(nodes: Nodes, i: Ino, p: Path): Option<Ino>
    decreases |p|
  {
    if p == [] then Some(i)
    else if p[0] in Entries(nodes, i) then InoAt(nodes, Entries(nodes, i)[p[0]], p[1..])
    else None
  }

  lemma {:induction false} InoAtMore(nodes: Nodes, i: Ino, p: Path, n: Name)
    requires InoAt(nodes, i, p).Some?
    ensures InoAt(nodes, i, p + [n]) ==
            var j := InoAt(nodes, i, p).value;
            if n in Entries(nodes, j) then Some(Entries(nodes, j)[n]) else None
    decreases |p|
  {
    if p == [] {
      assert (p + [n])[1..] == [];
    } else {
      assert (p + [n])[1..] == p[1..] + [n];
      InoAtMore(nodes, Entries(nodes, i)[p[0]], p[1..], n);
    }
  }

  lemma {:induction false} SrcAtMore(s: Src, p: Path, n: Name)
    ensures SrcAt(s, p + [n]) ==
            if SrcAt(s, p).Some? && SrcAt(s, p).value.SDir? && n in SrcAt(s, p).value.kids
            then Some(SrcAt(s, p).value.kids[n]) else None
    decreases |p|
  {
    if p == [] {
      assert (p + [n])[1..] == [];
    } else if s.SDir? && p[0] in s.kids {
      assert (p + [n])[1..] == p[1..] + [n];
      SrcAtMore(s.kids[p[0]], p[1..], n);
    }
  }

  /** The inode at a path of a represented tree holds what the tree has there. */
  lemma {:induction false} HeldAt(nodes: Nodes, i: Ino, t: Tree, p: Path)
    requires Rep(nodes, i, t)
    ensures TreeAt(Some(t), p).Some? <==> InoAt(nodes, i, p).Some?
    ensures TreeAt(Some(t), p).Some? ==> Rep(nodes, InoAt(nodes, i, p).value, TreeAt(Some(t), p).value)
    decreases |p|
  {
    if p != [] && t.DirT? && p[0] in t.kids {
      HeldAt(nodes, nodes[i].entries[p[0]], t.kids[p[0]], p[1..]);
    }
  }

  lemma {:induction false} OwnsAt(nodes: Nodes, i: Ino, t: Tree, p: Path)
    requires Rep(nodes, i, t) && TreeAt(Some(t), p).Some? && TreeAt(Some(t), p).value.DirT?
    ensures InoAt(nodes, i, p).Some? && Owns(nodes, i, t, InoAt(nodes, i, p).value)
    ensures p != [] ==> p[0] in t.kids && OwnsName(nodes, i, t, p[0], InoAt(nodes, i, p).value)
    decreases |p|
  {
    if p != [] {
      OwnsAt(nodes, nodes[i].entries[p[0]], t.kids[p[0]], p[1..]);
      assert OwnsName(nodes, i, t, p[0], InoAt(nodes, i, p).value);
    }
  }

  /** Two paths to one directory of a tree are the same path. */
  lemma {:induction false} OnePath(nodes: Nodes, i: Ino, t: Tree, p: Path, q: Path)
    requires Rep(nodes, i, t) && Sep(nodes, i, t)
    requires TreeAt(Some(t), p).Some? && TreeAt(Some(t), p).value.DirT?
    requires TreeAt(Some(t), q).Some? && TreeAt(Some(t), q).value.DirT?
    requires InoAt(nodes, i, p) == InoAt(nodes, i, q)
    ensures p == q
    decreases |p|
  {
    OwnsAt(nodes, i, t, p);
    OwnsAt(nodes, i, t, q);
    if p != [] && q != [] {
      assert p[0] == q[0];
      OnePath(nodes, nodes[i].entries[p[0]], t.kids[p[0]], p[1..], q[1..]);
      assert p == [p[0]] + p[1..] && q == [q[0]] + q[1..];
    }
  }

  /** The directory `k` is one of the destination `dfd`, at the path of a source directory. */
  ghost predicate MayEnter(nodes: Nodes, dfd: Ino, kids: map<Name, Tree>, read: Src, k: Ino) {
    exists p :: EntersAt(nodes, dfd, kids, read, k, p)
  }

  ghost predicate EntersAt(nodes: Nodes, dfd: Ino, kids: map<Name, Tree>, read: Src, k: Ino, p: Path) {
    && InoAt(nodes, dfd, p) == Some(k) && SrcAt(read, p).Some? && SrcAt(read, p).value.SDir?
    && TreeAt(Some(DirT(kids)), p).Some? && TreeAt(Some(DirT(kids)), p).value.DirT?
  }

  /** The entry `n` of `k` is a file of the destination, at the path of a source file. */
  ghost predicate MayReplace(nodes: Nodes, dfd: Ino, kids: map<Name, Tree>, read: Src, k: Ino, n: Name) {
    exists p :: EntersAt(nodes, dfd, kids, read, k, p) && ReplacesAt(kids, read, p + [n])
  }

  predicate ReplacesAt(kids: map<Name, Tree>, read: Src, p: Path) {
    && SrcAt(read, p).Some? && SrcAt(read, p).value.SFile?
    && TreeAt(Some(DirT(kids)), p).Some? && TreeAt(Some(DirT(kids)), p).value.FileT?
  }

  ghost function Enterable(nodes: Nodes, dfd: Ino, kids: map<Name, Tree>, read: Src): set<Ino> {
    set k | k in nodes && MayEnter(nodes, dfd, kids, read, k)
  }

  ghost function Touchable(nodes: Nodes, dfd: Ino, kids: map<Name, Tree>, read: Src): set<(Ino, Name)> {
    set k: Ino, n: Name | k in nodes && n in Entries(nodes, k) && MayReplace(nodes, dfd, kids, read, k, n) :: (k, n)
  }

  /** The source directory `cs`, read with `open` held open. */
  function ReadKids(nodes: Nodes, mode: Mode, reach: set<Ino>, open: set<Ino>, cs: Ino): Src {
    SDir(map n | n in Entries(nodes, cs) :: Read(nodes, mode, reach, open, Entries(nodes, cs)[n]))
  }

  ghost predicate VisitsAt(nodes: Nodes, mode: Mode, reach: set<Ino>, dfd: Ino, kids: map<Name, Tree>, read: Src,
                           cs: Ino, cd: Ino, open: set<Ino>, p: Path) {
    cs in reach && EntersAt(nodes, dfd, kids, read, cd, p)
      && SrcAt(read, p) == Some(ReadKids(nodes, mode, reach, open, cs))
  }

  /** The copy may be in `cs` and `cd` at once, with `open` held open. */
  ghost predicate Visits(nodes: Nodes, mode: Mode, reach: set<Ino>, dfd: Ino, kids: map<Name, Tree>, read: Src,
                         cs: Ino, cd: Ino, open: set<Ino>) {
    exists p :: VisitsAt(nodes, mode, reach, dfd, kids, read, cs, cd, open, p)
  }

  ghost function ScopeOf(nodes: Nodes, mode: Mode, reach: set<Ino>, dfd: Ino, kids: map<Name, Tree>, read: Src): Scope {
    Scope(nodes, mode, Enterable(nodes, dfd, kids, read), Touchable(nodes, dfd, kids, read),
          (cs: Ino, cd: Ino, open: set<Ino>) => Visits(nodes, mode, reach, dfd, kids, read, cs, cd, open))
  }

  /** What may be entered are directories of the destination. */
  lemma EnterableOwned(nodes: Nodes, dfd: Ino, kids: map<Name, Tree>, read: Src)
    requires Rep(nodes, dfd, DirT(kids))
    ensures Enterable(nodes, dfd, kids, read) <= Owned(nodes, dfd, kids)
  {
    forall k | k in Enterable(nodes, dfd, kids, read) ensures k in Owned(nodes, dfd, kids) {
      var p :| EntersAt(nodes, dfd, kids, read, k, p);
      OwnsAt(nodes, dfd, DirT(kids), p);
    }
  }

  lemma ReadEnters(nodes: Nodes, mode: Mode, reach: set<Ino>, open: set<Ino>, i: Ino, st: Ino)
    requires Seen(nodes, mode, i) == Some(st) && IsDir(nodes, st) && st != mode.avoid && st !in open && st in reach
    ensures Read(nodes, mode, reach, open, i) == ReadKids(nodes, mode, reach, open + {st}, st)
  {
    var entries := nodes[st].entries;
    var a := map n | n in entries :: Read(nodes, mode, reach, open + {st}, entries[n]);
    assert a == ReadKids(nodes, mode, reach, open + {st}, st).kids;
  }

  /** Where a visit stands, the entry `n` is what the source and the destination have there. */
  lemma VisitMeets(nodes: Nodes, mode: Mode, reach: set<Ino>, dfd: Ino, kids: map<Name, Tree>, read: Src,
                   cs: Ino, cd: Ino, open: set<Ino>, p: Path, n: Name)
    requires Rep(nodes, dfd, DirT(kids)) && VisitsAt(nodes, mode, reach, dfd, kids, read, cs, cd, open, p)
    requires n in Entries(nodes, cs) && n in Entries(nodes, cd)
    ensures SrcAt(read, p + [n]) == Some(Read(nodes, mode, reach, open, Entries(nodes, cs)[n]))
    ensures InoAt(nodes, dfd, p + [n]) == Some(Entries(nodes, cd)[n])
    ensures TreeAt(Some(DirT(kids)), p + [n]).Some?
    ensures Rep(nodes, Entries(nodes, cd)[n], TreeAt(Some(DirT(kids)), p + [n]).value)
  {
    SrcAtMore(read, p, n);
    InoAtMore(nodes, dfd, p, n);
    HeldAt(nodes, dfd, DirT(kids), p + [n]);
  }

  /** It may replace a file by a file ... */
  lemma VisitReplaces(nodes: Nodes, mode: Mode, reach: set<Ino>, dfd: Ino, kids: map<Name, Tree>, read: Src,
                      cs: Ino, cd: Ino, open: set<Ino>, p: Path, n: Name, st: Ino)
    requires Rep(nodes, dfd, DirT(kids)) && VisitsAt(nodes, mode, reach, dfd, kids, read, cs, cd, open, p)
    requires n in Entries(nodes, cs) && n in Entries(nodes, cd) && cd in nodes
    requires Seen(nodes, mode, Entries(nodes, cs)[n]) == Some(st) && IsFile(nodes, st)
    requires IsFile(nodes, Entries(nodes, cd)[n])
    ensures (cd, n) in Touchable(nodes, dfd, kids, read)
  {
    VisitMeets(nodes, mode, reach, dfd, kids, read, cs, cd, open, p, n);
    assert ReplacesAt(kids, read, p + [n]);
    assert MayReplace(nodes, dfd, kids, read, cd, n);
  }

  /** ... and enter a directory on both sides. */
  lemma VisitEnters(nodes: Nodes, mode: Mode, reach: set<Ino>, dfd: Ino, kids: map<Name, Tree>, read: Src,
                    cs: Ino, cd: Ino, open: set<Ino>, p: Path, n: Name, st: Ino)
    requires Rep(nodes, dfd, DirT(kids)) && VisitsAt(nodes, mode, reach, dfd, kids, read, cs, cd, open, p)
    requires n in Entries(nodes, cs) && n in Entries(nodes, cd)
    requires Seen(nodes, mode, Entries(nodes, cs)[n]) == Some(st) && IsDir(nodes, st)
    requires st != mode.avoid && st !in open && st in reach && IsDir(nodes, Entries(nodes, cd)[n])
    ensures Visits(nodes, mode, reach, dfd, kids, read, st, Entries(nodes, cd)[n], open + {st})
  {
    VisitMeets(nodes, mode, reach, dfd, kids, read, cs, cd, open, p, n);
    ReadEnters(nodes, mode, reach, open, Entries(nodes, cs)[n], st);
    assert VisitsAt(nodes, mode, reach, dfd, kids, read, st, Entries(nodes, cd)[n], open + {st}, p + [n]);
  }

  /** A visit leads on as a visit does. */
  lemma VisitLeads(nodes: Nodes, mode: Mode, reach: set<Ino>, dfd: Ino, kids: map<Name, Tree>, read: Src,
                   cs: Ino, cd: Ino, open: set<Ino>, p: Path, n: Name, st: Ino)
    requires Rep(nodes, dfd, DirT(kids)) && ReachClosed(nodes, mode, reach)
    requires VisitsAt(nodes, mode, reach, dfd, kids, read, cs, cd, open, p)
    requires n in Entries(nodes, cs) && n in Entries(nodes, cd) && Seen(nodes, mode, Entries(nodes, cs)[n]) == Some(st)
    requires cd in nodes && Entries(nodes, cd)[n] in nodes
    ensures Meets(ScopeOf(nodes, mode, reach, dfd, kids, read), cd, n, open, st, Entries(nodes, cd)[n])
  {
    var there := Entries(nodes, cd)[n];
    assert Inside(nodes, mode, reach, Entries(nodes, cs)[n]);
    if IsFile(nodes, st) && IsFile(nodes, there) {
      VisitReplaces(nodes, mode, reach, dfd, kids, read, cs, cd, open, p, n, st);
    }
    if IsDir(nodes, st) && IsDir(nodes, there) && st != mode.avoid && st !in open {
      VisitEnters(nodes, mode, reach, dfd, kids, read, cs, cd, open, p, n, st);
    }
  }

  lemma ScopeIsScoped(nodes: Nodes, mode: Mode, reach: set<Ino>, dfd: Ino, kids: map<Name, Tree>, read: Src)
    requires IsTree(nodes, dfd, kids) && ReachClosed(nodes, mode, reach) && Owned(nodes, dfd, kids) !! reach
    requires forall k, n {:trigger Names(nodes, k, n)} | Names(nodes, k, n) :: Entries(nodes, k)[n] in nodes
    ensures Scoped(ScopeOf(nodes, mode, reach, dfd, kids, read))
  {
    var g := ScopeOf(nodes, mode, reach, dfd, kids, read);
    EnterableOwned(nodes, dfd, kids, read);
    forall cs, cd, open | g.visits(cs, cd, open) ensures Visit(g, cs, cd, open) {
      var p :| VisitsAt(nodes, mode, reach, dfd, kids, read, cs, cd, open, p);
      HeldAt(nodes, dfd, DirT(kids), p);
      assert MayEnter(nodes, dfd, kids, read, cd);
      forall n | n in Entries(nodes, cs) && n in Entries(nodes, cd) && Seen(nodes, mode, Entries(nodes, cs)[n]).Some?
        ensures Meets(g, cd, n, open, Seen(nodes, mode, Entries(nodes, cs)[n]).value, Entries(nodes, cd)[n])
      {
        assert Names(nodes, cd, n);
        VisitLeads(nodes, mode, reach, dfd, kids, read, cs, cd, open, p, n,
                   Seen(nodes, mode, Entries(nodes, cs)[n]).value);
      }
    }
  }

  /** The copy starts with a visit. */
  lemma FirstVisit(nodes: Nodes, mode: Mode, reach: set<Ino>, sfd: Ino, dfd: Ino, kids: map<Name, Tree>, read: Src)
    requires Rep(nodes, dfd, DirT(kids)) && sfd in reach && read == ReadKids(nodes, mode, reach, {sfd}, sfd)
    ensures ScopeOf(nodes, mode, reach, dfd, kids, read).visits(sfd, dfd, {sfd})
    ensures dfd in Enterable(nodes, dfd, kids, read)
  {
    assert VisitsAt(nodes, mode, reach, dfd, kids, read, sfd, dfd, {sfd}, []);
    assert EntersAt(nodes, dfd, kids, read, dfd, []);
  }

  // --- what stays, however the copy ends -----------------------------------------------

  /** At `p` below `i` is the tree `t`. */
  ghost predicate HoldsAt(nodes: Nodes, i: Ino, p: Path, t: Tree) {
    InoAt(nodes, i, p).Some? && Rep(nodes, InoAt(nodes, i, p).value, t)
  }

  /** What is at `p` stays: the source names nothing there, or it is a link. */
  predicate SparedAt(kids: map<Name, Tree>, read: Src, p: Path) {
    && TreeAt(Some(DirT(kids)), p).Some?
    && (SrcAt(read, p).None? || TreeAt(Some(DirT(kids)), p).value.LinkT?)
  }

  /** Every destination entry the source does not name, and every destination link, holds what it held. */
  ghost predicate Spared(nodes: Nodes, dfd: Ino, kids: map<Name, Tree>, read: Src) {
    forall p | SparedAt(kids, read, p) :: HoldsAt(nodes, dfd, p, TreeAt(Some(DirT(kids)), p).value)
  }

  lemma {:induction false} TreeAtMore(t: Tree, p: Path, n: Name)
    ensures TreeAt(Some(t), p + [n]) ==
            if TreeAt(Some(t), p).Some? && TreeAt(Some(t), p).value.DirT? && n in TreeAt(Some(t), p).value.kids
            then Some(TreeAt(Some(t), p).value.kids[n]) else None
    decreases |p|
  {
    if p == [] {
      assert (p + [n])[1..] == [];
    } else if t.DirT? && p[0] in t.kids {
      assert (p + [n])[1..] == p[1..] + [n];
      TreeAtMore(t.kids[p[0]], p[1..], n);
    }
  }

  /** On the way to what stays no name leads elsewhere. */
  lemma {:induction false} SameInode(before: Nodes, after: Nodes, dfd: Ino, kids: map<Name, Tree>, read: Src, p: Path,
                                     k: nat)
    requires IsTree(before, dfd, kids) && SparedAt(kids, read, p) && k <= |p|
    requires Grown(before, after, Touchable(before, dfd, kids, read))
    ensures TreeAt(Some(DirT(kids)), p[..k]).Some?
    ensures InoAt(after, dfd, p[..k]) == InoAt(before, dfd, p[..k]) && InoAt(before, dfd, p[..k]).Some?
    decreases k
  {
    if k > 0 {
      SameInode(before, after, dfd, kids, read, p, k - 1);
      var q, n := p[..k - 1], p[k - 1];
      assert p[..k] == q + [n];
      Prefixes(DirT(kids), p, k);
      TreeAtMore(DirT(kids), q, n);
      HeldAt(before, dfd, DirT(kids), q);
      InoAtMore(before, dfd, q, n);
      InoAtMore(after, dfd, q, n);
      var j := InoAt(before, dfd, q).value;
      assert Names(before, j, n);
      if (j, n) in Touchable(before, dfd, kids, read) {
        var r :| EntersAt(before, dfd, kids, read, j, r) && ReplacesAt(kids, read, r + [n]);
        OnePath(before, dfd, DirT(kids), q, r);
        FileEnds(DirT(kids), p, k);
      }
    } else {
      assert p[..0] == [];
    }
  }

  lemma {:induction false} Prefixes(t: Tree, p: Path, k: nat)
    requires TreeAt(Some(t), p).Some? && k <= |p|
    ensures TreeAt(Some(t), p[..k]).Some?
    ensures k < |p| ==> TreeAt(Some(t), p[..k]).value.DirT?
    decreases |p|
  {
    if k > 0 {
      Prefixes(t.kids[p[0]], p[1..], k - 1);
      assert p[..k][1..] == p[1..][..k - 1];
    }
  }

  /** Nothing is below a file. */
  lemma FileEnds(t: Tree, p: Path, k: nat)
    requires TreeAt(Some(t), p).Some? && k <= |p| && TreeAt(Some(t), p[..k]).Some?
    requires TreeAt(Some(t), p[..k]).value.FileT?
    ensures p[..k] == p
  {
    Prefixes(t, p, k);
  }

  /** Below what the source does not name, it names nothing. */
  lemma {:induction false} NothingNamed(s: Src, p: Path, q: Path)
    requires SrcAt(s, p).None?
    ensures SrcAt(s, p + q).None?
    decreases |p|
  {
    assert p != [] && (p + q)[0] == p[0] && (p + q)[1..] == p[1..] + q;
    if s.SDir? && p[0] in s.kids {
      NothingNamed(s.kids[p[0]], p[1..], q);
    }
  }

  /** What a tree owns, it owns at some path. */
  lemma {:induction false} OwnedPath(nodes: Nodes, i: Ino, t: Tree, k: Ino) returns (q: Path)
    requires Rep(nodes, i, t) && Owns(nodes, i, t, k)
    ensures InoAt(nodes, i, q) == Some(k) && TreeAt(Some(t), q).Some? && TreeAt(Some(t), q).value.DirT?
    decreases t
  {
    if k == i {
      q := [];
    } else {
      var n :| n in t.kids && OwnsName(nodes, i, t, n, k);
      var r := OwnedPath(nodes, nodes[i].entries[n], t.kids[n], k);
      q := [n] + r;
      assert q[1..] == r;
    }
  }

  lemma {:induction false} InoAtJoin(nodes: Nodes, i: Ino, p: Path, q: Path)
    requires InoAt(nodes, i, p).Some?
    ensures InoAt(nodes, i, p + q) == InoAt(nodes, InoAt(nodes, i, p).value, q)
    decreases |p|
  {
    if p == [] {
      assert p + q == q;
    } else {
      assert (p + q)[1..] == p[1..] + q;
      InoAtJoin(nodes, Entries(nodes, i)[p[0]], p[1..], q);
    }
  }

  lemma {:induction false} TreeAtJoin(t: Tree, p: Path, q: Path)
    requires TreeAt(Some(t), p).Some?
    ensures TreeAt(Some(t), p + q) == TreeAt(TreeAt(Some(t), p), q)
    decreases |p|
  {
    if p == [] {
      assert p + q == q;
    } else {
      assert (p + q)[1..] == p[1..] + q;
      TreeAtJoin(t.kids[p[0]], p[1..], q);
    }
  }

  /** However far a copy got, what it was to spare it has spared. */
  lemma SparedBy(before: Nodes, after: Nodes, dfd: Ino, kids: map<Name, Tree>, read: Src)
    requires IsTree(before, dfd, kids)
    requires OnlyWrites(before, after, Enterable(before, dfd, kids, read))
    requires Grown(before, after, Touchable(before, dfd, kids, read))
    ensures Spared(after, dfd, kids, read)
  {
    forall p | SparedAt(kids, read, p) ensures HoldsAt(after, dfd, p, TreeAt(Some(DirT(kids)), p).value) {
      assert p[..|p|] == p;
      SameInode(before, after, dfd, kids, read, p, |p|);
      HeldAt(before, dfd, DirT(kids), p);
      var j, t := InoAt(before, dfd, p).value, TreeAt(Some(DirT(kids)), p).value;
      forall k | k in Enterable(before, dfd, kids, read) ensures !Owns(before, j, t, k) {
        if Owns(before, j, t, k) {
          NotEntered(before, dfd, kids, read, p, k);
        }
      }
      FrameRep(before, after, j, t, Enterable(before, dfd, kids, read));
    }
  }

  lemma NotEntered(before: Nodes, dfd: Ino, kids: map<Name, Tree>, read: Src, p: Path, k: Ino)
    requires IsTree(before, dfd, kids) && SparedAt(kids, read, p) && InoAt(before, dfd, p).Some?
    requires Rep(before, InoAt(before, dfd, p).value, TreeAt(Some(DirT(kids)), p).value)
    requires Owns(before, InoAt(before, dfd, p).value, TreeAt(Some(DirT(kids)), p).value, k)
    ensures !MayEnter(before, dfd, kids, read, k)
  {
    var j, t := InoAt(before, dfd, p).value, TreeAt(Some(DirT(kids)), p).value;
    if r :| EntersAt(before, dfd, kids, read, k, r) {
      var q := OwnedPath(before, j, t, k);
      InoAtJoin(before, dfd, p, q);
      TreeAtJoin(DirT(kids), p, q);
      OnePath(before, dfd, DirT(kids), p + q, r);
      NothingNamed(read, p, q);
    }
  }
}
