/** What a copy carries, read off the disk: by the kinds of a source entry, or of what a followed link leads to,
    and of the destination's entry; and for links that are followed, at any depth. */
module Followed {
  import opened Options
  import opened Trees
  import opened Merge
  import opened CopySteps
  import opened CopyTree

  // --- what a followed entry holds -----------------------------------------------------

  /** The entry `i` is the inode `j`, or a link that resolves to it. */
  predicate LeadsTo(nodes: Nodes, resolve: map<Ino, Ino>, i: Ino, j: Ino) {
    i in nodes && j in nodes && (if nodes[i].Link? then i in resolve && resolve[i] == j else i == j)
  }

  /** What the entry `i` holds, its links followed: the file, the special file or the directory it is or leads to;
      a link that leads nowhere; or a way back to a directory `open` further up, or to the one `avoid`. */
  ghost predicate Holds(nodes: Nodes, resolve: map<Ino, Ino>, avoid: Ino, open: set<Ino>, i: Ino, s: Src)
    decreases s
  {
    i in nodes &&
    if nodes[i].Link? && (i !in resolve || resolve[i] !in nodes) then s == SDangling
    else
      var j := if nodes[i].Link? then resolve[i] else i;
      if nodes[j].File? then s == SFile(nodes[j].data)
      else if nodes[j].Special? then s == SSpecial
      else
        && nodes[j].Dir?
        && (if j == avoid then s == SDest
            else if j in open then s == SLoop
            else
              && s.SDir? && s.kids.Keys == nodes[j].entries.Keys
              && forall n | n in s.kids :: Holds(nodes, resolve, avoid, open + {j}, nodes[j].entries[n], s.kids[n]))
  }

  /** A copy that follows links reads each entry as what it holds. */
  lemma {:induction false} ReadHolds(nodes: Nodes, mode: Mode, reach: set<Ino>, open: set<Ino>, i: Ino)
    requires mode.follow && ReachClosed(nodes, mode, reach) && i in nodes && Inside(nodes, mode, reach, i)
    ensures Holds(nodes, mode.resolve, mode.avoid, open, i, Read(nodes, mode, reach, open, i))
    decreases reach - open
  {
    if !(nodes[i].Link? && (i !in mode.resolve || mode.resolve[i] !in nodes)) {
      var j := if nodes[i].Link? then mode.resolve[i] else i;
      if nodes[j].Dir? && j != mode.avoid && j !in open {
        forall n | n in nodes[j].entries
          ensures Holds(nodes, mode.resolve, mode.avoid, open + {j}, nodes[j].entries[n],
                        Read(nodes, mode, reach, open + {j}, nodes[j].entries[n]))
        {
          assert n in Entries(nodes, j);
          ReadHolds(nodes, mode, reach, open + {j}, nodes[j].entries[n]);
        }
      }
    }
  }

  /** An entry holds one thing only. */
  lemma {:induction false} HoldsOne(nodes: Nodes, resolve: map<Ino, Ino>, avoid: Ino, open: set<Ino>, i: Ino, s: Src,
                                    u: Src)
    requires Holds(nodes, resolve, avoid, open, i, s) && Holds(nodes, resolve, avoid, open, i, u)
    ensures s == u
    decreases s
  {
    if s.SDir? {
      var j := if nodes[i].Link? then resolve[i] else i;
      forall n | n in s.kids ensures s.kids[n] == u.kids[n] {
        HoldsOne(nodes, resolve, avoid, open + {j}, nodes[j].entries[n], s.kids[n], u.kids[n]);
      }
      assert s.kids == u.kids;
    }
  }

  /** The source of a copy that follows links is what its directory holds, once the destination is made. */
  lemma SourceHolds(d: Disk, mode: Mode, reach: set<Ino>, sfd: Ino, parent: Ino, leaf: Name, s: Src)
    requires var nodes := WithDir(d, parent, leaf).nodes;
      mode.follow && ReachClosed(nodes, mode, reach) && sfd in reach && IsDir(nodes, sfd)
    ensures Holds(WithDir(d, parent, leaf).nodes, mode.resolve, mode.avoid, {}, sfd, s)
            <==> s == Source(d, mode, reach, sfd, parent, leaf)
  {
    var nodes := WithDir(d, parent, leaf).nodes;
    ReadHolds(nodes, mode, reach, {}, sfd);
    if Holds(nodes, mode.resolve, mode.avoid, {}, sfd, s) {
      HoldsOne(nodes, mode.resolve, mode.avoid, {}, sfd, s, Source(d, mode, reach, sfd, parent, leaf));
    }
  }

  /** Once the destination is made, the walk of the source still has no way out. */
  lemma StillClosed(d: Disk, mode: Mode, reach: set<Ino>, sfd: Ino, parent: Ino, leaf: Name, kids: map<Name, Tree>)
    requires Ready(d) && IsDir(d.nodes, parent) && IsDir(d.nodes, sfd)
    requires Apart(d, mode, reach, sfd, parent, leaf, kids)
    ensures
      var nodes := WithDir(d, parent, leaf).nodes;
      && ReachClosed(nodes, mode, reach) && sfd in reach && IsDir(nodes, sfd)
      && (Source(d, mode, reach, sfd, parent, leaf).SDir? ==> sfd != mode.avoid)
  {
    if leaf !in Entries(d.nodes, parent) {
      MkdirOpens(d, mode, reach, sfd, parent, leaf);
    }
  }

  // --- a followed path -----------------------------------------------------------------

  /** The entry `n` of the directory `i`, which is not the destination, leads to `j`. */
  predicate StepTo(nodes: Nodes, resolve: map<Ino, Ino>, avoid: Ino, i: Ino, n: Name, j: Ino) {
    IsDir(nodes, i) && i != avoid && n in nodes[i].entries && LeadsTo(nodes, resolve, nodes[i].entries[n], j)
  }

  /** The names `p` lead from the directory `way[0]` to the inode at the end of `way`, links followed, and enter
      no directory twice. */
  predicate FollowedPath(nodes: Nodes, resolve: map<Ino, Ino>, avoid: Ino, way: seq<Ino>, p: Path) {
    && p != [] && |way| == |p| + 1
    && (forall k | 0 <= k < |p| :: StepTo(nodes, resolve, avoid, way[k], p[k], way[k + 1]))
    && (forall k, m | 0 <= k < m < |p| :: way[k] != way[m])
  }

  lemma {:induction false} PathHolds(nodes: Nodes, resolve: map<Ino, Ino>, avoid: Ino, open: set<Ino>, i: Ino, s: Src,
                                     way: seq<Ino>, p: Path)
    requires FollowedPath(nodes, resolve, avoid, way, p)
    requires way[|p|] in nodes && nodes[way[|p|]].File?
    requires Holds(nodes, resolve, avoid, open, i, s) && LeadsTo(nodes, resolve, i, way[0])
    requires forall k | 0 <= k < |p| :: way[k] !in open
    ensures SrcAt(s, p) == Some(SFile(nodes[way[|p|]].data))
    decreases |p|
  {
    assert StepTo(nodes, resolve, avoid, way[0], p[0], way[1]);
    var c := nodes[way[0]].entries[p[0]];
    assert Holds(nodes, resolve, avoid, open + {way[0]}, c, s.kids[p[0]]);
    if |p| == 1 {
      assert p[1..] == [];
    } else {
      var rest := p[1..];
      forall k | 0 <= k < |rest| ensures StepTo(nodes, resolve, avoid, way[1..][k], rest[k], way[1..][k + 1]) {
        assert rest[k] == p[k + 1];
      }
      PathHolds(nodes, resolve, avoid, open + {way[0]}, c, s.kids[p[0]], way[1..], rest);
    }
  }

  /** A file that a path of followed entries leads to arrives with its bytes under that path, and is not reported,
      where its place is free or holds a file, and directories or nothing are on the way to it. */
  lemma FollowedFileArrives(d: Disk, e: Disk, mode: Mode, reach: set<Ino>, sfd: Ino, parent: Ino, leaf: Name,
                            kids: map<Name, Tree>, path: Path, skipped: seq<Path>, way: seq<Ino>, p: Path)
    requires Ready(d) && IsDir(d.nodes, parent) && IsDir(d.nodes, sfd)
    requires Apart(d, mode, reach, sfd, parent, leaf, kids) && mode.follow
    requires CopyDone(d, e, mode, reach, sfd, parent, leaf, kids, path, skipped)
    requires var nodes := WithDir(d, parent, leaf).nodes;
      && FollowedPath(nodes, mode.resolve, mode.avoid, way, p) && way[0] == sfd
      && way[|p|] in nodes && nodes[way[|p|]].File?
    requires forall k | 0 <= k < |p| ::
               TreeAt(Some(DirT(kids)), p[..k]).Some? ==> TreeAt(Some(DirT(kids)), p[..k]).value.DirT?
    requires TreeAt(Some(DirT(kids)), p).Some? ==> TreeAt(Some(DirT(kids)), p).value.FileT?
    ensures path + p !in skipped
    ensures exists kids' :: IsTree(e.nodes, Dest(d, parent, leaf), kids')
              && TreeAt(Some(DirT(kids')), p) == Some(FileT(WithDir(d, parent, leaf).nodes[way[|p|]].data))
  {
    var nodes := WithDir(d, parent, leaf).nodes;
    var s := Source(d, mode, reach, sfd, parent, leaf);
    StillClosed(d, mode, reach, sfd, parent, leaf, kids);
    SourceHolds(d, mode, reach, sfd, parent, leaf, s);
    PathHolds(nodes, mode.resolve, mode.avoid, {}, sfd, s, way, p);
    MergedIs(s, Some(DirT(kids)), mode.skipLinks, p);
    assert (path + p)[|path|..] == p;
    assert IsTree(e.nodes, Dest(d, parent, leaf), MergedKids(s, kids, mode.skipLinks));
  }

  // --- one entry, by the kinds that meet -----------------------------------------------

  /** What a copy makes of the source entry `n`, read as the inode `j`: a file is carried where nothing or a file
      is in its place; a link, not followed, where nothing is, unless links are skipped; a directory where nothing
      or a directory is; a special file, and the destination itself, are passed over without a word.  Whatever
      else meets is left as it is, and reported. */
  lemma EntryCopied(d: Disk, e: Disk, mode: Mode, reach: set<Ino>, sfd: Ino, parent: Ino, leaf: Name,
                    kids: map<Name, Tree>, path: Path, skipped: seq<Path>, n: Name, j: Ino)
    requires Ready(d) && IsDir(d.nodes, parent) && IsDir(d.nodes, sfd)
    requires Apart(d, mode, reach, sfd, parent, leaf, kids)
    requires CopyDone(d, e, mode, reach, sfd, parent, leaf, kids, path, skipped)
    requires var nodes := WithDir(d, parent, leaf).nodes;
      && n in Entries(nodes, sfd) && j in nodes
      && (if mode.follow then LeadsTo(nodes, mode.resolve, Entries(nodes, sfd)[n], j)
          else j == Entries(nodes, sfd)[n])
    ensures
      var node := WithDir(d, parent, leaf).nodes[j];
      var there := Entries(e.nodes, Dest(d, parent, leaf));
      if node.File? && (n in kids ==> kids[n].FileT?) then
        path + [n] !in skipped && n in there && there[n] in e.nodes && e.nodes[there[n]] == node
      else if node.Link? && n !in kids && !mode.skipLinks then
        path + [n] !in skipped && n in there && there[n] in e.nodes && e.nodes[there[n]] == node
      else if node.Dir? && j != mode.avoid && j != sfd && (n in kids ==> kids[n].DirT?) then
        path + [n] !in skipped && n in there && IsDir(e.nodes, there[n])
      else
        && (path + [n] in skipped <==>
            !(node.Special? || (node.Dir? && j == mode.avoid)) || (n in kids && kids[n].LinkT?))
        && (n in there <==> n in kids) && (n in kids ==> Rep(e.nodes, there[n], kids[n]))
  {
    var nodes := WithDir(d, parent, leaf).nodes;
    StillClosed(d, mode, reach, sfd, parent, leaf, kids);
    ReadOf(nodes, mode, reach, sfd, n);
    KindRead(nodes, mode, reach, sfd, n, j);
    EntryDone(d, e, mode, reach, sfd, parent, leaf, kids, path, skipped, n);
  }

  /** A followed link that leads nowhere is reported, and what is in its place stays. */
  lemma DanglingLeft(d: Disk, e: Disk, mode: Mode, reach: set<Ino>, sfd: Ino, parent: Ino, leaf: Name,
                     kids: map<Name, Tree>, path: Path, skipped: seq<Path>, n: Name)
    requires Ready(d) && IsDir(d.nodes, parent) && IsDir(d.nodes, sfd)
    requires Apart(d, mode, reach, sfd, parent, leaf, kids) && mode.follow
    requires CopyDone(d, e, mode, reach, sfd, parent, leaf, kids, path, skipped)
    requires var nodes := WithDir(d, parent, leaf).nodes;
      n in Entries(nodes, sfd) && Entries(nodes, sfd)[n] in nodes && nodes[Entries(nodes, sfd)[n]].Link?
      && (Entries(nodes, sfd)[n] in mode.resolve ==> mode.resolve[Entries(nodes, sfd)[n]] !in nodes)
    ensures
      var there := Entries(e.nodes, Dest(d, parent, leaf));
      path + [n] in skipped && (n in there <==> n in kids) && (n in kids ==> Rep(e.nodes, there[n], kids[n]))
  {
    StillClosed(d, mode, reach, sfd, parent, leaf, kids);
    ReadOf(WithDir(d, parent, leaf).nodes, mode, reach, sfd, n);
    EntryDone(d, e, mode, reach, sfd, parent, leaf, kids, path, skipped, n);
  }

  /** What a copy leaves at one entry. */
  lemma EntryDone(d: Disk, e: Disk, mode: Mode, reach: set<Ino>, sfd: Ino, parent: Ino, leaf: Name,
                  kids: map<Name, Tree>, path: Path, skipped: seq<Path>, n: Name)
    requires CopyDone(d, e, mode, reach, sfd, parent, leaf, kids, path, skipped)
    requires n in Source(d, mode, reach, sfd, parent, leaf).kids
    ensures
      var x, there := Source(d, mode, reach, sfd, parent, leaf).kids[n], Entries(e.nodes, Dest(d, parent, leaf));
      var reported := path + [n] in skipped;
      if x.SFile? && (n in kids ==> kids[n].FileT?) then
        !reported && n in there && there[n] in e.nodes && e.nodes[there[n]] == File(x.data)
      else if x.SLink? && n !in kids && !mode.skipLinks then
        !reported && n in there && there[n] in e.nodes && e.nodes[there[n]] == Link(x.text)
      else if x.SDir? && (n in kids ==> kids[n].DirT?) then !reported && n in there && IsDir(e.nodes, there[n])
      else
        && (reported <==> !(x.SSpecial? || x.SDest?) || (n in kids && kids[n].LinkT?))
        && (n in there <==> n in kids) && (n in kids ==> Rep(e.nodes, there[n], kids[n]))
  {
    var s := Source(d, mode, reach, sfd, parent, leaf);
    var m := MergedKids(s, kids, mode.skipLinks);
    OneMerged(s, kids, mode.skipLinks, n);
    assert (path + [n])[|path|..] == [n];
    assert n in m <==> Get(m, n).Some?;
    if n in m {
      assert Rep(e.nodes, Entries(e.nodes, Dest(d, parent, leaf))[n], m[n]);
    }
  }

  /** The kind an entry is read as. */
  lemma KindRead(nodes: Nodes, mode: Mode, reach: set<Ino>, sfd: Ino, n: Name, j: Ino)
    requires ReachClosed(nodes, mode, reach) && sfd in reach && n in Entries(nodes, sfd) && j in nodes
    requires if mode.follow then LeadsTo(nodes, mode.resolve, Entries(nodes, sfd)[n], j)
             else j == Entries(nodes, sfd)[n]
    ensures
      var x := Read(nodes, mode, reach, {sfd}, Entries(nodes, sfd)[n]);
      match nodes[j]
      case File(data) => x == SFile(data)
      case Link(text) => x == SLink(text)
      case Special => x == SSpecial
      case Dir(_) => if j == mode.avoid then x == SDest else if j == sfd then x == SLoop else x.SDir?
  {
    assert Inside(nodes, mode, reach, Entries(nodes, sfd)[n]);
  }

  /** The merge of one entry of a directory. */
  lemma OneMerged(s: Src, kids: map<Name, Tree>, skipLinks: bool, n: Name)
    requires s.SDir? && n in s.kids
    ensures
      var x, t, m := s.kids[n], Get(kids, n), Get(MergedKids(s, kids, skipLinks), n);
      var reported := LeftOut(s, Some(DirT(kids)), skipLinks, [n]);
      if x.SFile? && (t.Some? ==> t.value.FileT?) then m == Some(FileT(x.data)) && !reported
      else if x.SLink? && t.None? && !skipLinks then m == Some(LinkT(x.text)) && !reported
      else if x.SDir? && (t.Some? ==> t.value.DirT?) then m.Some? && m.value.DirT? && !reported
      else m == t && (reported <==> !(x.SSpecial? || x.SDest?) || (t.Some? && t.value.LinkT?))
  {
    assert TreeAt(Some(DirT(kids)), []) == Some(DirT(kids));
    forall k | 0 <= k < |[n]| ensures [n][..k] == [] {
    }
    MergedIs(s, Some(DirT(kids)), skipLinks, [n]);
    AtOne(s, kids, MergedKids(s, kids, skipLinks), n);
  }

  /** A directory is read entry by entry. */
  lemma ReadOf(nodes: Nodes, mode: Mode, reach: set<Ino>, sfd: Ino, n: Name)
    requires sfd in reach && sfd != mode.avoid && IsDir(nodes, sfd) && n in Entries(nodes, sfd)
    ensures
      var s := Read(nodes, mode, reach, {}, sfd);
      s.SDir? && n in s.kids && s.kids[n] == Read(nodes, mode, reach, {sfd}, Entries(nodes, sfd)[n])
  {
    assert {} + {sfd} == {sfd};
  }

  lemma AtOne(s: Src, kids: map<Name, Tree>, m: map<Name, Tree>, n: Name)
    requires s.SDir? && n in s.kids
    ensures SrcAt(s, [n]) == Some(s.kids[n])
    ensures TreeAt(Some(DirT(kids)), [n]) == Get(kids, n) && TreeAt(Some(DirT(m)), [n]) == Get(m, n)
  {
    assert [n][1..] == [];
  }
}
