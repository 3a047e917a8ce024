/** Which source directories a copy enters, read off the disk and the two trees as they are at its start. */
module CopyEnters {
  import opened Options
  import opened Trees
  import opened Merge
  import opened CopySteps

  /** A copy of the source entry `i` enters the directory `x`: directories lead there, none of them the
      destination or one being copied, and each has a directory or nothing in its place. */
  ghost predicate Enters(nodes: Nodes, mode: Mode, reach: set<Ino>, open: set<Ino>, i: Ino, there: Option<Tree>,
                         x: Ino)
    decreases reach - open, 0
  {
    var seen := Seen(nodes, mode, i);
    && seen.Some? && IsDir(nodes, seen.value) && seen.value != mode.avoid
    && seen.value in reach && seen.value !in open
    && (there.Some? ==> there.value.DirT?)
    && (x == seen.value || EntersBelow(nodes, mode, reach, open + {seen.value}, seen.value, KidsOf(there), x))
  }

  /** ... at or below one of the entries of `cs`. */
  ghost predicate EntersBelow(nodes: Nodes, mode: Mode, reach: set<Ino>, open: set<Ino>, cs: Ino,
                              kids: map<Name, Tree>, x: Ino)
    decreases reach - open, 1
  {
    exists n | n in Entries(nodes, cs) :: Enters(nodes, mode, reach, open, Entries(nodes, cs)[n], Get(kids, n), x)
  }

  /** A directory of the set is entered. */
  ghost predicate EntersAny(nodes: Nodes, mode: Mode, reach: set<Ino>, cs: Ino, kids: map<Name, Tree>,
                            some: set<Ino>) {
    exists x | x in some :: EntersBelow(nodes, mode, reach, {cs}, cs, kids, x)
  }

  function KidsOf(there: Option<Tree>): map<Name, Tree> {
    if there.Some? && there.value.DirT? then there.value.kids else map[]
  }

  /** ... among the listed names. */
  ghost predicate EntersOf(nodes: Nodes, mode: Mode, reach: set<Ino>, open: set<Ino>, cs: Ino, names: seq<Name>,
                           kids: map<Name, Tree>, x: Ino) {
    exists n | n in names ::
      n in Entries(nodes, cs) && Enters(nodes, mode, reach, open, Entries(nodes, cs)[n], Get(kids, n), x)
  }

  // --- what is entered does not change while only the destination is written -----------

  lemma {:induction false} EntersFrame(before: Nodes, after: Nodes, mode: Mode, reach: set<Ino>, open: set<Ino>,
                                       i: Ino, there: Option<Tree>, x: Ino, writes: set<Ino>)
    requires OnlyWrites(before, after, writes) && writes !! reach && ReachClosed(before, mode, reach)
    requires i in before && Inside(before, mode, reach, i)
    ensures Enters(after, mode, reach, open, i, there, x) <==> Enters(before, mode, reach, open, i, there, x)
    decreases reach - open
  {
    var seen := Seen(before, mode, i);
    assert Seen(after, mode, i) == seen;
    if seen.Some? && seen.value in reach && seen.value !in open {
      var j := seen.value;
      assert after[j] == before[j];
      forall n | n in Entries(before, j)
        ensures Enters(after, mode, reach, open + {j}, Entries(before, j)[n], Get(KidsOf(there), n), x)
           <==> Enters(before, mode, reach, open + {j}, Entries(before, j)[n], Get(KidsOf(there), n), x)
      {
        EntersFrame(before, after, mode, reach, open + {j}, Entries(before, j)[n], Get(KidsOf(there), n), x, writes);
      }
    }
  }

  lemma EntersOfFrame(before: Nodes, after: Nodes, mode: Mode, reach: set<Ino>, open: set<Ino>, cs: Ino,
                      names: seq<Name>, kids: map<Name, Tree>, mid: map<Name, Tree>, x: Ino, writes: set<Ino>)
    requires OnlyWrites(before, after, writes) && writes !! reach && ReachClosed(before, mode, reach) && cs in reach
    requires forall n | n in names :: Get(mid, n) == Get(kids, n)
    ensures EntersOf(after, mode, reach, open, cs, names, mid, x)
       <==> EntersOf(before, mode, reach, open, cs, names, kids, x)
  {
    assert after[cs] == before[cs];
    forall n | n in names && n in Entries(before, cs)
      ensures Enters(after, mode, reach, open, Entries(after, cs)[n], Get(mid, n), x)
         <==> Enters(before, mode, reach, open, Entries(before, cs)[n], Get(kids, n), x)
    {
      EntersFrame(before, after, mode, reach, open, Entries(before, cs)[n], Get(kids, n), x, writes);
    }
  }

  // --- what the recursion enters -------------------------------------------------------

  /** The plan for the first name enters what it is to enter. */
  lemma PlanEnters(d: Disk, mode: Mode, reach: set<Ino>, open: set<Ino>, cs: Ino, cd: Ino, names: seq<Name>,
                   src: Src, kids: map<Name, Tree>, x: Ino)
    requires Starts(d, mode, reach, open, cs, cd, names, src, kids) && names != []
    ensures
      var n := names[0];
      var plan := PlanFor(d.nodes, mode, open, cs, cd, n);
      Enters(d.nodes, mode, reach, open, Entries(d.nodes, cs)[n], Get(kids, n), x)
      <==> plan.Enter? && (x == plan.src
                           || EntersBelow(d.nodes, mode, reach, open + {plan.src}, plan.src, SubKids(kids, n), x))
  {
    var n := names[0];
    assert n in names;
    assert Inside(d.nodes, mode, reach, Entries(d.nodes, cs)[n]);
    assert n in Entries(d.nodes, cd) <==> n in kids;
    if n in kids {
      assert Rep(d.nodes, Entries(d.nodes, cd)[n], kids[n]);
    }
    assert SubKids(kids, n) == KidsOf(Get(kids, n));
  }

  /** What the recursion entered, by its first name and the others. */
  lemma JoinOf(nodes: Nodes, mode: Mode, reach: set<Ino>, open: set<Ino>, cs: Ino, names: seq<Name>,
               kids: map<Name, Tree>, x: Ino)
    requires names != []
    ensures EntersOf(nodes, mode, reach, open, cs, names, kids, x) <==>
            || EntersOf(nodes, mode, reach, open, cs, names[1..], kids, x)
            || (names[0] in Entries(nodes, cs)
                && Enters(nodes, mode, reach, open, Entries(nodes, cs)[names[0]], Get(kids, names[0]), x))
  {
    assert names == [names[0]] + names[1..];
  }

  /** One name done: of the others, the same are entered. */
  lemma RestEnters(d: Disk, e: Disk, mode: Mode, reach: set<Ino>, open: set<Ino>, cs: Ino, cd: Ino,
                   names: seq<Name>, src: Src, kids: map<Name, Tree>, mid: map<Name, Tree>, x: Ino)
    requires Starts(d, mode, reach, open, cs, cd, names, src, kids) && names != []
    requires Became(d, e, cd, kids, mid) && forall m | m != names[0] :: Get(mid, m) == Get(kids, m)
    ensures Starts(e, mode, reach, open, cs, cd, names[1..], SDir(src.kids - {names[0]}), mid)
    ensures EntersOf(e.nodes, mode, reach, open, cs, names[1..], mid, x)
       <==> EntersOf(d.nodes, mode, reach, open, cs, names[1..], kids, x)
  {
    Continue(d, e, mode, reach, open, cs, cd, names, src, kids, mid);
    EntersOfFrame(d.nodes, e.nodes, mode, reach, open, cs, names[1..], kids, mid, x, Owned(d.nodes, cd, kids));
  }

  /** The recursion at a name that is entered. */
  lemma EnterStep(d: Disk, mode: Mode, list: Listing, reach: set<Ino>, open: set<Ino>, cs: Ino, cd: Ino,
                  names: seq<Name>, path: Path)
    requires names != [] && PlanFor(d.nodes, mode, open, cs, cd, names[0]).Enter?
    requires CopyNames(d, mode, list, reach, open, cs, cd, names, path).Out?
    ensures
      var sub := CopySub(d, mode, list, reach, open, cs, cd, names[0], path);
      && sub.Out?
      && var rest := CopyNames(sub.disk, mode, list, reach, open, cs, cd, names[1..], path);
         rest.Out?
         && CopyNames(d, mode, list, reach, open, cs, cd, names, path).entered
            == {PlanFor(d.nodes, mode, open, cs, cd, names[0]).src} + sub.entered + rest.entered
  {
  }

  /** The recursion enters exactly the directories that the two trees say. */
  lemma {:induction false} EnteredIs(d: Disk, mode: Mode, list: Listing, reach: set<Ino>, open: set<Ino>, cs: Ino,
                                     cd: Ino, names: seq<Name>, path: Path, src: Src, kids: map<Name, Tree>, x: Ino)
    requires Lists(list) && Starts(d, mode, reach, open, cs, cd, names, src, kids)
    requires CopyNames(d, mode, list, reach, open, cs, cd, names, path).Out?
    ensures x in CopyNames(d, mode, list, reach, open, cs, cd, names, path).entered
       <==> EntersOf(d.nodes, mode, reach, open, cs, names, kids, x)
    decreases reach - open, |names|
  {
    if names == [] {
    } else if PlanFor(d.nodes, mode, open, cs, cd, names[0]).Enter? {
      EnteredIsEnter(d, mode, list, reach, open, cs, cd, names, path, src, kids, x);
    } else {
      var n, rest := names[0], names[1..];
      assert n in names;
      var plan := PlanFor(d.nodes, mode, open, cs, cd, n);
      var e, mid := LeafStep(d, plan, cd, n), LeafKids(kids, plan, n);
      PlanEnters(d, mode, reach, open, cs, cd, names, src, kids, x);
      JoinOf(d.nodes, mode, reach, open, cs, names, kids, x);
      LeafBecame(d, cd, kids, plan, n);
      RestEnters(d, e, mode, reach, open, cs, cd, names, src, kids, mid, x);
      EnteredIs(e, mode, list, reach, open, cs, cd, rest, path, SDir(src.kids - {n}), mid, x);
    }
  }

  lemma {:induction false} EnteredIsEnter(d: Disk, mode: Mode, list: Listing, reach: set<Ino>, open: set<Ino>, cs: Ino,
                                          cd: Ino, names: seq<Name>, path: Path, src: Src, kids: map<Name, Tree>,
                                          x: Ino)
    requires Lists(list) && Starts(d, mode, reach, open, cs, cd, names, src, kids)
    requires names != [] && PlanFor(d.nodes, mode, open, cs, cd, names[0]).Enter?
    requires CopyNames(d, mode, list, reach, open, cs, cd, names, path).Out?
    ensures x in CopyNames(d, mode, list, reach, open, cs, cd, names, path).entered
       <==> EntersOf(d.nodes, mode, reach, open, cs, names, kids, x)
    decreases reach - open, |names|, 1
  {
    PlanEnters(d, mode, reach, open, cs, cd, names, src, kids, x);
    JoinOf(d.nodes, mode, reach, open, cs, names, kids, x);
    EnterStep(d, mode, list, reach, open, cs, cd, names, path);
    EnteredBelow(d, mode, list, reach, open, cs, cd, names, path, src, kids, x);
    EnteredAfter(d, mode, list, reach, open, cs, cd, names, path, src, kids, x);
  }

  /** ... after the subdirectory it enters. */
  lemma {:induction false} EnteredAfter(d: Disk, mode: Mode, list: Listing, reach: set<Ino>, open: set<Ino>, cs: Ino,
                                        cd: Ino, names: seq<Name>, path: Path, src: Src, kids: map<Name, Tree>,
                                        x: Ino)
    requires Lists(list) && Starts(d, mode, reach, open, cs, cd, names, src, kids)
    requires names != [] && PlanFor(d.nodes, mode, open, cs, cd, names[0]).Enter?
    requires
      var sub := CopySub(d, mode, list, reach, open, cs, cd, names[0], path);
      sub.Out? && CopyNames(sub.disk, mode, list, reach, open, cs, cd, names[1..], path).Out?
    ensures
      var sub := CopySub(d, mode, list, reach, open, cs, cd, names[0], path);
      x in CopyNames(sub.disk, mode, list, reach, open, cs, cd, names[1..], path).entered
      <==> EntersOf(d.nodes, mode, reach, open, cs, names[1..], kids, x)
    decreases reach - open, |names|, 0
  {
    var n := names[0];
    assert n in names;
    SubIsMerge(d, mode, list, reach, open, cs, cd, names, path, src, kids);
    var sub := CopySub(d, mode, list, reach, open, cs, cd, n, path);
    var mid := kids[n := DirT(MergedKids(src.kids[n], SubKids(kids, n), mode.skipLinks))];
    RestEnters(d, sub.disk, mode, reach, open, cs, cd, names, src, kids, mid, x);
    EnteredIs(sub.disk, mode, list, reach, open, cs, cd, names[1..], path, SDir(src.kids - {n}), mid, x);
  }

  /** ... in the subdirectory it enters. */
  lemma {:induction false} EnteredBelow(d: Disk, mode: Mode, list: Listing, reach: set<Ino>, open: set<Ino>, cs: Ino,
                                        cd: Ino, names: seq<Name>, path: Path, src: Src, kids: map<Name, Tree>,
                                        x: Ino)
    requires Lists(list) && Starts(d, mode, reach, open, cs, cd, names, src, kids)
    requires names != [] && PlanFor(d.nodes, mode, open, cs, cd, names[0]).Enter?
    ensures
      var n := names[0];
      var i := PlanFor(d.nodes, mode, open, cs, cd, n).src;
      var sub := CopySub(d, mode, list, reach, open, cs, cd, n, path);
      sub.Out? && (x in sub.entered <==> EntersBelow(d.nodes, mode, reach, open + {i}, i, SubKids(kids, n), x))
    decreases reach - open, |names|, 0
  {
    var n := names[0];
    var i := PlanFor(d.nodes, mode, open, cs, cd, n).src;
    var e, below := WithDir(d, cd, n), SubKids(kids, n);
    PlanMeans(d, mode, reach, open, cs, cd, names, src, kids);
    SubIsMerge(d, mode, list, reach, open, cs, cd, names, path, src, kids);
    EnterStarts(d, mode, list, reach, open, cs, cd, names, src, kids, i);
    EnterDest(d, cd, n, kids);
    var listed := list(i, Entries(e.nodes, i).Keys);
    EnteredIs(e, mode, list, reach, open + {i}, i, Entries(e.nodes, cd)[n], listed, path + [n], src.kids[n], below, x);
    EntersOfFrame(d.nodes, e.nodes, mode, reach, open + {i}, i, listed, below, below, x, Owned(d.nodes, cd, kids));
    assert e.nodes[i] == d.nodes[i];
  }
}
