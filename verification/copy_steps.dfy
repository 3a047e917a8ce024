/** The recursive merge on inodes: `copy_tree`'s walk written as a recursion over directories,
    and the proof that it is the merge of the two trees (module Merge). */
module CopySteps {
  import opened Collections
  import opened Options
  import opened Trees
  import opened Merge

  /** The inodes, and the next number to hand out. */
  datatype Disk = Disk(nodes: Nodes, next: Ino)

  /** How one copy reads its source: `avoid` is the destination itself, and `resolve` says what
      each source link finally leads to (a link it does not name leads nowhere). */
  datatype Mode = Mode(skipLinks: bool, follow: bool, avoid: Ino, resolve: map<Ino, Ino>)

  /** The order in which the kernel lists a directory: any order, each name once. */
  type Listing = (Ino, set<Name>) -> seq<Name>

  ghost predicate Lists(list: Listing) {
    forall i: Ino, names :: Distinct(list(i, names)) && forall n :: n in list(i, names) <==> n in names
  }

  /** The directory `i` has an entry `n`. */
  predicate Names(nodes: Nodes, i: Ino, n: Name) {
    n in Entries(nodes, i)
  }

  /** Every number in use is below `next`, and every entry names an inode. */
  ghost predicate Ready(d: Disk) {
    && (forall i | i in d.nodes :: i < d.next)
    && forall i, n {:trigger Names(d.nodes, i, n)} | Names(d.nodes, i, n) :: Entries(d.nodes, i)[n] in d.nodes
  }

  /** A new inode under the name `n` of directory `i`. */
  function Put(d: Disk, i: Ino, n: Name, node: Node): Disk {
    Disk(d.nodes[d.next := node][i := Dir(Entries(d.nodes, i)[n := d.next])], d.next + 1)
  }

  lemma PutReady(d: Disk, i: Ino, n: Name, node: Node)
    requires Ready(d) && IsDir(d.nodes, i) && (node.Dir? ==> node.entries == map[])
    ensures Ready(Put(d, i, n, node))
  {
    var e := Put(d, i, n, node);
    forall k, m | Names(e.nodes, k, m) ensures Entries(e.nodes, k)[m] in e.nodes {
      if (k != i || m != n) && k != d.next {
        assert Names(d.nodes, k, m);
      }
    }
  }

  /** The inode a source entry is read from; `None` for a link that cannot be followed. */
  function Seen(nodes: Nodes, mode: Mode, i: Ino): Option<Ino> {
    if mode.follow && i in nodes && nodes[i].Link? then
      if i in mode.resolve then Some(mode.resolve[i]) else None
    else Some(i)
  }

  /** The source tree below the entry `i`, as a copy reads it while `open` is being copied.
      `reach` bounds the walk: a set of directories that it cannot leave. */
  function Read(nodes: Nodes, mode: Mode, reach: set<Ino>, open: set<Ino>, i: Ino): Src
    decreases reach - open
  {
    match Seen(nodes, mode, i)
    case None => SDangling
    case Some(j) =>
      if j !in nodes then SDangling
      else
        match nodes[j]
        case File(data) => SFile(data)
        case Link(text) => SLink(text)
        case Special => SSpecial
        case Dir(entries) =>
          if j == mode.avoid then SDest
          else if j in open || j !in reach then SLoop
          else SDir(map n | n in entries :: Read(nodes, mode, reach, open + {j}, entries[n]))
  }

  /** The walk cannot leave the directories `reach`, except to the destination, which it does
      not enter. */
  ghost predicate Inside(nodes: Nodes, mode: Mode, reach: set<Ino>, i: Ino) {
    var seen := Seen(nodes, mode, i);
    seen.Some? ==>
      && seen.value in nodes
      && (nodes[seen.value].Dir? ==> seen.value in reach || seen.value == mode.avoid)
      && (mode.follow ==> !nodes[seen.value].Link?)
  }

  ghost predicate ReachClosed(nodes: Nodes, mode: Mode, reach: set<Ino>) {
    forall i | i in reach ::
      IsDir(nodes, i) && forall n | n in Entries(nodes, i) ::
        Entries(nodes, i)[n] in nodes && Inside(nodes, mode, reach, Entries(nodes, i)[n])
  }

  /** What the copy does with one listed name. */
  datatype Plan =
    | LeaveOut
    | Pass
    | NewLink(text: string)
    | NewFile(data: Bytes)
    | Enter(src: Ino)

  function PlanFor(nodes: Nodes, mode: Mode, open: set<Ino>, cs: Ino, cd: Ino, n: Name): Plan {
    if n !in Entries(nodes, cs) then Pass
    else
      var seen := Seen(nodes, mode, Entries(nodes, cs)[n]);
      var there := if n in Entries(nodes, cd) then Some(Entries(nodes, cd)[n]) else None;
      if seen.None? || seen.value !in nodes then LeaveOut
      else if there.Some? && there.value in nodes && nodes[there.value].Link? then LeaveOut
      else PlanKind(nodes, mode, open, seen.value, there)
  }

  /** ... by the kinds of what is read and what is there. */
  function PlanKind(nodes: Nodes, mode: Mode, open: set<Ino>, st: Ino, there: Option<Ino>): Plan
    requires st in nodes
  {
    match nodes[st]
    case Link(text) => if mode.skipLinks || there.Some? then LeaveOut else NewLink(text)
    case Dir(_) =>
      if st == mode.avoid then Pass
      else if there.Some? && !IsDir(nodes, there.value) then LeaveOut
      else if st in open then LeaveOut
      else Enter(st)
    case File(data) =>
      if there.Some? && !(there.value in nodes && nodes[there.value].File?) then LeaveOut else NewFile(data)
    case Special => Pass
  }

  /** The outcome of the recursion, with the source directories it entered; `Stray` if the walk would
      leave `reach`. */
  datatype Out = Stray | Out(disk: Disk, skipped: seq<Path>, entered: set<Ino>, steps: nat)

  function Then(skipped: seq<Path>, entered: set<Ino>, steps: nat, rest: Out): Out {
    if rest.Stray? then Stray
    else Out(rest.disk, skipped + rest.skipped, entered + rest.entered, steps + rest.steps)
  }

  /** The destination directory for the name `n`: the one there, or a new one. */
  function WithDir(d: Disk, cd: Ino, n: Name): Disk {
    if n in Entries(d.nodes, cd) then d else Put(d, cd, n, Dir(map[]))
  }

  /** Copy the listed `names` of the directory `cs` into the directory `cd`. */
  function CopyNames(d: Disk, mode: Mode, list: Listing, reach: set<Ino>, open: set<Ino>,
                     cs: Ino, cd: Ino, names: seq<Name>, path: Path): Out
    decreases reach - open, |names|
  {
    if names == [] then Out(d, [], {}, 1)
    else
      var n, rest := names[0], names[1..];
      var plan := PlanFor(d.nodes, mode, open, cs, cd, n);
      if !plan.Enter? then
        Then(LeafReport(plan, path, n), {}, 1,
             CopyNames(LeafStep(d, plan, cd, n), mode, list, reach, open, cs, cd, rest, path))
      else
        var sub := CopySub(d, mode, list, reach, open, cs, cd, n, path);
        if sub.Stray? then Stray
        else
          Then(sub.skipped, {plan.src} + sub.entered, 1 + sub.steps,
               CopyNames(sub.disk, mode, list, reach, open, cs, cd, rest, path))
  }

  /** Copy the subdirectory `n`, with the source directory it is read from held open. */
  function CopySub(d: Disk, mode: Mode, list: Listing, reach: set<Ino>, open: set<Ino>,
                   cs: Ino, cd: Ino, n: Name, path: Path): Out
    requires PlanFor(d.nodes, mode, open, cs, cd, n).Enter?
    decreases reach - open, 0
  {
    var i := PlanFor(d.nodes, mode, open, cs, cd, n).src;
    if i !in reach || i in open then Stray
    else
      var e := WithDir(d, cd, n);
      CopyNames(e, mode, list, reach, open + {i}, i, Entries(e.nodes, cd)[n], list(i, Entries(e.nodes, i).Keys),
                path + [n])
  }

  // --- the recursion is the merge ------------------------------------------------------

  /** What is read of the source does not change while only the destination is written. */
  lemma {:induction false} ReadFrame(before: Nodes, after: Nodes, mode: Mode, reach: set<Ino>, open: set<Ino>,
                                     i: Ino, writes: set<Ino>)
    requires OnlyWrites(before, after, writes) && writes !! reach
    requires ReachClosed(before, mode, reach)
    requires i in before && Inside(before, mode, reach, i)
    ensures Read(after, mode, reach, open, i) == Read(before, mode, reach, open, i)
    ensures Inside(after, mode, reach, i)
    decreases reach - open
  {
    var seen := Seen(before, mode, i);
    assert Seen(after, mode, i) == seen;
    if seen.Some? && before[seen.value].Dir? {
      var j := seen.value;
      if j != mode.avoid && j !in open && j in reach {
        var entries := Entries(before, j);
        var was := map n | n in entries :: Read(before, mode, reach, open + {j}, entries[n]);
        var now := map n | n in entries :: Read(after, mode, reach, open + {j}, entries[n]);
        forall n | n in entries ensures now[n] == was[n] {
          ReadFrame(before, after, mode, reach, open + {j}, entries[n], writes);
        }
        assert now == was;
        assert after[j] == Dir(entries);
      }
    }
  }

  lemma ReachFrame(before: Nodes, after: Nodes, mode: Mode, reach: set<Ino>, writes: set<Ino>)
    requires OnlyWrites(before, after, writes) && writes !! reach
    requires ReachClosed(before, mode, reach)
    ensures ReachClosed(after, mode, reach)
  {
    forall i, n | i in reach && n in Entries(after, i)
      ensures Entries(after, i)[n] in after && Inside(after, mode, reach, Entries(after, i)[n])
    {
      ReadFrame(before, after, mode, reach, {}, Entries(before, i)[n], writes);
    }
  }

  /** Merging one name and then the others is merging all of them. */
  lemma MergeOne(src: Src, kids: map<Name, Tree>, n: Name, skipLinks: bool, mid: map<Name, Tree>)
    requires src.SDir? && n in src.kids
    requires Get(mid, n) == MergedName(src, kids, n, skipLinks)
    requires forall m | m != n :: Get(mid, m) == Get(kids, m)
    ensures MergedKids(SDir(src.kids - {n}), mid, skipLinks) == MergedKids(src, kids, skipLinks)
  {
    var rest := SDir(src.kids - {n});
    var a, b := MergedKids(rest, mid, skipLinks), MergedKids(src, kids, skipLinks);
    forall m ensures Get(a, m) == Get(b, m) {
      MergedKidsAt(rest, mid, m, skipLinks);
      MergedKidsAt(src, kids, m, skipLinks);
    }
    forall m ensures m in a <==> m in b {
      assert Get(a, m) == Get(b, m);
    }
    forall m | m in a ensures a[m] == b[m] {
      assert Get(a, m) == Get(b, m);
    }
  }

  /** The directories of the tree at `i`, as a set. */
  ghost function Owned(nodes: Nodes, i: Ino, kids: map<Name, Tree>): set<Ino> {
    set j | j in nodes && Owns(nodes, i, DirT(kids), j)
  }

  /** `skipped` holds exactly the entries below `path` that the merge has to report, each once. */
  ghost predicate Reports(skipped: seq<Path>, s: Src, there: Option<Tree>, skipLinks: bool, path: Path) {
    && Distinct(skipped)
    && forall p :: p in skipped <==> path <= p && LeftOut(s, there, skipLinks, p[|path|..])
  }

  /** Where a copy of the listed `names` of `cs` into `cd` starts: `kids` is the destination's tree,
      `src` what is still to be read, and the walk cannot reach what it writes. */
  ghost predicate Starts(d: Disk, mode: Mode, reach: set<Ino>, open: set<Ino>, cs: Ino, cd: Ino,
                         names: seq<Name>, src: Src, kids: map<Name, Tree>) {
    && Ready(d)
    && IsTree(d.nodes, cd, kids)
    && ReachClosed(d.nodes, mode, reach)
    && cs in reach
    && Owned(d.nodes, cd, kids) !! reach
    && src.SDir?
    && Distinct(names)
    && (forall n :: n in names <==> n in src.kids)
    && forall n | n in names ::
         n in Entries(d.nodes, cs) && src.kids[n] == Read(d.nodes, mode, reach, open, Entries(d.nodes, cs)[n])
  }

  /** The destination `cd` went from `kids` to `mid`, and nothing else was written. */
  ghost predicate Became(d: Disk, e: Disk, cd: Ino, kids: map<Name, Tree>, mid: map<Name, Tree>) {
    && Ready(e)
    && OnlyWrites(d.nodes, e.nodes, Owned(d.nodes, cd, kids))
    && IsTree(e.nodes, cd, mid)
    && forall k | Owns(e.nodes, cd, DirT(mid), k) :: Owns(d.nodes, cd, DirT(kids), k) || k !in d.nodes
  }

  lemma BecameTrans(d: Disk, e: Disk, f: Disk, cd: Ino, a: map<Name, Tree>, b: map<Name, Tree>, c: map<Name, Tree>)
    requires Became(d, e, cd, a, b) && Became(e, f, cd, b, c)
    ensures Became(d, f, cd, a, c)
  {
    OnlyWritesTrans(d.nodes, e.nodes, f.nodes, Owned(d.nodes, cd, a), Owned(e.nodes, cd, b));
  }

  /** A new leaf, or a new empty directory, under the name `n`. */
  lemma PutBecame(d: Disk, cd: Ino, kids: map<Name, Tree>, n: Name, node: Node, t: Tree)
    requires Ready(d) && IsTree(d.nodes, cd, kids)
    requires match node
             case File(data) => t == FileT(data)
             case Link(text) => t == LinkT(text)
             case Special => t == SpecialT
             case Dir(entries) => entries == map[] && t == DirT(map[])
    ensures Became(d, Put(d, cd, n, node), cd, kids, kids[n := t])
  {
    var e := Put(d, cd, n, node);
    OwnsDirs(d.nodes, cd, DirT(kids), cd);
    assert cd < d.next;
    assert e.nodes[d.next] == node;
    PutReady(d, cd, n, node);
    Graft(d.nodes, e.nodes, cd, kids, n, d.next, t, {cd});
  }

  /** One name done: the rest starts from what it became. */
  lemma Continue(d: Disk, e: Disk, mode: Mode, reach: set<Ino>, open: set<Ino>, cs: Ino, cd: Ino,
                 names: seq<Name>, src: Src, kids: map<Name, Tree>, mid: map<Name, Tree>)
    requires Starts(d, mode, reach, open, cs, cd, names, src, kids) && names != []
    requires Became(d, e, cd, kids, mid)
    ensures Starts(e, mode, reach, open, cs, cd, names[1..], SDir(src.kids - {names[0]}), mid)
  {
    var writes := Owned(d.nodes, cd, kids);
    ReachFrame(d.nodes, e.nodes, mode, reach, writes);
    assert e.nodes[cs] == d.nodes[cs];
    forall n | n in names[1..]
      ensures n in src.kids && n != names[0]
      ensures src.kids[n] == Read(e.nodes, mode, reach, open, Entries(e.nodes, cs)[n])
    {
      ReadFrame(d.nodes, e.nodes, mode, reach, open, Entries(d.nodes, cs)[n], writes);
    }
    forall n | n in src.kids && n != names[0] ensures n in names[1..] {
      assert n in names;
    }
  }

  /** The reports of one name, then those of the others. */
  lemma ReportsJoin(first: seq<Path>, others: seq<Path>, src: Src, kids: map<Name, Tree>, mid: map<Name, Tree>,
                    n: Name, skipLinks: bool, path: Path)
    requires src.SDir? && n in src.kids
    requires forall m | m != n :: Get(mid, m) == Get(kids, m)
    requires Reports(first, src.kids[n], Get(kids, n), skipLinks, path + [n])
    requires Reports(others, SDir(src.kids - {n}), Some(DirT(mid)), skipLinks, path)
    ensures Reports(first + others, src, Some(DirT(kids)), skipLinks, path)
  {
    var k := |path|;
    forall p
      ensures p in first <==>
              path <= p && |p| > k && p[k] == n && LeftOut(src.kids[n], Get(kids, n), skipLinks, p[k..][1..])
    {
      if path <= p && |p| > k && p[k] == n {
        assert path + [n] <= p;
        assert p[k..][1..] == p[k + 1..];
      }
    }
    forall p | p in others ensures path <= p && |p| > k && p[k] != n {
    }
    forall p ensures p in first + others <==> path <= p && LeftOut(src, Some(DirT(kids)), skipLinks, p[k..]) {
      if path <= p && |p| > k && p[k] in src.kids && p[k] != n {
        assert Get(mid, p[k]) == Get(kids, p[k]);
      }
    }
    var all := first + others;
    forall i, j | 0 <= i < j < |all| ensures all[i] != all[j] {
      if i < |first| <= j {
        assert all[i] in first && all[j] in others;
      }
    }
  }

  /** What the recursion has to deliver. */
  ghost predicate Merges(d: Disk, mode: Mode, cd: Ino, src: Src, kids: map<Name, Tree>, path: Path, r: Out)
    requires src.SDir?
  {
    && r.Out?
    && Became(d, r.disk, cd, kids, MergedKids(src, kids, mode.skipLinks))
    && Reports(r.skipped, src, Some(DirT(kids)), mode.skipLinks, path)
  }

  lemma Finish(d: Disk, e: Disk, mode: Mode, cd: Ino, n: Name, src: Src, kids: map<Name, Tree>, mid: map<Name, Tree>,
               path: Path, first: seq<Path>, entered: set<Ino>, steps: nat, r: Out)
    requires src.SDir? && n in src.kids
    requires Became(d, e, cd, kids, mid)
    requires Get(mid, n) == MergedName(src, kids, n, mode.skipLinks)
    requires forall m | m != n :: Get(mid, m) == Get(kids, m)
    requires Reports(first, src.kids[n], Get(kids, n), mode.skipLinks, path + [n])
    requires Merges(e, mode, cd, SDir(src.kids - {n}), mid, path, r)
    ensures Merges(d, mode, cd, src, kids, path, Then(first, entered, steps, r))
  {
    MergeOne(src, kids, n, mode.skipLinks, mid);
    BecameTrans(d, e, r.disk, cd, kids, mid, MergedKids(src, kids, mode.skipLinks));
    ReportsJoin(first, r.skipped, src, kids, mid, n, mode.skipLinks, path);
  }

  /** A plan agrees with the merge of the entry `s` into what is `there`. */
  ghost predicate PlanFits(plan: Plan, s: Src, there: Option<Tree>, skipLinks: bool) {
    if plan.Enter? then s.SDir? && (there.Some? ==> there.value.DirT?)
    else
      && (forall p :: LeftOut(s, there, skipLinks, p) <==> plan.LeaveOut? && p == [])
      && Merged(s, there, skipLinks) ==
           if plan.NewLink? then Some(LinkT(plan.text)) else if plan.NewFile? then Some(FileT(plan.data)) else there
  }

  /** The plan for a listed name does what the merge says of it. */
  lemma PlanMeans(d: Disk, mode: Mode, reach: set<Ino>, open: set<Ino>, cs: Ino, cd: Ino,
                  names: seq<Name>, src: Src, kids: map<Name, Tree>)
    requires Starts(d, mode, reach, open, cs, cd, names, src, kids) && names != []
    ensures
      var n := names[0];
      PlanFits(PlanFor(d.nodes, mode, open, cs, cd, n), src.kids[n], Get(kids, n), mode.skipLinks)
    ensures
      var n := names[0];
      var plan := PlanFor(d.nodes, mode, open, cs, cd, n);
      plan.Enter? ==>
        && plan.src in reach && plan.src !in open
        && src.kids[n].kids.Keys == Entries(d.nodes, plan.src).Keys
        && forall m | m in src.kids[n].kids ::
             src.kids[n].kids[m] == Read(d.nodes, mode, reach, open + {plan.src}, Entries(d.nodes, plan.src)[m])
  {
    var n := names[0];
    assert n in names;
    PlanFitsRead(d.nodes, mode, reach, open, cs, cd, n, src.kids[n], kids);
  }

  lemma PlanFitsRead(nodes: Nodes, mode: Mode, reach: set<Ino>, open: set<Ino>, cs: Ino, cd: Ino,
                     n: Name, s: Src, kids: map<Name, Tree>)
    requires n in Entries(nodes, cs) && s == Read(nodes, mode, reach, open, Entries(nodes, cs)[n])
    requires Inside(nodes, mode, reach, Entries(nodes, cs)[n])
    requires Rep(nodes, cd, DirT(kids))
    ensures PlanFits(PlanFor(nodes, mode, open, cs, cd, n), s, Get(kids, n), mode.skipLinks)
    ensures
      var plan := PlanFor(nodes, mode, open, cs, cd, n);
      plan.Enter? ==>
        && plan.src in reach && plan.src !in open
        && s.kids.Keys == Entries(nodes, plan.src).Keys
        && forall m | m in s.kids ::
             s.kids[m] == Read(nodes, mode, reach, open + {plan.src}, Entries(nodes, plan.src)[m])
  {
    assert n in Entries(nodes, cd) <==> n in kids;
    if n in kids {
      assert Rep(nodes, Entries(nodes, cd)[n], kids[n]);
    }
  }

  /** A change of one subdirectory is a change of the directory. */
  lemma SubBecame(d: Disk, e: Disk, cd: Ino, kids: map<Name, Tree>, n: Name, sub: map<Name, Tree>, mid: map<Name, Tree>)
    requires IsTree(d.nodes, cd, kids) && n in kids && kids[n] == DirT(sub)
    requires n in Entries(d.nodes, cd) && Became(d, e, Entries(d.nodes, cd)[n], sub, mid)
    ensures Became(d, e, cd, kids, kids[n := DirT(mid)])
  {
    var c := Entries(d.nodes, cd)[n];
    var writes := Owned(d.nodes, c, sub);
    forall k | k in writes ensures NameOwns(d.nodes, cd, kids, n, k) && Owns(d.nodes, cd, DirT(kids), k) {
      assert OwnsName(d.nodes, cd, DirT(kids), n, k);
    }
    assert !OwnsName(d.nodes, cd, DirT(kids), n, cd);
    assert e.nodes[cd] == d.nodes[cd];
    assert Entries(e.nodes, cd) == Entries(d.nodes, cd)[n := c];
    forall k | Owns(e.nodes, c, DirT(mid), k) ensures NameOwns(d.nodes, cd, kids, n, k) || k !in d.nodes {
      assert Owns(d.nodes, c, DirT(sub), k) ==> OwnsName(d.nodes, cd, DirT(kids), n, k);
    }
    Graft(d.nodes, e.nodes, cd, kids, n, c, DirT(mid), writes);
  }

  /** The tree of the subdirectory `n` of a destination; empty when it has none. */
  function SubKids(kids: map<Name, Tree>, n: Name): map<Name, Tree> {
    if n in kids && kids[n].DirT? then kids[n].kids else map[]
  }

  /** Entering a subdirectory: the destination has one, made if missing. */
  lemma EnterDest(d: Disk, cd: Ino, n: Name, kids: map<Name, Tree>)
    requires Ready(d) && IsTree(d.nodes, cd, kids)
    requires n in kids ==> kids[n].DirT?
    ensures
      var e, sub := WithDir(d, cd, n), SubKids(kids, n);
      && Became(d, e, cd, kids, kids[n := DirT(sub)])
      && n in Entries(e.nodes, cd)
      && IsTree(e.nodes, Entries(e.nodes, cd)[n], sub)
      && forall k | Owns(e.nodes, Entries(e.nodes, cd)[n], DirT(sub), k) ::
        Owns(d.nodes, cd, DirT(kids), k) || k !in d.nodes
  {
    var e, sub := WithDir(d, cd, n), SubKids(kids, n);
    var mid := kids[n := DirT(sub)];
    if n in kids {
      assert mid == kids;
    } else {
      PutBecame(d, cd, kids, n, Dir(map[]), DirT(map[]));
    }
    var c := Entries(e.nodes, cd)[n];
    assert n in mid;
    assert Rep(e.nodes, c, mid[n]) && Sep(e.nodes, c, mid[n]);
    forall k | Owns(e.nodes, c, DirT(sub), k) ensures Owns(e.nodes, cd, DirT(mid), k) {
      assert OwnsName(e.nodes, cd, DirT(mid), n, k);
    }
  }

  /** ... and the copy of the subdirectory starts there. */
  lemma EnterStarts(d: Disk, mode: Mode, list: Listing, reach: set<Ino>, open: set<Ino>, cs: Ino, cd: Ino,
                    names: seq<Name>, src: Src, kids: map<Name, Tree>, i: Ino)
    requires Lists(list)
    requires Starts(d, mode, reach, open, cs, cd, names, src, kids) && names != []
    requires PlanFor(d.nodes, mode, open, cs, cd, names[0]) == Enter(i)
    ensures
      var n := names[0];
      var e := WithDir(d, cd, n);
      && n in Entries(e.nodes, cd)
      && Starts(e, mode, reach, open + {i}, i, Entries(e.nodes, cd)[n], list(i, Entries(e.nodes, i).Keys), src.kids[n],
                SubKids(kids, n))
  {
    PlanMeans(d, mode, reach, open, cs, cd, names, src, kids);
    var n := names[0];
    var e := WithDir(d, cd, n);
    EnterDest(d, cd, n, kids);
    var writes := Owned(d.nodes, cd, kids);
    ReachFrame(d.nodes, e.nodes, mode, reach, writes);
    var s := src.kids[n];
    assert e.nodes[i] == d.nodes[i];
    forall m | m in s.kids
      ensures s.kids[m] == Read(e.nodes, mode, reach, open + {i}, Entries(e.nodes, i)[m])
    {
      ReadFrame(d.nodes, e.nodes, mode, reach, open + {i}, Entries(d.nodes, i)[m], writes);
    }
  }

  /** A listed name that is not entered: what it puts, and what it reports. */
  function LeafStep(d: Disk, plan: Plan, cd: Ino, n: Name): Disk {
    match plan
    case NewLink(text) => Put(d, cd, n, Link(text))
    case NewFile(data) => Put(d, cd, n, File(data))
    case _ => d
  }

  function LeafReport(plan: Plan, path: Path, n: Name): seq<Path> {
    if plan.LeaveOut? then [path + [n]] else []
  }

  function LeafKids(kids: map<Name, Tree>, plan: Plan, n: Name): map<Name, Tree> {
    match plan
    case NewLink(text) => kids[n := LinkT(text)]
    case NewFile(data) => kids[n := FileT(data)]
    case _ => kids
  }

  lemma LeafMerges(d: Disk, mode: Mode, cd: Ino, n: Name, path: Path, src: Src, kids: map<Name, Tree>, plan: Plan,
                   r: Out)
    requires Ready(d) && IsTree(d.nodes, cd, kids)
    requires src.SDir? && n in src.kids && !plan.Enter?
    requires PlanFits(plan, src.kids[n], Get(kids, n), mode.skipLinks)
    requires Merges(LeafStep(d, plan, cd, n), mode, cd, SDir(src.kids - {n}), LeafKids(kids, plan, n), path, r)
    ensures Merges(d, mode, cd, src, kids, path, Then(LeafReport(plan, path, n), {}, 1, r))
  {
    LeafBecame(d, cd, kids, plan, n);
    OneReport(path, n);
    Finish(d, LeafStep(d, plan, cd, n), mode, cd, n, src, kids, LeafKids(kids, plan, n), path,
           LeafReport(plan, path, n), {}, 1, r);
  }

  lemma LeafBecame(d: Disk, cd: Ino, kids: map<Name, Tree>, plan: Plan, n: Name)
    requires Ready(d) && IsTree(d.nodes, cd, kids)
    ensures Became(d, LeafStep(d, plan, cd, n), cd, kids, LeafKids(kids, plan, n))
  {
    match plan
    case NewLink(text) => PutBecame(d, cd, kids, n, Link(text), LinkT(text));
    case NewFile(data) => PutBecame(d, cd, kids, n, File(data), FileT(data));
    case _ =>
  }

  lemma OneReport(path: Path, n: Name)
    ensures forall p :: p in [path + [n]] <==> path + [n] <= p && p[|path + [n]|..] == []
  {
    forall p | path + [n] <= p && p[|path + [n]|..] == [] ensures p == path + [n] {
      assert p == p[..|path + [n]|] + p[|path + [n]|..];
    }
  }

  lemma SubReports(skipped: seq<Path>, s: Src, there: Option<Tree>, sub: map<Name, Tree>, skipLinks: bool, path: Path)
    requires s.SDir?
    requires there == Some(DirT(sub)) || (there == None && sub == map[])
    requires Reports(skipped, s, Some(DirT(sub)), skipLinks, path)
    ensures Reports(skipped, s, there, skipLinks, path)
  {
  }

  /** The destination got a subdirectory, and the subdirectory changed: the name changed. */
  lemma SubThen(d: Disk, e: Disk, f: Disk, cd: Ino, n: Name, kids: map<Name, Tree>, below: map<Name, Tree>,
                after: map<Name, Tree>)
    requires Became(d, e, cd, kids, kids[n := DirT(below)])
    requires n in Entries(e.nodes, cd) && Became(e, f, Entries(e.nodes, cd)[n], below, after)
    ensures Became(d, f, cd, kids, kids[n := DirT(after)])
  {
    var mid0 := kids[n := DirT(below)];
    assert mid0[n := DirT(after)] == kids[n := DirT(after)];
    SubBecame(e, f, cd, mid0, n, below, after);
    BecameTrans(d, e, f, cd, kids, mid0, kids[n := DirT(after)]);
  }

  /** ... and then the rest of the names. */
  lemma EnterMerges(d: Disk, mode: Mode, cd: Ino, n: Name, src: Src, kids: map<Name, Tree>, path: Path, sub: Out,
                    entered: set<Ino>, r: Out)
    requires src.SDir? && n in src.kids && src.kids[n].SDir?
    requires n in kids ==> kids[n].DirT?
    requires sub.Out? && Reports(sub.skipped, src.kids[n], Some(DirT(SubKids(kids, n))), mode.skipLinks, path + [n])
    requires Became(d, sub.disk, cd, kids, kids[n := DirT(MergedKids(src.kids[n], SubKids(kids, n), mode.skipLinks))])
    requires Merges(sub.disk, mode, cd, SDir(src.kids - {n}),
                    kids[n := DirT(MergedKids(src.kids[n], SubKids(kids, n), mode.skipLinks))], path, r)
    ensures Merges(d, mode, cd, src, kids, path, Then(sub.skipped, entered, 1 + sub.steps, r))
  {
    var mid := kids[n := DirT(MergedKids(src.kids[n], SubKids(kids, n), mode.skipLinks))];
    SubReports(sub.skipped, src.kids[n], Get(kids, n), SubKids(kids, n), mode.skipLinks, path + [n]);
    Finish(d, sub.disk, mode, cd, n, src, kids, mid, path, sub.skipped, entered, 1 + sub.steps, r);
  }

  /** The recursion over directories is the merge of what it reads into what was there, and it
      never leaves the source. */
  lemma {:induction false} CopyIsMerge(d: Disk, mode: Mode, list: Listing, reach: set<Ino>, open: set<Ino>,
                                       cs: Ino, cd: Ino, names: seq<Name>, path: Path, src: Src, kids: map<Name, Tree>)
    requires Lists(list)
    requires Starts(d, mode, reach, open, cs, cd, names, src, kids)
    ensures Merges(d, mode, cd, src, kids, path, CopyNames(d, mode, list, reach, open, cs, cd, names, path))
    decreases reach - open, |names|
  {
    if names == [] {
      assert MergedKids(src, kids, mode.skipLinks) == kids;
    } else if PlanFor(d.nodes, mode, open, cs, cd, names[0]).Enter? {
      CopyIsMergeEnter(d, mode, list, reach, open, cs, cd, names, path, src, kids);
    } else {
      CopyIsMergeLeaf(d, mode, list, reach, open, cs, cd, names, path, src, kids);
    }
  }

  lemma {:induction false} CopyIsMergeLeaf(d: Disk, mode: Mode, list: Listing, reach: set<Ino>, open: set<Ino>,
                                           cs: Ino, cd: Ino, names: seq<Name>, path: Path, src: Src,
                                           kids: map<Name, Tree>)
    requires Lists(list)
    requires Starts(d, mode, reach, open, cs, cd, names, src, kids)
    requires names != [] && !PlanFor(d.nodes, mode, open, cs, cd, names[0]).Enter?
    ensures Merges(d, mode, cd, src, kids, path, CopyNames(d, mode, list, reach, open, cs, cd, names, path))
    decreases reach - open, |names|, 0
  {
    var n, rest := names[0], names[1..];
    assert n in names;
    var plan := PlanFor(d.nodes, mode, open, cs, cd, n);
    var e, mid := LeafStep(d, plan, cd, n), LeafKids(kids, plan, n);
    LeafBecame(d, cd, kids, plan, n);
    Continue(d, e, mode, reach, open, cs, cd, names, src, kids, mid);
    CopyIsMerge(e, mode, list, reach, open, cs, cd, rest, path, SDir(src.kids - {n}), mid);
    PlanMeans(d, mode, reach, open, cs, cd, names, src, kids);
    LeafMerges(d, mode, cd, n, path, src, kids, plan,
               CopyNames(e, mode, list, reach, open, cs, cd, rest, path));
  }

  lemma {:induction false} CopyIsMergeEnter(d: Disk, mode: Mode, list: Listing, reach: set<Ino>, open: set<Ino>,
                                            cs: Ino, cd: Ino, names: seq<Name>, path: Path, src: Src,
                                            kids: map<Name, Tree>)
    requires Lists(list)
    requires Starts(d, mode, reach, open, cs, cd, names, src, kids)
    requires names != [] && PlanFor(d.nodes, mode, open, cs, cd, names[0]).Enter?
    ensures Merges(d, mode, cd, src, kids, path, CopyNames(d, mode, list, reach, open, cs, cd, names, path))
    decreases reach - open, |names|, 2
  {
    var n, rest := names[0], names[1..];
    assert n in names;
    PlanMeans(d, mode, reach, open, cs, cd, names, src, kids);
    var sub := CopySub(d, mode, list, reach, open, cs, cd, n, path);
    RestIsMerge(d, mode, list, reach, open, cs, cd, names, path, src, kids);
    EnterMerges(d, mode, cd, n, src, kids, path, sub, {PlanFor(d.nodes, mode, open, cs, cd, n).src} + sub.entered,
                CopyNames(sub.disk, mode, list, reach, open, cs, cd, rest, path));
  }

  /** ... and the copy of the names after it goes on from there. */
  lemma {:induction false} RestIsMerge(d: Disk, mode: Mode, list: Listing, reach: set<Ino>, open: set<Ino>,
                                       cs: Ino, cd: Ino, names: seq<Name>, path: Path, src: Src, kids: map<Name, Tree>)
    requires Lists(list)
    requires Starts(d, mode, reach, open, cs, cd, names, src, kids)
    requires names != [] && PlanFor(d.nodes, mode, open, cs, cd, names[0]).Enter?
    ensures
      var n := names[0];
      var sub := CopySub(d, mode, list, reach, open, cs, cd, n, path);
      && n in src.kids && src.kids[n].SDir? && sub.Out?
      && var mid := kids[n := DirT(MergedKids(src.kids[n], SubKids(kids, n), mode.skipLinks))];
         && Became(d, sub.disk, cd, kids, mid)
         && Reports(sub.skipped, src.kids[n], Some(DirT(SubKids(kids, n))), mode.skipLinks, path + [n])
         && Merges(sub.disk, mode, cd, SDir(src.kids - {n}), mid, path,
                   CopyNames(sub.disk, mode, list, reach, open, cs, cd, names[1..], path))
    decreases reach - open, |names|, 1
  {
    var n := names[0];
    assert n in names;
    SubIsMerge(d, mode, list, reach, open, cs, cd, names, path, src, kids);
    var sub := CopySub(d, mode, list, reach, open, cs, cd, n, path);
    var mid := kids[n := DirT(MergedKids(src.kids[n], SubKids(kids, n), mode.skipLinks))];
    Continue(d, sub.disk, mode, reach, open, cs, cd, names, src, kids, mid);
    CopyIsMerge(sub.disk, mode, list, reach, open, cs, cd, names[1..], path, SDir(src.kids - {n}), mid);
  }

  /** The copy of one subdirectory is the merge of that subdirectory. */
  lemma {:induction false} SubIsMerge(d: Disk, mode: Mode, list: Listing, reach: set<Ino>, open: set<Ino>,
                                      cs: Ino, cd: Ino, names: seq<Name>, path: Path, src: Src, kids: map<Name, Tree>)
    requires Lists(list)
    requires Starts(d, mode, reach, open, cs, cd, names, src, kids)
    requires names != [] && PlanFor(d.nodes, mode, open, cs, cd, names[0]).Enter?
    ensures
      var n := names[0];
      var sub := CopySub(d, mode, list, reach, open, cs, cd, n, path);
      && n in src.kids && src.kids[n].SDir? && sub.Out?
      && Became(d, sub.disk, cd, kids, kids[n := DirT(MergedKids(src.kids[n], SubKids(kids, n), mode.skipLinks))])
      && Reports(sub.skipped, src.kids[n], Some(DirT(SubKids(kids, n))), mode.skipLinks, path + [n])
    decreases reach - open, |names|, 0
  {
    var n := names[0];
    var i := PlanFor(d.nodes, mode, open, cs, cd, n).src;
    var e := WithDir(d, cd, n);
    PlanMeans(d, mode, reach, open, cs, cd, names, src, kids);
    EnterStarts(d, mode, list, reach, open, cs, cd, names, src, kids, i);
    CopyIsMerge(e, mode, list, reach, open + {i}, i, Entries(e.nodes, cd)[n], list(i, Entries(e.nodes, i).Keys),
                path + [n],
                src.kids[n], SubKids(kids, n));
    EnterDest(d, cd, n, kids);
    var sub := CopySub(d, mode, list, reach, open, cs, cd, n, path);
    SubThen(d, e, sub.disk, cd, n, kids, SubKids(kids, n), MergedKids(src.kids[n], SubKids(kids, n), mode.skipLinks));
  }
}
