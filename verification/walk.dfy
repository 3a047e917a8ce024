/** The descriptor walk: from the box root down, one `openat` at a time, while the box may change
    any name between two calls. */
module Walk {
  import opened Options
  import opened Trees
  import opened CopyScope

  /** Why a path cannot be walked at all. */
  datatype PathError = NotUnderRoot | ClimbsOut | IsRoot

  /** A walk's end.  `Refused(i)`: the component number `i` is a link; `Unopened(i, _)`: the directory so
      many components below the root could not be opened. */
  datatype Opened = OpenOn(ino: Ino) | Refused(at: nat) | Unopened(at: nat, error: Errno)

  datatype Errno = ENOENT | ENOTDIR | EEXIST | EOTHER

  /** The components of `path` below `root`. */
  function Parts(path: Path, root: Path): (r: Result<seq<Name>, PathError>) {
    if !(root <= path) then Failure(NotUnderRoot)
    else if ".." in path[|root|..] then Failure(ClimbsOut)
    else Success(path[|root|..])
  }

  datatype Result<+T, +E> = Success(value: T) | Failure(error: E)

  /** One call and how it ended: the open of the root or of a component, the making of a directory, the probe
      for a link after an open that failed, and the look at the leaf (a link, or not). */
  datatype Call =
    | RootOpened(error: Option<Errno>)
    | DirOpened(name: Name, error: Option<Errno>)
    | DirMade(name: Name, error: Option<Errno>)
    | Probed(name: Name, link: bool)
    | Statted(name: Name, answer: Result<bool, Errno>)

  /** In the state `nodes`, the name `n` of `i` is the directory `j` itself, not a link to one. */
  predicate RealEdge(nodes: Nodes, i: Ino, n: Name, j: Ino) {
    n in Entries(nodes, i) && Entries(nodes, i)[n] == j && IsDir(nodes, j)
  }

  predicate HasDir(nodes: Nodes, i: Ino, n: Name) {
    n in Entries(nodes, i) && IsDir(nodes, Entries(nodes, i)[n])
  }

  predicate LinkEdge(nodes: Nodes, i: Ino, n: Name) {
    n in Entries(nodes, i) && IsLink(nodes, Entries(nodes, i)[n])
  }

  /** The directories a walk was on: from the root, each reached under a name at a moment. */
  datatype Trail =
    | Start(root: Ino)
    | Step(before: Trail, name: Name, ino: Ino, time: nat)
  {
    function End(): Ino {
      if Start? then root else ino
    }

    function Root(): Ino {
      if Start? then root else before.Root()
    }

    /** The names walked, in order. */
    function Path(): seq<Name> {
      if Start? then [] else before.Path() + [name]
    }

    /** Every directory the walk was on. */
    function Inos(): set<Ino> {
      {End()} + if Start? then {} else before.Inos()
    }

    /** Each step was a real directory edge at its own moment, the moments in order from `since` to
        before `until`. */
    ghost predicate Real(world: nat -> Nodes, since: nat, until: nat) {
      Start? || (since <= time < until && RealEdge(world(time), before.End(), name, ino)
        && before.Real(world, since, time))
    }
  }

  lemma {:induction false} RealLater(world: nat -> Nodes, trail: Trail, since: nat, until: nat, later: nat)
    requires trail.Real(world, since, until) && until <= later
    ensures trail.Real(world, since, later)
  {
  }

  /** The directories from which, at every moment, only their own kind can be entered. */
  ghost predicate Closed(world: nat -> Nodes, tree: set<Ino>) {
    forall t: nat, i, n, j {:trigger RealEdge(world(t), i, n, j)} | i in tree && RealEdge(world(t), i, n, j) ::
      j in tree
  }

  /** Whatever is swapped while the walk is under way, it never leaves the box tree. */
  lemma {:induction false} WalkStaysInside(world: nat -> Nodes, trail: Trail, since: nat, until: nat, tree: set<Ino>)
    requires trail.Real(world, since, until)
    requires Closed(world, tree) && trail.Root() in tree
    ensures trail.Inos() <= tree
    decreases trail
  {
    if trail.Step? {
      WalkStaysInside(world, trail.before, since, trail.time, tree);
      assert trail.before.End() in trail.before.Inos();
    }
  }

  /** Where `parts` leads from `i` by real directories only, in one state. */
  function Resolve(nodes: Nodes, i: Ino, parts: seq<Name>): Option<Ino>
    decreases |parts|
  {
    if parts == [] then Some(i)
    else
      var up := Resolve(nodes, i, parts[..|parts| - 1]);
      var n := parts[|parts| - 1];
      if up.Some? && n in Entries(nodes, up.value) && IsDir(nodes, Entries(nodes, up.value)[n]) then
        Some(Entries(nodes, up.value)[n])
      else None
  }

  /** While nothing is swapped, the walk ends where the path leads. */
  lemma {:induction false} QuietWalkResolves(world: nat -> Nodes, nodes: Nodes, trail: Trail, since: nat, until: nat)
    requires trail.Real(world, since, until)
    requires forall t | since <= t < until :: world(t) == nodes
    ensures Resolve(nodes, trail.Root(), trail.Path()) == Some(trail.End())
    decreases trail
  {
    if trail.Step? {
      QuietWalkResolves(world, nodes, trail.before, since, trail.time);
      assert world(trail.time) == nodes;
      var parts := trail.Path();
      assert parts[..|parts| - 1] == trail.before.Path();
    }
  }

  // --- the check for links -------------------------------------------------------------

  /** What the check meets at the root or at a component below it: no link, a link, nothing or no directory,
      or one that cannot be looked into. */
  datatype Part = Plain | LinkHere | Nothing | Shut

  /** Only directories come before component `k`. */
  predicate LeadsTo(way: seq<Part>, k: nat)
    requires k <= |way|
  {
    forall j | 0 <= j < k :: way[j].Plain?
  }

  /** The way is refused at component `k`. */
  predicate RefusedAt(way: seq<Part>, k: nat) {
    k < |way| && LeadsTo(way, k) && (way[k].LinkHere? || way[k].Shut?)
  }

  predicate WayRefused(way: seq<Part>) {
    exists k :: 0 <= k < |way| && RefusedAt(way, k)
  }

  function Plains(k: nat): seq<Part> {
    seq(k, _ => Plain)
  }

  /** The check met the root and the components below it as `way` says: directories, and then the last one,
      where its walk along `trail` ended; `failed`: a call failed. */
  ghost predicate Met(world: nat -> Nodes, since: nat, until: nat, trail: Trail, parts: seq<Name>, way: seq<Part>,
                      failed: bool) {
    && way != []
    && var k := |way| - 1;
       && k <= |parts| && LeadsTo(way, k)
       && (k == 0 || way[k].Shut? ==> failed)
       && (k > 0 ==>
             && trail.Path() == parts[..k - 1]
             && LastMet(world, since, until, trail.End(), parts[k - 1], way[k], failed))
       && (way[k].Plain? ==> k == |parts|)
  }

  ghost predicate LastMet(world: nat -> Nodes, since: nat, until: nat, i: Ino, n: Name, part: Part, failed: bool) {
    && (part.LinkHere? ==> exists t | since <= t < until :: LinkEdge(world(t), i, n))
    && (part.Plain? || part.Nothing? ==> failed || exists t | since <= t < until :: !LinkEdge(world(t), i, n))
    && (part.Nothing? ==> failed || exists t | since <= t < until :: !HasDir(world(t), i, n))
  }

  /** How the check takes a directory that could not be opened. */
  function PartOf(error: Errno): Part {
    if error == ENOENT || error == ENOTDIR then Nothing else Shut
  }

  /** What a walk that did not come through met. */
  function WayOf(r: Opened): seq<Part>
    requires !r.OpenOn?
  {
    if r.Refused? then Plains(r.at + 1) + [LinkHere] else Plains(r.at) + [PartOf(r.error)]
  }

  /** A way of directories and one more part is refused at its last, or not at all. */
  lemma WayEnds(way: seq<Part>)
    requires way != [] && LeadsTo(way, |way| - 1)
    ensures WayRefused(way) <==> RefusedAt(way, |way| - 1)
  {
  }

  /** What was met at the last component, seen over a longer time. */
  lemma LastMetLonger(world: nat -> Nodes, since: nat, from: nat, until: nat, i: Ino, n: Name, part: Part,
                      failed: bool, failed': bool)
    requires since <= from && LastMet(world, from, until, i, n, part, failed) && (failed ==> failed')
    ensures LastMet(world, since, until, i, n, part, failed')
  {
  }

  /** A walk from `root` along `parts` got to the directory `fd`. */
  ghost predicate Reached(world: nat -> Nodes, since: nat, until: nat, trail: Trail, root: Ino, parts: seq<Name>,
                          fd: Ino) {
    trail.Root() == root && trail.Real(world, since, until) && trail.Path() == parts && trail.End() == fd
  }

  /** A walk that does not come through says what it met: a link, where it refuses one, and without a failed call
      no directory. */
  ghost predicate Stops(world: nat -> Nodes, since: nat, until: nat, trail: Trail, parts: seq<Name>, r: Opened,
                        create: bool, failed: bool, unseen: bool)
    requires !r.OpenOn?
  {
    StopsAt(world, since, until, trail, parts, r, create, failed, unseen)
  }

  ghost predicate StopsAt(world: nat -> Nodes, since: nat, until: nat, trail: Trail, parts: seq<Name>, r: Opened,
                          create: bool, failed: bool, unseen: bool)
    requires !r.OpenOn?
  {
    && (r.Refused? ==>
          && r.at < |parts| && trail.Path() == parts[..r.at]
          && exists t | since <= t < until :: LinkEdge(world(t), trail.End(), parts[r.at]))
    && (!failed ==>
          && |trail.Path()| < |parts| && trail.Path() == parts[..|trail.Path()|]
          && exists t | since <= t < until :: !HasDir(world(t), trail.End(), parts[|trail.Path()|]))
    && (!create ==> Met(world, since, until, trail, parts, WayOf(r), failed || unseen))
  }

  /** It stops at component `i`. */
  lemma StopsHere(world: nat -> Nodes, since: nat, from: nat, at: nat, until: nat, trail: Trail, parts: seq<Name>,
                  i: nat, r: Opened, create: bool, failed: bool, unseen: bool)
    requires since <= from < until && i < |parts| && trail.Path() == parts[..i] && !r.OpenOn?
    requires r.Refused? ==> r.at == i && from <= at < until && LinkEdge(world(at), trail.End(), parts[i])
    requires HasDir(world(from), trail.End(), parts[i]) ==> failed
    requires r.Unopened? ==> r.at == i + 1
    requires r.Unopened? && !create ==>
               && LastMet(world, from, until, trail.End(), parts[i], PartOf(r.error), failed || unseen)
               && (PartOf(r.error).Shut? ==> failed)
    ensures Stops(world, since, until, trail, parts, r, create, failed, unseen)
  {
    if !create {
      StopMeets(world, since, from, at, until, trail, parts, i, r, failed || unseen);
    }
  }

  /** A walk that stops at component `i` met what it says. */
  lemma StopMeets(world: nat -> Nodes, since: nat, from: nat, at: nat, until: nat, trail: Trail, parts: seq<Name>,
                  i: nat, r: Opened, failed: bool)
    requires since <= from && i < |parts| && trail.Path() == parts[..i] && !r.OpenOn?
    requires r.Refused? ==> r.at == i && from <= at < until && LinkEdge(world(at), trail.End(), parts[i])
    requires r.Unopened? ==> r.at == i + 1 && (PartOf(r.error).Shut? ==> failed)
                             && LastMet(world, from, until, trail.End(), parts[i], PartOf(r.error), failed)
    ensures Met(world, since, until, trail, parts, WayOf(r), failed)
  {
    if r.Unopened? {
      LastMetLonger(world, since, from, until, trail.End(), parts[i], PartOf(r.error), failed, failed);
    } else {
      assert LastMet(world, since, until, trail.End(), parts[i], LinkHere, failed);
    }
  }

  /** A walk of the parent met what a check of the path meets. */
  lemma MetLonger(world: nat -> Nodes, since: nat, until: nat, trail: Trail, parts: seq<Name>, more: seq<Name>,
                  way: seq<Part>, failed: bool)
    requires Met(world, since, until, trail, parts, way, failed) && parts < more && !way[|way| - 1].Plain?
    ensures Met(world, since, until, trail, more, way, failed)
  {
    if |way| > 1 {
      assert parts[..|way| - 2] == more[..|way| - 2];
    }
  }

  /** Component `k` of `parts` is a link, and real directories lead to it from `i`. */
  predicate LinkOn(nodes: Nodes, i: Ino, parts: seq<Name>, k: nat) {
    k < |parts| &&
    var up := Resolve(nodes, i, parts[..k]);
    up.Some? && LinkEdge(nodes, up.value, parts[k])
  }

  lemma {:induction false} ResolvesBefore(nodes: Nodes, i: Ino, parts: seq<Name>, k: nat)
    requires k <= |parts| && Resolve(nodes, i, parts).Some?
    ensures Resolve(nodes, i, parts[..k]).Some?
    decreases |parts|
  {
    if k == |parts| {
      assert parts[..k] == parts;
    } else {
      ResolvesBefore(nodes, i, parts[..|parts| - 1], k);
      assert parts[..|parts| - 1][..k] == parts[..k];
    }
  }

  /** Before where it leads, a path goes through directories. */
  lemma ResolvesThrough(nodes: Nodes, i: Ino, parts: seq<Name>, j: nat, k: nat)
    requires j < k <= |parts| && Resolve(nodes, i, parts[..k]).Some?
    ensures var up := Resolve(nodes, i, parts[..j]); up.Some? && HasDir(nodes, up.value, parts[j])
  {
    ResolvesBefore(nodes, i, parts[..k], j + 1);
    assert parts[..k][..j + 1] == parts[..j + 1];
    assert parts[..j + 1][..j] == parts[..j];
  }

  lemma QuietLast(world: nat -> Nodes, nodes: Nodes, since: nat, until: nat, i: Ino, n: Name, part: Part)
    requires LastMet(world, since, until, i, n, part, false) && !part.Shut?
    requires forall t | since <= t < until :: world(t) == nodes
    ensures (part.LinkHere? <==> LinkEdge(nodes, i, n)) && (part.Nothing? ==> !HasDir(nodes, i, n))
  {
  }

  /** While nothing is swapped and no call fails, the check refuses a path if and only if some component of it
      is a link, and at that one. */
  lemma QuietCheckFinds(world: nat -> Nodes, nodes: Nodes, trail: Trail, since: nat, until: nat, parts: seq<Name>,
                        way: seq<Part>, k: nat)
    requires trail.Real(world, since, until) && Met(world, since, until, trail, parts, way, false)
    requires forall t | since <= t < until :: world(t) == nodes
    ensures RefusedAt(way, k + 1) <==> LinkOn(nodes, trail.Root(), parts, k)
    ensures RefusedAt(way, k + 1) <==>
            && k < |parts| && Resolve(nodes, trail.Root(), parts[..k]).Some?
            && var up := Resolve(nodes, trail.Root(), parts[..k]).value;
               && up in nodes && nodes[up].Dir? && parts[k] in nodes[up].entries
               && nodes[up].entries[parts[k]] in nodes && nodes[nodes[up].entries[parts[k]]].Link?
  {
    QuietWalkResolves(world, nodes, trail, since, until);
    var last := |way| - 1;
    assert Resolve(nodes, trail.Root(), parts[..last - 1]) == Some(trail.End());
    QuietLast(world, nodes, since, until, trail.End(), parts[last - 1], way[last]);
    if k < last - 1 {
      ResolvesThrough(nodes, trail.Root(), parts, k, last - 1);
    } else if last - 1 < k < |parts| && Resolve(nodes, trail.Root(), parts[..k]).Some? {
      ResolvesThrough(nodes, trail.Root(), parts, last - 1, k);
    }
  }

  /** The answer of a check of `path`: the component at which its way is refused, if any is. */
  ghost predicate Answers(path: Path, root: Path, way: seq<Part>, r: Option<Path>) {
    && (r.Some? <==> WayRefused(way))
    && (r.Some? ==> exists k :: RefusedAt(way, k) && |root| + k <= |path| && r.value == path[..|root| + k])
  }

  function OpensOf(parts: seq<Name>): seq<Call> {
    seq(|parts|, i requires 0 <= i < |parts| => DirOpened(parts[i], None))
  }

  /** The calls of one step of a walk that makes nothing. */
  predicate StepCalls(before: seq<Call>, after: seq<Call>, name: Name, i: nat, r: Opened) {
    if r.OpenOn? then after == before + [DirOpened(name, None)]
    else
      && |after| == |before| + 2 && before <= after
      && after[|before|].DirOpened? && after[|before|].name == name && after[|before|].error.Some?
      && after[|before| + 1] == Probed(name, r.Refused?)
      && (if r.Refused? then r.at == i else r.at == i + 1 && after[|before|].error == Some(r.error))
  }

  /** The calls of one step of a walk: where nothing was found and it is to make what is missing, a directory is
      made, and then, unless that fails with other than EEXIST, opened as in a walk that makes nothing. */
  predicate MakeCalls(before: seq<Call>, after: seq<Call>, name: Name, i: nat, create: bool, r: Opened) {
    if create && |before| < |after| && after[|before|] == DirOpened(name, Some(ENOENT)) then
      && |before| + 2 <= |after| && before <= after
      && after[|before| + 1].DirMade? && after[|before| + 1].name == name
      && var error := after[|before| + 1].error;
         if error.Some? && error != Some(EEXIST) then |after| == |before| + 2 && r == Unopened(i + 1, error.value)
         else StepCalls(after[..|before| + 2], after, name, i, r)
    else StepCalls(before, after, name, i, r)
  }

  /** Where a walk stops, it has done all of one step. */
  ghost predicate StepMade(since: seq<Call>, calls: seq<Call>, parts: seq<Name>, create: bool, r: Opened)
    requires !r.OpenOn?
  {
    if r.Unopened? && r.at == 0 then calls == since + [RootOpened(Some(r.error))]
    else
      var k := if r.Refused? then r.at else r.at - 1;
      k < |parts| && exists m | |since| < m <= |calls| :: MakeCalls(calls[..m], calls, parts[k], k, create, r)
  }

  /** The calls of a walk that makes nothing: it ends with the first open that fails, and its probe. */
  predicate WalkCalls(calls: seq<Call>, parts: seq<Name>, r: Opened) {
    if r.OpenOn? then calls == [RootOpened(None)] + OpensOf(parts)
    else if r.Unopened? && r.at == 0 then calls == [RootOpened(Some(r.error))]
    else
      var k := if r.Refused? then r.at else r.at - 1;
      && k < |parts| && |calls| == k + 3 && calls[..k + 1] == [RootOpened(None)] + OpensOf(parts[..k])
      && StepCalls(calls[..k + 1], calls, parts[k], k, r)
  }

  lemma StepSuffix(before: seq<Call>, after: seq<Call>, name: Name, i: nat, r: Opened, first: nat)
    requires first <= |before| && StepCalls(before, after, name, i, r)
    ensures first <= |after| && StepCalls(before[first..], after[first..], name, i, r)
  {
  }

  lemma WalkCallsMore(calls: seq<Call>, more: seq<Call>, parts: seq<Name>, i: nat, r: Opened)
    requires i < |parts| && calls == [RootOpened(None)] + OpensOf(parts[..i])
    requires StepCalls(calls, more, parts[i], i, r)
    ensures if r.OpenOn? then more == [RootOpened(None)] + OpensOf(parts[..i + 1]) else WalkCalls(more, parts, r)
  {
    assert OpensOf(parts[..i + 1]) == OpensOf(parts[..i]) + [DirOpened(parts[i], None)];
    if !r.OpenOn? {
      assert more[..i + 1] == calls;
    }
  }

  /** A walk has opened the first `i` components, in the calls from `first` on. */
  predicate Walking(calls: seq<Call>, first: nat, parts: seq<Name>, i: nat, create: bool) {
    first < |calls| && i <= |parts| && (!create ==> calls[first..] == [RootOpened(None)] + OpensOf(parts[..i]))
  }

  lemma StepWalks(before: seq<Call>, after: seq<Call>, first: nat, parts: seq<Name>, i: nat, create: bool, r: Opened)
    requires Walking(before, first, parts, i, create) && i < |parts|
    requires before <= after && MakeCalls(before, after, parts[i], i, create, r)
    ensures r.OpenOn? ==> Walking(after, first, parts, i + 1, create)
    ensures !r.OpenOn? ==>
              (!create ==> WalkCalls(after[first..], parts, r)) && StepMade(after[..first], after, parts, create, r)
  {
    if !create {
      StepSuffix(before, after, parts[i], i, r, first);
      WalkCallsMore(before[first..], after[first..], parts, i, r);
    }
    assert after[..|before|] == before && MakeCalls(after[..|before|], after, parts[i], i, create, r);
  }

  /** The answer of a check of `path`, read off its calls and how they ended: nothing is refused where the
      first call that failed found nothing, or no directory, and no link; every other failure, and a link, is
      answered with the component it was met at, the root included. */
  predicate CheckSays(calls: seq<Call>, path: Path, root: Path, r: Option<Path>)
    requires root < path
  {
    CheckReads(calls, path, root, r)
  }

  predicate CheckReads(calls: seq<Call>, path: Path, root: Path, r: Option<Path>)
    requires root < path
  {
    && calls != []
    && var n, last := |calls|, calls[|calls| - 1];
       && (last.RootOpened? ==>
             n == 1 && last.error.Some?
             && r == if last.error == Some(ENOENT) || last.error == Some(ENOTDIR) then None else Some(root))
       && (last.Probed? ==>
             && 3 <= n <= |path| - |root| + 1 && OpenedBefore(calls, path, root, n - 2)
             && calls[n - 2].DirOpened? && calls[n - 2].error.Some?
             && calls[n - 2].name == last.name == path[|root| + n - 3]
             && r == if !last.link && (calls[n - 2].error == Some(ENOENT) || calls[n - 2].error == Some(ENOTDIR))
                     then None else Some(path[..|root| + n - 2]))
       && (last.Statted? ==>
             && n == |path| - |root| + 1 && OpenedBefore(calls, path, root, n - 1) && last.name == path[|path| - 1]
             && r == if last.answer == Success(false) || last.answer == Failure(ENOENT)
                        || last.answer == Failure(ENOTDIR)
                     then None else Some(path))
       && !last.DirOpened? && !last.DirMade?
  }

  /** The first `k` calls opened the root and, one under the other, the components below it. */
  predicate OpenedBefore(calls: seq<Call>, path: Path, root: Path, k: nat) {
    && 0 < k <= |calls| && |root| + k - 1 <= |path| && calls[0] == RootOpened(None)
    && forall i | 0 < i < k :: calls[i] == DirOpened(path[|root| + i - 1], None)
  }

  /** The walk of the parent is the check, where it does not come through. */
  lemma StopSays(calls: seq<Call>, path: Path, root: Path, r: Opened)
    requires root < path && !r.OpenOn? && WalkCalls(calls, path[|root|..|path| - 1], r)
    ensures (if r.Refused? then r.at + 1 else r.at) <= |path| - |root|
    ensures CheckSays(calls, path, root,
                      if r.Refused? then Some(path[..|root| + r.at + 1])
                      else if r.error == ENOENT || r.error == ENOTDIR then None else Some(path[..|root| + r.at]))
  {
    var parts := path[|root|..|path| - 1];
    if r.Refused? || r.at > 0 {
      var k := if r.Refused? then r.at else r.at - 1;
      forall i | 0 < i < k + 1 ensures calls[i] == DirOpened(path[|root| + i - 1], None) {
        assert calls[i] == calls[..k + 1][i] == OpensOf(parts[..k])[i - 1];
      }
      assert calls[0] == calls[..k + 1][0];
    } else {
      assert path[..|root|] == root;
    }
  }

  /** ... and then the look at the leaf. */
  lemma LeafSays(calls: seq<Call>, path: Path, root: Path, answer: Result<bool, Errno>)
    requires root < path && calls == [RootOpened(None)] + OpensOf(path[|root|..|path| - 1])
    ensures CheckSays(calls + [Statted(path[|path| - 1], answer)], path, root,
                      if answer == Success(false) || answer == Failure(ENOENT) || answer == Failure(ENOTDIR)
                      then None else Some(path))
  {
  }

  /** The part the look at a leaf stands for. */
  function LeafPart(answer: Result<bool, Errno>): Part {
    if answer.Failure? then PartOf(answer.error) else if answer.value then LinkHere else Plain
  }

  /** The check got to the leaf. */
  lemma LeafMet(world: nat -> Nodes, since: nat, from: nat, until: nat, trail: Trail, path: Path, root: Path,
                part: Part, failed: bool, unseen: bool)
    requires since <= from && root < path && trail.Path() == path[|root|..|path| - 1]
    requires LastMet(world, from, until, trail.End(), path[|path| - 1], part, failed) && (part.Shut? ==> failed)
    ensures var way := Plains(|path| - |root|) + [part];
            && Met(world, since, until, trail, path[|root|..], way, failed || unseen)
            && Answers(path, root, way, if part.LinkHere? || part.Shut? then Some(path) else None)
  {
    var way := Plains(|path| - |root|) + [part];
    LastMetLonger(world, since, from, until, trail.End(), path[|path| - 1], part, failed, failed || unseen);
    assert path[|root|..][..|path| - |root| - 1] == path[|root|..|path| - 1];
    WayEnds(way);
    assert path[..|root| + (|path| - |root|)] == path;
  }

  /** The check did not get to the parent. */
  lemma ParentMet(world: nat -> Nodes, since: nat, until: nat, trail: Trail, path: Path, root: Path, r: Opened,
                  failed: bool)
    requires root < path && !r.OpenOn?
    requires Met(world, since, until, trail, path[|root|..|path| - 1], WayOf(r), failed)
    ensures Met(world, since, until, trail, path[|root|..], WayOf(r), failed)
    ensures |root| + |WayOf(r)| - 1 <= |path|
    ensures Answers(path, root, WayOf(r),
                    if r.Refused? then Some(path[..|root| + r.at + 1])
                    else if PartOf(r.error).Shut? then Some(path[..|root| + r.at]) else None)
  {
    assert path[|root|..|path| - 1] == path[|root|..][..|path| - |root| - 1];
    MetLonger(world, since, until, trail, path[|root|..|path| - 1], path[|root|..], WayOf(r), failed);
    WayEnds(WayOf(r));
  }

  // --- the walk ------------------------------------------------------------------------

  /** How many more descriptors are open after an open. */
  function More(r: Opened): int {
    if r.OpenOn? then 1 else 0
  }

  /** The host's side of a walk.  `world(t)` is the file system at the moment of call number `t`:
      what the box does between two calls is any difference between two states. */
  class Walker {
    const world: nat -> Nodes
    /** Calls made so far. */
    var clock: nat
    /** Descriptors open now. */
    var fds: int
    /** Some call failed on what it could have done. */
    ghost var failed: bool
    /** A probe for a link failed. */
    ghost var unseen: bool
    /** Calls of mkdir made so far. */
    ghost var mkdirs: nat
    /** The opens, probes and looks so far. */
    ghost var calls: seq<Call>

    constructor (world: nat -> Nodes)
      ensures this.world == world && clock == 0 && fds == 0 && !failed && !unseen && mkdirs == 0 && calls == []
    {
      this.world, clock, fds, failed, unseen, mkdirs, calls := world, 0, 0, false, false, 0, [];
    }

    /** One `openat` with O_DIRECTORY and O_NOFOLLOW. */
    method OpenAt(fd: Ino, name: Name) returns (r: Result<Ino, Errno>)
      modifies this`clock, this`fds, this`failed, this`calls
      ensures clock == old(clock) + 1
      ensures calls == old(calls) + [DirOpened(name, if r.Success? then None else Some(r.error))]
      ensures r.Failure? && r.error != ENOENT && r.error != ENOTDIR ==> failed
      ensures r.Success? ==> RealEdge(world(old(clock)), fd, name, r.value) && fds == old(fds) + 1
      ensures r.Success? ==>
                var nodes := world(old(clock));
                && fd in nodes && nodes[fd].Dir? && name in nodes[fd].entries && nodes[fd].entries[name] == r.value
                && r.value in nodes && nodes[r.value].Dir?
      ensures r.Failure? ==> fds == old(fds)
      ensures r == Failure(ENOENT) ==> name !in Entries(world(old(clock)), fd)
      ensures r.Failure? && PartOf(r.error).Shut? ==> failed
      ensures (r.Failure? && HasDir(world(old(clock)), fd, name)) || old(failed) ==> failed
    {
      var nodes := world(clock);
      clock := clock + 1;
      if * {
        failed := true;
        r := Failure(EOTHER);
      } else if name !in Entries(nodes, fd) {
        r := Failure(ENOENT);
      } else if !IsDir(nodes, Entries(nodes, fd)[name]) {
        r := Failure(ENOTDIR);
      } else {
        fds := fds + 1;
        r := Success(Entries(nodes, fd)[name]);
      }
      calls := calls + [DirOpened(name, if r.Success? then None else Some(r.error))];
    }

    /** One `mkdirat`; what it makes, the box may take away or replace at once. */
    method MkdirAt(fd: Ino, name: Name) returns (r: Result<bool, Errno>)
      modifies this`clock, this`mkdirs, this`calls
      ensures clock == old(clock) + 1 && mkdirs == old(mkdirs) + 1
      ensures calls == old(calls) + [DirMade(name, if r.Success? then None else Some(r.error))]
      ensures r == Failure(EEXIST) ==> name in Entries(world(old(clock)), fd)
    {
      mkdirs := mkdirs + 1;
      var there := name in Entries(world(clock), fd);
      clock := clock + 1;
      r := if there then Failure(EEXIST) else Success(true);
      if * {
        r := Failure(EOTHER);
      }
      calls := calls + [DirMade(name, if r.Success? then None else Some(r.error))];
    }

    /** Whether the name is a link now; a failed call reads as no. */
    method IsLinkAt(name: Name, fd: Ino) returns (link: bool)
      modifies this`clock, this`unseen, this`calls
      ensures calls == old(calls) + [Probed(name, link)]
      ensures clock == old(clock) + 1 && (link ==> LinkEdge(world(old(clock)), fd, name))
      ensures var nodes := world(old(clock));
              var there := fd in nodes && nodes[fd].Dir? && name in nodes[fd].entries
                           && nodes[fd].entries[name] in nodes && nodes[nodes[fd].entries[name]].Link?;
              (link ==> there) && (there && !link ==> unseen)
      ensures (!link && LinkEdge(world(old(clock)), fd, name)) || old(unseen) ==> unseen
    {
      link := LinkEdge(world(clock), fd, name);
      clock := clock + 1;
      if * {
        link, unseen := false, true;
      }
      calls := calls + [Probed(name, link)];
    }

    /** Whether the name is a link now; it is not followed. */
    method StatAt(name: Name, fd: Ino) returns (r: Result<bool, Errno>)
      modifies this`clock, this`failed, this`calls
      ensures clock == old(clock) + 1 && calls == old(calls) + [Statted(name, r)]
      ensures (r.Failure? && r.error != ENOENT && r.error != ENOTDIR) || old(failed) ==> failed
      ensures r.Success? ==>
                var nodes := world(old(clock));
                && fd in nodes && nodes[fd].Dir? && name in nodes[fd].entries
                && (r.value <==> nodes[fd].entries[name] in nodes && nodes[nodes[fd].entries[name]].Link?)
      ensures LastMet(world, old(clock), clock, fd, name, LeafPart(r), failed) && (LeafPart(r).Shut? ==> failed)
    {
      var nodes := world(clock);
      clock := clock + 1;
      if * {
        failed := true;
        r := Failure(EOTHER);
      } else {
        r := if name !in Entries(nodes, fd) then Failure(ENOENT) else Success(LinkEdge(nodes, fd, name));
      }
      calls := calls + [Statted(name, r)];
    }

    /** Open the directory `name` of `fd`; `create` makes a missing one first. */
    method OpenDirAt(name: Name, fd: Ino, index: nat, create: bool) returns (r: Opened, ghost at: nat)
      modifies this`clock, this`fds, this`failed, this`unseen, this`mkdirs, this`calls
      ensures clock >= old(clock) && (old(unseen) ==> unseen)
      ensures fds == old(fds) + More(r)
      ensures r.OpenOn? ==> old(clock) <= at < clock && RealEdge(world(at), fd, name, r.ino)
      ensures clock > old(clock)
      ensures mkdirs == old(mkdirs) || (mkdirs == old(mkdirs) + 1 && create && name !in Entries(world(old(clock)), fd))
      ensures (!r.OpenOn? && HasDir(world(old(clock)), fd, name)) || old(failed) ==> failed
      ensures r.Refused? ==> r.at == index && old(clock) <= at < clock && LinkEdge(world(at), fd, name)
      ensures r.Unopened? ==> r.at == index + 1
      ensures r.Unopened? && !create ==>
                LastMet(world, old(clock), clock, fd, name, PartOf(r.error), failed || unseen)
                && (PartOf(r.error).Shut? ==> failed)
      ensures old(calls) <= calls && MakeCalls(old(calls), calls, name, index, create, r)
      decreases create
    {
      at := clock;
      var got := OpenAt(fd, name);
      if got.Success? {
        return OpenOn(got.value), at;
      }
      if create && got.error == ENOENT {
        var made := MkdirAt(fd, name);
        if made.Failure? && made.error != EEXIST {
          return Unopened(index + 1, made.error), at;
        }
        ghost var mid := calls;
        r, at := OpenDirAt(name, fd, index, false);
        assert calls[..|mid|] == mid;
        return;
      }
      at := clock;
      var link := IsLinkAt(name, fd);
      return if link then Refused(index) else Unopened(index + 1, got.error), at;
    }

    /** A descriptor on the directory `parts` of `root`, each component opened under the last; the
        descriptors on the way are closed, whatever happens. */
    method OpenDirs(root: Ino, parts: seq<Name>, create: bool)
      returns (r: Opened, ghost trail: Trail)
      modifies this`clock, this`fds, this`failed, this`unseen, this`mkdirs, this`calls
      ensures fds == old(fds) + More(r)
      ensures old(mkdirs) <= mkdirs <= old(mkdirs) + (if create then |parts| else 0)
      ensures clock >= old(clock) && (old(failed) ==> failed) && (old(unseen) ==> unseen)
      ensures trail.Root() == root && trail.Real(world, old(clock), clock)
      ensures r.OpenOn? ==> trail.Path() == parts && trail.End() == r.ino
      ensures !r.OpenOn? ==> Stops(world, old(clock), clock, trail, parts, r, create, failed, unseen)
      ensures old(calls) <= calls && (!create ==> WalkCalls(calls[|old(calls)|..], parts, r))
      ensures !r.OpenOn? ==> StepMade(old(calls), calls, parts, create, r)
    {
      trail := Start(root);
      ghost var first := |calls|;
      if * {
        failed := true;
        var error: Errno := *;
        calls := calls + [RootOpened(Some(error))];
        return Unopened(0, error), trail;
      }
      calls := calls + [RootOpened(None)];
      assert OpensOf(parts[..0]) == [];
      var fd := root;
      fds := fds + 1;
      var i := 0;
      while i < |parts|
        invariant 0 <= i <= |parts| && clock >= old(clock)
        invariant fds == old(fds) + 1 && old(mkdirs) <= mkdirs <= old(mkdirs) + (if create then i else 0)
        invariant Reached(world, old(clock), clock, trail, root, parts[..i], fd)
        invariant (old(failed) ==> failed) && (old(unseen) ==> unseen)
        invariant old(calls) <= calls && Walking(calls, first, parts, i, create)
      {
        ghost var before := calls;
        var nxt;
        nxt, trail := OpenNext(fd, parts, i, create, root, trail, old(clock));
        StepWalks(before, calls, first, parts, i, create, nxt);
        assert calls[..first] == old(calls);
        if !nxt.OpenOn? {
          return nxt, trail;
        }
        fd := nxt.ino;
        i := i + 1;
      }
      assert parts[..i] == parts;
      return OpenOn(fd), trail;
    }

    /** ... the component `i`, under `fd`, which is closed. */
    method OpenNext(fd: Ino, parts: seq<Name>, i: nat, create: bool, ghost root: Ino, ghost before: Trail,
                    ghost since: nat)
      returns (r: Opened, ghost trail: Trail)
      requires i < |parts| && since <= clock && Reached(world, since, clock, before, root, parts[..i], fd)
      modifies this`clock, this`fds, this`failed, this`unseen, this`mkdirs, this`calls
      ensures fds == old(fds) + More(r) - 1
      ensures old(mkdirs) <= mkdirs <= old(mkdirs) + (if create then 1 else 0)
      ensures clock >= old(clock) && (old(failed) ==> failed) && (old(unseen) ==> unseen)
      ensures old(calls) <= calls && MakeCalls(old(calls), calls, parts[i], i, create, r)
      ensures if r.OpenOn? then Reached(world, since, clock, trail, root, parts[..i + 1], r.ino)
              else trail.Root() == root && trail.Real(world, since, clock)
                   && Stops(world, since, clock, trail, parts, r, create, failed, unseen)
    {
      ghost var from := clock;
      trail := before;
      ghost var at;
      r, at := OpenDirAt(parts[i], fd, i, create);
      fds := fds - 1;
      if r.OpenOn? {
        RealLater(world, trail, since, from, at);
        trail := Step(trail, parts[i], r.ino, at);
        assert parts[..i + 1] == parts[..i] + [parts[i]];
      } else {
        RealLater(world, trail, since, from, clock);
        StopsHere(world, since, from, at, clock, trail, parts, i, r, create, failed, unseen);
      }
    }

    /** The verified parent directory and the leaf name of `path`. */
    method Parent(path: Path, root: Path, rootIno: Ino, create: bool)
      returns (r: Result<(Opened, Name), PathError>, ghost trail: Trail)
      modifies this`clock, this`fds, this`failed, this`unseen, this`mkdirs, this`calls
      ensures r.Failure? <==> !(root <= path) || ".." in path[|root|..] || path == root
      ensures r.Failure? ==>
                r.error == if !(root <= path) then NotUnderRoot else if path == root then IsRoot else ClimbsOut
      ensures r.Failure? ==> fds == old(fds) && clock == old(clock) && mkdirs == old(mkdirs)
      ensures r.Success? ==>
        && path[..|path| - 1] + [r.value.1] == path
        && fds == old(fds) + More(r.value.0)
        && trail.Root() == rootIno && trail.Real(world, old(clock), clock)
        && (r.value.0.OpenOn? ==> trail.Path() == path[|root|..|path| - 1] && trail.End() == r.value.0.ino)
        && (!r.value.0.OpenOn? && !create ==>
              Met(world, old(clock), clock, trail, path[|root|..|path| - 1], WayOf(r.value.0), failed || unseen))
      ensures clock >= old(clock) && old(mkdirs) <= mkdirs && (!create ==> mkdirs == old(mkdirs))
      ensures old(calls) <= calls
      ensures r.Success? && !create ==>
                WalkCalls(calls[|old(calls)|..], path[|root|..|path| - 1], r.value.0)
      ensures r.Success? && !r.value.0.OpenOn? ==>
                StepMade(old(calls), calls, path[|root|..|path| - 1], create, r.value.0)
    {
      trail := Start(rootIno);
      var parts := Parts(path, root);
      if parts.Failure? {
        return Failure(parts.error), trail;
      }
      if parts.value == [] {
        assert path == root;
        return Failure(IsRoot), trail;
      }
      assert path[|root|..][..|parts.value| - 1] == path[|root|..|path| - 1];
      var fd: Opened;
      fd, trail := OpenDirs(rootIno, parts.value[..|parts.value| - 1], create);
      return Success((fd, parts.value[|parts.value| - 1])), trail;
    }

    /** ... the leaf, under its parent `fd`. */
    method CheckLeaf(path: Path, root: Path, fd: Ino, ghost trail: Trail, ghost since: nat, ghost before: seq<Call>)
      returns (r: Option<Path>, ghost way: seq<Part>)
      requires root < path && since <= clock && trail.Path() == path[|root|..|path| - 1] && trail.End() == fd
      requires before <= calls && calls[|before|..] == [RootOpened(None)] + OpensOf(path[|root|..|path| - 1])
      modifies this`clock, this`failed, this`calls
      ensures clock == old(clock) + 1 && (old(failed) ==> failed)
      ensures Met(world, since, clock, trail, path[|root|..], way, failed || unseen) && Answers(path, root, way, r)
      ensures before <= calls && CheckSays(calls[|before|..], path, root, r)
    {
      ghost var from, opens := clock, calls;
      var answer := StatAt(path[|path| - 1], fd);
      way := Plains(|path| - |root|) + [LeafPart(answer)];
      LeafMet(world, since, from, clock, trail, path, root, LeafPart(answer), failed, unseen);
      LeafSays(opens[|before|..], path, root, answer);
      assert calls[|before|..] == opens[|before|..] + [Statted(path[|path| - 1], answer)];
      var clear := answer == Success(false) || answer == Failure(ENOENT) || answer == Failure(ENOTDIR);
      r := if clear then None else Some(path);
    }

    /** The first link from the root down to `path`, or the first directory that cannot be looked into. */
    method FirstSymlink(path: Path, root: Path, rootIno: Ino)
      returns (r: Result<Option<Path>, PathError>, ghost trail: Trail, ghost way: seq<Part>)
      modifies this`clock, this`fds, this`failed, this`unseen, this`mkdirs, this`calls
      ensures r.Failure? <==> !(root <= path) || ".." in path[|root|..]
      ensures r.Failure? ==> r.error == if root <= path then ClimbsOut else NotUnderRoot
      ensures fds == old(fds) && mkdirs == old(mkdirs)
      ensures r.Failure? || path == root ==> clock == old(clock) && way == []
      ensures r.Success? && path != root ==>
        && trail.Root() == rootIno && trail.Real(world, old(clock), clock)
        && Met(world, old(clock), clock, trail, path[|root|..], way, failed || unseen)
      ensures r.Success? ==> Answers(path, root, way, r.value)
      ensures old(calls) <= calls && (r.Success? && path != root ==>
                CheckSays(calls[|old(calls)|..], path, root, r.value))
    {
      trail, way := Start(rootIno), [];
      if path == root {
        return Success(None), trail, way;
      }
      var up;
      up, trail := Parent(path, root, rootIno, false);
      if up.Failure? {
        return Failure(up.error), trail, way;
      }
      var fd := up.value.0;
      if fd.OpenOn? {
        ghost var since := clock;
        var found;
        found, way := CheckLeaf(path, root, fd.ino, trail, old(clock), old(calls));
        fds := fds - 1;
        RealLater(world, trail, old(clock), since, clock);
        return Success(found), trail, way;
      }
      way := WayOf(fd);
      ParentMet(world, old(clock), clock, trail, path, root, fd, failed || unseen);
      StopSays(calls[|old(calls)|..], path, root, fd);
      var found := if fd.Refused? then Some(path[..|root| + fd.at + 1])
                   else if fd.error == ENOENT || fd.error == ENOTDIR then None else Some(path[..|root| + fd.at]);
      return Success(found), trail, way;
    }
  }
}
