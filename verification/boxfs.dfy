/** The box tree as the host changes it, call by call, where any call may fail. */
module BoxFs {
  import opened Options
  import opened Trees
  import opened Merge
  import opened CopySteps
  import opened CopyEnters
  import opened CopyScope

  /** One directory being copied: its source and destination, the names left, its path, and
      whether its two descriptors are the copy's to close. */
  datatype Frame = Frame(cs: Ino, cd: Ino, names: seq<Name>, path: Path, own: bool)

  /** How a copy ends: with the source paths left out, or with an error part-way.  `unlisted`: the
      error left two descriptors open, those of a subdirectory that could not be listed. */
  datatype CopyResult = Copied(skipped: seq<Path>) | Raised(unlisted: bool)

  /** One listed name: done with what it reports, a directory opened on both sides, or an error. */
  datatype NameResult = Done(report: seq<Path>) | Entered(src: Ino, dst: Ino) | Failed(unlisted: bool)

  /** One turn of the copy's loop. */
  datatype StepResult = Moved(open: set<Ino>, stack: seq<Frame>, report: seq<Path>) | Stopped(unlisted: bool)

  /** What was done with one listed name is what its plan says. */
  ghost predicate PlanDone(d: Disk, e: Disk, plan: Plan, cd: Ino, n: Name, path: Path, r: NameResult) {
    && (r.Done? ==> !plan.Enter? && e == LeafStep(d, plan, cd, n) && r.report == LeafReport(plan, path, n))
    && (r.Entered? ==> plan == Enter(r.src) && EnteredAt(d, e, cd, n, r.dst))
  }

  ghost predicate EnteredAt(d: Disk, e: Disk, cd: Ino, n: Name, dst: Ino) {
    e == WithDir(d, cd, n) && n in Entries(e.nodes, cd) && dst == Entries(e.nodes, cd)[n]
  }

  /** The descriptors a name leaves open. */
  function Kept(r: NameResult): int {
    if r.Entered? || r == Failed(true) then 2 else 0
  }

  /** What the rest of a copy delivers: finish the top directory, then the ones below it. */
  ghost function FinishStack(d: Disk, mode: Mode, list: Listing, reach: set<Ino>, open: set<Ino>,
                             stack: seq<Frame>): Out
    decreases |stack|
  {
    if stack == [] then Out(d, [], {}, 0)
    else
      var below, top := stack[..|stack| - 1], stack[|stack| - 1];
      var r := CopyNames(d, mode, list, reach, open, top.cs, top.cd, top.names, top.path);
      if r.Stray? then Stray
      else Then(r.skipped, r.entered, r.steps,
                FinishStack(r.disk, mode, list, reach, if top.own then open - {top.cs} else open, below))
  }

  /** How a copy ends, if its top directory or one that it enters cannot be listed: it comes through only if
      both can; two descriptors stay open only for a directory it enters; else an error is a failed call's. */
  predicate EndsAs(r: CopyResult, top: bool, below: bool, failed: bool) {
    if r.Copied? then !top && !below
    else if r.unlisted then !top && below
    else top || failed
  }

  /** Only the bottom frame's descriptors are the caller's. */
  ghost predicate Owning(stack: seq<Frame>) {
    forall k | 0 <= k < |stack| :: stack[k].own <==> k > 0
  }

  /** The descriptors a stack holds open. */
  function Held(stack: seq<Frame>): int {
    if stack == [] then 0 else 2 * (|stack| - 1)
  }

  /** The top frame moved on to its next name. */
  function Advanced(stack: seq<Frame>): seq<Frame>
    requires stack != [] && stack[|stack| - 1].names != []
  {
    stack[..|stack| - 1] + [stack[|stack| - 1].(names := stack[|stack| - 1].names[1..])]
  }

  /** The source directories held open: those being read at the start, and each frame's. */
  function OpenOf(reading: set<Ino>, stack: seq<Frame>): set<Ino> {
    if stack == [] then reading
    else
      var below, top := stack[..|stack| - 1], stack[|stack| - 1];
      OpenOf(reading, below) + if top.own then {top.cs} else {}
  }

  /** Each frame is where the copy may be, given what was open when it was pushed. */
  ghost predicate Visiting(g: Scope, d: Disk, reading: set<Ino>, stack: seq<Frame>) {
    stack == [] ||
    var below, top := stack[..|stack| - 1], stack[|stack| - 1];
    && Visiting(g, d, reading, below)
    && May(g, d, top.cs, top.cd, OpenOf(reading, stack))
    && (top.own ==> top.cs !in OpenOf(reading, below))
  }

  /** Where the loop stands between two turns. */
  ghost predicate Running(g: Scope, d: Disk, reading: set<Ino>, open: set<Ino>, stack: seq<Frame>) {
    Growing(g, d) && Owning(stack) && Visiting(g, d, reading, stack) && open == OpenOf(reading, stack)
  }

  lemma FirstFrame(g: Scope, d: Disk, reading: set<Ino>, first: Frame)
    requires Growing(g, d) && !first.own && May(g, d, first.cs, first.cd, reading)
    ensures Running(g, d, reading, reading, [first])
  {
    assert [first][..0] == [];
    assert OpenOf(reading, [first]) == reading + {} == reading;
  }

  lemma {:induction false} VisitingStays(g: Scope, d: Disk, e: Disk, reading: set<Ino>, stack: seq<Frame>)
    requires Visiting(g, d, reading, stack) && KeepsDirs(d, e)
    ensures Visiting(g, e, reading, stack)
  {
    if stack != [] {
      VisitingStays(g, d, e, reading, stack[..|stack| - 1]);
    }
  }

  lemma AdvancedOwns(stack: seq<Frame>)
    requires stack != [] && stack[|stack| - 1].names != [] && Owning(stack)
    ensures Owning(Advanced(stack)) && |Advanced(stack)| == |stack|
  {
    forall k | 0 <= k < |stack| ensures Advanced(stack)[k].own == stack[k].own {
    }
  }

  lemma AdvancedStays(g: Scope, d: Disk, e: Disk, reading: set<Ino>, stack: seq<Frame>)
    requires stack != [] && stack[|stack| - 1].names != []
    requires Owning(stack) && Visiting(g, d, reading, stack) && KeepsDirs(d, e)
    ensures Owning(Advanced(stack)) && Visiting(g, e, reading, Advanced(stack))
    ensures OpenOf(reading, Advanced(stack)) == OpenOf(reading, stack) && |Advanced(stack)| == |stack|
  {
    var below := stack[..|stack| - 1];
    assert Advanced(stack)[..|stack| - 1] == below;
    VisitingStays(g, d, e, reading, below);
    AdvancedOwns(stack);
  }

  /** A directory is entered: one frame more. */
  lemma PushVisits(g: Scope, d: Disk, reading: set<Ino>, stack: seq<Frame>, frame: Frame)
    requires Visiting(g, d, reading, stack) && frame.own && frame.cs !in OpenOf(reading, stack)
    requires May(g, d, frame.cs, frame.cd, OpenOf(reading, stack) + {frame.cs})
    ensures Visiting(g, d, reading, stack + [frame])
    ensures OpenOf(reading, stack + [frame]) == OpenOf(reading, stack) + {frame.cs}
  {
    assert (stack + [frame])[..|stack|] == stack;
  }

  /** What is reported first, then, and later, in one list. */
  lemma ReportLater(a: seq<Path>, b: seq<Path>, c: seq<Path>)
    ensures a + (b + c) == (a + b) + c
  {
  }

  lemma ThenJoins(skipped: seq<Path>, entered: set<Ino>, steps: nat, r: Out, rest: Out)
    requires r.Out?
    ensures var all := Then(skipped, entered, steps, r);
            Then(all.skipped, all.entered, all.steps, rest)
            == Then(skipped, entered, steps, Then(r.skipped, r.entered, r.steps, rest))
  {
    if rest.Out? {
      ReportLater(skipped, r.skipped, rest.skipped);
    }
  }

  lemma FinishPop(d: Disk, mode: Mode, list: Listing, reach: set<Ino>, open: set<Ino>, below: seq<Frame>, top: Frame)
    requires top.names == []
    ensures FinishStack(d, mode, list, reach, open, below + [top])
         == Then([], {}, 1, FinishStack(d, mode, list, reach, if top.own then open - {top.cs} else open, below))
  {
    assert (below + [top])[..|below|] == below;
  }

  /** One turn of the recursion at a name that is not entered. */
  lemma CopyNamesLeaf(d: Disk, mode: Mode, list: Listing, reach: set<Ino>, open: set<Ino>, f: Frame)
    requires f.names != [] && !PlanFor(d.nodes, mode, open, f.cs, f.cd, f.names[0]).Enter?
    ensures
      var plan := PlanFor(d.nodes, mode, open, f.cs, f.cd, f.names[0]);
      CopyNames(d, mode, list, reach, open, f.cs, f.cd, f.names, f.path)
      == Then(LeafReport(plan, f.path, f.names[0]), {}, 1,
              CopyNames(LeafStep(d, plan, f.cd, f.names[0]), mode, list, reach, open, f.cs, f.cd, f.names[1..], f.path))
  {
  }

  /** One turn of the recursion at a name that is entered. */
  lemma CopyNamesEnter(d: Disk, mode: Mode, list: Listing, reach: set<Ino>, open: set<Ino>, f: Frame, i: Ino)
    requires f.names != [] && PlanFor(d.nodes, mode, open, f.cs, f.cd, f.names[0]) == Enter(i) && i !in open
    requires CopyNames(d, mode, list, reach, open, f.cs, f.cd, f.names, f.path).Out?
    ensures
      var n := f.names[0];
      var e := WithDir(d, f.cd, n);
      && i in reach && n in Entries(e.nodes, f.cd)
      && var sub := CopyNames(e, mode, list, reach, open + {i}, i, Entries(e.nodes, f.cd)[n],
                              list(i, Entries(e.nodes, i).Keys), f.path + [n]);
         sub.Out? &&
         CopyNames(d, mode, list, reach, open, f.cs, f.cd, f.names, f.path)
         == Then(sub.skipped, {i} + sub.entered, 1 + sub.steps,
                 CopyNames(sub.disk, mode, list, reach, open, f.cs, f.cd, f.names[1..], f.path))
  {
  }

  lemma FinishTop(d: Disk, mode: Mode, list: Listing, reach: set<Ino>, open: set<Ino>, below: seq<Frame>, top: Frame)
    ensures
      var r := CopyNames(d, mode, list, reach, open, top.cs, top.cd, top.names, top.path);
      FinishStack(d, mode, list, reach, open, below + [top])
      == if r.Stray? then Stray
         else Then(r.skipped, r.entered, r.steps,
                   FinishStack(r.disk, mode, list, reach, if top.own then open - {top.cs} else open, below))
  {
    assert (below + [top])[..|below|] == below;
  }

  lemma FinishLeaf(d: Disk, mode: Mode, list: Listing, reach: set<Ino>, open: set<Ino>, below: seq<Frame>, top: Frame)
    requires top.names != []
    requires !PlanFor(d.nodes, mode, open, top.cs, top.cd, top.names[0]).Enter?
    ensures
      var plan := PlanFor(d.nodes, mode, open, top.cs, top.cd, top.names[0]);
      FinishStack(d, mode, list, reach, open, below + [top])
      == Then(LeafReport(plan, top.path, top.names[0]), {}, 1,
              FinishStack(LeafStep(d, plan, top.cd, top.names[0]), mode, list, reach, open,
                          below + [top.(names := top.names[1..])]))
  {
    var plan := PlanFor(d.nodes, mode, open, top.cs, top.cd, top.names[0]);
    var e, rest := LeafStep(d, plan, top.cd, top.names[0]), top.(names := top.names[1..]);
    CopyNamesLeaf(d, mode, list, reach, open, top);
    FinishTop(d, mode, list, reach, open, below, top);
    FinishTop(e, mode, list, reach, open, below, rest);
    var r := CopyNames(e, mode, list, reach, open, top.cs, top.cd, rest.names, top.path);
    if r.Out? {
      ThenJoins(LeafReport(plan, top.path, top.names[0]), {}, 1, r,
                FinishStack(r.disk, mode, list, reach, if top.own then open - {top.cs} else open, below));
    }
  }

  /** A directory just entered, and then the one it is in. */
  lemma FinishSub(e: Disk, mode: Mode, list: Listing, reach: set<Ino>, open: set<Ino>, below: seq<Frame>, rest: Frame,
                  sub: Frame)
    requires sub.own && sub.cs !in open
    requires CopyNames(e, mode, list, reach, open + {sub.cs}, sub.cs, sub.cd, sub.names, sub.path).Out?
    ensures
      var r1 := CopyNames(e, mode, list, reach, open + {sub.cs}, sub.cs, sub.cd, sub.names, sub.path);
      var r2 := CopyNames(r1.disk, mode, list, reach, open, rest.cs, rest.cd, rest.names, rest.path);
      r2.Out? ==>
        FinishStack(e, mode, list, reach, open + {sub.cs}, below + [rest] + [sub])
        == Then(r1.skipped, r1.entered, r1.steps, Then(r2.skipped, r2.entered, r2.steps,
             FinishStack(r2.disk, mode, list, reach, if rest.own then open - {rest.cs} else open, below)))
  {
    var r1 := CopyNames(e, mode, list, reach, open + {sub.cs}, sub.cs, sub.cd, sub.names, sub.path);
    FinishTop(e, mode, list, reach, open + {sub.cs}, below + [rest], sub);
    assert (open + {sub.cs}) - {sub.cs} == open;
    FinishTop(r1.disk, mode, list, reach, open, below, rest);
  }

  lemma EnterJoins(i: Ino, r1: Out, r2: Out, tail: Out)
    requires r1.Out? && r2.Out?
    ensures var r := Then(r1.skipped, {i} + r1.entered, 1 + r1.steps, r2);
            Then(r.skipped, r.entered, r.steps, tail)
            == Then([], {i}, 1,
                    Then(r1.skipped, r1.entered, r1.steps, Then(r2.skipped, r2.entered, r2.steps, tail)))
  {
    if tail.Out? {
      ReportLater(r1.skipped, r2.skipped, tail.skipped);
    }
  }

  lemma FinishEnter(d: Disk, mode: Mode, list: Listing, reach: set<Ino>, open: set<Ino>, below: seq<Frame>, top: Frame,
                    i: Ino)
    requires top.names != [] && PlanFor(d.nodes, mode, open, top.cs, top.cd, top.names[0]) == Enter(i) && i !in open
    requires FinishStack(d, mode, list, reach, open, below + [top]).Out?
    ensures
      var n := top.names[0];
      var e := WithDir(d, top.cd, n);
      && i in reach && n in Entries(e.nodes, top.cd)
      && var sub := Frame(i, Entries(e.nodes, top.cd)[n], list(i, Entries(e.nodes, i).Keys), top.path + [n], true);
         FinishStack(d, mode, list, reach, open, below + [top])
         == Then([], {i}, 1,
                 FinishStack(e, mode, list, reach, open + {i}, below + [top.(names := top.names[1..])] + [sub]))
  {
    var n, rest := top.names[0], top.(names := top.names[1..]);
    var e := WithDir(d, top.cd, n);
    FinishTop(d, mode, list, reach, open, below, top);
    CopyNamesEnter(d, mode, list, reach, open, top, i);
    var sub := Frame(i, Entries(e.nodes, top.cd)[n], list(i, Entries(e.nodes, i).Keys), top.path + [n], true);
    FinishSub(e, mode, list, reach, open, below, rest, sub);
    var r1 := CopyNames(e, mode, list, reach, open + {i}, sub.cs, sub.cd, sub.names, sub.path);
    var r2 := CopyNames(r1.disk, mode, list, reach, open, top.cs, top.cd, rest.names, top.path);
    EnterJoins(i, r1, r2,
               FinishStack(r2.disk, mode, list, reach, if top.own then open - {top.cs} else open, below));
  }

  /** The next name of the top frame is done as planned. */
  ghost predicate TopDone(g: Scope, d: Disk, e: Disk, open: set<Ino>, top: Frame, one: NameResult)
    requires top.names != []
  {
    var n := top.names[0];
    && PlanDone(d, e, PlanFor(d.nodes, g.mode, open, top.cs, top.cd, n), top.cd, n, top.path, one)
    && (one.Entered? ==> one.src !in open && May(g, e, one.src, one.dst, open + {one.src}))
  }

  /** A turn of the loop: where it stands then, and what it reports, leave as much to be done as before. */
  ghost predicate Turned(g: Scope, d: Disk, e: Disk, list: Listing, reach: set<Ino>, reading: set<Ino>, open: set<Ino>,
                         stack: seq<Frame>, r: StepResult)
    requires r.Moved?
  {
    TurnedTo(g, d, e, list, reach, reading, open, stack, r.open, r.stack, r.report)
  }

  ghost predicate TurnedTo(g: Scope, d: Disk, e: Disk, list: Listing, reach: set<Ino>, reading: set<Ino>,
                           open: set<Ino>,
                           stack: seq<Frame>, open': set<Ino>, stack': seq<Frame>, report: seq<Path>)
  {
    && Running(g, e, reading, open', stack')
    && FinishStack(d, g.mode, list, reach, open, stack)
       == Then(report, open' - open, 1, FinishStack(e, g.mode, list, reach, open', stack'))
  }

  /** A directory that is planned to be entered is not one being read. */
  lemma PlanUnopened(nodes: Nodes, mode: Mode, open: set<Ino>, cs: Ino, cd: Ino, n: Name, i: Ino)
    requires PlanFor(nodes, mode, open, cs, cd, n) == Enter(i)
    ensures i !in open
  {
  }

  /** A turn at a name that is not entered. */
  lemma LeafTurn(g: Scope, d: Disk, e: Disk, list: Listing, reach: set<Ino>, reading: set<Ino>, open: set<Ino>,
                 stack: seq<Frame>)
    requires Running(g, d, reading, open, stack) && Growing(g, e) && KeepsDirs(d, e)
    requires stack != [] && stack[|stack| - 1].names != []
    requires
      var top := stack[|stack| - 1];
      var plan := PlanFor(d.nodes, g.mode, open, top.cs, top.cd, top.names[0]);
      !plan.Enter? && e == LeafStep(d, plan, top.cd, top.names[0])
    ensures |Advanced(stack)| == |stack|
    ensures
      var top := stack[|stack| - 1];
      var plan := PlanFor(d.nodes, g.mode, open, top.cs, top.cd, top.names[0]);
      Turned(g, d, e, list, reach, reading, open, stack,
             Moved(open, Advanced(stack), LeafReport(plan, top.path, top.names[0])))
  {
    var below, top := stack[..|stack| - 1], stack[|stack| - 1];
    assert stack == below + [top];
    AdvancedStays(g, d, e, reading, stack);
    FinishLeaf(d, g.mode, list, reach, open, below, top);
  }

  /** The loop goes on in the directory entered. */
  lemma EnterRuns(g: Scope, d: Disk, e: Disk, reading: set<Ino>, open: set<Ino>, stack: seq<Frame>, frame: Frame)
    requires Running(g, d, reading, open, stack) && Growing(g, e) && KeepsDirs(d, e)
    requires stack != [] && stack[|stack| - 1].names != []
    requires frame.own && frame.cs !in open && May(g, e, frame.cs, frame.cd, open + {frame.cs})
    ensures |Advanced(stack)| == |stack|
    ensures Running(g, e, reading, open + {frame.cs}, Advanced(stack) + [frame])
  {
    AdvancedStays(g, d, e, reading, stack);
    PushVisits(g, e, reading, Advanced(stack), frame);
  }

  /** A turn at a name that is entered. */
  lemma EnterTurn(g: Scope, d: Disk, e: Disk, list: Listing, reach: set<Ino>, reading: set<Ino>, open: set<Ino>,
                  stack: seq<Frame>, frame: Frame)
    requires Running(g, d, reading, open, stack) && Growing(g, e) && KeepsDirs(d, e)
    requires stack != [] && stack[|stack| - 1].names != []
    requires FinishStack(d, g.mode, list, reach, open, stack).Out?
    requires
      var top := stack[|stack| - 1];
      && PlanFor(d.nodes, g.mode, open, top.cs, top.cd, top.names[0]) == Enter(frame.cs)
      && EnteredAt(d, e, top.cd, top.names[0], frame.cd)
      && frame.names == list(frame.cs, Entries(e.nodes, frame.cs).Keys) && frame.path == top.path + [top.names[0]]
    requires frame.own && frame.cs !in open && May(g, e, frame.cs, frame.cd, open + {frame.cs})
    ensures |Advanced(stack)| == |stack|
    ensures Turned(g, d, e, list, reach, reading, open, stack, Moved(open + {frame.cs}, Advanced(stack) + [frame], []))
  {
    EnterRuns(g, d, e, reading, open, stack, frame);
    var below, top := stack[..|stack| - 1], stack[|stack| - 1];
    assert stack == below + [top];
    FinishEnter(d, g.mode, list, reach, open, below, top, frame.cs);
  }

  /** What is left to be done delivers the rest of the goal, beside what was reported and entered. */
  ghost predicate Owes(left: Out, goal: Out, skipped: seq<Path>, entered: set<Ino>) {
    && left.Out? && goal.Out? && left.disk == goal.disk
    && skipped + left.skipped == goal.skipped && entered + left.entered == goal.entered
  }

  lemma FinishFirst(d: Disk, mode: Mode, list: Listing, reach: set<Ino>, open: set<Ino>, first: Frame)
    requires !first.own
    requires CopyNames(d, mode, list, reach, open, first.cs, first.cd, first.names, first.path).Out?
    ensures Owes(FinishStack(d, mode, list, reach, open, [first]),
                 CopyNames(d, mode, list, reach, open, first.cs, first.cd, first.names, first.path), [], {})
  {
    var r := CopyNames(d, mode, list, reach, open, first.cs, first.cd, first.names, first.path);
    assert [first][..0] == [];
    assert [] + (r.skipped + []) == r.skipped;
  }

  /** The next name is to be entered: the rest of the copy enters that directory. */
  lemma OwesEnter(d: Disk, mode: Mode, list: Listing, reach: set<Ino>, open: set<Ino>, stack: seq<Frame>, i: Ino)
    requires stack != [] && stack[|stack| - 1].names != [] && i !in open
    requires
      var top := stack[|stack| - 1];
      PlanFor(d.nodes, mode, open, top.cs, top.cd, top.names[0]) == Enter(i)
    requires FinishStack(d, mode, list, reach, open, stack).Out?
    ensures i in FinishStack(d, mode, list, reach, open, stack).entered
  {
    var below, top := stack[..|stack| - 1], stack[|stack| - 1];
    assert stack == below + [top];
    FinishEnter(d, mode, list, reach, open, below, top, i);
  }

  /** A copy of a directory into another starts within its scope. */
  lemma EntriesStart(d: Disk, mode: Mode, list: Listing, reach: set<Ino>, sfd: Ino, dfd: Ino, read: Src,
                     kids: map<Name, Tree>)
    requires Lists(list) && Starts(d, mode, reach, {sfd}, sfd, dfd, list(sfd, Entries(d.nodes, sfd).Keys), read, kids)
    ensures
      var g := ScopeOf(d.nodes, mode, reach, dfd, kids, read);
      Growing(g, d) && Scoped(g) && May(g, d, sfd, dfd, {sfd})
  {
    ScopeIsScoped(d.nodes, mode, reach, dfd, kids, read);
    StartsRead(d, mode, list, reach, sfd, dfd, read, kids);
    FirstVisit(d.nodes, mode, reach, sfd, dfd, kids, read);
  }

  /** What the recursion delivers for it. */
  lemma EntriesMerge(d: Disk, mode: Mode, list: Listing, reach: set<Ino>, sfd: Ino, dfd: Ino, names: seq<Name>,
                     src: Path, read: Src, kids: map<Name, Tree>)
    requires Lists(list) && Starts(d, mode, reach, {sfd}, sfd, dfd, names, read, kids)
    ensures
      var goal := CopyNames(d, mode, list, reach, {sfd}, sfd, dfd, names, src);
      && goal.Out?
      && Became(d, goal.disk, dfd, kids, MergedKids(read, kids, mode.skipLinks))
      && Reports(goal.skipped, read, Some(DirT(kids)), mode.skipLinks, src)
  {
    CopyIsMerge(d, mode, list, reach, {sfd}, sfd, dfd, names, src, read, kids);
  }

  /** Which directories it enters. */
  lemma EntriesEnter(d: Disk, mode: Mode, list: Listing, reach: set<Ino>, sfd: Ino, dfd: Ino, src: Path, read: Src,
                     kids: map<Name, Tree>, some: set<Ino>)
    requires
      var names := list(sfd, Entries(d.nodes, sfd).Keys);
      && Lists(list) && Starts(d, mode, reach, {sfd}, sfd, dfd, names, read, kids)
      && CopyNames(d, mode, list, reach, {sfd}, sfd, dfd, names, src).Out?
    ensures
      var names := list(sfd, Entries(d.nodes, sfd).Keys);
      CopyNames(d, mode, list, reach, {sfd}, sfd, dfd, names, src).entered !! some
      <==> !EntersAny(d.nodes, mode, reach, sfd, kids, some)
  {
    var names := list(sfd, Entries(d.nodes, sfd).Keys);
    var r := CopyNames(d, mode, list, reach, {sfd}, sfd, dfd, names, src);
    forall x | x in some
      ensures x in r.entered <==> EntersBelow(d.nodes, mode, reach, {sfd}, sfd, kids, x)
    {
      EnteredIs(d, mode, list, reach, {sfd}, sfd, dfd, names, src, read, kids, x);
    }
  }

  lemma StartsRead(d: Disk, mode: Mode, list: Listing, reach: set<Ino>, sfd: Ino, dfd: Ino, read: Src,
                   kids: map<Name, Tree>)
    requires Lists(list) && Starts(d, mode, reach, {sfd}, sfd, dfd, list(sfd, Entries(d.nodes, sfd).Keys), read, kids)
    ensures read == ReadKids(d.nodes, mode, reach, {sfd}, sfd)
  {
    var again := ReadKids(d.nodes, mode, reach, {sfd}, sfd);
    assert read.kids == again.kids;
  }

  /** Fill the file `i`. */
  function Fill(d: Disk, i: Ino, data: Bytes): Disk {
    d.(nodes := d.nodes[i := File(data)])
  }

  /** Rename the entry `from` of a directory over its entry `to`. */
  function RenameIn(d: Disk, dir: Ino, from: Name, to: Name): Disk
    requires from in Entries(d.nodes, dir)
  {
    d.(nodes := d.nodes[dir := Dir((Entries(d.nodes, dir) - {from})[to := Entries(d.nodes, dir)[from]])])
  }

  function Unlink(d: Disk, dir: Ino, n: Name): Disk {
    d.(nodes := d.nodes[dir := Dir(Entries(d.nodes, dir) - {n})])
  }

  /** A temp file filled and renamed over a leaf is a new file put at the leaf. */
  lemma ReplaceIsPut(d: Disk, dir: Ino, tmp: Name, leaf: Name, data: Bytes)
    requires Ready(d) && IsDir(d.nodes, dir) && tmp !in Entries(d.nodes, dir)
    ensures
      var e := Fill(Put(d, dir, tmp, File([])), d.next, data);
      && e == Put(d, dir, tmp, File(data))
      && tmp in Entries(e.nodes, dir)
      && RenameIn(e, dir, tmp, leaf) == Put(d, dir, leaf, File(data))
      && Unlink(e, dir, tmp) == Orphan(d, data)
  {
    var entries := Entries(d.nodes, dir);
    assert entries[tmp := d.next] - {tmp} == entries;
    var e := Fill(Put(d, dir, tmp, File([])), d.next, data);
    assert e.nodes == Put(d, dir, tmp, File(data)).nodes;
    assert Unlink(e, dir, tmp).nodes == Orphan(d, data).nodes;
  }

  /** The only name in use in `after` that was not in use in its directory before is the name `n` of `dir`. */
  ghost predicate OnlyNew(before: Nodes, after: Nodes, dir: Ino, n: Name) {
    forall k, m {:trigger Names(after, k, m)} | Names(after, k, m) :: Names(before, k, m) || (k == dir && m == n)
  }

  /** Every name in use in `after` was in use somewhere before. */
  ghost predicate Clean(before: Nodes, after: Nodes) {
    forall k, m {:trigger Names(after, k, m)} | Names(after, k, m) :: exists i :: Names(before, i, m)
  }

  ghost predicate Tidy(stuck: bool, before: Nodes, after: Nodes) {
    !stuck ==> Clean(before, after)
  }

  lemma StillClean(nodes: Nodes)
    ensures Clean(nodes, nodes)
  {
  }

  lemma CleanTrans(a: Nodes, b: Nodes, c: Nodes)
    requires Clean(a, b) && Clean(b, c)
    ensures Clean(a, c)
  {
  }

  /** A name that a source directory has is new in a destination directory. */
  lemma NewIsClean(before: Nodes, after: Nodes, cs: Ino, cd: Ino, n: Name)
    requires Names(before, cs, n) && OnlyNew(before, after, cd, n)
    ensures Clean(before, after)
  {
  }

  lemma PutIsNew(d: Disk, dir: Ino, n: Name, node: Node)
    requires Ready(d) && (node.Dir? ==> node.entries == map[])
    ensures OnlyNew(d.nodes, Put(d, dir, n, node).nodes, dir, n)
  {
  }

  /** The box tree on disk. */
  class BoxDisk {
    var disk: Disk
    /** Every state the disk has been in, one for each call that changed it. */
    ghost var steps: seq<Nodes>
    /** Descriptors open now. */
    var fds: int
    /** Some call has failed: any may. */
    ghost var failed: bool
    /** A removal has: of a temp entry, or of an entry that was to go. */
    ghost var stuck: bool
    /** The directories that can be opened, but whose listing raises. */
    const unlistable: set<Ino>
    const list: Listing
    /** A temp name for a leaf: one the directory does not use. */
    const tmpName: (Name, set<Name>) -> Name

    ghost predicate Valid()
      reads this
    {
      Lists(list) && forall n, used :: tmpName(n, used) !in used
    }

    /** Only directories that can be listed were entered, and only one that cannot be left its descriptors. */
    ghost predicate ListedRight(plan: Plan, r: NameResult) {
      && (r.Entered? ==> r.src !in unlistable)
      && (r == Failed(true) ==> plan.Enter? && plan.src in unlistable)
    }

    constructor (disk: Disk, list: Listing, unlistable: set<Ino>, tmpName: (Name, set<Name>) -> Name)
      requires Lists(list) && forall n, used :: tmpName(n, used) !in used
      ensures Valid() && this.disk == disk && this.unlistable == unlistable && fds == 0 && !failed && !stuck
    {
      this.disk, this.steps, this.fds, this.failed, this.stuck := disk, [], 0, false, false;
      this.list, this.unlistable, this.tmpName := list, unlistable, tmpName;
    }

    /** One call that changes the disk. */
    method Write(d: Disk)
      modifies this`disk, this`steps
      ensures disk == d && steps == old(steps) + [d.nodes]
    {
      disk, steps := d, steps + [d.nodes];
    }

    /** Write a temp file in `dir`, then rename it over `leaf`.  A failure at any call leaves the
        leaf as it was, and the temp file is removed, unless that fails too. */
    method ReplaceAt(dir: Ino, leaf: Name, data: Bytes, ghost g: Scope) returns (ok: bool)
      requires Valid() && Growing(g, disk) && Target(g, disk, dir)
      requires leaf in Entries(disk.nodes, dir) ==> Replaceable(g, disk, dir, leaf)
      modifies this`disk, this`steps, this`failed, this`stuck
      ensures Within(g, disk, old(steps), steps) && KeepsDirs(old(disk), disk)
      ensures ok ==> disk == Put(old(disk), dir, leaf, File(data))
      ensures !ok ==> EntriesKept(old(disk), disk, dir) && failed
      ensures !ok && !stuck ==> Entries(disk.nodes, dir) == old(Entries(disk.nodes, dir))
      ensures (old(stuck) ==> stuck) && (!stuck ==> OnlyNew(old(disk.nodes), disk.nodes, dir, leaf))
    {
      ghost var d := disk;
      if * {
        failed := true;
        return false;
      }
      var tmp := tmpName(leaf, Entries(disk.nodes, dir).Keys);
      var ino := disk.next;
      GrowPut(g, d, dir, tmp, File([]));
      Write(Put(disk, dir, tmp, File([])));
      ok := FillTemp(d, dir, tmp, ino, leaf, data, g);
    }

    /** ... fill it, and rename it; else take it away again. */
    method FillTemp(ghost d: Disk, dir: Ino, tmp: Name, ino: Ino, leaf: Name, data: Bytes, ghost g: Scope)
      returns (ok: bool)
      requires Growing(g, d) && Growing(g, disk) && Target(g, d, dir) && KeepsDirs(d, disk)
      requires leaf in Entries(d.nodes, dir) ==> Replaceable(g, d, dir, leaf)
      requires tmp !in Entries(d.nodes, dir) && ino == d.next && disk == Put(d, dir, tmp, File([]))
      modifies this`disk, this`steps, this`failed, this`stuck
      ensures Growing(g, disk) && KeepsDirs(d, disk) && Logged(g, old(steps), steps)
      ensures if ok then disk == Put(d, dir, leaf, File(data)) else EntriesKept(d, disk, dir) && failed
      ensures old(stuck) ==> stuck
      ensures !stuck ==>
                OnlyNew(d.nodes, disk.nodes, dir, leaf) && (ok || Entries(disk.nodes, dir) == Entries(d.nodes, dir))
    {
      ghost var wrote: Bytes := [];
      if * {
        wrote := data;
        ReplaceIsPut(d, dir, tmp, leaf, data);
        GrowPut(g, d, dir, tmp, File(data));
        Write(Fill(disk, ino, data));
        if * {
          GrowPut(g, d, dir, leaf, File(data));
          PutIsNew(d, dir, leaf, File(data));
          Write(RenameIn(disk, dir, tmp, leaf));
          return true;
        }
      }
      DropTemp(d, dir, tmp, leaf, wrote, g);
      return false;
    }

    /** Some call failed: take the temp file away again; if that fails too, it is ignored. */
    method DropTemp(ghost d: Disk, dir: Ino, tmp: Name, ghost leaf: Name, ghost wrote: Bytes, ghost g: Scope)
      requires Growing(g, d) && Growing(g, disk) && Target(g, d, dir)
      requires tmp !in Entries(d.nodes, dir) && disk == Put(d, dir, tmp, File(wrote)) && KeepsDirs(d, disk)
      modifies this`disk, this`steps, this`failed, this`stuck
      ensures Growing(g, disk) && KeepsDirs(d, disk) && Logged(g, old(steps), steps)
      ensures EntriesKept(d, disk, dir) && failed && (old(stuck) ==> stuck)
      ensures !stuck ==> OnlyNew(d.nodes, disk.nodes, dir, leaf) && Entries(disk.nodes, dir) == Entries(d.nodes, dir)
    {
      failed := true;
      if * {
        stuck := true;
        return;
      }
      ReplaceIsPut(d, dir, tmp, tmp, wrote);
      GrowOrphan(g, d, wrote);
      Write(Unlink(disk, dir, tmp));
    }

    /** Open a source file holding `data` and copy it over the entry `n`. */
    method CopyFile(cd: Ino, n: Name, data: Bytes, ghost g: Scope) returns (ok: bool)
      requires Valid() && Growing(g, disk) && Target(g, disk, cd)
      requires n in Entries(disk.nodes, cd) ==> Replaceable(g, disk, cd, n)
      modifies this`disk, this`steps, this`fds, this`failed, this`stuck
      ensures Within(g, disk, old(steps), steps) && KeepsDirs(old(disk), disk) && fds == old(fds)
      ensures (old(stuck) ==> stuck) && (!stuck ==> OnlyNew(old(disk.nodes), disk.nodes, cd, n))
      ensures if ok then disk == Put(old(disk), cd, n, File(data)) else failed
    {
      if * {
        failed := true;
        return false;
      }
      fds := fds + 1;
      ok := ReplaceAt(cd, n, data, g);
      fds := fds - 1;
    }

    /** Close the descriptors of the frames the copy owns: two each. */
    method CloseAll(stack: seq<Frame>)
      requires Owning(stack)
      modifies this`fds
      ensures fds == old(fds) - Held(stack)
    {
      var k := 0;
      while k < |stack|
        invariant 0 <= k <= |stack|
        invariant fds == old(fds) - if k == 0 then 0 else 2 * (k - 1)
      {
        if stack[k].own {
          fds := fds - 2;
        }
        k := k + 1;
      }
    }

    /** Copy the one listed name `n` of `cs` into `cd`, or open it when it is a directory to enter. */
    method CopyName(mode: Mode, open: set<Ino>, cs: Ino, cd: Ino, n: Name, path: Path,
                    ghost g: Scope)
      returns (r: NameResult)
      requires Valid() && Growing(g, disk) && Scoped(g) && g.mode == mode && May(g, disk, cs, cd, open)
      modifies this`disk, this`steps, this`fds, this`failed, this`stuck
      ensures Within(g, disk, old(steps), steps) && KeepsDirs(old(disk), disk)
      ensures PlanDone(old(disk), disk, PlanFor(old(disk.nodes), mode, open, cs, cd, n), cd, n, path, r)
      ensures (old(stuck) ==> stuck) && Tidy(stuck, old(disk.nodes), disk.nodes)
      ensures r.Entered? ==> r.src !in open && May(g, disk, r.src, r.dst, open + {r.src})
      ensures fds == old(fds) + Kept(r)
      ensures ListedRight(PlanFor(old(disk.nodes), mode, open, cs, cd, n), r) && (r == Failed(false) ==> failed)
    {
      var nodes := disk.nodes;
      var fails := *;
      if fails || n !in Entries(nodes, cs) || Entries(nodes, cs)[n] !in nodes {
        failed := true;
        return Failed(false);
      }
      var st := Entries(nodes, cs)[n];
      var linked := mode.follow && nodes[st].Link?;
      if linked {
        if st !in mode.resolve || mode.resolve[st] !in nodes {
          return Done([path + [n]]);
        }
        st := mode.resolve[st];
      }
      var there := if n in Entries(nodes, cd) then Some(Entries(nodes, cd)[n]) else None;
      if there.Some? && IsLink(nodes, there.value) {
        return Done([path + [n]]);
      }
      if there.Some? {
        MeetsStill(g, disk, cs, cd, n, open);
      }
      r := CopyKind(mode, open, cd, n, st, there, path, g);
      if !stuck {
        NewIsClean(nodes, disk.nodes, cs, cd, n);
      }
    }

    /** ... read from `st`, with `there` in its place. */
    method CopyKind(mode: Mode, open: set<Ino>, cd: Ino, n: Name, st: Ino, there: Option<Ino>, path: Path,
                    ghost g: Scope)
      returns (r: NameResult)
      requires Valid() && Growing(g, disk) && Target(g, disk, cd) && g.mode == mode && st in disk.nodes
      requires there == if n in Entries(disk.nodes, cd) then Some(Entries(disk.nodes, cd)[n]) else None
      requires n in Entries(disk.nodes, cd) ==> Allowed(g, disk, cd, n, open, st)
      modifies this`disk, this`steps, this`fds, this`failed, this`stuck
      ensures Within(g, disk, old(steps), steps) && KeepsDirs(old(disk), disk)
      ensures PlanDone(old(disk), disk, PlanKind(old(disk.nodes), mode, open, st, there), cd, n, path, r)
      ensures (old(stuck) ==> stuck) && (!stuck ==> OnlyNew(old(disk.nodes), disk.nodes, cd, n))
      ensures r.Entered? ==> r.src !in open && May(g, disk, r.src, r.dst, open + {r.src})
      ensures fds == old(fds) + Kept(r)
      ensures ListedRight(PlanKind(old(disk.nodes), mode, open, st, there), r) && (r == Failed(false) ==> failed)
    {
      var nodes := disk.nodes;
      match nodes[st]
      case Link(text) =>
        if mode.skipLinks || there.Some? {
          return Done([path + [n]]);
        }
        if * {
          failed := true;
          return Failed(false);
        }
        GrowPut(g, disk, cd, n, Link(text));
        PutIsNew(disk, cd, n, Link(text));
        Write(Put(disk, cd, n, Link(text)));
        return Done([]);
      case Dir(_) =>
        if st == mode.avoid {
          return Done([]);
        }
        if there.Some? && !IsDir(nodes, there.value) {
          return Done([path + [n]]);
        }
        if st in open {
          return Done([path + [n]]);
        }
        r := EnterDir(cd, n, st, open, g);
      case File(data) =>
        if there.Some? && !IsFile(nodes, there.value) {
          return Done([path + [n]]);
        }
        var ok := CopyFile(cd, n, data, g);
        return if ok then Done([]) else Failed(false);
      case Special =>
        return Done([]);
    }

    /** Open the source directory `st`, and the destination's `n`, made if missing; then list `st`.
        A listing that fails leaves both descriptors open. */
    method EnterDir(cd: Ino, n: Name, st: Ino, ghost open: set<Ino>, ghost g: Scope)
      returns (r: NameResult)
      requires Growing(g, disk) && Target(g, disk, cd)
      requires IsDir(disk.nodes, st) && st != g.mode.avoid && st !in open
      requires n in Entries(disk.nodes, cd) ==>
                 IsDir(disk.nodes, Entries(disk.nodes, cd)[n]) && Allowed(g, disk, cd, n, open, st)
      modifies this`disk, this`steps, this`fds, this`failed
      ensures Within(g, disk, old(steps), steps) && KeepsDirs(old(disk), disk)
      ensures !r.Done? && fds == old(fds) + Kept(r) && (r == Failed(false) ==> failed)
      ensures OnlyNew(old(disk.nodes), disk.nodes, cd, n)
      ensures ListedRight(Enter(st), r)
      ensures r.Entered? ==>
                r.src == st && EnteredAt(old(disk), disk, cd, n, r.dst) && May(g, disk, st, r.dst, open + {st})
    {
      ghost var d := disk;
      if * {
        failed := true;
        return Failed(false);
      }
      fds := fds + 1;
      if n !in Entries(disk.nodes, cd) {
        if * {
          failed := true;
          fds := fds - 1;
          return Failed(false);
        }
        GrowPut(g, disk, cd, n, Dir(map[]));
        PutIsNew(disk, cd, n, Dir(map[]));
        Write(Put(disk, cd, n, Dir(map[])));
      }
      if * {
        failed := true;
        fds := fds - 1;
        return Failed(false);
      }
      fds := fds + 1;
      assert Names(disk.nodes, cd, n) && disk == WithDir(d, cd, n);
      if st in unlistable {
        return Failed(true);
      }
      return Entered(st, Entries(disk.nodes, cd)[n]);
    }

    /** The top directory's names are used up: set its mode and times, close it, go back to the one
        below. */
    method LeaveTop(mode: Mode, open: set<Ino>, stack: seq<Frame>, ghost reading: set<Ino>, ghost reach: set<Ino>,
                    ghost g: Scope)
      returns (r: StepResult)
      requires stack != [] && stack[|stack| - 1].names == []
      requires Running(g, disk, reading, open, stack) && g.mode == mode
      modifies this`fds, this`failed
      ensures r.Stopped? ==> failed
      ensures r.Stopped? ==> fds == old(fds) - Held(stack) && !r.unlisted
      ensures r.Moved? ==>
        && fds - Held(r.stack) == old(fds) - Held(stack) && r.open <= open
        && Turned(g, disk, disk, list, reach, reading, open, stack, r)
    {
      var below, top := stack[..|stack| - 1], stack[|stack| - 1];
      assert stack == below + [top];
      FinishPop(disk, mode, list, reach, open, below, top);
      if !top.own {
        return Moved(open, below, []);
      }
      fds := fds - 2;
      if * {
        failed := true;
        CloseAll(below);
        return Stopped(false);
      }
      return Moved(open - {top.cs}, below, []);
    }

    /** The next name of the top directory. */
    method CopyTop(mode: Mode, open: set<Ino>, stack: seq<Frame>, ghost reading: set<Ino>, ghost reach: set<Ino>,
                   ghost g: Scope)
      returns (r: StepResult)
      requires Valid() && Running(g, disk, reading, open, stack) && Scoped(g) && g.mode == mode
      requires stack != [] && stack[|stack| - 1].names != []
      requires FinishStack(disk, mode, list, reach, open, stack).Out?
      modifies this`disk, this`steps, this`fds, this`failed, this`stuck
      ensures Within(g, disk, old(steps), steps)
      ensures (old(stuck) ==> stuck) && Tidy(stuck, old(disk.nodes), disk.nodes)
      ensures r.Stopped? ==> fds == old(fds) - Held(stack) + if r.unlisted then 2 else 0
      ensures r == Stopped(false) ==> failed
      ensures r == Stopped(true) ==>
                FinishStack(old(disk), mode, list, reach, open, stack).entered * unlistable != {}
      ensures r.Moved? ==>
        && fds - Held(r.stack) == old(fds) - Held(stack) && (r.open - open) !! unlistable
        && Turned(g, old(disk), disk, list, reach, reading, open, stack, r)
    {
      var top := stack[|stack| - 1];
      ghost var d := disk;
      var one := CopyName(mode, open, top.cs, top.cd, top.names[0], top.path, g);
      if one.Failed? {
        r := AfterFailure(one, open, stack, d, reach, g);
      } else if one.Done? {
        r := AfterLeaf(one, open, stack, d, reading, reach, g);
      } else {
        r := AfterEnter(one, open, stack, d, reading, reach, g);
      }
    }

    /** ... failed: close what is open. */
    method AfterFailure(one: NameResult, ghost open: set<Ino>, stack: seq<Frame>, ghost d: Disk,
                        ghost reach: set<Ino>, ghost g: Scope)
      returns (r: StepResult)
      requires one.Failed? && stack != [] && stack[|stack| - 1].names != [] && Owning(stack)
      requires FinishStack(d, g.mode, list, reach, open, stack).Out?
      requires
        var top := stack[|stack| - 1];
        ListedRight(PlanFor(d.nodes, g.mode, open, top.cs, top.cd, top.names[0]), one)
      modifies this`fds
      ensures r == Stopped(one.unlisted) && fds == old(fds) - Held(stack)
      ensures one.unlisted ==> FinishStack(d, g.mode, list, reach, open, stack).entered * unlistable != {}
    {
      ghost var top := stack[|stack| - 1];
      if one.unlisted {
        ghost var i := PlanFor(d.nodes, g.mode, open, top.cs, top.cd, top.names[0]).src;
        PlanUnopened(d.nodes, g.mode, open, top.cs, top.cd, top.names[0], i);
        OwesEnter(d, g.mode, list, reach, open, stack, i);
        assert i in FinishStack(d, g.mode, list, reach, open, stack).entered * unlistable;
      }
      AdvancedOwns(stack);
      CloseAll(Advanced(stack));
      r := Stopped(one.unlisted);
    }

    /** ... was not entered: go on with the next. */
    method AfterLeaf(one: NameResult, open: set<Ino>, stack: seq<Frame>, ghost d: Disk, ghost reading: set<Ino>,
                     ghost reach: set<Ino>, ghost g: Scope)
      returns (r: StepResult)
      requires one.Done? && Running(g, d, reading, open, stack) && Growing(g, disk) && KeepsDirs(d, disk)
      requires stack != [] && stack[|stack| - 1].names != []
      requires TopDone(g, d, disk, open, stack[|stack| - 1], one)
      ensures r.Moved? && Held(r.stack) == Held(stack) && r.open == open
      ensures Turned(g, d, disk, list, reach, reading, open, stack, r)
    {
      LeafTurn(g, d, disk, list, reach, reading, open, stack);
      r := Moved(open, Advanced(stack), one.report);
    }

    /** ... is a directory just opened: go on in it. */
    method AfterEnter(one: NameResult, open: set<Ino>, stack: seq<Frame>, ghost d: Disk, ghost reading: set<Ino>,
                      ghost reach: set<Ino>, ghost g: Scope)
      returns (r: StepResult)
      requires one.Entered? && Running(g, d, reading, open, stack) && Growing(g, disk) && KeepsDirs(d, disk)
      requires stack != [] && stack[|stack| - 1].names != []
      requires FinishStack(d, g.mode, list, reach, open, stack).Out?
      requires TopDone(g, d, disk, open, stack[|stack| - 1], one)
      ensures r.Moved? && Held(r.stack) == Held(stack) + 2 && r.open == open + {one.src}
      ensures Turned(g, d, disk, list, reach, reading, open, stack, r)
    {
      var top := stack[|stack| - 1];
      var names := list(one.src, Entries(disk.nodes, one.src).Keys);
      var frame := Frame(one.src, one.dst, names, top.path + [top.names[0]], true);
      EnterTurn(g, d, disk, list, reach, reading, open, stack, frame);
      r := Moved(open + {one.src}, Advanced(stack) + [frame], []);
    }

    /** One turn of the loop: what it reports, and what is still to be done, add up as before. */
    method Turn(mode: Mode, open: set<Ino>, stack: seq<Frame>, ghost skipped: seq<Path>, ghost entered: set<Ino>,
                ghost goal: Out, ghost reading: set<Ino>, ghost reach: set<Ino>, ghost g: Scope, ghost start: Nodes)
      returns (r: StepResult)
      requires Tidy(stuck, start, disk.nodes)
      requires Valid() && Running(g, disk, reading, open, stack) && Scoped(g) && g.mode == mode
      requires stack != [] && Owes(FinishStack(disk, mode, list, reach, open, stack), goal, skipped, entered)
      modifies this`disk, this`steps, this`fds, this`failed, this`stuck
      ensures Within(g, disk, old(steps), steps)
      ensures (old(stuck) ==> stuck) && Tidy(stuck, start, disk.nodes)
      ensures r.Stopped? ==> fds == old(fds) - Held(stack) + if r.unlisted then 2 else 0
      ensures if r.Moved? then (r.open - open) !! unlistable
              else if r.unlisted then goal.entered * unlistable != {} else failed
      ensures r.Moved? ==>
        && Running(g, disk, reading, r.open, r.stack)
        && fds - Held(r.stack) == old(fds) - Held(stack)
        && Owes(FinishStack(disk, mode, list, reach, r.open, r.stack), goal, skipped + r.report,
                entered + (r.open - open))
        && FinishStack(disk, mode, list, reach, r.open, r.stack).steps
           < FinishStack(old(disk), mode, list, reach, open, stack).steps
    {
      if stack[|stack| - 1].names == [] {
        r := LeaveTop(mode, open, stack, reading, reach, g);
      } else {
        ghost var before := disk.nodes;
        r := CopyTop(mode, open, stack, reading, reach, g);
        if !stuck {
          CleanTrans(start, before, disk.nodes);
        }
      }
      if r.Moved? {
        ReportLater(skipped, r.report, FinishStack(disk, mode, list, reach, r.open, r.stack).skipped);
      }
    }

    /** The loop over the stack of open directories: it delivers what the recursion from its
        first frame delivers, whatever fails on the way leaves only growth behind, and every
        descriptor it opened is closed, but for two when it enters a directory that cannot be listed. */
    method CopyStack(mode: Mode, reading: set<Ino>, first: Frame, ghost reach: set<Ino>, ghost g: Scope)
      returns (r: CopyResult)
      requires Valid() && Growing(g, disk) && Scoped(g) && g.mode == mode
      requires !first.own && May(g, disk, first.cs, first.cd, reading)
      requires CopyNames(disk, mode, list, reach, reading, first.cs, first.cd, first.names, first.path).Out?
      modifies this`disk, this`steps, this`fds, this`failed, this`stuck
      ensures Within(g, disk, old(steps), steps)
      ensures (old(stuck) ==> stuck) && Tidy(stuck, old(disk.nodes), disk.nodes)
      ensures
        var goal := CopyNames(old(disk), mode, list, reach, reading, first.cs, first.cd, first.names, first.path);
        && (r.Copied? ==> disk == goal.disk && r.skipped == goal.skipped)
        && (if r.Copied? then goal.entered !! unlistable
            else if r.unlisted then goal.entered * unlistable != {} else failed)
      ensures fds == old(fds) + if r == Raised(true) then 2 else 0
    {
      ghost var goal := CopyNames(disk, mode, list, reach, reading, first.cs, first.cd, first.names, first.path);
      var open, stack, skipped: seq<Path> := reading, [first], [];
      ghost var entered: set<Ino> := {};
      FirstFrame(g, disk, reading, first);
      FinishFirst(disk, mode, list, reach, reading, first);
      ghost var d := disk;
      StillClean(d.nodes);
      while stack != []
        invariant (old(stuck) ==> stuck) && Tidy(stuck, d.nodes, disk.nodes)
        invariant Logged(g, old(steps), steps) && Running(g, disk, reading, open, stack)
        invariant fds == old(fds) + Held(stack)
        invariant Owes(FinishStack(disk, mode, list, reach, open, stack), goal, skipped, entered)
        invariant entered !! unlistable
        decreases FinishStack(disk, mode, list, reach, open, stack).steps
      {
        var step := Turn(mode, open, stack, skipped, entered, goal, reading, reach, g, d.nodes);
        match step
        case Stopped(unlisted) =>
          return Raised(unlisted);
        case Moved(open', stack', report) =>
          entered := entered + (open' - open);
          open, stack, skipped := open', stack', skipped + report;
      }
      return Copied(skipped);
    }

    /** Copy the entries of the directory `sfd` into the directory `dfd`.  `kids` is the
        destination's tree before, `read` the source as the copy reads it, and `reach` the
        directories the source walk can reach.  Without a failed call, two descriptors stay open if and only if
        a directory it enters cannot be listed. */
    method CopyEntries(mode: Mode, sfd: Ino, dfd: Ino, src: Path, ghost reach: set<Ino>, ghost read: Src,
                       ghost kids: map<Name, Tree>)
      returns (r: CopyResult)
      requires Valid()
      requires Starts(disk, mode, reach, {sfd}, sfd, dfd, list(sfd, Entries(disk.nodes, sfd).Keys), read, kids)
      modifies this`disk, this`steps, this`fds, this`failed, this`stuck
      ensures (old(stuck) ==> stuck) && Tidy(stuck, old(disk.nodes), disk.nodes)
      ensures Within(old(ScopeOf(disk.nodes, mode, reach, dfd, kids, read)), disk, old(steps), steps)
      ensures r.Copied? ==> Became(old(disk), disk, dfd, kids, MergedKids(read, kids, mode.skipLinks))
      ensures r.Copied? ==> Reports(r.skipped, read, Some(DirT(kids)), mode.skipLinks, src)
      ensures fds == old(fds) + if r == Raised(true) then 2 else 0
      ensures EndsAs(r, sfd in unlistable, old(EntersAny(disk.nodes, mode, reach, sfd, kids, unlistable)), failed)
    {
      ghost var d, g := disk, ScopeOf(disk.nodes, mode, reach, dfd, kids, read);
      EntriesStart(d, mode, list, reach, sfd, dfd, read, kids);
      StillClean(d.nodes);
      if sfd in unlistable {
        return Raised(false);
      }
      var names := list(sfd, Entries(disk.nodes, sfd).Keys);
      EntriesMerge(d, mode, list, reach, sfd, dfd, names, src, read, kids);
      EntriesEnter(d, mode, list, reach, sfd, dfd, src, read, kids, unlistable);
      r := CopyStack(mode, {sfd}, Frame(sfd, dfd, names, src, false), reach, g);
    }
  }

  // --- a copy that leaves descriptors open ---------------------------------------------

  /** The directory 1 holds the empty directory 2; 3 is an empty destination. */
  const LEAKY: Disk := Disk(map[1 := Dir(map["a" := 2]), 2 := Dir(map[]), 3 := Dir(map[])], 4)

  const PLAIN: Mode := Mode(false, false, 3, map[])

  /** A copy of 1 into 3 starts there, and enters 2. */
  lemma LeakyStarts(list: Listing)
    requires Lists(list)
    ensures Starts(LEAKY, PLAIN, {1, 2}, {1}, 1, 3, list(1, Entries(LEAKY.nodes, 1).Keys),
                   SDir(map["a" := SDir(map[])]), map[])
    ensures EntersAny(LEAKY.nodes, PLAIN, {1, 2}, 1, map[], {2})
  {
    var nodes := LEAKY.nodes;
    assert Read(nodes, PLAIN, {1, 2}, {1}, 2) == SDir(map[]);
    forall k ensures Owns(nodes, 3, DirT(map[]), k) <==> k == 3 {
    }
    assert Enters(nodes, PLAIN, {1, 2}, {1}, Entries(nodes, 1)["a"], Get(map[], "a"), 2);
    assert EntersBelow(nodes, PLAIN, {1, 2}, {1}, 1, map[], 2);
  }

  /** If 2 cannot be listed, that copy leaves its two descriptors open, unless a call fails before. */
  method LeakyCopy(list: Listing, tmpName: (Name, set<Name>) -> Name) returns (b: BoxDisk, r: CopyResult)
    requires Lists(list) && forall n, used :: tmpName(n, used) !in used
    ensures fresh(b) && !r.Copied? && b.fds == (if r == Raised(true) then 2 else 0)
    ensures !b.failed ==> r == Raised(true)
  {
    LeakyStarts(list);
    b := new BoxDisk(LEAKY, list, {2}, tmpName);
    r := b.CopyEntries(PLAIN, 1, 3, [], {1, 2}, SDir(map["a" := SDir(map[])]), map[]);
  }
}
