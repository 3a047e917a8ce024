/** The loop of a box that fronts an editor panel: it starts no agent of its own unless it sees the panel's
    die, and tears the box down when it sees no surface and no agent left. */
module Panel {
  import opened Collections
  import opened Options
  import opened Lifecycle
  import opened Markers
  import opened WatchLoop

  datatype PanelState = NoAgent | AgentAlive | AgentDead

  datatype PanelAction = Stay | SelfHealCli | Teardown

  function DecidePanel(tmuxAlive: bool, panel: PanelState, vscodeServer: bool, anyAttached: bool,
                       seenSurface: bool): PanelAction {
    if tmuxAlive || panel.AgentAlive? then Stay
    else if panel.AgentDead? && vscodeServer then SelfHealCli
    else if anyAttached then Stay
    else if seenSurface then Teardown
    else Stay
  }

  function StateOf(own: set<int>, live: set<int>, stale: set<int>): PanelState {
    if live - own != {} then AgentAlive else if stale - own != {} then AgentDead else NoAgent
  }

  /** What one pass meets, in order; `None`: the probe raised.  Markers are written before each of the
      two scans of a pass: the one the decision uses, and the one that reports newcomers. */
  datatype Glance = Glance(
    reaped: bool,
    cur: Option<AttachState>,
    tmux: Option<bool>,
    own: Option<set<int>>, written: set<int>, look: Look,
    ownAgain: Option<set<int>>, writtenAgain: set<int>, lookAgain: Look,
    reported: bool,
    tries: seq<Try>)

  predicate Sees(t: Glance) {
    t.reaped && t.cur.Some?
  }

  predicate ScansOnce(t: Glance) {
    Sees(t) && t.tmux.Some? && t.own.Some?
  }

  predicate ScansTwice(t: Glance) {
    ScansOnce(t) && t.ownAgain.Some?
  }

  /** Nothing raised before the decision. */
  predicate Decides(t: Glance) {
    ScansTwice(t) && t.reported
  }

  // --- the markers directory at each pass ----------------------------------------------

  function AtFirstScan(pids: set<int>, t: Glance): set<int> {
    pids + t.written
  }

  function AtSecondScan(pids: set<int>, t: Glance): set<int> {
    var dir := AtFirstScan(pids, t);
    (if ScansOnce(t) then dir - Stale(dir, t.look) else dir) + t.writtenAgain
  }

  function AfterPass(pids: set<int>, t: Glance): set<int> {
    var dir := AtSecondScan(pids, t);
    if ScansTwice(t) then dir - Stale(dir, t.lookAgain) else dir
  }

  /** The directory before pass `k`. */
  function DirAt(pids: set<int>, ticks: seq<Glance>, k: nat): set<int>
    requires k <= |ticks|
  {
    if k == 0 then pids else AfterPass(DirAt(pids, ticks, k - 1), ticks[k - 1])
  }

  /** The panel agent as the first scan of a pass reports it. */
  function PanelIn(dir: set<int>, t: Glance): PanelState
    requires t.own.Some?
  {
    StateOf(t.own.value, Live(AtFirstScan(dir, t), t.look), Stale(AtFirstScan(dir, t), t.look))
  }

  // --- what a run has to be ------------------------------------------------------------

  predicate ShowsSurface(t: Glance) {
    Sees(t) && AnyAttached(t.cur.value)
  }

  /** A surface was attached at the start, or at pass `k` or before. */
  predicate SeenBy(start: AttachState, ticks: seq<Glance>, k: nat) {
    AnyAttached(start) || exists j :: 0 <= j <= k && j < |ticks| && ShowsSurface(ticks[j])
  }

  /** The first scan reports the panel agent dead and no other alive, the editor is connected, and no
      command-line agent is alive. */
  predicate NeedsCli(dir: set<int>, t: Glance) {
    Decides(t) && !t.tmux.value && PanelIn(dir, t).AgentDead? && t.cur.value.vscodeServer
  }

  /** No surface and no command-line agent is left, and the first scan reports no panel agent alive. */
  predicate AllGone(dir: set<int>, t: Glance) {
    Decides(t) && !t.tmux.value && !PanelIn(dir, t).AgentAlive? && !AnyAttached(t.cur.value)
  }

  /** What a pass has to do, if a surface was seen by it or not: a command-line agent is started exactly
      where one is needed, the box torn down exactly where all is gone and a surface was there before, and
      a snapshot committed unless the pass raised, tore the box down, or its restart failed. */
  predicate DeedRight(dir: set<int>, t: Glance, seen: bool, deed: Deed) {
    && (deed.restarted <==> NeedsCli(dir, t))
    && (deed.closed <==> AllGone(dir, t) && seen)
    && deed.committed ==
       (if Decides(t) && !deed.closed && (deed.restarted ==> HealOf(t.tries).Healed?) then t.cur else None)
  }

  predicate DeedRightAt(pids: set<int>, start: AttachState, ticks: seq<Glance>, k: nat, deed: Deed)
    requires k < |ticks|
  {
    DeedRight(DirAt(pids, ticks, k), ticks[k], SeenBy(start, ticks, k), deed)
  }

  ghost predicate DeedsRight(pids: set<int>, start: AttachState, ticks: seq<Glance>, deeds: seq<Deed>)
    requires |deeds| <= |ticks|
  {
    forall k | 0 <= k < |deeds| :: DeedRightAt(pids, start, ticks, k, deeds[k])
  }

  /** The snapshot a pass compares, as soon as it is taken: also where the pass raises later. */
  function Compared(t: Glance): Option<AttachState> {
    if Sees(t) then t.cur else None
  }

  function AllCompared(ticks: seq<Glance>): seq<Option<AttachState>> {
    seq(|ticks|, k requires 0 <= k < |ticks| => Compared(ticks[k]))
  }

  function AllTries(ticks: seq<Glance>): seq<seq<Try>> {
    seq(|ticks|, k requires 0 <= k < |ticks| => ticks[k].tries)
  }

  /** Everything a run did was right. */
  ghost predicate RunRight(pids: set<int>, start: AttachState, ticks: seq<Glance>, deeds: seq<Deed>, done: bool)
    requires |deeds| <= |ticks|
  {
    && HooksRight(start, deeds, AllCompared(ticks))
    && DeedsRight(pids, start, ticks, deeds)
    && LeavesRight(AllTries(ticks), deeds, done)
  }

  // --- the loop ------------------------------------------------------------------------

  /** Where the loop stands. */
  ghost predicate Standing(pids: set<int>, start: AttachState, ticks: seq<Glance>, deeds: seq<Deed>,
                           dir: set<int>, prev: AttachState, seen: bool)
    requires |deeds| <= |ticks|
  {
    && RunRight(pids, start, ticks, deeds, false)
    && dir == DirAt(pids, ticks, |deeds|) && prev == LastCommitted(start, deeds, |deeds|)
    && (seen <==> AnyAttached(start) || exists j :: 0 <= j < |deeds| && ShowsSurface(ticks[j]))
  }

  /** `start`: the snapshot before the loop (nothing attached if it raised); `ticks`: the passes until
      the stop flag is seen; `done`: the loop returns (code 0) before that. */
  method RunPanelWatch(dir: MarkerDir, start: AttachState, ticks: seq<Glance>) returns (done: bool, deeds: seq<Deed>)
    modifies dir
    ensures |deeds| <= |ticks| && (!done ==> |deeds| == |ticks|) && (done ==> deeds != [])
    ensures RunRight(old(dir.pids), start, ticks, deeds, done)
    ensures dir.pids == DirAt(old(dir.pids), ticks, |deeds|)
  {
    ghost var pids := dir.pids;
    var prev, seen := start, AnyAttached(start);
    deeds := [];
    while |deeds| < |ticks|
      invariant |deeds| <= |ticks| && Standing(pids, start, ticks, deeds, dir.pids, prev, seen)
    {
      var t := ticks[|deeds|];
      ghost var before := dir.pids;
      var deed, seen', out := Pass(dir, t, prev, seen);
      PassKeeps(pids, start, ticks, deeds, before, prev, seen, deed, seen', out);
      deeds, seen := deeds + [deed], seen';
      prev := if deed.committed.Some? then deed.committed.value else prev;
      if out { return true, deeds; }
    }
    done := false;
  }

  /** What one pass does, from the latches and the markers it starts with. */
  predicate PassRight(dir: set<int>, t: Glance, prev: AttachState, before: bool, deed: Deed, seen: bool, out: bool) {
    && (seen <==> before || ShowsSurface(t))
    && (deed.hook <==> Sees(t) && Lost(prev, t.cur.value))
    && DeedRight(dir, t, seen, deed)
    && (out <==> Leaves(t.tries, deed))
  }

  lemma PassKeeps(pids: set<int>, start: AttachState, ticks: seq<Glance>, deeds: seq<Deed>, dir: set<int>,
                  prev: AttachState, before: bool, deed: Deed, seen: bool, out: bool)
    requires |deeds| < |ticks| && Standing(pids, start, ticks, deeds, dir, prev, before)
    requires PassRight(dir, ticks[|deeds|], prev, before, deed, seen, out)
    ensures RunRight(pids, start, ticks, deeds + [deed], out)
    ensures !out ==>
              Standing(pids, start, ticks, deeds + [deed], AfterPass(dir, ticks[|deeds|]),
                       if deed.committed.Some? then deed.committed.value else prev, seen)
  {
    SurfaceMore(start, ticks, |deeds|, before, seen);
    HooksGrow(start, deeds, AllCompared(ticks), deed);
    DeedsGrow(pids, start, ticks, deeds, deed);
    LeavesGrow(AllTries(ticks), deeds, deed, out);
  }

  lemma SurfaceMore(start: AttachState, ticks: seq<Glance>, k: nat, before: bool, after: bool)
    requires k < |ticks|
    requires before <==> AnyAttached(start) || exists j :: 0 <= j < k && ShowsSurface(ticks[j])
    requires after <==> before || ShowsSurface(ticks[k])
    ensures after <==> SeenBy(start, ticks, k)
    ensures after <==> AnyAttached(start) || exists j :: 0 <= j < k + 1 && ShowsSurface(ticks[j])
  {
  }

  lemma DeedsGrow(pids: set<int>, start: AttachState, ticks: seq<Glance>, deeds: seq<Deed>, deed: Deed)
    requires |deeds| < |ticks| && DeedsRight(pids, start, ticks, deeds)
    requires DeedRightAt(pids, start, ticks, |deeds|, deed)
    ensures DeedsRight(pids, start, ticks, deeds + [deed])
  {
  }

  /** One pass. */
  method Pass(dir: MarkerDir, t: Glance, prev: AttachState, before: bool) returns (deed: Deed, seen: bool, out: bool)
    modifies dir
    ensures dir.pids == AfterPass(old(dir.pids), t)
    ensures PassRight(old(dir.pids), t, prev, before, deed, seen, out)
  {
    deed, seen, out := IDLE, before, false;
    var live, stale;
    dir.Write(t.written);
    if !Sees(t) {
      dir.Write(t.writtenAgain);
      return;
    }
    var cur := t.cur.value;
    if AnyAttached(cur) {
      seen := true;
    }
    TransitionIs(prev, cur);
    if ClassifyTransition(prev, cur).Detach? {
      deed := deed.(hook := true);
    }
    if t.tmux.None? || t.own.None? {
      dir.Write(t.writtenAgain);
      return;
    }
    live, stale := dir.Scan(t.look);
    var panel := StateOf(t.own.value, live, stale);
    dir.Write(t.writtenAgain);
    if t.ownAgain.None? { return; }
    // The stale markers of this scan are dropped.
    live, stale := dir.Scan(t.lookAgain);
    if !t.reported { return; }
    var action := DecidePanel(t.tmux.value, panel, cur.vscodeServer, AnyAttached(cur), seen);
    if action.SelfHealCli? {
      deed := deed.(restarted := true);
      var heal, _, _ := RestartUntilAlive(t.tries);
      if heal.HealRaised? { return; }
      if heal.Exhausted? {
        out := true;
        return;
      }
    } else if action.Teardown? {
      deed, out := deed.(closed := true), true;
      return;
    }
    deed := deed.(committed := Some(cur));
  }

  // --- the passes of a run, in the terms of their probes -------------------------------

  /** What pass `k` of a run does, read off the answers of its probes and the markers it starts with.  It
      closes the box only with both surfaces detached; it closes it there if and only if some snapshot,
      that of the start included, had one attached. */
  lemma PassIs(pids: set<int>, start: AttachState, ticks: seq<Glance>, deeds: seq<Deed>, done: bool, k: nat)
    requires k < |deeds| <= |ticks| && RunRight(pids, start, ticks, deeds, done)
    ensures
      var t := ticks[k];
      var deciding := t.reaped && t.cur.Some? && t.tmux.Some? && t.own.Some? && t.ownAgain.Some? && t.reported;
      var markers := DirAt(pids, ticks, k) + t.written;
      var liveOne := deciding && t.look.listed && exists p | p in markers ::
                       p > 0 && p !in t.own.value && p in t.look.judges
                       && (t.look.judges[p].Session? || t.look.judges[p].CannotJudge?);
      var deadOne := deciding && t.look.listed && exists p | p in markers ::
                       p > 0 && p !in t.own.value && p in t.look.judges
                       && (t.look.judges[p].Gone? || t.look.judges[p].NotSession?);
      && (deeds[k].closed <==>
          && deciding && t.cur.value == AttachState(false, false) && !t.tmux.value && !liveOne
          && (start != AttachState(false, false)
              || exists j | 0 <= j <= k ::
                   ticks[j].reaped && ticks[j].cur.Some? && ticks[j].cur.value != AttachState(false, false)))
      && (deeds[k].restarted <==>
          deciding && t.cur.value.vscodeServer && !t.tmux.value && !liveOne && deadOne)
      && deeds[k].committed ==
         if deciding && !deeds[k].closed
            && (deeds[k].restarted ==>
                  exists i | 0 <= i < |t.tries| :: t.tries[i].Came? && forall j | 0 <= j < i :: t.tries[j].Fell?)
         then t.cur else None
    ensures deeds[k].closed || (deeds[k].restarted && forall i | 0 <= i < |ticks[k].tries| :: ticks[k].tries[i].Fell?)
            <==> done && k == |deeds| - 1
    ensures
      var t, prev := ticks[k], LastCommitted(start, deeds, k);
      deeds[k].hook <==>
      && t.reaped && t.cur.Some?
      && ((prev.vscodeServer && !t.cur.value.vscodeServer) || (prev.tmuxTerminal && !t.cur.value.tmuxTerminal))
  {
    var t := ticks[k];
    assert HookRightAt(start, deeds, k, AllCompared(ticks)[k]);
    if t.cur.Some? {
      LostIs(LastCommitted(start, deeds, k), t.cur.value);
    }
    assert DeedRightAt(pids, start, ticks, k, deeds[k]);
    if t.own.Some? {
      var dir, own := AtFirstScan(DirAt(pids, ticks, k), t), t.own.value;
      forall p | p in dir ensures p in Live(dir, t.look) - own <==> IsLive(t.look, p) && p !in own {
      }
      forall p | p in dir ensures p in Stale(dir, t.look) - own <==> IsStale(t.look, p) && p !in own {
      }
      if Live(dir, t.look) - own != {} {
        var p := SomeIn(Live(dir, t.look) - own);
      }
      if Stale(dir, t.look) - own != {} {
        var p := SomeIn(Stale(dir, t.look) - own);
      }
    }
    assert Leaves(AllTries(ticks)[k], deeds[k]) <==> done && k == |deeds| - 1;
    HealedIs(t.tries);
  }

  /** The markers a pass leaves: one is gone if and only if one of its scans judged it dead and it was not
      written after. */
  lemma MarkersAfter(dir: set<int>, t: Glance, p: int)
    ensures
      var once := t.reaped && t.cur.Some? && t.tmux.Some? && t.own.Some?;
      var first := once && t.look.listed && p > 0 && p in t.look.judges
                   && (t.look.judges[p].Gone? || t.look.judges[p].NotSession?);
      var second := once && t.ownAgain.Some? && t.lookAgain.listed && p > 0 && p in t.lookAgain.judges
                    && (t.lookAgain.judges[p].Gone? || t.lookAgain.judges[p].NotSession?);
      p in AfterPass(dir, t) <==>
      (((p in dir || p in t.written) && !first) || p in t.writtenAgain) && !second
  {
  }

  // --- over whole runs -----------------------------------------------------------------

  function Heals(deeds: seq<Deed>): nat {
    if deeds == [] then 0 else Heals(deeds[..|deeds| - 1]) + (if deeds[|deeds| - 1].restarted then 1 else 0)
  }

  /** How many markers were written during the first `k` passes. */
  function Written(ticks: seq<Glance>, k: nat): nat
    requires k <= |ticks|
  {
    if k == 0 then 0 else Written(ticks, k - 1) + |ticks[k - 1].written| + |ticks[k - 1].writtenAgain|
  }

  /** A pass that starts a command-line agent uses up a marker. */
  lemma PassUses(dir: set<int>, t: Glance)
    ensures |AfterPass(dir, t)| + (if NeedsCli(dir, t) then 1 else 0) <= |dir| + |t.written| + |t.writtenAgain|
  {
    var first, second := AtFirstScan(dir, t), AtSecondScan(dir, t);
    UnionSize(dir, t.written);
    var rest := if ScansOnce(t) then first - Stale(first, t.look) else first;
    UnionSize(rest, t.writtenAgain);
    SubsetSize(AfterPass(dir, t), second);
    SubsetSize(rest, first);
    if NeedsCli(dir, t) {
      assert Stale(first, t.look) - t.own.value != {};
      assert Stale(first, t.look) <= first;
      assert Stale(first, t.look) != {};
    }
  }

  /** At how many of the first `k` passes a command-line agent is needed. */
  function Needs(pids: set<int>, ticks: seq<Glance>, k: nat): nat
    requires k <= |ticks|
  {
    if k == 0 then 0
    else Needs(pids, ticks, k - 1) + (if NeedsCli(DirAt(pids, ticks, k - 1), ticks[k - 1]) then 1 else 0)
  }

  lemma {:induction false} NeedsBounded(pids: set<int>, ticks: seq<Glance>, k: nat)
    requires k <= |ticks|
    ensures Needs(pids, ticks, k) + |DirAt(pids, ticks, k)| <= |pids| + Written(ticks, k)
  {
    if k > 0 {
      NeedsBounded(pids, ticks, k - 1);
      PassUses(DirAt(pids, ticks, k - 1), ticks[k - 1]);
    }
  }

  lemma {:induction false} HealsAreNeeds(pids: set<int>, start: AttachState, ticks: seq<Glance>, deeds: seq<Deed>)
    requires |deeds| <= |ticks| && DeedsRight(pids, start, ticks, deeds)
    ensures Heals(deeds) == Needs(pids, ticks, |deeds|)
    decreases |deeds|
  {
    if deeds != [] {
      var n := |deeds| - 1;
      var front := deeds[..n];
      assert DeedRightAt(pids, start, ticks, n, deeds[n]);
      HealsAreNeeds(pids, start, ticks, front);
    }
  }

  /** The command-line agents started over any run are no more than the markers there were. */
  lemma HealsBounded(pids: set<int>, start: AttachState, ticks: seq<Glance>, deeds: seq<Deed>, done: bool)
    requires |deeds| <= |ticks| && RunRight(pids, start, ticks, deeds, done)
    ensures Heals(deeds) <= |pids| + Written(ticks, |deeds|)
  {
    HealsAreNeeds(pids, start, ticks, deeds);
    NeedsBounded(pids, ticks, |deeds|);
  }

  // --- which deaths reach a decision ---------------------------------------------------

  /** The first scan of pass `k`, the one the decision uses, reports the marker as stale. */
  predicate FirstReports(pids: set<int>, ticks: seq<Glance>, pid: int, k: nat)
    requires k < |ticks|
  {
    ScansOnce(ticks[k]) && pid in Stale(AtFirstScan(DirAt(pids, ticks, k), ticks[k]), ticks[k].look)
  }

  /** The second scan of pass `k`, the one for newcomers, does. */
  predicate SecondReports(pids: set<int>, ticks: seq<Glance>, pid: int, k: nat)
    requires k < |ticks|
  {
    ScansTwice(ticks[k]) && pid in Stale(AtSecondScan(DirAt(pids, ticks, k), ticks[k]), ticks[k].lookAgain)
  }

  /** The decision of pass `k` is made with the marker among the stale ones. */
  predicate Counts(pids: set<int>, ticks: seq<Glance>, pid: int, k: nat)
    requires k < |ticks|
  {
    Decides(ticks[k]) && FirstReports(pids, ticks, pid, k)
  }

  /** A scan: the pass it belongs to, and which of the two it is. */
  datatype Report = Report(pass: nat, second: bool)

  /** The first scan of the run, from pass `k` on, that reports the marker as stale. */
  function FirstReport(pids: set<int>, ticks: seq<Glance>, pid: int, k: nat): (r: Option<Report>)
    requires k <= |ticks|
    ensures r.Some? ==> k <= r.value.pass < |ticks|
    decreases |ticks| - k
  {
    if k == |ticks| then None
    else if FirstReports(pids, ticks, pid, k) then Some(Report(k, false))
    else if SecondReports(pids, ticks, pid, k) then Some(Report(k, true))
    else FirstReport(pids, ticks, pid, k + 1)
  }

  /** The marker is not written again after a scan. */
  ghost predicate NotRewritten(ticks: seq<Glance>, pid: int, r: Report)
    requires r.pass < |ticks|
  {
    && (!r.second ==> pid !in ticks[r.pass].writtenAgain)
    && forall i | r.pass < i < |ticks| :: pid !in ticks[i].written && pid !in ticks[i].writtenAgain
  }

  /** A marker that a scan reported is gone from the directory, until it is written again. */
  lemma {:induction false} ReportedIsGone(pids: set<int>, ticks: seq<Glance>, pid: int, r: Report, k: nat)
    requires r.pass < k < |ticks| && NotRewritten(ticks, pid, r)
    requires if r.second then SecondReports(pids, ticks, pid, r.pass) else FirstReports(pids, ticks, pid, r.pass)
    ensures pid !in AtFirstScan(DirAt(pids, ticks, k), ticks[k])
    decreases k
  {
    if k > r.pass + 1 {
      ReportedIsGone(pids, ticks, pid, r, k - 1);
    }
  }

  lemma {:induction false} FirstReportIs(pids: set<int>, ticks: seq<Glance>, pid: int, k: nat, j: nat)
    requires k <= j < |ticks|
    requires FirstReport(pids, ticks, pid, k).Some? ==> j < FirstReport(pids, ticks, pid, k).value.pass
    ensures !FirstReports(pids, ticks, pid, j)
    decreases j - k
  {
    if k < j {
      FirstReportIs(pids, ticks, pid, k + 1, j);
    }
  }

  lemma {:induction false} FirstReportHolds(pids: set<int>, ticks: seq<Glance>, pid: int, k: nat)
    requires k <= |ticks| && FirstReport(pids, ticks, pid, k).Some?
    ensures var r := FirstReport(pids, ticks, pid, k).value;
            if r.second then SecondReports(pids, ticks, pid, r.pass) && !FirstReports(pids, ticks, pid, r.pass)
            else FirstReports(pids, ticks, pid, r.pass)
    decreases |ticks| - k
  {
    if FirstReport(pids, ticks, pid, k) == Some(Report(k, false))
      || FirstReport(pids, ticks, pid, k) == Some(Report(k, true)) {
    } else {
      FirstReportHolds(pids, ticks, pid, k + 1);
    }
  }

  /** A death is counted by a decision if and only if the scan that first reports it is the first scan of
      a pass that comes to its decision; and then by that one alone. */
  lemma DeathCountsIff(pids: set<int>, ticks: seq<Glance>, pid: int)
    requires var r := FirstReport(pids, ticks, pid, 0); r.Some? ==> NotRewritten(ticks, pid, r.value)
    ensures var r := FirstReport(pids, ticks, pid, 0);
            && ((exists k :: 0 <= k < |ticks| && Counts(pids, ticks, pid, k))
                <==> r.Some? && !r.value.second && Decides(ticks[r.value.pass]))
            && forall k | 0 <= k < |ticks| && Counts(pids, ticks, pid, k) :: r == Some(Report(k, false))
  {
    var r := FirstReport(pids, ticks, pid, 0);
    if r.Some? {
      FirstReportHolds(pids, ticks, pid, 0);
    }
    forall k | 0 <= k < |ticks| && Counts(pids, ticks, pid, k)
      ensures r == Some(Report(k, false))
    {
      if r.None? || k < r.value.pass {
        FirstReportIs(pids, ticks, pid, 0, k);
      } else if k > r.value.pass {
        ReportedIsGone(pids, ticks, pid, r.value, k);
      }
    }
    if r.Some? && !r.value.second && Decides(ticks[r.value.pass]) {
      assert Counts(pids, ticks, pid, r.value.pass);
    }
  }

  lemma AllIn(a: set<int>, b: set<int>)
    ensures a - b == {} <==> a <= b
  {
    forall x | x in a && x !in b ensures a - b != {} {
      assert x in a - b;
    }
  }

  /** A decision that counts a death starts a command-line agent if and only if its first scan reports no
      other agent alive, none is alive in the session, and the editor is connected. */
  lemma CountedStartsIff(pids: set<int>, start: AttachState, ticks: seq<Glance>, deeds: seq<Deed>, done: bool,
                         pid: int, k: nat)
    requires k < |deeds| <= |ticks| && RunRight(pids, start, ticks, deeds, done)
    requires Counts(pids, ticks, pid, k) && pid !in ticks[k].own.value
    ensures deeds[k].restarted <==>
            && Live(AtFirstScan(DirAt(pids, ticks, k), ticks[k]), ticks[k].look) <= ticks[k].own.value
            && !ticks[k].tmux.value && ticks[k].cur.value.vscodeServer
  {
    var dir := AtFirstScan(DirAt(pids, ticks, k), ticks[k]);
    var own := ticks[k].own.value;
    assert DeedRightAt(pids, start, ticks, k, deeds[k]);
    assert pid in Stale(dir, ticks[k].look) - own;
    AllIn(Live(dir, ticks[k].look), own);
  }

  /** A start that raises is not repeated: a later pass starts a command-line agent only for a marker
      that was not stale then, or was written since. */
  lemma RaisedIsNotRepeated(pids: set<int>, ticks: seq<Glance>, k: nat, j: nat) returns (pid: int)
    requires k < j < |ticks| && Decides(ticks[k]) && NeedsCli(DirAt(pids, ticks, j), ticks[j])
    ensures FirstReports(pids, ticks, pid, j)
    ensures FirstReports(pids, ticks, pid, k) ==> !NotRewritten(ticks, pid, Report(k, false))
  {
    pid := SomeIn(Stale(AtFirstScan(DirAt(pids, ticks, j), ticks[j]), ticks[j].look) - ticks[j].own.value);
    if FirstReports(pids, ticks, pid, k) && NotRewritten(ticks, pid, Report(k, false)) {
      ReportedIsGone(pids, ticks, pid, Report(k, false), j);
    }
  }

  // --- three ways to lose a death ------------------------------------------------------

  const EDITOR: AttachState := AttachState(true, false)

  const GONE_7: Look := Look(true, map[7 := Gone])

  /** A pass with the editor connected, the agent 7 dead, and no command-line agent alive. */
  const QUIET: Glance :=
    Glance(true, Some(EDITOR), Some(false), Some({}), {}, GONE_7, Some({}), {}, GONE_7, true, [Came])

  /** The agent dies between the two scans of the pass. */
  const DIES_BETWEEN: Glance := QUIET.(written := {7}, look := Look(true, map[7 := Session]))

  /** It is reported by the first scan, but the pass raises before it decides. */
  const RAISES_AFTER: Glance := QUIET.(written := {7}, ownAgain := None)

  /** It is counted, but the start of the command-line agent raises. */
  const START_RAISES: Glance := QUIET.(written := {7}, tries := [TryRaised])

  /** Each leaves no marker behind. */
  lemma UsedUp(first: Glance)
    requires first == DIES_BETWEEN || first == RAISES_AFTER || first == START_RAISES
    ensures AfterPass({}, first) == {}
    ensures NeedsCli({}, first) <==> first == START_RAISES
  {
    assert AtFirstScan({}, first) == {7};
    if first == DIES_BETWEEN {
      assert Stale({7}, first.look) == {};
      assert 7 in Live({7}, first.look) - {};
      assert Stale({7}, first.lookAgain) == {7};
    } else {
      assert Stale({7}, first.look) == {7};
      assert {7} - {7} + {} == {};
      assert 7 in Stale({7}, first.look) - {};
      assert Live({7}, first.look) - {} == {};
    }
  }

  /** Runs in which the editor stays connected and no command-line agent is alive, but none is started
      for the dead one after the first pass, and in the first only where that start raises. */
  lemma {:induction false} DeathLost(first: Glance, later: nat, start: AttachState, deeds: seq<Deed>, done: bool)
    requires first == DIES_BETWEEN || first == RAISES_AFTER || first == START_RAISES
    requires var ticks := [first] + seq(later, i => QUIET);
             |deeds| == |ticks| && RunRight({}, start, ticks, deeds, done)
    ensures deeds[0].restarted ==> HealOf(first.tries).HealRaised?
    ensures forall k | 0 < k < |deeds| :: !deeds[k].restarted
  {
    var ticks := [first] + seq(later, i => QUIET);
    UsedUp(first);
    forall k | 0 <= k < |deeds|
      ensures (k == 0 && first == START_RAISES) || !deeds[k].restarted
    {
      assert DeedRightAt({}, start, ticks, k, deeds[k]);
      if k > 0 {
        StaysEmpty(ticks, k);
        assert Stale(AtFirstScan({}, QUIET), QUIET.look) == {};
      }
    }
  }

  lemma {:induction false} StaysEmpty(ticks: seq<Glance>, k: nat)
    requires 0 < k <= |ticks| && AfterPass({}, ticks[0]) == {}
    requires forall i | 0 < i < |ticks| :: ticks[i] == QUIET
    ensures DirAt({}, ticks, k) == {}
  {
    if k == 1 {
      assert DirAt({}, ticks, 0) == {};
    } else {
      StaysEmpty(ticks, k - 1);
    }
  }

  // --- agents a decision does not see --------------------------------------------------

  /** The panel's agents at the second scan of a pass, if that scan comes through or not: a marker is
      there, it is not the command-line agent's, and its probes say alive. */
  function AgentsLeft(dir: set<int>, t: Glance): set<int>
    requires t.ownAgain.Some?
  {
    set p | p in AtSecondScan(dir, t) && IsAgent(t, p)
  }

  /** By the probes of the second scan, the marker is that of a panel agent that is alive. */
  predicate IsAgent(t: Glance, pid: int)
    requires t.ownAgain.Some?
  {
    pid !in t.ownAgain.value && IsAlive(t.lookAgain.judges, pid)
  }

  /** The decision has nothing on the marker: the directory could not be listed at the first scan, a probe
      raised on the marker, or it was then that of the command-line agent, and alive. */
  predicate Unseen(t: Glance, pid: int)
    requires t.own.Some?
  {
    || !t.look.listed || JudgeOf(t.look.judges, pid).ProbeRaised?
    || (pid in t.own.value && IsAlive(t.look.judges, pid))
  }

  /** The markers a decision overlooks: those it has nothing on, and those written after its scan. */
  function Overlooked(dir: set<int>, t: Glance): set<int>
    requires t.own.Some?
  {
    (set p | p in AtFirstScan(dir, t) && Unseen(t, p)) + t.writtenAgain
  }

  /** A decision that takes no panel agent to be alive is wrong about exactly the overlooked ones. */
  lemma LeftAreOverlooked(dir: set<int>, t: Glance)
    requires ScansTwice(t) && !PanelIn(dir, t).AgentAlive?
    ensures AgentsLeft(dir, t) == set p | p in Overlooked(dir, t) && IsAgent(t, p)
  {
    var first := AtFirstScan(dir, t);
    AllIn(Live(first, t.look), t.own.value);
    forall p | p in first && IsAlive(t.lookAgain.judges, p)
      ensures p !in Stale(first, t.look) <==> Unseen(t, p)
    {
      assert IsLive(t.look, p) ==> p in Live(first, t.look);
    }
  }

  /** A pass that tears the box down, or starts a command-line agent, leaves no panel agent alive if and
      only if no agent alive at its second scan was overlooked: unlisted, unjudged or the command-line
      agent's own at the first, or written after it. */
  lemma ActsAloneIff(pids: set<int>, start: AttachState, ticks: seq<Glance>, deeds: seq<Deed>, done: bool, k: nat)
    requires k < |deeds| <= |ticks| && RunRight(pids, start, ticks, deeds, done)
    requires deeds[k].closed || deeds[k].restarted
    ensures Decides(ticks[k]) && !ticks[k].tmux.value
    ensures AgentsLeft(DirAt(pids, ticks, k), ticks[k]) == {} <==>
            forall p | p in Overlooked(DirAt(pids, ticks, k), ticks[k]) :: !IsAgent(ticks[k], p)
  {
    var dir := DirAt(pids, ticks, k);
    assert DeedRightAt(pids, start, ticks, k, deeds[k]);
    LeftAreOverlooked(dir, ticks[k]);
    forall p | p in Overlooked(dir, ticks[k]) && IsAgent(ticks[k], p)
      ensures p in AgentsLeft(dir, ticks[k])
    {
    }
  }

  /** No answer of the second probes can show such a decision wrong if and only if it overlooked nothing
      but markers of the command-line agent and files that name no process. */
  lemma SureIff(dir: set<int>, t: Glance)
    requires ScansTwice(t) && !PanelIn(dir, t).AgentAlive?
    ensures (forall look: Look :: AgentsLeft(dir, t.(lookAgain := look)) == {})
            <==> forall p | p in Overlooked(dir, t) :: p <= 0 || p in t.ownAgain.value
  {
    forall look: Look
      ensures AgentsLeft(dir, t.(lookAgain := look))
              == set p | p in Overlooked(dir, t) && IsAgent(t.(lookAgain := look), p)
    {
      LeftAreOverlooked(dir, t.(lookAgain := look));
    }
    forall p | p in Overlooked(dir, t) && p > 0 && p !in t.ownAgain.value
      ensures exists look: Look :: AgentsLeft(dir, t.(lookAgain := look)) != {}
    {
      assert p in AgentsLeft(dir, t.(lookAgain := Look(true, map[p := Session])));
    }
  }

  const SEES_7: Look := Look(true, map[7 := Session])

  /** A pass with no surface, no command-line agent, and the agent 7 alive. */
  const DESERTED: Glance :=
    Glance(true, Some(AttachState(false, false)), Some(false), Some({}), {}, SEES_7, Some({}), {}, SEES_7, true, [])

  /** The listing of the first scan raises. */
  const UNLISTED: Glance := DESERTED.(written := {7}, look := SEES_7.(listed := false))

  /** A probe of the first scan raises. */
  const UNJUDGED: Glance := DESERTED.(written := {7}, look := Look(true, map[7 := ProbeRaised]))

  /** The agent comes up between the two scans. */
  const COMES_BETWEEN: Glance := DESERTED.(writtenAgain := {7})

  /** Runs that tear a box down while its panel agent is alive, and is found so by the same pass. */
  lemma TornDownOver(t: Glance, deeds: seq<Deed>, done: bool)
    requires t == UNLISTED || t == UNJUDGED || t == COMES_BETWEEN
    requires |deeds| == 1 && RunRight({}, EDITOR, [t], deeds, done)
    ensures deeds[0].closed && 7 in AgentsLeft({}, t)
  {
    assert DeedRightAt({}, EDITOR, [t], 0, deeds[0]);
    assert Live(AtFirstScan({}, t), t.look) - {} == {};
  }

  /** The agent 7 is dead, but a probe of another, 8, raises. */
  const BESIDE: Glance :=
    QUIET.(written := {7, 8}, look := Look(true, map[7 := Gone, 8 := ProbeRaised]),
           lookAgain := Look(true, map[8 := Session]))

  /** A run that starts a command-line agent while a panel agent is alive. */
  lemma StartedBeside(deeds: seq<Deed>, done: bool)
    requires |deeds| == 1 && RunRight({}, EDITOR, [BESIDE], deeds, done)
    ensures deeds[0].restarted && 8 in AgentsLeft({}, BESIDE)
  {
    assert DeedRightAt({}, EDITOR, [BESIDE], 0, deeds[0]);
    var first := AtFirstScan({}, BESIDE);
    assert 7 in Stale(first, BESIDE.look) - {};
    assert Live(first, BESIDE.look) - {} == {};
  }
}
