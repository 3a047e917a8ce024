/** The main loop of a box's first process, over every run of ticks, with takeover off. */
module Supervisor {
  import opened Lifecycle
  import opened Options
  import opened WatchLoop

  /** What one pass through the loop meets, in the order it is met; `None`: the probe raised. */
  datatype Tick = Tick(
    reaped: bool,                          // the reaping did not raise
    cur: Option<AttachState>,
    alive: Option<bool>,
    scanned: bool,                         // the marker scan and its report did not raise
    exit: Option<Option<int>>,             // the dead pane's status: read only where it matters
    closing: Option<(Option<int>, Option<int>)>,   // status of the pane, and of the record, at the end
    tries: seq<Try>)                       // what each restart the settings allow would come to

  datatype Kind = Nothing | SelfHeal | End

  datatype Action = Action(kind: Kind, fireDetachHook: bool)

  const UNDETERMINED_AGENT_EXIT: int := 70

  function Decide(prev: AttachState, cur: AttachState, alive: bool, exit: Option<int>): Action {
    Action(
      if alive then Nothing else if exit == Some(0) && cur.tmuxTerminal then End else SelfHeal,
      ClassifyTransition(prev, cur).Detach?)
  }

  // --- what a run has to be ------------------------------------------------------------

  /** The pass comes to its decision: nothing raised on the way. */
  predicate Decides(t: Tick, teardown: bool) {
    && t.reaped && t.cur.Some? && t.alive.Some? && t.scanned
    && (!t.alive.value && !teardown && t.cur.value.tmuxTerminal ==> t.exit.Some?)
  }

  /** The agent is found dead. */
  predicate FindsDead(t: Tick, teardown: bool) {
    Decides(t, teardown) && !t.alive.value
  }

  /** The user ended the agent: it exited with status 0 and a terminal was attached to it. */
  predicate EndsHere(t: Tick, teardown: bool) {
    FindsDead(t, teardown) && !teardown && t.cur.value.tmuxTerminal && t.exit.value == Some(0)
  }

  /** Some pass up to `k` ended the agent. */
  predicate EndedBy(ticks: seq<Tick>, teardown: bool, k: nat) {
    exists j :: 0 <= j <= k && j < |ticks| && EndsHere(ticks[j], teardown)
  }

  /** The agent is dead and not to be started again, and no other surface holds the box. */
  predicate Spent(t: Tick, teardown: bool, ended: bool) {
    FindsDead(t, teardown) && (teardown || ended) && !t.cur.value.vscodeServer
  }

  /** The code a closing box returns: 0 after an end; else the agent's own status, if the pane or the
      record tells it. */
  function CloseCode(t: Tick, ended: bool, started: bool): int
    requires t.closing.Some?
  {
    if ended then 0
    else if t.closing.value.0.Some? then t.closing.value.0.value
    else if t.closing.value.1.Some? then t.closing.value.1.value
    else if started then UNDETERMINED_AGENT_EXIT else 1
  }

  /** What a pass has to do, if the user ended the agent by it or not: the agent is restarted exactly
      where it is found dead and may be; a snapshot is committed unless the pass raised, had nothing left
      to stay up for, or its restart failed; the box closes exactly where it is to close. */
  predicate DeedRight(t: Tick, teardown: bool, ended: bool, deed: Deed) {
    && (deed.restarted <==> FindsDead(t, teardown) && !teardown && !ended)
    && deed.committed == (if Decides(t, teardown) && !Spent(t, teardown, ended)
                             && (deed.restarted ==> HealOf(t.tries).Healed?) then t.cur else None)
    && (deed.closed <==> Spent(t, teardown, ended) && t.closing.Some?)
  }

  ghost predicate DeedsRight(teardown: bool, ticks: seq<Tick>, deeds: seq<Deed>)
    requires |deeds| <= |ticks|
  {
    forall k | 0 <= k < |deeds| :: DeedRight(ticks[k], teardown, EndedBy(ticks, teardown, k), deeds[k])
  }

  /** The snapshot a pass compares, if it comes to its decision. */
  function Compared(t: Tick, teardown: bool): Option<AttachState> {
    if Decides(t, teardown) then t.cur else None
  }

  function AllCompared(ticks: seq<Tick>, teardown: bool): seq<Option<AttachState>> {
    seq(|ticks|, k requires 0 <= k < |ticks| => Compared(ticks[k], teardown))
  }

  function AllTries(ticks: seq<Tick>): seq<seq<Try>> {
    seq(|ticks|, k requires 0 <= k < |ticks| => ticks[k].tries)
  }

  /** Everything a run did was right. */
  ghost predicate RunRight(start: AttachState, teardown: bool, ticks: seq<Tick>, deeds: seq<Deed>, returned: bool)
    requires |deeds| <= |ticks|
  {
    && HooksRight(start, deeds, AllCompared(ticks, teardown))
    && DeedsRight(teardown, ticks, deeds)
    && LeavesRight(AllTries(ticks), deeds, returned)
  }

  // --- the loop ------------------------------------------------------------------------

  /** How a pass leaves the loop: on, or out with a code. */
  datatype Flow = GoOn | Out(code: int)

  /** Where the loop stands: its latches say what the run so far makes of them. */
  ghost predicate Standing(start: AttachState, teardown: bool, ticks: seq<Tick>, deeds: seq<Deed>,
                           prev: AttachState, ended: bool)
    requires |deeds| <= |ticks|
  {
    && RunRight(start, teardown, ticks, deeds, false)
    && prev == LastCommitted(start, deeds, |deeds|)
    && (ended <==> exists j :: 0 <= j < |deeds| && EndsHere(ticks[j], teardown))
  }

  /** `ticks`: the passes until the stop flag is seen; `r`: the code if the loop returns before that.
      `started`: the agent came up at the start. */
  method RunForever(teardown: bool, start: AttachState, started: bool, ticks: seq<Tick>)
    returns (r: Option<int>, deeds: seq<Deed>)
    ensures |deeds| <= |ticks| && (r.None? ==> |deeds| == |ticks|) && (r.Some? ==> deeds != [])
    ensures RunRight(start, teardown, ticks, deeds, r.Some?)
    ensures r.Some? ==>
              var k := |deeds| - 1;
              r.value == if deeds[k].closed then CloseCode(ticks[k], EndedBy(ticks, teardown, k), started) else 0
  {
    var prev, ended := start, false;
    deeds := [];
    while |deeds| < |ticks|
      invariant |deeds| <= |ticks| && Standing(start, teardown, ticks, deeds, prev, ended)
    {
      var t := ticks[|deeds|];
      var deed, ended', flow := Pass(t, teardown, prev, ended, started);
      PassKeeps(start, teardown, started, ticks, deeds, prev, ended, deed, ended', flow);
      deeds, ended := deeds + [deed], ended';
      prev := if deed.committed.Some? then deed.committed.value else prev;
      if flow.Out? {
        return Some(flow.code), deeds;
      }
    }
    r := None;
  }

  /** What one pass does, from the latches it starts with. */
  predicate PassRight(t: Tick, teardown: bool, prev: AttachState, before: bool, started: bool,
                      deed: Deed, ended: bool, flow: Flow) {
    && (ended <==> before || EndsHere(t, teardown))
    && (deed.hook <==> Decides(t, teardown) && Lost(prev, t.cur.value))
    && DeedRight(t, teardown, ended, deed)
    && flow == if deed.closed then Out(CloseCode(t, ended, started)) else if Leaves(t.tries, deed) then Out(0) else GoOn
  }

  lemma PassKeeps(start: AttachState, teardown: bool, started: bool, ticks: seq<Tick>, deeds: seq<Deed>,
                  prev: AttachState, before: bool, deed: Deed, ended: bool, flow: Flow)
    requires |deeds| < |ticks| && Standing(start, teardown, ticks, deeds, prev, before)
    requires PassRight(ticks[|deeds|], teardown, prev, before, started, deed, ended, flow)
    ensures RunRight(start, teardown, ticks, deeds + [deed], flow.Out?)
    ensures ended <==> EndedBy(ticks, teardown, |deeds|)
    ensures flow.GoOn? ==>
              Standing(start, teardown, ticks, deeds + [deed],
                       if deed.committed.Some? then deed.committed.value else prev, ended)
  {
    EndedMore(ticks, teardown, |deeds|, before, ended);
    HooksGrow(start, deeds, AllCompared(ticks, teardown), deed);
    DeedsGrow(teardown, ticks, deeds, deed);
    LeavesGrow(AllTries(ticks), deeds, deed, flow.Out?);
  }

  lemma EndedMore(ticks: seq<Tick>, teardown: bool, i: nat, before: bool, after: bool)
    requires i < |ticks| && (before <==> exists j :: 0 <= j < i && EndsHere(ticks[j], teardown))
    requires after <==> before || EndsHere(ticks[i], teardown)
    ensures after <==> EndedBy(ticks, teardown, i)
    ensures after <==> exists j :: 0 <= j < i + 1 && EndsHere(ticks[j], teardown)
  {
  }

  lemma DeedsGrow(teardown: bool, ticks: seq<Tick>, deeds: seq<Deed>, deed: Deed)
    requires |deeds| < |ticks| && DeedsRight(teardown, ticks, deeds)
    requires DeedRight(ticks[|deeds|], teardown, EndedBy(ticks, teardown, |deeds|), deed)
    ensures DeedsRight(teardown, ticks, deeds + [deed])
  {
  }

  /** One pass. */
  method Pass(t: Tick, teardown: bool, prev: AttachState, before: bool, started: bool)
    returns (deed: Deed, ended: bool, flow: Flow)
    ensures PassRight(t, teardown, prev, before, started, deed, ended, flow)
  {
    deed, ended, flow := IDLE, before, GoOn;
    if !t.reaped || t.cur.None? || t.alive.None? || !t.scanned { return; }
    var cur, alive := t.cur.value, t.alive.value;
    var exit := None;
    if !alive && !teardown && cur.tmuxTerminal {
      if t.exit.None? { return; }
      exit := t.exit.value;
    }
    var action := Decide(prev, cur, alive, exit);
    TransitionIs(prev, cur);
    if action.kind.End? && !ended {
      ended := true;
    }
    deed, flow := CarryOut(t, teardown, ended, started, action);
  }

  /** What a pass does about its decision. */
  method CarryOut(t: Tick, teardown: bool, ended: bool, started: bool, action: Action)
    returns (deed: Deed, flow: Flow)
    requires Decides(t, teardown) && (action.kind.Nothing? <==> t.alive.value)
    ensures deed.hook == action.fireDetachHook && DeedRight(t, teardown, ended, deed)
    ensures flow == if deed.closed then Out(CloseCode(t, ended, started))
                    else if Leaves(t.tries, deed) then Out(0) else GoOn
  {
    deed, flow := IDLE.(hook := action.fireDetachHook), GoOn;
    if !action.kind.Nothing? {
      if teardown || ended {
        if !t.cur.value.vscodeServer {
          if t.closing.None? { return; }
          var code := if ended then Some(0) else t.closing.value.0;
          if code.None? {
            code := t.closing.value.1;
          }
          if code.None? {
            code := Some(if started then UNDETERMINED_AGENT_EXIT else 1);
          }
          deed, flow := deed.(closed := true), Out(code.value);
          return;
        }
      } else {
        deed := deed.(restarted := true);
        var heal, _, _ := RestartUntilAlive(t.tries);
        if heal.HealRaised? { return; }
        if heal.Exhausted? {
          flow := Out(0);
          return;
        }
      }
    }
    deed := deed.(committed := t.cur);
  }

  // --- the passes of a run, in the terms of their probes -------------------------------

  /** What pass `k` of a run does, read off the answers of its probes: where the agent is found dead it is
      restarted, unless the box is to be torn down or the user has ended it (a status of 0 read from the
      dead pane while a terminal was attached); else the box closes once no editor holds it. */
  lemma PassIs(start: AttachState, teardown: bool, ticks: seq<Tick>, deeds: seq<Deed>, returned: bool, k: nat)
    requires k < |deeds| <= |ticks| && RunRight(start, teardown, ticks, deeds, returned)
    ensures
      var t := ticks[k];
      var probed := t.reaped && t.cur.Some? && t.alive.Some? && t.scanned;
      var asked := probed && !t.alive.value && !teardown && t.cur.value.tmuxTerminal;
      var dead := probed && !t.alive.value && (asked ==> t.exit.Some?);
      var ended := exists j | 0 <= j <= k ::
                     && ticks[j].reaped && ticks[j].cur.Some? && ticks[j].alive == Some(false) && ticks[j].scanned
                     && !teardown && ticks[j].cur.value.tmuxTerminal && ticks[j].exit == Some(Some(0));
      && (deeds[k].restarted <==> dead && !teardown && !ended)
      && (deeds[k].closed <==> dead && (teardown || ended) && !t.cur.value.vscodeServer && t.closing.Some?)
      && deeds[k].committed ==
         if probed && (asked ==> t.exit.Some?)
            && !(dead && (teardown || ended) && !t.cur.value.vscodeServer)
            && (deeds[k].restarted ==>
                  exists i | 0 <= i < |t.tries| :: t.tries[i].Came? && forall j | 0 <= j < i :: t.tries[j].Fell?)
         then t.cur else None
    ensures deeds[k].closed || (deeds[k].restarted && forall i | 0 <= i < |ticks[k].tries| :: ticks[k].tries[i].Fell?)
            <==> returned && k == |deeds| - 1
    ensures
      var t, prev := ticks[k], LastCommitted(start, deeds, k);
      deeds[k].hook <==>
      && t.reaped && t.cur.Some? && t.alive.Some? && t.scanned
      && (!t.alive.value && !teardown && t.cur.value.tmuxTerminal ==> t.exit.Some?)
      && ((prev.vscodeServer && !t.cur.value.vscodeServer) || (prev.tmuxTerminal && !t.cur.value.tmuxTerminal))
  {
    var t := ticks[k];
    assert HookRightAt(start, deeds, k, AllCompared(ticks, teardown)[k]);
    if t.cur.Some? {
      LostIs(LastCommitted(start, deeds, k), t.cur.value);
    }
    assert DeedRight(t, teardown, EndedBy(ticks, teardown, k), deeds[k]);
    assert Leaves(AllTries(ticks)[k], deeds[k]) <==> returned && k == |deeds| - 1;
    HealedIs(t.tries);
  }

  // --- over whole runs -----------------------------------------------------------------

  /** Once the user has ended the agent, no pass restarts it, and the next pass that finds it dead with
      no panel, and can read its end, is the last: the box closes with code 0. */
  lemma EndIsFinal(start: AttachState, teardown: bool, started: bool, ticks: seq<Tick>, deeds: seq<Deed>,
                   returned: bool, e: nat, k: nat)
    requires |deeds| <= |ticks| && RunRight(start, teardown, ticks, deeds, returned)
    requires e <= k < |deeds| && EndsHere(ticks[e], teardown)
    ensures !deeds[k].restarted
    ensures FindsDead(ticks[k], teardown) && !ticks[k].cur.value.vscodeServer && ticks[k].closing.Some? ==>
              && returned && k == |deeds| - 1 && deeds[k].closed
              && CloseCode(ticks[k], EndedBy(ticks, teardown, k), started) == 0
  {
    assert EndedBy(ticks, teardown, k);
    assert DeedRight(ticks[k], teardown, true, deeds[k]);
    if FindsDead(ticks[k], teardown) && !ticks[k].cur.value.vscodeServer && ticks[k].closing.Some? {
      assert Leaves(AllTries(ticks)[k], deeds[k]);
    }
  }

  /** Under the teardown policy a run never restarts the agent; it returns if and only if some pass finds
      the agent dead with no panel and can read its end, at the first such pass, and never with the 0 of an
      end or of used-up retries: the code is the agent's own, or the one for an end nobody can tell. */
  lemma TeardownRun(start: AttachState, started: bool, ticks: seq<Tick>, deeds: seq<Deed>, returned: bool, k: nat)
    requires k < |deeds| <= |ticks| && RunRight(start, true, ticks, deeds, returned)
    ensures !deeds[k].restarted
    ensures FindsDead(ticks[k], true) && !ticks[k].cur.value.vscodeServer && ticks[k].closing.Some?
            <==> returned && k == |deeds| - 1
    ensures returned && k == |deeds| - 1 ==>
              var (pane, record) := ticks[k].closing.value;
              var code := CloseCode(ticks[k], EndedBy(ticks, true, k), started);
              && (if pane.Some? then Some(code) == pane else record.Some? ==> Some(code) == record)
              && (pane.None? && record.None? ==> code == if started then 70 else 1)
  {
    assert DeedRight(ticks[k], true, EndedBy(ticks, true, k), deeds[k]);
    assert Leaves(AllTries(ticks)[k], deeds[k]) <==> returned && k == |deeds| - 1;
    assert forall j | 0 <= j < |ticks| :: !EndsHere(ticks[j], true);
  }
}
