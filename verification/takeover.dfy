/** The takeover of a session: stop the newcomer, warn and wait, end the incumbent, and let the newcomer
    go on, whatever fails on the way. */
module Takeover {
  import opened Collections
  import opened Options

  /** What is sent, in order.  `guarded`: the supervisor knew its own group when it sent the kill. */
  datatype Event =
    | Stopped(pid: int)
    | StopFailed(pid: int)
    | HeadsUp
    | GraceWaited
    | GroupKilled(group: int, guarded: bool)
    | SessionKilled
    | Resumed(pid: int)

  /** How a takeover ends: the incumbent is evicted; it is left alone; or an error is passed on. */
  datatype Outcome = Evicted | Aborted | PassedOn

  // --- whom a group kill may reach -----------------------------------------------------

  /** The group a kill for `pid` goes to, if it is sent.  `pgid`, `pgrp`: the group of the pid, and the
      supervisor's own, where the system answers. */
  function GroupTarget(pid: int, pgid: Option<int>, pgrp: Option<int>): Option<int> {
    if pid <= 1 then None
    else
      var group := if pgid.Some? then pgid.value else pid;
      var own := if pgrp.Some? then pgrp.value else -1;
      if group <= 1 || group == own then None else Some(group)
  }

  /** Never group 0 or 1; and the supervisor's own group, `own`, exactly when the system does not say
      which group that is and the pid is in it. */
  lemma TargetIsSafe(pid: int, pgid: Option<int>, pgrp: Option<int>, own: int)
    requires pgrp.Some? ==> pgrp.value == own
    ensures GroupTarget(pid, pgid, pgrp).Some? ==> GroupTarget(pid, pgid, pgrp).value > 1
    ensures GroupTarget(pid, pgid, pgrp) == Some(own) <==>
            pgrp.None? && pid > 1 && own > 1 && (if pgid.Some? then pgid.value else pid) == own
  {
  }

  // --- the phases of a takeover --------------------------------------------------------

  predicate Pauses(es: seq<Event>) {
    forall k | 0 <= k < |es| :: es[k].Stopped? || es[k].StopFailed?
  }

  /** The process was sent a stop. */
  predicate Tried(es: seq<Event>, pid: int) {
    Stopped(pid) in es || StopFailed(pid) in es
  }

  lemma StillTried(es: seq<Event>, e: Event)
    ensures forall pid | Tried(es, pid) :: Tried(es + [e], pid)
    ensures e.Stopped? || e.StopFailed? ==> Tried(es + [e], e.pid)
  {
    assert e == (es + [e])[|es|];
  }

  /** The newcomers but those of `rest` were sent a stop each, in ascending order, and are below those. */
  ghost predicate Pausing(es: seq<Event>, newcomers: set<int>, rest: set<int>) {
    && Pauses(es)
    && (forall k | 0 <= k < |es| :: es[k].pid in newcomers)
    && (forall pid | pid in newcomers && pid !in rest :: Tried(es, pid))
    && (forall k, q | 0 <= k < |es| && q in rest :: es[k].pid < q)
    && (forall i, k | 0 <= i < k < |es| :: es[i].pid < es[k].pid)
  }

  lemma PausedOne(es: seq<Event>, newcomers: set<int>, rest: set<int>, e: Event)
    requires (e.Stopped? || e.StopFailed?) && e.pid in newcomers && e.pid !in rest
    requires Pausing(es, newcomers, rest + {e.pid}) && forall q | q in rest :: e.pid < q
    ensures Pausing(es + [e], newcomers, rest)
  {
    StillTried(es, e);
  }

  function StoppedIn(es: seq<Event>): seq<int> {
    if es == [] then []
    else StoppedIn(es[..|es| - 1]) + (if es[|es| - 1].Stopped? then [es[|es| - 1].pid] else [])
  }

  lemma {:induction false} StoppedIsListed(es: seq<Event>, k: nat)
    requires k < |es| && es[k].Stopped?
    ensures es[k].pid in StoppedIn(es)
    decreases |es|
  {
    if k < |es| - 1 {
      StoppedIsListed(es[..|es| - 1], k);
    }
  }

  lemma {:induction false} ListedIsStopped(es: seq<Event>) returns (k: nat)
    requires StoppedIn(es) != []
    ensures k < |es| && es[k].Stopped?
    decreases |es|
  {
    if es[|es| - 1].Stopped? {
      k := |es| - 1;
    } else {
      k := ListedIsStopped(es[..|es| - 1]);
    }
  }

  lemma AnyStopped(es: seq<Event>)
    ensures StoppedIn(es) != [] <==> exists k :: 0 <= k < |es| && es[k].Stopped?
  {
    if StoppedIn(es) != [] {
      var k := ListedIsStopped(es);
    }
    forall k | 0 <= k < |es| && es[k].Stopped? ensures StoppedIn(es) != [] {
      StoppedIsListed(es, k);
    }
  }

  function Resumes(pids: seq<int>): seq<Event> {
    seq(|pids|, k requires 0 <= k < |pids| => Resumed(pids[k]))
  }

  /** Kills only, each to a group that is safe to kill. */
  predicate Kills(es: seq<Event>, own: int) {
    forall k | 0 <= k < |es| ::
      es[k].SessionKilled? || (es[k].GroupKilled? && es[k].group > 1 && (es[k].guarded ==> es[k].group != own))
  }

  /** The kill goes to the group of one of the processes. */
  predicate KillOf(e: Event, panes: set<int>, pgid: int -> Option<int>, knows: int -> bool) {
    e.GroupKilled? &&
    exists pid | pid in panes && pid > 1 ::
      e == GroupKilled(if pgid(pid).Some? then pgid(pid).value else pid, knows(pid))
  }

  /** The kill of the group of `pid` is sent, if one is due. */
  predicate KillSent(kills: seq<Event>, pid: int, pgid: Option<int>, knows: bool, own: int) {
    var group := if pgid.Some? then pgid.value else pid;
    pid > 1 && group > 1 && !(knows && group == own) ==> GroupKilled(group, knows) in kills
  }

  /** A takeover's trace: the pauses, what is sent while waiting, the kills, and the resumes of all
      that were stopped.  There are kills only after a stop that took effect and the whole wait. */
  ghost predicate Trace(pauses: seq<Event>, waits: seq<Event>, kills: seq<Event>, own: int, r: Outcome) {
    && Pauses(pauses) && (waits == [] || waits == [HeadsUp] || waits == [HeadsUp, GraceWaited]) && Kills(kills, own)
    && (kills != [] ==> StoppedIn(pauses) != [] && waits == [HeadsUp, GraceWaited])
    && (r.Aborted? ==> kills == [])
    && (r.Evicted? ==> kills != [] && kills[|kills| - 1].SessionKilled?)
  }

  // --- the supervisor ------------------------------------------------------------------

  class Signaller {
    const own: int
    ghost var sent: seq<Event>
    /** Something other than a refusal by the system went wrong. */
    ghost var failed: bool

    constructor (own: int)
      ensures this.own == own && sent == [] && !failed
    {
      this.own := own;
      sent, failed := [], false;
    }

    /** A single process is stopped; a process that is gone, or refuses, is tolerated. */
    method Stop(pid: int) returns (ok: bool)
      modifies this
      ensures sent == old(sent) + [if ok then Stopped(pid) else StopFailed(pid)] && failed == old(failed)
    {
      ok := *;
      sent := sent + [if ok then Stopped(pid) else StopFailed(pid)];
    }

    /** Every stopped process is sent a continue, whether or not it takes effect. */
    method Resume(pids: seq<int>)
      modifies this
      ensures sent == old(sent) + Resumes(pids) && failed == old(failed)
    {
      ghost var before := sent;
      for k := 0 to |pids|
        invariant sent == before + Resumes(pids[..k]) && failed == old(failed)
      {
        sent := sent + [Resumed(pids[k])];
        assert Resumes(pids[..k + 1]) == Resumes(pids[..k]) + [Resumed(pids[k])];
      }
      assert pids[..|pids|] == pids;
    }

    /** Kill the group of `pid`, unless that is not safe.  `pgid`: its group, where the system answers, else it
        counts as its own; `knows`: the system says which group is the supervisor's. */
    method KillProcessGroup(pid: int, pgid: Option<int>, knows: bool) returns (raised: bool, ghost kills: seq<Event>)
      modifies this
      ensures sent == old(sent) + kills && Kills(kills, own) && (raised || old(failed) ==> failed)
      ensures
        var group := if pgid.Some? then pgid.value else pid;
        kills == if !raised && pid > 1 && group > 1 && !(knows && group == own) then [GroupKilled(group, knows)] else []
    {
      kills := [];
      var pgrp := if knows then Some(own) else None;
      TargetIsSafe(pid, pgid, pgrp, own);
      var target := GroupTarget(pid, pgid, pgrp);
      raised := *;
      failed := failed || raised;
      if target.Some? && !raised {
        kills := [GroupKilled(target.value, knows)];
        sent := sent + kills;
      }
    }

    /** Kill the group of each of the session's processes `panes`, then the session.  Where nothing raises, every
        group that is not the first, nor known to be the supervisor's own, is sent its kill. */
    method KillAgentSession(panes: set<int>, pgid: int -> Option<int>, knows: int -> bool)
      returns (raised: bool, ghost kills: seq<Event>)
      modifies this
      ensures sent == old(sent) + kills && Kills(kills, own)
      ensures if raised then failed else kills != [] && kills[|kills| - 1].SessionKilled?
      ensures old(failed) ==> failed
      ensures forall k | 0 <= k < |kills| && kills[k].SessionKilled? :: !raised && k == |kills| - 1
      ensures !raised ==>
                forall pid | pid in panes && pid > 1 ::
                  var group := if pgid(pid).Some? then pgid(pid).value else pid;
                  group > 1 && !(knows(pid) && group == own) ==> GroupKilled(group, knows(pid)) in kills
      ensures forall k | 0 <= k < |kills| && kills[k].GroupKilled? ::
                exists pid | pid in panes && pid > 1 ::
                  kills[k] == GroupKilled(if pgid(pid).Some? then pgid(pid).value else pid, knows(pid))
    {
      kills := [];
      if * {
        failed := true;
        return true, kills;
      }
      var rest := panes;
      while rest != {}
        invariant rest <= panes
        invariant sent == old(sent) + kills && Kills(kills, own) && (old(failed) ==> failed)
        invariant forall k | 0 <= k < |kills| :: KillOf(kills[k], panes, pgid, knows)
        invariant forall pid | pid in panes && pid !in rest :: KillSent(kills, pid, pgid(pid), knows(pid), own)
      {
        ghost var least := LeastIn(rest);
        var pid :| pid in rest && forall q | q in rest :: pid <= q;
        rest := rest - {pid};
        ghost var more;
        raised, more := KillProcessGroup(pid, pgid(pid), knows(pid));
        assert more != [] ==> KillOf(more[0], panes, pgid, knows);
        kills := kills + more;
        if raised { return; }
      }
      if * {
        failed := true;
        return true, kills;
      }
      kills := kills + [SessionKilled];
      sent := sent + [SessionKilled];
      raised := false;
    }

    /** Stop the newcomers, in ascending order, up to an error. */
    method Pause(newcomers: set<int>) returns (raised: bool, paused: seq<int>, ghost pauses: seq<Event>)
      modifies this
      ensures sent == old(sent) + pauses && Pauses(pauses) && paused == StoppedIn(pauses)
      ensures forall k | 0 <= k < |pauses| :: pauses[k].pid in newcomers
      ensures forall i, k | 0 <= i < k < |pauses| :: pauses[i].pid < pauses[k].pid
      ensures if raised then failed else forall pid | pid in newcomers :: Tried(pauses, pid)
      ensures old(failed) ==> failed
    {
      var rest := newcomers;
      paused, pauses := [], [];
      while rest != {}
        invariant rest <= newcomers
        invariant sent == old(sent) + pauses && paused == StoppedIn(pauses)
        invariant Pausing(pauses, newcomers, rest)
        invariant old(failed) ==> failed
      {
        if * {
          failed := true;
          return true, paused, pauses;
        }
        ghost var least := LeastIn(rest);
        var pid :| pid in rest && forall q | q in rest :: pid <= q;
        rest := rest - {pid};
        var ok := Stop(pid);
        ghost var e := if ok then Stopped(pid) else StopFailed(pid);
        PausedOne(pauses, newcomers, rest, e);
        assert (pauses + [e])[..|pauses|] == pauses;
        pauses := pauses + [e];
        if ok {
          paused := paused + [pid];
        }
      }
      raised := false;
    }

    /** Take the session over for the newcomers from the agent whose processes are `panes`. */
    method TakeOver(newcomers: set<int>, panes: set<int>, pgid: int -> Option<int>, knows: int -> bool)
      returns (r: Outcome, ghost pauses: seq<Event>, ghost waits: seq<Event>, ghost kills: seq<Event>)
      modifies this
      ensures Trace(pauses, waits, kills, own, r)
      ensures sent == old(sent) + pauses + waits + kills + Resumes(StoppedIn(pauses))
      ensures forall k | 0 <= k < |pauses| :: pauses[k].pid in newcomers
      ensures forall i, k | 0 <= i < k < |pauses| :: pauses[i].pid < pauses[k].pid
      ensures r.Evicted? ==> StoppedIn(pauses) != []
      ensures r.Evicted? ==>
                forall pid | pid in panes && pid > 1 ::
                  var group := if pgid(pid).Some? then pgid(pid).value else pid;
                  group > 1 && !(knows(pid) && group == own) ==> GroupKilled(group, knows(pid)) in kills
      ensures forall k | 0 <= k < |kills| && kills[k].GroupKilled? ::
                exists pid | pid in panes && pid > 1 ::
                  kills[k] == GroupKilled(if pgid(pid).Some? then pgid(pid).value else pid, knows(pid))
      ensures forall k | 0 <= k < |kills| && kills[k].SessionKilled? :: r.Evicted? && k == |kills| - 1
      ensures !failed || waits != [] || kills != [] ==>
                forall pid | pid in newcomers :: Stopped(pid) in pauses || StopFailed(pid) in pauses
      ensures !failed ==> (r.Evicted? <==> exists k :: 0 <= k < |pauses| && pauses[k].Stopped?)
      ensures !failed ==> r == if StoppedIn(pauses) == [] then Aborted else Evicted
    {
      waits, kills := [], [];
      var raised, paused;
      raised, paused, pauses := Pause(newcomers);
      AnyStopped(pauses);
      if raised {
        Resume(paused);
        return Aborted, pauses, waits, kills;
      }
      if paused == [] {
        assert Resumes([]) == [];
        return Aborted, pauses, waits, kills;
      }
      if * {
        failed := true;
        Resume(paused);
        return Aborted, pauses, waits, kills;
      }
      sent, waits := sent + [HeadsUp], [HeadsUp];
      if * {
        failed := true;
        Resume(paused);
        return Aborted, pauses, waits, kills;
      }
      sent, waits := sent + [GraceWaited], [HeadsUp, GraceWaited];
      raised, kills := KillAgentSession(panes, pgid, knows);
      Resume(paused);
      r := if raised then PassedOn else Evicted;
    }
  }

  // --- what every trace keeps ----------------------------------------------------------

  /** Every process that was stopped is sent a continue later. */
  lemma StoppedIsResumed(pauses: seq<Event>, waits: seq<Event>, kills: seq<Event>, own: int, r: Outcome, i: nat)
    requires Trace(pauses, waits, kills, own, r)
    requires var all := pauses + waits + kills + Resumes(StoppedIn(pauses)); i < |all| && all[i].Stopped?
    ensures
      var all := pauses + waits + kills + Resumes(StoppedIn(pauses));
      exists j :: i < j < |all| && all[j] == Resumed(all[i].pid)
  {
    var rest := Resumes(StoppedIn(pauses));
    var all := pauses + waits + kills + rest;
    assert i < |pauses| && all[i] == pauses[i];
    StoppedIsListed(pauses, i);
    var m :| 0 <= m < |StoppedIn(pauses)| && StoppedIn(pauses)[m] == pauses[i].pid;
    assert all[|pauses + waits + kills| + m] == rest[m];
  }

  /** A kill comes only after a newcomer was stopped and the wait was over, and while every newcomer
      that was stopped still is; it never goes to group 0 or 1, nor, as far as the supervisor could
      tell, to its own. */
  lemma KillsAreDue(pauses: seq<Event>, waits: seq<Event>, kills: seq<Event>, own: int, r: Outcome, i: nat)
    requires Trace(pauses, waits, kills, own, r)
    requires var all := pauses + waits + kills + Resumes(StoppedIn(pauses));
      i < |all| && (all[i].GroupKilled? || all[i].SessionKilled?)
    ensures
      var all := pauses + waits + kills + Resumes(StoppedIn(pauses));
      && (exists j :: 0 <= j < i && all[j].Stopped?)
      && (exists j :: 0 <= j < i && all[j].GraceWaited?)
      && (forall j | 0 <= j < i :: !all[j].Resumed?)
      && (forall j | i <= j < |all| :: !all[j].Stopped?)
      && (all[i].GroupKilled? ==> all[i].group > 1 && (all[i].guarded ==> all[i].group != own))
  {
    var rest := Resumes(StoppedIn(pauses));
    var all := pauses + waits + kills + rest;
    var p, w := |pauses|, |waits|;
    assert p + w <= i < p + w + |kills| && all[i] == kills[i - p - w];
    var k := ListedIsStopped(pauses);
    assert all[k] == pauses[k];
    assert all[p + 1] == waits[1] == GraceWaited;
  }
}
