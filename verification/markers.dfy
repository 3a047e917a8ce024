/** The markers directory: one file a running agent, named by its pid.  A scan reports a stale marker
    and removes it, so that a death is seen once. */
module Markers {
  import opened Collections

  /** What the probes say of a marker's pid: a probe raised, no such process, the agent session, alive
      but not the session, or alive and not to be judged. */
  datatype Judge = ProbeRaised | Gone | Session | NotSession | CannotJudge

  type Judges = map<int, Judge>

  function JudgeOf(judges: Judges, pid: int): Judge {
    if pid in judges then judges[pid] else ProbeRaised
  }

  /** What a scan meets: a directory that cannot be listed shows no marker. */
  datatype Look = Look(listed: bool, judges: Judges)

  predicate IsDead(judges: Judges, pid: int) {
    pid > 0 && (JudgeOf(judges, pid).Gone? || JudgeOf(judges, pid).NotSession?)
  }

  predicate IsAlive(judges: Judges, pid: int) {
    pid > 0 && (JudgeOf(judges, pid).Session? || JudgeOf(judges, pid).CannotJudge?)
  }

  /** The scan reports the marker as stale. */
  predicate IsStale(look: Look, pid: int) {
    look.listed && IsDead(look.judges, pid)
  }

  /** The scan reports the marker as live. */
  predicate IsLive(look: Look, pid: int) {
    look.listed && IsAlive(look.judges, pid)
  }

  function Stale(pids: set<int>, look: Look): set<int> {
    set p | p in pids && IsStale(look, p)
  }

  function Live(pids: set<int>, look: Look): set<int> {
    set p | p in pids && IsLive(look, p)
  }

  class MarkerDir {
    var pids: set<int>

    constructor (pids: set<int>)
      ensures this.pids == pids
    {
      this.pids := pids;
    }

    /** An agent writes its marker. */
    method Write(written: set<int>)
      modifies this
      ensures pids == old(pids) + written
    {
      pids := pids + written;
    }

    method Remove(pid: int)
      modifies this
      ensures pids == old(pids) - {pid}
    {
      pids := pids - {pid};
    }

    /** Tell the live from the stale, and remove the stale: never one that is alive and not judged to
        be something else, and never one a probe raised on.  A listing that raises is swallowed. */
    method Scan(look: Look) returns (live: set<int>, stale: set<int>)
      modifies this
      ensures live == Live(old(pids), look) && stale == Stale(old(pids), look)
      ensures pids == old(pids) - stale
    {
      ghost var all := pids;
      live, stale := {}, {};
      if !look.listed { return; }
      var left := pids;
      while left != {}
        invariant left <= all
        invariant live == Live(all - left, look) && stale == Stale(all - left, look)
        invariant pids == all - stale
      {
        ghost var some := SomeIn(left);
        var pid :| pid in left;
        ghost var seen := all - left;
        left := left - {pid};
        assert all - left == seen + {pid};
        SeenMore(seen, pid, look);
        if pid > 0 && !JudgeOf(look.judges, pid).ProbeRaised? {
          var alive := !JudgeOf(look.judges, pid).Gone?;
          if alive && JudgeOf(look.judges, pid).NotSession? {
            alive := false;
          }
          if alive {
            live := live + {pid};
          } else {
            stale := stale + {pid};
            Remove(pid);
          }
        }
      }
      assert all - {} == all;
    }
  }

  lemma SeenMore(seen: set<int>, pid: int, look: Look)
    ensures Live(seen + {pid}, look) == Live(seen, look) + (if IsLive(look, pid) then {pid} else {})
    ensures Stale(seen + {pid}, look) == Stale(seen, look) + (if IsStale(look, pid) then {pid} else {})
  {
  }

  // --- over whole runs -----------------------------------------------------------------

  /** Between and at the scans: a marker is written, or the directory is scanned. */
  datatype Step = Write(pid: int) | Scan(look: Look)

  function After(pids: set<int>, step: Step): set<int> {
    match step
    case Write(pid) => pids + {pid}
    case Scan(look) => pids - Stale(pids, look)
  }

  function Reported(pids: set<int>, step: Step): set<int> {
    match step
    case Write(_) => {}
    case Scan(look) => Stale(pids, look)
  }

  function AfterAll(pids: set<int>, steps: seq<Step>): set<int>
    decreases |steps|
  {
    if steps == [] then pids else AfterAll(After(pids, steps[0]), steps[1..])
  }

  /** How many stale markers the scans report, one scan after the other. */
  function Reports(pids: set<int>, steps: seq<Step>): nat
    decreases |steps|
  {
    if steps == [] then 0 else |Reported(pids, steps[0])| + Reports(After(pids, steps[0]), steps[1..])
  }

  function Writes(steps: seq<Step>): nat {
    if steps == [] then 0 else (if steps[0].Write? then 1 else 0) + Writes(steps[1..])
  }

  lemma StepCounts(pids: set<int>, step: Step)
    ensures |Reported(pids, step)| + |After(pids, step)| <= |pids| + (if step.Write? then 1 else 0)
  {
    match step
    case Write(pid) =>
      if pid in pids {
        assert pids + {pid} == pids;
      }
    case Scan(look) =>
      assert Stale(pids, look) <= pids;
  }

  /** The scans of any run report no more deaths than there were markers, at the start or written. */
  lemma {:induction false} ReportsBounded(pids: set<int>, steps: seq<Step>)
    ensures Reports(pids, steps) + |AfterAll(pids, steps)| <= |pids| + Writes(steps)
    ensures (forall k | 0 <= k < |steps| :: steps[k].Scan?) ==> Reports(pids, steps) <= |pids|
    ensures Reports(pids, steps) <= |pids| + |steps|
    decreases |steps|
  {
    if steps != [] {
      StepCounts(pids, steps[0]);
      ReportsBounded(After(pids, steps[0]), steps[1..]);
    }
  }

  /** A marker that is not there is not reported, until it is written again. */
  lemma {:induction false} AbsentUntilWritten(pids: set<int>, steps: seq<Step>, pid: int, k: nat)
    requires pid !in pids && k < |steps| && forall j | 0 <= j < k :: steps[j] != Write(pid)
    ensures pid !in Reported(AfterAll(pids, steps[..k]), steps[k])
    decreases |steps|
  {
    if k > 0 {
      AbsentUntilWritten(After(pids, steps[0]), steps[1..], pid, k - 1);
      assert steps[..k][1..] == steps[1..][..k - 1];
    } else {
      assert steps[..0] == [];
    }
  }

  /** A stale marker is reported by exactly one scan: the first that judges it stale, and no later one
      unless it is written again. */
  lemma ReportedOnce(pids: set<int>, steps: seq<Step>, pid: int, k: nat)
    requires steps != [] && pid in Reported(pids, steps[0])
    requires 0 < k < |steps| && forall j | 0 < j < k :: steps[j] != Write(pid)
    ensures pid !in Reported(AfterAll(pids, steps[..k]), steps[k])
  {
    AbsentUntilWritten(After(pids, steps[0]), steps[1..], pid, k - 1);
    assert steps[..k][1..] == steps[1..][..k - 1];
  }

  /** A marker that no scan judges stale stays, however often it is scanned. */
  lemma {:induction false} UnjudgedStays(pids: set<int>, steps: seq<Step>, pid: int)
    requires pid in pids && forall k | 0 <= k < |steps| && steps[k].Scan? :: !IsStale(steps[k].look, pid)
    ensures pid in AfterAll(pids, steps)
    decreases |steps|
  {
    if steps != [] {
      UnjudgedStays(After(pids, steps[0]), steps[1..], pid);
    }
  }
}
