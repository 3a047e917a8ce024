/** What the two watch loops of a box's first process share: the snapshot a pass compares with, the
    detach hook, and the bounded restart of a dead agent. */
module WatchLoop {
  import opened Options
  import opened Lifecycle
  import opened Powers

  /** What one pass of a watch loop did; `committed`: the snapshot it leaves for the next to compare
      with, if it came to its end. */
  datatype Deed = Deed(hook: bool, restarted: bool, closed: bool, committed: Option<AttachState>)

  const IDLE: Deed := Deed(false, false, false, None)

  /** The snapshot that pass `k` compares with: that of the last pass that came to its end, else the
      one taken at the start. */
  function LastCommitted(start: AttachState, deeds: seq<Deed>, k: nat): AttachState
    requires k <= |deeds|
  {
    if k == 0 then start
    else if deeds[k - 1].committed.Some? then deeds[k - 1].committed.value
    else LastCommitted(start, deeds, k - 1)
  }

  /** The detach hook fires at pass `k` exactly if it sees a loss since the last committed snapshot;
      `seen` is the snapshot the pass compares, if it gets to comparing one. */
  predicate HookRightAt(start: AttachState, deeds: seq<Deed>, k: nat, seen: Option<AttachState>)
    requires k < |deeds|
  {
    deeds[k].hook <==> seen.Some? && Lost(LastCommitted(start, deeds, k), seen.value)
  }

  /** The detach hook fires exactly at the passes that see a loss since the last committed snapshot. */
  ghost predicate HooksRight(start: AttachState, deeds: seq<Deed>, seen: seq<Option<AttachState>>)
    requires |deeds| <= |seen|
  {
    forall k | 0 <= k < |deeds| :: HookRightAt(start, deeds, k, seen[k])
  }

  lemma {:induction false} LastStays(start: AttachState, deeds: seq<Deed>, deed: Deed, k: nat)
    requires k <= |deeds|
    ensures LastCommitted(start, deeds + [deed], k) == LastCommitted(start, deeds, k)
  {
    if k > 0 {
      LastStays(start, deeds, deed, k - 1);
    }
  }

  lemma HooksGrow(start: AttachState, deeds: seq<Deed>, seen: seq<Option<AttachState>>, deed: Deed)
    requires |deeds| < |seen| && HooksRight(start, deeds, seen)
    requires deed.hook <==>
             seen[|deeds|].Some? && Lost(LastCommitted(start, deeds, |deeds|), seen[|deeds|].value)
    ensures HooksRight(start, deeds + [deed], seen)
    ensures LastCommitted(start, deeds + [deed], |deeds| + 1)
            == if deed.committed.Some? then deed.committed.value else LastCommitted(start, deeds, |deeds|)
  {
    var more := deeds + [deed];
    LastStays(start, deeds, deed, |deeds|);
    forall k | 0 <= k < |more|
      ensures HookRightAt(start, more, k, seen[k])
    {
      assert k < |deeds| ==> HookRightAt(start, deeds, k, seen[k]);
      LastStays(start, deeds, deed, k);
    }
  }

  lemma {:induction false} LastIs(start: AttachState, deeds: seq<Deed>, i: nat, j: nat)
    requires i < j <= |deeds| && deeds[i].committed.Some?
    requires forall k | i < k < j :: deeds[k].committed.None?
    ensures LastCommitted(start, deeds, j) == deeds[i].committed.value
    decreases j
  {
    if j > i + 1 {
      LastIs(start, deeds, i, j - 1);
    }
  }

  /** A surface that is there at one committed snapshot and gone at the next one that is compared fires
      the hook, whatever raises in between. */
  lemma LossFires(start: AttachState, deeds: seq<Deed>, seen: seq<Option<AttachState>>, i: nat, j: nat)
    requires i < j < |deeds| <= |seen| && HooksRight(start, deeds, seen)
    requires deeds[i].committed.Some? && forall k | i < k < j :: deeds[k].committed.None?
    requires seen[j].Some? && Lost(deeds[i].committed.value, seen[j].value)
    ensures deeds[j].hook
  {
    LastIs(start, deeds, i, j);
    assert HookRightAt(start, deeds, j, seen[j]);
  }

  // --- restarting a dead agent ---------------------------------------------------------

  /** What one attempt comes to: the agent lives, it does not, or the attempt raised. */
  datatype Try = Came | Fell | TryRaised

  datatype Heal = Healed | Exhausted | HealRaised

  /** What a bounded retry comes to, if `tries` is what each allowed attempt would. */
  function HealOf(tries: seq<Try>): Heal {
    if tries == [] then Exhausted
    else match tries[0]
      case Came => Healed
      case TryRaised => HealRaised
      case Fell => HealOf(tries[1..])
  }

  /** A pass ends its loop: it closes the box, or restarts the agent and no attempt succeeds. */
  predicate Leaves(tries: seq<Try>, deed: Deed) {
    deed.closed || (deed.restarted && HealOf(tries).Exhausted?)
  }

  /** The last pass left the loop if `done` says so; no other pass did.  `tries`: those of each pass. */
  ghost predicate LeavesRight(tries: seq<seq<Try>>, deeds: seq<Deed>, done: bool)
    requires |deeds| <= |tries|
  {
    forall k | 0 <= k < |deeds| :: Leaves(tries[k], deeds[k]) <==> done && k == |deeds| - 1
  }

  lemma LeavesGrow(tries: seq<seq<Try>>, deeds: seq<Deed>, deed: Deed, out: bool)
    requires |deeds| < |tries| && LeavesRight(tries, deeds, false) && (out <==> Leaves(tries[|deeds|], deed))
    ensures LeavesRight(tries, deeds + [deed], out)
  {
  }

  /** The attempts fell short up to `k`. */
  predicate FellBefore(tries: seq<Try>, k: nat)
    requires k <= |tries|
  {
    forall i | 0 <= i < k :: tries[i].Fell?
  }

  /** The first attempt that does not fall short decides; if there is none, the retries are used up. */
  lemma {:induction false} HealIs(tries: seq<Try>, k: nat)
    requires k <= |tries| && FellBefore(tries, k) && (k < |tries| ==> !tries[k].Fell?)
    ensures HealOf(tries) ==
            if k == |tries| then Exhausted else if tries[k].Came? then Healed else HealRaised
  {
    if k > 0 {
      HealIs(tries[1..], k - 1);
    }
  }

  /** A retry heals if and only if an attempt leaves the agent alive and all before it fell short. */
  lemma {:induction false} HealedIs(tries: seq<Try>)
    ensures HealOf(tries).Healed? <==>
            exists i | 0 <= i < |tries| :: tries[i].Came? && forall j | 0 <= j < i :: tries[j].Fell?
    ensures HealOf(tries).Exhausted? <==> forall i | 0 <= i < |tries| :: tries[i].Fell?
  {
    if tries != [] {
      var rest := tries[1..];
      assert forall i | 0 <= i < |rest| :: rest[i] == tries[i + 1];
      HealedIs(rest);
      if HealOf(rest).Healed? && tries[0].Fell? {
        var i :| 0 <= i < |rest| && rest[i].Came? && forall j | 0 <= j < i :: rest[j].Fell?;
        assert tries[i + 1].Came?;
        assert forall j | 0 <= j < i + 1 :: j > 0 ==> tries[j] == rest[j - 1];
      }
      if i :| 0 < i < |tries| && tries[i].Came? && forall j | 0 <= j < i :: tries[j].Fell? {
        assert rest[i - 1].Came? && forall j | 0 <= j < i - 1 :: rest[j] == tries[j + 1];
      }
    }
  }

  /** Restart a dead agent until an attempt leaves it alive, waiting twice as long after each that does
      not, in units of the set base; there is no wait after the last. */
  method RestartUntilAlive(tries: seq<Try>) returns (r: Heal, attempts: nat, waits: seq<nat>)
    ensures r == HealOf(tries)
    ensures if r.Exhausted? then attempts == |tries| && FellBefore(tries, attempts)
            else 0 < attempts <= |tries| && !tries[attempts - 1].Fell? && FellBefore(tries, attempts - 1)
    ensures |waits| == (if attempts == 0 then 0 else attempts - 1)
    ensures forall i | 0 <= i < |waits| :: waits[i] == Pow2(i)
    ensures (waits != [] ==> waits[0] == 1) && forall i | 0 < i < |waits| :: waits[i] == 2 * waits[i - 1]
  {
    attempts, waits := 0, [];
    while attempts < |tries|
      invariant attempts <= |tries| && FellBefore(tries, attempts)
      invariant |waits| == if attempts == 0 || attempts < |tries| then attempts else attempts - 1
      invariant forall i | 0 <= i < |waits| :: waits[i] == Pow2(i)
    {
      attempts := attempts + 1;
      if !tries[attempts - 1].Fell? {
        HealIs(tries, attempts - 1);
        return if tries[attempts - 1].Came? then Healed else HealRaised, attempts, waits;
      }
      if attempts < |tries| {
        waits := waits + [Pow2(attempts - 1)];
      }
    }
    HealIs(tries, attempts);
    r := Exhausted;
  }
}
