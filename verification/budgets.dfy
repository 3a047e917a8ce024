/** Spawn budgets: what each helper may spawn, and what that makes of the whole tree. */
module Budgets {
  import opened Options

  /** -1 is no limit. */
  datatype Budget = Budget(depth: int, breadth: int)

  datatype Refusal = DepthExhausted | BreadthReached

  function CheckSpawnAllowed(budget: Budget, children: nat): Option<Refusal> {
    if budget.depth == 0 then Some(DepthExhausted)
    else if budget.breadth != -1 && children >= budget.breadth then Some(BreadthReached)
    else None
  }

  function ChildBudget(parent: Budget): Budget {
    Budget(if parent.depth == -1 then parent.depth else parent.depth - 1, parent.breadth)
  }

  function Resolve(handed: Option<Budget>, own: Option<Budget>, cliDepth: Option<int>, cliBreadth: Option<int>,
                   defaults: Budget): Budget {
    if handed.Some? then handed.value
    else if own.Some? then own.value
    else Budget(if cliDepth.Some? then cliDepth.value else defaults.depth,
                if cliBreadth.Some? then cliBreadth.value else defaults.breadth)
  }

  /** A helper and the helpers below it. */
  datatype Tree = Node(kids: seq<Tree>)

  /** A box's own settings and flags, which it may set as it likes. */
  datatype Wish = Wish(own: Option<Budget>, cliDepth: Option<int>, cliBreadth: Option<int>, defaults: Budget)

  /** A helper, found by the positions on the way to it, spawns one more, or loses one. */
  datatype Step = Spawn(at: seq<nat>, wish: Wish) | Remove(at: seq<nat>, kid: nat)

  /** The tree after a step, if it is allowed: the spawner asks with the children it has and with the
      budget it was handed, and hands its child `ChildBudget`. */
  function Apply(t: Tree, handed: Budget, step: Step): Option<Tree>
    decreases |step.at|
  {
    if step.at == [] then
      if step.Spawn? then
        var budget := Resolve(Some(handed), step.wish.own, step.wish.cliDepth, step.wish.cliBreadth,
                              step.wish.defaults);
        if CheckSpawnAllowed(budget, |t.kids|).None? then Some(Node(t.kids + [Node([])])) else None
      else if step.kid < |t.kids| then Some(Node(t.kids[..step.kid] + t.kids[step.kid + 1..]))
      else None
    else if step.at[0] < |t.kids| then
      var kid := Apply(t.kids[step.at[0]], ChildBudget(handed), step.(at := step.at[1..]));
      if kid.Some? then Some(Node(t.kids[step.at[0] := kid.value])) else None
    else None
  }

  /** The tree after a run of steps, each of them allowed. */
  function Run(t: Tree, handed: Budget, steps: seq<Step>): Option<Tree>
    decreases |steps|
  {
    if steps == [] then Some(t)
    else
      var next := Apply(t, handed, steps[0]);
      if next.Some? then Run(next.value, handed, steps[1..]) else None
  }

  /** Every helper keeps to the budget it was handed. */
  predicate Within(t: Tree, budget: Budget) {
    && (t.kids != [] ==> budget.depth != 0)
    && (budget.breadth != -1 && t.kids != [] ==> |t.kids| <= budget.breadth)
    && forall k | 0 <= k < |t.kids| :: Within(t.kids[k], ChildBudget(budget))
  }

  lemma {:induction false} StepWithin(t: Tree, handed: Budget, step: Step)
    requires Within(t, handed) && Apply(t, handed, step).Some?
    ensures Within(Apply(t, handed, step).value, handed)
    decreases |step.at|
  {
    if step.at != [] {
      StepWithin(t.kids[step.at[0]], ChildBudget(handed), step.(at := step.at[1..]));
    }
  }

  lemma {:induction false} RunWithin(t: Tree, handed: Budget, steps: seq<Step>)
    requires Within(t, handed) && Run(t, handed, steps).Some?
    ensures Within(Run(t, handed, steps).value, handed)
    decreases |steps|
  {
    if steps != [] {
      StepWithin(t, handed, steps[0]);
      RunWithin(Apply(t, handed, steps[0]).value, handed, steps[1..]);
    }
  }

  // --- height and size -----------------------------------------------------------------

  function Height(t: Tree): nat {
    MaxHeight(t.kids)
  }

  /** The height of a tree above these helpers. */
  function MaxHeight(kids: seq<Tree>): nat {
    if kids == [] then 0
    else
      var h, rest := 1 + Height(kids[0]), MaxHeight(kids[1..]);
      if h > rest then h else rest
  }

  /** How many helpers there are below. */
  function Count(t: Tree): nat {
    CountAll(t.kids)
  }

  function CountAll(kids: seq<Tree>): nat {
    if kids == [] then 0 else 1 + Count(kids[0]) + CountAll(kids[1..])
  }

  function Pow(b: nat, e: nat): nat {
    if e == 0 then 1 else b * Pow(b, e - 1)
  }

  /** b + b^2 + ... + b^d */
  function PowerSum(b: nat, d: nat): nat {
    if d == 0 then 0 else PowerSum(b, d - 1) + Pow(b, d)
  }

  lemma {:induction false} PowerSumShift(b: nat, d: nat)
    ensures PowerSum(b, d + 1) == b * (1 + PowerSum(b, d))
  {
    if d > 0 {
      PowerSumShift(b, d - 1);
      assert b * (1 + PowerSum(b, d - 1)) + b * Pow(b, d) == b * (1 + PowerSum(b, d - 1) + Pow(b, d));
    } else {
      assert Pow(b, 1) == b * Pow(b, 0);
    }
  }

  /** A tree within a budget is no deeper than its depth and no larger than its power sum. */
  lemma {:induction false} TreeBounded(t: Tree, d: nat, b: nat)
    requires Within(t, Budget(d, b))
    ensures Height(t) <= d && Count(t) <= PowerSum(b, d)
    decreases d, 0
  {
    if d > 0 {
      KidsBounded(t.kids, d - 1, b);
      PowerSumShift(b, d - 1);
      Widen(|t.kids|, if t.kids == [] then 0 else b, 1 + PowerSum(b, d - 1));
    }
  }

  lemma {:induction false} KidsBounded(kids: seq<Tree>, d: nat, b: nat)
    requires forall k | 0 <= k < |kids| :: Within(kids[k], Budget(d, b))
    ensures MaxHeight(kids) <= d + 1
    ensures CountAll(kids) <= |kids| * (1 + PowerSum(b, d))
    decreases d, 1, |kids|
  {
    if kids != [] {
      TreeBounded(kids[0], d, b);
      KidsBounded(kids[1..], d, b);
      var p := 1 + PowerSum(b, d);
      assert |kids| * p == p + (|kids| - 1) * p;
    }
  }

  lemma Widen(n: nat, m: nat, p: nat)
    requires n <= m
    ensures n * p <= m * p
  {
  }

  /** However helpers are spawned and removed, and whatever settings and flags they try, the tree of a
      director with depth d and breadth b stays within the bounds. */
  lemma TreesBounded(d: nat, b: nat, steps: seq<Step>)
    requires Run(Node([]), Budget(d, b), steps).Some?
    ensures
      var t := Run(Node([]), Budget(d, b), steps).value;
      Height(t) <= d && Count(t) <= PowerSum(b, d)
  {
    RunWithin(Node([]), Budget(d, b), steps);
    TreeBounded(Run(Node([]), Budget(d, b), steps).value, d, b);
  }

  // --- the bounds are met --------------------------------------------------------------

  /** The tree in which every helper spawns all it may. */
  function Full(b: nat, d: nat): Tree
    decreases d
  {
    if d == 0 then Node([]) else Node(seq(b, k => Full(b, d - 1)))
  }

  /** ... is allowed ... */
  lemma {:induction false} FullWithin(b: nat, d: nat)
    ensures Within(Full(b, d), Budget(d, b))
    decreases d
  {
    if d > 0 {
      var t := Full(b, d);
      FullWithin(b, d - 1);
      assert forall k | 0 <= k < |t.kids| :: t.kids[k] == Full(b, d - 1);
    }
  }

  /** ... and meets both bounds. */
  lemma {:induction false} FullMeets(b: nat, d: nat)
    ensures Count(Full(b, d)) == PowerSum(b, d) && (b > 0 ==> Height(Full(b, d)) == d)
    decreases d
  {
    if d > 0 {
      FullMeets(b, d - 1);
      SameKids(Full(b, d).kids, Full(b, d - 1));
      PowerSumShift(b, d - 1);
    }
  }

  lemma {:induction false} SameKids(kids: seq<Tree>, kid: Tree)
    requires forall k | 0 <= k < |kids| :: kids[k] == kid
    ensures CountAll(kids) == |kids| * (1 + Count(kid))
    ensures kids != [] ==> MaxHeight(kids) == 1 + Height(kid)
    decreases |kids|
  {
    if kids != [] {
      SameKids(kids[1..], kid);
      var p := 1 + Count(kid);
      assert |kids| * p == p + (|kids| - 1) * p;
    }
  }

  // --- what can be reached -------------------------------------------------------------

  lemma {:induction false} RunJoin(t: Tree, handed: Budget, a: seq<Step>, b: seq<Step>)
    requires Run(t, handed, a).Some?
    ensures Run(t, handed, a + b) == Run(Run(t, handed, a).value, handed, b)
    decreases |a|
  {
    if a == [] {
      assert a + b == b;
    } else {
      assert (a + b)[0] == a[0] && (a + b)[1..] == a[1..] + b;
      RunJoin(Apply(t, handed, a[0]).value, handed, a[1..], b);
    }
  }

  /** The same steps, in the tree of the helper at position `k`. */
  function Under(k: nat, steps: seq<Step>): seq<Step> {
    seq(|steps|, i requires 0 <= i < |steps| => steps[i].(at := [k] + steps[i].at))
  }

  lemma {:induction false} RunUnder(t: Tree, handed: Budget, k: nat, steps: seq<Step>)
    requires k < |t.kids| && Run(t.kids[k], ChildBudget(handed), steps).Some?
    ensures Run(t, handed, Under(k, steps))
            == Some(Node(t.kids[k := Run(t.kids[k], ChildBudget(handed), steps).value]))
    decreases |steps|
  {
    if steps == [] {
      assert t.kids[k := t.kids[k]] == t.kids;
    } else {
      var first := Under(k, steps)[0];
      assert first.at[1..] == steps[0].at && first.(at := first.at[1..]) == steps[0];
      var kid := Apply(t.kids[k], ChildBudget(handed), steps[0]).value;
      var next := Node(t.kids[k := kid]);
      assert Apply(t, handed, first) == Some(next);
      assert Under(k, steps)[1..] == Under(k, steps[1..]);
      RunUnder(next, handed, k, steps[1..]);
      var last := Run(kid, ChildBudget(handed), steps[1..]).value;
      assert next.kids[k := last] == t.kids[k := last];
    }
  }

  /** Every tree in which each helper keeps to its budget can be reached by spawns alone. */
  lemma {:induction false} WithinIsReached(t: Tree, handed: Budget) returns (steps: seq<Step>)
    requires Within(t, handed)
    ensures Run(Node([]), handed, steps) == Some(t)
    decreases t, |t.kids| + 1
  {
    steps := FirstKids(t, handed, |t.kids|);
    assert t.kids[..|t.kids|] == t.kids;
  }

  lemma {:induction false} FirstKids(t: Tree, handed: Budget, k: nat) returns (steps: seq<Step>)
    requires Within(t, handed) && k <= |t.kids|
    ensures Run(Node([]), handed, steps) == Some(Node(t.kids[..k]))
    decreases t, k
  {
    steps := [];
    if k > 0 {
      var before := FirstKids(t, handed, k - 1);
      var kid := t.kids[k - 1];
      var inner := WithinIsReached(kid, ChildBudget(handed));
      var spawn := Spawn([], Wish(None, None, None, handed));
      var one := Node(t.kids[..k - 1] + [Node([])]);
      assert Apply(Node(t.kids[..k - 1]), handed, spawn) == Some(one);
      RunUnder(one, handed, k - 1, inner);
      assert one.kids[k - 1 := kid] == t.kids[..k];
      assert ([spawn] + Under(k - 1, inner))[1..] == Under(k - 1, inner);
      RunJoin(Node([]), handed, before, [spawn] + Under(k - 1, inner));
      steps := before + ([spawn] + Under(k - 1, inner));
    }
  }

  /** A tree can be reached by spawns and removals if and only if each helper in it keeps to its budget: it has
      helpers below it only with depth left, and no more than its breadth. */
  lemma ReachedIff(t: Tree, handed: Budget)
    ensures (exists steps :: Run(Node([]), handed, steps) == Some(t)) <==> Within(t, handed)
    ensures Within(t, handed) <==>
            && (t.kids != [] ==> handed.depth != 0 && (handed.breadth == -1 || |t.kids| <= handed.breadth))
            && forall k | 0 <= k < |t.kids| ::
                 Within(t.kids[k], Budget(if handed.depth == -1 then -1 else handed.depth - 1, handed.breadth))
  {
    if Within(t, handed) {
      var steps := WithinIsReached(t, handed);
    }
    forall steps | Run(Node([]), handed, steps) == Some(t) ensures Within(t, handed) {
      RunWithin(Node([]), handed, steps);
    }
  }

  // --- flags ---------------------------------------------------------------------------

  /** A budget handed down, or set for the box, is not changed by any flag; and what was handed down
      is not changed by the box's settings either. */
  lemma FlagsRaiseNothing(handed: Option<Budget>, own: Option<Budget>, a: Wish, b: Wish)
    ensures handed.Some? || own.Some? ==>
              Resolve(handed, own, a.cliDepth, a.cliBreadth, a.defaults)
                == Resolve(handed, own, b.cliDepth, b.cliBreadth, b.defaults)
    ensures handed.Some? ==> Resolve(handed, a.own, a.cliDepth, a.cliBreadth, a.defaults) == handed.value
    ensures handed.None? && own.Some? ==> Resolve(handed, own, a.cliDepth, a.cliBreadth, a.defaults) == own.value
    ensures handed.None? && own.None? ==>
              && Resolve(handed, own, a.cliDepth, a.cliBreadth, a.defaults).depth
                 == (if a.cliDepth.Some? then a.cliDepth.value else a.defaults.depth)
              && Resolve(handed, own, a.cliDepth, a.cliBreadth, a.defaults).breadth
                 == (if a.cliBreadth.Some? then a.cliBreadth.value else a.defaults.breadth)
  {
  }
}
