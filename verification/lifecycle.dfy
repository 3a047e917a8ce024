/** Which client surfaces are attached to a box, and what a change of them means. */
module Lifecycle {
  datatype AttachState = AttachState(vscodeServer: bool, tmuxTerminal: bool)

  datatype Event = Attach | Detach | NoChange

  predicate AnyAttached(s: AttachState) {
    s.vscodeServer || s.tmuxTerminal
  }

  function Surfaces(s: AttachState): seq<bool> {
    [s.vscodeServer, s.tmuxTerminal]
  }

  /** Some surface of `prev` is gone in `cur`. */
  predicate Lost(prev: AttachState, cur: AttachState) {
    exists k :: 0 <= k < |Surfaces(prev)| && Surfaces(prev)[k] && !Surfaces(cur)[k]
  }

  predicate AnyPair(a: seq<bool>, b: seq<bool>)
    requires |a| == |b|
  {
    a != [] && ((a[0] && !b[0]) || AnyPair(a[1..], b[1..]))
  }

  function ClassifyTransition(prev: AttachState, cur: AttachState): Event {
    if AnyPair(Surfaces(prev), Surfaces(cur)) then Detach
    else if AnyPair(Surfaces(cur), Surfaces(prev)) then Attach
    else NoChange
  }

  lemma {:induction false} AnyPairIs(a: seq<bool>, b: seq<bool>)
    requires |a| == |b|
    ensures AnyPair(a, b) <==> exists k :: 0 <= k < |a| && a[k] && !b[k]
  {
    if a != [] {
      AnyPairIs(a[1..], b[1..]);
      if k :| 0 <= k < |a| - 1 && a[1..][k] && !b[1..][k] {
        assert a[k + 1] && !b[k + 1];
      }
      if k :| 0 <= k < |a| && a[k] && !b[k] {
        assert k > 0 ==> a[1..][k - 1] && !b[1..][k - 1];
      }
    }
  }

  lemma LostIs(prev: AttachState, cur: AttachState)
    ensures Lost(prev, cur) <==>
            (prev.vscodeServer && !cur.vscodeServer) || (prev.tmuxTerminal && !cur.tmuxTerminal)
  {
    assert Surfaces(prev)[0] == prev.vscodeServer && Surfaces(prev)[1] == prev.tmuxTerminal;
    assert Surfaces(cur)[0] == cur.vscodeServer && Surfaces(cur)[1] == cur.tmuxTerminal;
  }

  /** A loss is a detach even when another surface appears with it; no event is no change. */
  lemma TransitionIs(prev: AttachState, cur: AttachState)
    ensures ClassifyTransition(prev, cur).Detach? <==> Lost(prev, cur)
    ensures ClassifyTransition(prev, cur).Attach? <==> !Lost(prev, cur) && Lost(cur, prev)
    ensures ClassifyTransition(prev, cur).NoChange? <==> prev == cur
    ensures ClassifyTransition(prev, cur).Detach? <==>
            (prev.vscodeServer && !cur.vscodeServer) || (prev.tmuxTerminal && !cur.tmuxTerminal)
  {
    AnyPairIs(Surfaces(prev), Surfaces(cur));
    AnyPairIs(Surfaces(cur), Surfaces(prev));
    LostIs(prev, cur);
    if !Lost(prev, cur) && !Lost(cur, prev) {
      assert Surfaces(prev)[0] == Surfaces(cur)[0] && Surfaces(prev)[1] == Surfaces(cur)[1];
    }
  }
}
