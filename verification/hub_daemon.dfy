/** The watch loop of a hub process: serve its box, rebind a lost socket, exit when the box is gone. */
module HubDaemon {

  const MISS_LIMIT: nat := 3

  datatype HubAction = Serve | Rebind | Exit

  function DecideHub(misses: nat, seenLive: bool, waited: real, grace: real, listening: bool): HubAction {
    if misses >= MISS_LIMIT && (seenLive || waited >= grace) then Exit
    else if listening then Serve
    else Rebind
  }

  /** What one tick finds: is the box live (a failed probe: no), the time, does the hub listen. */
  datatype Tick = Tick(live: bool, now: real, listening: bool)

  /** How a watch ends: stopped by its event, or by a tick at which the box is gone. */
  datatype Watched = Stopped | Gone(tick: nat)

  /** The box is gone at tick `k`: the last reads were all misses, and it was seen before, or has had
      its time to start. */
  predicate BoxGone(ticks: seq<Tick>, k: nat, began: real, grace: real)
    requires k < |ticks|
  {
    && k + 1 >= MISS_LIMIT
    && (forall j | k + 1 - MISS_LIMIT <= j <= k :: !ticks[j].live)
    && ((exists j :: 0 <= j <= k && ticks[j].live) || ticks[k].now - began >= grace)
  }

  /** `misses` is the length of the run of misses that ends with the first `k` ticks. */
  predicate Missed(ticks: seq<Tick>, k: nat, misses: nat)
    requires k <= |ticks|
  {
    && misses <= k
    && (forall j | k - misses <= j < k :: !ticks[j].live)
    && (misses < k ==> ticks[k - misses - 1].live)
  }

  /** Watch through `ticks`, after which the event is set.  `rebinds`: the ticks that bound the
      socket again.  The watch ends at the first tick at which the box is gone, and never otherwise;
      every other tick rebinds iff the hub was not listening. */
  method Watch(ticks: seq<Tick>, began: real, grace: real) returns (r: Watched, rebinds: set<nat>)
    ensures r.Gone? ==> r.tick < |ticks| && BoxGone(ticks, r.tick, began, grace)
    ensures forall k | 0 <= k < (if r.Gone? then r.tick else |ticks|) :: !BoxGone(ticks, k, began, grace)
    ensures forall k: nat :: k in rebinds <==> k < (if r.Gone? then r.tick else |ticks|) && !ticks[k].listening
  {
    var seenLive, misses := false, 0;
    rebinds := {};
    for i := 0 to |ticks|
      invariant seenLive <==> exists j :: 0 <= j < i && ticks[j].live
      invariant Missed(ticks, i, misses)
      invariant forall k | 0 <= k < i :: !BoxGone(ticks, k, began, grace)
      invariant forall k: nat :: k in rebinds <==> k < i && !ticks[k].listening
    {
      var live := ticks[i].live;
      seenLive := seenLive || live;
      misses := if live then 0 else misses + 1;
      assert Missed(ticks, i + 1, misses);
      GoneIff(ticks, i, misses, began, grace);
      var action := DecideHub(misses, seenLive, ticks[i].now - began, grace, ticks[i].listening);
      if action.Exit? { return Gone(i), rebinds; }
      if action.Rebind? {
        rebinds := rebinds + {i};
      }
    }
    r := Stopped;
  }

  /** The counter reaches the limit iff the last reads were all misses. */
  lemma GoneIff(ticks: seq<Tick>, k: nat, misses: nat, began: real, grace: real)
    requires k < |ticks| && Missed(ticks, k + 1, misses)
    ensures BoxGone(ticks, k, began, grace) <==>
            misses >= MISS_LIMIT && ((exists j :: 0 <= j <= k && ticks[j].live) || ticks[k].now - began >= grace)
    ensures BoxGone(ticks, k, began, grace) <==>
            && k >= 2 && !ticks[k - 2].live && !ticks[k - 1].live && !ticks[k].live
            && ((exists j :: 0 <= j <= k && ticks[j].live) || ticks[k].now - began >= grace)
  {
    if k + 1 >= MISS_LIMIT && misses < MISS_LIMIT {
      assert ticks[k - misses].live;
    }
  }

  /** A live read puts off the end by at least the limit, whatever else happens. */
  lemma LiveReadPutsOff(ticks: seq<Tick>, j: nat, k: nat, began: real, grace: real)
    requires j <= k < |ticks| && ticks[j].live && BoxGone(ticks, k, began, grace)
    ensures k >= j + MISS_LIMIT
  {
    assert j < k + 1 - MISS_LIMIT;
  }
}
