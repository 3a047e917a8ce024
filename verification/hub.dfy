/** The hub that launches helpers: the number counter, who holds a number, and the connections.
    Each request is one step. */
module Hub {
  import opened Collections
  import opened Decimal
  import H = HelperTree
  import opened Options

  /** A helper's home directory: the names on the way to it. */
  type Home = seq<string>
  type Conn = nat

  /** How the calls that stop and remove a container end: it is gone, the runtime answers that it did not
      do it, or a call raises. */
  datatype Halt = Gone | Refused | HaltRaised

  /** What was done: a number handed out by the counter, a container launched under a number, or that
      container asked to stop and go, with the way it ended. */
  datatype Event = Handed(num: nat) | Launched(num: nat) | Asked(num: nat, end: Halt)

  datatype State = State(
    next: nat,                     // the next number to hand out
    homes: map<nat, Home>,         // number -> the home it was launched into
    containers: seq<nat>,          // the containers held, by the number their name is rendered from
    connections: map<nat, Conn>,   // number -> its registered connection
    log: seq<Event>)

  datatype Request =
    | GetNumber
    | Spawn(num: int, requester: Option<nat>, launched: bool)
    | Stop(named: Option<nat>, running: Option<bool>, end: Halt)
    | Register(num: int, conn: Conn)
    | Unregister(held: nat, conn: Conn)

  datatype Reply = Done | Number(num: nat) | InvalidNumber | UnknownRequester | Taken | LaunchFailed
    | NotRunning | NotOurs | Unverified | Dropped

  /** Where a spawn puts its helper: under the requester's home, or the director's (`None`). */
  function HomeOf(s: State, top: Home, num: nat, requester: Option<nat>): Home
    requires requester.Some? ==> requester.value in s.homes
  {
    (if requester.None? then top else s.homes[requester.value] + ["helpers"]) + [Render(num)]
  }

  function SpawnReply(s: State, top: Home, num: int, requester: Option<nat>, launched: bool): Reply {
    if num < 0 then InvalidNumber
    else if requester.Some? && requester.value !in s.homes then UnknownRequester
    else if num in s.homes && s.homes[num] != HomeOf(s, top, num, requester) then Taken
    else if launched then Done
    else LaunchFailed
  }

  function ReplyTo(s: State, top: Home, r: Request): Reply {
    match r
    case GetNumber => Number(s.next)
    case Spawn(num, requester, launched) => SpawnReply(s, top, num, requester, launched)
    case Stop(held, running, end) =>
      if held.Some? && held.value in s.containers then if end.HaltRaised? then Dropped else Done
      else if running.None? then Unverified
      else if running.value then NotOurs
      else NotRunning
    case Register(num, _) => if num < 0 then InvalidNumber else Done
    case Unregister(_, _) => Done
  }

  function Without(s: seq<nat>, n: nat): (r: seq<nat>)
    ensures forall m | m in r :: m in s
  {
    if s == [] then [] else if s[0] == n then s[1..] else [s[0]] + Without(s[1..], n)
  }

  function Next(s: State, top: Home, r: Request): State {
    match r
    case GetNumber => s.(next := s.next + 1, log := s.log + [Handed(s.next)])
    case Spawn(num, requester, launched) =>
      var reply := SpawnReply(s, top, num, requester, launched);
      if !reply.Done? && !reply.LaunchFailed? then s
      else
        var t := s.(next := if num < s.next then s.next else num + 1);
        if reply.LaunchFailed? then t
        else t.(homes := s.homes[num := HomeOf(s, top, num, requester)],
                containers := if num in s.containers then s.containers else s.containers + [num],
                log := s.log + [Launched(num)])
    case Stop(held, _, end) =>
      if held.None? || held.value !in s.containers then s
      else s.(containers := if end.HaltRaised? then s.containers else Without(s.containers, held.value),
              log := s.log + [Asked(held.value, end)])
    case Register(num, conn) => if num < 0 then s else s.(connections := s.connections[num := conn])
    case Unregister(num, conn) =>
      if num in s.connections && s.connections[num] == conn then s.(connections := s.connections - {num}) else s
  }

  function Run(s: State, top: Home, requests: seq<Request>): State
    decreases |requests|
  {
    if requests == [] then s else Run(Next(s, top, requests[0]), top, requests[1..])
  }

  // --- what every run keeps ------------------------------------------------------------

  /** Every number that has a home is behind the counter, and the home's name is the number's. */
  predicate HomesKept(s: State) {
    && (forall n | n in s.homes :: n < s.next && s.homes[n] != [] && s.homes[n][|s.homes[n]| - 1] == Render(n))
    && (forall n | n in s.containers :: n in s.homes)
  }

  /** The counter is past every number given out, and what it gave out was past all before it. */
  predicate LogKept(log: seq<Event>, next: nat) {
    && (forall i | 0 <= i < |log| :: log[i].num < next)
    && (forall i, j | 0 <= i < j < |log| && log[j].Handed? :: log[i].num < log[j].num)
  }

  predicate Inv(s: State) {
    HomesKept(s) && LogKept(s.log, s.next)
  }

  predicate PastAll(log: seq<Event>, seed: nat) {
    forall i | 0 <= i < |log| && log[i].Handed? :: seed < log[i].num
  }

  /** `t` is later than `s`: the counter never goes back, no number changes its home, and what was
      given out stays on the log. */
  predicate Later(s: State, t: State) {
    && s.next <= t.next && s.log <= t.log
    && (forall n | n in s.homes :: n in t.homes && t.homes[n] == s.homes[n])
  }

  lemma LogMore(log: seq<Event>, next: nat, e: Event, later: nat)
    requires LogKept(log, next) && next <= later && e.num < later && (e.Handed? ==> next <= e.num)
    ensures LogKept(log + [e], later)
  {
  }

  lemma StepKeepsLog(s: State, top: Home, r: Request)
    requires Inv(s)
    ensures LogKept(Next(s, top, r).log, Next(s, top, r).next)
    ensures forall seed: nat | PastAll(s.log, seed) && seed < s.next :: PastAll(Next(s, top, r).log, seed)
  {
    var t := Next(s, top, r);
    if t.log != s.log {
      LogMore(s.log, s.next, t.log[|s.log|], t.next);
    }
  }

  lemma SpawnKeepsHomes(s: State, top: Home, r: Request)
    requires HomesKept(s) && r.Spawn?
    ensures HomesKept(Next(s, top, r))
  {
    var t := Next(s, top, r);
    forall n | n in t.homes
      ensures n < t.next && t.homes[n] != [] && t.homes[n][|t.homes[n]| - 1] == Render(n)
    {
      assert n in s.homes || n == r.num;
    }
  }

  lemma StepKeepsHomes(s: State, top: Home, r: Request)
    requires HomesKept(s)
    ensures HomesKept(Next(s, top, r))
  {
    if r.Spawn? {
      SpawnKeepsHomes(s, top, r);
    }
  }

  lemma StepIsLater(s: State, top: Home, r: Request)
    ensures Later(s, Next(s, top, r))
  {
  }

  lemma StepKeeps(s: State, top: Home, r: Request)
    requires Inv(s)
    ensures Inv(Next(s, top, r)) && Later(s, Next(s, top, r))
  {
    StepKeepsHomes(s, top, r);
    StepKeepsLog(s, top, r);
    StepIsLater(s, top, r);
  }

  lemma {:induction false} RunKeeps(s: State, top: Home, requests: seq<Request>)
    requires Inv(s)
    ensures Inv(Run(s, top, requests)) && Later(s, Run(s, top, requests))
    decreases |requests|
  {
    if requests != [] {
      StepKeeps(s, top, requests[0]);
      RunKeeps(Next(s, top, requests[0]), top, requests[1..]);
    }
  }

  /** A number whose container is held keeps its home for the rest of the hub's life, and no other
      number ever has that home. */
  lemma NeverRebound(s: State, top: Home, requests: seq<Request>, n: nat)
    requires Inv(s) && n in s.containers
    ensures
      var t := Run(s, top, requests);
      && n in t.homes && t.homes[n] == s.homes[n]
      && forall m | m in t.homes && m != n :: t.homes[m] != t.homes[n]
  {
    RunKeeps(s, top, requests);
    var t := Run(s, top, requests);
    forall m | m in t.homes && m != n ensures t.homes[m] != t.homes[n] {
      if Render(m) == Render(n) {
        RenderInjective(m, n);
      }
    }
  }

  /** A hub as it starts, with what its helpers directory holds. */
  function Started(seed: nat): State {
    State(seed + 1, map[], [], map[], [])
  }

  /** Over any requests, the numbers handed out go up, each past the seed and past every number handed
      out or launched before it. */
  lemma NumbersGoUp(seed: nat, top: Home, requests: seq<Request>, i: nat, j: nat)
    requires i < j < |Run(Started(seed), top, requests).log|
    requires Run(Started(seed), top, requests).log[j].Handed?
    ensures
      var log := Run(Started(seed), top, requests).log;
      log[i].num < log[j].num && seed < log[j].num
  {
    RunKeeps(Started(seed), top, requests);
    PastSeed(Started(seed), top, requests, seed);
  }

  lemma {:induction false} PastSeed(s: State, top: Home, requests: seq<Request>, seed: nat)
    requires Inv(s) && seed < s.next && PastAll(s.log, seed)
    ensures PastAll(Run(s, top, requests).log, seed)
    decreases |requests|
  {
    if requests != [] {
      StepKeeps(s, top, requests[0]);
      StepKeepsLog(s, top, requests[0]);
      PastSeed(Next(s, top, requests[0]), top, requests[1..], seed);
    }
  }

  /** A hub that starts past `seed` hands out `n` in answer to these requests. */
  predicate HandsOut(seed: nat, top: Home, requests: seq<Request>, n: nat) {
    Handed(n) in Run(Started(seed), top, requests).log
  }

  lemma {:induction false} AskedOften(s: State, top: Home, k: nat)
    requires k > 0
    ensures Handed(s.next + k - 1) in Run(s, top, seq(k, _ => GetNumber)).log
    decreases k
  {
    var t := Next(s, top, GetNumber);
    assert seq(k, _ => GetNumber)[1..] == seq(k - 1, _ => GetNumber);
    if k > 1 {
      AskedOften(t, top, k - 1);
    } else {
      assert t.log[|s.log|] == Handed(s.next);
      assert Run(t, top, []) == t;
    }
  }

  /** Exactly the numbers past the seed can be handed out. */
  lemma HandsOutIff(seed: nat, top: Home, n: nat)
    ensures n > seed <==> exists requests :: HandsOut(seed, top, requests, n)
  {
    if n > seed {
      AskedOften(Started(seed), top, n - seed);
      assert HandsOut(seed, top, seq(n - seed, _ => GetNumber), n);
    }
    forall requests | HandsOut(seed, top, requests, n) ensures n > seed {
      PastSeed(Started(seed), top, requests, seed);
    }
  }

  /** No run of a hub hands out the number of a helper that was on disk when it started if and only if
      what is below oddly named helper directories has no greater numbers than what is listed. */
  lemma HandedIsNewIff(root: H.Level, top: Home)
    requires H.Tidy(root) && H.Post(root, []).Some?
    ensures H.Numbered(H.Post(root, []).value)
    ensures
      var seed := H.Largest(H.Post(root, []).value);
      H.HiddenUpTo(root, false, seed) <==>
      forall requests, n: nat, p | HandsOut(seed, top, requests, n) :: !H.HasNumber(root, p, n)
  {
    H.SeededPastIff(root);
    var seed := H.Largest(H.Post(root, []).value);
    if H.HiddenUpTo(root, false, seed) {
      forall requests, n: nat, p | HandsOut(seed, top, requests, n) ensures !H.HasNumber(root, p, n) {
        HandsOutIff(seed, top, n);
      }
    } else {
      var p, n: nat :| H.HasNumber(root, p, n) && !(n < seed + 1);
      HandsOutIff(seed, top, n);
      var requests :| HandsOut(seed, top, requests, n);
    }
  }

  /** So it is where every helper directory has its number's own name. */
  lemma HandedIsNew(root: H.Level, top: Home, requests: seq<Request>, p: H.Place, n: nat)
    requires H.Tidy(root) && H.CanonicalTree(root) && H.Post(root, []).Some? && H.HasNumber(root, p, n)
    ensures H.Numbered(H.Post(root, []).value) && !HandsOut(H.Largest(H.Post(root, []).value), top, requests, n)
  {
    H.PostNumbered(root);
    H.CanonicalHidesNothing(root, H.Largest(H.Post(root, []).value));
    HandedIsNewIff(root, top);
  }

  /** A hub that starts on the odd tree hands out 7 as its sixth number, and helper 7 is on disk. */
  lemma SeventhIsTaken(top: Home)
    ensures H.Post(H.ODD_TREE, []) == Some(H.ODD_LIST) && H.Numbered(H.ODD_LIST)
    ensures HandsOut(H.Largest(H.ODD_LIST), top, seq(6, _ => GetNumber), 7)
    ensures H.HasNumber(H.ODD_TREE, ["01", "7"], 7)
  {
    H.OddTreeIsMissed();
    AskedOften(Started(1), top, 6);
  }

  // --- where helpers are placed --------------------------------------------------------

  /** Each home is right under the director's directory, or right under the helpers directory of another. */
  predicate Nested(top: Home, homes: map<nat, Home>) {
    forall n | n in homes :: PlacedUnder(top, homes, n)
  }

  predicate PlacedUnder(top: Home, homes: map<nat, Home>, n: nat)
    requires n in homes
  {
    homes[n] == top + [Render(n)] || exists q | q in homes :: homes[n] == homes[q] + ["helpers", Render(n)]
  }

  lemma OneNests(top: Home, homes: map<nat, Home>, n: nat, requester: Option<nat>)
    requires Nested(top, homes) && (requester.Some? ==> requester.value in homes)
    requires n in homes ==>
               homes[n] == (if requester.None? then top else homes[requester.value] + ["helpers"]) + [Render(n)]
    ensures Nested(top, homes[n := (if requester.None? then top
                                    else homes[requester.value] + ["helpers"]) + [Render(n)]])
  {
    var home := (if requester.None? then top else homes[requester.value] + ["helpers"]) + [Render(n)];
    var more := homes[n := home];
    if requester.Some? {
      var q := requester.value;
      assert home == homes[q] + ["helpers", Render(n)] && more[q] == homes[q];
    }
    forall m | m in homes && m != n ensures PlacedUnder(top, more, m) {
      assert PlacedUnder(top, homes, m);
      if q :| q in homes && homes[m] == homes[q] + ["helpers", Render(m)] {
        assert more[q] == homes[q];
      }
    }
  }

  lemma StepNests(s: State, top: Home, r: Request)
    requires Nested(top, s.homes)
    ensures Nested(top, Next(s, top, r).homes)
  {
    if r.Spawn? && SpawnReply(s, top, r.num, r.requester, r.launched).Done? {
      OneNests(top, s.homes, r.num, r.requester);
    }
  }

  /** Over any run every helper's home is in the director's directory, or in the helpers directory of the home
      another helper was launched into. */
  lemma {:induction false} RunNests(s: State, top: Home, requests: seq<Request>)
    requires Nested(top, s.homes)
    ensures Nested(top, Run(s, top, requests).homes)
    decreases |requests|
  {
    if requests != [] {
      StepNests(s, top, requests[0]);
      RunNests(Next(s, top, requests[0]), top, requests[1..]);
    }
  }

  /** The answer to a spawn, and what it leaves, read off the homes held: a helper is launched under its
      requester, whose home has to be held; a number held for another home is refused; a launch that fails
      leaves the homes and the containers as they were. */
  lemma SpawnIs(s: State, top: Home, num: int, requester: Option<nat>, launched: bool)
    ensures
      var reply, t := ReplyTo(s, top, Spawn(num, requester, launched)), Next(s, top, Spawn(num, requester, launched));
      var under := if requester.None? then top
                   else if requester.value in s.homes then s.homes[requester.value] + ["helpers"] else [];
      if num < 0 then reply == InvalidNumber && t == s
      else if requester.Some? && requester.value !in s.homes then reply == UnknownRequester && t == s
      else if num in s.homes && s.homes[num] != under + [Render(num)] then reply == Taken && t == s
      else
        && t.next == (if num < s.next then s.next else num + 1) && t.connections == s.connections
        && (if launched then
              && reply == Done && t.log == s.log + [Launched(num)] && t.homes == s.homes[num := under + [Render(num)]]
              && num in t.containers && forall n | n != num :: n in t.containers <==> n in s.containers
            else reply == LaunchFailed && t.homes == s.homes && t.containers == s.containers && t.log == s.log)
  {
  }

  /** The answer to a stop: a container that is held is asked to go, and nothing else is. */
  lemma StopIs(s: State, top: Home, named: Option<nat>, running: Option<bool>, end: Halt)
    ensures
      var reply, t := ReplyTo(s, top, Stop(named, running, end)), Next(s, top, Stop(named, running, end));
      if named.Some? && named.value in s.containers then
        && t.log == s.log + [Asked(named.value, end)]
        && (if end.HaltRaised? then reply == Dropped && t.containers == s.containers else reply == Done)
      else
        && t == s
        && reply == if running.None? then Unverified else if running.value then NotOurs else NotRunning
  {
  }

  /** The answers to a request for a number, and to a registration. */
  lemma NumberIs(s: State, top: Home, num: int, conn: Conn)
    ensures ReplyTo(s, top, GetNumber) == Number(s.next) && Next(s, top, GetNumber).next == s.next + 1
    ensures ReplyTo(s, top, Register(num, conn)) == (if num < 0 then InvalidNumber else Done)
    ensures Next(s, top, Register(num, conn)) ==
            if num < 0 then s else s.(connections := s.connections[num := conn])
  {
  }

  // --- the containers ------------------------------------------------------------------

  /** The hub lets go of the container of `n`: it asked it to stop and go, and nothing raised. */
  predicate LetsGo(e: Event, n: nat) {
    e == Asked(n, Gone) || e == Asked(n, Refused)
  }

  /** By the log, the container of `n` was launched and not let go of since. */
  predicate Held(log: seq<Event>, n: nat) {
    log != [] &&
    var last := log[|log| - 1];
    last == Launched(n) || (!LetsGo(last, n) && Held(log[..|log| - 1], n))
  }

  /** The containers held are, once each, those launched and not let go of since. */
  ghost predicate HoldsRight(containers: seq<nat>, log: seq<Event>) {
    Distinct(containers) && forall n: nat :: n in containers <==> Held(log, n)
  }

  /** No container was ever asked to stop but one launched here and not let go of since. */
  ghost predicate HaltsRight(log: seq<Event>) {
    forall j | 0 <= j < |log| && log[j].Asked? :: Held(log[..j], log[j].num)
  }

  ghost predicate ContainersKept(s: State) {
    HoldsRight(s.containers, s.log) && HaltsRight(s.log)
  }

  lemma {:induction false} WithoutOne(s: seq<nat>, n: nat)
    requires Distinct(s)
    ensures Distinct(Without(s, n)) && forall m :: m in Without(s, n) <==> m in s && m != n
  {
    if s != [] {
      var rest := s[1..];
      assert s == [s[0]] + rest;
      WithoutOne(rest, n);
      forall m ensures m in Without(s, n) <==> m in s && m != n {
        assert m in s <==> m == s[0] || m in rest;
        if m in rest {
          var i :| 0 <= i < |rest| && rest[i] == m;
          assert s[0] != s[i + 1];
        }
      }
      if s[0] != n {
        var kept := Without(rest, n);
        forall j | 0 <= j < |kept| ensures kept[j] != s[0] {
          assert kept[j] in kept;
          var i :| 0 <= i < |rest| && rest[i] == kept[j];
          assert s[0] != s[i + 1];
        }
        assert Without(s, n) == [s[0]] + kept;
      }
    }
  }

  lemma OneMore(log: seq<Event>, e: Event)
    requires HaltsRight(log) && (e.Asked? ==> Held(log, e.num))
    ensures HaltsRight(log + [e])
    ensures forall n :: Held(log + [e], n) <==> e == Launched(n) || (!LetsGo(e, n) && Held(log, n))
  {
    var more := log + [e];
    assert more[..|log|] == log;
    forall j | 0 <= j < |more| && more[j].Asked? ensures Held(more[..j], more[j].num) {
      assert more[..j] == log[..j];
    }
  }

  lemma LaunchKeeps(containers: seq<nat>, log: seq<Event>, num: nat)
    requires HoldsRight(containers, log) && HaltsRight(log)
    ensures HoldsRight(if num in containers then containers else containers + [num], log + [Launched(num)])
    ensures HaltsRight(log + [Launched(num)])
  {
    OneMore(log, Launched(num));
  }

  lemma HaltKeeps(containers: seq<nat>, log: seq<Event>, num: nat, end: Halt)
    requires HoldsRight(containers, log) && HaltsRight(log) && num in containers
    ensures HoldsRight(if end.HaltRaised? then containers else Without(containers, num), log + [Asked(num, end)])
    ensures HaltsRight(log + [Asked(num, end)])
  {
    OneMore(log, Asked(num, end));
    WithoutOne(containers, num);
  }

  lemma StepKeepsContainers(s: State, top: Home, r: Request)
    requires ContainersKept(s)
    ensures ContainersKept(Next(s, top, r))
  {
    var t := Next(s, top, r);
    if t.log != s.log {
      match t.log[|s.log|]
      case Handed(n) => OneMore(s.log, Handed(n));
      case Launched(n) => LaunchKeeps(s.containers, s.log, n);
      case Asked(n, end) => HaltKeeps(s.containers, s.log, n, end);
    }
  }

  lemma {:induction false} RunKeepsContainers(s: State, top: Home, requests: seq<Request>)
    requires ContainersKept(s)
    ensures ContainersKept(Run(s, top, requests))
    decreases |requests|
  {
    if requests != [] {
      StepKeepsContainers(s, top, requests[0]);
      RunKeepsContainers(Next(s, top, requests[0]), top, requests[1..]);
    }
  }

  /** Whatever a box asks for, a hub stops only containers it launched itself and has not let go of since;
      and those it launched and has not let go of are the ones it holds. */
  lemma OnlyOwnAreHalted(seed: nat, top: Home, requests: seq<Request>)
    ensures ContainersKept(Run(Started(seed), top, requests))
  {
    RunKeepsContainers(Started(seed), top, requests);
  }

  /** By the log, the container of `n` was launched, and is not gone since. */
  predicate Up(log: seq<Event>, n: nat) {
    log != [] &&
    var last := log[|log| - 1];
    last == Launched(n) || (last != Asked(n, Gone) && Up(log[..|log| - 1], n))
  }

  /** The runtime refused to stop or remove the container of `n`, and it was not launched again since. */
  predicate RefusedLast(log: seq<Event>, n: nat) {
    log != [] &&
    var last := log[|log| - 1];
    last == Asked(n, Refused) || (last != Launched(n) && RefusedLast(log[..|log| - 1], n))
  }

  lemma {:induction false} UpIs(log: seq<Event>, n: nat)
    requires HaltsRight(log)
    ensures Up(log, n) <==> Held(log, n) || RefusedLast(log, n)
    ensures !(Held(log, n) && RefusedLast(log, n))
  {
    if log != [] {
      var k := |log| - 1;
      assert forall j | 0 <= j < k :: log[..k][..j] == log[..j];
      UpIs(log[..k], n);
    }
  }

  /** Every container launched that is not gone is held. */
  ghost predicate AllHeld(s: State) {
    forall n: nat | Up(s.log, n) :: n in s.containers
  }

  /** A hub holds every container it launched that is not gone if and only if there is none whose stop the
      runtime refused and that was not launched again; such a one it no longer stops. */
  lemma HoldsAllIff(seed: nat, top: Home, requests: seq<Request>)
    ensures
      var s := Run(Started(seed), top, requests);
      && (AllHeld(s) <==> !exists n: nat :: RefusedLast(s.log, n))
      && forall n: nat, running, end | RefusedLast(s.log, n) ::
           n !in s.containers && ReplyTo(s, top, Stop(Some(n), running, end)) != Done
  {
    OnlyOwnAreHalted(seed, top, requests);
    var s := Run(Started(seed), top, requests);
    forall n: nat | RefusedLast(s.log, n) ensures n !in s.containers && !AllHeld(s) {
      UpIs(s.log, n);
      assert Up(s.log, n);
    }
    if !AllHeld(s) {
      var n: nat :| Up(s.log, n) && n !in s.containers;
      UpIs(s.log, n);
      assert RefusedLast(s.log, n);
    }
  }

  /** A run that loses one: its stop is refused by the runtime and answered as done; the next is answered
      as for a container of others. */
  lemma RefusedStopIsLost(top: Home)
    ensures
      var first := [Spawn(1, None, true), Stop(Some(1), None, Refused)];
      var s := Run(Started(0), top, first);
      && ReplyTo(Run(Started(0), top, first[..1]), top, first[1]) == Done
      && Up(s.log, 1) && 1 !in s.containers
      && ReplyTo(s, top, Stop(Some(1), Some(true), Gone)) == NotOurs
  {
    var first := [Spawn(1, None, true), Stop(Some(1), None, Refused)];
    var s1 := Next(Started(0), top, first[0]);
    assert first[..1][1..] == [] && first[1..] == [first[1]] && first[1..][1..] == [];
    assert Run(Started(0), top, first[..1]) == Run(s1, top, []) == s1;
    var s := Next(s1, top, first[1]);
    assert Run(Started(0), top, first) == Run(s1, top, first[1..]) == Run(s, top, []) == s;
    assert s1.log == [Launched(1)] && s.log == [Launched(1), Asked(1, Refused)];
    assert s.log[..1] == s1.log;
  }

  // --- the hub -------------------------------------------------------------------------

  class HelperHub {
    const top: Home
    var next: nat
    var homes: map<nat, Home>
    var containers: seq<nat>
    var connections: map<nat, Conn>
    ghost var log: seq<Event>

    ghost function Now(): State
      reads this
    {
      State(next, homes, containers, connections, log)
    }

    constructor (top: Home)
      ensures this.top == top && Now() == Started(0)
    {
      this.top := top;
      next, homes, containers, connections, log := 1, map[], [], map[], [];
    }

    /** Seed the counter from the helpers on disk; an unreadable directory refuses the start. */
    method Start(root: H.Level) returns (ok: bool)
      requires Now() == Started(0)
      modifies this
      ensures ok <==> H.Post(root, []).Some?
      ensures ok ==> H.Numbered(H.Post(root, []).value) && Now() == Started(H.Largest(H.Post(root, []).value))
      ensures !ok ==> Now() == old(Now())
    {
      var found := H.Walk(root);
      if found.None? { return false; }
      H.PostNumbered(root);
      next := H.Largest(found.value) + 1;
      ok := true;
    }

    method HandleNumber() returns (r: Reply)
      modifies this
      ensures r == ReplyTo(old(Now()), top, GetNumber) && Now() == Next(old(Now()), top, GetNumber)
    {
      r := Number(next);
      log := log + [Handed(next)];
      next := next + 1;
    }

    /** Reserve the number, launch, and give the reservation back if the launch fails. */
    method HandleSpawn(num: int, requester: Option<nat>, launched: bool) returns (r: Reply)
      modifies this
      ensures r == ReplyTo(old(Now()), top, Spawn(num, requester, launched))
      ensures Now() == Next(old(Now()), top, Spawn(num, requester, launched))
    {
      if num < 0 { return InvalidNumber; }
      var dir := top;
      if requester.Some? {
        if requester.value !in homes { return UnknownRequester; }
        dir := homes[requester.value] + ["helpers"];
      }
      var home := dir + [Render(num)];
      var held := if num in homes then Some(homes[num]) else None;
      if held.Some? && held.value != home { return Taken; }
      homes := homes[num := home];
      next := if num < next then next else num + 1;
      if !launched {
        Release(num, held, home);
        return LaunchFailed;
      }
      if num !in containers {
        containers := containers + [num];
      }
      log := log + [Launched(num)];
      r := Done;
    }

    /** Undo a reservation; a number held before stays held. */
    method Release(num: nat, held: Option<Home>, home: Home)
      requires num in homes && homes[num] == home
      modifies `homes
      ensures homes == if held.None? then old(homes) - {num} else old(homes)
    {
      if held.None? {
        homes := homes - {num};
      }
    }

    /** Only a container this hub holds is asked to stop; any other name is only asked about.  The runtime's
        answer is not looked at; where a call raises, the client is dropped and the container stays held. */
    method HandleStop(held: Option<nat>, running: Option<bool>, end: Halt) returns (r: Reply)
      modifies this
      ensures r == ReplyTo(old(Now()), top, Stop(held, running, end))
      ensures Now() == Next(old(Now()), top, Stop(held, running, end))
    {
      if held.None? || held.value !in containers {
        if running.None? { return Unverified; }
        return if running.value then NotOurs else NotRunning;
      }
      log := log + [Asked(held.value, end)];
      if end.HaltRaised? { return Dropped; }
      containers := Without(containers, held.value);
      r := Done;
    }

    method HandleRegister(num: int, conn: Conn) returns (r: Reply)
      modifies this
      ensures r == ReplyTo(old(Now()), top, Register(num, conn)) && Now() == Next(old(Now()), top, Register(num, conn))
    {
      if num < 0 { return InvalidNumber; }
      connections := connections[num := conn];
      r := Done;
    }

    /** A connection drops its registration only while it still holds it. */
    method HandleUnregister(num: nat, conn: Conn)
      modifies this
      ensures Now() == Next(old(Now()), top, Unregister(num, conn))
    {
      if num in connections && connections[num] == conn {
        connections := connections - {num};
      }
    }
  }

  // --- connections ---------------------------------------------------------------------

  /** The request takes the number's registration away from this connection. */
  predicate TakesAway(r: Request, num: nat, conn: Conn) {
    r == Unregister(num, conn) || (r.Register? && r.num == num && r.conn != conn)
  }

  predicate Registered(s: State, num: nat, conn: Conn) {
    num in s.connections && s.connections[num] == conn
  }

  lemma {:induction false} RunSplits(s: State, top: Home, requests: seq<Request>, k: nat)
    requires k <= |requests|
    ensures Run(s, top, requests) == Run(Run(s, top, requests[..k]), top, requests[k..])
    decreases k
  {
    if k > 0 {
      RunSplits(Next(s, top, requests[0]), top, requests[1..], k - 1);
      assert requests[..k][1..] == requests[1..][..k - 1];
    }
  }

  /** The connection holds the number at the start (`k` is 0), or registers it with the request before `k`. */
  predicate TookAt(s: State, requests: seq<Request>, num: nat, conn: Conn, k: nat)
    requires k <= |requests|
  {
    if k == 0 then Registered(s, num, conn) else requests[k - 1] == Register(num, conn)
  }

  predicate KeptFrom(requests: seq<Request>, num: nat, conn: Conn, k: nat) {
    forall j | k <= j < |requests| :: !TakesAway(requests[j], num, conn)
  }

  /** A connection holds a number at the end of a run if and only if it took it at some point and no later
      request takes it away: an older connection of the same helper that closes late does not. */
  lemma {:induction false} RegistrationStays(s: State, top: Home, requests: seq<Request>, num: nat, conn: Conn)
    ensures Registered(Run(s, top, requests), num, conn) <==>
            exists k :: 0 <= k <= |requests| && TookAt(s, requests, num, conn, k) && KeptFrom(requests, num, conn, k)
    decreases |requests|
  {
    var n := |requests|;
    if n == 0 {
      assert TookAt(s, requests, num, conn, 0) <==> Registered(s, num, conn);
      assert KeptFrom(requests, num, conn, 0);
    } else {
      var front, last := requests[..n - 1], requests[n - 1];
      RegistrationStays(s, top, front, num, conn);
      RunSplits(s, top, requests, n - 1);
      assert requests[n - 1..] == [last];
      assert Run(s, top, requests) == Next(Run(s, top, front), top, last);
      forall k | 0 <= k <= n - 1
        ensures TookAt(s, front, num, conn, k) <==> TookAt(s, requests, num, conn, k)
        ensures KeptFrom(requests, num, conn, k) <==> KeptFrom(front, num, conn, k) && !TakesAway(last, num, conn)
      {
        assert forall j | k <= j < n - 1 :: front[j] == requests[j];
      }
      assert KeptFrom(requests, num, conn, n);
      assert TookAt(s, requests, num, conn, n) <==> last == Register(num, conn);
      LastSays(Run(s, top, front), top, last, num, conn);
    }
  }

  lemma LastSays(s: State, top: Home, r: Request, num: nat, conn: Conn)
    ensures Registered(Next(s, top, r), num, conn) <==>
            r == Register(num, conn) || (Registered(s, num, conn) && !TakesAway(r, num, conn))
  {
  }

  /** A registration outlives an older connection's late close, and every request but its own connection's
      unregister and a newer registration of its number. */
  lemma LateCloseKeeps(s: State, top: Home, requests: seq<Request>, num: nat, conn: Conn, k: nat)
    requires k < |requests| && requests[k] == Register(num, conn)
    requires forall j | k < j < |requests| :: requests[j] != Unregister(num, conn)
    requires forall j | k < j < |requests| && requests[j].Register? :: requests[j].num != num
    ensures var held := Run(s, top, requests).connections; num in held && held[num] == conn
  {
    assert TookAt(s, requests, num, conn, k + 1) && KeptFrom(requests, num, conn, k + 1);
    RegistrationStays(s, top, requests, num, conn);
  }

  /** Its own unregister ends it. */
  lemma OwnCloseEnds(s: State, top: Home, requests: seq<Request>, num: nat, conn: Conn, k: nat)
    requires k < |requests| && requests[k] == Unregister(num, conn)
    requires forall j | k < j < |requests| :: requests[j] != Register(num, conn)
    ensures var held := Run(s, top, requests).connections; num in held ==> held[num] != conn
  {
    RegistrationStays(s, top, requests, num, conn);
    assert TakesAway(requests[k], num, conn);
  }
}
