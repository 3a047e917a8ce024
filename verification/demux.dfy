/** One socket, two kinds of frames: each request's own response, and pushes that come at any time.
    Every step a thread takes is one action, and any interleaving is a sequence of actions. */
module Demux {
  import opened Options

  type Msg = string
  type Caller = nat

  /** A frame as it parses: anything else is not an object. */
  datatype Frame = Object(event: bool, status: bool, body: Msg) | NotAnObject

  datatype Kind = Response | Push | Undeclared

  /** What a queue holds: a message, or the sign that the reader is gone. */
  datatype Item = Body(msg: Msg) | Closed

  /** A caller of `recv`: past the check for a socket, or waiting on a queue: the one this
      connection's reader fills, or the empty one that `close` put in its place; `timed`: for a time. */
  datatype Waiting = Checked(timed: bool) | OnInbox(timed: bool) | OnFresh(timed: bool)

  datatype State = State(
    sock: bool,                       // the connection is open for new calls
    replaced: bool,                   // `close` has put fresh queues in place
    alive: bool,                      // the reader is running
    lock: Option<Caller>,             // who has sent a request and waits for its response
    responses: seq<Item>,
    inbox: seq<Item>,
    owed: nat,                        // closed signs taken off `responses`, to be put back
    owedInbox: nat,                   // ... off `inbox`
    waiting: map<Caller, Waiting>,    // callers of `recv`
    wire: seq<Frame>,                 // written by the hub, not yet read
    sent: seq<Msg>,                   // every request, in the order sent
    late: seq<bool>,                  // was the reader gone when the request was sent
    answers: seq<Msg>,                // every response the hub wrote, in order
    pushes: seq<Msg>,                 // every push the hub wrote, in order
    results: seq<Item>,               // what each request came to, in the order sent
    received: seq<Msg>                // what `recv` returned, in order
  )

  datatype Action =
    | Send(caller: Caller, msg: Msg)  // take the lock, write one request
    | Take(caller: Caller)            // the waiting caller takes an item; the lock is released
    | Repost                          // ... and puts a closed sign back
    | Check(caller: Caller, timed: bool)   // `recv`: there is a socket
    | Bind(caller: Caller)            // ... look up the inbox, and wait on it
    | Recv(caller: Caller)            // ... take an item
    | TimeOut(caller: Caller)         // ... or find none in time
    | RepostInbox
    | Answer(msg: Msg)                // the hub answers the next request
    | HubPush(msg: Msg)
    | Stray(frame: Frame)             // the hub writes a frame of neither shape
    | ReadFrame                       // the reader takes a frame off the wire and routes it
    | Retire                          // the reader meets the end of the stream, or an error
    | Close                           // `close`: drop the socket
    | Replace                         // ... and put fresh queues in place

  const FRESH: State := State(true, false, true, None, [], [], 0, 0, map[], [], [], [], [], [], [], [])

  function Route(f: Frame): Kind {
    if f.NotAnObject? then Undeclared
    else if f.event then Push
    else if f.status then Response
    else Undeclared
  }

  predicate Enabled(s: State, a: Action) {
    match a
    case Send(_, _) => s.sock && s.lock.None?
    case Take(c) => s.lock == Some(c) && s.responses != []
    case Repost => s.owed > 0
    case Check(c, _) => s.sock && c !in s.waiting
    case Bind(c) => c in s.waiting && s.waiting[c].Checked?
    case Recv(c) => c in s.waiting && s.waiting[c].OnInbox? && s.inbox != []
    case TimeOut(c) =>
      c in s.waiting && s.waiting[c].timed && (s.waiting[c].OnFresh? || (s.waiting[c].OnInbox? && s.inbox == []))
    case RepostInbox => s.owedInbox > 0
    case Answer(_) => |s.answers| < |s.sent|
    case HubPush(_) => true
    case Stray(f) => Route(f).Undeclared?
    case ReadFrame => s.alive && s.wire != []
    case Retire => s.alive
    case Close => true
    case Replace => !s.sock
  }

  function Retired(s: State): State {
    s.(alive := false, responses := s.responses + [Closed], inbox := s.inbox + [Closed])
  }

  function Routed(s: State, f: Frame): State {
    match Route(f)
    case Response => s.(responses := s.responses + [Body(f.body)])
    case Push => s.(inbox := s.inbox + [Body(f.body)])
    case Undeclared => Retired(s)
  }

  function Next(s: State, a: Action): State
    requires Enabled(s, a)
  {
    match a
    case Send(c, m) => s.(lock := Some(c), sent := s.sent + [m], late := s.late + [!s.alive])
    case Take(_) =>
      var item := s.responses[0];
      s.(lock := None, responses := s.responses[1..], results := s.results + [item],
         owed := if item.Closed? then s.owed + 1 else s.owed)
    case Repost => s.(owed := s.owed - 1, responses := s.responses + [Closed])
    case Check(c, timed) => s.(waiting := s.waiting[c := Checked(timed)])
    case Bind(c) =>
      var timed := s.waiting[c].timed;
      s.(waiting := s.waiting[c := if s.replaced then OnFresh(timed) else OnInbox(timed)])
    case Recv(c) =>
      var item := s.inbox[0];
      s.(waiting := s.waiting - {c}, inbox := s.inbox[1..],
         received := if item.Body? then s.received + [item.msg] else s.received,
         owedInbox := if item.Closed? then s.owedInbox + 1 else s.owedInbox)
    case TimeOut(c) => s.(waiting := s.waiting - {c})
    case RepostInbox => s.(owedInbox := s.owedInbox - 1, inbox := s.inbox + [Closed])
    case Answer(m) => s.(answers := s.answers + [m], wire := s.wire + [Object(false, true, m)])
    case HubPush(m) => s.(pushes := s.pushes + [m], wire := s.wire + [Object(true, false, m)])
    case Stray(f) => s.(wire := s.wire + [f])
    case ReadFrame => Routed(s.(wire := s.wire[1..]), s.wire[0])
    case Retire => Retired(s)
    case Close => s.(sock := false)
    case Replace => s.(replaced := true)
  }

  /** The state after `actions`, each of them enabled in its turn. */
  ghost predicate Runs(s: State, actions: seq<Action>, t: State)
    decreases |actions|
  {
    if actions == [] then s == t
    else Enabled(s, actions[0]) && Runs(Next(s, actions[0]), actions[1..], t)
  }

  // --- the invariant -------------------------------------------------------------------

  /** The messages in a queue. */
  function Bodies(q: seq<Item>): seq<Msg> {
    if q == [] then [] else (if q[0].Body? then [q[0].msg] else []) + Bodies(q[1..])
  }

  /** The messages of one kind still on the wire. */
  function OnWire(wire: seq<Frame>, kind: Kind): seq<Msg> {
    if wire == [] then [] else Carries(wire[0], kind) + OnWire(wire[1..], kind)
  }

  function Carries(f: Frame, kind: Kind): seq<Msg> {
    if Route(f) == kind && f.Object? then [f.body] else []
  }

  lemma {:induction false} BodiesJoin(p: seq<Item>, q: seq<Item>)
    ensures Bodies(p + q) == Bodies(p) + Bodies(q)
  {
    if p == [] {
      assert p + q == q;
    } else {
      assert (p + q)[1..] == p[1..] + q;
      BodiesJoin(p[1..], q);
    }
  }

  lemma JoinFirst(a: seq<Msg>, b: seq<Msg>, c: seq<Msg>)
    ensures a + (b + c) == (a + b) + c
  {
  }

  lemma {:induction false} OnWireJoin(p: seq<Frame>, q: seq<Frame>, kind: Kind)
    ensures OnWire(p + q, kind) == OnWire(p, kind) + OnWire(q, kind)
  {
    if p == [] {
      assert p + q == q;
    } else {
      assert (p + q)[0] == p[0] && (p + q)[1..] == p[1..] + q;
      OnWireJoin(p[1..], q, kind);
      JoinFirst(Carries(p[0], kind), OnWire(p[1..], kind), OnWire(q, kind));
    }
  }

  /** The closed sign is last in a queue or owed to it, once, as soon as the reader is gone. */
  predicate Signed(q: seq<Item>, owed: nat, alive: bool) {
    && (forall k | 0 <= k < |q| - 1 :: q[k].Body?)
    && owed + (if q != [] && q[|q| - 1].Closed? then 1 else 0) == (if alive then 0 else 1)
  }

  /** What came out of a queue, is in it, and is on the wire is what the hub wrote; what was on the
      wire when the reader went is lost. */
  predicate Accounted(out: seq<Msg>, queued: seq<Msg>, wire: seq<Msg>, all: seq<Msg>, alive: bool) {
    if alive then out + queued + wire == all else out + queued <= all
  }

  /** Requests that came to nothing come after the reader went, and after every response. */
  predicate Orderly(s: State)
    requires |s.results| <= |s.sent| == |s.late|
  {
    InOrder(s.results, s.late, !s.alive && Bodies(s.responses) == [])
  }

  predicate InOrder(results: seq<Item>, late: seq<bool>, gone: bool)
    requires |results| <= |late|
  {
    && (forall i, j | 0 <= i < j < |results| && results[i].Closed? :: results[j].Closed?)
    && ((exists i :: 0 <= i < |results| && results[i].Closed?) ==> gone)
    && (forall i | 0 <= i < |results| && late[i] :: results[i].Closed?)
    && (|results| < |late| && late[|results|] ==> gone)
  }

  /** The requests' half of the invariant ... */
  predicate RequestInv(s: State) {
    && Signed(s.responses, s.owed, s.alive)
    && Accounted(Bodies(s.results), Bodies(s.responses), OnWire(s.wire, Response), s.answers, s.alive)
    && |s.answers| <= |s.sent| == |s.late| && |s.results| <= |s.sent|
    && |s.results| + (if s.lock.Some? then 1 else 0) == |s.sent|
    && Orderly(s)
  }

  /** ... and the pushes'. */
  predicate PushInv(s: State) {
    && Signed(s.inbox, s.owedInbox, s.alive)
    && Accounted(s.received, Bodies(s.inbox), OnWire(s.wire, Push), s.pushes, s.alive)
    && (forall c | c in s.waiting && s.waiting[c].OnFresh? :: s.replaced)
  }

  predicate Inv(s: State) {
    RequestInv(s) && PushInv(s)
  }

  lemma Popped(q: seq<Item>, owed: nat, alive: bool)
    requires Signed(q, owed, alive) && q != []
    ensures Signed(q[1..], owed + (if q[0].Closed? then 1 else 0), alive)
    ensures q[0].Closed? ==> q[1..] == [] && !alive
  {
  }

  lemma Queued(q: seq<Item>, owed: nat, m: Msg)
    requires Signed(q, owed, true)
    ensures Signed(q + [Body(m)], owed, true) && Bodies(q + [Body(m)]) == Bodies(q) + [m]
  {
    BodiesJoin(q, [Body(m)]);
    assert Bodies([Body(m)]) == [m];
  }

  lemma SignPosted(q: seq<Item>, owed: nat, alive: bool)
    requires Signed(q, owed, alive) && (alive || owed > 0)
    ensures Signed(q + [Closed], if alive then owed else owed - 1, false) && Bodies(q + [Closed]) == Bodies(q)
  {
    BodiesJoin(q, [Closed]);
    assert Bodies([Closed]) == [];
  }

  lemma AccountedRead(out: seq<Msg>, queued: seq<Msg>, m: seq<Msg>, wire: seq<Msg>, all: seq<Msg>)
    requires Accounted(out, queued, m + wire, all, true)
    ensures Accounted(out, queued + m, wire, all, true)
  {
    assert out + queued + (m + wire) == out + (queued + m) + wire;
  }

  lemma AccountedTaken(out: seq<Msg>, m: seq<Msg>, rest: seq<Msg>, wire: seq<Msg>, all: seq<Msg>, alive: bool)
    requires Accounted(out, m + rest, wire, all, alive)
    ensures Accounted(out + m, rest, wire, all, alive)
  {
    assert out + (m + rest) == out + m + rest;
  }

  lemma AccountedWritten(out: seq<Msg>, queued: seq<Msg>, wire: seq<Msg>, m: seq<Msg>, all: seq<Msg>, alive: bool)
    requires Accounted(out, queued, wire, all, alive)
    ensures Accounted(out, queued, wire + m, all + m, alive)
  {
    assert out + queued + (wire + m) == out + queued + wire + m;
  }

  lemma AccountedGone(out: seq<Msg>, queued: seq<Msg>, wire: seq<Msg>, all: seq<Msg>)
    requires Accounted(out, queued, wire, all, true)
    ensures Accounted(out, queued, wire, all, false)
  {
  }

  lemma OneOnWire(f: Frame, kind: Kind)
    ensures OnWire([f], kind) == if Route(f) == kind && f.Object? then [f.body] else []
  {
  }

  lemma {:induction false} FewerBodies(q: seq<Item>)
    ensures |Bodies(q)| <= |q|
    ensures |Bodies(q)| < |q| <==> exists k :: 0 <= k < |q| && q[k].Closed?
  {
    if q != [] {
      FewerBodies(q[1..]);
      if k :| 0 <= k < |q| && q[k].Closed? {
        assert k > 0 ==> q[1..][k - 1].Closed?;
      }
      if k :| 0 <= k < |q| - 1 && q[1..][k].Closed? {
        assert q[k + 1].Closed?;
      }
    }
  }

  /** With no request outstanding no response is queued. */
  lemma NoneQueued(s: State)
    requires Inv(s) && s.lock.None?
    ensures Bodies(s.responses) == []
  {
    FewerBodies(s.results);
  }

  lemma SendKeeps(s: State, c: Caller, m: Msg)
    requires Inv(s) && Enabled(s, Send(c, m))
    ensures Inv(Next(s, Send(c, m)))
  {
    NoneQueued(s);
  }

  lemma TakeKeeps(s: State, c: Caller)
    requires RequestInv(s) && Enabled(s, Take(c))
    ensures RequestInv(Next(s, Take(c)))
  {
    var item := s.responses[0];
    Popped(s.responses, s.owed, s.alive);
    ResultAdded(s.results, item);
    TakenOrderly(s, c);
    AccountedTaken(Bodies(s.results), if item.Body? then [item.msg] else [], Bodies(s.responses[1..]),
                   OnWire(s.wire, Response), s.answers, s.alive);
  }

  lemma ResultAdded(results: seq<Item>, item: Item)
    ensures Bodies(results + [item]) == Bodies(results) + (if item.Body? then [item.msg] else [])
  {
    BodiesJoin(results, [item]);
    assert Bodies([item]) == if item.Body? then [item.msg] else [];
  }

  lemma TakenOrderly(s: State, c: Caller)
    requires RequestInv(s) && Enabled(s, Take(c))
    ensures Orderly(Next(s, Take(c)))
  {
    Popped(s.responses, s.owed, s.alive);
    var item, rest := s.responses[0], s.responses[1..];
    BodiesFirst(s.responses);
    InOrderTaken(s.results, item, s.late, !s.alive && Bodies(s.responses) == [], !s.alive && Bodies(rest) == []);
  }

  lemma BodiesFirst(q: seq<Item>)
    requires q != []
    ensures Bodies(q) == (if q[0].Body? then [q[0].msg] else []) + Bodies(q[1..])
  {
  }

  /** The last result that is out comes in. */
  lemma InOrderTaken(results: seq<Item>, item: Item, late: seq<bool>, gone: bool, later: bool)
    requires |results| + 1 == |late| && InOrder(results, late, gone)
    requires (gone ==> item.Closed? && later) && (item.Closed? ==> later)
    ensures InOrder(results + [item], late, later)
  {
  }

  lemma RoutedRequests(s: State, f: Frame)
    requires RequestInv(s.(wire := [f] + s.wire)) && s.alive
    ensures RequestInv(Routed(s, f))
  {
    OnWireJoin([f], s.wire, Response);
    OneOnWire(f, Response);
    var m := OnWire([f], Response);
    AccountedRead(Bodies(s.results), Bodies(s.responses), m, OnWire(s.wire, Response), s.answers);
    if Route(f).Response? {
      Queued(s.responses, s.owed, f.body);
    } else if Route(f).Undeclared? {
      SignPosted(s.responses, s.owed, true);
      AccountedGone(Bodies(s.results), Bodies(s.responses) + m, OnWire(s.wire, Response), s.answers);
      assert Bodies(s.responses) + m == Bodies(s.responses);
    } else {
      assert Bodies(s.responses) + m == Bodies(s.responses);
    }
  }

  lemma RoutedPushes(s: State, f: Frame)
    requires PushInv(s.(wire := [f] + s.wire)) && s.alive
    ensures PushInv(Routed(s, f))
  {
    OnWireJoin([f], s.wire, Push);
    OneOnWire(f, Push);
    var m := OnWire([f], Push);
    AccountedRead(s.received, Bodies(s.inbox), m, OnWire(s.wire, Push), s.pushes);
    if Route(f).Push? {
      Queued(s.inbox, s.owedInbox, f.body);
    } else if Route(f).Undeclared? {
      SignPosted(s.inbox, s.owedInbox, true);
      AccountedGone(s.received, Bodies(s.inbox) + m, OnWire(s.wire, Push), s.pushes);
      assert Bodies(s.inbox) + m == Bodies(s.inbox);
    } else {
      assert Bodies(s.inbox) + m == Bodies(s.inbox);
    }
  }

  lemma RetireKeeps(s: State)
    requires Inv(s) && s.alive
    ensures Inv(Retired(s))
  {
    SignPosted(s.responses, s.owed, true);
    SignPosted(s.inbox, s.owedInbox, true);
  }

  lemma RepostKeeps(s: State, a: Action)
    requires Inv(s) && Enabled(s, a) && (a.Repost? || a.RepostInbox?)
    ensures Inv(Next(s, a))
  {
    if a.Repost? {
      SignPosted(s.responses, s.owed, s.alive);
    } else {
      SignPosted(s.inbox, s.owedInbox, s.alive);
    }
  }

  lemma RecvKeeps(s: State, c: Caller)
    requires PushInv(s) && Enabled(s, Recv(c))
    ensures PushInv(Next(s, Recv(c)))
  {
    var item := s.inbox[0];
    Popped(s.inbox, s.owedInbox, s.alive);
    AccountedTaken(s.received, if item.Body? then [item.msg] else [], Bodies(s.inbox[1..]), OnWire(s.wire, Push),
                   s.pushes, s.alive);
  }

  lemma HubRequests(s: State, a: Action)
    requires RequestInv(s) && Enabled(s, a) && (a.Answer? || a.HubPush? || a.Stray?)
    ensures RequestInv(Next(s, a))
  {
    var f := if a.Answer? then Object(false, true, a.msg) else if a.HubPush? then Object(true, false, a.msg)
      else a.frame;
    OnWireJoin(s.wire, [f], Response);
    OneOnWire(f, Response);
    var m := OnWire([f], Response);
    AccountedWritten(Bodies(s.results), Bodies(s.responses), OnWire(s.wire, Response), m, s.answers, s.alive);
    assert a.Answer? || s.answers + m == s.answers;
  }

  lemma HubPushes(s: State, a: Action)
    requires PushInv(s) && Enabled(s, a) && (a.Answer? || a.HubPush? || a.Stray?)
    ensures PushInv(Next(s, a))
  {
    var f := if a.Answer? then Object(false, true, a.msg) else if a.HubPush? then Object(true, false, a.msg)
      else a.frame;
    OnWireJoin(s.wire, [f], Push);
    OneOnWire(f, Push);
    var m := OnWire([f], Push);
    AccountedWritten(s.received, Bodies(s.inbox), OnWire(s.wire, Push), m, s.pushes, s.alive);
    assert a.HubPush? || s.pushes + m == s.pushes;
  }

  lemma HubKeeps(s: State, a: Action)
    requires Inv(s) && Enabled(s, a) && (a.Answer? || a.HubPush? || a.Stray?)
    ensures Inv(Next(s, a))
  {
    HubRequests(s, a);
    HubPushes(s, a);
  }

  lemma ReadKeeps(s: State)
    requires Inv(s) && Enabled(s, ReadFrame)
    ensures Inv(Next(s, ReadFrame))
  {
    var rest := s.(wire := s.wire[1..]);
    assert s == rest.(wire := [s.wire[0]] + rest.wire);
    RoutedRequests(rest, s.wire[0]);
    RoutedPushes(rest, s.wire[0]);
  }

  lemma QuietKeeps(s: State, a: Action)
    requires Inv(s) && Enabled(s, a) && (a.Check? || a.Bind? || a.TimeOut? || a.Close? || a.Replace?)
    ensures Inv(Next(s, a))
  {
  }

  lemma CallersKeep(s: State, a: Action)
    requires Inv(s) && Enabled(s, a) && (a.Send? || a.Take? || a.Recv?)
    ensures Inv(Next(s, a))
  {
    if a.Send? {
      SendKeeps(s, a.caller, a.msg);
    } else if a.Take? {
      TakeKeeps(s, a.caller);
    } else {
      RecvKeeps(s, a.caller);
    }
  }

  /** Every step of every thread, and of the hub, keeps the invariant. */
  lemma StepKeeps(s: State, a: Action)
    requires Inv(s) && Enabled(s, a)
    ensures Inv(Next(s, a))
  {
    if a.Send? || a.Take? || a.Recv? {
      CallersKeep(s, a);
    } else if a.Repost? || a.RepostInbox? {
      RepostKeeps(s, a);
    } else if a.Answer? || a.HubPush? || a.Stray? {
      HubKeeps(s, a);
    } else if a.ReadFrame? {
      ReadKeeps(s);
    } else if a.Retire? {
      RetireKeeps(s);
    } else {
      QuietKeeps(s, a);
    }
  }

  lemma {:induction false} RunKeeps(s: State, actions: seq<Action>, t: State)
    requires Inv(s) && Runs(s, actions, t)
    ensures Inv(t)
    decreases |actions|
  {
    if actions != [] {
      StepKeeps(s, actions[0]);
      RunKeeps(Next(s, actions[0]), actions[1..], t);
    }
  }

  lemma FreshInv()
    ensures Inv(FRESH)
  {
  }

  // --- what every run keeps ------------------------------------------------------------

  lemma {:induction false} BodyAt(q: seq<Item>, k: nat)
    requires k < |q| && forall j | 0 <= j <= k :: q[j].Body?
    ensures k < |Bodies(q)| && Bodies(q)[k] == q[k].msg
  {
    if k > 0 {
      BodyAt(q[1..], k - 1);
    }
  }

  /** However the threads interleave, the k-th request to be sent gets the k-th response, or, with
      the reader gone, none. */
  lemma OwnResponse(actions: seq<Action>, t: State, k: nat)
    requires Runs(FRESH, actions, t) && k < |t.results|
    ensures t.results[k].Body? ==> k < |t.answers| && t.results[k].msg == t.answers[k]
    ensures t.results[k].Closed? ==> !t.alive
  {
    FreshInv();
    RunKeeps(FRESH, actions, t);
    if t.results[k].Body? {
      BodyAt(t.results, k);
    }
  }

  /** `recv` returns the pushes in order, none twice and none left out; while the reader runs, those
      not returned yet are queued or on the wire. */
  lemma PushesInOrder(actions: seq<Action>, t: State)
    requires Runs(FRESH, actions, t)
    ensures t.received <= t.pushes
    ensures t.alive ==> t.pushes == t.received + Bodies(t.inbox) + OnWire(t.wire, Push)
  {
    FreshInv();
    RunKeeps(FRESH, actions, t);
    if !t.alive {
      assert t.received == (t.received + Bodies(t.inbox))[..|t.received|];
    }
  }

  /** Once the reader is gone, a request sent afterwards sees the connection closed, and a waiting
      caller can go on, at once or when a sign that was taken is put back. */
  lemma ClosureSeen(actions: seq<Action>, t: State)
    requires Runs(FRESH, actions, t)
    ensures |t.results| <= |t.late|
    ensures forall k | 0 <= k < |t.results| && t.late[k] :: t.results[k].Closed?
    ensures !t.alive && t.lock.Some? ==> Enabled(t, Take(t.lock.value)) || Enabled(t, Repost)
    ensures !t.alive ==> t.inbox != [] || Enabled(t, RepostInbox)
  {
    FreshInv();
    RunKeeps(FRESH, actions, t);
  }

  // --- `recv` against `close` ----------------------------------------------------------

  /** A caller on the fresh queue, with no time set, waits for ever: no step of this connection ends its wait. */
  lemma {:induction false} FreshStays(s: State, actions: seq<Action>, t: State, c: Caller)
    requires c in s.waiting && s.waiting[c] == OnFresh(false) && Runs(s, actions, t)
    ensures c in t.waiting && t.waiting[c] == OnFresh(false)
    decreases |actions|
  {
    if actions != [] {
      FreshStays(Next(s, actions[0]), actions[1..], t, c);
    }
  }

  /** A caller that set a time gives up only where it waits and there is nothing to take. */
  lemma TimesOutIff(s: State, c: Caller)
    requires c in s.waiting
    ensures Enabled(s, TimeOut(c)) <==>
            s.waiting[c].timed && !s.waiting[c].Checked? && (s.waiting[c].OnInbox? ==> s.inbox == [])
    ensures Enabled(s, Recv(c)) <==> s.waiting[c].OnInbox? && s.inbox != []
  {
  }

  /** Some run ends the caller's wait. */
  ghost predicate CanComeBack(s: State, c: Caller) {
    exists actions, t :: Runs(s, actions, t) && c !in t.waiting
  }

  lemma ComesBackBy(s: State, c: Caller, actions: seq<Action>, t: State)
    requires Runs(s, actions, t) && c !in t.waiting
    ensures CanComeBack(s, c)
  {
  }

  /** A caller that was let in by the check can ever come back iff `close` was not yet through when it
      looked the queue up, or it set a time. */
  lemma ComesBackIff(s: State, c: Caller)
    requires Inv(s) && Enabled(s, Bind(c))
    ensures !s.replaced || s.waiting[c].timed <==> CanComeBack(Next(s, Bind(c)), c)
  {
    var u := Next(s, Bind(c));
    if !s.replaced {
      QuietKeeps(s, Bind(c));
      InboxFeeds(u, c);
    } else if s.waiting[c].timed {
      var t := Next(u, TimeOut(c));
      RunsBack(u, TimeOut(c), [], t);
      ComesBackBy(u, c, [TimeOut(c)] + [], t);
    } else {
      StuckStays(u, c);
    }
  }

  /** A caller on the inbox can come back, with a push or with the sign that the reader is gone. */
  lemma InboxFeeds(u: State, c: Caller)
    requires Inv(u) && c in u.waiting && u.waiting[c].OnInbox?
    ensures CanComeBack(u, c)
  {
    if u.inbox != [] {
      var t := Next(u, Recv(c));
      RunsBack(u, Recv(c), [], t);
      ComesBackBy(u, c, [Recv(c)] + [], t);
    } else {
      var wake := if u.alive then Retire else RepostInbox;
      var v := Next(u, wake);
      var t := Next(v, Recv(c));
      RunsBack(v, Recv(c), [], t);
      RunsBack(u, wake, [Recv(c)] + [], t);
      ComesBackBy(u, c, [wake] + ([Recv(c)] + []), t);
    }
  }

  /** It can happen: `close` runs between the check and the look-up. */
  lemma RecvStuck() returns (actions: seq<Action>, t: State)
    ensures actions == [Check(1, false), Close, Retire, Replace, Bind(1)] && Runs(FRESH, actions, t)
    ensures t.waiting == map[1 := OnFresh(false)] && !CanComeBack(t, 1)
  {
    var s1 := Next(FRESH, Check(1, false));
    var s2 := Next(s1, Close);
    t := Next(Next(Next(s2, Retire), Replace), Bind(1));
    StuckFrom(s2);
    RunsTwo(FRESH, Check(1, false), Close, [Retire, Replace, Bind(1)], t);
    actions := [Check(1, false), Close, Retire, Replace, Bind(1)];
    assert actions == [Check(1, false), Close] + [Retire, Replace, Bind(1)];
    StuckStays(t, 1);
  }

  lemma RunsTwo(s: State, a: Action, b: Action, rest: seq<Action>, t: State)
    requires Enabled(s, a) && Enabled(Next(s, a), b) && Runs(Next(Next(s, a), b), rest, t)
    ensures Runs(s, [a, b] + rest, t)
  {
    RunsBack(Next(s, a), b, rest, t);
    RunsBack(s, a, [b] + rest, t);
    assert [a] + ([b] + rest) == [a, b] + rest;
  }

  lemma StuckStays(s: State, c: Caller)
    requires c in s.waiting && s.waiting[c] == OnFresh(false)
    ensures !CanComeBack(s, c)
  {
    forall run, end | Runs(s, run, end) ensures c in end.waiting {
      FreshStays(s, run, end, c);
    }
  }

  lemma StuckFrom(s: State)
    requires !s.sock && s.alive && 1 in s.waiting && s.waiting[1].Checked?
    ensures Runs(s, [Retire, Replace, Bind(1)], Next(Next(Next(s, Retire), Replace), Bind(1)))
  {
    var u := Next(Next(s, Retire), Replace);
    RunsBack(u, Bind(1), [], Next(u, Bind(1)));
    assert [Bind(1)] + [] == [Bind(1)];
    RunsBack(Next(s, Retire), Replace, [Bind(1)], Next(u, Bind(1)));
    assert [Replace] + [Bind(1)] == [Replace, Bind(1)];
    RunsBack(s, Retire, [Replace, Bind(1)], Next(u, Bind(1)));
    assert [Retire] + [Replace, Bind(1)] == [Retire, Replace, Bind(1)];
  }

  lemma RunsBack(s: State, a: Action, rest: seq<Action>, t: State)
    requires Enabled(s, a) && Runs(Next(s, a), rest, t)
    ensures Runs(s, [a] + rest, t)
  {
    assert ([a] + rest)[1..] == rest;
  }

  // --- the connection ------------------------------------------------------------------

  /** The connection object: each method is one step that its callers, or its reader, take whole. */
  class HelperConnection {
    var sock: bool
    var replaced: bool
    var alive: bool
    var lock: Option<Caller>
    var responses: seq<Item>
    var inbox: seq<Item>
    var owed: nat
    var owedInbox: nat
    var waiting: map<Caller, Waiting>
    var wire: seq<Frame>
    ghost var sent: seq<Msg>
    ghost var late: seq<bool>
    ghost var answers: seq<Msg>
    ghost var pushes: seq<Msg>
    ghost var results: seq<Item>
    ghost var received: seq<Msg>

    ghost function Now(): State
      reads this
    {
      State(sock, replaced, alive, lock, responses, inbox, owed, owedInbox, waiting, wire, sent, late, answers, pushes,
            results, received)
    }

    constructor ()
      ensures Now() == FRESH
    {
      sock, replaced, alive, lock := true, false, true, None;
      responses, inbox, owed, owedInbox, waiting, wire := [], [], 0, 0, map[], [];
      sent, late, answers, pushes, results, received := [], [], [], [], [], [];
    }

    method SendRequest(c: Caller, m: Msg) returns (ok: bool)
      requires lock.None?
      modifies this
      ensures ok <==> old(sock)
      ensures Now() == if ok then Next(old(Now()), Send(c, m)) else old(Now())
    {
      if !sock { return false; }
      lock := Some(c);
      sent, late := sent + [m], late + [!alive];
      ok := true;
    }

    /** `None`: the connection is closed; the sign is then owed to the queue. */
    method TakeResponse(c: Caller) returns (r: Option<Msg>)
      requires lock == Some(c) && responses != []
      modifies this
      ensures Now() == Next(old(Now()), Take(c))
      ensures r == if old(responses)[0].Body? then Some(old(responses)[0].msg) else None
    {
      var item := responses[0];
      responses, lock := responses[1..], None;
      results := results + [item];
      if item.Closed? {
        owed := owed + 1;
        return None;
      }
      r := Some(item.msg);
    }

    method PutBack()
      requires owed > 0
      modifies this
      ensures Now() == Next(old(Now()), Repost)
    {
      owed, responses := owed - 1, responses + [Closed];
    }

    method CheckSocket(c: Caller, timed: bool) returns (ok: bool)
      requires c !in waiting
      modifies this
      ensures ok <==> old(sock)
      ensures Now() == if ok then Next(old(Now()), Check(c, timed)) else old(Now())
    {
      if !sock { return false; }
      waiting := waiting[c := Checked(timed)];
      ok := true;
    }

    method LookUpInbox(c: Caller)
      requires c in waiting && waiting[c].Checked?
      modifies this
      ensures Now() == Next(old(Now()), Bind(c))
    {
      var timed := waiting[c].timed;
      waiting := waiting[c := if replaced then OnFresh(timed) else OnInbox(timed)];
    }

    method TakePush(c: Caller) returns (r: Option<Msg>)
      requires c in waiting && waiting[c].OnInbox? && inbox != []
      modifies this
      ensures Now() == Next(old(Now()), Recv(c))
      ensures r == if old(inbox)[0].Body? then Some(old(inbox)[0].msg) else None
    {
      var item := inbox[0];
      inbox, waiting := inbox[1..], waiting - {c};
      if item.Closed? {
        owedInbox := owedInbox + 1;
        return None;
      }
      received := received + [item.msg];
      r := Some(item.msg);
    }

    /** The time is up, and the queue the caller waits on is empty. */
    method GiveUp(c: Caller)
      requires c in waiting && waiting[c].timed
      requires waiting[c].OnFresh? || (waiting[c].OnInbox? && inbox == [])
      modifies this
      ensures Now() == Next(old(Now()), TimeOut(c))
    {
      waiting := waiting - {c};
    }

    method PutBackInInbox()
      requires owedInbox > 0
      modifies this
      ensures Now() == Next(old(Now()), RepostInbox)
    {
      owedInbox, inbox := owedInbox - 1, inbox + [Closed];
    }

    /** The reader takes one frame and routes it; a frame of neither shape ends it. */
    method RouteFrame() returns (ok: bool)
      requires alive && wire != []
      modifies this
      ensures Now() == Next(old(Now()), ReadFrame)
      ensures ok <==> !Route(old(wire)[0]).Undeclared?
      ensures
        var f := old(wire)[0];
        if f.Object? && f.event then ok && inbox == old(inbox) + [Body(f.body)] && responses == old(responses)
        else if f.Object? && f.status then ok && responses == old(responses) + [Body(f.body)] && inbox == old(inbox)
        else !ok && !alive && inbox == old(inbox) + [Closed] && responses == old(responses) + [Closed]
    {
      var f := wire[0];
      wire := wire[1..];
      ok := Deliver(f);
    }

    /** ... to the queue its shape names. */
    method Deliver(f: Frame) returns (ok: bool)
      requires alive
      modifies this
      ensures Now() == Routed(old(Now()), f) && (ok <==> !Route(f).Undeclared?)
    {
      if f.Object? && f.event {
        inbox := inbox + [Body(f.body)];
        return true;
      }
      if f.Object? && f.status {
        responses := responses + [Body(f.body)];
        return true;
      }
      Leave();
      ok := false;
    }

    method Leave()
      requires alive
      modifies this
      ensures Now() == Next(old(Now()), Retire)
    {
      alive := false;
      responses := responses + [Closed];
      inbox := inbox + [Closed];
    }

    method DropSocket()
      modifies this
      ensures Now() == Next(old(Now()), Action.Close)
    {
      sock := false;
    }

    method ReplaceQueues()
      requires !sock
      modifies this
      ensures Now() == Next(old(Now()), Replace)
    {
      replaced := true;
    }
  }
}
