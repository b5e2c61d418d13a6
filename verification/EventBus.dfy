/** The publish/subscribe bus of src/core/EventBus.cpp as an interleaving of its lock-protected
    steps. Any thread may publish, (un)subscribe, drain or stop between any two worker steps; handlers
    run outside the locks and may do all of that too, or throw. A handler that drains waits inside
    its own dispatch; one that stops the bus joins its own thread, which throws (std::thread::join,
    resource_deadlock_would_occur), and the exception is caught like any other. */
module EventBus {

  type Kind = nat
  type Token = nat

  datatype Event = Event(kind: Kind, data: string)

  datatype Subscription = Subscription(token: Token, all: bool, kind: Kind)
  {
    predicate Wants(e: Event) {
      all || kind == e.kind
    }
  }

  /** Where the worker thread is between two steps. */
  datatype Worker =
    | Waiting                                                    // line 129
    | Took(event: Event)                                         // line 133 to 102
    | Calling(event: Event, handlers: seq<Token>, next: nat)     // lines 108 to 121
    | Draining(event: Event, handlers: seq<Token>, next: nat)    // line 145, called by a handler
    | Exited                                                     // line 130

  datatype Delivery = Delivery(token: Token, event: Event)

  /** The shared state, with the history the claims are about: events accepted by publish, events
      fully dispatched, the handlers each was given to, and every handler call made. */
  datatype Bus = Bus(queue: seq<Event>, inFlight: nat, running: bool,
                     subs: seq<Subscription>, nextToken: Token, worker: Worker,
                     accepted: seq<Event>, dispatched: seq<Event>,
                     given: seq<seq<Token>>, calls: seq<Delivery>)

  const INITIAL := Bus([], 0, true, [], 1, Waiting, [], [], [], [])

  datatype Action =
    | Publish(event: Event)
    | Subscribe(kind: Kind)
    | SubscribeAll
    | Unsubscribe(token: Token)
    | Take
    | Snapshot
    | Call(threw: bool)
    | HandlerStops
    | HandlerDrains
    | HandlerDrainReturns
    | Finish
    | DrainReturns
    | StopCalled
    | StopReturns

  function Matching(subs: seq<Subscription>, e: Event): seq<Token> {
    if subs == [] then []
    else (if subs[0].Wants(e) then [subs[0].token] else []) + Matching(subs[1..], e)
  }

  /** Erase the first subscription with this token. */
  function Without(subs: seq<Subscription>, token: Token): seq<Subscription> {
    if subs == [] then []
    else if subs[0].token == token then subs[1..]
    else [subs[0]] + Without(subs[1..], token)
  }

  /** When a step can happen: the condition variables' predicates and the worker's position. */
  predicate Enabled(s: Bus, a: Action) {
    match a
    case Take => s.worker.Waiting? && (!s.running || s.queue != [])
    case Snapshot => s.worker.Took?
    case Call(_) => s.worker.Calling? && s.worker.next < |s.worker.handlers|
    case HandlerStops => s.worker.Calling? && s.worker.next < |s.worker.handlers|
    case HandlerDrains => s.worker.Calling? && s.worker.next < |s.worker.handlers|
    case HandlerDrainReturns => s.worker.Draining? && s.inFlight == 0
    case Finish => s.worker.Calling? && s.worker.next == |s.worker.handlers| && s.inFlight > 0
    case DrainReturns => s.inFlight == 0
    case StopReturns => s.worker.Exited?
    case _ => true
  }

  /** The worker calls its next handler. */
  function Called(s: Bus): (t: Bus)
    requires s.worker.Calling? && s.worker.next < |s.worker.handlers|
    ensures t.worker.Calling?
  {
    var w := s.worker;
    s.(worker := Calling(w.event, w.handlers, w.next + 1), calls := s.calls + [Delivery(w.handlers[w.next], w.event)])
  }

  function Step(s: Bus, a: Action): Bus
    requires Enabled(s, a)
  {
    match a
    case Publish(e) =>
      if !s.running then s
      else s.(queue := s.queue + [e], inFlight := s.inFlight + 1, accepted := s.accepted + [e])
    case Subscribe(k) =>
      s.(subs := s.subs + [Subscription(s.nextToken, false, k)], nextToken := s.nextToken + 1)
    case SubscribeAll =>
      s.(subs := s.subs + [Subscription(s.nextToken, true, 0)], nextToken := s.nextToken + 1)
    case Unsubscribe(t) => s.(subs := Without(s.subs, t))
    case Take =>
      if !s.running && s.queue == [] then s.(worker := Exited)
      else s.(worker := Took(s.queue[0]), queue := s.queue[1..])
    case Snapshot => s.(worker := Calling(s.worker.event, Matching(s.subs, s.worker.event), 0))
    case Call(_) => Called(s)
    case HandlerStops => Called(s).(running := false)
    case HandlerDrains =>
      var t := Called(s);
      t.(worker := Draining(t.worker.event, t.worker.handlers, t.worker.next))
    case HandlerDrainReturns => s.(worker := Calling(s.worker.event, s.worker.handlers, s.worker.next))
    case Finish =>
      s.(worker := Waiting, inFlight := s.inFlight - 1, dispatched := s.dispatched + [s.worker.event],
         given := s.given + [s.worker.handlers])
    case StopCalled => s.(running := false)
    case DrainReturns => s
    case StopReturns => s
  }

  ghost predicate ValidRun(s: Bus, run: seq<Action>)
    decreases |run|
  {
    run == [] || (Enabled(s, run[0]) && ValidRun(Step(s, run[0]), run[1..]))
  }

  ghost function After(s: Bus, run: seq<Action>): Bus
    requires ValidRun(s, run)
    decreases |run|
  {
    if run == [] then s else After(Step(s, run[0]), run[1..])
  }

  // ------------------------------------------------------------------- invariants

  function Current(w: Worker): seq<Event> {
    if w.Took? || w.Calling? || w.Draining? then [w.event] else []
  }

  /** The calls that dispatching e to these handlers makes. */
  function Deliveries(handlers: seq<Token>, e: Event): (r: seq<Delivery>)
    ensures |r| == |handlers|
  {
    seq(|handlers|, k requires 0 <= k < |handlers| => Delivery(handlers[k], e))
  }

  ghost function AllDeliveries(given: seq<seq<Token>>, events: seq<Event>): seq<Delivery>
    requires |given| == |events|
  {
    if given == [] then []
    else
      var n := |given| - 1;
      AllDeliveries(given[..n], events[..n]) + Deliveries(given[n], events[n])
  }

  function PartialDeliveries(w: Worker): seq<Delivery> {
    if (w.Calling? || w.Draining?) && w.next <= |w.handlers| then Deliveries(w.handlers[..w.next], w.event) else []
  }

  ghost predicate Inv(s: Bus) {
    && s.inFlight == |s.queue| + |Current(s.worker)|
    && s.accepted == s.dispatched + Current(s.worker) + s.queue
    && (s.worker.Exited? ==> !s.running && s.queue == [])
    && (s.worker.Calling? || s.worker.Draining? ==> s.worker.next <= |s.worker.handlers|)
    && |s.given| == |s.dispatched|
    && s.calls == AllDeliveries(s.given, s.dispatched) + PartialDeliveries(s.worker)
    && Ordered(s.subs, 0, s.nextToken)
  }

  /** Tokens increase strictly from lo on and stay below bound, so each is used once. */
  ghost predicate Ordered(subs: seq<Subscription>, lo: Token, bound: Token) {
    subs == [] || (lo <= subs[0].token < bound && Ordered(subs[1..], subs[0].token + 1, bound))
  }

  lemma {:induction false} OrderedLower(subs: seq<Subscription>, lo: Token, lo': Token, bound: Token)
    requires Ordered(subs, lo, bound) && lo' <= lo
    ensures Ordered(subs, lo', bound)
  {
  }

  lemma {:induction false} OrderedAppend(subs: seq<Subscription>, lo: Token, bound: Token, x: Subscription)
    requires Ordered(subs, lo, bound) && x.token == bound && lo <= bound
    ensures Ordered(subs + [x], lo, bound + 1)
  {
    if subs != [] {
      OrderedAppend(subs[1..], subs[0].token + 1, bound, x);
      assert (subs + [x])[1..] == subs[1..] + [x];
    } else {
      assert (subs + [x])[1..] == [];
    }
  }

  lemma {:induction false} OrderedAbove(subs: seq<Subscription>, lo: Token, bound: Token, x: Subscription)
    requires Ordered(subs, lo, bound) && x in subs
    ensures lo <= x.token < bound
  {
    if x != subs[0] { OrderedAbove(subs[1..], subs[0].token + 1, bound, x); }
  }

  /** Unsubscribing removes exactly the subscription with the token. */
  lemma {:induction false} WithoutExact(subs: seq<Subscription>, t: Token, lo: Token, bound: Token)
    requires Ordered(subs, lo, bound)
    ensures Ordered(Without(subs, t), lo, bound)
    ensures forall x :: x in Without(subs, t) <==> x in subs && x.token != t
  {
    if subs != [] {
      var rest := subs[1..];
      assert forall x :: x in subs <==> x == subs[0] || x in rest;
      if subs[0].token == t {
        OrderedLower(rest, t + 1, lo, bound);
        forall x | x in rest ensures x.token != t { OrderedAbove(rest, t + 1, bound, x); }
      } else {
        WithoutExact(rest, t, subs[0].token + 1, bound);
        var r := Without(rest, t);
        assert ([subs[0]] + r)[1..] == r;
      }
    }
  }

  lemma TakeKeepsInv(s: Bus)
    requires Inv(s) && Enabled(s, Take)
    ensures Inv(Step(s, Take))
  {
    if s.queue != [] { assert s.queue == [s.queue[0]] + s.queue[1..]; }
  }

  lemma CallKeepsInv(s: Bus)
    requires Inv(s) && s.worker.Calling? && s.worker.next < |s.worker.handlers|
    ensures Inv(Called(s))
  {
    var w := s.worker;
    assert Deliveries(w.handlers[..w.next + 1], w.event)
        == Deliveries(w.handlers[..w.next], w.event) + [Delivery(w.handlers[w.next], w.event)];
  }

  lemma FinishKeepsInv(s: Bus)
    requires Inv(s) && Enabled(s, Finish)
    ensures Inv(Step(s, Finish))
  {
    var w, t := s.worker, Step(s, Finish);
    assert w.handlers[..w.next] == w.handlers;
    assert t.given[..|s.given|] == s.given && t.dispatched[..|s.given|] == s.dispatched;
  }

  /** Every step of every thread keeps the invariant. */
  lemma StepKeepsInv(s: Bus, a: Action)
    requires Inv(s) && Enabled(s, a)
    ensures Inv(Step(s, a))
  {
    match a
    case Subscribe(k) => OrderedAppend(s.subs, 0, s.nextToken, Subscription(s.nextToken, false, k));
    case SubscribeAll => OrderedAppend(s.subs, 0, s.nextToken, Subscription(s.nextToken, true, 0));
    case Unsubscribe(t) => WithoutExact(s.subs, t, 0, s.nextToken);
    case Take => TakeKeepsInv(s);
    case Call(_) => CallKeepsInv(s);
    case HandlerStops => CallKeepsInv(s);
    case HandlerDrains => CallKeepsInv(s);
    case Finish => FinishKeepsInv(s);
    case _ =>
  }

  lemma {:induction false} RunKeepsInv(s: Bus, run: seq<Action>)
    requires Inv(s) && ValidRun(s, run)
    ensures Inv(After(s, run))
    decreases |run|
  {
    if run != [] {
      StepKeepsInv(s, run[0]);
      RunKeepsInv(Step(s, run[0]), run[1..]);
    }
  }

  // ------------------------------------------------------------------- the claims

  /** In every reachable state the counter is queued plus dispatching, and what was dispatched,
      is being dispatched and is queued is what was accepted, in publish order. */
  lemma Conservation(run: seq<Action>)
    requires ValidRun(INITIAL, run)
    ensures var s := After(INITIAL, run);
      && s.inFlight == |s.queue| + |Current(s.worker)|
      && s.dispatched + Current(s.worker) + s.queue == s.accepted
  {
    RunKeepsInv(INITIAL, run);
  }

  /** `drain` returns only when everything accepted so far has been dispatched to everyone. */
  lemma DrainComplete(run: seq<Action>)
    requires ValidRun(INITIAL, run) && Enabled(After(INITIAL, run), DrainReturns)
    ensures var s := After(INITIAL, run);
      && s.dispatched == s.accepted && |s.given| == |s.accepted|
      && s.calls == AllDeliveries(s.given, s.accepted)
  {
    RunKeepsInv(INITIAL, run);
  }

  /** The worker exits only after every accepted event was dispatched exactly once, in order. */
  lemma ExitComplete(run: seq<Action>)
    requires ValidRun(INITIAL, run) && After(INITIAL, run).worker.Exited?
    ensures After(INITIAL, run).dispatched == After(INITIAL, run).accepted
  {
    RunKeepsInv(INITIAL, run);
  }

  /** After the worker has exited nothing is accepted any more, so the claim above is final. */
  lemma {:induction false} ExitIsFinal(s: Bus, run: seq<Action>)
    requires Inv(s) && s.worker.Exited? && ValidRun(s, run)
    ensures After(s, run).worker.Exited? && After(s, run).accepted == s.accepted
    decreases |run|
  {
    if run != [] {
      StepKeepsInv(s, run[0]);
      ExitIsFinal(Step(s, run[0]), run[1..]);
    }
  }

  /** The first stop returns only after the join, hence with everything dispatched. */
  lemma StopComplete(run: seq<Action>)
    requires ValidRun(INITIAL, run) && Enabled(After(INITIAL, run), StopReturns)
    ensures After(INITIAL, run).dispatched == After(INITIAL, run).accepted
  {
    ExitComplete(run);
  }

  /** A second stop returns at once (line 151). Everything accepted has been dispatched at that
      moment exactly when nothing is in flight. */
  lemma SecondStop(run: seq<Action>)
    requires ValidRun(INITIAL, run) && !After(INITIAL, run).running
    ensures var s := After(INITIAL, run); s.dispatched == s.accepted <==> s.inFlight == 0
  {
    RunKeepsInv(INITIAL, run);
  }

  /** The failing run: two stop calls, the second of which returns with an event undispatched. */
  lemma SecondStopEarly(run: seq<Action>, e: Event)
    requires run == [Publish(e), StopCalled, StopCalled]
    ensures ValidRun(INITIAL, run) && !After(INITIAL, run[..2]).running
    ensures After(INITIAL, run).dispatched == [] && After(INITIAL, run).accepted == [e]
  {
    var s1 := Step(INITIAL, Publish(e));
    var s2 := Step(s1, StopCalled);
    assert Step(s2, StopCalled) == s2;
    assert ValidRun(s2, []) && After(s2, []) == s2;
    assert [StopCalled][1..] == [] && [StopCalled, StopCalled][1..] == [StopCalled];
    assert ValidRun(s2, [StopCalled]) && After(s2, [StopCalled]) == s2;
    assert ValidRun(s1, [StopCalled]) && After(s1, [StopCalled]) == s2;
    assert ValidRun(s1, [StopCalled, StopCalled]) && After(s1, [StopCalled, StopCalled]) == s2;
    assert run[1..] == [StopCalled, StopCalled] && run[..2][1..] == [StopCalled];
  }

  // -------------------------------------------------------------------- progress

  predicate IsWorkerAction(a: Action) {
    a.Take? || a.Snapshot? || a.Call? || a.Finish?
  }

  /** The step the worker is about to make. */
  function WorkerMove(s: Bus): Action {
    match s.worker
    case Waiting => Take
    case Took(_) => Snapshot
    case Calling(_, handlers, next) => if next < |handlers| then Call(false) else Finish
    case Draining(_, _, _) => HandlerDrainReturns
    case Exited => Take
  }

  /** While anything is in flight the worker's next step is enabled exactly when no handler of its is
      draining. */
  lemma WorkerCanMove(s: Bus)
    requires Inv(s) && s.inFlight > 0
    ensures Enabled(s, WorkerMove(s)) <==> !s.worker.Draining?
  {
  }

  /** Drain cannot return while an event is being dispatched, so not from inside a handler. */
  lemma DrainWaitsForDispatch(s: Bus)
    requires Inv(s) && Current(s.worker) != []
    ensures !Enabled(s, DrainReturns) && !Enabled(s, HandlerDrainReturns)
  {
  }

  /** A handler that drains never returns: in every continuation its event stays in flight, nothing
      more is dispatched, and neither drain nor the joining stop returns to anyone. */
  lemma {:induction false} HandlerDrainHangs(s: Bus, run: seq<Action>)
    requires Inv(s) && s.worker.Draining? && ValidRun(s, run)
    ensures var t := After(s, run);
      && t.worker == s.worker && t.inFlight > 0 && t.dispatched == s.dispatched && t.calls == s.calls
      && !Enabled(t, DrainReturns) && !Enabled(t, HandlerDrainReturns) && !Enabled(t, StopReturns)
    decreases |run|
  {
    if run != [] {
      StepKeepsInv(s, run[0]);
      HandlerDrainHangs(Step(s, run[0]), run[1..]);
    }
  }

  /** Unless a handler is draining, the worker alone empties the bus when the handlers it still calls
      return or throw, so drain can return. */
  lemma {:induction false} DrainReachable(s: Bus) returns (run: seq<Action>)
    requires Inv(s) && !s.worker.Draining?
    ensures ValidRun(s, run) && (forall i :: 0 <= i < |run| ==> IsWorkerAction(run[i]))
    ensures After(s, run).inFlight == 0 && After(s, run).accepted == s.accepted
    decreases s.inFlight,
              if s.worker.Waiting? then 2 else if s.worker.Took? then 1 else 0,
              if s.worker.Calling? then |s.worker.handlers| - s.worker.next else 0
  {
    if s.inFlight == 0 { return []; }
    WorkerCanMove(s);
    var a := WorkerMove(s);
    StepKeepsInv(s, a);
    var rest := DrainReachable(Step(s, a));
    run := [a] + rest;
    assert run[1..] == rest;
  }

  /** The exact condition: drain can still return if and only if no handler is draining. */
  lemma DrainReachableIff(s: Bus)
    requires Inv(s)
    ensures (exists run :: ValidRun(s, run) && Enabled(After(s, run), DrainReturns)) <==> !s.worker.Draining?
  {
    if s.worker.Draining? {
      forall run | ValidRun(s, run)
        ensures !Enabled(After(s, run), DrainReturns)
      {
        HandlerDrainHangs(s, run);
      }
    } else {
      var run := DrainReachable(s);
      assert ValidRun(s, run) && Enabled(After(s, run), DrainReturns);
    }
  }

  // ------------------------------------------------------------------ the code

  lemma {:induction false} MatchingAppend(subs: seq<Subscription>, x: Subscription, e: Event)
    ensures Matching(subs + [x], e) == Matching(subs, e) + (if x.Wants(e) then [x.token] else [])
  {
    if subs == [] {
      assert subs + [x] == [x] && [x][1..] == [];
    } else {
      MatchingAppend(subs[1..], x, e);
      assert (subs + [x])[1..] == subs[1..] + [x];
    }
  }

  /** An event goes to exactly the subscriptions that want it. */
  lemma {:induction false} MatchingExact(subs: seq<Subscription>, e: Event, t: Token)
    ensures t in Matching(subs, e) <==> exists i :: 0 <= i < |subs| && subs[i].token == t && subs[i].Wants(e)
  {
    if subs != [] {
      var rest := subs[1..];
      MatchingExact(rest, e, t);
      if i :| 0 <= i < |subs| && subs[i].token == t && subs[i].Wants(e) {
        if i > 0 { assert rest[i - 1] == subs[i]; }
      }
      if j :| 0 <= j < |rest| && rest[j].token == t && rest[j].Wants(e) {
        assert subs[j + 1] == rest[j];
      }
    }
  }

  // -------------------------------------------------------------------- subscribers

  /** How often dispatching an event to these handlers calls the one with this token. */
  function Times(handlers: seq<Token>, t: Token): nat {
    multiset(handlers)[t]
  }

  /** The handlers of an event call this subscriber once if it wants the event, and not otherwise. */
  predicate Fair(handlers: seq<Token>, e: Event, x: Subscription) {
    Times(handlers, x.token) == if x.Wants(e) then 1 else 0
  }

  lemma {:induction false} NotMatching(subs: seq<Subscription>, e: Event, t: Token, lo: Token, bound: Token)
    requires Ordered(subs, lo, bound) && t < lo
    ensures Times(Matching(subs, e), t) == 0
  {
    if subs != [] {
      var first := if subs[0].Wants(e) then [subs[0].token] else [];
      NotMatching(subs[1..], e, t, subs[0].token + 1, bound);
      assert multiset(first + Matching(subs[1..], e)) == multiset(first) + multiset(Matching(subs[1..], e));
    }
  }

  /** A snapshot of the handlers treats every subscriber fairly. */
  lemma {:induction false} SnapshotFair(subs: seq<Subscription>, e: Event, x: Subscription, lo: Token, bound: Token)
    requires Ordered(subs, lo, bound) && x in subs
    ensures Fair(Matching(subs, e), e, x)
  {
    var rest := subs[1..];
    var first := if subs[0].Wants(e) then [subs[0].token] else [];
    assert multiset(first + Matching(rest, e)) == multiset(first) + multiset(Matching(rest, e));
    if x == subs[0] {
      NotMatching(rest, e, x.token, x.token + 1, bound);
    } else {
      assert x in rest;
      OrderedAbove(rest, subs[0].token + 1, bound, x);
      SnapshotFair(rest, e, x, subs[0].token + 1, bound);
    }
  }

  /** The subscriber is still there and was treated fairly from event number n on. */
  ghost predicate Serving(s: Bus, x: Subscription, n: nat) {
    && x in s.subs && |s.given| == |s.dispatched|
    && (forall i :: n <= i < |s.given| ==> Fair(s.given[i], s.dispatched[i], x))
    && ((s.worker.Calling? || s.worker.Draining?) && |s.dispatched| >= n ==>
          Fair(s.worker.handlers, s.worker.event, x))
  }

  lemma StepServes(s: Bus, a: Action, x: Subscription, n: nat)
    requires Inv(s) && Enabled(s, a) && Serving(s, x, n) && a != Unsubscribe(x.token)
    ensures Serving(Step(s, a), x, n)
  {
    match a
    case Unsubscribe(t) => WithoutExact(s.subs, t, 0, s.nextToken);
    case Snapshot => SnapshotFair(s.subs, s.worker.event, x, 0, s.nextToken);
    case _ =>
  }

  lemma {:induction false} RunServes(s: Bus, run: seq<Action>, x: Subscription, n: nat)
    requires Inv(s) && ValidRun(s, run) && Serving(s, x, n) && Unsubscribe(x.token) !in run
    ensures Serving(After(s, run), x, n)
    decreases |run|
  {
    if run != [] {
      StepKeepsInv(s, run[0]);
      StepServes(s, run[0], x, n);
      RunServes(Step(s, run[0]), run[1..], x, n);
    }
  }

  /** A subscription that is kept receives every event published from then on that it wants exactly
      once and no other, in whatever interleaving; by the time drain returns, all of them. */
  lemma SubscriberServed(s: Bus, run: seq<Action>, x: Subscription, i: nat)
    requires Inv(s) && x in s.subs && ValidRun(s, run) && Unsubscribe(x.token) !in run
    requires |s.accepted| <= i < |After(s, run).dispatched|
    ensures var t := After(s, run);
            |t.given| == |t.dispatched| && Fair(t.given[i], t.dispatched[i], x)
    ensures var t := After(s, run);
            Enabled(t, DrainReturns) ==> t.dispatched == t.accepted && t.calls == AllDeliveries(t.given, t.accepted)
  {
    assert Serving(s, x, |s.accepted|);
    RunKeepsInv(s, run);
    RunServes(s, run, x, |s.accepted|);
  }

  lemma {:induction false} WithoutAt(subs: seq<Subscription>, t: Token, i: nat)
    requires i <= |subs| && (forall k :: 0 <= k < i ==> subs[k].token != t)
    requires i < |subs| ==> subs[i].token == t
    ensures Without(subs, t) == if i < |subs| then subs[..i] + subs[i + 1..] else subs
  {
    if subs != [] && i > 0 {
      WithoutAt(subs[1..], t, i - 1);
      assert subs == [subs[0]] + subs[1..];
      if i < |subs| {
        assert subs[1..][..i - 1] == subs[1..i] && subs[1..][i..] == subs[i + 1..];
        assert subs[..i] == [subs[0]] + subs[1..i];
      }
    }
  }

  /** The object, one method per critical section. The ghost fields are the history. */
  class SharedBus {
    var queue: seq<Event>
    var inFlight: nat
    var running: bool
    var subs: seq<Subscription>
    var nextToken: Token
    var worker: Worker
    ghost var accepted: seq<Event>
    ghost var dispatched: seq<Event>
    ghost var given: seq<seq<Token>>
    ghost var calls: seq<Delivery>

    ghost function View(): Bus
      reads this
    {
      Bus(queue, inFlight, running, subs, nextToken, worker, accepted, dispatched, given, calls)
    }

    constructor ()
      ensures View() == INITIAL
    {
      queue, inFlight, running, subs, nextToken, worker := [], 0, true, [], 1, Waiting;
      accepted, dispatched, given, calls := [], [], [], [];
    }

    method Publish(e: Event)
      modifies this
      ensures View() == Step(old(View()), Action.Publish(e))
    {
      if !running { return; }
      queue := queue + [e];
      inFlight := inFlight + 1;
      accepted := accepted + [e];
    }

    method Subscribe(kind: Kind) returns (token: Token)
      modifies this
      ensures View() == Step(old(View()), Action.Subscribe(kind)) && token == old(nextToken)
    {
      token := nextToken;
      nextToken := nextToken + 1;
      subs := subs + [Subscription(token, false, kind)];
    }

    method SubscribeAll() returns (token: Token)
      modifies this
      ensures View() == Step(old(View()), Action.SubscribeAll) && token == old(nextToken)
    {
      token := nextToken;
      nextToken := nextToken + 1;
      subs := subs + [Subscription(token, true, 0)];
    }

    method Unsubscribe(token: Token)
      modifies this
      ensures View() == Step(old(View()), Action.Unsubscribe(token))
    {
      var i := 0;
      while i < |subs|
        invariant 0 <= i <= |subs| && View() == old(View())
        invariant forall k :: 0 <= k < i ==> subs[k].token != token
      {
        if subs[i].token == token {
          WithoutAt(subs, token, i);
          subs := subs[..i] + subs[i + 1..];
          return;
        }
        i := i + 1;
      }
      WithoutAt(subs, token, i);
    }

    /** Lines 128 to 133; the wait is the precondition. */
    method WorkerTake() returns (exit: bool)
      requires Enabled(View(), Action.Take)
      modifies this
      ensures View() == Step(old(View()), Action.Take) && exit == worker.Exited?
    {
      if !running && queue == [] {
        worker := Exited;
        return true;
      }
      worker := Took(queue[0]);
      queue := queue[1..];
      exit := false;
    }

    /** Lines 101 to 107. */
    method WorkerSnapshot()
      requires worker.Took?
      modifies this
      ensures View() == Step(old(View()), Action.Snapshot)
    {
      var handlers := [];
      for i := 0 to |subs|
        invariant View() == old(View()) && 0 <= i <= |subs|
        invariant handlers == Matching(subs[..i], worker.event)
      {
        MatchingAppend(subs[..i], subs[i], worker.event);
        assert subs[..i + 1] == subs[..i] + [subs[i]];
        if subs[i].Wants(worker.event) { handlers := handlers + [subs[i].token]; }
      }
      assert subs[..|subs|] == subs;
      worker := Calling(worker.event, handlers, 0);
    }

    /** Lines 136 to 138. */
    method WorkerFinish() returns (idle: bool)
      requires Enabled(View(), Action.Finish)
      modifies this
      ensures View() == Step(old(View()), Action.Finish) && idle == (inFlight == 0)
    {
      dispatched := dispatched + [worker.event];
      given := given + [worker.handlers];
      worker := Waiting;
      inFlight := inFlight - 1;
      idle := inFlight == 0;
    }

    /** Lines 149 to 153; true when this call has to join the worker. */
    method Stop() returns (join: bool)
      modifies this
      ensures View() == Step(old(View()), Action.StopCalled) && join == old(running)
    {
      if !running { return false; }
      running := false;
      join := true;
    }
  }
}
