/** The watchdog, the state machine and Safe Mode, joined by the bus: src/system/Watchdog.cpp,
    SystemManager.cpp, StateMachine.cpp and SafeMode.h. */
module Systems {

  datatype SystemState =
    | Booting | Unconfigured | SetupMode | ConnectingNetwork | SearchingStreamer | Authenticating
    | Online | Playing | Calibrating | Updating | Degraded | Offline | Error | ShuttingDown

  datatype Event =
    | HealthCheckFailed(service: string, count: int)
    | WatchdogTimeout(service: string)
    | NetworkConnected | NetworkDisconnected | StreamerFound | StreamerDisconnected
    | PairingCompleted | AudioStarted | AudioStopped | ConfigInvalid | IdentityCorrupt
    | UpdateFailed | ShutdownRequested
    | StateChanged(from: SystemState, to: SystemState)
    | SafeModeEntered
    | OtherEvent

  // ------------------------------------------------------------- the state machine

  predicate LegalTransition(from: SystemState, to: SystemState) {
    || to == ShuttingDown
    || (to == Error && from != ShuttingDown)
    || from == to
    || match from
       case Booting => to in {Unconfigured, ConnectingNetwork}
       case Unconfigured => to == SetupMode
       case SetupMode => to in {ConnectingNetwork, Unconfigured}
       case ConnectingNetwork => to in {SearchingStreamer, Offline, SetupMode}
       case SearchingStreamer => to in {Authenticating, Online, Offline, ConnectingNetwork}
       case Authenticating => to in {Online, SearchingStreamer, Offline}
       case Online => to in {Playing, Calibrating, Updating, Degraded, Offline}
       case Playing => to in {Online, Calibrating, Degraded, Offline}
       case Calibrating => to in {Online, Playing, Degraded}
       case Updating => to == Online
       case Degraded => to in {Online, Offline}
       case Offline => to in {ConnectingNetwork, SearchingStreamer, Degraded}
       case Error => to in {Booting, Degraded}
       case ShuttingDown => false
  }

  /** A sequence of states each of which may follow the one before. */
  predicate LegalPath(p: seq<SystemState>) {
    forall i :: 0 <= i < |p| - 1 ==> LegalTransition(p[i], p[i + 1])
  }

  /** No state but ShuttingDown is a dead end: each has a legal path to Playing. */
  lemma PathToPlaying(from: SystemState) returns (p: seq<SystemState>)
    requires from != ShuttingDown
    ensures |p| >= 1 && p[0] == from && p[|p| - 1] == Playing && LegalPath(p)
  {
    match from
    case Booting => p := [Booting, ConnectingNetwork, SearchingStreamer, Online, Playing];
    case Unconfigured => p := [Unconfigured, SetupMode, ConnectingNetwork, SearchingStreamer, Online, Playing];
    case SetupMode => p := [SetupMode, ConnectingNetwork, SearchingStreamer, Online, Playing];
    case ConnectingNetwork => p := [ConnectingNetwork, SearchingStreamer, Online, Playing];
    case SearchingStreamer => p := [SearchingStreamer, Online, Playing];
    case Authenticating => p := [Authenticating, Online, Playing];
    case Online => p := [Online, Playing];
    case Playing => p := [Playing];
    case Calibrating => p := [Calibrating, Playing];
    case Updating => p := [Updating, Online, Playing];
    case Degraded => p := [Degraded, Online, Playing];
    case Offline => p := [Offline, SearchingStreamer, Online, Playing];
    case Error => p := [Error, Degraded, Online, Playing];
  }

  /** ShuttingDown is final: no legal path leaves it. */
  lemma {:induction false} ShutdownIsFinal(p: seq<SystemState>, i: nat)
    requires LegalPath(p) && i < |p| && p[0] == ShuttingDown
    ensures p[i] == ShuttingDown
  {
    if i > 0 {
      ShutdownIsFinal(p, i - 1);
      assert LegalTransition(p[i - 1], p[i - 1 + 1]);
    }
  }

  /** The system manager's fields. `entered` counts the SafeModeEntered events it has published. */
  datatype Manager = Manager(state: SystemState, streak: int, active: bool, entered: nat)

  /** A manager and the events it has published during one call. */
  datatype Effect = Effect(m: Manager, out: seq<Event>)

  const BOOT := Manager(Booting, 0, false, 0)

  function TransitionTo(e: Effect, to: SystemState): Effect {
    if e.m.state == to || !LegalTransition(e.m.state, to) then e
    else Effect(e.m.(state := to), e.out + [StateChanged(e.m.state, to)])
  }

  function EnterSafeMode(e: Effect): Effect {
    if e.m.active then e
    else TransitionTo(Effect(e.m.(active := true, entered := e.m.entered + 1), e.out + [SafeModeEntered]), Degraded)
  }

  /** One more error; the third in a row escalates. */
  function Strike(e: Effect): Effect {
    var f := e.(m := e.m.(streak := e.m.streak + 1));
    if f.m.streak >= 3 then EnterSafeMode(f) else f
  }

  function Connected(e: Effect): Effect {
    var f := if e.m.state == SetupMode then TransitionTo(e, ConnectingNetwork) else e;
    if f.m.state in {Authenticating, Online, Playing, Calibrating, Updating} then f
    else TransitionTo(f, SearchingStreamer)
  }

  /** The handler, publishing after what e has already published. */
  function HandleFrom(e: Effect, ev: Event): Effect {
    var m := e.m;
    if m.state == Booting && ev in {NetworkConnected, NetworkDisconnected} then e
    else match ev
      case NetworkConnected => Connected(e)
      case NetworkDisconnected => TransitionTo(e, Offline)
      case StreamerFound => TransitionTo(e, Authenticating)
      case PairingCompleted =>
        var f := TransitionTo(e, if m.state == SetupMode then ConnectingNetwork else Online);
        f.(m := f.m.(streak := 0))
      case StreamerDisconnected => TransitionTo(e, Offline)
      case AudioStarted =>
        TransitionTo(if m.state in {SearchingStreamer, Authenticating} then TransitionTo(e, Online) else e, Playing)
      case AudioStopped => TransitionTo(e, Online)
      case ConfigInvalid => EnterSafeMode(TransitionTo(e, Degraded))
      case IdentityCorrupt => EnterSafeMode(TransitionTo(e, Error))
      case UpdateFailed => Strike(e)
      case WatchdogTimeout(_) => Strike(TransitionTo(e, Degraded))
      case ShutdownRequested => TransitionTo(e, ShuttingDown)
      case _ => e
  }

  function HandleEvent(m: Manager, ev: Event): Effect {
    HandleFrom(Effect(m, []), ev)
  }

  /** f is g with earlier events in front. */
  predicate Behind(before: seq<Event>, f: Effect, g: Effect) {
    f.m == g.m && f.out == before + g.out
  }

  lemma TransitionBehind(before: seq<Event>, f: Effect, g: Effect, to: SystemState)
    requires Behind(before, f, g)
    ensures Behind(before, TransitionTo(f, to), TransitionTo(g, to))
  {
  }

  lemma EnterSafeModeBehind(before: seq<Event>, f: Effect, g: Effect)
    requires Behind(before, f, g)
    ensures Behind(before, EnterSafeMode(f), EnterSafeMode(g))
  {
    var m := f.m.(active := true, entered := f.m.entered + 1);
    var p, q := Effect(m, f.out + [SafeModeEntered]), Effect(m, g.out + [SafeModeEntered]);
    assert Behind(before, p, q);
    TransitionBehind(before, p, q, Degraded);
  }

  lemma StrikeBehind(before: seq<Event>, f: Effect, g: Effect)
    requires Behind(before, f, g)
    ensures Behind(before, Strike(f), Strike(g))
  {
    var m := f.m.(streak := f.m.streak + 1);
    EnterSafeModeBehind(before, f.(m := m), g.(m := m));
  }

  lemma ConnectedBehind(before: seq<Event>, f: Effect, g: Effect)
    requires Behind(before, f, g)
    ensures Behind(before, Connected(f), Connected(g))
  {
    TransitionBehind(before, f, g, ConnectingNetwork);
    var p := if f.m.state == SetupMode then TransitionTo(f, ConnectingNetwork) else f;
    var q := if f.m.state == SetupMode then TransitionTo(g, ConnectingNetwork) else g;
    TransitionBehind(before, p, q, SearchingStreamer);
  }

  /** What was published before does not matter: the handler appends what it would publish alone. */
  lemma HandleAppends(e: Effect, ev: Event)
    ensures Behind(e.out, HandleFrom(e, ev), HandleEvent(e.m, ev))
  {
    var g, b := Effect(e.m, []), e.out;
    assert Behind(b, e, g);
    forall to: SystemState
      ensures Behind(b, TransitionTo(e, to), TransitionTo(g, to))
    {
      TransitionBehind(b, e, g, to);
    }
    match ev
    case NetworkConnected => ConnectedBehind(b, e, g);
    case AudioStarted =>
      TransitionBehind(b, e, g, Playing);
      TransitionBehind(b, TransitionTo(e, Online), TransitionTo(g, Online), Playing);
    case ConfigInvalid => EnterSafeModeBehind(b, TransitionTo(e, Degraded), TransitionTo(g, Degraded));
    case IdentityCorrupt => EnterSafeModeBehind(b, TransitionTo(e, Error), TransitionTo(g, Error));
    case UpdateFailed => StrikeBehind(b, e, g);
    case WatchdogTimeout(_) => StrikeBehind(b, TransitionTo(e, Degraded), TransitionTo(g, Degraded));
    case _ =>
  }

  class SystemManager {
    var state: SystemState
    var streak: int
    var active: bool
    ghost var entered: nat
    var published: seq<Event>

    ghost function View(): Effect
      reads this
    {
      Effect(Manager(state, streak, active, entered), published)
    }

    constructor ()
      ensures View() == Effect(BOOT, [])
    {
      state, streak, active, entered, published := Booting, 0, false, 0, [];
    }

    method Move(to: SystemState) returns (ok: bool)
      modifies this
      ensures View() == TransitionTo(old(View()), to)
      ensures ok <==> LegalTransition(old(state), to)
    {
      if state == to {
        return true;
      }
      if !LegalTransition(state, to) {
        return false;
      }
      published := published + [StateChanged(state, to)];
      state := to;
      return true;
    }

    method GoSafe()
      modifies this
      ensures View() == EnterSafeMode(old(View()))
    {
      if active {
        return;
      }
      active, entered := true, entered + 1;
      published := published + [SafeModeEntered];
      var _ := Move(Degraded);
    }

    method CountError()
      modifies this
      ensures View() == Strike(old(View()))
    {
      streak := streak + 1;
      if streak >= 3 {
        GoSafe();
      }
    }

    method OnConnected()
      modifies this
      ensures View() == Connected(old(View()))
    {
      if state == SetupMode {
        var _ := Move(ConnectingNetwork);
      }
      if state !in {Authenticating, Online, Playing, Calibrating, Updating} {
        var _ := Move(SearchingStreamer);
      }
    }

    method Handle(ev: Event)
      modifies this
      ensures View() == HandleFrom(old(View()), ev)
      ensures Behind(old(published), View(), HandleEvent(old(View()).m, ev))
    {
      HandleAppends(View(), ev);
      if state == Booting && ev in {NetworkConnected, NetworkDisconnected} {
        return;
      }
      var ok := true;
      match ev
      case NetworkConnected => OnConnected();
      case NetworkDisconnected => ok := Move(Offline);
      case StreamerFound => ok := Move(Authenticating);
      case PairingCompleted =>
        if state == SetupMode {
          ok := Move(ConnectingNetwork);
        } else {
          ok := Move(Online);
        }
        streak := 0;
      case StreamerDisconnected => ok := Move(Offline);
      case AudioStarted =>
        if state in {SearchingStreamer, Authenticating} {
          ok := Move(Online);
        }
        ok := Move(Playing);
      case AudioStopped => ok := Move(Online);
      case ConfigInvalid =>
        ok := Move(Degraded);
        GoSafe();
      case IdentityCorrupt =>
        ok := Move(Error);
        GoSafe();
      case UpdateFailed => CountError();
      case WatchdogTimeout(_) =>
        ok := Move(Degraded);
        CountError();
      case ShutdownRequested => ok := Move(ShuttingDown);
      case _ =>
    }
  }

  /** Safe mode is announced once, and a streak of three has always entered it. */
  predicate Sound(m: Manager) {
    && m.streak >= 0
    && m.entered == (if m.active then 1 else 0)
    && (m.streak >= 3 ==> m.active)
  }

  lemma HandleKeepsSound(m: Manager, ev: Event)
    requires Sound(m)
    ensures Sound(HandleEvent(m, ev).m)
    ensures m.active ==> HandleEvent(m, ev).m.active
    ensures m.state == ShuttingDown ==> HandleEvent(m, ev).m.state == ShuttingDown
  {
  }

  /** The republished NetworkConnected is idempotent and never moves a device past discovery. */
  lemma ConnectedIsIdempotent(m: Manager)
    ensures var once := HandleEvent(m, NetworkConnected).m;
            && HandleEvent(once, NetworkConnected) == Effect(once, [])
            && (m.state in {Authenticating, Online, Playing, Calibrating, Updating} ==> once == m)
  {
  }

  // ------------------------------------------------------------- the watchdog

  /** One watched entry at a poll: skipped when null or the watchdog itself. */
  datatype Probe = Skipped | Probe(name: string, ok: bool)

  datatype Watch = Watch(counts: map<string, int>, out: seq<Event>, unhealthy: nat)

  function Count(counts: map<string, int>, n: string): int {
    if n in counts then counts[n] else 0
  }

  function ProbeOne(w: Watch, p: Probe, threshold: int): Watch {
    match p
    case Skipped => w
    case Probe(n, ok) =>
      if ok then w.(counts := w.counts[n := 0])
      else
        var c := Count(w.counts, n) + 1;
        var out := w.out + [HealthCheckFailed(n, c)];
        if c >= threshold then Watch(w.counts[n := 0], out + [WatchdogTimeout(n)], w.unhealthy + 1)
        else Watch(w.counts[n := c], out, w.unhealthy + 1)
  }

  function Polled(counts: map<string, int>, probes: seq<Probe>, threshold: int): Watch {
    if probes == [] then Watch(counts, [], 0)
    else ProbeOne(Polled(counts, probes[..|probes| - 1], threshold), probes[|probes| - 1], threshold)
  }

  function Failing(probes: seq<Probe>): nat {
    if probes == [] then 0
    else
      var p := probes[|probes| - 1];
      Failing(probes[..|probes| - 1]) + (if p.Probe? && !p.ok then 1 else 0)
  }

  class Watchdog {
    const threshold: int
    var counts: map<string, int>
    var published: seq<Event>

    constructor (threshold: int)
      ensures this.threshold == threshold && counts == map[] && published == []
    {
      this.threshold, counts, published := threshold, map[], [];
    }

    method PollOnce(probes: seq<Probe>) returns (unhealthy: nat)
      modifies this
      ensures var w := Polled(old(counts), probes, threshold);
              && counts == w.counts && published == old(published) + w.out && unhealthy == w.unhealthy
    {
      unhealthy := 0;
      for i := 0 to |probes|
        invariant var w := Polled(old(counts), probes[..i], threshold);
                  && counts == w.counts && published == old(published) + w.out && unhealthy == w.unhealthy
      {
        assert probes[..i + 1][..i] == probes[..i];
        match probes[i]
        case Skipped =>
        case Probe(n, ok) =>
          if ok {
            counts := counts[n := 0];
          } else {
            unhealthy := unhealthy + 1;
            var count := Count(counts, n) + 1;
            counts := counts[n := count];
            published := published + [HealthCheckFailed(n, count)];
            if count >= threshold {
              counts := counts[n := 0];
              published := published + [WatchdogTimeout(n)];
            }
          }
      }
      assert probes[..|probes|] == probes;
    }
  }

  /** Pending timeouts of one service. */
  function Timeouts(q: seq<Event>, n: string): nat {
    if q == [] then 0
    else (if q[0] == WatchdogTimeout(n) then 1 else 0) + Timeouts(q[1..], n)
  }

  lemma {:induction false} TimeoutsConcat(q: seq<Event>, r: seq<Event>, n: string)
    ensures Timeouts(q + r, n) == Timeouts(q, n) + Timeouts(r, n)
  {
    if q == [] {
      assert q + r == r;
    } else {
      assert (q + r)[1..] == q[1..] + r;
      TimeoutsConcat(q[1..], r, n);
    }
  }

  predicate NoPairing(q: seq<Event>) {
    PairingCompleted !in q
  }

  /** How often the name occurs among the probes. */
  function Occurrences(probes: seq<Probe>, n: string): nat {
    if probes == [] then 0
    else
      var p := probes[|probes| - 1];
      Occurrences(probes[..|probes| - 1], n) + (if p.Probe? && p.name == n then 1 else 0)
  }

  /** Exactly one entry is named n, and it fails. */
  predicate UniqueFailing(probes: seq<Probe>, n: string) {
    Occurrences(probes, n) == 1 && Probe(n, false) in probes
  }

  lemma AppendTimeouts(q: seq<Event>, e: Event, n: string)
    ensures Timeouts(q + [e], n) == Timeouts(q, n) + (if e == WatchdogTimeout(n) then 1 else 0)
  {
    TimeoutsConcat(q, [e], n);
  }

  /** A probe of another name changes neither n's count nor n's timeouts. */
  lemma ProbeOther(w: Watch, p: Probe, n: string, threshold: int)
    requires !(p.Probe? && p.name == n)
    ensures var v := ProbeOne(w, p, threshold);
            && Count(v.counts, n) == Count(w.counts, n) && Timeouts(v.out, n) == Timeouts(w.out, n)
            && (NoPairing(w.out) ==> NoPairing(v.out))
  {
    if p.Probe? && !p.ok {
      var c := Count(w.counts, p.name) + 1;
      AppendTimeouts(w.out, HealthCheckFailed(p.name, c), n);
      AppendTimeouts(w.out + [HealthCheckFailed(p.name, c)], WatchdogTimeout(p.name), n);
    }
  }

  lemma ProbeFailing(w: Watch, n: string, threshold: int)
    ensures var v := ProbeOne(w, Probe(n, false), threshold);
            var c := Count(w.counts, n) + 1;
            && Count(v.counts, n) == (if c >= threshold then 0 else c)
            && Timeouts(v.out, n) == Timeouts(w.out, n) + (if c >= threshold then 1 else 0)
            && (NoPairing(w.out) ==> NoPairing(v.out))
  {
    var c := Count(w.counts, n) + 1;
    AppendTimeouts(w.out, HealthCheckFailed(n, c), n);
    AppendTimeouts(w.out + [HealthCheckFailed(n, c)], WatchdogTimeout(n), n);
  }

  /** A poll that does not name n leaves it alone. */
  lemma {:induction false} PollOthers(counts: map<string, int>, probes: seq<Probe>, n: string, threshold: int)
    requires Occurrences(probes, n) == 0
    ensures var w := Polled(counts, probes, threshold);
            Count(w.counts, n) == Count(counts, n) && Timeouts(w.out, n) == 0 && NoPairing(w.out)
    ensures Probe(n, false) !in probes
  {
    if probes != [] {
      var init, p := probes[..|probes| - 1], probes[|probes| - 1];
      PollOthers(counts, init, n, threshold);
      ProbeOther(Polled(counts, init, threshold), p, n, threshold);
      assert probes == init + [p];
    }
  }

  /** A poll that finds the service n failing counts it, and times it out at the threshold. */
  lemma {:induction false} PollFailing(counts: map<string, int>, probes: seq<Probe>, n: string, threshold: int)
    requires UniqueFailing(probes, n)
    ensures var w := Polled(counts, probes, threshold);
            var c := Count(counts, n) + 1;
            && Count(w.counts, n) == (if c >= threshold then 0 else c)
            && Timeouts(w.out, n) == (if c >= threshold then 1 else 0)
            && NoPairing(w.out)
  {
    var init, p := probes[..|probes| - 1], probes[|probes| - 1];
    assert probes == init + [p];
    var w := Polled(counts, init, threshold);
    if p.Probe? && p.name == n {
      PollOthers(counts, init, n, threshold);
      assert p == Probe(n, false);
      ProbeFailing(w, n, threshold);
    } else {
      assert Probe(n, false) in init;
      PollFailing(counts, init, n, threshold);
      ProbeOther(w, p, n, threshold);
    }
  }

  /** The poll's answer is the number of failing services. */
  lemma {:induction false} PollCountsFailing(counts: map<string, int>, probes: seq<Probe>, threshold: int)
    ensures Polled(counts, probes, threshold).unhealthy == Failing(probes)
  {
    if probes != [] {
      PollCountsFailing(counts, probes[..|probes| - 1], threshold);
    }
  }

  // ------------------------------------------------------------- both over the bus

  /** The watchdog's counts, the events published but not yet delivered, and the manager. */
  datatype World = World(counts: map<string, int>, queue: seq<Event>, manager: Manager)

  datatype Action =
    | Poll(probes: seq<Probe>)
    | Publish(event: Event)              // by any other module
    | Deliver                            // the oldest pending event reaches the manager
    | EnterInitialState(configured: bool)
    | ForceSafeMode

  function Publishing(w: World, e: Effect): World {
    w.(manager := e.m, queue := w.queue + e.out)
  }

  function Delivered(w: World): World
    requires w.queue != []
  {
    Publishing(w.(queue := w.queue[1..]), HandleEvent(w.manager, w.queue[0]))
  }

  function Act(w: World, a: Action, threshold: int): World {
    match a
    case Poll(probes) =>
      var p := Polled(w.counts, probes, threshold);
      w.(counts := p.counts, queue := w.queue + p.out)
    case Publish(ev) => w.(queue := w.queue + [ev])
    case Deliver => if w.queue == [] then w else Delivered(w)
    case EnterInitialState(configured) =>
      Publishing(w, TransitionTo(Effect(w.manager, []), if configured then ConnectingNetwork else Unconfigured))
    case ForceSafeMode => Publishing(w, EnterSafeMode(Effect(w.manager, [])))
  }

  function After(w: World, run: seq<Action>, threshold: int): World {
    if run == [] then w else Act(After(w, run[..|run| - 1], threshold), run[|run| - 1], threshold)
  }

  lemma ActKeepsSound(w: World, a: Action, threshold: int)
    requires Sound(w.manager)
    ensures var v := Act(w, a, threshold).manager;
            && Sound(v)
            && (w.manager.active ==> v.active)
            && (w.manager.state == ShuttingDown ==> v.state == ShuttingDown)
  {
    if a.Deliver? && w.queue != [] {
      HandleKeepsSound(w.manager, w.queue[0]);
    }
  }

  /** In every run safe mode is announced at most once and never left, and shutting down is final. */
  lemma {:induction false} RunKeepsSound(w: World, run: seq<Action>, threshold: int)
    requires Sound(w.manager)
    ensures var v := After(w, run, threshold).manager;
            && Sound(v)
            && (w.manager.active ==> v.active)
            && (w.manager.state == ShuttingDown ==> v.state == ShuttingDown)
  {
    if run != [] {
      RunKeepsSound(w, run[..|run| - 1], threshold);
      ActKeepsSound(After(w, run[..|run| - 1], threshold), run[|run| - 1], threshold);
    }
  }

  /** Delivering everything that is pending, and everything that causes. */
  function Drained(w: World): World
    decreases Weight(w.queue)
  {
    if w.queue == [] then w
    else
      DeliveredWeighsLess(w);
      Drained(Delivered(w))
  }

  /** An event the manager ignores. */
  predicate Quiet(e: Event) {
    e.StateChanged? || e.SafeModeEntered? || e.OtherEvent? || e.HealthCheckFailed?
  }

  function Weight(q: seq<Event>): nat {
    if q == [] then 0 else (if Quiet(q[0]) then 1 else 5) + Weight(q[1..])
  }

  lemma {:induction false} WeightConcat(q: seq<Event>, r: seq<Event>)
    ensures Weight(q + r) == Weight(q) + Weight(r)
  {
    if q == [] {
      assert q + r == r;
    } else {
      assert (q + r)[1..] == q[1..] + r;
      WeightConcat(q[1..], r);
    }
  }

  /** At most n events published, none of which the manager reacts to. */
  predicate Few(out: seq<Event>, n: nat) {
    |out| <= n && forall i :: 0 <= i < |out| ==> out[i].StateChanged? || out[i].SafeModeEntered?
  }

  lemma TransitionFew(e: Effect, to: SystemState, n: nat)
    requires Few(e.out, n)
    ensures Few(TransitionTo(e, to).out, n + 1)
  {
  }

  lemma EnterSafeModeFew(e: Effect, n: nat)
    requires Few(e.out, n)
    ensures Few(EnterSafeMode(e).out, n + 2)
  {
    var f := Effect(e.m.(active := true, entered := e.m.entered + 1), e.out + [SafeModeEntered]);
    assert Few(f.out, n + 1);
    TransitionFew(f, Degraded, n + 1);
  }

  lemma StrikeFew(e: Effect, n: nat)
    requires Few(e.out, n)
    ensures Few(Strike(e).out, n + 2)
  {
    EnterSafeModeFew(e.(m := e.m.(streak := e.m.streak + 1)), n);
  }

  /** One event makes the manager publish at most three, none of which makes it publish again. */
  lemma HandleIsQuiet(m: Manager, ev: Event)
    ensures Few(HandleEvent(m, ev).out, 3)
    ensures Quiet(ev) ==> HandleEvent(m, ev).out == []
  {
    HandleIsFew(m, ev);
  }

  lemma HandleIsFew(m: Manager, ev: Event)
    ensures Few(HandleEvent(m, ev).out, 3)
  {
    var e := Effect(m, []);
    assert Few(e.out, 0);
    match ev
    case ConfigInvalid =>
      TransitionFew(e, Degraded, 0);
      EnterSafeModeFew(TransitionTo(e, Degraded), 1);
    case IdentityCorrupt =>
      TransitionFew(e, Error, 0);
      EnterSafeModeFew(TransitionTo(e, Error), 1);
    case UpdateFailed => StrikeFew(e, 0);
    case WatchdogTimeout(_) =>
      TransitionFew(e, Degraded, 0);
      StrikeFew(TransitionTo(e, Degraded), 1);
    case _ =>
  }

  lemma {:induction false} QuietWeight(q: seq<Event>)
    requires forall e :: e in q ==> Quiet(e)
    ensures Weight(q) == |q|
  {
    if q != [] {
      assert q[0] in q;
      QuietWeight(q[1..]);
    }
  }

  lemma DeliveredWeighsLess(w: World)
    requires w.queue != []
    ensures Weight(Delivered(w).queue) < Weight(w.queue)
  {
    var out := HandleEvent(w.manager, w.queue[0]).out;
    HandleIsQuiet(w.manager, w.queue[0]);
    QuietWeight(out);
    WeightConcat(w.queue[1..], out);
  }

  // ------------------------------------------------------------- safe mode shown as Degraded

  /** The events that legally take the device out of Degraded. */
  predicate LeavesDegraded(ev: Event) {
    ev in {PairingCompleted, AudioStopped, NetworkDisconnected, StreamerDisconnected, IdentityCorrupt,
           ShutdownRequested}
  }

  /** The action delivers an event of the given kind. */
  predicate Delivers(w: World, a: Action, kind: Event -> bool) {
    a.Deliver? && w.queue != [] && kind(w.queue[0])
  }

  /** Safe mode entered by this action shows: the state may go to Degraded, or the way leads through
      Error. */
  predicate EntersDegraded(w: World, a: Action) {
    || w.manager.state in {Online, Playing, Calibrating, Degraded, Offline, Error}
    || (Delivers(w, a, ev => ev == IdentityCorrupt) && w.manager.state != ShuttingDown)
  }

  ghost predicate StaysDegraded(w: World, run: seq<Action>, threshold: int) {
    forall i :: 0 <= i <= |run| ==> After(w, run[..i], threshold).manager.state == Degraded
  }

  ghost predicate NoneLeaves(w: World, run: seq<Action>, threshold: int) {
    forall i :: 0 <= i < |run| ==> !Delivers(After(w, run[..i], threshold), run[i], LeavesDegraded)
  }

  lemma EntryDegradesIff(w: World, a: Action, threshold: int)
    requires !w.manager.active && Act(w, a, threshold).manager.active
    ensures Act(w, a, threshold).manager.state == Degraded <==> EntersDegraded(w, a)
  {
    if a.Deliver? && w.queue != [] {
      HandleEntry(w.manager, w.queue[0]);
    } else {
      SafeModeFrom(Effect(w.manager, []));
    }
  }

  lemma SafeModeFrom(e: Effect)
    requires !e.m.active
    ensures EnterSafeMode(e).m.state == Degraded
       <==> e.m.state in {Online, Playing, Calibrating, Degraded, Offline, Error}
  {
  }

  lemma HandleEntry(m: Manager, ev: Event)
    requires !m.active && HandleEvent(m, ev).m.active
    ensures HandleEvent(m, ev).m.state == Degraded
       <==> || m.state in {Online, Playing, Calibrating, Degraded, Offline, Error}
            || (ev == IdentityCorrupt && m.state != ShuttingDown)
  {
    var e := Effect(m, []);
    match ev
    case ConfigInvalid => SafeModeFrom(TransitionTo(e, Degraded));
    case IdentityCorrupt => SafeModeFrom(TransitionTo(e, Error));
    case UpdateFailed => SafeModeFrom(e.(m := m.(streak := m.streak + 1)));
    case WatchdogTimeout(_) =>
      var f := TransitionTo(e, Degraded);
      SafeModeFrom(f.(m := f.m.(streak := m.streak + 1)));
    case _ =>
  }

  lemma DegradedStepIff(w: World, a: Action, threshold: int)
    requires w.manager.active && w.manager.state == Degraded
    ensures var v := Act(w, a, threshold).manager;
            v.active && (v.state == Degraded <==> !Delivers(w, a, LeavesDegraded))
  {
  }

  lemma AfterNext(w: World, run: seq<Action>, i: nat, threshold: int)
    requires i < |run|
    ensures After(w, run[..i + 1], threshold) == Act(After(w, run[..i], threshold), run[i], threshold)
  {
    assert run[..i + 1][..i] == run[..i];
  }

  lemma ActiveAlong(w: World, run: seq<Action>, i: nat, threshold: int)
    requires Sound(w.manager) && w.manager.active && i <= |run|
    ensures After(w, run[..i], threshold).manager.active
  {
    RunKeepsSound(w, run[..i], threshold);
  }

  lemma {:induction false} DegradedUntil(w: World, run: seq<Action>, i: nat, threshold: int)
    requires w.manager.active && w.manager.state == Degraded && NoneLeaves(w, run, threshold) && i <= |run|
    ensures var v := After(w, run[..i], threshold).manager; v.active && v.state == Degraded
  {
    if i > 0 {
      DegradedUntil(w, run, i - 1, threshold);
      AfterNext(w, run, i - 1, threshold);
      DegradedStepIff(After(w, run[..i - 1], threshold), run[i - 1], threshold);
    }
  }

  /** Safe mode shows as Degraded through every continuation of its entry if and only if it was entered
      from a state that may go there, or through Error, and none of the events that legally leave
      Degraded is delivered. */
  lemma SafeModeShowsIff(w: World, a: Action, run: seq<Action>, threshold: int)
    requires Sound(w.manager) && !w.manager.active && Act(w, a, threshold).manager.active
    ensures var v := Act(w, a, threshold);
            StaysDegraded(v, run, threshold) <==> EntersDegraded(w, a) && NoneLeaves(v, run, threshold)
  {
    var v := Act(w, a, threshold);
    EntryDegradesIff(w, a, threshold);
    ActKeepsSound(w, a, threshold);
    assert run[..0] == [];
    if StaysDegraded(v, run, threshold) {
      assert After(v, run[..0], threshold).manager.state == Degraded;
      forall i | 0 <= i < |run|
        ensures !Delivers(After(v, run[..i], threshold), run[i], LeavesDegraded)
      {
        ActiveAlong(v, run, i, threshold);
        AfterNext(v, run, i, threshold);
        assert After(v, run[..i], threshold).manager.state == Degraded;
        assert After(v, run[..i + 1], threshold).manager.state == Degraded;
        DegradedStepIff(After(v, run[..i], threshold), run[i], threshold);
      }
    }
    if EntersDegraded(w, a) && NoneLeaves(v, run, threshold) {
      forall i | 0 <= i <= |run|
        ensures After(v, run[..i], threshold).manager.state == Degraded
      {
        DegradedUntil(v, run, i, threshold);
      }
    }
  }

  lemma {:induction false} AfterConcat(w: World, r: seq<Action>, s: seq<Action>, threshold: int)
    ensures After(w, r + s, threshold) == After(After(w, r, threshold), s, threshold)
  {
    if s == [] {
      assert r + s == r;
    } else {
      var init := s[..|s| - 1];
      assert (r + s)[..|r + s| - 1] == r + init;
      AfterConcat(w, r, init, threshold);
    }
  }

  lemma OneStep(w: World, a: Action, threshold: int)
    ensures After(w, [a], threshold) == Act(w, a, threshold)
  {
    assert [a][..0] == [];
  }

  /** Deliveries alone empty a queue of events nobody reacts to. */
  lemma {:induction false} DeliverQuiet(w: World, threshold: int) returns (run: seq<Action>)
    requires forall e :: e in w.queue ==> Quiet(e)
    ensures After(w, run, threshold) == w.(queue := [])
    decreases |w.queue|
  {
    if w.queue == [] {
      run := [];
    } else {
      var v := w.(queue := w.queue[1..]);
      assert w.queue[0] in w.queue;
      HandleIsQuiet(w.manager, w.queue[0]);
      assert Act(w, Deliver, threshold) == v;
      var rest := DeliverQuiet(v, threshold);
      run := [Deliver] + rest;
      OneStep(w, Deliver, threshold);
      AfterConcat(w, [Deliver], rest, threshold);
    }
  }

  /** Publishing an event on an idle bus, and delivering until it is idle again. */
  lemma TellRun(w: World, ev: Event, threshold: int) returns (run: seq<Action>)
    requires w.queue == []
    ensures After(w, run, threshold) == w.(manager := HandleEvent(w.manager, ev).m)
  {
    var v := Act(Act(w, Publish(ev), threshold), Deliver, threshold);
    HandleIsQuiet(w.manager, ev);
    assert v.queue == HandleEvent(w.manager, ev).out;
    var rest := DeliverQuiet(v, threshold);
    OneStep(w, Publish(ev), threshold);
    AfterConcat(w, [Publish(ev)], [Deliver], threshold);
    OneStep(Act(w, Publish(ev), threshold), Deliver, threshold);
    AfterConcat(w, [Publish(ev)] + [Deliver], rest, threshold);
    run := [Publish(ev)] + [Deliver] + rest;
  }

  lemma {:induction false} TellAll(w: World, evs: seq<Event>, threshold: int) returns (run: seq<Action>)
    requires w.queue == []
    ensures After(w, run, threshold) == w.(manager := Told(w.manager, evs))
    decreases |evs|
  {
    if evs == [] {
      run := [];
    } else {
      var first := TellRun(w, evs[0], threshold);
      var rest := TellAll(After(w, first, threshold), evs[1..], threshold);
      AfterConcat(w, first, rest, threshold);
      run := first + rest;
    }
  }

  /** The manager after some events in a row. */
  function Told(m: Manager, evs: seq<Event>): Manager
    decreases |evs|
  {
    if evs == [] then m else Told(HandleEvent(m, evs[0]).m, evs[1..])
  }

  const START := World(map[], [], BOOT)

  /** An invalid config found at boot: the device is in safe mode and still shows Booting. */
  lemma SafeModeAtBoot(threshold: int) returns (run: seq<Action>)
    ensures var m := After(START, run, threshold).manager; m.active && m.state == Booting
  {
    run := TellRun(START, ConfigInvalid, threshold);
  }

  /** Entered from Playing and so Degraded; one track later the device shows Playing, in safe mode. */
  lemma PlayingInSafeMode(threshold: int) returns (entry: seq<Action>, later: seq<Action>)
    ensures var m := After(START, entry, threshold).manager; m.active && m.state == Degraded
    ensures var m := After(START, entry + later, threshold).manager; m.active && m.state == Playing
  {
    var boot := BootRun(threshold);
    var w := After(START, boot, threshold);
    FirstTrack(w.manager, [NetworkConnected, AudioStarted, ConfigInvalid]);
    var fall := TellAll(w, [NetworkConnected, AudioStarted, ConfigInvalid], threshold);
    AfterConcat(START, boot, fall, threshold);
    entry := boot + fall;
    var v := After(START, entry, threshold);
    SecondTrack(v.manager, [AudioStopped, AudioStarted]);
    later := TellAll(v, [AudioStopped, AudioStarted], threshold);
    AfterConcat(START, entry, later, threshold);
  }

  lemma BootRun(threshold: int) returns (run: seq<Action>)
    ensures After(START, run, threshold) == START.(manager := BOOT.(state := ConnectingNetwork))
  {
    var boot := EnterInitialState(true);
    var settle := DeliverQuiet(Act(START, boot, threshold), threshold);
    OneStep(START, boot, threshold);
    AfterConcat(START, [boot], settle, threshold);
    run := [boot] + settle;
  }

  lemma FirstTrack(m: Manager, evs: seq<Event>)
    requires m == BOOT.(state := ConnectingNetwork) && evs == [NetworkConnected, AudioStarted, ConfigInvalid]
    ensures Told(m, evs) == BOOT.(state := Degraded, active := true, entered := 1)
  {
    var m1, m2 := BOOT.(state := SearchingStreamer), BOOT.(state := Playing);
    assert HandleEvent(m, NetworkConnected).m == m1 && HandleEvent(m1, AudioStarted).m == m2;
    ToldTwo(m1, evs[1..]);
  }

  lemma SecondTrack(m: Manager, evs: seq<Event>)
    requires m == BOOT.(state := Degraded, active := true, entered := 1) && evs == [AudioStopped, AudioStarted]
    ensures Told(m, evs) == m.(state := Playing)
  {
    assert HandleEvent(m, AudioStopped).m == m.(state := Online);
    ToldTwo(m, evs);
  }

  lemma ToldTwo(m: Manager, evs: seq<Event>)
    requires |evs| == 2
    ensures Told(m, evs) == HandleEvent(HandleEvent(m, evs[0]).m, evs[1]).m
  {
    var m1, last := HandleEvent(m, evs[0]).m, evs[1..];
    assert Told(m1, last) == Told(HandleEvent(m1, last[0]).m, last[1..]);
  }

  // ------------------------------------------------------------- escalation

  /** No failing poll is missed and nothing completes a pairing. */
  predicate Unbroken(a: Action, n: string) {
    match a
    case Poll(probes) => UniqueFailing(probes, n)
    case Publish(ev) => ev != PairingCompleted
    case _ => true
  }

  function Polls(run: seq<Action>): nat {
    if run == [] then 0 else Polls(run[..|run| - 1]) + (if run[|run| - 1].Poll? then 1 else 0)
  }

  /** Safe mode is on, or all `made` timeouts of n are still pending or counted. */
  predicate Escalating(w: World, n: string, made: nat) {
    && Sound(w.manager) && NoPairing(w.queue)
    && (w.manager.active || w.manager.streak + Timeouts(w.queue, n) >= made)
  }

  /** What one event but PairingCompleted does to the streak. */
  lemma HandleStrikes(m: Manager, ev: Event, n: string)
    requires Sound(m) && ev != PairingCompleted
    ensures var f := HandleEvent(m, ev);
            && (f.m.active || f.m.streak >= m.streak + (if ev == WatchdogTimeout(n) then 1 else 0))
            && Timeouts(f.out, n) == 0 && NoPairing(f.out)
  {
    HandleIsQuiet(m, ev);
    NoTimeouts(HandleEvent(m, ev).out, n);
  }

  lemma {:induction false} NoTimeouts(q: seq<Event>, n: string)
    requires WatchdogTimeout(n) !in q
    ensures Timeouts(q, n) == 0
  {
    if q != [] {
      assert q[0] in q;
      NoTimeouts(q[1..], n);
    }
  }

  lemma DeliverEscalates(w: World, n: string, made: nat)
    requires Escalating(w, n, made) && w.queue != []
    ensures Escalating(Delivered(w), n, made)
  {
    var ev := w.queue[0];
    assert ev in w.queue;
    HandleKeepsSound(w.manager, ev);
    HandleStrikes(w.manager, ev, n);
    TimeoutsConcat(w.queue[1..], HandleEvent(w.manager, ev).out, n);
  }

  lemma ActEscalates(w: World, a: Action, n: string, made: nat, threshold: int)
    requires Escalating(w, n, made) && Unbroken(a, n)
    ensures var timedOut := a.Poll? && Count(w.counts, n) + 1 >= threshold;
            Escalating(Act(w, a, threshold), n, made + if timedOut then 1 else 0)
  {
    ActKeepsSound(w, a, threshold);
    match a
    case Poll(probes) =>
      PollFailing(w.counts, probes, n, threshold);
      TimeoutsConcat(w.queue, Polled(w.counts, probes, threshold).out, n);
    case Publish(ev) =>
      AppendTimeouts(w.queue, ev, n);
    case Deliver =>
      if w.queue != [] {
        DeliverEscalates(w, n, made);
      }
    case EnterInitialState(configured) =>
      var out := TransitionTo(Effect(w.manager, []), if configured then ConnectingNetwork else Unconfigured).out;
      NoTimeouts(out, n);
      TimeoutsConcat(w.queue, out, n);
    case ForceSafeMode =>
  }

  /** After p failing polls from count c, every threshold-th has timed the service out. */
  lemma {:induction false} RunEscalates(w: World, run: seq<Action>, n: string, threshold: int) returns (made: nat)
    requires threshold >= 1 && 0 <= Count(w.counts, n) < threshold
    requires Escalating(w, n, 0) && forall a :: a in run ==> Unbroken(a, n)
    ensures var v := After(w, run, threshold);
            && Escalating(v, n, made) && 0 <= Count(v.counts, n) < threshold
            && made * threshold + Count(v.counts, n) == Count(w.counts, n) + Polls(run)
  {
    if run == [] {
      made := 0;
    } else {
      var init, a := run[..|run| - 1], run[|run| - 1];
      assert a in run;
      made := RunEscalates(w, init, n, threshold);
      var v := After(w, init, threshold);
      ActEscalates(v, a, n, made, threshold);
      if a.Poll? {
        PollFailing(v.counts, a.probes, n, threshold);
        if Count(v.counts, n) + 1 >= threshold {
          OneMore(made, threshold);
          made := made + 1;
        }
      }
    }
  }

  lemma OneMore(made: nat, threshold: int)
    ensures (made + 1) * threshold == made * threshold + threshold
  {
  }

  lemma AtLeastThree(made: nat, threshold: int, count: int, total: int)
    requires threshold >= 1 && count < threshold && made * threshold + count == total && total >= 3 * threshold
    ensures made >= 3
  {
    assert made <= 2 ==> made * threshold <= 2 * threshold;
  }

  lemma {:induction false} DrainEscalates(w: World, n: string, made: nat)
    requires Escalating(w, n, made)
    ensures Escalating(Drained(w), n, made) && Drained(w).queue == []
    decreases Weight(w.queue)
  {
    if w.queue != [] {
      DeliveredWeighsLess(w);
      DeliverEscalates(w, n, made);
      DrainEscalates(Delivered(w), n, made);
    }
  }

  /** Escalation: in any interleaving with at least 3 * threshold polls, all finding the uniquely
      named service n failing and no pairing completing, draining the bus leaves safe mode active,
      announced exactly once. */
  lemma SafeModeReached(w: World, run: seq<Action>, n: string, threshold: int)
    requires threshold >= 1 && 0 <= Count(w.counts, n) < threshold
    requires Sound(w.manager) && NoPairing(w.queue)
    requires forall a :: a in run ==> Unbroken(a, n)
    requires Polls(run) >= 3 * threshold
    ensures var v := Drained(After(w, run, threshold));
            v.queue == [] && v.manager.active && v.manager.entered == 1
  {
    var made := RunEscalates(w, run, n, threshold);
    var v := After(w, run, threshold);
    AtLeastThree(made, threshold, Count(v.counts, n), Count(w.counts, n) + Polls(run));
    DrainEscalates(v, n, made);
  }
}
