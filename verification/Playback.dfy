/** Timestamped playback: src/audio/PlaybackManager.cpp over the jitter buffer, with the due test of
    src/audio/StreamSync.cpp. Times are reals; the clock and the output device are inputs. */
module Playback {
  import opened Options
  import opened AudioBuffers

  datatype Settings = Settings(prefill: nat, capacity: nat)

  /** One speaker's playback: its buffer, whether prefill was reached, and what it has released. */
  datatype Player = Player(buffer: Buffer, started: bool, played: seq<Packet>)

  const FRESH := Player(EMPTY, false, [])

  function MsUntilDue(timestamp: real, now: real, targetMs: real): real {
    (timestamp - now) * 1000.0 - targetMs
  }

  predicate Due(timestamp: real, now: real, targetMs: real) {
    MsUntilDue(timestamp, now, targetMs) <= 0.0
  }

  /** Due is "the clock has come within the target lead of the stamp", and stays so. */
  lemma DueIff(timestamp: real, now: real, later: real, targetMs: real)
    ensures Due(timestamp, now, targetMs) <==> now >= timestamp - targetMs / 1000.0
    ensures Due(timestamp, now, targetMs) && now <= later ==> Due(timestamp, later, targetMs)
  {
  }

  /** A packet the schedule lets go at this clock reading; an unstamped one goes at once. */
  predicate Releasable(p: Packet, now: real, targetMs: real) {
    p.timestamp <= 0.0 || Due(p.timestamp, now, targetMs)
  }

  /** The head packet is kept back: it is early by the clock and the valve is closed. */
  predicate Held(b: Buffer, c: Settings, now: Option<real>, targetMs: real) {
    now.Some? && b.queue != [] && !Releasable(b.queue[0], now.value, targetMs) && !AtValve(|b.queue|, c.capacity)
  }

  /** One playback step; `now` is None when there is no clock or no StreamSync. */
  function Stepped(p: Player, c: Settings, now: Option<real>, targetMs: real): Player {
    if !p.started && |p.buffer.queue| < c.prefill then p
    else if Held(p.buffer, c, now, targetMs) then p.(started := true)
    else if p.buffer.queue == [] then Player(Popped(p.buffer), false, p.played)
    else Player(Popped(p.buffer), true, p.played + [p.buffer.queue[0]])
  }

  function Received(p: Player, pkt: Packet, c: Settings): Player
    requires c.capacity >= 1
  {
    p.(buffer := Pushed(p.buffer, pkt, c.capacity))
  }

  class PlaybackManager {
    const buffer: AudioBuffer
    const targetMs: real
    var started: bool
    var framesPlayed: nat
    ghost var played: seq<Packet>

    ghost function State(): Player
      reads this, buffer
    {
      Player(buffer.State(), started, played)
    }

    ghost function Config(): Settings {
      Settings(buffer.prefill, buffer.capacity)
    }

    constructor (buffer: AudioBuffer, targetMs: real)
      ensures this.buffer == buffer && this.targetMs == targetMs
      ensures State() == Player(buffer.State(), false, []) && framesPlayed == 0
    {
      this.buffer, this.targetMs := buffer, targetMs;
      started, framesPlayed, played := false, 0, [];
    }

    /** `accepted` is what the output device answers if a block is written to it. */
    method Step(now: Option<real>, accepted: Option<nat>) returns (frames: nat)
      requires buffer.Valid()
      modifies this, buffer
      ensures State() == Stepped(old(State()), Config(), now, targetMs)
      ensures frames == if played != old(played) && accepted.Some? then accepted.value else 0
      ensures framesPlayed == old(framesPlayed) + frames
    {
      if !started {
        if !buffer.Ready() {
          return 0;
        }
        started := true;
      }
      if now.Some? {
        var ts := buffer.PeekTimestamp();
        if ts.Some? && ts.value > 0.0 && !Due(ts.value, now.value, targetMs) {
          if !buffer.NearlyFull() {
            return 0;
          }
        }
      }
      var pkt := buffer.Pop();
      if pkt.None? {
        started := false;
        return 0;
      }
      played := played + [pkt.value];
      if accepted.Some? {
        framesPlayed := framesPlayed + accepted.value;
        return accepted.value;
      }
      return 0;
    }
  }

  // ------------------------------------------------------------- no overflow

  datatype Action = Receive(packet: Packet) | Tick(now: Option<real>)

  function Act(p: Player, a: Action, c: Settings, targetMs: real): Player
    requires c.capacity >= 1
  {
    match a
    case Receive(pkt) => Received(p, pkt, c)
    case Tick(now) => Stepped(p, c, now, targetMs)
  }

  function After(run: seq<Action>, c: Settings, targetMs: real): Player
    requires c.capacity >= 1
  {
    if run == [] then FRESH
    else Act(After(run[..|run| - 1], c, targetMs), run[|run| - 1], c, targetMs)
  }

  function Stream(run: seq<Action>): seq<Packet> {
    if run == [] then []
    else
      var a := run[|run| - 1];
      Stream(run[..|run| - 1]) + (if a.Receive? then [a.packet] else [])
  }

  /** Between two receptions there is at least one playback step. */
  predicate Served(run: seq<Action>) {
    forall i :: 0 <= i < |run| - 1 && run[i].Receive? ==> run[i + 1].Tick?
  }

  /** max(prefill, 80% of capacity rounded up). */
  function Ceiling(c: Settings): nat {
    var valve := (4 * c.capacity + 4) / 5;
    if c.prefill > valve then c.prefill else valve
  }

  /** A step always leaves room below the ceiling, whatever it was given. */
  lemma StepLeavesRoom(p: Player, c: Settings, now: Option<real>, targetMs: real)
    requires c.capacity >= 1
    requires |p.buffer.queue| <= Ceiling(c)
    ensures |Stepped(p, c, now, targetMs).buffer.queue| < Ceiling(c)
  {
  }

  /** Nothing dropped, nothing lost, and room below the ceiling, strictly so after a step. */
  predicate Roomy(p: Player, c: Settings, received: seq<Packet>, stepped: bool) {
    && p.buffer.metrics.dropped == 0
    && p.played + p.buffer.queue == received
    && |p.buffer.queue| <= Ceiling(c) <= c.capacity
    && (stepped ==> |p.buffer.queue| < Ceiling(c))
  }

  lemma ReceiveKeepsRoom(p: Player, c: Settings, received: seq<Packet>, pkt: Packet)
    requires c.capacity >= 1 && Roomy(p, c, received, true)
    ensures Roomy(Received(p, pkt, c), c, received + [pkt], false)
  {
    assert (p.played + p.buffer.queue) + [pkt] == p.played + (p.buffer.queue + [pkt]);
  }

  lemma TickKeepsRoom(p: Player, c: Settings, received: seq<Packet>, stepped: bool, now: Option<real>, targetMs: real)
    requires c.capacity >= 1 && Roomy(p, c, received, stepped)
    ensures Roomy(Stepped(p, c, now, targetMs), c, received, true)
  {
    StepLeavesRoom(p, c, now, targetMs);
    if p.buffer.queue != [] {
      assert p.buffer.queue == [p.buffer.queue[0]] + p.buffer.queue[1..];
      assert p.played + p.buffer.queue == (p.played + [p.buffer.queue[0]]) + p.buffer.queue[1..];
    }
  }

  lemma CeilingFits(c: Settings)
    requires c.prefill <= c.capacity && c.capacity >= 1
    ensures 1 <= Ceiling(c) <= c.capacity
  {
  }

  /** With prefill within capacity and a step after each reception, no run drops a packet for any
      timestamps and any clock: everything received is played or queued, in order. */
  lemma {:induction false} NoOverflow(run: seq<Action>, c: Settings, targetMs: real)
    requires 1 <= c.capacity && c.prefill <= c.capacity
    requires Served(run)
    ensures Roomy(After(run, c, targetMs), c, Stream(run), run == [] || run[|run| - 1].Tick?)
  {
    CeilingFits(c);
    if run != [] {
      var init, a := run[..|run| - 1], run[|run| - 1];
      NoOverflow(init, c, targetMs);
      var p := After(init, c, targetMs);
      match a
      case Receive(pkt) =>
        assert init == [] || init[|init| - 1].Tick? by {
          assert init != [] ==> run[|init| - 1] == init[|init| - 1];
        }
        ReceiveKeepsRoom(p, c, Stream(init), pkt);
      case Tick(now) =>
        TickKeepsRoom(p, c, Stream(init), init == [] || init[|init| - 1].Tick?, now, targetMs);
        assert Stream(init) + [] == Stream(init);
    }
  }

  /** With prefill beyond capacity playback never starts and every packet past the first `capacity`
      costs an older one. */
  lemma {:induction false} NeverStarts(run: seq<Action>, c: Settings, targetMs: real)
    requires 1 <= c.capacity < c.prefill
    ensures var p := After(run, c, targetMs);
            var n := |Stream(run)|;
            && !p.started && p.played == []
            && |p.buffer.queue| == (if n < c.capacity then n else c.capacity)
            && p.buffer.metrics.dropped == n - |p.buffer.queue|
  {
    if run != [] {
      NeverStarts(run[..|run| - 1], c, targetMs);
    }
  }

  /** n receptions, each followed by a step. */
  function Steady(pkt: Packet, n: nat): (run: seq<Action>)
    ensures |run| == 2 * n
    ensures forall i :: 0 <= i < |run| ==> run[i] == if i % 2 == 0 then Receive(pkt) else Tick(None)
  {
    if n == 0 then [] else Steady(pkt, n - 1) + [Receive(pkt), Tick(None)]
  }

  lemma {:induction false} SteadyStream(pkt: Packet, n: nat)
    ensures |Stream(Steady(pkt, n))| == n
  {
    if n > 0 {
      SteadyStream(pkt, n - 1);
      var run := Steady(pkt, n);
      assert run[..2 * n - 1] == Steady(pkt, n - 1) + [Receive(pkt)];
      assert run[..2 * n - 1][..2 * n - 2] == Steady(pkt, n - 1);
    }
  }

  /** Overflow is impossible for every served run exactly when prefill is within capacity. */
  lemma OverflowFreeIff(c: Settings, targetMs: real)
    requires c.capacity >= 1
    ensures (forall run :: Served(run) ==> After(run, c, targetMs).buffer.metrics.dropped == 0)
       <==> c.prefill <= c.capacity
  {
    if c.prefill <= c.capacity {
      forall run | Served(run)
        ensures After(run, c, targetMs).buffer.metrics.dropped == 0
      {
        NoOverflow(run, c, targetMs);
      }
    } else {
      var run := Steady(Packet(0, 0.0, []), c.capacity + 1);
      SteadyStream(Packet(0, 0.0, []), c.capacity + 1);
      NeverStarts(run, c, targetMs);
      assert Served(run);
    }
  }

  // ------------------------------------------------------------- alignment of two speakers

  function PushAll(b: Buffer, ps: seq<Packet>, capacity: nat): Buffer
    requires capacity >= 1
  {
    if ps == [] then b
    else Pushed(PushAll(b, ps[..|ps| - 1], capacity), ps[|ps| - 1], capacity)
  }

  lemma {:induction false} PushAllAppends(b: Buffer, ps: seq<Packet>, capacity: nat)
    requires capacity >= 1
    requires |b.queue| + |ps| <= capacity
    ensures PushAll(b, ps, capacity).queue == b.queue + ps
    ensures PushAll(b, ps, capacity).metrics.dropped == b.metrics.dropped
  {
    if ps != [] {
      PushAllAppends(b, ps[..|ps| - 1], capacity);
    }
  }

  /** arrivals[t] counts the packets of the stream that have reached a speaker by its step t. */
  predicate Arrivals(arrivals: seq<nat>, stream: seq<Packet>) {
    && (forall t :: 0 <= t < |arrivals| ==> arrivals[t] <= |stream|)
    && (forall s, t :: 0 <= s <= t < |arrivals| ==> arrivals[s] <= arrivals[t])
  }

  function ArrivedBefore(arrivals: seq<nat>, t: nat): nat
    requires t <= |arrivals|
  {
    if t == 0 then 0 else arrivals[t - 1]
  }

  /** A speaker after t steps: before each step, the packets that arrived since the last are pushed. */
  function Speaker(c: Settings, stream: seq<Packet>, arrivals: seq<nat>, clocks: seq<real>,
                   targetMs: real, t: nat): Player
    requires c.capacity >= 1 && Arrivals(arrivals, stream) && t <= |arrivals| == |clocks|
  {
    if t == 0 then FRESH
    else
      var p := Speaker(c, stream, arrivals, clocks, targetMs, t - 1);
      var late := stream[ArrivedBefore(arrivals, t - 1)..arrivals[t - 1]];
      Stepped(p.(buffer := PushAll(p.buffer, late, c.capacity)), c, Some(clocks[t - 1]), targetMs)
  }

  /** The schedule: how many packets the stamps and the clock alone release in the first t steps. */
  function Scheduled(stream: seq<Packet>, clocks: seq<real>, targetMs: real, t: nat): (n: nat)
    requires t <= |clocks|
    ensures n <= |stream|
  {
    if t == 0 then 0
    else
      var k := Scheduled(stream, clocks, targetMs, t - 1);
      if k < |stream| && Releasable(stream[k], clocks[t - 1], targetMs) then k + 1 else k
  }

  /** Step s is one at which packet p may leave: it is unstamped, or the clock is within the lead. */
  predicate MayLeave(p: Packet, clocks: seq<real>, targetMs: real, s: nat)
    requires s < |clocks|
  {
    p.timestamp <= 0.0 || clocks[s] >= p.timestamp - targetMs / 1000.0
  }

  /** Every packet the schedule has released left alone in a step at which it might, and at no
      earlier step after its predecessor might it have: never early, and late only behind another. */
  lemma {:induction false} NeverEarly(stream: seq<Packet>, clocks: seq<real>, targetMs: real, t: nat, k: nat)
    returns (s: nat)
    requires t <= |clocks| && k < Scheduled(stream, clocks, targetMs, t)
    ensures s < t && Scheduled(stream, clocks, targetMs, s) == k
    ensures Scheduled(stream, clocks, targetMs, s + 1) == k + 1
    ensures MayLeave(stream[k], clocks, targetMs, s)
    ensures forall u :: 0 <= u < s && Scheduled(stream, clocks, targetMs, u) == k ==>
              !MayLeave(stream[k], clocks, targetMs, u)
  {
    if k < Scheduled(stream, clocks, targetMs, t - 1) {
      s := NeverEarly(stream, clocks, targetMs, t - 1, k);
    } else {
      s := t - 1;
      DueIff(stream[k].timestamp, clocks[s], clocks[s], targetMs);
      forall u | 0 <= u < s && Scheduled(stream, clocks, targetMs, u) == k
        ensures !MayLeave(stream[k], clocks, targetMs, u)
      {
        ScheduleGrows(stream, clocks, targetMs, u + 1, s);
        DueIff(stream[k].timestamp, clocks[u], clocks[u], targetMs);
      }
    }
  }

  lemma {:induction false} ScheduleGrows(stream: seq<Packet>, clocks: seq<real>, targetMs: real, s: nat, t: nat)
    requires s <= t <= |clocks|
    ensures Scheduled(stream, clocks, targetMs, s) <= Scheduled(stream, clocks, targetMs, t)
  {
    if s < t {
      ScheduleGrows(stream, clocks, targetMs, s, t - 1);
    }
  }

  /** What the network owes a speaker at step t: until prefill the first packet is not due; from then
      on the next scheduled packet has arrived; and the backlog stays under the 80% valve. */
  predicate Supplied(c: Settings, stream: seq<Packet>, arrivals: seq<nat>, clocks: seq<real>,
                     targetMs: real, t: nat)
    requires t < |arrivals| == |clocks|
  {
    var k := Scheduled(stream, clocks, targetMs, t);
    && (arrivals[t] < c.prefill ==> stream == [] || !Releasable(stream[0], clocks[t], targetMs))
    && (arrivals[t] >= c.prefill ==> k < arrivals[t])
    && 5 * (arrivals[t] - k) < 4 * c.capacity
  }

  /** A speaker that has released the first k of the n packets it was sent, none dropped. */
  predicate OnSchedule(p: Player, c: Settings, stream: seq<Packet>, k: nat, n: nat, stepped: bool) {
    && k <= n <= |stream| && p.played == stream[..k] && p.buffer.queue == stream[k..n]
    && p.buffer.metrics.dropped == 0
    && (p.started <==> stepped && n >= c.prefill)
    && (!p.started ==> k == 0)
  }

  /** The step itself, when the queue holds packets k to m of the stream. */
  lemma ScheduledStep(p: Player, c: Settings, stream: seq<Packet>, k: nat, m: nat, now: real, targetMs: real)
    requires k <= m <= |stream| && p.played == stream[..k] && p.buffer.queue == stream[k..m]
    requires p.buffer.metrics.dropped == 0
    requires p.started ==> m >= c.prefill
    requires !p.started ==> k == 0
    requires m < c.prefill ==> stream == [] || !Releasable(stream[0], now, targetMs)
    requires m >= c.prefill ==> k < m
    requires 5 * (m - k) < 4 * c.capacity
    ensures OnSchedule(Stepped(p, c, Some(now), targetMs), c, stream,
                       if k < |stream| && Releasable(stream[k], now, targetMs) then k + 1 else k, m, true)
  {
    if k < m {
      assert stream[k..m][0] == stream[k] && stream[k..m][1..] == stream[k + 1..m];
      assert stream[..k] + [stream[k]] == stream[..k + 1];
    }
  }

  /** The packets that arrived since the last step are all kept. */
  lemma ArrivalsKept(p: Player, c: Settings, stream: seq<Packet>, k: nat, n: nat, m: nat, stepped: bool)
    requires c.capacity >= 1
    requires OnSchedule(p, c, stream, k, n, stepped) && n <= m <= |stream|
    requires 5 * (m - k) < 4 * c.capacity
    ensures PushAll(p.buffer, stream[n..m], c.capacity).queue == stream[k..m]
    ensures PushAll(p.buffer, stream[n..m], c.capacity).metrics.dropped == 0
  {
    PushAllAppends(p.buffer, stream[n..m], c.capacity);
    assert stream[k..n] + stream[n..m] == stream[k..m];
  }

  /** The invariant of a well supplied speaker: it has released exactly what the schedule says. */
  lemma {:induction false} FollowsSchedule(c: Settings, stream: seq<Packet>, arrivals: seq<nat>,
                                           clocks: seq<real>, targetMs: real, t: nat)
    requires c.capacity >= 1 && Arrivals(arrivals, stream) && t <= |arrivals| == |clocks|
    requires forall s :: 0 <= s < t ==> Supplied(c, stream, arrivals, clocks, targetMs, s)
    ensures OnSchedule(Speaker(c, stream, arrivals, clocks, targetMs, t), c, stream,
                       Scheduled(stream, clocks, targetMs, t), ArrivedBefore(arrivals, t), t > 0)
  {
    if t > 0 {
      FollowsSchedule(c, stream, arrivals, clocks, targetMs, t - 1);
      assert Supplied(c, stream, arrivals, clocks, targetMs, t - 1);
      var p := Speaker(c, stream, arrivals, clocks, targetMs, t - 1);
      var k := Scheduled(stream, clocks, targetMs, t - 1);
      var n, m := ArrivedBefore(arrivals, t - 1), arrivals[t - 1];
      ArrivalsKept(p, c, stream, k, n, m, t - 1 > 0);
      var q := p.(buffer := PushAll(p.buffer, stream[n..m], c.capacity));
      ScheduledStep(q, c, stream, k, m, clocks[t - 1], targetMs);
    }
  }

  /** Two well supplied speakers on the same clock readings have released the same packets after
      every step, whatever their arrival jitter, prefill and capacity: packet k leaves both together. */
  lemma SpeakersAligned(c: Settings, d: Settings, stream: seq<Packet>, atC: seq<nat>, atD: seq<nat>,
                        clocks: seq<real>, targetMs: real, t: nat)
    requires c.capacity >= 1 && d.capacity >= 1
    requires Arrivals(atC, stream) && Arrivals(atD, stream)
    requires t <= |atC| == |atD| == |clocks|
    requires forall s :: 0 <= s < t ==> Supplied(c, stream, atC, clocks, targetMs, s)
    requires forall s :: 0 <= s < t ==> Supplied(d, stream, atD, clocks, targetMs, s)
    ensures Speaker(c, stream, atC, clocks, targetMs, t).played
         == Speaker(d, stream, atD, clocks, targetMs, t).played
         == stream[..Scheduled(stream, clocks, targetMs, t)]
  {
    FollowsSchedule(c, stream, atC, clocks, targetMs, t);
    FollowsSchedule(d, stream, atD, clocks, targetMs, t);
  }
}
