/** The jitter buffer of src/audio/AudioBuffer.cpp: a bounded queue that drops its oldest packet on
    overflow, with the metrics it reports. */
module AudioBuffers {
  import opened Options
  import opened Words

  datatype Packet = Packet(sequence: Word, timestamp: real, samples: seq<int>)

  datatype Metrics = Metrics(received: nat, dropped: nat, lost: Word, underflows: nat, last: Word)

  datatype Buffer = Buffer(queue: seq<Packet>, metrics: Metrics, haveLast: bool)

  const EMPTY := Buffer([], Metrics(0, 0, 0, 0, 0), false)

  /** Sequence gap bookkeeping, in 64-bit arithmetic: `last + 1` wraps to 0 at the top. */
  function Heard(b: Buffer, s: Word): Buffer {
    var m := b.metrics;
    var lost := if b.haveLast && s > WrapAdd(m.last, 1)
                then WrapAdd(m.lost, WrapSub(WrapSub(s, m.last), 1)) else m.lost;
    if !b.haveLast || s > m.last then b.(metrics := m.(lost := lost, last := s), haveLast := true)
    else b.(metrics := m.(lost := lost))
  }

  function Pushed(b: Buffer, p: Packet, capacity: nat): Buffer
    requires capacity >= 1
  {
    var h := Heard(b.(metrics := b.metrics.(received := b.metrics.received + 1)), p.sequence);
    if |b.queue| >= capacity then
      h.(queue := b.queue[1..] + [p], metrics := h.metrics.(dropped := h.metrics.dropped + 1))
    else h.(queue := b.queue + [p])
  }

  /** 80% of capacity. */
  predicate AtValve(depth: nat, capacity: nat) {
    depth * 5 >= capacity * 4
  }

  function Popped(b: Buffer): Buffer {
    if b.queue == [] then b.(metrics := b.metrics.(underflows := b.metrics.underflows + 1))
    else b.(queue := b.queue[1..])
  }

  // ------------------------------------------------------------- runs since a reset

  datatype Op = Push(packet: Packet) | Pop

  /** How a packet left the queue. */
  datatype Departure = Played(packet: Packet) | Dropped(packet: Packet)

  function Apply(b: Buffer, op: Op, capacity: nat): Buffer
    requires capacity >= 1
  {
    match op
    case Push(p) => Pushed(b, p, capacity)
    case Pop => Popped(b)
  }

  function Run(ops: seq<Op>, capacity: nat): Buffer
    requires capacity >= 1
  {
    if ops == [] then EMPTY
    else Apply(Run(ops[..|ops| - 1], capacity), ops[|ops| - 1], capacity)
  }

  /** What one operation on b removes from the front. */
  function Leaving(b: Buffer, op: Op, capacity: nat): seq<Departure> {
    if b.queue == [] then []
    else match op
      case Push(_) => if |b.queue| >= capacity then [Dropped(b.queue[0])] else []
      case Pop => [Played(b.queue[0])]
  }

  function Departures(ops: seq<Op>, capacity: nat): seq<Departure>
    requires capacity >= 1
  {
    if ops == [] then []
    else
      var init := ops[..|ops| - 1];
      Departures(init, capacity) + Leaving(Run(init, capacity), ops[|ops| - 1], capacity)
  }

  /** The packets pushed, in order. */
  function Arrived(ops: seq<Op>): seq<Packet> {
    if ops == [] then []
    else
      var op := ops[|ops| - 1];
      Arrived(ops[..|ops| - 1]) + (if op.Push? then [op.packet] else [])
  }

  function Packets(ds: seq<Departure>): (r: seq<Packet>)
    ensures |r| == |ds|
  {
    seq(|ds|, k requires 0 <= k < |ds| => ds[k].packet)
  }

  function CountDropped(ds: seq<Departure>): nat {
    if ds == [] then 0
    else CountDropped(ds[..|ds| - 1]) + (if ds[|ds| - 1].Dropped? then 1 else 0)
  }

  lemma PacketsSnoc(ds: seq<Departure>, d: Departure)
    ensures Packets(ds + [d]) == Packets(ds) + [d.packet]
    ensures CountDropped(ds + [d]) == CountDropped(ds) + (if d.Dropped? then 1 else 0)
  {
    assert (ds + [d])[..|ds|] == ds;
  }

  /** The books of a buffer after departures ds and arrivals `arrived`. */
  predicate Balanced(b: Buffer, ds: seq<Departure>, arrived: seq<Packet>, capacity: nat) {
    && Packets(ds) + b.queue == arrived
    && |b.queue| <= capacity
    && b.metrics.received == |arrived|
    && b.metrics.dropped == CountDropped(ds)
    && b.metrics.received == (|ds| - CountDropped(ds)) + b.metrics.dropped + |b.queue|
  }

  lemma OpBalances(b: Buffer, ds: seq<Departure>, arrived: seq<Packet>, op: Op, capacity: nat)
    requires capacity >= 1 && Balanced(b, ds, arrived, capacity)
    ensures Balanced(Apply(b, op, capacity), ds + Leaving(b, op, capacity),
                     arrived + (if op.Push? then [op.packet] else []), capacity)
  {
    var leaving := Leaving(b, op, capacity);
    if leaving != [] {
      PacketsSnoc(ds, leaving[0]);
      assert b.queue == [b.queue[0]] + b.queue[1..];
      assert ds + leaving == ds + [leaving[0]];
    } else {
      assert ds + leaving == ds;
    }
  }

  /** Conservation: what left the queue followed by what is still in it is exactly what was pushed,
      in order, so every victim was the oldest packet; and the counters account for all of it. */
  lemma {:induction false} PacketsConserved(ops: seq<Op>, capacity: nat)
    requires capacity >= 1
    ensures Balanced(Run(ops, capacity), Departures(ops, capacity), Arrived(ops), capacity)
  {
    if ops != [] {
      var init, op := ops[..|ops| - 1], ops[|ops| - 1];
      PacketsConserved(init, capacity);
      OpBalances(Run(init, capacity), Departures(init, capacity), Arrived(init), op, capacity);
    }
  }

  // ------------------------------------------------------------- inferred loss

  function Sequences(ops: seq<Op>): (r: seq<Word>)
    ensures |r| == |Arrived(ops)|
  {
    var a := Arrived(ops);
    seq(|a|, k requires 0 <= k < |a| => a[k].sequence)
  }

  function Highest(s: seq<Word>): Word {
    if s == [] then 0
    else
      var rest, x := Highest(s[..|s| - 1]), s[|s| - 1];
      if x > rest then x else rest
  }

  /** How many arrivals carried a higher number than all before them; the first always does. */
  function NewMaxima(s: seq<Word>): nat {
    if s == [] then 0
    else
      var init, x := s[..|s| - 1], s[|s| - 1];
      NewMaxima(init) + (if init == [] || x > Highest(init) then 1 else 0)
  }

  /** An arrival after the top sequence number was seen, other than number 0. */
  predicate PastTheTop(s: seq<Word>, k: nat)
    requires k < |s|
  {
    k > 0 && Highest(s[..k]) == WORD - 1 && s[k] > 0
  }

  /** The loss identity for a buffer that has heard exactly these numbers. */
  predicate LossAddsUp(b: Buffer, s: seq<Word>) {
    s != [] ==> b.metrics.lost + NewMaxima(s) == b.metrics.last - s[0] + 1
  }

  /** The buffer tracks the highest number heard, whatever the order of arrival. */
  lemma {:induction false} TracksHighest(ops: seq<Op>, capacity: nat)
    requires capacity >= 1
    ensures var b := Run(ops, capacity); var s := Sequences(ops);
            b.haveLast == (s != []) && b.metrics.last == Highest(s)
  {
    if ops != [] {
      var init, op := ops[..|ops| - 1], ops[|ops| - 1];
      TracksHighest(init, capacity);
      if op.Push? {
        assert Sequences(ops)[..|Sequences(init)|] == Sequences(init);
      } else {
        assert Sequences(ops) == Sequences(init);
      }
    }
  }

  /** The bookkeeping of one more number, when n arrivals so far were new maxima. */
  lemma HeardKeepsSum(b: Buffer, x: Word, first: Word, n: nat)
    requires b.haveLast && n >= 1
    requires b.metrics.lost + n == b.metrics.last - first + 1
    ensures Heard(b, x).metrics.lost + n + (if x > b.metrics.last then 1 else 0)
              == Heard(b, x).metrics.last - first + 1
       <==> !(b.metrics.last == WORD - 1 && x > 0)
  {
  }

  lemma {:induction false} SomeMaximum(s: seq<Word>)
    requires s != []
    ensures NewMaxima(s) >= 1
  {
    if |s| > 1 {
      SomeMaximum(s[..|s| - 1]);
    }
  }

  lemma SequencesSnoc(init: seq<Op>, op: Op)
    ensures Sequences(init + [op]) == Sequences(init) + (if op.Push? then [op.packet.sequence] else [])
  {
    assert (init + [op])[..|init|] == init;
  }

  lemma RunSnoc(init: seq<Op>, op: Op, capacity: nat)
    requires capacity >= 1
    ensures Run(init + [op], capacity) == Apply(Run(init, capacity), op, capacity)
  {
    assert (init + [op])[..|init|] == init;
  }

  lemma PushedHears(b: Buffer, p: Packet, capacity: nat)
    requires capacity >= 1
    ensures Pushed(b, p, capacity).metrics.lost == Heard(b, p.sequence).metrics.lost
    ensures Pushed(b, p, capacity).metrics.last == Heard(b, p.sequence).metrics.last
  {
  }

  lemma MaximaSnoc(s: seq<Word>, x: Word)
    requires s != []
    ensures NewMaxima(s + [x]) == NewMaxima(s) + (if x > Highest(s) then 1 else 0)
    ensures PastTheTop(s + [x], |s|) <==> Highest(s) == WORD - 1 && x > 0
  {
    assert (s + [x])[..|s|] == s;
  }

  /** One push keeps the identity exactly when it is not past the top. */
  lemma LossStep(b: Buffer, s: seq<Word>, p: Packet, capacity: nat)
    requires capacity >= 1
    requires b.haveLast == (s != []) && b.metrics.last == Highest(s)
    requires b.metrics.lost == 0 || s != []
    requires LossAddsUp(b, s)
    ensures var t := s + [p.sequence];
            LossAddsUp(Pushed(b, p, capacity), t) <==> !PastTheTop(t, |s|)
  {
    PushedHears(b, p, capacity);
    if s == [] {
      FirstLoss(b, p.sequence);
    } else {
      LaterLoss(b, s, p.sequence);
    }
  }

  lemma FirstLoss(b: Buffer, x: Word)
    requires !b.haveLast && b.metrics.lost == 0
    ensures LossAddsUp(Heard(b, x), [] + [x]) && !PastTheTop([] + [x], 0)
  {
    assert NewMaxima([] + [x]) == NewMaxima([]) + 1;
  }

  lemma LaterLoss(b: Buffer, s: seq<Word>, x: Word)
    requires s != [] && b.haveLast && b.metrics.last == Highest(s) && LossAddsUp(b, s)
    ensures LossAddsUp(Heard(b, x), s + [x]) <==> !PastTheTop(s + [x], |s|)
  {
    var n := NewMaxima(s);
    assert n >= 1 by {
      SomeMaximum(s);
    }
    MaximaSnoc(s, x);
    HeardKeepsSum(b, x, s[0], n);
  }

  lemma {:induction false} NothingLostBeforeTheFirst(ops: seq<Op>, capacity: nat)
    requires capacity >= 1
    requires Sequences(ops) == []
    ensures Run(ops, capacity).metrics.lost == 0
  {
    if ops != [] {
      var init, op := ops[..|ops| - 1], ops[|ops| - 1];
      assert ops == init + [op];
      SequencesSnoc(init, op);
      NothingLostBeforeTheFirst(init, capacity);
    }
  }

  /** The identity after the first k operations. */
  predicate AddsUpAfter(ops: seq<Op>, capacity: nat, k: nat)
    requires capacity >= 1 && k <= |ops|
  {
    LossAddsUp(Run(ops[..k], capacity), Sequences(ops[..k]))
  }

  predicate AlwaysAddsUp(ops: seq<Op>, capacity: nat)
    requires capacity >= 1
  {
    forall k :: 0 <= k <= |ops| ==> AddsUpAfter(ops, capacity, k)
  }

  predicate NeverPastTheTop(s: seq<Word>) {
    forall k :: 0 <= k < |s| ==> !PastTheTop(s, k)
  }

  lemma AlwaysSnoc(init: seq<Op>, op: Op, capacity: nat)
    requires capacity >= 1
    ensures var ops := init + [op];
            AlwaysAddsUp(ops, capacity) <==> AlwaysAddsUp(init, capacity) && AddsUpAfter(ops, capacity, |ops|)
  {
    var ops := init + [op];
    forall k | 0 <= k <= |init|
      ensures AddsUpAfter(ops, capacity, k) == AddsUpAfter(init, capacity, k)
    {
      assert ops[..k] == init[..k];
    }
  }

  lemma NeverSnoc(s: seq<Word>, x: Word)
    ensures NeverPastTheTop(s + [x]) <==> NeverPastTheTop(s) && !PastTheTop(s + [x], |s|)
  {
    var t := s + [x];
    forall k | 0 <= k < |s|
      ensures PastTheTop(s, k) == PastTheTop(t, k)
    {
      assert s[..k] == t[..k];
    }
  }

  /** Lost plus the new-maximum arrivals equals last - first + 1 all along a run if and only if no
      packet other than number 0 arrives once 2^64 - 1 has been heard. */
  lemma {:induction false} LossIdentity(ops: seq<Op>, capacity: nat)
    requires capacity >= 1
    ensures AlwaysAddsUp(ops, capacity) <==> NeverPastTheTop(Sequences(ops))
  {
    if ops == [] {
      return;
    }
    var init, op := ops[..|ops| - 1], ops[|ops| - 1];
    assert ops == init + [op];
    LossIdentity(init, capacity);
    AlwaysSnoc(init, op, capacity);
    SequencesSnoc(init, op);
    RunSnoc(init, op, capacity);
    assert ops[..|ops|] == ops;
    var b, s := Run(init, capacity), Sequences(init);
    if AlwaysAddsUp(init, capacity) {
      assert AddsUpAfter(init, capacity, |init|);
      assert init[..|init|] == init;
      if op.Push? {
        TracksHighest(init, capacity);
        if s == [] {
          NothingLostBeforeTheFirst(init, capacity);
        }
        LossStep(b, s, op.packet, capacity);
      }
    }
    if op.Push? {
      NeverSnoc(s, op.packet.sequence);
    } else {
      assert Sequences(ops) == s;
    }
  }

  /** The failing family's smallest member: after 2^64 - 1, hearing number 1 is counted as a loss. */
  lemma LossAtTheTop(p: Packet, q: Packet, capacity: nat)
    requires capacity >= 1
    requires p.sequence == WORD - 1 && q.sequence == 1
    ensures Run([Push(p), Push(q)], capacity).metrics.lost == 1
    ensures !AlwaysAddsUp([Push(p), Push(q)], capacity)
  {
    var one, two := [Push(p)], [Push(p), Push(q)];
    assert one == [] + [Push(p)] && two == one + [Push(q)];
    RunSnoc([], Push(p), capacity);
    RunSnoc(one, Push(q), capacity);
    SequencesSnoc([], Push(p));
    SequencesSnoc(one, Push(q));
    assert Sequences(two)[..1] == [p.sequence];
    TracksHighest(one, capacity);
    assert PastTheTop(Sequences(two), 1);
    LossIdentity(two, capacity);
  }

  // ------------------------------------------------------------- the object

  class AudioBuffer {
    const prefill: nat
    const capacity: nat
    var queue: seq<Packet>
    var metrics: Metrics
    var haveLast: bool

    ghost predicate Valid() {
      capacity >= 1
    }

    function State(): Buffer
      reads this
    {
      Buffer(queue, metrics, haveLast)
    }

    constructor (prefill: nat, capacity: nat)
      requires capacity >= 1
      ensures Valid() && State() == EMPTY
      ensures this.prefill == prefill && this.capacity == capacity
    {
      this.prefill, this.capacity := prefill, capacity;
      queue, metrics, haveLast := [], Metrics(0, 0, 0, 0, 0), false;
    }

    method Push(p: Packet)
      requires Valid()
      modifies this
      ensures State() == Pushed(old(State()), p, capacity)
    {
      metrics := metrics.(received := metrics.received + 1);
      if haveLast && p.sequence > WrapAdd(metrics.last, 1) {
        metrics := metrics.(lost := WrapAdd(metrics.lost, WrapSub(WrapSub(p.sequence, metrics.last), 1)));
      }
      if !haveLast || p.sequence > metrics.last {
        metrics := metrics.(last := p.sequence);
        haveLast := true;
      }
      if |queue| >= capacity {
        queue := queue[1..];
        metrics := metrics.(dropped := metrics.dropped + 1);
      }
      queue := queue + [p];
    }

    method Pop() returns (p: Option<Packet>)
      modifies this
      ensures State() == Popped(old(State()))
      ensures p == if old(queue) == [] then None else Some(old(queue)[0])
    {
      if queue == [] {
        metrics := metrics.(underflows := metrics.underflows + 1);
        return None;
      }
      p := Some(queue[0]);
      queue := queue[1..];
    }

    function PeekTimestamp(): (ts: Option<real>)
      reads this
      ensures ts.None? <==> queue == []
      ensures ts.Some? ==> ts.value == queue[0].timestamp
    {
      if queue == [] then None else Some(queue[0].timestamp)
    }

    predicate NearlyFull()
      reads this
    {
      AtValve(|queue|, capacity)
    }

    predicate Ready()
      reads this
    {
      |queue| >= prefill
    }

    method Reset()
      modifies this
      ensures State() == EMPTY
    {
      queue, metrics, haveLast := [], Metrics(0, 0, 0, 0, 0), false;
    }
  }
}
