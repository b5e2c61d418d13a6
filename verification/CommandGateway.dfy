/** The streamer's side, streamer/src/app/CommandGateway.cpp: command ids, and what a speaker's
    router does with the commands one gateway builds. The clocks and the salt are inputs. */
module CommandGateways {
  import opened Options
  import opened Jsons
  import opened Decimals
  import opened Words
  import opened Commands
  import opened CommandHistories
  import opened CommandRouters

  type Salt = x: nat | x < 0x10000

  /** The text snprintf puts in its 32-byte buffer. */
  function CounterText(n: Word, salt: Salt): string {
    "-" + Digits(n) + "-" + Hex4(salt)
  }

  function CommandId(streamerId: string, millis: Int64, n: Word, salt: Salt, command: string): (id: string)
    ensures id != ""
  {
    "cmd-" + streamerId + "-" + Decimal(millis) + CounterText(n, salt) + "-" + command
  }

  function PowerOfTen(k: nat): (p: nat)
    ensures p >= 1
  {
    if k == 0 then 1 else 10 * PowerOfTen(k - 1)
  }

  lemma {:induction false} DigitsLength(n: nat, k: nat)
    requires k >= 1 && n < PowerOfTen(k)
    ensures |Digits(n)| <= k
  {
    assert PowerOfTen(0) == 1;
    if n >= 10 {
      DigitsLength(n / 10, k - 1);
    }
  }

  /** The buffer holds any counter and salt with its terminator, so the text is never cut. */
  lemma CounterTextFits(n: Word, salt: Salt)
    ensures |CounterText(n, salt)| <= 31
  {
    assert PowerOfTen(10) == 10_000_000_000;
    assert PowerOfTen(20) == 100_000_000_000_000_000_000 by {
      assert PowerOfTen(15) == 1_000_000_000_000_000;
    }
    DigitsLength(n, 20);
  }

  lemma Regroup(head: string, a: string, b: string, c: string, d: string)
    ensures head + a + ("-" + b + "-" + c) + "-" + d == head + (a + "-" + (b + "-" + (c + "-" + d)))
  {
    assert ("-" + b + "-" + c) + ("-" + d) == "-" + (b + "-" + (c + "-" + d));
    var rest := b + "-" + (c + "-" + d);
    assert head + a + ("-" + b + "-" + c) + "-" + d == (head + a) + ("-" + rest);
    assert (head + a) + ("-" + rest) == head + (a + "-" + rest);
  }

  lemma SameTail(head: string, x: string, y: string)
    requires head + x == head + y
    ensures x == y
  {
    assert x == (head + x)[|head|..] == y;
  }

  /** Ids with different counters differ, whatever the clock, the salt and the command text. */
  lemma IdsDistinct(streamerId: string, ms: Int64, n: Word, salt: Salt, command: string,
                    ms': Int64, n': Word, salt': Salt, command': string)
    requires CommandId(streamerId, ms, n, salt, command) == CommandId(streamerId, ms', n', salt', command')
    ensures n == n'
  {
    var head := "cmd-" + streamerId + "-";
    var x := Digits(n) + "-" + (Hex4(salt) + "-" + command);
    var y := Digits(n') + "-" + (Hex4(salt') + "-" + command');
    Regroup(head, Decimal(ms), Digits(n), Hex4(salt), command);
    Regroup(head, Decimal(ms'), Digits(n'), Hex4(salt'), command');
    SameTail(head, Decimal(ms) + "-" + x, Decimal(ms') + "-" + y);
    SplitSigned(ms, x, ms', y);
    SplitAt('-', Digits(n), Hex4(salt) + "-" + command, Digits(n'), Hex4(salt') + "-" + command');
    DigitsInjective(n, n');
  }

  /** What one dispatch was asked to send, with the readings it took. */
  datatype Order = Order(target: string, command: string, payload: Json, expiresAt: Int64,
                         timestamp: Int64, millis: Int64, counter: Word, salt: Salt)

  datatype Gateway = Gateway(streamerId: string, secret: string, codec: Codec, crypto: Crypto)

  function IdOf(g: Gateway, o: Order): string {
    CommandId(g.streamerId, o.millis, o.counter, o.salt, o.command)
  }

  function BuildOrder(g: Gateway, o: Order): Option<Command> {
    Build(IdOf(g, o), o.target, o.command, o.payload, o.expiresAt, o.timestamp, g.secret, g.codec, g.crypto)
  }

  function LineOf(g: Gateway, o: Order): Option<string> {
    match BuildOrder(g, o)
    case None => None
    case Some(c) => Some(g.codec.dump(ToJson(c)))
  }

  class CommandGateway {
    const self: Gateway
    var counter: Word

    constructor (self: Gateway)
      ensures this.self == self && counter == 0
    {
      this.self, counter := self, 0;
    }

    method NextCommandId(command: string, millis: Int64, salt: Salt) returns (id: string)
      modifies this
      ensures id == CommandId(self.streamerId, millis, old(counter), salt, command)
      ensures counter == (old(counter) + 1) % WORD
    {
      var n := counter;
      counter := (counter + 1) % WORD;
      return "cmd-" + self.streamerId + "-" + Decimal(millis) + CounterText(n, salt) + "-" + command;
    }

    /** The line dispatch hands to the transport, or None when signing fails. */
    method Compose(target: string, command: string, payload: Json, expiresAt: Int64, timestamp: Int64,
                   millis: Int64, salt: Salt) returns (line: Option<string>, ghost order: Order)
      modifies this
      ensures order == Order(target, command, payload, expiresAt, timestamp, millis, old(counter), salt)
      ensures counter == (old(counter) + 1) % WORD
      ensures line == LineOf(self, order)
    {
      order := Order(target, command, payload, expiresAt, timestamp, millis, counter, salt);
      var id := NextCommandId(command, millis, salt);
      var built := Build(id, target, command, payload, expiresAt, timestamp,
                         self.secret, self.codec, self.crypto);
      if built.None? {
        return None, order;
      }
      line := Some(self.codec.dump(ToJson(built.value)));
    }
  }

  // ------------------------------------------------------------- a gateway's whole life

  /** What one dispatch is asked for, with the readings it takes. */
  datatype Ask = Ask(target: string, command: string, payload: Json, expiresAt: Int64,
                     timestamp: Int64, millis: Int64, salt: Salt)

  /** The counter before the k-th dispatch of a gateway. */
  function CounterAt(k: nat): Word {
    k % WORD
  }

  lemma NextCount(k: nat)
    ensures CounterAt(0) == 0 && CounterAt(k + 1) == (CounterAt(k) + 1) % WORD
  {
  }

  /** The k-th order a gateway makes of these. */
  function OrderAt(asks: seq<Ask>, k: nat): Order
    requires k < |asks|
  {
    var a := asks[k];
    Order(a.target, a.command, a.payload, a.expiresAt, a.timestamp, a.millis, CounterAt(k), a.salt)
  }

  /** The lines of the first n orders, for any way of writing an order as a line. */
  ghost function Lines(line: Order -> Option<string>, asks: seq<Ask>, n: nat): (r: seq<Option<string>>)
    requires n <= |asks|
    ensures |r| == n && forall k :: 0 <= k < n ==> r[k] == line(OrderAt(asks, k))
  {
    if n == 0 then [] else Lines(line, asks, n - 1) + [line(OrderAt(asks, n - 1))]
  }

  /** A new gateway that serves these requests one after the other: the k-th line carries counter
      k modulo 2^64. */
  method Serve(g: Gateway, asks: seq<Ask>, ghost line: Order -> Option<string>)
    returns (lines: seq<Option<string>>)
    requires forall o :: line(o) == LineOf(g, o)
    ensures lines == Lines(line, asks, |asks|)
  {
    var gateway := new CommandGateway(g);
    lines := [];
    NextCount(0);
    for k := 0 to |asks|
      invariant gateway.self == g && gateway.counter == CounterAt(k)
      invariant lines == Lines(line, asks, k)
    {
      NextCount(k);
      var next := ServeOne(gateway, asks, k, line);
      lines := lines + [next];
    }
  }

  method ServeOne(gateway: CommandGateway, asks: seq<Ask>, k: nat, ghost line: Order -> Option<string>)
    returns (next: Option<string>)
    requires k < |asks| && gateway.counter == CounterAt(k)
    requires forall o :: line(o) == LineOf(gateway.self, o)
    modifies gateway
    ensures gateway.counter == (CounterAt(k) + 1) % WORD && next == line(OrderAt(asks, k))
  {
    var a := asks[k];
    var text, order := gateway.Compose(a.target, a.command, a.payload, a.expiresAt, a.timestamp, a.millis, a.salt);
    assert order == OrderAt(asks, k);
    next := text;
  }

  /** Fewer than 2^64 dispatches apart. */
  predicate Near(i: nat, j: nat) {
    i < j + WORD && j < i + WORD
  }

  /** Ids issued by one gateway are pairwise distinct among any 2^64 in a row: two are equal only if a
      multiple of 2^64 lies between them. */
  lemma IssuedIdsDistinct(g: Gateway, asks: seq<Ask>, i: nat, j: nat)
    requires i < |asks| && j < |asks|
    ensures IdOf(g, OrderAt(asks, i)) == IdOf(g, OrderAt(asks, j)) ==>
              CounterAt(i) == CounterAt(j) && (Near(i, j) ==> i == j)
  {
    var p, o := OrderAt(asks, i), OrderAt(asks, j);
    if IdOf(g, p) == IdOf(g, o) {
      IdsDistinct(g.streamerId, p.millis, p.counter, p.salt, p.command, o.millis, o.counter, o.salt, o.command);
      CloseAndCongruent(i, j);
    }
  }

  lemma CloseAndCongruent(i: nat, j: nat)
    ensures CounterAt(i) == CounterAt(j) && Near(i, j) ==> i == j
  {
  }

  // ------------------------------------------------------------- one gateway, one speaker

  /** The request carries the order's line to the speaker it is for. */
  predicate Carries(g: Gateway, o: Order, req: Request, public: string) {
    && req.public == public && req.deviceId == o.target
    && LineOf(g, o) == Some(req.raw)
  }

  predicate Delivers(g: Gateway, asks: seq<Ask>, pick: nat, req: Request, public: string) {
    pick < |asks| && Carries(g, OrderAt(asks, pick), req, public)
  }

  /** Different dispatches, from one stretch of 2^64. */
  predicate OnceEach(picks: seq<nat>) {
    forall i, j :: 0 <= i < j < |picks| ==> picks[i] != picks[j] && Near(picks[i], picks[j])
  }

  /** A run in which a speaker hears only this gateway: each request brings a different one of the
      gateway's lines, in any order, all from one stretch of 2^64. */
  ghost predicate FedBy(g: Gateway, asks: seq<Ask>, picks: seq<nat>, s: Speaker, run: seq<Request>, public: string) {
    && s.capacity >= 1 && s.codec == g.codec && s.crypto == g.crypto
    && g.codec.RoundTrips() && g.crypto.KeyPair(g.secret, public)
    && |picks| == |run| && OnceEach(picks)
    && forall k :: 0 <= k < |run| ==> Delivers(g, asks, picks[k], run[k], public)
  }

  /** What the router makes of one such request: the built command, verbatim, and its fate. */
  lemma RequestRead(g: Gateway, o: Order, req: Request, public: string, s: Speaker)
    requires s.codec == g.codec && s.crypto == g.crypto
    requires g.codec.RoundTrips() && g.crypto.KeyPair(g.secret, public)
    requires Carries(g, o, req, public)
    ensures Read(req.raw, s.codec) == BuildOrder(g, o)
    ensures Validate(BuildOrder(g, o).value, req.deviceId, req.public, req.now, s.codec, s.crypto).None?
       <==> o.command != "" && !Expired(o.expiresAt, req.now)
  {
    BuiltIsAccepted(IdOf(g, o), o.target, o.command, o.payload, o.expiresAt, o.timestamp, g.secret,
                    public, g.codec, g.crypto, req.deviceId, req.now);
  }

  /** A fresh id decides a request by validation alone. */
  lemma FreshIsDecided(h: History, s: Speaker, req: Request, c: Command)
    requires s.capacity >= 1 && Read(req.raw, s.codec) == Some(c) && c.id !in h.results
    ensures Handled(h, s, req).executed ==
            if Validate(c, req.deviceId, req.public, req.now, s.codec, s.crypto).None? then Some(c) else None
  {
  }

  /** No line's id is cached before the line arrives. */
  lemma OrderIsFresh(g: Gateway, asks: seq<Ask>, picks: seq<nat>, s: Speaker, run: seq<Request>,
                     public: string, k: nat)
    requires FedBy(g, asks, picks, s, run, public) && k < |run|
    ensures picks[k] < |asks| && IdOf(g, OrderAt(asks, picks[k])) !in HistoryAt(s, run, k).results
  {
    assert Delivers(g, asks, picks[k], run[k], public);
    var id := IdOf(g, OrderAt(asks, picks[k]));
    if id in HistoryAt(s, run, k).results {
      var i := CachedIdWasHeard(s, run, k, id);
      assert Delivers(g, asks, picks[i], run[i], public);
      RequestRead(g, OrderAt(asks, picks[i]), run[i], public, s);
      IssuedIdsDistinct(g, asks, picks[i], picks[k]);
      assert false;
    }
  }

  /** End to end: a speaker fed by one gateway executes each command exactly as built, if and only if
      it has a name and has not expired; none is answered from the cache. */
  lemma EveryOrderExecutes(g: Gateway, asks: seq<Ask>, picks: seq<nat>, s: Speaker, run: seq<Request>,
                           public: string, k: nat)
    requires FedBy(g, asks, picks, s, run, public) && k < |run|
    ensures picks[k] < |asks|
    ensures IdOf(g, OrderAt(asks, picks[k])) !in HistoryAt(s, run, k).results
    ensures var o := OrderAt(asks, picks[k]);
            ResponseAt(s, run, k).executed ==
            if o.command != "" && !Expired(o.expiresAt, run[k].now) then BuildOrder(g, o) else None
  {
    OrderIsFresh(g, asks, picks, s, run, public, k);
    assert Delivers(g, asks, picks[k], run[k], public);
    var o := OrderAt(asks, picks[k]);
    RequestRead(g, o, run[k], public, s);
    FreshIsDecided(HistoryAt(s, run, k), s, run[k], BuildOrder(g, o).value);
  }
}
