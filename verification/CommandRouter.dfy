/** The bounded result cache of src/control/CommandHistory.cpp: a first-in first-out queue of ids
    over a map of results. */
module CommandHistories {
  import opened Options
  import opened Commands

  datatype History = History(order: seq<string>, results: map<string, CommandResult>)

  const NO_HISTORY := History([], map[])

  predicate Distinct(s: seq<string>) {
    forall i, j :: 0 <= i < j < |s| ==> s[i] != s[j]
  }

  /** The queue has no duplicates, its ids are exactly the map's keys, and it fits. */
  ghost predicate Consistent(h: History, capacity: nat) {
    && |h.order| <= capacity
    && Distinct(h.order)
    && (forall x :: x in h.order <==> x in h.results)
  }

  function Recorded(h: History, id: string, r: CommandResult, capacity: nat): History
    requires capacity >= 1
  {
    if id in h.results then h.(results := h.results[id := r])
    else if |h.order| >= capacity then
      History(h.order[1..] + [id], (h.results - {h.order[0]})[id := r])
    else History(h.order + [id], h.results[id := r])
  }

  lemma RecordedConsistent(h: History, id: string, r: CommandResult, capacity: nat)
    requires capacity >= 1 && Consistent(h, capacity)
    ensures Consistent(Recorded(h, id, r, capacity), capacity)
  {
    var g := Recorded(h, id, r, capacity);
    if id !in h.results && |h.order| >= capacity {
      assert h.order == [h.order[0]] + h.order[1..];
      assert forall x :: x in h.order[1..] <==> x in h.order && x != h.order[0];
    }
  }

  function Ids(s: seq<string>): set<string> {
    set x | x in s
  }

  /** A duplicate-free sequence has as many elements as positions. */
  lemma {:induction false} DistinctCount(s: seq<string>)
    requires Distinct(s)
    ensures |Ids(s)| == |s|
  {
    if s != [] {
      var init, last := s[..|s| - 1], s[|s| - 1];
      DistinctCount(init);
      assert Ids(s) == Ids(init) + {last};
    }
  }

  lemma {:induction false} SubsetCount(a: set<string>, b: set<string>)
    requires a <= b
    ensures |a| <= |b|
  {
    if a != {} {
      var x :| x in a;
      SubsetCount(a - {x}, b - {x});
    }
  }

  // ------------------------------------------------------------- how long a result stays cached

  datatype Entry = Entry(id: string, result: CommandResult)

  /** One step of the cache: unchanged, or a new id recorded. */
  predicate Linked(h: History, g: History, e: Option<Entry>, capacity: nat)
    requires capacity >= 1
  {
    match e
    case None => g == h
    case Some(x) => x.id !in h.results && g == Recorded(h, x.id, x.result, capacity)
  }

  lemma LinkedConsistent(h: History, g: History, e: Option<Entry>, capacity: nat)
    requires capacity >= 1 && Consistent(h, capacity) && Linked(h, g, e, capacity)
    ensures Consistent(g, capacity)
  {
    if e.Some? {
      RecordedConsistent(h, e.value.id, e.value.result, capacity);
    }
  }

  ghost predicate IsTrace(hs: seq<History>, es: seq<Option<Entry>>, capacity: nat) {
    && capacity >= 1 && |hs| == |es| + 1
    && forall k :: 0 <= k < |es| ==> TraceStep(hs, es, capacity, k)
  }

  ghost predicate TraceStep(hs: seq<History>, es: seq<Option<Entry>>, capacity: nat, k: nat)
    requires capacity >= 1 && |hs| == |es| + 1 && k < |es|
  {
    Consistent(hs[k], capacity) && Linked(hs[k], hs[k + 1], es[k], capacity)
  }

  /** The ids other than x recorded strictly between steps i and j. */
  function OtherIds(es: seq<Option<Entry>>, i: nat, j: nat, x: string): set<string>
    requires i < j <= |es|
    decreases j
  {
    if j == i + 1 then {}
    else OtherIds(es, i, j - 1, x) + (if es[j - 1].Some? then {es[j - 1].value.id} - {x} else {})
  }

  /** e is cached at position p, and everything queued behind it is in `since`. */
  predicate CachedAt(h: History, e: Entry, since: set<string>, p: nat) {
    && p < |h.order| && h.order[p] == e.id && e.id in h.results && h.results[e.id] == e.result
    && forall q :: p < q < |h.order| ==> h.order[q] in since
  }

  ghost predicate Cached(h: History, e: Entry, since: set<string>) {
    exists p: nat :: CachedAt(h, e, since, p)
  }

  ghost predicate CachedOrFull(h: History, e: Entry, since: set<string>, capacity: nat) {
    |since| >= capacity || Cached(h, e, since)
  }

  lemma JustRecorded(h: History, e: Entry, capacity: nat)
    requires capacity >= 1 && e.id !in h.results
    ensures Cached(Recorded(h, e.id, e.result, capacity), e, {})
  {
    var g := Recorded(h, e.id, e.result, capacity);
    assert CachedAt(g, e, {}, |g.order| - 1);
  }

  /** Recording a new id either keeps e cached or completes `capacity` ids recorded since e. */
  lemma RecordedKeepsOrFills(h: History, e: Entry, since: set<string>, next: Entry, capacity: nat)
    requires capacity >= 1 && Consistent(h, capacity)
    requires Cached(h, e, since) && next.id !in h.results
    ensures || Cached(Recorded(h, next.id, next.result, capacity), e, since + {next.id})
            || |since + {next.id}| >= capacity
  {
    var p: nat :| CachedAt(h, e, since, p);
    var y := next.id;
    var g := Recorded(h, y, next.result, capacity);
    if |h.order| < capacity {
      assert CachedAt(g, e, since + {y}, p);
    } else if p > 0 {
      assert CachedAt(g, e, since + {y}, p - 1);
    } else {
      RecordedConsistent(h, y, next.result, capacity);
      DistinctCount(g.order);
      SubsetCount(Ids(g.order), since + {y});
    }
  }

  lemma CachedStep(h: History, g: History, e: Entry, since: set<string>, next: Entry, capacity: nat)
    requires capacity >= 1 && Consistent(h, capacity) && Linked(h, g, Some(next), capacity)
    requires CachedOrFull(h, e, since, capacity)
    ensures CachedOrFull(g, e, since + ({next.id} - {e.id}), capacity)
  {
    if |since| >= capacity {
      SubsetCount(since, since + ({next.id} - {e.id}));
    } else {
      assert next.id != e.id;
      assert {next.id} - {e.id} == {next.id};
      RecordedKeepsOrFills(h, e, since, next, capacity);
    }
  }

  lemma TraceStart(hs: seq<History>, es: seq<Option<Entry>>, capacity: nat, i: nat, e: Entry)
    requires IsTrace(hs, es, capacity) && i < |es| && es[i] == Some(e)
    ensures Cached(hs[i + 1], e, {})
  {
    assert TraceStep(hs, es, capacity, i);
    JustRecorded(hs[i], e, capacity);
  }

  lemma TraceNext(hs: seq<History>, es: seq<Option<Entry>>, capacity: nat, k: nat, e: Entry, since: set<string>)
    requires IsTrace(hs, es, capacity) && k < |es|
    requires CachedOrFull(hs[k], e, since, capacity)
    ensures CachedOrFull(hs[k + 1], e, since + (if es[k].Some? then {es[k].value.id} - {e.id} else {}), capacity)
  {
    assert TraceStep(hs, es, capacity, k);
    if es[k].Some? {
      CachedStep(hs[k], hs[k + 1], e, since, es[k].value, capacity);
    } else {
      assert since + {} == since;
    }
  }

  /** A recorded result stays cached until `capacity` other ids have been recorded. */
  lemma {:induction false} CachedUntilFull(hs: seq<History>, es: seq<Option<Entry>>, capacity: nat,
                                           i: nat, j: nat, e: Entry)
    requires IsTrace(hs, es, capacity)
    requires i < j <= |es| && es[i] == Some(e)
    ensures CachedOrFull(hs[j], e, OtherIds(es, i, j, e.id), capacity)
    decreases j
  {
    if j == i + 1 {
      TraceStart(hs, es, capacity, i, e);
    } else {
      CachedUntilFull(hs, es, capacity, i, j - 1, e);
      TraceNext(hs, es, capacity, j - 1, e, OtherIds(es, i, j - 1, e.id));
    }
  }

  // ------------------------------------------------------------- and no longer

  /** e is cached at position p and the ids queued behind it are exactly `since`. */
  ghost predicate ExactlyAt(h: History, e: Entry, since: set<string>, p: nat) {
    && p < |h.order| && h.order[p] == e.id
    && since == Ids(h.order[p + 1..])
  }

  ghost predicate Exactly(h: History, e: Entry, since: set<string>) {
    exists p: nat :: ExactlyAt(h, e, since, p)
  }

  /** Fewer than `capacity` ids fit behind it. */
  lemma ExactlyFits(h: History, e: Entry, since: set<string>, capacity: nat)
    requires Consistent(h, capacity) && Exactly(h, e, since)
    ensures |since| < capacity
  {
    var p: nat :| ExactlyAt(h, e, since, p);
    var behind := h.order[p + 1..];
    assert Distinct(behind) by {
      assert forall i :: 0 <= i < |behind| ==> behind[i] == h.order[p + 1 + i];
    }
    DistinctCount(behind);
  }

  lemma ExactlyStart(h: History, e: Entry, capacity: nat)
    requires capacity >= 1 && e.id !in h.results
    ensures Exactly(Recorded(h, e.id, e.result, capacity), e, {})
  {
    var g := Recorded(h, e.id, e.result, capacity);
    assert g.order[|g.order|..] == [];
    assert ExactlyAt(g, e, {}, |g.order| - 1);
  }

  lemma BehindSnoc(order: seq<string>, p: nat, y: string)
    requires p < |order|
    ensures Ids((order + [y])[p + 1..]) == Ids(order[p + 1..]) + {y}
  {
    assert (order + [y])[p + 1..] == order[p + 1..] + [y];
  }

  /** Recording another id keeps e exactly, one place nearer the exit, or drops it. */
  lemma ExactlyStep(h: History, e: Entry, since: set<string>, next: Entry, capacity: nat)
    requires capacity >= 1 && Consistent(h, capacity) && Exactly(h, e, since)
    requires next.id !in h.results && next.id != e.id
    ensures var g := Recorded(h, next.id, next.result, capacity);
            Exactly(g, e, since + {next.id}) || e.id !in g.results
  {
    var p: nat :| ExactlyAt(h, e, since, p);
    var y := next.id;
    var g := Recorded(h, y, next.result, capacity);
    BehindSnoc(h.order, p, y);
    if |h.order| < capacity {
      assert ExactlyAt(g, e, since + {y}, p);
    } else if p > 0 {
      assert g.order[p..] == (h.order + [y])[p + 1..];
      assert ExactlyAt(g, e, since + {y}, p - 1);
    }
  }

  /** e's id is not recorded a second time strictly between steps i and j. */
  predicate NotAgain(es: seq<Option<Entry>>, i: nat, j: nat, id: string)
    requires i < j <= |es|
  {
    forall k :: i < k < j && es[k].Some? ==> es[k].value.id != id
  }

  lemma AbsentStays(h: History, id: string, next: Entry, capacity: nat)
    requires capacity >= 1 && id !in h.results && next.id != id
    ensures id !in Recorded(h, next.id, next.result, capacity).results
  {
  }

  lemma TraceExact(hs: seq<History>, es: seq<Option<Entry>>, capacity: nat, k: nat, e: Entry, since: set<string>)
    requires IsTrace(hs, es, capacity) && k < |es| && (es[k].Some? ==> es[k].value.id != e.id)
    requires Exactly(hs[k], e, since) || e.id !in hs[k].results
    ensures var others := since + (if es[k].Some? then {es[k].value.id} - {e.id} else {});
            Exactly(hs[k + 1], e, others) || e.id !in hs[k + 1].results
  {
    assert TraceStep(hs, es, capacity, k);
    if es[k].None? {
      assert since + {} == since;
    } else {
      var next := es[k].value;
      assert {next.id} - {e.id} == {next.id};
      if e.id in hs[k].results {
        ExactlyStep(hs[k], e, since, next, capacity);
      } else {
        AbsentStays(hs[k], e.id, next, capacity);
      }
    }
  }

  lemma TraceExactStart(hs: seq<History>, es: seq<Option<Entry>>, capacity: nat, i: nat, e: Entry)
    requires IsTrace(hs, es, capacity) && i < |es| && es[i] == Some(e)
    ensures Exactly(hs[i + 1], e, {})
  {
    assert TraceStep(hs, es, capacity, i);
    ExactlyStart(hs[i], e, capacity);
  }

  lemma {:induction false} ExactlyOrGone(hs: seq<History>, es: seq<Option<Entry>>, capacity: nat,
                                         i: nat, j: nat, e: Entry)
    requires IsTrace(hs, es, capacity)
    requires i < j <= |es| && es[i] == Some(e) && NotAgain(es, i, j, e.id)
    ensures Exactly(hs[j], e, OtherIds(es, i, j, e.id)) || e.id !in hs[j].results
    decreases j
  {
    if j == i + 1 {
      TraceExactStart(hs, es, capacity, i, e);
    } else {
      ExactlyOrGone(hs, es, capacity, i, j - 1, e);
      TraceExact(hs, es, capacity, j - 1, e, OtherIds(es, i, j - 1, e.id));
    }
  }

  /** First in, first out, exactly: a result recorded at i and not recorded again is cached at j if and
      only if fewer than `capacity` other ids have been recorded since, however often it was asked for
      in between. */
  lemma CachedIff(hs: seq<History>, es: seq<Option<Entry>>, capacity: nat, i: nat, j: nat, e: Entry)
    requires IsTrace(hs, es, capacity)
    requires i < j <= |es| && es[i] == Some(e) && NotAgain(es, i, j, e.id) && Consistent(hs[j], capacity)
    ensures e.id in hs[j].results <==> |OtherIds(es, i, j, e.id)| < capacity
    ensures e.id in hs[j].results ==> hs[j].results[e.id] == e.result
  {
    ExactlyOrGone(hs, es, capacity, i, j, e);
    CachedUntilFull(hs, es, capacity, i, j, e);
    if e.id in hs[j].results {
      ExactlyFits(hs[j], e, OtherIds(es, i, j, e.id), capacity);
    }
  }

  class CommandHistory {
    const capacity: nat
    var order: seq<string>
    var results: map<string, CommandResult>

    function State(): History
      reads this
    {
      History(order, results)
    }

    ghost predicate Valid()
      reads this
    {
      capacity >= 1 && Consistent(State(), capacity)
    }

    constructor (capacity: nat)
      requires capacity >= 1
      ensures Valid() && State() == NO_HISTORY && this.capacity == capacity
    {
      this.capacity := capacity;
      order, results := [], map[];
    }

    method Record(id: string, r: CommandResult)
      requires Valid()
      modifies this
      ensures Valid()
      ensures State() == Recorded(old(State()), id, r, capacity)
    {
      RecordedConsistent(State(), id, r, capacity);
      if id in results {
        results := results[id := r];
        return;
      }
      if |order| >= capacity {
        var oldest := order[0];
        results := results - {oldest};
        order := order[1..];
      }
      order := order + [id];
      results := results[id := r];
    }

    method TryGet(id: string) returns (r: Option<CommandResult>)
      ensures r.Some? <==> id in State().results
      ensures r.Some? ==> r.value == State().results[id]
    {
      if id in results {
        return Some(results[id]);
      }
      return None;
    }
  }
}

/** The pipeline of src/control/CommandRouter.cpp: parse, look up, validate, execute, record. The
    executor's answer is an input, so the claims hold for any executor. */
module CommandRouters {
  import opened Options
  import opened Jsons
  import opened Commands
  import opened CommandHistories

  datatype Speaker = Speaker(capacity: nat, codec: Codec, crypto: Crypto)

  /** One call of handle: the line received, the pairing it is checked against, the clock, the text of
      the exception if the line is malformed, and the executor's answer if the command runs. */
  datatype Request = Request(raw: string, deviceId: string, public: string, now: Int64, what: string, outcome: CommandResult)

  datatype Response = Response(result: CommandResult, executed: Option<Command>, history: History)

  function Read(raw: string, codec: Codec): Option<Command> {
    match codec.parse(raw)
    case None => None
    case Some(j) => FromJson(j)
  }

  function Refusal(id: string, code: ErrorCode, message: string): CommandResult {
    CommandResult(id, false, message, ToInt(code), EMPTY_OBJECT)
  }

  function Handled(h: History, s: Speaker, req: Request): Response
    requires s.capacity >= 1
  {
    match Read(req.raw, s.codec)
    case None => Response(Refusal("", InvalidArg, "malformed command json: " + req.what), None, h)
    case Some(c) =>
      if c.id in h.results then Response(h.results[c.id], None, h)
      else match Validate(c, req.deviceId, req.public, req.now, s.codec, s.crypto)
        case Some(problem) => Response(Refusal(c.id, problem.code, problem.message), None, h)
        case None =>
          Response(req.outcome, Some(c),
                   if c.command == REPORT_LINK then h else Recorded(h, c.id, req.outcome, s.capacity))
  }

  class CommandRouter {
    const speaker: Speaker
    const history: CommandHistory
    ghost var executed: seq<Command>

    constructor (speaker: Speaker, history: CommandHistory)
      ensures this.speaker == speaker && this.history == history && executed == []
    {
      this.speaker, this.history, executed := speaker, history, [];
    }

    method Handle(req: Request) returns (result: CommandResult)
      requires history.Valid() && history.capacity == speaker.capacity
      modifies this, history
      ensures history.Valid()
      ensures var resp := Handled(old(history.State()), speaker, req);
              && result == resp.result && history.State() == resp.history
              && executed == old(executed) + (if resp.executed.Some? then [resp.executed.value] else [])
    {
      var c := Read(req.raw, speaker.codec);
      if c.None? {
        return Refusal("", InvalidArg, "malformed command json: " + req.what);
      }
      var prior := history.TryGet(c.value.id);
      if prior.Some? {
        return prior.value;
      }
      var problem := Validate(c.value, req.deviceId, req.public, req.now, speaker.codec, speaker.crypto);
      if problem.Some? {
        return Refusal(c.value.id, problem.value.code, problem.value.message);
      }
      executed := executed + [c.value];
      result := req.outcome;
      if c.value.command != REPORT_LINK {
        history.Record(c.value.id, result);
      }
    }
  }

  // ------------------------------------------------------------- runs

  /** The cache before request k of a run. */
  function HistoryAt(s: Speaker, run: seq<Request>, k: nat): History
    requires s.capacity >= 1 && k <= |run|
  {
    if k == 0 then NO_HISTORY else Handled(HistoryAt(s, run, k - 1), s, run[k - 1]).history
  }

  function ResponseAt(s: Speaker, run: seq<Request>, k: nat): Response
    requires s.capacity >= 1 && k < |run|
  {
    Handled(HistoryAt(s, run, k), s, run[k])
  }

  /** What request k adds to the cache: nothing, or the id and result of a command it executed. */
  function EntryAt(s: Speaker, run: seq<Request>, k: nat): Option<Entry>
    requires s.capacity >= 1 && k < |run|
  {
    var resp := ResponseAt(s, run, k);
    if resp.executed.Some? && resp.executed.value.command != REPORT_LINK
    then Some(Entry(resp.executed.value.id, resp.result)) else None
  }

  function Entries(s: Speaker, run: seq<Request>): (es: seq<Option<Entry>>)
    requires s.capacity >= 1
    ensures |es| == |run|
  {
    seq(|run|, k requires 0 <= k < |run| => EntryAt(s, run, k))
  }

  function Histories(s: Speaker, run: seq<Request>): (hs: seq<History>)
    requires s.capacity >= 1
    ensures |hs| == |run| + 1
  {
    seq(|run| + 1, k requires 0 <= k <= |run| => HistoryAt(s, run, k))
  }

  lemma HistoryStep(s: Speaker, run: seq<Request>, k: nat)
    requires s.capacity >= 1 && k < |run|
    ensures Linked(HistoryAt(s, run, k), HistoryAt(s, run, k + 1), EntryAt(s, run, k), s.capacity)
  {
  }

  lemma {:induction false} HistoryConsistent(s: Speaker, run: seq<Request>, k: nat)
    requires s.capacity >= 1 && k <= |run|
    ensures Consistent(HistoryAt(s, run, k), s.capacity)
  {
    if k > 0 {
      HistoryConsistent(s, run, k - 1);
      HistoryStep(s, run, k - 1);
      LinkedConsistent(HistoryAt(s, run, k - 1), HistoryAt(s, run, k), EntryAt(s, run, k - 1), s.capacity);
    }
  }

  lemma TraceStepAt(s: Speaker, run: seq<Request>, k: nat, hs: seq<History>, es: seq<Option<Entry>>)
    requires s.capacity >= 1 && k < |run| == |es| && |hs| == |es| + 1
    requires hs[k] == HistoryAt(s, run, k) && hs[k + 1] == HistoryAt(s, run, k + 1) && es[k] == EntryAt(s, run, k)
    ensures TraceStep(hs, es, s.capacity, k)
  {
    HistoryConsistent(s, run, k);
    HistoryStep(s, run, k);
  }

  lemma RunIsTrace(s: Speaker, run: seq<Request>)
    requires s.capacity >= 1
    ensures IsTrace(Histories(s, run), Entries(s, run), s.capacity)
  {
    forall k | 0 <= k < |run|
      ensures TraceStep(Histories(s, run), Entries(s, run), s.capacity, k)
    {
      TraceStepAt(s, run, k, Histories(s, run), Entries(s, run));
    }
  }

  /** The exact window, for runs: a recorded command not recorded again is still cached before request
      j if and only if fewer than `capacity` other ids were recorded in between. */
  lemma CachedBeforeIff(s: Speaker, run: seq<Request>, i: nat, j: nat)
    requires s.capacity >= 1 && i < j < |run| && EntryAt(s, run, i).Some?
    requires NotAgain(Entries(s, run), i, j, EntryAt(s, run, i).value.id)
    ensures EntryAt(s, run, i).value.id in HistoryAt(s, run, j).results
       <==> |OtherIds(Entries(s, run), i, j, EntryAt(s, run, i).value.id)| < s.capacity
  {
    RunIsTrace(s, run);
    HistoryConsistent(s, run, j);
    CachedIff(Histories(s, run), Entries(s, run), s.capacity, i, j, EntryAt(s, run, i).value);
  }

  /** At most once: a later request with the id of a recorded command either finds that `capacity`
      other ids have been recorded in between, or is answered with the first execution's result and
      neither executes nor changes the cache. */
  lemma RepeatIsAnsweredFromCache(s: Speaker, run: seq<Request>, i: nat, j: nat)
    requires s.capacity >= 1 && i < j < |run|
    requires EntryAt(s, run, i).Some?
    requires Read(run[j].raw, s.codec).Some?
    requires Read(run[j].raw, s.codec).value.id == EntryAt(s, run, i).value.id
    ensures || |OtherIds(Entries(s, run), i, j, EntryAt(s, run, i).value.id)| >= s.capacity
            || ResponseAt(s, run, j) == Response(EntryAt(s, run, i).value.result, None, HistoryAt(s, run, j))
  {
    RunIsTrace(s, run);
    var e := EntryAt(s, run, i).value;
    CachedUntilFull(Histories(s, run), Entries(s, run), s.capacity, i, j, e);
  }

  /** The same, said of executions: two of one id are at least `capacity` other ids apart. */
  lemma ExecutionsFarApart(s: Speaker, run: seq<Request>, i: nat, j: nat)
    requires s.capacity >= 1 && i < j < |run|
    requires EntryAt(s, run, i).Some? && ResponseAt(s, run, j).executed.Some?
    requires ResponseAt(s, run, j).executed.value.id == EntryAt(s, run, i).value.id
    ensures |OtherIds(Entries(s, run), i, j, EntryAt(s, run, i).value.id)| >= s.capacity
  {
    RepeatIsAnsweredFromCache(s, run, i, j);
  }

  /** What the pairing demands of a command that runs. */
  predicate Authorized(c: Command, req: Request, s: Speaker) {
    && c.id != "" && c.command != "" && c.target in {"", req.deviceId} && !Expired(c.expiresAt, req.now)
    && req.public != "" && s.crypto.verify(Canonical(c, s.codec.dump), c.signature, req.public)
  }

  /** In every run: what executes is what the line says, signed for the paired streamer, addressed
      here, unexpired and not in the cache; any other request leaves the cache as it was. */
  lemma OnlyAuthorizedExecutes(s: Speaker, run: seq<Request>, k: nat)
    requires s.capacity >= 1 && k < |run|
    ensures var resp := ResponseAt(s, run, k);
            match resp.executed
            case Some(c) =>
              Authorized(c, run[k], s) && Read(run[k].raw, s.codec) == Some(c) && c.id !in HistoryAt(s, run, k).results
            case None => resp.history == HistoryAt(s, run, k)
  {
  }

  predicate HasId(req: Request, codec: Codec, x: string) {
    Read(req.raw, codec).Some? && Read(req.raw, codec).value.id == x
  }

  lemma RecordedKeys(h: History, id: string, r: CommandResult, capacity: nat, x: string)
    requires capacity >= 1
    ensures x in Recorded(h, id, r, capacity).results ==> x in h.results || x == id
  {
  }

  /** One request adds at most its own id to the cache. */
  lemma HandledKeys(h: History, s: Speaker, req: Request, x: string)
    requires s.capacity >= 1
    requires x in Handled(h, s, req).history.results
    ensures x in h.results || HasId(req, s.codec, x)
  {
    var c := Read(req.raw, s.codec);
    if c.Some? {
      RecordedKeys(h, c.value.id, req.outcome, s.capacity, x);
    }
  }

  /** The cache only ever holds ids of requests already heard. */
  lemma {:induction false} CachedIdWasHeard(s: Speaker, run: seq<Request>, k: nat, x: string) returns (i: nat)
    requires s.capacity >= 1 && k <= |run|
    requires x in HistoryAt(s, run, k).results
    ensures i < k && HasId(run[i], s.codec, x)
  {
    HandledKeys(HistoryAt(s, run, k - 1), s, run[k - 1], x);
    if HasId(run[k - 1], s.codec, x) {
      i := k - 1;
    } else {
      i := CachedIdWasHeard(s, run, k - 1, x);
    }
  }

  // ------------------------------------------------------------- telemetry

  predicate IsLinkReport(req: Request, codec: Codec) {
    var c := Read(req.raw, codec);
    c.Some? && c.value.command == REPORT_LINK
  }

  function WithoutLinkReports(run: seq<Request>, codec: Codec): (r: seq<Request>)
    ensures |r| <= |run|
  {
    if run == [] then []
    else
      var init, last := run[..|run| - 1], run[|run| - 1];
      WithoutLinkReports(init, codec) + (if IsLinkReport(last, codec) then [] else [last])
  }

  /** The answers given to requests that are not link reports. */
  function Answers(s: Speaker, run: seq<Request>): seq<Response>
    requires s.capacity >= 1
  {
    if run == [] then []
    else
      var init, last := run[..|run| - 1], run[|run| - 1];
      Answers(s, init) +
      (if IsLinkReport(last, s.codec) then [] else [Handled(HistoryAt(s, init, |init|), s, last)])
  }

  lemma {:induction false} HistoryOfPrefix(s: Speaker, run: seq<Request>, more: seq<Request>, k: nat)
    requires s.capacity >= 1 && k <= |run|
    ensures HistoryAt(s, run + more, k) == HistoryAt(s, run, k)
  {
    if k > 0 {
      HistoryOfPrefix(s, run, more, k - 1);
    }
  }

  /** Link reports are invisible: striking them all from a run changes neither the cache nor any
      answer or execution of the other requests, so no number of them evicts anything. */
  lemma {:induction false} LinkReportsInvisible(s: Speaker, run: seq<Request>)
    requires s.capacity >= 1
    ensures var kept := WithoutLinkReports(run, s.codec);
            && HistoryAt(s, run, |run|) == HistoryAt(s, kept, |kept|)
            && Answers(s, run) == Answers(s, kept)
  {
    if run != [] {
      var init, last := run[..|run| - 1], run[|run| - 1];
      assert run == init + [last];
      LinkReportsInvisible(s, init);
      HistoryOfPrefix(s, init, [last], |init|);
      var kept := WithoutLinkReports(init, s.codec);
      if IsLinkReport(last, s.codec) {
        assert WithoutLinkReports(run, s.codec) == kept;
      } else {
        var all := kept + [last];
        assert WithoutLinkReports(run, s.codec) == all;
        HistoryOfPrefix(s, kept, [last], |kept|);
        assert all[..|all| - 1] == kept;
      }
    }
  }
}
