/** That the result cache of src/control/CommandHistory.cpp is not a least-recently-used one. */
module CommandEviction {
  import opened Options
  import opened Jsons
  import opened Commands
  import opened CommandHistories
  import opened CommandRouters

  /** A request that a speaker which trusts every signature executes, as a command of this id. */
  function Asking(id: string, codec: Codec): Request {
    Request(codec.dump(ToJson(Command(id, "", "SET_MUTE", EMPTY_OBJECT, 0, 0, "signature"))), "speaker", "key", 0, "",
            Outcome(id))
  }

  lemma AskingIsRead(id: string, codec: Codec)
    requires codec.RoundTrips()
    ensures Read(Asking(id, codec).raw, codec) == Some(Command(id, "", "SET_MUTE", EMPTY_OBJECT, 0, 0, "signature"))
  {
    var c := Command(id, "", "SET_MUTE", EMPTY_OBJECT, 0, 0, "signature");
    WireRoundTrip(c);
    assert codec.parse(codec.dump(ToJson(c))) == Some(ToJson(c));
  }

  lemma AskingHandled(h: History, s: Speaker, id: string)
    requires s.capacity >= 1 && s.codec.RoundTrips() && id != "" && forall m, g, k :: s.crypto.verify(m, g, k)
    ensures var resp := Handled(h, s, Asking(id, s.codec));
            if id in h.results then resp == Response(h.results[id], None, h)
            else resp.executed.Some? && resp.result == Asking(id, s.codec).outcome
                 && resp.history == Recorded(h, id, Asking(id, s.codec).outcome, s.capacity)
  {
    AskingIsRead(id, s.codec);
  }

  function Askings(ids: seq<string>, codec: Codec): (run: seq<Request>)
    ensures |run| == |ids| && forall k :: 0 <= k < |ids| ==> run[k] == Asking(ids[k], codec)
  {
    seq(|ids|, k requires 0 <= k < |ids| => Asking(ids[k], codec))
  }

  function Outcome(id: string): CommandResult {
    CommandResult(id, true, "ok", 0, EMPTY_OBJECT)
  }

  /** The cache such requests leave. */
  function Asked(ids: seq<string>, k: nat, capacity: nat): History
    requires capacity >= 1 && k <= |ids|
  {
    if k == 0 then NO_HISTORY
    else
      var h, id := Asked(ids, k - 1, capacity), ids[k - 1];
      if id in h.results then h else Recorded(h, id, Outcome(id), capacity)
  }

  lemma {:induction false} AskedHistory(s: Speaker, ids: seq<string>, k: nat)
    requires s.capacity >= 1 && s.codec.RoundTrips() && forall m, g, x :: s.crypto.verify(m, g, x)
    requires k <= |ids| && "" !in ids
    ensures HistoryAt(s, Askings(ids, s.codec), k) == Asked(ids, k, s.capacity)
  {
    if k > 0 {
      AskedHistory(s, ids, k - 1);
      AskingHandled(Asked(ids, k - 1, s.capacity), s, ids[k - 1]);
    }
  }

  lemma HitAnswer(s: Speaker, ids: seq<string>, k: nat)
    requires s.capacity >= 1 && s.codec.RoundTrips() && forall m, g, x :: s.crypto.verify(m, g, x)
    requires k < |ids| && "" !in ids && ids[k] in Asked(ids, k, s.capacity).results
    ensures var h := Asked(ids, k, s.capacity);
            ResponseAt(s, Askings(ids, s.codec), k) == Response(h.results[ids[k]], None, h)
  {
    AskedHistory(s, ids, k);
    AskingHandled(Asked(ids, k, s.capacity), s, ids[k]);
  }

  /** The run a, b, a, c with room for two: the second a is answered from the cache, yet c evicts a and
      keeps b, where a least-recently-used cache would have kept a. */
  lemma HitDoesNotRefresh(s: Speaker, ids: seq<string>, hit: nat, n: nat)
    requires s.capacity == 2 && s.codec.RoundTrips() && forall m, g, x :: s.crypto.verify(m, g, x)
    requires ids == ["a", "b", "a", "c"] && hit == 2 && n == 4
    ensures ResponseAt(s, Askings(ids, s.codec), hit).executed.None?
    ensures ResponseAt(s, Askings(ids, s.codec), hit).result == Outcome("a")
    ensures HistoryAt(s, Askings(ids, s.codec), n).order == ["b", "c"]
    ensures "a" !in HistoryAt(s, Askings(ids, s.codec), n).results
  {
    AskedAbac(ids, hit, n);
    SecondHits(s, ids, hit, ids[hit]);
    ThenEvicts(s, ids, n, Asked(ids, n, s.capacity));
  }

  lemma ThenEvicts(s: Speaker, ids: seq<string>, n: nat, h: History)
    requires s.capacity >= 1 && s.codec.RoundTrips() && forall m, g, x :: s.crypto.verify(m, g, x)
    requires n <= |ids| && "" !in ids && h == Asked(ids, n, s.capacity)
    ensures HistoryAt(s, Askings(ids, s.codec), n) == h
  {
    AskedHistory(s, ids, n);
  }

  lemma SecondHits(s: Speaker, ids: seq<string>, hit: nat, a: string)
    requires s.capacity >= 1 && s.codec.RoundTrips() && forall m, g, x :: s.crypto.verify(m, g, x)
    requires hit < |ids| && "" !in ids && ids[hit] == a && a in Asked(ids, hit, s.capacity).results
    requires Asked(ids, hit, s.capacity).results[a] == Outcome(a)
    ensures ResponseAt(s, Askings(ids, s.codec), hit).executed.None?
    ensures ResponseAt(s, Askings(ids, s.codec), hit).result == Outcome(a)
  {
    HitAnswer(s, ids, hit);
  }

  lemma AskedAbac(ids: seq<string>, hit: nat, n: nat)
    requires ids == ["a", "b", "a", "c"] && hit == 2 && n == 4
    ensures "" !in ids && ids[hit] == "a"
    ensures "a" in Asked(ids, hit, 2).results && Asked(ids, hit, 2).results["a"] == Outcome("a")
    ensures Asked(ids, n, 2).order == ["b", "c"] && "a" !in Asked(ids, n, 2).results
  {
    var one := History(["a"], map["a" := Outcome("a")]);
    assert ids[0] == "a" && ids[1] == "b" && ids[2] == "a" && ids[3] == "c";
    assert "a"[0] != "b"[0] && "a"[0] != "c"[0] && "b"[0] != "c"[0];
    assert Asked(ids, 1, 2) == one by {
      assert Asked(ids, 0, 2) == NO_HISTORY;
    }
    var two := History(["a", "b"], map["a" := Outcome("a"), "b" := Outcome("b")]);
    assert Asked(ids, 2, 2) == two;
    assert Asked(ids, 3, 2) == two;
    var three := Recorded(two, "c", Outcome("c"), 2);
    assert three.order == ["b", "c"] && "a" !in three.results;
    assert Asked(ids, 4, 2) == three;
  }
}
