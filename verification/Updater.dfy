/** Signed software updates with rollback: src/updater/UpdateManager.cpp with its Installer,
    RollbackManager and SignatureValidator. File steps may fail; hash and signature are functions. */
module Updaters {
  import opened Options
  import opened Jsons
  import opened Decimals
  import opened AtomicFiles
  import opened Versions

  type Bytes = seq<bv8>

  datatype Manifest = Manifest(version: string, minHardware: string, sha256: string, size: Int64)

  datatype Package = Package(manifest: Manifest, payload: Bytes, signature: string)

  datatype Checks = Checks(sha256: Bytes -> string, verify: (string, string, string) -> bool)

  datatype Status =
    | Success
    | NotAllowed
    | FetchFailed
    | NoVendorKey
    | HashMismatch
    | BadSignature
    | Incompatible
    | TargetMissing
    | BackupFailed
    | EmptyPayload
    | InstallFailed
    | UnhealthyRolledBack
    | RollbackFailed

  datatype Event = UpdateStarted | UpdateCompleted(version: string) | UpdateFailed | RollbackTriggered

  function Canonical(m: Manifest): string {
    m.version + "\n" + m.minHardware + "\n" + m.sha256 + "\n" + Decimal(m.size)
  }

  /** SignatureValidator::verify. */
  function Verify(p: Package, vendorKey: string, checks: Checks): Status {
    if vendorKey == "" then NoVendorKey
    else if checks.sha256(p.payload) != p.manifest.sha256 then HashMismatch
    else if !checks.verify(Canonical(p.manifest), p.signature, vendorKey) then BadSignature
    else Success
  }

  /** The vendor signed this manifest and the payload is the one it names. */
  predicate Genuine(p: Package, vendorKey: string, checks: Checks) {
    && vendorKey != "" && checks.sha256(p.payload) == p.manifest.sha256
    && checks.verify(Canonical(p.manifest), p.signature, vendorKey)
  }

  predicate Compatible(m: Manifest, hardware: string) {
    m.minHardware == "" || !Less(hardware, m.minHardware)
  }

  /** Whether the test means what it says: for dotted versions it refuses exactly the older hardware
      if and only if the first component that differs is ordered alike as text and as number. */
  lemma CompatibleIff(m: Manifest, hardware: seq<nat>, minimum: seq<nat>)
    requires hardware != [] && minimum != [] && m.minHardware == Dotted(minimum)
    ensures (Compatible(m, Dotted(hardware)) <==> !Older(hardware, minimum))
       <==> FirstDifferenceAgrees(hardware, minimum)
  {
    TextOrderIff(hardware, minimum);
  }

  /** Hardware 1.10 does not satisfy a minimum of 1.9. */
  lemma TextualVersions(m: Manifest)
    requires m.minHardware == "1.9"
    ensures Dotted([1, 10]) == "1.10" && Dotted([1, 9]) == "1.9" && Older([1, 9], [1, 10])
    ensures !Compatible(m, "1.10")
  {
    DottedPair(1, 10);
    DottedPair(1, 9);
    assert Digits(10) == Digits(1) + ['0'];
    assert [1, 9][1..] == [9] && [1, 10][1..] == [10];
    assert Dotted([1, 10]) == "1.10" && Dotted([1, 9]) == "1.9";
    assert !Older([1, 10], [1, 9]);
    CompatibleIff(m, [1, 10], [1, 9]);
    TextTenNine();
  }

  lemma TextTenNine()
    ensures !FirstDifferenceAgrees([1, 10], [1, 9])
  {
    assert Digits(10) == Digits(1) + ['0'];
    assert [1, 9][1..] == [9] && [1, 10][1..] == [10];
    assert Digits(10)[..1] == "1";
    assert Less("1", "9");
  }

  /** What copy_file leaves at its destination: reply r >= 0 is success, -1 a failure before any
      byte, and -2 - n a failure after n bytes. */
  function Copied(source: Bytes, destination: Option<Bytes>, r: int): Option<Bytes> {
    if r >= 0 then Some(source)
    else if r == -1 then destination
    else if -2 - r < |source| then Some(source[..-2 - r])
    else Some(source)
  }

  /** The copy was cut short strictly inside the original, and not just where the payload ends. */
  predicate Torn(original: Bytes, payload: Bytes, r: int) {
    r < -1 && -2 - r < |original| && original[..-2 - r] != payload
  }

  /** A rollback's copy leaves the original or the payload exactly when it is not torn. */
  lemma RollbackWholeIff(original: Bytes, payload: Bytes, r: int)
    ensures Copied(original, Some(payload), r) in {Some(original), Some(payload)} <==> !Torn(original, payload, r)
  {
    if r < -1 && -2 - r < |original| {
      assert |original[..-2 - r]| != |original|;
    }
  }

  // ------------------------------------------------------------- the files

  /** The installer's steps succeed: open, write, rename. The answer to fsync is ignored. */
  predicate Installs(script: seq<int>, n: nat) {
    var loop := WriteLoop(Tail(script), n);
    n > 0 && Head(script) >= 0 && loop.ok && Head(Tail(loop.rest)) >= 0
  }

  /** The reply to that fsync. */
  function FsyncReply(script: seq<int>, n: nat): int {
    Head(WriteLoop(Tail(script), n).rest)
  }

  /** The replies left after a successful installation. */
  function AfterInstall(script: seq<int>, n: nat): seq<int> {
    Tail(Tail(WriteLoop(Tail(script), n).rest))
  }

  // ------------------------------------------------------------- crashes

  datatype Binary = Binary(contents: Bytes, synced: bool)

  /** The installed binary, and what a crash may still bring back in its place: the directory is never
      synced, so every entry a rename has replaced. */
  datatype Files = Files(target: Option<Binary>, earlier: set<Option<Binary>>)
  {
    function Seen(): Option<Bytes> {
      if target.None? then None else Some(target.value.contents)
    }
  }

  /** A file as a crash leaves it: unsynced contents may be anything. */
  predicate LeftAs(x: Option<Binary>, b: Option<Bytes>) {
    match x
    case None => b.None?
    case Some(y) => b.Some? && (y.synced ==> b.value == y.contents)
  }

  ghost predicate MayRemain(f: Files, b: Option<Bytes>) {
    exists x :: x in f.earlier + {f.target} && LeftAs(x, b)
  }

  ghost predicate WholeAfterCrash(f: Files, original: Option<Bytes>, payload: Option<Bytes>) {
    forall b :: MayRemain(f, b) ==> b == original || b == payload
  }

  /** The file is certain to be one of the two. */
  predicate Certain(x: Option<Binary>, original: Option<Bytes>, payload: Option<Bytes>) {
    match x
    case None => None in {original, payload}
    case Some(y) => y.synced && Some(y.contents) in {original, payload}
  }

  predicate AllCertain(f: Files, original: Option<Bytes>, payload: Option<Bytes>) {
    forall x :: x in f.earlier + {f.target} ==> Certain(x, original, payload)
  }

  /** Some third contents. */
  function Other(original: Option<Bytes>, payload: Option<Bytes>): (r: Bytes)
    ensures Some(r) != original && Some(r) != payload
  {
    var a := if original.Some? then original.value else [];
    var b := if payload.Some? then payload.value else [];
    assert |a + b + [0]| > |a| && |a + b + [0]| > |b|;
    a + b + [0]
  }

  lemma WholeIff(f: Files, original: Option<Bytes>, payload: Option<Bytes>)
    ensures WholeAfterCrash(f, original, payload) <==> AllCertain(f, original, payload)
  {
    if WholeAfterCrash(f, original, payload) {
      forall x | x in f.earlier + {f.target}
        ensures Certain(x, original, payload)
      {
        var b := if x.None? then None
                 else if x.value.synced then Some(x.value.contents) else Some(Other(original, payload));
        assert LeftAs(x, b);
        assert MayRemain(f, b);
      }
    }
    if AllCertain(f, original, payload) {
      forall b | MayRemain(f, b)
        ensures b == original || b == payload
      {
        var x :| x in f.earlier + {f.target} && LeftAs(x, b);
        assert Certain(x, original, payload);
      }
    }
  }

  /** After the rename: the old entry may come back, the new contents are as certain as the fsync. */
  function Installed(f: Files, payload: Bytes, flushed: bool): Files {
    Files(Some(Binary(payload, flushed)), f.earlier + {f.target})
  }

  /** After a rollback's copy into the target, which nothing syncs. */
  function Restored(f: Files, prev: Bytes, r: int): Files {
    if r == -1 then f
    else match Copied(prev, f.Seen(), r)
      case None => f
      case Some(b) => f.(target := Some(Binary(b, false)))
  }

  /** The states seen from position n on. */
  ghost function Visited(trace: seq<Files>, n: nat): set<Files> {
    set k | n <= k < |trace| :: trace[k]
  }

  lemma VisitedJoin(s: seq<Files>, t: seq<Files>, n: nat)
    requires n < |s| && s <= t
    ensures Visited(t, n) == Visited(s, n) + Visited(t, |s| - 1)
  {
    forall x | x in Visited(t, n)
      ensures x in Visited(s, n) + Visited(t, |s| - 1)
    {
      var k :| n <= k < |t| && t[k] == x;
      if k < |s| {
        assert s[k] == x;
      }
    }
    forall x | x in Visited(s, n)
      ensures x in Visited(t, n)
    {
      var k :| n <= k < |s| && s[k] == x;
      assert t[k] == x;
    }
  }

  lemma VisitedLast(s: seq<Files>, t: seq<Files>)
    requires s != [] && s <= t && |t| == |s| + 1
    ensures Visited(t, |s| - 1) == {s[|s| - 1], t[|t| - 1]}
  {
    assert t[|s| - 1] == s[|s| - 1];
  }

  lemma VisitedThree(s: seq<Files>, t: seq<Files>, n: nat, f: Files, g: Files, h: Files)
    requires n < |s| && s <= t && Visited(s, n) == {f, g} && Visited(t, |s| - 1) == {g, h}
    ensures Visited(t, n) == {f, g, h}
  {
    VisitedJoin(s, t, n);
  }

  lemma VisitedHere(s: seq<Files>)
    requires s != []
    ensures Visited(s, |s| - 1) == {s[|s| - 1]}
  {
  }

  /** The installed binary with its .prev and .new neighbours. */
  class Machine {
    var target: Option<Bytes>
    ghost var synced: bool
    ghost var earlier: set<Option<Binary>>
    var prev: Option<Bytes>
    var staged: Option<Bytes>
    var script: seq<int>
    ghost var trace: seq<Files>    // the files after every step

    ghost function Now(): Files
      reads this
    {
      Files(if target.None? then None else Some(Binary(target.value, synced)), earlier)
    }

    ghost predicate Traced()
      reads this
    {
      trace != [] && trace[|trace| - 1] == Now()
    }

    /** A machine whose binary is certain. */
    constructor (target: Option<Bytes>, script: seq<int>)
      ensures Traced() && this.target == target && this.script == script && prev == None
      ensures Now() == Files(if target.None? then None else Some(Binary(target.value, true)), {})
    {
      this.target, synced, earlier, prev, staged, this.script := target, true, {}, None, None, script;
      trace := [Files(if target.None? then None else Some(Binary(target.value, true)), {})];
    }

    method Reply() returns (r: int)
      modifies this`script
      ensures r == Head(old(script)) && script == Tail(old(script))
    {
      if script == [] {
        return -1;
      }
      r := script[0];
      script := script[1..];
    }

    method Backup() returns (status: Status)
      modifies this`prev, this`script
      ensures status == if target.None? then TargetMissing
                        else if Head(old(script)) < 0 then BackupFailed else Success
      ensures status == Success ==> prev == target
      ensures target.Some? ==> script == Tail(old(script))
    {
      if target.None? {
        return TargetMissing;
      }
      var r := Reply();
      prev := Copied(target.value, prev, r);
      return if r >= 0 then Success else BackupFailed;
    }

    /** Copies the backup over the target, which nothing syncs; a failure may leave it cut short.
        Without a backup nothing is touched. */
    method Restore() returns (ok: bool)
      requires Traced()
      modifies this`target, this`synced, this`script, this`trace
      ensures Traced() && trace == old(trace) + [Now()]
      ensures ok <==> prev.Some? && Head(old(script)) >= 0
      ensures target == if prev.Some? then Copied(prev.value, old(target), Head(old(script))) else old(target)
      ensures Now() == if prev.Some? then Restored(old(Now()), prev.value, Head(old(script))) else old(Now())
    {
      if prev.None? {
        trace := trace + [Now()];
        return false;
      }
      var reply := Reply();
      target := Copied(prev.value, target, reply);
      synced := synced && reply == -1;
      trace := trace + [Now()];
      return reply >= 0;
    }

    /** The write loop: the staged file ends up whole, or is removed. */
    method WriteStaged(payload: Bytes) returns (ok: bool)
      requires Traced() && staged == Some([])
      modifies this`staged, this`script, this`trace
      ensures Traced() && old(trace) <= trace && Visited(trace, |old(trace)| - 1) == {Now()}
      ensures Loop(ok, script) == WriteLoop(old(script), |payload|)
      ensures staged == if ok then Some(payload) else None
    {
      var done := 0;
      VisitedHere(trace);
      while done < |payload|
        invariant 0 <= done <= |payload|
        invariant staged == Some(payload[..done])
        invariant Traced() && old(trace) <= trace && Visited(trace, |old(trace)| - 1) == {Now()}
        invariant WriteLoop(script, |payload| - done) == WriteLoop(old(script), |payload|)
        decreases |script|
      {
        var n := Reply();
        if n < 0 {
          staged := None;
          return false;
        }
        if n > |payload| - done {
          n := |payload| - done;
        }
        assert payload[..done] + payload[done..done + n] == payload[..done + n];
        staged := Some(staged.value + payload[done..done + n]);
        Note();
        done := done + n;
      }
      assert payload[..done] == payload;
      return true;
    }

    /** Records the present state once more. */
    ghost method Note()
      requires Traced()
      modifies this`trace
      ensures Traced() && trace == old(trace) + [Now()]
      ensures forall n: nat :: n < |old(trace)| ==> Visited(trace, n) == Visited(old(trace), n)
    {
      ghost var was := trace;
      trace := trace + [Now()];
      forall n: nat | n < |was|
        ensures Visited(trace, n) == Visited(was, n)
      {
        VisitedJoin(was, trace, n);
        VisitedLast(was, trace);
        assert was[|was| - 1] in Visited(was, n);
      }
    }

    /** Opens the staged file and fills it. */
    method Stage(payload: Bytes) returns (ok: bool)
      requires Traced()
      modifies this`staged, this`script, this`trace
      ensures Traced() && old(trace) <= trace && Visited(trace, |old(trace)| - 1) == {Now()}
      ensures ok <==> Head(old(script)) >= 0 && WriteLoop(Tail(old(script)), |payload|).ok
      ensures ok ==> staged == Some(payload) && script == WriteLoop(Tail(old(script)), |payload|).rest
    {
      VisitedHere(trace);
      var r := Reply();
      if r < 0 {
        return false;
      }
      staged := Some([]);
      ok := WriteStaged(payload);
    }

    /** Syncs the staged file, ignoring the answer, and renames it over the target. */
    method Swap(payload: Bytes) returns (ok: bool)
      requires Traced() && staged == Some(payload)
      modifies this`target, this`synced, this`earlier, this`staged, this`script, this`trace
      ensures Traced() && old(trace) <= trace && Visited(trace, |old(trace)| - 1) == {old(Now()), Now()}
      ensures ok <==> Head(Tail(old(script))) >= 0
      ensures target == if ok then Some(payload) else old(target)
      ensures Now() == if ok then Installed(old(Now()), payload, Head(old(script)) >= 0) else old(Now())
      ensures script == Tail(Tail(old(script)))
    {
      ghost var was := trace;
      VisitedHere(trace);
      var flushed := Reply();
      var r := Reply();
      ok := r >= 0;
      if ok {
        earlier := earlier + {Now().target};
        target, synced := staged, flushed >= 0;
        trace := trace + [Now()];
        VisitedLast(was, trace);
      }
      staged := None;
    }

    /** Success puts the whole payload in place; failure leaves the target alone; no other state shows
        in between. */
    method Install(payload: Bytes) returns (status: Status)
      requires Traced()
      modifies this`target, this`synced, this`earlier, this`staged, this`script, this`trace
      ensures Traced() && old(trace) <= trace && Visited(trace, |old(trace)| - 1) == {old(Now()), Now()}
      ensures status == if payload == [] then EmptyPayload
                        else if Installs(old(script), |payload|) then Success else InstallFailed
      ensures target == if status == Success then Some(payload) else old(target)
      ensures Now() == if status == Success
                       then Installed(old(Now()), payload, FsyncReply(old(script), |payload|) >= 0) else old(Now())
      ensures status == Success ==> script == AfterInstall(old(script), |payload|)
    {
      VisitedHere(trace);
      if payload == [] {
        return EmptyPayload;
      }
      var ok := Stage(payload);
      if !ok {
        return InstallFailed;
      }
      ghost var staging := trace;
      ok := Swap(payload);
      VisitedJoin(staging, trace, |old(trace)| - 1);
      return if ok then Success else InstallFailed;
    }
  }

  /** Every state of the files that replacing the target by a payload passes through. */
  function Passes(f: Files, script: seq<int>, payload: Bytes, healthy: bool): set<Files> {
    if f.target.None? || Head(script) < 0 then {f}
    else Exchanging(f, Tail(script), f.target.value.contents, payload, healthy)
  }

  /** The same once the backup `prev` is made. */
  function Exchanging(f: Files, script: seq<int>, prev: Bytes, payload: Bytes, healthy: bool): set<Files> {
    if !Installs(script, |payload|) then {f}
    else
      var g := Installed(f, payload, FsyncReply(script, |payload|) >= 0);
      {f, g, Confirmed(g, prev, Head(AfterInstall(script, |payload|)), healthy)}
  }

  /** The files once the health of the new binary is known. */
  function Confirmed(g: Files, prev: Bytes, r: int, healthy: bool): Files {
    if healthy then g else Restored(g, prev, r)
  }

  /** The payload goes in although its fsync failed, or a rollback's copy writes into the target. */
  predicate Exposed(script: seq<int>, payload: Bytes, healthy: bool) {
    && Head(script) >= 0 && Installs(Tail(script), |payload|)
    && (FsyncReply(Tail(script), |payload|) < 0 || (!healthy && RestoreReply(script, |payload|) != -1))
  }

  ghost predicate AlwaysWhole(states: set<Files>, original: Option<Bytes>, payload: Option<Bytes>) {
    forall f :: f in states ==> WholeAfterCrash(f, original, payload)
  }

  lemma InstalledCertain(f: Files, payload: Bytes, flushed: bool, original: Option<Bytes>)
    ensures AllCertain(Installed(f, payload, flushed), original, Some(payload))
       <==> flushed && AllCertain(f, original, Some(payload))
  {
    var g := Installed(f, payload, flushed);
    assert g.earlier + {g.target} == f.earlier + {f.target} + {g.target};
    assert g.target in g.earlier + {g.target};
    assert Certain(g.target, original, Some(payload)) <==> flushed;
  }

  lemma RestoredCertain(f: Files, prev: Bytes, r: int, original: Option<Bytes>, payload: Option<Bytes>)
    requires f.target.Some?
    ensures r == -1 ==> Restored(f, prev, r) == f
    ensures r != -1 ==> !AllCertain(Restored(f, prev, r), original, payload)
  {
    var g := Restored(f, prev, r);
    assert g.target in g.earlier + {g.target};
  }

  /** A crash between any two steps of an update leaves the whole original or the whole payload if and
      only if that is certain when it begins, the payload's fsync does not fail unnoticed, and no
      rollback writes into the target. */
  lemma CrashWholeIff(f: Files, script: seq<int>, payload: Bytes, healthy: bool)
    requires f.target.Some?
    ensures AlwaysWhole(Passes(f, script, payload, healthy), f.Seen(), Some(payload))
       <==> AllCertain(f, f.Seen(), Some(payload)) && !Exposed(script, payload, healthy)
  {
    var a, b := f.Seen(), Some(payload);
    var states := Passes(f, script, payload, healthy);
    WholeIff(f, a, b);
    assert f in states;
    if Head(script) >= 0 && Installs(Tail(script), |payload|) {
      var flushed, r := FsyncReply(Tail(script), |payload|) >= 0, RestoreReply(script, |payload|);
      var g := Installed(f, payload, flushed);
      var h := Confirmed(g, f.target.value.contents, r, healthy);
      assert states == {f, g, h};
      WholeIff(g, a, b);
      WholeIff(h, a, b);
      InstalledCertain(f, payload, flushed, a);
      RestoredCertain(g, f.target.value.contents, r, a, b);
    }
  }

  // ------------------------------------------------------------- the update

  /** What the bus hears of a run: a start, a rollback if one was tried, and exactly one ending. */
  function Announced(status: Status, fetched: Option<Package>): seq<Event> {
    match status
    case NotAllowed => []
    case Success => [UpdateStarted, UpdateCompleted(if fetched.Some? then fetched.value.manifest.version else "")]
    case UnhealthyRolledBack => [UpdateStarted, RollbackTriggered, UpdateFailed]
    case RollbackFailed => [UpdateStarted, RollbackTriggered, UpdateFailed]
    case _ => [UpdateStarted, UpdateFailed]
  }

  /** The first reason to refuse a package before anything is touched. */
  function Refused(fetched: Option<Package>, hardware: string, vendorKey: string, checks: Checks): Status {
    if fetched.None? then FetchFailed
    else
      var verdict := Verify(fetched.value, vendorKey, checks);
      if verdict != Success then verdict
      else if !Compatible(fetched.value.manifest, hardware) then Incompatible
      else Success
  }

  /** The reply to a rollback's copy: after the backup's and the installer's. */
  function RestoreReply(script: seq<int>, n: nat): int {
    Head(AfterInstall(Tail(script), n))
  }

  /** How replacing the target by a payload ends. */
  function Ending(target: Option<Bytes>, script: seq<int>, payload: Bytes, healthy: bool): Status {
    if target.None? then TargetMissing
    else if Head(script) < 0 then BackupFailed
    else if payload == [] then EmptyPayload
    else if !Installs(Tail(script), |payload|) then InstallFailed
    else Verdict(RestoreReply(script, |payload|), healthy)
  }

  /** How an installed payload ends; r is the reply to the rollback's copy. */
  function Verdict(r: int, healthy: bool): Status {
    if healthy then Success else if r >= 0 then UnhealthyRolledBack else RollbackFailed
  }

  /** The target that ending leaves. */
  function Left(target: Option<Bytes>, script: seq<int>, payload: Bytes, ending: Status): Option<Bytes> {
    match ending
    case Success => Some(payload)
    case RollbackFailed =>
      if target.None? then None else Copied(target.value, Some(payload), RestoreReply(script, |payload|))
    case _ => target
  }

  /** What an ending says of the target it leaves. */
  lemma EndingFacts(target: Option<Bytes>, script: seq<int>, payload: Bytes, healthy: bool)
    ensures var ending := Ending(target, script, payload, healthy);
            var left := Left(target, script, payload, ending);
            && (ending == Success ==> left == Some(payload) && healthy)
            && (ending != Success && ending != RollbackFailed ==> left == target)
            && (ending in {UnhealthyRolledBack, RollbackFailed} ==>
                  target.Some? && (left in {target, Some(payload)} <==>
                                   !Torn(target.value, payload, RestoreReply(script, |payload|))))
  {
    if target.Some? {
      RollbackWholeIff(target.value, payload, RestoreReply(script, |payload|));
    }
  }

  class UpdateManager {
    const machine: Machine
    const vendorKey: string
    const checks: Checks
    var updatesAllowed: bool
    var events: seq<Event>

    constructor (machine: Machine, vendorKey: string, checks: Checks)
      ensures this.machine == machine && this.vendorKey == vendorKey && this.checks == checks
      ensures updatesAllowed && events == []
    {
      this.machine, this.vendorKey, this.checks := machine, vendorKey, checks;
      updatesAllowed, events := true, [];
    }

    method Fail(s: Status) returns (status: Status)
      modifies this`events
      ensures status == s && events == old(events) + [UpdateFailed]
    {
      events := events + [UpdateFailed];
      return s;
    }

    /** Steps 4 to 9 for an accepted package: back up, install, check, and roll back or confirm. */
    method Replace(p: Package, healthy: bool) returns (status: Status)
      requires machine.Traced()
      modifies this`events, machine
      ensures machine.Traced() && old(machine.trace) <= machine.trace
      ensures Visited(machine.trace, |old(machine.trace)| - 1)
           == Passes(old(machine.Now()), old(machine.script), p.payload, healthy)
      ensures status == Ending(old(machine.target), old(machine.script), p.payload, healthy)
      ensures machine.target == Left(old(machine.target), old(machine.script), p.payload, status)
      ensures status == Success ==>
                machine.Now() ==
                Installed(old(machine.Now()), p.payload, FsyncReply(Tail(old(machine.script)), |p.payload|) >= 0)
      ensures events == old(events) + Announced(status, Some(p))[1..]
    {
      VisitedHere(machine.trace);
      var b := machine.Backup();
      if b != Success {
        status := Fail(b);
        return;
      }
      status := Exchange(p, healthy);
    }

    /** Steps 5 to 9, with the backup made. */
    method Exchange(p: Package, healthy: bool) returns (status: Status)
      requires machine.Traced() && machine.target.Some? && machine.prev == machine.target
      modifies this`events, machine
      ensures machine.Traced() && old(machine.trace) <= machine.trace
      ensures Visited(machine.trace, |old(machine.trace)| - 1)
           == Exchanging(old(machine.Now()), old(machine.script), old(machine.target).value, p.payload, healthy)
      ensures status == if p.payload == [] then EmptyPayload
                        else if !Installs(old(machine.script), |p.payload|) then InstallFailed
                        else Verdict(Head(AfterInstall(old(machine.script), |p.payload|)), healthy)
      ensures machine.target == if status in {EmptyPayload, InstallFailed} then old(machine.target)
                                else if healthy then Some(p.payload)
                                else Copied(old(machine.target).value, Some(p.payload),
                                            Head(AfterInstall(old(machine.script), |p.payload|)))
      ensures status == Success ==>
                machine.Now() ==
                Installed(old(machine.Now()), p.payload, FsyncReply(old(machine.script), |p.payload|) >= 0)
      ensures events == old(events) + Announced(status, Some(p))[1..]
    {
      ghost var before := machine.Now();
      var i := machine.Install(p.payload);
      if i != Success {
        status := Fail(i);
        return;
      }
      ghost var installed, between := machine.trace, machine.Now();
      status := Confirm(p, healthy);
      VisitedThree(installed, machine.trace, |old(machine.trace)| - 1, before, between, machine.Now());
    }

    /** Steps 6 to 9: keep a healthy target, roll an unhealthy one back. */
    method Confirm(p: Package, healthy: bool) returns (status: Status)
      requires machine.Traced() && machine.prev.Some?
      modifies this`events, machine
      ensures machine.Traced() && old(machine.trace) <= machine.trace
      ensures machine.Now() ==
              Confirmed(old(machine.Now()), old(machine.prev).value, Head(old(machine.script)), healthy)
      ensures Visited(machine.trace, |old(machine.trace)| - 1) == {old(machine.Now()), machine.Now()}
      ensures status == Verdict(Head(old(machine.script)), healthy)
      ensures machine.target == if healthy then old(machine.target)
                                else Copied(old(machine.prev).value, old(machine.target), Head(old(machine.script)))
      ensures events == old(events) + Announced(status, Some(p))[1..]
    {
      VisitedHere(machine.trace);
      if healthy {
        events := events + [UpdateCompleted(p.manifest.version)];
        return Success;
      }
      events := events + [RollbackTriggered];
      var ok := machine.Restore();
      VisitedLast(old(machine.trace), machine.trace);
      status := Fail(if ok then UnhealthyRolledBack else RollbackFailed);
    }

    /** `fetched` is what the source delivers and `healthy` what the health check answers. The first
        failed check decides the error and touches nothing; a package that is not genuine never shows,
        not even for a moment. Success means the whole payload is installed and healthy; every error
        but a failed rollback means the original is in place; and after a rollback the target is one of
        the two if and only if the copy was not torn. */
    method RunUpdate(fetched: Option<Package>, hardware: string, healthy: bool) returns (status: Status)
      requires machine.Traced()
      modifies this, machine
      ensures machine.Traced() && old(machine.trace) <= machine.trace
      ensures Visited(machine.trace, |old(machine.trace)| - 1) ==
              if !updatesAllowed || Refused(fetched, hardware, vendorKey, checks) != Success
              then {old(machine.Now())}
              else Passes(old(machine.Now()), old(machine.script), fetched.value.payload, healthy)
      ensures status == if !updatesAllowed then NotAllowed
                        else if Refused(fetched, hardware, vendorKey, checks) != Success
                        then Refused(fetched, hardware, vendorKey, checks)
                        else Ending(old(machine.target), old(machine.script), fetched.value.payload, healthy)
      ensures status == Success ==>
                && fetched.Some? && machine.target == Some(fetched.value.payload) && healthy
                && Genuine(fetched.value, vendorKey, checks) && Compatible(fetched.value.manifest, hardware)
      ensures status != Success && status != RollbackFailed ==> machine.target == old(machine.target)
      ensures status in {UnhealthyRolledBack, RollbackFailed} ==>
                fetched.Some? && old(machine.target).Some? &&
                (machine.target in {old(machine.target), Some(fetched.value.payload)} <==>
                 !Torn(old(machine.target).value, fetched.value.payload,
                       RestoreReply(old(machine.script), |fetched.value.payload|)))
      ensures status == RollbackFailed ==>
                fetched.Some? && machine.target ==
                Left(old(machine.target), old(machine.script), fetched.value.payload, status)
      ensures status == Success ==>
                fetched.Some? && machine.Now() ==
                Installed(old(machine.Now()), fetched.value.payload,
                          FsyncReply(Tail(old(machine.script)), |fetched.value.payload|) >= 0)
      ensures fetched.None? || !Genuine(fetched.value, vendorKey, checks) ==>
                machine.target == old(machine.target) && machine.trace == old(machine.trace)
      ensures updatesAllowed == old(updatesAllowed)
      ensures events == old(events) + Announced(status, fetched)
    {
      VisitedHere(machine.trace);
      if !updatesAllowed {
        return NotAllowed;
      }
      events := events + [UpdateStarted];
      if fetched.None? {
        status := Fail(FetchFailed);
        return;
      }
      var v := Verify(fetched.value, vendorKey, checks);
      if v != Success {
        status := Fail(v);
        return;
      }
      if !Compatible(fetched.value.manifest, hardware) {
        status := Fail(Incompatible);
        return;
      }
      status := Replace(fetched.value, healthy);
      EndingFacts(old(machine.target), old(machine.script), fetched.value.payload, healthy);
    }
  }

  /** With every system call succeeding, an accepted package is installed, or rolled back if it turns
      out unhealthy. */
  lemma WillingEnding(target: Bytes, script: seq<int>, payload: Bytes, healthy: bool)
    requires payload != [] && Willing(script, |payload| + 5)
    ensures Ending(Some(target), script, payload, healthy) == if healthy then Success else UnhealthyRolledBack
  {
    var n := |payload|;
    assert Willing(Tail(script), n + 4) && Willing(Tail(Tail(script)), n + 3);
    WillingLoop(Tail(Tail(script)), n, 3);
  }

  /** A package the checks accept: the signature of any manifest is taken as valid here. */
  function SamplePackage(payload: Bytes, checks: Checks): Package {
    Package(Manifest("2.0", "", checks.sha256(payload), 1), payload, "signature")
  }

  /** A torn rollback, from a verified package and an unhealthy start: the copy fails after one byte and
      the target is neither binary. */
  method TornRollback(checks: Checks) returns (status: Status, target: Option<Bytes>)
    requires forall m, s, k :: checks.verify(m, s, k)
    ensures status == RollbackFailed && target == Some([1])
    ensures target !in {Some([1, 2]), Some([9])}
  {
    var original: Bytes, payload: Bytes := [1, 2], [9];
    var machine := new Machine(Some(original), [1, 1, 1, 1, 1, -3]);
    var manager := new UpdateManager(machine, "vendor", checks);
    TornScript(machine.script);
    status := manager.RunUpdate(Some(SamplePackage(payload, checks)), "1.0", false);
    assert original[..1] == [1];
    target := machine.target;
  }

  lemma TornScript(script: seq<int>)
    requires script == [1, 1, 1, 1, 1, -3]
    ensures Installs(Tail(script), 1) && RestoreReply(script, 1) == -3
  {
    var rest: seq<int> := [1, 1, -3];
    assert Tail(Tail(script)) == [1] + rest;
    assert WriteLoop([1] + rest, 1) == WriteLoop(rest, 0);
  }

  /** A healthy update whose fsync fails: it reports success, and a crash afterwards may leave bytes
      that are neither binary. */
  method UnflushedUpdate(checks: Checks) returns (status: Status, machine: Machine)
    requires forall m, s, k :: checks.verify(m, s, k)
    ensures status == Success && machine.target == Some([9])
    ensures MayRemain(machine.Now(), Some([7, 7])) && [7, 7] != [1, 2]
  {
    var original: Bytes, payload: Bytes := [1, 2], [9];
    machine := new Machine(Some(original), [1, 1, 1, -1, 1]);
    var manager := new UpdateManager(machine, "vendor", checks);
    UnflushedScript(machine.script);
    status := manager.RunUpdate(Some(SamplePackage(payload, checks)), "1.0", true);
    ghost var x := machine.Now().target;
    assert x == Some(Binary(payload, false));
    assert LeftAs(x, Some([7, 7]));
  }

  lemma UnflushedScript(script: seq<int>)
    requires script == [1, 1, 1, -1, 1]
    ensures Installs(Tail(script), 1) && FsyncReply(Tail(script), 1) == -1
  {
    var rest: seq<int> := [-1, 1];
    assert Tail(Tail(script)) == [1] + rest;
    assert WriteLoop([1] + rest, 1) == WriteLoop(rest, 0);
  }
}
