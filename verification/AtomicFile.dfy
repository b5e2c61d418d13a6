/** The file steps of src/core/AtomicFile.cpp, each of which may fail, with a crash possible between
    any two. A directory entry replaced by a rename may come back after a crash until the directory
    has been synced; file contents are only certain once synced. */
module AtomicFiles {
  import opened Options

  datatype File = File(text: string, synced: bool)

  /** The config file's directory. `earlier` holds what a crash may still bring back as primary. */
  datatype Disk = Disk(primary: Option<File>, earlier: set<Option<File>>, tmp: Option<File>,
                       bak: Option<File>, corrupt: Option<File>)

  /** A file as a crash leaves it: unsynced contents may be anything. */
  predicate Survives(before: Option<File>, after: Option<File>) {
    match before
    case None => after.None?
    case Some(f) => after.Some? && after.value.synced && (f.synced ==> after.value.text == f.text)
  }

  /** Everything but the primary is at the mercy of the crash. */
  ghost predicate CrashesTo(d: Disk, e: Disk) {
    e.earlier == {} && exists f :: f in d.earlier + {d.primary} && Survives(f, e.primary)
  }

  /** The only disks a write of `text` over d passes through, as far as the primary goes. */
  predicate During(s: Disk, d: Disk, text: string) {
    || (s.primary == d.primary && s.earlier == d.earlier)
    || (s.primary == Some(File(text, true)) && s.earlier <= d.earlier + {d.primary})
  }

  /** Every disk traced from position n on is one of those. */
  ghost predicate AllDuring(trace: seq<Disk>, n: nat, d: Disk, text: string) {
    n <= |trace| && forall k :: n <= k < |trace| ==> During(trace[k], d, text)
  }

  function Head(script: seq<int>): int {
    if script == [] then -1 else script[0]
  }

  function Tail(script: seq<int>): seq<int> {
    if script == [] then [] else script[1..]
  }

  /** The next n steps succeed, and a write among them makes progress. */
  predicate Willing(script: seq<int>, n: nat) {
    n <= |script| && forall k :: 0 <= k < n ==> script[k] > 0
  }

  /** How a write loop of n bytes ends, and the replies it leaves: each reply takes some bytes or fails. */
  datatype Loop = Loop(ok: bool, rest: seq<int>)

  function WriteLoop(script: seq<int>, n: nat): Loop
    decreases |script|
  {
    if n == 0 then Loop(true, script)
    else if Head(script) < 0 then Loop(false, Tail(script))
    else WriteLoop(Tail(script), if Head(script) > n then 0 else n - Head(script))
  }

  datatype Outcome = Failed | Undurable | Durable

  /** How an atomic write ends: open, write, sync and rename must succeed; then the directory sync
      decides whether the new entry is certain. */
  function WriteOutcome(script: seq<int>, n: nat): Outcome {
    if Head(script) < 0 then Failed
    else
      var loop := WriteLoop(Tail(script), n);
      if !loop.ok || Head(loop.rest) < 0 || Head(Tail(loop.rest)) < 0 then Failed
      else if Head(Tail(Tail(loop.rest))) < 0 then Undurable else Durable
  }

  lemma {:induction false} WillingLoop(script: seq<int>, n: nat, more: nat)
    requires Willing(script, n + more)
    ensures WriteLoop(script, n).ok && Willing(WriteLoop(script, n).rest, more)
    decreases n
  {
    if n > 0 {
      var left := if Head(script) > n then 0 else n - Head(script);
      assert Willing(Tail(script), left + more);
      WillingLoop(Tail(script), left, more);
    }
  }

  /** When every system call succeeds the write is durable. */
  lemma WillingIsDurable(script: seq<int>, n: nat)
    requires Willing(script, n + 4)
    ensures WriteOutcome(script, n) == Durable
  {
    assert Willing(Tail(script), n + 3);
    WillingLoop(Tail(script), n, 3);
  }

  /** What a copy of `text` leaves in the backup: reply r >= 0 is success, -1 a failure before any byte,
      and -2 - n a failure after n bytes. */
  function BackupAfter(text: string, bak: Option<File>, r: int): Option<File> {
    if r == -1 then bak else Some(File(if r < -1 && -2 - r < |text| then text[..-2 - r] else text, false))
  }

  /** The operating system: replies come from `script`, in order, and are failures once it is used
      up. `trace` records the disk after every step. */
  class FileSystem {
    var disk: Disk
    var script: seq<int>
    ghost var trace: seq<Disk>

    constructor (disk: Disk, script: seq<int>)
      ensures this.disk == disk && this.script == script && trace == [disk]
    {
      this.disk, this.script, trace := disk, script, [disk];
    }

    method Reply() returns (r: int)
      modifies this`script
      ensures r == Head(old(script)) && script == Tail(old(script))
    {
      if script == [] {
        return -1;
      }
      r := script[0];
      script := script[1..];
    }

    method OpenTmp() returns (ok: bool)
      modifies this
      ensures ok == (Head(old(script)) >= 0) && script == Tail(old(script))
      ensures disk == if ok then old(disk).(tmp := Some(File("", false))) else old(disk)
      ensures trace == old(trace) + [disk]
    {
      var r := Reply();
      ok := r >= 0;
      if ok {
        disk := disk.(tmp := Some(File("", false)));
      }
      trace := trace + [disk];
    }

    /** write(2): appends some first part of `rest`, or fails. */
    method WriteTmp(rest: string) returns (n: int)
      requires disk.tmp.Some? && rest != ""
      modifies this
      ensures n == (if Head(old(script)) > |rest| then |rest| else Head(old(script)))
      ensures script == Tail(old(script))
      ensures disk == if n < 0 then old(disk)
                      else old(disk).(tmp := Some(File(old(disk).tmp.value.text + rest[..n], false)))
      ensures trace == old(trace) + [disk]
    {
      n := Reply();
      if n > |rest| {
        n := |rest|;
      }
      if n >= 0 {
        disk := disk.(tmp := Some(File(disk.tmp.value.text + rest[..n], false)));
      }
      trace := trace + [disk];
    }

    method SyncTmp() returns (ok: bool)
      requires disk.tmp.Some?
      modifies this
      ensures ok == (Head(old(script)) >= 0) && script == Tail(old(script))
      ensures disk == if ok then old(disk).(tmp := Some(File(old(disk).tmp.value.text, true))) else old(disk)
      ensures trace == old(trace) + [disk]
    {
      var r := Reply();
      ok := r >= 0;
      if ok {
        disk := disk.(tmp := Some(disk.tmp.value.(synced := true)));
      }
      trace := trace + [disk];
    }

    method UnlinkTmp()
      modifies this
      ensures script == Tail(old(script))
      ensures disk == old(disk).(tmp := disk.tmp) && trace == old(trace) + [disk]
    {
      var r := Reply();
      if r >= 0 {
        disk := disk.(tmp := None);
      }
      trace := trace + [disk];
    }

    /** rename(2) of the temporary over the primary. */
    method RenameTmp() returns (ok: bool)
      modifies this
      ensures ok == (Head(old(script)) >= 0) && script == Tail(old(script))
      ensures disk == if ok then old(disk).(primary := old(disk).tmp, tmp := None,
                                            earlier := old(disk).earlier + {old(disk).primary})
                      else old(disk)
      ensures trace == old(trace) + [disk]
    {
      var r := Reply();
      ok := r >= 0;
      if ok {
        disk := disk.(primary := disk.tmp, tmp := None, earlier := disk.earlier + {disk.primary});
      }
      trace := trace + [disk];
    }

    method SyncDirectory()
      modifies this
      ensures script == Tail(old(script))
      ensures disk == if Head(old(script)) >= 0 then old(disk).(earlier := {}) else old(disk)
      ensures trace == old(trace) + [disk]
    {
      var r := Reply();
      if r >= 0 {
        disk := disk.(earlier := {});
      }
      trace := trace + [disk];
    }

    /** std::filesystem::copy_file to the backup, which a failure may leave cut short. */
    method CopyToBackup()
      requires disk.primary.Some?
      modifies this
      ensures script == Tail(old(script))
      ensures disk == old(disk).(bak := BackupAfter(old(disk).primary.value.text, old(disk).bak, Head(old(script))))
      ensures trace == old(trace) + [disk]
    {
      var r := Reply();
      var text := disk.primary.value.text;
      if r >= 0 {
        disk := disk.(bak := Some(File(text, false)));
      } else if r < -1 {
        disk := disk.(bak := Some(File(if -2 - r < |text| then text[..-2 - r] else text, false)));
      }
      trace := trace + [disk];
    }

    method SetCorruptAside() returns (ok: bool)
      modifies this
      ensures ok == (Head(old(script)) >= 0) && script == Tail(old(script))
      ensures disk == if ok then old(disk).(primary := None, corrupt := old(disk).primary,
                                            earlier := old(disk).earlier + {old(disk).primary})
                      else old(disk)
      ensures trace == old(trace) + [disk]
    {
      var r := Reply();
      ok := r >= 0;
      if ok {
        disk := disk.(primary := None, corrupt := disk.primary, earlier := disk.earlier + {disk.primary});
      }
      trace := trace + [disk];
    }

    /** The write loop: d is the disk before the temporary was opened. */
    method WriteAll(text: string, ghost d: Disk) returns (ok: bool)
      requires disk == d.(tmp := Some(File("", false)))
      modifies this
      ensures Loop(ok, script) == WriteLoop(old(script), |text|)
      ensures disk == d.(tmp := disk.tmp) && (ok ==> disk.tmp == Some(File(text, false)))
      ensures old(trace) <= trace && AllDuring(trace, |old(trace)|, d, text)
    {
      var done := 0;
      while done < |text|
        invariant 0 <= done <= |text|
        invariant disk == d.(tmp := Some(File(text[..done], false)))
        invariant old(trace) <= trace && AllDuring(trace, |old(trace)|, d, text)
        invariant WriteLoop(script, |text| - done) == WriteLoop(old(script), |text|)
        decreases |script|
      {
        var n := WriteTmp(text[done..]);
        if n < 0 {
          return false;
        }
        assert text[..done] + text[done..][..n] == text[..done + n];
        done := done + n;
      }
      assert text[..done] == text;
      return true;
    }

    /** Success leaves the whole text, synced; failure leaves the primary as it was; and no disk on the
        way shows anything else. */
    method AtomicWriteFile(text: string) returns (ok: bool)
      modifies this
      ensures ok <==> WriteOutcome(old(script), |text|) != Failed
      ensures disk.primary == if ok then Some(File(text, true)) else old(disk).primary
      ensures disk.earlier == match WriteOutcome(old(script), |text|)
                              case Failed => old(disk).earlier
                              case Undurable => old(disk).earlier + {old(disk).primary}
                              case Durable => {}
      ensures disk.bak == old(disk).bak && disk.corrupt == old(disk).corrupt
      ensures During(disk, old(disk), text)
      ensures old(trace) <= trace && AllDuring(trace, |old(trace)|, old(disk), text)
    {
      ok := OpenTmp();
      if !ok {
        return;
      }
      ok := WriteAll(text, old(disk));
      if !ok {
        UnlinkTmp();
        return;
      }
      ok := Commit(text, old(disk));
    }

    /** Sync, rename, and sync the directory; d is the disk before the temporary was opened. */
    method Commit(text: string, ghost d: Disk) returns (ok: bool)
      requires disk == d.(tmp := Some(File(text, false)))
      modifies this
      ensures ok <==> Head(old(script)) >= 0 && Head(Tail(old(script))) >= 0
      ensures disk.bak == d.bak && disk.corrupt == d.corrupt
      ensures disk.primary == if ok then Some(File(text, true)) else d.primary
      ensures disk.earlier == if !ok then d.earlier
                              else if Head(Tail(Tail(old(script)))) < 0 then d.earlier + {d.primary} else {}
      ensures old(trace) <= trace && AllDuring(trace, |old(trace)|, d, text)
    {
      ok := SyncTmp();
      if !ok {
        UnlinkTmp();
        return;
      }
      ok := RenameTmp();
      if !ok {
        UnlinkTmp();
        return;
      }
      SyncDirectory();
    }
  }
}
