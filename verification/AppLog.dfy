/** The app log and its rotation (agent/service.go). Any file operation may fail and any
    write may be short: which do is the `Faults` of a call. */
module AppLog {
  import opened Transcript
  import opened LineWriter

  const LOG_MAX_SIZE := 10 * 1024 * 1024

  /** `Closed`: no file, writes are discarded. `Live`: open on app.log. `Dead`: a file that
      was closed and not replaced, so that writing to it fails. */
  datatype Handle = Closed | Live | Dead

  /** `takes` is how many bytes a write to the file takes at most. */
  datatype Faults = Faults(renames: bool, opens: bool, takes: nat)

  /** `current` is app.log, if it exists, `rotated` is app.log.old, and `accepted` everything
      the files ever took, oldest first. */
  datatype Log = Log(handle: Handle, size: nat, current: Option<Bytes>, rotated: Bytes, accepted: Bytes) {
    function Content(): Bytes { if current.Some? then current.value else [] }

    function Retained(): Bytes { rotated + Content() }

    function Rotated(): Log { this.(rotated := Content(), current := None) }

    /** The file opened, created if need be. */
    function Attached(): Log { this.(handle := Live, size := |Content()|, current := Some(Content())) }

    function Opened(f: Faults): Log {
      var l := if |Content()| > LOG_MAX_SIZE && f.renames then Rotated() else this;
      if f.opens then l.Attached() else l
    }

    function Appended(p: Bytes, f: Faults): Log {
      if !handle.Live? then this
      else
        var n := if f.takes < |p| then f.takes else |p|;
        this.(size := size + n, current := Some(Content() + p[..n]), accepted := accepted + p[..n])
    }

    function Written(p: Bytes, f: Faults): Log {
      if handle.Closed? then this
      else if size + |p| > LOG_MAX_SIZE then
        (if current.None? || !f.renames then this.(handle := Dead)
         else if !f.opens then Rotated().(handle := Dead)
         else Rotated().Attached().Appended(p, f))
      else Appended(p, f)
    }

    ghost predicate Sound() {
      && (handle.Live? ==> current.Some? && size == |current.value|)
      && EndsWith(accepted, Retained())
    }
  }

  predicate EndsWith(s: Bytes, t: Bytes) { |t| <= |s| && s[|s| - |t|..] == t }

  predicate Flawless(f: Faults, p: Bytes) { f.renames && f.opens && f.takes >= |p| }

  // ---- The source's object ---------------------------------------------------------------

  class AppLogFile {
    var handle: Handle
    var size: nat
    var current: Option<Bytes>
    var rotated: Bytes
    ghost var accepted: Bytes

    ghost function Abs(): Log
      reads this
    {
      Log(handle, size, current, rotated, accepted)
    }

    /** The log object before `open`, over whatever an earlier agent left on disk. */
    constructor (current: Option<Bytes>, rotated: Bytes)
      ensures Abs() == Log(Closed, 0, current, rotated, rotated + (if current.Some? then current.value else []))
      ensures Abs().Sound()
    {
      handle, size, this.current, this.rotated := Closed, 0, current, rotated;
      accepted := rotated + (if current.Some? then current.value else []);
    }

    /** Attaches to the log file, rotating first if it is already too big. Never called on a
        live log: a rotation has closed the file, and a restart makes a new log object. */
    method Open(f: Faults) returns (ok: bool)
      requires !handle.Live?
      modifies this`handle, this`size, this`current, this`rotated
      ensures ok == f.opens && Abs() == old(Abs()).Opened(f)
    {
      if current.Some? && |current.value| > LOG_MAX_SIZE {
        if f.renames {
          rotated, current := current.value, None;
        }
      }
      if !f.opens { return false; }
      if current.None? { current := Some([]); }
      handle, size := Live, |current.value|;
      return true;
    }

    method Write(p: Bytes, f: Faults) returns (n: nat, ok: bool)
      requires Abs().Sound()
      modifies this
      ensures Abs() == old(Abs()).Written(p, f) && Abs().Sound()
      ensures n <= |p| && (ok <==> n == |p| && !handle.Dead?)
      ensures accepted == if old(handle).Closed? then old(accepted) else old(accepted) + p[..n]
      ensures old(handle).Live? && Flawless(f, p) ==> n == |p| && ok
    {
      WrittenSound(Abs(), p, f);
      if handle.Closed? {
        return |p|, true;
      }
      if size + |p| > LOG_MAX_SIZE {
        handle := Dead;
        if current.None? || !f.renames {
          return 0, false;
        }
        rotated, current := current.value, None;
        var reopened := Open(f);
        if !reopened {
          return 0, false;
        }
      }
      if handle.Dead? {
        return 0, false;
      }
      n := if f.takes < |p| then f.takes else |p|;
      current := Some(current.value + p[..n]);
      accepted := accepted + p[..n];
      size := size + n;
      ok := n == |p|;
    }

    /** Releases the file; further writes are discarded. */
    method Close()
      modifies this`handle
      ensures Abs() == old(Abs()).(handle := Closed)
    {
      handle := Closed;
    }
  }

  // ---- What every operation keeps ------------------------------------------------------------

  lemma SuffixOfSuffix(s: Bytes, t: Bytes, u: Bytes)
    requires EndsWith(s, t) && EndsWith(t, u)
    ensures EndsWith(s, u)
  {
    assert s[|s| - |u|..] == s[|s| - |t|..][|t| - |u|..];
  }

  lemma SuffixAppend(s: Bytes, t: Bytes, p: Bytes)
    requires EndsWith(s, t)
    ensures EndsWith(s + p, t + p)
  {
    assert (s + p)[|s| - |t|..] == s[|s| - |t|..] + p;
  }

  /** Rotating drops the oldest of the retained bytes and nothing else. */
  lemma RotatedSound(l: Log)
    requires EndsWith(l.accepted, l.Retained())
    ensures EndsWith(l.accepted, l.Rotated().Retained())
  {
    assert l.Rotated().Retained() == l.Content();
    assert l.Retained()[|l.rotated|..] == l.Content();
    SuffixOfSuffix(l.accepted, l.Retained(), l.Content());
  }

  lemma OpenedSound(l: Log, f: Faults)
    requires l.Sound() && !l.handle.Live?
    ensures l.Opened(f).Sound()
  {
    RotatedSound(l);
  }

  lemma AppendedSound(l: Log, p: Bytes, f: Faults)
    requires l.Sound()
    ensures l.Appended(p, f).Sound()
  {
    if l.handle.Live? {
      var n := if f.takes < |p| then f.takes else |p|;
      SuffixAppend(l.accepted, l.Retained(), p[..n]);
      Assoc(l.rotated, l.Content(), p[..n]);
    }
  }

  lemma WrittenSound(l: Log, p: Bytes, f: Faults)
    requires l.Sound()
    ensures l.Written(p, f).Sound()
  {
    RotatedSound(l);
    AppendedSound(l, p, f);
    if l.current.Some? {
      assert l.Rotated().Attached().Retained() == l.Rotated().Retained();
      AppendedSound(l.Rotated().Attached(), p, f);
    }
  }

  // ---- Whole runs ----------------------------------------------------------------------------------

  /** A reopen closes the log and attaches a new log object to the same files. */
  datatype Op = Reopen(f: Faults) | Write(p: Bytes, g: Faults) | Close

  function Apply(l: Log, op: Op): Log {
    match op
    case Reopen(f) => l.(handle := Closed).Opened(f)
    case Write(p, g) => l.Written(p, g)
    case Close => l.(handle := Closed)
  }

  function RunFrom(l: Log, ops: seq<Op>): Log
    decreases |ops|
  {
    if ops == [] then l else RunFrom(Apply(l, ops[0]), ops[1..])
  }

  lemma ApplySound(l: Log, op: Op)
    requires l.Sound()
    ensures Apply(l, op).Sound()
  {
    match op
    case Reopen(f) => OpenedSound(l.(handle := Closed), f);
    case Write(p, g) => WrittenSound(l, p, g);
    case Close =>
  }

  /** For every run of opens, writes and closes, failing or not: the old file followed by the
      current one is always the newest part of everything the log has accepted, and the
      recorded size of an open log is its file's length. */
  lemma {:induction false} EveryRunSound(l: Log, ops: seq<Op>)
    requires l.Sound()
    ensures RunFrom(l, ops).Sound()
    decreases |ops|
  {
    if ops != [] {
      ApplySound(l, ops[0]);
      EveryRunSound(Apply(l, ops[0]), ops[1..]);
    }
  }

  /** A live log takes a write whole when no operation fails, rotating or not, and stays live. */
  lemma FlawlessTaken(l: Log, p: Bytes, f: Faults)
    requires l.Sound() && l.handle.Live? && Flawless(f, p)
    ensures l.Written(p, f).accepted == l.accepted + p && l.Written(p, f).handle.Live?
    ensures EndsWith(l.Written(p, f).Content(), p)
    ensures l.size + |p| <= LOG_MAX_SIZE ==> l.Written(p, f).Content() == l.Content() + p
    ensures l.size + |p| > LOG_MAX_SIZE ==> l.Written(p, f).rotated == l.Content() && l.Written(p, f).Content() == p
  {
    assert p[..|p|] == p;
  }

  /** A file that is opened successfully is at most as large as the cap; a smaller one is left as
      it is. */
  lemma OpenBound(l: Log, f: Faults)
    requires f.renames && f.opens
    ensures l.Opened(f).handle.Live? && l.Opened(f).size == |l.Opened(f).Content()| <= LOG_MAX_SIZE
    ensures |l.Content()| <= LOG_MAX_SIZE ==> l.Opened(f).Content() == l.Content() && l.Opened(f).rotated == l.rotated
    ensures |l.Content()| > LOG_MAX_SIZE ==> l.Opened(f).Content() == [] && l.Opened(f).rotated == l.Content()
  {
  }

  /** Once closed, a log discards whatever is written and leaves its files alone. */
  lemma {:induction false} ClosedDiscards(l: Log, writes: seq<Op>)
    requires forall i :: 0 <= i < |writes| ==> writes[i].Write?
    ensures var r := RunFrom(Apply(l, Close), writes);
            && r.handle.Closed? && r.current == l.current && r.rotated == l.rotated && r.accepted == l.accepted
    decreases |writes|
  {
    if writes != [] {
      assert Apply(Apply(l, Close), writes[0]) == Apply(l, Close);
      ClosedDiscards(l, writes[1..]);
    }
  }

  /** No write leaves a live file larger than the cap, except one that is larger itself. */
  lemma WriteBound(l: Log, p: Bytes, f: Faults)
    requires l.Sound()
    ensures l.Written(p, f).handle.Live? ==>
              l.Written(p, f).size <= if |p| > LOG_MAX_SIZE then |p| else LOG_MAX_SIZE
  {
  }

  /** Either nothing has been dropped yet or more than the cap is still there. */
  predicate KeepsRecent(l: Log) { |l.Retained()| == |l.accepted| || |l.Retained()| > LOG_MAX_SIZE }

  predicate FlawlessOp(op: Op) {
    match op
    case Reopen(f) => f.renames && f.opens
    case Write(p, g) => Flawless(g, p)
    case Close => true
  }

  lemma WrittenKeepsRecent(l: Log, p: Bytes, f: Faults)
    requires l.Sound() && !l.handle.Dead? && KeepsRecent(l) && Flawless(f, p)
    ensures KeepsRecent(l.Written(p, f)) && !l.Written(p, f).handle.Dead?
  {
    assert p[..|p|] == p;
  }

  /** With successful file operations, rotation never leaves less than the last 10 MiB. */
  lemma {:induction false} RecentOutputKept(l: Log, ops: seq<Op>)
    requires l.Sound() && !l.handle.Dead? && KeepsRecent(l)
    requires forall i :: 0 <= i < |ops| ==> FlawlessOp(ops[i])
    ensures KeepsRecent(RunFrom(l, ops)) && !RunFrom(l, ops).handle.Dead?
    decreases |ops|
  {
    if ops != [] {
      ApplySound(l, ops[0]);
      assert FlawlessOp(ops[0]);
      ApplyKeepsRecent(l, ops[0]);
      RecentOutputKept(Apply(l, ops[0]), ops[1..]);
    }
  }

  lemma ApplyKeepsRecent(l: Log, op: Op)
    requires l.Sound() && !l.handle.Dead? && KeepsRecent(l) && FlawlessOp(op)
    ensures KeepsRecent(Apply(l, op)) && !Apply(l, op).handle.Dead?
  {
    match op
    case Reopen(f) => ReopenKeepsRecent(l.(handle := Closed), f);
    case Write(p, g) => WrittenKeepsRecent(l, p, g);
    case Close =>
  }

  lemma ReopenKeepsRecent(l: Log, f: Faults)
    requires KeepsRecent(l) && f.renames && f.opens
    ensures KeepsRecent(l.Opened(f)) && l.Opened(f).handle.Live?
  {
    assert l.Rotated().Retained() == l.Content();
  }

  /** What those hypotheses are for: if reopening fails after a rotation, no later write is
      accepted, however the file operations go, until the log is opened again. */
  lemma {:induction false} FailedReopenIsFinal(l: Log, p: Bytes, f: Faults, writes: seq<Op>)
    requires l.Sound() && l.handle.Live? && l.size + |p| > LOG_MAX_SIZE && f.renames && !f.opens
    requires forall i :: 0 <= i < |writes| ==> writes[i].Write?
    ensures var dead := l.Written(p, f); RunFrom(dead, writes) == dead && dead.accepted == l.accepted
  {
    DeadStays(l.Written(p, f), writes);
  }

  lemma {:induction false} DeadStays(l: Log, writes: seq<Op>)
    requires l.handle.Dead? && l.current.None? && forall i :: 0 <= i < |writes| ==> writes[i].Write?
    ensures RunFrom(l, writes) == l
    decreases |writes|
  {
    if writes != [] { DeadStays(l, writes[1..]); }
  }
}
