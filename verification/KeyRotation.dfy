/** Replacing the key that stored credentials are sealed under (control/connections.go,
    control/connections/crypto.go): every credential is opened, all of them are written again
    under a fresh key, the key file is replaced, and only then does the manager use the new
    key. Any write may fail. */
module KeyRotation {
  import opened Transcript

  type Key = nat

  /** `bound`: sealed against its own row, as all but the oldest are. */
  datatype Sealed = Sealed(key: Key, plain: string, bound: bool)

  /** The key file, and beside it the previous key and one that was about to replace it. */
  datatype Files = Files(current: Key, previous: Option<Key>, next: Option<Key>)

  datatype State = State(key: Key, rows: seq<Sealed>, files: Files)

  /** Which writes succeed: binding row `i`, writing row `i` again, keeping the old key, writing
      the fresh one, renaming it. A file write that fails leaves the file as it was. */
  datatype Luck = Luck(binds: nat -> bool, writes: nat -> bool, keeps: bool, places: bool, renames: bool)

  datatype Outcome = Rotated(count: nat) | CannotOpen(row: nat) | WriteFailed(row: nat) | KeyFileFailed

  // ---- What each part leaves ----------------------------------------------------------------------

  /** Opening a row that is not bound to itself binds it, under the same key. */
  function Opened(r: Sealed, binds: bool): Sealed { if !r.bound && binds then r.(bound := true) else r }

  function OpenedUpTo(s: State, luck: Luck, n: nat): (r: seq<Sealed>)
    requires n <= |s.rows|
    ensures |r| == |s.rows|
    ensures forall i :: 0 <= i < |r| ==> r[i] == if i < n then Opened(s.rows[i], luck.binds(i)) else s.rows[i]
  {
    seq(|s.rows|, i requires 0 <= i < |s.rows| =>
      if i < n then Opened(s.rows[i], luck.binds(i)) else s.rows[i])
  }

  function RekeyedUpTo(rows: seq<Sealed>, newKey: Key, k: nat): seq<Sealed>
    requires k <= |rows|
  {
    seq(|rows|, i requires 0 <= i < |rows| => if i < k then Sealed(newKey, rows[i].plain, true) else rows[i])
  }

  function Replaced(files: Files, was: Key, newKey: Key, luck: Luck): Files {
    if !luck.keeps then files
    else if !luck.places then files.(previous := Some(was))
    else if !luck.renames then files.(previous := Some(was), next := Some(newKey))
    else Files(newKey, Some(was), None)
  }

  class Manager {
    var key: Key
    var rows: seq<Sealed>
    var files: Files

    function Abs(): State
      reads this
    {
      State(key, rows, files)
    }

    constructor (s: State)
      ensures Abs() == s
    {
      key, rows, files := s.key, s.rows, s.files;
    }

    method OpenAll(luck: Luck) returns (n: nat)
      modifies this`rows
      ensures n <= |old(rows)| && (forall i :: 0 <= i < n ==> old(rows)[i].key == key)
      ensures n < |old(rows)| ==> old(rows)[n].key != key
      ensures rows == OpenedUpTo(old(Abs()), luck, n)
    {
      n := 0;
      while n < |rows|
        invariant n <= |old(rows)| && forall i :: 0 <= i < n ==> old(rows)[i].key == key
        invariant rows == OpenedUpTo(old(Abs()), luck, n)
      {
        if rows[n].key != key { return; }
        if !rows[n].bound && luck.binds(n) { rows := rows[n := rows[n].(bound := true)]; }
        n := n + 1;
      }
    }

    method WriteAll(newKey: Key, luck: Luck) returns (k: nat)
      modifies this`rows
      ensures k <= |old(rows)| && (forall i :: 0 <= i < k ==> luck.writes(i))
      ensures k < |old(rows)| ==> !luck.writes(k)
      ensures rows == RekeyedUpTo(old(rows), newKey, k)
    {
      k := 0;
      while k < |rows|
        invariant k <= |old(rows)| && forall i :: 0 <= i < k ==> luck.writes(i)
        invariant rows == RekeyedUpTo(old(rows), newKey, k)
      {
        if !luck.writes(k) { return; }
        rows := rows[k := Sealed(newKey, rows[k].plain, true)];
        k := k + 1;
      }
    }

    method ReplaceKey(newKey: Key, luck: Luck) returns (ok: bool)
      modifies this`files
      ensures files == Replaced(old(files), key, newKey, luck)
      ensures ok == (luck.keeps && luck.places && luck.renames)
    {
      if !luck.keeps { return false; }
      files := files.(previous := Some(key));
      if !luck.places { return false; }
      files := files.(next := Some(newKey));
      if !luck.renames { return false; }
      files := files.(current := newKey, next := None);
      return true;
    }

    method RotateKey(newKey: Key, luck: Luck) returns (o: Outcome)
      modifies this
      ensures Rotation(old(Abs()), newKey, luck, o, Abs())
    {
      var n := OpenAll(luck);
      if n < |rows| { return CannotOpen(n); }
      var k := WriteAll(newKey, luck);
      if k < |rows| { return WriteFailed(k); }
      var ok := ReplaceKey(newKey, luck);
      if !ok { return KeyFileFailed; }
      key := newKey;
      return Rotated(|rows|);
    }
  }

  // ---- What a rotation leaves ----------------------------------------------------------------------

  ghost predicate AllOpen(s: State) { forall i :: 0 <= i < |s.rows| ==> s.rows[i].key == s.key }

  /** The first `k` writes of rows succeed. */
  ghost predicate Writes(luck: Luck, k: nat) { forall i :: 0 <= i < k ==> luck.writes(i) }

  predicate Places(luck: Luck) { luck.keeps && luck.places }

  function Rekeyed(s: State, newKey: Key, luck: Luck, k: nat): seq<Sealed>
    requires k <= |s.rows|
  {
    RekeyedUpTo(OpenedUpTo(s, luck, |s.rows|), newKey, k)
  }

  /** How a rotation goes from `s` to `t`. */
  ghost predicate Rotation(s: State, newKey: Key, luck: Luck, o: Outcome, t: State) {
    match o
    case CannotOpen(n) =>
      && n < |s.rows| && s.rows[n].key != s.key && (forall i :: 0 <= i < n ==> s.rows[i].key == s.key)
      && t == s.(rows := OpenedUpTo(s, luck, n))
    case WriteFailed(k) =>
      && AllOpen(s) && k < |s.rows| && Writes(luck, k) && !luck.writes(k)
      && t == s.(rows := Rekeyed(s, newKey, luck, k))
    case KeyFileFailed =>
      && AllOpen(s) && Writes(luck, |s.rows|) && !(Places(luck) && luck.renames)
      && t == State(s.key, Rekeyed(s, newKey, luck, |s.rows|), Replaced(s.files, s.key, newKey, luck))
    case Rotated(n) =>
      && AllOpen(s) && n == |s.rows| && Writes(luck, n) && Places(luck) && luck.renames
      && t == State(newKey, Rekeyed(s, newKey, luck, n), Files(newKey, Some(s.key), None))
  }

  /** It goes one way only: what is given decides the outcome and the state it leaves. */
  lemma OneEnding(s: State, newKey: Key, luck: Luck, o: Outcome, t: State, p: Outcome, u: State)
    requires Rotation(s, newKey, luck, o, t) && Rotation(s, newKey, luck, p, u)
    ensures o == p && t == u
  {
    if o.CannotOpen? { assert s.rows[o.row].key != s.key; }
    if p.CannotOpen? { assert s.rows[p.row].key != s.key; }
  }

  /** However it ends, no credential changes, only what it is sealed under. */
  lemma PlaintextsKept(s: State, newKey: Key, luck: Luck, o: Outcome, t: State)
    requires Rotation(s, newKey, luck, o, t)
    ensures |t.rows| == |s.rows| && forall i :: 0 <= i < |s.rows| ==> t.rows[i].plain == s.rows[i].plain
  {
  }

  /** An old row is bound to itself when it is opened, if that write succeeds; every row written under
      the new key is. */
  lemma BoundAfter(s: State, newKey: Key, luck: Luck, o: Outcome, t: State, i: nat)
    requires Rotation(s, newKey, luck, o, t) && i < |s.rows|
    ensures |t.rows| == |s.rows|
    ensures var reached := !o.CannotOpen? || i < o.row;
            t.rows[i].bound <==> s.rows[i].bound || i < Rewritten(s, o) || (reached && luck.binds(i))
  {
  }

  /** What is in the key files after each write that succeeds: first the old key as the previous one,
      then the new key beside it, then in its place. */
  lemma ReplacedStepwise(files: Files, was: Key, newKey: Key, luck: Luck)
    ensures var done := if !luck.keeps then 0 else if !luck.places then 1 else if !luck.renames then 2 else 3;
            && Replaced(files, was, newKey, luck) == FilesAt(files, was, newKey, done)
            && (done >= 1 ==> Replaced(files, was, newKey, luck).previous == Some(was))
            && (done == 2 ==> Replaced(files, was, newKey, luck).next == Some(newKey))
            && Replaced(files, was, newKey, luck).current == (if done == 3 then newKey else files.current)
            && (done == 0 ==> Replaced(files, was, newKey, luck) == files)
  {
  }

  /** How many rows were written under the new key. */
  function Rewritten(s: State, o: Outcome): nat {
    match o
    case CannotOpen(_) => 0
    case WriteFailed(k) => k
    case _ => |s.rows|
  }

  lemma KeysAfter(s: State, newKey: Key, luck: Luck, o: Outcome, t: State)
    requires Rotation(s, newKey, luck, o, t)
    ensures |t.rows| == |s.rows| && Rewritten(s, o) <= |s.rows|
    ensures forall i :: 0 <= i < |s.rows| ==>
              t.rows[i].key == if i < Rewritten(s, o) then newKey else s.rows[i].key
    ensures t.key == if o.Rotated? then newKey else s.key
  {
  }

  /** A row is written exactly when everything opens and the first write succeeds. */
  lemma RewrittenIff(s: State, newKey: Key, luck: Luck, o: Outcome, t: State)
    requires Rotation(s, newKey, luck, o, t)
    ensures Rewritten(s, o) > 0 <==> AllOpen(s) && s.rows != [] && luck.writes(0)
    ensures o.Rotated? <==> AllOpen(s) && Writes(luck, |s.rows|) && Places(luck) && luck.renames
    ensures o.CannotOpen? <==> !AllOpen(s)
  {
    if o.CannotOpen? { assert s.rows[o.row].key != s.key; }
  }

  /** Afterwards the manager opens every credential if and only if it did before, and either every
      write succeeded, of the rows and of the key file, or not even the first one of a row. */
  lemma AllOpenAfterIff(s: State, newKey: Key, luck: Luck, o: Outcome, t: State)
    requires Rotation(s, newKey, luck, o, t) && newKey != s.key
    ensures var all := Writes(luck, |s.rows|) && Places(luck) && luck.renames;
            AllOpen(t) <==> AllOpen(s) && (all || s.rows == [] || !luck.writes(0))
    ensures o.Rotated? ==> t.key == t.files.current == newKey
  {
    KeysAfter(s, newKey, luck, o, t);
    RewrittenIff(s, newKey, luck, o, t);
    if !o.Rotated? && Rewritten(s, o) > 0 { assert t.rows[0].key == newKey; }
    if o.CannotOpen? { assert t.rows[o.row].key == s.rows[o.row].key; }
  }

  /** The key is in the manager's hands or in a file. */
  predicate Somewhere(s: State, key: Key) { key == s.key || OnDisk(s.files, key) }

  predicate OnDisk(files: Files, key: Key) {
    key == files.current || files.previous == Some(key) || files.next == Some(key)
  }

  ghost predicate Lost(s: State) { exists i :: 0 <= i < |s.rows| && !Somewhere(s, s.rows[i].key) }

  lemma LostByOutcome(s: State, newKey: Key, luck: Luck, o: Outcome, t: State)
    requires Rotation(s, newKey, luck, o, t) && AllOpen(s) && !Somewhere(s, newKey)
    ensures Lost(t) <==> Rewritten(s, o) > 0 && (o.WriteFailed? || (o.KeyFileFailed? && !Places(luck)))
  {
    KeysAfter(s, newKey, luck, o, t);
    if Rewritten(s, o) > 0 { assert t.rows[0].key == newKey; }
  }

  /** When a credential is lost, its key being neither in memory nor on disk: there is a row, its
      write succeeds, and a later one fails or the new key does not reach the disk. */
  lemma LostIff(s: State, newKey: Key, luck: Luck, o: Outcome, t: State)
    requires Rotation(s, newKey, luck, o, t) && AllOpen(s) && !Somewhere(s, newKey)
    ensures Lost(t) <==>
            && s.rows != [] && luck.writes(0)
            && ((exists k :: 0 <= k < |s.rows| && !luck.writes(k)) || !Places(luck))
  {
    LostByOutcome(s, newKey, luck, o, t);
    RewrittenIff(s, newKey, luck, o, t);
    if o.WriteFailed? { assert !luck.writes(o.row); }
  }

  /** A rotation that fails part-way has touched no file; in particular the key it says is kept as
      the previous one was not put there. */
  lemma PartWayTouchesNoFile(s: State, newKey: Key, luck: Luck, o: Outcome, t: State)
    requires Rotation(s, newKey, luck, o, t) && (o.CannotOpen? || o.WriteFailed?)
    ensures t.files == s.files && t.key == s.key
  {
  }

  function OneLost(a: string, b: string): State {
    State(1, [Sealed(2, a, true), Sealed(1, b, true)], Files(1, None, None))
  }

  /** Two credentials, and the second write fails: the first is sealed under a key that is gone. */
  lemma LosingRotation(a: string, b: string)
    ensures var s := State(1, [Sealed(1, a, true), Sealed(1, b, true)], Files(1, None, None));
            var luck := Luck(_ => true, i => i == 0, true, true, true);
            Rotation(s, 2, luck, WriteFailed(1), OneLost(a, b)) && AllOpen(s) && Lost(OneLost(a, b))
  {
    var s := State(1, [Sealed(1, a, true), Sealed(1, b, true)], Files(1, None, None));
    var luck := Luck(_ => true, i => i == 0, true, true, true);
    assert OpenedUpTo(s, luck, 2) == s.rows;
    assert Rekeyed(s, 2, luck, 1) == OneLost(a, b).rows;
    assert !Somewhere(OneLost(a, b), OneLost(a, b).rows[0].key);
  }

  // ---- If the process dies ------------------------------------------------------------------------------

  /** How far it got: rows that are written, or, once all are, operations on the key files. */
  datatype Death = AmongRows(written: nat) | AmongFiles(done: nat)

  function FilesAt(files: Files, was: Key, newKey: Key, done: nat): Files {
    match done
    case 0 => files
    case 1 => files.(previous := Some(was))
    case 2 => files.(previous := Some(was), next := Some(newKey))
    case _ => Files(newKey, Some(was), None)
  }

  /** What it leaves behind, rows and files; what was in memory is gone. */
  ghost predicate Dies(s: State, newKey: Key, luck: Luck, d: Death, rows: seq<Sealed>, files: Files) {
    && AllOpen(s)
    && match d
       case AmongRows(k) =>
         k <= |s.rows| && Writes(luck, k) && rows == Rekeyed(s, newKey, luck, k) && files == s.files
       case AmongFiles(n) =>
         && n <= 3 && Writes(luck, |s.rows|)
         && rows == Rekeyed(s, newKey, luck, |s.rows|) && files == FilesAt(s.files, s.key, newKey, n)
  }

  function WrittenAt(s: State, d: Death): nat { if d.AmongRows? then d.written else |s.rows| }

  lemma KeysAtDeath(s: State, newKey: Key, luck: Luck, d: Death, rows: seq<Sealed>, files: Files)
    requires Dies(s, newKey, luck, d, rows, files)
    ensures |rows| == |s.rows| && WrittenAt(s, d) <= |s.rows|
    ensures forall i :: 0 <= i < |rows| ==> rows[i].key == if i < WrittenAt(s, d) then newKey else s.key
  {
  }

  /** A credential opens with no key on disk if and only if the process died after writing a row and
      before the new key was in a file. */
  lemma DeathLosesIff(s: State, newKey: Key, luck: Luck, d: Death, rows: seq<Sealed>, files: Files)
    requires Dies(s, newKey, luck, d, rows, files) && s.files.current == s.key && !Somewhere(s, newKey)
    ensures (exists i :: 0 <= i < |rows| && !OnDisk(files, rows[i].key)) <==>
            WrittenAt(s, d) > 0 && (d.AmongRows? || d.done < 2)
  {
    KeysAtDeath(s, newKey, luck, d, rows, files);
    if WrittenAt(s, d) > 0 { assert rows[0].key == newKey; }
  }

  /** The previous key is documented as the only way back from that. It opens nothing that the key
      file does not, as long as that has not been replaced, and nothing at all once it has. */
  lemma PreviousIsNoWayBack(s: State, newKey: Key, luck: Luck, d: Death, rows: seq<Sealed>, files: Files, i: nat)
    requires Dies(s, newKey, luck, d, rows, files) && s.files.current == s.key && newKey != s.key
    requires i < |rows|
    ensures files.current == s.key || forall j :: 0 <= j < |rows| ==> rows[j].key == files.current == newKey
    ensures rows[i].key == s.key ==> rows[i].key == files.current
  {
    KeysAtDeath(s, newKey, luck, d, rows, files);
  }
}
