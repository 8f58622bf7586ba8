/** The line-stamping writer in front of the app log (agent/service.go): output arrives in
    arbitrary chunks, complete lines are stamped and passed on, a line that grows too long
    without a newline is passed on as it is. */
module LineWriter {
  newtype byte = x: int | 0 <= x < 256

  const NEWLINE: byte := 10
  const MAX_LINE_BUFFER := 64 * 1024

  type Bytes = seq<byte>

  // ---- Lines of a stream -----------------------------------------------------------------

  function IndexByte(s: Bytes, b: byte): (i: nat)
    ensures i <= |s|
    ensures forall j :: 0 <= j < i ==> s[j] != b
    ensures i < |s| ==> s[i] == b
  {
    if s == [] || s[0] == b then 0 else 1 + IndexByte(s[1..], b)
  }

  predicate Unfinished(s: Bytes) { IndexByte(s, NEWLINE) == |s| }

  /** The complete lines of `s`, each with its newline. */
  function Lines(s: Bytes): seq<Bytes>
    decreases |s|
  {
    var i := IndexByte(s, NEWLINE);
    if i == |s| then [] else [s[..i + 1]] + Lines(s[i + 1..])
  }

  /** What follows the last newline of `s`. */
  function Tail(s: Bytes): (t: Bytes)
    ensures Unfinished(t) && |t| <= |s|
    decreases |s|
  {
    var i := IndexByte(s, NEWLINE);
    if i == |s| then s else Tail(s[i + 1..])
  }

  function Flat(chunks: seq<Bytes>): Bytes {
    if chunks == [] then [] else chunks[0] + Flat(chunks[1..])
  }

  lemma {:induction false} FlatConcat(a: seq<Bytes>, b: seq<Bytes>)
    ensures Flat(a + b) == Flat(a) + Flat(b)
  {
    if a == [] {
      assert a + b == b;
    } else {
      assert (a + b)[1..] == a[1..] + b;
      FlatConcat(a[1..], b);
    }
  }

  /** One line, ended by its only newline. */
  predicate OneLine(line: Bytes) { line != [] && IndexByte(line, NEWLINE) == |line| - 1 }

  lemma {:induction false} IndexPrefix(a: Bytes, b: Bytes)
    ensures IndexByte(a + b, NEWLINE) == if Unfinished(a) then |a| + IndexByte(b, NEWLINE) else IndexByte(a, NEWLINE)
  {
    if a == [] {
      assert a + b == b;
    } else {
      assert (a + b)[1..] == a[1..] + b;
      IndexPrefix(a[1..], b);
    }
  }

  lemma LinesStep(line: Bytes, rest: Bytes)
    requires OneLine(line)
    ensures Lines(line + rest) == [line] + Lines(rest) && Tail(line + rest) == Tail(rest)
  {
    IndexPrefix(line, rest);
    assert (line + rest)[..|line|] == line && (line + rest)[|line|..] == rest;
  }

  /** A stream with a newline is a line and the rest. */
  lemma FirstLine(s: Bytes) returns (line: Bytes, rest: Bytes)
    requires !Unfinished(s)
    ensures OneLine(line) && s == line + rest && |rest| < |s| && |line| == IndexByte(s, NEWLINE) + 1
    ensures line == s[..|line|] && rest == s[|line|..]
  {
    var i := IndexByte(s, NEWLINE);
    line, rest := s[..i + 1], s[i + 1..];
    assert s == line + rest;
    IndexPrefix(line, rest);
    assert line[i] == NEWLINE;
  }

  lemma Assoc<T>(a: seq<T>, b: seq<T>, c: seq<T>)
    ensures (a + b) + c == a + (b + c)
  {
  }

  lemma {:induction false} FlatLines(s: Bytes)
    ensures Flat(Lines(s)) + Tail(s) == s
    decreases |s|
  {
    if !Unfinished(s) {
      var line, rest := FirstLine(s);
      LinesStep(line, rest);
      FlatLines(rest);
      assert ([line] + Lines(rest))[1..] == Lines(rest);
      Assoc(line, Flat(Lines(rest)), Tail(rest));
    }
  }

  /** Cutting the stream anywhere: what was unfinished joins what follows. */
  lemma {:induction false} LinesConcat(s: Bytes, t: Bytes)
    ensures Lines(s + t) == Lines(s) + Lines(Tail(s) + t)
    ensures Tail(s + t) == Tail(Tail(s) + t)
    decreases |s|
  {
    if !Unfinished(s) {
      var line, rest := FirstLine(s);
      LinesConcat(rest, t);
      LinesStep(line, rest);
      Assoc(line, rest, t);
      LinesStep(line, rest + t);
      Assoc([line], Lines(rest), Lines(Tail(rest) + t));
    }
  }

  // ---- The writer ---------------------------------------------------------------------------

  /** What has been passed on, without the stamps, and what is held back. */
  datatype Held = Held(emitted: seq<Bytes>, buf: Bytes) {
    function Stream(): Bytes { Flat(emitted) + buf }
  }

  function FlushLong(h: Held): Held {
    if |h.buf| > MAX_LINE_BUFFER then Held(h.emitted + [h.buf], []) else h
  }

  /** One write when nothing downstream fails. */
  function Fed(h: Held, p: Bytes): Held {
    FlushLong(Held(h.emitted + Lines(h.buf + p), Tail(h.buf + p)))
  }

  function FedAll(h: Held, chunks: seq<Bytes>): Held
    decreases |chunks|
  {
    if chunks == [] then h else FedAll(Fed(h, chunks[0]), chunks[1..])
  }

  /** What the log does with the bytes it is given: it takes them, or fails after at most
      `limit` of them. */
  datatype Answer = Takes | Fails(limit: nat)

  /** A line that was offered to the log behind its stamp; the log has `taken` bytes of both. */
  datatype Attempt = Attempt(stamp: Bytes, line: Bytes, taken: nat, ok: bool)

  function Offered(answer: Answer, stamp: Bytes, line: Bytes): (a: Attempt)
    ensures a.taken <= |stamp| + |line| && (a.ok ==> a.taken == |stamp| + |line|)
  {
    var size := |stamp| + |line|;
    match answer
    case Takes => Attempt(stamp, line, size, true)
    case Fails(limit) => Attempt(stamp, line, if limit < size then limit else size, false)
  }

  /** The lines the log took without failing. */
  function Passed(attempts: seq<Attempt>): seq<Bytes> {
    if attempts == [] then []
    else
      var n := |attempts| - 1;
      Passed(attempts[..n]) + (if attempts[n].ok then [attempts[n].line] else [])
  }

  lemma PassedSnoc(attempts: seq<Attempt>, a: Attempt)
    ensures Passed(attempts + [a]) == if a.ok then Passed(attempts) + [a.line] else Passed(attempts)
  {
    assert (attempts + [a])[..|attempts|] == attempts;
  }

  /** The attempts after `was`: all went well, or all but the last, whose line is then still at the
      head of the buffer. */
  ghost predicate Tried(was: seq<Attempt>, now: seq<Attempt>, buf: Bytes, ok: bool) {
    && was <= now
    && (ok ==> forall k :: |was| <= k < |now| ==> now[k].ok)
    && (!ok ==> |was| < |now| && !now[|now| - 1].ok && now[|now| - 1].line <= buf
                && forall k :: |was| <= k < |now| - 1 ==> now[k].ok)
  }

  lemma TriedOne(was: seq<Attempt>, now: seq<Attempt>, buf: Bytes, a: Attempt, rest: Bytes)
    requires Tried(was, now, buf, true) && (!a.ok ==> a.line <= rest)
    ensures Tried(was, now + [a], rest, a.ok)
  {
  }

  /** `sink(k)` is the log's answer to the k-th attempt, `clock(k)` the stamp it carries. */
  class TimestampWriter {
    const sink: nat -> Answer
    const clock: nat -> Bytes
    var buf: Bytes
    var attempts: seq<Attempt>

    constructor (sink: nat -> Answer, clock: nat -> Bytes)
      ensures this.sink == sink && this.clock == clock && buf == [] && attempts == []
    {
      this.sink, this.clock, buf, attempts := sink, clock, [], [];
    }

    method Emit(line: Bytes) returns (ok: bool)
      modifies this`attempts
      ensures var a := Offered(sink(|old(attempts)|), clock(|old(attempts)|), line);
              attempts == old(attempts) + [a] && ok == a.ok && a.line == line && a.stamp == clock(|old(attempts)|)
      ensures ok == sink(|old(attempts)|).Takes?
      ensures Passed(attempts) == if ok then Passed(old(attempts)) + [line] else Passed(old(attempts))
    {
      var k := |attempts|;
      var a := Offered(sink(k), clock(k), line);
      PassedSnoc(attempts, a);
      attempts := attempts + [a];
      ok := a.ok;
    }

    /** Whatever the chunk and whatever the log does: the lines passed on and the bytes held back
        are exactly the bytes received, and a line of which the log took only a part is still held
        back. When nothing fails the new state is `Fed`; the buffer then holds no newline and at
        most 64 KiB. */
    method Write(p: Bytes) returns (ok: bool)
      modifies this
      ensures Tried(old(attempts), attempts, buf, ok)
      ensures (forall k: nat :: sink(k).Takes?) ==> ok
      ensures Held(Passed(attempts), buf).Stream() == Held(Passed(old(attempts)), old(buf)).Stream() + p
      ensures ok ==> Held(Passed(attempts), buf) == Fed(Held(Passed(old(attempts)), old(buf)), p)
      ensures ok ==> Unfinished(buf) && |buf| <= MAX_LINE_BUFFER
    {
      Assoc(Flat(Passed(attempts)), buf, p);
      buf := buf + p;
      ok := PassLines();
      if ok && |buf| > MAX_LINE_BUFFER { ok := FlushBuffer(); }
    }

    /** A line that is too long is passed on as it is. */
    method FlushBuffer() returns (ok: bool)
      modifies this
      ensures Held(Passed(attempts), buf).Stream() == Held(Passed(old(attempts)), old(buf)).Stream()
      ensures ok ==> Passed(attempts) == Passed(old(attempts)) + [old(buf)] && buf == []
      ensures (forall k: nat :: sink(k).Takes?) ==> ok
      ensures Tried(old(attempts), attempts, buf, ok)
    {
      PassAll(Passed(attempts), buf);
      ok := Emit(buf);
      if ok { buf := []; }
    }

    /** The loop of `Write`: every complete line of the buffer is passed on. */
    method PassLines() returns (ok: bool)
      modifies this
      ensures Tried(old(attempts), attempts, buf, ok)
      ensures Held(Passed(attempts), buf).Stream() == Held(Passed(old(attempts)), old(buf)).Stream()
      ensures ok ==> Passed(attempts) == Passed(old(attempts)) + Lines(old(buf)) && buf == Tail(old(buf))
      ensures (forall k: nat :: sink(k).Takes?) ==> ok
    {
      ghost var before, all := Passed(attempts), buf;
      while !Unfinished(buf)
        invariant Tried(old(attempts), attempts, buf, true)
        invariant Passing(before, all, Passed(attempts), buf)
        decreases |buf|
      {
        ok := PassFirst(old(attempts), before, all);
        if !ok { return; }
      }
      PassDone(before, all, Passed(attempts), buf);
      ok := true;
    }

    /** One line of that loop. */
    method PassFirst(ghost was: seq<Attempt>, ghost before: seq<Bytes>, ghost all: Bytes) returns (ok: bool)
      requires !Unfinished(buf) && Tried(was, attempts, buf, true) && Passing(before, all, Passed(attempts), buf)
      modifies this
      ensures Tried(was, attempts, buf, ok) && Passing(before, all, Passed(attempts), buf)
      ensures ok ==> |buf| < |old(buf)|
      ensures (forall k: nat :: sink(k).Takes?) ==> ok
    {
      var i := IndexByte(buf, NEWLINE);
      PassStep(before, all, Passed(attempts), buf);
      ghost var a := Offered(sink(|attempts|), clock(|attempts|), buf[..i + 1]);
      TriedOne(was, attempts, buf, a, if a.ok then buf[i + 1..] else buf);
      ok := Emit(buf[..i + 1]);
      if ok { buf := buf[i + 1..]; }
    }
  }

  /** So a line the log took only a part of is the first one offered again, whatever arrives
      next: the part stays in the log, in front of the whole. */
  lemma HeldBackComesFirst(line: Bytes, buf: Bytes, p: Bytes)
    requires OneLine(line) && line <= buf
    ensures Lines(buf + p) != [] && Lines(buf + p)[0] == line
  {
    var rest := buf[|line|..];
    assert buf == line + rest;
    Assoc(line, rest, p);
    LinesStep(line, rest + p);
  }

  /** The loop of `Write`: what has been passed on so far and what is left make up `all`. */
  ghost predicate Passing(before: seq<Bytes>, all: Bytes, emitted: seq<Bytes>, buf: Bytes) {
    && before <= emitted && Flat(emitted) + buf == Flat(before) + all
    && emitted + Lines(buf) == before + Lines(all) && Tail(buf) == Tail(all)
  }

  lemma PassStep(before: seq<Bytes>, all: Bytes, emitted: seq<Bytes>, buf: Bytes)
    requires Passing(before, all, emitted, buf) && !Unfinished(buf)
    ensures var i := IndexByte(buf, NEWLINE); Passing(before, all, emitted + [buf[..i + 1]], buf[i + 1..])
  {
    PassLine(emitted, buf);
  }

  lemma PassDone(before: seq<Bytes>, all: Bytes, emitted: seq<Bytes>, buf: Bytes)
    requires Passing(before, all, emitted, buf) && Unfinished(buf)
    ensures emitted == before + Lines(all) && buf == Tail(all)
  {
    assert emitted + [] == emitted;
  }

  lemma PassLine(emitted: seq<Bytes>, buf: Bytes)
    requires !Unfinished(buf)
    ensures var i := IndexByte(buf, NEWLINE);
            var line, rest := buf[..i + 1], buf[i + 1..];
            && (emitted + [line]) + Lines(rest) == emitted + Lines(buf)
            && Flat(emitted + [line]) + rest == Flat(emitted) + buf
            && Tail(rest) == Tail(buf)
  {
    var line, rest := FirstLine(buf);
    PassAll(emitted, line);
    LinesStep(line, rest);
    Assoc(Flat(emitted), line, rest);
    Assoc(emitted, [line], Lines(rest));
  }

  lemma PassAll(emitted: seq<Bytes>, line: Bytes)
    ensures Flat(emitted + [line]) == Flat(emitted) + line
  {
    FlatConcat(emitted, [line]);
    assert [line][1..] == [];
  }

  // ---- Chunks do not matter for lines that fit ------------------------------------------------

  /** No line of the stream, its newline aside, and no unfinished end is longer than the bound. */
  ghost predicate AllFit(s: Bytes) {
    && (forall i :: 0 <= i < |Lines(s)| ==> |Lines(s)[i]| <= MAX_LINE_BUFFER + 1)
    && |Tail(s)| <= MAX_LINE_BUFFER
  }

  /** The line that completes an unfinished end contains it. */
  lemma UnfinishedGrows(u: Bytes, t: Bytes)
    requires Unfinished(u)
    ensures if Lines(u + t) == [] then |Tail(u + t)| >= |u| else |Lines(u + t)[0]| > |u|
  {
    IndexPrefix(u, t);
  }

  lemma FitsPrefix(s: Bytes, t: Bytes)
    requires AllFit(s + t)
    ensures AllFit(s) && AllFit(Tail(s) + t)
  {
    LinesConcat(s, t);
    UnfinishedGrows(Tail(s), t);
    var all, first := Lines(s + t), Lines(s);
    forall i | 0 <= i < |first| ensures |first[i]| <= MAX_LINE_BUFFER + 1 {
      assert all[i] == first[i];
    }
    forall i | 0 <= i < |Lines(Tail(s) + t)| ensures |Lines(Tail(s) + t)[i]| <= MAX_LINE_BUFFER + 1 {
      assert all[|first| + i] == Lines(Tail(s) + t)[i];
    }
    if Lines(Tail(s) + t) != [] { assert all[|first|] == Lines(Tail(s) + t)[0]; }
  }

  lemma FedShort(h: Held, p: Bytes)
    requires |Tail(h.buf + p)| <= MAX_LINE_BUFFER
    ensures Fed(h, p) == Held(h.emitted + Lines(h.buf + p), Tail(h.buf + p))
  {
  }

  lemma {:induction false} ChunksFed(h: Held, chunks: seq<Bytes>)
    requires Unfinished(h.buf) && AllFit(h.buf + Flat(chunks))
    ensures var s := h.buf + Flat(chunks); FedAll(h, chunks) == Held(h.emitted + Lines(s), Tail(s))
    decreases |chunks|
  {
    if chunks == [] {
      assert h.buf + [] == h.buf;
    } else {
      var s, rest := h.buf + chunks[0], Flat(chunks[1..]);
      Assoc(h.buf, chunks[0], rest);
      FitsPrefix(s, rest);
      LinesConcat(s, rest);
      FedShort(h, chunks[0]);
      ChunksFed(Fed(h, chunks[0]), chunks[1..]);
      Assoc(h.emitted, Lines(s), Lines(Tail(s) + rest));
    }
  }

  /** The `k`-th line is the first one, or one of the rest. */
  lemma LineAt(s: Bytes, k: nat) returns (line: Bytes, rest: Bytes)
    requires k < |Lines(s)|
    ensures OneLine(line) && s == line + rest && |rest| < |s|
    ensures k == 0 ==> Lines(s)[k] == line
    ensures k > 0 ==> k - 1 < |Lines(rest)| && Lines(s)[k] == Lines(rest)[k - 1]
  {
    line, rest := FirstLine(s);
    LinesStep(line, rest);
    Shifted([line], Lines(rest), k);
  }

  lemma Shifted(a: seq<Bytes>, b: seq<Bytes>, k: nat)
    requires |a| == 1 && k < |a + b|
    ensures (a + b)[k] == if k == 0 then a[0] else b[k - 1]
  {
  }

  lemma {:induction false} LineEndsInNewline(s: Bytes, k: nat)
    requires k < |Lines(s)|
    ensures OneLine(Lines(s)[k])
    decreases |s|
  {
    var line, rest := LineAt(s, k);
    if k > 0 { LineEndsInNewline(rest, k - 1); }
  }

  lemma {:induction false} FedKeepsEmitted(h: Held, chunks: seq<Bytes>)
    ensures h.emitted <= FedAll(h, chunks).emitted
    decreases |chunks|
  {
    if chunks != [] { FedKeepsEmitted(Fed(h, chunks[0]), chunks[1..]); }
  }

  lemma {:induction false} UnfinishedPrefix(s: Bytes, n: nat)
    requires n <= IndexByte(s, NEWLINE)
    ensures Unfinished(s[..n])
  {
    IndexPrefix(s[..n], s[n..]);
    assert s[..n] + s[n..] == s;
  }

  lemma CutInFirst(line: Bytes, rest: Bytes, bound: nat) returns (a: Bytes, b: Bytes)
    requires OneLine(line) && bound + 1 < |line|
    ensures line + rest == a + b && |Tail(a)| > bound
  {
    a, b := line[..bound + 1], line[bound + 1..] + rest;
    UnfinishedPrefix(line, bound + 1);
  }

  /** A stream can be cut just past the bound inside a line that is too long. */
  lemma {:induction false} LongLineCut(s: Bytes, k: nat, bound: nat) returns (a: Bytes, b: Bytes)
    requires k < |Lines(s)| && |Lines(s)[k]| > bound + 1
    ensures s == a + b && |Tail(a)| > bound
    decreases |s|
  {
    var line, rest := LineAt(s, k);
    if k == 0 {
      a, b := CutInFirst(line, rest, bound);
    } else {
      a, b := LongLineCut(rest, k - 1, bound);
      Assoc(line, a, b);
      LinesStep(line, a);
      a := line + a;
    }
  }

  /** Written up to such a cut, the writer has passed on a piece without a newline. */
  lemma CutSplits(s: Bytes, a: Bytes, b: Bytes)
    requires s == a + b && |Tail(a)| > MAX_LINE_BUFFER
    ensures Flat([a, b]) == s
    ensures FedAll(Held([], []), [a, b]).emitted != Lines(s)
  {
    var h := Fed(Held([], []), a);
    FlatTwo(a, b);
    FedTwo(a, b);
    FedLong(a);
    FedKeepsEmitted(h, [b]);
    assert h.emitted[|Lines(a)|] == Tail(a);
    NotALine(s, |Lines(a)|, Tail(a));
  }

  lemma FedLong(a: Bytes)
    requires |Tail(a)| > MAX_LINE_BUFFER
    ensures Fed(Held([], []), a).emitted == Lines(a) + [Tail(a)]
  {
    assert [] + a == a && [] + Lines(a) == Lines(a);
  }

  lemma NotALine(s: Bytes, k: nat, t: Bytes)
    requires Unfinished(t)
    ensures k < |Lines(s)| ==> Lines(s)[k] != t
  {
    if k < |Lines(s)| { LineEndsInNewline(s, k); }
  }

  lemma FlatTwo(a: Bytes, b: Bytes)
    ensures Flat([a, b]) == a + b
  {
    assert [a, b][1..] == [b] && [b][1..] == [];
    assert Flat([b]) == b + [] == b;
  }

  lemma FedTwo(a: Bytes, b: Bytes)
    ensures FedAll(Held([], []), [a, b]) == FedAll(Fed(Held([], []), a), [b])
  {
    assert [a, b][1..] == [b];
  }

  /** Exactly when every line fits, what is passed on is the stream's lines, whatever the
      chunks. */
  lemma ChunkIndependentIff(s: Bytes)
    ensures AllFit(s) <==> forall chunks {:trigger Flat(chunks)} ::
              Flat(chunks) == s ==> FedAll(Held([], []), chunks).emitted == Lines(s)
  {
    if AllFit(s) {
      forall chunks | Flat(chunks) == s ensures FedAll(Held([], []), chunks).emitted == Lines(s) {
        assert [] + s == s && [] + Lines(s) == Lines(s);
        ChunksFed(Held([], []), chunks);
      }
    } else {
      var a, b := s, [];
      assert s + [] == s;
      if i :| 0 <= i < |Lines(s)| && |Lines(s)[i]| > MAX_LINE_BUFFER + 1 {
        a, b := LongLineCut(s, i, MAX_LINE_BUFFER);
      }
      CutSplits(s, a, b);
    }
  }
}
