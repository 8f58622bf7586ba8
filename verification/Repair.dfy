/** The two repair passes the API backend runs before every turn
    (assistant/claude.go): `DedupeToolIDs` re-mints every call id and re-pairs results
    first-in-first-out over the whole history; `CloseDanglingToolUses` answers what the
    next message leaves unanswered.

    Ids are minted at random in the source. Here `mint(k)` is the k-th minted id; that
    the ids do not repeat and do not occur in the stored history is a hypothesis. */
module Repair {
  import opened Transcript

  const TOOL_INTERRUPTED_NOTE := "[interrupted: this tool call did not complete and produced no result]"

  ghost predicate Injective(mint: nat -> Id) {
    forall i: nat, j: nat :: mint(i) == mint(j) ==> i == j
  }

  ghost predicate UnusedIn(mint: nat -> Id, history: seq<Message>) {
    forall i, k: nat :: 0 <= i < |history| ==> mint(k) !in ResultIds(history[i])
  }

  // ---- dedupeToolIDs ----------------------------------------------------------

  /** `calls` ids minted so far, `paired` of them handed to a result. The source's queue
      holds mint(paired) .. mint(calls - 1). */
  datatype Pairing = Pairing(calls: nat, paired: nat) {
    ghost predicate Valid() { paired <= calls }
    function After(b: Block): Pairing {
      if b.ToolUse? then Pairing(calls + 1, paired)
      else if b.ToolResult? && paired < calls then Pairing(calls, paired + 1)
      else this
    }
    function Rewrite(b: Block, mint: nat -> Id): Block {
      if b.ToolUse? then b.(id := mint(calls))
      else if b.ToolResult? && paired < calls then b.(useId := mint(paired))
      else b
    }
  }

  function RewriteBlocks(blocks: seq<Block>, mint: nat -> Id, at: Pairing): seq<Block> {
    if blocks == [] then []
    else [at.Rewrite(blocks[0], mint)] + RewriteBlocks(blocks[1..], mint, at.After(blocks[0]))
  }

  function AfterBlocks(blocks: seq<Block>, at: Pairing): Pairing {
    if blocks == [] then at else AfterBlocks(blocks[1..], at.After(blocks[0]))
  }

  function DedupeFrom(history: seq<Message>, mint: nat -> Id, at: Pairing): seq<Message> {
    if history == [] then []
    else
      var m := history[0];
      [m.(content := RewriteBlocks(m.content, mint, at))]
      + DedupeFrom(history[1..], mint, AfterBlocks(m.content, at))
  }

  function Dedupe(history: seq<Message>, mint: nat -> Id): seq<Message> {
    DedupeFrom(history, mint, Pairing(0, 0))
  }

  function Minted(mint: nat -> Id, from: nat, to: nat): (r: seq<Id>)
    requires from <= to
    ensures |r| == to - from
    ensures forall i :: 0 <= i < |r| ==> r[i] == mint(from + i)
  {
    seq(to - from, i requires 0 <= i < to - from => mint(from + i))
  }

  lemma {:induction false} DedupeSnoc(history: seq<Message>, mint: nat -> Id, at: Pairing, m: Message)
    ensures DedupeFrom(history + [m], mint, at) ==
            DedupeFrom(history, mint, at) + [m.(content := RewriteBlocks(m.content, mint, AfterAll(history, at)))]
  {
    if history == [] {
      assert history + [m] == [m] && [m][1..] == [];
    } else {
      assert (history + [m])[1..] == history[1..] + [m];
      DedupeSnoc(history[1..], mint, AfterBlocks(history[0].content, at), m);
    }
  }

  function AfterAll(history: seq<Message>, at: Pairing): Pairing {
    if history == [] then at else AfterAll(history[1..], AfterBlocks(history[0].content, at))
  }

  lemma {:induction false} AfterAllSnoc(history: seq<Message>, at: Pairing, m: Message)
    ensures AfterAll(history + [m], at) == AfterBlocks(m.content, AfterAll(history, at))
  {
    if history == [] {
      assert history + [m] == [m] && [m][1..] == [];
    } else {
      assert (history + [m])[1..] == history[1..] + [m];
      AfterAllSnoc(history[1..], AfterBlocks(history[0].content, at), m);
    }
  }

  lemma {:induction false} RewriteSnoc(blocks: seq<Block>, mint: nat -> Id, at: Pairing, b: Block)
    ensures RewriteBlocks(blocks + [b], mint, at) ==
            RewriteBlocks(blocks, mint, at) + [AfterBlocks(blocks, at).Rewrite(b, mint)]
    ensures AfterBlocks(blocks + [b], at) == AfterBlocks(blocks, at).After(b)
    ensures |RewriteBlocks(blocks, mint, at)| == |blocks|
  {
    if blocks == [] {
      assert blocks + [b] == [b] && [b][1..] == [];
    } else {
      assert (blocks + [b])[1..] == blocks[1..] + [b];
      RewriteSnoc(blocks[1..], mint, at.After(blocks[0]), b);
    }
  }

  lemma {:induction false} AfterBlocksValid(blocks: seq<Block>, at: Pairing)
    requires at.Valid()
    ensures AfterBlocks(blocks, at).Valid()
  {
    if blocks != [] { AfterBlocksValid(blocks[1..], at.After(blocks[0])); }
  }

  /** The pass as the source runs it, with its queue of unanswered ids. */
  method DedupeToolIDs(history: seq<Message>, mint: nat -> Id) returns (out: seq<Message>)
    ensures out == Dedupe(history, mint)
  {
    out := [];
    var queue: seq<Id> := [];
    var minted := 0;
    ghost var at := Pairing(0, 0);
    for i := 0 to |history|
      invariant out == Dedupe(history[..i], mint)
      invariant at == AfterAll(history[..i], Pairing(0, 0)) && at.Valid()
      invariant minted == at.calls && queue == Minted(mint, at.paired, at.calls)
    {
      var msg := history[i];
      var blocks := [];
      ghost var start := at;
      for j := 0 to |msg.content|
        invariant blocks == RewriteBlocks(msg.content[..j], mint, start)
        invariant at == AfterBlocks(msg.content[..j], start) && at.Valid()
        invariant minted == at.calls && queue == Minted(mint, at.paired, at.calls)
      {
        var b := msg.content[j];
        assert msg.content[..j + 1] == msg.content[..j] + [b];
        RewriteSnoc(msg.content[..j], mint, start, b);
        if b.ToolUse? {
          var id := mint(minted);
          minted := minted + 1;
          b := b.(id := id);
          queue := queue + [id];
        } else if b.ToolResult? && |queue| > 0 {
          b := b.(useId := queue[0]);
          queue := queue[1..];
        }
        blocks := blocks + [b];
        at := at.After(msg.content[j]);
      }
      assert msg.content[..|msg.content|] == msg.content;
      assert history[..i + 1] == history[..i] + [msg];
      DedupeSnoc(history[..i], mint, Pairing(0, 0), msg);
      AfterAllSnoc(history[..i], Pairing(0, 0), msg);
      out := out + [Message(msg.role, blocks, msg.model, msg.time)];
    }
    assert history[..|history|] == history;
  }

  // ---- closeDanglingToolUses ----------------------------------------------------

  /** One synthetic error result for every id of `ids` that `answered` does not contain. */
  function Synthetic(ids: seq<Id>, answered: seq<Id>): seq<Block> {
    if ids == [] then []
    else if ids[0] in answered then Synthetic(ids[1..], answered)
    else [ToolResult(ids[0], TOOL_INTERRUPTED_NOTE, true)] + Synthetic(ids[1..], answered)
  }

  /** Synthetic results lead the user message that must follow. */
  function Prepend(synth: seq<Block>, m: Message): Message {
    if synth == [] then m else m.(content := synth + m.content)
  }

  /** The message created for calls that no user message follows. */
  function Leftover(open: seq<Id>): seq<Message> {
    if open == [] then [] else [Message(User, Synthetic(open, []), "", 0)]
  }

  /** The rest of the closed history when the message before it called `open`. */
  function CloseAfter(open: seq<Id>, history: seq<Message>): seq<Message>
    decreases |history|
  {
    if history == [] then Leftover(open)
    else if history[0].role.User? then
      var synth := Synthetic(open, ResultIds(history[0]));
      [Prepend(synth, history[0])]
      + CloseAfter(if synth == [] then CallIds(history[0]) else [], history[1..])
    else
      Leftover(open) + ([history[0]] + CloseAfter(CallIds(history[0]), history[1..]))
  }

  function Close(history: seq<Message>): seq<Message> { CloseAfter([], history) }

  method CollectCallIds(blocks: seq<Block>) returns (ids: seq<Id>)
    ensures ids == BlockCallIds(blocks)
  {
    ids := [];
    for i := 0 to |blocks|
      invariant ids == BlockCallIds(blocks[..i])
    {
      assert blocks[..i + 1] == blocks[..i] + [blocks[i]];
      BlockCallIdsConcat(blocks[..i], [blocks[i]]);
      assert [blocks[i]][1..] == [];
      if blocks[i].ToolUse? { ids := ids + [blocks[i].id]; }
    }
    assert blocks[..|blocks|] == blocks;
  }

  method CollectAnswered(blocks: seq<Block>) returns (answered: set<Id>)
    ensures forall id :: id in answered <==> id in BlockResultIds(blocks)
  {
    answered := {};
    for i := 0 to |blocks|
      invariant forall id :: id in answered <==> id in BlockResultIds(blocks[..i])
    {
      assert blocks[..i + 1] == blocks[..i] + [blocks[i]];
      BlockResultIdsConcat(blocks[..i], [blocks[i]]);
      assert [blocks[i]][1..] == [];
      if blocks[i].ToolResult? { answered := answered + {blocks[i].useId}; }
    }
    assert blocks[..|blocks|] == blocks;
  }

  lemma {:induction false} SyntheticConcat(a: seq<Id>, b: seq<Id>, answered: seq<Id>)
    ensures Synthetic(a + b, answered) == Synthetic(a, answered) + Synthetic(b, answered)
  {
    if a == [] {
      assert a + b == b;
    } else {
      assert (a + b)[1..] == a[1..] + b;
      SyntheticConcat(a[1..], b, answered);
    }
  }

  method Synthesize(ids: seq<Id>, answered: set<Id>, ghost answeredSeq: seq<Id>) returns (synth: seq<Block>)
    requires forall id :: id in answered <==> id in answeredSeq
    ensures synth == Synthetic(ids, answeredSeq)
  {
    synth := [];
    for i := 0 to |ids|
      invariant synth == Synthetic(ids[..i], answeredSeq)
    {
      assert ids[..i + 1] == ids[..i] + [ids[i]];
      SyntheticConcat(ids[..i], [ids[i]], answeredSeq);
      assert [ids[i]][1..] == [];
      if ids[i] !in answered {
        synth := synth + [ToolResult(ids[i], TOOL_INTERRUPTED_NOTE, true)];
      }
    }
    assert ids[..|ids|] == ids;
  }

  /** What one iteration of the source's loop emits for message `msg`, and whether it
      also consumes the message after it. */
  datatype Emitted = Emitted(messages: seq<Message>, takesNext: bool)

  function Step(msg: Message, rest: seq<Message>): (e: Emitted)
    ensures e.takesNext ==> rest != []
  {
    var hasNext := rest != [] && rest[0].role.User?;
    var synth := Synthetic(CallIds(msg), if hasNext then ResultIds(rest[0]) else []);
    if synth == [] then Emitted([msg], false)
    else if hasNext then Emitted([msg, Prepend(synth, rest[0])], true)
    else Emitted([msg, Message(User, synth, "", 0)], false)
  }

  lemma CloseHead(msg: Message, rest: seq<Message>)
    ensures CloseAfter([], [msg] + rest) == [msg] + CloseAfter(CallIds(msg), rest)
  {
    assert ([msg] + rest)[1..] == rest;
    if msg.role.Assistant? {
      assert Leftover([]) + ([msg] + CloseAfter(CallIds(msg), rest)) == [msg] + CloseAfter(CallIds(msg), rest);
    }
  }

  lemma LeftoverSynthetic(open: seq<Id>)
    ensures Synthetic(open, []) == [] <==> open == []
  {
  }

  lemma CloseStep(msg: Message, rest: seq<Message>)
    ensures var e := Step(msg, rest);
            CloseAfter([], [msg] + rest) == e.messages + CloseAfter([], if e.takesNext then rest[1..] else rest)
  {
    CloseHead(msg, rest);
    var ids := CallIds(msg);
    if rest != [] && rest[0].role.User? {
      CloseStepUser(msg, rest);
    } else {
      CloseSplit(ids, rest);
      StepAlone(msg, rest);
    }
  }

  lemma StepAlone(msg: Message, rest: seq<Message>)
    requires rest == [] || rest[0].role.Assistant?
    ensures Step(msg, rest) == Emitted([msg] + Leftover(CallIds(msg)), false)
  {
    LeftoverSynthetic(CallIds(msg));
  }

  lemma CloseStepUser(msg: Message, rest: seq<Message>)
    requires rest != [] && rest[0].role.User?
    ensures var e := Step(msg, rest);
            [msg] + CloseAfter(CallIds(msg), rest) ==
            e.messages + CloseAfter([], if e.takesNext then rest[1..] else rest)
  {
    var synth := Synthetic(CallIds(msg), ResultIds(rest[0]));
    assert Synthetic([], ResultIds(rest[0])) == [];
  }

  lemma CloseSplit(open: seq<Id>, rest: seq<Message>)
    requires rest == [] || rest[0].role.Assistant?
    ensures CloseAfter(open, rest) == Leftover(open) + CloseAfter([], rest)
  {
  }

  method EmitFor(history: seq<Message>, i: nat) returns (out: seq<Message>, takesNext: bool)
    requires i < |history|
    ensures Emitted(out, takesNext) == Step(history[i], history[i + 1..])
  {
    var msg := history[i];
    var ids := CollectCallIds(msg.content);
    var hasNext := i + 1 < |history| && history[i + 1].role.User?;
    var answered := {};
    if hasNext {
      answered := CollectAnswered(history[i + 1].content);
    }
    var synth := Synthesize(ids, answered, if hasNext then ResultIds(history[i + 1]) else []);
    if |synth| == 0 {
      return [msg], false;
    } else if hasNext {
      var next := history[i + 1];
      return [msg, next.(content := synth + next.content)], true;
    } else {
      return [msg, Message(User, synth, "", 0)], false;
    }
  }

  /** What is still to be emitted when the loop stands at message `i`. */
  ghost function Remaining(history: seq<Message>, i: nat): seq<Message>
    requires i <= |history|
  {
    CloseAfter([], history[i..])
  }

  lemma RemainingStep(history: seq<Message>, i: nat)
    requires i < |history|
    ensures var e := Step(history[i], history[i + 1..]);
            i + 1 + (if e.takesNext then 1 else 0) <= |history| &&
            Remaining(history, i) == e.messages + Remaining(history, if e.takesNext then i + 2 else i + 1)
  {
    CloseStep(history[i], history[i + 1..]);
    assert [history[i]] + history[i + 1..] == history[i..];
  }

  /** The pass as the source runs it: an index loop that may emit two messages at once. */
  method CloseDanglingToolUses(history: seq<Message>) returns (out: seq<Message>)
    ensures out == Close(history)
  {
    out := [];
    var i := 0;
    assert Close(history) == out + Remaining(history, 0) by { assert history[0..] == history; }
    while i < |history|
      invariant 0 <= i <= |history|
      invariant Close(history) == out + Remaining(history, i)
    {
      var emitted, takesNext := EmitFor(history, i);
      RemainingStep(history, i);
      out := out + emitted;
      i := if takesNext then i + 2 else i + 1;
    }
  }
}
