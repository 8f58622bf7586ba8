/** Laws of the closing pass alone, and the histories the repair heals. */
module CloseLaws {
  import opened Transcript
  import opened Repair
  import opened PairingLaws

  // ---- Nothing else is touched ----------------------------------------------------------------

  /** The same block, whatever id it carries. */
  predicate SameButId(a: Block, b: Block) {
    match b
    case ToolUse(_, name, input) => a.ToolUse? && a.name == name && a.input == input
    case ToolResult(_, output, isError) => a.ToolResult? && a.output == output && a.isError == isError
    case _ => a == b
  }

  lemma {:induction false} RewriteKeeps(blocks: seq<Block>, mint: nat -> Id, at: Pairing)
    ensures var out := RewriteBlocks(blocks, mint, at);
            |out| == |blocks| && forall j :: 0 <= j < |blocks| ==> SameButId(out[j], blocks[j])
  {
    if blocks != [] { RewriteKeeps(blocks[1..], mint, at.After(blocks[0])); }
  }

  /** Re-minting changes ids and nothing else: every message and every block stays where it is. */
  lemma {:induction false} DedupeKeepsRest(history: seq<Message>, mint: nat -> Id, at: Pairing, i: nat)
    requires i < |history|
    ensures var out := DedupeFrom(history, mint, at);
            && |out| == |history| && |out[i].content| == |history[i].content|
            && out[i].role == history[i].role && out[i].model == history[i].model && out[i].time == history[i].time
            && forall j :: 0 <= j < |history[i].content| ==> SameButId(out[i].content[j], history[i].content[j])
    decreases |history|
  {
    RewriteKeeps(history[0].content, mint, at);
    var next := AfterBlocks(history[0].content, at);
    if |history| > 1 {
      DedupeKeepsRest(history[1..], mint, next, if i > 0 then i - 1 else 0);
    } else {
      assert history[1..] == [] && DedupeFrom([], mint, next) == [];
    }
  }

  /** What the closing pass writes. */
  predicate IsNote(b: Block) {
    b.ToolResult? && b.isError
    && b.output == "[interrupted: this tool call did not complete and produced no result]"
  }

  function WithoutNotes(blocks: seq<Block>): seq<Block> {
    if blocks == [] then []
    else if IsNote(blocks[0]) then WithoutNotes(blocks[1..])
    else [blocks[0]] + WithoutNotes(blocks[1..])
  }

  lemma {:induction false} WithoutNotesConcat(a: seq<Block>, b: seq<Block>)
    ensures WithoutNotes(a + b) == WithoutNotes(a) + WithoutNotes(b)
  {
    if a == [] {
      assert a + b == b;
    } else {
      assert (a + b)[1..] == a[1..] + b;
      WithoutNotesConcat(a[1..], b);
    }
  }

  lemma {:induction false} NothingToDrop(blocks: seq<Block>)
    requires forall j :: 0 <= j < |blocks| ==> !IsNote(blocks[j])
    ensures WithoutNotes(blocks) == blocks
  {
    if blocks != [] { NothingToDrop(blocks[1..]); }
  }

  lemma {:induction false} SyntheticIsNotes(ids: seq<Id>, answered: seq<Id>)
    ensures WithoutNotes(Synthetic(ids, answered)) == []
  {
    if ids != [] {
      SyntheticIsNotes(ids[1..], answered);
      if ids[0] !in answered { assert Synthetic(ids, answered)[1..] == Synthetic(ids[1..], answered); }
    }
  }

  /** Takes the notes out again, and with them the messages that held nothing else. */
  function Reopened(history: seq<Message>): seq<Message> {
    if history == [] then []
    else
      var kept := WithoutNotes(history[0].content);
      if kept == [] && history[0].content != [] then Reopened(history[1..])
      else [history[0].(content := kept)] + Reopened(history[1..])
  }

  /** No message is empty or holds such a note already. */
  ghost predicate NoNotes(history: seq<Message>) {
    && (forall i :: 0 <= i < |history| ==> history[i].content != [])
    && (forall i, j :: 0 <= i < |history| && 0 <= j < |history[i].content| ==> !IsNote(history[i].content[j]))
  }

  lemma ReopenedCons(m: Message, rest: seq<Message>)
    requires WithoutNotes(m.content) != [] || m.content == []
    ensures Reopened([m] + rest) == [m.(content := WithoutNotes(m.content))] + Reopened(rest)
  {
    assert ([m] + rest)[1..] == rest;
  }

  lemma ReopenedLeftover(open: seq<Id>, rest: seq<Message>)
    ensures Reopened(Leftover(open) + rest) == Reopened(rest)
  {
    if open == [] {
      assert Leftover(open) + rest == rest;
    } else {
      SyntheticIsNotes(open, []);
      SyntheticEmptyIff(open, []);
      var none: seq<Id> := [];
      assert open[0] !in none;
      assert (Leftover(open) + rest)[1..] == rest;
    }
  }

  /** Closing adds error notes and nothing else: without them the history is what it was. */
  lemma {:induction false} CloseAddsOnlyNotes(open: seq<Id>, history: seq<Message>)
    requires NoNotes(history)
    ensures Reopened(CloseAfter(open, history)) == history
    decreases |history|
  {
    if history == [] {
      ReopenedLeftover(open, []);
      assert Leftover(open) + [] == Leftover(open);
    } else {
      var m, tail := history[0], history[1..];
      NothingToDrop(m.content);
      assert history == [m] + tail;
      if m.role.User? {
        var synth := Synthetic(open, ResultIds(m));
        SyntheticIsNotes(open, ResultIds(m));
        WithoutNotesConcat(synth, m.content);
        var next := if synth == [] then CallIds(m) else [];
        CloseAddsOnlyNotes(next, tail);
        PrependReopened(synth, m, CloseAfter(next, tail));
      } else {
        CloseAddsOnlyNotes(CallIds(m), tail);
        ReopenedCons(m, CloseAfter(CallIds(m), tail));
        ReopenedLeftover(open, [m] + CloseAfter(CallIds(m), tail));
      }
    }
  }

  lemma PrependReopened(synth: seq<Block>, m: Message, rest: seq<Message>)
    requires WithoutNotes(synth + m.content) == m.content && (m.content == [] ==> synth == [])
    ensures Reopened([Prepend(synth, m)] + rest) == [m] + Reopened(rest)
  {
    if synth == [] { assert synth + m.content == m.content; }
    ReopenedCons(Prepend(synth, m), rest);
  }

  // ---- Idempotence ---------------------------------------------------------------

  lemma {:induction false} SyntheticEmptyIff(open: seq<Id>, answered: seq<Id>)
    ensures Synthetic(open, answered) == [] <==> forall i :: 0 <= i < |open| ==> open[i] in answered
  {
    if open != [] {
      SyntheticEmptyIff(open[1..], answered);
      if Synthetic(open, answered) == [] {
        forall i | 0 <= i < |open| ensures open[i] in answered {
          if i > 0 { assert open[i] == open[1..][i - 1]; }
        }
      }
    }
  }

  lemma {:induction false} UnansweredComplete(open: seq<Id>, answered: seq<Id>)
    ensures forall i :: 0 <= i < |open| ==> open[i] in Unanswered(open, answered) + answered
  {
    if open != [] {
      UnansweredComplete(open[1..], answered);
      forall i | 0 <= i < |open| ensures open[i] in Unanswered(open, answered) + answered {
        if i > 0 {
          assert open[i] == open[1..][i - 1];
          assert open[i] in Unanswered(open[1..], answered) || open[i] in answered;
        }
      }
    }
  }

  /** A user message that answers all of `open` and calls nothing is passed over. */
  lemma CloseAfterComplete(open: seq<Id>, m: Message, rest: seq<Message>)
    requires m.role.User? && CallIds(m) == []
    requires forall i :: 0 <= i < |open| ==> open[i] in ResultIds(m)
    ensures CloseAfter(open, [m] + rest) == [m] + CloseAfter([], rest)
  {
    SyntheticEmptyIff(open, ResultIds(m));
    assert ([m] + rest)[1..] == rest;
  }

  lemma {:induction false} CloseAfterIdempotent(open: seq<Id>, h: seq<Message>)
    requires WellRoled(h)
    ensures CloseAfter(open, CloseAfter(open, h)) == CloseAfter(open, h)
    decreases |h|
  {
    SyntheticIds(open, []);
    UnansweredNone(open);
    var left := Message(User, Synthetic(open, []), "", 0);
    if h == [] {
      if open != [] {
        CloseAfterComplete(open, left, []);
        assert [left] + [] == [left];
      }
    } else {
      assert RolesKept(h[0]);
      if h[0].role.User? {
        PrependIds(open, h[0]);
        UnansweredComplete(open, ResultIds(h[0]));
        CloseAfterIdempotent([], h[1..]);
        CloseAfterComplete(open, Prepend(Synthetic(open, ResultIds(h[0])), h[0]), CloseAfter([], h[1..]));
      } else {
        var tail := [h[0]] + CloseAfter(CallIds(h[0]), h[1..]);
        CloseAfterIdempotent(CallIds(h[0]), h[1..]);
        CloseHead(h[0], CloseAfter(CallIds(h[0]), h[1..]));
        if open == [] {
          assert Leftover(open) + tail == tail;
        } else {
          CloseAfterComplete(open, left, tail);
        }
      }
    }
  }

  /** Repairing twice is repairing once. */
  lemma CloseIdempotent(h: seq<Message>)
    requires WellRoled(h)
    ensures Close(Close(h)) == Close(h)
  {
    CloseAfterIdempotent([], h);
  }

  // ---- Exactly the complete histories are left alone ----------------------------------

  /** Every call is answered by the user message right after it. */
  ghost predicate AllAnswered(h: seq<Message>) {
    forall i, id :: 0 <= i < |h| && id in CallIds(h[i]) ==>
      i + 1 < |h| && h[i + 1].role.User? && id in ResultIds(h[i + 1])
  }

  ghost predicate AnsweredAfter(open: seq<Id>, h: seq<Message>)
    decreases |h|
  {
    && (open != [] ==> h != [] && h[0].role.User? && forall i :: 0 <= i < |open| ==> open[i] in ResultIds(h[0]))
    && (h != [] ==> AnsweredAfter(CallIds(h[0]), h[1..]))
  }

  lemma {:induction false} CloseGrows(open: seq<Id>, h: seq<Message>)
    ensures |CloseAfter(open, h)| >= |h|
    decreases |h|
  {
    if h != [] {
      if h[0].role.User? {
        CloseGrows(if Synthetic(open, ResultIds(h[0])) == [] then CallIds(h[0]) else [], h[1..]);
      } else {
        CloseGrows(CallIds(h[0]), h[1..]);
      }
    }
  }

  lemma {:induction false} CloseFixesIff(open: seq<Id>, h: seq<Message>)
    requires WellRoled(h)
    ensures CloseAfter(open, h) == h <==> AnsweredAfter(open, h)
    decreases |h|
  {
    if h != [] {
      assert RolesKept(h[0]);
      CloseFixesIff(CallIds(h[0]), h[1..]);
      var c := CloseAfter(open, h);
      if h[0].role.User? {
        SyntheticEmptyIff(open, ResultIds(h[0]));
        assert c[1..] == CloseAfter([], h[1..]);
        if c == h {
          assert |c[0].content| == |h[0].content|;
        }
      } else {
        CloseGrows(CallIds(h[0]), h[1..]);
        var tail := [h[0]] + CloseAfter(CallIds(h[0]), h[1..]);
        if open == [] {
          assert c == tail && tail[1..] == CloseAfter(CallIds(h[0]), h[1..]);
        }
      }
    }
  }

  lemma AllAnsweredTail(h: seq<Message>)
    requires h != []
    ensures AllAnswered(h) <==>
            && (forall id :: id in CallIds(h[0]) ==> 1 < |h| && h[1].role.User? && id in ResultIds(h[1]))
            && AllAnswered(h[1..])
  {
    var t := h[1..];
    if AllAnswered(h) {
      forall i, id | 0 <= i < |t| && id in CallIds(t[i])
        ensures i + 1 < |t| && t[i + 1].role.User? && id in ResultIds(t[i + 1])
      {
        assert id in CallIds(h[i + 1]);
      }
    }
    if (forall id :: id in CallIds(h[0]) ==> 1 < |h| && h[1].role.User? && id in ResultIds(h[1])) && AllAnswered(t) {
      forall i, id | 0 <= i < |h| && id in CallIds(h[i])
        ensures i + 1 < |h| && h[i + 1].role.User? && id in ResultIds(h[i + 1])
      {
        if i > 0 { assert id in CallIds(t[i - 1]); }
      }
    }
  }

  lemma {:induction false} AnsweredAfterIff(open: seq<Id>, h: seq<Message>)
    ensures AnsweredAfter(open, h) <==>
            && (open != [] ==> h != [] && h[0].role.User? && forall i :: 0 <= i < |open| ==> open[i] in ResultIds(h[0]))
            && AllAnswered(h)
    decreases |h|
  {
    if h != [] {
      AnsweredAfterIff(CallIds(h[0]), h[1..]);
      AllAnsweredTail(h);
      if CallIds(h[0]) != [] { assert CallIds(h[0])[0] in CallIds(h[0]); }
    }
  }

  /** The pass changes nothing exactly when every call already has its answer next to it. */
  lemma CloseUnchangedIff(h: seq<Message>)
    requires WellRoled(h)
    ensures Close(h) == h <==> AllAnswered(h)
  {
    CloseFixesIff([], h);
    AnsweredAfterIff([], h);
  }

  lemma PairedIsAnswered(h: seq<Message>)
    requires StrictlyPaired(h)
    ensures Close(h) == h
  {
    forall i, id | 0 <= i < |h| && id in CallIds(h[i])
      ensures i + 1 < |h| && h[i + 1].role.User? && id in ResultIds(h[i + 1])
    {
      assert multiset(CallsAt(h, i)) == multiset(ResultsAt(h, i + 1));
      assert id in multiset(CallsAt(h, i));
      assert id in ResultsAt(h, i + 1);
      assert RolesKept(h[i + 1]);
    }
    CloseUnchangedIff(h);
  }

  // ---- Which interrupted histories heal -------------------------------------------------

  lemma {:induction false} AlignedBehindPaired(open: seq<Id>, g: seq<Message>, t: seq<Message>)
    requires PairedAfter(open, g)
    ensures Aligned(g + t, |open|, |open|) <==> Aligned(t, 0, 0)
    decreases |g|
  {
    if g == [] {
      assert g + t == t;
    } else {
      assert (g + t)[0] == g[0] && (g + t)[1..] == g[1..] + t;
      assert |multiset(ResultIds(g[0]))| == |multiset(open)|;
      AlignedHead(g + t, |open|, |open|);
      AlignedBehindPaired(CallIds(g[0]), g[1..], t);
    }
  }

  /** The promise in the source: a turn cut off between the reply and its results is
      repaired when the owner's next message arrives. */
  lemma InterruptedTurnHeals(g: seq<Message>, reply: Message, next: Message, mint: nat -> Id)
    requires StrictlyPaired(g) && Injective(mint) && UnusedIn(mint, g + [reply, next])
    requires reply.role.Assistant? && ResultIds(reply) == []
    requires next.role.User? && CallIds(next) == [] && ResultIds(next) == []
    ensures StrictlyPaired(Close(Dedupe(g + [reply, next], mint)))
  {
    var h := g + [reply, next];
    StrictlyPairedIff(g);
    AlignedBehindPaired([], g, [reply, next]);
    assert Aligned([reply, next], 0, 0) by {
      assert [reply, next][1..] == [next] && [next][1..] == [];
      AlignedHead([reply, next], 0, 0);
      AlignedHead([next], CallCount(reply.content), CallCount(reply.content));
    }
    RepairSucceedsIff(h, mint);
  }

  lemma SingleIds(b: Block)
    ensures BlockCallIds([b]) == if b.ToolUse? then [b.id] else []
    ensures BlockResultIds([b]) == if b.ToolResult? then [b.useId] else []
  {
    assert [b][1..] == [];
  }

  /** It does not heal when another turn was answered after the interrupted one: results
      shift onto older calls. A concrete transcript, for any minted ids. */
  lemma InterruptedThenAnsweredFails(mint: nat -> Id, a: Id, b: Id)
    requires Injective(mint) && forall k: nat :: mint(k) != b
    ensures var h := [Message(Assistant, [ToolUse(a, "read_file", "{}")], "", 0),
                      Message(User, [Text("again")], "", 0),
                      Message(Assistant, [ToolUse(b, "read_file", "{}")], "", 0),
                      Message(User, [ToolResult(b, "ok", false)], "", 0)];
            WellRoled(h) && !StrictlyPaired(Close(Dedupe(h, mint)))
  {
    var m0 := Message(Assistant, [ToolUse(a, "read_file", "{}")], "", 0);
    var m1 := Message(User, [Text("again")], "", 0);
    var m2 := Message(Assistant, [ToolUse(b, "read_file", "{}")], "", 0);
    var m3 := Message(User, [ToolResult(b, "ok", false)], "", 0);
    var h := [m0, m1, m2, m3];
    SingleIds(m0.content[0]);
    SingleIds(m1.content[0]);
    SingleIds(m2.content[0]);
    SingleIds(m3.content[0]);
    assert RolesKept(m0) && RolesKept(m1) && RolesKept(m2) && RolesKept(m3);
    assert ResultIds(m3) == [b] && ResultIds(m0) == [] && ResultIds(m1) == [] && ResultIds(m2) == [];
    assert h[1..] == [m1, m2, m3] && [m1, m2, m3][1..] == [m2, m3] && [m2, m3][1..] == [m3];
    AlignedHead(h, 0, 0);
    AlignedHead([m1, m2, m3], 1, 1);
    AlignedHead([m2, m3], 0, 1);
    AlignedHead([m3], 1, 2);
    RepairSucceedsIff(h, mint);
  }
}
