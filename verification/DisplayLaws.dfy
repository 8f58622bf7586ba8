/** Repair preserves what the owner sees: the re-minted transcript shows the same items,
    and the closed one differs only in the calls that never got an answer. */
module DisplayLaws {
  import opened Transcript
  import opened Repair
  import opened PairingLaws

  // ---- The display, block by block ------------------------------------------------------------

  /** The blocks that have an item of their own: texts, but for the note about uploads, and calls. */
  predicate Appears(b: Placed) {
    (b.block.Text? && !(b.role.User? && ATTACHMENT_NOTE_PREFIX <= b.block.text)) || b.block.ToolUse?
  }

  function CountShown(flat: seq<Placed>): nat {
    if flat == [] then 0 else (if Appears(flat[0]) then 1 else 0) + CountShown(flat[1..])
  }

  /** Who is shown to have said what, and which call with which result. */
  ghost predicate Displays(item: Item, b: Placed, rest: seq<Placed>) {
    && (b.block.Text? && b.role.User? ==> item == UserText(b.block.text))
    && (b.block.Text? && b.role.Assistant? ==> item == ReplyText(b.block.text, b.model, b.time))
    && (b.block.ToolUse? ==>
          && item.ToolItem? && item.tool == b.block.name && item.input == b.block.input
          && (forall r :: Answer(b.block.id, rest) == Some(r) ==> item.output == r.output && item.isError == r.isError)
          && (Answer(b.block.id, rest) == None ==> item.output == "" && !item.isError))
  }

  /** The items are those of the blocks that have one, in their order. */
  lemma {:induction false} ItemAt(flat: seq<Placed>, i: nat)
    requires i < |flat|
    ensures |ItemsOf(flat)| == CountShown(flat)
    ensures Appears(flat[i]) ==>
              var k := CountShown(flat[..i]); k < |ItemsOf(flat)| && Displays(ItemsOf(flat)[k], flat[i], flat[i + 1..])
  {
    if |flat| == 1 {
      assert flat[1..] == [] && ItemsOf([]) == [];
    } else {
      ItemAt(flat[1..], if i > 0 then i - 1 else 0);
    }
    if i > 0 {
      assert flat[..i][1..] == flat[1..][..i - 1] && flat[1..][i..] == flat[i + 1..];
    }
  }

  predicate Calls(b: Placed, id: Id) { b.block.ToolUse? && b.block.id == id }

  predicate Answers(b: Placed, id: Id) { b.block.ToolResult? && b.block.useId == id }

  /** Where the id is used again. */
  function NextCall(id: Id, rest: seq<Placed>): (n: nat)
    ensures n <= |rest| && (n < |rest| ==> Calls(rest[n], id)) && forall i :: 0 <= i < n ==> !Calls(rest[i], id)
  {
    if rest == [] || Calls(rest[0], id) then 0 else 1 + NextCall(id, rest[1..])
  }

  ghost predicate LastAnswer(id: Id, rest: seq<Placed>, k: int) {
    && 0 <= k < NextCall(id, rest) && Answers(rest[k], id)
    && forall j :: k < j < NextCall(id, rest) ==> !Answers(rest[j], id)
  }

  /** A call shows the last result addressed to it before its id is used again. */
  lemma {:induction false} AnswerIff(id: Id, rest: seq<Placed>, r: Reply)
    ensures Answer(id, rest) == Some(r) <==>
            exists k :: LastAnswer(id, rest, k) && rest[k].block == ToolResult(id, r.output, r.isError)
    ensures Answer(id, rest) == None <==> forall k :: 0 <= k < NextCall(id, rest) ==> !Answers(rest[k], id)
  {
    if rest != [] && !Calls(rest[0], id) {
      var tail := rest[1..];
      AnswerIff(id, tail, r);
      forall k ensures LastAnswer(id, tail, k) ==> LastAnswer(id, rest, k + 1) {
        if LastAnswer(id, tail, k) { Shift(id, rest, k); }
      }
      if k :| LastAnswer(id, rest, k) && rest[k].block == ToolResult(id, r.output, r.isError) {
        if k > 0 { Unshift(id, rest, k); }
      }
      if Answer(id, tail) == None && Answers(rest[0], id) {
        forall j | 0 < j < NextCall(id, rest) ensures !Answers(rest[j], id) { assert rest[j] == tail[j - 1]; }
        assert LastAnswer(id, rest, 0);
      }
    }
  }

  lemma Shift(id: Id, rest: seq<Placed>, k: int)
    requires rest != [] && !Calls(rest[0], id) && LastAnswer(id, rest[1..], k)
    ensures LastAnswer(id, rest, k + 1) && rest[k + 1] == rest[1..][k]
  {
    forall j | k + 1 < j < NextCall(id, rest) ensures !Answers(rest[j], id) { assert rest[j] == rest[1..][j - 1]; }
  }

  lemma Unshift(id: Id, rest: seq<Placed>, k: int)
    requires rest != [] && !Calls(rest[0], id) && LastAnswer(id, rest, k) && k > 0
    ensures LastAnswer(id, rest[1..], k - 1) && rest[k] == rest[1..][k - 1]
  {
    forall j | k - 1 < j < NextCall(id, rest[1..]) ensures !Answers(rest[1..][j], id) {
      assert rest[1..][j] == rest[j + 1];
    }
  }

  /** The blocks of a history, message by message, each with its message's role, model and time. */
  lemma FlattenAt(history: seq<Message>, m: nat, j: nat)
    requires m < |history| && j < |history[m].content|
    ensures var at := |Flatten(history[..m])| + j;
            at < |Flatten(history)| && Flatten(history)[at] ==
            Placed(history[m].role, history[m].model, history[m].time, history[m].content[j])
    ensures |Flatten(history[..m + 1])| == |Flatten(history[..m])| + |history[m].content|
  {
    FlattenSnoc(history, m);
    FlattenConcat(history[..m + 1], history[m + 1..]);
    assert history == history[..m + 1] + history[m + 1..];
  }

  // ---- dedupeToolIDs and the display ------------------------------------------------

  function RewriteFlat(flat: seq<Placed>, mint: nat -> Id, at: Pairing): seq<Placed> {
    if flat == [] then []
    else [flat[0].(block := at.Rewrite(flat[0].block, mint))] + RewriteFlat(flat[1..], mint, at.After(flat[0].block))
  }

  lemma {:induction false} RewritePlaced(m: Message, blocks: seq<Block>, rest: seq<Placed>,
                                         mint: nat -> Id, at: Pairing)
    ensures RewriteFlat(PlaceAll(m, blocks) + rest, mint, at) ==
            PlaceAll(m, RewriteBlocks(blocks, mint, at)) + RewriteFlat(rest, mint, AfterBlocks(blocks, at))
    decreases |blocks|
  {
    if blocks == [] {
      assert PlaceAll(m, blocks) + rest == rest;
      assert PlaceAll(m, RewriteBlocks(blocks, mint, at)) == [];
    } else {
      var flat := PlaceAll(m, blocks) + rest;
      assert flat[1..] == PlaceAll(m, blocks[1..]) + rest;
      RewritePlaced(m, blocks[1..], rest, mint, at.After(blocks[0]));
      assert PlaceAll(m, RewriteBlocks(blocks, mint, at))
          == [Placed(m.role, m.model, m.time, at.Rewrite(blocks[0], mint))]
             + PlaceAll(m, RewriteBlocks(blocks[1..], mint, at.After(blocks[0])));
    }
  }

  lemma {:induction false} FlattenDedupe(h: seq<Message>, mint: nat -> Id, at: Pairing)
    ensures Flatten(DedupeFrom(h, mint, at)) == RewriteFlat(Flatten(h), mint, at)
    decreases |h|
  {
    if h != [] {
      DedupeHead(h, mint, at);
      var d := DedupeFrom(h, mint, at);
      FlattenDedupe(h[1..], mint, AfterBlocks(h[0].content, at));
      RewritePlaced(h[0], h[0].content, Flatten(h[1..]), mint, at);
      assert PlaceAll(d[0], d[0].content) == PlaceAll(h[0], d[0].content);
    }
  }

  /** Call ids never repeat, and each result answers the oldest unanswered call. `seen` are
      the calls so far, the first `answered` of them answered. */
  predicate FirstInFirstOut(flat: seq<Placed>, seen: seq<Id>, answered: nat) {
    if flat == [] then true
    else
      match flat[0].block
      case ToolUse(id, _, _) => id !in seen && FirstInFirstOut(flat[1..], seen + [id], answered)
      case ToolResult(useId, _, _) =>
        answered < |seen| && useId == seen[answered] && FirstInFirstOut(flat[1..], seen, answered + 1)
      case _ => FirstInFirstOut(flat[1..], seen, answered)
  }

  lemma {:induction false} AnswerRenamed(flat: seq<Placed>, seen: seq<Id>, answered: nat, k: nat, mint: nat -> Id)
    requires Injective(mint) && Distinct(seen) && FirstInFirstOut(flat, seen, answered) && k < |seen|
    ensures Answer(seen[k], flat) == Answer(mint(k), RewriteFlat(flat, mint, Pairing(|seen|, answered)))
    decreases |flat|
  {
    if flat != [] {
      var at := Pairing(|seen|, answered);
      var r := RewriteFlat(flat, mint, at);
      assert r[1..] == RewriteFlat(flat[1..], mint, at.After(flat[0].block));
      match flat[0].block {
        case ToolUse(id, _, _) =>
          AnswerRenamed(flat[1..], seen + [id], answered, k, mint);
          assert seen[k] in seen;
        case ToolResult(useId, _, _) =>
          AnswerRenamed(flat[1..], seen, answered + 1, k, mint);
        case _ =>
          AnswerRenamed(flat[1..], seen, answered, k, mint);
      }
    }
  }

  lemma {:induction false} ItemsRenamed(flat: seq<Placed>, seen: seq<Id>, answered: nat, mint: nat -> Id)
    requires Injective(mint) && Distinct(seen) && FirstInFirstOut(flat, seen, answered)
    ensures ItemsOf(RewriteFlat(flat, mint, Pairing(|seen|, answered))) == ItemsOf(flat)
    decreases |flat|
  {
    if flat != [] {
      var at := Pairing(|seen|, answered);
      var r := RewriteFlat(flat, mint, at);
      assert r[1..] == RewriteFlat(flat[1..], mint, at.After(flat[0].block));
      match flat[0].block {
        case ToolUse(id, _, _) =>
          ItemsRenamed(flat[1..], seen + [id], answered, mint);
          AnswerRenamed(flat[1..], seen + [id], answered, |seen|, mint);
        case ToolResult(useId, _, _) =>
          ItemsRenamed(flat[1..], seen, answered + 1, mint);
        case _ =>
          ItemsRenamed(flat[1..], seen, answered, mint);
      }
    }
  }

  /** Re-minting the ids of a first-in-first-out transcript does not change the display. */
  lemma DedupeKeepsDisplay(h: seq<Message>, mint: nat -> Id)
    requires Injective(mint) && FirstInFirstOut(Flatten(h), [], 0)
    ensures ItemsOf(Flatten(Dedupe(h, mint))) == ItemsOf(Flatten(h))
  {
    FlattenDedupe(h, mint, Pairing(0, 0));
    ItemsRenamed(Flatten(h), [], 0, mint);
  }

  // ---- closeDanglingToolUses and the display -------------------------------------------

  const INTERRUPTED := Reply(TOOL_INTERRUPTED_NOTE, true)

  function OrInterrupted(answer: Option<Reply>): Option<Reply> {
    if answer.None? then Some(INTERRUPTED) else answer
  }

  function ShownClosed(b: Placed, rest: seq<Placed>): seq<Item> {
    if b.block.ToolUse? then [ToolShown(b.block.name, b.block.input, OrInterrupted(Answer(b.block.id, rest)))]
    else Shown(b, rest)
  }

  /** The display of a transcript in which every call that never got an answer carries the
      interrupted note and the error flag, and nothing else differs. */
  function ClosedItemsOf(flat: seq<Placed>): seq<Item> {
    if flat == [] then [] else ShownClosed(flat[0], flat[1..]) + ClosedItemsOf(flat[1..])
  }

  lemma {:induction false} NotCalledHere(id: Id, m: Message, blocks: seq<Block>)
    requires id !in BlockCallIds(blocks)
    ensures CallIndex(id, PlaceAll(m, blocks)).None?
    decreases |blocks|
  {
    if blocks != [] {
      assert PlaceAll(m, blocks)[1..] == PlaceAll(m, blocks[1..]);
      NotCalledHere(id, m, blocks[1..]);
    }
  }

  lemma {:induction false} NotAnsweredHere(id: Id, m: Message, blocks: seq<Block>)
    ensures id !in BlockResultIds(blocks) ==> Answer(id, PlaceAll(m, blocks)).None?
    ensures id in BlockResultIds(blocks) && id !in BlockCallIds(blocks) ==> Answer(id, PlaceAll(m, blocks)).Some?
    decreases |blocks|
  {
    if blocks != [] {
      assert PlaceAll(m, blocks)[1..] == PlaceAll(m, blocks[1..]);
      NotAnsweredHere(id, m, blocks[1..]);
    }
  }

  lemma {:induction false} SyntheticAnswer(id: Id, m: Message, open: seq<Id>, answered: seq<Id>)
    ensures Answer(id, PlaceAll(m, Synthetic(open, answered))) ==
            if id in open && id !in answered then Some(INTERRUPTED) else None
    decreases |open|
  {
    var placed := PlaceAll(m, Synthetic(open, answered));
    if open != [] {
      SyntheticAnswer(id, m, open[1..], answered);
      if open[0] !in answered {
        assert placed[1..] == PlaceAll(m, Synthetic(open[1..], answered));
      }
    }
  }

  /** Looking past a message that does not call `id`. */
  lemma AnswerPast(id: Id, m: Message, blocks: seq<Block>, rest: seq<Placed>)
    requires id !in BlockCallIds(blocks)
    ensures Answer(id, PlaceAll(m, blocks) + rest) ==
            if Answer(id, rest).Some? then Answer(id, rest) else Answer(id, PlaceAll(m, blocks))
  {
    NotCalledHere(id, m, blocks);
    AnswerConcat(id, PlaceAll(m, blocks), rest);
  }

  lemma AnswerPrepended(id: Id, m: Message, open: seq<Id>, rest: seq<Placed>)
    requires id !in CallIds(m)
    ensures var synth := Synthetic(open, ResultIds(m));
            var p := Prepend(synth, m);
            Answer(id, PlaceAll(p, p.content) + rest) ==
            if id in open then OrInterrupted(Answer(id, PlaceAll(m, m.content) + rest))
            else Answer(id, PlaceAll(m, m.content) + rest)
  {
    var synth := Synthetic(open, ResultIds(m));
    var p := Prepend(synth, m);
    SyntheticIds(open, ResultIds(m));
    SyntheticAnswer(id, m, open, ResultIds(m));
    NotAnsweredHere(id, m, m.content);
    AnswerPast(id, m, m.content, rest);
    if synth == [] {
      SyntheticInOpen(id, open, ResultIds(m));
    } else {
      AnswerPast(id, m, synth, PlaceAll(m, m.content) + rest);
      PlacePrepended(m, synth, rest);
    }
  }

  lemma {:induction false} SyntheticInOpen(id: Id, open: seq<Id>, answered: seq<Id>)
    requires Synthetic(open, answered) == []
    ensures id in open ==> id in answered
  {
    if open != [] {
      SyntheticInOpen(id, open[1..], answered);
      if id in open && id != open[0] { assert id in open[1..]; }
    }
  }

  lemma AnswerLeftover(id: Id, open: seq<Id>, rest: seq<Placed>)
    ensures Answer(id, Flatten(Leftover(open)) + rest) ==
            if id in open then OrInterrupted(Answer(id, rest)) else Answer(id, rest)
  {
    if open == [] {
      assert Flatten(Leftover(open)) + rest == rest;
    } else {
      var m := Message(User, Synthetic(open, []), "", 0);
      assert Leftover(open)[1..] == [];
      assert Flatten(Leftover(open)) == PlaceAll(m, m.content);
      SyntheticIds(open, []);
      SyntheticAnswer(id, m, open, []);
      AnswerPast(id, m, m.content, rest);
    }
  }

  /** What the closing pass adds to the answers of a call made just before, or long before. */
  lemma {:induction false} AnswerClosed(id: Id, open: seq<Id>, h: seq<Message>)
    requires WellRoled(h) && id !in AllCallIds(h)
    ensures Answer(id, Flatten(CloseAfter(open, h))) ==
            if id in open then OrInterrupted(Answer(id, Flatten(h))) else Answer(id, Flatten(h))
    decreases |h|
  {
    if h == [] {
      AnswerLeftover(id, open, []);
      assert Flatten(Leftover(open)) + [] == Flatten(Leftover(open));
    } else {
      var m, c := h[0], CloseAfter(open, h);
      assert RolesKept(m);
      assert AllCallIds(h) == CallIds(m) + AllCallIds(h[1..]);
      if m.role.User? {
        AnswerClosed(id, [], h[1..]);
        assert c[1..] == CloseAfter([], h[1..]);
        AnswerPrepended(id, m, open, Flatten(c[1..]));
        AnswerPast(id, m, m.content, Flatten(c[1..]));
        AnswerPast(id, m, m.content, Flatten(h[1..]));
      } else {
        AnswerClosed(id, CallIds(m), h[1..]);
        var tail := [m] + CloseAfter(CallIds(m), h[1..]);
        assert tail[1..] == CloseAfter(CallIds(m), h[1..]);
        FlattenConcat(Leftover(open), tail);
        AnswerLeftover(id, open, Flatten(tail));
        AnswerPast(id, m, m.content, Flatten(tail[1..]));
        AnswerPast(id, m, m.content, Flatten(h[1..]));
      }
    }
  }

  // ---- The items -------------------------------------------------------------------------

  lemma {:induction false} ResultsShowNothing(m: Message, open: seq<Id>, answered: seq<Id>, rest: seq<Placed>)
    ensures ItemsOf(PlaceAll(m, Synthetic(open, answered)) + rest) == ItemsOf(rest)
    decreases |open|
  {
    var synth := Synthetic(open, answered);
    if open == [] {
      assert PlaceAll(m, synth) + rest == rest;
    } else {
      ResultsShowNothing(m, open[1..], answered, rest);
      if open[0] !in answered {
        var b := Placed(m.role, m.model, m.time, synth[0]);
        var tail := PlaceAll(m, Synthetic(open[1..], answered)) + rest;
        assert PlaceAll(m, synth) + rest == [b] + tail;
        ItemsCons(b, tail);
        assert Shown(b, tail) == [];
      }
    }
  }

  lemma ItemsCons(b: Placed, tail: seq<Placed>)
    ensures ItemsOf([b] + tail) == Shown(b, tail) + ItemsOf(tail)
    ensures ClosedItemsOf([b] + tail) == ShownClosed(b, tail) + ClosedItemsOf(tail)
  {
    assert ([b] + tail)[1..] == tail;
  }

  lemma LeftoverShowsNothing(open: seq<Id>, rest: seq<Placed>)
    ensures ItemsOf(Flatten(Leftover(open)) + rest) == ItemsOf(rest)
  {
    if open == [] {
      assert Flatten(Leftover(open)) + rest == rest;
    } else {
      var m := Message(User, Synthetic(open, []), "", 0);
      assert Leftover(open)[1..] == [];
      assert Flatten(Leftover(open)) == PlaceAll(m, m.content);
      ResultsShowNothing(m, open, [], rest);
    }
  }

  /** The blocks of one message, followed by the rest of the history and by the closed rest. */
  lemma {:induction false} MessageClosed(m: Message, blocks: seq<Block>, rest: seq<Placed>, closed: seq<Placed>)
    requires ItemsOf(closed) == ClosedItemsOf(rest)
    requires Distinct(BlockCallIds(blocks))
    requires forall id :: id in BlockCallIds(blocks) ==>
               Answer(id, closed) == OrInterrupted(Answer(id, rest)) && id !in BlockResultIds(blocks)
    ensures ItemsOf(PlaceAll(m, blocks) + closed) == ClosedItemsOf(PlaceAll(m, blocks) + rest)
    decreases |blocks|
  {
    if blocks == [] {
      assert PlaceAll(m, blocks) + closed == closed && PlaceAll(m, blocks) + rest == rest;
    } else {
      var b, tail := Placed(m.role, m.model, m.time, blocks[0]), blocks[1..];
      DistinctTail(blocks);
      MessageClosed(m, tail, rest, closed);
      if blocks[0].ToolUse? {
        assert blocks[0].id in BlockCallIds(blocks);
        AnswerAcross(blocks[0].id, m, tail, rest, closed);
      }
      BlockClosed(b, PlaceAll(m, tail) + rest, PlaceAll(m, tail) + closed);
      PlaceCons(m, blocks, rest);
      PlaceCons(m, blocks, closed);
    }
  }

  lemma PlaceCons(m: Message, blocks: seq<Block>, rest: seq<Placed>)
    requires blocks != []
    ensures PlaceAll(m, blocks) + rest ==
            [Placed(m.role, m.model, m.time, blocks[0])] + (PlaceAll(m, blocks[1..]) + rest)
  {
  }

  lemma BlockClosed(b: Placed, rest: seq<Placed>, closed: seq<Placed>)
    requires ItemsOf(closed) == ClosedItemsOf(rest)
    requires b.block.ToolUse? ==> Answer(b.block.id, closed) == OrInterrupted(Answer(b.block.id, rest))
    ensures ItemsOf([b] + closed) == ClosedItemsOf([b] + rest)
  {
    ItemsCons(b, closed);
    ItemsCons(b, rest);
  }

  lemma AnswerAcross(id: Id, m: Message, blocks: seq<Block>, rest: seq<Placed>, closed: seq<Placed>)
    requires id !in BlockCallIds(blocks) && id !in BlockResultIds(blocks)
    requires Answer(id, closed) == OrInterrupted(Answer(id, rest))
    ensures Answer(id, PlaceAll(m, blocks) + closed) == OrInterrupted(Answer(id, PlaceAll(m, blocks) + rest))
  {
    AnswerPast(id, m, blocks, closed);
    AnswerPast(id, m, blocks, rest);
    NotAnsweredHere(id, m, blocks);
  }

  lemma DistinctTail(blocks: seq<Block>)
    requires blocks != [] && Distinct(BlockCallIds(blocks))
    ensures Distinct(BlockCallIds(blocks[1..]))
    ensures blocks[0].ToolUse? ==> blocks[0].id !in BlockCallIds(blocks[1..])
  {
    var ids := BlockCallIds(blocks);
    if blocks[0].ToolUse? {
      var rest := BlockCallIds(blocks[1..]);
      assert ids == [blocks[0].id] + rest;
      forall i, j | 0 <= i < j < |rest| ensures rest[i] != rest[j] { assert ids[i + 1] != ids[j + 1]; }
      forall j | 0 <= j < |rest| ensures rest[j] != blocks[0].id { assert ids[0] != ids[j + 1]; }
    }
  }

  lemma {:induction false} ItemsClosed(open: seq<Id>, h: seq<Message>)
    requires WellRoled(h) && Distinct(AllCallIds(h))
    ensures ItemsOf(Flatten(CloseAfter(open, h))) == ClosedItemsOf(Flatten(h))
    decreases |h|
  {
    if h == [] {
      LeftoverShowsNothing(open, []);
      assert Flatten(Leftover(open)) + [] == Flatten(Leftover(open));
    } else {
      var m, c := h[0], CloseAfter(open, h);
      assert RolesKept(m);
      DistinctSplit(CallIds(m), AllCallIds(h[1..]));
      if m.role.User? {
        ItemsClosed([], h[1..]);
        assert c[1..] == CloseAfter([], h[1..]);
        MessageClosed(m, m.content, Flatten(h[1..]), Flatten(c[1..]));
        PrependShowsNothing(m, open, Flatten(c[1..]));
      } else {
        ItemsClosed(CallIds(m), h[1..]);
        var tail := [m] + CloseAfter(CallIds(m), h[1..]);
        assert tail[1..] == CloseAfter(CallIds(m), h[1..]);
        forall id | id in CallIds(m)
          ensures Answer(id, Flatten(tail[1..])) == OrInterrupted(Answer(id, Flatten(h[1..])))
        {
          AnswerClosed(id, CallIds(m), h[1..]);
        }
        MessageClosed(m, m.content, Flatten(h[1..]), Flatten(tail[1..]));
        FlattenConcat(Leftover(open), tail);
        LeftoverShowsNothing(open, Flatten(tail));
      }
    }
  }

  lemma PlacePrepended(m: Message, synth: seq<Block>, rest: seq<Placed>)
    ensures var p := Prepend(synth, m);
            PlaceAll(p, p.content) + rest == PlaceAll(m, synth) + (PlaceAll(m, m.content) + rest)
  {
    var p := Prepend(synth, m);
    if synth == [] {
      assert PlaceAll(m, synth) == [];
    } else {
      assert PlaceAll(p, p.content) == PlaceAll(m, synth) + PlaceAll(m, m.content);
    }
  }

  lemma PrependShowsNothing(m: Message, open: seq<Id>, rest: seq<Placed>)
    ensures var p := Prepend(Synthetic(open, ResultIds(m)), m);
            ItemsOf(PlaceAll(p, p.content) + rest) == ItemsOf(PlaceAll(m, m.content) + rest)
  {
    ResultsShowNothing(m, open, ResultIds(m), PlaceAll(m, m.content) + rest);
    PlacePrepended(m, Synthetic(open, ResultIds(m)), rest);
  }

  lemma DistinctSplit(a: seq<Id>, b: seq<Id>)
    requires Distinct(a + b)
    ensures Distinct(a) && Distinct(b) && forall id :: id in a ==> id !in b
  {
    forall i, j | 0 <= i < j < |a| ensures a[i] != a[j] { assert (a + b)[i] != (a + b)[j]; }
    forall i, j | 0 <= i < j < |b| ensures b[i] != b[j] { assert (a + b)[|a| + i] != (a + b)[|a| + j]; }
    forall i, j | 0 <= i < |a| && 0 <= j < |b| ensures a[i] != b[j] { assert (a + b)[i] != (a + b)[|a| + j]; }
  }

  /** Closing marks the calls that never got an answer and changes nothing else the owner sees. */
  lemma CloseMarksInterrupted(h: seq<Message>)
    requires WellRoled(h) && Distinct(AllCallIds(h))
    ensures ItemsOf(Flatten(Close(h))) == ClosedItemsOf(Flatten(h))
  {
    ItemsClosed([], h);
  }
}
