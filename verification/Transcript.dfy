/** The stored conversation (assistant/types.go) and the display fold over it
    (assistant/transcript.go).

    `ToItems` is the loop the source runs: it appends items, remembers where each
    call's item is, and overwrites that item when a result arrives. `ItemsOf` is an
    independent, look-ahead reading of the same transcript: a call shows the last
    result addressed to it before its id is used again. */
module Transcript {

  type Id = string

  datatype Option<+T> = None | Some(value: T)

  datatype Role = User | Assistant

  datatype Block =
    | Text(text: string)
    | Thinking(thinking: string)
    | RedactedThinking(data: string)
    | ToolUse(id: Id, name: string, input: string)
    | ToolResult(useId: Id, output: string, isError: bool)
    | Image(source: string)

  datatype Message = Message(role: Role, content: seq<Block>, model: string, time: int)

  datatype Item =
    | UserText(text: string)
    | ReplyText(text: string, model: string, time: int)
    | ToolItem(tool: string, input: string, output: string, isError: bool)

  // The text block that tells the model where uploads were saved starts with this.
  const ATTACHMENT_NOTE_PREFIX := "Attached files (saved in the app): "

  // ---- Ids of a message and of a history -------------------------------------

  function BlockCallIds(blocks: seq<Block>): seq<Id> {
    if blocks == [] then []
    else if blocks[0].ToolUse? then [blocks[0].id] + BlockCallIds(blocks[1..])
    else BlockCallIds(blocks[1..])
  }

  function BlockResultIds(blocks: seq<Block>): seq<Id> {
    if blocks == [] then []
    else if blocks[0].ToolResult? then [blocks[0].useId] + BlockResultIds(blocks[1..])
    else BlockResultIds(blocks[1..])
  }

  function CallIds(m: Message): seq<Id> { BlockCallIds(m.content) }

  function ResultIds(m: Message): seq<Id> { BlockResultIds(m.content) }

  function AllCallIds(history: seq<Message>): seq<Id> {
    if history == [] then [] else CallIds(history[0]) + AllCallIds(history[1..])
  }

  ghost predicate Distinct<T(!new)>(s: seq<T>) {
    forall i, j :: 0 <= i < j < |s| ==> s[i] != s[j]
  }

  /** What both backends write: only the assistant calls, only the user answers. */
  predicate RolesKept(m: Message) {
    (m.role.User? ==> CallIds(m) == []) && (m.role.Assistant? ==> ResultIds(m) == [])
  }

  predicate WellRoled(history: seq<Message>) {
    forall i :: 0 <= i < |history| ==> RolesKept(history[i])
  }

  lemma {:induction false} BlockCallIdsConcat(a: seq<Block>, b: seq<Block>)
    ensures BlockCallIds(a + b) == BlockCallIds(a) + BlockCallIds(b)
  {
    if a == [] {
      assert a + b == b;
    } else {
      assert (a + b)[1..] == a[1..] + b;
      BlockCallIdsConcat(a[1..], b);
    }
  }

  lemma {:induction false} BlockResultIdsConcat(a: seq<Block>, b: seq<Block>)
    ensures BlockResultIds(a + b) == BlockResultIds(a) + BlockResultIds(b)
  {
    if a == [] {
      assert a + b == b;
    } else {
      assert (a + b)[1..] == a[1..] + b;
      BlockResultIdsConcat(a[1..], b);
    }
  }

  lemma {:induction false} AllCallIdsConcat(a: seq<Message>, b: seq<Message>)
    ensures AllCallIds(a + b) == AllCallIds(a) + AllCallIds(b)
  {
    if a == [] {
      assert a + b == b;
    } else {
      assert (a + b)[1..] == a[1..] + b;
      AllCallIdsConcat(a[1..], b);
    }
  }

  // ---- The look-ahead reading -------------------------------------------------

  /** A block together with the message fields the display needs. */
  datatype Placed = Placed(role: Role, model: string, time: int, block: Block)

  function PlaceAll(m: Message, blocks: seq<Block>): (r: seq<Placed>)
    ensures |r| == |blocks|
    ensures forall i :: 0 <= i < |r| ==> r[i] == Placed(m.role, m.model, m.time, blocks[i])
  {
    seq(|blocks|, i requires 0 <= i < |blocks| => Placed(m.role, m.model, m.time, blocks[i]))
  }

  function Flatten(history: seq<Message>): seq<Placed> {
    if history == [] then [] else PlaceAll(history[0], history[0].content) + Flatten(history[1..])
  }

  datatype Reply = Reply(output: string, isError: bool)

  /** The last result addressed to `id` in `rest`, up to the next call that reuses `id`. */
  function Answer(id: Id, rest: seq<Placed>): Option<Reply> {
    if rest == [] then None
    else
      var later := Answer(id, rest[1..]);
      match rest[0].block
      case ToolUse(other, _, _) => if other == id then None else later
      case ToolResult(useId, output, isError) =>
        if useId == id && later.None? then Some(Reply(output, isError)) else later
      case _ => later
  }

  function ToolShown(name: string, input: string, answer: Option<Reply>): Item {
    match answer
    case None => ToolItem(name, input, "", false)
    case Some(r) => ToolItem(name, input, r.output, r.isError)
  }

  /** What block `b` contributes to the display when `rest` follows it. */
  function Shown(b: Placed, rest: seq<Placed>): (r: seq<Item>)
    ensures |r| <= 1
  {
    match b.block
    case Text(text) =>
      if b.role.User? then
        (if ATTACHMENT_NOTE_PREFIX <= text then [] else [UserText(text)])
      else [ReplyText(text, b.model, b.time)]
    case ToolUse(id, name, input) => [ToolShown(name, input, Answer(id, rest))]
    case _ => []
  }

  function ItemsOf(flat: seq<Placed>): seq<Item> {
    if flat == [] then [] else Shown(flat[0], flat[1..]) + ItemsOf(flat[1..])
  }

  // ---- The fold the source runs -------------------------------------------------

  /** Where the newest call with `id` sits among the items of `flat`. */
  function CallIndex(id: Id, flat: seq<Placed>): (r: Option<nat>)
    ensures r.Some? ==> r.value < |ItemsOf(flat)| && ItemsOf(flat)[r.value].ToolItem?
  {
    if flat == [] then None
    else
      var later := CallIndex(id, flat[1..]);
      var here := |Shown(flat[0], flat[1..])|;
      if later.Some? then Some(here + later.value)
      else if flat[0].block.ToolUse? && flat[0].block.id == id then Some(0)
      else None
  }

  lemma {:induction false} AnswerConcat(id: Id, a: seq<Placed>, b: seq<Placed>)
    ensures CallIndex(id, a).Some? ==> Answer(id, a + b) == Answer(id, a)
    ensures CallIndex(id, a).None? ==>
              Answer(id, a + b) == if Answer(id, b).Some? then Answer(id, b) else Answer(id, a)
  {
    if a == [] {
      assert a + b == b;
    } else {
      assert (a + b)[1..] == a[1..] + b;
      AnswerConcat(id, a[1..], b);
    }
  }

  /** One more block: a result overwrites the item its call has, anything else appends. */
  function Folded(items: seq<Item>, at: Option<nat>, b: Placed): (r: seq<Item>)
    requires at.Some? ==> at.value < |items| && items[at.value].ToolItem?
  {
    if b.block.ToolResult? then
      (if at.None? then items
       else items[at.value := items[at.value].(output := b.block.output, isError := b.block.isError)])
    else items + Shown(b, [])
  }

  function Addressed(b: Placed): Id {
    match b.block
    case ToolUse(id, _, _) => id
    case ToolResult(useId, _, _) => useId
    case _ => ""
  }

  /** How one more block changes what an earlier one shows: only a result addressed to a
      call whose id is not reused in between. */
  function ShownWith(head: Placed, tail: seq<Placed>, b: Placed): seq<Item> {
    if b.block.ToolResult? && head.block.ToolUse? && head.block.id == b.block.useId
       && CallIndex(b.block.useId, tail).None?
    then [ToolItem(head.block.name, head.block.input, b.block.output, b.block.isError)]
    else Shown(head, tail)
  }

  lemma ShownSnoc(head: Placed, tail: seq<Placed>, b: Placed)
    ensures Shown(head, tail + [b]) == ShownWith(head, tail, b)
  {
    if head.block.ToolUse? {
      AnswerConcat(head.block.id, tail, [b]);
      assert [b][1..] == [];
    }
  }

  lemma {:induction false} ItemsSnoc(flat: seq<Placed>, b: Placed)
    ensures ItemsOf(flat + [b]) == Folded(ItemsOf(flat), CallIndex(Addressed(b), flat), b)
    decreases |flat|
  {
    if flat == [] {
      assert flat + [b] == [b] && [b][1..] == [];
    } else {
      var head, tail := flat[0], flat[1..];
      assert (flat + [b])[1..] == tail + [b];
      ItemsSnoc(tail, b);
      ShownSnoc(head, tail, b);
      assert ItemsOf(flat + [b]) == Shown(head, tail + [b]) + ItemsOf(tail + [b]);
      ItemsSnocStep(flat, b, Shown(head, tail + [b]), ItemsOf(tail + [b]));
    }
  }

  lemma ItemsSnocStep(flat: seq<Placed>, b: Placed, shown: seq<Item>, items: seq<Item>)
    requires flat != []
    requires shown == ShownWith(flat[0], flat[1..], b)
    requires items == Folded(ItemsOf(flat[1..]), CallIndex(Addressed(b), flat[1..]), b)
    ensures shown + items == Folded(ItemsOf(flat), CallIndex(Addressed(b), flat), b)
  {
    FoldedAfter(Shown(flat[0], flat[1..]), ItemsOf(flat[1..]), CallIndex(Addressed(b), flat[1..]), b);
  }

  /** Folding commutes with items in front. */
  lemma FoldedAfter(first: seq<Item>, rest: seq<Item>, at: Option<nat>, b: Placed)
    requires at.Some? ==> at.value < |rest| && rest[at.value].ToolItem?
    ensures var at' := if at.Some? then Some(|first| + at.value) else None;
            (at.Some? || !b.block.ToolResult? ==> first + Folded(rest, at, b) == Folded(first + rest, at', b))
    ensures b.block.ToolResult? && at.None? ==> Folded(rest, at, b) == rest
  {
    if at.Some? { assert (first + rest)[|first| + at.value] == rest[at.value]; }
  }

  lemma ItemCount(flat: seq<Placed>, b: Placed)
    ensures |ItemsOf(flat + [b])| == |ItemsOf(flat)| + |Shown(b, [])|
  {
    ItemsSnoc(flat, b);
  }

  lemma {:induction false} CallIndexSnoc(id: Id, flat: seq<Placed>, b: Placed)
    ensures |ItemsOf(flat + [b])| == |ItemsOf(flat)| + |Shown(b, [])|
    ensures CallIndex(id, flat + [b]) ==
            if b.block.ToolUse? && b.block.id == id then Some(|ItemsOf(flat)|) else CallIndex(id, flat)
    decreases |flat|
  {
    ItemCount(flat, b);
    if flat == [] {
      assert flat + [b] == [b] && [b][1..] == [];
    } else {
      CallIndexSnoc(id, flat[1..], b);
      assert (flat + [b])[0] == flat[0] && (flat + [b])[1..] == flat[1..] + [b];
      CallIndexHead(id, flat + [b]);
      CallIndexHead(id, flat);
    }
  }

  /** How many items a block shows does not depend on what follows it. */
  lemma ShownSize(b: Placed, rest: seq<Placed>)
    ensures |Shown(b, rest)| == |Shown(b, [])|
  {
  }

  /** A block in front of `tail`, when `here` items are shown for it. */
  function IndexBehind(head: Placed, here: nat, id: Id, later: Option<nat>): Option<nat> {
    if later.Some? then Some(here + later.value)
    else if head.block.ToolUse? && head.block.id == id then Some(0)
    else None
  }

  lemma CallIndexHead(id: Id, flat: seq<Placed>)
    requires flat != []
    ensures CallIndex(id, flat) == IndexBehind(flat[0], |Shown(flat[0], [])|, id, CallIndex(id, flat[1..]))
    ensures |ItemsOf(flat)| == |Shown(flat[0], [])| + |ItemsOf(flat[1..])|
  {
    ShownSize(flat[0], flat[1..]);
  }

  lemma {:induction false} FlattenConcat(a: seq<Message>, b: seq<Message>)
    ensures Flatten(a + b) == Flatten(a) + Flatten(b)
  {
    if a == [] {
      assert a + b == b;
    } else {
      assert (a + b)[1..] == a[1..] + b;
      FlattenConcat(a[1..], b);
    }
  }

  /** The state of the fold after the blocks of `done`. */
  ghost predicate FoldedTo(items: seq<Item>, toolIndex: map<Id, nat>, done: seq<Placed>) {
    && items == ItemsOf(done)
    && forall id :: CallIndex(id, done) == if id in toolIndex then Some(toolIndex[id]) else None
  }

  /** One iteration of the inner loop. */
  method AddBlock(msg: Message, b: Block, items: seq<Item>, toolIndex: map<Id, nat>, ghost done: seq<Placed>)
    returns (items': seq<Item>, toolIndex': map<Id, nat>)
    requires FoldedTo(items, toolIndex, done)
    ensures FoldedTo(items', toolIndex', done + [Placed(msg.role, msg.model, msg.time, b)])
  {
    items', toolIndex' := items, toolIndex;
    ghost var placed := Placed(msg.role, msg.model, msg.time, b);
    ItemsSnoc(done, placed);
    forall id { CallIndexSnoc(id, done, placed); }
    match b {
      case Text(text) =>
        if msg.role.User? {
          if !(ATTACHMENT_NOTE_PREFIX <= text) {
            items' := items + [UserText(text)];
          }
        } else {
          items' := items + [ReplyText(text, msg.model, msg.time)];
        }
      case ToolUse(id, name, input) =>
        items' := items + [ToolItem(name, input, "", false)];
        toolIndex' := toolIndex[id := |items|];
      case ToolResult(useId, output, isError) =>
        assert CallIndex(useId, done) == if useId in toolIndex then Some(toolIndex[useId]) else None;
        if useId in toolIndex {
          var at := toolIndex[useId];
          items' := items[at := items[at].(output := output, isError := isError)];
        }
      case _ =>
    }
  }

  /** The display fold: the index map and the overwriting loop give exactly the
      look-ahead reading, for every stored transcript. */
  method ToItems(history: seq<Message>) returns (items: seq<Item>)
    ensures items == ItemsOf(Flatten(history))
  {
    items := [];
    var toolIndex: map<Id, nat> := map[];
    for i := 0 to |history|
      invariant FoldedTo(items, toolIndex, Flatten(history[..i]))
    {
      var msg := history[i];
      ghost var before := Flatten(history[..i]);
      assert before + PlaceAll(msg, msg.content[..0]) == before;
      for j := 0 to |msg.content|
        invariant FoldedTo(items, toolIndex, before + PlaceAll(msg, msg.content[..j]))
      {
        items, toolIndex := AddBlock(msg, msg.content[j], items, toolIndex, before + PlaceAll(msg, msg.content[..j]));
        assert before + PlaceAll(msg, msg.content[..j]) + [Placed(msg.role, msg.model, msg.time, msg.content[j])]
            == before + PlaceAll(msg, msg.content[..j + 1]);
      }
      assert msg.content[..|msg.content|] == msg.content;
      FlattenSnoc(history, i);
    }
    assert history[..|history|] == history;
  }

  lemma FlattenSnoc(history: seq<Message>, i: nat)
    requires i < |history|
    ensures Flatten(history[..i + 1]) == Flatten(history[..i]) + PlaceAll(history[i], history[i].content)
  {
    assert history[..i + 1] == history[..i] + [history[i]];
    FlattenConcat(history[..i], [history[i]]);
    assert [history[i]][1..] == [];
  }
}
