/** Rebuilding a stored transcript from the subscription backend's event stream
    (assistant/claude.go, claudeAccumulator).

    The reference: the stream's blocks in order, cut into maximal runs of one side. */
module Accumulator {
  import opened Transcript
  import opened Repair
  import Redaction

  datatype Event =
    | EvText(text: string)
    | EvToolUse(tool: string, input: string)
    | EvToolResult(output: string, isError: bool)
    | EvOther

  function RawJSON(s: string): string { if s == "" then "{}" else s }

  // ---- The reference -----------------------------------------------------------------

  /** The block an event becomes, when the calls and results before it left `at`. */
  function BlockOf(ev: Event, mint: nat -> Id, at: Pairing): Option<Block> {
    match ev
    case EvText(text) => Some(Text(text))
    case EvToolUse(tool, input) => Some(ToolUse(mint(at.calls), tool, RawJSON(input)))
    case EvToolResult(output, isError) =>
      Some(ToolResult(if at.paired < at.calls then mint(at.paired) else "",
                      Redaction.RedactCredentials(output), isError))
    case EvOther => None
  }

  function AfterEvent(ev: Event, at: Pairing): Pairing {
    match ev
    case EvToolUse(_, _) => Pairing(at.calls + 1, at.paired)
    case EvToolResult(_, _) => if at.paired < at.calls then Pairing(at.calls, at.paired + 1) else at
    case _ => at
  }

  function StreamBlocks(events: seq<Event>, mint: nat -> Id, at: Pairing): seq<Block> {
    if events == [] then []
    else
      var rest := StreamBlocks(events[1..], mint, AfterEvent(events[0], at));
      match BlockOf(events[0], mint, at)
      case None => rest
      case Some(b) => [b] + rest
  }

  /** Which message a block belongs in. */
  function Side(b: Block): Role { if b.ToolResult? then User else Assistant }

  function MessageOf(blocks: seq<Block>): Message
    requires blocks != []
  {
    Message(Side(blocks[0]), blocks, "", 0)
  }

  /** Messages for `blocks` when `open`, all of one side, is still being built. */
  function Runs(open: seq<Block>, blocks: seq<Block>): seq<Message>
    decreases |blocks|
  {
    if blocks == [] then (if open == [] then [] else [MessageOf(open)])
    else if open == [] || Side(open[0]) == Side(blocks[0]) then Runs(open + [blocks[0]], blocks[1..])
    else [MessageOf(open)] + Runs([blocks[0]], blocks[1..])
  }

  // ---- The accumulator -----------------------------------------------------------------

  class ClaudeAccumulator {
    var messages: seq<Message>
    var pendingAsst: seq<Block>
    var pendingResults: seq<Block>
    var toolIDs: seq<Id>
    var minted: nat
    const mint: nat -> Id

    constructor (mint: nat -> Id)
      ensures Valid() && this.mint == mint
      ensures messages == [] && Pending() == [] && At() == Pairing(0, 0)
    {
      messages, pendingAsst, pendingResults, toolIDs, minted := [], [], [], [], 0;
      this.mint := mint;
    }

    /** The queue is the unanswered ids, and only one message is being built. */
    ghost predicate Valid()
      reads this
    {
      && |toolIDs| <= minted && toolIDs == Minted(mint, minted - |toolIDs|, minted)
      && (pendingAsst == [] || pendingResults == [])
      && (forall b :: b in pendingAsst ==> Side(b) == Assistant)
      && (forall b :: b in pendingResults ==> Side(b) == User)
    }

    ghost function At(): (at: Pairing)
      reads this
      requires Valid()
    {
      Pairing(minted, minted - |toolIDs|)
    }

    ghost function Pending(): seq<Block>
      reads this
    {
      pendingAsst + pendingResults
    }

    ghost function Abs(): Build
      reads this
    {
      Build(messages, Pending())
    }

    method FlushAsst()
      requires Valid()
      modifies this
      ensures Valid() && unchanged(`toolIDs) && unchanged(`minted) && unchanged(`pendingResults)
      ensures pendingAsst == []
      ensures messages == old(messages) + if old(pendingAsst) == [] then [] else [MessageOf(old(pendingAsst))]
    {
      if |pendingAsst| > 0 {
        assert pendingAsst[0] in pendingAsst;
        messages := messages + [Message(Assistant, pendingAsst, "", 0)];
        pendingAsst := [];
      }
    }

    method FlushResults()
      requires Valid()
      modifies this
      ensures Valid() && unchanged(`toolIDs) && unchanged(`minted) && unchanged(`pendingAsst)
      ensures pendingResults == []
      ensures messages == old(messages) + if old(pendingResults) == [] then [] else [MessageOf(old(pendingResults))]
    {
      if |pendingResults| > 0 {
        assert pendingResults[0] in pendingResults;
        messages := messages + [Message(User, pendingResults, "", 0)];
        pendingResults := [];
      }
    }

    method AppendAsst(b: Block)
      requires Valid() && Side(b) == Assistant
      modifies this
      ensures Valid() && unchanged(`toolIDs) && unchanged(`minted)
      ensures Abs() == old(Abs()).Extend(b)
    {
      ghost var before := Pending();
      assert pendingResults != [] ==> before == pendingResults && before[0] in pendingResults;
      assert pendingAsst != [] ==> before[0] in pendingAsst;
      FlushResults();
      pendingAsst := pendingAsst + [b];
    }

    method AppendResult(b: Block)
      requires Valid() && Side(b) == User
      modifies this
      ensures Valid() && unchanged(`toolIDs) && unchanged(`minted)
      ensures Abs() == old(Abs()).Extend(b)
    {
      ghost var before := Pending();
      assert pendingAsst != [] ==> before == pendingAsst && before[0] in pendingAsst;
      assert pendingAsst == [] ==> before == pendingResults;
      assert pendingResults != [] ==> before[0] in pendingResults;
      FlushAsst();
      pendingResults := pendingResults + [b];
      assert Pending() == pendingResults;
    }

    method MintId() returns (id: Id)
      requires Valid()
      modifies `toolIDs, `minted
      ensures Valid() && Abs() == old(Abs())
      ensures id == mint(old(At()).calls) && At() == Pairing(old(At()).calls + 1, old(At()).paired)
    {
      id := mint(minted);
      minted := minted + 1;
      toolIDs := toolIDs + [id];
    }

    method TakeId() returns (id: Id)
      requires Valid()
      modifies `toolIDs
      ensures Valid() && Abs() == old(Abs())
      ensures var at := old(At());
              if at.paired < at.calls then id == mint(at.paired) && At() == Pairing(at.calls, at.paired + 1)
              else id == "" && At() == at
    {
      id := "";
      if |toolIDs| > 0 {
        id, toolIDs := toolIDs[0], toolIDs[1..];
      }
    }

    /** One event: its block joins the run being built or starts the next one. */
    method Add(ev: Event)
      requires Valid()
      modifies this
      ensures Valid() && At() == AfterEvent(ev, old(At()))
      ensures Abs() == match BlockOf(ev, mint, old(At()))
                       case None => old(Abs())
                       case Some(b) => old(Abs()).Extend(b)
    {
      match ev {
        case EvText(text) =>
          AppendAsst(Text(text));
        case EvToolUse(tool, input) =>
          var id := MintId();
          AppendAsst(ToolUse(id, tool, RawJSON(input)));
        case EvToolResult(output, isError) =>
          var id := TakeId();
          AppendResult(ToolResult(id, Redaction.RedactCredentials(output), isError));
        case EvOther =>
      }
    }

    /** The end of the turn: nothing is left pending. */
    method Flush()
      requires Valid()
      modifies this
      ensures Valid() && Pending() == [] && At() == old(At())
      ensures messages == old(Abs()).Final([])
    {
      assert pendingAsst == [] ==> Pending() == pendingResults;
      assert pendingResults == [] ==> Pending() == pendingAsst;
      FlushAsst();
      FlushResults();
    }
  }

  /** The flushed messages and the one being built. */
  datatype Build = Build(done: seq<Message>, open: seq<Block>) {
    /** A block extends the run being built, or closes it and starts the next. */
    function Extend(b: Block): Build {
      if open == [] || Side(open[0]) == Side(b) then Build(done, open + [b])
      else Build(done + [MessageOf(open)], [b])
    }
    /** The messages in the end, were `blocks` to follow. */
    function Final(blocks: seq<Block>): seq<Message> { done + Runs(open, blocks) }
  }

  lemma FinalStep(s: Build, b: Block, rest: seq<Block>)
    ensures s.Extend(b).Final(rest) == s.Final([b] + rest)
  {
    assert ([b] + rest)[1..] == rest;
  }

  /** A whole turn, event by event, as the backend runs it. */
  method Accumulate(events: seq<Event>, mint: nat -> Id) returns (messages: seq<Message>)
    ensures messages == Runs([], StreamBlocks(events, mint, Pairing(0, 0)))
  {
    var acc := new ClaudeAccumulator(mint);
    ghost var all := StreamBlocks(events, mint, Pairing(0, 0));
    assert acc.Abs().Final(all) == Runs([], all);
    for i := 0 to |events|
      invariant acc.Valid() && acc.mint == mint && fresh(acc)
      invariant acc.Abs().Final(StreamBlocks(events[i..], mint, acc.At())) == Runs([], all)
    {
      ghost var was, at := acc.Abs(), acc.At();
      acc.Add(events[i]);
      StreamStep(was, events[i..], mint, at);
      assert events[i..][1..] == events[i + 1..];
    }
    acc.Flush();
    return acc.messages;
  }

  lemma StreamStep(s: Build, events: seq<Event>, mint: nat -> Id, at: Pairing)
    requires events != []
    ensures var rest := StreamBlocks(events[1..], mint, AfterEvent(events[0], at));
            s.Final(StreamBlocks(events, mint, at)) ==
            match BlockOf(events[0], mint, at)
            case None => s.Final(rest)
            case Some(b) => s.Extend(b).Final(rest)
  {
    var b := BlockOf(events[0], mint, at);
    if b.Some? { FinalStep(s, b.value, StreamBlocks(events[1..], mint, AfterEvent(events[0], at))); }
  }

  // ---- What the reference guarantees ------------------------------------------------------

  function AllBlocks(messages: seq<Message>): seq<Block> {
    if messages == [] then [] else messages[0].content + AllBlocks(messages[1..])
  }

  ghost predicate Alternating(messages: seq<Message>) {
    forall i :: 0 <= i < |messages| - 1 ==> messages[i].role != messages[i + 1].role
  }

  // ---- Event by event ----------------------------------------------------------------------------

  function CountStored(events: seq<Event>): nat {
    if events == [] then 0 else (if events[0].EvOther? then 0 else 1) + CountStored(events[1..])
  }

  /** The block says what the event said: texts and calls as they are, an empty input as an empty
      object, and results with their credentials taken out. */
  predicate Records(b: Block, ev: Event) {
    && (ev.EvText? ==> b == Text(ev.text))
    && (ev.EvToolUse? ==> b.ToolUse? && b.name == ev.tool && b.input == if ev.input == "" then "{}" else ev.input)
    && (ev.EvToolResult? ==>
          b.ToolResult? && b.output == Redaction.RedactCredentials(ev.output) && b.isError == ev.isError)
  }

  /** Every text, call and result of the stream has its block, in order, and nothing else has. */
  lemma {:induction false} StreamBlockAt(events: seq<Event>, mint: nat -> Id, at: Pairing, i: nat)
    requires i < |events|
    ensures |StreamBlocks(events, mint, at)| == CountStored(events)
    ensures !events[i].EvOther? ==>
              var k := CountStored(events[..i]);
              k < |StreamBlocks(events, mint, at)| && Records(StreamBlocks(events, mint, at)[k], events[i])
  {
    var next := AfterEvent(events[0], at);
    if |events| == 1 {
      assert events[1..] == [] && StreamBlocks([], mint, next) == [];
    } else {
      StreamBlockAt(events[1..], mint, next, if i > 0 then i - 1 else 0);
    }
    if i > 0 { CountHead(events, i); }
  }

  lemma CountHead(events: seq<Event>, i: nat)
    requires 0 < i <= |events|
    ensures CountStored(events[..i]) == (if events[0].EvOther? then 0 else 1) + CountStored(events[1..][..i - 1])
  {
    assert events[..i][1..] == events[1..][..i - 1];
  }

  lemma StreamHead(events: seq<Event>, mint: nat -> Id, at: Pairing, k: nat)
    requires events != [] && k < |StreamBlocks(events[1..], mint, AfterEvent(events[0], at))|
    ensures var n, all := if events[0].EvOther? then 0 else 1, StreamBlocks(events, mint, at);
            n + k < |all| && all[n + k] == StreamBlocks(events[1..], mint, AfterEvent(events[0], at))[k]
  {
  }

  /** A result that no call precedes is stored under no id. */
  lemma {:induction false} StrayResult(events: seq<Event>, mint: nat -> Id, at: Pairing, i: nat)
    requires at.paired >= at.calls && i < |events| && events[i].EvToolResult?
    requires forall j :: 0 <= j < i ==> !events[j].EvToolUse?
    ensures var k := CountStored(events[..i]);
            && k < |StreamBlocks(events, mint, at)|
            && StreamBlocks(events, mint, at)[k] ==
               ToolResult("", Redaction.RedactCredentials(events[i].output), events[i].isError)
  {
    if i > 0 {
      StrayResult(events[1..], mint, AfterEvent(events[0], at), i - 1);
      CountHead(events, i);
      StreamHead(events, mint, at, CountStored(events[1..][..i - 1]));
    }
  }

  /** Results stand in messages of the user's side, everything else in the assistant's. */
  lemma SideIs(b: Block)
    ensures Side(b) == User <==> b.ToolResult?
  {
  }

  ghost predicate OneSided(m: Message) {
    m.content != [] && forall b :: b in m.content ==> Side(b) == m.role
  }

  /** Messages alternate, none is empty, each holds only its own side's blocks, and
      together they are the stream. */
  lemma {:induction false} RunsLaw(open: seq<Block>, blocks: seq<Block>)
    requires forall b :: b in open ==> Side(b) == Side(open[0])
    ensures var ms := Runs(open, blocks);
            && AllBlocks(ms) == open + blocks
            && Alternating(ms)
            && (forall i :: 0 <= i < |ms| ==> OneSided(ms[i]))
            && (open != [] ==> ms != [] && ms[0].role == Side(open[0]))
    decreases |blocks|
  {
    if blocks == [] {
      if open != [] { assert [MessageOf(open)][1..] == []; }
    } else if open == [] || Side(open[0]) == Side(blocks[0]) {
      RunsLaw(open + [blocks[0]], blocks[1..]);
      assert open + [blocks[0]] + blocks[1..] == open + blocks;
    } else {
      var tail := Runs([blocks[0]], blocks[1..]);
      RunsLaw([blocks[0]], blocks[1..]);
      var ms := [MessageOf(open)] + tail;
      assert ms[1..] == tail && [blocks[0]] + blocks[1..] == blocks;
      assert tail[0].role == Side(blocks[0]);
      forall i | 0 <= i < |ms| - 1 ensures ms[i].role != ms[i + 1].role {
        if i > 0 { assert tail[i - 1].role != tail[i].role; }
      }
    }
  }

  /** Alternation and one-sidedness leave only one way to cut the stream. */
  lemma {:induction false} RunsUnique(open: seq<Block>, blocks: seq<Block>, ms: seq<Message>)
    requires forall b :: b in open ==> Side(b) == Side(open[0])
    requires AllBlocks(ms) == open + blocks && Alternating(ms)
    requires forall i :: 0 <= i < |ms| ==> OneSided(ms[i]) && ms[i].model == "" && ms[i].time == 0
    requires open != [] ==> ms != [] && open <= ms[0].content
    ensures ms == Runs(open, blocks)
    decreases |blocks|
  {
    if ms == [] {
      assert open == [] && blocks == [];
    } else {
      var first := ms[0].content;
      assert first[0] in first;
      assert AllBlocks(ms) == first + AllBlocks(ms[1..]);
      if blocks == [] {
        LastRun(open, ms);
      } else if open == first {
        assert AllBlocks(ms[1..]) == blocks by {
          assert (first + AllBlocks(ms[1..]))[|first|..] == AllBlocks(ms[1..]);
          assert (open + blocks)[|open|..] == blocks;
        }
        assert ms[1..] != [];
        assert OneSided(ms[1]) && ms[0].role != ms[1].role;
        var second := ms[1].content;
        assert second[0] == blocks[0] by {
          assert AllBlocks(ms[1..]) == second + AllBlocks(ms[1..][1..]);
          assert (second + AllBlocks(ms[1..][1..]))[0] == second[0];
        }
        assert second[0] in second;
        RunsTail(ms);
        assert [blocks[0]] + blocks[1..] == blocks;
        RunsUnique([blocks[0]], blocks[1..], ms[1..]);
        assert ms == [ms[0]] + ms[1..];
      } else {
        assert |open| < |first|;
        assert first[|open|] == blocks[0] by {
          assert (first + AllBlocks(ms[1..]))[|open|] == first[|open|];
          assert (open + blocks)[|open|] == blocks[0];
        }
        assert first[|open|] in first;
        if open != [] { assert open[0] == first[0]; }
        assert open + [blocks[0]] <= first;
        assert open + [blocks[0]] + blocks[1..] == open + blocks;
        RunsUnique(open + [blocks[0]], blocks[1..], ms);
      }
    }
  }

  lemma RunsTail(ms: seq<Message>)
    requires ms != [] && Alternating(ms)
    ensures Alternating(ms[1..])
  {
    forall i | 0 <= i < |ms[1..]| - 1 ensures ms[1..][i].role != ms[1..][i + 1].role {
      assert ms[i + 1].role != ms[i + 2].role;
    }
  }

  lemma LastRun(open: seq<Block>, ms: seq<Message>)
    requires ms != [] && AllBlocks(ms) == open + []
    requires forall i :: 0 <= i < |ms| ==> OneSided(ms[i]) && ms[i].model == "" && ms[i].time == 0
    requires open != [] ==> open <= ms[0].content
    ensures ms == Runs(open, [])
  {
    var first := ms[0].content;
    assert open + [] == open;
    assert OneSided(ms[0]);
    assert |open| == |first| + |AllBlocks(ms[1..])|;
    BlocksAtLeast(ms[1..]);
    assert open == first;
    assert first[0] in first;
    assert ms == [ms[0]];
  }

  lemma {:induction false} BlocksAtLeast(ms: seq<Message>)
    requires forall i :: 0 <= i < |ms| ==> OneSided(ms[i])
    ensures |AllBlocks(ms)| >= |ms|
  {
    if ms != [] {
      assert OneSided(ms[0]);
      BlocksAtLeast(ms[1..]);
    }
  }

  // ---- Calls and results pair first-in-first-out -------------------------------------------

  /** On no prefix do results outnumber calls. */
  predicate NeverOutnumbered(events: seq<Event>, at: Pairing) {
    if events == [] then true
    else (events[0].EvToolResult? ==> at.paired < at.calls)
         && NeverOutnumbered(events[1..], AfterEvent(events[0], at))
  }

  /** Then the k-th result carries the k-th call's id: results' ids in order are a prefix
      of the calls' ids in order. */
  lemma {:induction false} ResultsFollowCalls(events: seq<Event>, mint: nat -> Id, at: Pairing)
    requires at.Valid() && NeverOutnumbered(events, at)
    ensures Follows(StreamBlocks(events, mint, at), mint, at)
    decreases |events|
  {
    if events != [] {
      ResultsFollowCalls(events[1..], mint, AfterEvent(events[0], at));
      FollowEvent(events[0], StreamBlocks(events[1..], mint, AfterEvent(events[0], at)), mint, at);
    }
  }

  lemma FollowEvent(ev: Event, rest: seq<Block>, mint: nat -> Id, at: Pairing)
    requires at.Valid() && (ev.EvToolResult? ==> at.paired < at.calls) && Follows(rest, mint, AfterEvent(ev, at))
    ensures Follows(match BlockOf(ev, mint, at) case None => rest case Some(b) => [b] + rest, mint, at)
  {
    match ev
    case EvText(text) => FollowText(Text(text), rest, mint, at);
    case EvToolUse(tool, input) => FollowCall(ToolUse(mint(at.calls), tool, RawJSON(input)), rest, mint, at);
    case EvToolResult(output, isError) =>
      FollowResult(ToolResult(mint(at.paired), Redaction.RedactCredentials(output), isError), rest, mint, at);
    case EvOther =>
  }

  /** The ids of `bs` continue the pairing at `at`. */
  ghost predicate Follows(bs: seq<Block>, mint: nat -> Id, at: Pairing) {
    var calls, results := |BlockCallIds(bs)|, |BlockResultIds(bs)|;
    && at.paired + results <= at.calls + calls
    && BlockCallIds(bs) == Minted(mint, at.calls, at.calls + calls)
    && BlockResultIds(bs) == Minted(mint, at.paired, at.paired + results)
  }

  lemma FollowText(b: Block, rest: seq<Block>, mint: nat -> Id, at: Pairing)
    requires !b.ToolUse? && !b.ToolResult? && Follows(rest, mint, at)
    ensures Follows([b] + rest, mint, at)
  {
    IdsCons(b, rest);
  }

  lemma FollowCall(b: Block, rest: seq<Block>, mint: nat -> Id, at: Pairing)
    requires b.ToolUse? && b.id == mint(at.calls) && Follows(rest, mint, Pairing(at.calls + 1, at.paired))
    ensures Follows([b] + rest, mint, at)
  {
    IdsCons(b, rest);
    MintedCons(mint, at.calls, at.calls + 1 + |BlockCallIds(rest)|);
  }

  lemma FollowResult(b: Block, rest: seq<Block>, mint: nat -> Id, at: Pairing)
    requires b.ToolResult? && b.useId == mint(at.paired) && at.paired < at.calls
    requires Follows(rest, mint, Pairing(at.calls, at.paired + 1))
    ensures Follows([b] + rest, mint, at)
  {
    IdsCons(b, rest);
    MintedCons(mint, at.paired, at.paired + 1 + |BlockResultIds(rest)|);
  }

  lemma IdsCons(b: Block, rest: seq<Block>)
    ensures BlockCallIds([b] + rest) == if b.ToolUse? then [b.id] + BlockCallIds(rest) else BlockCallIds(rest)
    ensures BlockResultIds([b] + rest) ==
            if b.ToolResult? then [b.useId] + BlockResultIds(rest) else BlockResultIds(rest)
  {
    assert ([b] + rest)[1..] == rest;
  }

  lemma MintedCons(mint: nat -> Id, from: nat, to: nat)
    requires from < to
    ensures Minted(mint, from, to) == [mint(from)] + Minted(mint, from + 1, to)
  {
  }

  /** For every stream: alternating, non-empty, one-sided messages that are the stream's
      blocks in order, with the k-th result answering the k-th call. */
  lemma AccumulatedTurn(events: seq<Event>, mint: nat -> Id)
    ensures var bs := StreamBlocks(events, mint, Pairing(0, 0));
            var ms := Runs([], bs);
            && AllBlocks(ms) == bs && Alternating(ms)
            && (forall i :: 0 <= i < |ms| ==> OneSided(ms[i]))
            && WellRoled(ms)
            && (NeverOutnumbered(events, Pairing(0, 0)) ==> BlockResultIds(bs) <= BlockCallIds(bs))
  {
    var bs := StreamBlocks(events, mint, Pairing(0, 0));
    var ms := Runs([], bs);
    RunsLaw([], bs);
    assert [] + bs == bs;
    forall i | 0 <= i < |ms| ensures RolesKept(ms[i]) {
      assert OneSided(ms[i]);
      SidesKept(ms[i].role, ms[i].content);
    }
    if NeverOutnumbered(events, Pairing(0, 0)) {
      ResultsFollowCalls(events, mint, Pairing(0, 0));
    }
  }

  lemma {:induction false} SidesKept(role: Role, blocks: seq<Block>)
    requires forall b :: b in blocks ==> Side(b) == role
    ensures role.User? ==> BlockCallIds(blocks) == []
    ensures role.Assistant? ==> BlockResultIds(blocks) == []
  {
    if blocks != [] {
      assert blocks[0] in blocks;
      SidesKept(role, blocks[1..]);
    }
  }
}
