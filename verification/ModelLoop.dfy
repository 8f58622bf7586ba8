/** One metered turn (assistant/service.go): repair the history, then call the model, keep
    its reply, run its tools and hand the results back, at most forty times.

    What the outside does in a turn is `World`: the i-th answer of the model service, what
    the j-th tool of the i-th reply returned, and the time of the i-th reply. */
module ModelLoop {
  import opened Transcript
  import opened Repair
  import Redaction
  import opened Window

  const MAX_ITERATIONS := 40
  const MAX_CONTEXT_TURNS := 12

  datatype Usage = Usage(input: int, output: int, cacheWrite: int, cacheRead: int) {
    function Plus(u: Usage): Usage {
      Usage(input + u.input, output + u.output, cacheWrite + u.cacheWrite, cacheRead + u.cacheRead)
    }
  }

  datatype Event =
    | ModelEvent(option: string)
    | UsageEvent(total: Usage)
    | TextEvent(text: string)
    | ThinkingEvent(text: string)
    | ToolUseEvent(tool: string, input: string)
    | ToolResultEvent(tool: string, output: string, isError: bool)
    | DoneEvent
    | ErrorEvent(error: string)
    | PausedEvent

  predicate Ends(e: Event) { e.DoneEvent? || e.ErrorEvent? || e.PausedEvent? }

  /** `cancelled`: the turn's context was already done when the call failed. */
  datatype Response =
    | Failed(cancelled: bool, error: string)
    | Replied(content: seq<Block>, usage: Usage)

  datatype Outcome = Outcome(output: string, isError: bool)

  datatype World = World(option: string, respond: nat -> Response, run: (nat, nat) -> Outcome, clock: nat -> int)

  // ---- What one reply contributes -------------------------------------------------------

  function ToolCalls(content: seq<Block>): (r: seq<Block>)
    ensures forall i :: 0 <= i < |r| ==> r[i].ToolUse?
  {
    if content == [] then []
    else if content[0].ToolUse? then [content[0]] + ToolCalls(content[1..])
    else ToolCalls(content[1..])
  }

  function WithoutThinking(content: seq<Block>): seq<Block> {
    if content == [] then []
    else if content[0].Thinking? || content[0].RedactedThinking? then WithoutThinking(content[1..])
    else [content[0]] + WithoutThinking(content[1..])
  }

  function BlockEvent(b: Block): seq<Event> {
    match b
    case Text(text) => [TextEvent(text)]
    case Thinking(thinking) => [ThinkingEvent(thinking)]
    case ToolUse(_, name, input) => [ToolUseEvent(name, input)]
    case _ => []
  }

  function ReplyEvents(content: seq<Block>): seq<Event> {
    if content == [] then [] else BlockEvent(content[0]) + ReplyEvents(content[1..])
  }

  /** What a tool returned, as published and as stored. */
  function Shareable(o: Outcome): Outcome { o.(output := Redaction.RedactCredentials(o.output)) }

  function Results(w: World, i: nat, calls: seq<Block>): (r: seq<Block>)
    requires forall j :: 0 <= j < |calls| ==> calls[j].ToolUse?
    ensures |r| == |calls|
    ensures forall j :: 0 <= j < |r| ==>
              var o := Shareable(w.run(i, j)); r[j] == ToolResult(calls[j].id, o.output, o.isError)
  {
    seq(|calls|, j requires 0 <= j < |calls| =>
      var o := Shareable(w.run(i, j)); ToolResult(calls[j].id, o.output, o.isError))
  }

  function ResultEvents(w: World, i: nat, calls: seq<Block>): (r: seq<Event>)
    requires forall j :: 0 <= j < |calls| ==> calls[j].ToolUse?
    ensures |r| == |calls|
    ensures forall j :: 0 <= j < |r| ==>
              var o := Shareable(w.run(i, j)); r[j] == ToolResultEvent(calls[j].name, o.output, o.isError)
  {
    seq(|calls|, j requires 0 <= j < |calls| =>
      var o := Shareable(w.run(i, j)); ToolResultEvent(calls[j].name, o.output, o.isError))
  }

  function ReplyMessage(w: World, i: nat, content: seq<Block>): Message {
    Message(Assistant, WithoutThinking(content), w.option, w.clock(i))
  }

  function ResultMessage(w: World, i: nat, content: seq<Block>): Message {
    Message(User, Results(w, i, ToolCalls(content)), "", 0)
  }

  // ---- The turn as a function of the world ------------------------------------------------

  /** What a turn has built up: the history, what it published, the token totals and
      everything it handed to the store. */
  datatype Turn = Turn(history: seq<Message>, events: seq<Event>, total: Usage, saves: seq<seq<Message>>) {
    function Published(more: seq<Event>): Turn { this.(events := events + more) }

    function Kept(m: Message): Turn {
      this.(history := history + [m], saves := saves + [history + [m]])
    }

    function Spent(u: Usage): Turn {
      this.(total := total.Plus(u), events := events + [UsageEvent(total.Plus(u))])
    }

    /** After the i-th answer of the model service. */
    function After(w: World, i: nat): Turn {
      match w.respond(i)
      case Failed(_, _) => this
      case Replied(content, usage) =>
        var replied := Spent(usage).Published(ReplyEvents(content)).Kept(ReplyMessage(w, i, content));
        if ToolCalls(content) == [] then replied
        else replied.Published(ResultEvents(w, i, ToolCalls(content))).Kept(ResultMessage(w, i, content))
    }
  }

  function Start(history: seq<Message>, w: World): Turn {
    Turn(history, [ModelEvent(w.option)], Usage(0, 0, 0, 0), [])
  }

  /** The turn when call `n` to the model is about to be made. */
  function TurnAt(start: seq<Message>, w: World, n: nat): Turn {
    if n == 0 then Start(start, w) else TurnAt(start, w, n - 1).After(w, n - 1)
  }

  function HistoryAt(start: seq<Message>, w: World, n: nat): seq<Message> { TurnAt(start, w, n).history }

  /** The loop goes round again after call `i` (unless it was the last one allowed). */
  predicate Continues(w: World, i: nat) {
    w.respond(i).Replied? && ToolCalls(w.respond(i).content) != []
  }

  function Ending(r: Response): Event {
    match r
    case Failed(cancelled, error) => if cancelled then DoneEvent else ErrorEvent(error)
    case Replied(content, _) => if ToolCalls(content) == [] then DoneEvent else PausedEvent
  }

  ghost predicate AllContinue(w: World, n: nat) { forall i :: 0 <= i < n ==> Continues(w, i) }

  /** A turn that made `n` calls to the model. */
  ghost predicate TurnOf(w: World, n: nat) {
    && 1 <= n <= MAX_ITERATIONS
    && AllContinue(w, n - 1)
    && (n < MAX_ITERATIONS ==> !Continues(w, n - 1))
  }

  function Untagged(m: Message): Message { m.(model := "", time := 0) }

  ghost predicate RequestFor(history: seq<Message>, request: seq<Message>) {
    exists k :: CutAt(history, MAX_CONTEXT_TURNS, k) && Carries(history, k, request)
  }

  ghost predicate Carries(history: seq<Message>, k: nat, request: seq<Message>) {
    && k <= |history| && |request| == |history| - k
    && forall j :: 0 <= j < |request| ==> request[j] == Untagged(history[k + j])
  }

  // ---- The loops of the source --------------------------------------------------------------

  lemma {:induction false} ToolCallsConcat(a: seq<Block>, b: seq<Block>)
    ensures ToolCalls(a + b) == ToolCalls(a) + ToolCalls(b)
  {
    if a == [] {
      assert a + b == b;
    } else {
      assert (a + b)[1..] == a[1..] + b;
      ToolCallsConcat(a[1..], b);
    }
  }

  lemma {:induction false} WithoutThinkingConcat(a: seq<Block>, b: seq<Block>)
    ensures WithoutThinking(a + b) == WithoutThinking(a) + WithoutThinking(b)
  {
    if a == [] {
      assert a + b == b;
    } else {
      assert (a + b)[1..] == a[1..] + b;
      WithoutThinkingConcat(a[1..], b);
    }
  }

  lemma {:induction false} ReplyEventsConcat(a: seq<Block>, b: seq<Block>)
    ensures ReplyEvents(a + b) == ReplyEvents(a) + ReplyEvents(b)
  {
    if a == [] {
      assert a + b == b;
    } else {
      assert (a + b)[1..] == a[1..] + b;
      ReplyEventsConcat(a[1..], b);
      assert BlockEvent(a[0]) + ReplyEvents(a[1..] + b) == BlockEvent(a[0]) + ReplyEvents(a[1..]) + ReplyEvents(b);
    }
  }

  lemma Snoc(content: seq<Block>, i: nat)
    requires i < |content|
    ensures var b, done, next := content[i], content[..i], content[..i + 1];
            && ToolCalls(next) == ToolCalls(done) + (if b.ToolUse? then [b] else [])
            && WithoutThinking(next) == WithoutThinking(done) + (if b.Thinking? || b.RedactedThinking? then [] else [b])
            && ReplyEvents(next) == ReplyEvents(done) + BlockEvent(b)
  {
    var one := [content[i]];
    assert content[..i + 1] == content[..i] + one;
    ToolCallsConcat(content[..i], one);
    WithoutThinkingConcat(content[..i], one);
    ReplyEventsConcat(content[..i], one);
    assert one[1..] == [];
  }

  method PublishReply(content: seq<Block>) returns (events: seq<Event>, toolUses: seq<Block>)
    ensures events == ReplyEvents(content) && toolUses == ToolCalls(content)
  {
    events, toolUses := [], [];
    for i := 0 to |content|
      invariant events == ReplyEvents(content[..i]) && toolUses == ToolCalls(content[..i])
    {
      Snoc(content, i);
      match content[i] {
        case Text(text) => events := events + [TextEvent(text)];
        case Thinking(thinking) => events := events + [ThinkingEvent(thinking)];
        case ToolUse(_, name, input) =>
          events := events + [ToolUseEvent(name, input)];
          toolUses := toolUses + [content[i]];
        case _ =>
      }
    }
    assert content[..|content|] == content;
  }

  method DropThinking(content: seq<Block>) returns (out: seq<Block>)
    ensures out == WithoutThinking(content)
  {
    out := [];
    for i := 0 to |content|
      invariant out == WithoutThinking(content[..i])
    {
      Snoc(content, i);
      if !content[i].Thinking? && !content[i].RedactedThinking? { out := out + [content[i]]; }
    }
    assert content[..|content|] == content;
  }

  method APIRequestMessages(history: seq<Message>) returns (clean: seq<Message>)
    ensures RequestFor(history, clean)
  {
    var msgs := RecentHistory(history, MAX_CONTEXT_TURNS);
    clean := [];
    for i := 0 to |msgs|
      invariant |clean| == i
      invariant forall j :: 0 <= j < i ==> clean[j] == Untagged(msgs[j])
    {
      clean := clean + [msgs[i].(model := "", time := 0)];
    }
    ghost var k: nat :| CutAt(history, MAX_CONTEXT_TURNS, k) && msgs == history[k..];
    assert Carries(history, k, clean);
  }

  method RunTools(w: World, i: nat, toolUses: seq<Block>) returns (results: seq<Block>, events: seq<Event>)
    requires forall j :: 0 <= j < |toolUses| ==> toolUses[j].ToolUse?
    ensures results == Results(w, i, toolUses) && events == ResultEvents(w, i, toolUses)
  {
    results, events := [], [];
    for j := 0 to |toolUses|
      invariant results == Results(w, i, toolUses[..j]) && events == ResultEvents(w, i, toolUses[..j])
    {
      var o := w.run(i, j);
      var out := Shareable(o);
      events := events + [ToolResultEvent(toolUses[j].name, out.output, out.isError)];
      results := results + [ToolResult(toolUses[j].id, out.output, out.isError)];
    }
    assert toolUses[..|toolUses|] == toolUses;
  }

  /** A reply is published, kept and acted upon. */
  method KeepReply(w: World, n: nat, content: seq<Block>, usage: Usage, t: Turn) returns (t': Turn, more: bool)
    requires w.respond(n) == Replied(content, usage)
    ensures t' == t.After(w, n)
    ensures more <==> Continues(w, n)
  {
    var total := Usage(t.total.input + usage.input, t.total.output + usage.output,
                       t.total.cacheWrite + usage.cacheWrite, t.total.cacheRead + usage.cacheRead);
    var published, toolUses := PublishReply(content);
    var kept := DropThinking(content);
    var history := t.history + [Message(Assistant, kept, w.option, w.clock(n))];
    t' := Turn(history, t.events + [UsageEvent(total)] + published, total, t.saves + [history]);
    if |toolUses| == 0 {
      return t', false;
    }
    var results, ran := RunTools(w, n, toolUses);
    history := t'.history + [Message(User, results, "", 0)];
    t' := Turn(history, t'.events + ran, t'.total, t'.saves + [history]);
    return t', true;
  }

  /** The whole turn: what it asked, published, stored and left behind, for every history
      and every world. */
  method RunAPILoop(stored: seq<Message>, mint: nat -> Id, w: World) returns (t: Turn, requests: seq<seq<Message>>)
    ensures TurnOf(w, |requests|)
    ensures var start, n := Close(Dedupe(stored, mint)), |requests|;
            && t == TurnAt(start, w, n).Published([Ending(w.respond(n - 1))])
            && Requested(start, w, requests)
  {
    var history := DedupeToolIDs(stored, mint);
    history := CloseDanglingToolUses(history);
    ghost var start := history;
    t := Turn(history, [ModelEvent(w.option)], Usage(0, 0, 0, 0), []);
    requests := [];
    var iter := 0;
    while iter < MAX_ITERATIONS
      invariant iter <= MAX_ITERATIONS && |requests| == iter
      invariant t == TurnAt(start, w, iter)
      invariant AllContinue(w, iter)
      invariant Requested(start, w, requests)
    {
      var request := APIRequestMessages(t.history);
      RequestedOneMore(start, w, requests, request);
      requests := requests + [request];
      var resp := w.respond(iter);
      if resp.Failed? {
        t := t.(events := t.events + [if resp.cancelled then DoneEvent else ErrorEvent(resp.error)]);
        return;
      }
      var more;
      t, more := KeepReply(w, iter, resp.content, resp.usage, t);
      if !more {
        t := t.(events := t.events + [DoneEvent]);
        return;
      }
      iter := iter + 1;
    }
    assert Continues(w, iter - 1);
    t := t.(events := t.events + [PausedEvent]);
  }

  ghost predicate Requested(start: seq<Message>, w: World, requests: seq<seq<Message>>) {
    forall i :: 0 <= i < |requests| ==> RequestFor(HistoryAt(start, w, i), requests[i])
  }

  lemma RequestedOneMore(start: seq<Message>, w: World, requests: seq<seq<Message>>, request: seq<Message>)
    requires Requested(start, w, requests) && RequestFor(HistoryAt(start, w, |requests|), request)
    ensures Requested(start, w, requests + [request])
  {
  }
}
