/** What a metered turn publishes and stores, block by block: stated by position, without the
    functions that build it. */
module PublishLaws {
  import opened Transcript
  import Redaction
  import opened ModelLoop

  // ---- Positions -------------------------------------------------------------------------------

  function CountOf(content: seq<Block>, p: Block -> bool): nat {
    if content == [] then 0 else (if p(content[0]) then 1 else 0) + CountOf(content[1..], p)
  }

  predicate IsCall(b: Block) { b.ToolUse? }

  /** What watchers are told of: text, thinking and calls. */
  predicate Visible(b: Block) { b.Text? || b.Thinking? || b.ToolUse? }

  /** What the transcript keeps: everything but thinking. */
  predicate Lasting(b: Block) { !b.Thinking? && !b.RedactedThinking? }

  predicate Announces(e: Event, b: Block) {
    && (b.Text? ==> e == TextEvent(b.text))
    && (b.Thinking? ==> e == ThinkingEvent(b.thinking))
    && (b.ToolUse? ==> e == ToolUseEvent(b.name, b.input))
  }

  /** A block in front of the one at `i`. */
  lemma CountBehind(content: seq<Block>, i: nat, p: Block -> bool)
    requires 0 < i <= |content|
    ensures CountOf(content[..i], p) == (if p(content[0]) then 1 else 0) + CountOf(content[1..][..i - 1], p)
  {
    assert content[..i][1..] == content[1..][..i - 1];
  }

  /** The events of a reply are those of its visible blocks, in their order. */
  lemma {:induction false} ReplyEventAt(content: seq<Block>, i: nat)
    requires i < |content|
    ensures |ReplyEvents(content)| == CountOf(content, Visible)
    ensures Visible(content[i]) ==>
              var k := CountOf(content[..i], Visible);
              k < |ReplyEvents(content)| && Announces(ReplyEvents(content)[k], content[i])
  {
    if |content| == 1 {
      assert content[1..] == [] && ReplyEvents([]) == [];
    } else {
      ReplyEventAt(content[1..], if i > 0 then i - 1 else 0);
    }
    if i > 0 {
      CountBehind(content, i, Visible);
    }
  }

  lemma {:induction false} ToolCallAt(content: seq<Block>, i: nat)
    requires i < |content|
    ensures |ToolCalls(content)| == CountOf(content, IsCall)
    ensures IsCall(content[i]) ==>
              var k := CountOf(content[..i], IsCall); k < |ToolCalls(content)| && ToolCalls(content)[k] == content[i]
  {
    if |content| == 1 {
      assert content[1..] == [] && ToolCalls([]) == [];
    } else {
      ToolCallAt(content[1..], if i > 0 then i - 1 else 0);
    }
    if i > 0 { CountBehind(content, i, IsCall); }
  }

  lemma {:induction false} KeptAt(content: seq<Block>, i: nat)
    requires i < |content|
    ensures |WithoutThinking(content)| == CountOf(content, Lasting)
    ensures Lasting(content[i]) ==>
              var k := CountOf(content[..i], Lasting);
              k < |WithoutThinking(content)| && WithoutThinking(content)[k] == content[i]
  {
    if |content| == 1 {
      assert content[1..] == [] && WithoutThinking([]) == [];
    } else {
      KeptAt(content[1..], if i > 0 then i - 1 else 0);
    }
    if i > 0 { CountBehind(content, i, Lasting); }
  }

  // ---- The events of a turn -------------------------------------------------------------------------

  function Told(w: World, i: nat, usage: Event): seq<Event> {
    if w.respond(i).Failed? then []
    else
      var calls := ToolCalls(w.respond(i).content);
      ([usage] + ReplyEvents(w.respond(i).content)) + (if calls == [] then [] else ResultEvents(w, i, calls))
  }

  lemma AnswerTells(start: seq<Message>, w: World, i: nat) returns (usage: Event)
    ensures TurnAt(start, w, i + 1).events == TurnAt(start, w, i).events + Told(w, i, usage)
    ensures usage == UsageEvent(TurnAt(start, w, i + 1).total)
  {
    usage := UsageEvent(TurnAt(start, w, i + 1).total);
    AfterTells(TurnAt(start, w, i), w, i, usage);
  }

  lemma AfterTells(t: Turn, w: World, i: nat, usage: Event)
    requires usage == UsageEvent(t.After(w, i).total)
    ensures t.After(w, i).events == t.events + Told(w, i, usage)
  {
    if w.respond(i).Replied? {
      var content := w.respond(i).content;
      var calls := ToolCalls(content);
      Regroup(t.events, [usage], ReplyEvents(content), if calls == [] then [] else ResultEvents(w, i, calls));
    }
  }

  lemma Regroup(a: seq<Event>, b: seq<Event>, c: seq<Event>, d: seq<Event>)
    ensures ((a + b) + c) + d == a + ((b + c) + d) && (a + b) + c == a + ((b + c) + [])
    ensures a + (b + c) == (a + b) + (c + [])
  {
  }

  lemma {:induction false} EventsGrow(start: seq<Message>, w: World, i: nat, n: nat)
    requires i <= n
    ensures TurnAt(start, w, i).events <= TurnAt(start, w, n).events
    decreases n
  {
    if i < n {
      EventsGrow(start, w, i, n - 1);
      var usage := AnswerTells(start, w, n - 1);
    }
  }

  /** Where the events of answer `i` begin: its running total, then its visible blocks, then the
      results of its calls, and then those of the next answer. */
  function Begin(start: seq<Message>, w: World, i: nat): nat { |TurnAt(start, w, i).events| }

  lemma AnswerSpan(start: seq<Message>, w: World, i: nat)
    ensures Begin(start, w, 0) == 1 && TurnAt(start, w, 0).events[0] == ModelEvent(w.option)
    ensures w.respond(i).Failed? ==> Begin(start, w, i + 1) == Begin(start, w, i)
    ensures w.respond(i).Replied? ==>
              var content := w.respond(i).content;
              Begin(start, w, i + 1) == Begin(start, w, i) + 1 + CountOf(content, Visible) + CountOf(content, IsCall)
  {
    var usage := AnswerTells(start, w, i);
    if w.respond(i).Replied? {
      var content := w.respond(i).content;
      if content != [] {
        ReplyEventAt(content, 0);
        ToolCallAt(content, 0);
      }
    }
  }

  lemma Within(a: seq<Event>, b: seq<Event>, c: seq<Event>, all: seq<Event>, k: nat)
    requires a + (b + c) <= all && k < |b|
    ensures |a| + k < |all| && all[|a| + k] == b[k]
  {
    assert (a + (b + c))[|a| + k] == b[k];
  }

  /** Every visible block of every answer is announced for what it is, at its place. */
  lemma BlockIsPublished(start: seq<Message>, w: World, n: nat, i: nat, k: nat)
    requires i < n && w.respond(i).Replied? && k < |w.respond(i).content| && Visible(w.respond(i).content[k])
    ensures var content, events := w.respond(i).content, TurnAt(start, w, n).events;
            var at := Begin(start, w, i) + 1 + CountOf(content[..k], Visible);
            at < |events| && Announces(events[at], content[k])
  {
    var content := w.respond(i).content;
    var usage := AnswerTells(start, w, i);
    EventsGrow(start, w, i + 1, n);
    ReplyEventAt(content, k);
    var calls := ToolCalls(content);
    Within(TurnAt(start, w, i).events, [usage] + ReplyEvents(content),
           if calls == [] then [] else ResultEvents(w, i, calls), TurnAt(start, w, n).events,
           1 + CountOf(content[..k], Visible));
  }

  /** And so is the result of every call, with the credentials taken out. */
  lemma ResultIsPublished(start: seq<Message>, w: World, n: nat, i: nat, k: nat)
    requires i < n && w.respond(i).Replied? && k < |w.respond(i).content| && IsCall(w.respond(i).content[k])
    ensures var content, events := w.respond(i).content, TurnAt(start, w, n).events;
            var j := CountOf(content[..k], IsCall);
            var at := Begin(start, w, i) + 1 + CountOf(content, Visible) + j;
            at < |events| && events[at] ==
            ToolResultEvent(content[k].name, Redaction.RedactCredentials(w.run(i, j).output), w.run(i, j).isError)
  {
    var content := w.respond(i).content;
    var usage := AnswerTells(start, w, i);
    EventsGrow(start, w, i + 1, n);
    ReplyEventAt(content, k);
    ToolCallAt(content, k);
    var before := TurnAt(start, w, i).events;
    var reply, results := [usage] + ReplyEvents(content), ResultEvents(w, i, ToolCalls(content));
    Regroup(before, reply, results, []);
    Within(before + reply, results, [], TurnAt(start, w, n).events, CountOf(content[..k], IsCall));
  }

  // ---- What is stored -------------------------------------------------------------------------------------

  /** An answer adds the reply, tagged with the option and the time and without its thinking, and,
      if it made calls, one message of the owner's side with their results. */
  lemma AnswerIsStored(start: seq<Message>, w: World, i: nat)
    requires w.respond(i).Replied?
    ensures var content, was, now := w.respond(i).content, HistoryAt(start, w, i), HistoryAt(start, w, i + 1);
            var calls := CountOf(content, IsCall);
            && |now| == |was| + (if calls == 0 then 1 else 2) && was <= now
            && now[|was|].role == Assistant && now[|was|].model == w.option && now[|was|].time == w.clock(i)
            && |now[|was|].content| == CountOf(content, Lasting)
            && (calls > 0 ==> now[|was| + 1].role == User && now[|was| + 1].model == "" && now[|was| + 1].time == 0
                              && |now[|was| + 1].content| == calls)
  {
    var content := w.respond(i).content;
    if content != [] {
      KeptAt(content, 0);
      ToolCallAt(content, 0);
    }
  }

  /** Block by block. */
  lemma BlockIsStored(start: seq<Message>, w: World, i: nat, k: nat)
    requires w.respond(i).Replied? && k < |w.respond(i).content|
    ensures var content, was, now := w.respond(i).content, HistoryAt(start, w, i), HistoryAt(start, w, i + 1);
            var kept, j := CountOf(content[..k], Lasting), CountOf(content[..k], IsCall);
            && |was| < |now|
            && (Lasting(content[k]) ==> kept < |now[|was|].content| && now[|was|].content[kept] == content[k])
            && (IsCall(content[k]) ==>
                  && |was| + 1 < |now| && j < |now[|was| + 1].content|
                  && now[|was| + 1].content[j] ==
                     ToolResult(content[k].id, Redaction.RedactCredentials(w.run(i, j).output), w.run(i, j).isError))
  {
    KeptAt(w.respond(i).content, k);
    ToolCallAt(w.respond(i).content, k);
  }

  /** Both are handed to the store as soon as they are there: the reply before its tools run, and
      the results with it. */
  lemma {:induction false} AnswerIsSaved(start: seq<Message>, w: World, n: nat, i: nat)
    requires i < n && w.respond(i).Replied?
    ensures var saves, was, now := TurnAt(start, w, n).saves, HistoryAt(start, w, i), HistoryAt(start, w, i + 1);
            now in saves && |was| < |now| && now[..|was| + 1] in saves
    decreases n
  {
    if i < n - 1 {
      AnswerIsSaved(start, w, n - 1, i);
      SavesGrow(TurnAt(start, w, n - 1), w, n - 1);
    } else {
      SavesBoth(TurnAt(start, w, i), w, i);
    }
  }

  lemma SavesGrow(t: Turn, w: World, i: nat)
    ensures t.saves <= t.After(w, i).saves
  {
  }

  lemma SavesBoth(t: Turn, w: World, i: nat)
    requires w.respond(i).Replied?
    ensures var now := t.After(w, i).history;
            now in t.After(w, i).saves && |t.history| < |now| && now[..|t.history| + 1] in t.After(w, i).saves
  {
    var content := w.respond(i).content;
    var reply, now := t.history + [ReplyMessage(w, i, content)], t.After(w, i).history;
    assert now[..|t.history| + 1] == reply;
    var saves := t.After(w, i).saves;
    assert saves[|t.saves|] == reply;
    assert saves[|saves| - 1] == now;
  }

  // ---- What is asked ---------------------------------------------------------------------------------------

  /** A request carries the messages of its window without our tags and otherwise as they are. */
  lemma RequestIsBare(history: seq<Message>, k: nat, request: seq<Message>, j: nat)
    requires Carries(history, k, request) && j < |request|
    ensures k + j < |history| && request[j].model == "" && request[j].time == 0
    ensures request[j].role == history[k + j].role && request[j].content == history[k + j].content
  {
  }

  // ---- Totals ------------------------------------------------------------------------------------------------

  function SumOf(w: World, n: nat, field: Usage -> int): int {
    if n == 0 then 0
    else SumOf(w, n - 1, field) + if w.respond(n - 1).Replied? then field(w.respond(n - 1).usage) else 0
  }

  /** Each of the four counts is added up on its own. */
  lemma {:induction false} TotalsAddUp(start: seq<Message>, w: World, n: nat)
    ensures var t := TurnAt(start, w, n).total;
            && t.input == SumOf(w, n, (u: Usage) => u.input)
            && t.output == SumOf(w, n, (u: Usage) => u.output)
            && t.cacheWrite == SumOf(w, n, (u: Usage) => u.cacheWrite)
            && t.cacheRead == SumOf(w, n, (u: Usage) => u.cacheRead)
  {
    if n > 0 { TotalsAddUp(start, w, n - 1); }
  }
}
