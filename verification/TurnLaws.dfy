/** What every metered turn guarantees, whatever the model and the tools answer. */
module TurnLaws {
  import opened Transcript
  import opened Repair
  import opened PairingLaws
  import opened CloseLaws
  import Redaction
  import opened Window
  import opened ModelLoop

  // ---- Ids of what a reply adds -----------------------------------------------------------

  lemma {:induction false} KeptIds(content: seq<Block>)
    ensures BlockCallIds(WithoutThinking(content)) == BlockCallIds(content)
    ensures BlockResultIds(WithoutThinking(content)) == BlockResultIds(content)
  {
    if content != [] {
      KeptIds(content[1..]);
      if !content[0].Thinking? && !content[0].RedactedThinking? {
        assert WithoutThinking(content)[1..] == WithoutThinking(content[1..]);
      }
    }
  }

  lemma {:induction false} ToolCallIds(content: seq<Block>)
    ensures |ToolCalls(content)| == |BlockCallIds(content)|
    ensures forall j :: 0 <= j < |ToolCalls(content)| ==> ToolCalls(content)[j].id == BlockCallIds(content)[j]
  {
    if content != [] { ToolCallIds(content[1..]); }
  }

  lemma {:induction false} AllResults(blocks: seq<Block>)
    requires forall j :: 0 <= j < |blocks| ==> blocks[j].ToolResult?
    ensures BlockCallIds(blocks) == [] && |BlockResultIds(blocks)| == |blocks|
    ensures forall j :: 0 <= j < |blocks| ==> BlockResultIds(blocks)[j] == blocks[j].useId
  {
    if blocks != [] { AllResults(blocks[1..]); }
  }

  /** The results message answers exactly the reply's calls, in their order. */
  lemma ResultsAnswerReply(w: World, i: nat, content: seq<Block>)
    ensures CallIds(ReplyMessage(w, i, content)) == BlockCallIds(content)
    ensures ResultIds(ReplyMessage(w, i, content)) == BlockResultIds(content)
    ensures ResultIds(ResultMessage(w, i, content)) == BlockCallIds(content)
    ensures CallIds(ResultMessage(w, i, content)) == []
    ensures ToolCalls(content) == [] <==> BlockCallIds(content) == []
  {
    KeptIds(content);
    ToolCallIds(content);
    AllResults(Results(w, i, ToolCalls(content)));
  }

  // ---- Pairing is kept ----------------------------------------------------------------------

  lemma {:induction false} PairedBehind(open: seq<Id>, g: seq<Message>, t: seq<Message>)
    requires PairedAfter(open, g)
    ensures PairedAfter(open, g + t) <==> PairedAfter([], t)
    decreases |g|
  {
    if g == [] {
      assert g + t == t;
    } else {
      assert (g + t)[0] == g[0] && (g + t)[1..] == g[1..] + t;
      PairedBehind(CallIds(g[0]), g[1..], t);
    }
  }

  lemma RolesBehind(g: seq<Message>, t: seq<Message>)
    requires WellRoled(g) && WellRoled(t)
    ensures WellRoled(g + t)
  {
  }

  lemma SilentReply(reply: Message)
    requires CallIds(reply) == [] && ResultIds(reply) == []
    ensures PairedAfter([], [reply]) && WellRoled([reply]) && AllCallIds([reply]) == []
  {
    assert [reply][1..] == [];
  }

  lemma AnsweredReply(reply: Message, answer: Message)
    requires reply.role.Assistant? && answer.role.User?
    requires ResultIds(reply) == [] && CallIds(answer) == [] && ResultIds(answer) == CallIds(reply)
    ensures PairedAfter([], [reply, answer]) && WellRoled([reply, answer])
    ensures AllCallIds([reply, answer]) == CallIds(reply)
  {
    var pair := [reply, answer];
    assert pair[1..] == [answer] && [answer][1..] == [];
    assert AllCallIds([answer]) == [];
    assert PairedAfter(CallIds(reply), [answer]);
  }

  /** The messages one answer of the model service adds to the history. */
  function Added(w: World, i: nat): seq<Message> {
    match w.respond(i)
    case Failed(_, _) => []
    case Replied(content, _) =>
      if ToolCalls(content) == [] then [ReplyMessage(w, i, content)]
      else [ReplyMessage(w, i, content), ResultMessage(w, i, content)]
  }

  lemma AfterAdds(t: Turn, w: World, i: nat)
    ensures t.After(w, i).history == t.history + Added(w, i)
  {
  }

  lemma HistoryStep(start: seq<Message>, w: World, n: nat)
    requires n > 0
    ensures HistoryAt(start, w, n) == HistoryAt(start, w, n - 1) + Added(w, n - 1)
  {
    AfterAdds(TurnAt(start, w, n - 1), w, n - 1);
  }

  function IdsAsked(w: World, i: nat): seq<Id> {
    if w.respond(i).Replied? then BlockCallIds(w.respond(i).content) else []
  }

  function IdsBefore(w: World, n: nat): seq<Id> {
    if n == 0 then [] else IdsBefore(w, n - 1) + IdsAsked(w, n - 1)
  }

  ghost predicate NoResultsBefore(w: World, n: nat) {
    forall i: nat :: i < n && w.respond(i).Replied? ==> BlockResultIds(w.respond(i).content) == []
  }

  /** The model service's part in its first `n` answers: replies carry no results, and no call id
      repeats or occurs in the history they answer. */
  ghost predicate FreshReplies(start: seq<Message>, w: World, n: nat) {
    NoResultsBefore(w, n) && Distinct(AllCallIds(start) + IdsBefore(w, n))
  }

  lemma AddedPaired(w: World, i: nat)
    requires w.respond(i).Replied? ==> BlockResultIds(w.respond(i).content) == []
    ensures PairedWith(Added(w, i), IdsAsked(w, i))
  {
    if w.respond(i).Replied? {
      var content := w.respond(i).content;
      ResultsAnswerReply(w, i, content);
      if ToolCalls(content) == [] {
        SilentReply(ReplyMessage(w, i, content));
      } else {
        AnsweredReply(ReplyMessage(w, i, content), ResultMessage(w, i, content));
      }
    }
  }

  lemma DistinctPrefix(a: seq<Id>, b: seq<Id>)
    requires Distinct(a + b)
    ensures Distinct(a)
  {
    forall i, j | 0 <= i < j < |a| ensures a[i] != a[j] {
      assert (a + b)[i] == a[i] && (a + b)[j] == a[j];
    }
  }

  lemma {:induction false} FreshPrefix(start: seq<Message>, w: World, n: nat, m: nat)
    requires n <= m && FreshReplies(start, w, m)
    ensures FreshReplies(start, w, n)
    decreases m
  {
    if n < m {
      var ids := AllCallIds(start);
      assert ids + IdsBefore(w, m) == (ids + IdsBefore(w, m - 1)) + IdsAsked(w, m - 1);
      DistinctPrefix(ids + IdsBefore(w, m - 1), IdsAsked(w, m - 1));
      FreshPrefix(start, w, n, m - 1);
    }
  }

  /** The state of the proof after `n` answers: `h` is paired and `ids` are its calls. */
  ghost predicate PairedWith(h: seq<Message>, ids: seq<Id>) {
    WellRoled(h) && PairedAfter([], h) && AllCallIds(h) == ids
  }

  lemma PairedStep(g: seq<Message>, ids: seq<Id>, t: seq<Message>, more: seq<Id>)
    requires PairedWith(g, ids) && PairedWith(t, more)
    ensures PairedWith(g + t, ids + more)
  {
    PairedBehind([], g, t);
    AllCallIdsConcat(g, t);
    RolesBehind(g, t);
  }

  /** A history that grows by `adds(0)`, `adds(1)`, and so on. */
  function Grown(start: seq<Message>, adds: nat -> seq<Message>, n: nat): seq<Message> {
    if n == 0 then start else Grown(start, adds, n - 1) + adds(n - 1)
  }

  function IdsUpTo(first: seq<Id>, ids: nat -> seq<Id>, n: nat): seq<Id> {
    if n == 0 then first else IdsUpTo(first, ids, n - 1) + ids(n - 1)
  }

  lemma {:induction false} GrownPaired(start: seq<Message>, first: seq<Id>,
                                       adds: nat -> seq<Message>, ids: nat -> seq<Id>, n: nat)
    requires PairedWith(start, first) && forall i: nat :: i < n ==> PairedWith(adds(i), ids(i))
    ensures PairedWith(Grown(start, adds, n), IdsUpTo(first, ids, n))
  {
    if n > 0 {
      GrownPaired(start, first, adds, ids, n - 1);
      assert PairedWith(adds(n - 1), ids(n - 1));
      PairedStep(Grown(start, adds, n - 1), IdsUpTo(first, ids, n - 1), adds(n - 1), ids(n - 1));
    }
  }

  lemma {:induction false} HistoryIsGrown(start: seq<Message>, w: World, adds: nat -> seq<Message>, n: nat)
    requires forall i: nat :: adds(i) == Added(w, i)
    ensures HistoryAt(start, w, n) == Grown(start, adds, n)
  {
    if n > 0 {
      HistoryIsGrown(start, w, adds, n - 1);
      HistoryStep(start, w, n);
    }
  }

  lemma {:induction false} IdsAreUpTo(first: seq<Id>, w: World, ids: nat -> seq<Id>, n: nat)
    requires forall i: nat :: ids(i) == IdsAsked(w, i)
    ensures first + IdsBefore(w, n) == IdsUpTo(first, ids, n)
  {
    if n == 0 {
      assert first + [] == first;
    } else {
      IdsAreUpTo(first, w, ids, n - 1);
      assert first + (IdsBefore(w, n - 1) + IdsAsked(w, n - 1)) == (first + IdsBefore(w, n - 1)) + IdsAsked(w, n - 1);
    }
  }

  lemma HistoryKept(start: seq<Message>, w: World, n: nat)
    requires PairedWith(start, AllCallIds(start)) && NoResultsBefore(w, n)
    ensures PairedWith(HistoryAt(start, w, n), AllCallIds(start) + IdsBefore(w, n))
  {
    var adds, ids := (i: nat) => Added(w, i), (i: nat) => IdsAsked(w, i);
    forall i: nat | i < n ensures PairedWith(adds(i), ids(i)) { AddedPaired(w, i); }
    GrownPaired(start, AllCallIds(start), adds, ids, n);
    HistoryIsGrown(start, w, adds, n);
    IdsAreUpTo(AllCallIds(start), w, ids, n);
  }

  /** Every history the loop shows to the model, and every one it ends with, is fully paired. */
  lemma HistoryPaired(start: seq<Message>, w: World, n: nat)
    requires StrictlyPaired(start) && FreshReplies(start, w, n)
    ensures StrictlyPaired(HistoryAt(start, w, n))
    ensures AllCallIds(HistoryAt(start, w, n)) == AllCallIds(start) + IdsBefore(w, n)
  {
    StrictlyPairedIff(start);
    HistoryKept(start, w, n);
    StrictlyPairedIff(HistoryAt(start, w, n));
  }

  predicate EndsInUser(h: seq<Message>) { h != [] && h[|h| - 1].role.User? }

  lemma EndsBehind(g: seq<Message>, h: seq<Message>)
    requires EndsInUser(h)
    ensures EndsInUser(g + h)
  {
  }

  lemma {:induction false} CloseEndsInUser(open: seq<Id>, h: seq<Message>)
    requires EndsInUser(h)
    ensures EndsInUser(CloseAfter(open, h))
    decreases |h|
  {
    if h[0].role.User? {
      var synth := Synthetic(open, ResultIds(h[0]));
      var head, rest := Prepend(synth, h[0]), if synth == [] then CallIds(h[0]) else [];
      if |h| == 1 {
        CloseNothing(head, rest);
      } else {
        CloseEndsInUser(rest, h[1..]);
        EndsBehind([head], CloseAfter(rest, h[1..]));
      }
    } else {
      CloseEndsInUser(CallIds(h[0]), h[1..]);
      EndsBehind([h[0]], CloseAfter(CallIds(h[0]), h[1..]));
      EndsBehind(Leftover(open), [h[0]] + CloseAfter(CallIds(h[0]), h[1..]));
    }
  }

  lemma CloseNothing(head: Message, open: seq<Id>)
    requires head.role.User?
    ensures EndsInUser([head] + CloseAfter(open, []))
  {
  }

  lemma {:induction false} DedupeEndsInUser(h: seq<Message>, mint: nat -> Id, at: Pairing)
    requires EndsInUser(h)
    ensures EndsInUser(DedupeFrom(h, mint, at))
    decreases |h|
  {
    if |h| > 1 { DedupeEndsInUser(h[1..], mint, AfterBlocks(h[0].content, at)); }
  }

  lemma HistoryEndsInUser(start: seq<Message>, w: World, n: nat)
    requires EndsInUser(start) && AllContinue(w, n)
    ensures EndsInUser(HistoryAt(start, w, n))
  {
    if n > 0 {
      assert Continues(w, n - 1);
      HistoryStep(start, w, n);
    }
  }

  /** The stored history a turn starts from: the owner's message is last, and the calls and
      results before it are aligned by count. */
  ghost predicate Repairable(stored: seq<Message>, mint: nat -> Id) {
    && WellRoled(stored) && EndsInUser(stored) && Aligned(stored, 0, 0)
    && Injective(mint) && UnusedIn(mint, stored)
  }

  /** Main result: in every turn, every call to the model is made with a history that is
      fully paired and ends in a user message, and the turn leaves a fully paired history. */
  lemma EveryCallAcceptable(stored: seq<Message>, mint: nat -> Id, w: World, n: nat, i: nat)
    requires Repairable(stored, mint) && TurnOf(w, n) && i <= n
    requires FreshReplies(Close(Dedupe(stored, mint)), w, i)
    ensures StrictlyPaired(HistoryAt(Close(Dedupe(stored, mint)), w, i))
    ensures i < n ==> EndsInUser(HistoryAt(Close(Dedupe(stored, mint)), w, i))
  {
    var start := Close(Dedupe(stored, mint));
    RepairSucceedsIff(stored, mint);
    HistoryPaired(start, w, i);
    DedupeEndsInUser(stored, mint, Pairing(0, 0));
    CloseEndsInUser([], Dedupe(stored, mint));
    if i < n {
      assert AllContinue(w, i);
      HistoryEndsInUser(start, w, i);
    }
  }

  // ---- The request is the window of that history ---------------------------------------------

  lemma {:induction false} UntaggedIds(a: seq<Message>, b: seq<Message>)
    requires |a| == |b| && forall j :: 0 <= j < |a| ==> b[j] == Untagged(a[j])
    ensures AllCallIds(b) == AllCallIds(a) && WellRoled(b) == WellRoled(a)
    ensures forall open :: PairedAfter(open, b) == PairedAfter(open, a)
    decreases |a|
  {
    if a != [] {
      UntaggedIds(a[1..], b[1..]);
      assert a == [a[0]] + a[1..] && b == [b[0]] + b[1..];
      assert RolesKept(b[0]) == RolesKept(a[0]);
      assert WellRoled(a) == (RolesKept(a[0]) && WellRoled(a[1..]));
      assert WellRoled(b) == (RolesKept(b[0]) && WellRoled(b[1..]));
    }
  }

  /** Dropping the per-message tags changes nothing the service checks; so a request is
      acceptable exactly when the window is cut at a message without results. */
  lemma RequestAcceptableIff(h: seq<Message>, k: nat, request: seq<Message>)
    requires StrictlyPaired(h) && CutAt(h, MAX_CONTEXT_TURNS, k) && Carries(h, k, request)
    ensures StrictlyPaired(request) <==> TurnStarts(h) <= MAX_CONTEXT_TURNS || ResultIds(h[k]) == []
  {
    UntaggedIds(h[k..], request);
    StrictlyPairedIff(h[k..]);
    StrictlyPairedIff(request);
    WindowPairedIff(h, MAX_CONTEXT_TURNS, k);
  }

  // ---- Events -----------------------------------------------------------------------------------

  ghost predicate NoEnding(events: seq<Event>) {
    forall i :: 0 <= i < |events| ==> !Ends(events[i])
  }

  lemma {:induction false} ReplyEventsGoOn(content: seq<Block>)
    ensures NoEnding(ReplyEvents(content))
  {
    if content != [] { ReplyEventsGoOn(content[1..]); }
  }

  lemma {:induction false} EventsGoOn(start: seq<Message>, w: World, n: nat)
    ensures NoEnding(TurnAt(start, w, n).events)
  {
    if n > 0 {
      EventsGoOn(start, w, n - 1);
      if w.respond(n - 1).Replied? { ReplyEventsGoOn(w.respond(n - 1).content); }
    }
  }

  /** The last event of a turn is its only done, error or paused event; it is "paused"
      exactly when the fortieth reply still asked for tools, and "error" exactly when the
      last call failed without the owner having stopped the turn. */
  lemma OneEnding(start: seq<Message>, w: World, n: nat)
    requires TurnOf(w, n)
    ensures var events := TurnAt(start, w, n).Published([Ending(w.respond(n - 1))]).events;
            && (forall i :: 0 <= i < |events| ==> (Ends(events[i]) <==> i == |events| - 1))
            && (events[|events| - 1].PausedEvent? <==> n == MAX_ITERATIONS && Continues(w, n - 1))
            && (events[|events| - 1].ErrorEvent? <==> w.respond(n - 1).Failed? && !w.respond(n - 1).cancelled)
            && (events[|events| - 1].ErrorEvent? ==> events[|events| - 1].error == w.respond(n - 1).error)
  {
    EventsGoOn(start, w, n);
  }

  /** Token counts of the first `n` answers, added up field by field. */
  function Spent(w: World, n: nat): Usage {
    if n == 0 then Usage(0, 0, 0, 0)
    else
      var u := if w.respond(n - 1).Replied? then w.respond(n - 1).usage else Usage(0, 0, 0, 0);
      Spent(w, n - 1).Plus(u)
  }

  /** The running total is the sum over the answers, and an answer publishes it first. */
  lemma {:induction false} TotalIsSum(start: seq<Message>, w: World, n: nat)
    ensures TurnAt(start, w, n).total == Spent(w, n)
    ensures w.respond(n).Replied? ==>
              var before, after := TurnAt(start, w, n).events, TurnAt(start, w, n + 1).events;
              |before| < |after| && before <= after && after[|before|] == UsageEvent(Spent(w, n + 1))
  {
    if n > 0 { TotalIsSum(start, w, n - 1); }
  }

  // ---- What is shared is redacted ------------------------------------------------------------------

  /** Of what a tool returned, split at the quotes, every credential value is replaced and
      nothing else is touched; the error flag stays. */
  lemma SharedIsRedacted(o: Outcome, i: nat)
    requires i < |Redaction.Pieces(o.output)|
    ensures var before, after := Redaction.Pieces(o.output), Redaction.Pieces(Shareable(o).output);
            && |after| == |before| && Shareable(o).isError == o.isError
            && var isValue := Redaction.IsValue(Redaction.CREDENTIAL_FIELD, before, i);
               after[i] == if isValue then "[redacted]" else before[i]
  {
    Redaction.RedactionLaw(o.output, i);
  }

  // ---- A crash at any save heals -------------------------------------------------------------------

  ghost predicate SavedIn(start: seq<Message>, w: World, n: nat, s: seq<Message>) {
    s in TurnAt(start, w, n).saves
  }

  /** Everything a turn hands to the store is a fully paired history, possibly followed by
      the one reply whose tools are running. */
  lemma {:induction false} SavedShape(start: seq<Message>, w: World, n: nat, s: seq<Message>)
      returns (i: nat, tail: seq<Message>)
    requires SavedIn(start, w, n, s)
    ensures i <= n && s == HistoryAt(start, w, i) + tail
    ensures tail == [] || (w.respond(i).Replied? && i < n && tail == [ReplyMessage(w, i, w.respond(i).content)])
  {
    SavesStep(start, w, n, s);
    if SavedIn(start, w, n - 1, s) {
      i, tail := SavedShape(start, w, n - 1, s);
    } else {
      i, tail := NewSave(HistoryAt(start, w, n - 1), w, n - 1, s);
      HistoryStep(start, w, n);
      i := n - 1 + i;
    }
  }

  function SavesOf(h: seq<Message>, w: World, i: nat): seq<seq<Message>> {
    match w.respond(i)
    case Failed(_, _) => []
    case Replied(content, _) =>
      if ToolCalls(content) == [] then [h + Added(w, i)]
      else [h + [ReplyMessage(w, i, content)], h + Added(w, i)]
  }

  lemma AfterSaves(t: Turn, w: World, i: nat)
    ensures t.After(w, i).saves == t.saves + SavesOf(t.history, w, i)
  {
    AfterAdds(t, w, i);
  }

  lemma SavesStep(start: seq<Message>, w: World, n: nat, s: seq<Message>)
    requires SavedIn(start, w, n, s)
    ensures n > 0 && (SavedIn(start, w, n - 1, s) || s in SavesOf(HistoryAt(start, w, n - 1), w, n - 1))
  {
    AfterSaves(TurnAt(start, w, n - 1), w, n - 1);
  }

  lemma NewSave(h: seq<Message>, w: World, i: nat, s: seq<Message>) returns (more: nat, tail: seq<Message>)
    requires s in SavesOf(h, w, i)
    ensures more <= 1 && s == (if more == 0 then h else h + Added(w, i)) + tail
    ensures if more == 0 then tail == [ReplyMessage(w, i, w.respond(i).content)] else tail == []
  {
    more := if s == h + Added(w, i) then 1 else 0;
    tail := if more == 1 then [] else [ReplyMessage(w, i, w.respond(i).content)];
  }

  /** If the process dies after any save, the owner's next message finds a history that the
      next turn's repair makes acceptable. */
  lemma InterruptionHeals(start: seq<Message>, w: World, n: nat, s: seq<Message>, next: Message, mint: nat -> Id)
    requires StrictlyPaired(start) && FreshReplies(start, w, n) && SavedIn(start, w, n, s)
    requires next.role.User? && CallIds(next) == [] && ResultIds(next) == []
    requires Injective(mint) && UnusedIn(mint, s + [next])
    ensures StrictlyPaired(Close(Dedupe(s + [next], mint)))
  {
    var i, tail := SavedShape(start, w, n, s);
    FreshPrefix(start, w, i, n);
    HistoryPaired(start, w, i);
    var g := HistoryAt(start, w, i);
    if tail == [] {
      PairedThenSpoken(g, next);
      assert s == g;
      RepairSucceedsIff(s + [next], mint);
    } else {
      ResultsAnswerReply(w, i, w.respond(i).content);
      assert s + [next] == g + [tail[0], next];
      InterruptedTurnHeals(g, tail[0], next, mint);
    }
  }

  lemma PairedThenSpoken(g: seq<Message>, next: Message)
    requires StrictlyPaired(g) && next.role.User? && CallIds(next) == [] && ResultIds(next) == []
    ensures Aligned(g + [next], 0, 0) && WellRoled(g + [next])
  {
    StrictlyPairedIff(g);
    AlignedBehindPaired([], g, [next]);
    assert [next][1..] == [];
    AlignedHead([next], 0, 0);
  }
}
