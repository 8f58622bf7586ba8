/** The window of the conversation a request carries (assistant/service.go): the last
    `maxTurns` human turns, cut at a human message. */
module Window {
  import opened Transcript
  import opened Repair
  import opened PairingLaws
  import CloseLaws

  predicate HasText(blocks: seq<Block>) {
    exists i :: 0 <= i < |blocks| && blocks[i].Text?
  }

  /** A user message with text, as opposed to one that only carries tool results. */
  predicate TurnStart(m: Message) { m.role.User? && HasText(m.content) }

  function TurnStarts(h: seq<Message>): nat {
    if h == [] then 0 else (if TurnStart(h[0]) then 1 else 0) + TurnStarts(h[1..])
  }

  /** `h` cut at message `k`: everything if that is few enough turns, otherwise the suffix
      that begins with a turn start and has exactly `maxTurns` of them. */
  ghost predicate CutAt(h: seq<Message>, maxTurns: nat, k: nat) {
    && k <= |h|
    && if TurnStarts(h) <= maxTurns then k == 0
       else k < |h| && TurnStart(h[k]) && TurnStarts(h[k..]) == maxTurns
  }

  lemma {:induction false} TurnStartsConcat(a: seq<Message>, b: seq<Message>)
    ensures TurnStarts(a + b) == TurnStarts(a) + TurnStarts(b)
  {
    if a == [] {
      assert a + b == b;
    } else {
      assert (a + b)[1..] == a[1..] + b;
      TurnStartsConcat(a[1..], b);
    }
  }

  /** How many messages are the user's and say something. */
  ghost function SpokenIn(h: seq<Message>): nat {
    if h == [] then 0
    else (if h[0].role == User && exists b :: b in h[0].content && b.Text? then 1 else 0) + SpokenIn(h[1..])
  }

  lemma {:induction false} StartsAreSpoken(h: seq<Message>)
    ensures TurnStarts(h) == SpokenIn(h)
  {
    if h != [] {
      StartsAreSpoken(h[1..]);
      if b :| b in h[0].content && b.Text? {
        var i :| 0 <= i < |h[0].content| && h[0].content[i] == b;
        assert h[0].content[i].Text?;
      }
    }
  }

  /** The window in plain terms: everything when the user has spoken often enough or less, otherwise
      from a message on in which the user speaks, with exactly so many of them. */
  lemma WindowIs(h: seq<Message>, maxTurns: nat, k: nat)
    ensures CutAt(h, maxTurns, k) <==>
            if SpokenIn(h) <= maxTurns then k == 0
            else
              && k < |h| && h[k].role == User && (exists b :: b in h[k].content && b.Text?)
              && SpokenIn(h[k..]) == maxTurns
  {
    StartsAreSpoken(h);
    if k < |h| {
      StartsAreSpoken(h[k..]);
      if b :| b in h[k].content && b.Text? {
        var i :| 0 <= i < |h[k].content| && h[k].content[i] == b;
        assert h[k].content[i].Text?;
      }
    }
  }

  lemma EarlierStart(h: seq<Message>, lo: nat, hi: nat)
    requires lo < hi < |h| && TurnStart(h[lo])
    ensures TurnStarts(h[lo..]) > TurnStarts(h[hi..])
  {
    assert h[lo..] == h[lo..hi] + h[hi..];
    TurnStartsConcat(h[lo..hi], h[hi..]);
    assert h[lo..hi][0] == h[lo];
  }

  /** There is only one such cut. */
  lemma CutUnique(h: seq<Message>, maxTurns: nat, j: nat, k: nat)
    requires CutAt(h, maxTurns, j) && CutAt(h, maxTurns, k)
    ensures j == k
  {
    if TurnStarts(h) > maxTurns {
      if j < k { EarlierStart(h, j, k); }
      if k < j { EarlierStart(h, k, j); }
    }
  }

  lemma TurnStartsSplit(h: seq<Message>, k: nat)
    requires k < |h|
    ensures TurnStarts(h) == TurnStarts(h[..k]) + TurnStarts(h[k..])
    ensures TurnStarts(h[..k + 1]) == TurnStarts(h[..k]) + if TurnStart(h[k]) then 1 else 0
  {
    TurnStartsConcat(h[..k], h[k..]);
    assert h[..k] + h[k..] == h;
    TurnStartsConcat(h[..k], [h[k]]);
    assert h[..k] + [h[k]] == h[..k + 1] && [h[k]][1..] == [];
  }

  method HasTextBlock(m: Message) returns (found: bool)
    ensures found == HasText(m.content)
  {
    for i := 0 to |m.content|
      invariant forall j :: 0 <= j < i ==> !m.content[j].Text?
    {
      if m.content[i].Text? { return true; }
    }
    return false;
  }

  /** `starts` lists, in order, the turn starts among the first `i` messages. */
  ghost predicate StartsUpTo(h: seq<Message>, i: nat, starts: seq<nat>)
    requires i <= |h|
  {
    && |starts| == TurnStarts(h[..i])
    && forall j :: 0 <= j < |starts| ==>
         starts[j] < i && TurnStart(h[starts[j]]) && TurnStarts(h[..starts[j]]) == j
  }

  ghost predicate IsWindow(h: seq<Message>, maxTurns: nat, window: seq<Message>) {
    exists k: nat :: CutAt(h, maxTurns, k) && window == h[k..]
  }

  method RecentHistory(history: seq<Message>, maxTurns: nat) returns (window: seq<Message>)
    requires maxTurns > 0
    ensures IsWindow(history, maxTurns, window)
  {
    var starts: seq<nat> := [];
    for i := 0 to |history|
      invariant StartsUpTo(history, i, starts)
    {
      TurnStartsSplit(history, i);
      var text := false;
      if history[i].role.User? { text := HasTextBlock(history[i]); }
      if text { starts := starts + [i]; }
    }
    assert history[..|history|] == history;
    if |starts| <= maxTurns {
      assert CutAt(history, maxTurns, 0) && history[0..] == history;
      return history;
    }
    var cut := starts[|starts| - maxTurns];
    TurnStartsSplit(history, cut);
    assert CutAt(history, maxTurns, cut);
    return history[cut..];
  }

  // ---- What the cut does to pairing ------------------------------------------------------

  lemma {:induction false} PairedSuffix(open: seq<Id>, h: seq<Message>, k: nat)
    requires PairedAfter(open, h) && k <= |h|
    ensures k > 0 ==> PairedAfter(CallIds(h[k - 1]), h[k..])
    decreases k
  {
    if k > 0 {
      PairedSuffix(CallIds(h[0]), h[1..], k - 1);
      assert h[1..][k - 1..] == h[k..];
      if k > 1 { assert h[1..][k - 2] == h[k - 1]; }
    }
  }

  lemma {:induction false} DistinctSuffix(h: seq<Message>, k: nat)
    requires k <= |h| && Distinct(AllCallIds(h))
    ensures Distinct(AllCallIds(h[k..]))
    decreases k
  {
    if k == 0 {
      assert h[0..] == h;
    } else {
      TailDistinct(CallIds(h[0]), AllCallIds(h[1..]), AllCallIds(h));
      DistinctSuffix(h[1..], k - 1);
      assert h[1..][k - 1..] == h[k..];
    }
  }

  lemma TailDistinct(a: seq<Id>, b: seq<Id>, all: seq<Id>)
    requires all == a + b && Distinct(all)
    ensures Distinct(b)
  {
    forall i, j | 0 <= i < j < |b| ensures b[i] != b[j] {
      assert all[|a| + i] == b[i] && all[|a| + j] == b[j];
    }
  }

  /** A suffix of an acceptable history is acceptable exactly when its first message
      carries no results. */
  lemma SuffixPairedIff(h: seq<Message>, k: nat)
    requires StrictlyPaired(h) && k <= |h|
    ensures StrictlyPaired(h[k..]) <==> k == |h| || ResultIds(h[k]) == []
  {
    var w := h[k..];
    StrictlyPairedIff(h);
    StrictlyPairedIff(w);
    PairedSuffix([], h, k);
    DistinctSuffix(h, k);
    if k == 0 { assert w == h; }
    if k < |h| {
      assert w[0] == h[k];
      EmptyMultiset(ResultIds(h[k]));
    }
  }

  /** The window keeps pairing exactly when the message it is cut at does not mix text and
      results. */
  lemma WindowPairedIff(h: seq<Message>, maxTurns: nat, k: nat)
    requires maxTurns > 0 && StrictlyPaired(h) && CutAt(h, maxTurns, k)
    ensures StrictlyPaired(h[k..]) <==> TurnStarts(h) <= maxTurns || ResultIds(h[k]) == []
  {
    SuffixPairedIff(h, k);
    assert k == 0 ==> h[k..] == h;
  }

  /** `recentHistory` promises that every cut keeps pairs intact. That holds for histories
      without a message that answers tools and speaks at once. */
  lemma UnmixedWindowPaired(h: seq<Message>, maxTurns: nat, k: nat)
    requires maxTurns > 0 && StrictlyPaired(h) && CutAt(h, maxTurns, k)
    requires forall i :: 0 <= i < |h| && TurnStart(h[i]) ==> ResultIds(h[i]) == []
    ensures StrictlyPaired(h[k..])
  {
    WindowPairedIff(h, maxTurns, k);
  }

  // ---- The closing pass makes such messages ------------------------------------------------

  function Says(text: string): Message { Message(User, [Text(text)], "", 0) }

  lemma SaysIds(text: string)
    ensures CallIds(Says(text)) == [] && ResultIds(Says(text)) == [] && TurnStart(Says(text))
  {
    CloseLaws.SingleIds(Text(text));
    assert Says(text).content[0].Text?;
  }

  lemma {:induction false} PlainTurns(text: string, n: nat)
    ensures var plain := seq(n, _ => Says(text));
            PairedAfter([], plain) && TurnStarts(plain) == n && WellRoled(plain) && AllCallIds(plain) == []
            && CloseAfter([], plain) == plain
  {
    SaysIds(text);
    var plain := seq(n, _ => Says(text));
    if n > 0 {
      PlainTurns(text, n - 1);
      assert plain[1..] == seq(n - 1, _ => Says(text));
    }
  }

  /** A call that was interrupted, the owner's next message, and as many later messages as
      fit a window with it. */
  function Interrupted(call: Id, text: string, later: nat): seq<Message> {
    [Message(Assistant, [ToolUse(call, "run", "{}")], "", 0), Says(text)] + seq(later, _ => Says(text))
  }

  /** The message the closing pass leaves after the call: its synthetic answer, then the text. */
  function Mixed(call: Id, text: string): Message {
    Message(User, [ToolResult(call, TOOL_INTERRUPTED_NOTE, true), Text(text)], "", 0)
  }

  lemma MixedIds(call: Id, text: string)
    ensures ResultIds(Mixed(call, text)) == [call] && CallIds(Mixed(call, text)) == [] && TurnStart(Mixed(call, text))
  {
    var result := ToolResult(call, TOOL_INTERRUPTED_NOTE, true);
    var c := Mixed(call, text).content;
    CloseLaws.SingleIds(Text(text));
    CloseLaws.SingleIds(result);
    assert c == [result] + [Text(text)] && c[1].Text?;
    BlockCallIdsConcat([result], [Text(text)]);
    BlockResultIdsConcat([result], [Text(text)]);
  }

  lemma OneSynthetic(call: Id)
    ensures Synthetic([call], []) == [ToolResult(call, TOOL_INTERRUPTED_NOTE, true)]
  {
    var one := [call];
    assert one[1..] == [];
    assert Synthetic(one[1..], []) == [];
  }

  lemma ClosedInterrupted(call: Id, text: string, later: nat)
    ensures Close(Interrupted(call, text, later)) ==
            [Interrupted(call, text, later)[0], Mixed(call, text)] + seq(later, _ => Says(text))
  {
    var h := Interrupted(call, text, later);
    var reply, plain := h[0], seq(later, _ => Says(text));
    assert h == [reply] + ([Says(text)] + plain);
    CloseHead(reply, [Says(text)] + plain);
    CloseLaws.SingleIds(reply.content[0]);
    SaysIds(text);
    var synth := Synthetic([call], []);
    OneSynthetic(call);
    assert Prepend(synth, Says(text)) == Mixed(call, text);
    assert ([Says(text)] + plain)[1..] == plain;
    PlainTurns(text, later);
  }

  lemma AnsweredInFront(reply: Message, answer: Message, rest: seq<Message>)
    requires RolesKept(reply) && RolesKept(answer) && |CallIds(reply)| <= 1 && ResultIds(reply) == []
    requires ResultIds(answer) == CallIds(reply) && CallIds(answer) == []
    requires WellRoled(rest) && PairedAfter([], rest) && AllCallIds(rest) == []
    requires !TurnStart(reply) && TurnStart(answer)
    ensures StrictlyPaired([reply] + ([answer] + rest))
    ensures TurnStarts([reply] + ([answer] + rest)) == 1 + TurnStarts(rest)
  {
    var tail := [answer] + rest;
    RolesCons(answer, rest);
    RolesCons(reply, tail);
    assert tail[1..] == rest && ([reply] + tail)[1..] == tail;
    assert PairedAfter(CallIds(reply), tail);
    StrictlyPairedIff([reply] + tail);
  }

  lemma ClosedInterruptedPaired(call: Id, text: string, later: nat)
    ensures StrictlyPaired(Close(Interrupted(call, text, later)))
    ensures TurnStarts(Close(Interrupted(call, text, later))) == later + 1
  {
    ClosedInterrupted(call, text, later);
    var reply, plain := Interrupted(call, text, later)[0], seq(later, _ => Says(text));
    CloseLaws.SingleIds(reply.content[0]);
    MixedIds(call, text);
    PlainTurns(text, later);
    var mixed := Mixed(call, text);
    AnsweredInFront(reply, mixed, plain);
    assert [reply, mixed] + plain == [reply] + ([mixed] + plain);
  }

  /** So the promise fails for a repaired history: the interrupted call is dropped by the
      window and its answer, at the head of the next turn's message, is kept. Here the owner
      has said `maxTurns - 1` more things, and says one more. */
  lemma WindowBreaksRepairedHistory(call: Id, text: string, maxTurns: nat)
    requires maxTurns > 0
    ensures var h := [Says(text)] + Close(Interrupted(call, text, maxTurns - 1));
            StrictlyPaired(h) && CutAt(h, maxTurns, 2) && !StrictlyPaired(h[2..])
  {
    var c := Close(Interrupted(call, text, maxTurns - 1));
    var h := [Says(text)] + c;
    SaysIds(text);
    ClosedInterruptedPaired(call, text, maxTurns - 1);
    ClosedInterrupted(call, text, maxTurns - 1);
    StrictlyPairedIff(c);
    assert h[1..] == c;
    RolesCons(Says(text), c);
    StrictlyPairedIff(h);
    assert h[2] == Mixed(call, text);
    MixedIds(call, text);
    assert !TurnStart(h[1]);
    TurnStartsSplit(h, 2);
    assert h[..2][1..] == [h[1]] && [h[1]][1..] == [];
    WindowPairedIff(h, maxTurns, 2);
  }
}
