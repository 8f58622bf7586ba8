/** What the repair passes guarantee: the Messages API accepts a history only if every
    tool call is answered exactly once, in the user message right after it, and every
    result answers a call of the message right before it. */
module PairingLaws {
  import opened Transcript
  import opened Repair

  function CallsAt(h: seq<Message>, i: int): seq<Id> {
    if 0 <= i < |h| then CallIds(h[i]) else []
  }

  function ResultsAt(h: seq<Message>, i: int): seq<Id> {
    if 0 <= i < |h| then ResultIds(h[i]) else []
  }

  /** The API's rule. Index -1 covers results in the first message, the last index calls
      in the last message. */
  ghost predicate StrictlyPaired(h: seq<Message>) {
    && WellRoled(h)
    && Distinct(AllCallIds(h))
    && forall i :: -1 <= i < |h| ==> multiset(CallsAt(h, i)) == multiset(ResultsAt(h, i + 1))
  }

  /** The same adjacency rule, read from the front; `open` are the calls just before `h`. */
  ghost predicate PairedAfter(open: seq<Id>, h: seq<Message>)
    decreases |h|
  {
    if h == [] then open == []
    else multiset(ResultIds(h[0])) == multiset(open) && PairedAfter(CallIds(h[0]), h[1..])
  }

  lemma EmptyMultiset(s: seq<Id>)
    ensures multiset(s) == multiset([]) <==> s == []
  {
    if s != [] { assert s[0] in multiset(s); }
  }

  /** Every call of `h` is answered by the message right after it, and nothing else is. */
  ghost predicate Adjacent(h: seq<Message>) {
    forall i :: 0 <= i < |h| ==> multiset(CallsAt(h, i)) == multiset(ResultsAt(h, i + 1))
  }

  lemma AdjacentTail(h: seq<Message>)
    requires h != []
    ensures Adjacent(h) <==> multiset(CallIds(h[0])) == multiset(ResultsAt(h[1..], 0)) && Adjacent(h[1..])
  {
    var t := h[1..];
    forall i ensures CallsAt(t, i) == if i >= 0 then CallsAt(h, i + 1) else [] {}
    forall i ensures ResultsAt(t, i) == if i >= 0 then ResultsAt(h, i + 1) else [] {}
    assert CallsAt(h, 0) == CallIds(h[0]);
    if Adjacent(h) {
      assert multiset(CallsAt(h, 0)) == multiset(ResultsAt(h, 0 + 1));
      forall i | 0 <= i < |t| ensures multiset(CallsAt(t, i)) == multiset(ResultsAt(t, i + 1)) {
        assert multiset(CallsAt(h, i + 1)) == multiset(ResultsAt(h, i + 1 + 1));
      }
    }
    if multiset(CallIds(h[0])) == multiset(ResultsAt(t, 0)) && Adjacent(t) {
      forall i | 0 <= i < |h| ensures multiset(CallsAt(h, i)) == multiset(ResultsAt(h, i + 1)) {
        if i > 0 { assert multiset(CallsAt(t, i - 1)) == multiset(ResultsAt(t, i - 1 + 1)); }
      }
    }
  }

  lemma {:induction false} PairedAfterIsAdjacency(open: seq<Id>, h: seq<Message>)
    ensures PairedAfter(open, h) <==> multiset(open) == multiset(ResultsAt(h, 0)) && Adjacent(h)
    decreases |h|
  {
    if h == [] {
      EmptyMultiset(open);
    } else {
      PairedAfterIsAdjacency(CallIds(h[0]), h[1..]);
      AdjacentTail(h);
    }
  }

  lemma StrictlyPairedIff(h: seq<Message>)
    ensures StrictlyPaired(h) <==> WellRoled(h) && Distinct(AllCallIds(h)) && PairedAfter([], h)
  {
    PairedAfterIsAdjacency([], h);
    assert CallsAt(h, -1) == [];
    if StrictlyPaired(h) {
      assert multiset(CallsAt(h, -1)) == multiset(ResultsAt(h, -1 + 1));
    }
    if PairedAfter([], h) {
      forall i | -1 <= i < |h| ensures multiset(CallsAt(h, i)) == multiset(ResultsAt(h, i + 1)) {
        if i == -1 { assert ResultsAt(h, i + 1) == ResultsAt(h, 0); }
      }
    }
  }

  // ---- What dedupe does to the ids of one message ---------------------------------

  function CallCount(blocks: seq<Block>): nat { |BlockCallIds(blocks)| }

  function ResultCount(blocks: seq<Block>): nat { |BlockResultIds(blocks)| }

  lemma {:induction false} RewriteCalls(blocks: seq<Block>, mint: nat -> Id, at: Pairing)
    requires at.Valid() && BlockResultIds(blocks) == []
    ensures AfterBlocks(blocks, at) == Pairing(at.calls + CallCount(blocks), at.paired)
    ensures BlockCallIds(RewriteBlocks(blocks, mint, at)) == Minted(mint, at.calls, at.calls + CallCount(blocks))
    ensures BlockResultIds(RewriteBlocks(blocks, mint, at)) == []
  {
    if blocks != [] {
      RewriteCalls(blocks[1..], mint, at.After(blocks[0]));
      assert RewriteBlocks(blocks, mint, at)[1..] == RewriteBlocks(blocks[1..], mint, at.After(blocks[0]));
    }
  }

  function Min(a: nat, b: nat): nat { if a < b then a else b }

  /** The ids `count` results get: the oldest queued ones, then their own. */
  function Handed(mint: nat -> Id, at: Pairing, stale: seq<Id>): (r: seq<Id>)
    requires at.Valid()
    ensures |r| == |stale|
    ensures forall i :: 0 <= i < |r| ==> r[i] == if at.paired + i < at.calls then mint(at.paired + i) else stale[i]
  {
    seq(|stale|, i requires 0 <= i < |stale| => if at.paired + i < at.calls then mint(at.paired + i) else stale[i])
  }

  lemma {:induction false} RewriteResults(blocks: seq<Block>, mint: nat -> Id, at: Pairing)
    requires at.Valid() && BlockCallIds(blocks) == []
    ensures AfterBlocks(blocks, at) ==
            Pairing(at.calls, at.paired + Min(ResultCount(blocks), at.calls - at.paired))
    ensures BlockCallIds(RewriteBlocks(blocks, mint, at)) == []
    ensures BlockResultIds(RewriteBlocks(blocks, mint, at)) == Handed(mint, at, BlockResultIds(blocks))
  {
    if blocks != [] {
      var at', rest := at.After(blocks[0]), blocks[1..];
      RewriteResults(rest, mint, at');
      assert RewriteBlocks(blocks, mint, at)[1..] == RewriteBlocks(rest, mint, at');
      if blocks[0].ToolResult? {
        HandedStep(mint, at, blocks[0], BlockResultIds(rest));
      }
    }
  }

  lemma HandedStep(mint: nat -> Id, at: Pairing, b: Block, stale: seq<Id>)
    requires at.Valid() && b.ToolResult?
    ensures Handed(mint, at, [b.useId] + stale) == [at.Rewrite(b, mint).useId] + Handed(mint, at.After(b), stale)
  {
  }

  // ---- Which synthetic results close adds ----------------------------------------

  function Unanswered(ids: seq<Id>, answered: seq<Id>): seq<Id> {
    if ids == [] then []
    else if ids[0] in answered then Unanswered(ids[1..], answered)
    else [ids[0]] + Unanswered(ids[1..], answered)
  }

  lemma {:induction false} SyntheticIds(ids: seq<Id>, answered: seq<Id>)
    ensures BlockResultIds(Synthetic(ids, answered)) == Unanswered(ids, answered)
    ensures BlockCallIds(Synthetic(ids, answered)) == []
    ensures Synthetic(ids, answered) == [] <==> Unanswered(ids, answered) == []
  {
    if ids != [] {
      SyntheticIds(ids[1..], answered);
      if ids[0] !in answered {
        assert Synthetic(ids, answered)[1..] == Synthetic(ids[1..], answered);
      }
    }
  }

  lemma {:induction false} UnansweredNone(ids: seq<Id>)
    ensures Unanswered(ids, []) == ids
  {
    if ids != [] { UnansweredNone(ids[1..]); }
  }

  lemma PrependIds(open: seq<Id>, m: Message)
    ensures var m' := Prepend(Synthetic(open, ResultIds(m)), m);
            && ResultIds(m') == Unanswered(open, ResultIds(m)) + ResultIds(m)
            && CallIds(m') == CallIds(m)
            && m'.role == m.role
  {
    var synth := Synthetic(open, ResultIds(m));
    SyntheticIds(open, ResultIds(m));
    if synth != [] {
      BlockResultIdsConcat(synth, m.content);
      BlockCallIdsConcat(synth, m.content);
    }
  }

  // ---- The exact condition under which the repair succeeds --------------------------

  /** Counts only, no ids: whenever a user message carries results, they are no more than
      the calls of the message right before it, and nothing older is still unanswered.
      `prev` is the number of calls in the message before `h`, `queued` how many calls
      before `h` no result has been counted against. */
  predicate Aligned(h: seq<Message>, prev: nat, queued: nat) {
    h == [] ||
    (var calls, results := CallCount(h[0].content), ResultCount(h[0].content);
     && (results > 0 ==> results <= prev && queued == prev)
     && Aligned(h[1..], calls, (if results <= queued then queued - results else 0) + calls))
  }

  /** The heart of it: a user message with results, right after a message that called `open`. */
  lemma OneMessage(mint: nat -> Id, at: Pairing, open: seq<Id>, stale: seq<Id>, results: seq<Id>)
    requires Injective(mint) && at.Valid() && |open| <= at.calls - at.paired
    requires forall k: nat :: mint(k) !in stale
    requires open == Minted(mint, at.calls - |open|, at.calls) && results == Handed(mint, at, stale)
    ensures CompletesTo(results, open) <==> (|stale| > 0 ==> |stale| <= |open| && at.calls - at.paired == |open|)
  {
    if |stale| == 0 {
      NoResults(open, results);
    } else if |stale| <= |open| && at.calls - at.paired == |open| {
      AlignedMessage(mint, at, open, stale, results);
    } else {
      MisalignedMessage(mint, at, open, stale, results);
    }
  }

  lemma NoResults(open: seq<Id>, results: seq<Id>)
    requires |results| == 0
    ensures CompletesTo(results, open)
  {
    assert results == [];
    UnansweredNone(open);
    assert open + [] == open;
  }

  lemma AlignedMessage(mint: nat -> Id, at: Pairing, open: seq<Id>, stale: seq<Id>, results: seq<Id>)
    requires Injective(mint) && at.Valid() && |stale| <= |open| == at.calls - at.paired
    requires open == Minted(mint, at.paired, at.calls) && results == Handed(mint, at, stale)
    ensures CompletesTo(results, open)
  {
    var mid := at.paired + |stale|;
    var tail := Minted(mint, mid, at.calls);
    assert results == Minted(mint, at.paired, mid);
    UnansweredTail(mint, at.paired, mid, at.calls);
    assert open == results + tail;
    MultisetSwap(tail, results);
  }

  /** A result left over from an older message, or one too many, answers no call here. */
  lemma MisalignedMessage(mint: nat -> Id, at: Pairing, open: seq<Id>, stale: seq<Id>, results: seq<Id>)
    requires Injective(mint) && at.Valid() && |open| <= at.calls - at.paired
    requires forall k: nat :: mint(k) !in stale
    requires open == Minted(mint, at.calls - |open|, at.calls) && results == Handed(mint, at, stale)
    requires |stale| > 0 && (|stale| > |open| || at.calls - at.paired != |open|)
    ensures !CompletesTo(results, open)
  {
    var i := if at.calls - at.paired != |open| then 0 else |stale| - 1;
    assert results[i] !in open;
    ForeignResult(open, results, i);
  }

  lemma ForeignResult(open: seq<Id>, results: seq<Id>, i: nat)
    requires i < |results| && results[i] !in open
    ensures !CompletesTo(results, open)
  {
    var all := Unanswered(open, results) + results;
    assert all[|Unanswered(open, results)| + i] == results[i];
    assert results[i] in multiset(all) && results[i] !in multiset(open);
  }

  lemma MultisetSwap(a: seq<Id>, b: seq<Id>)
    ensures multiset(a + b) == multiset(b + a)
  {
  }

  /** Of the ids from..to, when exactly from..mid are answered, mid..to are left over. */
  lemma {:induction false} UnansweredTail(mint: nat -> Id, from: nat, mid: nat, to: nat)
    requires Injective(mint) && from <= mid <= to
    ensures Unanswered(Minted(mint, from, to), Minted(mint, from, mid)) == Minted(mint, mid, to)
  {
    var answered := Minted(mint, from, mid);
    UnansweredSplit(Minted(mint, from, mid), Minted(mint, mid, to), answered);
    assert Minted(mint, from, to) == Minted(mint, from, mid) + Minted(mint, mid, to);
    UnansweredAll(answered, answered);
    UnansweredDisjoint(Minted(mint, mid, to), answered);
  }

  lemma {:induction false} UnansweredSplit(a: seq<Id>, b: seq<Id>, answered: seq<Id>)
    ensures Unanswered(a + b, answered) == Unanswered(a, answered) + Unanswered(b, answered)
  {
    if a == [] {
      assert a + b == b;
    } else {
      assert (a + b)[1..] == a[1..] + b;
      UnansweredSplit(a[1..], b, answered);
    }
  }

  lemma {:induction false} UnansweredAll(ids: seq<Id>, answered: seq<Id>)
    requires forall i :: 0 <= i < |ids| ==> ids[i] in answered
    ensures Unanswered(ids, answered) == []
  {
    if ids != [] { UnansweredAll(ids[1..], answered); }
  }

  lemma {:induction false} UnansweredDisjoint(ids: seq<Id>, answered: seq<Id>)
    requires forall i :: 0 <= i < |ids| ==> ids[i] !in answered
    ensures Unanswered(ids, answered) == ids
  {
    if ids != [] { UnansweredDisjoint(ids[1..], answered); }
  }

  ghost predicate RepairedIff(h: seq<Message>, d: seq<Message>, open: seq<Id>, queued: nat) {
    PairedAfter(open, CloseAfter(open, d)) <==> Aligned(h, |open|, queued)
  }

  /** `d` is `h` after the first pass, `open` the ids minted for the message before `h`. */
  ghost predicate MidRepair(h: seq<Message>, mint: nat -> Id, at: Pairing, d: seq<Message>, open: seq<Id>,
                            queued: nat) {
    && WellRoled(h) && Injective(mint) && UnusedIn(mint, h) && at.Valid()
    && d == DedupeFrom(h, mint, at) && queued == at.calls - at.paired
    && |open| <= queued && open == Minted(mint, at.calls - |open|, at.calls)
  }

  lemma {:induction false} RepairedAfterIff(h: seq<Message>, mint: nat -> Id, at: Pairing,
                                            d: seq<Message>, open: seq<Id>, queued: nat)
    requires MidRepair(h, mint, at, d, open, queued)
    ensures RepairedIff(h, d, open, queued)
    decreases |h|, 1
  {
    if h == [] {
      LeftoverPaired(open, []);
      assert Leftover(open) + [] == Leftover(open);
    } else if h[0].role.User? {
      UserCase(h, mint, at, d, open, queued);
    } else {
      AssistantCase(h, mint, at, d, open, queued);
    }
  }

  lemma {:induction false} UserCase(h: seq<Message>, mint: nat -> Id, at: Pairing,
                                    d: seq<Message>, open: seq<Id>, queued: nat)
    requires MidRepair(h, mint, at, d, open, queued) && h != [] && h[0].role.User?
    ensures RepairedIff(h, d, open, queued)
    decreases |h|, 0
  {
    var m := h[0];
    assert RolesKept(m);
    AfterBlocksValid(m.content, at);
    DedupeHead(h, mint, at);
    RewriteResults(m.content, mint, at);
    var results := ResultCount(m.content);
    var left := if results <= queued then queued - results else 0;
    RepairedAfterIff(h[1..], mint, AfterBlocks(m.content, at), d[1..], [], left);
    RepairedUserStep(h, mint, at, d, open, queued);
  }

  lemma {:induction false} AssistantCase(h: seq<Message>, mint: nat -> Id, at: Pairing,
                                         d: seq<Message>, open: seq<Id>, queued: nat)
    requires MidRepair(h, mint, at, d, open, queued) && h != [] && h[0].role.Assistant?
    ensures RepairedIff(h, d, open, queued)
    decreases |h|, 0
  {
    AfterCalls(h, mint, at, d, open, queued);
    RepairedAfterIff(h[1..], mint, Pairing(at.calls + |CallIds(d[0])|, at.paired), d[1..], CallIds(d[0]),
                     queued + |CallIds(d[0])|);
    RepairedAssistantStep(h, d, open, queued);
  }

  lemma AfterCalls(h: seq<Message>, mint: nat -> Id, at: Pairing, d: seq<Message>, open: seq<Id>, queued: nat)
    requires MidRepair(h, mint, at, d, open, queued) && h != [] && h[0].role.Assistant?
    ensures d != [] && d[0].role.Assistant? && ResultIds(h[0]) == ResultIds(d[0]) == []
    ensures |CallIds(d[0])| == CallCount(h[0].content)
    ensures var ids := CallIds(d[0]);
            MidRepair(h[1..], mint, Pairing(at.calls + |ids|, at.paired), d[1..], ids, queued + |ids|)
  {
    assert RolesKept(h[0]);
    DedupeHead(h, mint, at);
    RewriteCalls(h[0].content, mint, at);
    assert CallIds(d[0]) == Minted(mint, at.calls, at.calls + |CallIds(d[0])|);
  }

  /** `results` together with one synthetic result per id they miss is exactly `open`. */
  ghost predicate CompletesTo(results: seq<Id>, open: seq<Id>) {
    multiset(Unanswered(open, results) + results) == multiset(open)
  }

  lemma RepairedUserStep(h: seq<Message>, mint: nat -> Id, at: Pairing,
                         d: seq<Message>, open: seq<Id>, queued: nat)
    requires Injective(mint) && at.Valid() && |open| <= queued == at.calls - at.paired
    requires h != [] && d != [] && d[0].role.User? && CallIds(h[0]) == CallIds(d[0]) == []
    requires forall k: nat :: mint(k) !in ResultIds(h[0])
    requires open == Minted(mint, at.calls - |open|, at.calls) && ResultIds(d[0]) == Handed(mint, at, ResultIds(h[0]))
    requires var results := ResultCount(h[0].content);
             RepairedIff(h[1..], d[1..], [], if results <= queued then queued - results else 0)
    ensures RepairedIff(h, d, open, queued)
  {
    var results := ResultCount(h[0].content);
    var queued' := if results <= queued then queued - results else 0;
    calc {
      PairedAfter(open, CloseAfter(open, d));
    <==> { ClosedUserHead(open, d); }
      CompletesTo(ResultIds(d[0]), open) && PairedAfter([], CloseAfter([], d[1..]));
    <==> { OneMessage(mint, at, open, ResultIds(h[0]), ResultIds(d[0])); }
      (results > 0 ==> results <= |open| && queued == |open|) && Aligned(h[1..], 0, queued');
    <==> { AlignedHead(h, |open|, queued); assert CallCount(h[0].content) == 0; }
      Aligned(h, |open|, queued);
    }
  }

  lemma RepairedAssistantStep(h: seq<Message>, d: seq<Message>, open: seq<Id>, queued: nat)
    requires h != [] && d != [] && d[0].role.Assistant? && ResultIds(h[0]) == ResultIds(d[0]) == []
    requires |CallIds(d[0])| == CallCount(h[0].content)
    requires RepairedIff(h[1..], d[1..], CallIds(d[0]), queued + |CallIds(d[0])|)
    ensures RepairedIff(h, d, open, queued)
  {
    ClosedAssistantHead(open, d);
    AlignedHead(h, |open|, queued);
  }

  /** Closing in front of a user message: its results plus the synthetic ones must be
      exactly `open`. */
  lemma ClosedUserHead(open: seq<Id>, d: seq<Message>)
    requires d != [] && d[0].role.User? && CallIds(d[0]) == []
    ensures PairedAfter(open, CloseAfter(open, d)) <==>
            CompletesTo(ResultIds(d[0]), open) && PairedAfter([], CloseAfter([], d[1..]))
  {
    PrependIds(open, d[0]);
    var closed := CloseAfter(open, d);
    assert closed[0] == Prepend(Synthetic(open, ResultIds(d[0])), d[0]);
    assert closed[1..] == CloseAfter([], d[1..]);
  }

  lemma ClosedAssistantHead(open: seq<Id>, d: seq<Message>)
    requires d != [] && d[0].role.Assistant? && ResultIds(d[0]) == []
    ensures PairedAfter(open, CloseAfter(open, d)) <==>
            PairedAfter(CallIds(d[0]), CloseAfter(CallIds(d[0]), d[1..]))
  {
    var tail := [d[0]] + CloseAfter(CallIds(d[0]), d[1..]);
    LeftoverPaired(open, tail);
    assert tail[1..] == CloseAfter(CallIds(d[0]), d[1..]);
  }

  lemma DedupeHead(h: seq<Message>, mint: nat -> Id, at: Pairing)
    requires h != []
    ensures var d := DedupeFrom(h, mint, at);
            && d != []
            && d[0] == h[0].(content := RewriteBlocks(h[0].content, mint, at))
            && d[1..] == DedupeFrom(h[1..], mint, AfterBlocks(h[0].content, at))
  {
  }

  lemma AlignedHead(h: seq<Message>, prev: nat, queued: nat)
    requires h != []
    ensures var calls, results := CallCount(h[0].content), ResultCount(h[0].content);
            Aligned(h, prev, queued) <==>
            && (results > 0 ==> results <= prev && queued == prev)
            && Aligned(h[1..], calls, (if results <= queued then queued - results else 0) + calls)
  {
  }

  /** A synthetic message answers all of `open`, so only what follows it matters. */
  lemma LeftoverPaired(open: seq<Id>, rest: seq<Message>)
    requires rest == [] || ResultIds(rest[0]) == []
    ensures PairedAfter(open, Leftover(open) + rest) <==> rest == [] || PairedAfter(CallIds(rest[0]), rest[1..])
  {
    SyntheticIds(open, []);
    UnansweredNone(open);
    if open == [] {
      assert Leftover(open) + rest == rest;
    } else {
      var m := Message(User, Synthetic(open, []), "", 0);
      assert (Leftover(open) + rest)[1..] == rest;
      assert CallIds(m) == [];
    }
  }

  // ---- Role discipline and fresh ids survive -----------------------------------------

  lemma {:induction false} DedupeRoles(h: seq<Message>, mint: nat -> Id, at: Pairing)
    requires WellRoled(h) && at.Valid()
    ensures WellRoled(DedupeFrom(h, mint, at))
    ensures AllCallIds(DedupeFrom(h, mint, at)) == Minted(mint, at.calls, at.calls + |AllCallIds(h)|)
    decreases |h|
  {
    if h != [] {
      var m, d := h[0], DedupeFrom(h, mint, at);
      var at' := AfterBlocks(m.content, at);
      assert RolesKept(m);
      AfterBlocksValid(m.content, at);
      DedupeRoles(h[1..], mint, at');
      assert d[1..] == DedupeFrom(h[1..], mint, at');
      if m.role.User? {
        RewriteResults(m.content, mint, at);
      } else {
        RewriteCalls(m.content, mint, at);
      }
      assert RolesKept(d[0]);
    }
  }

  lemma LeftoverRoles(open: seq<Id>)
    ensures WellRoled(Leftover(open)) && AllCallIds(Leftover(open)) == []
  {
    SyntheticIds(open, []);
    if open != [] { assert Leftover(open)[1..] == []; }
  }

  lemma {:induction false} CloseRoles(open: seq<Id>, h: seq<Message>)
    requires WellRoled(h)
    ensures WellRoled(CloseAfter(open, h))
    ensures AllCallIds(CloseAfter(open, h)) == AllCallIds(h)
    decreases |h|
  {
    LeftoverRoles(open);
    if h != [] {
      assert RolesKept(h[0]);
      if h[0].role.User? {
        CloseRoles([], h[1..]);
        UserRoles(open, h[0], CloseAfter([], h[1..]));
      } else {
        CloseRoles(CallIds(h[0]), h[1..]);
        AssistantRoles(open, h[0], CloseAfter(CallIds(h[0]), h[1..]));
      }
    }
  }

  lemma UserRoles(open: seq<Id>, m: Message, rest: seq<Message>)
    requires RolesKept(m) && m.role.User? && WellRoled(rest)
    ensures var closed := [Prepend(Synthetic(open, ResultIds(m)), m)] + rest;
            WellRoled(closed) && AllCallIds(closed) == CallIds(m) + AllCallIds(rest)
  {
    PrependIds(open, m);
    RolesCons(Prepend(Synthetic(open, ResultIds(m)), m), rest);
  }

  lemma AssistantRoles(open: seq<Id>, m: Message, rest: seq<Message>)
    requires RolesKept(m) && WellRoled(rest)
    ensures var closed := Leftover(open) + ([m] + rest);
            WellRoled(closed) && AllCallIds(closed) == CallIds(m) + AllCallIds(rest)
  {
    LeftoverRoles(open);
    RolesCons(m, rest);
    AllCallIdsConcat(Leftover(open), [m] + rest);
  }

  lemma RolesCons(m: Message, rest: seq<Message>)
    requires RolesKept(m) && WellRoled(rest)
    ensures WellRoled([m] + rest) && AllCallIds([m] + rest) == CallIds(m) + AllCallIds(rest)
  {
    assert ([m] + rest)[1..] == rest;
  }

  // ---- Main results ------------------------------------------------------------------

  /** The repair the API loop runs makes a history acceptable exactly when its calls and
      results are aligned by count. */
  lemma RepairSucceedsIff(h: seq<Message>, mint: nat -> Id)
    requires WellRoled(h) && Injective(mint) && UnusedIn(mint, h)
    ensures StrictlyPaired(Close(Dedupe(h, mint))) <==> Aligned(h, 0, 0)
  {
    var d := Dedupe(h, mint);
    DedupeRoles(h, mint, Pairing(0, 0));
    CloseRoles([], d);
    StrictlyPairedIff(Close(d));
    RepairedAfterIff(h, mint, Pairing(0, 0), d, [], 0);
    forall i, j | 0 <= i < j < |AllCallIds(Close(d))| ensures AllCallIds(Close(d))[i] != AllCallIds(Close(d))[j] {
      assert mint(i) != mint(j);
    }
  }
}
