/** The access-token cache and the stored credentials behind it (control/connections.go).
    A credential is stored sealed; every seal gives a fresh ciphertext. A cached token is
    served only while the stored ciphertext is the one it was cached against. Refreshes talk
    to the provider, so they are two steps with anything in between. Times are seconds. */
module TokenCache {
  import opened Transcript

  const TOKEN_CACHE_MARGIN := 120

  type Time = int
  type Sealed = nat

  /** `consent` tells which consent, all of them numbered as they come, the credential that
      minted the token descends from. */
  datatype Token = Token(consent: nat, expiresAt: Option<Time>)

  datatype Entry = Entry(token: Token, mintedFrom: Sealed, expires: Time)

  // ---- The cache ------------------------------------------------------------------------------

  /** Whether a freshly minted token is worth keeping, and what is kept. */
  function Keep(tok: Token, mintedFrom: Sealed, now: Time): Option<Entry> {
    if tok.expiresAt.None? || tok.expiresAt.value - TOKEN_CACHE_MARGIN <= now then None
    else Some(Entry(tok, mintedFrom, tok.expiresAt.value - TOKEN_CACHE_MARGIN))
  }

  function Living(cached: map<Id, Entry>, now: Time): map<Id, Entry> {
    map id | id in cached && now <= cached[id].expires :: cached[id]
  }

  function Cached(cached: map<Id, Entry>, id: Id, tok: Token, mintedFrom: Sealed, now: Time): map<Id, Entry> {
    var keep := Keep(tok, mintedFrom, now);
    if keep.None? then cached else Living(cached, now)[id := keep.value]
  }

  function Lookup(cached: map<Id, Entry>, id: Id, secret: Sealed, now: Time): Option<Token> {
    if id !in cached || cached[id].mintedFrom != secret || now > cached[id].expires then None
    else Some(cached[id].token)
  }

  class Cache {
    var cached: map<Id, Entry>

    constructor ()
      ensures cached == map[]
    {
      cached := map[];
    }

    method CachedTokenFor(id: Id, secret: Sealed, now: Time) returns (tok: Option<Token>)
      ensures tok == Lookup(cached, id, secret, now)
      ensures tok.Some? ==> id in cached && cached[id].mintedFrom == secret
    {
      if id !in cached { return None; }
      var entry := cached[id];
      if entry.mintedFrom != secret || now > entry.expires { return None; }
      return Some(entry.token);
    }

    /** Remembers a token until shortly before it expires, dropping dead entries on the way. */
    method Remember(id: Id, tok: Token, mintedFrom: Sealed, now: Time)
      modifies this
      ensures cached == Cached(old(cached), id, tok, mintedFrom, now)
    {
      if tok.expiresAt.None? { return; }
      var expires := tok.expiresAt.value - TOKEN_CACHE_MARGIN;
      if !(expires > now) { return; }
      var todo := cached.Keys;
      while todo != {}
        invariant todo <= old(cached).Keys
        invariant forall k :: k in cached <==> k in old(cached) && (k in todo || now <= old(cached)[k].expires)
        invariant forall k :: k in cached ==> cached[k] == old(cached)[k]
        decreases |todo|
      {
        var k :| k in todo;
        todo := todo - {k};
        if now > cached[k].expires { cached := cached - {k}; }
      }
      assert cached == Living(old(cached), now);
      cached := cached[id := Entry(tok, mintedFrom, expires)];
    }

    method ExpireCachedFor(id: Id)
      modifies this
      ensures cached == old(cached) - {id}
    {
      cached := cached - {id};
    }
  }

  // ---- The manager, step by step -----------------------------------------------------------------

  /** Work that has read its row and will write it, or cache against it, later: a refresh
      waiting for the provider, or one row of a key rotation. */
  datatype Work = Work(id: Id, secret: Sealed)

  /** `origin` says which consent a ciphertext's plaintext descends from, `current` which
      consent of a connection was stored last; consents and seals are numbered as they come. */
  datatype State = State(rows: map<Id, Sealed>, cached: map<Id, Entry>, pending: seq<Work>, seals: nat, consents: nat,
                         now: Time, origin: map<Sealed, nat>, current: map<Id, nat>)

  datatype Reply =
    | Refused
    | Minted(expiresAt: Option<Time>, rotated: bool, stored: bool)

  datatype Step =
    | Connect(id: Id)
    | Reconnect(id: Id, stored: bool)
    | Disconnect(id: Id)
    | BeginWork(id: Id)
    | EndRefresh(work: nat, reply: Reply)
    | EndReseal(work: nat, stored: bool)
    | ForgetTokens
    | Wait(seconds: nat)

  function Initial(): State { State(map[], map[], [], 0, 0, 0, map[], map[]) }

  /** A fresh ciphertext, number `s.seals`, of a credential that descends from `consent`. */
  function Sealing(s: State, consent: nat): State {
    s.(seals := s.seals + 1, origin := s.origin[s.seals := consent])
  }

  /** Writing a row that is gone changes nothing. */
  function Stored(s: State, id: Id, secret: Sealed): State {
    if id in s.rows then s.(rows := s.rows[id := secret]) else s
  }

  function Done(s: State, work: nat): State
    requires work < |s.pending|
  {
    s.(pending := s.pending[..work] + s.pending[work + 1..])
  }

  /** The connection's ids are new; a row must exist to be read or replaced. */
  ghost predicate Enabled(s: State, step: Step) {
    match step
    case Connect(id) => id !in s.current
    case Reconnect(id, _) => id in s.rows
    case Disconnect(id) => id in s.rows
    case BeginWork(id) => id in s.rows
    case EndRefresh(i, _) => i < |s.pending| && s.pending[i].secret in s.origin
    case EndReseal(i, _) => i < |s.pending| && s.pending[i].secret in s.origin
    case ForgetTokens => true
    case Wait(_) => true
  }

  /** The provider has answered the refresh `w`. A rotated credential replaces the row; the
      token is cached against the new ciphertext whether or not that write succeeded. */
  function Refreshed(s: State, w: Work, expiresAt: Option<Time>, rotated: bool, stored: bool): State
    requires w.secret in s.origin
  {
    var consent := s.origin[w.secret];
    var tok := Token(consent, expiresAt);
    if !rotated then s.(cached := Cached(s.cached, w.id, tok, w.secret, s.now))
    else
      var sealed := Sealing(s, consent);
      var t := if stored then Stored(sealed, w.id, s.seals) else sealed;
      t.(cached := Cached(s.cached, w.id, tok, s.seals, s.now))
  }

  /** The same plaintext under a fresh ciphertext. */
  function Resealed(s: State, w: Work, stored: bool): State
    requires w.secret in s.origin
  {
    var t := Sealing(s, s.origin[w.secret]);
    if stored then Stored(t, w.id, s.seals) else t
  }

  function Next(s: State, step: Step): State
    requires Enabled(s, step)
  {
    match step
    case Connect(id) =>
      var t := Sealing(s, s.consents);
      t.(consents := s.consents + 1, rows := s.rows[id := s.seals], current := s.current[id := s.consents])
    case Reconnect(id, stored) =>
      var t := Sealing(s, s.consents).(consents := s.consents + 1, cached := s.cached - {id});
      if stored then t.(rows := s.rows[id := s.seals], current := s.current[id := s.consents]) else t
    case Disconnect(id) => s.(rows := s.rows - {id})
    case BeginWork(id) => s.(pending := s.pending + [Work(id, s.rows[id])])
    case EndRefresh(i, Refused) => Done(s, i)
    case EndRefresh(i, Minted(expiresAt, rotated, stored)) =>
      Done(Refreshed(s, s.pending[i], expiresAt, rotated, stored), i)
    case EndReseal(i, stored) => Done(Resealed(s, s.pending[i], stored), i)
    case ForgetTokens => s.(cached := map[])
    case Wait(seconds) => s.(now := s.now + seconds)
  }

  ghost predicate Possible(s: State, steps: seq<Step>)
    decreases |steps|
  {
    steps != [] ==> Enabled(s, steps[0]) && Possible(Next(s, steps[0]), steps[1..])
  }

  ghost function RunFrom(s: State, steps: seq<Step>): State
    requires Possible(s, steps)
    decreases |steps|
  {
    if steps == [] then s else RunFrom(Next(s, steps[0]), steps[1..])
  }

  /** What a token request is given from the cache. */
  function Served(s: State, id: Id): Option<Token> {
    if id in s.rows then Lookup(s.cached, id, s.rows[id], s.now) else None
  }

  // ---- A served token belongs to the stored credential -----------------------------------------------

  ghost predicate Known(s: State, x: Sealed) { x in s.origin && x < s.seals }

  ghost predicate EntryFits(s: State, e: Entry) {
    && Known(s, e.mintedFrom) && s.origin[e.mintedFrom] == e.token.consent
    && e.token.expiresAt == Some(e.expires + TOKEN_CACHE_MARGIN)
  }

  ghost predicate Inv(s: State) {
    && (forall x :: x in s.origin ==> x < s.seals && s.origin[x] < s.consents)
    && (forall id :: id in s.rows ==> Known(s, s.rows[id]))
    && (forall i :: 0 <= i < |s.pending| ==> Known(s, s.pending[i].secret))
    && (forall id :: id in s.cached ==> EntryFits(s, s.cached[id]))
  }

  lemma RefreshedInv(s: State, w: Work, expiresAt: Option<Time>, rotated: bool, stored: bool)
    requires Inv(s) && Known(s, w.secret)
    ensures Inv(Refreshed(s, w, expiresAt, rotated, stored))
  {
  }

  lemma StepInv(s: State, step: Step)
    requires Inv(s) && Enabled(s, step)
    ensures Inv(Next(s, step))
  {
    match step
    case Connect(_) => SealingInv(s, step);
    case Reconnect(_, _) => SealingInv(s, step);
    case EndReseal(i, stored) => ResealedInv(s, s.pending[i], stored); DoneInv(Resealed(s, s.pending[i], stored), i);
    case EndRefresh(i, Refused) => DoneInv(s, i);
    case EndRefresh(i, Minted(expiresAt, rotated, stored)) =>
      RefreshedInv(s, s.pending[i], expiresAt, rotated, stored);
      DoneInv(Refreshed(s, s.pending[i], expiresAt, rotated, stored), i);
    case _ =>
  }

  lemma DoneInv(s: State, work: nat)
    requires Inv(s) && work < |s.pending|
    ensures Inv(Done(s, work))
  {
  }

  lemma SealingInv(s: State, step: Step)
    requires Inv(s) && Enabled(s, step) && (step.Connect? || step.Reconnect?)
    ensures Inv(Next(s, step))
  {
  }

  lemma ResealedInv(s: State, w: Work, stored: bool)
    requires Inv(s) && Known(s, w.secret)
    ensures Inv(Resealed(s, w, stored))
  {
  }

  lemma {:induction false} RunInv(s: State, steps: seq<Step>)
    requires Inv(s) && Possible(s, steps)
    ensures Inv(RunFrom(s, steps))
    decreases |steps|
  {
    if steps != [] {
      StepInv(s, steps[0]);
      RunInv(Next(s, steps[0]), steps[1..]);
    }
  }

  /** For every run, however refreshes, reconnects and rotations interleave and whichever
      writes fail: a token served from the cache comes from the same consent as the credential
      the database holds at that moment, and has at least two minutes to live. */
  lemma ServedIsCurrent(steps: seq<Step>, id: Id)
    requires Possible(Initial(), steps)
    ensures var s := RunFrom(Initial(), steps);
            Served(s, id).Some? ==>
              && s.rows[id] in s.origin
              && Served(s, id).value.consent == s.origin[s.rows[id]]
              && Served(s, id).value.expiresAt.Some?
              && Served(s, id).value.expiresAt.value - s.now >= TOKEN_CACHE_MARGIN
  {
    RunInv(Initial(), steps);
  }

  // ---- What was minted is served --------------------------------------------------------------------------

  /** A refresh that succeeds, with or without a rotated credential, and whose token is good for more
      than two minutes: if the row holds what the token was minted from, the token is served. */
  lemma RefreshIsServed(s: State, i: nat, expiresAt: Time, rotated: bool, stored: bool)
    requires Inv(s) && Enabled(s, EndRefresh(i, Minted(Some(expiresAt), rotated, stored)))
    requires s.pending[i].id in s.rows && expiresAt - s.now > TOKEN_CACHE_MARGIN
    requires if rotated then stored else s.rows[s.pending[i].id] == s.pending[i].secret
    ensures var w, t := s.pending[i], Next(s, EndRefresh(i, Minted(Some(expiresAt), rotated, stored)));
            Served(t, w.id) == Some(Token(s.origin[w.secret], Some(expiresAt)))
  {
  }

  /** The step is about another connection, or about none. */
  predicate Elsewhere(s: State, step: Step, id: Id) {
    match step
    case Connect(k) => k != id
    case Reconnect(k, _) => k != id
    case Disconnect(k) => k != id
    case EndRefresh(i, _) => i < |s.pending| ==> s.pending[i].id != id
    case EndReseal(i, _) => i < |s.pending| ==> s.pending[i].id != id
    case ForgetTokens => false
    case _ => true
  }

  /** And it stays served, whatever happens to other connections, exactly until two minutes before
      it expires. */
  lemma ServedUntilExpiry(s: State, step: Step, id: Id)
    requires Inv(s) && Enabled(s, step) && Elsewhere(s, step, id) && Served(s, id).Some?
    ensures var tok, t := Served(s, id).value, Next(s, step);
            && tok.expiresAt.Some?
            && Served(t, id) == if tok.expiresAt.value - t.now >= TOKEN_CACHE_MARGIN then Some(tok) else None
  {
    assert EntryFits(s, s.cached[id]);
  }

  /** Waiting ends it after exactly that long. */
  lemma ServedForSoLong(s: State, seconds: nat, id: Id)
    requires Inv(s) && Served(s, id).Some?
    ensures var tok := Served(s, id).value;
            && tok.expiresAt.Some?
            && (Served(Next(s, Wait(seconds)), id) == Some(tok) <==>
                seconds <= tok.expiresAt.value - TOKEN_CACHE_MARGIN - s.now)
  {
    assert EntryFits(s, s.cached[id]);
  }

  /** A token that is good for two minutes or less, or says nothing about it, is not kept. */
  lemma ShortLivedNotKept(s: State, i: nat, expiresAt: Option<Time>, rotated: bool, stored: bool)
    requires Enabled(s, EndRefresh(i, Minted(expiresAt, rotated, stored)))
    requires expiresAt.Some? ==> expiresAt.value - s.now <= TOKEN_CACHE_MARGIN
    ensures Next(s, EndRefresh(i, Minted(expiresAt, rotated, stored))).cached == s.cached
  {
  }

  /** A reconnect drops the connection's token whether or not its credential could be stored; so do
      the end of a connection and a purge. */
  lemma NoLongerServed(s: State, id: Id, stored: bool)
    requires id in s.rows
    ensures Served(Next(s, Reconnect(id, stored)), id) == None
    ensures Served(Next(s, Disconnect(id)), id) == None && Served(Next(s, ForgetTokens), id) == None
  {
  }

  /** A refresh that is refused, or whose write is lost, leaves the row; a stored one replaces it. */
  lemma RowAfterRefresh(s: State, i: nat, reply: Reply)
    requires Enabled(s, EndRefresh(i, reply))
    ensures var w, t := s.pending[i], Next(s, EndRefresh(i, reply));
            t.rows == if reply.Minted? && reply.rotated && reply.stored && w.id in s.rows then s.rows[w.id := s.seals]
                      else s.rows
  {
  }

  // ---- Nothing minted before a reconnect is served after it --------------------------------------------

  /** The stored credential descends from the connection's last consent. */
  ghost predicate RowCurrent(s: State, id: Id) {
    id in s.rows ==> id in s.current && s.rows[id] in s.origin && s.origin[s.rows[id]] == s.current[id]
  }

  /** The step writes the connection's row. */
  predicate Writes(s: State, step: Step, id: Id) {
    match step
    case EndRefresh(i, Minted(_, rotated, stored)) => rotated && stored && i < |s.pending| && s.pending[i].id == id
    case EndReseal(i, stored) => stored && i < |s.pending| && s.pending[i].id == id
    case _ => false
  }

  /** It does so with a credential of another consent, read before a reconnect. */
  ghost predicate Reverts(s: State, step: Step, id: Id)
    requires Enabled(s, step)
  {
    id in s.rows && Writes(s, step, id) && (id in s.current ==> s.origin[s.pending[step.work].secret] != s.current[id])
  }

  lemma FinishCurrentIff(s: State, step: Step, id: Id)
    requires Inv(s) && Enabled(s, step) && RowCurrent(s, id) && (step.EndRefresh? || step.EndReseal?)
    ensures RowCurrent(Next(s, step), id) <==> !Reverts(s, step, id)
  {
    assert s.seals !in s.origin;
  }

  lemma StepCurrentIff(s: State, step: Step, id: Id)
    requires Inv(s) && Enabled(s, step) && RowCurrent(s, id)
    ensures RowCurrent(Next(s, step), id) <==> !Reverts(s, step, id)
  {
    if step.EndRefresh? || step.EndReseal? {
      FinishCurrentIff(s, step, id);
    } else {
      assert s.seals !in s.origin;
    }
  }

  ghost predicate AlwaysCurrent(s: State, steps: seq<Step>, id: Id)
    requires Possible(s, steps)
    decreases |steps|
  {
    RowCurrent(s, id) && (steps != [] ==> AlwaysCurrent(Next(s, steps[0]), steps[1..], id))
  }

  ghost predicate NeverReverts(s: State, steps: seq<Step>, id: Id)
    requires Possible(s, steps)
    decreases |steps|
  {
    steps != [] ==> !Reverts(s, steps[0], id) && NeverReverts(Next(s, steps[0]), steps[1..], id)
  }

  /** Over every run: the stored credential always descends from the last consent if and only
      if no refresh or re-seal that had read an older one writes the row. */
  lemma {:induction false} AlwaysCurrentIff(s: State, steps: seq<Step>, id: Id)
    requires Inv(s) && Possible(s, steps) && RowCurrent(s, id)
    ensures AlwaysCurrent(s, steps, id) <==> NeverReverts(s, steps, id)
    decreases |steps|
  {
    if steps != [] {
      var t := Next(s, steps[0]);
      StepInv(s, steps[0]);
      StepCurrentIff(s, steps[0], id);
      if RowCurrent(t, id) { AlwaysCurrentIff(t, steps[1..], id); }
    }
  }

  lemma CurrentGrows(s: State, step: Step, id: Id)
    requires Inv(s) && Enabled(s, step) && id in s.current && s.current[id] < s.consents
    ensures id in Next(s, step).current && s.current[id] <= Next(s, step).current[id] < Next(s, step).consents
  {
  }

  /** So, without such a write: whatever is served for a connection, after any run from a state
      where consent `c` had been stored, comes from `c` or a later consent. */
  lemma {:induction false} ReconnectCutsOff(s: State, steps: seq<Step>, id: Id)
    requires Inv(s) && Possible(s, steps) && RowCurrent(s, id) && NeverReverts(s, steps, id)
    requires id in s.current && s.current[id] < s.consents
    ensures var t := RunFrom(s, steps);
            Served(t, id).Some? ==> id in t.current && Served(t, id).value.consent == t.current[id] >= s.current[id]
    decreases |steps|
  {
    if steps != [] {
      StepInv(s, steps[0]);
      StepCurrentIff(s, steps[0], id);
      CurrentGrows(s, steps[0], id);
      ReconnectCutsOff(Next(s, steps[0]), steps[1..], id);
    }
  }

  // ---- One after the other -------------------------------------------------------------------------------

  /** No reconnect while work on the same connection is under way, as when requests run one
      after the other. */
  predicate Serial(s: State, step: Step) {
    step.Reconnect? ==> forall i :: 0 <= i < |s.pending| ==> s.pending[i].id != step.id
  }

  ghost predicate AllSerial(s: State, steps: seq<Step>)
    requires Possible(s, steps)
    decreases |steps|
  {
    steps != [] ==> Serial(s, steps[0]) && AllSerial(Next(s, steps[0]), steps[1..])
  }

  ghost predicate WorkFits(s: State, w: Work) {
    w.id in s.current && w.secret in s.origin && s.origin[w.secret] == s.current[w.id]
  }

  ghost predicate AllWorkFits(s: State) { forall i :: 0 <= i < |s.pending| ==> WorkFits(s, s.pending[i]) }

  lemma FinishKeepsOrigins(s: State, step: Step)
    requires Inv(s) && Enabled(s, step) && (step.EndRefresh? || step.EndReseal?)
    ensures Next(s, step).current == s.current
    ensures forall x :: x in s.origin ==> x in Next(s, step).origin && Next(s, step).origin[x] == s.origin[x]
    ensures Next(s, step).pending == s.pending[..step.work] + s.pending[step.work + 1..]
  {
    assert s.seals !in s.origin;
  }

  lemma FinishFits(s: State, step: Step)
    requires Inv(s) && AllWorkFits(s) && Enabled(s, step) && (step.EndRefresh? || step.EndReseal?)
    ensures AllWorkFits(Next(s, step))
  {
    var t := Next(s, step);
    FinishKeepsOrigins(s, step);
    forall i | 0 <= i < |t.pending| ensures WorkFits(t, t.pending[i]) {
      var w := if i < step.work then s.pending[i] else s.pending[i + 1];
      assert t.pending[i] == w && WorkFits(s, w);
    }
  }

  lemma OtherFits(s: State, step: Step)
    requires Inv(s) && AllWorkFits(s) && Enabled(s, step) && Serial(s, step)
    requires !step.EndRefresh? && !step.EndReseal? && (step.BeginWork? ==> RowCurrent(s, step.id))
    ensures AllWorkFits(Next(s, step))
  {
    var t := Next(s, step);
    forall i | 0 <= i < |t.pending| ensures WorkFits(t, t.pending[i]) {
      if i < |s.pending| { assert WorkFits(s, s.pending[i]) && Known(s, s.pending[i].secret); }
    }
  }

  lemma SerialStep(s: State, step: Step)
    requires Inv(s) && AllWorkFits(s) && Enabled(s, step) && Serial(s, step) && forall id :: RowCurrent(s, id)
    ensures AllWorkFits(Next(s, step)) && forall id :: !Reverts(s, step, id) && RowCurrent(Next(s, step), id)
  {
    if step.EndRefresh? || step.EndReseal? {
      assert WorkFits(s, s.pending[step.work]);
      FinishFits(s, step);
    } else {
      OtherFits(s, step);
    }
    forall id ensures !Reverts(s, step, id) && RowCurrent(Next(s, step), id) { StepCurrentIff(s, step, id); }
  }

  /** Then nothing is reverted. */
  lemma {:induction false} SerialNeverReverts(s: State, steps: seq<Step>, id: Id)
    requires Inv(s) && Possible(s, steps) && AllSerial(s, steps)
    requires AllWorkFits(s) && forall k :: RowCurrent(s, k)
    ensures NeverReverts(s, steps, id)
    decreases |steps|
  {
    if steps != [] {
      StepInv(s, steps[0]);
      SerialStep(s, steps[0]);
      SerialNeverReverts(Next(s, steps[0]), steps[1..], id);
    }
  }

  /** A stored reconnect is such a state: its consent is new, so every token that existed
      before comes from an older one. */
  lemma ReconnectIsNew(s: State, id: Id)
    requires Inv(s) && Enabled(s, Reconnect(id, true))
    ensures var t := Next(s, Reconnect(id, true));
            && t.current[id] == s.consents < t.consents
            && forall k :: k in s.cached ==> s.cached[k].token.consent < t.current[id]
  {
  }

  /** The order matters: a refresh that was under way when the owner reconnected, and whose
      provider rotates credentials, writes the old consent's credential over the new one. */
  lemma OverlapRevertsReconnect(id: Id)
    ensures var last := EndRefresh(0, Minted(Some(1000), true, true));
            var steps := [Connect(id), BeginWork(id), Reconnect(id, true), last];
            && Possible(Initial(), steps)
            && var t := RunFrom(Initial(), steps);
               && t.current == map[id := 1]
               && Served(t, id) == Some(Token(0, Some(1000)))
  {
    var s0 := Initial();
    var s1 := Next(s0, Connect(id));
    var s2 := Next(s1, BeginWork(id));
    var s3 := Next(s2, Reconnect(id, true));
    var last := EndRefresh(0, Minted(Some(1000), true, true));
    assert s2.pending == [Work(id, 0)] && s3.origin[0] == 0;
    var s4 := Next(s3, last);
    var steps := [Connect(id), BeginWork(id), Reconnect(id, true), last];
    assert steps[1..] == [BeginWork(id), Reconnect(id, true), last];
    assert steps[1..][1..] == [Reconnect(id, true), last];
    assert [Reconnect(id, true), last][1..] == [last] && [last][1..] == [];
    assert Possible(s4, []) && RunFrom(s4, []) == s4;
    assert Possible(s3, [last]) && RunFrom(s3, [last]) == s4;
    assert Possible(s2, [Reconnect(id, true), last]) && RunFrom(s2, [Reconnect(id, true), last]) == s4;
    assert Possible(s1, steps[1..]) && RunFrom(s1, steps[1..]) == s4;
    assert s4.rows[id] == 2 && s4.cached[id] == Entry(Token(0, Some(1000)), 2, 880);
  }
}
