/** The versioned routing table (control/proxies.go) and the proxies that keep it
    (proxy/service.go). Builders read the registry without a lock and stamp later; a content
    hash decides whether the number moves; the number is persisted, the hash is not. Pushes
    may be lost, late, repeated or out of order, a proxy handles several at once, and control
    may restart at any point.

    The hash is taken to be collision-free, so a table's content stands for its hash. */
module RouteTable {
  import opened Transcript

  type Content = string

  datatype Table = Table(number: nat, content: Content)

  /** What control holds: the content last hashed (none after a start), the number, and the
      number in the store. */
  datatype Version = Version(hash: Option<Content>, number: nat, stored: nat) {
    /** The locked part of `Routes`, for a table with content `c`. */
    function Stamp(c: Content, persists: bool): Version {
      if hash == Some(c) then this
      else Version(Some(c), number + 1, if persists then number + 1 else stored)
    }

    /** A new process continues from the stored number and has hashed nothing. */
    function Restart(): Version { Version(None, stored, stored) }
  }

  /** A proxy discards what is not newer than what it serves. */
  function Keep(held: Table, t: Table): Table { if t.number <= held.number then held else t }

  const EMPTY := Table(0, "")

  // ---- The object of the source --------------------------------------------------------------

  class RouteServer {
    var routesHash: Option<Content>
    var routesSeq: nat
    var stored: nat

    function Abs(): Version
      reads this
    {
      Version(routesHash, routesSeq, stored)
    }

    constructor (stored: nat)
      ensures Abs() == Version(None, stored, stored)
    {
      routesHash, routesSeq, this.stored := None, stored, stored;
    }

    /** Numbers a table built from the registry: the number moves exactly when the content
        differs from the last one numbered by this process. */
    method Routes(content: Content, persists: bool) returns (t: Table)
      modifies this
      ensures Abs() == old(Abs()).Stamp(content, persists)
      ensures t == Table(routesSeq, content)
    {
      if routesHash != Some(content) {
        routesHash := Some(content);
        routesSeq := routesSeq + 1;
        if persists { stored := routesSeq; }
      }
      return Table(routesSeq, content);
    }
  }

  // ---- Control and its proxies, step by step -----------------------------------------------------

  /** A table that has passed a handler's comparison and is not stored yet; `since` is the highest
      number stored after the comparison, zero if none was. */
  datatype Pending = Pending(table: Table, since: nat)

  function Noted(passed: seq<Pending>, n: nat): (r: seq<Pending>)
    ensures |r| == |passed|
    ensures forall i :: 0 <= i < |r| ==> r[i] == passed[i].(since := if passed[i].since < n then n else passed[i].since)
  {
    seq(|passed|, i requires 0 <= i < |passed| =>
      passed[i].(since := if passed[i].since < n then n else passed[i].since))
  }

  /** A proxy's handler compares the numbers and stores the table in two steps. */
  datatype Proxy = Proxy(held: Table, passed: seq<Pending>, connected: bool) {
    function Check(t: Table): Proxy {
      if t.number <= held.number then this else this.(passed := passed + [Pending(t, 0)])
    }

    function Store(i: nat): Proxy
      requires i < |passed|
    {
      var t := passed[i].table;
      this.(held := t, passed := Noted(passed[..i] + passed[i + 1..], t.number))
    }

    /** A push that is handled without another in between. */
    function Take(t: Table): Proxy {
      if t.number <= held.number then this else this.(held := Keep(held, t), passed := Noted(passed, t.number))
    }
  }

  /** `builders`: tables being built; `true` while the registry has not changed since the
      builder started to read. `pushed` is the route loop's memory, `issued` every table ever
      numbered. */
  datatype State = State(registry: Content, version: Version, builders: seq<bool>, pushed: nat,
                         proxies: map<Id, Proxy>, issued: set<Table>)

  /** `reached` are the proxies a push arrives at; the others' errors are only logged. */
  datatype Step =
    | Mutate(content: Content)
    | BeginBuild
    | EndBuild(builder: nat, content: Content, persists: bool)
    | Check(proxy: Id, table: Table) // any table ever numbered, at any time
    | Store(proxy: Id, index: nat)
    | Push(content: Content, persists: bool, reached: set<Id>)
    | LoopTick(first: Content, second: Content, persists: bool, reached: set<Id>)
    | Connect(proxy: Id, content: Content, persists: bool, reached: set<Id>)
    | Disconnect(proxy: Id)
    | Restart

  function Stamped(s: State, c: Content, persists: bool): State {
    var v := s.version.Stamp(c, persists);
    s.(version := v, issued := s.issued + {Table(v.number, c)})
  }

  function PushedTo(s: State, t: Table, reached: set<Id>): State {
    s.(proxies := map id | id in s.proxies ::
         if s.proxies[id].connected && id in reached then s.proxies[id].Take(t) else s.proxies[id])
  }

  function Pushing(s: State, c: Content, persists: bool, reached: set<Id>): State {
    var t := Stamped(s, c, persists);
    PushedTo(t, Table(t.version.number, c), reached)
  }

  function Connected(s: State, id: Id): State {
    var p := if id in s.proxies then s.proxies[id] else Proxy(EMPTY, [], false);
    s.(proxies := s.proxies[id := p.(connected := true)])
  }

  predicate Enabled(s: State, step: Step) {
    match step
    case EndBuild(b, c, _) => b < |s.builders| && (s.builders[b] ==> c == s.registry)
    case Check(id, t) => id in s.proxies && t in s.issued
    case Store(id, i) => id in s.proxies && i < |s.proxies[id].passed|
    case Disconnect(id) => id in s.proxies
    case _ => true
  }

  function Next(s: State, step: Step): State
    requires Enabled(s, step)
  {
    match step
    case Mutate(c) => s.(registry := c, builders := seq(|s.builders|, _ => false))
    case BeginBuild => s.(builders := s.builders + [true])
    case EndBuild(b, c, persists) =>
      Stamped(s, c, persists).(builders := s.builders[..b] + s.builders[b + 1..])
    case Check(id, t) => s.(proxies := s.proxies[id := s.proxies[id].Check(t)])
    case Store(id, i) => s.(proxies := s.proxies[id := s.proxies[id].Store(i)])
    case Push(c, persists, reached) => Pushing(s, c, persists, reached)
    case LoopTick(first, second, persists, reached) =>
      var t := Stamped(s, first, persists);
      if t.version.number == s.pushed then t
      else Pushing(t.(pushed := t.version.number), second, persists, reached)
    case Connect(id, c, persists, reached) => Pushing(Connected(s, id), c, persists, reached)
    case Disconnect(id) => s.(proxies := s.proxies[id := s.proxies[id].(connected := false)])
    case Restart =>
      s.(version := s.version.Restart(), builders := [], pushed := 0,
         proxies := map id | id in s.proxies :: s.proxies[id].(connected := false))
  }

  ghost predicate Possible(s: State, steps: seq<Step>)
    decreases |steps|
  {
    steps != [] ==> Enabled(s, steps[0]) && Possible(Next(s, steps[0]), steps[1..])
  }

  ghost function RunFrom(s: State, steps: seq<Step>): State
    requires Possible(s, steps)
    decreases |steps|
  {
    if steps == [] then s else RunFrom(Next(s, steps[0]), steps[1..])
  }

  function Initial(registry: Content): State { State(registry, Version(None, 0, 0), [], 0, map[], {}) }

  // ---- Equal numbers, equal content --------------------------------------------------------------

  ghost predicate OneContent(issued: set<Table>) {
    forall t, u :: t in issued && u in issued && t.number == u.number ==> t.content == u.content
  }

  ghost predicate Used(issued: set<Table>, n: nat) { exists t :: t in issued && t.number == n }

  /** The numbers issued are those up to the current one, every number past the stored one has
      been used, and the hash is the current number's content. */
  ghost predicate Numbered(v: Version, issued: set<Table>) {
    && v.stored <= v.number
    && (forall t :: t in issued ==> 1 <= t.number <= v.number)
    && (forall n :: v.stored < n <= v.number ==> Used(issued, n))
    && (v.hash.Some? ==> v.number >= 1 && forall t :: t in issued && t.number == v.number ==> t.content == v.hash.value)
    && OneContent(issued)
  }

  lemma StampNumbered(v: Version, issued: set<Table>, c: Content, persists: bool)
    requires Numbered(v, issued)
    ensures var v' := v.Stamp(c, persists); Numbered(v', issued + {Table(v'.number, c)}) && v'.hash == Some(c)
  {
    var v' := v.Stamp(c, persists);
    var all := issued + {Table(v'.number, c)};
    assert Table(v'.number, c) in all;
    forall n | v'.stored < n <= v'.number ensures Used(all, n) {
      if n < v'.number {
        assert Used(issued, n);
        var t :| t in issued && t.number == n;
        assert t in all;
      }
    }
  }

  /** What is held was held at the handler's comparison, or stored after it. */
  ghost predicate Followed(p: Proxy) {
    forall i :: 0 <= i < |p.passed| ==>
      var h := p.passed[i];
      if h.since == 0 then p.held.number < h.table.number else p.held.number <= h.since
  }

  ghost predicate ProxyFits(issued: set<Table>, p: Proxy) {
    && (p.held == EMPTY || p.held in issued)
    && (forall i :: 0 <= i < |p.passed| ==> p.passed[i].table in issued)
    && Followed(p)
  }

  ghost predicate Inv(s: State) {
    && Numbered(s.version, s.issued) && s.pushed <= s.version.number
    && forall id :: id in s.proxies ==> ProxyFits(s.issued, s.proxies[id])
  }

  lemma StampedInv(s: State, c: Content, persists: bool)
    requires Inv(s)
    ensures var t := Stamped(s, c, persists);
            Inv(t) && t.version.number >= s.version.number && t.version.hash == Some(c)
            && Table(t.version.number, c) in t.issued
  {
    StampNumbered(s.version, s.issued, c, persists);
    var t := Stamped(s, c, persists);
    forall id | id in s.proxies ensures ProxyFits(t.issued, s.proxies[id]) {
      assert ProxyFits(s.issued, s.proxies[id]);
    }
  }

  lemma PushingInv(s: State, c: Content, persists: bool, reached: set<Id>)
    requires Inv(s)
    ensures Inv(Pushing(s, c, persists, reached))
  {
    StampedInv(s, c, persists);
    var t, r := Stamped(s, c, persists), Pushing(s, c, persists, reached);
    forall id | id in r.proxies ensures ProxyFits(r.issued, r.proxies[id]) {
      assert ProxyFits(t.issued, t.proxies[id]);
    }
  }

  lemma TickInv(s: State, first: Content, second: Content, persists: bool, reached: set<Id>)
    requires Inv(s)
    ensures Inv(Next(s, LoopTick(first, second, persists, reached)))
  {
    StampedInv(s, first, persists);
    var t := Stamped(s, first, persists);
    if t.version.number != s.pushed {
      PushingInv(t.(pushed := t.version.number), second, persists, reached);
    }
  }

  lemma ConnectInv(s: State, id: Id, c: Content, persists: bool, reached: set<Id>)
    requires Inv(s)
    ensures Inv(Next(s, Connect(id, c, persists, reached)))
  {
    var t := Connected(s, id);
    forall k | k in t.proxies ensures ProxyFits(t.issued, t.proxies[k]) {
      if k in s.proxies { assert ProxyFits(s.issued, s.proxies[k]); }
    }
    PushingInv(t, c, persists, reached);
  }

  /** A restart continues with numbers that are still free exactly when the last one used had
      reached the store. */
  predicate Safe(s: State, step: Step) { step.Restart? ==> s.version.stored == s.version.number }

  lemma ProxyInv(s: State, step: Step)
    requires Inv(s) && Enabled(s, step) && Safe(s, step)
    requires step.Check? || step.Store? || step.Disconnect? || step.Restart? || step.Mutate? || step.BeginBuild?
    ensures Inv(Next(s, step))
  {
    var t := Next(s, step);
    forall id | id in t.proxies ensures ProxyFits(t.issued, t.proxies[id]) {
      assert ProxyFits(s.issued, s.proxies[id]);
    }
  }

  lemma StepInv(s: State, step: Step)
    requires Inv(s) && Enabled(s, step) && Safe(s, step)
    ensures Inv(Next(s, step))
  {
    match step
    case EndBuild(_, c, persists) => StampedInv(s, c, persists);
    case Push(c, persists, reached) => PushingInv(s, c, persists, reached);
    case LoopTick(first, second, persists, reached) => TickInv(s, first, second, persists, reached);
    case Connect(id, c, persists, reached) => ConnectInv(s, id, c, persists, reached);
    case _ => ProxyInv(s, step);
  }

  ghost predicate AllSafe(s: State, steps: seq<Step>)
    requires Possible(s, steps)
    decreases |steps|
  {
    steps != [] ==> Safe(s, steps[0]) && AllSafe(Next(s, steps[0]), steps[1..])
  }

  lemma {:induction false} RunInv(s: State, steps: seq<Step>)
    requires Inv(s) && Possible(s, steps) && AllSafe(s, steps)
    ensures Inv(RunFrom(s, steps))
    decreases |steps|
  {
    if steps != [] {
      StepInv(s, steps[0]);
      RunInv(Next(s, steps[0]), steps[1..]);
    }
  }

  /** Under every interleaving of builders, mutations, lost and overlapping pushes and failing
      writes of the number, if every restart finds the last number stored: two tables with the
      same number have the same content. */
  lemma SameNumberSameContent(registry: Content, steps: seq<Step>, t: Table, u: Table)
    requires Possible(Initial(registry), steps) && AllSafe(Initial(registry), steps)
    requires t in RunFrom(Initial(registry), steps).issued && u in RunFrom(Initial(registry), steps).issued
    ensures t.number == u.number ==> t.content == u.content
  {
    RunInv(Initial(registry), steps);
  }

  /** That is the exact condition: after any such run, the first table numbered after a restart
      can carry the number of an older one with other content if and only if the last number
      had not reached the store. */
  lemma RestartReusesIff(registry: Content, steps: seq<Step>)
    requires Possible(Initial(registry), steps) && AllSafe(Initial(registry), steps)
    ensures var s := RunFrom(Initial(registry), steps);
            s.version.stored < s.version.number <==>
            exists t, c :: t in s.issued && t.number == s.version.Restart().Stamp(c, true).number && t.content != c
  {
    RunInv(Initial(registry), steps);
    var s := RunFrom(Initial(registry), steps);
    var v := s.version;
    if v.stored < v.number {
      assert Used(s.issued, v.stored + 1);
      var t :| t in s.issued && t.number == v.stored + 1;
      var c := t.content + "x";
      assert |c| != |t.content|;
      assert t.number == v.Restart().Stamp(c, true).number;
    }
  }

  predicate Persists(step: Step) {
    match step
    case EndBuild(_, _, persists) => persists
    case Push(_, persists, _) => persists
    case LoopTick(_, _, persists, _) => persists
    case Connect(_, _, persists, _) => persists
    case _ => true
  }

  /** With successful writes every restart is safe. */
  lemma {:induction false} PersistingIsSafe(s: State, steps: seq<Step>)
    requires Possible(s, steps) && s.version.stored == s.version.number
    requires forall i :: 0 <= i < |steps| ==> Persists(steps[i])
    ensures AllSafe(s, steps)
    decreases |steps|
  {
    if steps != [] {
      assert Persists(steps[0]);
      PersistingIsSafe(Next(s, steps[0]), steps[1..]);
    }
  }

  // ---- When a proxy is on the current table -----------------------------------------------------------

  /** The proxy holds the table with the last number, and that is the registry's content. */
  predicate Current(s: State, id: Id) {
    && id in s.proxies && s.version.hash == Some(s.registry)
    && s.proxies[id].held == Table(s.version.number, s.registry)
  }

  lemma HoldsLastNumber(s: State, id: Id)
    requires Inv(s) && id in s.proxies && s.version.hash == Some(s.registry)
    ensures Current(s, id) <==> s.proxies[id].held.number >= s.version.number
  {
    assert ProxyFits(s.issued, s.proxies[id]);
  }

  /** One push that arrives, whatever was lost or mixed up before: this is what the reconcile
      timer does, and what a connect does. */
  lemma PushSettles(s: State, persists: bool, reached: set<Id>, id: Id)
    requires Inv(s) && id in s.proxies && s.proxies[id].connected && id in reached
    ensures Current(Next(s, Push(s.registry, persists, reached)), id)
  {
    StampedInv(s, s.registry, persists);
    PushingInv(s, s.registry, persists, reached);
    HoldsLastNumber(Next(s, Push(s.registry, persists, reached)), id);
  }

  /** A proxy that connects and is reached has the current table at once. */
  lemma ConnectSettles(s: State, persists: bool, reached: set<Id>, id: Id)
    requires Inv(s) && id in reached
    ensures Current(Next(s, Connect(id, s.registry, persists, reached)), id)
    ensures Next(s, Connect(id, s.registry, persists, reached)).proxies[id].connected
  {
    var t := Connected(s, id);
    forall k | k in t.proxies ensures ProxyFits(t.issued, t.proxies[k]) {
      if k in s.proxies { assert ProxyFits(s.issued, s.proxies[k]); }
    }
    PushSettles(t, persists, reached, id);
  }

  /** A proxy takes what is newer than what it serves and discards everything else, an equal number
      included. */
  lemma TakesOnlyNewer(p: Proxy, t: Table)
    ensures t.number > p.held.number ==>
              && p.Take(t).held == t && Keep(p.held, t) == t
              && |p.Check(t).passed| == |p.passed| + 1 && p.Check(t).passed[|p.passed|] == Pending(t, 0)
    ensures t.number <= p.held.number ==> p.Take(t) == p && Keep(p.held, t) == p.held && p.Check(t) == p
  {
  }

  /** A builder that began before the registry changed may still come out with anything. */
  lemma StaleBuildPossible(s: State, b: nat, now: Content, c: Content, persists: bool)
    requires b < |s.builders|
    ensures Enabled(Next(s, Mutate(now)), EndBuild(b, c, persists))
  {
  }

  /** After a disconnect, and after a restart of control, no push reaches a proxy until it connects. */
  lemma DisconnectedIsUnreached(s: State, id: Id, c: Content, persists: bool, reached: set<Id>)
    requires id in s.proxies
    ensures var t := Next(Next(s, Disconnect(id)), Push(c, persists, reached));
            id in t.proxies && t.proxies[id].held == s.proxies[id].held && !t.proxies[id].connected
    ensures var t := Next(Next(s, Restart), Push(c, persists, reached));
            id in t.proxies && t.proxies[id].held == s.proxies[id].held && !t.proxies[id].connected
  {
    UnreachedKeeps(Next(s, Disconnect(id)), c, persists, reached, id);
    UnreachedKeeps(Next(s, Restart), c, persists, reached, id);
  }

  /** A proxy that is not connected, or not reached, keeps what it has. */
  lemma UnreachedKeeps(s: State, c: Content, persists: bool, reached: set<Id>, id: Id)
    requires id in s.proxies && (id !in reached || !s.proxies[id].connected)
    ensures var t := Next(s, Push(c, persists, reached)); id in t.proxies && t.proxies[id] == s.proxies[id]
  {
  }

  /** One tick of the loop whose push arrives brings a connected proxy to the current table if
      and only if the number has moved since the loop last pushed, or the proxy has it already. */
  lemma TickSettlesIff(s: State, persists: bool, reached: set<Id>, id: Id)
    requires Inv(s) && id in s.proxies && s.proxies[id].connected && id in reached
    ensures var number := s.version.Stamp(s.registry, persists).number;
            Current(Next(s, LoopTick(s.registry, s.registry, persists, reached)), id) <==>
            number != s.pushed || s.proxies[id].held.number == number
  {
    var c := s.registry;
    StampedInv(s, c, persists);
    TickInv(s, c, c, persists, reached);
    assert ProxyFits(s.issued, s.proxies[id]);
    HoldsLastNumber(Next(s, LoopTick(c, c, persists, reached)), id);
  }

  /** A push of the loop that is lost is not made up for by the loop: from then on its ticks,
      however many and reaching whomever, change nothing. */
  lemma {:induction false} TicksDoNothing(s: State, ticks: seq<Step>)
    requires Inv(s) && s.version.hash == Some(s.registry) && s.pushed == s.version.number
    requires Table(s.version.number, s.registry) in s.issued
    requires forall i :: 0 <= i < |ticks| ==>
               ticks[i].LoopTick? && ticks[i].first == ticks[i].second == s.registry
    ensures Possible(s, ticks) && RunFrom(s, ticks) == s
    decreases |ticks|
  {
    if ticks != [] {
      assert ticks[0].LoopTick?;
      assert s.issued + {Table(s.version.number, s.registry)} == s.issued;
      assert Next(s, ticks[0]) == s;
      TicksDoNothing(s, ticks[1..]);
    }
  }

  /** A run: a proxy connects, the registry changes, and the loop's push to the proxy is lost. */
  function LostPush(id: Id, was: Content, now: Content): seq<Step> {
    [Connect(id, was, true, {id}), Mutate(now), LoopTick(now, now, true, {})]
  }

  lemma LostPushRun(id: Id, was: Content, now: Content)
    requires was != now
    ensures Possible(Initial(was), LostPush(id, was, now))
    ensures RunFrom(Initial(was), LostPush(id, was, now)) ==
            State(now, Version(Some(now), 2, 2), [], 2, map[id := Proxy(Table(1, was), [], true)],
                  {Table(1, was), Table(2, now)})
  {
    var connect, mutate, tick := Connect(id, was, true, {id}), Mutate(now), LoopTick(now, now, true, {});
    var s1 := Next(Initial(was), connect);
    assert s1 == State(was, Version(Some(was), 1, 1), [], 0, map[id := Proxy(Table(1, was), [], true)],
                       {Table(1, was)});
    var s3 := Next(Next(s1, mutate), tick);
    assert s3.issued == {Table(1, was), Table(2, now)};
    assert s3.proxies == map[id := Proxy(Table(1, was), [], true)];
    RunThree(Initial(was), connect, mutate, tick);
  }

  lemma LostPushInv(id: Id, was: Content, now: Content, s: State)
    requires was != now
    requires s == State(now, Version(Some(now), 2, 2), [], 2, map[id := Proxy(Table(1, was), [], true)],
                        {Table(1, was), Table(2, now)})
    ensures Inv(s)
  {
    assert s.proxies.Keys == {id} && ProxyFits(s.issued, s.proxies[id]);
  }

  /** After it the connected proxy serves the old table under any number of ticks that reach
      everyone. The source says of the loop that a missed push is self-correcting. */
  lemma StaysStale(id: Id, was: Content, now: Content, ticks: seq<Step>)
    requires was != now
    requires forall i :: 0 <= i < |ticks| ==> ticks[i].LoopTick? && ticks[i].first == ticks[i].second == now
    ensures Possible(Initial(was), LostPush(id, was, now))
    ensures var s := RunFrom(Initial(was), LostPush(id, was, now));
            && Possible(s, ticks) && RunFrom(s, ticks) == s && s.registry == now
            && id in s.proxies && s.proxies[id] == Proxy(Table(1, was), [], true)
  {
    LostPushRun(id, was, now);
    var s := State(now, Version(Some(now), 2, 2), [], 2, map[id := Proxy(Table(1, was), [], true)],
                   {Table(1, was), Table(2, now)});
    LostPushInv(id, was, now, s);
    TicksDoNothing(s, ticks);
  }

  // ---- When a proxy moves back -------------------------------------------------------------------------

  /** The number the proxy serves never drops. */
  ghost predicate NeverBack(s: State, steps: seq<Step>, id: Id)
    requires Possible(s, steps) && id in s.proxies
    decreases |steps|
  {
    steps != [] ==>
      && id in Next(s, steps[0]).proxies
      && s.proxies[id].held.number <= Next(s, steps[0]).proxies[id].held.number
      && NeverBack(Next(s, steps[0]), steps[1..], id)
  }

  /** A newer table was stored after the handler's comparison. */
  predicate Overtaken(h: Pending) { h.since > h.table.number }

  /** No handler stores after it has been overtaken. */
  predicate Forward(s: State, step: Step, id: Id)
    requires Enabled(s, step)
  {
    step.Store? && step.proxy == id ==> !Overtaken(s.proxies[id].passed[step.index])
  }

  ghost predicate AllForward(s: State, steps: seq<Step>, id: Id)
    requires Possible(s, steps)
    decreases |steps|
  {
    steps != [] ==> Forward(s, steps[0], id) && AllForward(Next(s, steps[0]), steps[1..], id)
  }

  /** As long as a proxy has not gone back, what is held is what was stored last since each
      handler's comparison, and it was stored in rising order. */
  ghost predicate Rising(p: Proxy) {
    forall i :: 0 <= i < |p.passed| ==>
      var h := p.passed[i];
      if h.since == 0 then p.held.number < h.table.number else p.held.number == h.since
  }

  lemma StoreRising(p: Proxy, i: nat)
    requires Rising(p) && i < |p.passed|
    ensures p.held.number <= p.Store(i).held.number <==> !Overtaken(p.passed[i])
    ensures !Overtaken(p.passed[i]) ==> Rising(p.Store(i))
  {
    var rest := p.passed[..i] + p.passed[i + 1..];
    forall k | 0 <= k < |rest| ensures rest[k] in p.passed {
      assert rest[k] == p.passed[if k < i then k else k + 1];
    }
  }

  lemma TakeRising(p: Proxy, t: Table)
    requires Rising(p)
    ensures Rising(p.Take(t)) && p.held.number <= p.Take(t).held.number
  {
  }

  lemma CheckRising(p: Proxy, t: Table)
    requires Rising(p)
    ensures Rising(p.Check(t)) && p.Check(t).held == p.held
  {
  }

  lemma StepBackIff(s: State, step: Step, id: Id)
    requires Enabled(s, step) && id in s.proxies && Rising(s.proxies[id])
    ensures id in Next(s, step).proxies
    ensures s.proxies[id].held.number <= Next(s, step).proxies[id].held.number <==> Forward(s, step, id)
    ensures Forward(s, step, id) ==> Rising(Next(s, step).proxies[id])
  {
    var p := s.proxies[id];
    match step
    case Check(k, t) => CheckRising(p, t);
    case Store(k, i) => if k == id { StoreRising(p, i); }
    case Push(c, persists, _) =>
      TakeRising(p, Table(Stamped(s, c, persists).version.number, c));
    case LoopTick(first, second, persists, _) =>
      var t := Stamped(s, first, persists);
      TakeRising(p, Table(Stamped(t, second, persists).version.number, second));
    case Connect(k, c, persists, _) =>
      TakeRising(p.(connected := true), Table(Stamped(s, c, persists).version.number, c));
      TakeRising(p, Table(Stamped(s, c, persists).version.number, c));
    case _ =>
  }

  /** Over every run: a proxy never moves back if and only if no handler stores after a newer table
      was stored between its comparison and its store. */
  lemma {:induction false} NeverBackIff(s: State, steps: seq<Step>, id: Id)
    requires Possible(s, steps) && id in s.proxies && Rising(s.proxies[id])
    ensures NeverBack(s, steps, id) <==> AllForward(s, steps, id)
    decreases |steps|
  {
    if steps != [] {
      StepBackIff(s, steps[0], id);
      if Forward(s, steps[0], id) { NeverBackIff(Next(s, steps[0]), steps[1..], id); }
    }
  }

  /** A proxy that connects for the first time is a start for such runs. */
  lemma FirstConnect(s: State, id: Id, c: Content, persists: bool, reached: set<Id>)
    requires id !in s.proxies
    ensures var t := Next(s, Connect(id, c, persists, reached)); id in t.proxies && Rising(t.proxies[id])
  {
  }

  /** A proxy that handles one push at a time: no other push gets in between. */
  predicate Alone(s: State, step: Step, id: Id) {
    id in s.proxies && s.proxies[id].passed != [] ==>
      match step
      case Check(k, _) => k != id
      case Push(_, _, reached) => id !in reached
      case LoopTick(_, _, _, reached) => id !in reached
      case Connect(_, _, _, reached) => id !in reached
      case _ => true
  }

  ghost predicate AllAlone(s: State, steps: seq<Step>, id: Id)
    requires Possible(s, steps)
    decreases |steps|
  {
    steps != [] ==> Alone(s, steps[0], id) && AllAlone(Next(s, steps[0]), steps[1..], id)
  }

  predicate OnePending(p: Proxy) {
    |p.passed| <= 1 && (p.passed != [] ==> p.passed[0].since == 0 && p.held.number < p.passed[0].table.number)
  }

  lemma AloneStep(s: State, step: Step, id: Id)
    requires Enabled(s, step) && id in s.proxies && Alone(s, step, id) && OnePending(s.proxies[id])
    ensures Forward(s, step, id) && id in Next(s, step).proxies && OnePending(Next(s, step).proxies[id])
  {
  }

  /** Then it never moves back. */
  lemma {:induction false} OneAtATimeForward(s: State, steps: seq<Step>, id: Id)
    requires Possible(s, steps) && id in s.proxies && AllAlone(s, steps, id) && OnePending(s.proxies[id])
    ensures AllForward(s, steps, id) && NeverBack(s, steps, id)
    decreases |steps|
  {
    NeverBackIff(s, steps, id);
    if steps != [] {
      AloneStep(s, steps[0], id);
      OneAtATimeForward(Next(s, steps[0]), steps[1..], id);
    }
  }

  /** The two steps of a handler, alone, are the rule of keeping what is newer. */
  lemma AloneIsKeep(p: Proxy, t: Table)
    requires p.passed == []
    ensures |p.Check(t).passed| <= 1
    ensures (if p.Check(t).passed == [] then p.Check(t) else p.Check(t).Store(0)) == p.Take(t)
  {
    var h := Pending(t, 0);
    if t.number > p.held.number { assert [h][..0] + [h][1..] == []; }
  }

  lemma {:induction false} RunConcat(s: State, a: seq<Step>, b: seq<Step>)
    requires Possible(s, a) && Possible(RunFrom(s, a), b)
    ensures Possible(s, a + b) && RunFrom(s, a + b) == RunFrom(RunFrom(s, a), b)
    decreases |a|
  {
    if a == [] {
      assert a + b == b;
    } else {
      assert (a + b)[1..] == a[1..] + b;
      RunConcat(Next(s, a[0]), a[1..], b);
    }
  }

  lemma RunThree(s: State, a: Step, b: Step, c: Step)
    requires Enabled(s, a) && Enabled(Next(s, a), b) && Enabled(Next(Next(s, a), b), c)
    ensures Possible(s, [a, b, c]) && RunFrom(s, [a, b, c]) == Next(Next(Next(s, a), b), c)
  {
    var t, u := Next(s, a), Next(Next(s, a), b);
    var v := Next(u, c);
    assert [a, b, c][1..] == [b, c] && [b, c][1..] == [c] && [c][1..] == [];
    assert Possible(v, []) && RunFrom(v, []) == v;
    assert Possible(u, [c]) && RunFrom(u, [c]) == v;
    assert Possible(t, [b, c]) && RunFrom(t, [b, c]) == v;
  }

  /** Two pushes that overlap, in a run of the system: both pass the check, the newer is stored
      first, then the older over it. */
  function FirstPasses(id: Id, first: Content, second: Content): seq<Step> {
    [Connect(id, first, true, {}), Check(id, Table(1, first)), Push(second, true, {})]
  }

  function SecondOvertakes(id: Id, second: Content): seq<Step> {
    [Check(id, Table(2, second)), Store(id, 1), Store(id, 0)]
  }

  lemma FirstPassed(id: Id, first: Content, second: Content) returns (s: State)
    requires first != second
    ensures Possible(Initial(second), FirstPasses(id, first, second))
    ensures s == RunFrom(Initial(second), FirstPasses(id, first, second))
    ensures s.version.number == 2 && Table(2, second) in s.issued
    ensures id in s.proxies && s.proxies[id] == Proxy(EMPTY, [Pending(Table(1, first), 0)], true)
  {
    var s1 := Next(Initial(second), Connect(id, first, true, {}));
    assert s1.proxies == map[id := Proxy(EMPTY, [], true)] && s1.issued == {Table(1, first)};
    s := Next(Next(s1, Check(id, Table(1, first))), Push(second, true, {}));
    RunThree(Initial(second), Connect(id, first, true, {}), Check(id, Table(1, first)), Push(second, true, {}));
  }

  lemma SecondOvertook(s: State, id: Id, t1: Table, second: Content) returns (s6: State)
    requires id in s.proxies && s.proxies[id] == Proxy(EMPTY, [Pending(t1, 0)], true) && Table(2, second) in s.issued
    ensures Possible(s, SecondOvertakes(id, second)) && s6 == RunFrom(s, SecondOvertakes(id, second))
    ensures id in s6.proxies && s6.proxies[id] == Proxy(t1, [], true) && s6.version == s.version
  {
    var t2 := Table(2, second);
    var s4 := Next(s, Check(id, t2));
    var p1, p2 := Pending(t1, 0), Pending(t2, 0);
    assert s4.proxies[id] == Proxy(EMPTY, [p1, p2], true);
    var s5 := Next(s4, Store(id, 1));
    assert [p1, p2][..1] + [p1, p2][2..] == [p1];
    assert s5.proxies[id] == Proxy(t2, [Pending(t1, 2)], true);
    s6 := Next(s5, Store(id, 0));
    assert [Pending(t1, 2)][..0] + [Pending(t1, 2)][1..] == [];
    RunThree(s, Check(id, t2), Store(id, 1), Store(id, 0));
  }

  lemma OverlappingPushesGoBack(id: Id, first: Content, second: Content)
    requires first != second
    ensures Possible(Initial(second), FirstPasses(id, first, second) + SecondOvertakes(id, second))
    ensures var s := RunFrom(Initial(second), FirstPasses(id, first, second) + SecondOvertakes(id, second));
            s.version.number == 2 && id in s.proxies && s.proxies[id] == Proxy(Table(1, first), [], true)
  {
    var s := FirstPassed(id, first, second);
    var t := SecondOvertook(s, id, Table(1, first), second);
    RunConcat(Initial(second), FirstPasses(id, first, second), SecondOvertakes(id, second));
  }

  // ---- Convergence ---------------------------------------------------------------------------------------

  /** The proxy serves the registry, and no newer table differs. */
  ghost predicate Settled(s: State, id: Id) {
    && id in s.proxies && s.proxies[id].held.content == s.registry
    && forall t :: t in s.issued && t.number >= s.proxies[id].held.number ==> t.content == s.registry
  }

  lemma CurrentIsSettled(s: State, id: Id)
    requires Inv(s) && Current(s, id)
    ensures Settled(s, id)
  {
  }

  /** A step during which the registry does not change. */
  predicate Quiet(registry: Content, step: Step) {
    match step
    case Mutate(_) => false
    case Push(c, _, _) => c == registry
    case LoopTick(first, second, _, _) => first == second == registry
    case Connect(_, c, _, _) => c == registry
    case _ => true
  }

  predicate AllClean(s: State) { forall b :: 0 <= b < |s.builders| ==> s.builders[b] }

  lemma QuietKeepsClean(s: State, step: Step)
    requires Enabled(s, step) && Quiet(s.registry, step) && AllClean(s)
    ensures AllClean(Next(s, step)) && Next(s, step).registry == s.registry
  {
  }

  lemma StampedSettled(s: State, id: Id, persists: bool)
    requires Settled(s, id)
    ensures Settled(Stamped(s, s.registry, persists), id)
  {
  }

  lemma PushingSettled(s: State, id: Id, persists: bool, reached: set<Id>)
    requires Settled(s, id)
    ensures Settled(Pushing(s, s.registry, persists, reached), id)
  {
    StampedSettled(s, id, persists);
  }

  lemma QuietKeepsSettled(s: State, step: Step, id: Id)
    requires Inv(s) && Enabled(s, step) && Quiet(s.registry, step) && AllClean(s)
    requires Settled(s, id) && Forward(s, step, id)
    ensures Settled(Next(s, step), id)
  {
    match step
    case EndBuild(_, c, persists) => StampedSettled(s, id, persists);
    case Push(_, persists, reached) => PushingSettled(s, id, persists, reached);
    case LoopTick(_, _, persists, reached) =>
      StampedSettled(s, id, persists);
      var t := Stamped(s, s.registry, persists);
      PushingSettled(t.(pushed := t.version.number), id, persists, reached);
    case Connect(k, _, persists, reached) => PushingSettled(Connected(s, k), id, persists, reached);
    case Store(k, i) => assert ProxyFits(s.issued, s.proxies[k]);
    case _ =>
  }

  ghost predicate AllQuiet(registry: Content, steps: seq<Step>) {
    forall i :: 0 <= i < |steps| ==> Quiet(registry, steps[i])
  }

  lemma {:induction false} StaysSettled(s: State, steps: seq<Step>, id: Id)
    requires Inv(s) && Possible(s, steps) && AllSafe(s, steps) && AllForward(s, steps, id)
    requires AllQuiet(s.registry, steps) && AllClean(s) && Settled(s, id)
    ensures Settled(RunFrom(s, steps), id) && RunFrom(s, steps).registry == s.registry
    decreases |steps|
  {
    if steps != [] {
      assert Quiet(s.registry, steps[0]);
      StepInv(s, steps[0]);
      QuietKeepsClean(s, steps[0]);
      QuietKeepsSettled(s, steps[0], id);
      StaysSettled(Next(s, steps[0]), steps[1..], id);
    }
  }

  /** Main result. After any run (lost, late, repeated and overlapping pushes, failing writes,
      restarts), once the registry is quiet and the builders that had read it before are done:
      one tick that reaches a connected proxy brings it to the current table, unless the loop
      had pushed that number before and this proxy missed it. While the registry stays quiet,
      late deliveries of older tables and restarts do not take it away, as long as no
      handler stores after it has been overtaken. */
  lemma ConvergesAndStays(registry: Content, before: seq<Step>, persists: bool, reached: set<Id>,
                          after: seq<Step>, id: Id)
    requires Possible(Initial(registry), before) && AllSafe(Initial(registry), before)
    requires var s := RunFrom(Initial(registry), before);
             && AllClean(s) && id in s.proxies && s.proxies[id].connected && id in reached
             && (s.version.Stamp(s.registry, persists).number != s.pushed
                 || s.proxies[id].held.number == s.version.Stamp(s.registry, persists).number)
             && var t := Next(s, LoopTick(s.registry, s.registry, persists, reached));
                && Possible(t, after) && AllSafe(t, after) && AllForward(t, after, id) && AllQuiet(s.registry, after)
    ensures var s := RunFrom(Initial(registry), before);
            var t := RunFrom(Next(s, LoopTick(s.registry, s.registry, persists, reached)), after);
            id in t.proxies && t.proxies[id].held.content == s.registry == t.registry
  {
    var s := RunFrom(Initial(registry), before);
    RunInv(Initial(registry), before);
    var tick := LoopTick(s.registry, s.registry, persists, reached);
    TickSettlesIff(s, persists, reached, id);
    TickInv(s, s.registry, s.registry, persists, reached);
    CurrentIsSettled(Next(s, tick), id);
    QuietKeepsClean(s, tick);
    StaysSettled(Next(s, tick), after, id);
  }

  // ---- Any order, one at a time -----------------------------------------------------------------------

  function AppliedAll(held: Table, pushes: seq<Table>): Table
    decreases |pushes|
  {
    if pushes == [] then held else AppliedAll(Keep(held, pushes[0]), pushes[1..])
  }

  /** Pushes handled one after the other, in whatever order they arrive: the proxy ends on one
      with the highest number. */
  lemma {:induction false} OneAtATimeKeepsNewest(held: Table, pushes: seq<Table>)
    ensures var r := AppliedAll(held, pushes);
            && (r == held || r in pushes) && r.number >= held.number
            && forall t :: t in pushes ==> t.number <= r.number
    decreases |pushes|
  {
    if pushes != [] {
      OneAtATimeKeepsNewest(Keep(held, pushes[0]), pushes[1..]);
      assert forall t :: t in pushes ==> t == pushes[0] || t in pushes[1..];
    }
  }
}
