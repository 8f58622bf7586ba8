/** The registry mirror (control/sync.go, control/registry.go) and the nodes that keep it
    (node/machine_sync.go). Reading the app rows and taking a number is one locked step;
    sending is not. Numbers belong to one control process; a node forgets them when it opens
    a new connection. Only app rows are covered: snapshot rows are read outside the lock. */
module Mirror {
  import opened Transcript

  const HOST_LOCAL := "local"

  datatype AppRow = AppRow(id: Id, name: string, host: string, ownerID: string, port: int)

  function HostOrLocal(host: string): (h: string)
    ensures h != ""
  {
    if host == "" then HOST_LOCAL else host
  }

  /** Who owns an app is no business of a node. */
  function Mirrored(a: AppRow): AppRow { a.(ownerID := "") }

  /** The rows one node is sent; all of them when `host` is empty. */
  function Slice(apps: seq<AppRow>, host: string): seq<AppRow> {
    if apps == [] then []
    else if host != "" && HostOrLocal(apps[0].host) != host then Slice(apps[1..], host)
    else [Mirrored(apps[0])] + Slice(apps[1..], host)
  }

  lemma {:induction false} SliceSnoc(apps: seq<AppRow>, a: AppRow, host: string)
    ensures Slice(apps + [a], host) ==
            Slice(apps, host) + (if host != "" && HostOrLocal(a.host) != host then [] else [Mirrored(a)])
  {
    if apps == [] {
      assert apps + [a] == [a] && [a][1..] == [];
    } else {
      assert (apps + [a])[1..] == apps[1..] + [a];
      SliceSnoc(apps[1..], a, host);
    }
  }

  /** Every app is in exactly one node's slice, without its owner. */
  lemma {:induction false} SlicesPartition(apps: seq<AppRow>, a: AppRow, host: string)
    requires host != ""
    ensures a in Slice(apps, host) <==>
            HostOrLocal(a.host) == host && exists i :: 0 <= i < |apps| && Mirrored(apps[i]) == a
  {
    if apps != [] {
      SlicesPartition(apps[1..], a, host);
      if exists i :: 0 <= i < |apps| && Mirrored(apps[i]) == a {
        var i :| 0 <= i < |apps| && Mirrored(apps[i]) == a;
        if i > 0 { assert apps[1..][i - 1] == apps[i]; }
      }
      if exists i :: 0 <= i < |apps[1..]| && Mirrored(apps[1..][i]) == a {
        var i :| 0 <= i < |apps[1..]| && Mirrored(apps[1..][i]) == a;
        assert Mirrored(apps[i + 1]) == a;
      }
      if HostOrLocal(apps[0].host) == host {
        assert Slice(apps, host) == [Mirrored(apps[0])] + Slice(apps[1..], host);
      }
    }
  }

  /** The app belongs to the node: it is placed there, or nowhere and the node is the local one; a
      payload for no node in particular has them all. */
  predicate PlacedOn(a: AppRow, host: string) {
    host == "" || a.host == host || (a.host == "" && host == "local")
  }

  function CountOn(apps: seq<AppRow>, host: string): nat {
    if apps == [] then 0 else (if PlacedOn(apps[0], host) then 1 else 0) + CountOn(apps[1..], host)
  }

  /** The rows are those of the node's apps, in the registry's order, each as it is but for its
      owner. */
  lemma {:induction false} RowAt(apps: seq<AppRow>, host: string, i: nat)
    requires i < |apps|
    ensures |Slice(apps, host)| == CountOn(apps, host)
    ensures PlacedOn(apps[i], host) ==>
              var k, rows := CountOn(apps[..i], host), Slice(apps, host);
              && k < |rows| && rows[k].ownerID == "" && rows[k].id == apps[i].id && rows[k].name == apps[i].name
              && rows[k].host == apps[i].host && rows[k].port == apps[i].port
  {
    assert HOST_LOCAL == "local";
    if |apps| == 1 {
      assert apps[1..] == [] && Slice([], host) == [];
    } else {
      RowAt(apps[1..], host, if i > 0 then i - 1 else 0);
    }
    if i > 0 { assert apps[..i][1..] == apps[1..][..i - 1]; }
  }

  /** The loop that assembles a payload's rows. */
  method SyncRows(apps: seq<AppRow>, host: string) returns (rows: seq<AppRow>)
    ensures rows == Slice(apps, host)
  {
    rows := [];
    for i := 0 to |apps|
      invariant rows == Slice(apps[..i], host)
    {
      assert apps[..i + 1] == apps[..i] + [apps[i]];
      SliceSnoc(apps[..i], apps[i], host);
      if host != "" && HostOrLocal(apps[i].host) != host { continue; }
      rows := rows + [apps[i].(ownerID := "")];
    }
    assert apps[..|apps|] == apps;
  }

  // ---- Control and its nodes, step by step ----------------------------------------------------------

  /** What is sent to `node` on connection `session`. `order` counts everything ever sent, by any
      control process, and `version` the mutations the rows had seen; the model keeps both to say
      what is older. */
  datatype Payload = Payload(node: Id, session: nat, number: nat, order: nat, version: nat, rows: seq<AppRow>)

  /** A payload that passed the node's check; tickets count those. `heldThen` is the order of the
      rows held at the check, `since` the highest order put in place after it, zero if none. */
  datatype Admitted = Admitted(ticket: nat, payload: Payload, heldThen: nat, since: nat)

  function Noted(admitted: seq<Admitted>, order: nat): (r: seq<Admitted>)
    ensures |r| == |admitted|
    ensures forall i :: 0 <= i < |r| ==>
              r[i] == admitted[i].(since := if admitted[i].since < order then order else admitted[i].since)
  {
    seq(|admitted|, i requires 0 <= i < |admitted| =>
      admitted[i].(since := if admitted[i].since < order then order else admitted[i].since))
  }

  /** `number` is the last one admitted on this connection, zero at its start; `openedAt` says how
      much had been sent when the connection was opened; `held` is what the mirror was last
      replaced with. The handler admits a payload under a lock and replaces the rows after it;
      `admitted` are the payloads in between. */
  datatype Node = Node(openedAt: nat, number: nat, tickets: nat, held: Admitted, admitted: seq<Admitted>) {
    predicate Refuses(p: Payload) { p.number != 0 && p.number <= number }

    function Admit(p: Payload): Node {
      if Refuses(p) then this
      else this.(number := p.number, tickets := tickets + 1, admitted := admitted + [Admission(p)])
    }

    function Admission(p: Payload): Admitted { Admitted(tickets + 1, p, held.payload.order, 0)
    }

    function Without(i: nat): seq<Admitted>
      requires i < |admitted|
    {
      admitted[..i] + admitted[i + 1..]
    }

    function Replace(i: nat): Node
      requires i < |admitted|
    {
      this.(held := admitted[i], admitted := Noted(Without(i), admitted[i].payload.order))
    }

    /** Replacing the rows failed: the number stays. */
    function Abandon(i: nat): Node
      requires i < |admitted|
    {
      this.(admitted := Without(i))
    }

    /** A payload that is handled without another in between. */
    function Sync(p: Payload): Node {
      if Refuses(p) then this
      else this.(number := p.number, tickets := tickets + 1, held := Admission(p))
    }
  }

  function Blank(id: Id): Payload { Payload(id, 0, 0, 0, 0, []) }

  function Nothing(id: Id): Admitted { Admitted(0, Blank(id), 0, 0) }

  /** `history` holds the registry after every mutation, `live` the node of each open
      connection, `counter` the numbers taken by this control process. */
  datatype State = State(history: seq<seq<AppRow>>, counter: nat, pushes: nat, live: map<nat, Id>, sessions: nat,
                         sent: set<Payload>, nodes: map<Id, Node>) {
    function Version(): nat
      requires history != []
    {
      |history| - 1
    }
  }

  datatype Step =
    | Mutate(apps: seq<AppRow>)
    | Push(session: nat)                // read, number and slice, for the node on that connection
    | Admit(node: Id, payload: Payload) // in any order, any number of times, however late
    | Replace(node: Id, index: nat)
    | Abandon(node: Id, index: nat)
    | Connect(node: Id)
    | Drop(session: nat)
    | RestartControl

  function Initial(): State { State([[]], 0, 0, map[], 1, {}, map[]) }

  predicate Enabled(s: State, step: Step) {
    match step
    case Push(session) => session in s.live
    case Admit(id, p) => id in s.nodes && p in s.sent && p.node == id
    case Replace(id, i) => id in s.nodes && i < |s.nodes[id].admitted|
    case Abandon(id, i) => id in s.nodes && i < |s.nodes[id].admitted|
    case _ => true
  }

  function Sending(s: State, session: nat): Payload
    requires s.history != [] && session in s.live
  {
    Payload(s.live[session], session, s.counter + 1, s.pushes + 1, s.Version(),
            Slice(s.history[s.Version()], s.live[session]))
  }

  function Connected(s: State, id: Id): Node {
    if id in s.nodes then s.nodes[id].(openedAt := s.pushes, number := 0)
    else Node(s.pushes, 0, 0, Nothing(id), [])
  }

  function Next(s: State, step: Step): State
    requires s.history != [] && Enabled(s, step)
  {
    match step
    case Mutate(apps) => s.(history := s.history + [apps])
    case Push(session) =>
      s.(counter := s.counter + 1, pushes := s.pushes + 1, sent := s.sent + {Sending(s, session)})
    case Admit(id, p) => s.(nodes := s.nodes[id := s.nodes[id].Admit(p)])
    case Replace(id, i) => s.(nodes := s.nodes[id := s.nodes[id].Replace(i)])
    case Abandon(id, i) => s.(nodes := s.nodes[id := s.nodes[id].Abandon(i)])
    case Connect(id) =>
      s.(sessions := s.sessions + 1, live := s.live[s.sessions := id], nodes := s.nodes[id := Connected(s, id)])
    case Drop(session) => s.(live := s.live - {session})
    case RestartControl => s.(counter := 0, live := map[])
  }

  ghost predicate Possible(s: State, steps: seq<Step>)
    decreases |steps|
  {
    s.history != [] && (steps != [] ==> Enabled(s, steps[0]) && Possible(Next(s, steps[0]), steps[1..]))
  }

  ghost function RunFrom(s: State, steps: seq<Step>): State
    requires Possible(s, steps)
    decreases |steps|
  {
    if steps == [] then s else RunFrom(Next(s, steps[0]), steps[1..])
  }

  // ---- Newer numbers, newer rows -----------------------------------------------------------------------

  /** What was sent later carries rows at least as new, and on one connection the numbers say
      what was sent later. */
  ghost predicate Ordered(sent: set<Payload>) {
    forall p, q :: p in sent && q in sent ==> InOrder(p, q)
  }

  predicate InOrder(p: Payload, q: Payload) {
    && (p.order < q.order ==> p.version <= q.version)
    && (p.order == q.order ==> p == q)
    && (p.session == q.session ==> (p.number < q.number <==> p.order < q.order))
  }

  ghost predicate SentFits(s: State, p: Payload)
    requires s.history != []
  {
    && p.session < s.sessions && p.number >= 1 && 1 <= p.order <= s.pushes && p.version <= s.Version()
    && p.rows == Slice(s.history[p.version], p.node)
    && (p.session in s.live ==> p.number <= s.counter)
  }

  /** What a node has came from control. */
  predicate Known(sent: set<Payload>, id: Id, n: Node, a: Admitted) {
    a.ticket <= n.tickets && a.payload.node == id && (a == Nothing(id) || a.payload in sent)
  }

  ghost predicate NodeFits(sent: set<Payload>, id: Id, n: Node) {
    Known(sent, id, n, n.held) && forall a :: a in n.admitted ==> Known(sent, id, n, a) && a.ticket >= 1
  }

  ghost predicate Inv(s: State) {
    && s.history != [] && s.history[0] == [] && Ordered(s.sent)
    && (forall session :: session in s.live ==> session < s.sessions)
    && (forall p :: p in s.sent ==> SentFits(s, p))
    && (forall id :: id in s.nodes ==> NodeFits(s.sent, id, s.nodes[id]))
  }

  lemma SentFitsLater(s: State, t: State, p: Payload)
    requires s.history != [] && s.history <= t.history && SentFits(s, p)
    requires s.sessions <= t.sessions && s.pushes <= t.pushes
    requires p.session in t.live ==> p.session in s.live && s.counter <= t.counter
    ensures SentFits(t, p)
  {
    assert t.history[p.version] == s.history[p.version];
  }

  lemma PushInv(s: State, session: nat)
    requires Inv(s) && session in s.live
    ensures Inv(Next(s, Push(session)))
  {
    var t, last := Next(s, Push(session)), Sending(s, session);
    forall p | p in t.sent ensures SentFits(t, p) {
      if p in s.sent { SentFitsLater(s, t, p); }
    }
    forall p | p in s.sent ensures InOrder(p, last) && InOrder(last, p) {
      assert SentFits(s, p);
    }
    forall p, q | p in t.sent && q in t.sent ensures InOrder(p, q) { }
    forall id | id in s.nodes ensures NodeFits(t.sent, id, s.nodes[id]) {
      assert NodeFits(s.sent, id, s.nodes[id]);
    }
  }

  lemma AdmitFits(sent: set<Payload>, id: Id, n: Node, p: Payload)
    requires NodeFits(sent, id, n) && p in sent && p.node == id
    ensures NodeFits(sent, id, n.Admit(p))
  {
    forall a | a in n.Admit(p).admitted ensures Known(sent, id, n.Admit(p), a) && a.ticket >= 1 {
      assert a in n.admitted || a == n.Admission(p);
    }
  }

  lemma WithoutIn(n: Node, i: nat)
    requires i < |n.admitted|
    ensures forall a :: a in n.Without(i) ==> a in n.admitted
  {
  }

  lemma HandlerInv(s: State, step: Step)
    requires Inv(s) && Enabled(s, step) && (step.Admit? || step.Replace? || step.Abandon?)
    ensures Inv(Next(s, step))
  {
    var t, id := Next(s, step), step.node;
    assert NodeFits(s.sent, id, s.nodes[id]);
    if step.Admit? { AdmitFits(s.sent, id, s.nodes[id], step.payload); } else { WithoutIn(s.nodes[id], step.index); }
    forall p | p in t.sent ensures SentFits(t, p) { assert SentFits(s, p); }
    forall k | k in t.nodes ensures NodeFits(t.sent, k, t.nodes[k]) {
      assert NodeFits(s.sent, k, s.nodes[k]);
    }
  }

  lemma ControlInv(s: State, step: Step)
    requires Inv(s) && (step.Mutate? || step.Connect? || step.Drop? || step.RestartControl?)
    ensures Inv(Next(s, step))
  {
    var t := Next(s, step);
    forall p | p in s.sent ensures SentFits(t, p) {
      assert SentFits(s, p);
      SentFitsLater(s, t, p);
    }
    forall id | id in t.nodes ensures NodeFits(t.sent, id, t.nodes[id]) {
      if id in s.nodes { assert NodeFits(s.sent, id, s.nodes[id]); }
    }
  }

  lemma StepInv(s: State, step: Step)
    requires Inv(s) && Enabled(s, step)
    ensures Inv(Next(s, step))
  {
    match step
    case Push(session) => PushInv(s, session);
    case Admit(_, _) => HandlerInv(s, step);
    case Replace(_, _) => HandlerInv(s, step);
    case Abandon(_, _) => HandlerInv(s, step);
    case _ => ControlInv(s, step);
  }

  lemma {:induction false} RunInv(s: State, steps: seq<Step>)
    requires Inv(s) && Possible(s, steps)
    ensures Inv(RunFrom(s, steps))
    decreases |steps|
  {
    if steps != [] {
      StepInv(s, steps[0]);
      RunInv(Next(s, steps[0]), steps[1..]);
    }
  }

  /** On one connection, payloads with higher numbers carry app rows at least as new. */
  lemma HigherNumberNewerRows(steps: seq<Step>, p: Payload, q: Payload)
    requires Possible(Initial(), steps)
    requires p in RunFrom(Initial(), steps).sent && q in RunFrom(Initial(), steps).sent
    ensures p.session == q.session && p.number < q.number ==> p.version <= q.version
  {
    RunInv(Initial(), steps);
    assert InOrder(p, q);
  }

  // ---- When a node moves back ------------------------------------------------------------------------------

  /** The rows a node holds are never replaced with rows that were sent before them. */
  ghost predicate NeverBack(s: State, steps: seq<Step>, id: Id)
    requires Possible(s, steps) && id in s.nodes
    decreases |steps|
  {
    steps != [] ==>
      && id in Next(s, steps[0]).nodes
      && s.nodes[id].held.payload.order <= Next(s, steps[0]).nodes[id].held.payload.order
      && NeverBack(Next(s, steps[0]), steps[1..], id)
  }

  /** What was sent to a node since its last redial comes from one control process, whose numbers
      say what was sent later; and what could still be admitted of it was sent later than anything
      that was admitted. */
  ghost predicate Fresh(s: State, id: Id)
    requires id in s.nodes
  {
    var n := s.nodes[id];
    && n.openedAt <= s.pushes
    && (forall p, q :: Recent(s, id, p) && Recent(s, id, q) ==> (p.number < q.number <==> p.order < q.order))
    && (forall p, session :: Recent(s, id, p) && session in s.live && s.live[session] == id ==> p.number <= s.counter)
    && (forall p, a :: Recent(s, id, p) && p.number > n.number && Has(n, a) ==> a.payload.order < p.order)
  }

  /** Sent to the node since its last redial. */
  predicate Recent(s: State, id: Id, p: Payload)
    requires id in s.nodes
  {
    p in s.sent && p.node == id && p.order > s.nodes[id].openedAt
  }

  /** One of the payloads the node has, its bookkeeping aside. */
  predicate Has(n: Node, a: Admitted) { a == n.held || a in n.admitted }

  /** Every payload of `m` is one of `n`. */
  ghost predicate FromOld(n: Node, m: Node) {
    forall a :: Has(m, a) ==> exists b :: Has(n, b) && b.ticket == a.ticket && b.payload == a.payload
  }

  lemma HandledFromOld(n: Node, i: nat)
    requires i < |n.admitted|
    ensures FromOld(n, n.Replace(i)) && FromOld(n, n.Abandon(i))
  {
    WithoutIn(n, i);
    var m := n.Replace(i);
    forall a | Has(m, a) ensures exists b :: Has(n, b) && b.ticket == a.ticket && b.payload == a.payload {
      if a in m.admitted {
        var k :| 0 <= k < |m.admitted| && m.admitted[k] == a;
        var b := n.Without(i)[k];
        assert b in n.admitted;
        assert Has(n, b) && b.ticket == a.ticket && b.payload == a.payload;
      } else {
        assert Has(n, n.admitted[i]);
      }
    }
    forall a | Has(n.Abandon(i), a) ensures Has(n, a) { }
  }

  lemma OldFresh(s: State, t: State, id: Id)
    requires id in s.nodes && id in t.nodes && Fresh(s, id) && FromOld(s.nodes[id], t.nodes[id])
    requires t.sent == s.sent && t.pushes == s.pushes && t.live == s.live && t.counter == s.counter
    requires t.nodes[id].openedAt == s.nodes[id].openedAt && t.nodes[id].number == s.nodes[id].number
    ensures Fresh(t, id)
  {
    var n, m := s.nodes[id], t.nodes[id];
    forall p | Recent(t, id, p) ensures Recent(s, id, p) { }
    forall p, a | Recent(t, id, p) && p.number > m.number && Has(m, a) ensures a.payload.order < p.order {
      var b :| Has(n, b) && b.ticket == a.ticket && b.payload == a.payload;
    }
  }

  lemma AdmitFresh(s: State, id: Id, p: Payload)
    requires Inv(s) && Enabled(s, Admit(id, p)) && Fresh(s, id)
    ensures Fresh(Next(s, Admit(id, p)), id)
  {
    var n, t := s.nodes[id], Next(s, Admit(id, p));
    var m := t.nodes[id];
    forall q | Recent(t, id, q) ensures Recent(s, id, q) { }
    forall q, a | Recent(t, id, q) && q.number > m.number && Has(m, a) ensures a.payload.order < q.order {
      if !n.Refuses(p) {
        assert SentFits(s, p);
        if Has(n, a) {
          assert q.number > n.number;
        } else {
          assert a == n.Admission(p);
          assert Recent(s, id, p) || p.order <= n.openedAt;
        }
      }
    }
  }

  lemma PushFresh(s: State, session: nat, id: Id)
    requires Inv(s) && session in s.live && id in s.nodes && Fresh(s, id)
    ensures Fresh(Next(s, Push(session)), id)
  {
    var n, t, last := s.nodes[id], Next(s, Push(session)), Sending(s, session);
    assert NodeFits(s.sent, id, n);
    forall a | Has(n, a) ensures a.payload.order <= s.pushes {
      assert Known(s.sent, id, n, a);
      if a.payload in s.sent { assert SentFits(s, a.payload); }
    }
    forall p | Recent(t, id, p) ensures Recent(s, id, p) || p == last { }
    forall p | Recent(s, id, p) ensures p.order <= s.pushes { assert SentFits(s, p); }
  }

  lemma ConnectFresh(s: State, other: Id, id: Id)
    requires Inv(s) && (id in s.nodes ==> Fresh(s, id)) && id in Next(s, Connect(other)).nodes
    ensures Fresh(Next(s, Connect(other)), id)
  {
    var t := Next(s, Connect(other));
    if other == id {
      forall p | p in s.sent ensures !Recent(t, id, p) { assert SentFits(s, p); }
    } else {
      forall p | Recent(t, id, p) ensures Recent(s, id, p) { }
      assert forall session :: session in t.live && t.live[session] == id ==>
               session in s.live && s.live[session] == id;
    }
  }

  lemma RestFresh(s: State, step: Step, id: Id)
    requires s.history != [] && id in s.nodes && Fresh(s, id)
    requires step.Mutate? || step.Drop? || step.RestartControl?
    ensures Fresh(Next(s, step), id)
  {
    var t := Next(s, step);
    forall p | Recent(t, id, p) ensures Recent(s, id, p) { }
  }

  lemma StepFresh(s: State, step: Step, id: Id)
    requires Inv(s) && Enabled(s, step) && id in s.nodes && Fresh(s, id)
    ensures id in Next(s, step).nodes && Fresh(Next(s, step), id)
  {
    match step
    case Push(session) => PushFresh(s, session, id);
    case Connect(other) => ConnectFresh(s, other, id);
    case Admit(k, p) => if k == id { AdmitFresh(s, id, p); } else { OldFresh(s, Next(s, step), id); }
    case Replace(k, i) =>
      HandledFromOld(s.nodes[k], i);
      OldFresh(s, Next(s, step), id);
    case Abandon(k, i) =>
      HandledFromOld(s.nodes[k], i);
      OldFresh(s, Next(s, step), id);
    case _ => RestFresh(s, step, id);
  }

  // ---- Over every run ---------------------------------------------------------------------------------------

  /** Rows sent later were put in place after the handler's check. */
  predicate Overtaken(a: Admitted) { a.since > a.payload.order }

  /** Rows sent later were in place already. */
  predicate Behind(a: Admitted) { a.heldThen > a.payload.order }

  predicate Timely(s: State, step: Step, id: Id)
    requires Enabled(s, step)
  {
    step.Replace? && step.node == id ==>
      var a := s.nodes[id].admitted[step.index]; !Overtaken(a) && !Behind(a)
  }

  ghost predicate AllTimely(s: State, steps: seq<Step>, id: Id)
    requires Possible(s, steps)
    decreases |steps|
  {
    steps != [] ==> Timely(s, steps[0], id) && AllTimely(Next(s, steps[0]), steps[1..], id)
  }

  /** As long as a node has not moved back: what it holds was held at each handler's check, or put
      in place last since, in rising order. */
  ghost predicate Rising(n: Node) {
    forall i :: 0 <= i < |n.admitted| ==>
      var a := n.admitted[i];
      && a.payload.order >= 1 && a.heldThen <= n.held.payload.order
      && n.held.payload.order == if a.since == 0 then a.heldThen else a.since
  }

  lemma ReplaceRising(n: Node, i: nat)
    requires Rising(n) && i < |n.admitted|
    ensures var a := n.admitted[i];
            && (n.held.payload.order <= n.Replace(i).held.payload.order <==> !Overtaken(a) && !Behind(a))
            && (!Overtaken(a) && !Behind(a) ==> Rising(n.Replace(i)))
    ensures Rising(n.Abandon(i))
  {
    forall k | 0 <= k < |n.Without(i)| ensures n.Without(i)[k] in n.admitted { }
  }

  lemma AdmitRising(n: Node, p: Payload)
    requires Rising(n) && p.order >= 1
    ensures Rising(n.Admit(p)) && n.Admit(p).held == n.held
  {
  }

  lemma StepTimelyIff(s: State, step: Step, id: Id)
    requires Inv(s) && Enabled(s, step) && id in s.nodes && Rising(s.nodes[id])
    ensures id in Next(s, step).nodes
    ensures s.nodes[id].held.payload.order <= Next(s, step).nodes[id].held.payload.order <==> Timely(s, step, id)
    ensures Timely(s, step, id) ==> Rising(Next(s, step).nodes[id])
  {
    match step
    case Admit(k, p) =>
      assert SentFits(s, p);
      AdmitRising(s.nodes[id], p);
    case Replace(k, i) => if k == id { ReplaceRising(s.nodes[id], i); }
    case Abandon(k, i) => if k == id { ReplaceRising(s.nodes[id], i); }
    case _ =>
  }

  /** Main result, over every run (payloads reordered, repeated, lost, failing or late, handlers
      overlapping, redials, restarts of control): a node's rows never move back if and only if no
      handler replaces them after rows sent later were put in place, be it between its check and
      its replacement or before its check. */
  lemma {:induction false} NeverBackIff(s: State, steps: seq<Step>, id: Id)
    requires Inv(s) && Possible(s, steps) && id in s.nodes && Rising(s.nodes[id])
    ensures NeverBack(s, steps, id) <==> AllTimely(s, steps, id)
    decreases |steps|
  {
    if steps != [] {
      StepInv(s, steps[0]);
      StepTimelyIff(s, steps[0], id);
      if Timely(s, steps[0], id) { NeverBackIff(Next(s, steps[0]), steps[1..], id); }
    }
  }

  lemma {:induction false} RunFresh(s: State, steps: seq<Step>, id: Id)
    requires Inv(s) && Possible(s, steps) && id in s.nodes && Fresh(s, id)
    ensures Inv(RunFrom(s, steps)) && id in RunFrom(s, steps).nodes && Fresh(RunFrom(s, steps), id)
    decreases |steps|
  {
    if steps != [] {
      StepInv(s, steps[0]);
      StepFresh(s, steps[0], id);
      RunFresh(Next(s, steps[0]), steps[1..], id);
    }
  }

  /** The second kind takes a redial: in every run, a payload that passes the check although rows
      sent later are in place was sent before the node's last redial, and its handler gets to the
      check after it. */
  lemma BehindTakesRedial(s: State, steps: seq<Step>, id: Id, p: Payload)
    requires Inv(s) && Possible(s, steps) && id in s.nodes && Fresh(s, id)
    requires var t := RunFrom(s, steps);
             && Enabled(t, Admit(id, p)) && !t.nodes[id].Refuses(p) && Behind(t.nodes[id].Admission(p))
    ensures id in RunFrom(s, steps).nodes && p.order <= RunFrom(s, steps).nodes[id].openedAt
  {
    RunFresh(s, steps, id);
    var t := RunFrom(s, steps);
    assert SentFits(t, p) && Has(t.nodes[id], t.nodes[id].held);
    assert Recent(t, id, p) <==> p.order > t.nodes[id].openedAt;
  }

  // ---- Without such late handlers: the order of admission ---------------------------------------------------

  /** What is admitted was sent since the node's last redial. */
  predicate OnTime(s: State, step: Step, id: Id)
    requires Enabled(s, step)
  {
    step.Admit? && step.node == id ==> step.payload.order > s.nodes[id].openedAt
  }

  ghost predicate AllOnTime(s: State, steps: seq<Step>, id: Id)
    requires Possible(s, steps)
    decreases |steps|
  {
    steps != [] ==> OnTime(s, steps[0], id) && AllOnTime(Next(s, steps[0]), steps[1..], id)
  }

  /** No handler replaces what was admitted after its own payload. */
  predicate Orderly(s: State, step: Step, id: Id)
    requires Enabled(s, step)
  {
    step.Replace? && step.node == id ==> s.nodes[id].held.ticket <= s.nodes[id].admitted[step.index].ticket
  }

  ghost predicate AllOrderly(s: State, steps: seq<Step>, id: Id)
    requires Possible(s, steps)
    decreases |steps|
  {
    steps != [] ==> Orderly(s, steps[0], id) && AllOrderly(Next(s, steps[0]), steps[1..], id)
  }

  predicate SameOrder(a: Admitted, b: Admitted) { a.ticket < b.ticket <==> a.payload.order < b.payload.order }

  /** The tickets follow the order of sending. */
  ghost predicate Aligned(n: Node) { forall a, b :: Has(n, a) && Has(n, b) ==> SameOrder(a, b) }

  lemma AdmitAligned(s: State, id: Id, p: Payload)
    requires Inv(s) && Enabled(s, Admit(id, p)) && Fresh(s, id) && Aligned(s.nodes[id])
    requires p.order > s.nodes[id].openedAt
    ensures Aligned(s.nodes[id].Admit(p))
  {
    var n := s.nodes[id];
    assert NodeFits(s.sent, id, n) && SentFits(s, p) && Recent(s, id, p);
    if !n.Refuses(p) {
      var m, last := n.Admit(p), n.Admission(p);
      forall a | Has(m, a) && a != last ensures Has(n, a) && a.payload.order < p.order && a.ticket < last.ticket {
        assert a == n.held || a in n.admitted;
        assert Known(s.sent, id, n, a);
      }
    }
  }

  lemma OldAligned(n: Node, m: Node)
    requires Aligned(n) && FromOld(n, m)
    ensures Aligned(m)
  {
    forall a, b | Has(m, a) && Has(m, b) ensures SameOrder(a, b) {
      var x :| Has(n, x) && x.ticket == a.ticket && x.payload == a.payload;
      var y :| Has(n, y) && y.ticket == b.ticket && y.payload == b.payload;
      assert SameOrder(x, y);
    }
  }

  lemma HandledAligned(n: Node, i: nat)
    requires Aligned(n) && i < |n.admitted|
    ensures Aligned(n.Replace(i)) && Aligned(n.Abandon(i))
  {
    HandledFromOld(n, i);
    OldAligned(n, n.Replace(i));
    OldAligned(n, n.Abandon(i));
  }

  lemma RedialAligned(n: Node, at: nat)
    requires Aligned(n)
    ensures Aligned(n.(openedAt := at, number := 0))
  {
    var m := n.(openedAt := at, number := 0);
    forall a | Has(m, a) ensures Has(n, a) { }
  }

  lemma StepAligned(s: State, step: Step, id: Id)
    requires Inv(s) && Enabled(s, step) && id in s.nodes && Fresh(s, id) && Aligned(s.nodes[id]) && OnTime(s, step, id)
    ensures id in Next(s, step).nodes && Aligned(Next(s, step).nodes[id])
  {
    var n := s.nodes[id];
    var m := Next(s, step).nodes[id];
    match step
    case Admit(k, p) => if k == id { AdmitAligned(s, id, p); }
    case Replace(k, i) => if k == id { HandledAligned(n, i); assert m == n.Replace(i); }
    case Abandon(k, i) => if k == id { HandledAligned(n, i); assert m == n.Abandon(i); }
    case Connect(k) => if k == id { RedialAligned(n, s.pushes); }
    case _ => assert m == n;
  }

  lemma StepOrderlyIff(s: State, step: Step, id: Id)
    requires s.history != [] && Enabled(s, step) && id in s.nodes && Aligned(s.nodes[id])
    ensures id in Next(s, step).nodes
    ensures s.nodes[id].held.payload.order <= Next(s, step).nodes[id].held.payload.order <==> Orderly(s, step, id)
  {
    if step.Replace? && step.node == id {
      var n := s.nodes[id];
      assert Has(n, n.held) && Has(n, n.admitted[step.index]);
      assert SameOrder(n.admitted[step.index], n.held);
    }
  }

  /** Over every run in which no redial falls between the sending of a payload and its admission:
      a node's rows never move back if and only if they are replaced in the order of admission. */
  lemma {:induction false} InOrderIff(s: State, steps: seq<Step>, id: Id)
    requires Inv(s) && Possible(s, steps) && id in s.nodes && Fresh(s, id) && Aligned(s.nodes[id])
    requires AllOnTime(s, steps, id)
    ensures NeverBack(s, steps, id) <==> AllOrderly(s, steps, id)
    decreases |steps|
  {
    if steps != [] {
      StepInv(s, steps[0]);
      StepFresh(s, steps[0], id);
      StepAligned(s, steps[0], id);
      StepOrderlyIff(s, steps[0], id);
      InOrderIff(Next(s, steps[0]), steps[1..], id);
    }
  }

  /** A node that connects for the first time is a start for all of these. */
  lemma FirstConnect(s: State, id: Id)
    requires Inv(s) && id !in s.nodes
    ensures var t := Next(s, Connect(id));
            Inv(t) && id in t.nodes && Fresh(t, id) && Aligned(t.nodes[id]) && Rising(t.nodes[id])
  {
    StepInv(s, Connect(id));
    ConnectFresh(s, id, id);
  }

  lemma HeldIsSlice(s: State, id: Id)
    requires Inv(s) && id in s.nodes
    ensures var p := s.nodes[id].held.payload;
            p.version < |s.history| && p.rows == Slice(s.history[p.version], id)
  {
    var a := s.nodes[id].held;
    assert NodeFits(s.sent, id, s.nodes[id]) && Known(s.sent, id, s.nodes[id], a);
    if a.payload in s.sent { assert SentFits(s, a.payload); }
  }

  lemma StepNewer(s: State, step: Step, id: Id)
    requires Inv(s) && Enabled(s, step) && id in s.nodes && id in Next(s, step).nodes
    requires s.nodes[id].held.payload.order <= Next(s, step).nodes[id].held.payload.order
    ensures s.nodes[id].held.payload.version <= Next(s, step).nodes[id].held.payload.version
    ensures s.history <= Next(s, step).history
  {
    var n := s.nodes[id];
    if step.Replace? && step.node == id {
      var a, b := n.held, n.admitted[step.index];
      assert NodeFits(s.sent, id, n) && b in n.admitted;
      assert Known(s.sent, id, n, a) && Known(s.sent, id, n, b);
      if a.payload in s.sent && b.payload in s.sent { assert InOrder(a.payload, b.payload); }
      if b.payload !in s.sent { assert b.ticket >= 1; }
    }
  }

  /** In a run in which they do not move back, a node's rows are always its slice of the registry
      as it was at some moment, and that moment never moves back. */
  lemma {:induction false} NodeNeverMovesBack(s: State, steps: seq<Step>, id: Id)
    requires Inv(s) && Possible(s, steps) && id in s.nodes && NeverBack(s, steps, id)
    ensures var t := RunFrom(s, steps);
            && id in t.nodes && s.history <= t.history
            && var p := t.nodes[id].held.payload;
               && s.nodes[id].held.payload.version <= p.version < |t.history|
               && p.rows == Slice(t.history[p.version], id)
    decreases |steps|
  {
    HeldIsSlice(s, id);
    if steps != [] {
      StepInv(s, steps[0]);
      StepNewer(s, steps[0], id);
      NodeNeverMovesBack(Next(s, steps[0]), steps[1..], id);
    }
  }

  /** Once a node has applied any payload built after the last mutation it equals its slice of
      the registry, and in a run in which its rows do not move back nothing that arrives later
      changes that. */
  lemma CurrentStays(s: State, steps: seq<Step>, id: Id)
    requires Inv(s) && Possible(s, steps) && id in s.nodes && NeverBack(s, steps, id)
    requires s.nodes[id].held.payload.version == s.Version()
    requires forall i :: 0 <= i < |steps| ==> !steps[i].Mutate?
    ensures var t := RunFrom(s, steps);
            id in t.nodes && t.nodes[id].held.payload.rows == Slice(s.history[s.Version()], id)
  {
    NodeNeverMovesBack(s, steps, id);
    HistoryKept(s, steps);
  }

  lemma {:induction false} HistoryKept(s: State, steps: seq<Step>)
    requires Possible(s, steps) && forall i :: 0 <= i < |steps| ==> !steps[i].Mutate?
    ensures RunFrom(s, steps).history == s.history
    decreases |steps|
  {
    if steps != [] {
      assert !steps[0].Mutate?;
      HistoryKept(Next(s, steps[0]), steps[1..]);
    }
  }

  // ---- One sync at a time --------------------------------------------------------------------------------

  /** Nothing is admitted while another payload of the node waits to be replaced. */
  predicate Alone(s: State, step: Step, id: Id)
    requires Enabled(s, step)
  {
    step.Admit? && step.node == id ==> s.nodes[id].admitted == []
  }

  ghost predicate AllAlone(s: State, steps: seq<Step>, id: Id)
    requires Possible(s, steps)
    decreases |steps|
  {
    steps != [] ==> Alone(s, steps[0], id) && AllAlone(Next(s, steps[0]), steps[1..], id)
  }

  predicate OneWaits(n: Node) {
    n.held.ticket <= n.tickets && |n.admitted| <= 1 && (n.admitted != [] ==> n.admitted[0].ticket == n.tickets)
  }

  lemma AloneStep(s: State, step: Step, id: Id)
    requires s.history != [] && Enabled(s, step) && id in s.nodes && OneWaits(s.nodes[id]) && Alone(s, step, id)
    ensures Orderly(s, step, id) && id in Next(s, step).nodes && OneWaits(Next(s, step).nodes[id])
  {
  }

  /** One at a time, payloads are replaced in the order of admission. */
  lemma {:induction false} OneAtATimeOrderly(s: State, steps: seq<Step>, id: Id)
    requires Possible(s, steps) && id in s.nodes && OneWaits(s.nodes[id]) && AllAlone(s, steps, id)
    ensures AllOrderly(s, steps, id)
    decreases |steps|
  {
    if steps != [] {
      AloneStep(s, steps[0], id);
      OneAtATimeOrderly(Next(s, steps[0]), steps[1..], id);
    }
  }

  /** So a node that handles one payload at a time, with no redial between sending and admission,
      never moves back. */
  lemma OneAtATimeNeverBack(s: State, steps: seq<Step>, id: Id)
    requires Inv(s) && Possible(s, steps) && id in s.nodes && Fresh(s, id) && Aligned(s.nodes[id])
    requires OneWaits(s.nodes[id]) && AllOnTime(s, steps, id) && AllAlone(s, steps, id)
    ensures NeverBack(s, steps, id)
  {
    OneAtATimeOrderly(s, steps, id);
    InOrderIff(s, steps, id);
  }

  /** The handler's two steps, alone, are the keep-the-highest rule. */
  lemma AloneIsSync(n: Node, p: Payload)
    requires n.admitted == []
    ensures |n.Admit(p).admitted| <= 1
    ensures (if n.Admit(p).admitted == [] then n.Admit(p) else n.Admit(p).Replace(0)) == n.Sync(p)
  {
    if !n.Refuses(p) {
      var a := n.Admission(p);
      assert n.Admit(p).admitted == [a] && [a][..0] + [a][1..] == [];
    }
  }

  // ---- A push that arrives ---------------------------------------------------------------------------------

  /** A payload sent now, on a connection of the node, and handled alone: it is applied if and only
      if the node has not seen a higher number on its connection, and then the node has its slice of
      the registry as it is. */
  lemma PushAppliesIff(s: State, session: nat, id: Id)
    requires Inv(s) && session in s.live && s.live[session] == id && id in s.nodes
    ensures var p := Sending(s, session);
            && p in Next(s, Push(session)).sent && p.node == id
            && (s.nodes[id].Sync(p).held.payload == p <==> s.nodes[id].number <= s.counter)
            && p.rows == Slice(s.history[s.Version()], id) && p.version == s.Version()
  {
    var n, p := s.nodes[id], Sending(s, session);
    assert NodeFits(s.sent, id, n) && Known(s.sent, id, n, n.held);
    if n.held.payload in s.sent { assert SentFits(s, n.held.payload); }
  }

  /** The number a node remembers is that of a payload sent since its last redial. */
  ghost predicate Remembers(s: State, id: Id)
    requires id in s.nodes
  {
    s.nodes[id].number == 0 || exists p :: Recent(s, id, p) && p.number == s.nodes[id].number
  }

  lemma StepRemembers(s: State, step: Step, id: Id)
    requires Inv(s) && Enabled(s, step) && id in s.nodes && Remembers(s, id) && OnTime(s, step, id)
    ensures id in Next(s, step).nodes && Remembers(Next(s, step), id)
  {
    var t := Next(s, step);
    if s.nodes[id].number != 0 {
      var p :| Recent(s, id, p) && p.number == s.nodes[id].number;
      assert t.nodes[id].openedAt == s.nodes[id].openedAt ==> Recent(t, id, p);
    }
    if step.Admit? && step.node == id {
      assert Recent(t, id, step.payload);
    }
  }

  lemma {:induction false} RunRemembers(s: State, steps: seq<Step>, id: Id)
    requires Inv(s) && Possible(s, steps) && id in s.nodes && Remembers(s, id) && AllOnTime(s, steps, id)
    ensures id in RunFrom(s, steps).nodes && Remembers(RunFrom(s, steps), id)
    decreases |steps|
  {
    if steps != [] {
      StepInv(s, steps[0]);
      StepRemembers(s, steps[0], id);
      RunRemembers(Next(s, steps[0]), steps[1..], id);
    }
  }

  /** After every run without a redial between sending and admission that is so: a push over a live
      connection, handled alone, brings the node to its slice of the registry. */
  lemma OnTimePushApplies(s: State, steps: seq<Step>, session: nat, id: Id)
    requires Inv(s) && Possible(s, steps) && id in s.nodes && Fresh(s, id) && Remembers(s, id)
    requires AllOnTime(s, steps, id)
    requires var t := RunFrom(s, steps); session in t.live && t.live[session] == id
    ensures var t := RunFrom(s, steps);
            && t.history != [] && id in t.nodes
            && t.nodes[id].Sync(Sending(t, session)).held.payload.rows == Slice(t.history[t.Version()], id)
  {
    RunFresh(s, steps, id);
    RunRemembers(s, steps, id);
    var t := RunFrom(s, steps);
    if t.nodes[id].number != 0 {
      var p :| Recent(t, id, p) && p.number == t.nodes[id].number;
      assert p.number <= t.counter;
    }
    PushAppliesIff(t, session, id);
  }

  /** A payload that could not be put in place is gone, and its number stays. */
  lemma AbandonedIsGone(n: Node, i: nat)
    requires i < |n.admitted|
    ensures var m := n.Abandon(i);
            && m.held == n.held && m.number == n.number && |m.admitted| == |n.admitted| - 1
            && multiset(m.admitted) == multiset(n.admitted) - multiset{n.admitted[i]}
  {
    assert n.admitted == n.admitted[..i] + ([n.admitted[i]] + n.admitted[i + 1..]);
  }

  // ---- Runs that move back ---------------------------------------------------------------------------------

  lemma {:induction false} RunConcat(s: State, a: seq<Step>, b: seq<Step>)
    requires Possible(s, a) && Possible(RunFrom(s, a), b)
    ensures Possible(s, a + b) && RunFrom(s, a + b) == RunFrom(RunFrom(s, a), b)
    decreases |a|
  {
    if a == [] {
      assert a + b == b;
    } else {
      assert (a + b)[1..] == a[1..] + b;
      RunConcat(Next(s, a[0]), a[1..], b);
    }
  }

  lemma RunFour(s: State, a: Step, b: Step, c: Step, d: Step)
    requires s.history != [] && Enabled(s, a) && Next(s, a).history != [] && Enabled(Next(s, a), b)
    requires Next(Next(s, a), b).history != [] && Enabled(Next(Next(s, a), b), c)
    requires var u := Next(Next(Next(s, a), b), c); u.history != [] && Enabled(u, d) && Next(u, d).history != []
    ensures Possible(s, [a, b, c, d]) && RunFrom(s, [a, b, c, d]) == Next(Next(Next(Next(s, a), b), c), d)
  {
    var t, u := Next(s, a), Next(Next(s, a), b);
    var v := Next(u, c);
    var w := Next(v, d);
    assert [a, b, c, d][1..] == [b, c, d] && [b, c, d][1..] == [c, d] && [c, d][1..] == [d] && [d][1..] == [];
    assert Possible(w, []) && RunFrom(w, []) == w;
    assert Possible(v, [d]) && RunFrom(v, [d]) == w;
    assert Possible(u, [c, d]) && RunFrom(u, [c, d]) == w;
    assert Possible(t, [b, c, d]) && RunFrom(t, [b, c, d]) == w;
  }

  function Older(id: Id): Payload { Payload(id, 1, 1, 1, 0, []) }

  function Newer(id: Id, apps: seq<AppRow>): Payload { Payload(id, 1, 2, 2, 1, Slice(apps, id)) }

  /** A node connects and is sent its rows before and after a mutation. */
  function TwoSent(id: Id, apps: seq<AppRow>): seq<Step> { [Connect(id), Push(1), Mutate(apps), Push(1)] }

  lemma TwoSentRun(id: Id, apps: seq<AppRow>)
    ensures Possible(Initial(), TwoSent(id, apps))
    ensures RunFrom(Initial(), TwoSent(id, apps)) ==
            State([[], apps], 2, 2, map[1 := id], 2, {Older(id), Newer(id, apps)},
                  map[id := Node(0, 0, 0, Nothing(id), [])])
  {
    var s1 := Next(Initial(), Connect(id));
    assert s1 == State([[]], 0, 0, map[1 := id], 2, {}, map[id := Node(0, 0, 0, Nothing(id), [])]);
    var s2 := Next(s1, Push(1));
    assert s2.sent == {Older(id)};
    var s3 := Next(s2, Mutate(apps));
    assert s3.history == [[], apps];
    var s4 := Next(s3, Push(1));
    assert s4.sent == {Older(id), Newer(id, apps)};
    RunFour(Initial(), Connect(id), Push(1), Mutate(apps), Push(1));
  }

  function NewerFirst(id: Id, apps: seq<AppRow>): seq<Step> {
    [Admit(id, Older(id)), Admit(id, Newer(id, apps)), Replace(id, 1), Replace(id, 0)]
  }

  function Late(id: Id, apps: seq<AppRow>): seq<Step> {
    [Admit(id, Newer(id, apps)), Replace(id, 0), Connect(id), Admit(id, Older(id))]
  }

  lemma OvertakenNode(n: Node, id: Id, apps: seq<AppRow>)
    requires n.number == 0 && n.tickets == 0 && n.admitted == []
    ensures var h := n.Admit(Older(id)).Admit(Newer(id, apps));
            && |h.admitted| == 2 && |h.Replace(1).admitted| == 1
            && h.Replace(1).Replace(0) == Node(n.openedAt, 2, 2, Admitted(1, Older(id), n.held.payload.order, 2), [])
  {
    var order := n.held.payload.order;
    var a, b := Admitted(1, Older(id), order, 0), Admitted(2, Newer(id, apps), order, 0);
    var later := a.(since := 2);
    var h := n.Admit(Older(id)).Admit(Newer(id, apps));
    assert h.admitted == [a, b];
    assert [a, b][..1] + [a, b][2..] == [a];
    assert h.Replace(1).admitted == [later];
    assert [later][..0] + [later][1..] == [];
  }

  /** Two handlers that overlap leave the older rows under the newer number, and sending the newer
      payload again then changes nothing. */
  lemma OverlappingSyncsKeepOlder(id: Id, apps: seq<AppRow>)
    ensures Possible(Initial(), TwoSent(id, apps) + NewerFirst(id, apps))
    ensures var s := RunFrom(Initial(), TwoSent(id, apps) + NewerFirst(id, apps));
            && id in s.nodes && s.history == [[], apps]
            && s.nodes[id].held.payload == Older(id) && s.nodes[id].held.payload.rows == []
            && s.nodes[id].Admit(Newer(id, apps)) == s.nodes[id]
  {
    TwoSentRun(id, apps);
    var s := RunFrom(Initial(), TwoSent(id, apps));
    OvertakenNode(s.nodes[id], id, apps);
    RunFour(s, Admit(id, Older(id)), Admit(id, Newer(id, apps)), Replace(id, 1), Replace(id, 0));
    RunConcat(Initial(), TwoSent(id, apps), NewerFirst(id, apps));
  }

  /** So does a handler of an old connection that admits its payload after the redial has reset the
      number. */
  lemma LateHandlerKeepsOlder(id: Id, apps: seq<AppRow>)
    ensures Possible(Initial(), TwoSent(id, apps) + Late(id, apps))
    ensures var s := RunFrom(Initial(), TwoSent(id, apps) + Late(id, apps));
            && id in s.nodes && s.history == [[], apps]
            && s.nodes[id].held.payload == Newer(id, apps) && |s.nodes[id].admitted| == 1
            && s.nodes[id].Replace(0).held.payload == Older(id)
  {
    TwoSentRun(id, apps);
    var s := RunFrom(Initial(), TwoSent(id, apps));
    var b := Admitted(1, Newer(id, apps), 0, 0);
    var s1 := Next(s, Admit(id, Newer(id, apps)));
    assert s1.nodes[id].admitted == [b] && [b][..0] + [b][1..] == [];
    var s2 := Next(s1, Replace(id, 0));
    assert s2.nodes[id] == Node(0, 2, 1, b, []);
    RunFour(s, Admit(id, Newer(id, apps)), Replace(id, 0), Connect(id), Admit(id, Older(id)));
    RunConcat(Initial(), TwoSent(id, apps), Late(id, apps));
  }
}
