/** Port allocation (control/manager.go): a rotating scan over the range, in-memory
    reservations while an app is being created or torn down, and a persisted rotation
    point. `create` and `DeleteApp` run concurrently; a restart forgets the reservations. */
module Ports {
  import opened Transcript

  const PORT_MIN := 10000
  const PORT_MAX := 19999
  const SPAN := PORT_MAX - PORT_MIN + 1

  type Port = int

  predicate InRange(p: Port) { PORT_MIN <= p <= PORT_MAX }

  // ---- The scan --------------------------------------------------------------------------

  /** Where a scan starts: the rotation point, or the bottom of the range if it has run off. */
  function Normal(next: int): (p: Port)
    ensures InRange(p)
  {
    if InRange(next) then next else PORT_MIN
  }

  /** How far `p` is ahead of `from`, going round. */
  function Ahead(from: Port, p: Port): (d: nat)
    requires InRange(from) && InRange(p)
    ensures d < SPAN
  {
    if p >= from then p - from else p - from + SPAN
  }

  /** The port `i` places ahead of `from`, as the source computes it. */
  function PortAt(from: Port, i: nat): (p: Port)
    requires InRange(from) && i < SPAN
    ensures InRange(p) && Ahead(from, p) == i
  {
    PORT_MIN + (from - PORT_MIN + i) % SPAN
  }

  /** `p` is what a scan from `from` finds: it is free, and nothing before it is. */
  ghost predicate FirstFree(from: Port, busy: set<Port>, p: Port) {
    && InRange(from) && InRange(p) && p !in busy
    && forall q :: InRange(q) && q !in busy ==> Ahead(from, p) <= Ahead(from, q)
  }

  ghost predicate AllBusy(busy: set<Port>) { forall q :: InRange(q) ==> q in busy }

  /** The memory and the stored rotation point of one manager process. */
  class PortAllocator {
    var nextPort: int
    var reservedPorts: set<Port>
    var stored: int

    constructor (stored: int)
      ensures nextPort == stored == this.stored && reservedPorts == {}
    {
      nextPort, reservedPorts, this.stored := stored, {}, stored;
    }

    /** The next free port in rotation; it fails exactly when every port is busy. `persists`
        says whether the new rotation point reached the store. */
    method AllocatePort(used: seq<Port>, persists: bool) returns (port: Option<Port>)
      modifies this
      ensures var busy := (set p | p in used) + old(reservedPorts);
              match port
              case None => AllBusy(busy) && reservedPorts == old(reservedPorts)
                           && nextPort == Normal(old(nextPort)) && stored == old(stored)
              case Some(p) => FirstFree(Normal(old(nextPort)), busy, p)
                              && reservedPorts == old(reservedPorts) + {p} && nextPort == p + 1
                              && stored == if persists then p + 1 else old(stored)
    {
      if nextPort < PORT_MIN || nextPort > PORT_MAX { nextPort := PORT_MIN; }
      ghost var from := nextPort;
      for i := 0 to SPAN
        invariant nextPort == from == Normal(old(nextPort))
        invariant reservedPorts == old(reservedPorts) && stored == old(stored)
        invariant forall q :: InRange(q) && Ahead(from, q) < i ==> q in used || q in reservedPorts
      {
        var p := PortAt(nextPort, i);
        if p !in used && p !in reservedPorts {
          reservedPorts := reservedPorts + {p};
          nextPort := p + 1;
          if persists { stored := nextPort; }
          return Some(p);
        }
        forall q | InRange(q) && Ahead(from, q) < i + 1 ensures q in used || q in reservedPorts {
          if Ahead(from, q) == i { SamePlace(from, p, q); }
        }
      }
      return None;
    }

    method ReleasePort(port: Port)
      modifies this`reservedPorts
      ensures reservedPorts == old(reservedPorts) - {port}
    {
      reservedPorts := reservedPorts - {port};
    }
  }

  lemma SamePlace(from: Port, p: Port, q: Port)
    requires InRange(from) && InRange(p) && InRange(q) && Ahead(from, p) == Ahead(from, q)
    ensures p == q
  {
  }

  // ---- The life of an app's port ---------------------------------------------------------------

  /** A delete removes the row, then reserves the port, then tears the app down. `released`: the
      app's own create returned during the teardown, and its release ended the reservation. */
  datatype Deleting = No | Removed | Tearing(released: bool) | Done

  /** `row`: registered; `creating`: its create has not returned. */
  datatype Holder = Holder(port: Port, row: bool, creating: bool, deleting: Deleting)

  /** The app holds its port: it is registered, being created, or being deleted. */
  predicate Alive(h: Holder) { h.row || h.creating || h.deleting.Removed? || h.deleting.Tearing? }

  /** Its port is among the reserved ones. */
  predicate Reserves(h: Holder) { if h.creating then !h.deleting.Done? else h.deleting == Tearing(false) }

  /** An allocation that has read the rows and does not hold the lock yet; `since` are the apps
      registered after that. */
  datatype Read = Read(used: set<Port>, since: set<nat>)

  datatype State = State(holders: seq<Holder>, views: seq<Read>, reserved: set<Port>, next: int, stored: int)

  function UsedPorts(holders: seq<Holder>): set<Port> {
    set h | h in holders && h.row :: h.port
  }

  datatype Step =
    | ReadRows
    | Allocate(read: nat, port: Option<Port>, persists: bool) // under the lock
    | AddRow(app: nat)
    | TakeRowBack(app: nat)                                   // a create that fails later on
    | CreateReturns(app: nat)
    | DeleteRow(app: nat)
    | DeleteReserve(app: nat)
    | TeardownEnds(app: nat)
    | Restart

  /** What `allocatePort` answers, given the rows it saw. */
  ghost predicate Answers(s: State, used: set<Port>, port: Option<Port>) {
    match port
    case None => AllBusy(used + s.reserved)
    case Some(p) => FirstFree(Normal(s.next), used + s.reserved, p)
  }

  function Without(views: seq<Read>, i: nat): seq<Read>
    requires i < |views|
  {
    views[..i] + views[i + 1..]
  }

  function Granted(s: State, port: Option<Port>, persists: bool): State {
    match port
    case None => s.(next := Normal(s.next))
    case Some(p) => State(s.holders + [Holder(p, false, true, No)], s.views, s.reserved + {p},
                          p + 1, if persists then p + 1 else s.stored)
  }

  function Noted(views: seq<Read>, app: nat): seq<Read> {
    seq(|views|, i requires 0 <= i < |views| => views[i].(since := views[i].since + {app}))
  }

  /** A port of a row is unique in the table. */
  ghost predicate Enabled(s: State, step: Step) {
    match step
    case ReadRows => true
    case Allocate(r, port, _) => r < |s.views| && Answers(s, s.views[r].used, port)
    case AddRow(app) =>
      && app < |s.holders| && s.holders[app].creating && !s.holders[app].row && s.holders[app].deleting.No?
      && s.holders[app].port !in UsedPorts(s.holders)
    case TakeRowBack(app) => app < |s.holders| && s.holders[app].creating && s.holders[app].row
    case CreateReturns(app) => app < |s.holders| && s.holders[app].creating
    case DeleteRow(app) => app < |s.holders| && s.holders[app].row && s.holders[app].deleting.No?
    case DeleteReserve(app) => app < |s.holders| && s.holders[app].deleting.Removed?
    case TeardownEnds(app) => app < |s.holders| && s.holders[app].deleting.Tearing?
    case Restart => true
  }

  /** The steps of one app: what becomes of it, and of the reservation of its port. */
  function Moved(h: Holder, step: Step): Holder {
    match step
    case AddRow(_) => h.(row := true)
    case TakeRowBack(_) => h.(row := false)
    case CreateReturns(_) =>
      h.(creating := false, deleting := if h.deleting.Tearing? then Tearing(true) else h.deleting)
    case DeleteRow(_) => h.(row := false, deleting := Removed)
    case DeleteReserve(_) => h.(deleting := Tearing(false))
    case TeardownEnds(_) => h.(deleting := Done)
    case _ => h
  }

  function Reserving(reserved: set<Port>, p: Port, step: Step): set<Port> {
    match step
    case CreateReturns(_) => reserved - {p}
    case DeleteReserve(_) => reserved + {p}
    case TeardownEnds(_) => reserved - {p}
    case _ => reserved
  }

  predicate OfApp(step: Step) { !step.ReadRows? && !step.Allocate? && !step.Restart? }

  function Restarted(h: Holder): Holder { Holder(h.port, h.row, false, if h.row then No else Done) }

  function Next(s: State, step: Step): State
    requires Enabled(s, step)
  {
    match step
    case ReadRows => s.(views := s.views + [Read(UsedPorts(s.holders), {})])
    case Allocate(r, port, persists) => Granted(s.(views := Without(s.views, r)), port, persists)
    case Restart =>
      State(seq(|s.holders|, i requires 0 <= i < |s.holders| => Restarted(s.holders[i])), [], {}, s.stored, s.stored)
    case _ =>
      s.(holders := s.holders[step.app := Moved(s.holders[step.app], step)],
         views := if step.AddRow? then Noted(s.views, step.app) else s.views,
         reserved := Reserving(s.reserved, s.holders[step.app].port, step))
  }

  ghost predicate Possible(s: State, steps: seq<Step>)
    decreases |steps|
  {
    steps != [] ==> Enabled(s, steps[0]) && Possible(Next(s, steps[0]), steps[1..])
  }

  ghost function RunFrom(s: State, steps: seq<Step>): State
    requires Possible(s, steps)
    decreases |steps|
  {
    if steps == [] then s else RunFrom(Next(s, steps[0]), steps[1..])
  }

  function Fresh(stored: int): State { State([], [], {}, stored, stored) }

  // ---- When a grant shares a port --------------------------------------------------------------

  /** No two apps hold the same port. */
  ghost predicate Unique(s: State) {
    forall i, j :: 0 <= i < j < |s.holders| && Alive(s.holders[i]) && Alive(s.holders[j]) ==>
      s.holders[i].port != s.holders[j].port
  }

  predicate Sound(h: Holder) {
    (h.row ==> h.deleting.No?) && (h.creating ==> h.deleting != Tearing(true))
  }

  ghost predicate ReservedBySome(s: State, p: Port) {
    exists i :: 0 <= i < |s.holders| && Reserves(s.holders[i]) && s.holders[i].port == p
  }

  ghost predicate ReadFits(holders: seq<Holder>, r: Read) {
    forall i :: 0 <= i < |holders| && holders[i].row ==> holders[i].port in r.used || i in r.since
  }

  /** While no port is shared, the reserved ports are exactly those of the apps that reserve. */
  ghost predicate Inv(s: State) {
    && Unique(s) && (forall i :: 0 <= i < |s.holders| ==> Sound(s.holders[i]))
    && (forall i :: 0 <= i < |s.holders| && Reserves(s.holders[i]) ==> s.holders[i].port in s.reserved)
    && (forall p :: p in s.reserved ==> ReservedBySome(s, p))
    && (forall r :: r in s.views ==> ReadFits(s.holders, r))
  }

  /** An app that is not protected from an allocation that missed the rows registered since:
      between its row's removal and the reservation; registered and returned in the meantime; or
      being created and deleted at once, one of the two having ended. */
  predicate Exposed(h: Holder, registeredSince: bool) {
    || (h.deleting.Removed? && !h.creating)
    || (h.row && !h.creating && registeredSince)
    || h.deleting == Tearing(true)
    || (h.deleting.Done? && h.creating)
  }

  ghost predicate ExposedHolder(s: State, r: Read, p: Port) {
    exists i :: 0 <= i < |s.holders| && s.holders[i].port == p && Exposed(s.holders[i], i in r.since)
  }

  ghost predicate HeldBySome(s: State, p: Port) {
    exists i :: 0 <= i < |s.holders| && Alive(s.holders[i]) && s.holders[i].port == p
  }

  /** The port that is granted belongs to an app if and only if that app is exposed. */
  lemma GrantSharesIff(s: State, r: nat, p: Port, persists: bool)
    requires Inv(s) && Enabled(s, Allocate(r, Some(p), persists))
    ensures HeldBySome(s, p) <==> ExposedHolder(s, s.views[r], p)
  {
    assert ReadFits(s.holders, s.views[r]);
    if i :| 0 <= i < |s.holders| && Alive(s.holders[i]) && s.holders[i].port == p {
      assert Sound(s.holders[i]) && !Reserves(s.holders[i]);
      assert Exposed(s.holders[i], i in s.views[r].since);
    }
    if i :| 0 <= i < |s.holders| && s.holders[i].port == p && Exposed(s.holders[i], i in s.views[r].since) {
      assert Alive(s.holders[i]);
    }
  }

  /** The step grants an exposed app's port. */
  ghost predicate Shares(s: State, step: Step)
    requires Enabled(s, step)
  {
    step.Allocate? && step.port.Some? && ExposedHolder(s, s.views[step.read], step.port.value)
  }

  lemma KeptBySome(s: State, s': State, p: Port)
    requires ReservedBySome(s, p) && |s.holders| <= |s'.holders|
    requires forall i :: 0 <= i < |s.holders| && s.holders[i].port == p ==>
               s'.holders[i].port == p && (Reserves(s.holders[i]) ==> Reserves(s'.holders[i]))
    ensures ReservedBySome(s', p)
  {
    var i :| 0 <= i < |s.holders| && Reserves(s.holders[i]) && s.holders[i].port == p;
    assert Reserves(s'.holders[i]);
  }

  lemma WithoutIn(views: seq<Read>, i: nat)
    requires i < |views|
    ensures forall r :: r in Without(views, i) ==> r in views
  {
  }

  lemma GrantedShape(s: State, r: nat, p: Port, persists: bool, t: State)
    requires Inv(s) && Enabled(s, Allocate(r, Some(p), persists)) && t == Next(s, Allocate(r, Some(p), persists))
    ensures forall i :: 0 <= i < |t.holders| ==> Sound(t.holders[i])
    ensures forall i :: 0 <= i < |t.holders| && Reserves(t.holders[i]) ==> t.holders[i].port in t.reserved
    ensures forall q :: q in t.reserved ==> ReservedBySome(t, q)
    ensures forall x :: x in t.views ==> ReadFits(t.holders, x)
  {
    forall q | q in t.reserved ensures ReservedBySome(t, q) {
      if q == p {
        assert Reserves(t.holders[|s.holders|]) && t.holders[|s.holders|].port == p;
      } else {
        KeptBySome(s, t, q);
      }
    }
    WithoutIn(s.views, r);
    forall x | x in t.views ensures ReadFits(t.holders, x) { assert ReadFits(s.holders, x); }
  }

  lemma GrantInvIff(s: State, r: nat, p: Port, persists: bool)
    requires Inv(s) && Enabled(s, Allocate(r, Some(p), persists))
    ensures Unique(Next(s, Allocate(r, Some(p), persists))) <==> !ExposedHolder(s, s.views[r], p)
    ensures Unique(Next(s, Allocate(r, Some(p), persists))) ==> Inv(Next(s, Allocate(r, Some(p), persists)))
  {
    var t := Next(s, Allocate(r, Some(p), persists));
    GrantSharesIff(s, r, p, persists);
    GrantedShape(s, r, p, persists, t);
    assert Alive(t.holders[|s.holders|]) && t.holders[|s.holders|].port == p;
    assert forall i :: 0 <= i < |s.holders| ==> t.holders[i] == s.holders[i];
    if i :| 0 <= i < |s.holders| && Alive(s.holders[i]) && s.holders[i].port == p {
      assert t.holders[i].port == t.holders[|s.holders|].port;
    }
  }

  lemma FailInv(s: State, r: nat, persists: bool)
    requires Inv(s) && Enabled(s, Allocate(r, None, persists))
    ensures Inv(Next(s, Allocate(r, None, persists)))
  {
    WithoutIn(s.views, r);
    var t := Next(s, Allocate(r, None, persists));
    forall p | p in t.reserved ensures ReservedBySome(t, p) { KeptBySome(s, t, p); }
  }

  lemma MovedSound(h: Holder, s: State, step: Step)
    requires OfApp(step) && Enabled(s, step) && h == s.holders[step.app] && Sound(h)
    ensures Sound(Moved(h, step)) && Moved(h, step).port == h.port && (Alive(Moved(h, step)) ==> Alive(h))
    ensures Reserves(Moved(h, step)) <==> h.port in Reserving(if Reserves(h) then {h.port} else {}, h.port, step)
  {
  }

  lemma MovedReads(s: State, step: Step)
    requires Inv(s) && OfApp(step) && Enabled(s, step)
    ensures forall r :: r in Next(s, step).views ==> ReadFits(Next(s, step).holders, r)
  {
    var t := Next(s, step);
    forall k | 0 <= k < |t.views| ensures ReadFits(t.holders, t.views[k]) {
      assert s.views[k] in s.views && ReadFits(s.holders, s.views[k]);
    }
  }

  lemma MovedReserved(s: State, step: Step, t: State)
    requires Inv(s) && OfApp(step) && Enabled(s, step) && t == Next(s, step)
    ensures forall i :: 0 <= i < |t.holders| && Reserves(t.holders[i]) ==> t.holders[i].port in t.reserved
    ensures forall p :: p in t.reserved ==> ReservedBySome(t, p)
  {
    var app := step.app;
    var h := s.holders[app];
    MovedSound(h, s, step);
    forall i | 0 <= i < |t.holders| && Reserves(t.holders[i]) ensures t.holders[i].port in t.reserved {
      if i != app && Alive(h) {
        assert i < app || app < i;
        assert Alive(s.holders[i]);
      }
    }
    forall p | p in t.reserved ensures ReservedBySome(t, p) {
      if p == h.port {
        AppReserves(s, step);
      } else {
        KeptBySome(s, t, p);
      }
    }
  }

  lemma AppReserves(s: State, step: Step)
    requires Inv(s) && OfApp(step) && Enabled(s, step)
    requires s.holders[step.app].port in Next(s, step).reserved
    ensures ReservedBySome(Next(s, step), s.holders[step.app].port)
  {
    var t, h := Next(s, step), s.holders[step.app];
    MovedSound(h, s, step);
    if !step.DeleteReserve? {
      assert ReservedBySome(s, h.port);
      var i :| 0 <= i < |s.holders| && Reserves(s.holders[i]) && s.holders[i].port == h.port;
      assert i == step.app || i < step.app || step.app < i;
      assert Alive(s.holders[i]) && Alive(h);
    }
    assert Reserves(t.holders[step.app]);
  }

  lemma MovedInv(s: State, step: Step)
    requires Inv(s) && OfApp(step) && Enabled(s, step)
    ensures Inv(Next(s, step))
  {
    MovedSound(s.holders[step.app], s, step);
    MovedReads(s, step);
    MovedReserved(s, step, Next(s, step));
  }

  lemma ReadInv(s: State)
    requires Inv(s)
    ensures Inv(Next(s, ReadRows))
  {
    var t := Next(s, ReadRows);
    forall i | 0 <= i < |s.holders| && s.holders[i].row ensures s.holders[i].port in UsedPorts(s.holders) {
      assert s.holders[i] in s.holders;
    }
    forall p | p in t.reserved ensures ReservedBySome(t, p) { KeptBySome(s, t, p); }
  }

  /** Every step keeps the ports unique, except a grant of an exposed app's port. */
  lemma StepUniqueIff(s: State, step: Step)
    requires Inv(s) && Enabled(s, step)
    ensures Unique(Next(s, step)) <==> !Shares(s, step)
    ensures Unique(Next(s, step)) ==> Inv(Next(s, step))
  {
    match step
    case ReadRows => ReadInv(s);
    case Allocate(r, Some(p), persists) => GrantInvIff(s, r, p, persists);
    case Allocate(r, None, persists) => FailInv(s, r, persists);
    case Restart =>
    case _ => MovedInv(s, step);
  }

  ghost predicate AlwaysUnique(s: State, steps: seq<Step>)
    requires Possible(s, steps)
    decreases |steps|
  {
    Unique(s) && (steps != [] ==> AlwaysUnique(Next(s, steps[0]), steps[1..]))
  }

  ghost predicate NeverShares(s: State, steps: seq<Step>)
    requires Possible(s, steps)
    decreases |steps|
  {
    steps != [] ==> !Shares(s, steps[0]) && NeverShares(Next(s, steps[0]), steps[1..])
  }

  /** Over every run of creates, failures, deletes, teardowns and restarts, however they
      interleave: no two apps ever hold the same port if and only if no exposed app's port is
      granted. */
  lemma {:induction false} AlwaysUniqueIff(s: State, steps: seq<Step>)
    requires Inv(s) && Possible(s, steps)
    ensures AlwaysUnique(s, steps) <==> NeverShares(s, steps)
    decreases |steps|
  {
    if steps != [] {
      var t := Next(s, steps[0]);
      StepUniqueIff(s, steps[0]);
      if Unique(t) { AlwaysUniqueIff(t, steps[1..]); }
    }
  }

  // ---- Undisturbed allocations and deletes ----------------------------------------------------------

  /** Nothing registers between an allocation's read and its lock, nothing allocates between a
      delete's two writes, and a delete starts after its create has returned. */
  ghost predicate Undisturbed(s: State, step: Step)
    requires Enabled(s, step)
  {
    match step
    case Allocate(r, _, _) =>
      s.views[r].used == UsedPorts(s.holders)
      && forall i :: 0 <= i < |s.holders| ==> !s.holders[i].deleting.Removed?
    case DeleteRow(app) => !s.holders[app].creating
    case _ => true
  }

  ghost predicate AllUndisturbed(s: State, steps: seq<Step>)
    requires Possible(s, steps)
    decreases |steps|
  {
    steps != [] ==> Undisturbed(s, steps[0]) && AllUndisturbed(Next(s, steps[0]), steps[1..])
  }

  /** No app is created and deleted at once. */
  predicate Single(h: Holder) { (h.creating ==> h.deleting.No?) && h.deleting != Tearing(true) }

  ghost predicate AllSingle(s: State) { forall i :: 0 <= i < |s.holders| ==> Single(s.holders[i]) }

  lemma UndisturbedStep(s: State, step: Step)
    requires Inv(s) && AllSingle(s) && Enabled(s, step) && Undisturbed(s, step)
    ensures !Shares(s, step) && AllSingle(Next(s, step))
  {
    if OfApp(step) { assert Single(s.holders[step.app]); }
    if step.Allocate? && step.port.Some? {
      forall i | 0 <= i < |s.holders| && s.holders[i].port == step.port.value
        ensures !Exposed(s.holders[i], i in s.views[step.read].since)
      {
        assert Single(s.holders[i]) && s.holders[i] in s.holders;
      }
    }
  }

  lemma {:induction false} UndisturbedNeverShares(s: State, steps: seq<Step>)
    requires Inv(s) && AllSingle(s) && Possible(s, steps) && AllUndisturbed(s, steps)
    ensures NeverShares(s, steps) && Inv(RunFrom(s, steps)) && AllSingle(RunFrom(s, steps))
    decreases |steps|
  {
    if steps != [] {
      UndisturbedStep(s, steps[0]);
      StepUniqueIff(s, steps[0]);
      UndisturbedNeverShares(Next(s, steps[0]), steps[1..]);
    }
  }

  /** In every such run, no two apps that are registered, being created or being deleted hold
      the same port. */
  lemma PortsUnique(stored: int, steps: seq<Step>)
    requires Possible(Fresh(stored), steps) && AllUndisturbed(Fresh(stored), steps)
    ensures AlwaysUnique(Fresh(stored), steps) && Unique(RunFrom(Fresh(stored), steps))
  {
    UndisturbedNeverShares(Fresh(stored), steps);
    AlwaysUniqueIff(Fresh(stored), steps);
  }

  predicate Covered(h: Holder) { h.row || Reserves(h) }

  ghost predicate CoveredBySome(s: State, p: Port) {
    exists i :: 0 <= i < |s.holders| && Covered(s.holders[i]) && s.holders[i].port == p
  }

  lemma BusyIff(s: State, p: Port)
    requires Inv(s)
    ensures p in UsedPorts(s.holders) + s.reserved <==> CoveredBySome(s, p)
  {
    if p in s.reserved {
      assert ReservedBySome(s, p);
      var i :| 0 <= i < |s.holders| && Reserves(s.holders[i]) && s.holders[i].port == p;
      assert Covered(s.holders[i]);
    } else if p in UsedPorts(s.holders) {
      var h :| h in s.holders && h.row && h.port == p;
      var i :| 0 <= i < |s.holders| && s.holders[i] == h;
      assert Covered(s.holders[i]);
    }
    if i :| 0 <= i < |s.holders| && Covered(s.holders[i]) && s.holders[i].port == p {
      assert s.holders[i] in s.holders;
    }
  }

  /** An allocation that has just read the rows fails exactly when every port of the range
      belongs to an app that is registered or reserves it. */
  lemma FailsIffAllHeld(s: State)
    requires Inv(s)
    ensures Answers(s, UsedPorts(s.holders), None) <==> forall p :: InRange(p) ==> CoveredBySome(s, p)
  {
    forall p ensures p in UsedPorts(s.holders) + s.reserved <==> CoveredBySome(s, p) { BusyIff(s, p); }
  }

  /** Nothing holds the port: no app, no row and no reservation. */
  ghost predicate Available(s: State, p: Port) {
    !HeldBySome(s, p) && p !in UsedPorts(s.holders) && p !in s.reserved
  }

  lemma CoveredIsHeld(s: State, p: Port)
    ensures CoveredBySome(s, p) ==> HeldBySome(s, p)
  {
    if i :| 0 <= i < |s.holders| && Covered(s.holders[i]) && s.holders[i].port == p {
      assert Alive(s.holders[i]);
    }
  }

  lemma NobodyElse(s: State, app: nat)
    requires Inv(s) && app < |s.holders| && !Alive(s.holders[app])
    requires forall i :: 0 <= i < |s.holders| && i != app && Alive(s.holders[i]) ==>
               s.holders[i].port != s.holders[app].port
    ensures Available(s, s.holders[app].port)
  {
    BusyIff(s, s.holders[app].port);
    CoveredIsHeld(s, s.holders[app].port);
  }

  lemma Others(s: State, app: nat)
    requires Inv(s) && app < |s.holders| && Alive(s.holders[app])
    ensures forall i :: 0 <= i < |s.holders| && i != app && Alive(s.holders[i]) ==>
              s.holders[i].port != s.holders[app].port
  {
    forall i | 0 <= i < |s.holders| && i != app && Alive(s.holders[i])
      ensures s.holders[i].port != s.holders[app].port
    {
      assert i < app || app < i;
    }
  }

  /** A create that fails gives its port back, whether it had registered the app or not. */
  lemma FailedCreateFrees(s: State, app: nat)
    requires Inv(s) && app < |s.holders| && s.holders[app].creating && s.holders[app].deleting.No?
    ensures var t := if s.holders[app].row then Next(s, TakeRowBack(app)) else s;
            Enabled(t, CreateReturns(app)) && Available(Next(t, CreateReturns(app)), s.holders[app].port)
  {
    Others(s, app);
    var t := if s.holders[app].row then Next(s, TakeRowBack(app)) else s;
    if s.holders[app].row { StepUniqueIff(s, TakeRowBack(app)); }
    StepUniqueIff(t, CreateReturns(app));
    NobodyElse(Next(t, CreateReturns(app)), app);
  }

  /** One that succeeds leaves the app registered at it, and a delete that runs to its end frees it. */
  lemma DeleteFrees(s: State, app: nat)
    requires Inv(s) && app < |s.holders| && s.holders[app].row && !s.holders[app].creating
    ensures s.holders[app].port in UsedPorts(s.holders)
    ensures var removed := Next(s, DeleteRow(app));
            && Enabled(removed, DeleteReserve(app))
            && var torn := Next(removed, DeleteReserve(app));
               && s.holders[app].port in torn.reserved && Enabled(torn, TeardownEnds(app))
               && Available(Next(torn, TeardownEnds(app)), s.holders[app].port)
  {
    assert s.holders[app] in s.holders && Sound(s.holders[app]);
    Others(s, app);
    var removed := Next(s, DeleteRow(app));
    StepUniqueIff(s, DeleteRow(app));
    var torn := Next(removed, DeleteReserve(app));
    StepUniqueIff(removed, DeleteReserve(app));
    StepUniqueIff(torn, TeardownEnds(app));
    NobodyElse(Next(torn, TeardownEnds(app)), app);
  }

  /** A restart keeps what is registered and forgets the rest. */
  lemma RestartKeepsRows(s: State)
    ensures var t := Next(s, Restart);
            && UsedPorts(t.holders) == UsedPorts(s.holders) && t.reserved == {} && t.views == [] && t.next == s.stored
            && forall i :: 0 <= i < |t.holders| ==> (Alive(t.holders[i]) <==> s.holders[i].row)
  {
    var t := Next(s, Restart);
    forall p ensures p in UsedPorts(t.holders) <==> p in UsedPorts(s.holders) {
      if p in UsedPorts(s.holders) {
        var h :| h in s.holders && h.row && h.port == p;
        var i :| 0 <= i < |s.holders| && s.holders[i] == h;
        assert t.holders[i] in t.holders;
      }
      if p in UsedPorts(t.holders) {
        var h :| h in t.holders && h.row && h.port == p;
        var i :| 0 <= i < |t.holders| && t.holders[i] == h;
        assert s.holders[i] in s.holders;
      }
    }
  }

  // ---- Freed ports lie fallow ---------------------------------------------------------------------

  /** A scan from the rotation point meets `q` before `p`, also after a restart. */
  predicate MeetsFirst(s: State, q: Port, p: Port) {
    && InRange(q) && InRange(p) && Normal(s.stored) == Normal(s.next)
    && Ahead(Normal(s.next), q) < Ahead(Normal(s.next), p)
  }

  /** No row, reservation or pending allocation knows `q`. */
  ghost predicate Free(s: State, q: Port) {
    q !in UsedPorts(s.holders) && q !in s.reserved && forall r :: r in s.views ==> q !in r.used
  }

  ghost predicate StaysFree(s: State, steps: seq<Step>, q: Port)
    requires Possible(s, steps)
    decreases |steps|
  {
    Free(s, q) && (steps != [] ==> StaysFree(Next(s, steps[0]), steps[1..], q))
  }

  predicate Persists(step: Step) { step.Allocate? ==> step.persists }

  lemma JustGranted(s: State, p: Port, q: Port)
    requires InRange(p) && InRange(q) && p != q && s.next == s.stored == p + 1
    ensures MeetsFirst(s, q, p)
  {
  }

  /** While `q` is free the rotation point does not pass it. */
  lemma MeetsFirstStep(s: State, step: Step, q: Port, p: Port)
    requires MeetsFirst(s, q, p) && Enabled(s, step) && Persists(step) && Free(s, q) && Free(Next(s, step), q)
    ensures MeetsFirst(Next(s, step), q, p)
    ensures step.Allocate? ==> step.port != Some(p)
  {
    if step.Allocate? && step.port.Some? {
      var x, from := step.port.value, Normal(s.next);
      assert s.views[step.read] in s.views;
      assert Ahead(from, x) <= Ahead(from, q);
      assert x in Next(s, step).reserved;
      StepPast(from, x, q);
      StepPast(from, x, p);
    }
  }

  lemma StepPast(from: Port, r: Port, x: Port)
    requires InRange(from) && InRange(r) && InRange(x) && r != x && Ahead(from, r) <= Ahead(from, x)
    ensures Ahead(Normal(r + 1), x) == Ahead(from, x) - Ahead(from, r) - 1
  {
    if Ahead(from, r) == Ahead(from, x) { SamePlace(from, r, x); }
  }

  /** For every run after a grant of `p`, restarts included: as long as some other port `q` has
      stayed free since, `p` is not granted again. */
  lemma {:induction false} FallowUntilWrap(s: State, steps: seq<Step>, p: Port, q: Port, k: nat)
    requires MeetsFirst(s, q, p) && Possible(s, steps) && StaysFree(s, steps, q)
    requires forall i :: 0 <= i < |steps| ==> Persists(steps[i])
    requires k < |steps| && steps[k].Allocate?
    ensures steps[k].port != Some(p)
    decreases |steps|
  {
    assert StaysFree(Next(s, steps[0]), steps[1..], q);
    MeetsFirstStep(s, steps[0], q, p);
    if k > 0 { FallowUntilWrap(Next(s, steps[0]), steps[1..], p, q, k - 1); }
  }

  lemma RotationFair(before: State, r: nat, p: Port, q: Port, steps: seq<Step>, k: nat)
    requires Enabled(before, Allocate(r, Some(p), true)) && InRange(q) && q != p
    requires var s := Next(before, Allocate(r, Some(p), true)); Possible(s, steps) && StaysFree(s, steps, q)
    requires forall i :: 0 <= i < |steps| ==> Persists(steps[i])
    requires k < |steps| && steps[k].Allocate?
    ensures steps[k].port != Some(p)
  {
    var s := Next(before, Allocate(r, Some(p), true));
    JustGranted(s, p, q);
    FallowUntilWrap(s, steps, p, q, k);
  }

  // ---- Runs in which a port is shared -----------------------------------------------------------------

  lemma {:induction false} RunConcat(s: State, a: seq<Step>, b: seq<Step>)
    requires Possible(s, a) && Possible(RunFrom(s, a), b)
    ensures Possible(s, a + b) && RunFrom(s, a + b) == RunFrom(RunFrom(s, a), b)
    decreases |a|
  {
    if a == [] {
      assert a + b == b;
    } else {
      assert (a + b)[1..] == a[1..] + b;
      RunConcat(Next(s, a[0]), a[1..], b);
    }
  }

  lemma RunThree(s: State, a: Step, b: Step, c: Step)
    requires Enabled(s, a) && Enabled(Next(s, a), b) && Enabled(Next(Next(s, a), b), c)
    ensures Possible(s, [a, b, c]) && RunFrom(s, [a, b, c]) == Next(Next(Next(s, a), b), c)
  {
    var t, u := Next(s, a), Next(Next(s, a), b);
    var v := Next(u, c);
    assert [a, b, c][1..] == [b, c] && [b, c][1..] == [c] && [c][1..] == [];
    assert Possible(v, []) && RunFrom(v, []) == v;
    assert Possible(u, [c]) && RunFrom(u, [c]) == v;
    assert Possible(t, [b, c]) && RunFrom(t, [b, c]) == v;
  }

  /** `n` creates, the first of them app number `app`, that get the ports from `from` on and fail:
      they move the rotation point. */
  function Failing(app: nat, from: Port, n: nat, views: nat): seq<Step>
    decreases n
  {
    if n == 0 then []
    else [ReadRows, Allocate(views, Some(from), true), CreateReturns(app)] + Failing(app + 1, from + 1, n - 1, views)
  }

  lemma UsedSnoc(holders: seq<Holder>, h: Holder)
    requires !h.row
    ensures UsedPorts(holders + [h]) == UsedPorts(holders)
  {
    forall p ensures p in UsedPorts(holders + [h]) <==> p in UsedPorts(holders) {
      if p in UsedPorts(holders) {
        var x :| x in holders && x.row && x.port == p;
        assert x in holders + [h];
      }
    }
  }

  lemma OneFails(s: State, from: Port)
    requires s.next == from && InRange(from) && from !in UsedPorts(s.holders) && from !in s.reserved
    ensures var steps := [ReadRows, Allocate(|s.views|, Some(from), true), CreateReturns(|s.holders|)];
            && Possible(s, steps)
            && RunFrom(s, steps) == State(s.holders + [Holder(from, false, false, No)], s.views, s.reserved,
                                          from + 1, from + 1)
  {
    var grant, done := Allocate(|s.views|, Some(from), true), CreateReturns(|s.holders|);
    var s1 := Next(s, ReadRows);
    var s2 := Next(s1, grant);
    assert s2.views == s.views;
    assert s2.holders == s.holders + [Holder(from, false, true, No)];
    var s3 := Next(s2, done);
    assert s3.reserved == s.reserved;
    assert s3.holders == s.holders + [Holder(from, false, false, No)];
    RunThree(s, ReadRows, grant, done);
  }

  lemma {:induction false} FailingRun(s: State, from: Port, n: nat)
    requires s.next == from && from >= PORT_MIN && from + n <= PORT_MAX + 1
    requires forall q :: from <= q < from + n ==> q !in UsedPorts(s.holders) && q !in s.reserved
    ensures Possible(s, Failing(|s.holders|, from, n, |s.views|))
    ensures var t := RunFrom(s, Failing(|s.holders|, from, n, |s.views|));
            && t.next == from + n && t.views == s.views && t.reserved == s.reserved && s.holders <= t.holders
            && forall i :: |s.holders| <= i < |t.holders| ==> !t.holders[i].row
    decreases n
  {
    if n > 0 {
      OneFails(s, from);
      var gone := Holder(from, false, false, No);
      var t := State(s.holders + [gone], s.views, s.reserved, from + 1, from + 1);
      UsedSnoc(s.holders, gone);
      FailingRun(t, from + 1, n - 1);
      RunConcat(s, [ReadRows, Allocate(|s.views|, Some(from), true), CreateReturns(|s.holders|)],
                Failing(|t.holders|, from + 1, n - 1, |s.views|));
    }
  }

  /** An app is registered at the bottom of the range, and then enough creates fail for the
      rotation point to come round; `views` allocations have read the rows before all that. */
  function ComesRound(views: nat): seq<Step> {
    [ReadRows, Allocate(views, Some(PORT_MIN), true), AddRow(0)] + Failing(1, PORT_MIN + 1, SPAN - 1, views)
  }

  lemma FirstApp(s: State)
    requires s.holders == [] && s.reserved == {} && s.next == PORT_MIN
    ensures var steps := [ReadRows, Allocate(|s.views|, Some(PORT_MIN), true), AddRow(0)];
            && Possible(s, steps)
            && RunFrom(s, steps) == State([Holder(PORT_MIN, true, true, No)], Noted(s.views, 0), {PORT_MIN},
                                          PORT_MIN + 1, PORT_MIN + 1)
  {
    var grant := Allocate(|s.views|, Some(PORT_MIN), true);
    var s1 := Next(s, ReadRows);
    assert UsedPorts(s.holders) == {};
    var s2 := Next(s1, grant);
    assert s2.views == s.views && s2.holders == [Holder(PORT_MIN, false, true, No)];
    assert UsedPorts(s2.holders) == {};
    RunThree(s, ReadRows, grant, AddRow(0));
  }

  lemma ComesRoundRun(s: State) returns (t: State)
    requires s.holders == [] && s.reserved == {} && s.next == PORT_MIN
    ensures Possible(s, ComesRound(|s.views|)) && t == RunFrom(s, ComesRound(|s.views|))
    ensures t.next == PORT_MAX + 1 && t.views == Noted(s.views, 0) && t.reserved == {PORT_MIN}
    ensures t.holders != [] && t.holders[0] == Holder(PORT_MIN, true, true, No)
    ensures forall i :: 1 <= i < |t.holders| ==> !t.holders[i].row
  {
    FirstApp(s);
    var u := State([Holder(PORT_MIN, true, true, No)], Noted(s.views, 0), {PORT_MIN}, PORT_MIN + 1, PORT_MIN + 1);
    assert UsedPorts(u.holders) == {PORT_MIN};
    FailingRun(u, PORT_MIN + 1, SPAN - 1);
    RunConcat(s, [ReadRows, Allocate(|s.views|, Some(PORT_MIN), true), AddRow(0)],
              Failing(1, PORT_MIN + 1, SPAN - 1, |s.views|));
    t := RunFrom(s, ComesRound(|s.views|));
    assert t.holders[0] == u.holders[0];
  }

  /** `steps` is a run after which the port of app 0 is granted to another app. */
  ghost predicate GrantsTwice(s: State, steps: seq<Step>) {
    var grant := Allocate(0, Some(PORT_MIN), true);
    && Possible(s, steps)
    && var t := RunFrom(s, steps);
       && t.holders != [] && t.holders[0].port == PORT_MIN && Alive(t.holders[0])
       && Enabled(t, grant) && Shares(t, grant) && !Unique(Next(t, grant))
  }

  lemma SharedNow(s: State, steps: seq<Step>, t: State)
    requires Possible(s, steps) && t == RunFrom(s, steps)
    requires t.holders != [] && t.holders[0].port == PORT_MIN && t.next == PORT_MAX + 1 && t.reserved == {}
    requires t.views != [] && PORT_MIN !in t.views[0].used && Exposed(t.holders[0], 0 in t.views[0].since)
    ensures GrantsTwice(s, steps)
  {
    var grant := Allocate(0, Some(PORT_MIN), true);
    assert Enabled(t, grant);
    assert ExposedHolder(t, t.views[0], PORT_MIN);
    var u := Next(t, grant);
    assert u.holders[0] == t.holders[0] && u.holders[|t.holders|] == Holder(PORT_MIN, false, true, No);
  }

  /** Without its row nothing is registered. */
  lemma OnlyRow(t: State, later: seq<Holder>)
    requires t.holders != []
    requires forall i :: 1 <= i < |t.holders| ==> !t.holders[i].row
    requires |later| == |t.holders| && !later[0].row && later[1..] == t.holders[1..]
    ensures UsedPorts(later) == {}
  {
    forall h | h in later ensures !h.row {
      var i :| 0 <= i < |later| && later[i] == h;
      if i > 0 { assert later[i] == later[1..][i - 1] == t.holders[1..][i - 1] == t.holders[i]; }
    }
  }

  /** Three ways to end such a run. The delete has removed the row and not reserved the port. */
  lemma DeleteWindowSharesPort()
    ensures GrantsTwice(Fresh(PORT_MIN), ComesRound(0) + [CreateReturns(0), DeleteRow(0), ReadRows])
  {
    var t := ComesRoundRun(Fresh(PORT_MIN));
    var t1 := Next(t, CreateReturns(0));
    var t2 := Next(t1, DeleteRow(0));
    assert t2.holders[0] == Holder(PORT_MIN, false, false, Removed);
    OnlyRow(t, t2.holders);
    RunThree(t, CreateReturns(0), DeleteRow(0), ReadRows);
    RunConcat(Fresh(PORT_MIN), ComesRound(0), [CreateReturns(0), DeleteRow(0), ReadRows]);
    SharedNow(Fresh(PORT_MIN), ComesRound(0) + [CreateReturns(0), DeleteRow(0), ReadRows], Next(t2, ReadRows));
  }

  /** The delete starts before the create has returned, whose release then ends the teardown's
      reservation. */
  lemma DeleteDuringCreateFreesPort()
    ensures GrantsTwice(Fresh(PORT_MIN),
                        ComesRound(0) + [DeleteRow(0), DeleteReserve(0), ReadRows] + [CreateReturns(0)])
  {
    var t := ComesRoundRun(Fresh(PORT_MIN));
    var t1 := Next(t, DeleteRow(0));
    var t2 := Next(t1, DeleteReserve(0));
    assert t2.holders[0] == Holder(PORT_MIN, false, true, Tearing(false));
    OnlyRow(t, t2.holders);
    var t3 := Next(t2, ReadRows);
    var t4 := Next(t3, CreateReturns(0));
    RunThree(t, DeleteRow(0), DeleteReserve(0), ReadRows);
    var steps := ComesRound(0) + [DeleteRow(0), DeleteReserve(0), ReadRows];
    RunConcat(Fresh(PORT_MIN), ComesRound(0), [DeleteRow(0), DeleteReserve(0), ReadRows]);
    RunOne(t3, CreateReturns(0));
    RunConcat(Fresh(PORT_MIN), steps, [CreateReturns(0)]);
    SharedNow(Fresh(PORT_MIN), steps + [CreateReturns(0)], t4);
  }

  /** The allocation had read the rows before all that. */
  lemma StaleRowsGrantTwice()
    ensures GrantsTwice(Fresh(PORT_MIN), [ReadRows] + ComesRound(1) + [CreateReturns(0)])
  {
    var s := Next(Fresh(PORT_MIN), ReadRows);
    assert UsedPorts(Fresh(PORT_MIN).holders) == {};
    var t := ComesRoundRun(s);
    var t1 := Next(t, CreateReturns(0));
    RunOne(Fresh(PORT_MIN), ReadRows);
    RunConcat(Fresh(PORT_MIN), [ReadRows], ComesRound(1));
    RunOne(t, CreateReturns(0));
    RunConcat(Fresh(PORT_MIN), [ReadRows] + ComesRound(1), [CreateReturns(0)]);
    SharedNow(Fresh(PORT_MIN), [ReadRows] + ComesRound(1) + [CreateReturns(0)], t1);
  }

  lemma RunOne(s: State, a: Step)
    requires Enabled(s, a)
    ensures Possible(s, [a]) && RunFrom(s, [a]) == Next(s, a)
  {
    assert [a][1..] == [] && Possible(Next(s, a), []) && RunFrom(Next(s, a), []) == Next(s, a);
  }
}
