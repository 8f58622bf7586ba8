/** How turns and resets claim reservations and session objects (assistant/service.go):
    every mutex-protected step of Send, runLoop, Reset and DropSession, interleaved in any
    order. A dropped session object lives on while a run holds it, so exclusion is per
    object, not per app. */
module RunProtocol {
  import opened Transcript
  import opened RunLimits

  /** Where a turn stands: reserved, session looked up, refused by `begin`, session claimed,
      cancel function recorded, then the deferred calls: cancelled, reservation given back,
      session ended. A reset claims and ends a session and reserves nothing. */
  datatype Pc = Entered | Found | Refused | Claimed | Cancellable | Cancelled | Freed | Done

  datatype Run = Run(user: string, reset: bool, app: string, obj: nat, pc: Pc)

  datatype SessionObject = SessionObject(running: bool, cancel: Option<nat>)

  /** `grants` only records when each user's turns were started. */
  datatype State = State(users: map<string, UserRuns>, objects: seq<SessionObject>, current: map<string, nat>,
                         runs: seq<Run>, now: Time, grants: map<string, seq<Time>>)

  datatype Step =
    | Reserve(user: string, app: string, read: Time, start: Time)
    | EnterReset(app: string)
    | FindSession(run: nat)
    | Begin(run: nat)
    | ReleaseRefused(run: nat)
    | SetCancel(run: nat)
    | CancelContext(run: nat)
    | ReleaseTurn(run: nat)
    | End(run: nat)
    | DropSession(app: string)

  function Initial(): State { State(map[], [], map[], [], 0, map[]) }

  function GrantsOf(s: State, user: string): seq<Time> {
    if user in s.grants then s.grants[user] else []
  }

  function Move(s: State, run: nat, pc: Pc): State
    requires run < |s.runs|
  {
    s.(runs := s.runs[run := s.runs[run].(pc := pc)])
  }

  function Release(s: State, user: string): State {
    if user == "" || user !in s.users then s else s.(users := s.users[user := Released(s.users[user])])
  }

  function Next(limits: Limits, s: State, step: Step): State {
    match step
    case Reserve(user, app, read, start) =>
      if !(s.now <= read <= start) then s
      else if user == "" then
        s.(now := start, runs := s.runs + [Run(user, false, app, 0, Entered)])
      else
        var u := UserOf(s.users, user);
        var s' := s.(now := start, users := s.users[user := Reserved(u, limits, read, start)]);
        if Decide(Pruned(u, read), limits).Granted? then
          s'.(runs := s.runs + [Run(user, false, app, 0, Entered)],
              grants := s.grants[user := GrantsOf(s, user) + [start]])
        else s'
    case EnterReset(app) => s.(runs := s.runs + [Run("", true, app, 0, Entered)])
    case FindSession(run) =>
      if !(run < |s.runs| && s.runs[run].pc.Entered?) then s
      else
        var app := s.runs[run].app;
        var s' := if app in s.current then s
                  else s.(objects := s.objects + [SessionObject(false, None)],
                          current := s.current[app := |s.objects|]);
        s'.(runs := s.runs[run := s.runs[run].(pc := Found, obj := s'.current[app])])
    case Begin(run) =>
      if !(run < |s.runs| && s.runs[run].pc.Found? && s.runs[run].obj < |s.objects|) then s
      else
        var o := s.runs[run].obj;
        if s.objects[o].running then Move(s, run, if s.runs[run].reset then Done else Refused)
        else Move(s, run, Claimed).(objects := s.objects[o := s.objects[o].(running := true)])
    case ReleaseRefused(run) =>
      if !(run < |s.runs| && s.runs[run].pc.Refused?) then s
      else Release(Move(s, run, Done), s.runs[run].user)
    case SetCancel(run) =>
      if !(run < |s.runs| && s.runs[run].pc.Claimed? && !s.runs[run].reset && s.runs[run].obj < |s.objects|) then s
      else
        var o := s.runs[run].obj;
        Move(s, run, Cancellable).(objects := s.objects[o := s.objects[o].(cancel := Some(run))])
    case CancelContext(run) =>
      if !(run < |s.runs| && s.runs[run].pc.Cancellable?) then s else Move(s, run, Cancelled)
    case ReleaseTurn(run) =>
      if !(run < |s.runs| && s.runs[run].pc.Cancelled?) then s
      else Release(Move(s, run, Freed), s.runs[run].user)
    case End(run) =>
      if !(run < |s.runs| && MayEnd(s.runs[run]) && s.runs[run].obj < |s.objects|) then s
      else Move(s, run, Done).(objects := s.objects[s.runs[run].obj := SessionObject(false, None)])
    case DropSession(app) => s.(current := s.current - {app})
  }

  predicate MayEnd(r: Run) { if r.reset then r.pc.Claimed? else r.pc.Freed? }

  function RunFrom(limits: Limits, s: State, steps: seq<Step>): State
    decreases |steps|
  {
    if steps == [] then s else RunFrom(limits, Next(limits, s, steps[0]), steps[1..])
  }

  // ---- Who holds what ------------------------------------------------------------------------

  datatype Key = Reservation(user: string) | SessionOf(obj: nat)

  predicate HoldsSession(r: Run) { r.pc.Claimed? || r.pc.Cancellable? || r.pc.Cancelled? || r.pc.Freed? }

  predicate Holds(r: Run, k: Key) {
    match k
    case Reservation(user) => !r.reset && r.user == user && !r.pc.Freed? && !r.pc.Done?
    case SessionOf(obj) => HoldsSession(r) && r.obj == obj
  }

  function One(b: bool): nat { if b then 1 else 0 }

  function Holders(runs: seq<Run>, k: Key): nat {
    if runs == [] then 0 else One(Holds(runs[0], k)) + Holders(runs[1..], k)
  }

  lemma {:induction false} HoldersSnoc(runs: seq<Run>, r: Run, k: Key)
    ensures Holders(runs + [r], k) == Holders(runs, k) + One(Holds(r, k))
  {
    if runs == [] {
      assert runs + [r] == [r] && [r][1..] == [];
    } else {
      assert (runs + [r])[1..] == runs[1..] + [r];
      HoldersSnoc(runs[1..], r, k);
    }
  }

  lemma {:induction false} HoldersUpdate(runs: seq<Run>, i: nat, r: Run, k: Key)
    requires i < |runs|
    ensures Holders(runs[i := r], k) + One(Holds(runs[i], k)) == Holders(runs, k) + One(Holds(r, k))
  {
    if i == 0 {
      assert runs[i := r][1..] == runs[1..];
    } else {
      assert runs[i := r][1..] == runs[1..][i - 1 := r];
      HoldersUpdate(runs[1..], i - 1, r, k);
    }
  }

  lemma {:induction false} HolderCounts(runs: seq<Run>, i: nat, k: Key)
    requires i < |runs| && Holds(runs[i], k)
    ensures Holders(runs, k) >= 1
  {
    if i > 0 { HolderCounts(runs[1..], i - 1, k); }
  }

  lemma {:induction false} OneHolder(runs: seq<Run>, i: nat, j: nat, k: Key)
    requires i < j < |runs| && Holds(runs[i], k) && Holds(runs[j], k)
    ensures Holders(runs, k) >= 2
  {
    if i > 0 { OneHolder(runs[1..], i - 1, j - 1, k); } else { HolderCounts(runs[1..], j - 1, k); }
  }

  // ---- The invariant -----------------------------------------------------------------------------

  ghost predicate ReservationsCounted(s: State) {
    forall user :: user != "" ==> UserOf(s.users, user).active == Holders(s.runs, Reservation(user))
  }

  ghost predicate UsersLimited(s: State, limits: Limits) {
    forall user :: user != "" ==> UserLimited(s, limits, user)
  }

  ghost predicate UserLimited(s: State, limits: Limits, user: string) {
    && UserOf(s.users, user).active <= limits.perUser
    && InRate(UserOf(s.users, user).starts, GrantsOf(s, user), s.now, limits)
  }

  ghost predicate SessionsHeld(s: State) {
    forall o :: 0 <= o < |s.objects| ==> Holders(s.runs, SessionOf(o)) == One(s.objects[o].running)
  }

  /** A recorded cancel function belongs to the run that holds the session. */
  ghost predicate CancelsOwned(s: State) {
    forall o :: 0 <= o < |s.objects| && s.objects[o].cancel.Some? ==> CancelOwned(s, o, s.objects[o].cancel.value)
  }

  ghost predicate CancelOwned(s: State, o: nat, run: nat) {
    && run < |s.runs| && s.runs[run].obj == o
    && (s.runs[run].pc.Cancellable? || s.runs[run].pc.Cancelled? || s.runs[run].pc.Freed?)
  }

  ghost predicate ObjectsKnown(s: State) {
    && (forall app :: app in s.current ==> s.current[app] < |s.objects|)
    && (forall i :: 0 <= i < |s.runs| ==> RunFits(s.runs[i], |s.objects|))
  }

  predicate RunFits(r: Run, objects: nat) {
    (!r.pc.Entered? ==> r.obj < objects) && (r.reset ==> OnResetPath(r.pc))
  }

  predicate OnResetPath(pc: Pc) { pc.Entered? || pc.Found? || pc.Claimed? || pc.Done? }

  ghost predicate Inv(s: State, limits: Limits) {
    && ReservationsCounted(s) && UsersLimited(s, limits)
    && SessionsHeld(s) && CancelsOwned(s) && ObjectsKnown(s)
  }

  lemma InitialInv(limits: Limits)
    ensures Inv(Initial(), limits)
  {
    forall user | user != "" ensures UserLimited(Initial(), limits, user) {
      var none: seq<Time> := [];
      assert none[0..] == none;
    }
  }

  // ---- Every step keeps it ---------------------------------------------------------------------

  /** A step appends a run that has entered, or changes one run, or none. */
  lemma RunsFit(limits: Limits, s: State, step: Step, i: nat)
    requires ObjectsKnown(s) && i < |Next(limits, s, step).runs|
    ensures RunFits(Next(limits, s, step).runs[i], |Next(limits, s, step).objects|)
  {
    if i < |s.runs| { assert RunFits(s.runs[i], |s.objects|); }
    if step.FindSession? { FoundFits(limits, s, step, i); } else { ObjectsKept(limits, s, step); }
  }

  lemma FoundFits(limits: Limits, s: State, step: Step, i: nat)
    requires ObjectsKnown(s) && step.FindSession? && i < |s.runs| && RunFits(s.runs[i], |s.objects|)
    ensures |Next(limits, s, step).runs| == |s.runs|
    ensures RunFits(Next(limits, s, step).runs[i], |Next(limits, s, step).objects|)
  {
  }

  lemma ObjectsKept(limits: Limits, s: State, step: Step)
    requires !step.FindSession?
    ensures |Next(limits, s, step).objects| == |s.objects|
  {
  }

  lemma CurrentFits(limits: Limits, s: State, step: Step, app: string)
    requires ObjectsKnown(s) && app in Next(limits, s, step).current
    ensures Next(limits, s, step).current[app] < |Next(limits, s, step).objects|
  {
  }

  lemma ObjectsKnownStep(limits: Limits, s: State, step: Step)
    requires ObjectsKnown(s)
    ensures ObjectsKnown(Next(limits, s, step))
  {
    var t := Next(limits, s, step);
    forall app | app in t.current ensures t.current[app] < |t.objects| { CurrentFits(limits, s, step, app); }
    forall i | 0 <= i < |t.runs| ensures RunFits(t.runs[i], |t.objects|) { RunsFit(limits, s, step, i); }
  }

  lemma ReservationsStep(limits: Limits, s: State, step: Step, user: string)
    requires ReservationsCounted(s) && ObjectsKnown(s) && user != ""
    ensures UserOf(Next(limits, s, step).users, user).active == Holders(Next(limits, s, step).runs, Reservation(user))
  {
    match step
    case Reserve(_, _, _, _) => ReservationsReserve(limits, s, step, user);
    case EnterReset(app) => HoldersSnoc(s.runs, Run("", true, app, 0, Entered), Reservation(user));
    case DropSession(_) =>
    case ReleaseRefused(run) => ReservationsRelease(limits, s, step, user, run);
    case ReleaseTurn(run) => ReservationsRelease(limits, s, step, user, run);
    case FindSession(run) => ReservationsMove(limits, s, step, user, run);
    case Begin(run) => ReservationsMove(limits, s, step, user, run);
    case SetCancel(run) => ReservationsMove(limits, s, step, user, run);
    case CancelContext(run) => ReservationsMove(limits, s, step, user, run);
    case End(run) => ReservationsMove(limits, s, step, user, run);
  }

  lemma ReservationsReserve(limits: Limits, s: State, step: Step, user: string)
    requires ReservationsCounted(s) && user != "" && step.Reserve?
    ensures UserOf(Next(limits, s, step).users, user).active == Holders(Next(limits, s, step).runs, Reservation(user))
  {
    HoldersSnoc(s.runs, Run(step.user, false, step.app, 0, Entered), Reservation(user));
  }

  lemma ReservationsRelease(limits: Limits, s: State, step: Step, user: string, run: nat)
    requires ReservationsCounted(s) && ObjectsKnown(s) && user != ""
    requires (step.ReleaseRefused? || step.ReleaseTurn?) && step.run == run
    ensures UserOf(Next(limits, s, step).users, user).active == Holders(Next(limits, s, step).runs, Reservation(user))
  {
    MovedHolders(limits, s, step, run, Reservation(user));
    HeldBy(s, run, Reservation(user));
  }

  lemma ReservationsMove(limits: Limits, s: State, step: Step, user: string, run: nat)
    requires ReservationsCounted(s) && ObjectsKnown(s) && user != ""
    requires step.FindSession? || step.Begin? || step.SetCancel? || step.CancelContext? || step.End?
    requires step.run == run
    ensures UserOf(Next(limits, s, step).users, user).active == Holders(Next(limits, s, step).runs, Reservation(user))
  {
    MovedHolders(limits, s, step, run, Reservation(user));
  }

  lemma HeldBy(s: State, run: nat, k: Key)
    ensures run < |s.runs| && Holds(s.runs[run], k) ==> Holders(s.runs, k) >= 1
  {
    if run < |s.runs| && Holds(s.runs[run], k) { HolderCounts(s.runs, run, k); }
  }

  /** A step of run `run` changes the count of `k` only by what that run holds. */
  lemma MovedHolders(limits: Limits, s: State, step: Step, run: nat, k: Key)
    requires step.FindSession? || step.Begin? || step.ReleaseRefused? || step.SetCancel? || step.CancelContext?
          || step.ReleaseTurn? || step.End?
    requires step.run == run
    ensures var s' := Next(limits, s, step);
            && |s'.runs| == |s.runs|
            && (run >= |s.runs| ==> s' == s)
            && (run < |s.runs| ==>
                  Holders(s'.runs, k) + One(Holds(s.runs[run], k)) == Holders(s.runs, k) + One(Holds(s'.runs[run], k)))
  {
    var s' := Next(limits, s, step);
    if run < |s.runs| {
      HoldersUpdate(s.runs, run, s'.runs[run], k);
      assert s'.runs == s.runs[run := s'.runs[run]];
    }
  }

  lemma LimitsStep(limits: Limits, s: State, step: Step, user: string)
    requires user != "" && UserLimited(s, limits, user)
    ensures UserLimited(Next(limits, s, step), limits, user)
  {
    if step.Reserve? {
      LimitsReserve(limits, s, step, user);
    } else {
      OnlyReserveGrants(limits, s, step, user);
    }
  }

  lemma OnlyReserveGrants(limits: Limits, s: State, step: Step, user: string)
    requires !step.Reserve?
    ensures var s' := Next(limits, s, step);
            && s'.now == s.now && s'.grants == s.grants
            && UserOf(s'.users, user).starts == UserOf(s.users, user).starts
            && UserOf(s'.users, user).active <= UserOf(s.users, user).active
  {
    if step.ReleaseRefused? || step.ReleaseTurn? {
      if step.run < |s.runs| { ReleaseKeepsStarts(s, s.runs[step.run].user, user); }
    } else {
      UsersKept(limits, s, step);
    }
  }

  lemma ReleaseKeepsStarts(s: State, whose: string, user: string)
    ensures var s' := Release(s, whose);
            && UserOf(s'.users, user).starts == UserOf(s.users, user).starts
            && UserOf(s'.users, user).active <= UserOf(s.users, user).active
  {
  }

  lemma UsersKept(limits: Limits, s: State, step: Step)
    requires !step.Reserve? && !step.ReleaseRefused? && !step.ReleaseTurn?
    ensures Next(limits, s, step).users == s.users
  {
  }

  lemma ReserveShape(limits: Limits, s: State, step: Step, user: string)
    requires user != "" && step.Reserve? && s.now <= step.read <= step.start
    ensures var s', u := Next(limits, s, step), UserOf(s.users, user);
            && s'.now == step.start
            && UserOf(s'.users, user) == (if user == step.user then Reserved(u, limits, step.read, step.start) else u)
            && GrantsOf(s', user) ==
               if user == step.user then GrantsAfter(u, GrantsOf(s, user), limits, step.read, step.start)
               else GrantsOf(s, user)
  {
  }

  lemma LimitsReserve(limits: Limits, s: State, step: Step, user: string)
    requires user != "" && UserLimited(s, limits, user) && step.Reserve?
    ensures UserLimited(Next(limits, s, step), limits, user)
  {
    if s.now <= step.read <= step.start {
      var u, grants := UserOf(s.users, user), GrantsOf(s, user);
      ReserveShape(limits, s, step, user);
      if step.user == user {
        ReserveInRate(u, grants, s.now, limits, step.read, step.start);
        ReservedWithin(u, limits, step.read, step.start);
      } else {
        TimePasses(u.starts, grants, s.now, limits, step.start);
      }
    }
  }

  lemma ReservedWithin(u: UserRuns, limits: Limits, read: Time, start: Time)
    requires u.active <= limits.perUser
    ensures Reserved(u, limits, read, start).active <= limits.perUser
  {
  }

  lemma SessionsStep(limits: Limits, s: State, step: Step, o: nat)
    requires SessionsHeld(s) && ObjectsKnown(s) && o < |Next(limits, s, step).objects|
    ensures Holders(Next(limits, s, step).runs, SessionOf(o)) == One(Next(limits, s, step).objects[o].running)
  {
    match step
    case Reserve(user, app, _, _) =>
      HoldersSnoc(s.runs, Run(user, false, app, 0, Entered), SessionOf(o));
    case EnterReset(app) => HoldersSnoc(s.runs, Run("", true, app, 0, Entered), SessionOf(o));
    case DropSession(_) =>
    case FindSession(run) => SessionsFind(limits, s, step, o, run);
    case Begin(run) => SessionsMove(limits, s, step, o, run);
    case ReleaseRefused(run) => SessionsMove(limits, s, step, o, run);
    case SetCancel(run) => SessionsMove(limits, s, step, o, run);
    case CancelContext(run) => SessionsMove(limits, s, step, o, run);
    case ReleaseTurn(run) => SessionsMove(limits, s, step, o, run);
    case End(run) => SessionsMove(limits, s, step, o, run);
  }

  lemma SessionsFind(limits: Limits, s: State, step: Step, o: nat, run: nat)
    requires SessionsHeld(s) && ObjectsKnown(s) && o < |Next(limits, s, step).objects|
    requires step.FindSession? && step.run == run
    ensures Holders(Next(limits, s, step).runs, SessionOf(o)) == One(Next(limits, s, step).objects[o].running)
  {
    NobodyHolds(s.runs, |s.objects|);
    MovedHolders(limits, s, step, run, SessionOf(o));
  }

  /** A session object that no run has found yet is held by none. */
  lemma {:induction false} NobodyHolds(runs: seq<Run>, o: nat)
    requires forall i :: 0 <= i < |runs| && !runs[i].pc.Entered? ==> runs[i].obj < o
    ensures Holders(runs, SessionOf(o)) == 0
  {
    if runs != [] {
      forall i | 0 <= i < |runs[1..]| && !runs[1..][i].pc.Entered? ensures runs[1..][i].obj < o {
        assert runs[1..][i] == runs[i + 1];
      }
      NobodyHolds(runs[1..], o);
    }
  }

  lemma SessionsMove(limits: Limits, s: State, step: Step, o: nat, run: nat)
    requires SessionsHeld(s) && ObjectsKnown(s) && o < |s.objects|
    requires step.Begin? || step.ReleaseRefused? || step.SetCancel? || step.CancelContext?
             || step.ReleaseTurn? || step.End?
    requires step.run == run
    ensures Holders(Next(limits, s, step).runs, SessionOf(o)) == One(Next(limits, s, step).objects[o].running)
  {
    MovedHolders(limits, s, step, run, SessionOf(o));
    if step.Begin? || step.End? {
      SessionsClaim(limits, s, step, o, run);
    } else {
      SessionsKeep(limits, s, step, o, run);
    }
  }

  lemma SessionsClaim(limits: Limits, s: State, step: Step, o: nat, run: nat)
    requires SessionsHeld(s) && ObjectsKnown(s) && o < |s.objects| && (step.Begin? || step.End?) && step.run == run
    ensures Next(limits, s, step) != s ==>
              One(Next(limits, s, step).objects[o].running) + One(Holds(s.runs[run], SessionOf(o))) ==
              One(s.objects[o].running) + One(Holds(Next(limits, s, step).runs[run], SessionOf(o)))
  {
    HeldBy(s, run, SessionOf(o));
  }

  lemma SessionsKeep(limits: Limits, s: State, step: Step, o: nat, run: nat)
    requires step.ReleaseRefused? || step.SetCancel? || step.CancelContext? || step.ReleaseTurn?
    requires ObjectsKnown(s) && o < |s.objects| && step.run == run
    ensures Next(limits, s, step) != s ==>
              && Next(limits, s, step).objects[o].running == s.objects[o].running
              && Holds(Next(limits, s, step).runs[run], SessionOf(o)) == Holds(s.runs[run], SessionOf(o))
  {
  }

  lemma CancelsStep(limits: Limits, s: State, step: Step, o: nat)
    requires CancelsOwned(s)
    requires o < |Next(limits, s, step).objects| && Next(limits, s, step).objects[o].cancel.Some?
    ensures CancelOwned(Next(limits, s, step), o, Next(limits, s, step).objects[o].cancel.value)
  {
    var c := Next(limits, s, step).objects[o].cancel.value;
    if step.Begin? || step.SetCancel? || step.End? {
      CancelsClaim(limits, s, step, o, c);
    } else {
      CancelsRecorded(limits, s, step, o);
      assert CancelOwned(s, o, c);
      CancelsKept(limits, s, step, o, c);
    }
  }

  lemma CancelsRecorded(limits: Limits, s: State, step: Step, o: nat)
    requires !step.Begin? && !step.SetCancel? && !step.End?
    requires o < |Next(limits, s, step).objects| && Next(limits, s, step).objects[o].cancel.Some?
    ensures o < |s.objects| && s.objects[o] == Next(limits, s, step).objects[o]
  {
  }

  lemma CancelsKept(limits: Limits, s: State, step: Step, o: nat, c: nat)
    requires CancelOwned(s, o, c) && !step.Begin? && !step.SetCancel? && !step.End?
    ensures CancelOwned(Next(limits, s, step), o, c)
  {
  }

  lemma CancelsClaim(limits: Limits, s: State, step: Step, o: nat, c: nat)
    requires CancelsOwned(s) && (step.Begin? || step.SetCancel? || step.End?)
    requires o < |s.objects| && Next(limits, s, step).objects[o].cancel == Some(c)
    ensures CancelOwned(Next(limits, s, step), o, c)
  {
    if s.objects[o].cancel == Some(c) { assert CancelOwned(s, o, c); }
  }

  lemma StepInv(limits: Limits, s: State, step: Step)
    requires Inv(s, limits)
    ensures Inv(Next(limits, s, step), limits)
  {
    var s' := Next(limits, s, step);
    ObjectsKnownStep(limits, s, step);
    forall user | user != "" ensures UserOf(s'.users, user).active == Holders(s'.runs, Reservation(user)) {
      ReservationsStep(limits, s, step, user);
    }
    forall user | user != "" ensures UserLimited(s', limits, user) {
      LimitsStep(limits, s, step, user);
    }
    forall o | 0 <= o < |s'.objects| ensures Holders(s'.runs, SessionOf(o)) == One(s'.objects[o].running) {
      SessionsStep(limits, s, step, o);
    }
    forall o | 0 <= o < |s'.objects| && s'.objects[o].cancel.Some?
      ensures CancelOwned(s', o, s'.objects[o].cancel.value)
    {
      CancelsStep(limits, s, step, o);
    }
  }

  lemma {:induction false} RunInv(limits: Limits, s: State, steps: seq<Step>)
    requires Inv(s, limits)
    ensures Inv(RunFrom(limits, s, steps), limits)
    decreases |steps|
  {
    if steps != [] {
      StepInv(limits, s, steps[0]);
      RunInv(limits, Next(limits, s, steps[0]), steps[1..]);
    }
  }

  // ---- Main results, for every interleaving ---------------------------------------------------------

  /** Per user: `active` is exactly the number of reservations not yet given back, it never
      exceeds the cap, and any hour holds at most `perHour` starts, its end excluded, or twice as
      many, its end included. */
  lemma UserNeverExceeds(limits: Limits, steps: seq<Step>, user: string, a: Time)
    requires user != ""
    ensures var s := RunFrom(limits, Initial(), steps);
            && UserOf(s.users, user).active == Holders(s.runs, Reservation(user)) <= limits.perUser
            && CountFrom(GrantsOf(s, user), a) <= limits.perHour
            && CountThrough(GrantsOf(s, user), a) <= 2 * limits.perHour
  {
    InitialInv(limits);
    RunInv(limits, Initial(), steps);
    var s := RunFrom(limits, Initial(), steps);
    assert UserLimited(s, limits, user);
    WindowBound(GrantsOf(s, user), limits, a);
    ClosedHourAtMostTwice(GrantsOf(s, user), limits, a);
  }

  /** And that hour holds at most `perHour` in every case if and only if no start comes exactly an
      hour after the one `perHour` places before it. */
  lemma UserClosedHourIff(limits: Limits, steps: seq<Step>, user: string)
    requires user != ""
    ensures var grants := GrantsOf(RunFrom(limits, Initial(), steps), user);
            (forall a :: CountThrough(grants, a) <= limits.perHour) <==> !OnTheHour(grants, limits)
  {
    InitialInv(limits);
    RunInv(limits, Initial(), steps);
    var s := RunFrom(limits, Initial(), steps);
    assert UserLimited(s, limits, user);
    ClosedHourIff(GrantsOf(s, user), limits);
  }

  /** Per session object: it is marked running exactly while some run holds it, no two runs
      hold it at once, and the cancel function it records is its holder's. */
  lemma OneRunPerSession(limits: Limits, steps: seq<Step>, o: nat)
    requires o < |RunFrom(limits, Initial(), steps).objects|
    ensures var s := RunFrom(limits, Initial(), steps);
            && (s.objects[o].running <==> exists i :: RunsOn(s, o, i))
            && (forall i, j :: RunsOn(s, o, i) && RunsOn(s, o, j) ==> i == j)
            && (forall i: nat :: RunsOn(s, o, i) ==> s.objects[o].cancel in {None, Some(i)})
  {
    InitialInv(limits);
    RunInv(limits, Initial(), steps);
    var s := RunFrom(limits, Initial(), steps);
    assert Holders(s.runs, SessionOf(o)) == One(s.objects[o].running);
    if s.objects[o].running {
      var k := SomeHolder(s.runs, SessionOf(o));
      assert RunsOn(s, o, k);
    }
    forall i, j | RunsOn(s, o, i) && RunsOn(s, o, j) ensures i == j { OneHolderEach(s, i, j); }
    forall i: nat | RunsOn(s, o, i) ensures s.objects[o].running && s.objects[o].cancel in {None, Some(i)} {
      OneHolderEach(s, i, i);
      if s.objects[o].cancel.Some? {
        var c := s.objects[o].cancel.value;
        assert CancelOwned(s, o, c);
        OneHolderEach(s, i, c);
      }
    }
  }

  predicate RunsOn(s: State, o: nat, run: nat) {
    run < |s.runs| && HoldsSession(s.runs[run]) && s.runs[run].obj == o
  }

  lemma {:induction false} SomeHolder(runs: seq<Run>, k: Key) returns (i: nat)
    requires Holders(runs, k) > 0
    ensures i < |runs| && Holds(runs[i], k)
  {
    if Holds(runs[0], k) {
      i := 0;
    } else {
      var j := SomeHolder(runs[1..], k);
      i := j + 1;
    }
  }

  lemma OneHolderEach(s: State, i: nat, j: nat)
    requires SessionsHeld(s) && ObjectsKnown(s) && i < |s.runs| && j < |s.runs|
    ensures HoldsSession(s.runs[i]) ==> s.runs[i].obj < |s.objects| && s.objects[s.runs[i].obj].running
    ensures HoldsSession(s.runs[i]) && HoldsSession(s.runs[j]) && s.runs[i].obj == s.runs[j].obj ==> i == j
  {
    if HoldsSession(s.runs[i]) {
      var k := SessionOf(s.runs[i].obj);
      HolderCounts(s.runs, i, k);
      if HoldsSession(s.runs[j]) && s.runs[j].obj == s.runs[i].obj {
        if i < j { OneHolder(s.runs, i, j, k); }
        if j < i { OneHolder(s.runs, j, i, k); }
      }
    }
  }

  lemma ReserveRuns(limits: Limits, s: State, user: string, app: string, read: Time, start: Time)
    requires user != "" && s.now <= read <= start
    ensures var granted := Decide(Pruned(UserOf(s.users, user), read), limits).Granted?;
            Next(limits, s, Reserve(user, app, read, start)).runs ==
            if granted then s.runs + [Run(user, false, app, 0, Entered)] else s.runs
  {
  }

  lemma GrantedNow(limits: Limits, s: State, user: string, read: Time)
    requires Inv(s, limits) && user != "" && s.now <= read
    ensures Decide(Pruned(UserOf(s.users, user), read), limits).Granted? <==>
            && Holders(s.runs, Reservation(user)) < limits.perUser
            && CountAfter(GrantsOf(s, user), read - RUN_RATE_WINDOW) < limits.perHour
  {
    assert UserLimited(s, limits, user);
    GrantedIff(UserOf(s.users, user), GrantsOf(s, user), s.now, limits, read);
  }

  /** In every run, a user's attempt becomes a turn exactly when a slot is free and fewer than the
      limit were granted in the last hour. */
  lemma ReserveIff(limits: Limits, steps: seq<Step>, user: string, app: string, read: Time, start: Time)
    requires user != "" && RunFrom(limits, Initial(), steps).now <= read <= start
    ensures var s := RunFrom(limits, Initial(), steps);
            var granted := && Holders(s.runs, Reservation(user)) < limits.perUser
                           && CountAfter(GrantsOf(s, user), read - RUN_RATE_WINDOW) < limits.perHour;
            Next(limits, s, Reserve(user, app, read, start)).runs ==
            if granted then s.runs + [Run(user, false, app, 0, Entered)] else s.runs
  {
    InitialInv(limits);
    RunInv(limits, Initial(), steps);
    var s := RunFrom(limits, Initial(), steps);
    GrantedNow(limits, s, user, read);
    ReserveRuns(limits, s, user, app, read, start);
  }

  /** In every run, a turn that has entered gets its app's session unless another run holds it, and
      is refused exactly then. */
  lemma StartsIff(limits: Limits, steps: seq<Step>, i: nat)
    requires i < |RunFrom(limits, Initial(), steps).runs| && RunFrom(limits, Initial(), steps).runs[i].pc.Entered?
    ensures var s := RunFrom(limits, Initial(), steps);
            var app := s.runs[i].app;
            var t := Next(limits, Next(limits, s, FindSession(i)), Begin(i));
            && |t.runs| == |s.runs| && app in t.current && t.runs[i].obj == t.current[app]
            && (HoldsSession(t.runs[i]) <==> !(app in s.current && exists j :: RunsOn(s, s.current[app], j)))
            && (!HoldsSession(t.runs[i]) ==> t.runs[i].pc == if s.runs[i].reset then Done else Refused)
  {
    InitialInv(limits);
    RunInv(limits, Initial(), steps);
    var s := RunFrom(limits, Initial(), steps);
    var app := s.runs[i].app;
    if app in s.current {
      var o := s.current[app];
      assert Holders(s.runs, SessionOf(o)) == One(s.objects[o].running);
      if s.objects[o].running {
        var k := SomeHolder(s.runs, SessionOf(o));
        assert RunsOn(s, o, k);
      }
      if j :| RunsOn(s, o, j) { OneHolderEach(s, j, j); }
    }
  }

  // ---- One turn per app -------------------------------------------------------------------------------

  predicate HoldsApp(s: State, app: string, run: nat) {
    run < |s.runs| && HoldsSession(s.runs[run]) && s.runs[run].app == app
  }

  ghost predicate TwoOfApp(s: State, app: string) {
    exists i, j :: i != j && HoldsApp(s, app, i) && HoldsApp(s, app, j)
  }

  ghost predicate NeverTwoOfApp(limits: Limits, s: State, steps: seq<Step>, app: string)
    decreases |steps|
  {
    !TwoOfApp(s, app) && (steps != [] ==> NeverTwoOfApp(limits, Next(limits, s, steps[0]), steps[1..], app))
  }

  /** The step claims a session object for a run. */
  predicate Claims(s: State, step: Step) {
    && step.Begin? && step.run < |s.runs| && s.runs[step.run].pc.Found?
    && s.runs[step.run].obj < |s.objects| && !s.objects[s.runs[step.run].obj].running
  }

  /** It does so for a run of the app while another run of the app holds another object. */
  ghost predicate Doubles(s: State, step: Step, app: string) {
    && Claims(s, step) && s.runs[step.run].app == app
    && exists j: nat :: HoldsApp(s, app, j) && s.runs[j].obj != s.runs[step.run].obj
  }

  lemma HoldingBefore(limits: Limits, s: State, step: Step, app: string, i: nat)
    requires HoldsApp(Next(limits, s, step), app, i)
    ensures HoldsApp(s, app, i) || (Claims(s, step) && step.run == i && s.runs[i].app == app)
  {
  }

  lemma HoldingAfter(limits: Limits, s: State, step: Step, app: string, j: nat)
    requires Claims(s, step) && HoldsApp(s, app, j)
    ensures j != step.run && HoldsApp(Next(limits, s, step), app, j)
  {
  }

  lemma ClaimHolds(limits: Limits, s: State, step: Step)
    requires Claims(s, step)
    ensures HoldsApp(Next(limits, s, step), s.runs[step.run].app, step.run)
  {
  }

  /** A free object is not the one that another run holds. */
  lemma OtherObject(s: State, step: Step, app: string, j: nat)
    requires SessionsHeld(s) && ObjectsKnown(s) && Claims(s, step) && HoldsApp(s, app, j)
    ensures s.runs[j].obj != s.runs[step.run].obj
  {
    OneHolderEach(s, j, j);
  }

  lemma StepTwoIff(limits: Limits, s: State, step: Step, app: string)
    requires Inv(s, limits) && !TwoOfApp(s, app)
    ensures TwoOfApp(Next(limits, s, step), app) <==> Doubles(s, step, app)
  {
    var t := Next(limits, s, step);
    if i, j :| i != j && HoldsApp(t, app, i) && HoldsApp(t, app, j) {
      HoldingBefore(limits, s, step, app, i);
      HoldingBefore(limits, s, step, app, j);
      var other := if HoldsApp(s, app, i) then i else j;
      OtherObject(s, step, app, other);
    }
    if Doubles(s, step, app) {
      var j: nat :| HoldsApp(s, app, j) && s.runs[j].obj != s.runs[step.run].obj;
      HoldingAfter(limits, s, step, app, j);
      ClaimHolds(limits, s, step);
    }
  }

  ghost predicate NeverDoubles(limits: Limits, s: State, steps: seq<Step>, app: string)
    decreases |steps|
  {
    steps != [] ==> !Doubles(s, steps[0], app) && NeverDoubles(limits, Next(limits, s, steps[0]), steps[1..], app)
  }

  lemma {:induction false} RunTwoIff(limits: Limits, s: State, steps: seq<Step>, app: string)
    requires Inv(s, limits) && !TwoOfApp(s, app)
    ensures NeverTwoOfApp(limits, s, steps, app) <==> NeverDoubles(limits, s, steps, app)
    decreases |steps|
  {
    if steps != [] {
      var t := Next(limits, s, steps[0]);
      StepInv(limits, s, steps[0]);
      StepTwoIff(limits, s, steps[0], app);
      if !TwoOfApp(t, app) { RunTwoIff(limits, t, steps[1..], app); }
    }
  }

  /** For every interleaving: no two runs of an app hold a session at once if and only if none
      claims a free object while another run of the app holds a different one. */
  lemma NeverTwoIff(limits: Limits, steps: seq<Step>, app: string)
    ensures NeverTwoOfApp(limits, Initial(), steps, app) <==> NeverDoubles(limits, Initial(), steps, app)
  {
    InitialInv(limits);
    RunTwoIff(limits, Initial(), steps, app);
  }

  /** The run has looked its session up and is not through with it. */
  predicate InFlight(s: State, app: string, run: nat) {
    run < |s.runs| && s.runs[run].app == app && (s.runs[run].pc.Found? || HoldsSession(s.runs[run]))
  }

  /** The session is not dropped from under a run. */
  ghost predicate QuietDrop(s: State, step: Step, app: string) {
    step == DropSession(app) ==> forall i :: !InFlight(s, app, i)
  }

  ghost predicate QuietDrops(limits: Limits, s: State, steps: seq<Step>, app: string)
    decreases |steps|
  {
    steps != [] ==> QuietDrop(s, steps[0], app) && QuietDrops(limits, Next(limits, s, steps[0]), steps[1..], app)
  }

  /** Every run in flight has the app's current object. */
  predicate OnCurrent(s: State, app: string, run: nat) {
    InFlight(s, app, run) ==> app in s.current && s.runs[run].obj == s.current[app]
  }

  ghost predicate Together(s: State, app: string) { forall i :: OnCurrent(s, app, i) }

  lemma StepOnCurrent(limits: Limits, s: State, step: Step, app: string, i: nat)
    requires OnCurrent(s, app, i) && QuietDrop(s, step, app)
    ensures OnCurrent(Next(limits, s, step), app, i)
  {
    if step == DropSession(app) { assert !InFlight(s, app, i); }
    if !step.FindSession? { NotFound(limits, s, step, app, i); }
  }

  lemma NotFound(limits: Limits, s: State, step: Step, app: string, i: nat)
    requires !step.FindSession?
    ensures InFlight(Next(limits, s, step), app, i) ==>
              InFlight(s, app, i) && Next(limits, s, step).runs[i].obj == s.runs[i].obj
    ensures !step.DropSession? ==> Next(limits, s, step).current == s.current
  {
  }

  lemma TogetherIsOne(s: State, app: string)
    requires SessionsHeld(s) && ObjectsKnown(s) && Together(s, app)
    ensures !TwoOfApp(s, app)
  {
    if i, j :| i != j && HoldsApp(s, app, i) && HoldsApp(s, app, j) {
      assert OnCurrent(s, app, i) && OnCurrent(s, app, j);
      OneHolderEach(s, i, j);
    }
  }

  lemma {:induction false} QuietRunNeverTwo(limits: Limits, s: State, steps: seq<Step>, app: string)
    requires Inv(s, limits) && Together(s, app) && QuietDrops(limits, s, steps, app)
    ensures NeverTwoOfApp(limits, s, steps, app)
    decreases |steps|
  {
    TogetherIsOne(s, app);
    if steps != [] {
      var t := Next(limits, s, steps[0]);
      StepInv(limits, s, steps[0]);
      forall i: nat ensures OnCurrent(t, app, i) {
        assert OnCurrent(s, app, i);
        StepOnCurrent(limits, s, steps[0], app, i);
      }
      QuietRunNeverTwo(limits, t, steps[1..], app);
    }
  }

  /** If an app's session is only dropped while none of its runs is in flight, at most one run of
      the app holds a session at any time. */
  lemma OneTurnPerApp(limits: Limits, steps: seq<Step>, app: string)
    requires QuietDrops(limits, Initial(), steps, app)
    ensures NeverTwoOfApp(limits, Initial(), steps, app) && NeverDoubles(limits, Initial(), steps, app)
  {
    InitialInv(limits);
    QuietRunNeverTwo(limits, Initial(), steps, app);
    NeverTwoIff(limits, steps, app);
  }

  /** Otherwise: after the app's session is dropped, a second turn for the same app runs beside
      the first. */
  lemma DroppedSessionRunsTwice(app: string)
    ensures var steps := [Reserve("", app, 0, 0), FindSession(0), Begin(0), DropSession(app),
                          Reserve("", app, 0, 0), FindSession(1), Begin(1)];
            var s := RunFrom(DEFAULT_LIMITS, Initial(), steps);
            && |s.runs| == 2 && s.runs[0].app == s.runs[1].app == app
            && HoldsSession(s.runs[0]) && HoldsSession(s.runs[1])
  {
    var d := DEFAULT_LIMITS;
    var s1 := Next(d, Initial(), Reserve("", app, 0, 0));
    var s2 := Next(d, s1, FindSession(0));
    var s3 := Next(d, s2, Begin(0));
    var s4 := Next(d, s3, DropSession(app));
    var s5 := Next(d, s4, Reserve("", app, 0, 0));
    var s6 := Next(d, s5, FindSession(1));
    var s7 := Next(d, s6, Begin(1));
    RunSeven(d, Initial(), [Reserve("", app, 0, 0), FindSession(0), Begin(0), DropSession(app),
                            Reserve("", app, 0, 0), FindSession(1), Begin(1)]);
  }

  lemma RunSeven(limits: Limits, s: State, t: seq<Step>)
    requires |t| == 7
    ensures RunFrom(limits, s, t) ==
            Next(limits, Next(limits, Next(limits, Next(limits, Next(limits, Next(limits, Next(limits, s,
              t[0]), t[1]), t[2]), t[3]), t[4]), t[5]), t[6])
  {
    var s1 := Next(limits, s, t[0]);
    var s2 := Next(limits, s1, t[1]);
    var s3 := Next(limits, s2, t[2]);
    var s4 := Next(limits, s3, t[3]);
    var s5 := Next(limits, s4, t[4]);
    var s6 := Next(limits, s5, t[5]);
    var s7 := Next(limits, s6, t[6]);
    assert t[1..][1..] == t[2..] && t[2..][1..] == t[3..] && t[3..][1..] == t[4..];
    assert t[4..][1..] == t[5..] && t[5..][1..] == t[6..] && t[6..][1..] == [];
    assert RunFrom(limits, s7, []) == s7;
    assert RunFrom(limits, s6, t[6..]) == s7;
    assert RunFrom(limits, s5, t[5..]) == s7;
    assert RunFrom(limits, s4, t[4..]) == s7;
    assert RunFrom(limits, s3, t[3..]) == s7;
    assert RunFrom(limits, s2, t[2..]) == s7;
    assert RunFrom(limits, s1, t[1..]) == s7;
  }
}
