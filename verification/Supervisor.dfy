/** The in-container supervisor (agent/service.go): the run loop, its one-slot wake and
    reload channels, the pause flag, and callers of Pause, Resume and Reload interleaved
    with it at every point, also between their flag store and their send. */
module Supervisor {

  // ---- Restart back-off: times in seconds ------------------------------------------------

  const RESTART_BACKOFF_BASE := 2
  const RESTART_BACKOFF_MAX := 60
  const HEALTHY_RUN_TIME := 30
  const CRASH_LIMIT := 5

  datatype Plan = Plan(crashes: nat, delay: nat, giveUp: bool)

  function Shifted(base: nat, bits: nat): nat { if bits == 0 then base else 2 * Shifted(base, bits - 1) }

  function RestartPlan(crashes: nat, ranFor: nat): Plan {
    if ranFor >= HEALTHY_RUN_TIME then Plan(0, RESTART_BACKOFF_BASE, false)
    else if crashes + 1 >= CRASH_LIMIT then Plan(crashes + 1, 0, true)
    else
      var delay := Shifted(RESTART_BACKOFF_BASE, crashes);
      Plan(crashes + 1, if delay > RESTART_BACKOFF_MAX then RESTART_BACKOFF_MAX else delay, false)
  }

  /** The crash count after one more exit: giving up starts over. */
  function CrashesAfter(crashes: nat, ranFor: nat): nat {
    var p := RestartPlan(crashes, ranFor);
    if p.giveUp then 0 else p.crashes
  }

  /** After a history of exits, newest last, with no child killed in between. */
  function CrashCount(exits: seq<nat>): nat {
    if exits == [] then 0 else CrashesAfter(CrashCount(exits[..|exits| - 1]), exits[|exits| - 1])
  }

  /** How many exits at the end of the history came in less than the healthy time. */
  function RapidInARow(exits: seq<nat>): nat {
    if exits == [] || exits[|exits| - 1] >= HEALTHY_RUN_TIME then 0 else 1 + RapidInARow(exits[..|exits| - 1])
  }

  /** The supervisor gives up at every fifth rapid exit in a row and at no other; before
      that it waits 2, 4, 8 and 16 seconds, so the sixty-second cap is never reached. */
  lemma {:induction false} BackoffLaw(exits: seq<nat>, ranFor: nat)
    ensures CrashCount(exits) == RapidInARow(exits) % CRASH_LIMIT
    ensures var plan, row := RestartPlan(CrashCount(exits), ranFor), RapidInARow(exits + [ranFor]);
            && (plan.giveUp <==> row > 0 && row % CRASH_LIMIT == 0)
            && (!plan.giveUp ==> plan.delay == match row % CRASH_LIMIT
                                               case 0 => 2 case 1 => 2 case 2 => 4 case 3 => 8 case _ => 16)
  {
    assert (exits + [ranFor])[..|exits|] == exits;
    if exits != [] { BackoffLaw(exits[..|exits| - 1], exits[|exits| - 1]); }
    var c := CrashCount(exits);
    assert Shifted(2, 0) == 2 && Shifted(2, 1) == 4;
    assert Shifted(2, 2) == 2 * Shifted(2, 1) && Shifted(2, 3) == 2 * Shifted(2, 2);
    assert exits != [] ==> exits == exits[..|exits| - 1] + [exits[|exits| - 1]];
  }

  // ---- The state machine -----------------------------------------------------------------

  /** Where the loop is. A version is the hostit.yml it has read. */
  datatype Pc =
    | Top                      // about to look at the pause flag
    | Loading                  // it was not set; about to read hostit.yml
    | PausedWait               // it was set; waiting to be woken
    | IdleWait(read: nat)      // nothing to run; waiting to be woken
    | Preparing(read: nat)     // running the prepare step
    | Starting(read: nat)      // about to start the child
    | Running(read: nat)       // the child is up; waiting for it, the owner or shutdown
    | Killing(read: nat)       // stopping the child
    | Backoff(delay: nat)      // waiting so long before the next attempt
    | FailedWait               // gave up on a crashing app; waiting to be woken
    | Halted

  /** `wake`, `reloads`: the channel holds its one token. `waking`, `reloading`: callers that
      have stored the flag and not sent yet. `config` is the version of hostit.yml on disk,
      `wanted` its version when the last Reload was sent. Two records
      the loop does not keep: `exits` says how long the children ran that have exited since one
      was last killed, `last` how the newest attempt to start one went. */
  datatype State = State(pc: Pc, paused: bool, wake: bool, reloads: bool, stopping: bool,
                         waking: nat, reloading: nat, config: nat, wanted: nat, crashes: nat,
                         exits: seq<nat>, last: Attempt)

  /** The version of hostit.yml that was read, whether it has something to run, and whether its
      prepare step and its start succeeded. */
  datatype Attempt = Attempt(version: nat, usable: bool, prepared: bool, started: bool)

  datatype Step =
    // callers
    | StorePause | StoreResume | StoreReload | SendWake | SendReload | EditConfig | Stop
    // the run loop
    | CheckPaused | LoadConfig(usable: bool) | Prepared(ok: bool) | Started(ok: bool)
    | ChildExited(ranFor: nat) | Killed | TimeUp | TakeWake | TakeReload | TakeStop

  predicate Waits(pc: Pc) { pc.PausedWait? || pc.IdleWait? || pc.FailedWait? || pc.Backoff? || pc.Running? }

  /** Where a wait goes when the owner acts. */
  function Roused(s: State): State {
    if s.pc.Running? then s.(pc := Killing(s.pc.read), crashes := 0, exits := []) else s.(pc := Top)
  }

  predicate Enabled(s: State, step: Step) {
    match step
    case StorePause => true
    case StoreResume => true
    case StoreReload => true
    case SendWake => s.waking > 0
    case SendReload => s.reloading > 0
    case EditConfig => true
    case Stop => true
    case CheckPaused => s.pc.Top?
    case LoadConfig(_) => s.pc.Loading?
    case Prepared(_) => s.pc.Preparing?
    case Started(_) => s.pc.Starting?
    case ChildExited(_) => s.pc.Running?
    case Killed => s.pc.Killing?
    case TimeUp => s.pc.Backoff?
    case TakeWake => Waits(s.pc) && s.wake
    case TakeReload => Waits(s.pc) && s.reloads
    case TakeStop => Waits(s.pc) && s.stopping
  }

  function Next(s: State, step: Step): State
    requires Enabled(s, step)
  {
    match step
    case StorePause => s.(paused := true, waking := s.waking + 1)
    case StoreResume => s.(paused := false, waking := s.waking + 1)
    case StoreReload => s.(paused := false, reloading := s.reloading + 1)
    case SendWake => s.(wake := true, waking := s.waking - 1)
    case SendReload => s.(reloads := true, reloading := s.reloading - 1, wanted := s.config)
    case EditConfig => s.(config := s.config + 1)
    case Stop => s.(stopping := true)
    case CheckPaused => s.(pc := if s.paused then PausedWait else Loading)
    case LoadConfig(usable) =>
      s.(pc := if usable then Preparing(s.config) else IdleWait(s.config),
         last := Attempt(s.config, usable, false, false))
    case Prepared(ok) =>
      s.(pc := if ok then Starting(s.pc.read) else Backoff(RESTART_BACKOFF_BASE), last := s.last.(prepared := ok))
    case Started(ok) =>
      s.(pc := if ok then Running(s.pc.read) else Backoff(RESTART_BACKOFF_BASE), last := s.last.(started := ok))
    case ChildExited(ranFor) =>
      var p, t := RestartPlan(s.crashes, ranFor), s.(exits := s.exits + [ranFor]);
      if p.giveUp then t.(pc := FailedWait, crashes := 0) else t.(pc := Backoff(p.delay), crashes := p.crashes)
    case Killed => s.(pc := Top)
    case TimeUp => s.(pc := Top)
    case TakeWake => Roused(s).(wake := false)
    case TakeReload => Roused(s).(reloads := false)
    case TakeStop => s.(pc := Halted)
  }

  function Initial(): State {
    State(Top, false, false, false, false, 0, 0, 0, 0, 0, [], Attempt(0, false, false, false))
  }

  ghost predicate Possible(s: State, steps: seq<Step>)
    decreases |steps|
  {
    steps != [] ==> Enabled(s, steps[0]) && Possible(Next(s, steps[0]), steps[1..])
  }

  function RunFrom(s: State, steps: seq<Step>): State
    requires Possible(s, steps)
    decreases |steps|
  {
    if steps == [] then s else RunFrom(Next(s, steps[0]), steps[1..])
  }

  // ---- No owner action is lost ----------------------------------------------------------------

  predicate HeadsForTop(pc: Pc) { pc.Top? || pc.Killing? }

  /** The loop holds, or has started a child from, a version of hostit.yml. */
  predicate HasRead(pc: Pc) { pc.IdleWait? || pc.Preparing? || pc.Starting? || pc.Running? }

  predicate PauseSeen(s: State) {
    s.paused && !s.pc.Halted? ==> s.wake || s.waking > 0 || HeadsForTop(s.pc) || s.pc.PausedWait?
  }

  predicate ResumeSeen(s: State) {
    !s.paused && s.pc.PausedWait? ==> s.wake || s.reloads || s.waking > 0 || s.reloading > 0
  }

  predicate ReloadSeen(s: State) {
    && s.wanted <= s.config
    && (HasRead(s.pc) ==> s.pc.read <= s.config && (s.pc.read < s.wanted ==> s.reloads))
  }

  predicate Inv(s: State) { PauseSeen(s) && ResumeSeen(s) && ReloadSeen(s) && s.crashes < CRASH_LIMIT }

  lemma StepInv(s: State, step: Step)
    requires Inv(s) && Enabled(s, step)
    ensures Inv(Next(s, step))
  {
  }

  lemma {:induction false} RunInv(s: State, steps: seq<Step>)
    requires Inv(s) && Possible(s, steps)
    ensures Inv(RunFrom(s, steps))
    decreases |steps|
  {
    if steps != [] {
      StepInv(s, steps[0]);
      RunInv(Next(s, steps[0]), steps[1..]);
    }
  }

  /** For every interleaving, once no caller is between its store and its send: a set pause
      flag means the supervisor has a token waiting, is on its way to look at the flag, or
      is in the paused wait; in the paused wait, a cleared flag means a token is waiting; a
      child from a configuration older than the last Reload means a reload is waiting. */
  lemma NoActionLost(steps: seq<Step>)
    requires Possible(Initial(), steps)
    ensures var s := RunFrom(Initial(), steps);
            s.waking == 0 && s.reloading == 0 && !s.pc.Halted? ==>
              && (s.paused ==> s.wake || HeadsForTop(s.pc) || s.pc.PausedWait?)
              && (!s.paused && s.pc.PausedWait? ==> s.wake || s.reloads)
              && (HasRead(s.pc) && s.pc.read < s.wanted ==> s.reloads)
  {
    RunInv(Initial(), steps);
  }

  /** So when the callers are done and the supervisor sits in a wait with no token, it is in
      the right one: paused exactly when the flag says so, and nothing older than the last
      reload is running. */
  lemma SettledIsRight(steps: seq<Step>)
    requires Possible(Initial(), steps)
    ensures var s := RunFrom(Initial(), steps);
            s.waking == 0 && s.reloading == 0 && !s.wake && !s.reloads && Waits(s.pc) ==>
              && (s.pc.PausedWait? <==> s.paused)
              && (s.pc.Running? ==> s.pc.read >= s.wanted)
  {
    RunInv(Initial(), steps);
  }

  // ---- When something runs ---------------------------------------------------------------------------

  /** The loop is where the newest attempt has brought it: a child is up only if its configuration
      had something to run, was prepared and was started; the loop idles only if it had not. */
  predicate AsAttempted(s: State) {
    match s.pc
    case IdleWait(v) => s.last.version == v && !s.last.usable
    case Preparing(v) => s.last.version == v && s.last.usable
    case Starting(v) => s.last.version == v && s.last.usable && s.last.prepared
    case Running(v) => s.last == Attempt(v, true, true, true)
    case Killing(v) => s.last == Attempt(v, true, true, true)
    case Backoff(_) => s.last.usable
    case FailedWait => s.last.usable && s.last.prepared && s.last.started
    case Halted => s.stopping
    case _ => true
  }

  lemma StepAsAttempted(s: State, step: Step)
    requires AsAttempted(s) && Enabled(s, step)
    ensures AsAttempted(Next(s, step))
  {
    match step
    case LoadConfig(_) =>
    case Prepared(_) =>
    case Started(_) =>
    case ChildExited(_) =>
    case _ => assert Next(s, step).last == s.last;
  }

  lemma {:induction false} RunAsAttempted(s: State, steps: seq<Step>)
    requires AsAttempted(s) && Possible(s, steps)
    ensures AsAttempted(RunFrom(s, steps))
    decreases |steps|
  {
    if steps != [] {
      StepAsAttempted(s, steps[0]);
      RunAsAttempted(Next(s, steps[0]), steps[1..]);
    }
  }

  /** For every interleaving. The loop ends only when it was told to. */
  lemma RunsOnlyWhatStarts(steps: seq<Step>)
    requires Possible(Initial(), steps)
    ensures var s := RunFrom(Initial(), steps);
            && (s.pc.Running? ==> s.last == Attempt(s.pc.read, true, true, true))
            && (s.pc.IdleWait? ==> s.last.version == s.pc.read && !s.last.usable)
            && (s.pc.Halted? ==> s.stopping)
  {
    RunAsAttempted(Initial(), steps);
  }

  /** The start of an app: with the flag clear, four steps of the loop run what hostit.yml says; a
      configuration without a command idles, and a step that fails is tried again later. */
  lemma StartsUp(s: State, usable: bool, prepared: bool, started: bool)
    requires s.pc.Top? && !s.paused
    ensures var loaded := Next(Next(s, CheckPaused), LoadConfig(usable));
            if !usable then loaded.pc == IdleWait(s.config)
            else
              && loaded.pc == Preparing(s.config)
              && var ready := Next(loaded, Prepared(prepared));
                 if !prepared then ready.pc == Backoff(RESTART_BACKOFF_BASE) && Next(ready, TimeUp).pc.Top?
                 else
                   && ready.pc == Starting(s.config)
                   && Next(ready, Started(started)).pc ==
                      if started then Running(s.config) else Backoff(RESTART_BACKOFF_BASE)
  {
  }

  // ---- What the owner asked for ------------------------------------------------------------------------

  /** Whether the last of the callers' stores was a Pause. */
  function PausedBy(was: bool, steps: seq<Step>): bool {
    if steps == [] then was
    else
      var n := |steps| - 1;
      match steps[n]
      case StorePause => true
      case StoreResume => false
      case StoreReload => false
      case _ => PausedBy(was, steps[..n])
  }

  function Edits(steps: seq<Step>): nat {
    if steps == [] then 0
    else Edits(steps[..|steps| - 1]) + if steps[|steps| - 1].EditConfig? then 1 else 0
  }

  /** How often hostit.yml had been changed when the last Reload was sent. */
  function Asked(steps: seq<Step>): nat {
    if steps == [] then 0
    else if steps[|steps| - 1].SendReload? then Edits(steps[..|steps| - 1])
    else Asked(steps[..|steps| - 1])
  }

  lemma {:induction false} RunSnoc(s: State, steps: seq<Step>, step: Step)
    requires Possible(s, steps + [step])
    ensures Possible(s, steps) && Enabled(RunFrom(s, steps), step)
    ensures RunFrom(s, steps + [step]) == Next(RunFrom(s, steps), step)
    decreases |steps|
  {
    if steps == [] {
      assert steps + [step] == [step] && [step][1..] == [];
      assert RunFrom(Next(s, step), []) == Next(s, step);
    } else {
      assert (steps + [step])[1..] == steps[1..] + [step];
      RunSnoc(Next(s, steps[0]), steps[1..], step);
    }
  }

  function CountOf(steps: seq<Step>, p: Step -> bool): nat {
    if steps == [] then 0 else CountOf(steps[..|steps| - 1], p) + if p(steps[|steps| - 1]) then 1 else 0
  }

  predicate StoresForWake(step: Step) { step.StorePause? || step.StoreResume? }

  /** Callers are never held up, and at the start nobody has called. */
  lemma CallersNeverBlock(s: State)
    ensures Enabled(s, StorePause) && Enabled(s, StoreResume) && Enabled(s, StoreReload) && Enabled(s, Stop)
    ensures s.waking > 0 ==> Enabled(s, SendWake)
    ensures s.reloading > 0 ==> Enabled(s, SendReload)
    ensures var i := Initial(); !i.wake && !i.reloads && !i.stopping && i.waking == i.reloading == 0
  {
  }

  /** The callers between their store and their send are those who have stored and not sent. */
  lemma {:induction false} CallersCounted(steps: seq<Step>)
    requires Possible(Initial(), steps)
    ensures var s := RunFrom(Initial(), steps);
            && s.waking + CountOf(steps, (step: Step) => step.SendWake?) == CountOf(steps, StoresForWake)
            && s.reloading + CountOf(steps, (step: Step) => step.SendReload?) ==
               CountOf(steps, (step: Step) => step.StoreReload?)
    decreases |steps|
  {
    if steps != [] {
      var n := |steps| - 1;
      assert steps == steps[..n] + [steps[n]];
      RunSnoc(Initial(), steps[..n], steps[n]);
      CallersCounted(steps[..n]);
      CallerStep(RunFrom(Initial(), steps[..n]), steps[n]);
    }
  }

  lemma CallerStep(s: State, step: Step)
    requires Enabled(s, step)
    ensures var t := Next(s, step);
            && t.waking + (if step.SendWake? then 1 else 0) == s.waking + (if StoresForWake(step) then 1 else 0)
            && t.reloading + (if step.SendReload? then 1 else 0) == s.reloading + (if step.StoreReload? then 1 else 0)
  {
  }

  /** The flag says what was stored last, and `wanted` is what the last Reload was about. */
  lemma {:induction false} FlagIsLastCall(steps: seq<Step>)
    requires Possible(Initial(), steps)
    ensures var s := RunFrom(Initial(), steps);
            s.paused == PausedBy(false, steps) && s.config == Edits(steps) && s.wanted == Asked(steps)
    decreases |steps|
  {
    if steps != [] {
      var n := |steps| - 1;
      assert steps == steps[..n] + [steps[n]];
      RunSnoc(Initial(), steps[..n], steps[n]);
      FlagIsLastCall(steps[..n]);
      FlagStep(RunFrom(Initial(), steps[..n]), steps[n]);
    }
  }

  lemma FlagStep(s: State, step: Step)
    requires Enabled(s, step)
    ensures var t := Next(s, step);
            && t.paused == (step.StorePause? || (s.paused && !step.StoreResume? && !step.StoreReload?))
            && t.config == s.config + (if step.EditConfig? then 1 else 0)
            && t.wanted == if step.SendReload? then s.config else s.wanted
  {
  }

  // ---- The crash counter -------------------------------------------------------------------------

  lemma StepCounts(s: State, step: Step)
    requires s.crashes == CrashCount(s.exits) && Enabled(s, step)
    ensures Next(s, step).crashes == CrashCount(Next(s, step).exits)
  {
    if step.ChildExited? { assert (s.exits + [step.ranFor])[..|s.exits|] == s.exits; }
  }

  lemma {:induction false} RunCounts(s: State, steps: seq<Step>)
    requires s.crashes == CrashCount(s.exits) && Possible(s, steps)
    ensures RunFrom(s, steps).crashes == CrashCount(RunFrom(s, steps).exits)
    decreases |steps|
  {
    if steps != [] {
      StepCounts(s, steps[0]);
      RunCounts(Next(s, steps[0]), steps[1..]);
    }
  }

  /** What the loop does after an exit that is the `row`-th rapid one in a row. */
  function AfterExit(row: nat): Pc {
    if row > 0 && row % CRASH_LIMIT == 0 then FailedWait
    else Backoff(match row % CRASH_LIMIT case 0 => 2 case 1 => 2 case 2 => 4 case 3 => 8 case _ => 16)
  }

  /** For every interleaving: the counter is the number of rapid exits in a row since a child was
      last killed, modulo five; the loop gives up exactly when an exit makes that a multiple of
      five, and otherwise waits 2, 4, 8 and 16 seconds in turn, and 2 after a healthy run. A pause,
      resume or reload during the back-off or another wait, which kills nothing, does not start
      the count over. */
  lemma GivesUpIff(steps: seq<Step>, ranFor: nat)
    requires Possible(Initial(), steps)
    ensures var s := RunFrom(Initial(), steps);
            && s.crashes == RapidInARow(s.exits) % CRASH_LIMIT
            && (s.pc.Running? ==> Next(s, ChildExited(ranFor)).pc == AfterExit(RapidInARow(s.exits + [ranFor])))
  {
    RunCounts(Initial(), steps);
    BackoffLaw(RunFrom(Initial(), steps).exits, ranFor);
  }

  // ---- And it is acted upon -----------------------------------------------------------------------

  predicate OfLoop(step: Step) {
    step.CheckPaused? || step.LoadConfig? || step.Prepared? || step.Started? || step.ChildExited? || step.Killed?
    || step.TimeUp? || step.TakeWake? || step.TakeReload? || step.TakeStop?
  }

  function Distance(pc: Pc): nat {
    match pc
    case Halted => 0
    case PausedWait => 1
    case Top => 2
    case Killing(_) => 3
    case Backoff(_) => 3
    case FailedWait => 3
    case IdleWait(_) => 3
    case Running(_) => 4
    case Starting(_) => 5
    case Preparing(_) => 6
    case Loading => 7
  }

  /** Steps the loop can still make before it rests in the paused wait. */
  function Rank(s: State): nat {
    Distance(s.pc) + (if s.wake then 2 else 0) + (if s.reloads then 2 else 0)
  }

  lemma LoopStepDescends(s: State, step: Step)
    requires Inv(s) && s.paused && s.waking == 0 && OfLoop(step) && Enabled(s, step)
    ensures Rank(Next(s, step)) < Rank(s)
  {
  }

  /** The loop is at one of its own actions, which end without the owner. */
  predicate Working(pc: Pc) {
    pc.Top? || pc.Loading? || pc.Preparing? || pc.Starting? || pc.Killing?
  }

  /** Whatever else the loop does once Pause has returned (the prepare step failing, the
      child crashing, the timer and the token racing), eleven of its own steps later it rests
      in the paused wait with no child, unless it was shut down. It never blocks anywhere
      else on the way: in every other wait a token is there to be taken, so neither a child's
      exit nor the timer is needed. */
  lemma {:induction false} PauseTakesEffect(s: State, steps: seq<Step>)
    requires Inv(s) && s.paused && s.waking == 0
    requires Possible(s, steps) && forall i :: 0 <= i < |steps| ==> OfLoop(steps[i])
    ensures |steps| <= Rank(s) <= 11
    ensures var r := RunFrom(s, steps);
            r.pc.PausedWait? || r.pc.Halted? || Working(r.pc) || Enabled(r, TakeWake)
    decreases |steps|
  {
    if steps != [] {
      LoopStepDescends(s, steps[0]);
      StepInv(s, steps[0]);
      PauseTakesEffect(Next(s, steps[0]), steps[1..]);
    }
  }

  /** A configuration older than the last Reload is running, still being killed, or about to run. */
  predicate Stale(s: State) { (HasRead(s.pc) || s.pc.Killing?) && s.pc.read < s.wanted }

  function StaleRank(s: State): nat {
    if !Stale(s) then 0
    else match s.pc
      case Preparing(_) => 4
      case Starting(_) => 3
      case Running(_) => 2
      case _ => 1
  }

  lemma StaleStep(s: State, step: Step)
    requires Inv(s) && OfLoop(step) && Enabled(s, step)
    ensures if Stale(s) then StaleRank(Next(s, step)) < StaleRank(s) else !Stale(Next(s, step))
  {
  }

  /** Once Reload has returned, four of the loop's own steps later nothing older is running,
      being killed or about to run, whichever steps they are; and until then the loop is never
      blocked: while such a child runs, the reload is there to be taken. */
  lemma {:induction false} ReloadTakesEffect(s: State, steps: seq<Step>)
    requires Inv(s) && Possible(s, steps) && forall i :: 0 <= i < |steps| ==> OfLoop(steps[i])
    ensures |steps| >= StaleRank(s) ==> !Stale(RunFrom(s, steps))
    ensures StaleRank(s) <= 4
    ensures Stale(s) ==> Working(s.pc) || Enabled(s, TakeReload)
    decreases |steps|
  {
    if steps != [] {
      StaleStep(s, steps[0]);
      StepInv(s, steps[0]);
      ReloadTakesEffect(Next(s, steps[0]), steps[1..]);
    }
  }
}
