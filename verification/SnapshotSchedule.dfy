/** When automatic snapshots happen (control/snapshotsched.go, control/snapshot.go). Times
    are nanoseconds since the epoch, durations nanoseconds. The hash of an app's name is a
    parameter. */
module SnapshotSchedule {
  const SECOND := 1_000_000_000
  const TICK_SECONDS := 900
  const SNAPSHOT_TICK := TICK_SECONDS * SECOND
  const OVERDUE_FACTOR := 2
  const ZERO_TIME := -62135596800 * SECOND

  type Time = int

  function SlotCount(interval: int): (n: int)
    requires interval > 0
    ensures n >= 1
  {
    var n := interval / SNAPSHOT_TICK;
    if n < 1 then 1 else n
  }

  function SnapshotSlot(hash: nat, interval: int): int
    requires interval > 0
  {
    hash % SlotCount(interval)
  }

  function CurrentSlot(interval: int, now: Time): int
    requires interval >= SECOND && now >= 0
  {
    (now / SECOND) % (interval / SECOND) / TICK_SECONDS
  }

  /** `Panic`: the source divides by the interval's whole seconds, which may be zero. */
  datatype Verdict = Panic | Answer(due: bool)

  function SnapshotDue(hash: nat, interval: int, last: Time, now: Time): Verdict
    requires now >= 0
  {
    if interval <= 0 then Answer(false)
    else if last != ZERO_TIME && now - last < interval then Answer(false)
    else if last != ZERO_TIME && now - last >= OVERDUE_FACTOR * interval then Answer(true)
    else if interval < SECOND then Panic
    else Answer(SnapshotSlot(hash, interval) == CurrentSlot(interval, now))
  }

  /** Intervals below a second are accepted in hostit.yml; this is when one stops the sweep. */
  lemma PanicsIff(hash: nat, interval: int, last: Time, now: Time)
    requires now >= 0
    ensures SnapshotDue(hash, interval, last, now).Panic? <==>
            0 < interval < SECOND && (last == ZERO_TIME || interval <= now - last < 2 * interval)
  {
  }

  // ---- The newest automatic snapshot --------------------------------------------------------

  datatype Snapshot = Snapshot(auto: bool, createdAt: Time)

  method LastAutoSnapshot(snaps: seq<Snapshot>) returns (newest: Time)
    requires forall i :: 0 <= i < |snaps| ==> snaps[i].createdAt >= ZERO_TIME
    ensures forall i :: 0 <= i < |snaps| && snaps[i].auto ==> snaps[i].createdAt <= newest
    ensures newest == ZERO_TIME || exists i :: 0 <= i < |snaps| && snaps[i].auto && snaps[i].createdAt == newest
  {
    newest := ZERO_TIME;
    for i := 0 to |snaps|
      invariant forall j :: 0 <= j < i && snaps[j].auto ==> snaps[j].createdAt <= newest
      invariant newest == ZERO_TIME || exists j :: 0 <= j < i && snaps[j].auto && snaps[j].createdAt == newest
    {
      if snaps[i].auto && snaps[i].createdAt > newest { newest := snaps[i].createdAt; }
    }
  }

  // ---- One app over a run of sweeps -----------------------------------------------------------

  /** A sweep, whose snapshot (if it is due) succeeds or not, or the automatic snapshot a
      deploy takes. */
  datatype Event = Sweep(at: Time, ok: bool) | Deploy(at: Time)

  datatype Taken = Taken(at: Time, scheduled: bool)

  predicate Fires(hash: nat, interval: int, last: Time, e: Event)
    requires e.at >= 0
  {
    e.Deploy? || (e.ok && SnapshotDue(hash, interval, last, e.at) == Answer(true))
  }

  function LastOf(taken: seq<Taken>): Time { if taken == [] then ZERO_TIME else taken[|taken| - 1].at }

  /** Every automatic snapshot after the events, oldest first. */
  function TakenAfter(hash: nat, interval: int, taken: seq<Taken>, events: seq<Event>): seq<Taken>
    requires forall i :: 0 <= i < |events| ==> events[i].at >= 0
    decreases |events|
  {
    if events == [] then taken
    else
      var e := events[0];
      var taken' := if Fires(hash, interval, LastOf(taken), e) then taken + [Taken(e.at, e.Sweep?)] else taken;
      TakenAfter(hash, interval, taken', events[1..])
  }

  /** One event after the others: a deploy always takes one, a sweep if it is due and succeeds. */
  lemma {:induction false} TakenSnoc(hash: nat, interval: int, taken: seq<Taken>, events: seq<Event>, e: Event)
    requires e.at >= 0 && forall i :: 0 <= i < |events| ==> events[i].at >= 0
    ensures forall i :: 0 <= i < |events + [e]| ==> (events + [e])[i].at >= 0
    ensures var before := TakenAfter(hash, interval, taken, events);
            TakenAfter(hash, interval, taken, events + [e]) ==
            match e
            case Deploy(at) => before + [Taken(at, false)]
            case Sweep(at, ok) =>
              if ok && SnapshotDue(hash, interval, LastOf(before), at) == Answer(true) then before + [Taken(at, true)]
              else before
    decreases |events|
  {
    if events == [] {
      assert events + [e] == [e] && [e][1..] == [];
    } else {
      var first := events[0];
      assert (events + [e])[1..] == events[1..] + [e];
      var fires := Fires(hash, interval, LastOf(taken), first);
      var taken' := if fires then taken + [Taken(first.at, first.Sweep?)] else taken;
      TakenSnoc(hash, interval, taken', events[1..], e);
    }
  }


  ghost predicate Spaced(taken: seq<Taken>, interval: int) {
    forall i, j :: 0 <= i && j == i + 1 && j < |taken| && taken[j].scheduled ==> taken[j].at - taken[i].at >= interval
  }

  ghost predicate Dated(taken: seq<Taken>) { forall i :: 0 <= i < |taken| ==> taken[i].at >= 0 }

  lemma OneMoreSpaced(hash: nat, interval: int, taken: seq<Taken>, e: Event)
    requires Spaced(taken, interval) && Dated(taken) && e.at >= 0 && Fires(hash, interval, LastOf(taken), e)
    ensures Spaced(taken + [Taken(e.at, e.Sweep?)], interval) && Dated(taken + [Taken(e.at, e.Sweep?)])
  {
    if taken != [] { assert LastOf(taken) != ZERO_TIME; }
  }

  /** Whatever happens, a scheduled snapshot comes at least one interval after the automatic
      one before it. */
  lemma {:induction false} ScheduledSpacing(hash: nat, interval: int, taken: seq<Taken>, events: seq<Event>)
    requires forall i :: 0 <= i < |events| ==> events[i].at >= 0
    requires Spaced(taken, interval) && Dated(taken)
    ensures Spaced(TakenAfter(hash, interval, taken, events), interval)
    ensures taken <= TakenAfter(hash, interval, taken, events)
    decreases |events|
  {
    if events != [] {
      if Fires(hash, interval, LastOf(taken), events[0]) {
        OneMoreSpaced(hash, interval, taken, events[0]);
        ScheduledSpacing(hash, interval, taken + [Taken(events[0].at, events[0].Sweep?)], events[1..]);
      } else {
        ScheduledSpacing(hash, interval, taken, events[1..]);
      }
    }
  }

  /** Sweeps come at most `gap` apart, the first within `gap` of `swept`, and all succeed. */
  ghost predicate SweepsWithin(events: seq<Event>, swept: Time, gap: int)
    decreases |events|
  {
    events != [] ==>
      (match events[0]
       case Sweep(at, ok) => ok && 0 <= at - swept <= gap && SweepsWithin(events[1..], at, gap)
       case Deploy(at) => at >= swept && SweepsWithin(events[1..], swept, gap))
  }

  function LastSweep(events: seq<Event>, swept: Time): Time {
    if events == [] then swept
    else LastSweep(events[1..], if events[0].Sweep? then events[0].at else swept)
  }

  /** At the last sweep, the newest automatic snapshot was younger than two intervals. */
  lemma {:induction false} YoungAtSweep(hash: nat, interval: int, taken: seq<Taken>, events: seq<Event>,
                                        swept: Time, gap: int)
    requires interval >= SECOND && Dated(taken) && taken != [] && swept - LastOf(taken) < 2 * interval
    requires forall i :: 0 <= i < |events| ==> events[i].at >= 0
    requires SweepsWithin(events, swept, gap)
    ensures TakenAfter(hash, interval, taken, events) != []
    ensures LastSweep(events, swept) - LastOf(TakenAfter(hash, interval, taken, events)) < 2 * interval
    decreases |events|
  {
    if events != [] {
      var e := events[0];
      assert LastOf(taken) != ZERO_TIME;
      var taken' := if Fires(hash, interval, LastOf(taken), e) then taken + [Taken(e.at, e.Sweep?)] else taken;
      YoungAtSweep(hash, interval, taken', events[1..], if e.Sweep? then e.at else swept, gap);
    }
  }

  /** With sweeps at most `gap` apart that succeed, the newest automatic snapshot is never older
      than two intervals and a gap, whatever the slot. */
  lemma AgeBound(hash: nat, interval: int, taken: seq<Taken>, events: seq<Event>, swept: Time, gap: int, now: Time)
    requires interval >= SECOND && Dated(taken) && taken != [] && swept - LastOf(taken) < 2 * interval
    requires forall i :: 0 <= i < |events| ==> events[i].at >= 0
    requires SweepsWithin(events, swept, gap) && now - LastSweep(events, swept) <= gap
    ensures now - LastOf(TakenAfter(hash, interval, taken, events)) < 2 * interval + gap
  {
    YoungAtSweep(hash, interval, taken, events, swept, gap);
  }

  // ---- Slots ------------------------------------------------------------------------------------

  /** The slots repeat after the interval's whole seconds. */
  function Period(interval: int): int { interval / SECOND * SECOND }

  lemma AtLeastOnce(k: int, d: int)
    requires d > 0
    ensures k >= 1 ==> k * d >= d
    ensures k <= -1 ==> k * d <= -d
  {
  }

  lemma Distribute(q: int, m: int, d: int)
    ensures q * d - m * d == (q - m) * d
  {
  }

  lemma DivMod(a: int, m: int, d: int, y: int)
    requires d > 0 && a == m * d + y && 0 <= y < d
    ensures a / d == m && a % d == y
  {
    var q, r := a / d, a % d;
    assert a == q * d + r;
    Distribute(q, m, d);
    AtLeastOnce(q - m, d);
    assert q == m;
  }

  lemma SecondsOf(m: nat, seconds: nat, x: nat)
    requires seconds > 0 && x < seconds * SECOND
    ensures (m * (seconds * SECOND) + x) / SECOND % seconds == x / SECOND
  {
    var y := x / SECOND;
    assert m * (seconds * SECOND) == (m * seconds) * SECOND;
    DivMod(m * (seconds * SECOND) + x, m * seconds + y, SECOND, x % SECOND);
    DivMod(m * seconds + y, m, seconds, y);
  }

  lemma SlotFits(interval: int, slot: nat)
    requires interval >= SECOND && slot < SlotCount(interval)
    ensures interval >= SNAPSHOT_TICK ==> (slot + 1) * SNAPSHOT_TICK <= Period(interval)
    ensures interval < SNAPSHOT_TICK ==> slot == 0 && Period(interval) < SNAPSHOT_TICK
  {
    var n := interval / SNAPSHOT_TICK;
    if interval >= SNAPSHOT_TICK {
      assert (slot + 1) * SNAPSHOT_TICK <= n * SNAPSHOT_TICK <= interval;
      assert (slot + 1) * TICK_SECONDS <= interval / SECOND;
    }
  }

  /** The moment `r` into the `m`-th round of slot `slot`; round -1 is the one under way at the
      epoch. */
  function At(interval: int, slot: nat, m: int, r: nat): Time { m * Period(interval) + slot * SNAPSHOT_TICK + r }

  /** Where in its round slot `slot` is on: the first tick, and nowhere else. */
  lemma InSlotIff(interval: int, slot: nat, m: int, r: nat)
    requires interval >= SNAPSHOT_TICK && slot < SlotCount(interval) && r < Period(interval)
    requires m >= -1 && At(interval, slot, m, r) >= 0
    ensures CurrentSlot(interval, At(interval, slot, m, r)) == slot <==> r < SNAPSHOT_TICK
  {
    SlotFits(interval, slot);
    var seconds, x := interval / SECOND, slot * SNAPSHOT_TICK + r;
    if x < Period(interval) {
      assert m >= 0;
      SecondsOf(m, seconds, x);
      SlotOf(slot, r);
    } else {
      var y := x - Period(interval);
      SecondsOf(m + 1, seconds, y);
      assert (m + 1) * Period(interval) + y == m * Period(interval) + x;
      assert y < slot * SNAPSHOT_TICK;
      EarlierSlot(slot, y);
    }
  }

  lemma SlotOf(slot: nat, r: nat)
    ensures (slot * SNAPSHOT_TICK + r) / SECOND / TICK_SECONDS == slot <==> r < SNAPSHOT_TICK
  {
  }

  lemma EarlierSlot(slot: nat, y: nat)
    requires y < slot * SNAPSHOT_TICK
    ensures y / SECOND / TICK_SECONDS < slot
  {
  }

  // ---- When an app is due ---------------------------------------------------------------------------

  /** As many slots as whole ticks fit into the interval, at least one. */
  lemma SlotCountIs(interval: int)
    requires interval > 0
    ensures var n := SlotCount(interval);
            if interval < SNAPSHOT_TICK then n == 1 else n * SNAPSHOT_TICK <= interval < (n + 1) * SNAPSHOT_TICK
  {
  }

  /** The hash picks the slot: the first hashes one each, and then round again. */
  lemma SlotsRoundRobin(hash: nat, interval: int)
    requires interval > 0
    ensures var n := SlotCount(interval);
            && 0 <= SnapshotSlot(hash, interval) < n
            && (hash < n ==> SnapshotSlot(hash, interval) == hash)
            && SnapshotSlot(hash + n, interval) == SnapshotSlot(hash, interval)
  {
    var n := SlotCount(interval);
    var q, r := hash / n, hash % n;
    assert hash == q * n + r;
    if hash < n { DivMod(hash, 0, n, hash); }
    assert (q + 1) * n == q * n + n;
    DivMod(hash + n, q + 1, n, r);
  }

  /** The clock is within a tick of a start of the app's slot: at its place in the period, counted
      from the epoch. An interval below a tick has one slot that is always on. */
  ghost predicate InItsSlot(hash: nat, interval: int, now: Time)
    requires interval > 0
  {
    interval < SNAPSHOT_TICK
    || exists m: int :: 0 <= now - At(interval, SnapshotSlot(hash, interval), m, 0) < SNAPSHOT_TICK
  }

  lemma CurrentSlotIff(hash: nat, interval: int, now: Time)
    requires interval >= SNAPSHOT_TICK && now >= 0
    ensures CurrentSlot(interval, now) == SnapshotSlot(hash, interval) <==> InItsSlot(hash, interval, now)
  {
    var slot := SnapshotSlot(hash, interval);
    var m, r := RoundOf(interval, slot, now);
    InSlotIff(interval, slot, m, r);
    if r < SNAPSHOT_TICK { assert now - At(interval, slot, m, 0) == r; }
    if k: int :| 0 <= now - At(interval, slot, k, 0) < SNAPSHOT_TICK {
      SlotFits(interval, slot);
      SameRoundOf(Period(interval), m, r, k, now - At(interval, slot, k, 0));
    }
  }

  lemma SameRoundOf(p: int, m: int, r: int, k: int, q: int)
    requires p > 0 && 0 <= r < p && 0 <= q < p && m * p + r == k * p + q
    ensures m == k && r == q
  {
    DivMod(m * p + r, m, p, r);
    DivMod(k * p + q, k, p, q);
  }

  /** Exactly when a sweep takes a snapshot, for every last one: if it is two intervals old,
      whatever the slot; if it is one interval old, or there is none, in the app's slot; never
      before. */
  lemma DueIff(hash: nat, interval: int, last: Time, now: Time)
    requires now >= 0 && interval >= SECOND
    ensures SnapshotDue(hash, interval, last, now) == Answer(true) <==>
            || (last != ZERO_TIME && now - last >= 2 * interval)
            || ((last == ZERO_TIME || now - last >= interval) && InItsSlot(hash, interval, now))
  {
    if interval < SNAPSHOT_TICK { ShortInterval(interval, now); } else { CurrentSlotIff(hash, interval, now); }
  }

  /** So, after any snapshots: the next sweep that finds the newest one an interval old, in the
      app's slot, adds one. */
  lemma SlotSweepFires(hash: nat, interval: int, taken: seq<Taken>, at: Time)
    requires interval >= SECOND && Dated(taken) && taken != [] && at >= 0
    requires interval <= at - LastOf(taken) < 2 * interval
    ensures TakenAfter(hash, interval, taken, [Sweep(at, true)]) ==
            if InItsSlot(hash, interval, at) then taken + [Taken(at, true)] else taken
  {
    DueIff(hash, interval, LastOf(taken), at);
    assert [Sweep(at, true)][1..] == [];
  }

  /** Sweep times at most `gap` apart. */
  ghost predicate Steady(sweeps: seq<Time>, gap: int) {
    forall i, j :: 0 <= i && j == i + 1 && j < |sweeps| ==> 0 <= sweeps[j] - sweeps[i] <= gap
  }

  /** The first sweep at or after `w`. */
  lemma {:induction false} FirstSweepFrom(sweeps: seq<Time>, w: Time, gap: int) returns (k: nat)
    requires Steady(sweeps, gap) && sweeps != [] && sweeps[0] <= w <= sweeps[|sweeps| - 1] && gap > 0
    ensures k < |sweeps| && w <= sweeps[k] && (sweeps[k] < w + gap || sweeps[k] == w)
    decreases |sweeps|
  {
    if sweeps[0] == w {
      k := 0;
    } else if sweeps[1] >= w {
      k := 1;
    } else {
      var rest := sweeps[1..];
      var j := FirstSweepFrom(rest, w, gap);
      k := j + 1;
    }
  }

  /** The next start of slot `slot` at or after `t`. */
  lemma NextStart(interval: int, slot: nat, t: Time) returns (m: nat)
    requires interval >= SNAPSHOT_TICK && slot < SlotCount(interval) && t >= 0
    ensures var w := m * Period(interval) + slot * SNAPSHOT_TICK; t <= w < t + Period(interval)
  {
    SlotFits(interval, slot);
    var p, s := Period(interval), slot * SNAPSHOT_TICK;
    if t <= s {
      m := 0;
    } else {
      m := (t - s + p - 1) / p;
      CeilDiv(t - s, p, m);
    }
  }

  lemma CeilDiv(a: int, p: int, m: int)
    requires a > 0 && p > 0 && m == (a + p - 1) / p
    ensures m >= 0 && a <= m * p < a + p
  {
    var r := (a + p - 1) % p;
    assert a + p - 1 == m * p + r;
    AtLeastOnce(m, p);
  }

  /** An app that has never been snapshotted, and sweeps at most one tick apart over an
      interval and a tick: one of them snapshots it, less than an interval and a tick after
      the first. The interval need not be a multiple of the tick. */
  lemma NeverSnapshottedFires(hash: nat, interval: int, sweeps: seq<Time>) returns (k: nat)
    requires interval >= SECOND && sweeps != [] && sweeps[0] >= 0
    requires Steady(sweeps, SNAPSHOT_TICK) && sweeps[|sweeps| - 1] >= sweeps[0] + interval
    ensures k < |sweeps| && 0 <= sweeps[0] <= sweeps[k] < sweeps[0] + interval + SNAPSHOT_TICK
    ensures SnapshotDue(hash, interval, ZERO_TIME, sweeps[k]) == Answer(true)
  {
    var slot := SnapshotSlot(hash, interval);
    SlotFits(interval, slot);
    if interval < SNAPSHOT_TICK {
      k := 0;
      ShortInterval(interval, sweeps[0]);
    } else {
      var m := NextStart(interval, slot, sweeps[0]);
      var p := Period(interval);
      var w := m * p + slot * SNAPSHOT_TICK;
      k := FirstSweepFrom(sweeps, w, SNAPSHOT_TICK);
      assert sweeps[k] == At(interval, slot, m, sweeps[k] - w);
      InSlotIff(interval, slot, m, sweeps[k] - w);
    }
  }

  /** An interval shorter than a tick has one slot, and it is always on. */
  lemma ShortInterval(interval: int, now: Time)
    requires SECOND <= interval < SNAPSHOT_TICK && now >= 0
    ensures SlotCount(interval) == 1 && CurrentSlot(interval, now) == 0
  {
    var elapsed := (now / SECOND) % (interval / SECOND);
    assert 0 <= elapsed < interval / SECOND <= TICK_SECONDS;
  }

  // ---- The loop's own gaps --------------------------------------------------------------------------

  /** The loop waits a tick and then sweeps, so a gap is a tick and what the sweep took: between
      `SNAPSHOT_TICK` and `SNAPSHOT_TICK + late`. */
  ghost predicate Looped(sweeps: seq<Time>, late: nat) {
    forall i, j :: 0 <= i && j == i + 1 && j < |sweeps| ==>
      SNAPSHOT_TICK <= sweeps[j] - sweeps[i] <= SNAPSHOT_TICK + late
  }

  /** How many sweeps fit into a round outside of a slot's tick. */
  function Outside(period: nat): nat
    requires period > 0
  {
    (period - 1) / SNAPSHOT_TICK
  }

  /** By how much the first sweep of a round that misses the slot moves towards it, at least,
      from one round to the next. */
  function Drift(period: nat, late: nat): int
    requires period > 0
  {
    period - Outside(period) * (SNAPSHOT_TICK + late)
  }

  /** How many rounds can pass without the slot being met. */
  function MissedRounds(period: nat, late: nat): nat
    requires period > 0 && Drift(period, late) > 0
  {
    if late == 0 then 0 else 1 + (late - 1) / Drift(period, late)
  }

  lemma MulLe(a: int, b: int, k: nat)
    requires a <= b
    ensures a * k <= b * k
  {
  }

  lemma CancelLt(a: int, b: int, k: nat)
    requires a * k < b * k
    ensures a < b
  {
    if a >= b { MulLe(b, a, k); }
  }

  lemma Quotient(a: int, d: int)
    requires d > 0
    ensures a / d * d <= a < (a / d + 1) * d
  {
    assert a == a / d * d + a % d;
  }

  lemma CountBound(period: nat, c: nat)
    requires period > 0 && (c + 1) * SNAPSHOT_TICK < period
    ensures c + 1 <= Outside(period)
  {
  }

  lemma MissBound(period: nat, late: nat, misses: nat)
    requires period > 0 && Drift(period, late) > 0 && misses > 0
    requires (misses - 1) * Drift(period, late) <= late - 1
    ensures misses <= MissedRounds(period, late)
  {
    var d := Drift(period, late);
    MulLe(0, misses - 1, d);
    Quotient(late - 1, d);
    CancelLt(misses - 1, (late - 1) / d + 1, d);
  }

  /** Where a walk along the sweeps is: `misses` rounds have gone by, and sweep `r` into this
      round is number `c`, counted from one that was `first` into it. None has met the slot. */
  ghost predicate Walking(period: nat, late: nat, r: nat, misses: nat, c: nat, first: int) {
    && (c + 1) * SNAPSHOT_TICK <= r < period && first >= SNAPSHOT_TICK
    && (misses > 0 ==> r <= first + c * (SNAPSHOT_TICK + late))
    && (misses > 0 ==> first <= SNAPSHOT_TICK + late - 1 - (misses - 1) * Drift(period, late))
  }

  lemma SameRound(period: nat, late: nat, r: nat, misses: nat, c: nat, first: int, gap: nat)
    requires period > 0 && Drift(period, late) > 0 && Walking(period, late, r, misses, c, first)
    requires SNAPSHOT_TICK <= gap <= SNAPSHOT_TICK + late && r + gap < period
    ensures Walking(period, late, r + gap, misses, c + 1, first)
  {
    assert (c + 2) * SNAPSHOT_TICK == (c + 1) * SNAPSHOT_TICK + SNAPSHOT_TICK;
    Successor(c, SNAPSHOT_TICK + late);
  }

  lemma Successor(c: int, x: int)
    ensures (c + 1) * x == c * x + x
  {
  }

  lemma NextRound(period: nat, late: nat, r: nat, misses: nat, c: nat, first: int, gap: nat)
    requires period > 0 && Drift(period, late) > 0 && Walking(period, late, r, misses, c, first)
    requires SNAPSHOT_TICK <= gap <= SNAPSHOT_TICK + late && r + gap >= period + SNAPSHOT_TICK
    ensures Walking(period, late, r + gap - period, misses + 1, 0, r + gap - period)
  {
    var step, d := SNAPSHOT_TICK + late, Drift(period, late);
    ShortGap(period, late, c);
    CountBound(period, c);
    MulLe(c + 1, Outside(period), step);
    Successor(c, step);
    Successor(misses - 1, d);
  }

  lemma ShortGap(period: nat, late: nat, c: nat)
    requires period > 0 && Drift(period, late) > 0 && period > SNAPSHOT_TICK
    ensures SNAPSHOT_TICK + late < period
  {
    MulLe(1, Outside(period), SNAPSHOT_TICK + late);
  }

  lemma WalkingBound(period: nat, late: nat, r: nat, misses: nat, c: nat, first: int)
    requires period > 0 && Drift(period, late) > 0 && Walking(period, late, r, misses, c, first)
    ensures misses <= MissedRounds(period, late)
  {
    if misses > 0 { MissBound(period, late, misses); }
  }

  /** The walk ends at a sweep that meets the slot. */
  lemma {:induction false} Walk(interval: int, slot: nat, late: nat, sweeps: seq<Time>, k: nat,
                                m: int, r: nat, misses: nat, c: nat, first: int)
      returns (j: nat, end: int, into: nat)
    requires interval >= SECOND && Drift(Period(interval), late) > 0 && Looped(sweeps, late)
    requires Period(interval) > SNAPSHOT_TICK
    requires k < |sweeps| && sweeps[k] == At(interval, slot, m, r)
    requires Walking(Period(interval), late, r, misses, c, first)
    requires At(interval, slot, m - misses + MissedRounds(Period(interval), late) + 1, 0) <= sweeps[|sweeps| - 1]
    ensures k < j < |sweeps| && sweeps[j] == At(interval, slot, end, into) && into < SNAPSHOT_TICK
    ensures m <= end <= m - misses + MissedRounds(Period(interval), late) + 1
    decreases |sweeps| - k
  {
    var p := Period(interval);
    var rounds := MissedRounds(p, late);
    WalkingBound(p, late, r, misses, c, first);
    MulLe(m + 1, m - misses + rounds + 1, p);
    Successor(m, p);
    assert k + 1 < |sweeps|;
    var gap := sweeps[k + 1] - sweeps[k];
    if r + gap < p {
      SameRound(p, late, r, misses, c, first, gap);
      j, end, into := Walk(interval, slot, late, sweeps, k + 1, m, r + gap, misses, c + 1, first);
    } else if r + gap < p + SNAPSHOT_TICK {
      j, end, into := k + 1, m + 1, r + gap - p;
    } else {
      NextRound(p, late, r, misses, c, first, gap);
      j, end, into := Walk(interval, slot, late, sweeps, k + 1, m + 1, r + gap - p, misses + 1, 0, r + gap - p);
    }
  }

  lemma RoundOf(interval: int, slot: nat, t: Time) returns (m: int, r: nat)
    requires interval >= SNAPSHOT_TICK && slot < SlotCount(interval) && t >= 0
    ensures m >= -1 && t == At(interval, slot, m, r) && r < Period(interval)
  {
    SlotFits(interval, slot);
    var p, x := Period(interval), t - slot * SNAPSHOT_TICK;
    m, r := x / p, x % p;
    assert x == m * p + r;
    if m <= -2 {
      MulLe(m, -2, p);
    }
  }

  /** An app that has never been snapshotted, swept by the loop with sweeps that take at most
      `late`: if the drift is positive, it is snapshotted before `MissedRounds` and one more
      interval and a tick are over. */
  lemma LoopFires(hash: nat, interval: int, late: nat, sweeps: seq<Time>) returns (k: nat)
    requires interval >= SECOND && sweeps != [] && sweeps[0] >= 0 && Looped(sweeps, late)
    requires Drift(Period(interval), late) > 0
    requires sweeps[|sweeps| - 1] >= sweeps[0] + (MissedRounds(Period(interval), late) + 1) * Period(interval)
    ensures k < |sweeps| && 0 <= sweeps[0] <= sweeps[k]
    ensures sweeps[k] < sweeps[0] + (MissedRounds(Period(interval), late) + 1) * Period(interval) + SNAPSHOT_TICK
    ensures SnapshotDue(hash, interval, ZERO_TIME, sweeps[k]) == Answer(true)
  {
    var p, slot := Period(interval), SnapshotSlot(hash, interval);
    var rounds := MissedRounds(p, late);
    MulLe(0, rounds + 1, p);
    if interval < SNAPSHOT_TICK {
      k := 0;
      ShortInterval(interval, sweeps[0]);
    } else {
      var m, r := RoundOf(interval, slot, sweeps[0]);
      InSlotIff(interval, slot, m, r);
      if r < SNAPSHOT_TICK {
        k := 0;
      } else {
        Rounds(interval, slot, m, r, rounds + 1);
        var end, into;
        k, end, into := Walk(interval, slot, late, sweeps, 0, m, r, 0, 0, r);
        Later(sweeps, late, k);
        InSlotIff(interval, slot, end, into);
        MulLe(end, m + rounds + 1, p);
      }
    }
  }

  lemma Rounds(interval: int, slot: nat, m: int, r: nat, n: nat)
    ensures At(interval, slot, m + n, 0) + r == At(interval, slot, m, r) + n * Period(interval)
  {
  }

  lemma {:induction false} Later(sweeps: seq<Time>, late: nat, k: nat)
    requires Looped(sweeps, late) && k < |sweeps|
    ensures sweeps[k] >= sweeps[0] + k * SNAPSHOT_TICK
  {
    if k > 0 { Later(sweeps, late, k - 1); }
  }

  /** If the drift is at least `late`, that is two intervals and a tick. */
  lemma TwoRounds(interval: int, late: nat)
    requires interval >= SECOND && Drift(Period(interval), late) > 0 && Drift(Period(interval), late) >= late
    ensures MissedRounds(Period(interval), late) <= 1
  {
    SmallQuotient(late - 1, Drift(Period(interval), late));
  }

  lemma SmallQuotient(a: int, d: int)
    requires -1 <= a < d
    ensures a >= 0 ==> a / d == 0
  {
  }

  // ---- When a slot can be missed for ever -----------------------------------------------------------

  function Gap(sweeps: nat -> Time, k: nat): int { sweeps(k + 1) - sweeps(k) }

  /** The loop, running for ever. */
  ghost predicate Loop(sweeps: nat -> Time, late: nat) {
    sweeps(0) >= 0 && forall k: nat :: SNAPSHOT_TICK <= Gap(sweeps, k) <= SNAPSHOT_TICK + late
  }

  ghost predicate NeverFires(hash: nat, interval: int, sweeps: nat -> Time) {
    forall k: nat :: sweeps(k) >= 0 && SnapshotDue(hash, interval, ZERO_TIME, sweeps(k)) == Answer(false)
  }

  /** Sweep `k` of a loop that spreads what a round has over whole ticks evenly over its sweeps. */
  function SteppingOver(interval: int, slot: nat, k: nat): Time
    requires Period(interval) > SNAPSHOT_TICK
  {
    var q := Outside(Period(interval));
    (slot + 1 + k) * SNAPSHOT_TICK + k * (Period(interval) - q * SNAPSHOT_TICK) / q
  }

  lemma SpreadGap(x: nat, rest: nat, q: nat, late: nat)
    requires q > 0 && rest <= q * late
    ensures x / q <= (x + rest) / q <= x / q + late
  {
    DivMod(x + q * late, x / q + late, q, x % q);
    DivMono(x, x + rest, q);
    DivMono(x + rest, x + q * late, q);
  }

  lemma DivMono(a: nat, b: nat, q: nat)
    requires q > 0 && a <= b
    ensures a / q <= b / q
  {
    Quotient(a, q);
    Quotient(b, q);
    CancelLt(a / q, b / q + 1, q);
  }

  /** It is `r` into round `k / q`, past the slot's tick. */
  lemma SteppingPlace(interval: int, slot: nat, k: nat) returns (r: nat)
    requires Period(interval) > SNAPSHOT_TICK
    ensures SNAPSHOT_TICK <= r < Period(interval)
    ensures SteppingOver(interval, slot, k) == At(interval, slot, k / Outside(Period(interval)), r)
  {
    var p := Period(interval);
    var q := Outside(p);
    var rest, m, i := p - q * SNAPSHOT_TICK, k / q, k % q;
    assert k == m * q + i;
    r := LastPlace(p, q, i, rest);
    Spread(m, q, i, rest);
    Regroup(m, q, i, SNAPSHOT_TICK, rest, p);
  }

  lemma Spread(m: nat, q: nat, i: nat, rest: nat)
    requires q > 0
    ensures (m * q + i) * rest / q == m * rest + i * rest / q
  {
    var x := i * rest;
    assert (m * q + i) * rest == (m * rest + x / q) * q + x % q by { Expand(m, q, i, rest); }
    DivMod((m * q + i) * rest, m * rest + x / q, q, x % q);
  }

  lemma Expand(m: nat, q: nat, i: nat, rest: nat)
    requires q > 0
    ensures (m * q + i) * rest == (m * rest + i * rest / q) * q + i * rest % q
  {
    var x := i * rest;
    assert x == x / q * q + x % q;
    assert (m * q + i) * rest == m * q * rest + x;
    assert (m * rest + x / q) * q == m * rest * q + x / q * q;
    assert m * q * rest == m * rest * q;
  }

  lemma Regroup(m: nat, q: nat, i: nat, tick: nat, rest: int, p: int)
    requires p == q * tick + rest
    ensures (m * q + i) * tick + m * rest == m * p + i * tick
  {
    assert m * p == m * (q * tick) + m * rest;
    assert (m * q + i) * tick == m * (q * tick) + i * tick;
  }

  lemma LastPlace(p: nat, q: nat, i: nat, rest: nat) returns (r: nat)
    requires p > SNAPSHOT_TICK && q == Outside(p) && rest == p - q * SNAPSHOT_TICK && i < q
    ensures r == SNAPSHOT_TICK + i * SNAPSHOT_TICK + i * rest / q && SNAPSHOT_TICK <= r < p
  {
    MulLe(i + 1, q, SNAPSHOT_TICK);
    assert 1 <= rest;
    var part := SmallPart(i, q, rest);
    r := SNAPSHOT_TICK + i * SNAPSHOT_TICK + part;
  }

  lemma SmallPart(i: nat, q: nat, rest: nat) returns (part: nat)
    requires i < q && rest >= 1
    ensures part == i * rest / q && part < rest
  {
    MulLe(0, i, rest);
    MulLe(i, q - 1, rest);
    Distribute(q, 1, rest);
    DivMono(i * rest, q * rest - 1, q);
    assert q * rest - 1 == (rest - 1) * q + (q - 1) by { Successor(rest - 1, q); }
    DivMod(q * rest - 1, rest - 1, q, q - 1);
    part := i * rest / q;
  }

  lemma SteppingMisses(hash: nat, interval: int, k: nat)
    requires Period(interval) > SNAPSHOT_TICK
    ensures var t := SteppingOver(interval, SnapshotSlot(hash, interval), k);
            t >= 0 && SnapshotDue(hash, interval, ZERO_TIME, t) == Answer(false)
  {
    var slot := SnapshotSlot(hash, interval);
    var r := SteppingPlace(interval, slot, k);
    MulLe(0, k / Outside(Period(interval)), Period(interval));
    InSlotIff(interval, slot, k / Outside(Period(interval)), r);
  }

  lemma SteppingGap(interval: int, slot: nat, late: nat, k: nat)
    requires Period(interval) > SNAPSHOT_TICK && Drift(Period(interval), late) <= 0
    ensures SNAPSHOT_TICK <= SteppingOver(interval, slot, k + 1) - SteppingOver(interval, slot, k) <=
            SNAPSHOT_TICK + late
  {
    var p := Period(interval);
    var q := Outside(p);
    var rest := p - q * SNAPSHOT_TICK;
    assert q * (SNAPSHOT_TICK + late) == q * SNAPSHOT_TICK + q * late;
    Successor(k, rest);
    MulLe(0, k, rest);
    SpreadGap(k * rest, rest, q, late);
  }

  lemma SomeLoopMisses(hash: nat, interval: int, late: nat) returns (sweeps: nat -> Time)
    requires interval >= SECOND && Drift(Period(interval), late) <= 0
    ensures Loop(sweeps, late) && NeverFires(hash, interval, sweeps)
  {
    assert Period(interval) > SNAPSHOT_TICK;
    var slot := SnapshotSlot(hash, interval);
    sweeps := (k: nat) => if Period(interval) > SNAPSHOT_TICK then SteppingOver(interval, slot, k) else 0;
    forall k: nat ensures SNAPSHOT_TICK <= Gap(sweeps, k) <= SNAPSHOT_TICK + late {
      SteppingGap(interval, slot, late, k);
    }
    forall k: nat ensures sweeps(k) >= 0 && SnapshotDue(hash, interval, ZERO_TIME, sweeps(k)) == Answer(false) {
      SteppingMisses(hash, interval, k);
    }
  }

  lemma EveryLoopFires(hash: nat, interval: int, late: nat, sweeps: nat -> Time) returns (k: nat)
    requires interval >= SECOND && Drift(Period(interval), late) > 0 && Loop(sweeps, late)
    ensures sweeps(k) >= 0 && SnapshotDue(hash, interval, ZERO_TIME, sweeps(k)) == Answer(true)
  {
    var n := (MissedRounds(Period(interval), late) + 1) * Period(interval);
    MulLe(0, MissedRounds(Period(interval), late) + 1, Period(interval));
    var s := seq(n + 1, i requires 0 <= i => sweeps(i));
    forall i, j | 0 <= i && j == i + 1 && j < |s| ensures SNAPSHOT_TICK <= s[j] - s[i] <= SNAPSHOT_TICK + late {
      assert s[j] - s[i] == Gap(sweeps, i);
    }
    Later(s, late, n);
    k := LoopFires(hash, interval, late, s);
  }

  /** Main result. Some run of the loop, its sweeps taking at most `late`, never snapshots an app
      that has none, if and only if as many ticks and delays as fit between two of its slots add
      up to an interval; whichever the slot. */
  lemma MissableIff(hash: nat, interval: int, late: nat)
    requires interval >= SECOND
    ensures (exists sweeps :: Loop(sweeps, late) && NeverFires(hash, interval, sweeps)) <==>
            Period(interval) <= Outside(Period(interval)) * (SNAPSHOT_TICK + late)
  {
    if Drift(Period(interval), late) <= 0 {
      var sweeps := SomeLoopMisses(hash, interval, late);
    } else if sweeps :| Loop(sweeps, late) && NeverFires(hash, interval, sweeps) {
      var k := EveryLoopFires(hash, interval, late, sweeps);
    }
  }

  /** For the default of three hours: sweeps of less than an eleventh of a tick (about 82 seconds)
      always meet the slot, and of at most a twelfth (75 seconds) within six hours and a tick. */
  lemma DefaultInterval(late: nat)
    ensures var p := Period(12 * SNAPSHOT_TICK);
            && (p <= Outside(p) * (SNAPSHOT_TICK + late) <==> 11 * late >= SNAPSHOT_TICK)
            && (12 * late <= SNAPSHOT_TICK ==> Drift(p, late) > 0 && MissedRounds(p, late) <= 1)
  {
    assert Period(12 * SNAPSHOT_TICK) == 12 * SNAPSHOT_TICK && Outside(12 * SNAPSHOT_TICK) == 11;
    if 12 * late <= SNAPSHOT_TICK { TwoRounds(12 * SNAPSHOT_TICK, late); }
  }

  // ---- The sweep over all apps ------------------------------------------------------------------------

  datatype AppRow = AppRow(name: string, hash: nat, archived: bool, interval: int, last: Time)

  predicate DueNow(a: AppRow, now: Time)
    requires now >= 0
  {
    !a.archived && SnapshotDue(a.hash, a.interval, a.last, now) == Answer(true)
  }

  /** Which snapshots the sweep takes, in the order of the list: one per app that is due and
      whose node can take it. One app's failure changes nothing for the others. */
  function Snapshotted(apps: seq<AppRow>, now: Time, reachable: string -> bool): seq<string>
    requires now >= 0
  {
    if apps == [] then []
    else if DueNow(apps[0], now) && reachable(apps[0].name) then [apps[0].name] + Snapshotted(apps[1..], now, reachable)
    else Snapshotted(apps[1..], now, reachable)
  }

  lemma {:induction false} SnapshottedSnoc(apps: seq<AppRow>, a: AppRow, now: Time, reachable: string -> bool)
    requires now >= 0
    ensures Snapshotted(apps + [a], now, reachable) ==
            Snapshotted(apps, now, reachable) + (if DueNow(a, now) && reachable(a.name) then [a.name] else [])
  {
    if apps == [] {
      assert apps + [a] == [a] && [a][1..] == [];
    } else {
      assert (apps + [a])[1..] == apps[1..] + [a];
      SnapshottedSnoc(apps[1..], a, now, reachable);
    }
  }

  function CountDue(apps: seq<AppRow>, now: Time, reachable: string -> bool): nat
    requires now >= 0
  {
    if apps == [] then 0
    else
      var a := apps[0];
      var due := !a.archived && reachable(a.name) && SnapshotDue(a.hash, a.interval, a.last, now) == Answer(true);
      (if due then 1 else 0) + CountDue(apps[1..], now, reachable)
  }

  /** A sweep takes one snapshot of every app that is not archived, is due and can be reached, in the
      order of the list, and no other. */
  lemma {:induction false} SweepTakesAt(apps: seq<AppRow>, now: Time, reachable: string -> bool, i: nat)
    requires now >= 0 && i < |apps|
    ensures |Snapshotted(apps, now, reachable)| == CountDue(apps, now, reachable)
    ensures var a := apps[i];
            !a.archived && reachable(a.name) && SnapshotDue(a.hash, a.interval, a.last, now) == Answer(true) ==>
              var k := CountDue(apps[..i], now, reachable);
              k < |Snapshotted(apps, now, reachable)| && Snapshotted(apps, now, reachable)[k] == a.name
  {
    if |apps| == 1 {
      assert apps[1..] == [] && Snapshotted([], now, reachable) == [];
    } else {
      SweepTakesAt(apps[1..], now, reachable, if i > 0 then i - 1 else 0);
    }
    if i > 0 { assert apps[..i][1..] == apps[1..][..i - 1]; }
  }

  /** Archived apps are left alone, even one whose interval would panic. */
  lemma PanicsOnlyIf(a: AppRow, now: Time)
    requires now >= 0
    ensures Panics(a, now) <==>
            && !a.archived && 0 < a.interval < SECOND
            && (a.last == ZERO_TIME || a.interval <= now - a.last < 2 * a.interval)
  {
    PanicsIff(a.hash, a.interval, a.last, now);
  }

  predicate Panics(a: AppRow, now: Time)
    requires now >= 0
  {
    !a.archived && SnapshotDue(a.hash, a.interval, a.last, now).Panic?
  }

  /** The sweep gets as far as the first app whose interval panics, or to the end. */
  method AutoSnapshotSweep(apps: seq<AppRow>, now: Time, reachable: string -> bool)
      returns (taken: seq<string>, seen: nat)
    requires now >= 0
    ensures seen <= |apps| && forall i :: 0 <= i < seen ==> !Panics(apps[i], now)
    ensures seen < |apps| ==> Panics(apps[seen], now)
    ensures taken == Snapshotted(apps[..seen], now, reachable)
  {
    taken := [];
    for i := 0 to |apps|
      invariant forall j :: 0 <= j < i ==> !Panics(apps[j], now)
      invariant taken == Snapshotted(apps[..i], now, reachable)
    {
      assert apps[..i + 1] == apps[..i] + [apps[i]];
      SnapshottedSnoc(apps[..i], apps[i], now, reachable);
      if apps[i].archived { continue; }
      var verdict := SnapshotDue(apps[i].hash, apps[i].interval, apps[i].last, now);
      if verdict.Panic? { return taken, i; }
      if !verdict.due { continue; }
      if !reachable(apps[i].name) { continue; }
      taken := taken + [apps[i].name];
    }
    seen := |apps|;
  }
}
