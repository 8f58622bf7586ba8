/** Per-user run limits (assistant/service.go): at most `perUser` turns at once and
    `perHour` started in an hour. Times are nanoseconds of a monotone clock, which the
    source reads twice per reservation: once for the cutoff, once for the start it records. */
module RunLimits {
  const RUN_RATE_WINDOW := 3_600_000_000_000

  type Time = int

  datatype Limits = Limits(perUser: nat, perHour: nat)

  const DEFAULT_LIMITS := Limits(3, 60)

  datatype UserRuns = UserRuns(active: nat, starts: seq<Time>)

  datatype Verdict = Granted | TooManyRuns | RateLimited

  function After(starts: seq<Time>, cutoff: Time): seq<Time> {
    if starts == [] then []
    else if starts[0] > cutoff then [starts[0]] + After(starts[1..], cutoff)
    else After(starts[1..], cutoff)
  }

  function Decide(u: UserRuns, limits: Limits): Verdict {
    if u.active >= limits.perUser then TooManyRuns
    else if |u.starts| >= limits.perHour then RateLimited
    else Granted
  }

  function Pruned(u: UserRuns, read: Time): UserRuns { u.(starts := After(u.starts, read - RUN_RATE_WINDOW)) }

  function Reserved(u: UserRuns, limits: Limits, read: Time, start: Time): UserRuns {
    var p := Pruned(u, read);
    if Decide(p, limits).Granted? then UserRuns(p.active + 1, p.starts + [start]) else p
  }

  function Released(u: UserRuns): UserRuns {
    if u.active > 0 then u.(active := u.active - 1) else u
  }

  // ---- The source's object ---------------------------------------------------------------

  lemma {:induction false} AfterConcat(a: seq<Time>, b: seq<Time>, cutoff: Time)
    ensures After(a + b, cutoff) == After(a, cutoff) + After(b, cutoff)
  {
    if a == [] {
      assert a + b == b;
    } else {
      assert (a + b)[1..] == a[1..] + b;
      AfterConcat(a[1..], b, cutoff);
    }
  }

  function UserOf(users: map<string, UserRuns>, user: string): UserRuns {
    if user in users then users[user] else UserRuns(0, [])
  }

  class Manager {
    const limits: Limits
    var userRuns: map<string, UserRuns>

    constructor (limits: Limits)
      ensures this.limits == limits && userRuns == map[]
    {
      this.limits, userRuns := limits, map[];
    }

    /** The global-admin token has no user id and is not limited. Every other call keeps
        only the recent starts, whether or not it is granted. */
    method ReserveRun(userID: string, read: Time, start: Time) returns (verdict: Verdict)
      modifies this`userRuns
      ensures userID == "" ==> verdict.Granted? && userRuns == old(userRuns)
      ensures userID != "" ==>
                var before := UserOf(old(userRuns), userID);
                && verdict == Decide(Pruned(before, read), limits)
                && userRuns == old(userRuns)[userID := Reserved(before, limits, read, start)]
    {
      if userID == "" { return Granted; }
      var u := UserOf(userRuns, userID);
      var cutoff := read - RUN_RATE_WINDOW;
      var kept: seq<Time> := [];
      for i := 0 to |u.starts|
        invariant userRuns == old(userRuns)
        invariant kept == After(u.starts[..i], cutoff)
      {
        assert u.starts[..i + 1] == u.starts[..i] + [u.starts[i]];
        AfterConcat(u.starts[..i], [u.starts[i]], cutoff);
        assert [u.starts[i]][1..] == [];
        if u.starts[i] > cutoff { kept := kept + [u.starts[i]]; }
      }
      assert u.starts[..|u.starts|] == u.starts;
      u := u.(starts := kept);
      assert u == Pruned(UserOf(old(userRuns), userID), read);
      userRuns := userRuns[userID := u];
      if u.active >= limits.perUser { return TooManyRuns; }
      if |u.starts| >= limits.perHour { return RateLimited; }
      userRuns := userRuns[userID := UserRuns(u.active + 1, u.starts + [start])];
      return Granted;
    }

    method ReleaseRun(userID: string)
      modifies this`userRuns
      ensures userID == "" || userID !in old(userRuns) ==> userRuns == old(userRuns)
      ensures userID != "" && userID in old(userRuns) ==>
                userRuns == old(userRuns)[userID := Released(old(userRuns)[userID])]
    {
      if userID == "" { return; }
      if userID in userRuns {
        if userRuns[userID].active > 0 {
          userRuns := userRuns[userID := userRuns[userID].(active := userRuns[userID].active - 1)];
        } else {
          assert userRuns == userRuns[userID := userRuns[userID]];
        }
      }
    }
  }

  // ---- The rate window ---------------------------------------------------------------------

  ghost predicate Sorted(s: seq<Time>) { forall i, j :: 0 <= i < j < |s| ==> s[i] <= s[j] }

  /** `grants` are all of a user's granted start times up to `now`. The recorded starts are
      the newest of them, the others are an hour old, and any `perHour + 1` in a row span at
      least an hour. */
  ghost predicate InRate(starts: seq<Time>, grants: seq<Time>, now: Time, limits: Limits) {
    && Sorted(grants)
    && (grants != [] ==> grants[|grants| - 1] <= now)
    && Newest(starts, grants, now - RUN_RATE_WINDOW)
    && Spaced(grants, limits)
  }

  ghost predicate Newest(starts: seq<Time>, grants: seq<Time>, cutoff: Time) {
    var gone := |grants| - |starts|;
    0 <= gone && starts == grants[gone..] && (gone > 0 ==> grants[gone - 1] <= cutoff)
  }

  ghost predicate Spaced(grants: seq<Time>, limits: Limits) {
    forall i, j :: 0 <= i && j == i + limits.perHour && j < |grants| ==> grants[j] >= grants[i] + RUN_RATE_WINDOW
  }

  /** In a sorted list, keeping the times after the cutoff drops a prefix. */
  lemma {:induction false} AfterIsSuffix(starts: seq<Time>, cutoff: Time)
    requires Sorted(starts)
    ensures var k := |starts| - |After(starts, cutoff)|;
            && 0 <= k && After(starts, cutoff) == starts[k..]
            && (k > 0 ==> starts[k - 1] <= cutoff)
            && (k < |starts| ==> starts[k] > cutoff)
  {
    if starts != [] {
      AfterIsSuffix(starts[1..], cutoff);
      if starts[0] > cutoff { AllAfter(starts[1..], cutoff); }
    }
  }

  lemma {:induction false} AllAfter(starts: seq<Time>, cutoff: Time)
    requires forall i :: 0 <= i < |starts| ==> starts[i] > cutoff
    ensures After(starts, cutoff) == starts
  {
    if starts != [] { AllAfter(starts[1..], cutoff); }
  }

  lemma {:induction false} NoneAfter(starts: seq<Time>, cutoff: Time)
    requires forall i :: 0 <= i < |starts| ==> starts[i] <= cutoff
    ensures After(starts, cutoff) == []
  {
    if starts != [] { NoneAfter(starts[1..], cutoff); }
  }

  lemma SortedSuffix(s: seq<Time>, k: nat)
    requires Sorted(s) && k <= |s|
    ensures Sorted(s[k..])
  {
  }

  lemma SortedSnoc(s: seq<Time>, t: Time)
    requires Sorted(s) && (s != [] ==> s[|s| - 1] <= t)
    ensures Sorted(s + [t])
  {
  }

  lemma SuffixOfSuffix(s: seq<Time>, i: nat, j: nat)
    requires i + j <= |s|
    ensures s[i..][j..] == s[i + j..]
  {
  }

  lemma ShorterNewest(starts: seq<Time>, grants: seq<Time>, was: Time, cutoff: Time, k: nat)
    requires Newest(starts, grants, was) && was <= cutoff && k <= |starts| && (k > 0 ==> starts[k - 1] <= cutoff)
    ensures Newest(starts[k..], grants, cutoff)
  {
    var gone := |grants| - |starts|;
    SuffixOfSuffix(grants, gone, k);
    if k > 0 { assert starts[k - 1] == grants[gone + k - 1]; }
  }

  lemma NewestSorted(starts: seq<Time>, grants: seq<Time>, cutoff: Time)
    requires Sorted(grants) && Newest(starts, grants, cutoff)
    ensures Sorted(starts)
  {
    SortedSuffix(grants, |grants| - |starts|);
  }

  lemma PruneNewest(starts: seq<Time>, grants: seq<Time>, was: Time, cutoff: Time)
    requires Sorted(grants) && Newest(starts, grants, was) && was <= cutoff
    ensures Newest(After(starts, cutoff), grants, cutoff)
    ensures After(starts, cutoff) != [] ==> After(starts, cutoff)[0] > cutoff
  {
    NewestSorted(starts, grants, was);
    AfterIsSuffix(starts, cutoff);
    ShorterNewest(starts, grants, was, cutoff, |starts| - |After(starts, cutoff)|);
  }

  lemma PruneInRate(u: UserRuns, grants: seq<Time>, now: Time, limits: Limits, read: Time)
    requires InRate(u.starts, grants, now, limits) && now <= read
    ensures InRate(Pruned(u, read).starts, grants, read, limits)
    ensures var p := Pruned(u, read); p.starts != [] ==> p.starts[0] > read - RUN_RATE_WINDOW
  {
    PruneNewest(u.starts, grants, now - RUN_RATE_WINDOW, read - RUN_RATE_WINDOW);
  }

  /** With room left in the record, the grant `perHour` places back is an hour old. */
  lemma SpacedSnoc(starts: seq<Time>, grants: seq<Time>, read: Time, limits: Limits, start: Time)
    requires Sorted(grants) && Spaced(grants, limits) && read <= start && |starts| < limits.perHour
    requires Newest(starts, grants, read - RUN_RATE_WINDOW)
    ensures Spaced(grants + [start], limits)
  {
    var gone := |grants| - |starts|;
    var i := |grants| - limits.perHour;
    if i >= 0 {
      assert grants[i] <= grants[gone - 1];
    }
  }

  lemma GrantInRate(p: UserRuns, grants: seq<Time>, read: Time, limits: Limits, start: Time)
    requires InRate(p.starts, grants, read, limits) && read <= start && |p.starts| < limits.perHour
    ensures InRate(p.starts + [start], grants + [start], start, limits)
  {
    SortedSnoc(grants, start);
    SpacedSnoc(p.starts, grants, read, limits, start);
    var gone := |grants| - |p.starts|;
    assert (grants + [start])[gone..] == grants[gone..] + [start];
  }

  /** What one reservation attempt does to the record and to the grants. */
  function GrantsAfter(u: UserRuns, grants: seq<Time>, limits: Limits, read: Time, start: Time): seq<Time> {
    if Decide(Pruned(u, read), limits).Granted? then grants + [start] else grants
  }

  lemma ReserveInRate(u: UserRuns, grants: seq<Time>, now: Time, limits: Limits, read: Time, start: Time)
    requires InRate(u.starts, grants, now, limits) && now <= read <= start
    ensures InRate(Reserved(u, limits, read, start).starts, GrantsAfter(u, grants, limits, read, start), start, limits)
  {
    PruneInRate(u, grants, now, limits, read);
    TimePasses(Pruned(u, read).starts, grants, read, limits, start);
    if Decide(Pruned(u, read), limits).Granted? {
      GrantInRate(Pruned(u, read), grants, read, limits, start);
    }
  }

  lemma TimePasses(starts: seq<Time>, grants: seq<Time>, now: Time, limits: Limits, later: Time)
    requires InRate(starts, grants, now, limits) && now <= later
    ensures InRate(starts, grants, later, limits)
  {
  }

  /** How many of `grants` came after the cutoff. */
  function CountAfter(grants: seq<Time>, cutoff: Time): nat {
    if grants == [] then 0 else (if grants[0] > cutoff then 1 else 0) + CountAfter(grants[1..], cutoff)
  }

  lemma {:induction false} AfterCounts(grants: seq<Time>, cutoff: Time)
    ensures |After(grants, cutoff)| == CountAfter(grants, cutoff)
  {
    if grants != [] { AfterCounts(grants[1..], cutoff); }
  }

  /** The record holds everything that counts. */
  lemma RecordCounts(starts: seq<Time>, grants: seq<Time>, now: Time, cutoff: Time)
    requires Sorted(grants) && Newest(starts, grants, now - RUN_RATE_WINDOW) && now - RUN_RATE_WINDOW <= cutoff
    ensures |After(starts, cutoff)| == CountAfter(grants, cutoff)
  {
    var gone := grants[..|grants| - |starts|];
    forall i | 0 <= i < |gone| ensures gone[i] <= cutoff {
      assert gone[i] == grants[i] && grants[i] <= grants[|gone| - 1];
    }
    NoneAfter(gone, cutoff);
    AfterConcat(gone, starts, cutoff);
    assert grants == gone + starts;
    AfterCounts(grants, cutoff);
  }

  /** A turn is granted exactly when the user has a slot free and fewer than the limit were granted
      in the last hour, of all that ever were; and which of the two refusals it is. */
  lemma GrantedIff(u: UserRuns, grants: seq<Time>, now: Time, limits: Limits, read: Time)
    requires InRate(u.starts, grants, now, limits) && now <= read
    ensures var recent, verdict := CountAfter(grants, read - RUN_RATE_WINDOW), Decide(Pruned(u, read), limits);
            && (verdict.Granted? <==> u.active < limits.perUser && recent < limits.perHour)
            && (verdict.TooManyRuns? <==> u.active >= limits.perUser)
  {
    RecordCounts(u.starts, grants, now, read - RUN_RATE_WINDOW);
  }

  /** How many of `grants` fall in the hour that starts at `a`, its end excluded. */
  function CountFrom(grants: seq<Time>, a: Time): nat {
    if grants == [] then 0
    else (if a <= grants[0] < a + RUN_RATE_WINDOW then 1 else 0) + CountFrom(grants[1..], a)
  }

  lemma {:induction false} CountConcat(x: seq<Time>, y: seq<Time>, a: Time)
    ensures CountFrom(x + y, a) == CountFrom(x, a) + CountFrom(y, a) <= |x| + CountFrom(y, a)
  {
    if x == [] {
      assert x + y == y;
    } else {
      assert (x + y)[1..] == x[1..] + y;
      CountConcat(x[1..], y, a);
    }
  }

  lemma {:induction false} NoneLate(grants: seq<Time>, a: Time)
    requires forall i :: 0 <= i < |grants| ==> grants[i] >= a + RUN_RATE_WINDOW
    ensures CountFrom(grants, a) == 0
  {
    if grants != [] { NoneLate(grants[1..], a); }
  }

  /** Spaced grants: any one-hour window, its end excluded, holds at most `perHour`. */
  lemma {:induction false} WindowBound(grants: seq<Time>, limits: Limits, a: Time)
    requires Sorted(grants) && Spaced(grants, limits)
    ensures CountFrom(grants, a) <= limits.perHour
  {
    if grants != [] && grants[0] < a {
      WindowBound(grants[1..], limits, a);
    } else {
      var m := if limits.perHour < |grants| then limits.perHour else |grants|;
      forall i | m <= i < |grants| ensures grants[i] >= a + RUN_RATE_WINDOW {
        assert grants[m] >= grants[0] + RUN_RATE_WINDOW;
      }
      CountConcat(grants[..m], grants[m..], a);
      NoneLate(grants[m..], a);
      assert grants[..m] + grants[m..] == grants;
    }
  }

  // ---- Hours with their end -----------------------------------------------------------------

  /** How many of `grants` fall in the hour that starts at `a`, its end included. */
  function CountThrough(grants: seq<Time>, a: Time): nat {
    if grants == [] then 0
    else (if a <= grants[0] <= a + RUN_RATE_WINDOW then 1 else 0) + CountThrough(grants[1..], a)
  }

  lemma {:induction false} ThroughConcat(x: seq<Time>, y: seq<Time>, a: Time)
    ensures CountThrough(x + y, a) == CountThrough(x, a) + CountThrough(y, a) <= |x| + CountThrough(y, a)
  {
    if x == [] {
      assert x + y == y;
    } else {
      assert (x + y)[1..] == x[1..] + y;
      ThroughConcat(x[1..], y, a);
    }
  }

  lemma {:induction false} NoneThrough(grants: seq<Time>, a: Time)
    requires forall i :: 0 <= i < |grants| ==> grants[i] > a + RUN_RATE_WINDOW
    ensures CountThrough(grants, a) == 0
  {
    if grants != [] { NoneThrough(grants[1..], a); }
  }

  lemma {:induction false} AllThrough(grants: seq<Time>, a: Time)
    requires forall i :: 0 <= i < |grants| ==> a <= grants[i] <= a + RUN_RATE_WINDOW
    ensures CountThrough(grants, a) == |grants|
  {
    if grants != [] { AllThrough(grants[1..], a); }
  }

  /** A grant comes exactly an hour after the one `perHour` places before it. */
  ghost predicate OnTheHour(grants: seq<Time>, limits: Limits) {
    exists i, j :: 0 <= i && j == i + limits.perHour && j < |grants| && grants[j] == grants[i] + RUN_RATE_WINDOW
  }

  lemma {:induction false} ClosedBound(grants: seq<Time>, limits: Limits, a: Time)
    requires Sorted(grants) && Spaced(grants, limits) && !OnTheHour(grants, limits)
    ensures CountThrough(grants, a) <= limits.perHour
  {
    if grants != [] && grants[0] < a {
      ClosedTail(grants, limits);
      ClosedBound(grants[1..], limits, a);
    } else {
      var m := if limits.perHour < |grants| then limits.perHour else |grants|;
      forall i | m <= i < |grants| ensures grants[i] > a + RUN_RATE_WINDOW {
        assert grants[m] >= grants[0] + RUN_RATE_WINDOW && grants[m] != grants[0] + RUN_RATE_WINDOW;
      }
      ThroughConcat(grants[..m], grants[m..], a);
      NoneThrough(grants[m..], a);
      assert grants[..m] + grants[m..] == grants;
    }
  }

  lemma ClosedTail(grants: seq<Time>, limits: Limits)
    requires grants != [] && Spaced(grants, limits) && !OnTheHour(grants, limits)
    ensures Spaced(grants[1..], limits) && !OnTheHour(grants[1..], limits)
  {
    var rest := grants[1..];
    forall i, j | 0 <= i && j == i + limits.perHour && j < |rest| ensures rest[j] != rest[i] + RUN_RATE_WINDOW {
      assert rest[j] == grants[j + 1] && rest[i] == grants[i + 1];
    }
  }

  lemma HourInside(before: seq<Time>, hour: seq<Time>, rest: seq<Time>, a: Time)
    requires forall i :: 0 <= i < |hour| ==> a <= hour[i] <= a + RUN_RATE_WINDOW
    ensures CountThrough(before + (hour + rest), a) >= |hour|
  {
    AllThrough(hour, a);
    ThroughConcat(hour, rest, a);
    ThroughConcat(before, hour + rest, a);
  }

  lemma InThree(s: seq<Time>, i: nat, k: nat)
    requires i <= k <= |s|
    ensures s == s[..i] + (s[i..k] + s[k..])
  {
  }

  lemma OneTooMany(grants: seq<Time>, limits: Limits, i: nat)
    requires Sorted(grants) && i + limits.perHour < |grants|
    requires grants[i + limits.perHour] == grants[i] + RUN_RATE_WINDOW
    ensures CountThrough(grants, grants[i]) > limits.perHour
  {
    var a, k := grants[i], i + limits.perHour + 1;
    var hour := grants[i..k];
    forall x | 0 <= x < |hour| ensures a <= hour[x] <= a + RUN_RATE_WINDOW {
      assert hour[x] == grants[i + x];
    }
    HourInside(grants[..i], hour, grants[k..], a);
    InThree(grants, i, k);
  }

  /** For the starts granted in any run: every hour, its end included, holds at most `perHour` if
      and only if none comes exactly an hour after the one `perHour` places before it. */
  lemma ClosedHourIff(grants: seq<Time>, limits: Limits)
    requires Sorted(grants) && Spaced(grants, limits)
    ensures (forall a :: CountThrough(grants, a) <= limits.perHour) <==> !OnTheHour(grants, limits)
  {
    if !OnTheHour(grants, limits) {
      forall a ensures CountThrough(grants, a) <= limits.perHour { ClosedBound(grants, limits, a); }
    } else {
      var i, j :| 0 <= i && j == i + limits.perHour && j < |grants| && grants[j] == grants[i] + RUN_RATE_WINDOW;
      OneTooMany(grants, limits, i);
    }
  }

  lemma {:induction false} EndIsNextStart(grants: seq<Time>, a: Time)
    ensures CountThrough(grants, a) <= CountFrom(grants, a) + CountFrom(grants, a + RUN_RATE_WINDOW)
  {
    if grants != [] { EndIsNextStart(grants[1..], a); }
  }

  /** In any case it holds at most twice as many. */
  lemma ClosedHourAtMostTwice(grants: seq<Time>, limits: Limits, a: Time)
    requires Sorted(grants) && Spaced(grants, limits)
    ensures CountThrough(grants, a) <= 2 * limits.perHour
  {
    EndIsNextStart(grants, a);
    WindowBound(grants, limits, a);
    WindowBound(grants, limits, a + RUN_RATE_WINDOW);
  }

  // ---- And it can hold that many ---------------------------------------------------------------

  /** A user's record and the starts granted so far. */
  datatype Book = Book(u: UserRuns, grants: seq<Time>)

  /** `n` turns at time `t`, each ended before the next is asked for. */
  function Took(b: Book, limits: Limits, t: Time, n: nat): Book
    decreases n
  {
    if n == 0 then b
    else
      var next := Book(Released(Reserved(b.u, limits, t, t)), GrantsAfter(b.u, b.grants, limits, t, t));
      Took(next, limits, t, n - 1)
  }

  function Copies(t: Time, n: nat): (c: seq<Time>)
    ensures |c| == n && forall i :: 0 <= i < n ==> c[i] == t
  {
    seq(n, _ => t)
  }

  lemma CopiesSnoc(t: Time, n: nat)
    ensures Copies(t, n) + [t] == Copies(t, n + 1) && [t] + Copies(t, n) == Copies(t, n + 1)
  {
  }

  /** With `k` of the record's recent starts at `t` and room for `n` more, all are granted. */
  lemma {:induction false} AllTaken(b: Book, limits: Limits, t: Time, k: nat, n: nat)
    requires limits.perUser >= 1 && k + n <= limits.perHour
    requires b.u.active == 0 && After(b.u.starts, t - RUN_RATE_WINDOW) == Copies(t, k)
    ensures var r := Took(b, limits, t, n);
            && r.grants == b.grants + Copies(t, n) && r.u.active == 0
            && After(r.u.starts, t - RUN_RATE_WINDOW) == Copies(t, k + n)
            && (n > 0 ==> r.u.starts == Copies(t, k + n))
    decreases n
  {
    if n == 0 {
      assert b.grants + [] == b.grants;
    } else {
      var next := Book(UserRuns(0, Copies(t, k + 1)), b.grants + [t]);
      CopiesSnoc(t, k);
      AllAfter(Copies(t, k + 1), t - RUN_RATE_WINDOW);
      assert Released(Reserved(b.u, limits, t, t)) == next.u;
      assert Took(b, limits, t, n) == Took(next, limits, t, n - 1);
      AllTaken(next, limits, t, k + 1, n - 1);
      CopiesSnoc(t, n - 1);
      assert b.grants + [t] + Copies(t, n - 1) == b.grants + ([t] + Copies(t, n - 1));
      if n == 1 { assert Took(next, limits, t, 0) == next; }
    }
  }

  /** For every limit: that many turns at one moment and as many exactly an hour later are all
      granted, so one closed hour holds twice the limit. */
  lemma ClosedHourHoldsTwice(limits: Limits)
    requires limits.perUser >= 1
    ensures var n, hour := limits.perHour, RUN_RATE_WINDOW;
            var r := Took(Took(Book(UserRuns(0, []), []), limits, 0, n), limits, hour, n);
            r.grants == Copies(0, n) + Copies(hour, n) && CountThrough(r.grants, 0) == 2 * n
  {
    var n, hour := limits.perHour, RUN_RATE_WINDOW;
    var empty := Book(UserRuns(0, []), []);
    AllTaken(empty, limits, 0, 0, n);
    var first := Took(empty, limits, 0, n);
    assert [] + Copies(0, n) == Copies(0, n);
    assert n == 0 ==> first == empty;
    NoneAfter(first.u.starts, 0);
    AllTaken(first, limits, hour, 0, n);
    AllThrough(Copies(0, n) + Copies(hour, n), 0);
  }
}
