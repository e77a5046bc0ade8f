// When a post is due for a metrics fetch: the age ladder, the failure backoff
// and the SQL prefilter of apps/analytics/tasks.py.
module Cadence {
  import opened Wrappers

  // Durations in microseconds, the resolution of a timedelta.
  const HOUR: int := 3_600_000_000
  const DAY: int := 86_400_000_000
  const WEEK: int := 604_800_000_000

  function Hours(n: int): int { 3_600_000_000 * n }

  function Days(n: int): int { 86_400_000_000 * n }

  /** One rung: posts younger than maxAge are refreshed every interval. */
  datatype Rung = Rung(maxAge: Option<int>, interval: Option<int>)

  const LADDER: seq<Rung> := [
    Rung(Some(Days(1)), Some(Hours(1))),
    Rung(Some(Days(7)), Some(Hours(6))),
    Rung(Some(Days(30)), Some(Days(1))),
    Rung(Some(Days(90)), Some(Days(7))),
    Rung(None, None)
  ]

  /** The first rung the age fits decides. */
  function IntervalFrom(ladder: seq<Rung>, age: int): Option<int> {
    if ladder == [] then None
    else if ladder[0].maxAge.None? || age < ladder[0].maxAge.value then ladder[0].interval
    else IntervalFrom(ladder[1..], age)
  }

  function SyncInterval(age: int): Option<int> {
    IntervalFrom(LADDER, age)
  }

  const MAX_DOUBLINGS: nat := 16

  function Pow2(n: nat): (p: nat)
    ensures p >= 1
  {
    if n == 0 then 1 else 2 * Pow2(n - 1)
  }

  function Min(a: int, b: int): int { if a < b then a else b }

  function Max(a: int, b: int): int { if a < b then b else a }

  function FailureBackoff(failures: nat): int {
    if failures == 0 then 0
    else Min(Hours(Pow2(Min(failures - 1, MAX_DOUBLINGS))), WEEK)
  }

  /** The columns of a post row that decide whether it is due. */
  datatype Post = Post(
    published: bool,
    platformPostId: string,
    publishedAt: Option<int>,
    attemptedAt: Option<int>,
    failures: nat,
    lastSnapshot: Option<int>)

  predicate Due(p: Post, now: int) {
    match p.publishedAt
    case None => false
    case Some(publishedAt) =>
      match SyncInterval(now - publishedAt)
      case None => false
      case Some(cadence) =>
        if p.attemptedAt.Some? then
          var wait := if p.failures != 0 then Max(cadence, FailureBackoff(p.failures)) else cadence;
          now - p.attemptedAt.value >= wait
        else p.lastSnapshot.None? || now - p.lastSnapshot.value >= cadence
  }

  /** The WHERE clause of _due_posts_for; capDays is the platform's backfill window. */
  predicate SqlCandidate(p: Post, now: int, capDays: nat) {
    && capDays != 0
    && p.published
    && p.publishedAt.Some? && p.publishedAt.value >= now - Days(capDays)
    && p.platformPostId != ""
    && (p.attemptedAt.None? || p.attemptedAt.value <= now - HOUR)
  }

  // ---------------------------------------------------------------------
  // What the ladder and the backoff mean
  // ---------------------------------------------------------------------

  /** The interval never shrinks with age, is an hour at least, and ends at 90 days. */
  lemma LadderMeaning(age: int, older: int)
    requires age <= older
    ensures SyncInterval(age).None? <==> age >= Days(90)
    ensures SyncInterval(age).Some? ==> HOUR <= SyncInterval(age).value <= WEEK
    ensures SyncInterval(older).Some? ==>
        SyncInterval(age).Some? && SyncInterval(age).value <= SyncInterval(older).value
  {
    LadderByRung(age);
    LadderByRung(older);
  }

  lemma LadderByRung(age: int)
    ensures SyncInterval(age) ==
            if age < DAY then Some(HOUR)
            else if age < Days(7) then Some(Hours(6))
            else if age < Days(30) then Some(DAY)
            else if age < Days(90) then Some(WEEK)
            else None
  {
    var tail1, tail2, tail3, tail4 := LADDER[1..], LADDER[2..], LADDER[3..], LADDER[4..];
    assert tail1[1..] == tail2 && tail2[1..] == tail3 && tail3[1..] == tail4;
    assert IntervalFrom(tail4, age) == None;
    assert IntervalFrom(tail3, age) == if age < Days(90) then Some(WEEK) else None;
    assert IntervalFrom(tail2, age) == if age < Days(30) then Some(DAY) else IntervalFrom(tail3, age);
    assert IntervalFrom(tail1, age) == if age < Days(7) then Some(Hours(6)) else IntervalFrom(tail2, age);
  }

  lemma {:induction false} Pow2Grows(a: nat, b: nat)
    requires a <= b
    ensures Pow2(a) <= Pow2(b)
    decreases b
  {
    if a < b {
      Pow2Grows(a, b - 1);
    }
  }

  lemma Pow2OfEight()
    ensures Pow2(8) == 256
  {
    assert Pow2(4) == 16;
  }

  /** Clamping the exponent never changes the backoff: the cap is reached long before. */
  lemma ClampNeverShows(failures: nat)
    requires failures >= 1
    ensures FailureBackoff(0) == 0
    ensures FailureBackoff(failures) == Min(Hours(Pow2(failures - 1)), WEEK)
    ensures failures >= 9 ==> FailureBackoff(failures) == WEEK
    ensures failures <= 8 ==> FailureBackoff(failures) == Hours(Pow2(failures - 1))
  {
    Pow2OfEight();
    if failures >= 9 {
      Pow2Grows(8, failures - 1);
      Pow2Grows(8, Min(failures - 1, MAX_DOUBLINGS));
    } else {
      Pow2Grows(failures - 1, 7);
    }
  }

  lemma BackoffGrows(a: nat, b: nat)
    requires a <= b
    ensures FailureBackoff(a) <= FailureBackoff(b)
  {
    if 1 <= a {
      Pow2Grows(Min(a - 1, MAX_DOUBLINGS), Min(b - 1, MAX_DOUBLINGS));
    }
  }

  /** The moment a post is timed from: its last attempt, or without one its last snapshot. */
  function LastSeen(p: Post): Option<int> {
    if p.attemptedAt.Some? then p.attemptedAt else p.lastSnapshot
  }

  /**
   * Inside the horizon a post never seen is due; one seen within the hour is not, one last seen a
   * week ago is, and in between the ladder decides alone unless a stamped failure streak stretches it.
   */
  lemma DueBounds(p: Post, now: int)
    requires p.publishedAt.Some? && now - p.publishedAt.value < Days(90)
    ensures LastSeen(p).None? ==> Due(p, now)
    ensures LastSeen(p).Some? && now - LastSeen(p).value < HOUR ==> !Due(p, now)
    ensures LastSeen(p).Some? && now - LastSeen(p).value >= WEEK ==> Due(p, now)
    ensures SyncInterval(now - p.publishedAt.value).Some?
    ensures LastSeen(p).Some? && (p.failures == 0 || p.attemptedAt.None?) ==>
              (Due(p, now) <==> now - LastSeen(p).value >= SyncInterval(now - p.publishedAt.value).value)
  {
    LadderMeaning(now - p.publishedAt.value, now - p.publishedAt.value);
  }

  /** A stamped post with a streak of n waits out the longer of its rung and min(2^(n-1) hours, a week), and no more. */
  lemma StreakWaitsExactly(p: Post, now: int)
    requires p.publishedAt.Some? && now - p.publishedAt.value < Days(90)
    requires p.attemptedAt.Some? && p.failures > 0
    ensures SyncInterval(now - p.publishedAt.value).Some?
    ensures var waited := now - p.attemptedAt.value;
            Due(p, now) <==>
            && waited >= SyncInterval(now - p.publishedAt.value).value
            && (waited >= 3_600_000_000 * Pow2(p.failures - 1) || waited >= 604_800_000_000)
  {
    LadderMeaning(now - p.publishedAt.value, now - p.publishedAt.value);
    ClampNeverShows(p.failures);
  }

  /** Unpublished or past 90 days, a post is never due. */
  lemma NeverDue(p: Post, now: int)
    requires p.publishedAt.None? || now - p.publishedAt.value >= 90 * 86_400_000_000
    ensures !Due(p, now)
  {
    if p.publishedAt.Some? {
      LadderByRung(now - p.publishedAt.value);
    }
  }

  /** A due post is still due later, unseen meanwhile, exactly when its new rung has an interval it has outwaited. */
  lemma StillDueIff(p: Post, now: int, later: int)
    requires Due(p, now) && now <= later
    ensures var interval := SyncInterval(later - p.publishedAt.value);
            Due(p, later) <==>
            interval.Some? && (LastSeen(p).None? || later - LastSeen(p).value >= interval.value)
  {
    hide SyncInterval, FailureBackoff;
  }

  /** So it stays due until it is seen again or its age passes a rung of the ladder. */
  lemma DueUntilNextRung(p: Post, now: int, later: int)
    requires Due(p, now) && now <= later
    requires SyncInterval(later - p.publishedAt.value) == SyncInterval(now - p.publishedAt.value)
    ensures Due(p, later)
  {
    StillDueIff(p, now, later);
    StillDueIff(p, now, now);
  }

  /** Passing a rung can take dueness away: two hours after an attempt, on the first birthday. */
  lemma RungTakesDuenessAway()
    ensures var p := Post(true, "v", Some(0), Some(Days(1) - Hours(2)), 0, None);
            Due(p, Days(1) - 1) && !Due(p, Days(1))
  {
    LadderByRung(Days(1) - 1);
    LadderByRung(Days(1));
  }

  /** A due post passes the SQL filter exactly when it is fetchable and inside its platform's window. */
  lemma PrefilterIsExact(p: Post, now: int, capDays: nat)
    requires Due(p, now)
    ensures SqlCandidate(p, now, capDays) <==>
            p.published && p.platformPostId != "" && capDays != 0 && now - p.publishedAt.value <= Days(capDays)
    ensures capDays == 90 && p.published && p.platformPostId != "" ==> SqlCandidate(p, now, capDays)
  {
    LadderMeaning(now - p.publishedAt.value, now - p.publishedAt.value);
  }

  /** On a 60-day platform the filter does drop posts the ladder still calls due. */
  lemma SixtyDayWindowDropsDuePosts()
    ensures var p := Post(true, "v", Some(0), None, 0, None);
            Due(p, Days(70)) && !SqlCandidate(p, Days(70), 60)
  {
    LadderByRung(Days(70));
  }

  // ---------------------------------------------------------------------
  // The storm bound
  // ---------------------------------------------------------------------

  /** One cron pass as this post sees it: checked at `now`, fetched if reached, the failure stamped at `stamp`. */
  datatype Pass = Pass(now: int, stamp: int, reached: bool)

  function FailedOnce(p: Post, stamp: int): Post {
    p.(attemptedAt := Some(stamp), failures := p.failures + 1)
  }

  predicate Attempted(p: Post, pass: Pass, capDays: nat) {
    pass.reached && SqlCandidate(p, pass.now, capDays) && Due(p, pass.now)
  }

  /** The stamps of all attempts when every fetch fails. */
  function FailingStamps(p: Post, passes: seq<Pass>, capDays: nat): seq<int>
    decreases |passes|
  {
    if passes == [] then []
    else if Attempted(p, passes[0], capDays) then
      [passes[0].stamp] + FailingStamps(FailedOnce(p, passes[0].stamp), passes[1..], capDays)
    else FailingStamps(p, passes[1..], capDays)
  }

  /** A pass stamps after it checks, and runs no earlier than the publication. */
  ghost predicate Plausible(p: Post, passes: seq<Pass>) {
    p.publishedAt.Some? && forall i :: 0 <= i < |passes| ==> p.publishedAt.value <= passes[i].now <= passes[i].stamp
  }

  /** Sum of the first n backoffs after `before` failures. */
  function BackoffSum(before: nat, n: nat): int {
    if n == 0 then 0 else BackoffSum(before, n - 1) + FailureBackoff(before + n)
  }

  lemma {:induction false} BackoffSumShift(before: nat, n: nat)
    ensures BackoffSum(before, n + 1) == FailureBackoff(before + 1) + BackoffSum(before + 1, n)
    decreases n
  {
    if n > 0 {
      BackoffSumShift(before, n - 1);
    }
  }

  /** Attempt n + 1 of a failing post comes no sooner after its first than the sum of n backoffs. */
  lemma {:induction false} StampsSpreadOut(p: Post, passes: seq<Pass>, capDays: nat, n: nat)
    requires Plausible(p, passes) && n < |FailingStamps(p, passes, capDays)|
    ensures var stamps := FailingStamps(p, passes, capDays);
            && stamps[n] - stamps[0] >= BackoffSum(p.failures, n)
            && p.publishedAt.value <= stamps[0]
            && (p.attemptedAt.Some? && p.failures > 0 ==> stamps[0] - p.attemptedAt.value >= FailureBackoff(p.failures))
    decreases |passes|
  {
    var pass := passes[0];
    if Attempted(p, pass, capDays) {
      if n > 0 {
        StampsSpreadOut(FailedOnce(p, pass.stamp), passes[1..], capDays, n - 1);
        BackoffSumShift(p.failures, n - 1);
      }
    } else {
      StampsSpreadOut(p, passes[1..], capDays, n);
    }
  }

  /** The check behind every stamp happens while the post is younger than 90 days. */
  lemma {:induction false} ChecksAreWithinTheHorizon(p: Post, passes: seq<Pass>, capDays: nat, n: nat)
    requires Plausible(p, passes) && n + 1 < |FailingStamps(p, passes, capDays)|
    ensures var stamps := FailingStamps(p, passes, capDays);
            stamps[n] + FailureBackoff(p.failures + n + 1) < p.publishedAt.value + Days(90)
    decreases |passes|
  {
    var pass := passes[0];
    if Attempted(p, pass, capDays) {
      var q := FailedOnce(p, pass.stamp);
      if n > 0 {
        ChecksAreWithinTheHorizon(q, passes[1..], capDays, n - 1);
      } else {
        NextCheckWaitsOutBackoff(q, passes[1..], capDays);
      }
    } else {
      ChecksAreWithinTheHorizon(p, passes[1..], capDays, n);
    }
  }

  lemma {:induction false} NextCheckWaitsOutBackoff(p: Post, passes: seq<Pass>, capDays: nat)
    requires Plausible(p, passes) && FailingStamps(p, passes, capDays) != []
    requires p.attemptedAt.Some? && p.failures > 0
    ensures p.attemptedAt.value + FailureBackoff(p.failures) < p.publishedAt.value + Days(90)
    decreases |passes|
  {
    if Attempted(p, passes[0], capDays) {
      LadderMeaning(passes[0].now - p.publishedAt.value, passes[0].now - p.publishedAt.value);
    } else {
      NextCheckWaitsOutBackoff(p, passes[1..], capDays);
    }
  }

  lemma {:induction false} BackoffSumGrows(before: nat, n: nat)
    ensures BackoffSum(0, n) <= BackoffSum(before, n)
    decreases n
  {
    if n > 0 {
      BackoffSumGrows(before, n - 1);
      BackoffGrows(n, before + n);
    }
  }

  /** 255 hours of doubling, then a week each: min(2^(k-1), 168) hours summed. */
  lemma {:induction false} BackoffSumClosedForm(n: nat)
    ensures n <= 8 ==> BackoffSum(0, n) == Hours(Pow2(n) - 1)
    ensures n >= 8 ==> BackoffSum(0, n) == Hours(255 + 168 * (n - 8))
    decreases n
  {
    if n > 0 {
      BackoffSumClosedForm(n - 1);
      ClampNeverShows(n);
      Pow2OfEight();
    }
  }

  /** A post whose every fetch fails is attempted at most 20 times in its 90 days. */
  lemma StormBound(p: Post, passes: seq<Pass>, capDays: nat)
    requires Plausible(p, passes)
    ensures |FailingStamps(p, passes, capDays)| <= 20
  {
    var stamps := FailingStamps(p, passes, capDays);
    if |stamps| > 20 {
      StampsSpreadOut(p, passes, capDays, 19);
      ChecksAreWithinTheHorizon(p, passes, capDays, 19);
      BackoffSumGrows(p.failures, 20);
      BackoffSumClosedForm(20);
      assert false;
    }
  }

  /** A pass exactly when each backoff ends, from the moment of publication. */
  function TightestPasses(from: nat, n: nat): seq<Pass>
    decreases n
  {
    if n == 0 then []
    else [Pass(BackoffSum(0, from), BackoffSum(0, from), true)] + TightestPasses(from + 1, n - 1)
  }

  lemma TightestPassAttempts(p: Post, from: nat)
    requires p.published && p.platformPostId != "" && p.publishedAt == Some(0) && p.lastSnapshot.None?
    requires p.failures == from
    requires if from == 0 then p.attemptedAt.None? else p.attemptedAt == Some(BackoffSum(0, from - 1))
    requires from < 20
    ensures Attempted(p, Pass(BackoffSum(0, from), BackoffSum(0, from), true), 90)
  {
    hide SyncInterval, Pow2;
    BackoffSumClosedForm(from);
    BackoffCoversCadence(from);
    LadderByRung(BackoffSum(0, from));
  }

  lemma {:induction false} TightestPassesAllAttempt(p: Post, from: nat, n: nat)
    requires p.published && p.platformPostId != "" && p.publishedAt == Some(0) && p.lastSnapshot.None?
    requires p.failures == from
    requires if from == 0 then p.attemptedAt.None? else p.attemptedAt == Some(BackoffSum(0, from - 1))
    requires from + n <= 20
    ensures |FailingStamps(p, TightestPasses(from, n), 90)| == n
    decreases n
  {
    hide Attempted, BackoffSum, FailureBackoff;
    if n > 0 {
      var now := BackoffSum(0, from);
      TightestPassAttempts(p, from);
      assert TightestPasses(from, n)[1..] == TightestPasses(from + 1, n - 1);
      TightestPassesAllAttempt(FailedOnce(p, now), from + 1, n - 1);
    }
  }

  /** At the moments the backoff alone allows, the ladder never asks for a longer wait. */
  lemma BackoffCoversCadence(n: nat)
    requires n <= 19
    ensures SyncInterval(BackoffSum(0, n)).Some?
    ensures n > 0 ==> SyncInterval(BackoffSum(0, n)).value <= FailureBackoff(n)
  {
    BackoffSumClosedForm(n);
    LadderByRung(BackoffSum(0, n));
    if n > 0 {
      ClampNeverShows(n);
    }
    Pow2OfEight();
    assert Pow2(1) == 2 && Pow2(2) == 4 && Pow2(3) == 8;
    assert Pow2(4) == 16 && Pow2(5) == 32 && Pow2(6) == 64;
    assert Pow2(7) == 128;
  }

  /** Twenty is reached, so the bound cannot be lowered. */
  lemma StormBoundIsTight()
    ensures exists p, passes :: Plausible(p, passes) && |FailingStamps(p, passes, 90)| == 20
  {
    var p := Post(true, "v", Some(0), None, 0, None);
    var passes := TightestPasses(0, 20);
    TightestPassesAllAttempt(p, 0, 20);
    TightestPassesArePlausible(0, 20);
    assert Plausible(p, passes);
  }

  lemma {:induction false} TightestPassesArePlausible(from: nat, n: nat)
    ensures forall i :: 0 <= i < |TightestPasses(from, n)| ==>
              0 <= TightestPasses(from, n)[i].now <= TightestPasses(from, n)[i].stamp
    decreases n
  {
    hide BackoffSum;
    if n > 0 {
      BackoffSumNonNegative(from);
      TightestPassesArePlausible(from + 1, n - 1);
    }
  }

  lemma {:induction false} BackoffSumNonNegative(n: nat)
    ensures BackoffSum(0, n) >= 0
  {
    if n > 0 {
      BackoffSumNonNegative(n - 1);
    }
  }
}
