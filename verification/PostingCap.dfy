// The rolling 24-hour posting cap of one social account
// (resolve_platform_limit, count_recent_creations and check_platform_quota in apps/api/limits.py).
module PostingCap {
  import opened Wrappers
  import Sets

  // Microseconds.
  const SECOND: int := 1_000_000
  const WINDOW: int := 86_400_000_000

  const PLATFORM_LIMIT: map<string, nat> := map[
    "linkedin_personal" := 100, "linkedin_company" := 100, "facebook" := 200, "instagram" := 25,
    "instagram_login" := 25, "tiktok" := 15, "youtube" := 50, "pinterest" := 100, "threads" := 250,
    "mastodon" := 200, "bluesky" := 200, "google_business" := 50]

  const FALLBACK_LIMIT: nat := 50

  /** An override of zero is an override. */
  function ResolveLimit(override: Option<nat>, platform: string): nat {
    if override.Some? then override.value
    else if platform in PLATFORM_LIMIT then PLATFORM_LIMIT[platform]
    else FALLBACK_LIMIT
  }

  datatype Status = Draft | Scheduled | Publishing | Published | Failed | Other

  predicate Consuming(s: Status) {
    s.Scheduled? || s.Publishing? || s.Published? || s.Failed?
  }

  /** `admittedAt` is history: when a checked admission last brought the row into a consuming state. */
  datatype Post = Post(status: Status, updatedAt: int, admittedAt: Option<int>)

  type Posts = map<nat, Post>

  /** The rows count_recent_creations counts. */
  function Recent(posts: Posts, now: int): set<nat> {
    set id | id in posts && Consuming(posts[id].status) && posts[id].updatedAt >= now - WINDOW
  }

  ghost function Oldest(posts: Posts, ids: set<nat>): (t: int)
    requires ids != {} && ids <= posts.Keys
    ensures exists id :: id in ids && posts[id].updatedAt == t
    ensures forall id :: id in ids ==> posts[id].updatedAt >= t
  {
    var id :| id in ids;
    if ids == {id} then posts[id].updatedAt
    else
      var rest := Oldest(posts, ids - {id});
      assert forall j :: j in ids ==> j == id || j in ids - {id};
      if posts[id].updatedAt < rest then posts[id].updatedAt else rest
  }

  /** None lets the request through; otherwise the seconds put into Retry-After. */
  ghost function CheckQuota(posts: Posts, limit: nat, now: int): Option<int> {
    var used := Recent(posts, now);
    if |used| < limit then None
    else
      var seconds := if used == {} then 60 else (Oldest(posts, used) + WINDOW - now) / SECOND;
      Some(if seconds < 1 then 1 else seconds)
  }

  /**
   * A request is let through exactly when fewer than `limit` rows that are scheduled, publishing,
   * published or failed were updated in the last 24 hours, the edge included.
   */
  lemma PassesIff(posts: Posts, limit: nat, now: int)
    ensures CheckQuota(posts, limit, now).None? <==>
            |set id | id in posts && now - 86_400_000_000 <= posts[id].updatedAt
                      && posts[id].status in {Scheduled, Publishing, Published, Failed}| < limit
  {
    assert Recent(posts, now) == set id | id in posts && now - 86_400_000_000 <= posts[id].updatedAt
                                          && posts[id].status in {Scheduled, Publishing, Published, Failed};
  }

  /** The limit: the override if there is one, else the platform's, else 50. */
  lemma LimitIs(override: Option<nat>, platform: string)
    ensures override.Some? ==> ResolveLimit(override, platform) == override.value
    ensures override.None? && platform in {"linkedin_personal", "linkedin_company", "pinterest"} ==>
              ResolveLimit(override, platform) == 100
    ensures override.None? && platform in {"facebook", "mastodon", "bluesky"} ==>
              ResolveLimit(override, platform) == 200
    ensures override.None? && platform in {"instagram", "instagram_login"} ==> ResolveLimit(override, platform) == 25
    ensures override.None? && platform == "tiktok" ==> ResolveLimit(override, platform) == 15
    ensures override.None? && platform == "threads" ==> ResolveLimit(override, platform) == 250
    ensures override.None? && platform !in {"linkedin_personal", "linkedin_company", "pinterest", "facebook",
                                            "mastodon", "bluesky", "instagram", "instagram_login", "tiktok",
                                            "threads"} ==>
              ResolveLimit(override, platform) == 50
  {
  }

  // ---------------------------------------------------------------------
  // The sliding window
  // ---------------------------------------------------------------------

  datatype State = State(now: int, posts: Posts)

  /** Admit is a check and the write it lets through, taken together. Others write without a check. */
  datatype Step =
    | Admit(id: nat)
    | Write(id: nat, status: Status)
    | Delete(id: nat)
    | Tick(elapsed: nat)

  ghost predicate Enabled(s: State, limit: nat, step: Step) {
    step.Admit? ==>
      && CheckQuota(s.posts, limit, s.now).None?
      && (step.id in s.posts ==> !Consuming(s.posts[step.id].status))
  }

  /** Every write bumps updated_at. */
  function Apply(s: State, step: Step): State {
    match step
    case Admit(id) => s.(posts := s.posts[id := Post(Scheduled, s.now, Some(s.now))])
    case Write(id, status) =>
      var stays := id in s.posts && Consuming(s.posts[id].status) && Consuming(status);
      var kept := if stays then s.posts[id].admittedAt else None;
      s.(posts := s.posts[id := Post(status, s.now, kept)])
    case Delete(id) => s.(posts := s.posts - {id})
    case Tick(elapsed) => s.(now := s.now + elapsed)
  }

  /** Each write stamps its row; an admission lasts exactly as long as its row stays in consuming states. */
  lemma StepWrites(s: State, id: nat, status: Status, other: nat)
    ensures Apply(s, Admit(id)) == State(s.now, s.posts[id := Post(Scheduled, s.now, Some(s.now))])
    ensures Apply(s, Delete(id)) == State(s.now, s.posts - {id})
    ensures var t := Apply(s, Write(id, status));
            var consuming := {Scheduled, Publishing, Published, Failed};
            && t.now == s.now && t.posts.Keys == s.posts.Keys + {id}
            && t.posts[id].status == status && t.posts[id].updatedAt == s.now
            && (other in s.posts && other != id ==> t.posts[other] == s.posts[other])
            && (id in s.posts && s.posts[id].status in consuming && status in consuming ==>
                  t.posts[id].admittedAt == s.posts[id].admittedAt)
            && (!(id in s.posts && s.posts[id].status in consuming && status in consuming) ==>
                  t.posts[id].admittedAt.None?)
  {
  }

  ghost predicate Run(s: State, limit: nat, steps: seq<Step>, t: State)
    decreases |steps|
  {
    if steps == [] then s == t
    else Enabled(s, limit, steps[0]) && Run(Apply(s, steps[0]), limit, steps[1..], t)
  }

  /** Rows admitted in the 24 hours from `from` and consuming ever since. */
  function AdmittedIn(posts: Posts, from: int): set<nat> {
    set id | id in posts && Consuming(posts[id].status) && posts[id].admittedAt.Some?
             && from <= posts[id].admittedAt.value <= from + WINDOW
  }

  ghost predicate Stamped(s: State) {
    forall id :: id in s.posts && s.posts[id].admittedAt.Some? ==>
      s.posts[id].admittedAt.value <= s.posts[id].updatedAt <= s.now
  }

  ghost predicate Capped(s: State, limit: nat) {
    forall from: int :: |AdmittedIn(s.posts, from)| <= limit
  }

  /** Whatever was admitted in a window that reaches the present is still counted now. */
  lemma AdmittedAreCounted(s: State, from: int)
    requires Stamped(s) && from + WINDOW >= s.now
    ensures AdmittedIn(s.posts, from) <= Recent(s.posts, s.now)
  {
  }

  lemma AdmitFitsWindow(s: State, limit: nat, id: nat, from: int)
    requires Stamped(s) && Enabled(s, limit, Admit(id)) && from <= s.now <= from + WINDOW
    ensures |AdmittedIn(Apply(s, Admit(id)).posts, from)| <= limit
  {
    hide Oldest;
    AdmittedAreCounted(s, from);
    Sets.SubsetSize(AdmittedIn(s.posts, from), Recent(s.posts, s.now));
    assert AdmittedIn(Apply(s, Admit(id)).posts, from) == AdmittedIn(s.posts, from) + {id};
  }

  lemma AdmitKeepsCapped(s: State, limit: nat, id: nat)
    requires Stamped(s) && Capped(s, limit) && Enabled(s, limit, Admit(id))
    ensures Capped(Apply(s, Admit(id)), limit)
  {
    hide CheckQuota;
    var t := Apply(s, Admit(id));
    forall from: int ensures |AdmittedIn(t.posts, from)| <= limit {
      if from <= s.now <= from + WINDOW {
        AdmitFitsWindow(s, limit, id, from);
      } else {
        assert AdmittedIn(t.posts, from) == AdmittedIn(s.posts, from);
      }
    }
  }

  lemma StepKeepsCapped(s: State, limit: nat, step: Step)
    requires Stamped(s) && Capped(s, limit) && Enabled(s, limit, step)
    ensures Stamped(Apply(s, step)) && Capped(Apply(s, step), limit)
  {
    if step.Admit? {
      AdmitKeepsCapped(s, limit, step.id);
    } else {
      forall from: int ensures |AdmittedIn(Apply(s, step).posts, from)| <= limit {
        Sets.SubsetSize(AdmittedIn(Apply(s, step).posts, from), AdmittedIn(s.posts, from));
      }
    }
  }

  /** In every run, no 24-hour window holds more than `limit` admitted rows that are still consuming. */
  lemma {:induction false} WindowNeverOverfull(s: State, limit: nat, steps: seq<Step>, t: State)
    requires Stamped(s) && Capped(s, limit) && Run(s, limit, steps, t)
    ensures Capped(t, limit)
    decreases |steps|
  {
    if steps != [] {
      StepKeepsCapped(s, limit, steps[0]);
      WindowNeverOverfull(Apply(s, steps[0]), limit, steps[1..], t);
    }
  }

  lemma FromAnyUnadmittedStart(s: State, limit: nat, steps: seq<Step>, t: State, from: int)
    requires (forall id :: id in s.posts ==> s.posts[id].admittedAt.None?) && Run(s, limit, steps, t)
    ensures |AdmittedIn(t.posts, from)| <= limit
  {
    forall f: int ensures |AdmittedIn(s.posts, f)| <= limit {
      assert AdmittedIn(s.posts, f) == {};
    }
    WindowNeverOverfull(s, limit, steps, t);
  }

  // ---------------------------------------------------------------------
  // Retry-After
  // ---------------------------------------------------------------------

  /** The counted rows that will have left the window after `wait`, if nothing is written meanwhile. */
  function Leaving(posts: Posts, now: int, wait: nat): set<nat> {
    set id | id in Recent(posts, now) && posts[id].updatedAt + WINDOW < now + wait
  }

  lemma LeavingLeaves(posts: Posts, now: int, wait: nat)
    ensures |Recent(posts, now + wait)| == |Recent(posts, now)| - |Leaving(posts, now, wait)|
  {
    var used, later, leaving := Recent(posts, now), Recent(posts, now + wait), Leaving(posts, now, wait);
    assert used == later + leaving && later !! leaving;
  }

  /**
   * A refused client that writes nothing is let through after a wait exactly when more rows leave the
   * window than the account is over its limit.
   */
  lemma WaitSufficesIff(posts: Posts, limit: nat, now: int, wait: nat)
    requires |Recent(posts, now)| >= limit
    ensures CheckQuota(posts, limit, now + wait).None?
            <==> |Leaving(posts, now, wait)| > |Recent(posts, now)| - limit
  {
    LeavingLeaves(posts, now, wait);
  }

  /** Nothing leaves before the oldest counted row does. */
  lemma OldestLeavesFirst(posts: Posts, now: int, wait: nat)
    requires Recent(posts, now) != {}
    ensures Leaving(posts, now, wait) != {} <==> Oldest(posts, Recent(posts, now)) + WINDOW < now + wait
  {
    var id :| id in Recent(posts, now) && posts[id].updatedAt == Oldest(posts, Recent(posts, now));
    assert Oldest(posts, Recent(posts, now)) + WINDOW < now + wait ==> id in Leaving(posts, now, wait);
  }

  /**
   * After Retry-After plus one second the check passes exactly when the rows leaving by then outnumber the
   * excess over the limit; at the limit itself the oldest row alone is enough.
   */
  lemma RetryAfterPlusOneSufficesIff(posts: Posts, limit: nat, now: int)
    requires |Recent(posts, now)| >= limit
    ensures CheckQuota(posts, limit, now).Some? && CheckQuota(posts, limit, now).value >= 1
    ensures var wait: nat := (CheckQuota(posts, limit, now).value + 1) * SECOND;
            && (CheckQuota(posts, limit, now + wait).None?
                <==> |Leaving(posts, now, wait)| > |Recent(posts, now)| - limit)
            && (|Recent(posts, now)| == limit > 0 ==> CheckQuota(posts, limit, now + wait).None?)
  {
    var wait: nat := (CheckQuota(posts, limit, now).value + 1) * SECOND;
    WaitSufficesIff(posts, limit, now, wait);
    if |Recent(posts, now)| == limit > 0 {
      OldestLeavesFirst(posts, now, wait);
      EmptyIffNoneLeave(Leaving(posts, now, wait));
    }
  }

  lemma EmptyIffNoneLeave(ids: set<nat>)
    ensures ids == {} <==> |ids| == 0
  {
  }

  /**
   * After Retry-After itself the check passes exactly when the rows within a second of leaving outnumber
   * the excess; at the limit, when the one-second floor rounded the value up.
   */
  lemma ExactRetryAfterSufficesIff(posts: Posts, limit: nat, now: int)
    requires |Recent(posts, now)| >= limit
    ensures CheckQuota(posts, limit, now).Some?
    ensures CheckQuota(posts, limit, now + CheckQuota(posts, limit, now).value * SECOND).None?
            <==> |Leaving(posts, now, SECOND as nat)| > |Recent(posts, now)| - limit
    ensures |Recent(posts, now)| == limit > 0 ==>
              (CheckQuota(posts, limit, now + CheckQuota(posts, limit, now).value * SECOND).None?
               <==> Oldest(posts, Recent(posts, now)) + WINDOW - now < SECOND)
  {
    var wait: nat := CheckQuota(posts, limit, now).value * SECOND;
    WaitSufficesIff(posts, limit, now, wait);
    EmptyIffNoneLeave(Leaving(posts, now, wait));
    EmptyIffNoneLeave(Leaving(posts, now, SECOND as nat));
    EmptyIffNoneLeave(Recent(posts, now));
    if Recent(posts, now) != {} {
      OldestLeavesFirst(posts, now, wait);
      OldestLeavesFirst(posts, now, SECOND as nat);
    } else {
      assert Leaving(posts, now, SECOND as nat) == {} && Leaving(posts, now, wait) == {};
    }
  }

  /** One row, stamped an hour ago, under a limit of one: a client that waits exactly Retry-After is refused again. */
  lemma ExactRetryAfterIsRefused()
    ensures var posts: Posts := map[1 := Post(Scheduled, 0, None)];
            var now := 3600 * SECOND;
            CheckQuota(posts, 1, now) == Some(82_800) && CheckQuota(posts, 1, now + 82_800 * SECOND) == Some(1)
  {
    var posts: Posts := map[1 := Post(Scheduled, 0, None)];
    assert Recent(posts, 3600 * SECOND) == {1} && Recent(posts, 86_400 * SECOND) == {1};
    assert Oldest(posts, {1}) == 0;
  }

  const OVER_THE_LIMIT: Posts := map[1 := Post(Scheduled, 0, None), 2 := Post(Scheduled, WINDOW, None)]

  /** Two rows under a limit of one: Retry-After is a second, and two do not suffice. */
  lemma OverTheLimitRetryAfterFallsShort()
    ensures CheckQuota(OVER_THE_LIMIT, 1, WINDOW) == Some(1)
    ensures CheckQuota(OVER_THE_LIMIT, 1, WINDOW + 2 * SECOND).Some?
  {
    assert Recent(OVER_THE_LIMIT, WINDOW) == {1, 2};
    assert Oldest(OVER_THE_LIMIT, {1, 2}) == 0;
    assert Leaving(OVER_THE_LIMIT, WINDOW, (2 * SECOND) as nat) == {1};
    WaitSufficesIff(OVER_THE_LIMIT, 1, WINDOW, (2 * SECOND) as nat);
  }

  /** Unchecked writes lead there. */
  lemma OverTheLimitIsReachable()
    ensures Run(State(0, map[]), 1, [Write(1, Scheduled), Tick(WINDOW as nat), Write(2, Scheduled)],
                State(WINDOW, OVER_THE_LIMIT))
  {
    var steps := [Write(1, Scheduled), Tick(WINDOW as nat), Write(2, Scheduled)];
    var s1 := Apply(State(0, map[]), steps[0]);
    var s2 := Apply(s1, steps[1]);
    var s3 := Apply(s2, steps[2]);
    assert s3 == State(WINDOW, OVER_THE_LIMIT);
    assert steps[1..][1..] == [steps[2]] && [steps[2]][1..] == [];
    assert Run(s3, 1, [], s3);
    assert Run(s2, 1, [steps[2]], s3);
    assert Run(s1, 1, steps[1..], s3);
  }

  /** A zero override locks the account out for good. */
  lemma ZeroLimitNeverPasses(posts: Posts, platform: string, now: int)
    ensures CheckQuota(posts, ResolveLimit(Some(0), platform), now).Some?
    ensures Recent(posts, now) == {} ==> CheckQuota(posts, ResolveLimit(Some(0), platform), now) == Some(60)
  {
  }
}
