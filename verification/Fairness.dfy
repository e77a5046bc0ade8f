// No post of an account starves behind the others: passes cut short by the
// time budget resume with the longest-neglected posts (apps/analytics/tasks.py).
module Fairness {
  import opened Wrappers
  import Sets
  import opened Cadence
  import AccountSync
  import AccountSyncProperties

  type Posts = map<nat, Post>

  /** order_by(analytics_attempted_at, nulls first) */
  predicate NoLater(a: Option<int>, b: Option<int>) {
    a.None? || (b.Some? && a.value <= b.value)
  }

  /** What the SQL filter and the cadence check leave of an account's posts. */
  function DueSet(posts: Posts, now: int, capDays: nat): set<nat> {
    set pk | pk in posts && SqlCandidate(posts[pk], now, capDays) && Due(posts[pk], now)
  }

  /** A walking order of some posts: each once, longest-neglected first, ties in any order. */
  ghost predicate Ordered(posts: Posts, due: set<nat>, order: seq<nat>) {
    && due <= posts.Keys
    && (forall i :: 0 <= i < |order| ==> order[i] in due)
    && (forall pk :: pk in due ==> pk in order)
    && (forall i, j :: 0 <= i < j < |order| ==> order[i] != order[j])
    && (forall i, j :: 0 <= i < j < |order| ==> Before(posts, order[i], order[j]))
  }

  predicate Before(posts: Posts, a: nat, b: nat) {
    a in posts && b in posts && NoLater(posts[a].attemptedAt, posts[b].attemptedAt)
  }

  /** One of the longest-neglected posts: never attempted, or attempted no later than any other. */
  lemma {:induction false} Foremost(posts: Posts, due: set<nat>) returns (pk: nat)
    requires due <= posts.Keys && due != {}
    ensures pk in due
    ensures forall q :: q in due && posts[pk].attemptedAt.Some? ==>
              posts[q].attemptedAt.Some? && posts[pk].attemptedAt.value <= posts[q].attemptedAt.value
    decreases |due|
  {
    pk :| pk in due;
    assert forall q :: q in due ==> q == pk || q in due - {pk};
    if due - {pk} != {} {
      var other := Foremost(posts, due - {pk});
      if NoLater(posts[other].attemptedAt, posts[pk].attemptedAt) {
        pk := other;
      }
    }
  }

  /** Such an order exists for every set of posts, whatever ties there are. */
  lemma {:induction false} AnySetCanBeOrdered(posts: Posts, due: set<nat>) returns (order: seq<nat>)
    requires due <= posts.Keys
    ensures Ordered(posts, due, order)
    decreases |due|
  {
    order := [];
    if due != {} {
      var first := Foremost(posts, due);
      var rest := AnySetCanBeOrdered(posts, due - {first});
      order := [first] + rest;
    }
  }

  /**
   * One pass: it walked the first n posts of its list and stamped some of them; nothing else changed.
   * What it walked past without stamping are posts whose platform id its chunk repeats behind them.
   */
  datatype Pass = Walk(before: Posts, after: Posts, now: int, due: set<nat>, order: seq<nat>, n: nat, stamped: set<nat>)

  predicate StampedSince(posts: Posts, pk: nat, now: int) {
    pk in posts && posts[pk].attemptedAt.Some? && posts[pk].attemptedAt.value >= now
  }

  predicate StampedBefore(posts: Posts, pk: nat, now: int) {
    pk in posts && (posts[pk].attemptedAt.None? || posts[pk].attemptedAt.value < now)
  }

  ghost predicate Valid(p: Pass) {
    && Ordered(p.before, p.due, p.order)
    && (forall pk :: pk in p.due ==> StampedBefore(p.before, pk, p.now))
    && p.n <= |p.order|
    && p.after.Keys == p.before.Keys
    && p.stamped <= Reached(p)
    && (forall pk :: pk in p.stamped ==> StampedSince(p.after, pk, p.now))
    && (forall pk :: pk in p.before && pk !in p.stamped ==> p.after[pk] == p.before[pk])
  }

  function Reached(p: Pass): set<nat>
    requires p.n <= |p.order|
  {
    set i | 0 <= i < p.n :: p.order[i]
  }

  /** Other posts stamped no later than pk. */
  function Ahead(posts: Posts, pk: nat): set<nat>
    requires pk in posts
  {
    set q | q in posts && q != pk && NoLater(posts[q].attemptedAt, posts[pk].attemptedAt)
  }

  /** Those of them that are due as well. */
  function Rivals(p: Pass, pk: nat): set<nat>
    requires pk in p.before
  {
    Ahead(p.before, pk) * p.due
  }

  /** Consecutive passes over an unchanging set of posts, pk due at each and reached by none of them. */
  ghost predicate Waits(passes: seq<Pass>, pk: nat) {
    && (forall i :: 0 <= i < |passes| ==> Valid(passes[i]) && pk in passes[i].due && pk !in Reached(passes[i]))
    && (forall i :: 0 < i < |passes| ==> passes[i].before == passes[i - 1].after)
  }

  /** A pass that does not reach pk stamps rivals of pk only, and none of those stays ahead of it. */
  lemma PassClearsRivals(p: Pass, pk: nat)
    requires Valid(p) && pk in p.due && pk !in Reached(p)
    ensures p.stamped <= Rivals(p, pk)
    ensures p.after[pk] == p.before[pk]
    ensures Ahead(p.after, pk) == Ahead(p.before, pk) - p.stamped
  {
    var k :| 0 <= k < |p.order| && p.order[k] == pk;
    assert StampedBefore(p.before, pk, p.now);
    forall q | q in p.stamped
      ensures q in Rivals(p, pk)
      ensures q !in Ahead(p.after, pk)
    {
      var i :| 0 <= i < p.n && p.order[i] == q;
      assert i < k && Before(p.before, p.order[i], p.order[k]);
      assert StampedSince(p.after, q, p.now);
    }
  }

  /** The posts ahead of pk shrink by exactly what each pass stamps. */
  lemma {:induction false} AheadShrinks(passes: seq<Pass>, pk: nat, i: nat)
    requires Waits(passes, pk) && i < |passes|
    ensures pk in passes[0].before && pk in passes[i].before
    ensures Ahead(passes[i].before, pk) <= Ahead(passes[0].before, pk)
    decreases i
  {
    hide Ahead, Reached, Ordered, Rivals;
    if i > 0 {
      AheadShrinks(passes, pk, i - 1);
      PassClearsRivals(passes[i - 1], pk);
    } else {
      assert pk in passes[0].due;
      DueIsPresent(passes[0], pk);
    }
  }

  lemma DueIsPresent(p: Pass, pk: nat)
    requires Valid(p) && pk in p.due
    ensures pk in p.before
  {
  }

  function UsedUp(passes: seq<Pass>, k: nat): set<nat>
    requires k <= |passes|
  {
    if k == 0 then {} else UsedUp(passes, k - 1) + passes[k - 1].stamped
  }

  /** What earlier passes stamped is no longer ahead of pk, so no pass stamps it again. */
  lemma {:induction false} UsedUpAreBehind(passes: seq<Pass>, pk: nat, k: nat)
    requires Waits(passes, pk) && 0 < k <= |passes|
    ensures pk in passes[k - 1].before && pk in passes[k - 1].after
    ensures UsedUp(passes, k) !! Ahead(passes[k - 1].after, pk)
    ensures UsedUp(passes, k - 1) !! passes[k - 1].stamped
    decreases k
  {
    hide Ahead, Reached, Ordered;
    var p := passes[k - 1];
    DueIsPresent(p, pk);
    PassClearsRivals(p, pk);
    if k > 1 {
      UsedUpAreBehind(passes, pk, k - 1);
    }
  }

  /** Stamps made by the first k passes. */
  function Stamps(passes: seq<Pass>, k: nat): nat
    requires k <= |passes|
  {
    if k == 0 then 0 else Stamps(passes, k - 1) + |passes[k - 1].stamped|
  }

  /** While pk waits, every single stamp is of another rival. */
  lemma {:induction false} WaitingUsesUpRivals(passes: seq<Pass>, pk: nat, w: set<nat>, k: nat)
    requires Waits(passes, pk) && k <= |passes|
    requires forall i :: 0 <= i < |passes| ==> RivalsWithin(passes[i], pk, w)
    ensures UsedUp(passes, k) <= w && |UsedUp(passes, k)| == Stamps(passes, k)
    decreases k
  {
    hide Ahead, Reached, Ordered, Rivals;
    if k > 0 {
      WaitingUsesUpRivals(passes, pk, w, k - 1);
      UsedUpAreBehind(passes, pk, k);
      assert RivalsWithin(passes[k - 1], pk, w);
      PassClearsRivals(passes[k - 1], pk);
    }
  }

  predicate RivalsWithin(p: Pass, pk: nat, w: set<nat>) {
    pk in p.before && Rivals(p, pk) <= w
  }

  /** Every pass makes at least m stamps. */
  predicate Stamping(passes: seq<Pass>, m: nat) {
    forall i :: 0 <= i < |passes| ==> |passes[i].stamped| >= m
  }

  lemma {:induction false} StampsAtLeast(passes: seq<Pass>, m: nat, k: nat)
    requires k <= |passes| && Stamping(passes, m)
    ensures Stamps(passes, k) >= k * m
    decreases k
  {
    if k > 0 {
      StampsAtLeast(passes, m, k - 1);
      assert (k - 1) * m + m == k * m;
    }
  }

  /**
   * No starvation: with w bounding the rivals pk meets, a run of passes that
   * each stamp at least m posts cannot go on without reaching pk for more than |w| / m passes.
   */
  lemma NoStarvation(passes: seq<Pass>, pk: nat, m: nat, w: set<nat>)
    requires Waits(passes, pk) && Stamping(passes, m)
    requires forall i :: 0 <= i < |passes| ==> RivalsWithin(passes[i], pk, w)
    ensures |passes| * m <= |w|
  {
    hide Waits, Rivals;
    WaitingUsesUpRivals(passes, pk, w, |passes|);
    StampsAtLeast(passes, m, |passes|);
    Sets.SubsetSize(UsedUp(passes, |passes|), w);
  }

  /** Whatever becomes due meanwhile, the posts stamped no later than pk at the start bound its wait. */
  lemma WaitIsBoundedByThoseAhead(passes: seq<Pass>, pk: nat, m: nat)
    requires passes != [] && Waits(passes, pk) && Stamping(passes, m)
    ensures pk in passes[0].before && |passes| * m <= |Ahead(passes[0].before, pk)|
  {
    hide Waits, Ahead;
    AheadShrinks(passes, pk, 0);
    forall i | 0 <= i < |passes| ensures RivalsWithin(passes[i], pk, Ahead(passes[0].before, pk)) {
      AheadShrinks(passes, pk, i);
    }
    NoStarvation(passes, pk, m, Ahead(passes[0].before, pk));
  }

  /** Every post ahead of pk that is due at the later pass was due at the first. */
  ghost predicate NoneJoins(first: Pass, later: Pass, pk: nat)
    requires pk in first.before
  {
    Ahead(first.before, pk) * later.due <= first.due
  }

  /** When no post ahead of pk becomes due meanwhile, the r rivals of the first pass do. */
  lemma WaitIsBoundedByFirstRivals(passes: seq<Pass>, pk: nat, m: nat)
    requires passes != [] && Waits(passes, pk) && Stamping(passes, m)
    requires pk in passes[0].before
    requires forall i :: 0 < i < |passes| ==> NoneJoins(passes[0], passes[i], pk)
    ensures |passes| * m <= |Rivals(passes[0], pk)|
  {
    hide Waits, Ahead;
    forall i | 0 <= i < |passes| ensures RivalsWithin(passes[i], pk, Rivals(passes[0], pk)) {
      AheadShrinks(passes, pk, i);
    }
    NoStarvation(passes, pk, m, Rivals(passes[0], pk));
  }

  // ---------------------------------------------------------------------
  // The account's sync makes such passes
  // ---------------------------------------------------------------------

  function Updated(posts: Posts, rows: AccountSync.Rows): Posts {
    map pk | pk in posts ::
      if pk in rows then posts[pk].(attemptedAt := rows[pk].attemptedAt, failures := rows[pk].failures) else posts[pk]
  }

  function RowsOf(posts: Posts): AccountSync.Rows {
    map pk | pk in posts :: AccountSync.SyncRow(posts[pk].attemptedAt, posts[pk].failures, None)
  }

  /** A sync writes the stamp and the streak of a post, and nothing else of it. */
  lemma SyncWritesStampAndStreak(posts: Posts, rows: AccountSync.Rows, pk: nat)
    requires pk in posts
    ensures Updated(posts, rows).Keys == posts.Keys
    ensures pk in rows ==>
              var p := Updated(posts, rows)[pk];
              && RowsOf(Updated(posts, rows))[pk] == AccountSync.SyncRow(p.attemptedAt, p.failures, None)
              && p.attemptedAt == rows[pk].attemptedAt && p.failures == rows[pk].failures
              && p.(attemptedAt := posts[pk].attemptedAt, failures := posts[pk].failures) == posts[pk]
    ensures pk !in rows ==> Updated(posts, rows)[pk] == posts[pk]
  {
  }

  function Asked(posts: Posts, pk: nat): AccountSync.Post
    requires pk in posts
  {
    AccountSync.Post(pk, posts[pk].platformPostId)
  }

  function Listed(posts: Posts, order: seq<nat>): seq<AccountSync.Post>
    requires forall pk :: pk in order ==> pk in posts
  {
    seq(|order|, i requires 0 <= i < |order| => assert order[i] in order; Asked(posts, order[i]))
  }

  /** The due posts that can be asked for at all. */
  function Usable(posts: Posts, due: set<nat>, platform: string, looksLikeUuid: string -> bool): set<nat> {
    set pk | pk in due && pk in posts && !AccountSync.Unusable(platform, Asked(posts, pk), looksLikeUuid)
  }

  function UsableOrder(posts: Posts, order: seq<nat>, platform: string, looksLikeUuid: string -> bool): (r: seq<nat>)
    requires forall pk :: pk in order ==> pk in posts
    ensures forall pk :: pk in r <==>
              pk in order && pk in posts && !AccountSync.Unusable(platform, Asked(posts, pk), looksLikeUuid)
  {
    if order == [] then []
    else
      assert order == [order[0]] + order[1..];
      var rest := UsableOrder(posts, order[1..], platform, looksLikeUuid);
      if AccountSync.Unusable(platform, Asked(posts, order[0]), looksLikeUuid) then rest else [order[0]] + rest
  }

  /** What the sync drops from its list and what is left of its walking order agree. */
  lemma {:induction false} UsableOrderIsListed(posts: Posts, order: seq<nat>, platform: string,
                                               looksLikeUuid: string -> bool)
    requires forall pk :: pk in order ==> pk in posts
    ensures Listed(posts, UsableOrder(posts, order, platform, looksLikeUuid))
            == AccountSync.UsablePosts(platform, Listed(posts, order), looksLikeUuid)
  {
    if order != [] {
      hide AccountSync.Unusable;
      var rest := order[1..];
      UsableOrderIsListed(posts, rest, platform, looksLikeUuid);
      assert order == [order[0]] + rest;
      ListedOfCons(posts, order[0], rest);
      ListedOfCons(posts, order[0], UsableOrder(posts, rest, platform, looksLikeUuid));
      assert Listed(posts, order)[0] == Asked(posts, order[0]) && Listed(posts, order)[1..] == Listed(posts, rest);
    }
  }

  lemma ListedOfCons(posts: Posts, pk: nat, rest: seq<nat>)
    requires pk in posts && forall q :: q in rest ==> q in posts
    ensures Listed(posts, [pk] + rest) == [Asked(posts, pk)] + Listed(posts, rest)
  {
  }

  ghost predicate Sorted(posts: Posts, order: seq<nat>) {
    && (forall i, j :: 0 <= i < j < |order| ==> order[i] != order[j])
    && (forall i, j :: 0 <= i < j < |order| ==> Before(posts, order[i], order[j]))
  }

  lemma {:induction false} UsableOrderIsSorted(posts: Posts, order: seq<nat>, platform: string,
                                               looksLikeUuid: string -> bool)
    requires (forall pk :: pk in order ==> pk in posts) && Sorted(posts, order)
    ensures Sorted(posts, UsableOrder(posts, order, platform, looksLikeUuid))
  {
    if order != [] {
      var rest := UsableOrder(posts, order[1..], platform, looksLikeUuid);
      UsableOrderIsSorted(posts, order[1..], platform, looksLikeUuid);
      forall j | 0 <= j < |rest| ensures rest[j] != order[0] && Before(posts, order[0], rest[j]) {
        assert rest[j] in rest;
        var k :| 0 <= k < |order[1..]| && order[1..][k] == rest[j];
        assert order[k + 1] == rest[j];
      }
    }
  }

  lemma UsableOrderIsOrdered(posts: Posts, due: set<nat>, order: seq<nat>, platform: string,
                             looksLikeUuid: string -> bool)
    requires Ordered(posts, due, order)
    ensures Ordered(posts, Usable(posts, due, platform, looksLikeUuid),
                    UsableOrder(posts, order, platform, looksLikeUuid))
  {
    var usable := UsableOrder(posts, order, platform, looksLikeUuid);
    UsableOrderIsSorted(posts, order, platform, looksLikeUuid);
    forall i | 0 <= i < |usable| ensures usable[i] in Usable(posts, due, platform, looksLikeUuid) {
      assert usable[i] in usable;
    }
  }

  /** The chunk that place i of a list falls into. */
  function ChunkOf(i: nat, size: nat): (c: nat)
    requires size > 0
    ensures c * size <= i < (c + 1) * size
  {
    if i < size then 0
    else
      var d := ChunkOf(i - size, size);
      assert (d + 1) * size == d * size + size && (d + 2) * size == (d + 1) * size + size;
      d + 1
  }

  lemma ChunkOfIs(i: nat, size: nat, c: nat)
    requires size > 0 && c * size <= i < (c + 1) * size
    ensures ChunkOf(i, size) == c
  {
    var d := ChunkOf(i, size);
    if d < c {
      AccountSyncProperties.MulOrder(d + 1, c, size);
    } else if d > c {
      AccountSyncProperties.MulOrder(c + 1, d, size);
    }
  }

  /** The chunk of place i repeats its platform id behind it. */
  ghost predicate Repeated(posts: Posts, order: seq<nat>, size: nat, i: nat)
    requires size > 0 && i < |order| && forall pk :: pk in order ==> pk in posts
  {
    exists j :: i < j < |order| && SameIdAt(posts, order, size, i, j)
  }

  ghost predicate SameIdAt(posts: Posts, order: seq<nat>, size: nat, i: nat, j: nat)
    requires size > 0 && i < |order| && j < |order| && forall pk :: pk in order ==> pk in posts
  {
    && ChunkOf(j, size) == ChunkOf(i, size)
    && posts[order[j]].platformPostId == posts[order[i]].platformPostId
  }

  /** What the batched sync that walks `order` answers to. */
  function Run(posts: Posts, order: seq<nat>, size: nat, world: AccountSync.World): AccountSync.Progress
    requires size > 0 && forall pk :: pk in order ==> pk in posts
  {
    AccountSync.RunChunks(AccountSync.Progress(RowsOf(posts), 0, 0, 0, None),
                          AccountSync.Chunks(Listed(posts, order), size), 0, world)
  }

  function Walked(posts: Posts, order: seq<nat>, size: nat, world: AccountSync.World): (n: nat)
    requires size > 0 && forall pk :: pk in order ==> pk in posts
    ensures n <= |order|
  {
    var end := Run(posts, order, size, world).calls * size;
    if end <= |order| then end else |order|
  }

  /** What it does to the posts. */
  ghost function PassBy(posts: Posts, now: int, due: set<nat>, order: seq<nat>, size: nat,
                        world: AccountSync.World): Pass
    requires size > 0 && forall pk :: pk in order ==> pk in posts
  {
    var n := Walked(posts, order, size, world);
    Walk(posts, Updated(posts, Run(posts, order, size, world).rows), now, due, order, n,
         set i | 0 <= i < n && !Repeated(posts, order, size, i) :: order[i])
  }

  /** Places of chunk c of a list are places of the list. */
  lemma PlaceInChunk(posts: Posts, order: seq<nat>, size: nat, c: nat, i: nat)
    requires size > 0 && i < |order| && forall pk :: pk in order ==> pk in posts
    requires c < |AccountSync.Chunks(Listed(posts, order), size)|
    ensures ChunkOf(i, size) == c <==> c * size <= i < (c + 1) * size
    ensures c * size <= i < (c + 1) * size ==>
              && i - c * size < |AccountSync.Chunks(Listed(posts, order), size)[c]|
              && AccountSync.Chunks(Listed(posts, order), size)[c][i - c * size] == Asked(posts, order[i])
  {
    hide AccountSync.Chunks;
    AccountSyncProperties.ChunkAt(Listed(posts, order), size, c);
    if c * size <= i < (c + 1) * size {
      ChunkOfIs(i, size, c);
    }
  }

  lemma RepeatedIsShadowed(posts: Posts, order: seq<nat>, size: nat, c: nat, i: nat, j: nat)
    requires size > 0 && i < j < |order| && forall pk :: pk in order ==> pk in posts
    requires c * size <= i < (c + 1) * size && c < |AccountSync.Chunks(Listed(posts, order), size)|
    requires SameIdAt(posts, order, size, i, j)
    ensures i - c * size < |AccountSync.Chunks(Listed(posts, order), size)[c]|
    ensures AccountSync.Shadowed(AccountSync.Chunks(Listed(posts, order), size)[c], i - c * size)
  {
    hide AccountSync.Chunks, ChunkOf;
    PlaceInChunk(posts, order, size, c, i);
    PlaceInChunk(posts, order, size, c, j);
    var chunk: seq<AccountSync.Post> := AccountSync.Chunks(Listed(posts, order), size)[c];
    assert chunk[j - c * size].platformPostId == chunk[i - c * size].platformPostId;
  }

  lemma ShadowedIsRepeated(posts: Posts, order: seq<nat>, size: nat, c: nat, i: nat)
    requires size > 0 && i < |order| && forall pk :: pk in order ==> pk in posts
    requires c * size <= i < (c + 1) * size && c < |AccountSync.Chunks(Listed(posts, order), size)|
    requires i - c * size < |AccountSync.Chunks(Listed(posts, order), size)[c]|
    requires AccountSync.Shadowed(AccountSync.Chunks(Listed(posts, order), size)[c], i - c * size)
    ensures Repeated(posts, order, size, i)
  {
    hide AccountSync.Chunks, ChunkOf, Listed;
    var chunk: seq<AccountSync.Post> := AccountSync.Chunks(Listed(posts, order), size)[c];
    var k :| i - c * size < k < |chunk| && chunk[k].platformPostId == chunk[i - c * size].platformPostId;
    var j := c * size + k;
    ChunkFits(posts, order, size, c, k);
    PlaceInChunk(posts, order, size, c, i);
    PlaceInChunk(posts, order, size, c, j);
    assert SameIdAt(posts, order, size, i, j);
  }

  lemma ChunkFits(posts: Posts, order: seq<nat>, size: nat, c: nat, k: nat)
    requires size > 0 && forall pk :: pk in order ==> pk in posts
    requires c < |AccountSync.Chunks(Listed(posts, order), size)|
    requires k < |AccountSync.Chunks(Listed(posts, order), size)[c]|
    ensures c * size + k < |order| && c * size + k < (c + 1) * size
  {
    hide AccountSync.Chunks;
    AccountSyncProperties.ChunkAt(Listed(posts, order), size, c);
  }

  lemma RepeatedIffShadowed(posts: Posts, order: seq<nat>, size: nat, c: nat, i: nat)
    requires size > 0 && i < |order| && forall pk :: pk in order ==> pk in posts
    requires c * size <= i < (c + 1) * size
    requires c < |AccountSync.Chunks(Listed(posts, order), size)|
    ensures i - c * size < |AccountSync.Chunks(Listed(posts, order), size)[c]|
    ensures Repeated(posts, order, size, i)
            <==> AccountSync.Shadowed(AccountSync.Chunks(Listed(posts, order), size)[c], i - c * size)
  {
    hide AccountSync.Chunks, AccountSync.Shadowed, ChunkOf, Listed, SameIdAt;
    PlaceInChunk(posts, order, size, c, i);
    if Repeated(posts, order, size, i) {
      var j :| i < j < |order| && SameIdAt(posts, order, size, i, j);
      RepeatedIsShadowed(posts, order, size, c, i, j);
    } else if AccountSync.Shadowed(AccountSync.Chunks(Listed(posts, order), size)[c], i - c * size) {
      ShadowedIsRepeated(posts, order, size, c, i);
    }
  }

  /** A reached post is stamped, unless its chunk repeats its id behind it; every other post stays as it was. */
  lemma PassUpdatesOne(posts: Posts, order: seq<nat>, now: int, size: nat, world: AccountSync.World, i: nat)
    requires size > 0 && i < |order| && (forall pk :: pk in order ==> pk in posts)
    requires AccountSync.DistinctPks(Listed(posts, order))
    requires forall k :: world.after(k) >= now
    ensures var after := Updated(posts, Run(posts, order, size, world).rows);
            if i < Walked(posts, order, size, world) && !Repeated(posts, order, size, i)
            then StampedSince(after, order[i], now)
            else after[order[i]] == posts[order[i]]
  {
    hide AccountSync.Chunks, AccountSync.RunChunks, AccountSync.Shadowed, Repeated;
    var c := ChunkOf(i, size);
    AccountSyncProperties.PassStampsAPrefix(RowsOf(posts), Listed(posts, order), size, world, c, i);
    RepeatedIffShadowed(posts, order, size, c, i);
  }

  lemma ListedPks(posts: Posts, due: set<nat>, order: seq<nat>)
    requires Ordered(posts, due, order)
    ensures AccountSync.DistinctPks(Listed(posts, order))
  {
  }

  lemma UnlistedPostStays(posts: Posts, order: seq<nat>, size: nat, world: AccountSync.World, pk: nat)
    requires size > 0 && (forall q :: q in order ==> q in posts) && AccountSync.DistinctPks(Listed(posts, order))
    requires pk in posts && pk !in order
    ensures Updated(posts, Run(posts, order, size, world).rows)[pk] == posts[pk]
  {
    AccountSyncProperties.UnlistedRowStays(AccountSync.Progress(RowsOf(posts), 0, 0, 0, None), Listed(posts, order),
                                           size, world, pk);
  }

  /** Whatever ids repeat and however it ends, a batched sync is a pass. */
  lemma WalkIsAPass(posts: Posts, now: int, due: set<nat>, order: seq<nat>, size: nat, world: AccountSync.World)
    requires size > 0 && Ordered(posts, due, order) && forall pk :: pk in due ==> StampedBefore(posts, pk, now)
    requires forall k :: world.after(k) >= now
    ensures Valid(PassBy(posts, now, due, order, size, world))
  {
    hide Run, Walked, Repeated;
    ListedPks(posts, due, order);
    var p := PassBy(posts, now, due, order, size, world);
    forall i | 0 <= i < |order|
      ensures if i < p.n && !Repeated(posts, order, size, i) then StampedSince(p.after, order[i], now)
              else p.after[order[i]] == posts[order[i]]
    {
      PassUpdatesOne(posts, order, now, size, world, i);
    }
    forall pk | pk in posts && pk !in p.stamped ensures p.after[pk] == posts[pk] {
      if pk in order {
        var i :| 0 <= i < |order| && order[i] == pk;
        assert !(i < p.n && !Repeated(posts, order, size, i));
      } else {
        UnlistedPostStays(posts, order, size, world, pk);
      }
    }
  }

  /** The place of the last post of chunk c. */
  function LastOf(length: nat, size: nat, c: nat): int {
    if (c + 1) * size <= length then (c + 1) * size - 1 else length - 1
  }

  lemma LastIsNotRepeated(posts: Posts, order: seq<nat>, size: nat, c: nat)
    requires size > 0 && (forall pk :: pk in order ==> pk in posts)
    requires c * size < |order|
    ensures c * size <= LastOf(|order|, size, c) < |order|
    ensures LastOf(|order|, size, c) < (c + 1) * size
    ensures !Repeated(posts, order, size, LastOf(|order|, size, c))
  {
    assert (c + 1) * size == c * size + size;
    var last := LastOf(|order|, size, c);
    ChunkOfIs(last, size, c);
  }

  /** Every chunk that was answered stamps a post, its last one. */
  lemma {:induction false} LastsAreStamped(posts: Posts, order: seq<nat>, size: nat, world: AccountSync.World, k: nat)
    returns (lasts: set<nat>)
    requires size > 0 && (forall pk :: pk in order ==> pk in posts)
    requires forall i, j :: 0 <= i < j < |order| ==> order[i] != order[j]
    requires k <= Run(posts, order, size, world).calls
    ensures lasts <= PassBy(posts, 0, {}, order, size, world).stamped && |lasts| == k
    ensures forall pk :: pk in lasts ==> exists i :: 0 <= i < |order| && i < k * size && order[i] == pk
    decreases k
  {
    hide Run, Repeated, LastOf;
    if k == 0 {
      lasts := {};
    } else {
      var before := LastsAreStamped(posts, order, size, world, k - 1);
      var c := k - 1;
      CallsAreChunks(posts, order, size, world, c);
      LastIsNotRepeated(posts, order, size, c);
      AccountSyncProperties.MulOrder(k, Run(posts, order, size, world).calls, size);
      var last := LastOf(|order|, size, c);
      assert last < Walked(posts, order, size, world);
      assert order[last] !in before;
      lasts := before + {order[last]};
      assert last < k * size && (k - 1) * size <= k * size;
    }
  }

  lemma CallsAreChunks(posts: Posts, order: seq<nat>, size: nat, world: AccountSync.World, c: nat)
    requires size > 0 && (forall pk :: pk in order ==> pk in posts)
    requires c < Run(posts, order, size, world).calls
    ensures c * size < |order|
  {
    var listed := Listed(posts, order);
    AccountSyncProperties.TallyOfARun(AccountSync.Progress(RowsOf(posts), 0, 0, 0, None),
                                      AccountSync.Chunks(listed, size), 0, world);
    AccountSyncProperties.ChunkAt(listed, size, c);
  }

  lemma EveryCallStampsAPost(posts: Posts, now: int, due: set<nat>, order: seq<nat>, size: nat,
                             world: AccountSync.World)
    requires size > 0 && Ordered(posts, due, order)
    ensures |PassBy(posts, now, due, order, size, world).stamped| >= Run(posts, order, size, world).calls
  {
    hide Run;
    var lasts := LastsAreStamped(posts, order, size, world, Run(posts, order, size, world).calls);
    assert PassBy(posts, now, due, order, size, world).stamped == PassBy(posts, 0, {}, order, size, world).stamped;
    Sets.SubsetSize(lasts, PassBy(posts, now, due, order, size, world).stamped);
  }

  // ---------------------------------------------------------------------
  // Runs of the account's sync
  // ---------------------------------------------------------------------

  /** One sync of the account: when, in which order, and what the provider answers. */
  datatype Sync = Sync(now: int, capDays: nat, order: seq<nat>, platform: string, looksLikeUuid: string -> bool,
                       batchSize: int, world: AccountSync.World, single: AccountSync.SingleWorld)
  {
    function Size(): (size: nat)
      ensures size > 0
    {
      if batchSize > 1 then batchSize else 1
    }

    function Provider(): AccountSync.World {
      if batchSize > 1 then world else AccountSyncProperties.AsBatch(single)
    }
  }

  /** The SQL order of the due list, and a clock that does not go back. */
  ghost predicate Proper(posts: Posts, y: Sync) {
    && Ordered(posts, DueSet(posts, y.now, y.capDays), y.order)
    && (forall k :: y.world.after(k) >= y.now)
    && (forall k :: y.single.after(k) >= y.now)
  }

  /** The usable part of the due list, in that order. */
  function Line(posts: Posts, y: Sync): seq<nat>
    requires forall pk :: pk in y.order ==> pk in posts
  {
    UsableOrder(posts, y.order, y.platform, y.looksLikeUuid)
  }

  ghost function SyncPass(posts: Posts, y: Sync): Pass
    requires forall pk :: pk in y.order ==> pk in posts
  {
    PassBy(posts, y.now, Usable(posts, DueSet(posts, y.now, y.capDays), y.platform, y.looksLikeUuid),
           Line(posts, y), y.Size(), y.Provider())
  }

  /** Calls that were answered, or failed in a way that concerns their own posts only. */
  function Calls(posts: Posts, y: Sync): nat
    requires forall pk :: pk in y.order ==> pk in posts
  {
    Run(posts, Line(posts, y), y.Size(), y.Provider()).calls
  }

  /**
   * The account's sync, unusable posts dropped and however it ends, is a pass over its usable due posts:
   * it stamps the posts it reached, but for those whose id their chunk repeats behind them, and at least
   * one post for every call.
   */
  lemma SyncIsAPass(posts: Posts, y: Sync)
    requires Proper(posts, y)
    ensures var p := SyncPass(posts, y);
            var usable := AccountSync.UsablePosts(y.platform, Listed(posts, y.order), y.looksLikeUuid);
            var q := AccountSync.Pass(RowsOf(posts), usable, y.batchSize, y.world, y.single);
            && Valid(p)
            && p.after == Updated(posts, q.rows) && Calls(posts, y) == q.calls
            && |p.stamped| >= q.calls
            && p.stamped == (set i | 0 <= i < p.n && !Repeated(posts, p.order, y.Size(), i) :: p.order[i])
  {
    hide AccountSync.RunChunks, AccountSync.RunSingles, AccountSync.Chunks, Repeated, Valid;
    var due := Usable(posts, DueSet(posts, y.now, y.capDays), y.platform, y.looksLikeUuid);
    UsableOrderIsListed(posts, y.order, y.platform, y.looksLikeUuid);
    UsableOrderIsOrdered(posts, DueSet(posts, y.now, y.capDays), y.order, y.platform, y.looksLikeUuid);
    WalkIsAPass(posts, y.now, due, Line(posts, y), y.Size(), y.Provider());
    EveryCallStampsAPost(posts, y.now, due, Line(posts, y), y.Size(), y.Provider());
    if y.batchSize <= 1 {
      AccountSyncProperties.SinglesAreChunksOfOne(AccountSync.Progress(RowsOf(posts), 0, 0, 0, None),
                                                  Listed(posts, Line(posts, y)), 0, y.single);
    }
  }

  /** Everything a sync reached is stamped exactly when no reached post has its id repeated behind it. */
  lemma ReachedAreStampedIff(posts: Posts, y: Sync)
    requires Proper(posts, y)
    ensures var p := SyncPass(posts, y);
            && p.n <= |p.order|
            && (p.stamped == Reached(p) <==> forall i :: 0 <= i < p.n ==> !Repeated(posts, p.order, y.Size(), i))
  {
    hide Run, Repeated;
    var p := SyncPass(posts, y);
    SyncIsAPass(posts, y);
    if p.stamped == Reached(p) {
      forall i | 0 <= i < p.n ensures !Repeated(posts, p.order, y.Size(), i) {
        assert p.order[i] in Reached(p);
        var k :| 0 <= k < p.n && !Repeated(posts, p.order, y.Size(), k) && p.order[k] == p.order[i];
        assert k == i;
      }
    }
  }

  /** The per-post loop stamps everything it reaches, whatever the platform ids are. */
  lemma PerPostSyncIsAPass(posts: Posts, y: Sync)
    requires Proper(posts, y) && y.batchSize <= 1
    ensures var p := SyncPass(posts, y);
            var usable := AccountSync.UsablePosts(y.platform, Listed(posts, y.order), y.looksLikeUuid);
            var start := AccountSync.Progress(RowsOf(posts), 0, 0, 0, None);
            && Valid(p) && p.stamped == Reached(p)
            && p.after == Updated(posts, AccountSync.RunSingles(start, usable, 0, y.single).rows)
  {
    hide Run, Valid;
    SyncIsAPass(posts, y);
    ReachedAreStampedIff(posts, y);
    var line := Line(posts, y);
    forall i | 0 <= i < |line| ensures !Repeated(posts, line, 1, i) {
      ChunkOfIs(i, 1, i);
      forall j | i < j < |line| ensures !SameIdAt(posts, line, 1, i, j) {
        ChunkOfIs(j, 1, j);
      }
    }
  }

  /** Consecutive syncs of an account whose posts nobody else adds to, each getting at least one call through. */
  ghost predicate Follows(states: seq<Posts>, syncs: seq<Sync>) {
    && |states| == |syncs| + 1
    && (forall i :: 0 <= i < |syncs| ==> Proper(states[i], syncs[i]))
    && (forall i :: 0 <= i < |syncs| ==> Calls(states[i], syncs[i]) >= 1)
    && (forall i :: 0 <= i < |syncs| ==> states[i + 1] == SyncPass(states[i], syncs[i]).after)
  }

  ghost function Passes(states: seq<Posts>, syncs: seq<Sync>): (passes: seq<Pass>)
    requires Follows(states, syncs)
    ensures |passes| == |syncs| && forall i :: 0 <= i < |syncs| ==> passes[i] == SyncPass(states[i], syncs[i])
  {
    seq(|syncs|, i requires 0 <= i < |syncs| => SyncPass(states[i], syncs[i]))
  }

  ghost predicate ReachedIn(states: seq<Posts>, syncs: seq<Sync>, i: nat, pk: nat)
    requires Follows(states, syncs) && i < |syncs|
  {
    var p := SyncPass(states[i], syncs[i]);
    p.n <= |p.order| && pk in Reached(p)
  }

  ghost predicate StampedIn(states: seq<Posts>, syncs: seq<Sync>, i: nat, pk: nat)
    requires Follows(states, syncs) && i < |syncs|
  {
    pk in SyncPass(states[i], syncs[i]).stamped
  }

  /** In sync i the post's chunk repeats its platform id behind it. */
  ghost predicate RepeatedIn(states: seq<Posts>, syncs: seq<Sync>, i: nat, pk: nat)
    requires Follows(states, syncs) && i < |syncs|
  {
    var line := Line(states[i], syncs[i]);
    exists k :: 0 <= k < |line| && line[k] == pk && Repeated(states[i], line, syncs[i].Size(), k)
  }

  /** Usable and due in sync i. */
  ghost predicate DueIn(states: seq<Posts>, syncs: seq<Sync>, i: nat, pk: nat)
    requires Follows(states, syncs) && i < |syncs|
  {
    pk in SyncPass(states[i], syncs[i]).due
  }

  lemma UnreachedAt(states: seq<Posts>, syncs: seq<Sync>, i: nat, pk: nat)
    requires Follows(states, syncs) && i < |syncs|
    requires DueIn(states, syncs, i, pk) && !ReachedIn(states, syncs, i, pk)
    ensures var p := SyncPass(states[i], syncs[i]);
            && p.before == states[i] && p.after == states[i + 1]
            && Valid(p) && |p.stamped| >= 1 && pk in p.due && pk !in Reached(p)
  {
    hide SyncPass, Valid, Reached, Calls;
    SyncIsAPass(states[i], syncs[i]);
    PassSpan(states[i], syncs[i]);
  }

  /** Syncs that do not reach a due post are passes that make it wait. */
  lemma UnreachedWaits(states: seq<Posts>, syncs: seq<Sync>, pk: nat)
    requires Follows(states, syncs)
    requires forall i :: 0 <= i < |syncs| ==> DueIn(states, syncs, i, pk)
    requires forall i :: 0 <= i < |syncs| ==> !ReachedIn(states, syncs, i, pk)
    ensures Waits(Passes(states, syncs), pk) && Stamping(Passes(states, syncs), 1)
  {
    hide SyncPass, Valid, Reached, Follows, DueIn, ReachedIn;
    SameLength(states, syncs);
    var passes := Passes(states, syncs);
    forall i | 0 <= i < |syncs|
      ensures passes[i].n <= |passes[i].order|
      ensures Valid(passes[i]) && pk in passes[i].due && pk !in Reached(passes[i]) && |passes[i].stamped| >= 1
      ensures passes[i].before == states[i] && passes[i].after == states[i + 1]
    {
      UnreachedAt(states, syncs, i, pk);
      ValidPassIsBounded(passes[i]);
    }
  }

  lemma ValidPassIsBounded(p: Pass)
    requires Valid(p)
    ensures p.n <= |p.order|
  {
  }

  lemma SameLength(states: seq<Posts>, syncs: seq<Sync>)
    requires Follows(states, syncs)
    ensures |states| == |syncs| + 1
  {
  }

  /** A due post is reached before the posts ahead of it run out, one sync for each of them. */
  lemma DuePostIsReached(states: seq<Posts>, syncs: seq<Sync>, pk: nat)
    requires Follows(states, syncs) && pk in states[0] && |syncs| > |Ahead(states[0], pk)|
    requires forall i :: 0 <= i < |syncs| ==> DueIn(states, syncs, i, pk)
    ensures exists i :: 0 <= i < |syncs| && ReachedIn(states, syncs, i, pk)
  {
    hide SyncPass, DueIn, ReachedIn, Ahead, Waits;
    if forall i :: 0 <= i < |syncs| ==> !ReachedIn(states, syncs, i, pk) {
      UnreachedWaits(states, syncs, pk);
      WaitIsBoundedByThoseAhead(Passes(states, syncs), pk, 1);
      PassSpan(states[0], syncs[0]);
      assert false;
    }
  }

  lemma PassSpan(posts: Posts, y: Sync)
    requires Proper(posts, y)
    ensures var p := SyncPass(posts, y); p.before == posts && p.n <= |p.order|
  {
  }

  /** The sync that reaches a post stamps it exactly when its chunk does not repeat its id behind it. */
  lemma StampedIffNotRepeated(states: seq<Posts>, syncs: seq<Sync>, i: nat, pk: nat)
    requires Follows(states, syncs) && i < |syncs| && ReachedIn(states, syncs, i, pk)
    ensures StampedIn(states, syncs, i, pk) <==> !RepeatedIn(states, syncs, i, pk)
    ensures StampedIn(states, syncs, i, pk) ==> StampedSince(states[i + 1], pk, syncs[i].now)
  {
    hide Repeated, Run;
    SyncIsAPass(states[i], syncs[i]);
    var p := SyncPass(states[i], syncs[i]);
    var k :| 0 <= k < p.n && p.order[k] == pk;
    assert Valid(p);
    forall j | 0 <= j < |p.order| && p.order[j] == pk ensures j == k {
    }
  }

  /**
   * Exactly the posts whose id is repeated behind them starve. A post that stays due until it is stamped,
   * and whose chunk either always or never repeats its id behind it, is stamped within one more sync than
   * there were posts ahead of it if and only if it never does.
   */
  lemma NoStarvationIff(states: seq<Posts>, syncs: seq<Sync>, pk: nat)
    requires Follows(states, syncs) && pk in states[0] && |syncs| > |Ahead(states[0], pk)|
    requires forall i :: 0 <= i < |syncs| ==>
               (forall j :: 0 <= j < i ==> !StampedIn(states, syncs, j, pk)) ==> DueIn(states, syncs, i, pk)
    requires forall i :: 0 <= i < |syncs| ==> RepeatedIn(states, syncs, i, pk) == RepeatedIn(states, syncs, 0, pk)
    ensures (exists i :: 0 <= i < |syncs| && StampedIn(states, syncs, i, pk)) <==> !RepeatedIn(states, syncs, 0, pk)
  {
    hide Follows, ReachedIn, StampedIn, RepeatedIn, DueIn, Ahead;
    if forall i :: 0 <= i < |syncs| ==> !StampedIn(states, syncs, i, pk) {
      DuePostIsReached(states, syncs, pk);
      var i :| 0 <= i < |syncs| && ReachedIn(states, syncs, i, pk);
      StampedIffNotRepeated(states, syncs, i, pk);
    } else {
      var i :| 0 <= i < |syncs| && StampedIn(states, syncs, i, pk);
      StampedIsReached(states, syncs, i, pk);
      StampedIffNotRepeated(states, syncs, i, pk);
    }
  }

  lemma StampedIsReached(states: seq<Posts>, syncs: seq<Sync>, i: nat, pk: nat)
    requires Follows(states, syncs) && i < |syncs| && StampedIn(states, syncs, i, pk)
    ensures ReachedIn(states, syncs, i, pk)
  {
    hide Repeated, Run;
    SyncIsAPass(states[i], syncs[i]);
  }

  /** A post whose platform id no other post of the account has never starves. */
  lemma UniqueIdNeverStarves(states: seq<Posts>, syncs: seq<Sync>, pk: nat)
    requires Follows(states, syncs) && pk in states[0] && |syncs| > |Ahead(states[0], pk)|
    requires forall i :: 0 <= i < |syncs| ==>
               (forall j :: 0 <= j < i ==> !StampedIn(states, syncs, j, pk)) ==> DueIn(states, syncs, i, pk)
    requires forall i, q :: 0 <= i < |syncs| && q in states[i] && pk in states[i] && q != pk ==>
               states[i][q].platformPostId != states[i][pk].platformPostId
    ensures exists i :: 0 <= i < |syncs| && StampedIn(states, syncs, i, pk)
  {
    forall i | 0 <= i < |syncs| ensures !RepeatedIn(states, syncs, i, pk) {
      UniqueIsNotRepeated(states, syncs, i, pk);
    }
    NoStarvationIff(states, syncs, pk);
  }

  lemma UniqueIsNotRepeated(states: seq<Posts>, syncs: seq<Sync>, i: nat, pk: nat)
    requires Follows(states, syncs) && i < |syncs|
    requires forall q :: q in states[i] && pk in states[i] && q != pk ==>
               states[i][q].platformPostId != states[i][pk].platformPostId
    ensures !RepeatedIn(states, syncs, i, pk)
  {
    var y := syncs[i];
    var line := Line(states[i], y);
    assert Proper(states[i], y);
    UsableOrderIsOrdered(states[i], DueSet(states[i], y.now, y.capDays), y.order, y.platform, y.looksLikeUuid);
    forall k | 0 <= k < |line| && line[k] == pk ensures !Repeated(states[i], line, y.Size(), k) {
      forall j | k < j < |line| ensures !SameIdAt(states[i], line, y.Size(), k, j) {
        assert line[j] != line[k] && line[j] in line && line[k] in line;
      }
    }
  }

  // ---------------------------------------------------------------------
  // A repeated platform id starves
  // ---------------------------------------------------------------------

  /** Two posts with one platform id, of which only the second was ever stamped. */
  function Twins(stamp: Option<int>): Posts {
    map[1 := Post(true, "v", Some(0), None, 0, None), 2 := Post(true, "v", Some(0), stamp, 0, None)]
  }

  /** The posts after k weekly passes of two-post chunks, every call answered. */
  function AfterWeeks(k: nat): Posts
    ensures AfterWeeks(k).Keys == {1, 2}
  {
    if k == 0 then Twins(None)
    else Updated(AfterWeeks(k - 1), Run(AfterWeeks(k - 1), [1, 2], 2, AccountSyncProperties.TwinWorld(k * WEEK)).rows)
  }

  lemma TwinPass(stamp: Option<int>, now: int)
    ensures Run(Twins(stamp), [1, 2], 2, AccountSyncProperties.TwinWorld(now)).calls == 1
    ensures Updated(Twins(stamp), Run(Twins(stamp), [1, 2], 2, AccountSyncProperties.TwinWorld(now)).rows)
            == Twins(Some(now))
  {
    hide AccountSync.RunChunks, AccountSync.Chunks;
    var rows := RowsOf(Twins(stamp));
    assert Listed(Twins(stamp), [1, 2]) == [AccountSync.Post(1, "v"), AccountSync.Post(2, "v")];
    assert rows == map[1 := rows[1], 2 := rows[2]];
    AccountSyncProperties.TwinIsLeftAlone(rows[1], rows[2], now);
  }

  lemma TwinsAreDue(stamp: Option<int>, now: int)
    requires WEEK <= now < Days(90) && (stamp.Some? ==> stamp.value + WEEK <= now)
    ensures DueSet(Twins(stamp), now, 90) == {1, 2}
    ensures Ordered(Twins(stamp), {1, 2}, [1, 2])
  {
    DueBounds(Twins(stamp)[1], now);
    DueBounds(Twins(stamp)[2], now);
    assert [1, 2][0] == 1 && [1, 2][1] == 2;
  }

  lemma {:induction false} TwinsAfterWeeks(k: nat)
    ensures AfterWeeks(k) == Twins(if k == 0 then None else Some(k * WEEK))
  {
    hide Run, Updated;
    if k > 0 {
      TwinsAfterWeeks(k - 1);
      TwinPass(if k == 1 then None else Some((k - 1) * WEEK), k * WEEK);
    }
  }

  /**
   * In its twelve weeks on the ladder the first of two such posts is due at every pass, first in line and
   * asked past every time: no number of passes reaches it.
   */
  lemma TwinStarves(k: nat)
    requires k < 12
    ensures DueSet(AfterWeeks(k), (k + 1) * WEEK, 90) == {1, 2}
    ensures Ordered(AfterWeeks(k), {1, 2}, [1, 2])
    ensures Run(AfterWeeks(k), [1, 2], 2, AccountSyncProperties.TwinWorld((k + 1) * WEEK)).calls == 1
    ensures AfterWeeks(k + 1)[1] == AfterWeeks(0)[1] && AfterWeeks(k + 1)[1].attemptedAt.None?
  {
    hide Run, Updated, DueSet, Ordered;
    TwinsAfterWeeks(k);
    TwinsAfterWeeks(k + 1);
    var stamp := if k == 0 then None else Some(k * WEEK);
    TwinPass(stamp, (k + 1) * WEEK);
    TwinsAreDue(stamp, (k + 1) * WEEK);
  }
}
