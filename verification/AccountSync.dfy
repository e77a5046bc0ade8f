// One account's per-post sync pass: chunked batch calls, the per-post
// fallback, and the sync columns they update (apps/analytics/tasks.py).
module AccountSync {
  import opened Wrappers

  type Metrics = nat

  datatype Post = Post(pk: nat, platformPostId: string)

  /** The columns a pass writes: the two sync columns and today's snapshot. */
  datatype SyncRow = SyncRow(attemptedAt: Option<int>, failures: nat, snapshot: Option<Metrics>)

  type Rows = map<nat, SyncRow>

  /** An account-wide verdict. */
  datatype Refusal = QuotaExceeded | TokenExpired

  datatype Answer<+T> = Got(value: T) | NotImplemented | Refused(why: Refusal) | Broken

  /** The world outside a pass: what call number k answers, and the clock before and after it. */
  datatype World = World(
    batch: (nat, seq<string>) -> Answer<map<string, Metrics>>,
    before: nat -> int,
    after: nat -> int,
    deadline: Option<int>)

  datatype SingleWorld = SingleWorld(
    single: (nat, string) -> Answer<Metrics>,
    before: nat -> int,
    after: nat -> int,
    deadline: Option<int>)

  /** A Meta post whose id is really an internal UUID. */
  predicate Unusable(platform: string, p: Post, looksLikeUuid: string -> bool) {
    platform in {"facebook", "instagram", "instagram_login"} && looksLikeUuid(p.platformPostId)
  }

  /** The others, in order; the unusable ones are skipped without a request. */
  function UsablePosts(platform: string, posts: seq<Post>, looksLikeUuid: string -> bool): seq<Post> {
    if posts == [] then []
    else if Unusable(platform, posts[0], looksLikeUuid) then UsablePosts(platform, posts[1..], looksLikeUuid)
    else [posts[0]] + UsablePosts(platform, posts[1..], looksLikeUuid)
  }

  ghost predicate DistinctPks(posts: seq<Post>) {
    forall i, j :: 0 <= i < j < |posts| ==> posts[i].pk != posts[j].pk
  }

  ghost predicate DistinctIds(posts: seq<Post>) {
    forall i, j :: 0 <= i < j < |posts| ==> posts[i].platformPostId != posts[j].platformPostId
  }

  function Chunks(posts: seq<Post>, size: nat): seq<seq<Post>>
    requires size > 0
    decreases |posts|
  {
    if posts == [] then []
    else if |posts| <= size then [posts]
    else [posts[..size]] + Chunks(posts[size..], size)
  }

  predicate HasId(posts: seq<Post>, id: string) {
    exists i :: 0 <= i < |posts| && posts[i].platformPostId == id
  }

  /** dict[p.platform_post_id] = p: a known id keeps its place and changes its post. */
  function Entered(dict: seq<Post>, p: Post): seq<Post> {
    if dict == [] then [p]
    else if dict[0].platformPostId == p.platformPostId then [p] + dict[1..]
    else [dict[0]] + Entered(dict[1..], p)
  }

  /** What the dict keyed by platform id keeps of a chunk. */
  function Survivors(chunk: seq<Post>): seq<Post> {
    if chunk == [] then [] else Entered(Survivors(chunk[..|chunk| - 1]), chunk[|chunk| - 1])
  }

  function Ids(posts: seq<Post>): seq<string> {
    seq(|posts|, i requires 0 <= i < |posts| => posts[i].platformPostId)
  }

  function Pks(posts: seq<Post>): set<nat> {
    set i | 0 <= i < |posts| :: posts[i].pk
  }

  function IdOf(posts: seq<Post>, pk: nat): string
    requires pk in Pks(posts)
  {
    if posts[0].pk == pk then posts[0].platformPostId
    else
      assert pk in Pks(posts[1..]) by {
        var i :| 0 <= i < |posts| && posts[i].pk == pk;
        assert posts[1..][i - 1].pk == pk;
      }
      IdOf(posts[1..], pk)
  }

  function Lookup(metrics: map<string, Metrics>, id: string): Option<Metrics> {
    if id in metrics then Some(metrics[id]) else None
  }

  /** A hit stamps, clears the streak and stores the snapshot; a miss stamps and extends the streak. */
  function Outcome(row: SyncRow, found: Option<Metrics>, stamp: int): SyncRow {
    match found
    case Some(m) => SyncRow(Some(stamp), 0, Some(m))
    case None => SyncRow(Some(stamp), row.failures + 1, row.snapshot)
  }

  function Applied(rows: Rows, posts: seq<Post>, metrics: map<string, Metrics>, stamp: int): Rows {
    map pk | pk in rows ::
      if pk in Pks(posts) then Outcome(rows[pk], Lookup(metrics, IdOf(posts, pk)), stamp) else rows[pk]
  }

  function Hits(posts: seq<Post>, metrics: map<string, Metrics>): (n: nat)
    ensures n <= |posts|
  {
    if posts == [] then 0
    else (if posts[0].platformPostId in metrics then 1 else 0) + Hits(posts[1..], metrics)
  }

  datatype Progress = Progress(rows: Rows, synced: nat, failed: nat, calls: nat, refused: Option<Refusal>)

  /** One chunk whose call returned, or failed in a way that concerns this chunk only. */
  function Advance(p: Progress, posts: seq<Post>, metrics: map<string, Metrics>, stamp: int): Progress {
    var hits := Hits(posts, metrics);
    Progress(Applied(p.rows, posts, metrics, stamp), p.synced + hits, p.failed + |posts| - hits, p.calls + 1, p.refused)
  }

  predicate PastDeadline(deadline: Option<int>, now: int) {
    deadline.Some? && now >= deadline.value
  }

  function RunChunks(p: Progress, chunks: seq<seq<Post>>, k: nat, world: World): Progress
    decreases |chunks|
  {
    if chunks == [] || PastDeadline(world.deadline, world.before(k)) then p
    else
      var posts := Survivors(chunks[0]);
      match world.batch(k, Ids(posts))
      case NotImplemented => p
      case Refused(why) => p.(refused := Some(why))
      case Broken => RunChunks(Advance(p, posts, map[], world.after(k)), chunks[1..], k + 1, world)
      case Got(metrics) => RunChunks(Advance(p, posts, metrics, world.after(k)), chunks[1..], k + 1, world)
  }

  function RunSingles(p: Progress, posts: seq<Post>, k: nat, world: SingleWorld): Progress
    decreases |posts|
  {
    if posts == [] || PastDeadline(world.deadline, world.before(k)) then p
    else
      match world.single(k, posts[0].platformPostId)
      case NotImplemented => p
      case Refused(why) => p.(refused := Some(why))
      case Broken => RunSingles(Advance(p, posts[..1], map[], world.after(k)), posts[1..], k + 1, world)
      case Got(m) =>
        RunSingles(Advance(p, posts[..1], map[posts[0].platformPostId := m], world.after(k)), posts[1..], k + 1, world)
  }

  /** A provider without a batch endpoint, or with one for single posts only, is asked post by post. */
  function Pass(rows: Rows, posts: seq<Post>, batchSize: int, world: World, single: SingleWorld): Progress {
    var start := Progress(rows, 0, 0, 0, None);
    if batchSize > 1 then RunChunks(start, Chunks(posts, batchSize), 0, world) else RunSingles(start, posts, 0, single)
  }

  // ---------------------------------------------------------------------
  // The table and the loops
  // ---------------------------------------------------------------------

  datatype Tally = Tally(synced: nat, failed: nat, calls: nat)

  function Finish(p: Progress): Result<Tally, Refusal> {
    match p.refused
    case Some(why) => Err(why)
    case None => Ok(Tally(p.synced, p.failed, p.calls))
  }

  class PostTable {
    var rows: Rows

    constructor (rows: Rows)
      ensures this.rows == rows
    {
      this.rows := rows;
    }

    /** filter(pk__in=...).update(attempted_at=now, failure_count=0) */
    method RecordSuccess(pks: set<nat>, now: int)
      modifies this
      ensures rows.Keys == old(rows).Keys
      ensures forall pk :: pk in rows && pk !in pks ==> rows[pk] == old(rows)[pk]
      ensures forall pk :: pk in rows && pk in pks ==>
                && rows[pk].attemptedAt == Some(now) && rows[pk].failures == 0
                && rows[pk].snapshot == old(rows)[pk].snapshot
    {
      rows := map pk | pk in rows ::
        if pk in pks then rows[pk].(attemptedAt := Some(now), failures := 0) else rows[pk];
    }

    /** filter(pk__in=...).update(attempted_at=now, failure_count=F("failure_count") + 1) */
    method RecordFailure(pks: set<nat>, now: int)
      modifies this
      ensures rows.Keys == old(rows).Keys
      ensures forall pk :: pk in rows && pk !in pks ==> rows[pk] == old(rows)[pk]
      ensures forall pk :: pk in rows && pk in pks ==>
                && rows[pk].attemptedAt == Some(now) && rows[pk].failures == old(rows)[pk].failures + 1
                && rows[pk].snapshot == old(rows)[pk].snapshot
    {
      rows := map pk | pk in rows ::
        if pk in pks then rows[pk].(attemptedAt := Some(now), failures := rows[pk].failures + 1) else rows[pk];
    }

    method WriteSnapshot(pk: nat, m: Metrics)
      modifies this
      ensures rows == if pk in old(rows) then old(rows)[pk := old(rows)[pk].(snapshot := Some(m))] else old(rows)
    {
      if pk in rows {
        rows := rows[pk := rows[pk].(snapshot := Some(m))];
      }
    }

    method StampAnswer(hitIds: set<nat>, missIds: set<nat>, stamp: int)
      requires hitIds !! missIds
      modifies this
      ensures rows.Keys == old(rows).Keys
      ensures forall pk :: pk in rows ==>
                rows[pk] ==
                if pk in hitIds then old(rows)[pk].(attemptedAt := Some(stamp), failures := 0)
                else if pk in missIds
                then old(rows)[pk].(attemptedAt := Some(stamp), failures := old(rows)[pk].failures + 1)
                else old(rows)[pk]
    {
      RecordSuccess(hitIds, stamp);
      RecordFailure(missIds, stamp);
    }

    /** The local half of one chunk: sort the answer into hits and misses, then stamp both. */
    method StoreAnswer(posts: seq<Post>, metrics: map<string, Metrics>, stamp: int) returns (hits: nat)
      requires DistinctPks(posts)
      modifies this
      ensures rows == Applied(old(rows), posts, metrics, stamp)
      ensures hits == Hits(posts, metrics)
    {
      hide Applied, PksWhere, SnapshotsStored, Hits;
      var hitIds: set<nat>, missIds: set<nat> := {}, {};
      hits := 0;
      AnswerStarts(rows, posts, metrics);
      for i := 0 to |posts|
        invariant hits + Hits(posts[i..], metrics) == Hits(posts, metrics)
        invariant hitIds == PksWhere(posts[..i], metrics, true) && missIds == PksWhere(posts[..i], metrics, false)
        invariant SnapshotsStored(old(rows), rows, posts, i, metrics)
      {
        PksWhereNext(posts, metrics, i);
        HitsNext(posts, metrics, i);
        SnapshotsNext(old(rows), rows, posts, i, metrics);
        if posts[i].platformPostId in metrics {
          WriteSnapshot(posts[i].pk, metrics[posts[i].platformPostId]);
          hitIds := hitIds + {posts[i].pk};
          hits := hits + 1;
        } else {
          missIds := missIds + {posts[i].pk};
        }
      }
      assert posts[..|posts|] == posts;
      HitsEnd(posts, metrics);
      ghost var stored := rows;
      PksAreHitsOrMisses(posts, metrics);
      StampAnswer(hitIds, missIds, stamp);
      StampingCompletes(old(rows), stored, rows, posts, metrics, stamp);
    }

    method SyncInBatches(posts: seq<Post>, batchSize: nat, world: World) returns (r: Result<Tally, Refusal>)
      requires DistinctPks(posts) && batchSize > 1
      modifies this
      ensures var p := RunChunks(Progress(old(rows), 0, 0, 0, None), Chunks(posts, batchSize), 0, world);
              rows == p.rows && r == Finish(p)
    {
      hide RunChunks, Chunks, Survivors, Hits, IdOf;
      var synced: nat, failed: nat, calls: nat := 0, 0, 0;
      var offset := 0;
      assert posts[0..] == posts;
      while offset < |posts|
        invariant 0 <= offset <= |posts|
        invariant RunChunks(Progress(rows, synced, failed, calls, None), Chunks(posts[offset..], batchSize), calls,
                            world)
                  == RunChunks(Progress(old(rows), 0, 0, 0, None), Chunks(posts, batchSize), 0, world)
        decreases |posts| - offset
      {
        if PastDeadline(world.deadline, world.before(calls)) {
          break;
        }
        ghost var current := Progress(rows, synced, failed, calls, None);
        var end := if offset + batchSize <= |posts| then offset + batchSize else |posts|;
        var chunk := posts[offset..end];
        RunChunksStep(current, posts, offset, batchSize, calls, world);
        var kept := Survivors(chunk);
        SurvivorsAreDistinct(chunk);
        calls := calls + 1;
        var stamp := world.after(calls - 1);
        match world.batch(calls - 1, Ids(kept)) {
          case NotImplemented =>
            return Ok(Tally(synced, failed, calls - 1));
          case Refused(why) =>
            return Err(why);
          case Broken =>
            NoHits(kept);
            var _ := StoreAnswer(kept, map[], stamp);
            failed := failed + |kept|;
            assert Progress(rows, synced, failed, calls, None) == Advance(current, kept, map[], stamp);
          case Got(metrics) =>
            var hits := StoreAnswer(kept, metrics, stamp);
            synced := synced + hits;
            failed := failed + (|kept| - hits);
            assert Progress(rows, synced, failed, calls, None) == Advance(current, kept, metrics, stamp);
        }
        offset := end;
      }
      RunChunksEnds(Progress(rows, synced, failed, calls, None), posts, offset, batchSize, calls, world);
      r := Ok(Tally(synced, failed, calls));
    }

    method SyncAccountPosts(platform: string, listed: seq<Post>, looksLikeUuid: string -> bool, batchSize: int,
                            world: World, single: SingleWorld) returns (r: Result<Tally, Refusal>)
      requires DistinctPks(listed)
      modifies this
      ensures var p := Pass(old(rows), UsablePosts(platform, listed, looksLikeUuid), batchSize, world, single);
              rows == p.rows && r == Finish(p)
    {
      var posts := UsablePosts(platform, listed, looksLikeUuid);
      if posts == [] {
        return Ok(Tally(0, 0, 0));
      }
      UsableAreDistinct(platform, listed, looksLikeUuid);
      var size := if 1 < batchSize then batchSize else 1;
      if size == 1 {
        r := SyncIndividually(posts, single);
      } else {
        r := SyncInBatches(posts, size, world);
      }
    }

    method SyncIndividually(posts: seq<Post>, world: SingleWorld) returns (r: Result<Tally, Refusal>)
      requires DistinctPks(posts)
      modifies this
      ensures var p := RunSingles(Progress(old(rows), 0, 0, 0, None), posts, 0, world);
              rows == p.rows && r == Finish(p)
    {
      hide RunSingles, Hits, Applied;
      var synced: nat, failed: nat, calls: nat := 0, 0, 0;
      assert posts[0..] == posts;
      for i := 0 to |posts|
        invariant calls == i
        invariant RunSingles(Progress(rows, synced, failed, calls, None), posts[i..], i, world)
                  == RunSingles(Progress(old(rows), 0, 0, 0, None), posts, 0, world)
      {
        if PastDeadline(world.deadline, world.before(i)) {
          RunSinglesEnds(Progress(rows, synced, failed, calls, None), posts, i, world);
          return Ok(Tally(synced, failed, calls));
        }
        ghost var current := Progress(rows, synced, failed, calls, None);
        RunSinglesStep(current, posts, i, world);
        match world.single(i, posts[i].platformPostId) {
          case NotImplemented =>
            return Ok(Tally(synced, failed, calls));
          case Refused(why) =>
            return Err(why);
          case Broken =>
            calls, failed := calls + 1, failed + 1;
            NoHits([posts[i]]);
            var _ := StoreAnswer([posts[i]], map[], world.after(i));
            assert Progress(rows, synced, failed, calls, None) == Advance(current, [posts[i]], map[], world.after(i));
          case Got(m) =>
            calls := calls + 1;
            var found := map[posts[i].platformPostId := m];
            var hits := StoreAnswer([posts[i]], found, world.after(i));
            OneHit(posts[i], m);
            synced := synced + 1;
            assert Progress(rows, synced, failed, calls, None) == Advance(current, [posts[i]], found, world.after(i));
        }
      }
      RunSinglesEnds(Progress(rows, synced, failed, calls, None), posts, |posts|, world);
      r := Ok(Tally(synced, failed, calls));
    }
  }

  lemma {:induction false} UsableIffListed(platform: string, posts: seq<Post>, looksLikeUuid: string -> bool)
    requires DistinctPks(posts)
    ensures forall p :: p in UsablePosts(platform, posts, looksLikeUuid) <==>
              p in posts &&
              (platform in {"facebook", "instagram", "instagram_login"} ==> !looksLikeUuid(p.platformPostId))
    ensures forall p, i ::
              p in UsablePosts(platform, posts, looksLikeUuid) && 0 <= i < |posts| && posts[i].pk == p.pk ==>
                posts[i] == p
    decreases |posts|
  {
    if posts != [] {
      assert posts == [posts[0]] + posts[1..];
      UsableIffListed(platform, posts[1..], looksLikeUuid);
    }
  }

  lemma {:induction false} UsableAreDistinct(platform: string, posts: seq<Post>, looksLikeUuid: string -> bool)
    requires DistinctPks(posts)
    ensures DistinctPks(UsablePosts(platform, posts, looksLikeUuid))
    decreases |posts|
  {
    if posts != [] {
      UsableAreDistinct(platform, posts[1..], looksLikeUuid);
      UsableIffListed(platform, posts[1..], looksLikeUuid);
      forall p | p in UsablePosts(platform, posts[1..], looksLikeUuid) ensures p.pk != posts[0].pk {
        var i :| 0 <= i < |posts[1..]| && posts[1..][i] == p;
        assert posts[i + 1] == p;
      }
    }
  }

  // ---------------------------------------------------------------------
  // Hits and misses of one chunk
  // ---------------------------------------------------------------------

  function PksWhere(posts: seq<Post>, metrics: map<string, Metrics>, hit: bool): set<nat> {
    set i | 0 <= i < |posts| && (posts[i].platformPostId in metrics) == hit :: posts[i].pk
  }

  lemma PksWhereNext(posts: seq<Post>, metrics: map<string, Metrics>, i: nat)
    requires i < |posts|
    ensures forall hit :: PksWhere(posts[..i + 1], metrics, hit) ==
              PksWhere(posts[..i], metrics, hit)
              + if (posts[i].platformPostId in metrics) == hit then {posts[i].pk} else {}
  {
    forall hit, j | 0 <= j < i && (posts[j].platformPostId in metrics) == hit
      ensures posts[j].pk in PksWhere(posts[..i + 1], metrics, hit) && posts[j].pk in PksWhere(posts[..i], metrics, hit)
    {
      assert posts[..i + 1][j] == posts[j] && posts[..i][j] == posts[j];
    }
    assert posts[..i + 1][i] == posts[i];
  }

  /** After the first i posts, exactly the hits among them carry their new snapshot. */
  ghost predicate SnapshotsStored(before: Rows, rows: Rows, posts: seq<Post>, i: nat, metrics: map<string, Metrics>)
    requires i <= |posts|
  {
    && rows.Keys == before.Keys
    && (forall j :: 0 <= j < i && posts[j].pk in rows && posts[j].platformPostId in metrics ==>
          rows[posts[j].pk] == before[posts[j].pk].(snapshot := Some(metrics[posts[j].platformPostId])))
    && (forall pk :: pk in rows && pk !in PksWhere(posts[..i], metrics, true) ==> rows[pk] == before[pk])
  }

  lemma AnswerStarts(rows: Rows, posts: seq<Post>, metrics: map<string, Metrics>)
    ensures SnapshotsStored(rows, rows, posts, 0, metrics)
    ensures PksWhere(posts[..0], metrics, true) == {} && PksWhere(posts[..0], metrics, false) == {}
    ensures posts[0..] == posts
  {
  }

  lemma HitsNext(posts: seq<Post>, metrics: map<string, Metrics>, i: nat)
    requires i < |posts|
    ensures Hits(posts[i..], metrics)
            == (if posts[i].platformPostId in metrics then 1 else 0) + Hits(posts[i + 1..], metrics)
  {
    assert posts[i..][1..] == posts[i + 1..];
  }

  lemma HitsEnd(posts: seq<Post>, metrics: map<string, Metrics>)
    ensures Hits(posts[|posts|..], metrics) == 0
  {
  }

  /** One more post: its snapshot is written if it is a hit. */
  lemma SnapshotsNext(before: Rows, rows: Rows, posts: seq<Post>, i: nat, metrics: map<string, Metrics>)
    requires DistinctPks(posts) && i < |posts| && SnapshotsStored(before, rows, posts, i, metrics)
    ensures var p := posts[i];
            var stored := if p.platformPostId in metrics && p.pk in rows
                          then rows[p.pk := rows[p.pk].(snapshot := Some(metrics[p.platformPostId]))] else rows;
            SnapshotsStored(before, stored, posts, i + 1, metrics)
  {
    hide PksWhere;
    PksWhereNext(posts, metrics, i);
    EarlierHits(posts, metrics, i);
  }

  lemma EarlierHits(posts: seq<Post>, metrics: map<string, Metrics>, i: nat)
    requires DistinctPks(posts) && i < |posts|
    ensures posts[i].pk !in PksWhere(posts[..i], metrics, true)
  {
  }

  /** Distinct keys make a post a hit or a miss, never both, and tie it to its own id. */
  lemma PksSplit(posts: seq<Post>, metrics: map<string, Metrics>, pk: nat)
    requires DistinctPks(posts)
    ensures pk in Pks(posts) ==>
              && (pk in PksWhere(posts, metrics, true) <==> IdOf(posts, pk) in metrics)
              && (pk in PksWhere(posts, metrics, false) <==> IdOf(posts, pk) !in metrics)
              && exists j :: 0 <= j < |posts| && posts[j].pk == pk && posts[j].platformPostId == IdOf(posts, pk)
    ensures pk !in Pks(posts) ==> pk !in PksWhere(posts, metrics, true) && pk !in PksWhere(posts, metrics, false)
    ensures !(pk in PksWhere(posts, metrics, true) && pk in PksWhere(posts, metrics, false))
  {
    if pk in Pks(posts) {
      var j :| 0 <= j < |posts| && posts[j].pk == pk;
      IdOfPost(posts, j);
    }
  }

  lemma PksAreHitsOrMisses(posts: seq<Post>, metrics: map<string, Metrics>)
    requires DistinctPks(posts)
    ensures PksWhere(posts, metrics, true) !! PksWhere(posts, metrics, false)
  {
    forall pk ensures !(pk in PksWhere(posts, metrics, true) && pk in PksWhere(posts, metrics, false)) {
      PksSplit(posts, metrics, pk);
    }
  }

  /** Snapshots stored, then hits and misses stamped: together the whole answer. */
  lemma StampingCompletes(before: Rows, stored: Rows, done: Rows, posts: seq<Post>, metrics: map<string, Metrics>,
                          stamp: int)
    requires DistinctPks(posts) && SnapshotsStored(before, stored, posts, |posts|, metrics)
    requires done.Keys == stored.Keys
    requires forall pk :: pk in stored ==>
               done[pk] ==
               if pk in PksWhere(posts, metrics, true) then stored[pk].(attemptedAt := Some(stamp), failures := 0)
               else if pk in PksWhere(posts, metrics, false)
               then stored[pk].(attemptedAt := Some(stamp), failures := stored[pk].failures + 1)
               else stored[pk]
    ensures done == Applied(before, posts, metrics, stamp)
  {
    hide IdOf, Survivors;
    assert posts[..|posts|] == posts;
    forall pk | pk in done ensures done[pk] == Applied(before, posts, metrics, stamp)[pk] {
      PksSplit(posts, metrics, pk);
    }
  }

  // ---------------------------------------------------------------------
  // Chunks and survivors
  // ---------------------------------------------------------------------

  lemma {:induction false} IdOfPost(posts: seq<Post>, j: nat)
    requires DistinctPks(posts) && j < |posts|
    ensures IdOf(posts, posts[j].pk) == posts[j].platformPostId
    decreases |posts|
  {
    if j > 0 {
      assert posts[1..][j - 1] == posts[j];
      IdOfPost(posts[1..], j - 1);
    }
  }

  lemma {:induction false} NoHits(posts: seq<Post>)
    ensures Hits(posts, map[]) == 0
    decreases |posts|
  {
    if posts != [] {
      NoHits(posts[1..]);
    }
  }

  lemma OneHit(p: Post, m: Metrics)
    ensures Hits([p], map[p.platformPostId := m]) == 1
  {
    assert [p][1..] == [];
  }

  lemma RunSinglesEnds(p: Progress, posts: seq<Post>, i: nat, world: SingleWorld)
    requires i <= |posts| && (i == |posts| || PastDeadline(world.deadline, world.before(i)))
    ensures RunSingles(p, posts[i..], i, world) == p
  {
  }

  lemma RunSinglesStep(p: Progress, posts: seq<Post>, i: nat, world: SingleWorld)
    requires i < |posts| && !PastDeadline(world.deadline, world.before(i))
    ensures RunSingles(p, posts[i..], i, world) ==
            match world.single(i, posts[i].platformPostId)
            case NotImplemented => p
            case Refused(why) => p.(refused := Some(why))
            case Broken => RunSingles(Advance(p, [posts[i]], map[], world.after(i)), posts[i + 1..], i + 1, world)
            case Got(m) =>
              var found := map[posts[i].platformPostId := m];
              RunSingles(Advance(p, [posts[i]], found, world.after(i)), posts[i + 1..], i + 1, world)
  {
    hide Advance;
    assert posts[i..][..1] == [posts[i]] && posts[i..][1..] == posts[i + 1..];
  }

  lemma ChunksHead(posts: seq<Post>, size: nat)
    requires size > 0 && posts != []
    ensures var end := if size <= |posts| then size else |posts|;
            Chunks(posts, size) == [posts[..end]] + Chunks(posts[end..], size)
  {
    if |posts| <= size {
      var end := if size <= |posts| then size else |posts|;
      assert posts[..end] == posts && posts[end..] == [];
    }
  }

  lemma RunChunksEnds(p: Progress, posts: seq<Post>, offset: nat, size: nat, k: nat, world: World)
    requires size > 0 && offset <= |posts| && (offset == |posts| || PastDeadline(world.deadline, world.before(k)))
    ensures RunChunks(p, Chunks(posts[offset..], size), k, world) == p
  {
  }

  lemma RunChunksHead(p: Progress, chunk: seq<Post>, rest: seq<seq<Post>>, k: nat, world: World)
    requires !PastDeadline(world.deadline, world.before(k))
    ensures var kept := Survivors(chunk);
            RunChunks(p, [chunk] + rest, k, world) ==
            match world.batch(k, Ids(kept))
            case NotImplemented => p
            case Refused(why) => p.(refused := Some(why))
            case Broken => RunChunks(Advance(p, kept, map[], world.after(k)), rest, k + 1, world)
            case Got(m) => RunChunks(Advance(p, kept, m, world.after(k)), rest, k + 1, world)
  {
    hide Survivors, Advance;
    assert ([chunk] + rest)[1..] == rest;
  }

  /** The loop's view of RunChunks: one slice of the list at a time. */
  lemma RunChunksStep(p: Progress, posts: seq<Post>, offset: nat, size: nat, k: nat, world: World)
    requires size > 0 && offset < |posts| && !PastDeadline(world.deadline, world.before(k))
    ensures var end := if offset + size <= |posts| then offset + size else |posts|;
            var kept := Survivors(posts[offset..end]);
            RunChunks(p, Chunks(posts[offset..], size), k, world) ==
            match world.batch(k, Ids(kept))
            case NotImplemented => p
            case Refused(why) => p.(refused := Some(why))
            case Broken => RunChunks(Advance(p, kept, map[], world.after(k)), Chunks(posts[end..], size), k + 1, world)
            case Got(m) => RunChunks(Advance(p, kept, m, world.after(k)), Chunks(posts[end..], size), k + 1, world)
  {
    hide Survivors, Chunks, RunChunks, Advance;
    var end := if offset + size <= |posts| then offset + size else |posts|;
    var rest := posts[offset..];
    ChunksHead(rest, size);
    assert rest[..end - offset] == posts[offset..end] && rest[end - offset..] == posts[end..];
    RunChunksHead(p, posts[offset..end], Chunks(posts[end..], size), k, world);
  }

  lemma {:induction false} EnteredOnce(dict: seq<Post>, p: Post)
    requires DistinctIds(dict)
    ensures DistinctIds(Entered(dict, p))
    ensures forall q :: q in Entered(dict, p) <==> q == p || (q in dict && q.platformPostId != p.platformPostId)
    ensures |Entered(dict, p)| == |dict| + if HasId(dict, p.platformPostId) then 0 else 1
    decreases |dict|
  {
    if dict != [] {
      var rest := dict[1..];
      assert dict == [dict[0]] + rest;
      if dict[0].platformPostId == p.platformPostId {
        assert forall i :: 1 <= i < |dict| ==> dict[i].platformPostId != p.platformPostId;
      } else {
        EnteredOnce(rest, p);
        HasIdOfRest(dict, p.platformPostId);
        forall q | q in Entered(rest, p) ensures q.platformPostId != dict[0].platformPostId {
        }
      }
    }
  }

  lemma HasIdOfRest(dict: seq<Post>, id: string)
    requires dict != [] && dict[0].platformPostId != id
    ensures HasId(dict, id) <==> HasId(dict[1..], id)
  {
    if HasId(dict, id) {
      var i :| 0 <= i < |dict| && dict[i].platformPostId == id;
      assert dict[1..][i - 1].platformPostId == id;
    }
  }

  ghost predicate Shadowed(chunk: seq<Post>, i: nat)
    requires i < |chunk|
  {
    exists j :: i < j < |chunk| && chunk[j].platformPostId == chunk[i].platformPostId
  }

  /** p stands in the chunk with no later post of its id behind it. */
  ghost predicate Unshadowed(chunk: seq<Post>, p: Post) {
    exists i :: 0 <= i < |chunk| && chunk[i] == p && !Shadowed(chunk, i)
  }

  /** The dict has each id once, with the last post of that id. */
  lemma {:induction false} DictKeepsTheLast(chunk: seq<Post>)
    ensures DistinctIds(Survivors(chunk))
    ensures forall p :: p in Survivors(chunk) <==> Unshadowed(chunk, p)
    decreases |chunk|
  {
    hide Entered;
    if chunk != [] {
      var init, last := chunk[..|chunk| - 1], chunk[|chunk| - 1];
      DictKeepsTheLast(init);
      EnteredOnce(Survivors(init), last);
      forall p
        ensures Unshadowed(chunk, p) <==> p == last || (Unshadowed(init, p) && p.platformPostId != last.platformPostId)
      {
        UnshadowedOfInit(chunk, p);
      }
    }
  }

  lemma ShadowedOfInit(chunk: seq<Post>, i: nat)
    requires i + 1 < |chunk|
    ensures var init, last := chunk[..|chunk| - 1], chunk[|chunk| - 1];
            Shadowed(chunk, i) <==> Shadowed(init, i) || chunk[i].platformPostId == last.platformPostId
  {
    var init := chunk[..|chunk| - 1];
    if Shadowed(init, i) {
      var j :| i < j < |init| && init[j].platformPostId == init[i].platformPostId;
      assert chunk[j].platformPostId == chunk[i].platformPostId;
    }
    if Shadowed(chunk, i) {
      var j :| i < j < |chunk| && chunk[j].platformPostId == chunk[i].platformPostId;
      assert j < |init| ==> init[j].platformPostId == init[i].platformPostId;
    }
  }

  lemma LastIsUnshadowed(chunk: seq<Post>)
    requires chunk != []
    ensures !Shadowed(chunk, |chunk| - 1) && Unshadowed(chunk, chunk[|chunk| - 1])
  {
    assert !Shadowed(chunk, |chunk| - 1);
  }

  lemma UnshadowedOfInit(chunk: seq<Post>, p: Post)
    requires chunk != []
    ensures var init, last := chunk[..|chunk| - 1], chunk[|chunk| - 1];
            Unshadowed(chunk, p) <==> p == last || (Unshadowed(init, p) && p.platformPostId != last.platformPostId)
  {
    hide Shadowed;
    var n := |chunk| - 1;
    var init, last := chunk[..n], chunk[n];
    LastIsUnshadowed(chunk);
    if Unshadowed(init, p) && p.platformPostId != last.platformPostId {
      var i :| 0 <= i < n && init[i] == p && !Shadowed(init, i);
      ShadowedOfInit(chunk, i);
      assert chunk[i] == p && !Shadowed(chunk, i);
    }
    if Unshadowed(chunk, p) && p != last {
      var i :| 0 <= i < |chunk| && chunk[i] == p && !Shadowed(chunk, i);
      ShadowedOfInit(chunk, i);
      assert init[i] == p && !Shadowed(init, i);
    }
  }

  /** Survivors are posts of the chunk, with distinct keys and ids. */
  lemma SurvivorsAreDistinct(chunk: seq<Post>)
    requires DistinctPks(chunk)
    ensures DistinctPks(Survivors(chunk)) && DistinctIds(Survivors(chunk))
    ensures forall p :: p in Survivors(chunk) ==> p in chunk
  {
    hide Survivors;
    DictKeepsTheLast(chunk);
    var kept := Survivors(chunk);
    forall p | p in kept ensures p in chunk {
      assert Unshadowed(chunk, p);
    }
    forall i, j | 0 <= i < j < |kept| ensures kept[i].pk != kept[j].pk {
      assert kept[i] in chunk && kept[j] in chunk;
    }
  }

  /** A post survives exactly when no later post of the chunk has its id. */
  lemma SurvivesIffNotShadowed(chunk: seq<Post>, i: nat)
    requires DistinctPks(chunk) && i < |chunk|
    ensures chunk[i].pk in Pks(Survivors(chunk)) <==> !Shadowed(chunk, i)
    ensures chunk[i] in Survivors(chunk) <==> !Shadowed(chunk, i)
  {
    hide Survivors;
    DictKeepsTheLast(chunk);
    SurvivorsAreDistinct(chunk);
    var kept := Survivors(chunk);
    if chunk[i].pk in Pks(kept) {
      var j :| 0 <= j < |kept| && kept[j].pk == chunk[i].pk;
      assert kept[j] in chunk && kept[j] == chunk[i];
    }
    if chunk[i] in kept {
      var j :| 0 <= j < |kept| && kept[j] == chunk[i];
      assert kept[j].pk in Pks(kept);
      var k :| 0 <= k < |chunk| && chunk[k] == chunk[i] && !Shadowed(chunk, k);
    }
  }

  /** The ids of a chunk, each where it first stands: the order of the request. */
  function FirstIds(chunk: seq<Post>): seq<string> {
    if chunk == [] then []
    else
      var init, last := chunk[..|chunk| - 1], chunk[|chunk| - 1];
      FirstIds(init) + if HasId(init, last.platformPostId) then [] else [last.platformPostId]
  }

  lemma {:induction false} IdsOfEntered(dict: seq<Post>, p: Post)
    ensures Ids(Entered(dict, p)) == Ids(dict) + if HasId(dict, p.platformPostId) then [] else [p.platformPostId]
    decreases |dict|
  {
    if dict != [] && dict[0].platformPostId != p.platformPostId {
      IdsOfEntered(dict[1..], p);
      HasIdOfRest(dict, p.platformPostId);
      assert Ids(dict) == [dict[0].platformPostId] + Ids(dict[1..]);
      assert Ids(Entered(dict, p)) == [dict[0].platformPostId] + Ids(Entered(dict[1..], p));
    }
  }

  lemma {:induction false} RequestListsFirstPlaces(chunk: seq<Post>)
    ensures Ids(Survivors(chunk)) == FirstIds(chunk)
    ensures forall id :: HasId(Survivors(chunk), id) <==> HasId(chunk, id)
    decreases |chunk|
  {
    if chunk != [] {
      var init, last := chunk[..|chunk| - 1], chunk[|chunk| - 1];
      RequestListsFirstPlaces(init);
      IdsOfEntered(Survivors(init), last);
      forall id ensures HasId(Survivors(chunk), id) <==> HasId(chunk, id) {
        HasIdOfEntered(Survivors(init), last, id);
        HasIdOfLast(chunk, id);
      }
    }
  }

  lemma {:induction false} HasIdOfEntered(dict: seq<Post>, p: Post, id: string)
    ensures HasId(Entered(dict, p), id) <==> HasId(dict, id) || id == p.platformPostId
    decreases |dict|
  {
    var entered := Entered(dict, p);
    if dict != [] {
      HasIdOfFirst(entered, id);
      HasIdOfFirst(dict, id);
      if dict[0].platformPostId != p.platformPostId {
        HasIdOfEntered(dict[1..], p, id);
        assert entered[1..] == Entered(dict[1..], p);
      } else {
        assert entered[1..] == dict[1..];
      }
    } else {
      assert entered[0] == p;
    }
  }

  lemma HasIdOfFirst(posts: seq<Post>, id: string)
    requires posts != []
    ensures HasId(posts, id) <==> posts[0].platformPostId == id || HasId(posts[1..], id)
  {
    if posts[0].platformPostId != id {
      HasIdOfRest(posts, id);
    }
  }

  lemma HasIdOfLast(posts: seq<Post>, id: string)
    requires posts != []
    ensures HasId(posts, id) <==> HasId(posts[..|posts| - 1], id) || posts[|posts| - 1].platformPostId == id
  {
    var init := posts[..|posts| - 1];
    if HasId(init, id) {
      var i :| 0 <= i < |init| && init[i].platformPostId == id;
      assert posts[i].platformPostId == id;
    }
    if HasId(posts, id) {
      var i :| 0 <= i < |posts| && posts[i].platformPostId == id;
      assert i < |init| ==> init[i].platformPostId == id;
    }
  }

  lemma DistinctIdsOfInit(chunk: seq<Post>)
    requires chunk != []
    ensures var init, last := chunk[..|chunk| - 1], chunk[|chunk| - 1];
            DistinctIds(chunk) <==> DistinctIds(init) && !HasId(init, last.platformPostId)
  {
    var init, last := chunk[..|chunk| - 1], chunk[|chunk| - 1];
    assert chunk == init + [last];
  }

  lemma SurvivorsOfInit(chunk: seq<Post>)
    requires chunk != []
    ensures Survivors(chunk) == Entered(Survivors(chunk[..|chunk| - 1]), chunk[|chunk| - 1])
  {
  }

  lemma {:induction false} AllSurviveIffDistinctIds(chunk: seq<Post>)
    ensures |Survivors(chunk)| <= |chunk|
    ensures |Survivors(chunk)| == |chunk| <==> DistinctIds(chunk)
    ensures DistinctIds(chunk) ==> Survivors(chunk) == chunk
    decreases |chunk|
  {
    if chunk != [] {
      SurvivorsOfInit(chunk);
      hide Survivors, Entered, DistinctIds, HasId, Ids, FirstIds;
      var init, last := chunk[..|chunk| - 1], chunk[|chunk| - 1];
      AllSurviveIffDistinctIds(init);
      DictKeepsTheLast(init);
      EnteredOnce(Survivors(init), last);
      RequestListsFirstPlaces(init);
      DistinctIdsOfInit(chunk);
      if DistinctIds(chunk) {
        EnteredAtTheEnd(init, last);
        assert chunk == init + [last];
      }
    }
  }

  lemma {:induction false} EnteredAtTheEnd(dict: seq<Post>, p: Post)
    requires !HasId(dict, p.platformPostId)
    ensures Entered(dict, p) == dict + [p]
    decreases |dict|
  {
    if dict != [] {
      assert dict[0].platformPostId != p.platformPostId;
      HasIdOfRest(dict, p.platformPostId);
      EnteredAtTheEnd(dict[1..], p);
    }
  }
}
