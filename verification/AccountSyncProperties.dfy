// What a sync pass does to every post, however it ends.
module AccountSyncProperties {
  import opened Wrappers
  import opened AccountSync

  /** How many chunks were answered, or failed on their own, before the pass ended. */
  function Processed(chunks: seq<seq<Post>>, k: nat, world: World): (n: nat)
    ensures n <= |chunks|
    decreases |chunks|
  {
    if chunks == [] || PastDeadline(world.deadline, world.before(k)) then 0
    else
      match world.batch(k, Ids(Survivors(chunks[0])))
      case NotImplemented => 0
      case Refused(_) => 0
      case _ => 1 + Processed(chunks[1..], k + 1, world)
  }

  /** What call k found for a chunk; a broken call found nothing. */
  function Found(world: World, chunk: seq<Post>, k: nat): map<string, Metrics> {
    match world.batch(k, Ids(Survivors(chunk)))
    case Got(metrics) => metrics
    case _ => map[]
  }

  ghost predicate Disjoint(chunks: seq<seq<Post>>) {
    && (forall c :: 0 <= c < |chunks| ==> DistinctPks(chunks[c]))
    && (forall c, d :: 0 <= c < d < |chunks| ==> Pks(chunks[c]) !! Pks(chunks[d]))
  }

  function TotalSurvivors(chunks: seq<seq<Post>>): nat {
    if chunks == [] then 0 else |Survivors(chunks[0])| + TotalSurvivors(chunks[1..])
  }

  /** Posts the answers of calls k, k + 1, ... contain. */
  function TotalHits(chunks: seq<seq<Post>>, k: nat, world: World): nat {
    if chunks == [] then 0
    else Hits(Survivors(chunks[0]), Found(world, chunks[0], k)) + TotalHits(chunks[1..], k + 1, world)
  }

  /** The row `after` is what chunk c's answer makes of `before`. */
  ghost predicate RecordedBy(before: SyncRow, after: SyncRow, pk: nat, chunk: seq<Post>, k: nat, world: World)
    requires pk in Pks(Survivors(chunk))
  {
    after == Outcome(before, Lookup(Found(world, chunk, k), IdOf(Survivors(chunk), pk)), world.after(k))
  }

  lemma SurvivorPks(chunk: seq<Post>)
    requires DistinctPks(chunk)
    ensures Pks(Survivors(chunk)) <= Pks(chunk)
  {
    SurvivorsAreDistinct(chunk);
    forall pk | pk in Pks(Survivors(chunk)) ensures pk in Pks(chunk) {
      var i :| 0 <= i < |Survivors(chunk)| && Survivors(chunk)[i].pk == pk;
      assert Survivors(chunk)[i] in chunk;
    }
  }

  lemma {:induction false} OutcomeOfAReachedChunk(p: Progress, chunks: seq<seq<Post>>, k: nat, world: World, c: nat,
                                                  pk: nat)
    requires Disjoint(chunks) && c < Processed(chunks, k, world)
    requires pk in Pks(Survivors(chunks[c])) && pk in p.rows
    ensures var q := RunChunks(p, chunks, k, world);
            pk in q.rows && RecordedBy(p.rows[pk], q.rows[pk], pk, chunks[c], k + c, world)
    decreases |chunks|
  {
    var posts := Survivors(chunks[0]);
    var q := Advance(p, posts, Found(world, chunks[0], k), world.after(k));
    var rest := chunks[1..];
    assert Disjoint(rest);
    SurvivorPks(chunks[0]);
    SurvivorPks(chunks[c]);
    if c == 0 {
      forall d | 0 <= d < |rest| ensures pk !in Pks(Survivors(rest[d])) {
        assert rest[d] == chunks[d + 1];
        SurvivorPks(rest[d]);
      }
      UnreachedRowsStay(q, rest, k + 1, world, pk);
    } else {
      assert rest[c - 1] == chunks[c];
      OutcomeOfAReachedChunk(q, rest, k + 1, world, c - 1, pk);
    }
  }

  /** A row no reached chunk kept is left exactly as it was. */
  lemma {:induction false} UnreachedRowsStay(p: Progress, chunks: seq<seq<Post>>, k: nat, world: World, pk: nat)
    requires Disjoint(chunks) && pk in p.rows
    requires forall c :: 0 <= c < Processed(chunks, k, world) ==> pk !in Pks(Survivors(chunks[c]))
    ensures var q := RunChunks(p, chunks, k, world); pk in q.rows && q.rows[pk] == p.rows[pk]
    decreases |chunks|
  {
    if Processed(chunks, k, world) > 0 {
      var rest := chunks[1..];
      assert Disjoint(rest);
      assert forall c :: 0 <= c < |rest| ==> rest[c] == chunks[c + 1];
      var q := Advance(p, Survivors(chunks[0]), Found(world, chunks[0], k), world.after(k));
      UnreachedRowsStay(q, rest, k + 1, world, pk);
    }
  }

  lemma {:induction false} TallyOfARun(p: Progress, chunks: seq<seq<Post>>, k: nat, world: World)
    ensures var q := RunChunks(p, chunks, k, world);
            var n := Processed(chunks, k, world);
            && q.calls == p.calls + n
            && q.synced == p.synced + TotalHits(chunks[..n], k, world)
            && q.synced + q.failed == p.synced + p.failed + TotalSurvivors(chunks[..n])
            && q.refused == (if n < |chunks| && !PastDeadline(world.deadline, world.before(k + n))
                             then match world.batch(k + n, Ids(Survivors(chunks[n])))
                                  case Refused(why) => Some(why)
                                  case _ => p.refused
                             else p.refused)
    decreases |chunks|
  {
    hide Survivors, Applied;
    var n := Processed(chunks, k, world);
    if n > 0 {
      if world.batch(k, Ids(Survivors(chunks[0]))).Broken? {
        NoHits(Survivors(chunks[0]));
      }
      var q := Advance(p, Survivors(chunks[0]), Found(world, chunks[0], k), world.after(k));
      TallyOfARun(q, chunks[1..], k + 1, world);
      assert chunks[..n][1..] == chunks[1..][..n - 1];
    }
  }

  // ---------------------------------------------------------------------
  // Chunks of a list
  // ---------------------------------------------------------------------

  function ChunkEnd(posts: seq<Post>, size: nat, c: nat): nat {
    if (c + 1) * size <= |posts| then (c + 1) * size else |posts|
  }

  lemma SliceOfRest(posts: seq<Post>, k: nat, a: nat, b: nat)
    requires k <= |posts| && a <= b <= |posts| - k
    ensures posts[k..][a..b] == posts[a + k..b + k]
  {
  }

  lemma {:induction false} ChunkAt(posts: seq<Post>, size: nat, c: nat)
    requires size > 0 && c < |Chunks(posts, size)|
    ensures 0 <= c * size < ChunkEnd(posts, size, c) <= |posts|
    ensures Chunks(posts, size)[c] == posts[c * size..ChunkEnd(posts, size, c)]
    decreases c
  {
    ChunksHead(posts, size);
    if c > 0 {
      var rest := posts[size..];
      ChunkAt(rest, size, c - 1);
      assert (c - 1) * size + size == c * size;
      assert c * size + size == (c + 1) * size;
      assert ChunkEnd(posts, size, c) == ChunkEnd(rest, size, c - 1) + size;
      SliceOfRest(posts, size, (c - 1) * size, ChunkEnd(rest, size, c - 1));
    }
  }

  /** The number of chunks is the length over the size, rounded up. */
  lemma {:induction false} ChunkCount(posts: seq<Post>, size: nat)
    requires size > 0
    ensures var n := |Chunks(posts, size)|; (n - 1) * size < |posts| <= n * size || (n == 0 && posts == [])
    decreases |posts|
  {
    if |posts| > size {
      var n := |Chunks(posts, size)|;
      ChunkCount(posts[size..], size);
      assert (n - 1 - 1) * size + size == (n - 1) * size && (n - 1) * size + size == n * size;
    }
  }

  lemma ChunkIsDistinct(posts: seq<Post>, size: nat, c: nat)
    requires size > 0 && DistinctPks(posts) && c < |Chunks(posts, size)|
    ensures DistinctPks(Chunks(posts, size)[c])
  {
    hide Chunks;
    ChunkAt(posts, size, c);
  }

  lemma ChunkPairIsDisjoint(posts: seq<Post>, size: nat, c: nat, d: nat)
    requires size > 0 && DistinctPks(posts) && c < d < |Chunks(posts, size)|
    ensures Pks(Chunks(posts, size)[c]) !! Pks(Chunks(posts, size)[d])
  {
    hide Chunks;
    ChunkAt(posts, size, c);
    ChunkAt(posts, size, d);
    MulOrder(c + 1, d, size);
    var a, b := Chunks(posts, size)[c], Chunks(posts, size)[d];
    forall i, j | 0 <= i < |a| && 0 <= j < |b| ensures a[i].pk != b[j].pk {
      assert a[i] == posts[c * size + i] && b[j] == posts[d * size + j];
    }
  }

  lemma ChunksAreDisjoint(posts: seq<Post>, size: nat)
    requires size > 0 && DistinctPks(posts)
    ensures Disjoint(Chunks(posts, size))
  {
    hide Chunks, DistinctPks, Pks;
    var chunks: seq<seq<Post>> := Chunks(posts, size);
    forall c | 0 <= c < |chunks| ensures DistinctPks(chunks[c]) {
      ChunkIsDistinct(posts, size, c);
    }
    forall c, d | 0 <= c < d < |chunks| ensures Pks(chunks[c]) !! Pks(chunks[d]) {
      ChunkPairIsDisjoint(posts, size, c, d);
    }
  }

  lemma MulOrder(a: nat, b: nat, size: nat)
    requires a <= b
    ensures a * size <= b * size
  {
  }

  // ---------------------------------------------------------------------
  // Main results
  // ---------------------------------------------------------------------

  /** Every answer is about its own chunk: no early stop, no account-wide verdict. */
  ghost predicate Unhindered(world: World) {
    world.deadline.None? && forall k: nat, ids: seq<string> :: world.batch(k, ids).Got? || world.batch(k, ids).Broken?
  }

  lemma {:induction false} UnhinderedReachesAll(chunks: seq<seq<Post>>, k: nat, world: World)
    requires Unhindered(world)
    ensures Processed(chunks, k, world) == |chunks|
    decreases |chunks|
  {
    if chunks != [] {
      UnhinderedReachesAll(chunks[1..], k + 1, world);
    }
  }

  /** The posts a pass accounts for are those no later post of their chunk shadows. */
  lemma {:induction false} TotalCountsDistinct(chunks: seq<seq<Post>>)
    ensures TotalSurvivors(chunks) <= Total(chunks)
    ensures TotalSurvivors(chunks) == Total(chunks) <==> forall c :: 0 <= c < |chunks| ==> DistinctIds(chunks[c])
  {
    if chunks != [] {
      AllSurviveIffDistinctIds(chunks[0]);
      TotalCountsDistinct(chunks[1..]);
      assert forall c :: 1 <= c < |chunks| ==> chunks[c] == chunks[1..][c - 1];
      if forall c :: 0 <= c < |chunks| ==> DistinctIds(chunks[c]) {
        assert DistinctIds(chunks[0]);
      }
    }
  }

  function Total(chunks: seq<seq<Post>>): nat {
    if chunks == [] then 0 else |chunks[0]| + Total(chunks[1..])
  }

  lemma {:induction false} ChunksTotal(posts: seq<Post>, size: nat)
    requires size > 0
    ensures Total(Chunks(posts, size)) == |posts|
    decreases |posts|
  {
    if posts != [] {
      ChunksHead(posts, size);
      var end := if size <= |posts| then size else |posts|;
      ChunksTotal(posts[end..], size);
    }
  }

  /** Accounting of an unhindered pass: calls, tallies, and what happened to each post. */
  lemma UnhinderedPass(rows: Rows, posts: seq<Post>, size: nat, world: World)
    requires size > 0 && DistinctPks(posts) && Unhindered(world)
    ensures var q := RunChunks(Progress(rows, 0, 0, 0, None), Chunks(posts, size), 0, world);
            && q.refused.None?
            && ((q.calls - 1) * size < |posts| <= q.calls * size || (q.calls == 0 && posts == []))
            && q.synced + q.failed <= |posts|
            && (q.synced + q.failed == |posts| <==> DistinctWithinChunks(posts, size))
  {
    var chunks: seq<seq<Post>> := Chunks(posts, size);
    UnhinderedReachesAll(chunks, 0, world);
    TallyOfARun(Progress(rows, 0, 0, 0, None), chunks, 0, world);
    assert chunks[..|chunks|] == chunks;
    ChunkCount(posts, size);
    TotalCountsDistinct(chunks);
    ChunksTotal(posts, size);
  }

  /**
   * The fate of post i of chunk c, however the pass ended: recorded once by its
   * own chunk's answer if the chunk was reached and no later post of the chunk
   * has its platform id, and untouched otherwise.
   */
  lemma FateOfAPost(rows: Rows, posts: seq<Post>, size: nat, world: World, c: nat, i: nat)
    requires size > 0 && DistinctPks(posts)
    requires c < |Chunks(posts, size)| && i < |Chunks(posts, size)[c]|
    requires Chunks(posts, size)[c][i].pk in rows
    ensures var chunks: seq<seq<Post>> := Chunks(posts, size);
            var q := RunChunks(Progress(rows, 0, 0, 0, None), chunks, 0, world);
            var pk := chunks[c][i].pk;
            && pk in q.rows
            && (if q.calls <= c || Shadowed(chunks[c], i) then q.rows[pk] == rows[pk]
                else q.rows[pk] == Outcome(rows[pk],
                                           Lookup(Found(world, chunks[c], c), chunks[c][i].platformPostId),
                                           world.after(c)))
  {
    hide RunChunks, Chunks, Survivors, IdOf;
    var chunks: seq<seq<Post>> := Chunks(posts, size);
    var start := Progress(rows, 0, 0, 0, None);
    var pk := chunks[c][i].pk;
    ChunksAreDisjoint(posts, size);
    TallyOfARun(start, chunks, 0, world);
    SurvivesIffNotShadowed(chunks[c], i);
    assert pk in Pks(chunks[c]);
    if c < Processed(chunks, 0, world) && !Shadowed(chunks[c], i) {
      OutcomeOfAReachedChunk(start, chunks, 0, world, c, pk);
      SurvivorsAreDistinct(chunks[c]);
      SurvivorKeepsItsId(chunks[c], i);
    } else {
      forall d | 0 <= d < Processed(chunks, 0, world) ensures pk !in Pks(Survivors(chunks[d])) {
        SurvivorPks(chunks[d]);
        if d != c {
          assert Pks(chunks[d]) !! Pks(chunks[c]);
        }
      }
      UnreachedRowsStay(start, chunks, 0, world, pk);
    }
  }

  lemma SurvivorKeepsItsId(chunk: seq<Post>, i: nat)
    requires DistinctPks(chunk) && i < |chunk| && chunk[i].pk in Pks(Survivors(chunk))
    ensures IdOf(Survivors(chunk), chunk[i].pk) == chunk[i].platformPostId
  {
    hide Survivors;
    var kept := Survivors(chunk);
    SurvivorsAreDistinct(chunk);
    var j :| 0 <= j < |kept| && kept[j].pk == chunk[i].pk;
    assert kept[j] in chunk;
    IdOfPost(kept, j);
  }

  /** A quota or token verdict at some chunk reaches the caller and leaves that chunk and all later ones alone. */
  lemma RefusalTouchesNoLaterPost(rows: Rows, posts: seq<Post>, size: nat, world: World, i: nat)
    requires size > 0 && DistinctPks(posts) && i < |posts| && posts[i].pk in rows
    requires RunChunks(Progress(rows, 0, 0, 0, None), Chunks(posts, size), 0, world).refused.Some?
    ensures var q := RunChunks(Progress(rows, 0, 0, 0, None), Chunks(posts, size), 0, world);
            && q.calls < |Chunks(posts, size)|
            && world.batch(q.calls, Ids(Survivors(Chunks(posts, size)[q.calls]))) == Refused(q.refused.value)
            && (i >= q.calls * size ==> posts[i].pk in q.rows && q.rows[posts[i].pk] == rows[posts[i].pk])
  {
    hide RunChunks, Chunks, Survivors;
    var chunks: seq<seq<Post>> := Chunks(posts, size);
    var start := Progress(rows, 0, 0, 0, None);
    TallyOfARun(start, chunks, 0, world);
    var n := Processed(chunks, 0, world);
    if i >= n * size {
      ChunksAreDisjoint(posts, size);
      forall d | 0 <= d < n ensures posts[i].pk !in Pks(Survivors(chunks[d])) {
        ChunkAt(posts, size, d);
        MulOrder(d + 1, n, size);
        SurvivorPks(chunks[d]);
        forall j | 0 <= j < |chunks[d]| ensures chunks[d][j].pk != posts[i].pk {
          assert chunks[d][j] == posts[d * size + j];
        }
      }
      UnreachedRowsStay(start, chunks, 0, world, posts[i].pk);
    }
  }

  /** No chunk asks for the same platform id twice; chunks of one post never do. */
  ghost predicate DistinctWithinChunks(posts: seq<Post>, size: nat)
    requires size > 0
  {
    forall c :: 0 <= c < |Chunks(posts, size)| ==> DistinctIds(Chunks(posts, size)[c])
  }

  lemma ChunksOfOneAreDistinct(posts: seq<Post>)
    ensures DistinctWithinChunks(posts, 1)
  {
    forall c | 0 <= c < |Chunks(posts, 1)| ensures DistinctIds(Chunks(posts, 1)[c]) {
      ChunkAt(posts, 1, c);
    }
  }

  /**
   * A pass cut short, or run to the end, stamps a prefix of its list, but for posts behind which their
   * chunk repeats their id; those, and the rest of the list, it leaves alone.
   */
  lemma PassStampsAPrefix(rows: Rows, posts: seq<Post>, size: nat, world: World, c: nat, i: nat)
    requires size > 0 && DistinctPks(posts)
    requires c * size <= i < (c + 1) * size && i < |posts| && posts[i].pk in rows
    ensures c < |Chunks(posts, size)| && i - c * size < |Chunks(posts, size)[c]|
    ensures Chunks(posts, size)[c][i - c * size] == posts[i]
    ensures var q := RunChunks(Progress(rows, 0, 0, 0, None), Chunks(posts, size), 0, world);
            && posts[i].pk in q.rows
            && (i < q.calls * size <==> c < q.calls)
            && (if c < q.calls && !Shadowed(Chunks(posts, size)[c], i - c * size)
                then q.rows[posts[i].pk].attemptedAt == Some(world.after(c))
                else q.rows[posts[i].pk] == rows[posts[i].pk])
  {
    hide RunChunks, Chunks, Survivors, Shadowed;
    var chunks: seq<seq<Post>> := Chunks(posts, size);
    var q := RunChunks(Progress(rows, 0, 0, 0, None), chunks, 0, world);
    ChunkCount(posts, size);
    if c >= |chunks| {
      MulOrder(|chunks|, c, size);
      assert false;
    }
    ChunkAt(posts, size, c);
    var j := i - c * size;
    assert chunks[c][j] == posts[i];
    FateOfAPost(rows, posts, size, world, c, j);
    if c < q.calls {
      MulOrder(c + 1, q.calls, size);
    } else {
      MulOrder(q.calls, c, size);
    }
  }

  /** A provider that answers every call with the metrics of "v". */
  function TwinWorld(stamp: int): World {
    World((k, ids) => Got(map["v" := 7]), _ => stamp, _ => stamp, None)
  }

  /** Two posts of one chunk with one platform id: the first is asked for by nobody and keeps its row. */
  lemma TwinIsLeftAlone(first: SyncRow, second: SyncRow, stamp: int)
    ensures var posts := [Post(1, "v"), Post(2, "v")];
            var q := RunChunks(Progress(map[1 := first, 2 := second], 0, 0, 0, None), Chunks(posts, 2), 0,
                               TwinWorld(stamp));
            q == Progress(map[1 := first, 2 := SyncRow(Some(stamp), 0, Some(7))], 1, 0, 1, None)
  {
    var posts := [Post(1, "v"), Post(2, "v")];
    var rows: Rows := map[1 := first, 2 := second];
    TwinsKeepTheSecond();
    var kept := [Post(2, "v")];
    assert kept[0].pk in Pks(kept);
    assert Chunks(posts, 2) == [posts];
    assert Applied(rows, kept, map["v" := 7], stamp) == map[1 := first, 2 := SyncRow(Some(stamp), 0, Some(7))];
    assert Hits(kept, map["v" := 7]) == 1;
    assert [posts][1..] == [];
  }

  lemma TwinsKeepTheSecond()
    ensures Survivors([Post(1, "v"), Post(2, "v")]) == [Post(2, "v")]
  {
    var posts := [Post(1, "v"), Post(2, "v")];
    OneSurvives(posts[0]);
    assert posts[..1] == [posts[0]];
    assert [posts[0]][1..] == [];
  }

  // ---------------------------------------------------------------------
  // The per-post loop is the chunked one with chunks of one post
  // ---------------------------------------------------------------------

  function AnswerOne(world: SingleWorld, k: nat, ids: seq<string>): Answer<map<string, Metrics>> {
    if |ids| != 1 then NotImplemented
    else
      match world.single(k, ids[0])
      case Got(m) => Got(map[ids[0] := m])
      case NotImplemented => NotImplemented
      case Refused(why) => Refused(why)
      case Broken => Broken
  }

  function AsBatch(world: SingleWorld): World {
    World((k, ids) => AnswerOne(world, k, ids), world.before, world.after, world.deadline)
  }

  lemma {:induction false} SinglesAreChunksOfOne(p: Progress, posts: seq<Post>, k: nat, world: SingleWorld)
    ensures RunSingles(p, posts, k, world) == RunChunks(p, Chunks(posts, 1), k, AsBatch(world))
    decreases |posts|
  {
    if posts != [] {
      ChunksHead(posts, 1);
      var chunk := posts[..1];
      assert Chunks(posts, 1)[0] == chunk && Chunks(posts, 1)[1..] == Chunks(posts[1..], 1);
      assert Survivors(chunk) == chunk;
      assert Ids(chunk) == [posts[0].platformPostId];
      match world.single(k, posts[0].platformPostId)
      case Got(m) =>
        var q := Advance(p, chunk, map[posts[0].platformPostId := m], world.after(k));
        SinglesAreChunksOfOne(q, posts[1..], k + 1, world);
      case Broken =>
        SinglesAreChunksOfOne(Advance(p, chunk, map[], world.after(k)), posts[1..], k + 1, world);
      case _ =>
    }
  }

  predicate Known(ids: seq<string>, truth: map<string, Metrics>) {
    forall id :: id in ids ==> id in truth
  }

  /** The answer covers every id asked for, truthfully; what else it holds does not matter. */
  ghost predicate Covers(answer: Answer<map<string, Metrics>>, ids: seq<string>, truth: map<string, Metrics>) {
    answer.Got? && forall id :: id in ids ==> id in answer.value && id in truth && answer.value[id] == truth[id]
  }

  /** A batch endpoint that, asked for ids it knows, covers them. */
  ghost predicate BatchKnows(world: World, truth: map<string, Metrics>) {
    && world.deadline.None?
    && (forall k: nat, ids: seq<string> :: Known(ids, truth) ==> Covers(world.batch(k, ids), ids, truth))
  }

  ghost predicate SingleKnows(single: SingleWorld, truth: map<string, Metrics>) {
    && single.deadline.None?
    && (forall k: nat, id: string :: id in truth ==> single.single(k, id) == Got(truth[id]))
  }

  ghost predicate AllKnown(posts: seq<Post>, truth: map<string, Metrics>) {
    forall p :: p in posts ==> p.platformPostId in truth
  }

  /** Post by post, the same endpoint covers what it is asked. */
  lemma SingleKnowsAsBatch(single: SingleWorld, posts: seq<Post>, truth: map<string, Metrics>, k: nat, p: Post)
    requires SingleKnows(single, truth) && AllKnown(posts, truth) && p in posts
    ensures AsBatch(single).batch(k, Ids(Survivors([p]))) == Got(map[p.platformPostId := truth[p.platformPostId]])
  {
    OneSurvives(p);
  }

  /** Call k answers chunk c of the list with the truth about what it asks for. */
  ghost predicate ChunkCovered(world: World, chunk: seq<Post>, k: nat, truth: map<string, Metrics>) {
    Covers(world.batch(k, Ids(Survivors(chunk))), Ids(Survivors(chunk)), truth)
  }

  lemma {:induction false} HitsOfCovered(posts: seq<Post>, m: map<string, Metrics>)
    requires forall id :: id in Ids(posts) ==> id in m
    ensures Hits(posts, m) == |posts|
  {
    if posts != [] {
      assert Ids(posts)[0] in Ids(posts);
      assert Ids(posts) == [posts[0].platformPostId] + Ids(posts[1..]);
      HitsOfCovered(posts[1..], m);
    }
  }

  /** When every call is covered, every chunk is reached and everything asked for is a hit. */
  lemma {:induction false} CoveredReachAll(chunks: seq<seq<Post>>, k: nat, world: World, truth: map<string, Metrics>)
    requires world.deadline.None?
    requires forall c :: 0 <= c < |chunks| ==> ChunkCovered(world, chunks[c], k + c, truth)
    ensures Processed(chunks, k, world) == |chunks|
    ensures TotalHits(chunks, k, world) == TotalSurvivors(chunks)
    decreases |chunks|
  {
    hide Survivors;
    if chunks != [] {
      assert ChunkCovered(world, chunks[0], k + 0, truth);
      HitsOfCovered(Survivors(chunks[0]), Found(world, chunks[0], k));
      forall c | 0 <= c < |chunks[1..]| ensures ChunkCovered(world, chunks[1..][c], k + 1 + c, truth) {
        assert ChunkCovered(world, chunks[c + 1], k + (c + 1), truth);
      }
      CoveredReachAll(chunks[1..], k + 1, world, truth);
    }
  }

  lemma KnownChunksAreCovered(posts: seq<Post>, size: nat, truth: map<string, Metrics>, world: World)
    requires size > 0 && BatchKnows(world, truth) && AllKnown(posts, truth)
    ensures forall c :: 0 <= c < |Chunks(posts, size)| ==> ChunkCovered(world, Chunks(posts, size)[c], c, truth)
  {
    hide Chunks, Survivors;
    forall c | 0 <= c < |Chunks(posts, size)| ensures ChunkCovered(world, Chunks(posts, size)[c], c, truth) {
      var chunk: seq<Post> := Chunks(posts, size)[c];
      ChunkAt(posts, size, c);
      var kept := Survivors(chunk);
      DictKeepsTheLast(chunk);
      forall id | id in Ids(kept) ensures id in truth {
        var j :| 0 <= j < |kept| && kept[j].platformPostId == id;
        assert kept[j] in kept && Unshadowed(chunk, kept[j]);
        assert kept[j] in chunk && kept[j] in posts;
      }
    }
  }

  /**
   * A pass over calls that are all covered: every post whose chunk does not repeat its id behind it is
   * a hit, stamped by its own chunk's call, and nothing fails.
   */
  lemma CoveredPassHitsAll(rows: Rows, posts: seq<Post>, size: nat, truth: map<string, Metrics>, world: World,
                           c: nat, i: nat)
    requires size > 0 && DistinctPks(posts) && DistinctWithinChunks(posts, size) && world.deadline.None?
    requires forall d :: 0 <= d < |Chunks(posts, size)| ==> ChunkCovered(world, Chunks(posts, size)[d], d, truth)
    requires c * size <= i < (c + 1) * size && i < |posts| && posts[i].pk in rows
    ensures var a := RunChunks(Progress(rows, 0, 0, 0, None), Chunks(posts, size), 0, world);
            && posts[i].pk in a.rows && posts[i].platformPostId in truth
            && a.rows[posts[i].pk] == SyncRow(Some(world.after(c)), 0, Some(truth[posts[i].platformPostId]))
            && a.synced == |posts| && a.failed == 0
            && a.calls == |Chunks(posts, size)|
            && a.refused.None?
  {
    hide RunChunks, Chunks, Survivors, Processed, TotalHits, TotalSurvivors;
    var chunks: seq<seq<Post>> := Chunks(posts, size);
    CoveredReachAll(chunks, 0, world, truth);
    TallyOfARun(Progress(rows, 0, 0, 0, None), chunks, 0, world);
    assert chunks[..|chunks|] == chunks;
    TotalCountsDistinct(chunks);
    ChunksTotal(posts, size);
    ChunkCount(posts, size);
    if c >= |chunks| {
      MulOrder(|chunks|, c, size);
      assert false;
    }
    ChunkAt(posts, size, c);
    var j := i - c * size;
    assert chunks[c][j] == posts[i];
    assert DistinctIds(chunks[c]);
    assert !Shadowed(chunks[c], j);
    FateOfAPost(rows, posts, size, world, c, j);
    KeptIsAskedFor(chunks[c], j);
    assert ChunkCovered(world, chunks[c], c, truth);
  }

  lemma KeptIsAskedFor(chunk: seq<Post>, j: nat)
    requires j < |chunk| && !Shadowed(chunk, j)
    ensures chunk[j].platformPostId in Ids(Survivors(chunk))
  {
    hide Survivors;
    DictKeepsTheLast(chunk);
    assert Unshadowed(chunk, chunk[j]);
    var kept := Survivors(chunk);
    var k :| 0 <= k < |kept| && kept[k] == chunk[j];
    assert Ids(kept)[k] == chunk[j].platformPostId;
  }

  /** Batched: everything is a hit, stamped by its own chunk's call. */
  lemma BatchHitsAll(rows: Rows, posts: seq<Post>, size: nat, truth: map<string, Metrics>, world: World, c: nat, i: nat)
    requires size > 0 && DistinctPks(posts) && DistinctWithinChunks(posts, size)
    requires BatchKnows(world, truth) && AllKnown(posts, truth)
    requires c * size <= i < (c + 1) * size && i < |posts| && posts[i].pk in rows
    ensures var a := RunChunks(Progress(rows, 0, 0, 0, None), Chunks(posts, size), 0, world);
            && posts[i].pk in a.rows && posts[i].platformPostId in truth
            && a.rows[posts[i].pk] == SyncRow(Some(world.after(c)), 0, Some(truth[posts[i].platformPostId]))
            && a.synced == |posts| && a.failed == 0
            && a.calls == |Chunks(posts, size)|
            && a.refused.None?
  {
    KnownChunksAreCovered(posts, size, truth, world);
    CoveredPassHitsAll(rows, posts, size, truth, world, c, i);
  }

  /** One by one: everything is a hit, stamped by its own call. */
  lemma SinglesHitAll(rows: Rows, posts: seq<Post>, truth: map<string, Metrics>, single: SingleWorld, i: nat)
    requires DistinctPks(posts) && SingleKnows(single, truth) && AllKnown(posts, truth)
    requires i < |posts| && posts[i].pk in rows
    ensures var b := RunSingles(Progress(rows, 0, 0, 0, None), posts, 0, single);
            && posts[i].pk in b.rows && posts[i].platformPostId in truth
            && b.rows[posts[i].pk] == SyncRow(Some(single.after(i)), 0, Some(truth[posts[i].platformPostId]))
            && b.synced == |posts| && b.failed == 0
            && b.calls == |posts|
            && b.refused.None?
  {
    hide RunChunks, RunSingles, Chunks, Survivors;
    var ones: seq<seq<Post>> := Chunks(posts, 1);
    SinglesAreChunksOfOne(Progress(rows, 0, 0, 0, None), posts, 0, single);
    ChunksOfOneAreDistinct(posts);
    ChunkCount(posts, 1);
    forall d | 0 <= d < |ones| ensures ChunkCovered(AsBatch(single), ones[d], d, truth) {
      ChunkAt(posts, 1, d);
      assert ones[d] == [posts[d]];
      OneSurvives(posts[d]);
      SingleKnowsAsBatch(single, posts, truth, d, posts[d]);
    }
    CoveredPassHitsAll(rows, posts, 1, truth, AsBatch(single), i, i);
  }

  /**
   * Apart from the moment of the stamp, batching changes nothing when both endpoints tell the truth
   * about what they are asked.
   */
  lemma BatchMatchesSingles(rows: Rows, posts: seq<Post>, size: nat, truth: map<string, Metrics>,
                            world: World, single: SingleWorld, c: nat, i: nat)
    requires size > 0 && DistinctPks(posts) && DistinctWithinChunks(posts, size) && AllKnown(posts, truth)
    requires BatchKnows(world, truth) && SingleKnows(single, truth)
    requires c * size <= i < (c + 1) * size && i < |posts| && posts[i].pk in rows
    ensures var a := RunChunks(Progress(rows, 0, 0, 0, None), Chunks(posts, size), 0, world);
            var b := RunSingles(Progress(rows, 0, 0, 0, None), posts, 0, single);
            var pk := posts[i].pk;
            && pk in a.rows && pk in b.rows
            && b.rows[pk] == a.rows[pk].(attemptedAt := Some(single.after(i)))
            && a.rows[pk].attemptedAt == Some(world.after(c))
            && a.synced == b.synced == |posts| && a.failed == b.failed == 0
  {
    BatchHitsAll(rows, posts, size, truth, world, c, i);
    SinglesHitAll(rows, posts, truth, single, i);
  }

  /** Repeated or not, nothing fails; and the tally is the per-post one exactly when no chunk repeats an id. */
  lemma BatchTallyMatchesIff(rows: Rows, posts: seq<Post>, size: nat, truth: map<string, Metrics>, world: World)
    requires size > 0 && BatchKnows(world, truth) && AllKnown(posts, truth)
    ensures var a := RunChunks(Progress(rows, 0, 0, 0, None), Chunks(posts, size), 0, world);
            && a.failed == 0 && a.refused.None? && a.calls == |Chunks(posts, size)|
            && a.synced <= |posts|
            && (a.synced == |posts| <==> DistinctWithinChunks(posts, size))
  {
    hide RunChunks, Chunks, Survivors, Processed, TotalHits, TotalSurvivors;
    var chunks: seq<seq<Post>> := Chunks(posts, size);
    KnownChunksAreCovered(posts, size, truth, world);
    CoveredReachAll(chunks, 0, world, truth);
    TallyOfARun(Progress(rows, 0, 0, 0, None), chunks, 0, world);
    assert chunks[..|chunks|] == chunks;
    TotalCountsDistinct(chunks);
    ChunksTotal(posts, size);
  }

  /** Such batch endpoints exist: one that answers exactly what it is asked for, and no more. */
  lemma AnsweringOnlyWhatIsAskedSuffices(truth: map<string, Metrics>, before: nat -> int, after: nat -> int)
    ensures BatchKnows(AskedOnly(truth, before, after), truth)
  {
  }

  function AskedOnly(truth: map<string, Metrics>, before: nat -> int, after: nat -> int): World {
    World((k, ids) => Got(map id | id in ids && id in truth :: truth[id]), before, after, None)
  }

  lemma OneSurvives(p: Post)
    ensures Survivors([p]) == [p] && Ids([p]) == [p.platformPostId]
  {
    assert [p][..0] == [];
  }

  // ---------------------------------------------------------------------
  // Posts a pass leaves out
  // ---------------------------------------------------------------------

  lemma UnlistedRowStays(p: Progress, listed: seq<Post>, size: nat, world: World, pk: nat)
    requires size > 0 && DistinctPks(listed)
    requires pk in p.rows && pk !in Pks(listed)
    ensures var q := RunChunks(p, Chunks(listed, size), 0, world);
            pk in q.rows && q.rows[pk] == p.rows[pk]
  {
    var chunks: seq<seq<Post>> := Chunks(listed, size);
    ChunksAreDisjoint(listed, size);
    forall c | 0 <= c < |chunks| ensures pk !in Pks(Survivors(chunks[c])) {
      ChunkAt(listed, size, c);
      SurvivorPks(chunks[c]);
      forall j | 0 <= j < |chunks[c]| ensures chunks[c][j].pk != pk {
        assert chunks[c][j] == listed[c * size + j];
        assert listed[c * size + j].pk in Pks(listed);
      }
    }
    UnreachedRowsStay(p, chunks, 0, world, pk);
  }

  /** A post whose id cannot be asked for costs no request and keeps its row, whichever endpoint is used. */
  lemma UnusablePostIsLeftAlone(rows: Rows, platform: string, posts: seq<Post>, looksLikeUuid: string -> bool,
                                batchSize: int, world: World, single: SingleWorld, i: nat)
    requires DistinctPks(posts) && i < |posts| && posts[i].pk in rows && Unusable(platform, posts[i], looksLikeUuid)
    ensures var q := Pass(rows, UsablePosts(platform, posts, looksLikeUuid), batchSize, world, single);
            && posts[i].pk in q.rows && q.rows[posts[i].pk] == rows[posts[i].pk]
            && posts[i] !in UsablePosts(platform, posts, looksLikeUuid)
  {
    var usable := UsablePosts(platform, posts, looksLikeUuid);
    UsableIffListed(platform, posts, looksLikeUuid);
    UsableAreDistinct(platform, posts, looksLikeUuid);
    forall j | 0 <= j < |usable| ensures usable[j].pk != posts[i].pk {
      assert usable[j] in usable;
    }
    var start := Progress(rows, 0, 0, 0, None);
    if batchSize > 1 {
      UnlistedRowStays(start, usable, batchSize, world, posts[i].pk);
    } else {
      SinglesAreChunksOfOne(start, usable, 0, single);
      UnlistedRowStays(start, usable, 1, AsBatch(single), posts[i].pk);
    }
  }

  // ---------------------------------------------------------------------
  // Why a pass ends
  // ---------------------------------------------------------------------

  /** Nothing keeps call k from being made and answered, about its own posts at least. */
  ghost predicate Goes(deadline: Option<int>, before: int, answer: Answer<map<string, Metrics>>) {
    (deadline.None? || before < deadline.value) && (answer.Got? || answer.Broken?)
  }

  lemma {:induction false} RunGoesOn(p: Progress, chunks: seq<seq<Post>>, k: nat, world: World)
    ensures var n := RunChunks(p, chunks, k, world).calls - p.calls;
            && 0 <= n <= |chunks|
            && (forall j :: 0 <= j < n ==>
                  Goes(world.deadline, world.before(k + j), world.batch(k + j, Ids(Survivors(chunks[j])))))
            && (n < |chunks| ==>
                  !Goes(world.deadline, world.before(k + n), world.batch(k + n, Ids(Survivors(chunks[n])))))
    decreases |chunks|
  {
    hide Survivors;
    if chunks != [] && Goes(world.deadline, world.before(k), world.batch(k, Ids(Survivors(chunks[0])))) {
      var q := Advance(p, Survivors(chunks[0]), Found(world, chunks[0], k), world.after(k));
      RunGoesOn(q, chunks[1..], k + 1, world);
      assert RunChunks(p, chunks, k, world) == RunChunks(q, chunks[1..], k + 1, world);
      var n := RunChunks(p, chunks, k, world).calls - p.calls;
      forall j | 0 <= j < n
        ensures Goes(world.deadline, world.before(k + j), world.batch(k + j, Ids(Survivors(chunks[j]))))
      {
        if j > 0 {
          assert chunks[j] == chunks[1..][j - 1] && k + j == k + 1 + (j - 1);
        }
      }
      assert n < |chunks| ==> chunks[n] == chunks[1..][n - 1] && k + n == k + 1 + (n - 1);
    }
  }

  /**
   * A batched pass goes on exactly as long as the clock is before the deadline and the answers concern
   * their own chunks: every call it made began inside the budget, and where it stopped short the budget
   * was spent or the provider refused or has no such endpoint.
   */
  lemma BatchedPassEnds(rows: Rows, posts: seq<Post>, size: nat, world: World)
    requires size > 0
    ensures var chunks: seq<seq<Post>> := Chunks(posts, size);
            var q := RunChunks(Progress(rows, 0, 0, 0, None), chunks, 0, world);
            && q.calls <= |chunks|
            && (forall k :: 0 <= k < q.calls ==> world.deadline.None? || world.before(k) < world.deadline.value)
            && (forall k :: 0 <= k < q.calls ==>
                  var answer := world.batch(k, Ids(Survivors(chunks[k]))); answer.Got? || answer.Broken?)
            && (q.calls < |chunks| ==>
                  || (world.deadline.Some? && world.before(q.calls) >= world.deadline.value)
                  || world.batch(q.calls, Ids(Survivors(chunks[q.calls]))).NotImplemented?
                  || world.batch(q.calls, Ids(Survivors(chunks[q.calls]))).Refused?)
  {
    hide Survivors;
    var chunks: seq<seq<Post>> := Chunks(posts, size);
    RunGoesOn(Progress(rows, 0, 0, 0, None), chunks, 0, world);
    var calls := RunChunks(Progress(rows, 0, 0, 0, None), chunks, 0, world).calls;
    forall k | 0 <= k < calls
      ensures Goes(world.deadline, world.before(k), world.batch(k, Ids(Survivors(chunks[k]))))
    {
      assert Goes(world.deadline, world.before(0 + k), world.batch(0 + k, Ids(Survivors(chunks[k]))));
    }
  }

  /** The same of the per-post loop, one post at a time. */
  lemma PerPostPassEnds(rows: Rows, posts: seq<Post>, world: SingleWorld)
    ensures var q := RunSingles(Progress(rows, 0, 0, 0, None), posts, 0, world);
            && q.calls <= |posts|
            && (forall k :: 0 <= k < q.calls ==> world.deadline.None? || world.before(k) < world.deadline.value)
            && (forall k :: 0 <= k < q.calls ==>
                  var answer := world.single(k, posts[k].platformPostId); answer.Got? || answer.Broken?)
            && (q.calls < |posts| ==>
                  || (world.deadline.Some? && world.before(q.calls) >= world.deadline.value)
                  || world.single(q.calls, posts[q.calls].platformPostId).NotImplemented?
                  || world.single(q.calls, posts[q.calls].platformPostId).Refused?)
  {
    hide RunChunks, RunSingles, Survivors, Chunks;
    SinglesAreChunksOfOne(Progress(rows, 0, 0, 0, None), posts, 0, world);
    BatchedPassEnds(rows, posts, 1, AsBatch(world));
    ChunkCount(posts, 1);
    forall k | 0 <= k < |posts| ensures Ids(Survivors(Chunks(posts, 1)[k])) == [posts[k].platformPostId] {
      ChunkAt(posts, 1, k);
      assert Chunks(posts, 1)[k] == [posts[k]];
      OneSurvives(posts[k]);
    }
  }
}
