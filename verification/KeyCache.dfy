// The 30-second row cache in front of the API-key table, under every
// interleaving of verifications, commits and invalidations in any number of
// workers, each with a cache of its own (apps/api_keys/services.py). A cache
// that all workers share is the case of a single one.
module KeyCache {
  import opened Wrappers
  import ApiKeys

  /** Cache lifetime, in microseconds. */
  const TTL: int := 30_000_000

  datatype Columns = Columns(tokenHash: string, permissions: set<string>, expiresAt: Option<int>, revoked: bool,
                             issuer: Option<nat>)

  /** A committed state of one key's row and allowlist. */
  datatype Version = Version(columns: Columns, accounts: set<nat>, since: int)

  /** What a cache fill reads: the row at one moment, its allowlist in a second query. */
  datatype Snapshot = Snapshot(columns: Columns, rowVersion: nat, rowAt: int, accounts: set<nat>, listVersion: nat,
                               listAt: int)

  datatype Entry = Entry(snap: Snapshot, setAt: int)

  /** One call of verify_token, in worker w. `gap` is the fetch-to-set time of whoever filled the entry it read. */
  datatype Reader =
    | Idle
    | Missed(w: nat, call: nat, hash: string)
    | HasRow(w: nat, call: nat, hash: string, columns: Columns, rowVersion: nat, rowAt: int)
    | Loaded(w: nat, call: nat, hash: string, snap: Snapshot)
    | Holding(w: nat, call: nat, hash: string, snap: Snapshot, readAt: int, gap: int)
    | Vetted(w: nat, call: nat, hash: string, snap: Snapshot, readAt: int, gap: int, checkedAt: int)

  datatype Accept = Accept(w: nat, call: nat, hash: string, snap: Snapshot, readAt: int, gap: int, checkedAt: int,
                           at: int, members: set<nat>)

  datatype State = State(
    now: int,
    history: seq<Version>,       // the last one is the database
    members: set<nat>,           // users in the key's workspace
    caches: map<nat, Entry>,     // one per worker
    readers: map<nat, Reader>,
    nextCall: nat,
    log: seq<Accept>)

  datatype Step =
    | Get(r: nat, w: nat, hash: string)
    | FetchRow(r: nat)
    | FetchList(r: nat)
    | Fill(r: nat)
    | Check(r: nat)
    | Issuer(r: nat)
    | Commit(columns: Columns, accounts: set<nat>)
    | Invalidate(w: nat)
    | SetMember(user: nat, member: bool)
    | Tick(elapsed: nat)

  predicate IsActive(c: Columns, now: int) {
    ApiKeys.IsActive(c.revoked, c.expiresAt, now)
  }

  function At(s: State, r: nat): Reader {
    if r in s.readers then s.readers[r] else Idle
  }

  function Put(s: State, r: nat, k: Reader): State {
    s.(readers := s.readers[r := k])
  }

  predicate Enabled(s: State, step: Step) {
    match step
    case Get(r, _, _) => At(s, r).Idle?
    case FetchRow(r) => At(s, r).Missed? && s.history != []
    case FetchList(r) => At(s, r).HasRow? && s.history != []
    case Fill(r) => At(s, r).Loaded?
    case Check(r) => At(s, r).Holding?
    case Issuer(r) => At(s, r).Vetted?
    case _ => true
  }

  function Latest(s: State): nat
    requires s.history != []
  {
    |s.history| - 1
  }

  predicate Cached(s: State, w: nat) {
    w in s.caches && s.now < s.caches[w].setAt + TTL
  }

  function Dropped(s: State, w: nat): State {
    s.(caches := s.caches - {w})
  }

  function ApplyGet(s: State, r: nat, w: nat, hash: string): State {
    var t := s.(nextCall := s.nextCall + 1);
    if Cached(s, w) then
      var e := s.caches[w];
      Put(t, r, Holding(w, s.nextCall, hash, e.snap, s.now, e.setAt - e.snap.rowAt))
    else
      Put(t, r, Missed(w, s.nextCall, hash))
  }

  /** Only active rows are cached; the reader goes on with its own snapshot either way. */
  function ApplyFill(s: State, r: nat): State
    requires At(s, r).Loaded?
  {
    var k := At(s, r);
    var t := Put(s, r, Holding(k.w, k.call, k.hash, k.snap, k.snap.rowAt, 0));
    if IsActive(k.snap.columns, s.now) then t.(caches := s.caches[k.w := Entry(k.snap, s.now)]) else t
  }

  function ApplyCheck(s: State, r: nat): State
    requires At(s, r).Holding?
  {
    var k := At(s, r);
    if !IsActive(k.snap.columns, s.now) then Dropped(Put(s, r, Idle), k.w)
    else if k.hash != k.snap.columns.tokenHash then Put(s, r, Idle)
    else Put(s, r, Vetted(k.w, k.call, k.hash, k.snap, k.readAt, k.gap, s.now))
  }

  function ApplyIssuer(s: State, r: nat): State
    requires At(s, r).Vetted?
  {
    var k := At(s, r);
    var issuer := k.snap.columns.issuer;
    if issuer.Some? && issuer.value in s.members then
      var e := Accept(k.w, k.call, k.hash, k.snap, k.readAt, k.gap, k.checkedAt, s.now, s.members);
      Put(s, r, Idle).(log := s.log + [e])
    else
      Dropped(Put(s, r, Idle), k.w)
  }

  function Apply(s: State, step: Step): State
    requires Enabled(s, step)
  {
    match step
    case Get(r, w, hash) => ApplyGet(s, r, w, hash)
    case FetchRow(r) =>
      var k := At(s, r);
      Put(s, r, HasRow(k.w, k.call, k.hash, s.history[Latest(s)].columns, Latest(s), s.now))
    case FetchList(r) =>
      var k := At(s, r);
      Put(s, r, Loaded(k.w, k.call, k.hash,
                       Snapshot(k.columns, k.rowVersion, k.rowAt, s.history[Latest(s)].accounts, Latest(s), s.now)))
    case Fill(r) => ApplyFill(s, r)
    case Check(r) => ApplyCheck(s, r)
    case Issuer(r) => ApplyIssuer(s, r)
    case Commit(columns, accounts) => s.(history := s.history + [Version(columns, accounts, s.now)])
    case Invalidate(w) => Dropped(s, w)
    case SetMember(user, member) => s.(members := if member then s.members + {user} else s.members - {user})
    case Tick(elapsed) => s.(now := s.now + elapsed)
  }

  ghost predicate Run(s: State, steps: seq<Step>, t: State)
    decreases |steps|
  {
    if steps == [] then s == t
    else Enabled(s, steps[0]) && Run(Apply(s, steps[0]), steps[1..], t)
  }

  function Initial(first: Version): State {
    State(first.since, [first], {}, map[], map[], 0, [])
  }

  // ---------------------------------------------------------------------
  // One call that nothing interrupts
  // ---------------------------------------------------------------------

  function StagesLeft(k: Reader): nat {
    match k
    case Idle => 0
    case Vetted(_, _, _, _, _, _, _) => 1
    case Holding(_, _, _, _, _, _) => 2
    case Loaded(_, _, _, _) => 3
    case HasRow(_, _, _, _, _, _) => 4
    case Missed(_, _, _) => 5
  }

  /** Reader r goes on to the end of its call; no other step comes in between. */
  function RunOut(s: State, r: nat): State
    requires s.history != []
    decreases StagesLeft(At(s, r))
  {
    match At(s, r)
    case Idle => s
    case Missed(_, _, _) => RunOut(Apply(s, FetchRow(r)), r)
    case HasRow(_, _, _, _, _, _) => RunOut(Apply(s, FetchList(r)), r)
    case Loaded(_, _, _, _) => RunOut(Apply(s, Fill(r)), r)
    case Holding(_, _, _, _, _, _) => RunOut(Apply(s, Check(r)), r)
    case Vetted(_, _, _, _, _, _, _) => RunOut(Apply(s, Issuer(r)), r)
  }

  /** What a call at this moment sees: its worker's entry while it is less than 30 seconds old, else the database. */
  function Seen(s: State, w: nat): Snapshot
    requires s.history != []
  {
    if w in s.caches && s.now - s.caches[w].setAt < 30_000_000 then s.caches[w].snap
    else
      var n := |s.history| - 1;
      Snapshot(s.history[n].columns, n, s.now, s.history[n].accounts, n, s.now)
  }

  /** A held snapshot is accepted exactly if unrevoked, unexpired, of the presented hash and issued by a member. */
  lemma HeldSnapshotAcceptedIff(s: State, r: nat)
    requires s.history != [] && At(s, r).Holding?
    ensures var k := At(s, r);
            var c := k.snap.columns;
            var active := !c.revoked && (c.expiresAt.None? || c.expiresAt.value > s.now);
            var member := c.issuer.Some? && c.issuer.value in s.members;
            var t := RunOut(s, r);
            && (active && k.hash == c.tokenHash && member ==>
                  t.log == s.log + [Accept(k.w, k.call, k.hash, k.snap, k.readAt, k.gap, s.now, s.now, s.members)])
            && (!(active && k.hash == c.tokenHash && member) ==> t.log == s.log)
            && t.caches == (if !active || (k.hash == c.tokenHash && !member) then s.caches - {k.w} else s.caches)
            && t.history == s.history && t.members == s.members && t.now == s.now && t.nextCall == s.nextCall
  {
    var checked := Apply(s, Check(r));
    assert RunOut(s, r) == RunOut(checked, r);
    if At(checked, r).Vetted? {
      var done := Apply(checked, Issuer(r));
      assert RunOut(checked, r) == RunOut(done, r) == done;
    }
  }

  /**
   * A call that nothing interrupts is accepted exactly if what it sees is unrevoked, unexpired, of the presented
   * hash and issued by a member. A miss leaves its row in the cache, unless the row is inactive.
   */
  lemma UninterruptedCallAcceptedIff(s: State, r: nat, w: nat, hash: string)
    requires s.history != [] && At(s, r).Idle?
    ensures var hit := w in s.caches && s.now - s.caches[w].setAt < 30_000_000;
            var snap := Seen(s, w);
            var gap := if hit then s.caches[w].setAt - snap.rowAt else 0;
            var c := snap.columns;
            var active := !c.revoked && (c.expiresAt.None? || c.expiresAt.value > s.now);
            var member := c.issuer.Some? && c.issuer.value in s.members;
            var t := RunOut(Apply(s, Get(r, w, hash)), r);
            && (active && hash == c.tokenHash && member ==>
                  t.log == s.log + [Accept(w, s.nextCall, hash, snap, s.now, gap, s.now, s.now, s.members)])
            && (!(active && hash == c.tokenHash && member) ==> t.log == s.log)
            && (!active || (hash == c.tokenHash && !member) ==> t.caches == s.caches - {w})
            && (active && !(hash == c.tokenHash && !member) ==>
                  t.caches == if hit then s.caches else s.caches[w := Entry(snap, s.now)])
            && t.history == s.history && t.members == s.members && t.nextCall == s.nextCall + 1
  {
    hide RunOut;
    var begun := Apply(s, Get(r, w, hash));
    if At(begun, r).Holding? {
      HeldSnapshotAcceptedIff(begun, r);
    } else {
      var filled := Apply(Apply(Apply(begun, FetchRow(r)), FetchList(r)), Fill(r));
      MissRunsOut(s, r, w, hash);
      HeldSnapshotAcceptedIff(filled, r);
    }
  }

  lemma MissRunsOut(s: State, r: nat, w: nat, hash: string)
    requires s.history != [] && At(s, r).Idle? && !Cached(s, w)
    ensures var begun := Apply(s, Get(r, w, hash));
            && Enabled(begun, FetchRow(r))
            && Enabled(Apply(begun, FetchRow(r)), FetchList(r))
            && Enabled(Apply(Apply(begun, FetchRow(r)), FetchList(r)), Fill(r))
            && RunOut(begun, r) == RunOut(Apply(Apply(Apply(begun, FetchRow(r)), FetchList(r)), Fill(r)), r)
  {
    var begun := Apply(s, Get(r, w, hash));
    var fetched := Apply(begun, FetchRow(r));
    var loaded := Apply(fetched, FetchList(r));
    assert RunOut(begun, r) == RunOut(fetched, r) == RunOut(loaded, r) == RunOut(Apply(loaded, Fill(r)), r);
  }

  /** Commits, invalidations and changes of membership, as the next call finds them. */
  lemma WritesTakeEffect(s: State, columns: Columns, accounts: set<nat>, w: nat, user: nat, member: bool, other: nat)
    requires s.history != []
    ensures var t := Apply(s, Commit(columns, accounts));
            && Seen(Dropped(t, w), w).columns == columns && Seen(Dropped(t, w), w).accounts == accounts
            && (w in s.caches && s.now - s.caches[w].setAt < 30_000_000 ==> Seen(t, w) == Seen(s, w))
    ensures var t := Apply(s, Invalidate(w));
            Seen(t, w).rowVersion == |s.history| - 1 && (other != w ==> Seen(t, other) == Seen(s, other))
    ensures var t := Apply(s, SetMember(user, member));
            (user in t.members <==> member) && (other != user ==> (other in t.members <==> other in s.members))
  {
  }

  // ---------------------------------------------------------------------
  // Bounded staleness
  // ---------------------------------------------------------------------

  /** Version v was the committed one at moment t. */
  ghost predicate CurrentAt(history: seq<Version>, v: nat, t: int) {
    && v < |history|
    && history[v].since <= t
    && (forall w :: v < w < |history| ==> history[w].since >= t)
  }

  ghost predicate Genuine(history: seq<Version>, snap: Snapshot) {
    && CurrentAt(history, snap.rowVersion, snap.rowAt)
    && CurrentAt(history, snap.listVersion, snap.listAt)
    && history[snap.rowVersion].columns == snap.columns
    && history[snap.listVersion].accounts == snap.accounts
    && snap.rowAt <= snap.listAt
  }

  /** A snapshot read at readAt was fetched less than TTL + gap before. */
  ghost predicate Recent(history: seq<Version>, now: int, snap: Snapshot, readAt: int, gap: int) {
    && Genuine(history, snap)
    && gap >= 0
    && snap.rowAt <= readAt <= now
    && snap.listAt <= now
    && readAt - snap.rowAt < TTL + gap
  }

  ghost predicate ReaderOk(history: seq<Version>, now: int, k: Reader) {
    match k
    case HasRow(_, _, _, columns, v, t) => CurrentAt(history, v, t) && history[v].columns == columns && t <= now
    case Loaded(_, _, _, snap) => Genuine(history, snap) && snap.listAt <= now
    case Holding(_, _, _, snap, readAt, gap) => Recent(history, now, snap, readAt, gap)
    case Vetted(_, _, hash, snap, readAt, gap, checkedAt) =>
      && hash == snap.columns.tokenHash
      && Recent(history, now, snap, readAt, gap) && readAt <= checkedAt <= now && IsActive(snap.columns, checkedAt)
    case _ => true
  }

  ghost predicate AcceptOk(history: seq<Version>, now: int, e: Accept) {
    && Recent(history, now, e.snap, e.readAt, e.gap)
    && e.readAt <= e.checkedAt <= e.at <= now
    && e.hash == e.snap.columns.tokenHash
    && IsActive(e.snap.columns, e.checkedAt)
    && e.snap.columns.issuer.Some? && e.snap.columns.issuer.value in e.members
  }

  ghost predicate EntryOk(history: seq<Version>, now: int, e: Entry) {
    && Genuine(history, e.snap) && e.snap.listAt <= e.setAt <= now
    && IsActive(e.snap.columns, e.setAt)
  }

  ghost predicate Inv(s: State) {
    && s.history != []
    && (forall v :: 0 <= v < |s.history| ==> s.history[v].since <= s.now)
    && (forall w :: w in s.caches ==> EntryOk(s.history, s.now, s.caches[w]))
    && (forall r :: r in s.readers ==> ReaderOk(s.history, s.now, s.readers[r]))
    && (forall n :: 0 <= n < |s.log| ==> AcceptOk(s.history, s.now, s.log[n]))
  }

  /** Time passing and a commit at the present moment keep every snapshot genuine. */
  lemma GenuineStays(history: seq<Version>, now: int, later: Version, snap: Snapshot)
    requires Genuine(history, snap) && snap.listAt <= now <= later.since
    ensures Genuine(history + [later], snap)
  {
  }

  lemma CommitKeepsInv(s: State, columns: Columns, accounts: set<nat>)
    requires Inv(s)
    ensures Inv(Apply(s, Commit(columns, accounts)))
  {
    var later := Version(columns, accounts, s.now);
    forall w | w in s.caches ensures EntryOk(s.history + [later], s.now, s.caches[w]) {
      assert EntryOk(s.history, s.now, s.caches[w]);
      GenuineStays(s.history, s.now, later, s.caches[w].snap);
    }
    forall r | r in s.readers ensures ReaderOk(s.history + [later], s.now, s.readers[r]) {
      assert ReaderOk(s.history, s.now, s.readers[r]);
      if s.readers[r].Loaded? || s.readers[r].Holding? || s.readers[r].Vetted? {
        GenuineStays(s.history, s.now, later, s.readers[r].snap);
      }
    }
    forall n | 0 <= n < |s.log| ensures AcceptOk(s.history + [later], s.now, s.log[n]) {
      assert AcceptOk(s.history, s.now, s.log[n]);
      GenuineStays(s.history, s.now, later, s.log[n].snap);
    }
  }

  lemma TickKeepsInv(s: State, elapsed: nat)
    requires Inv(s)
    ensures Inv(Apply(s, Tick(elapsed)))
  {
    var now := s.now + elapsed;
    forall w | w in s.caches ensures EntryOk(s.history, now, s.caches[w]) {
      assert EntryOk(s.history, s.now, s.caches[w]);
    }
    forall r | r in s.readers ensures ReaderOk(s.history, now, s.readers[r]) {
      assert ReaderOk(s.history, s.now, s.readers[r]);
    }
    forall n | 0 <= n < |s.log| ensures AcceptOk(s.history, now, s.log[n]) {
      assert AcceptOk(s.history, s.now, s.log[n]);
    }
  }

  /** A step that moves one reader, and at most clears or fills one cache and logs one accept. */
  lemma ReaderMoveKeepsInv(s: State, t: State, r: nat)
    requires Inv(s) && t.history == s.history && t.now == s.now
    requires r in t.readers && t.readers == s.readers[r := t.readers[r]] && ReaderOk(s.history, s.now, t.readers[r])
    requires forall w :: w in t.caches ==>
               (w in s.caches && t.caches[w] == s.caches[w]) || EntryOk(s.history, s.now, t.caches[w])
    requires t.log == s.log
        || (t.log != [] && t.log[..|t.log| - 1] == s.log && AcceptOk(s.history, s.now, t.log[|t.log| - 1]))
    ensures Inv(t)
  {
    forall w | w in t.caches ensures EntryOk(t.history, t.now, t.caches[w]) {
      if w in s.caches {
        assert EntryOk(s.history, s.now, s.caches[w]);
      }
    }
    forall q | q in t.readers ensures ReaderOk(t.history, t.now, t.readers[q]) {
      if q != r {
        assert ReaderOk(s.history, s.now, s.readers[q]);
      }
    }
    forall n | 0 <= n < |t.log| ensures AcceptOk(t.history, t.now, t.log[n]) {
      if n < |s.log| {
        assert t.log[n] == s.log[n];
        assert AcceptOk(s.history, s.now, s.log[n]);
      }
    }
  }

  lemma GetKeepsInv(s: State, r: nat, w: nat, hash: string)
    requires Inv(s) && At(s, r).Idle?
    ensures Inv(Apply(s, Get(r, w, hash)))
  {
    assert w in s.caches ==> EntryOk(s.history, s.now, s.caches[w]);
    assert r in s.readers ==> ReaderOk(s.history, s.now, s.readers[r]);
    ReaderMoveKeepsInv(s, Apply(s, Get(r, w, hash)), r);
  }

  lemma FetchRowKeepsInv(s: State, r: nat)
    requires Inv(s) && At(s, r).Missed?
    ensures Inv(Apply(s, FetchRow(r)))
  {
    assert r in s.readers ==> ReaderOk(s.history, s.now, s.readers[r]);
    ReaderMoveKeepsInv(s, Apply(s, FetchRow(r)), r);
  }

  lemma FetchListKeepsInv(s: State, r: nat)
    requires Inv(s) && At(s, r).HasRow?
    ensures Inv(Apply(s, FetchList(r)))
  {
    assert r in s.readers ==> ReaderOk(s.history, s.now, s.readers[r]);
    ReaderMoveKeepsInv(s, Apply(s, FetchList(r)), r);
  }

  lemma FillKeepsInv(s: State, r: nat)
    requires Inv(s) && At(s, r).Loaded?
    ensures Inv(Apply(s, Fill(r)))
  {
    assert r in s.readers ==> ReaderOk(s.history, s.now, s.readers[r]);
    ReaderMoveKeepsInv(s, Apply(s, Fill(r)), r);
  }

  lemma CheckKeepsInv(s: State, r: nat)
    requires Inv(s) && At(s, r).Holding?
    ensures Inv(Apply(s, Check(r)))
  {
    assert r in s.readers ==> ReaderOk(s.history, s.now, s.readers[r]);
    ReaderMoveKeepsInv(s, Apply(s, Check(r)), r);
  }

  lemma IssuerKeepsInv(s: State, r: nat)
    requires Inv(s) && At(s, r).Vetted?
    ensures Inv(Apply(s, Issuer(r)))
  {
    assert r in s.readers ==> ReaderOk(s.history, s.now, s.readers[r]);
    ReaderMoveKeepsInv(s, Apply(s, Issuer(r)), r);
  }

  lemma StepKeepsInv(s: State, step: Step)
    requires Inv(s) && Enabled(s, step)
    ensures Inv(Apply(s, step))
  {
    match step
    case Commit(columns, accounts) => CommitKeepsInv(s, columns, accounts);
    case Tick(elapsed) => TickKeepsInv(s, elapsed);
    case Invalidate(w) =>
      forall v | v in Dropped(s, w).caches ensures EntryOk(s.history, s.now, s.caches[v]) {
      }
    case SetMember(_, _) =>
    case Get(r, w, hash) => GetKeepsInv(s, r, w, hash);
    case FetchRow(r) => FetchRowKeepsInv(s, r);
    case FetchList(r) => FetchListKeepsInv(s, r);
    case Fill(r) => FillKeepsInv(s, r);
    case Check(r) => CheckKeepsInv(s, r);
    case Issuer(r) => IssuerKeepsInv(s, r);
  }

  lemma {:induction false} RunKeepsInv(s: State, steps: seq<Step>, t: State)
    requires Inv(s) && Run(s, steps, t)
    ensures Inv(t)
    decreases |steps|
  {
    if steps != [] {
      StepKeepsInv(s, steps[0]);
      RunKeepsInv(Apply(s, steps[0]), steps[1..], t);
    }
  }

  /**
   * Every accepted call used columns and an allowlist that were committed states
   * of the key; whatever superseded them was committed less than TTL plus the
   * filling reader's fetch-to-set gap before the call read them, whichever worker
   * ran the call and whichever caches had been invalidated. The snapshot was
   * active when checked, and the issuer was a member at the accept.
   */
  lemma BoundedStaleness(first: Version, steps: seq<Step>, t: State, n: nat)
    requires Run(Initial(first), steps, t) && n < |t.log|
    ensures var e := t.log[n];
            && e.snap.rowVersion < |t.history| && t.history[e.snap.rowVersion].columns == e.snap.columns
            && e.snap.listVersion < |t.history| && t.history[e.snap.listVersion].accounts == e.snap.accounts
            && (forall w :: e.snap.rowVersion < w < |t.history| ==> t.history[w].since > e.readAt - 30_000_000 - e.gap)
            && (forall w :: e.snap.listVersion < w < |t.history| ==> t.history[w].since > e.readAt - 30_000_000 - e.gap)
            && e.readAt <= e.checkedAt <= e.at
            && !e.snap.columns.revoked
            && (e.snap.columns.expiresAt.None? || e.snap.columns.expiresAt.value > e.checkedAt)
            && e.hash == e.snap.columns.tokenHash
            && e.snap.columns.issuer.Some? && e.snap.columns.issuer.value in e.members
  {
    RunKeepsInv(Initial(first), steps, t);
    assert AcceptOk(t.history, t.now, t.log[n]);
  }

  /** What a worker caches was active when it was put there; a revoked row is never cached. */
  lemma OnlyActiveRowsAreCached(first: Version, steps: seq<Step>, t: State, w: nat)
    requires Run(Initial(first), steps, t) && w in t.caches
    ensures var e := t.caches[w];
            && !e.snap.columns.revoked && (e.snap.columns.expiresAt.None? || e.snap.columns.expiresAt.value > e.setAt)
            && e.snap.rowVersion < |t.history| && t.history[e.snap.rowVersion].columns == e.snap.columns
            && e.snap.listVersion < |t.history| && t.history[e.snap.listVersion].accounts == e.snap.accounts
            && e.setAt <= t.now
  {
    RunKeepsInv(Initial(first), steps, t);
    assert EntryOk(t.history, t.now, t.caches[w]);
  }

  // ---------------------------------------------------------------------
  // When a superseded snapshot can still be accepted
  // ---------------------------------------------------------------------

  /** A row a later check could still let through. */
  predicate Live(c: Columns, now: int) {
    IsActive(c, now) && c.issuer.Some?
  }

  /** Older than version `floor` in its row or in its allowlist. */
  predicate Old(snap: Snapshot, floor: nat) {
    snap.rowVersion < floor || snap.listVersion < floor
  }

  /** Worker w still serves a live old row from its cache. */
  predicate OldInCache(s: State, w: nat, floor: nat) {
    Cached(s, w) && Old(s.caches[w].snap, floor) && Live(s.caches[w].snap.columns, s.now)
  }

  /** A reader between its fetch and its cache.set, holding an old row that is live at `now`. */
  predicate OldFill(k: Reader, now: int, floor: nat) {
    || (k.HasRow? && k.rowVersion < floor && Live(k.columns, now))
    || (k.Loaded? && Old(k.snap, floor) && Live(k.snap.columns, now))
  }

  ghost predicate Filling(s: State, w: nat, now: int, floor: nat) {
    exists r :: r in s.readers && OldFill(s.readers[r], now, floor) && s.readers[r].w == w
  }

  ghost predicate OldSource(s: State, w: nat, floor: nat) {
    OldInCache(s, w, floor) || Filling(s, w, s.now, floor)
  }

  /** A call of worker w that began at or after serial number `since` and can no longer go on with an old snapshot. */
  ghost predicate CannotAcceptOld(k: Reader, w: nat, now: int, floor: nat, since: nat) {
    && (!k.Idle? && k.w == w ==>
          && !OldFill(k, now, floor)
          && (k.Holding? && k.call >= since && Old(k.snap, floor) ==> !Live(k.snap.columns, now))
          && (k.Vetted? && k.call >= since && Old(k.snap, floor) ==> !Live(k.snap.columns, k.checkedAt)))
    && (k.Vetted? ==> IsActive(k.snap.columns, k.checkedAt))
  }

  ghost predicate Harmless(e: Accept, w: nat, floor: nat, since: nat) {
    e.w != w || e.call < since || !Old(e.snap, floor)
  }

  ghost predicate NoOldAccepts(s: State, w: nat, floor: nat, since: nat, logged: nat) {
    && floor < |s.history|
    && since <= s.nextCall
    && logged <= |s.log|
    && !OldInCache(s, w, floor)
    && (forall r :: r in s.readers ==> CannotAcceptOld(s.readers[r], w, s.now, floor, since))
    && (forall n :: logged <= n < |s.log| ==> Harmless(s.log[n], w, floor, since))
  }

  lemma StepKeepsReaders(s: State, step: Step, w: nat, floor: nat, since: nat, logged: nat, q: nat)
    requires NoOldAccepts(s, w, floor, since, logged) && Enabled(s, step) && q in Apply(s, step).readers
    ensures CannotAcceptOld(Apply(s, step).readers[q], w, Apply(s, step).now, floor, since)
  {
    assert q in s.readers ==> CannotAcceptOld(s.readers[q], w, s.now, floor, since);
  }

  lemma StepKeepsCachesAndLog(s: State, step: Step, w: nat, floor: nat, since: nat, logged: nat)
    requires NoOldAccepts(s, w, floor, since, logged) && Enabled(s, step)
    ensures var t := Apply(s, step);
            && floor < |t.history| && since <= t.nextCall && logged <= |t.log|
            && !OldInCache(t, w, floor)
            && (forall n :: logged <= n < |t.log| ==> Harmless(t.log[n], w, floor, since))
  {
    if step.Fill? || step.Issuer? {
      assert CannotAcceptOld(s.readers[step.r], w, s.now, floor, since);
    }
  }

  lemma StepKeepsNoOldAccepts(s: State, step: Step, w: nat, floor: nat, since: nat, logged: nat)
    requires NoOldAccepts(s, w, floor, since, logged) && Enabled(s, step)
    ensures NoOldAccepts(Apply(s, step), w, floor, since, logged)
  {
    StepKeepsCachesAndLog(s, step, w, floor, since, logged);
    hide Apply, Enabled, CannotAcceptOld;
    forall q | q in Apply(s, step).readers
      ensures CannotAcceptOld(Apply(s, step).readers[q], w, Apply(s, step).now, floor, since)
    {
      StepKeepsReaders(s, step, w, floor, since, logged, q);
    }
  }

  lemma {:induction false} RunKeepsNoOldAccepts(s: State, steps: seq<Step>, t: State, w: nat, floor: nat, since: nat,
                                                logged: nat)
    requires NoOldAccepts(s, w, floor, since, logged) && Run(s, steps, t)
    ensures NoOldAccepts(t, w, floor, since, logged)
    decreases |steps|
  {
    if steps != [] {
      StepKeepsNoOldAccepts(s, steps[0], w, floor, since, logged);
      RunKeepsNoOldAccepts(Apply(s, steps[0]), steps[1..], t, w, floor, since, logged);
    }
  }

  /** Entry n of t's log is an accept of a call of worker w that begins after s, on a snapshot older than `floor`. */
  ghost predicate IsLateOldAccept(s: State, t: State, n: nat, w: nat, floor: nat) {
    |s.log| <= n < |t.log| && t.log[n].w == w && t.log[n].call >= s.nextCall && Old(t.log[n].snap, floor)
  }

  /** Some continuation has such an accept. */
  ghost predicate LaterCallAcceptsOld(s: State, w: nat, floor: nat) {
    exists steps, t, n: nat :: Run(s, steps, t) && IsLateOldAccept(s, t, n, w, floor)
  }

  /** Calls already under way carry serial numbers below the next one. */
  ghost predicate CallsNumbered(s: State) {
    forall r :: r in s.readers && (s.readers[r].Holding? || s.readers[r].Vetted?) ==>
      && s.readers[r].call < s.nextCall
      && (s.readers[r].Vetted? ==> IsActive(s.readers[r].snap.columns, s.readers[r].checkedAt))
  }

  lemma NoSourceNoOldAccept(s: State, w: nat, floor: nat)
    requires floor < |s.history| && CallsNumbered(s) && !OldSource(s, w, floor)
    ensures !LaterCallAcceptsOld(s, w, floor)
  {
    forall r | r in s.readers ensures CannotAcceptOld(s.readers[r], w, s.now, floor, s.nextCall) {
    }
    assert NoOldAccepts(s, w, floor, s.nextCall, |s.log|);
    forall steps, t, n: nat | Run(s, steps, t) ensures !IsLateOldAccept(s, t, n, w, floor) {
      RunKeepsNoOldAccepts(s, steps, t, w, floor, s.nextCall, |s.log|);
      if |s.log| <= n < |t.log| {
        assert Harmless(t.log[n], w, floor, s.nextCall);
      }
    }
  }

  lemma RunOne(s: State, step: Step, rest: seq<Step>, t: State)
    requires Enabled(s, step) && Run(Apply(s, step), rest, t)
    ensures Run(s, [step] + rest, t)
  {
    assert ([step] + rest)[1..] == rest;
  }

  /** The call that nothing interrupts is one of the runs. */
  lemma {:induction false} RunOutIsARun(s: State, r: nat) returns (steps: seq<Step>)
    requires s.history != []
    ensures Run(s, steps, RunOut(s, r))
    decreases StagesLeft(At(s, r))
  {
    if At(s, r).Idle? {
      return [];
    }
    var step := match At(s, r)
      case Missed(_, _, _) => FetchRow(r)
      case HasRow(_, _, _, _, _, _) => FetchList(r)
      case Loaded(_, _, _, _) => Fill(r)
      case Holding(_, _, _, _, _, _) => Check(r)
      case _ => Issuer(r);
    var rest := RunOutIsARun(Apply(s, step), r);
    RunOne(s, step, rest, RunOut(s, r));
    steps := [step] + rest;
  }

  lemma FreshReader(readers: map<nat, Reader>) returns (r: nat)
    ensures r !in readers
  {
    r := Bound(readers.Keys);
  }

  lemma Bound(ids: set<nat>) returns (b: nat)
    ensures forall i :: i in ids ==> i < b
    decreases |ids|
  {
    if ids == {} {
      b := 0;
    } else {
      var i :| i in ids;
      var c := Bound(ids - {i});
      b := if i < c then c else i + 1;
      forall j | j in ids ensures j < b {
        assert j != i ==> j in ids - {i};
      }
    }
  }

  /** A call of worker w that hits its cache and passes both checks. */
  function Call(s: State, r: nat, w: nat, hash: string): State
    requires At(s, r).Idle? && Cached(s, w)
    requires IsActive(s.caches[w].snap.columns, s.now) && hash == s.caches[w].snap.columns.tokenHash
  {
    Apply(Apply(Apply(s, Get(r, w, hash)), Check(r)), Issuer(r))
  }

  lemma CallIsAccepted(s: State, r: nat, w: nat, hash: string)
    requires At(s, r).Idle? && Cached(s, w)
    requires IsActive(s.caches[w].snap.columns, s.now) && hash == s.caches[w].snap.columns.tokenHash
    requires s.caches[w].snap.columns.issuer.Some? && s.caches[w].snap.columns.issuer.value in s.members
    ensures var e := s.caches[w];
            var t := Call(s, r, w, hash);
            var accept := Accept(w, s.nextCall, hash, e.snap, s.now, e.setAt - e.snap.rowAt, s.now, s.now, s.members);
            && t.log == s.log + [accept]
            && t.history == s.history && t.nextCall == s.nextCall + 1
  {
  }

  lemma RunThree(s: State, a: Step, b: Step, c: Step)
    requires Enabled(s, a) && Enabled(Apply(s, a), b) && Enabled(Apply(Apply(s, a), b), c)
    ensures Run(s, [a, b, c], Apply(Apply(Apply(s, a), b), c))
  {
    hide Apply, Enabled;
    var t := Apply(Apply(Apply(s, a), b), c);
    assert Run(t, [], t);
    RunOne(Apply(Apply(s, a), b), c, [], t);
    RunOne(Apply(s, a), b, [c], t);
    RunOne(s, a, [b, c], t);
    assert [c] + [] == [c] && [b] + [c] == [b, c] && [a] + [b, c] == [a, b, c];
  }

  lemma CallProceeds(s: State, r: nat, w: nat, hash: string)
    requires At(s, r).Idle? && Cached(s, w)
    requires IsActive(s.caches[w].snap.columns, s.now) && hash == s.caches[w].snap.columns.tokenHash
    ensures At(Apply(s, Get(r, w, hash)), r).Holding?
    ensures At(Apply(Apply(s, Get(r, w, hash)), Check(r)), r).Vetted?
  {
  }

  lemma CallIsARun(s: State, r: nat, w: nat, hash: string)
    requires At(s, r).Idle? && Cached(s, w)
    requires IsActive(s.caches[w].snap.columns, s.now) && hash == s.caches[w].snap.columns.tokenHash
    ensures Run(s, [Get(r, w, hash), Check(r), Issuer(r)], Call(s, r, w, hash))
  {
    hide Run, Apply;
    CallProceeds(s, r, w, hash);
    RunThree(s, Get(r, w, hash), Check(r), Issuer(r));
  }

  /** From a live old entry, the next call of its worker that presents the right token is accepted. */
  lemma OldEntryIsAccepted(s: State, w: nat, floor: nat)
    requires OldInCache(s, w, floor)
    ensures LaterCallAcceptsOld(s, w, floor)
  {
    hide Call;
    var snap := s.caches[w].snap;
    var r := FreshReader(s.readers);
    var welcome := SetMember(snap.columns.issuer.value, true);
    var ready := Apply(s, welcome);
    CallIsAccepted(ready, r, w, snap.columns.tokenHash);
    CallIsARun(ready, r, w, snap.columns.tokenHash);
    var t := Call(ready, r, w, snap.columns.tokenHash);
    var rest := [Get(r, w, snap.columns.tokenHash), Check(r), Issuer(r)];
    RunOne(s, welcome, rest, t);
    assert IsLateOldAccept(s, t, |s.log|, w, floor);
  }

  lemma PrependStep(s: State, step: Step, w: nat, floor: nat)
    requires Enabled(s, step) && (step.FetchList? || step.Fill?)
    requires LaterCallAcceptsOld(Apply(s, step), w, floor)
    ensures LaterCallAcceptsOld(s, w, floor)
  {
    var u := Apply(s, step);
    var steps, t, n: nat :| Run(u, steps, t) && IsLateOldAccept(u, t, n, w, floor);
    RunOne(s, step, steps, t);
    assert IsLateOldAccept(s, t, n, w, floor);
  }

  lemma OldFillIsAccepted(s: State, r: nat, floor: nat)
    requires s.history != [] && r in s.readers && OldFill(s.readers[r], s.now, floor)
    ensures LaterCallAcceptsOld(s, s.readers[r].w, floor)
  {
    var w := s.readers[r].w;
    if s.readers[r].Loaded? {
      OldEntryIsAccepted(Apply(s, Fill(r)), w, floor);
      PrependStep(s, Fill(r), w, floor);
    } else {
      var u := Apply(s, FetchList(r));
      OldEntryIsAccepted(Apply(u, Fill(r)), w, floor);
      PrependStep(u, Fill(r), w, floor);
      PrependStep(s, FetchList(r), w, floor);
    }
  }

  /**
   * Once version `floor` is committed, a call of worker w that begins later can be accepted on an older
   * snapshot exactly when a live older one is in that worker's cache or on its way there. What other
   * workers invalidated does not enter.
   */
  lemma OldAcceptPossibleIff(s: State, w: nat, floor: nat)
    requires floor < |s.history| && CallsNumbered(s)
    ensures LaterCallAcceptsOld(s, w, floor) <==> OldSource(s, w, floor)
  {
    if OldSource(s, w, floor) {
      if OldInCache(s, w, floor) {
        OldEntryIsAccepted(s, w, floor);
      } else {
        var r :| r in s.readers && OldFill(s.readers[r], s.now, floor) && s.readers[r].w == w;
        OldFillIsAccepted(s, r, floor);
      }
    } else {
      NoSourceNoOldAccept(s, w, floor);
    }
  }

  /**
   * After a revocation is committed, worker w never accepts a later call once its own cache holds no live
   * older row and none of its readers is about to put one there.
   */
  lemma RevocationIsFinal(s: State, steps: seq<Step>, t: State, w: nat, floor: nat, n: nat)
    requires Inv(s) && floor < |s.history| && CallsNumbered(s)
    requires !OldInCache(s, w, floor) && !Filling(s, w, s.now, floor)
    requires Run(s, steps, t) && |s.log| <= n < |t.log| && t.log[n].w == w
    requires forall v :: floor <= v < |t.history| ==> t.history[v].columns.revoked
    ensures t.log[n].call < s.nextCall
  {
    RunKeepsInv(s, steps, t);
    assert AcceptOk(t.history, t.now, t.log[n]);
    NoSourceNoOldAccept(s, w, floor);
    assert Old(t.log[n].snap, floor);
    assert !IsLateOldAccept(s, t, n, w, floor);
  }

  lemma {:induction false} CallsStayNumbered(s: State, steps: seq<Step>, t: State)
    requires NumberedBelow(s) && Run(s, steps, t)
    ensures NumberedBelow(t)
    decreases |steps|
  {
    if steps != [] {
      CallsStayNumbered(Apply(s, steps[0]), steps[1..], t);
    }
  }

  ghost predicate NumberedBelow(s: State) {
    forall r :: r in s.readers && !s.readers[r].Idle? ==> s.readers[r].call < s.nextCall
  }

  lemma NumberedCalls(s: State)
    requires Inv(s) && NumberedBelow(s)
    ensures CallsNumbered(s)
  {
    forall r | r in s.readers ensures ReaderOk(s.history, s.now, s.readers[r]) {
    }
  }

  /** Every reachable state numbers its calls, so these results apply to all of them. */
  lemma ReachableCallsAreNumbered(first: Version, steps: seq<Step>, t: State)
    requires Run(Initial(first), steps, t)
    ensures Inv(t) && NumberedBelow(t) && CallsNumbered(t)
  {
    RunKeepsInv(Initial(first), steps, t);
    CallsStayNumbered(Initial(first), steps, t);
    NumberedCalls(t);
  }

  // ---------------------------------------------------------------------
  // One cache for all
  // ---------------------------------------------------------------------

  /** Every call is served by cache 0, as with a cache that the workers share. */
  ghost predicate Shared(s: State, logged: nat) {
    && (forall r :: r in s.readers && !s.readers[r].Idle? ==> s.readers[r].w == 0)
    && (forall n :: logged <= n < |s.log| ==> s.log[n].w == 0)
  }

  lemma {:induction false} StaysShared(s: State, steps: seq<Step>, t: State, logged: nat)
    requires Shared(s, logged) && Run(s, steps, t)
    requires forall i :: 0 <= i < |steps| && steps[i].Get? ==> steps[i].w == 0
    ensures Shared(t, logged)
    decreases |steps|
  {
    if steps != [] {
      var u := Apply(s, steps[0]);
      assert Shared(u, logged);
      StaysShared(u, steps[1..], t, logged);
    }
  }

  /** With a shared cache, a revocation committed and invalidated with no fill in flight ends all later accepts. */
  lemma SharedRevocationIsFinal(s: State, steps: seq<Step>, t: State, floor: nat, n: nat)
    requires Inv(s) && floor < |s.history| && NumberedBelow(s) && Shared(s, |s.log|)
    requires 0 !in s.caches && !Filling(s, 0, s.now, floor)
    requires Run(s, steps, t) && |s.log| <= n < |t.log|
    requires forall i :: 0 <= i < |steps| && steps[i].Get? ==> steps[i].w == 0
    requires forall v :: floor <= v < |t.history| ==> t.history[v].columns.revoked
    ensures t.log[n].call < s.nextCall
  {
    StaysShared(s, steps, t, |s.log|);
    NumberedCalls(s);
    RevocationIsFinal(s, steps, t, 0, floor, n);
  }

  // ---------------------------------------------------------------------
  // The 30-second promise
  // ---------------------------------------------------------------------

  /** By `deadline` worker w has no live old row left, cached or on its way. */
  ghost predicate SettledBy(s: State, w: nat, floor: nat, deadline: int) {
    && floor < |s.history|
    && (w in s.caches && Old(s.caches[w].snap, floor) ==>
          s.caches[w].setAt + TTL <= deadline || !Live(s.caches[w].snap.columns, deadline))
    && (forall r :: r in s.readers ==> Settled(s.readers[r], w, floor, deadline))
  }

  ghost predicate Settled(k: Reader, w: nat, floor: nat, deadline: int) {
    OldFill(k, deadline, floor) ==> k.w != w
  }

  lemma StepKeepsSettled(s: State, step: Step, w: nat, floor: nat, deadline: int)
    requires SettledBy(s, w, floor, deadline) && Enabled(s, step)
    ensures SettledBy(Apply(s, step), w, floor, deadline)
  {
    var t := Apply(s, step);
    if step.Get? || step.FetchRow? || step.FetchList? || step.Fill? || step.Check? || step.Issuer? {
      assert step.r in s.readers ==> Settled(s.readers[step.r], w, floor, deadline);
    }
    forall q | q in t.readers ensures Settled(t.readers[q], w, floor, deadline) {
      if q in s.readers && t.readers[q] == s.readers[q] {
        assert Settled(s.readers[q], w, floor, deadline);
      }
    }
  }

  lemma {:induction false} RunKeepsSettled(s: State, steps: seq<Step>, t: State, w: nat, floor: nat, deadline: int)
    requires SettledBy(s, w, floor, deadline) && Run(s, steps, t)
    ensures SettledBy(t, w, floor, deadline)
    decreases |steps|
  {
    if steps != [] {
      StepKeepsSettled(s, steps[0], w, floor, deadline);
      RunKeepsSettled(Apply(s, steps[0]), steps[1..], t, w, floor, deadline);
    }
  }

  /** Some continuation reaches a moment at least TTL away from which a new call of worker w can accept an old row. */
  ghost predicate OldAcceptBeyondTtl(s: State, w: nat, floor: nat) {
    exists steps, mid :: Run(s, steps, mid) && mid.now >= s.now + TTL && LaterCallAcceptsOld(mid, w, floor)
  }

  /**
   * The promise that a committed change has reached worker w within 30 seconds fails exactly when one of
   * its readers is between fetch and cache write with an older row that will still be live by then. What
   * is merely cached, in this worker or another, always runs out in time.
   */
  lemma BeyondTtlIff(s: State, w: nat, floor: nat)
    requires Inv(s) && NumberedBelow(s) && floor < |s.history|
    ensures OldAcceptBeyondTtl(s, w, floor) <==> Filling(s, w, s.now + TTL, floor)
  {
    var deadline := s.now + TTL;
    if Filling(s, w, deadline, floor) {
      StalledFillOutlastsTtl(s, w, floor);
    } else {
      forall r | r in s.readers ensures Settled(s.readers[r], w, floor, deadline) {
      }
      assert w in s.caches ==> EntryOk(s.history, s.now, s.caches[w]);
      assert SettledBy(s, w, floor, deadline);
      forall steps, mid | Run(s, steps, mid) && mid.now >= deadline ensures !LaterCallAcceptsOld(mid, w, floor) {
        RunKeepsSettled(s, steps, mid, w, floor, deadline);
        RunKeepsInv(s, steps, mid);
        CallsStayNumbered(s, steps, mid);
        NumberedCalls(mid);
        SettledHasNoSource(mid, w, floor, deadline);
        NoSourceNoOldAccept(mid, w, floor);
      }
    }
  }

  lemma SettledHasNoSource(s: State, w: nat, floor: nat, deadline: int)
    requires SettledBy(s, w, floor, deadline) && s.now >= deadline
    ensures !OldSource(s, w, floor)
  {
    forall r | r in s.readers ensures !(OldFill(s.readers[r], s.now, floor) && s.readers[r].w == w) {
      assert Settled(s.readers[r], w, floor, deadline);
    }
  }

  lemma StalledFillOutlastsTtl(s: State, w: nat, floor: nat)
    requires s.history != [] && Filling(s, w, s.now + TTL, floor)
    ensures OldAcceptBeyondTtl(s, w, floor)
  {
    var r :| r in s.readers && OldFill(s.readers[r], s.now + TTL, floor) && s.readers[r].w == w;
    var wait := Tick(TTL as nat);
    var mid := Apply(s, wait);
    OldFillIsAccepted(mid, r, floor);
    assert Run(mid, [], mid);
    RunOne(s, wait, [], mid);
  }

  // ---------------------------------------------------------------------
  // Runs that show it
  // ---------------------------------------------------------------------

  /** A reader that misses, reads the row and its allowlist, and then stalls before its cache write. */
  function StalledFill(s: State, r: nat, w: nat, hash: string): State
    requires s.history != [] && At(s, r).Idle? && !Cached(s, w)
  {
    Apply(Apply(Apply(s, Get(r, w, hash)), FetchRow(r)), FetchList(r))
  }

  function Revoked(first: Version): Columns {
    first.columns.(revoked := true)
  }

  /** A revocation that commits and invalidates while a fill has stalled; the fill then caches the old row. */
  function RevokedDuringFill(first: Version, gap: nat): State
    requires Live(first.columns, first.since)
  {
    var stalled := StalledFill(Initial(first), 1, 1, first.columns.tokenHash);
    var revoked := Apply(Apply(stalled, Commit(Revoked(first), first.accounts)), Invalidate(1));
    Apply(Apply(revoked, Tick(gap)), Fill(1))
  }

  lemma StalledFillCachesTheOldRow(first: Version, gap: nat)
    requires Live(first.columns, first.since) && first.columns.expiresAt.None?
    ensures var t := RevokedDuringFill(first, gap);
            var snap := Snapshot(first.columns, 0, first.since, first.accounts, 0, first.since);
            && t.history == [first, Version(Revoked(first), first.accounts, first.since)]
            && t.caches == map[1 := Entry(snap, first.since + gap)] && t.now == first.since + gap
            && t.log == [] && At(t, 2).Idle?
  {
  }

  /**
   * The bound is reached to the microsecond: after such a revocation a call is accepted on the old row
   * gap + TTL - 1 later, which is past the promised 30 seconds for every gap above one.
   */
  lemma RevokedKeyIsAcceptedBeyondTtl(first: Version, gap: nat)
    requires Live(first.columns, first.since) && first.columns.expiresAt.None?
    ensures var late := Apply(RevokedDuringFill(first, gap), Tick((TTL - 1) as nat));
            var ready := Apply(late, SetMember(first.columns.issuer.value, true));
            var t := Call(ready, 2, 1, first.columns.tokenHash);
            && t.history[1].columns.revoked
            && |t.log| == 1 && t.log[0].snap.rowVersion == 0 && t.log[0].gap == gap
            && t.log[0].at == t.history[1].since + gap + TTL - 1
  {
    hide RevokedDuringFill, Call;
    StalledFillCachesTheOldRow(first, gap);
    var late := Apply(RevokedDuringFill(first, gap), Tick((TTL - 1) as nat));
    var ready := Apply(late, SetMember(first.columns.issuer.value, true));
    CallIsAccepted(ready, 2, 1, first.columns.tokenHash);
  }

  /** Worker 2 caches the row; worker 1 revokes, commits and invalidates, which reaches its own cache only. */
  function RevokedElsewhere(first: Version): State
    requires Live(first.columns, first.since)
  {
    var cached := Apply(StalledFill(Initial(first), 1, 2, first.columns.tokenHash), Fill(1));
    Apply(Apply(cached, Commit(Revoked(first), first.accounts)), Invalidate(1))
  }

  /** With a cache per worker the next request is not refused: worker 2 still accepts the revoked key. */
  lemma OtherWorkerAcceptsTheRevokedKey(first: Version)
    requires Live(first.columns, first.since)
    ensures var t := RevokedElsewhere(first);
            && t.history[1].columns.revoked && 1 !in t.caches
            && LaterCallAcceptsOld(t, 2, 1)
  {
    var t := RevokedElsewhere(first);
    assert OldInCache(t, 2, 1);
    OldEntryIsAccepted(t, 2, 1);
  }

  /**
   * An update whose invalidation precedes its commit: a verification of the same worker that misses in
   * between refills the cache with the old scope, and the first call after the commit is accepted on it.
   */
  lemma UpdateLeavesOldScopeBehind(wide: Version, narrow: set<nat>)
    requires Live(wide.columns, wide.since)
    ensures var s1 := Apply(Initial(wide), Get(1, 1, wide.columns.tokenHash));
            var s2 := Apply(s1, Invalidate(1));                             // the update's signals fire
            var s3 := Apply(Apply(Apply(s2, FetchRow(1)), FetchList(1)), Fill(1));
            var s4 := Apply(s3, Commit(wide.columns, narrow));              // and only now its transaction ends
            s4.history[1].accounts == narrow && LaterCallAcceptsOld(s4, 1, 1)
  {
    var s1 := Apply(Initial(wide), Get(1, 1, wide.columns.tokenHash));
    var s2 := Apply(s1, Invalidate(1));
    var s3 := Apply(Apply(Apply(s2, FetchRow(1)), FetchList(1)), Fill(1));
    var s4 := Apply(s3, Commit(wide.columns, narrow));
    assert 1 in s4.caches && s4.caches[1].snap.rowVersion == 0;
    OldEntryIsAccepted(s4, 1, 1);
  }
}
