// Every interleaving of concurrent claims, finalizes, releases, crashes and
// sweeps over one table (apps/api/middleware.py, apps/api/tasks.py).
module IdempotencyProtocol {
  import opened Idempotency

  /** Where one worker stands. `row` and `claimedAt` repeat what its INSERT wrote. */
  datatype Worker =
    | Idle
    | Refetching(slot: Slot, fingerprint: string)         // INSERT hit the unique constraint
    | Working(slot: Slot, row: nat, claimedAt: int)
    | Cleaning(slot: Slot, row: nat, claimedAt: int)      // an exception, release still to come

  /** History, for stating what happened over a whole run. `owner` is the row the acting worker claimed. */
  datatype Event =
    | Claim(row: nat, slot: Slot, fingerprint: string)
    | Final(row: nat, owner: nat, status: nat, body: string)
    | Drop(row: nat, owner: nat)
    | Answer(slot: Slot, fingerprint: string, row: nat, status: nat, body: string)

  datatype State = State(now: int, rows: Table, nextId: nat, workers: map<nat, Worker>, log: seq<Event>)

  datatype Step =
    | Insert(w: nat, slot: Slot, fingerprint: string)
    | Refetch(w: nat)
    | Finalize(w: nat, status: nat, body: string, acknowledged: bool)
    | Fail(w: nat)
    | Release(w: nat)
    | Crash(w: nat)
    | Sweep(cutoff: int)
    | Tick(elapsed: nat)

  const INITIAL: State := State(0, map[], 0, map[], [])

  function At(s: State, w: nat): Worker {
    if w in s.workers then s.workers[w] else Idle
  }

  predicate Holding(k: Worker) { k.Working? || k.Cleaning? }

  predicate Enabled(s: State, step: Step) {
    match step
    case Insert(w, _, _) => At(s, w).Idle?
    case Refetch(w) => At(s, w).Refetching?
    case Finalize(w, _, _, _) => At(s, w).Working?
    case Fail(w) => At(s, w).Working?
    case Release(w) => At(s, w).Cleaning?
    case Crash(_) => true
    case Sweep(cutoff) => cutoff + TTL <= s.now
    case Tick(_) => true
  }

  function ApplyInsert(s: State, w: nat, slot: Slot, fingerprint: string): State {
    if slot in s.rows then
      s.(workers := s.workers[w := Refetching(slot, fingerprint)])
    else
      s.(rows := s.rows[slot := PlaceholderRow(s.nextId, fingerprint, s.now)],
         nextId := s.nextId + 1,
         workers := s.workers[w := Working(slot, s.nextId, s.now)],
         log := s.log + [Claim(s.nextId, slot, fingerprint)])
  }

  function ApplyRefetch(s: State, w: nat): State
    requires At(s, w).Refetching?
  {
    var k := At(s, w);
    var idle := s.(workers := s.workers[w := Idle]);
    match Refetched(s.rows, k.slot, k.fingerprint)
    case Replay(status, body) =>
      idle.(log := s.log + [Answer(k.slot, k.fingerprint, s.rows[k.slot].id, status, body)])
    case _ => idle
  }

  /** The UPDATE commits; when its acknowledgement is lost the worker goes on to release. */
  function ApplyFinalize(s: State, w: nat, status: nat, body: string, acknowledged: bool): State
    requires At(s, w).Working?
  {
    var k := At(s, w);
    s.(rows := Finalized(s.rows, k.slot, status, body),
       workers := s.workers[w := if acknowledged then Idle else Cleaning(k.slot, k.row, k.claimedAt)],
       log := if k.slot in s.rows then s.log + [Final(s.rows[k.slot].id, k.row, status, body)] else s.log)
  }

  function ApplyRelease(s: State, w: nat): State
    requires At(s, w).Cleaning?
  {
    var k := At(s, w);
    s.(rows := Released(s.rows, k.slot),
       workers := s.workers[w := Idle],
       log := if k.slot in s.rows && s.rows[k.slot].status == PENDING
              then s.log + [Drop(s.rows[k.slot].id, k.row)] else s.log)
  }

  function Apply(s: State, step: Step): State
    requires Enabled(s, step)
  {
    match step
    case Insert(w, slot, fingerprint) => ApplyInsert(s, w, slot, fingerprint)
    case Refetch(w) => ApplyRefetch(s, w)
    case Finalize(w, status, body, acknowledged) => ApplyFinalize(s, w, status, body, acknowledged)
    case Fail(w) =>
      var k := At(s, w);
      s.(workers := s.workers[w := Cleaning(k.slot, k.row, k.claimedAt)])
    case Release(w) => ApplyRelease(s, w)
    case Crash(w) => s.(workers := s.workers[w := Idle])
    case Sweep(cutoff) => s.(rows := Swept(s.rows, cutoff))
    case Tick(elapsed) => s.(now := s.now + elapsed)
  }

  /** Timing assumption: no worker is between claim and finish for more than the TTL. */
  ghost predicate Timely(s: State) {
    forall w :: w in s.workers && Holding(s.workers[w]) ==> s.now - s.workers[w].claimedAt <= TTL
  }

  ghost predicate Assumed(s: State, step: Step) {
    && Enabled(s, step)
    && (step.Finalize? ==> step.status != PENDING)
    && Timely(Apply(s, step))
  }

  /** steps lead from s to t, with the timing and status assumptions at every step. */
  ghost predicate Run(s: State, steps: seq<Step>, t: State)
    decreases |steps|
  {
    if steps == [] then s == t
    else Assumed(s, steps[0]) && Run(Apply(s, steps[0]), steps[1..], t)
  }

  // ---------------------------------------------------------------------
  // The invariant
  // ---------------------------------------------------------------------

  ghost predicate OwnsRow(s: State, k: Worker)
    requires Holding(k)
  {
    && k.slot in s.rows
    && s.rows[k.slot].id == k.row
    && s.rows[k.slot].createdAt == k.claimedAt
    && (k.Working? ==> s.rows[k.slot].status == PENDING)
  }

  ghost predicate Owned(s: State) {
    forall w :: w in s.workers && Holding(s.workers[w]) ==> OwnsRow(s, s.workers[w])
  }

  ghost predicate Exclusive(s: State) {
    forall v, w :: v in s.workers && w in s.workers && v != w && Holding(s.workers[v]) && Holding(s.workers[w])
                   ==> s.workers[v].slot != s.workers[w].slot
  }

  ghost predicate DistinctIds(s: State) {
    && (forall a :: a in s.rows ==> s.rows[a].id < s.nextId)
    && (forall a, b :: a in s.rows && b in s.rows && a != b ==> s.rows[a].id != s.rows[b].id)
  }

  /** The history below `n` already holds the claim and the final that an event at `n` relies on. */
  ghost predicate Justified(log: seq<Event>, n: nat)
    requires n < |log|
  {
    match log[n]
    case Claim(row, _, _) =>
      forall i :: 0 <= i < n ==> (log[i].Claim? ==> log[i].row != row)
    case Final(row, owner, status, _) =>
      && row == owner
      && status != PENDING
      && (forall i :: 0 <= i < n ==> (log[i].Final? ==> log[i].row != row))
    case Drop(row, owner) => row == owner
    case Answer(slot, fingerprint, row, status, body) =>
      && status != PENDING
      && Claim(row, slot, fingerprint) in log[..n]
      && Final(row, row, status, body) in log[..n]
  }

  ghost predicate GoodLog(log: seq<Event>) {
    forall n :: 0 <= n < |log| ==> Justified(log, n)
  }

  /** The history tells, for every stored row, who claimed it and what finalized it. */
  ghost predicate Recorded(s: State) {
    && (forall e :: e in s.log && (e.Claim? || e.Final?) ==> e.row < s.nextId)
    && (forall a :: a in s.rows ==> Claim(s.rows[a].id, a, s.rows[a].fingerprint) in s.log)
    && (forall a :: a in s.rows && s.rows[a].status != PENDING ==>
          Final(s.rows[a].id, s.rows[a].id, s.rows[a].status, s.rows[a].body) in s.log)
    && (forall a, e :: a in s.rows && s.rows[a].status == PENDING && e in s.log && e.Final? ==> e.row != s.rows[a].id)
  }

  ghost predicate Inv(s: State) {
    && Owned(s)
    && Exclusive(s)
    && DistinctIds(s)
    && GoodLog(s.log)
    && Recorded(s)
  }

  lemma GoodLogExtends(log: seq<Event>, e: Event)
    requires GoodLog(log)
    requires Justified(log + [e], |log|)
    ensures GoodLog(log + [e])
  {
    var longer := log + [e];
    forall n | 0 <= n < |longer| ensures Justified(longer, n) {
      if n < |log| {
        assert Justified(log, n);
        assert longer[..n] == log[..n];
      }
    }
  }

  lemma NewClaimIsJustified(s: State, slot: Slot, fingerprint: string)
    requires Recorded(s) && GoodLog(s.log)
    ensures GoodLog(s.log + [Claim(s.nextId, slot, fingerprint)])
  {
    GoodLogExtends(s.log, Claim(s.nextId, slot, fingerprint));
  }

  lemma FirstFinalIsJustified(s: State, slot: Slot, status: nat, body: string)
    requires Recorded(s) && GoodLog(s.log) && slot in s.rows && s.rows[slot].status == PENDING && status != PENDING
    ensures GoodLog(s.log + [Final(s.rows[slot].id, s.rows[slot].id, status, body)])
  {
    GoodLogExtends(s.log, Final(s.rows[slot].id, s.rows[slot].id, status, body));
  }

  lemma InsertKeepsHolders(s: State, w: nat, slot: Slot, fingerprint: string)
    requires Owned(s) && Exclusive(s) && At(s, w).Idle?
    ensures Owned(ApplyInsert(s, w, slot, fingerprint)) && Exclusive(ApplyInsert(s, w, slot, fingerprint))
  {
    var t := ApplyInsert(s, w, slot, fingerprint);
    forall v | v in t.workers && Holding(t.workers[v])
      ensures OwnsRow(t, t.workers[v])
      ensures v != w ==> v in s.workers && t.workers[v] == s.workers[v] && s.workers[v].slot in s.rows
    {
      if v != w {
        assert OwnsRow(s, s.workers[v]);
      }
    }
  }

  lemma InsertKeepsIds(s: State, w: nat, slot: Slot, fingerprint: string)
    requires DistinctIds(s)
    ensures DistinctIds(ApplyInsert(s, w, slot, fingerprint))
  {
  }

  lemma InsertKeepsRecorded(s: State, w: nat, slot: Slot, fingerprint: string)
    requires Recorded(s) && DistinctIds(s) && slot !in s.rows
    ensures Recorded(ApplyInsert(s, w, slot, fingerprint))
  {
    var t := ApplyInsert(s, w, slot, fingerprint);
    var claim := Claim(s.nextId, slot, fingerprint);
    assert t.log[|s.log|] == claim;
    forall e ensures e in t.log <==> e in s.log || e == claim {
    }
    forall a | a in t.rows && a != slot ensures t.rows[a] == s.rows[a] && a in s.rows {
    }
  }

  lemma InsertKeepsInv(s: State, w: nat, slot: Slot, fingerprint: string)
    requires Inv(s) && At(s, w).Idle?
    ensures Inv(ApplyInsert(s, w, slot, fingerprint))
  {
    InsertKeepsHolders(s, w, slot, fingerprint);
    InsertKeepsIds(s, w, slot, fingerprint);
    if slot !in s.rows {
      hide GoodLog, Recorded, Owned, Exclusive, DistinctIds;
      InsertKeepsRecorded(s, w, slot, fingerprint);
      NewClaimIsJustified(s, slot, fingerprint);
    }
  }

  lemma RefetchKeepsInv(s: State, w: nat)
    requires Inv(s) && At(s, w).Refetching?
    ensures Inv(ApplyRefetch(s, w))
  {
    var k := At(s, w);
    var d := Refetched(s.rows, k.slot, k.fingerprint);
    if d.Replay? {
      var e := Answer(k.slot, k.fingerprint, s.rows[k.slot].id, d.status, d.body);
      assert (s.log + [e])[..|s.log|] == s.log;
      GoodLogExtends(s.log, e);
    }
  }

  lemma FinalizeKeepsInv(s: State, w: nat, status: nat, body: string, acknowledged: bool)
    requires Inv(s) && At(s, w).Working? && status != PENDING
    ensures Inv(ApplyFinalize(s, w, status, body, acknowledged))
  {
    hide GoodLog;
    var k := At(s, w);
    assert OwnsRow(s, k);
    FirstFinalIsJustified(s, k.slot, status, body);
  }

  lemma ReleaseKeepsInv(s: State, w: nat)
    requires Inv(s) && At(s, w).Cleaning?
    ensures Inv(ApplyRelease(s, w))
  {
    var k := At(s, w);
    assert OwnsRow(s, k);
    GoodLogExtends(s.log, Drop(k.row, k.row));
  }

  /** The sweep cannot reach the row of a worker that is still on time. */
  lemma SweepKeepsInv(s: State, cutoff: int)
    requires Inv(s) && Timely(s) && cutoff + TTL <= s.now
    ensures Inv(s.(rows := Swept(s.rows, cutoff)))
  {
    forall w | w in s.workers && Holding(s.workers[w])
      ensures OwnsRow(s.(rows := Swept(s.rows, cutoff)), s.workers[w])
    {
      assert OwnsRow(s, s.workers[w]);
    }
  }

  lemma StepKeepsInv(s: State, step: Step)
    requires Inv(s) && Assumed(s, step)
    ensures Inv(Apply(s, step))
  {
    match step
    case Insert(w, slot, fingerprint) => InsertKeepsInv(s, w, slot, fingerprint);
    case Refetch(w) => RefetchKeepsInv(s, w);
    case Finalize(w, status, body, acknowledged) => FinalizeKeepsInv(s, w, status, body, acknowledged);
    case Fail(w) => assert OwnsRow(s, At(s, w));
    case Release(w) => ReleaseKeepsInv(s, w);
    case Crash(w) =>
    case Sweep(cutoff) =>
      forall w | w in s.workers && Holding(s.workers[w]) ensures s.now - s.workers[w].claimedAt <= TTL {
        assert w in Apply(s, step).workers;
      }
      SweepKeepsInv(s, cutoff);
    case Tick(elapsed) =>
      forall w | w in s.workers && Holding(s.workers[w]) ensures OwnsRow(Apply(s, step), s.workers[w]) {
        assert OwnsRow(s, s.workers[w]);
      }
  }

  lemma {:induction false} RunKeepsInv(s: State, steps: seq<Step>, t: State)
    requires Inv(s) && Run(s, steps, t)
    ensures Inv(t)
    decreases |steps|
  {
    if steps != [] {
      StepKeepsInv(s, steps[0]);
      RunKeepsInv(Apply(s, steps[0]), steps[1..], t);
    }
  }

  // ---------------------------------------------------------------------
  // Safety over whole runs
  // ---------------------------------------------------------------------

  /** No two workers are ever between claim and finish on one slot. */
  lemma AtMostOneHolder(steps: seq<Step>, t: State, v: nat, w: nat)
    requires Run(INITIAL, steps, t)
    requires Holding(At(t, v)) && Holding(At(t, w)) && At(t, v).slot == At(t, w).slot
    ensures v == w
  {
    RunKeepsInv(INITIAL, steps, t);
  }

  /** A row is finalized at most once, and only by the worker whose INSERT made it. */
  lemma AtMostOneFinal(steps: seq<Step>, t: State, i: nat, j: nat)
    requires Run(INITIAL, steps, t)
    requires i < |t.log| && j < |t.log| && t.log[i].Final? && t.log[j].Final?
    ensures t.log[i].owner == t.log[i].row
    ensures t.log[i].row == t.log[j].row ==> i == j
  {
    RunKeepsInv(INITIAL, steps, t);
    assert Justified(t.log, i) && Justified(t.log, j);
  }

  /** A release only ever deletes the row its own worker claimed, and never a finalized one. */
  lemma ReleaseDropsOwnPendingRow(s: State, w: nat)
    requires Inv(s) && At(s, w).Cleaning?
    ensures var t := ApplyRelease(s, w);
            && (forall a :: a in s.rows && s.rows[a].id != At(s, w).row ==> a in t.rows && t.rows[a] == s.rows[a])
            && (forall a :: a in s.rows && s.rows[a].status != PENDING ==> a in t.rows && t.rows[a] == s.rows[a])
            && (forall a :: a in t.rows ==> s.rows[a].id == At(s, w).row ==> s.rows[a].status != PENDING)
  {
    assert OwnsRow(s, At(s, w));
  }

  /** A replay is the response of the row's one final, given only to the claimant's fingerprint. */
  lemma ReplayIsTheFinalResponse(steps: seq<Step>, t: State, n: nat)
    requires Run(INITIAL, steps, t)
    requires n < |t.log| && t.log[n].Answer?
    ensures exists c, f :: 0 <= c < n && 0 <= f < n
              && t.log[c] == Claim(t.log[n].row, t.log[n].slot, t.log[n].fingerprint)
              && t.log[f] == Final(t.log[n].row, t.log[n].row, t.log[n].status, t.log[n].body)
              && (forall g :: 0 <= g < |t.log| && t.log[g].Final? && t.log[g].row == t.log[n].row ==> g == f)
              && (forall d :: 0 <= d < |t.log| && t.log[d].Claim? && t.log[d].row == t.log[n].row ==> d == c)
  {
    RunKeepsInv(INITIAL, steps, t);
    var e := t.log[n];
    assert Justified(t.log, n);
    var c :| 0 <= c < n && t.log[..n][c] == Claim(e.row, e.slot, e.fingerprint);
    var f :| 0 <= f < n && t.log[..n][f] == Final(e.row, e.row, e.status, e.body);
    assert t.log[c] == Claim(e.row, e.slot, e.fingerprint) && t.log[f] == Final(e.row, e.row, e.status, e.body);
    forall g | 0 <= g < |t.log| && t.log[g].Final? && t.log[g].row == e.row ensures g == f {
      assert Justified(t.log, g) && Justified(t.log, f);
    }
    forall d | 0 <= d < |t.log| && t.log[d].Claim? && t.log[d].row == e.row ensures d == c {
      assert Justified(t.log, d) && Justified(t.log, c);
    }
  }

  /** One step leaves a finalized row alone for as long as the row is within its TTL. */
  lemma StepKeepsFinalRow(s: State, step: Step, slot: Slot)
    requires Inv(s) && Assumed(s, step)
    requires slot in s.rows && s.rows[slot].status != PENDING
    requires Apply(s, step).now - s.rows[slot].createdAt <= TTL
    ensures slot in Apply(s, step).rows && Apply(s, step).rows[slot] == s.rows[slot]
  {
    if step.Finalize? || step.Release? {
      assert OwnsRow(s, At(s, step.w));
    }
  }

  lemma {:induction false} ClockNeverGoesBack(s: State, steps: seq<Step>, t: State)
    requires Run(s, steps, t)
    ensures s.now <= t.now
    decreases |steps|
  {
    if steps != [] {
      ClockNeverGoesBack(Apply(s, steps[0]), steps[1..], t);
    }
  }

  /** A finalized response stays stored, unchanged, until the row is more than 24 hours old. */
  lemma {:induction false} FinalResponseIsDurable(s: State, steps: seq<Step>, t: State, slot: Slot)
    requires Inv(s) && Run(s, steps, t)
    requires slot in s.rows && s.rows[slot].status != PENDING
    requires t.now - s.rows[slot].createdAt <= TTL
    ensures slot in t.rows && t.rows[slot] == s.rows[slot]
    decreases |steps|
  {
    if steps != [] {
      ClockNeverGoesBack(Apply(s, steps[0]), steps[1..], t);
      StepKeepsFinalRow(s, steps[0], slot);
      StepKeepsInv(s, steps[0]);
      FinalResponseIsDurable(Apply(s, steps[0]), steps[1..], t, slot);
    }
  }

  /**
   * A refetch answers exactly when the slot is stored with the asker's fingerprint and a known status, and
   * then with that row's response; in every case the worker is done and the table stays as it is.
   */
  lemma RefetchAnswersIff(s: State, w: nat, slot: Slot, fingerprint: string)
    requires At(s, w) == Refetching(slot, fingerprint)
    ensures var t := Apply(s, Refetch(w));
            && (slot in s.rows && s.rows[slot].fingerprint == fingerprint && s.rows[slot].status != 0 ==>
                  t.log == s.log + [Answer(slot, fingerprint, s.rows[slot].id, s.rows[slot].status, s.rows[slot].body)])
            && (!(slot in s.rows && s.rows[slot].fingerprint == fingerprint && s.rows[slot].status != 0) ==>
                  t.log == s.log)
            && At(t, w) == Idle && t.rows == s.rows && t.now == s.now
            && (forall v :: v != w ==> At(t, v) == At(s, v))
  {
  }

  /**
   * Once a worker's final has committed, every later request for its slot that finds it taken, within 24
   * hours of the claim, is answered: with that response if it has the claimant's fingerprint, with none if
   * it has another.
   */
  lemma FinalAnswersEveryRetry(s: State, v: nat, status: nat, body: string, acknowledged: bool,
                               steps: seq<Step>, t: State, w: nat, fingerprint: string)
    requires Inv(s) && At(s, v).Working? && Assumed(s, Finalize(v, status, body, acknowledged))
    requires Run(Apply(s, Finalize(v, status, body, acknowledged)), steps, t)
    requires At(t, w) == Refetching(At(s, v).slot, fingerprint)
    requires t.now - At(s, v).claimedAt <= TTL
    ensures At(s, v).slot in s.rows
    ensures Apply(t, Refetch(w)).log ==
            if fingerprint == s.rows[At(s, v).slot].fingerprint
            then t.log + [Answer(At(s, v).slot, fingerprint, At(s, v).row, status, body)] else t.log
  {
    var final := Finalize(v, status, body, acknowledged);
    var slot := At(s, v).slot;
    assert OwnsRow(s, At(s, v));
    StepKeepsInv(s, final);
    FinalResponseIsDurable(Apply(s, final), steps, t, slot);
    RefetchAnswersIff(t, w, slot, fingerprint);
  }

  /** A request takes a free slot with a fresh pending row of its own, and otherwise goes to look at what is there. */
  lemma InsertTakesFreeSlots(s: State, w: nat, slot: Slot, fingerprint: string)
    requires Inv(s) && At(s, w).Idle?
    ensures var t := Apply(s, Insert(w, slot, fingerprint));
            && (slot !in s.rows ==>
                  && At(t, w) == Working(slot, s.nextId, s.now)
                  && t.rows == s.rows[slot := Row(s.nextId, fingerprint, 0, "{}", s.now)]
                  && t.log == s.log + [Claim(s.nextId, slot, fingerprint)])
            && (slot in s.rows ==>
                  At(t, w) == Refetching(slot, fingerprint) && t.rows == s.rows && t.log == s.log)
            && (forall v :: v != w ==> At(t, v) == At(s, v)) && t.now == s.now
            && (forall a :: a in s.rows ==> s.rows[a].id != s.nextId)
  {
  }

  /** A failed worker's release frees its slot, unless its final had committed; the next request then claims it. */
  lemma ReleaseReopensSlot(s: State, w: nat, other: nat, fingerprint: string)
    requires Inv(s) && At(s, w).Cleaning? && At(s, other).Idle?
    ensures var slot := At(s, w).slot;
            var t := Apply(s, Release(w));
            && slot in s.rows && At(t, w) == Idle
            && (s.rows[slot].status == 0 ==>
                  t.rows == s.rows - {slot} && t.log == s.log + [Drop(s.rows[slot].id, At(s, w).row)])
            && (s.rows[slot].status != 0 ==> t.rows == s.rows && t.log == s.log)
            && (s.rows[slot].status == 0 <==> At(Apply(t, Insert(other, slot, fingerprint)), other).Working?)
  {
    assert OwnsRow(s, At(s, w));
  }

  /**
   * A finalize stores the response in its worker's own row and keeps the rest of it; the worker is done if the
   * acknowledgement arrives, and owes the release if not.
   */
  lemma FinalizeStores(s: State, w: nat, status: nat, body: string, acknowledged: bool)
    requires Inv(s) && At(s, w).Working?
    ensures var k := At(s, w);
            var t := Apply(s, Finalize(w, status, body, acknowledged));
            && k.slot in s.rows && s.rows[k.slot].id == k.row
            && t.rows == s.rows[k.slot := Row(k.row, s.rows[k.slot].fingerprint, status, body, k.claimedAt)]
            && t.log == s.log + [Final(k.row, k.row, status, body)]
            && (acknowledged ==> At(t, w) == Idle)
            && (!acknowledged ==> At(t, w) == Cleaning(k.slot, k.row, k.claimedAt))
            && (forall v :: v != w ==> At(t, v) == At(s, v)) && t.now == s.now
  {
    assert OwnsRow(s, At(s, w));
  }

  /** A failure keeps the row and owes the release; a crash keeps the row and owes nothing. */
  lemma FailuresLeaveTheRow(s: State, w: nat)
    requires At(s, w).Working?
    ensures Apply(s, Fail(w))
            == s.(workers := s.workers[w := Cleaning(At(s, w).slot, At(s, w).row, At(s, w).claimedAt)])
    ensures Apply(s, Crash(w)) == s.(workers := s.workers[w := Idle])
  {
  }

  /** A stored fingerprint is the one its row was claimed with; no later statement rewrites it. */
  lemma StoredFingerprintIsTheClaimants(steps: seq<Step>, t: State, slot: Slot)
    requires Run(INITIAL, steps, t) && slot in t.rows
    ensures exists c :: 0 <= c < |t.log| && t.log[c] == Claim(t.rows[slot].id, slot, t.rows[slot].fingerprint)
              && (forall d :: 0 <= d < |t.log| && t.log[d].Claim? && t.log[d].row == t.rows[slot].id ==> d == c)
  {
    RunKeepsInv(INITIAL, steps, t);
    var row := t.rows[slot];
    var c :| 0 <= c < |t.log| && t.log[c] == Claim(row.id, slot, row.fingerprint);
    forall d | 0 <= d < |t.log| && t.log[d].Claim? && t.log[d].row == row.id ensures d == c {
      assert Justified(t.log, d) && Justified(t.log, c);
    }
  }

  /** A claim whose worker crashed: a pending row nobody holds. */
  ghost predicate Abandoned(s: State, slot: Slot) {
    && slot in s.rows
    && s.rows[slot].status == PENDING
    && (forall w :: w in s.workers && Holding(s.workers[w]) ==> s.workers[w].slot != slot)
  }

  lemma StepKeepsAbandoned(s: State, step: Step, slot: Slot)
    requires Enabled(s, step) && Abandoned(s, slot)
    requires Apply(s, step).now - s.rows[slot].createdAt <= TTL
    ensures Abandoned(Apply(s, step), slot) && Apply(s, step).rows[slot] == s.rows[slot]
  {
    match step
    case Insert(w, other, fingerprint) => assert Abandoned(ApplyInsert(s, w, other, fingerprint), slot);
    case Finalize(w, _, _, _) => assert At(s, w).slot != slot;
    case Release(w) => assert At(s, w).slot != slot;
    case _ =>
  }

  /** Until its age passes the TTL an abandoned claim stays as it is, answering retries with 409. */
  lemma {:induction false} AbandonedClaimBlocks(s: State, steps: seq<Step>, t: State, slot: Slot)
    requires Run(s, steps, t) && Abandoned(s, slot)
    requires t.now - s.rows[slot].createdAt <= TTL
    ensures Abandoned(t, slot) && t.rows[slot] == s.rows[slot]
    ensures Refetched(t.rows, slot, s.rows[slot].fingerprint) == InFlight
    decreases |steps|
  {
    if steps != [] {
      var mid := Apply(s, steps[0]);
      ClockNeverGoesBack(mid, steps[1..], t);
      StepKeepsAbandoned(s, steps[0], slot);
      AbandonedClaimBlocks(mid, steps[1..], t, slot);
    }
  }

  /** Once past the TTL, and not before, a sweep hands the slot to the next claim. */
  lemma SweepReopensAbandonedClaim(s: State, slot: Slot, w: nat, fingerprint: string)
    requires At(s, w).Idle? && Abandoned(s, slot)
    ensures var retry := ApplyInsert(Apply(s, Sweep(s.now - TTL)), w, slot, fingerprint);
            At(retry, w).Working? <==> s.now - s.rows[slot].createdAt > TTL
  {
  }

  // ---------------------------------------------------------------------
  // The timing assumption is needed, and exactly it
  // ---------------------------------------------------------------------

  /** After a sweep, another worker can claim the slot w is still working on exactly when w is late. */
  lemma TakeoverPossibleIffLate(s: State, w: nat, other: nat, fingerprint: string)
    requires Inv(s) && Holding(At(s, w)) && At(s, other).Idle?
    ensures var t := ApplyInsert(Apply(s, Sweep(s.now - TTL)), other, At(s, w).slot, fingerprint);
            (Holding(At(t, w)) && Holding(At(t, other)) && At(t, w).slot == At(t, other).slot)
            <==> s.now - At(s, w).claimedAt > TTL
  {
    assert OwnsRow(s, At(s, w));
  }

  /** Without the assumption two workers share a slot, and the late one finalizes the other's row. */
  lemma LateWorkerFinalizesAnothersRow()
    ensures var slot := Slot(1, "k");
            var s1 := Apply(INITIAL, Insert(1, slot, "f"));
            var s2 := Apply(s1, Tick((TTL + 1) as nat));
            var s3 := Apply(s2, Sweep(1));
            var s4 := Apply(s3, Insert(2, slot, "f"));
            && Holding(At(s4, 1)) && Holding(At(s4, 2)) && At(s4, 1).slot == At(s4, 2).slot
            && Apply(s4, Finalize(1, 201, "a", true)).log[2] == Final(1, 0, 201, "a")
  {
    var slot := Slot(1, "k");
    var s1 := Apply(INITIAL, Insert(1, slot, "f"));
    assert s1.rows[slot].createdAt == 0;
    var s2 := Apply(s1, Tick((TTL + 1) as nat));
    var s3 := Apply(s2, Sweep(1));
    assert slot !in s3.rows;
    var s4 := Apply(s3, Insert(2, slot, "f"));
    assert s4.log == [Claim(0, slot, "f"), Claim(1, slot, "f")];
  }
}
