// One account's analytics window: account-level rows merged with the per-post
// series (account_analytics_bundle in apps/analytics/services.py).
module AnalyticsBundle {
  import opened Wrappers
  import opened PostSeries

  datatype AccountRow = AccountRow(metric: string, day: int, value: real, captured: int)

  datatype Bundle = Bundle(
    series: map<string, seq<real>>,
    present: map<string, seq<bool>>,
    estimated: set<string>,
    maxCaptured: Option<int>)

  /** The account's metrics, which of them posts can stand in for, and their snapshot rows. */
  datatype Source = Source(metrics: seq<string>, fallback: set<string>,
                           posts: string -> seq<Row>, start: int, days: nat)
  {
    function End(): int { start + 2 * days - 1 }
  }

  function Newer(a: Option<int>, b: Option<int>): Option<int> {
    if b.Some? && (a.None? || b.value > a.value) then b else a
  }

  // ---------------------------------------------------------------------
  // The account rows on their own
  // ---------------------------------------------------------------------

  /** The value stored for a metric and day; rows are unique per pair, so the last is the one. */
  function Stored(rows: seq<AccountRow>, n: nat, m: string, d: int): Option<real>
    requires n <= |rows|
  {
    if n == 0 then None
    else if rows[n - 1].metric == m && rows[n - 1].day == d then Some(rows[n - 1].value)
    else Stored(rows, n - 1, m, d)
  }

  function MetricCapture(rows: seq<AccountRow>, n: nat, m: string): Option<int>
    requires n <= |rows|
  {
    if n == 0 then None
    else if rows[n - 1].metric == m then Newer(MetricCapture(rows, n - 1, m), Some(rows[n - 1].captured))
    else MetricCapture(rows, n - 1, m)
  }

  function AccountCapture(rows: seq<AccountRow>, n: nat): Option<int>
    requires n <= |rows|
  {
    if n == 0 then None else Newer(AccountCapture(rows, n - 1), Some(rows[n - 1].captured))
  }

  // ---------------------------------------------------------------------
  // When posts stand in for the account
  // ---------------------------------------------------------------------

  ghost predicate CreditsSomeDay(rows: seq<Row>, start: int, end: int) {
    exists d :: Credited(rows, |rows|, d, start, end)
  }

  ghost predicate HasObserved(s: Source, m: string) {
    MeasuredDays(s.posts(m), |s.posts(m)|) != {} || CreditsSomeDay(s.posts(m), s.start, s.End())
  }

  function PostCapture(s: Source, m: string): Option<int> {
    LatestCapture(s.posts(m), |s.posts(m)|)
  }

  /** No account data for the metric, or older than the posts'. */
  ghost predicate UsesPosts(s: Source, rows: seq<AccountRow>, m: string) {
    && m in s.fallback
    && HasObserved(s, m)
    && (var account := MetricCapture(rows, |rows|, m);
        account.None? || (PostCapture(s, m).Some? && PostCapture(s, m).value > account.value))
  }

  ghost function Value(s: Source, rows: seq<AccountRow>, m: string, d: int): real {
    if UsesPosts(s, rows, m) && Credited(s.posts(m), |s.posts(m)|, d, s.start, s.End())
    then DayTotal(s.posts(m), |s.posts(m)|, d, s.start, s.End())
    else match Stored(rows, |rows|, m, d) case Some(v) => v case None => 0.0
  }

  ghost predicate Present(s: Source, rows: seq<AccountRow>, m: string, d: int) {
    || Stored(rows, |rows|, m, d).Some?
    || (UsesPosts(s, rows, m)
        && (d in MeasuredDays(s.posts(m), |s.posts(m)|) || Credited(s.posts(m), |s.posts(m)|, d, s.start, s.End())))
  }

  // ---------------------------------------------------------------------
  // The method
  // ---------------------------------------------------------------------

  type Table = map<string, map<int, real>>

  function Cell(t: Table, m: string): map<int, real> {
    if m in t then t[m] else map[]
  }

  function Days(t: map<string, set<int>>, m: string): set<int> {
    if m in t then t[m] else {}
  }

  /** Everything the account rows alone put into the tables. */
  ghost predicate AccountTables(rows: seq<AccountRow>, n: nat, m: string, values: map<int, real>, present: set<int>)
    requires n <= |rows|
  {
    && (forall d :: d in values <==> Stored(rows, n, m, d).Some?)
    && (forall d :: d in values ==> Some(values[d]) == Stored(rows, n, m, d))
    && present == values.Keys
  }

  /** A metric's cells after the merge. */
  ghost predicate Merged(s: Source, rows: seq<AccountRow>, m: string, values: map<int, real>, present: set<int>) {
    && (forall d :: Get(values, d) == Value(s, rows, m, d))
    && (forall d :: d in present <==> Present(s, rows, m, d))
  }

  method ReadAccountRows(rows: seq<AccountRow>)
    returns (values: Table, present: map<string, set<int>>, captured: map<string, int>, maxCaptured: Option<int>)
    ensures forall m :: AccountTables(rows, |rows|, m, Cell(values, m), Days(present, m))
    ensures forall m :: MetricCapture(rows, |rows|, m) == if m in captured then Some(captured[m]) else None
    ensures maxCaptured == AccountCapture(rows, |rows|)
  {
    values, present, captured, maxCaptured := map[], map[], map[], None;
    for i := 0 to |rows|
      invariant forall m :: AccountTables(rows, i, m, Cell(values, m), Days(present, m))
      invariant forall m :: MetricCapture(rows, i, m) == if m in captured then Some(captured[m]) else None
      invariant maxCaptured == AccountCapture(rows, i)
    {
      var row := rows[i];
      ghost var values0, present0 := values, present;
      values := values[row.metric := Cell(values, row.metric)[row.day := row.value]];
      present := present[row.metric := Days(present, row.metric) + {row.day}];
      forall m ensures AccountTables(rows, i + 1, m, Cell(values, m), Days(present, m)) {
        assert AccountTables(rows, i, m, Cell(values0, m), Days(present0, m));
      }
      if row.metric !in captured || row.captured > captured[row.metric] {
        captured := captured[row.metric := row.captured];
      }
      if maxCaptured.None? || row.captured > maxCaptured.value {
        maxCaptured := Some(row.captured);
      }
    }
  }

  lemma MergeUnused(s: Source, rows: seq<AccountRow>, m: string, values: map<int, real>, present: set<int>)
    requires AccountTables(rows, |rows|, m, values, present) && !UsesPosts(s, rows, m)
    ensures Merged(s, rows, m, values, present)
  {
  }

  lemma MergeUsed(s: Source, rows: seq<AccountRow>, m: string, values: map<int, real>, present: set<int>,
                  daily: map<int, real>, observed: set<int>)
    requires AccountTables(rows, |rows|, m, values, present) && UsesPosts(s, rows, m)
    requires Totals(daily, s.posts(m), |s.posts(m)|, s.start, s.End())
    requires observed == MeasuredDays(s.posts(m), |s.posts(m)|) + daily.Keys
    ensures Merged(s, rows, m, values + daily, present + observed)
  {
    forall d ensures Get(values + daily, d) == Value(s, rows, m, d) {
      assert Get(daily, d) == DayTotal(s.posts(m), |s.posts(m)|, d, s.start, s.End());
    }
  }

  /** The newest capture after folding in the first n metrics' posts where they are used. */
  ghost function FoldedCapture(s: Source, rows: seq<AccountRow>, n: nat): Option<int>
    requires n <= |s.metrics|
  {
    if n == 0 then AccountCapture(rows, |rows|)
    else if UsesPosts(s, rows, s.metrics[n - 1])
      then Newer(FoldedCapture(s, rows, n - 1), PostCapture(s, s.metrics[n - 1]))
    else FoldedCapture(s, rows, n - 1)
  }

  /** One turn of the fallback loop, for a metric whose cells hold the account rows. */
  method FoldMetric(s: Source, rows: seq<AccountRow>, m: string, values0: map<int, real>, present0: set<int>,
                    captured: Option<int>)
    returns (uses: bool, values: map<int, real>, present: set<int>, fallbackCaptured: Option<int>)
    requires AccountTables(rows, |rows|, m, values0, present0) && captured == MetricCapture(rows, |rows|, m)
    ensures uses <==> UsesPosts(s, rows, m)
    ensures Merged(s, rows, m, values, present)
    ensures uses ==> fallbackCaptured == PostCapture(s, m)
  {
    uses, values, present, fallbackCaptured := false, values0, present0, None;
    if m in s.fallback {
      var daily, newest, observed := PostSummedSeries(s.posts(m), s.start, s.End());
      ObservedIsHasObserved(s, m, daily, observed);
      fallbackCaptured := newest;
      uses := observed != {} && (captured.None? || (newest.Some? && newest.value > captured.value));
      assert uses <==> UsesPosts(s, rows, m);
      if uses {
        MergeUsed(s, rows, m, values0, present0, daily, observed);
        values, present := values0 + daily, present0 + observed;
      }
    }
    if !uses {
      MergeUnused(s, rows, m, values, present);
    }
  }

  /** Cells of the metrics done so far are merged, those of the others still hold the account rows. */
  ghost predicate FoldedTo(s: Source, rows: seq<AccountRow>, n: nat, values: Table, present: map<string, set<int>>)
    requires n <= |s.metrics|
  {
    && (forall k :: 0 <= k < n ==>
        Merged(s, rows, s.metrics[k], Cell(values, s.metrics[k]), Days(present, s.metrics[k])))
    && (forall k :: n <= k < |s.metrics| ==>
          AccountTables(rows, |rows|, s.metrics[k], Cell(values, s.metrics[k]), Days(present, s.metrics[k])))
  }

  lemma FoldedToStart(s: Source, rows: seq<AccountRow>, values: Table, present: map<string, set<int>>)
    requires forall m :: AccountTables(rows, |rows|, m, Cell(values, m), Days(present, m))
    ensures FoldedTo(s, rows, 0, values, present)
  {
  }

  lemma FoldedToHolds(s: Source, rows: seq<AccountRow>, n: nat, values: Table, present: map<string, set<int>>)
    requires n < |s.metrics| && FoldedTo(s, rows, n, values, present)
    ensures AccountTables(rows, |rows|, s.metrics[n], Cell(values, s.metrics[n]), Days(present, s.metrics[n]))
  {
  }

  lemma FoldedToNext(s: Source, rows: seq<AccountRow>, n: nat, values: Table, present: map<string, set<int>>,
                     cell: map<int, real>, days: set<int>)
    requires n < |s.metrics| && FoldedTo(s, rows, n, values, present)
    requires forall i, j :: 0 <= i < j < |s.metrics| ==> s.metrics[i] != s.metrics[j]
    requires Merged(s, rows, s.metrics[n], cell, days)
    ensures FoldedTo(s, rows, n + 1, values[s.metrics[n] := cell], present[s.metrics[n] := days])
  {
    var m := s.metrics[n];
    forall k | 0 <= k < |s.metrics| && k != n
      ensures Cell(values[m := cell], s.metrics[k]) == Cell(values, s.metrics[k])
      ensures Days(present[m := days], s.metrics[k]) == Days(present, s.metrics[k])
    {
    }
  }

  method FoldPosts(s: Source, rows: seq<AccountRow>, values0: Table, present0: map<string, set<int>>,
                   captured: map<string, int>, max0: Option<int>)
    returns (values: Table, present: map<string, set<int>>, estimated: set<string>, maxCaptured: Option<int>)
    requires forall i, j :: 0 <= i < j < |s.metrics| ==> s.metrics[i] != s.metrics[j]
    requires forall m :: AccountTables(rows, |rows|, m, Cell(values0, m), Days(present0, m))
    requires forall m :: MetricCapture(rows, |rows|, m) == if m in captured then Some(captured[m]) else None
    requires max0 == AccountCapture(rows, |rows|)
    ensures FoldedTo(s, rows, |s.metrics|, values, present)
    ensures estimated == Estimated(s, rows, |s.metrics|)
    ensures maxCaptured == FoldedCapture(s, rows, |s.metrics|)
  {
    hide FoldedTo, AccountTables, Merged, Cell, Days, UsesPosts;
    values, present, estimated, maxCaptured := values0, present0, {}, max0;
    FoldedToStart(s, rows, values, present);
    for i := 0 to |s.metrics|
      invariant FoldedTo(s, rows, i, values, present)
      invariant estimated == Estimated(s, rows, i)
      invariant maxCaptured == FoldedCapture(s, rows, i)
    {
      var m := s.metrics[i];
      FoldedToHolds(s, rows, i, values, present);
      var uses, cell, days, fallbackCaptured :=
        FoldMetric(s, rows, m, Cell(values, m), Days(present, m), if m in captured then Some(captured[m]) else None);
      FoldedToNext(s, rows, i, values, present, cell, days);
      values, present := values[m := cell], present[m := days];
      estimated, maxCaptured := NoteUse(uses, m, fallbackCaptured, estimated, maxCaptured);
    }
  }

  method NoteUse(uses: bool, m: string, fallbackCaptured: Option<int>, estimated0: set<string>, max0: Option<int>)
    returns (estimated: set<string>, maxCaptured: Option<int>)
    ensures estimated == if uses then estimated0 + {m} else estimated0
    ensures maxCaptured == if uses then Newer(max0, fallbackCaptured) else max0
  {
    estimated, maxCaptured := estimated0, max0;
    if uses {
      estimated := estimated + {m};
      if fallbackCaptured.Some? && (maxCaptured.None? || fallbackCaptured.value > maxCaptured.value) {
        maxCaptured := fallbackCaptured;
      }
    }
  }

  /** The metrics whose series the posts supply. */
  ghost function Estimated(s: Source, rows: seq<AccountRow>, n: nat): set<string>
    requires n <= |s.metrics|
  {
    set k | 0 <= k < n && UsesPosts(s, rows, s.metrics[k]) :: s.metrics[k]
  }

  lemma ObservedIsHasObserved(s: Source, m: string, daily: map<int, real>, observed: set<int>)
    requires Totals(daily, s.posts(m), |s.posts(m)|, s.start, s.End())
    requires observed == MeasuredDays(s.posts(m), |s.posts(m)|) + daily.Keys
    ensures observed != {} <==> HasObserved(s, m)
  {
    if !HasObserved(s, m) {
      assert forall d :: d !in daily;
      assert daily.Keys == {};
    }
    if exists d :: Credited(s.posts(m), |s.posts(m)|, d, s.start, s.End()) {
      var d :| Credited(s.posts(m), |s.posts(m)|, d, s.start, s.End());
      assert d in daily;
    }
  }

  /** The two rows of the bundle that show one metric. */
  ghost predicate Shows(s: Source, rows: seq<AccountRow>, m: string, series: seq<real>, present: seq<bool>) {
    && |series| == |present| == 2 * s.days
    && (forall i :: 0 <= i < 2 * s.days ==> series[i] == Value(s, rows, m, s.start + i))
    && (forall i :: 0 <= i < 2 * s.days ==> present[i] == Present(s, rows, m, s.start + i))
  }

  method Render(s: Source, rows: seq<AccountRow>, m: string, values: map<int, real>, present: set<int>)
    returns (series: seq<real>, mask: seq<bool>)
    requires Merged(s, rows, m, values, present)
    ensures Shows(s, rows, m, series, mask)
  {
    series := seq(2 * s.days, i => Get(values, s.start + i));
    mask := seq(2 * s.days, i => s.start + i in present);
  }

  /** The first n metrics are shown, and nothing else. */
  ghost predicate ShownTo(s: Source, rows: seq<AccountRow>, n: nat, series: map<string, seq<real>>,
                          present: map<string, seq<bool>>)
    requires n <= |s.metrics|
  {
    && series.Keys == present.Keys == (set k | 0 <= k < n :: s.metrics[k])
    && (forall k :: 0 <= k < n ==> Shows(s, rows, s.metrics[k], series[s.metrics[k]], present[s.metrics[k]]))
  }

  lemma ShownToNext(s: Source, rows: seq<AccountRow>, n: nat, series: map<string, seq<real>>,
                    present: map<string, seq<bool>>, values: seq<real>, mask: seq<bool>)
    requires n < |s.metrics| && ShownTo(s, rows, n, series, present)
    requires Shows(s, rows, s.metrics[n], values, mask)
    ensures ShownTo(s, rows, n + 1, series[s.metrics[n] := values], present[s.metrics[n] := mask])
  {
    assert (set k | 0 <= k < n + 1 :: s.metrics[k]) == (set k | 0 <= k < n :: s.metrics[k]) + {s.metrics[n]};
  }

  method AccountAnalyticsBundle(s: Source, rows: seq<AccountRow>) returns (b: Bundle)
    requires forall i, j :: 0 <= i < j < |s.metrics| ==> s.metrics[i] != s.metrics[j]
    ensures ShownTo(s, rows, |s.metrics|, b.series, b.present)
    ensures b.estimated == Estimated(s, rows, |s.metrics|)
    ensures b.maxCaptured == FoldedCapture(s, rows, |s.metrics|)
  {
    var values0, present0, captured, max0 := ReadAccountRows(rows);
    var values, present, estimated, maxCaptured := FoldPosts(s, rows, values0, present0, captured, max0);
    var seriesMap, presentMap := RenderAll(s, rows, values, present);
    b := Bundle(seriesMap, presentMap, estimated, maxCaptured);
  }

  method RenderAll(s: Source, rows: seq<AccountRow>, values: Table, present: map<string, set<int>>)
    returns (seriesMap: map<string, seq<real>>, presentMap: map<string, seq<bool>>)
    requires FoldedTo(s, rows, |s.metrics|, values, present)
    ensures ShownTo(s, rows, |s.metrics|, seriesMap, presentMap)
  {
    seriesMap, presentMap := map[], map[];
    for k := 0 to |s.metrics|
      invariant ShownTo(s, rows, k, seriesMap, presentMap)
    {
      var m := s.metrics[k];
      var series, mask := Render(s, rows, m, Cell(values, m), Days(present, m));
      ShownToNext(s, rows, k, seriesMap, presentMap, series, mask);
      seriesMap, presentMap := seriesMap[m := series], presentMap[m := mask];
    }
  }

  // ---------------------------------------------------------------------
  // What a reader of the bundle may rely on
  // ---------------------------------------------------------------------

  ghost predicate LastOfDay(rows: seq<AccountRow>, n: nat, i: nat, m: string, d: int)
    requires i < n <= |rows|
  {
    && rows[i].metric == m && rows[i].day == d
    && (forall j :: i < j < n ==> rows[j].metric != m || rows[j].day != d)
  }

  /** A metric's value of a day is its last row's for that day. */
  lemma {:induction false} StoredIsTheLast(rows: seq<AccountRow>, n: nat, m: string, d: int)
    requires n <= |rows|
    ensures Stored(rows, n, m, d).None? <==> forall i :: 0 <= i < n ==> rows[i].metric != m || rows[i].day != d
    ensures forall i :: 0 <= i < n && LastOfDay(rows, n, i, m, d) ==> Stored(rows, n, m, d) == Some(rows[i].value)
  {
    if n > 0 && !(rows[n - 1].metric == m && rows[n - 1].day == d) {
      StoredIsTheLast(rows, n - 1, m, d);
    }
  }

  /** What the bundle shows of a day: the posts' figure if they are used and credit it, else the account's. */
  lemma ShownCell(s: Source, rows: seq<AccountRow>, b: Bundle, k: nat, i: nat)
    requires ShownTo(s, rows, |s.metrics|, b.series, b.present) && k < |s.metrics| && i < 2 * s.days
    ensures var m, d := s.metrics[k], s.start + i;
            var posts, end := s.posts(m), s.start + 2 * s.days - 1;
            && m in b.series && m in b.present && |b.series[m]| == |b.present[m]| == 2 * s.days
            && (UsesPosts(s, rows, m) && Credited(posts, |posts|, d, s.start, end) ==>
                  b.present[m][i] && b.series[m][i] == DayTotal(posts, |posts|, d, s.start, end))
            && (!(UsesPosts(s, rows, m) && Credited(posts, |posts|, d, s.start, end)) ==>
                  && (forall j :: 0 <= j < |rows| && LastOfDay(rows, |rows|, j, m, d) ==>
                        b.series[m][i] == rows[j].value)
                  && ((forall j :: 0 <= j < |rows| ==> rows[j].metric != m || rows[j].day != d) ==>
                        b.series[m][i] == 0.0))
            && (b.present[m][i] <==>
                  || (exists j :: 0 <= j < |rows| && rows[j].metric == m && rows[j].day == d)
                  || (UsesPosts(s, rows, m) && Credited(posts, |posts|, d, s.start, end))
                  || (UsesPosts(s, rows, m)
                      && exists j :: 0 < j < |posts| && posts[j - 1].post == posts[j].post && posts[j].day == d))
  {
    hide UsesPosts, Credited, DayTotal, MeasuredDays;
    var m, d := s.metrics[k], s.start + i;
    assert Shows(s, rows, m, b.series[m], b.present[m]);
    StoredIsTheLast(rows, |rows|, m, d);
    MeasuredIff(s.posts(m), |s.posts(m)|, d);
  }

  /** The bundle names exactly the platform's metrics, and as estimated exactly those whose posts are used. */
  lemma ShownMetrics(s: Source, rows: seq<AccountRow>, b: Bundle, m: string)
    requires ShownTo(s, rows, |s.metrics|, b.series, b.present)
    requires b.estimated == Estimated(s, rows, |s.metrics|)
    ensures m in b.series <==> m in s.metrics
    ensures m in b.present <==> m in s.metrics
    ensures m in b.estimated <==> m in s.metrics && UsesPosts(s, rows, m)
  {
    hide UsesPosts, Shows;
    if m in s.metrics {
      var k :| 0 <= k < |s.metrics| && s.metrics[k] == m;
    }
  }

  /** A day not marked present has value zero. */
  lemma AbsentDaysAreZero(s: Source, rows: seq<AccountRow>, b: Bundle, k: nat, i: nat)
    requires ShownTo(s, rows, |s.metrics|, b.series, b.present) && k < |s.metrics| && i < 2 * s.days
    ensures |b.series[s.metrics[k]]| == |b.present[s.metrics[k]]| == 2 * s.days
    ensures !b.present[s.metrics[k]][i] ==> b.series[s.metrics[k]][i] == 0.0
  {
  }

  /** The moments whose newest the bundle reports: account rows, and the posts of every usable fallback metric. */
  ghost predicate Counts(s: Source, rows: seq<AccountRow>, t: int) {
    || (exists i :: 0 <= i < |rows| && rows[i].captured == t)
    || (exists m, i :: m in s.metrics && m in s.fallback && HasObserved(s, m)
                       && 0 <= i < |s.posts(m)| && s.posts(m)[i].captured == Some(t))
  }

  lemma {:induction false} AccountCaptureIsMaximum(rows: seq<AccountRow>, n: nat)
    requires n <= |rows|
    ensures forall i :: 0 <= i < n ==>
        AccountCapture(rows, n).Some? && rows[i].captured <= AccountCapture(rows, n).value
    ensures AccountCapture(rows, n).Some? ==>
        exists i :: 0 <= i < n && rows[i].captured == AccountCapture(rows, n).value
  {
    if n > 0 {
      AccountCaptureIsMaximum(rows, n - 1);
      assert rows[n - 1].captured == rows[n - 1].captured;
    }
  }

  lemma {:induction false} MetricCaptureIsBelow(rows: seq<AccountRow>, n: nat, m: string)
    requires n <= |rows|
    ensures MetricCapture(rows, n, m).Some? ==>
              AccountCapture(rows, n).Some? && MetricCapture(rows, n, m).value <= AccountCapture(rows, n).value
  {
    if n > 0 {
      MetricCaptureIsBelow(rows, n - 1, m);
    }
  }

  lemma {:induction false} FoldedCaptureGrows(s: Source, rows: seq<AccountRow>, n: nat)
    requires n <= |s.metrics|
    ensures AccountCapture(rows, |rows|).Some? ==>
              FoldedCapture(s, rows, n).Some? && FoldedCapture(s, rows, n).value >= AccountCapture(rows, |rows|).value
    ensures FoldedCapture(s, rows, n).Some? ==> Counts(s, rows, FoldedCapture(s, rows, n).value)
  {
    if n == 0 {
      AccountCaptureIsMaximum(rows, |rows|);
    } else {
      FoldedCaptureGrows(s, rows, n - 1);
      var m := s.metrics[n - 1];
      LatestCaptureIsMaximum(s.posts(m), |s.posts(m)|);
      if UsesPosts(s, rows, m) && PostCapture(s, m).Some? {
        var i :| 0 <= i < |s.posts(m)| && s.posts(m)[i].captured == PostCapture(s, m);
        assert Counts(s, rows, PostCapture(s, m).value);
      }
    }
  }

  /** A metric's posts never outrun the reported maximum, even where the account rows are used instead. */
  lemma {:induction false} FoldedCaptureCoversPosts(s: Source, rows: seq<AccountRow>, n: nat, k: nat)
    requires k < n <= |s.metrics|
    requires s.metrics[k] in s.fallback && HasObserved(s, s.metrics[k]) && PostCapture(s, s.metrics[k]).Some?
    ensures FoldedCapture(s, rows, n).Some? && PostCapture(s, s.metrics[k]).value <= FoldedCapture(s, rows, n).value
    decreases n
  {
    if k < n - 1 {
      FoldedCaptureCoversPosts(s, rows, n - 1, k);
    } else if !UsesPosts(s, rows, s.metrics[k]) {
      MetricCaptureIsBelow(rows, |rows|, s.metrics[k]);
      FoldedCaptureGrows(s, rows, n);
    }
  }

  /** The reported freshness is the newest capture of everything that counts. */
  lemma MaxCapturedIsNewest(s: Source, rows: seq<AccountRow>)
    ensures var c := FoldedCapture(s, rows, |s.metrics|);
            && (c.Some? ==> Counts(s, rows, c.value))
            && (forall t :: Counts(s, rows, t) ==> c.Some? && t <= c.value)
  {
    FoldedCaptureGrows(s, rows, |s.metrics|);
    AccountCaptureIsMaximum(rows, |rows|);
    var c := FoldedCapture(s, rows, |s.metrics|);
    forall t | Counts(s, rows, t) ensures c.Some? && t <= c.value {
      if !(exists i :: 0 <= i < |rows| && rows[i].captured == t) {
        var m, i :| m in s.metrics && m in s.fallback && HasObserved(s, m)
                    && 0 <= i < |s.posts(m)| && s.posts(m)[i].captured == Some(t);
        var k :| 0 <= k < |s.metrics| && s.metrics[k] == m;
        LatestCaptureIsMaximum(s.posts(m), |s.posts(m)|);
        FoldedCaptureCoversPosts(s, rows, |s.metrics|, k);
      }
    }
  }

  /** `after` is `before` with one more snapshot of metric m, at or below its post's high-water mark. */
  ghost predicate Dipped(before: Source, after: Source, m: string, a: seq<Row>, dip: Row, b: seq<Row>) {
    && after.start == before.start && after.days == before.days && after.fallback == before.fallback
    && before.posts(m) == a + b && after.posts(m) == a + [dip] + b
    && a != [] && dip.post == a[|a| - 1].post && dip.value <= Peak(a, |a| - 1)
  }

  /**
   * Unless it decides whether the posts are used at all, such a snapshot moves no value of the bundle;
   * where they are used it marks its own day present.
   */
  lemma DipKeepsValue(before: Source, after: Source, rows: seq<AccountRow>, m: string,
                      a: seq<Row>, dip: Row, b: seq<Row>, d: int)
    requires Dipped(before, after, m, a, dip, b)
    requires UsesPosts(after, rows, m) == UsesPosts(before, rows, m)
    ensures Value(after, rows, m, d) == Value(before, rows, m, d)
    ensures Present(after, rows, m, d) <==> Present(before, rows, m, d) || (UsesPosts(before, rows, m) && d == dip.day)
  {
    hide UsesPosts;
    DipChangesNothing(a, dip, b, |b|, d, before.start, before.End());
    DipCreditsNothing(a, dip, b, |b|, d, before.start, before.End());
    DipIsMeasured(a, dip, b);
  }

  // ---------------------------------------------------------------------
  // When the posts are used
  // ---------------------------------------------------------------------

  lemma {:induction false} MetricCaptureIsMaximum(rows: seq<AccountRow>, n: nat, m: string)
    requires n <= |rows|
    ensures MetricCapture(rows, n, m).None? <==> forall i :: 0 <= i < n ==> rows[i].metric != m
    ensures forall i :: 0 <= i < n && rows[i].metric == m ==> rows[i].captured <= MetricCapture(rows, n, m).value
    ensures MetricCapture(rows, n, m).Some? ==>
              exists i :: 0 <= i < n && rows[i].metric == m && rows[i].captured == MetricCapture(rows, n, m).value
  {
    if n > 0 {
      MetricCaptureIsMaximum(rows, n - 1, m);
      assert rows[n - 1].captured == rows[n - 1].captured;
    }
  }

  /** t is newer than every account row of the metric. */
  ghost predicate NewerThanRows(rows: seq<AccountRow>, m: string, t: int) {
    forall i :: 0 <= i < |rows| && rows[i].metric == m ==> rows[i].captured < t
  }

  /**
   * The posts supply a metric exactly when they can, something of it was observed, and the account has no
   * row for it or some post snapshot is newer than all of them.
   */
  lemma UsesPostsIff(s: Source, rows: seq<AccountRow>, m: string)
    ensures UsesPosts(s, rows, m) <==>
            && m in s.fallback && HasObserved(s, m)
            && (|| (forall i :: 0 <= i < |rows| ==> rows[i].metric != m)
                || (exists i :: 0 <= i < |s.posts(m)| && s.posts(m)[i].captured.Some?
                                && NewerThanRows(rows, m, s.posts(m)[i].captured.value)))
  {
    MetricCaptureIsMaximum(rows, |rows|, m);
    LatestCaptureIsMaximum(s.posts(m), |s.posts(m)|);
  }

  /** Something was observed: a later row of some post, or a day with a total. */
  lemma ObservedIff(s: Source, m: string)
    ensures var rows := s.posts(m);
            HasObserved(s, m) <==>
            || (exists i :: 0 < i < |rows| && rows[i - 1].post == rows[i].post)
            || CreditsSomeDay(rows, s.start, s.start + 2 * s.days - 1)
  {
    hide CreditsSomeDay, MeasuredDays;
    LaterRowsAreMeasured(s.posts(m));
  }

  lemma LaterRowsAreMeasured(rows: seq<Row>)
    ensures MeasuredDays(rows, |rows|) != {} <==> exists i :: 0 < i < |rows| && rows[i - 1].post == rows[i].post
  {
    var days := MeasuredDays(rows, |rows|);
    if i :| 0 < i < |rows| && rows[i - 1].post == rows[i].post {
      MeasuredIff(rows, |rows|, rows[i].day);
      assert rows[i].day in days;
    } else {
      assert days == {};
    }
  }
}
