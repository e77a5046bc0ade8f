// Daily totals rebuilt from cumulative per-post snapshots
// (_post_summed_series_for_metric in apps/analytics/services.py).
module PostSeries {
  import opened Wrappers

  /** One snapshot row; days are day numbers, values are lifetime totals at that day. */
  datatype Row = Row(post: nat, published: Option<int>, day: int, value: real, captured: Option<int>)

  predicate First(rows: seq<Row>, i: nat)
    requires i < |rows|
  {
    i == 0 || rows[i - 1].post != rows[i].post
  }

  /** High-water mark of row i's post over its rows up to and including i. */
  function Peak(rows: seq<Row>, i: nat): real
    requires i < |rows|
  {
    if First(rows, i) then rows[i].value
    else if rows[i].value > Peak(rows, i - 1) then rows[i].value
    else Peak(rows, i - 1)
  }

  predicate Predates(row: Row, start: int) {
    row.published.Some? && row.published.value <= row.day && row.published.value < start
  }

  /** A publish day inside the window and not after the snapshot. */
  predicate Spreads(row: Row, start: int) {
    row.published.Some? && start <= row.published.value <= row.day
  }

  /** Whether row i touches day d's total. */
  predicate Credits(rows: seq<Row>, i: nat, d: int, start: int, end: int)
    requires i < |rows|
  {
    if !First(rows, i) then d == rows[i].day && rows[i].value > Peak(rows, i - 1)
    else if Predates(rows[i], start) then false
    else if Spreads(rows[i], start) then rows[i].published.value <= d <= rows[i].day && start <= d <= end
    else d == rows[i].day && start <= d <= end
  }

  /** One day's share of a first value spread from the publish day to the snapshot day. */
  function Share(row: Row): real
    requires row.published.Some? && row.published.value <= row.day
  {
    row.value / (row.day - row.published.value + 1) as real
  }

  /** By how much. */
  function Credit(rows: seq<Row>, i: nat, d: int, start: int, end: int): real
    requires i < |rows|
  {
    if !Credits(rows, i, d, start, end) then 0.0
    else if !First(rows, i) then rows[i].value - Peak(rows, i - 1)
    else if Spreads(rows[i], start) then Share(rows[i])
    else rows[i].value
  }

  function DayTotal(rows: seq<Row>, n: nat, d: int, start: int, end: int): real
    requires n <= |rows|
  {
    if n == 0 then 0.0 else DayTotal(rows, n - 1, d, start, end) + Credit(rows, n - 1, d, start, end)
  }

  predicate Credited(rows: seq<Row>, n: nat, d: int, start: int, end: int)
    requires n <= |rows|
  {
    exists i :: 0 <= i < n && Credits(rows, i, d, start, end)
  }

  function LatestCapture(rows: seq<Row>, n: nat): Option<int>
    requires n <= |rows|
  {
    if n == 0 then None
    else
      var best := LatestCapture(rows, n - 1);
      var c := rows[n - 1].captured;
      if c.Some? && (best.None? || c.value > best.value) then c else best
  }

  lemma {:induction false} LatestCaptureIsMaximum(rows: seq<Row>, n: nat)
    requires n <= |rows|
    ensures LatestCapture(rows, n).None? <==> forall i :: 0 <= i < n ==> rows[i].captured.None?
    ensures LatestCapture(rows, n).Some? ==> exists i :: 0 <= i < n && rows[i].captured == LatestCapture(rows, n)
    ensures forall i :: 0 <= i < n && rows[i].captured.Some? ==> rows[i].captured.value <= LatestCapture(rows, n).value
  {
    if n > 0 {
      LatestCaptureIsMaximum(rows, n - 1);
      assert rows[n - 1].captured == rows[n - 1].captured;
    }
  }

  function Get(out: map<int, real>, d: int): real {
    if d in out then out[d] else 0.0
  }

  method SpreadFirst(out: map<int, real>, row: Row, start: int, end: int) returns (r: map<int, real>)
    requires row.published.Some? && start <= row.published.value <= row.day
    ensures forall d :: d in r <==> d in out || (row.published.value <= d <= row.day && start <= d <= end)
    ensures forall d :: Get(r, d) == Get(out, d) +
              if row.published.value <= d <= row.day && start <= d <= end
              then row.value / (row.day - row.published.value + 1) as real else 0.0
  {
    var pubDay := row.published.value;
    var perDay := Share(row);
    var d := pubDay;
    r := out;
    while d <= row.day
      invariant pubDay <= d <= row.day + 1
      invariant forall e :: e in r <==> e in out || (pubDay <= e < d && start <= e <= end)
      invariant forall e :: Get(r, e) == Get(out, e) + if pubDay <= e < d && start <= e <= end then perDay else 0.0
    {
      if start <= d <= end {
        r := r[d := Get(r, d) + perDay];
      }
      d := d + 1;
    }
  }

  /** The dictionary after n rows. */
  ghost predicate Totals(out: map<int, real>, rows: seq<Row>, n: nat, start: int, end: int)
    requires n <= |rows|
  {
    && (forall d :: d in out <==> Credited(rows, n, d, start, end))
    && (forall d :: Get(out, d) == DayTotal(rows, n, d, start, end))
  }

  /** `after` is `before` with row i credited. */
  ghost predicate Adds(before: map<int, real>, after: map<int, real>, rows: seq<Row>, i: nat, start: int, end: int)
    requires i < |rows|
  {
    && (forall d :: d in after <==> d in before || Credits(rows, i, d, start, end))
    && (forall d :: Get(after, d) == Get(before, d) + Credit(rows, i, d, start, end))
  }

  lemma AddsExtendsTotals(before: map<int, real>, after: map<int, real>, rows: seq<Row>, i: nat, start: int, end: int)
    requires i < |rows| && Totals(before, rows, i, start, end) && Adds(before, after, rows, i, start, end)
    ensures Totals(after, rows, i + 1, start, end)
  {
    forall d
      ensures Credited(rows, i + 1, d, start, end)
              <==> Credited(rows, i, d, start, end) || Credits(rows, i, d, start, end)
    {
    }
  }

  /** A day is measured when a later row of some post stands on it. */
  lemma MeasuredIff(rows: seq<Row>, n: nat, d: int)
    requires n <= |rows|
    ensures d in MeasuredDays(rows, n) <==>
            exists i :: 0 < i < n && rows[i - 1].post == rows[i].post && rows[i].day == d
  {
    if d in MeasuredDays(rows, n) {
      var i :| 0 <= i < n && !First(rows, i) && rows[i].day == d;
      assert 0 < i && rows[i - 1].post == rows[i].post;
    }
    if exists i :: 0 < i < n && rows[i - 1].post == rows[i].post && rows[i].day == d {
      var i :| 0 < i < n && rows[i - 1].post == rows[i].post && rows[i].day == d;
      assert !First(rows, i);
    }
  }

  lemma NothingCredited(rows: seq<Row>, start: int, end: int)
    ensures Totals(map[], rows, 0, start, end)
  {
  }

  /** The days of all but the posts' first rows, among the first n. */
  function MeasuredDays(rows: seq<Row>, n: nat): set<int>
    requires n <= |rows|
  {
    set i | 0 <= i < n && !First(rows, i) :: rows[i].day
  }

  method CreditFirst(out: map<int, real>, rows: seq<Row>, i: nat, start: int, end: int) returns (r: map<int, real>)
    requires i < |rows| && First(rows, i)
    ensures Adds(out, r, rows, i, start, end)
    ensures rows[i].published.Some? && rows[i].published.value <= rows[i].day && rows[i].published.value < start
            ==> r == out
  {
    var row := rows[i];
    r := out;
    if row.published.None? || row.published.value > row.day {
      if start <= row.day <= end {
        r := out[row.day := Get(out, row.day) + row.value];
      }
    } else if row.published.value < start {
    } else {
      r := SpreadFirst(out, row, start, end);
    }
  }

  /** The flat scan. */
  method PostSummedSeries(rows: seq<Row>, start: int, end: int)
    returns (out: map<int, real>, maxCaptured: Option<int>, observed: set<int>)
    ensures Totals(out, rows, |rows|, start, end)
    ensures observed == MeasuredDays(rows, |rows|) + out.Keys
    ensures maxCaptured == LatestCapture(rows, |rows|)
  {
    hide DayTotal, Share;
    out, maxCaptured, observed := map[], None, {};
    NothingCredited(rows, start, end);
    var currentPost: Option<nat>, prevValue, firstObs := None, 0.0, true;
    for i := 0 to |rows|
      invariant i == 0 <==> currentPost.None?
      invariant i > 0 ==> currentPost == Some(rows[i - 1].post) && prevValue == Peak(rows, i - 1) && !firstObs
      invariant Totals(out, rows, i, start, end)
      invariant observed == MeasuredDays(rows, i)
      invariant maxCaptured == LatestCapture(rows, i)
    {
      var row := rows[i];
      if currentPost != Some(row.post) {
        currentPost, firstObs, prevValue := Some(row.post), true, 0.0;
      }
      if row.captured.Some? && (maxCaptured.None? || row.captured.value > maxCaptured.value) {
        maxCaptured := row.captured;
      }
      ghost var before := out;
      assert firstObs <==> First(rows, i);
      if firstObs {
        firstObs := false;
        out := CreditFirst(out, rows, i, start, end);
        prevValue := row.value;
      } else {
        observed := observed + {row.day};
        var delta := row.value - prevValue;
        if delta > 0.0 {
          prevValue := row.value;
          out := out[row.day := Get(out, row.day) + delta];
        }
        assert Adds(before, out, rows, i, start, end);
      }
      AddsExtendsTotals(before, out, rows, i, start, end);
    }
    observed := observed + out.Keys;
  }

  // ---------------------------------------------------------------------
  // The high-water mark is a maximum
  // ---------------------------------------------------------------------

  ghost predicate SamePost(rows: seq<Row>) {
    forall i, j :: 0 <= i < |rows| && 0 <= j < |rows| ==> rows[i].post == rows[j].post
  }

  lemma {:induction false} PeakIsMaximum(rows: seq<Row>, n: nat)
    requires SamePost(rows) && n < |rows|
    ensures forall i :: 0 <= i <= n ==> rows[i].value <= Peak(rows, n)
    ensures exists i :: 0 <= i <= n && rows[i].value == Peak(rows, n)
  {
    if n == 0 {
      assert rows[0].value == Peak(rows, 0);
    } else {
      PeakIsMaximum(rows, n - 1);
      var i :| 0 <= i <= n - 1 && rows[i].value == Peak(rows, n - 1);
      assert !First(rows, n);
      var best := if rows[n].value > Peak(rows, n - 1) then n else i;
      assert rows[best].value == Peak(rows, n);
    }
  }

  // ---------------------------------------------------------------------
  // The flat scan is a sum over posts
  // ---------------------------------------------------------------------

  /** Rows before a change of post do not matter to the rows after it. */
  lemma {:induction false} CreditOfSuffix(a: seq<Row>, b: seq<Row>, i: nat, d: int, start: int, end: int)
    requires a != [] && b != [] ==> a[|a| - 1].post != b[0].post
    requires i < |b|
    ensures Peak(a + b, |a| + i) == Peak(b, i)
    ensures Credit(a + b, |a| + i, d, start, end) == Credit(b, i, d, start, end)
    ensures Credits(a + b, |a| + i, d, start, end) == Credits(b, i, d, start, end)
    decreases i
  {
    if i > 0 {
      CreditOfSuffix(a, b, i - 1, d, start, end);
    }
  }

  lemma {:induction false} CreditOfPrefix(a: seq<Row>, b: seq<Row>, i: nat, d: int, start: int, end: int)
    requires i < |a|
    ensures Peak(a + b, i) == Peak(a, i)
    ensures Credit(a + b, i, d, start, end) == Credit(a, i, d, start, end)
    ensures Credits(a + b, i, d, start, end) == Credits(a, i, d, start, end)
    decreases i
  {
    if i > 0 {
      CreditOfPrefix(a, b, i - 1, d, start, end);
    }
  }

  lemma {:induction false} TotalOfPrefix(a: seq<Row>, b: seq<Row>, n: nat, d: int, start: int, end: int)
    requires n <= |a|
    ensures DayTotal(a + b, n, d, start, end) == DayTotal(a, n, d, start, end)
    decreases n
  {
    if n > 0 {
      TotalOfPrefix(a, b, n - 1, d, start, end);
      CreditOfPrefix(a, b, n - 1, d, start, end);
    }
  }

  lemma {:induction false} TotalOfConcat(a: seq<Row>, b: seq<Row>, n: nat, d: int, start: int, end: int)
    requires a != [] && b != [] ==> a[|a| - 1].post != b[0].post
    requires n <= |b|
    ensures DayTotal(a + b, |a| + n, d, start, end) == DayTotal(a, |a|, d, start, end) + DayTotal(b, n, d, start, end)
    decreases n
  {
    if n == 0 {
      TotalOfPrefix(a, b, |a|, d, start, end);
    } else {
      TotalOfConcat(a, b, n - 1, d, start, end);
      CreditOfSuffix(a, b, n - 1, d, start, end);
    }
  }

  /** The rows cut where the post changes. */
  ghost predicate Grouped(groups: seq<seq<Row>>) {
    && (forall g :: 0 <= g < |groups| ==> groups[g] != [] && SamePost(groups[g]))
    && (forall g :: 0 < g < |groups| ==> groups[g - 1][0].post != groups[g][0].post)
  }

  function Flatten(groups: seq<seq<Row>>): seq<Row> {
    if groups == [] then [] else groups[0] + Flatten(groups[1..])
  }

  /** One post's own daily series. */
  function PostDay(post: seq<Row>, d: int, start: int, end: int): real {
    DayTotal(post, |post|, d, start, end)
  }

  function SumOverPosts(groups: seq<seq<Row>>, d: int, start: int, end: int): real {
    if groups == [] then 0.0 else PostDay(groups[0], d, start, end) + SumOverPosts(groups[1..], d, start, end)
  }

  /** Each day's total is the sum of the independent per-post series. */
  lemma {:induction false} FlatScanIsSumOverPosts(groups: seq<seq<Row>>, d: int, start: int, end: int)
    requires Grouped(groups)
    ensures var rows := Flatten(groups); DayTotal(rows, |rows|, d, start, end) == SumOverPosts(groups, d, start, end)
  {
    if groups != [] {
      var rest := groups[1..];
      assert Grouped(rest);
      FlatScanIsSumOverPosts(rest, d, start, end);
      if rest != [] {
        assert Flatten(rest)[0] == groups[1][0];
      }
      TotalOfConcat(groups[0], Flatten(rest), |Flatten(rest)|, d, start, end);
    }
  }

  lemma NewGroup(row: Row, rest: seq<seq<Row>>)
    requires Grouped(rest) && (rest == [] || rest[0][0].post != row.post)
    ensures Grouped([[row]] + rest) && Flatten([[row]] + rest) == [row] + Flatten(rest)
  {
    var groups := [[row]] + rest;
    assert groups[1..] == rest;
    assert forall g :: 0 < g < |groups| ==> groups[g] == rest[g - 1];
  }

  lemma SamePostOfCons(row: Row, post: seq<Row>)
    requires SamePost(post) && post != [] && post[0].post == row.post
    ensures SamePost([row] + post)
  {
    var longer := [row] + post;
    assert forall i :: 0 <= i < |post| ==> post[i].post == post[0].post;
    assert forall i :: 0 <= i < |longer| ==> longer[i].post == row.post;
  }

  lemma LongerGroup(row: Row, rest: seq<seq<Row>>)
    requires Grouped(rest) && rest != [] && rest[0][0].post == row.post
    ensures Grouped(rest[0 := [row] + rest[0]])
  {
    hide SamePost;
    SamePostOfCons(row, rest[0]);
  }

  lemma LongerGroupFlat(row: Row, rest: seq<seq<Row>>)
    requires rest != []
    ensures Flatten(rest[0 := [row] + rest[0]]) == [row] + Flatten(rest)
  {
    assert rest[0 := [row] + rest[0]][1..] == rest[1..];
    assert ([row] + rest[0]) + Flatten(rest[1..]) == [row] + (rest[0] + Flatten(rest[1..]));
  }

  /** Every row list is such a concatenation. */
  lemma {:induction false} EveryScanIsGrouped(rows: seq<Row>) returns (groups: seq<seq<Row>>)
    ensures Grouped(groups) && Flatten(groups) == rows
    decreases |rows|
  {
    if rows == [] {
      groups := [];
    } else {
      var rest: seq<seq<Row>> := EveryScanIsGrouped(rows[1..]);
      if rest == [] || rest[0][0].post != rows[0].post {
        NewGroup(rows[0], rest);
        groups := [[rows[0]]] + rest;
      } else {
        LongerGroup(rows[0], rest);
        LongerGroupFlat(rows[0], rest);
        groups := rest[0 := [rows[0]] + rest[0]];
      }
    }
  }

  // ---------------------------------------------------------------------
  // Conservation
  // ---------------------------------------------------------------------

  /** Everything the window's days receive from the first n rows. */
  function WindowSum(rows: seq<Row>, n: nat, from: int, start: int, end: int): real
    requires n <= |rows|
    decreases end + 1 - from
  {
    if from > end then 0.0 else DayTotal(rows, n, from, start, end) + WindowSum(rows, n, from + 1, start, end)
  }

  function CreditSum(rows: seq<Row>, i: nat, from: int, start: int, end: int): real
    requires i < |rows|
    decreases end + 1 - from
  {
    if from > end then 0.0 else Credit(rows, i, from, start, end) + CreditSum(rows, i, from + 1, start, end)
  }

  lemma {:induction false} WindowSumNext(rows: seq<Row>, n: nat, from: int, start: int, end: int)
    requires n < |rows|
    ensures WindowSum(rows, n + 1, from, start, end)
        == WindowSum(rows, n, from, start, end) + CreditSum(rows, n, from, start, end)
    decreases end + 1 - from
  {
    if from <= end {
      WindowSumNext(rows, n, from + 1, start, end);
    }
  }

  lemma {:induction false} EmptyWindowSum(rows: seq<Row>, from: int, start: int, end: int)
    ensures WindowSum(rows, 0, from, start, end) == 0.0
    decreases end + 1 - from
  {
    if from <= end {
      EmptyWindowSum(rows, from + 1, start, end);
    }
  }

  /** A credit on one day only. */
  lemma {:induction false} SingleDaySum(rows: seq<Row>, i: nat, from: int, start: int, end: int)
    requires i < |rows| && (!First(rows, i) || !Spreads(rows[i], start))
    ensures CreditSum(rows, i, from, start, end) ==
            if from <= rows[i].day <= end then Credit(rows, i, rows[i].day, start, end) else 0.0
    decreases end + 1 - from
  {
    if from <= end {
      SingleDaySum(rows, i, from + 1, start, end);
    }
  }

  /** The uniform spread loses nothing: n equal shares add up to the value. */
  lemma {:induction false} SpreadSum(rows: seq<Row>, i: nat, from: int, start: int, end: int)
    requires i < |rows| && First(rows, i) && Spreads(rows[i], start)
    requires rows[i].day <= end && rows[i].published.value <= from <= rows[i].day + 1
    ensures CreditSum(rows, i, from, start, end) ==
            (rows[i].day + 1 - from) as real * Share(rows[i])
    decreases end + 1 - from
  {
    if from <= rows[i].day {
      SpreadSum(rows, i, from + 1, start, end);
      assert (rows[i].day + 1 - from) as real == 1.0 + (rows[i].day - from) as real;
    } else {
      NothingAfterSpread(rows, i, from, start, end);
    }
  }

  lemma {:induction false} NothingAfterSpread(rows: seq<Row>, i: nat, from: int, start: int, end: int)
    requires i < |rows| && First(rows, i) && Spreads(rows[i], start) && from > rows[i].day
    ensures CreditSum(rows, i, from, start, end) == 0.0
    decreases end + 1 - from
  {
    if from <= end {
      NothingAfterSpread(rows, i, from + 1, start, end);
    }
  }

  lemma {:induction false} NothingBeforeSpread(rows: seq<Row>, i: nat, from: int, start: int, end: int)
    requires i < |rows| && First(rows, i) && Spreads(rows[i], start) && from <= rows[i].published.value
        && rows[i].day <= end
    ensures CreditSum(rows, i, from, start, end) == CreditSum(rows, i, rows[i].published.value, start, end)
    decreases end + 1 - from
  {
    if from < rows[i].published.value {
      NothingBeforeSpread(rows, i, from + 1, start, end);
    }
  }

  lemma SharesAddUp(v: real, n: int)
    requires n > 0
    ensures n as real * (v / n as real) == v
  {
  }

  /**
   * Which days a post's first row credits, and with how much: none if the post was published before the
   * window, equal shares from its publish day to the snapshot day if it was published inside, and the
   * snapshot day with everything if it has no publish day or a later one.
   */
  lemma FirstRowCredits(rows: seq<Row>, i: nat, d: int, start: int, end: int)
    requires i < |rows| && (i == 0 || rows[i - 1].post != rows[i].post)
    ensures var row := rows[i];
            && (row.published.Some? && row.published.value < start && row.published.value <= row.day ==>
                  !Credits(rows, i, d, start, end) && Credit(rows, i, d, start, end) == 0.0)
            && (row.published.Some? && start <= row.published.value <= row.day ==>
                  && (Credits(rows, i, d, start, end) <==> row.published.value <= d <= row.day && d <= end)
                  && (Credits(rows, i, d, start, end) ==>
                        Credit(rows, i, d, start, end) == row.value / (row.day - row.published.value + 1) as real))
            && (row.published.None? || row.published.value > row.day ==>
                  && (Credits(rows, i, d, start, end) <==> d == row.day && start <= d <= end)
                  && (Credits(rows, i, d, start, end) ==> Credit(rows, i, d, start, end) == row.value))
  {
  }

  /** A later row credits its own day with its rise over the mark, and nothing when it does not rise. */
  lemma LaterRowCredits(rows: seq<Row>, i: nat, d: int, start: int, end: int)
    requires 0 < i < |rows| && rows[i - 1].post == rows[i].post
    ensures Credits(rows, i, d, start, end) <==> d == rows[i].day && rows[i].value > Peak(rows, i - 1)
    ensures Credits(rows, i, d, start, end) ==>
              Credit(rows, i, d, start, end) == rows[i].value - Peak(rows, i - 1)
  {
  }

  /** What a row brings to the window as a whole. */
  lemma RowBringsItsRise(rows: seq<Row>, i: nat, start: int, end: int)
    requires i < |rows| && start <= rows[i].day <= end
    ensures CreditSum(rows, i, start, start, end) ==
            if i == 0 || rows[i - 1].post != rows[i].post then
              var row := rows[i];
              if row.published.Some? && row.published.value < start && row.published.value <= row.day then 0.0
              else row.value
            else Peak(rows, i) - Peak(rows, i - 1)
  {
    if First(rows, i) && Spreads(rows[i], start) {
      NothingBeforeSpread(rows, i, start, start, end);
      SpreadSum(rows, i, rows[i].published.value, start, end);
      SharesAddUp(rows[i].value, rows[i].day - rows[i].published.value + 1);
    } else {
      SingleDaySum(rows, i, start, start, end);
    }
  }

  /** What a post's rows before the window's activity are anchored at. */
  function Anchor(post: seq<Row>, start: int): real
    requires post != []
  {
    var first := post[0];
    if first.published.Some? && first.published.value < start && first.published.value <= first.day then first.value
    else 0.0
  }

  lemma {:induction false} PostConservation(post: seq<Row>, n: nat, start: int, end: int)
    requires SamePost(post) && 0 < n <= |post|
    requires forall i :: 0 <= i < |post| ==> start <= post[i].day <= end
    ensures WindowSum(post, n, start, start, end) == Peak(post, n - 1) - Anchor(post, start)
    decreases n
  {
    WindowSumNext(post, n - 1, start, start, end);
    RowBringsItsRise(post, n - 1, start, end);
    if n == 1 {
      EmptyWindowSum(post, start, start, end);
    } else {
      PostConservation(post, n - 1, start, end);
    }
  }

  function SumOfMaxima(groups: seq<seq<Row>>, start: int): real
    requires forall g :: 0 <= g < |groups| ==> groups[g] != []
  {
    if groups == [] then 0.0
    else Peak(groups[0], |groups[0]| - 1) - Anchor(groups[0], start) + SumOfMaxima(groups[1..], start)
  }

  lemma {:induction false} WindowSumOfConcat(a: seq<Row>, b: seq<Row>, from: int, start: int, end: int)
    requires a != [] && b != [] ==> a[|a| - 1].post != b[0].post
    ensures WindowSum(a + b, |a + b|, from, start, end)
        == WindowSum(a, |a|, from, start, end) + WindowSum(b, |b|, from, start, end)
    decreases end + 1 - from
  {
    if from <= end {
      TotalOfConcat(a, b, |b|, from, start, end);
      WindowSumOfConcat(a, b, from + 1, start, end);
    }
  }

  /**
   * The window's daily totals add up to the posts' maxima, less the first value
   * of each post published before the window.
   */
  lemma {:induction false} Conservation(groups: seq<seq<Row>>, start: int, end: int)
    requires Grouped(groups)
    requires forall g, i :: 0 <= g < |groups| && 0 <= i < |groups[g]| ==> start <= groups[g][i].day <= end
    ensures var rows := Flatten(groups);
            WindowSum(rows, |rows|, start, start, end) == SumOfMaxima(groups, start)
  {
    if groups == [] {
      EmptyWindowSum([], start, start, end);
    } else {
      var rest := groups[1..];
      assert Grouped(rest);
      assert forall g :: 0 <= g < |rest| ==> rest[g] == groups[g + 1];
      Conservation(rest, start, end);
      if rest != [] {
        assert Flatten(rest)[0] == groups[1][0];
      }
      WindowSumOfConcat(groups[0], Flatten(rest), start, start, end);
      PostConservation(groups[0], |groups[0]|, start, end);
    }
  }

  // ---------------------------------------------------------------------
  // Dips change nothing
  // ---------------------------------------------------------------------

  /** Inserting a snapshot at or below the post's high-water mark leaves every day's total as it was. */
  lemma {:induction false} DipChangesNothing(a: seq<Row>, dip: Row, b: seq<Row>, n: nat, d: int, start: int, end: int)
    requires a != [] && dip.post == a[|a| - 1].post && dip.value <= Peak(a, |a| - 1) && n <= |b|
    ensures DayTotal(a + [dip] + b, |a| + 1 + n, d, start, end) == DayTotal(a + b, |a| + n, d, start, end)
    ensures n > 0 ==> Peak(a + [dip] + b, |a| + n) == Peak(a + b, |a| + n - 1)
    ensures n == 0 ==> Peak(a + [dip] + b, |a|) == Peak(a + b, |a| - 1)
    decreases n
  {
    var with, without := a + [dip] + b, a + b;
    if n == 0 {
      assert with == a + ([dip] + b);
      TotalOfPrefix(a, [dip] + b, |a|, d, start, end);
      TotalOfPrefix(a, b, |a|, d, start, end);
      CreditOfPrefix(a, [dip] + b, |a| - 1, d, start, end);
      CreditOfPrefix(a, b, |a| - 1, d, start, end);
      assert with[|a|] == dip && with[|a| - 1] == a[|a| - 1];
    } else {
      DipChangesNothing(a, dip, b, n - 1, d, start, end);
      assert with[|a| + n] == without[|a| + n - 1] == b[n - 1];
      assert with[|a| + n - 1].post == without[|a| + n - 2].post;
    }
  }

  lemma CreditedNext(rows: seq<Row>, n: nat, d: int, start: int, end: int)
    requires n < |rows|
    ensures Credited(rows, n + 1, d, start, end)
            <==> Credited(rows, n, d, start, end) || Credits(rows, n, d, start, end)
  {
  }

  lemma {:induction false} CreditedOfPrefix(a: seq<Row>, b: seq<Row>, n: nat, d: int, start: int, end: int)
    requires n <= |a|
    ensures Credited(a + b, n, d, start, end) <==> Credited(a, n, d, start, end)
    decreases n
  {
    if n > 0 {
      hide Credits;
      CreditedOfPrefix(a, b, n - 1, d, start, end);
      CreditedNext(a, n - 1, d, start, end);
      CreditedNext(a + b, n - 1, d, start, end);
      CreditOfPrefix(a, b, n - 1, d, start, end);
    }
  }

  /** Nor does it change which days have a total at all. */
  lemma {:induction false} DipCreditsNothing(a: seq<Row>, dip: Row, b: seq<Row>, n: nat, d: int, start: int, end: int)
    requires a != [] && dip.post == a[|a| - 1].post && dip.value <= Peak(a, |a| - 1) && n <= |b|
    ensures Credited(a + [dip] + b, |a| + 1 + n, d, start, end) <==> Credited(a + b, |a| + n, d, start, end)
    decreases n
  {
    hide Credited;
    var with, without := a + [dip] + b, a + b;
    CreditedNext(with, |a| + n, d, start, end);
    if n == 0 {
      assert with == a + ([dip] + b);
      CreditedOfPrefix(a, [dip] + b, |a|, d, start, end);
      CreditedOfPrefix(a, b, |a|, d, start, end);
      CreditOfPrefix(a, [dip] + b, |a| - 1, d, start, end);
      assert with[|a|] == dip && with[|a| - 1] == a[|a| - 1];
    } else {
      DipCreditsNothing(a, dip, b, n - 1, d, start, end);
      CreditedNext(without, |a| + n - 1, d, start, end);
      DipChangesNothing(a, dip, b, n - 1, d, start, end);
      assert with[|a| + n] == without[|a| + n - 1] == b[n - 1];
      assert with[|a| + n - 1].post == without[|a| + n - 2].post;
    }
  }

  /** Where row i of a + b stands once the dip is in between. */
  function PlaceAfterDip(a: seq<Row>, i: nat): nat {
    if i < |a| then i else i + 1
  }

  lemma RowAfterDip(a: seq<Row>, dip: Row, b: seq<Row>, i: nat)
    requires a != [] && dip.post == a[|a| - 1].post && i < |a + b|
    ensures var j := PlaceAfterDip(a, i);
            j < |a + [dip] + b| && (a + [dip] + b)[j] == (a + b)[i] && First(a + [dip] + b, j) == First(a + b, i)
  {
  }

  /** It only adds its day to those that were measured. */
  lemma DipIsMeasured(a: seq<Row>, dip: Row, b: seq<Row>)
    requires a != [] && dip.post == a[|a| - 1].post
    ensures MeasuredDays(a + [dip] + b, |a| + 1 + |b|) == MeasuredDays(a + b, |a| + |b|) + {dip.day}
  {
    var with, without := a + [dip] + b, a + b;
    assert with[|a|] == dip && !First(with, |a|);
    hide First;
    forall d | d in MeasuredDays(without, |without|) ensures d in MeasuredDays(with, |with|) {
      var i :| 0 <= i < |without| && !First(without, i) && without[i].day == d;
      RowAfterDip(a, dip, b, i);
      assert with[PlaceAfterDip(a, i)].day == d && !First(with, PlaceAfterDip(a, i));
    }
    forall d | d in MeasuredDays(with, |with|) ensures d in MeasuredDays(without, |without|) + {dip.day} {
      var j :| 0 <= j < |with| && !First(with, j) && with[j].day == d;
      if j != |a| {
        var i := if j < |a| then j else j - 1;
        RowAfterDip(a, dip, b, i);
        assert without[i].day == d && !First(without, i);
      }
    }
  }
}
