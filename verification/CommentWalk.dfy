// The YouTube comment walk: paging, early exit, page caps, continuation and
// quota accounting (get_messages and _all_comment_replies in providers/youtube.py).
module CommentWalk {
  import opened Wrappers

  // Microseconds.
  const LOOKBACK: int := 7_200_000_000
  const MAX_PAGES: nat := 5
  const MAX_DEEP_PAGES: nat := 50

  datatype Reply = Reply(id: string, at: int)

  /**
   * `embedded` comes with the thread; the comments endpoint serves `firstReplies` and then `moreReplies`, page by
   * page.
   */
  datatype Thread = Thread(id: string, at: int, embedded: seq<Reply>, total: nat, firstReplies: seq<Reply>,
                           moreReplies: seq<seq<Reply>>)

  datatype Message = Message(id: string, parent: Option<string>, at: int)

  /** A channel's threads as the server pages them; the token of page i is i. */
  datatype Server = Server(hasChannel: bool, pages: seq<seq<Thread>>)

  function PageAt(s: Server, i: nat): seq<Thread> {
    if i < |s.pages| then s.pages[i] else []
  }

  function NextToken(s: Server, i: nat): Option<nat> {
    if i + 1 < |s.pages| then Some(i + 1) else None
  }

  /** How a call walks: its time floor for emission, and whether it is the deep sweep. */
  datatype Mode = Mode(since: Option<int>, deep: bool)
  {
    /** Truncated reply lists are completed on first imports and deep sweeps only. */
    predicate Full() { deep || since.None? }

    function Cutoff(): Option<int> {
      if since.None? || deep then None else Some(since.value - LOOKBACK)
    }

    function Cap(): nat {
      if deep then MAX_DEEP_PAGES else MAX_PAGES
    }

    predicate Emits(at: int) { since.None? || at >= since.value }
  }

  // ---------------------------------------------------------------------
  // What a walk emits and what it costs
  // ---------------------------------------------------------------------

  function Concat(pages: seq<seq<Reply>>): seq<Reply> {
    if pages == [] then [] else Concat(pages[..|pages| - 1]) + pages[|pages| - 1]
  }

  predicate Truncated(t: Thread) { t.total > |t.embedded| }

  function RepliesOf(t: Thread, m: Mode): seq<Reply> {
    if m.Full() && Truncated(t) then t.firstReplies + Concat(t.moreReplies) else t.embedded
  }

  function EmitReplies(rs: seq<Reply>, parent: string, m: Mode): seq<Message> {
    if rs == [] then []
    else
      var last := rs[|rs| - 1];
      EmitReplies(rs[..|rs| - 1], parent, m)
      + if m.Emits(last.at) then [Message(last.id, Some(parent), last.at)] else []
  }

  function EmitThread(t: Thread, m: Mode): seq<Message> {
    (if m.Emits(t.at) then [Message(t.id, None, t.at)] else []) + EmitReplies(RepliesOf(t, m), t.id, m)
  }

  function EmitThreads(ts: seq<Thread>, m: Mode): seq<Message> {
    if ts == [] then [] else EmitThreads(ts[..|ts| - 1], m) + EmitThread(ts[|ts| - 1], m)
  }

  /** Everything on pages from..end. */
  function EmitPages(s: Server, from: nat, end: nat, m: Mode): seq<Message>
    decreases end
  {
    if end <= from then [] else EmitPages(s, from, end - 1, m) + EmitThreads(PageAt(s, end - 1), m)
  }

  function ThreadCost(t: Thread, m: Mode): nat {
    if m.Full() && Truncated(t) then 1 + |t.moreReplies| else 0
  }

  function ThreadsCost(ts: seq<Thread>, m: Mode): nat {
    if ts == [] then 0 else ThreadsCost(ts[..|ts| - 1], m) + ThreadCost(ts[|ts| - 1], m)
  }

  /** Requests for pages from..end and for the replies completed on them. */
  function PagesCost(s: Server, from: nat, end: nat, m: Mode): nat
    decreases end
  {
    if end <= from then 0 else PagesCost(s, from, end - 1, m) + 1 + ThreadsCost(PageAt(s, end - 1), m)
  }

  function Oldest(ts: seq<Thread>): Option<int> {
    if ts == [] then None
    else
      var before, last := Oldest(ts[..|ts| - 1]), ts[|ts| - 1].at;
      if before.None? || last < before.value then Some(last) else before
  }

  /** The page before which the walk stopped, and the token it hands back when its cap stopped it. */
  datatype Stop = Stop(end: nat, next: Option<nat>)

  function Walk(s: Server, i: nat, done: nat, m: Mode): (stop: Stop)
    ensures i < stop.end
    decreases |s.pages| - i
  {
    if i + 1 >= |s.pages| then Stop(i + 1, None)
    else if m.Cutoff().Some? && Oldest(s.pages[i]).Some? && Oldest(s.pages[i]).value < m.Cutoff().value then
      Stop(i + 1, None)
    else if done + 1 >= m.Cap() then Stop(i + 1, Some(i + 1))
    else Walk(s, i + 1, done + 1, m)
  }

  /** Walk, one page further, in the order the loop tests its exits. */
  lemma WalkStep(s: Server, i: nat, done: nat, m: Mode)
    ensures var stop := Walk(s, i, done, m);
            if NextToken(s, i).None? then stop == Stop(i + 1, None)
            else if m.Cutoff().Some? && Oldest(PageAt(s, i)).Some? && Oldest(PageAt(s, i)).value < m.Cutoff().value then
              stop == Stop(i + 1, None)
            else if done + 1 >= m.Cap() then stop == Stop(i + 1, Some(i + 1))
            else stop == Walk(s, i + 1, done + 1, m)
  {
  }

  /** All requests of one call, channel lookup included. */
  function CallCost(s: Server, from: nat, m: Mode): nat {
    if s.hasChannel then 1 + PagesCost(s, from, Walk(s, from, 0, m).end, m) else 1
  }

  datatype Outcome = Raised | Batch(messages: seq<Message>, next: Option<nat>)

  // ---------------------------------------------------------------------
  // The provider
  // ---------------------------------------------------------------------

  class YouTubeProvider {
    const server: Server
    /** Which requests, counted over the provider's life, the server refuses. */
    const fails: nat -> bool
    var requests: nat
    var lastCallQuotaUnits: int

    constructor (server: Server, fails: nat -> bool)
      ensures this.server == server && this.fails == fails && requests == 0 && lastCallQuotaUnits == 0
    {
      this.server, this.fails := server, fails;
      requests, lastCallQuotaUnits := 0, 0;
    }

    /** Requests first..last all answered. */
    ghost predicate Answered(first: nat, last: nat) {
      forall k :: first <= k < last ==> !fails(k)
    }

    /** The latest request is the first to be refused since `first`. */
    ghost predicate JustRefused(first: nat)
      reads this
    {
      first < requests && fails(requests - 1) && Answered(first, requests - 1)
    }

    method Request() returns (ok: bool)
      modifies this`requests
      ensures requests == old(requests) + 1 && ok == !fails(old(requests))
    {
      ok := !fails(requests);
      requests := requests + 1;
    }

    method AllCommentReplies(t: Thread) returns (replies: Option<seq<Reply>>)
      modifies this
      ensures lastCallQuotaUnits - old(lastCallQuotaUnits) == requests - old(requests)
      ensures replies.Some? ==> requests == old(requests) + 1 + |t.moreReplies| && Answered(old(requests), requests)
      ensures replies.Some? ==> replies.value == t.firstReplies + Concat(t.moreReplies)
      ensures replies.None? ==> JustRefused(old(requests)) && requests <= old(requests) + 1 + |t.moreReplies|
    {
      lastCallQuotaUnits := lastCallQuotaUnits + 1;
      var ok := Request();
      if !ok {
        return None;
      }
      var all := t.firstReplies;
      for k := 0 to |t.moreReplies|
        invariant requests == old(requests) + 1 + k && Answered(old(requests), requests)
        invariant lastCallQuotaUnits - old(lastCallQuotaUnits) == requests - old(requests)
        invariant all == t.firstReplies + Concat(t.moreReplies[..k])
      {
        lastCallQuotaUnits := lastCallQuotaUnits + 1;
        ok := Request();
        if !ok {
          return None;
        }
        all := all + t.moreReplies[k];
        assert t.moreReplies[..k + 1][..k] == t.moreReplies[..k];
      }
      assert t.moreReplies[..|t.moreReplies|] == t.moreReplies;
      return Some(all);
    }

    method EmitAll(rs: seq<Reply>, parent: string, m: Mode) returns (messages: seq<Message>)
      ensures messages == EmitReplies(rs, parent, m)
    {
      messages := [];
      for k := 0 to |rs|
        invariant messages == EmitReplies(rs[..k], parent, m)
      {
        if m.Emits(rs[k].at) {
          messages := messages + [Message(rs[k].id, Some(parent), rs[k].at)];
        }
        assert rs[..k + 1][..k] == rs[..k];
      }
      assert rs[..|rs|] == rs;
    }

    /** One thread; None when completing its replies was refused. */
    method ReadThread(t: Thread, m: Mode) returns (messages: Option<seq<Message>>)
      modifies this
      ensures lastCallQuotaUnits - old(lastCallQuotaUnits) == requests - old(requests)
      ensures messages.Some? ==> requests == old(requests) + ThreadCost(t, m) && Answered(old(requests), requests)
      ensures messages.Some? ==> messages.value == EmitThread(t, m)
      ensures messages.None? ==> JustRefused(old(requests)) && requests <= old(requests) + ThreadCost(t, m)
    {
      var emitted := [];
      if m.Emits(t.at) {
        emitted := [Message(t.id, None, t.at)];
      }
      var replies := t.embedded;
      if m.Full() && Truncated(t) {
        var completed := AllCommentReplies(t);
        if completed.None? {
          return None;
        }
        replies := completed.value;
      }
      var more := EmitAll(replies, t.id, m);
      return Some(emitted + more);
    }

    /** One page of threads; None when completing some thread's replies was refused. */
    method ReadPage(ts: seq<Thread>, m: Mode) returns (messages: Option<seq<Message>>, oldest: Option<int>)
      modifies this
      ensures lastCallQuotaUnits - old(lastCallQuotaUnits) == requests - old(requests)
      ensures messages.Some? ==> requests == old(requests) + ThreadsCost(ts, m) && Answered(old(requests), requests)
      ensures messages.Some? ==> messages.value == EmitThreads(ts, m) && oldest == Oldest(ts)
      ensures messages.None? ==> JustRefused(old(requests)) && requests <= old(requests) + ThreadsCost(ts, m)
    {
      hide EmitThreads, ThreadsCost, Oldest;
      var emitted := [];
      oldest := None;
      NoThreads(ts, m);
      for k := 0 to |ts|
        invariant requests == old(requests) + ThreadsCost(ts[..k], m) && Answered(old(requests), requests)
        invariant lastCallQuotaUnits - old(lastCallQuotaUnits) == requests - old(requests)
        invariant emitted == EmitThreads(ts[..k], m) && oldest == Oldest(ts[..k])
      {
        OneMoreThread(ts, k, m);
        ThreadsCostGrows(ts, k + 1, m);
        if oldest.None? || ts[k].at < oldest.value {
          oldest := Some(ts[k].at);
        }
        var read := ReadThread(ts[k], m);
        if read.None? {
          return None, oldest;
        }
        emitted := emitted + read.value;
      }
      assert ts[..|ts|] == ts;
      return Some(emitted), oldest;
    }

    /** The page loop of one call, from page `from`. */
    method WalkPages(from: nat, m: Mode) returns (r: Outcome)
      modifies this
      ensures lastCallQuotaUnits - old(lastCallQuotaUnits) == requests - old(requests)
      ensures var stop := Walk(server, from, 0, m);
              if r.Raised? then
                JustRefused(old(requests)) && requests <= old(requests) + PagesCost(server, from, stop.end, m)
              else
                && Answered(old(requests), requests)
                && requests == old(requests) + PagesCost(server, from, stop.end, m)
                && r == Batch(EmitPages(server, from, stop.end, m), stop.next)
    {
      hide Walk, EmitThreads, ThreadsCost, Oldest, EmitPages, PagesCost;
      var i, pages, messages := from, 0, [];
      NoPages(server, from, m);
      ghost var stop := Walk(server, from, 0, m);
      while true
        invariant from <= i < stop.end && pages == i - from
        invariant Walk(server, i, pages, m) == stop
        invariant messages == EmitPages(server, from, i, m)
        invariant requests == old(requests) + PagesCost(server, from, i, m) && Answered(old(requests), requests)
        invariant lastCallQuotaUnits - old(lastCallQuotaUnits) == requests - old(requests)
        decreases stop.end - i
      {
        PagesCostGrows(server, from, i + 1, stop.end, m);
        OneMorePage(server, from, i, m);
        lastCallQuotaUnits := lastCallQuotaUnits + 1;
        var ok := Request();
        if !ok {
          return Raised;
        }
        pages := pages + 1;
        label read:
        var emitted, oldest := ReadPage(PageAt(server, i), m);
        if emitted.None? {
          assert Answered(old(requests), old@read(requests));
          return Raised;
        }
        messages := messages + emitted.value;
        WalkStep(server, i, pages - 1, m);
        var next := NextToken(server, i);
        if next.None? {
          return Batch(messages, None);
        }
        if m.Cutoff().Some? && oldest.Some? && oldest.value < m.Cutoff().value {
          return Batch(messages, None);
        }
        if pages >= m.Cap() {
          return Batch(messages, next);
        }
        i := next.value;
      }
    }

    /**
     * One call. Refused requests are counted like answered ones, so the tally
     * grows by the requests attempted on every exit; the call raises exactly when one
     * of the requests it needs is refused, and stops at that request.
     */
    method GetMessages(m: Mode, pageToken: Option<nat>) returns (r: Outcome)
      modifies this
      ensures lastCallQuotaUnits - old(lastCallQuotaUnits) == requests - old(requests)
      ensures var from := if pageToken.Some? then pageToken.value else 0;
              var cost := CallCost(server, from, m);
              if Answered(old(requests), old(requests) + cost) then
                && requests == old(requests) + cost
                && r == if server.hasChannel
                        then Batch(EmitPages(server, from, Walk(server, from, 0, m).end, m),
                                   Walk(server, from, 0, m).next)
                        else Batch([], None)
              else r.Raised? && JustRefused(old(requests))
      ensures var from := if pageToken.Some? then pageToken.value else 0;
              r.Raised? <==> exists k :: old(requests) <= k < old(requests) + CallCost(server, from, m) && fails(k)
      ensures old(requests) < requests && forall k :: old(requests) <= k < requests - 1 ==> !fails(k)
      ensures fails(requests - 1) <==> r.Raised?
    {
      hide Walk, EmitPages, PagesCost;
      lastCallQuotaUnits := lastCallQuotaUnits + 1;
      var ok := Request();
      if !ok {
        return Raised;
      }
      if !server.hasChannel {
        return Batch([], None);
      }
      r := WalkPages(if pageToken.Some? then pageToken.value else 0, m);
    }

    /** The backfill loop: deep calls, each resuming at the token the one before handed back. */
    method DeepSweep(since: Option<int>) returns (messages: Option<seq<Message>>)
      modifies this
      ensures lastCallQuotaUnits - old(lastCallQuotaUnits) == requests - old(requests)
      ensures messages.None? ==> JustRefused(old(requests))
      ensures messages.Some? ==> Answered(old(requests), requests)
      ensures old(requests) < requests && forall k :: old(requests) <= k < requests - 1 ==> !fails(k)
      ensures fails(requests - 1) <==> messages.None?
      ensures messages.Some? && server.hasChannel && server.pages != [] ==>
                messages.value == EmitPages(server, 0, |server.pages|, Mode(since, true))
    {
      hide Walk, PagesCost, CallCost, EmitPages;
      var m := Mode(since, true);
      NoPages(server, 0, m);
      var collected, token := [], None;
      var from := 0;
      while true
        invariant from == if token.Some? then token.value else 0
        invariant server.hasChannel ==> collected == EmitPages(server, 0, from, m)
        invariant token.Some? ==> server.hasChannel && from < |server.pages|
        invariant old(requests) <= requests && Answered(old(requests), requests)
        invariant lastCallQuotaUnits - old(lastCallQuotaUnits) == requests - old(requests)
        decreases |server.pages| - from
      {
        var r := GetMessages(m, token);
        if r.Raised? {
          return None;
        }
        collected := collected + r.messages;
        WalkGoesForward(server, from, 0, m);
        EmitPagesJoin(server, 0, from, Walk(server, from, 0, m).end, m);
        DeepWalkStops(server, from, 0, m);
        if r.next.None? {
          return Some(collected);
        }
        token := r.next;
        from := token.value;
      }
    }
  }

  // ---------------------------------------------------------------------
  // Facts about walks
  // ---------------------------------------------------------------------

  lemma NoThreads(ts: seq<Thread>, m: Mode)
    ensures EmitThreads(ts[..0], m) == [] && ThreadsCost(ts[..0], m) == 0 && Oldest(ts[..0]) == None
  {
  }

  lemma OneMoreThread(ts: seq<Thread>, k: nat, m: Mode)
    requires k < |ts|
    ensures EmitThreads(ts[..k + 1], m) == EmitThreads(ts[..k], m) + EmitThread(ts[k], m)
    ensures ThreadsCost(ts[..k + 1], m) == ThreadsCost(ts[..k], m) + ThreadCost(ts[k], m)
    ensures var before := Oldest(ts[..k]);
            Oldest(ts[..k + 1]) == if before.None? || ts[k].at < before.value then Some(ts[k].at) else before
  {
    assert ts[..k + 1][..k] == ts[..k];
  }

  lemma NoPages(s: Server, from: nat, m: Mode)
    ensures EmitPages(s, from, from, m) == [] && PagesCost(s, from, from, m) == 0
  {
  }

  lemma OneMorePage(s: Server, from: nat, i: nat, m: Mode)
    requires from <= i
    ensures EmitPages(s, from, i + 1, m) == EmitPages(s, from, i, m) + EmitThreads(PageAt(s, i), m)
    ensures PagesCost(s, from, i + 1, m) == PagesCost(s, from, i, m) + 1 + ThreadsCost(PageAt(s, i), m)
  {
  }

  lemma {:induction false} ThreadsCostGrows(ts: seq<Thread>, k: nat, m: Mode)
    requires k <= |ts|
    ensures ThreadsCost(ts[..k], m) <= ThreadsCost(ts, m)
    decreases |ts| - k
  {
    if k < |ts| {
      assert ts[..k + 1][..k] == ts[..k];
      ThreadsCostGrows(ts, k + 1, m);
    } else {
      assert ts[..k] == ts;
    }
  }

  lemma {:induction false} PagesCostGrows(s: Server, from: nat, mid: nat, end: nat, m: Mode)
    requires mid <= end
    ensures PagesCost(s, from, mid, m) <= PagesCost(s, from, end, m)
    decreases end
  {
    if mid < end {
      PagesCostGrows(s, from, mid, end - 1, m);
    }
  }

  /** A walk reads at least one page and at most what its cap has left. */
  lemma {:induction false} WalkGoesForward(s: Server, i: nat, done: nat, m: Mode)
    ensures var stop := Walk(s, i, done, m);
            && (stop.end <= |s.pages| || stop.end == i + 1)
            && (done < m.Cap() ==> stop.end - i <= m.Cap() - done)
            && (stop.next.Some? ==> stop.next.value == stop.end < |s.pages|)
    decreases |s.pages| - i
  {
    if i + 1 < |s.pages| && done + 1 < m.Cap() {
      WalkGoesForward(s, i + 1, done + 1, m);
    }
  }

  lemma ConcatAssociates(a: seq<Message>, b: seq<Message>, c: seq<Message>)
    ensures (a + b) + c == a + (b + c)
  {
  }

  lemma {:induction false} EmitPagesJoin(s: Server, from: nat, mid: nat, end: nat, m: Mode)
    requires from <= mid <= end
    ensures EmitPages(s, from, end, m) == EmitPages(s, from, mid, m) + EmitPages(s, mid, end, m)
    decreases end
  {
    hide EmitThreads;
    if mid < end {
      EmitPagesJoin(s, from, mid, end - 1, m);
      var last := EmitThreads(PageAt(s, end - 1), m);
      assert EmitPages(s, mid, end, m) == EmitPages(s, mid, end - 1, m) + last;
      assert EmitPages(s, from, end, m) == EmitPages(s, from, end - 1, m) + last;
      ConcatAssociates(EmitPages(s, from, mid, m), EmitPages(s, mid, end - 1, m), last);
    } else {
      assert EmitPages(s, mid, end, m) == [];
    }
  }

  /** A deep walk without a continuation has read the last page. */
  lemma {:induction false} DeepWalkStops(s: Server, i: nat, done: nat, m: Mode)
    requires m.deep
    ensures Walk(s, i, done, m).next.None? ==> Walk(s, i, done, m).end >= |s.pages|
    ensures Walk(s, i, done, m).next.None? && i < |s.pages| ==> Walk(s, i, done, m).end == |s.pages|
    decreases |s.pages| - i
  {
    if i + 1 < |s.pages| && done + 1 < m.Cap() {
      DeepWalkStops(s, i + 1, done + 1, m);
    }
  }

  /** Messages of capped deep calls, fed back their own tokens, starting at page `from`. */
  function ResumedSweep(s: Server, from: nat, m: Mode): seq<Message>
    requires m.deep
    decreases |s.pages| - from
  {
    var stop := Walk(s, from, 0, m);
    WalkGoesForward(s, from, 0, m);
    EmitPages(s, from, stop.end, m) + if stop.next.Some? then ResumedSweep(s, stop.next.value, m) else []
  }

  /** Resuming loses and repeats nothing: the parts are the uncapped walk. */
  lemma {:induction false} ResumedSweepIsWhole(s: Server, from: nat, m: Mode)
    requires m.deep && from < |s.pages|
    ensures ResumedSweep(s, from, m) == EmitPages(s, from, |s.pages|, m)
    decreases |s.pages| - from
  {
    var stop := Walk(s, from, 0, m);
    WalkGoesForward(s, from, 0, m);
    DeepWalkStops(s, from, 0, m);
    if stop.next.Some? {
      ResumedSweepIsWhole(s, stop.next.value, m);
      EmitPagesJoin(s, from, stop.end, |s.pages|, m);
    }
  }

  /** A poll with a since spends six units at most; a deep call reads fifty pages at most. */
  lemma CallIsBounded(s: Server, from: nat, m: Mode)
    ensures m.since.Some? && !m.deep ==> CallCost(s, from, m) <= 6
    ensures !s.hasChannel ==> CallCost(s, from, m) == 1
    ensures s.hasChannel ==> CallCost(s, from, m) == 1 + PagesCost(s, from, Walk(s, from, 0, m).end, m)
    ensures Walk(s, from, 0, m).end - from <= if m.deep then 50 else 5
  {
    WalkGoesForward(s, from, 0, m);
    if m.since.Some? && !m.deep {
      RoutinePagesCost(s, from, Walk(s, from, 0, m).end, m);
    }
  }

  /** Some thread of the page is older than t. */
  ghost predicate ReachesBack(ts: seq<Thread>, t: int) {
    exists j :: 0 <= j < |ts| && ts[j].at < t
  }

  lemma {:induction false} OldestReachesBack(ts: seq<Thread>, t: int)
    ensures ReachesBack(ts, t) <==> Oldest(ts).Some? && Oldest(ts).value < t
  {
    if ts != [] {
      var before := ts[..|ts| - 1];
      OldestReachesBack(before, t);
      assert forall j :: 0 <= j < |before| ==> before[j] == ts[j];
      if ReachesBack(ts, t) {
        var j :| 0 <= j < |ts| && ts[j].at < t;
        assert j < |before| ==> before[j].at < t;
      }
    }
  }

  /**
   * Where a walk that has read `done` pages stops: at the first page that is the server's last, or on a
   * routine poll holds a thread more than two hours older than since, or is the last the cap allows. It hands
   * back a token exactly when the cap alone stopped it.
   */
  lemma {:induction false} WalkStopsWhere(s: Server, i: nat, done: nat, m: Mode)
    requires done < if m.deep then 50 else 5
    ensures var stop := Walk(s, i, done, m);
            var cap := if m.deep then 50 else 5;
            var last := PageAt(s, stop.end - 1);
            var routine := m.since.Some? && !m.deep;
            && (forall k :: i <= k < stop.end - 1 ==>
                  && k + 1 < |s.pages| && k + 1 - i + done < cap
                  && !(routine && ReachesBack(s.pages[k], m.since.value - 7_200_000_000)))
            && (stop.end < |s.pages| ==>
                  stop.end - i + done == cap || (routine && ReachesBack(last, m.since.value - 7_200_000_000)))
            && (stop.next.Some? <==>
                  stop.end < |s.pages| && !(routine && ReachesBack(last, m.since.value - 7_200_000_000)))
            && (stop.next.Some? ==> stop.next.value == stop.end)
    decreases |s.pages| - i
  {
    if i + 1 < |s.pages| {
      if m.since.Some? {
        OldestReachesBack(s.pages[i], m.since.value - 7_200_000_000);
      }
      if done + 1 < m.Cap() {
        WalkStopsWhere(s, i + 1, done + 1, m);
      }
    }
  }

  lemma {:induction false} RoutinePagesCost(s: Server, from: nat, end: nat, m: Mode)
    requires !m.Full()
    ensures PagesCost(s, from, end, m) == if end <= from then 0 else end - from
    decreases end
  {
    if end > from {
      RoutinePagesCost(s, from, end - 1, m);
      RoutineThreadsCost(PageAt(s, end - 1), m);
    }
  }

  lemma {:induction false} RoutineThreadsCost(ts: seq<Thread>, m: Mode)
    requires !m.Full()
    ensures ThreadsCost(ts, m) == 0
  {
    if ts != [] {
      RoutineThreadsCost(ts[..|ts| - 1], m);
    }
  }

  // ---------------------------------------------------------------------
  // Replies beyond the embedded ones
  // ---------------------------------------------------------------------

  lemma {:induction false} ConcatHasAll(pages: seq<seq<Reply>>, r: Reply)
    ensures r in Concat(pages) <==> exists i :: 0 <= i < |pages| && r in pages[i]
    decreases |pages|
  {
    if pages != [] {
      var init := pages[..|pages| - 1];
      ConcatHasAll(init, r);
      assert pages == init + [pages[|pages| - 1]];
      assert forall i :: 0 <= i < |init| ==> init[i] == pages[i];
    }
  }

  lemma {:induction false} EmittedReplies(rs: seq<Reply>, parent: string, m: Mode, x: Message)
    ensures x in EmitReplies(rs, parent, m) <==>
            exists r :: r in rs && (m.since.None? || r.at >= m.since.value) && x == Message(r.id, Some(parent), r.at)
    decreases |rs|
  {
    if rs != [] {
      var init, last := rs[..|rs| - 1], rs[|rs| - 1];
      EmittedReplies(init, parent, m, x);
      assert rs == init + [last];
      assert forall r :: r in rs <==> r in init || r == last;
    }
  }

  /** The messages of one thread: the thread itself and `considered` replies, each by the time test of its own. */
  ghost predicate EmitsThreadWith(t: Thread, m: Mode, considered: seq<Reply>) {
    forall x :: x in EmitThread(t, m) <==>
      || (x == Message(t.id, None, t.at) && (m.since.None? || t.at >= m.since.value))
      || (exists r :: r in considered && (m.since.None? || r.at >= m.since.value)
                       && x == Message(r.id, Some(t.id), r.at))
  }

  /**
   * A first import or a deep sweep completes a thread whose reply list was cut short: every reply of every
   * page of it at or after since is emitted and no other, for one request and one more per further page.
   */
  lemma CutShortThreadIsCompleted(t: Thread, m: Mode)
    requires (m.deep || m.since.None?) && t.total > |t.embedded|
    ensures EmitsThreadWith(t, m, t.firstReplies + Concat(t.moreReplies))
    ensures ThreadCost(t, m) == 1 + |t.moreReplies|
  {
    ThreadEmits(t, m, t.firstReplies + Concat(t.moreReplies));
  }

  /** A whole reply list, or any on a routine poll, is taken as it came, for nothing. */
  lemma OtherThreadsAreTakenAsTheyCome(t: Thread, m: Mode)
    requires (!m.deep && m.since.Some?) || t.total <= |t.embedded|
    ensures EmitsThreadWith(t, m, t.embedded)
    ensures ThreadCost(t, m) == 0
  {
    ThreadEmits(t, m, t.embedded);
  }

  lemma ThreadEmits(t: Thread, m: Mode, considered: seq<Reply>)
    requires RepliesOf(t, m) == considered
    ensures EmitsThreadWith(t, m, considered)
  {
    forall x
      ensures x in EmitThread(t, m) <==>
              || (x == Message(t.id, None, t.at) && (m.since.None? || t.at >= m.since.value))
              || (exists r :: r in considered && (m.since.None? || r.at >= m.since.value)
                       && x == Message(r.id, Some(t.id), r.at))
    {
      EmittedReplies(considered, t.id, m, x);
    }
  }

  /** A page emits what its threads do. */
  lemma {:induction false} ThreadsEmit(ts: seq<Thread>, m: Mode, x: Message)
    ensures x in EmitThreads(ts, m) <==> exists j :: 0 <= j < |ts| && x in EmitThread(ts[j], m)
    decreases |ts|
  {
    hide EmitThread;
    if ts != [] {
      var init := ts[..|ts| - 1];
      ThreadsEmit(init, m, x);
      assert forall j :: 0 <= j < |init| ==> init[j] == ts[j];
    }
  }

  /** What a call emits is what the pages it walked emit. */
  lemma {:induction false} PagesEmit(s: Server, from: nat, end: nat, m: Mode, x: Message)
    ensures x in EmitPages(s, from, end, m) <==>
            exists p :: from <= p < end && x in EmitThreads(PageAt(s, p), m)
    decreases end
  {
    hide EmitThreads, PageAt;
    if end > from {
      PagesEmit(s, from, end - 1, m, x);
    }
  }

  // ---------------------------------------------------------------------
  // The early exit loses nothing
  // ---------------------------------------------------------------------

  /** order=time: newest first by top-level comment, across pages. */
  ghost predicate NewestFirst(s: Server) {
    forall p, i, q, j ::
      0 <= p <= q < |s.pages| && 0 <= i < |s.pages[p]| && 0 <= j < |s.pages[q]| && (p < q || i <= j) ==>
        s.pages[p][i].at >= s.pages[q][j].at
  }

  lemma {:induction false} OldestIsOnPage(ts: seq<Thread>)
    ensures Oldest(ts).Some? ==> exists i :: 0 <= i < |ts| && ts[i].at == Oldest(ts).value
  {
    if ts != [] {
      OldestIsOnPage(ts[..|ts| - 1]);
      assert ts[|ts| - 1].at == ts[|ts| - 1].at;
    }
  }

  ghost predicate ReachesBelow(ts: seq<Thread>, cutoff: int) {
    exists k :: 0 <= k < |ts| && ts[k].at < cutoff
  }

  /** A walk that ends without a continuation before the last page has just seen something below its cutoff. */
  lemma {:induction false} EarlyStopSawTheCutoff(s: Server, i: nat, done: nat, m: Mode)
    requires i < |s.pages| && Walk(s, i, done, m).next.None? && Walk(s, i, done, m).end < |s.pages|
    ensures m.Cutoff().Some?
    ensures ReachesBelow(PageAt(s, Walk(s, i, done, m).end - 1), m.Cutoff().value)
    decreases |s.pages| - i
  {
    OldestIsOnPage(s.pages[i]);
    if !(m.Cutoff().Some? && Oldest(s.pages[i]).Some? && Oldest(s.pages[i]).value < m.Cutoff().value) {
      EarlyStopSawTheCutoff(s, i + 1, done + 1, m);
    } else {
      var k :| 0 <= k < |s.pages[i]| && s.pages[i][k].at == Oldest(s.pages[i]).value;
      WalkStep(s, i, done, m);
      assert PageAt(s, i)[k].at < m.Cutoff().value;
    }
  }

  lemma {:induction false} ReplyIsEmitted(rs: seq<Reply>, parent: string, m: Mode, k: nat)
    requires k < |rs| && m.Emits(rs[k].at)
    ensures Message(rs[k].id, Some(parent), rs[k].at) in EmitReplies(rs, parent, m)
    decreases |rs|
  {
    if k < |rs| - 1 {
      ReplyIsEmitted(rs[..|rs| - 1], parent, m, k);
    }
  }

  lemma {:induction false} ThreadIsEmitted(ts: seq<Thread>, m: Mode, j: nat)
    requires j < |ts|
    ensures forall x :: x in EmitThread(ts[j], m) ==> x in EmitThreads(ts, m)
    decreases |ts|
  {
    if j < |ts| - 1 {
      ThreadIsEmitted(ts[..|ts| - 1], m, j);
    }
  }

  lemma {:induction false} PageIsEmitted(s: Server, from: nat, end: nat, m: Mode, p: nat)
    requires from <= p < end
    ensures forall x :: x in EmitThreads(PageAt(s, p), m) ==> x in EmitPages(s, from, end, m)
    decreases end
  {
    hide EmitThreads;
    OneMorePage(s, from, end - 1, m);
    if p < end - 1 {
      PageIsEmitted(s, from, end - 1, m, p);
    }
  }

  /**
   * A routine poll from the first page that hands back no continuation emits every
   * thread at or after `since`, and every embedded reply at or after `since` on a
   * thread no older than two hours before it.
   */
  lemma EarlyExitLosesNothing(s: Server, m: Mode, p: nat, j: nat)
    requires NewestFirst(s) && m.since.Some? && !m.deep
    requires Walk(s, 0, 0, m).next.None?
    requires p < |s.pages| && j < |s.pages[p]| && s.pages[p][j].at >= m.since.value - 7_200_000_000
    ensures var t := s.pages[p][j];
            var emitted := EmitPages(s, 0, Walk(s, 0, 0, m).end, m);
            && (t.at >= m.since.value ==> Message(t.id, None, t.at) in emitted)
            && (forall k :: 0 <= k < |t.embedded| && t.embedded[k].at >= m.since.value ==>
                  Message(t.embedded[k].id, Some(t.id), t.embedded[k].at) in emitted)
  {
    var t := s.pages[p][j];
    var end := Walk(s, 0, 0, m).end;
    if p >= end {
      EarlyStopSawTheCutoff(s, 0, 0, m);
      assert false;
    }
    PageIsEmitted(s, 0, end, m, p);
    ThreadIsEmitted(PageAt(s, p), m, j);
    forall k | 0 <= k < |t.embedded| && t.embedded[k].at >= m.since.value
      ensures Message(t.embedded[k].id, Some(t.id), t.embedded[k].at) in EmitThread(t, m)
    {
      ReplyIsEmitted(t.embedded, t.id, m, k);
    }
  }

  /** The lookback is the exact width: a fresh reply one page below it is missed by the poll. */
  lemma ReplyBelowLookbackIsMissed(late: Reply, oldTime: int, since: int)
    requires late.at >= since && oldTime < since - 7_200_000_000
    ensures var t := Thread("t", oldTime, [], 0, [], []);
            var hidden := Thread("h", oldTime, [late], 1, [], []);
            var s := Server(true, [[t], [hidden]]);
            var m := Mode(Some(since), false);
            && NewestFirst(s) && Walk(s, 0, 0, m) == Stop(1, None)
            && EmitPages(s, 0, 1, m) == []
            && Message(late.id, Some("h"), late.at) in EmitPages(s, 0, 2, Mode(Some(since), true))
  {
    var t := Thread("t", oldTime, [], 0, [], []);
    var hidden := Thread("h", oldTime, [late], 1, [], []);
    var s := Server(true, [[t], [hidden]]);
    var m := Mode(Some(since), false);
    assert Oldest([t]) == Some(oldTime);
    assert EmitThreads([t], m) == EmitThreads([], m) + EmitThread(t, m);
    assert EmitPages(s, 0, 1, m) == EmitPages(s, 0, 0, m) + EmitThreads(PageAt(s, 0), m);
    var deep := Mode(Some(since), true);
    ReplyIsEmitted([late], "h", deep, 0);
    ThreadIsEmitted([hidden], deep, 0);
    PageIsEmitted(s, 0, 2, deep, 1);
  }
}
