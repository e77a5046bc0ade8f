// The time-budgeted cursor walk over /me/accounts (fetch_me_accounts in
// providers/meta_accounts.py). The server is arbitrary: what it answers, and
// how long it takes, may depend on everything it was asked before.
module MetaAccounts {
  import opened Wrappers

  const MAX_PAGES: nat := 100
  const MAX_SECONDS: real := 20.0
  const MIN_REQUEST_SECONDS: real := 1.0
  const REQUEST_TIMEOUT: real := 30.0

  type Entry = string

  /** A cursor; empty when a page carries none, and for the first request. */
  type Cursor = string

  datatype Body =
    | Raises
    | ErrorBody(message: string)
    | Page(entries: seq<Entry>, next: bool, after: Cursor)

  datatype Reply = Reply(took: real, body: Body)

  datatype Request = Request(after: Cursor, timeout: real)

  /** The reply, given the requests sent before and the one sent now. */
  type Server = (seq<Request>, Request) -> Reply

  datatype Error = RequestFailed | APIError(message: string)

  datatype Reason = TimeBudget | PageCap

  datatype End = Finished | Truncated(reason: Reason) | Failed(error: Error)

  function Max(a: real, b: real): real { if a < b then b else a }

  function Min(a: real, b: real): real { if a < b then a else b }

  function Timeout(remaining: real): real {
    Min(REQUEST_TIMEOUT, Max(remaining, MIN_REQUEST_SECONDS))
  }

  /** Whether a page leads on, to a cursor not followed yet. */
  predicate LeadsOn(body: Body, seen: set<Cursor>) {
    body.Page? && body.next && body.after != "" && body.after !in seen
  }

  /** What a walk leaves behind: its requests, the entries of its pages, how it ended and how long it took. */
  datatype Walked = Walked(requests: seq<Request>, entries: seq<Entry>, end: End, elapsed: real)

  function Prefixed(q: Request, entries: seq<Entry>, w: Walked): Walked {
    Walked([q] + w.requests, entries + w.entries, w.end, w.elapsed)
  }

  /** The walk from request number k on. */
  function Walk(server: Server, sent: seq<Request>, budget: real, k: nat, after: Cursor, seen: set<Cursor>,
                elapsed: real): Walked
    requires k <= MAX_PAGES
    decreases MAX_PAGES - k
  {
    if k == MAX_PAGES then Walked([], [], Truncated(PageCap), elapsed)
    else if k > 0 && budget - elapsed <= 0.0 then Walked([], [], Truncated(TimeBudget), elapsed)
    else
      var q := Request(after, Timeout(budget - elapsed));
      var reply := server(sent, q);
      match reply.body
      case Raises => Walked([q], [], Failed(RequestFailed), elapsed + reply.took)
      case ErrorBody(m) => Walked([q], [], Failed(APIError(m)), elapsed + reply.took)
      case Page(entries, _, next) =>
        if !LeadsOn(reply.body, seen) then Walked([q], entries, Finished, elapsed + reply.took)
        else Prefixed(q, entries, Walk(server, sent + [q], budget, k + 1, next, seen + {next}, elapsed + reply.took))
  }

  function WalkFrom(server: Server, sent: seq<Request>, budget: real): Walked {
    Walk(server, sent, budget, 0, "", {}, 0.0)
  }

  lemma WalkStops(server: Server, sent: seq<Request>, budget: real, k: nat, after: Cursor, seen: set<Cursor>,
                  elapsed: real)
    requires k <= MAX_PAGES
    requires k == MAX_PAGES || (k > 0 && budget - elapsed <= 0.0)
    ensures Walk(server, sent, budget, k, after, seen, elapsed)
            == Walked([], [], Truncated(if k == MAX_PAGES then PageCap else TimeBudget), elapsed)
  {
  }

  lemma WalkSends(server: Server, sent: seq<Request>, budget: real, k: nat, after: Cursor, seen: set<Cursor>,
                  elapsed: real)
    requires k < MAX_PAGES && (k == 0 || budget - elapsed > 0.0)
    ensures var q := Request(after, Timeout(budget - elapsed));
            var reply := server(sent, q);
            Walk(server, sent, budget, k, after, seen, elapsed)
            == match reply.body
               case Raises => Walked([q], [], Failed(RequestFailed), elapsed + reply.took)
               case ErrorBody(m) => Walked([q], [], Failed(APIError(m)), elapsed + reply.took)
               case Page(entries, _, next) =>
                 if LeadsOn(reply.body, seen)
                 then Prefixed(q, entries,
                               Walk(server, sent + [q], budget, k + 1, next, seen + {next}, elapsed + reply.took))
                 else Walked([q], entries, Finished, elapsed + reply.took)
  {
  }

  /** The whole walk is what was sent and read so far, and then `rest`. */
  ghost predicate Continues(whole: Walked, requests: seq<Request>, entries: seq<Entry>, rest: Walked) {
    && whole.requests == requests + rest.requests
    && whole.entries == entries + rest.entries
    && whole.end == rest.end && whole.elapsed == rest.elapsed
  }

  lemma ContinuesFromStart(whole: Walked)
    ensures Continues(whole, [], [], whole)
  {
  }

  lemma ContinuesPast(whole: Walked, requests: seq<Request>, entries: seq<Entry>, q: Request, more: seq<Entry>,
                      rest: Walked)
    requires Continues(whole, requests, entries, Prefixed(q, more, rest))
    ensures Continues(whole, requests + [q], entries + more, rest)
  {
    assert requests + ([q] + rest.requests) == requests + [q] + rest.requests;
    assert entries + (more + rest.entries) == entries + more + rest.entries;
  }

  lemma ContinuesToEnd(whole: Walked, requests: seq<Request>, entries: seq<Entry>, rest: Walked)
    requires Continues(whole, requests, entries, rest)
    ensures rest.requests == [] ==> whole.requests == requests
    ensures rest.entries == [] ==> whole.entries == entries
    ensures whole.requests == requests + rest.requests && whole.entries == entries + rest.entries
    ensures whole.end == rest.end && whole.elapsed == rest.elapsed
  {
  }

  class Provider {
    const server: Server
    var clock: real
    var sent: seq<Request>

    constructor (server: Server, clock: real)
      ensures this.server == server && this.clock == clock && sent == []
    {
      this.server := server;
      this.clock := clock;
      sent := [];
    }

    method Send(after: Cursor, timeout: real) returns (body: Body)
      modifies this
      ensures sent == old(sent) + [Request(after, timeout)]
      ensures var reply := server(old(sent), Request(after, timeout));
              body == reply.body && clock == old(clock) + reply.took
    {
      var reply := server(sent, Request(after, timeout));
      sent := sent + [Request(after, timeout)];
      clock := clock + reply.took;
      return reply.body;
    }

    /** The entries, or the error raised; and why the list was cut short, if it was. */
    method FetchMeAccounts(maxSeconds: real := MAX_SECONDS)
      returns (r: Result<seq<Entry>, Error>, truncated: Option<Reason>)
      modifies this
      ensures var w := WalkFrom(server, old(sent), maxSeconds);
              && sent == old(sent) + w.requests
              && clock == old(clock) + w.elapsed
              && r == (if w.end.Failed? then Err(w.end.error) else Ok(w.entries))
              && truncated == (if w.end.Truncated? then Some(w.end.reason) else None)
    {
      hide Walk, Continues, Prefixed;
      var entries: seq<Entry> := [];
      var after := "";
      var seen: set<Cursor> := {};
      var started := clock;
      truncated := None;
      ghost var whole := WalkFrom(server, sent, maxSeconds);
      ghost var requests: seq<Request> := [];
      ContinuesFromStart(whole);
      var attempt := 0;
      while attempt < MAX_PAGES
        invariant 0 <= attempt <= MAX_PAGES
        invariant truncated == None
        invariant sent == old(sent) + requests
        invariant Continues(whole, requests, entries,
                            Walk(server, sent, maxSeconds, attempt, after, seen, clock - started))
      {
        ghost var ahead := Walk(server, sent, maxSeconds, attempt, after, seen, clock - started);
        ContinuesToEnd(whole, requests, entries, ahead);
        var remaining := maxSeconds - (clock - started);
        if attempt > 0 && remaining <= 0.0 {
          WalkStops(server, sent, maxSeconds, attempt, after, seen, clock - started);
          truncated := Some(TimeBudget);
          break;
        }
        WalkSends(server, sent, maxSeconds, attempt, after, seen, clock - started);
        var timeout := Min(REQUEST_TIMEOUT, Max(remaining, MIN_REQUEST_SECONDS));
        var body := Send(after, timeout);
        ghost var before, read := requests, entries;
        requests := requests + [Request(after, timeout)];
        match body {
          case Raises => return Err(RequestFailed), None;
          case ErrorBody(m) => return Err(APIError(m)), None;
          case Page(_, _, _) =>
        }
        entries := entries + body.entries;
        if !body.next || body.after == "" || body.after in seen {
          return Ok(entries), None;
        }
        ghost var elapsed := clock - started;
        ghost var onward := Walk(server, sent, maxSeconds, attempt + 1, body.after, seen + {body.after}, elapsed);
        assert ahead == Prefixed(Request(after, timeout), body.entries, onward);
        ContinuesPast(whole, before, read, Request(after, timeout), body.entries, onward);
        seen := seen + {body.after};
        after := body.after;
        attempt := attempt + 1;
      }
      if truncated.None? {
        WalkStops(server, sent, maxSeconds, attempt, after, seen, clock - started);
        ContinuesToEnd(whole, requests, entries, Walk(server, sent, maxSeconds, attempt, after, seen, clock - started));
        truncated := Some(PageCap);
      }
      return Ok(entries), truncated;
    }
  }

  // ---------------------------------------------------------------------
  // It ends, against any server
  // ---------------------------------------------------------------------

  ghost predicate Fresh(requests: seq<Request>, seen: set<Cursor>) {
    && (forall i :: 0 < i < |requests| ==> requests[i].after != "" && requests[i].after !in seen)
    && (forall i, j :: 0 <= i < j < |requests| ==> requests[i].after != requests[j].after)
    && (forall i :: 0 <= i < |requests| ==> MIN_REQUEST_SECONDS <= requests[i].timeout <= REQUEST_TIMEOUT)
  }

  lemma FreshPrepends(q: Request, rest: seq<Request>, seen: set<Cursor>, next: Cursor)
    requires Fresh(rest, seen + {next}) && (rest != [] ==> rest[0].after == next)
    requires next != "" && next !in seen && (q.after == "" || q.after in seen)
    requires MIN_REQUEST_SECONDS <= q.timeout <= REQUEST_TIMEOUT
    ensures Fresh([q] + rest, seen)
  {
    var all := [q] + rest;
    assert forall i :: 0 < i < |all| ==> all[i] == rest[i - 1];
  }

  lemma FreshAlone(q: Request, seen: set<Cursor>)
    ensures Fresh([], seen)
    ensures MIN_REQUEST_SECONDS <= q.timeout <= REQUEST_TIMEOUT ==> Fresh([q], seen)
  {
  }

  lemma {:induction false} RequestsAreFresh(server: Server, sent: seq<Request>, budget: real, k: nat, after: Cursor,
                                            seen: set<Cursor>, elapsed: real)
    requires k <= MAX_PAGES && (after == "" || after in seen)
    ensures var w := Walk(server, sent, budget, k, after, seen, elapsed);
            && |w.requests| <= MAX_PAGES - k
            && (w.requests != [] ==> w.requests[0].after == after)
            && Fresh(w.requests, seen)
    decreases MAX_PAGES - k
  {
    hide Fresh, Walk;
    var q := Request(after, Timeout(budget - elapsed));
    FreshAlone(q, seen);
    if k == MAX_PAGES || (k > 0 && budget - elapsed <= 0.0) {
      WalkStops(server, sent, budget, k, after, seen, elapsed);
    } else {
      WalkSends(server, sent, budget, k, after, seen, elapsed);
      var reply := server(sent, q);
      if LeadsOn(reply.body, seen) {
        var next := reply.body.after;
        RequestsAreFresh(server, sent + [q], budget, k + 1, next, seen + {next}, elapsed + reply.took);
        var rest := Walk(server, sent + [q], budget, k + 1, next, seen + {next}, elapsed + reply.took);
        FreshPrepends(q, rest.requests, seen, next);
      }
    }
  }

  /**
   * At least one request and at most a hundred, no cursor followed twice, no timeout below a second or above
   * thirty.
   */
  lemma NoPageIsFetchedTwice(server: Server, sent: seq<Request>, budget: real)
    ensures var requests := WalkFrom(server, sent, budget).requests;
            && 1 <= |requests| <= 100
            && requests[0].after == ""
            && (forall i, j :: 0 <= i < j < |requests| ==> requests[i].after != requests[j].after)
            && (forall i :: 0 <= i < |requests| ==> 1.0 <= requests[i].timeout <= 30.0)
  {
    RequestsAreFresh(server, sent, budget, 0, "", {}, 0.0);
  }

  // ---------------------------------------------------------------------
  // How it asks and why it ends, against any server
  // ---------------------------------------------------------------------

  /** The time the requests took, sent one after another after `sent`. */
  function Took(server: Server, sent: seq<Request>, requests: seq<Request>): real
    decreases |requests|
  {
    if requests == [] then 0.0
    else server(sent, requests[0]).took + Took(server, sent + [requests[0]], requests[1..])
  }

  lemma {:induction false} RequestFrom(server: Server, sent: seq<Request>, budget: real, k: nat, after: Cursor,
                                       seen: set<Cursor>, elapsed: real, i: nat)
    requires k <= MAX_PAGES && i < |Walk(server, sent, budget, k, after, seen, elapsed).requests|
    ensures var requests := Walk(server, sent, budget, k, after, seen, elapsed).requests;
            var left := budget - elapsed - Took(server, sent, requests[..i]);
            && requests[i].timeout == (if left < 1.0 then 1.0 else if left > 30.0 then 30.0 else left)
            && (k + i > 0 ==> left > 0.0)
    decreases i
  {
    hide Walk;
    if k == MAX_PAGES || (k > 0 && budget - elapsed <= 0.0) {
      WalkStops(server, sent, budget, k, after, seen, elapsed);
      assert false;
    }
    WalkSends(server, sent, budget, k, after, seen, elapsed);
    var q := Request(after, Timeout(budget - elapsed));
    var reply := server(sent, q);
    if i > 0 {
      var next := reply.body.after;
      var rest := Walk(server, sent + [q], budget, k + 1, next, seen + {next}, elapsed + reply.took).requests;
      RequestFrom(server, sent + [q], budget, k + 1, next, seen + {next}, elapsed + reply.took, i - 1);
      assert ([q] + rest)[..i] == [q] + rest[..i - 1];
      assert ([q] + rest[..i - 1])[1..] == rest[..i - 1];
    }
  }

  /** A request's timeout is what is left of the budget, between a second and thirty; only the first needs none left. */
  lemma TimeoutsAreWhatIsLeft(server: Server, sent: seq<Request>, budget: real, i: nat)
    requires i < |WalkFrom(server, sent, budget).requests|
    ensures var requests := WalkFrom(server, sent, budget).requests;
            var left := budget - Took(server, sent, requests[..i]);
            && requests[i].timeout == (if left < 1.0 then 1.0 else if left > 30.0 then 30.0 else left)
            && (i > 0 ==> left > 0.0)
  {
    RequestFrom(server, sent, budget, 0, "", {}, 0.0, i);
  }

  /** How a walk that made these requests, after `seen` cursors and k requests, has ended. */
  ghost predicate EndsAs(server: Server, sent: seq<Request>, budget: real, k: nat, seen: set<Cursor>, elapsed: real,
                         w: Walked)
    requires w.requests != []
  {
    var n := |w.requests|;
    var last := server(sent + w.requests[..n - 1], w.requests[n - 1]).body;
    && w.elapsed == elapsed + Took(server, sent, w.requests)
    && match last
       case Raises => w.end == Failed(RequestFailed)
       case ErrorBody(m) => w.end == Failed(APIError(m))
       case Page(_, next, after) =>
         if !next || after == "" || after in seen || after in Cursors(w.requests) then w.end == Finished
         else if k + n == 100 then w.end == Truncated(PageCap)
         else w.end == Truncated(TimeBudget) && w.elapsed >= budget
  }

  lemma {:induction false} EndFrom(server: Server, sent: seq<Request>, budget: real, k: nat, after: Cursor,
                                   seen: set<Cursor>, elapsed: real)
    requires k < MAX_PAGES && (k == 0 || budget > elapsed) && (after == "" || after in seen)
    ensures var w := Walk(server, sent, budget, k, after, seen, elapsed);
            w.requests != [] && w.requests[0].after == after && EndsAs(server, sent, budget, k, seen, elapsed, w)
    decreases MAX_PAGES - k
  {
    hide Walk;
    WalkSends(server, sent, budget, k, after, seen, elapsed);
    var w := Walk(server, sent, budget, k, after, seen, elapsed);
    var q := Request(after, Timeout(budget - elapsed));
    var reply := server(sent, q);
    if LeadsOn(reply.body, seen) {
      var next := reply.body.after;
      var spent := elapsed + reply.took;
      var rest := Walk(server, sent + [q], budget, k + 1, next, seen + {next}, spent);
      if k + 1 == MAX_PAGES || budget - spent <= 0.0 {
        WalkStops(server, sent + [q], budget, k + 1, next, seen + {next}, spent);
        OnlyRequest(server, sent, budget, k, seen, elapsed, w, q);
      } else {
        EndFrom(server, sent + [q], budget, k + 1, next, seen + {next}, spent);
        OneMoreRequest(server, sent, budget, k, seen, elapsed, w, q, rest, next);
      }
    } else {
      OnlyRequest(server, sent, budget, k, seen, elapsed, w, q);
    }
  }

  lemma OnlyRequest(server: Server, sent: seq<Request>, budget: real, k: nat, seen: set<Cursor>, elapsed: real,
                    w: Walked, q: Request)
    requires w.requests == [q] && (q.after == "" || q.after in seen)
    ensures sent + w.requests[..0] == sent
    ensures Took(server, sent, w.requests) == server(sent, q).took
    ensures forall c :: c != "" ==> (c in seen || c in Cursors(w.requests) <==> c in seen)
  {
    assert w.requests[1..] == [];
  }

  lemma OneMoreRequest(server: Server, sent: seq<Request>, budget: real, k: nat, seen: set<Cursor>, elapsed: real,
                       w: Walked, q: Request, rest: Walked, next: Cursor)
    requires rest.requests != [] && rest.requests[0].after == next && (q.after == "" || q.after in seen)
    requires w.requests == [q] + rest.requests && w.end == rest.end && w.elapsed == rest.elapsed
    requires EndsAs(server, sent + [q], budget, k + 1, seen + {next}, elapsed + server(sent, q).took, rest)
    ensures EndsAs(server, sent, budget, k, seen, elapsed, w)
  {
    var n := |w.requests|;
    assert w.requests[1..] == rest.requests;
    assert sent + w.requests[..n - 1] == (sent + [q]) + rest.requests[..n - 2];
    assert Cursors(w.requests) == [q.after] + Cursors(rest.requests);
    assert Cursors(rest.requests)[0] == next;
  }

  /**
   * A walk ends by its last reply: with its error, or finished if it leads to no new cursor, or cut short, by the
   * page cap after a hundred requests and by the time budget before that, which then is used up.
   */
  lemma EndIsByLastReply(server: Server, sent: seq<Request>, budget: real)
    ensures var w := WalkFrom(server, sent, budget);
            w.requests != [] && EndsAs(server, sent, budget, 0, {}, 0.0, w)
  {
    EndFrom(server, sent, budget, 0, "", {}, 0.0);
  }

  // ---------------------------------------------------------------------
  // It ends in time, when no request outlasts its timeout
  // ---------------------------------------------------------------------

  ghost predicate KeepsTimeouts(server: Server) {
    forall sent, q :: 0.0 <= server(sent, q).took && (q.timeout >= 0.0 ==> server(sent, q).took <= q.timeout)
  }

  lemma {:induction false} WalkStaysInBudget(server: Server, sent: seq<Request>, budget: real, k: nat, after: Cursor,
                                             seen: set<Cursor>, elapsed: real)
    requires k <= MAX_PAGES && KeepsTimeouts(server) && budget > 0.0
    requires elapsed < budget + MIN_REQUEST_SECONDS && (k == 0 ==> elapsed == 0.0)
    ensures elapsed <= Walk(server, sent, budget, k, after, seen, elapsed).elapsed < budget + MIN_REQUEST_SECONDS
    decreases MAX_PAGES - k
  {
    hide Walk, Timeout, KeepsTimeouts;
    if k == MAX_PAGES || (k > 0 && budget - elapsed <= 0.0) {
      WalkStops(server, sent, budget, k, after, seen, elapsed);
    } else {
      WalkSends(server, sent, budget, k, after, seen, elapsed);
      var q := Request(after, Timeout(budget - elapsed));
      var reply := server(sent, q);
      OneRequestStays(server, sent, after, budget, elapsed);
      if LeadsOn(reply.body, seen) {
        var next := reply.body.after;
        WalkStaysInBudget(server, sent + [q], budget, k + 1, next, seen + {next}, elapsed + reply.took);
      }
    }
  }

  /** A request started inside the budget ends less than a second after it. */
  lemma OneRequestStays(server: Server, sent: seq<Request>, after: Cursor, budget: real, elapsed: real)
    requires KeepsTimeouts(server) && elapsed < budget
    ensures var took := server(sent, Request(after, Timeout(budget - elapsed))).took;
            0.0 <= took && elapsed + took < budget + MIN_REQUEST_SECONDS
  {
  }

  /** With a budget, less than a second over it; without one, a single request of at most a second. */
  lemma WalkTakesUnderBudgetPlusOne(server: Server, sent: seq<Request>, budget: real)
    requires KeepsTimeouts(server)
    ensures budget > 0.0 ==> WalkFrom(server, sent, budget).elapsed < budget + 1.0
    ensures budget <= 0.0 ==>
        WalkFrom(server, sent, budget).elapsed <= 1.0 && |WalkFrom(server, sent, budget).requests| == 1
  {
    if budget > 0.0 {
      WalkStaysInBudget(server, sent, budget, 0, "", {}, 0.0);
    } else {
      var q := Request("", Timeout(budget));
      var reply := server(sent, q);
      if LeadsOn(reply.body, {}) {
        var next := reply.body.after;
        assert Walk(server, sent + [q], budget, 1, next, {} + {next}, 0.0 + reply.took).requests == [];
      }
    }
  }

  // ---------------------------------------------------------------------
  // What it returns, when a cursor always leads to the same page
  // ---------------------------------------------------------------------

  type Pages = Cursor -> Body

  ghost predicate Serves(server: Server, pages: Pages) {
    forall sent, q :: server(sent, q).body == pages(q.after)
  }

  function Cursors(requests: seq<Request>): seq<Cursor> {
    if requests == [] then [] else [requests[0].after] + Cursors(requests[1..])
  }

  /** The cursors a page chain runs through from `after`, and whether they are all there is. */
  ghost predicate IsChain(pages: Pages, after: Cursor, seen: set<Cursor>, cs: seq<Cursor>, whole: bool)
    decreases |cs|
  {
    if cs == [] then !whole
    else
      && cs[0] == after
      && pages(after).Page?
      && if pages(after).next && pages(after).after != "" && pages(after).after !in seen
         then IsChain(pages, pages(after).after, seen + {pages(after).after}, cs[1..], whole)
         else cs == [after] && whole
  }

  function Entries(pages: Pages, cs: seq<Cursor>): seq<Entry> {
    if cs == [] then []
    else (if pages(cs[0]).Page? then pages(cs[0]).entries else []) + Entries(pages, cs[1..])
  }

  lemma {:induction false} WalkIsChain(server: Server, pages: Pages, sent: seq<Request>, budget: real, k: nat,
                                       after: Cursor, seen: set<Cursor>, elapsed: real)
    requires k <= MAX_PAGES && Serves(server, pages)
    ensures var w := Walk(server, sent, budget, k, after, seen, elapsed);
            !w.end.Failed? ==>
              && IsChain(pages, after, seen, Cursors(w.requests), w.end.Finished?)
              && w.entries == Entries(pages, Cursors(w.requests))
              && (w.end == Truncated(PageCap) ==> |w.requests| == MAX_PAGES - k)
    decreases MAX_PAGES - k
  {
    hide Walk, Timeout;
    if k == MAX_PAGES || (k > 0 && budget - elapsed <= 0.0) {
      WalkStops(server, sent, budget, k, after, seen, elapsed);
    } else {
      WalkSends(server, sent, budget, k, after, seen, elapsed);
      var q := Request(after, Timeout(budget - elapsed));
      var reply := server(sent, q);
      if LeadsOn(reply.body, seen) {
        var next := reply.body.after;
        WalkIsChain(server, pages, sent + [q], budget, k + 1, next, seen + {next}, elapsed + reply.took);
        var rest := Walk(server, sent + [q], budget, k + 1, next, seen + {next}, elapsed + reply.took);
        CursorsOfCons(q, rest.requests);
      } else {
        CursorsOfCons(q, []);
      }
    }
  }

  lemma CursorsOfCons(q: Request, rest: seq<Request>)
    ensures Cursors([q] + rest) == [q.after] + Cursors(rest)
    ensures Cursors([q]) == [q.after]
  {
    assert ([q] + rest)[1..] == rest && [q][1..] == [];
  }

  lemma {:induction false} WholeChainIsTheOnlyOne(pages: Pages, after: Cursor, seen: set<Cursor>, cs: seq<Cursor>,
                                                  ds: seq<Cursor>, whole: bool)
    requires IsChain(pages, after, seen, cs, true) && IsChain(pages, after, seen, ds, whole)
    ensures ds <= cs
    ensures whole <==> ds == cs
    decreases |cs|
  {
    if ds != [] && LeadsOn(pages(after), seen) {
      var next := pages(after).after;
      WholeChainIsTheOnlyOne(pages, next, seen + {next}, cs[1..], ds[1..], whole);
      assert cs == [after] + cs[1..] && ds == [after] + ds[1..];
    }
  }

  /**
   * The walk returns the pages of a prefix of the cursor chain, in order, and all of them exactly
   * when it does not say it was truncated; the page cap is blamed only when the chain is longer.
   */
  lemma WalkReturnsTheChain(server: Server, pages: Pages, sent: seq<Request>, budget: real, chain: seq<Cursor>)
    requires Serves(server, pages) && IsChain(pages, "", {}, chain, true)
    ensures var w := WalkFrom(server, sent, budget);
            && !w.end.Failed?
            && Cursors(w.requests) <= chain
            && w.entries == Entries(pages, Cursors(w.requests))
            && (w.end.Finished? <==> Cursors(w.requests) == chain)
            && (w.end == Truncated(PageCap) ==> |chain| > MAX_PAGES)
  {
    var w := WalkFrom(server, sent, budget);
    ChainDoesNotFail(server, pages, sent, budget, 0, "", {}, 0.0, chain);
    WalkIsChain(server, pages, sent, budget, 0, "", {}, 0.0);
    WholeChainIsTheOnlyOne(pages, "", {}, chain, Cursors(w.requests), w.end.Finished?);
    SameNumber(w.requests);
  }

  /** Without truncation or error, what is returned is the concatenation of all pages of the chain. */
  lemma FinishedWalkHasEveryPage(server: Server, pages: Pages, sent: seq<Request>, budget: real)
    requires Serves(server, pages) && WalkFrom(server, sent, budget).end.Finished?
    ensures var w := WalkFrom(server, sent, budget);
            IsChain(pages, "", {}, Cursors(w.requests), true) && w.entries == Entries(pages, Cursors(w.requests))
  {
    WalkIsChain(server, pages, sent, budget, 0, "", {}, 0.0);
  }

  lemma {:induction false} ChainDoesNotFail(server: Server, pages: Pages, sent: seq<Request>, budget: real, k: nat,
                                            after: Cursor, seen: set<Cursor>, elapsed: real, chain: seq<Cursor>)
    requires k <= MAX_PAGES && Serves(server, pages) && IsChain(pages, after, seen, chain, true)
    ensures !Walk(server, sent, budget, k, after, seen, elapsed).end.Failed?
    decreases MAX_PAGES - k
  {
    if k < MAX_PAGES && !(k > 0 && budget - elapsed <= 0.0) {
      var q := Request(after, Timeout(budget - elapsed));
      var reply := server(sent, q);
      assert reply.body == pages(after);
      if LeadsOn(reply.body, seen) {
        var next := reply.body.after;
        ChainDoesNotFail(server, pages, sent + [q], budget, k + 1, next, seen + {next}, elapsed + reply.took,
                         chain[1..]);
      }
    }
  }

  lemma {:induction false} SameNumber(requests: seq<Request>)
    ensures |Cursors(requests)| == |requests|
  {
    if requests != [] {
      SameNumber(requests[1..]);
    }
  }
}
