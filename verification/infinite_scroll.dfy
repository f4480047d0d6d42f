/** The infinite-scroll list (`components/TransactionList.tsx`): a small
    state machine that follows the route's `nextCursor` until it is null. */
module InfiniteScroll {
  import opened Optional
  import opened Ledger
  import opened SearchParams
  import CursorRoute

  /** The component's state: the rows shown, the cursor to continue from,
      whether more rows may exist, whether a request is in flight, and
      whether a queued list update throws when React next renders, which
      takes the component down. */
  datatype ScrollState = ScrollState(
    transactions: seq<Transaction>,
    cursor: Option<string>,
    hasMore: bool,
    isLoading: bool,
    crashed: bool)

  /** The state on first render. */
  const Initial := ScrollState([], None, true, false, false)

  /** What a request ends with: the parsed body of a page; a parsed body
      with no `transactions` and no `nextCursor`, such as the route's 500
      answer `{ error }`; or an exception from `fetch` or `json`, the only
      thing the `catch` sees. */
  datatype FetchOutcome =
    | Received(transactions: seq<Transaction>, nextCursor: Option<string>)
    | ErrorBody
    | Failed

  /** JavaScript truthiness of a string that may be null. */
  predicate Present(s: Option<string>) {
    s.Some? && s.value != ""
  }

  /** The guard at the top of `fetchTransactions`. */
  predicate CanFetch(s: ScrollState) {
    s.hasMore && !s.isLoading
  }

  /** The query string of the request: `cursor` when the state holds a
      non-empty one, nothing otherwise. */
  function RequestParams(s: ScrollState): (p: Params)
    ensures Get(p, "cursor") == if Present(s.cursor) then s.cursor else None
    ensures Present(s.cursor) ==> p == [("cursor", s.cursor.value)]
    ensures !Present(s.cursor) ==> p == []
  {
    if Present(s.cursor) then [("cursor", s.cursor.value)] else []
  }

  /** How the client reads the route's answer. `fetch` resolves on a 500
      and its body is JSON, so an error answer is parsed like a page; the
      `catch` is never reached from the route. */
  function OutcomeOf(r: CursorRoute.CursorResponse): (o: FetchOutcome)
    ensures r.CursorPage? <==> o.Received?
    ensures r.ServerError? <==> o.ErrorBody?
    ensures !o.Failed?
    ensures r.CursorPage? ==> o.transactions == r.transactions && o.nextCursor == r.nextCursor
  {
    match r
    case CursorPage(txs, next) => Received(txs, next)
    case ServerError(_) => ErrorBody
  }

  /** One call of `fetchTransactions`, from the guard to the `finally`,
      with the outcome its request met. On an error body the list updater
      is only queued, so `setCursor(undefined)` and `setHasMore(false)`
      still run; the updater throws when React renders. */
  function Fetch(s: ScrollState, outcome: FetchOutcome): (r: ScrollState)
    ensures !CanFetch(s) ==> r == s
    ensures CanFetch(s) ==> !r.isLoading
    ensures s.transactions <= r.transactions
    ensures CanFetch(s) && outcome.Received? ==>
              && r.transactions == s.transactions + outcome.transactions
              && r.cursor == outcome.nextCursor
              && (r.hasMore <==> Present(outcome.nextCursor))
    ensures CanFetch(s) && outcome.ErrorBody? ==>
              r.transactions == s.transactions && r.cursor.None? && !r.hasMore
    ensures r.crashed <==> s.crashed || (CanFetch(s) && outcome.ErrorBody?)
    ensures outcome.Failed? ==>
              r.transactions == s.transactions && r.cursor == s.cursor && r.hasMore == s.hasMore
    ensures !s.hasMore ==> !r.hasMore
  {
    if !CanFetch(s) then s
    else
      match outcome
      case Received(txs, next) =>
        s.(transactions := s.transactions + txs, cursor := next, hasMore := Present(next), isLoading := false)
      case ErrorBody => s.(cursor := None, hasMore := false, isLoading := false, crashed := true)
      case Failed => s.(isLoading := false)
  }

  /** A run of calls, each meeting the next outcome in turn. */
  function Run(s: ScrollState, outcomes: seq<FetchOutcome>): (r: ScrollState)
    ensures s.transactions <= r.transactions
    ensures !s.hasMore ==> r == s
    ensures !s.isLoading ==> !r.isLoading
    ensures (Present(s.cursor) ==> s.hasMore) ==> (Present(r.cursor) ==> r.hasMore)
    decreases |outcomes|
  {
    if outcomes == [] then s
    else
      var next := Fetch(s, outcomes[0]);
      Run(next, outcomes[1..])
  }

  /** The first request carries no cursor. */
  lemma FirstRequestHasNoCursor()
    ensures RequestParams(Initial) == []
    ensures CanFetch(Initial)
  {
  }

  /** After a page arrives, the next request carries that page's
      `nextCursor`; after an exception in `fetch` or `json`, it repeats the
      previous request; after an error body, no request is made again. */
  lemma NextRequestFollowsCursor(s: ScrollState, outcome: FetchOutcome)
    requires CanFetch(s)
    ensures outcome.Received? && Present(outcome.nextCursor) ==>
              && RequestParams(Fetch(s, outcome)) == [("cursor", outcome.nextCursor.value)]
              && CanFetch(Fetch(s, outcome))
    ensures outcome.Received? && !Present(outcome.nextCursor) ==> !CanFetch(Fetch(s, outcome))
    ensures outcome.ErrorBody? ==> !CanFetch(Fetch(s, outcome)) && Fetch(s, outcome).crashed
    ensures outcome.Failed? ==>
              && RequestParams(Fetch(s, outcome)) == RequestParams(s)
              && CanFetch(Fetch(s, outcome))
  {
  }

  /** When the store fails, the route's 500 answer ends the scroll: the
      component is left crashed, with no cursor, and no later call of
      `fetchTransactions` changes anything. */
  lemma ServerErrorEndsScroll(s: ScrollState, store: Store, later: seq<FetchOutcome>)
    requires CanFetch(s) && store.Failing?
    ensures var r := Fetch(s, OutcomeOf(CursorRoute.HandleGet(RequestParams(s), store)));
      && r.crashed && r.cursor.None? && !r.hasMore && !r.isLoading
      && r.transactions == s.transactions
      && Run(r, later) == r
  {
    var r := Fetch(s, OutcomeOf(CursorRoute.HandleGet(RequestParams(s), store)));
    assert r == Fetch(s, ErrorBody);
    StoppedStaysStopped(r, later);
  }

  /** A state that may not fetch is left alone by every later call. */
  lemma {:induction false} StoppedStaysStopped(s: ScrollState, later: seq<FetchOutcome>)
    requires !CanFetch(s)
    ensures Run(s, later) == s
    decreases |later|
  {
    if later != [] {
      assert Fetch(s, later[0]) == s;
      StoppedStaysStopped(s, later[1..]);
    }
  }

  /** Every state reachable from the first render is idle between calls,
      and a non-empty cursor always comes with `hasMore`. */
  lemma ReachableStates(outcomes: seq<FetchOutcome>)
    ensures !Run(Initial, outcomes).isLoading
    ensures Present(Run(Initial, outcomes).cursor) ==> Run(Initial, outcomes).hasMore
  {
  }
}
