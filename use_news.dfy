/** The `useNews` hook: the pagination/accumulation state machine. The state
    record is replaced on every transition; three refs (the last parameters,
    the last page fetched, the append-in-flight flag) are overwritten in
    place. Each asynchronous `fetchNews` call is split into its synchronous
    start (`BeginFetch`) and its settlement (`Complete` or `Fail`). */
module UseNews {
  import opened NewsTypes
  import NewsApi

  const DEFAULT_PAGE_SIZE := 20
  const FETCH_FAILED := "Failed to fetch news"

  /** `UseNewsState`. */
  datatype NewsState = NewsState(
    articles: seq<Article>,
    loading: bool,
    loadingMore: bool,
    error: Option<string>,
    totalResults: int,
    hasMore: bool,
    currentPage: int)

  const INITIAL_STATE := NewsState([], false, false, None, 0, false, 1)

  /** What an in-flight `fetchNews` call remembers between its start and its
      settlement: whether it appends, the page and page size it asked for,
      and the request it handed to the service. */
  datatype PendingCall = PendingCall(append: bool, page: int, pageSize: int, request: NewsApi.Outbound)

  /** The page a call asks for: the next one when appending, otherwise the
      caller's page with `0`/absent meaning 1. */
  function RequestedPage(append: bool, pageRef: int, params: SearchParams): (page: int)
    ensures append ==> page == pageRef + 1
    ensures !append ==> page == (if params.page.Some? && params.page.value != 0 then params.page.value else 1)
    ensures !append ==> page != 0
  {
    if append then pageRef + 1 else OrElse(params.page, 1)
  }

  /** The list after a successful page: appended to what was there, or replacing it. */
  function MergePage(prev: seq<Article>, incoming: seq<Article>, append: bool): (merged: seq<Article>)
    ensures append ==> |merged| == |prev| + |incoming| && merged[..|prev|] == prev && merged[|prev|..] == incoming
    ensures !append ==> merged == incoming
  {
    if append then prev + incoming else incoming
  }

  /** The message the hook stores for a caught value. */
  function FailureMessage(thrown: NewsApi.Thrown): (message: string)
  {
    match thrown
    case ErrorObject(message) => message
    case NonError => FETCH_FAILED
  }

  /** Every value the service throws is an `Error`, so the hook's fallback
      message is only ever shown when it is the server's own text: a failed
      call stores exactly the message the service produced. */
  lemma ServiceFailureMessage(outcome: NewsApi.HttpOutcome)
    requires !outcome.Ok?
    ensures NewsApi.Settle(outcome).Failure?
    ensures outcome.NotOk? ==>
              FailureMessage(NewsApi.Settle(outcome).error) == NewsApi.HttpErrorMessage(outcome.status, outcome.message)
    ensures outcome.Threw? && outcome.thrown.ErrorObject? ==>
              FailureMessage(NewsApi.Settle(outcome).error) == outcome.thrown.message
    ensures outcome == NewsApi.Threw(NewsApi.NonError) ==>
              FailureMessage(NewsApi.Settle(outcome).error) == NewsApi.UNEXPECTED_ERROR
  {
  }

  /** The call a `fetchNews(params, …)` start issues: the page size with
      `0`/absent meaning the default, and a search request when the query is
      truthy, otherwise the top-headlines request for `params` with the
      call's page and page size filled in. */
  ghost predicate IssuedFor(service: NewsApi.Service, params: SearchParams, call: PendingCall)
  {
    call.pageSize == OrElse(params.pageSize, DEFAULT_PAGE_SIZE)
    && (Truthy(params.query) ==>
          call.request == NewsApi.SearchNews(service, params.query.value, call.page, call.pageSize))
    && (!Truthy(params.query) ==>
          NewsApi.TopHeadlinesRequest(service, params.(page := Some(call.page), pageSize := Some(call.pageSize)),
                                      call.request))
  }

  class NewsStore {
    const service: NewsApi.Service
    var state: NewsState
    var currentParams: SearchParams
    var currentPageRef: int
    var isLoadingMoreRef: bool

    /** Invariants every transition keeps: the page ref mirrors the rendered
        page, a visible loading-more flag implies the in-flight ref, and
        `hasMore` promises unread results. */
    ghost predicate Valid()
      reads this
    {
      state.currentPage == currentPageRef
      && (state.loadingMore ==> isLoadingMoreRef)
      && (state.hasMore ==> |state.articles| < state.totalResults)
    }

    constructor (service: NewsApi.Service)
      ensures Valid()
      ensures this.service == service
      ensures state == INITIAL_STATE && currentParams == NoParams
      ensures currentPageRef == 1 && !isLoadingMoreRef
    {
      this.service := service;
      state := INITIAL_STATE;
      currentParams := NoParams;
      currentPageRef := 1;
      isLoadingMoreRef := false;
    }

    /** The synchronous start of `fetchNews(params, append)`: records the
        parameters, updates the flags (clearing the list and the page for a
        fresh session), and returns the call to be settled later. */
    method BeginFetch(params: SearchParams, append: bool) returns (call: PendingCall)
      requires Valid()
      modifies this
      ensures Valid()
      ensures currentParams == params
      ensures append ==>
                isLoadingMoreRef && currentPageRef == old(currentPageRef)
                && state == old(state).(loadingMore := true, error := None)
      ensures !append ==>
                currentPageRef == 1 && isLoadingMoreRef == old(isLoadingMoreRef)
                && state == old(state).(loading := true, error := None, currentPage := 1, articles := [])
      ensures call.append == append
      ensures call.page == RequestedPage(append, old(currentPageRef), params)
      ensures IssuedFor(service, params, call)
    {
      currentParams := params;
      if append {
        isLoadingMoreRef := true;
        state := state.(loadingMore := true, error := None);
      } else {
        currentPageRef := 1;
        state := state.(loading := true, error := None, currentPage := 1, articles := []);
      }
      var page := RequestedPage(append, currentPageRef, params);
      var pageSize := OrElse(params.pageSize, DEFAULT_PAGE_SIZE);
      var request;
      if Truthy(params.query) {
        request := NewsApi.SearchNews(service, params.query.value, page, pageSize);
      } else {
        request := NewsApi.GetTopHeadlines(service, params.(page := Some(page), pageSize := Some(pageSize)));
      }
      call := PendingCall(append, page, pageSize, request);
    }

    /** The success branch: the new list, the total, `hasMore` recomputed from
        them, the page recorded in both the state and the ref, every loading
        flag down and no error. */
    method Complete(call: PendingCall, response: ApiResponse)
      requires Valid()
      modifies this
      ensures Valid()
      ensures state.articles == MergePage(old(state.articles), response.articles, call.append)
      ensures state.hasMore == (|state.articles| < response.totalResults)
      ensures state.totalResults == response.totalResults
      ensures state.currentPage == call.page && currentPageRef == call.page
      ensures !state.loading && !state.loadingMore && !isLoadingMoreRef && state.error.None?
      ensures currentParams == old(currentParams)
    {
      var newArticles := MergePage(state.articles, response.articles, call.append);
      var hasMore := |newArticles| < response.totalResults;
      currentPageRef := call.page;
      isLoadingMoreRef := false;
      state := NewsState(newArticles, false, false, None, response.totalResults, hasMore, call.page);
    }

    /** The failure branch: the flags come down and the message is stored;
        the list, the total, `hasMore` and the page stay as they were. */
    method Fail(call: PendingCall, thrown: NewsApi.Thrown)
      requires Valid()
      modifies this
      ensures Valid()
      ensures state == old(state).(loading := false, loadingMore := false, error := Some(FailureMessage(thrown)))
      ensures !isLoadingMoreRef
      ensures currentPageRef == old(currentPageRef) && currentParams == old(currentParams)
    {
      isLoadingMoreRef := false;
      state := state.(loading := false, loadingMore := false, error := Some(FailureMessage(thrown)));
    }

    /** `loadMore`: nothing at all while an append is in flight or when there
        is nothing more; otherwise an append of the next page with the
        parameters of the last `fetchNews`. */
    method LoadMore() returns (call: Option<PendingCall>)
      requires Valid()
      modifies this
      ensures Valid()
      ensures call.None? <==> old(isLoadingMoreRef) || !old(state.hasMore)
      ensures call.None? ==>
                state == old(state) && currentParams == old(currentParams)
                && currentPageRef == old(currentPageRef) && isLoadingMoreRef == old(isLoadingMoreRef)
      ensures call.Some? ==>
                call.value.append && call.value.page == old(state.currentPage) + 1
                && IssuedFor(service, old(currentParams), call.value)
                && currentParams == old(currentParams) && currentPageRef == old(currentPageRef)
                && isLoadingMoreRef && state == old(state).(loadingMore := true, error := None)
    {
      if isLoadingMoreRef || !state.hasMore {
        return None;
      }
      var c := BeginFetch(currentParams, true);
      call := Some(c);
    }

    /** The infinite-scroll observer's trigger: it skips the call while the
        loading-more flag is shown or nothing more is available. Because the
        visible flag implies the in-flight ref, this guard never blocks a call
        that `LoadMore` would have made, and never lets through one it refuses. */
    method OnSentinelVisible() returns (call: Option<PendingCall>)
      requires Valid()
      modifies this
      ensures Valid()
      ensures call.None? <==> old(isLoadingMoreRef) || !old(state.hasMore)
      ensures call.None? ==>
                state == old(state) && currentParams == old(currentParams)
                && currentPageRef == old(currentPageRef) && isLoadingMoreRef == old(isLoadingMoreRef)
      ensures call.Some? ==>
                call.value.append && call.value.page == old(state.currentPage) + 1
                && IssuedFor(service, old(currentParams), call.value)
                && currentParams == old(currentParams) && currentPageRef == old(currentPageRef)
                && isLoadingMoreRef && state == old(state).(loadingMore := true, error := None)
    {
      if state.loadingMore || !state.hasMore {
        return None;
      }
      call := LoadMore();
    }

    /** `reset`: back to the initial record, empty parameters and page 1,
        without a request. The append-in-flight ref is not touched. */
    method Reset()
      requires Valid()
      modifies this
      ensures Valid()
      ensures state == INITIAL_STATE && currentParams == NoParams && currentPageRef == 1
      ensures isLoadingMoreRef == old(isLoadingMoreRef)
    {
      currentParams := NoParams;
      currentPageRef := 1;
      state := INITIAL_STATE;
    }
  }

  /** A page of `n` distinct placeholder articles, standing in for a response. */
  function Page(first: nat, n: nat): (page: seq<Article>)
    requires first + n < 0xD000
  {
    seq(n, i requires 0 <= i < n =>
      Article("https://example.org/" + [('A' as int + first + i) as char], "", None, None, None, None, "", ""))
  }

  /** A sports session over 45 results in pages of 20: two appends, the
      second of which exhausts the results. */
  method SportsScenario() returns (s: NewsState, pages: seq<int>)
    ensures pages == [1, 2, 3]
    ensures |s.articles| == 45 && s.totalResults == 45 && !s.hasMore && s.currentPage == 3
    ensures !s.loading && !s.loadingMore && s.error.None?
  {
    var store := new NewsStore(NewsApi.NewService(""));
    var sports := SearchParams(None, Some(Sports), None, Some(1), Some(20));
    var c1 := store.BeginFetch(sports, false);
    store.Complete(c1, ApiResponse(Page(0, 20), 45));
    assert store.state.hasMore && store.state.currentPage == 1;
    var c2 := store.LoadMore();
    store.Complete(c2.value, ApiResponse(Page(20, 20), 45));
    assert |store.state.articles| == 40 && store.state.hasMore;
    var c3 := store.LoadMore();
    store.Complete(c3.value, ApiResponse(Page(40, 5), 45));
    s, pages := store.state, [c1.page, c2.value.page, c3.value.page];
  }

  /** A failed fresh fetch shows the server's message over an empty list. */
  method RateLimitedScenario() returns (s: NewsState)
    ensures s.error == Some("rate limited") && !s.loading && s.articles == []
  {
    var store := new NewsStore(NewsApi.NewService(""));
    var call := store.BeginFetch(SearchParams(Some("election"), None, None, None, None), false);
    var settled := NewsApi.Settle(NewsApi.NotOk(429, Some("rate limited")));
    store.Fail(call, settled.error);
    s := store.state;
  }
}
