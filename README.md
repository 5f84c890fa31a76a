# News reader core, modelled in Dafny

The news reader is a single-page application over the News API. It keeps a
paginated, growing list of articles. That list comes from three sources: the
default-country top headlines, one category, or a free-text search. The list
grows page by page when the bottom of the list scrolls into view. It is shown
de-duplicated by URL and registered in a shared registry, so that the detail
page can find an article again from its URL-encoded id.

This project models that core:

- the News API service (`NewsApi`): request construction, key precedence, the
  HTTP error message and the normalisation of thrown values;
- the `useNews` hook (`UseNews.NewsStore`): the pagination and accumulation
  state machine;
- the list view (`NewsList`): de-duplication with a seen-set, and the choice
  between spinner, empty state and cards;
- the article registry (`NewsContext`);
- the home page (`App`): the filter effect, the registry effect, the handlers,
  the empty-state type and the category label;
- the detail page (`NewsDetail`): id resolution and render precedence;
- the image-with-fallback component (`ImageWithFallback`).

Four supporting modules give JavaScript's own operations a precise meaning:

- `Decimal` models `Number.prototype.toString` on integers.
- `JsString` models `String.prototype.trim`, with the ECMAScript whitespace set.
- `UriComponent` models `encodeURIComponent` and `decodeURIComponent`. Both go
  through UTF-8. A malformed escape makes decoding throw `URIError`, which
  the model writes as `None`. Encoding never throws here, because a string
  in the model is a sequence of Unicode scalar values and so cannot hold the
  lone surrogate on which `encodeURIComponent` throws.
- `NewsTypes` holds the shared records and JavaScript truthiness. It also
  separates the two "default" forms: `x || d` replaces every falsy value, while
  a destructuring default replaces only `undefined`.

The code works by updating state step by step, and the model keeps that form:

- the hook, the registry, the home page, the detail page and the image
  component are classes whose methods update fields;
- the de-duplication is a loop;
- each asynchronous `fetchNews` call is split into its synchronous start
  (`BeginFetch`) and its settlement (`Complete` or `Fail`). The environment
  calls these in whatever order the network delivers.

In these places the code behaves in ways a reader might not expect, and the
model follows the code:

- A fresh fetch copies the previous state, so a `loadingMore` flag already
  showing stays up while the fresh request runs. The model does not claim that
  `loading` and `loadingMore` exclude each other.
- `reset` does not clear the append-in-flight ref.
- The hook's own defaults use `||`, so a page or page size of `0` also becomes
  the default. The service's defaults apply only to a missing value.
- The registry is a list searched first-hit, not a map. A URL that occurs
  twice resolves to its first occurrence. `CardLinkResolves` shows that this
  is the card's own article.
- A lookup miss on the detail page is reported through the error message,
  not through the "not found" screen. `OpenDetail` proves that the "not found"
  screen is never reached.

## Model

| member | source | states |
|---|---|---|
| NewsTypes.CategoryName | src/components/CategoryFilter.tsx:4-13 | every category value sent to the API is a non-empty word |
| Decimal.NatToDecimal | src/services/newsApi.ts:32 | a status code prints as canonical decimal digits, with no leading zero, and "0" only for zero |
| Decimal.DecimalRoundTrip | src/services/newsApi.ts:32 | the printed status code reads back as the same number |
| Decimal.IntRoundTrip | src/services/newsApi.ts:48-51 | the `page`/`pageSize` strings read back as the numbers that were printed, negative ones included |
| Decimal.IntToDecimalInjective | src/services/newsApi.ts:48-51 | distinct page numbers never print as the same query value |
| JsString.Trim | src/components/SearchBar.tsx:17 | the result is a contiguous slice of the input, only whitespace is cut on either side, and neither end of the result is whitespace |
| JsString.TrimEmptyIffBlank | src/App.tsx:46 | a query trims to the empty string exactly when it is all whitespace, so only a blank query falls through to the category/default branches |
| JsString.TrimIdempotent | src/App.tsx:46-47 | re-trimming the query that the search bar already trimmed changes nothing |
| UriComponent.EncodeURIComponent | src/components/NewsCard.tsx:33-36 | the article id uses only the unreserved characters and `%` escapes |
| UriComponent.DecodeEncode | src/components/NewsDetail.tsx:22 | decoding the id that a card encoded gives back exactly the article URL, for every string of Unicode scalar values |
| UriComponent.DecodeWithoutEscapes | src/components/NewsDetail.tsx:22 | an id without `%` decodes to itself |
| NewsApi.Prepare | src/services/newsApi.ts:19-25 | the request goes to base URL + endpoint; the service's key overrides any caller `apiKey`; every other caller key is passed unchanged |
| NewsApi.HttpErrorMessage | src/services/newsApi.ts:30-33 | the server's message when it is non-empty; otherwise "HTTP error! status: " followed by the status, which reads back from the message |
| NewsApi.Settle | src/services/newsApi.ts:27-42 | a successful response passes through; every failure is rethrown as an `Error` with the HTTP message, the original error's message, or the fixed unexpected-error text |
| NewsApi.GetTopHeadlines | src/services/newsApi.ts:45-70 | top-headlines request with page/pageSize defaulting only when absent; category, q and country present exactly when truthy; country "us" when none of them is; never an empty filter |
| NewsApi.SearchNews | src/services/newsApi.ts:72-79 | everything-endpoint request with exactly q, page, pageSize, sortBy=publishedAt and apiKey; the page reads back from its string |
| NewsApi.GetNewsByCategory | src/services/newsApi.ts:81-83 | a top-headlines request carrying exactly page, pageSize, category and apiKey |
| NewsContext.FindByUrl | src/context/NewsContext.tsx:16-18 | absent exactly when no article has the URL; otherwise the first article carrying it |
| NewsContext.FindByUrlSnoc | src/context/NewsContext.tsx:16-18 | appending an article changes a lookup only for a URL the list did not contain |
| NewsContext.NewsRegistry.constructor | src/context/NewsContext.tsx:13 | the registry starts empty and every lookup misses |
| NewsContext.NewsRegistry.SetArticles | src/context/NewsContext.tsx:13 | the registry holds exactly the new list |
| NewsContext.NewsRegistry.GetArticleByUrl | src/context/NewsContext.tsx:16-18 | lookup over the current list is `FindByUrl` on it: the first article with the URL, absent iff none |
| NewsList.UniqueArticles | src/components/NewsList.tsx:29-38 | the seen-set loop computes the keep-first de-duplication of the list |
| NewsList.DedupUrls | src/components/NewsList.tsx:29-38 | de-duplication keeps every URL of the input and adds none |
| NewsList.DedupDistinct | src/components/NewsList.tsx:29-38 | no two shown cards share a URL |
| NewsList.DedupSubsequence | src/components/NewsList.tsx:29-38 | the cards are a subsequence of the list in order, each at the first position of its URL |
| NewsList.DedupPreservesLookup | src/components/NewsList.tsx:29-38 | the first article with any URL is the same before and after de-duplication |
| NewsList.DedupOfDistinct | src/components/NewsList.tsx:29-38 | a list without repeated URLs is shown unchanged |
| NewsList.DedupIdempotent | src/components/NewsList.tsx:29-38 | de-duplicating twice is de-duplicating once |
| NewsList.DedupEmptyIff | src/components/NewsList.tsx:29-38 | only the empty list de-duplicates to nothing |
| NewsList.SelectView | src/components/NewsList.tsx:40-91 | spinner iff loading with no articles; empty state iff at rest with no unique articles; otherwise cards with the sentinel iff more exist, the indicator iff loading more, and the end marker iff nothing more and the list is non-empty |
| NewsList.Render | src/components/NewsList.tsx:29-91 | spinner iff loading with an empty list; empty state iff at rest with an empty list; otherwise a non-empty de-duplicated card list whose end marker shows iff nothing more exists |
| UseNews.RequestedPage | src/hooks/useNews.ts:56 | an append asks for the page after the ref; a fresh fetch asks for the caller's page, with 0 or absent meaning 1, so never page 0 |
| UseNews.MergePage | src/hooks/useNews.ts:65-68 | an append keeps the previous list as a prefix and adds the page after it; a fresh fetch replaces the list |
| UseNews.ServiceFailureMessage | src/hooks/useNews.ts:84-91 | a failed call stores exactly the message the service built: the HTTP message, the error's own message, or the unexpected-error text |
| UseNews.NewsStore.constructor | src/hooks/useNews.ts:24-36 | initial record, empty parameters, page ref 1, no append in flight |
| UseNews.NewsStore.BeginFetch | src/hooks/useNews.ts:38-63 | parameters recorded; an append raises both loading-more flags and keeps the list; a fresh fetch clears the list and the page; the page size defaults to 20 for 0 or absent; the request is the search request iff the query is truthy, otherwise the full top-headlines request for the parameters with the computed page and page size |
| UseNews.NewsStore.Complete | src/hooks/useNews.ts:65-83 | list merged, total stored, hasMore iff fewer articles than the total, page stored in the state and in the ref, every flag down, no error |
| UseNews.NewsStore.Fail | src/hooks/useNews.ts:84-91 | flags down and the message stored; list, total, hasMore and page unchanged |
| UseNews.NewsStore.LoadMore | src/hooks/useNews.ts:95-98 | no call and no change iff an append is in flight or nothing more exists; otherwise an append of the next page whose page size and request are those the stored parameters give, with both loading-more flags up and the list kept |
| UseNews.NewsStore.OnSentinelVisible | src/hooks/useInfiniteScroll.ts:37 | the observer's guard lets a call through exactly when `loadMore` itself would make one; no call changes nothing, and a call is the next-page append for the stored parameters with the same new state as `LoadMore` |
| UseNews.NewsStore.Reset | src/hooks/useNews.ts:100-112 | initial record, empty parameters and page ref 1, with no request; the append-in-flight ref is untouched |
| UseNews.SportsScenario | src/hooks/useNews.ts:38-98 | 45 results in pages of 20 are read as pages 1, 2, 3, and the session ends with all 45 and nothing more |
| UseNews.RateLimitedScenario | src/hooks/useNews.ts:84-91 | a rejected fresh search shows the server's message over an empty list |
| App.FilterParams | src/App.tsx:46-52 | exactly one of query, category and country; the trimmed query when it is non-blank; otherwise the category or, for "all", country "us" |
| App.GetEmptyStateType | src/App.tsx:77-81 | "search" iff the trimmed query is non-blank, else "category" iff a category is chosen, else "general" |
| App.EmptyStateMatchesRequest | src/App.tsx:46-81 | the empty state always names the kind of request that produced the empty list |
| App.CategoryLabel | src/App.tsx:83-95 | no label for "all", a non-empty label for each category |
| App.CategoryLabelInjective | src/App.tsx:83-95 | distinct categories carry distinct labels |
| App.HomePage.constructor | src/App.tsx:14-28 | empty query, category "all", refs at their initial values, hook in its initial state (initial record, empty parameters, page ref 1, no append in flight) over the given service |
| App.HomePage.FilterEffect | src/App.tsx:36-53 | the hook is reset exactly when the query or category changed; refs updated; every run starts a fresh page-1 fetch whose request is the one the filter parameters give (a search for a non-blank trimmed query, else top headlines for the category or for country "us"); the append-in-flight ref is untouched |
| App.HomePage.RegistrySyncEffect | src/App.tsx:55-59 | a non-empty list replaces the registry's contents; an empty list leaves the registry as it was |
| App.HomePage.HandleSearch | src/App.tsx:61-64 | a new query always clears the category, so the next filter request carries no category |
| App.HomePage.HandleCategoryChange | src/App.tsx:66-69 | a new category always clears the query, so the next filter request carries no query |
| App.HomePage.HandleReset | src/App.tsx:71-75 | default filter and an initial hook state (empty parameters, page ref 1) with no request; the append-in-flight ref is untouched |
| App.HomePage.RenderList | src/App.tsx:114-124 | the list view over the hook's state: spinner iff loading with no articles, empty state of the current filter's type iff at rest with no articles, otherwise the de-duplicated cards with the sentinel iff more exist, the indicator iff loading more and the end marker iff nothing more |
| NewsDetail.ScreenFor | src/components/NewsDetail.tsx:53-81 | loading first, then a truthy error, then a missing article, otherwise the article |
| NewsDetail.DetailView.constructor | src/components/NewsDetail.tsx:11-13 | no article, loading, no error |
| NewsDetail.DetailView.ResolveEffect | src/components/NewsDetail.tsx:15-36 | a missing id asks for navigation home and changes nothing; an undecodable id stores the load error; a registry hit stores the article; a miss stores the not-found message; loading ends in every case except navigation |
| NewsDetail.OpenDetail | src/components/NewsDetail.tsx:15-81 | mounting shows the article found for the decoded id, the not-found or load-error message, or the loading screen for a missing id, and never the not-found screen |
| NewsDetail.CardLinkResolves | src/components/NewsCard.tsx:33-36 | a card's link decodes to its URL, and looking that URL up in the registry gives back that same card, even when the list repeats URLs |
| ImageWithFallback.ViewFor | src/components/ImageWithFallback.tsx:38-74 | placeholder iff the source is empty or absent, otherwise an image of that source |
| ImageWithFallback.FallbackImage.constructor | src/components/ImageWithFallback.tsx:20-21 | the source prop is shown and the error flag is down |
| ImageWithFallback.FallbackImage.HandleError | src/components/ImageWithFallback.tsx:23-28 | the first error switches to the fallback and raises the flag; a second error changes nothing |
| ImageWithFallback.FallbackImage.HandleLoad | src/components/ImageWithFallback.tsx:30-32 | the flag comes down and the source is kept |
| ImageWithFallback.FallbackImage.Render | src/components/ImageWithFallback.tsx:34-36 | with the flag down, the shown source follows the prop; with the flag up it is kept |
| ImageWithFallback.BrokenSourceCycles | src/components/ImageWithFallback.tsx:23-36 | a broken source whose default fallback loads is restored, with the flag down, on the next render |
| ImageWithFallback.KeyedFallbackImage.constructor | src/components/ImageWithFallback.tsx:20-21 | the source prop is shown and remembered as the last prop, with the flag down |
| ImageWithFallback.KeyedFallbackImage.HandleError | src/components/ImageWithFallback.tsx:23-28 | the first error switches to the fallback; the last prop is kept |
| ImageWithFallback.KeyedFallbackImage.HandleLoad | src/components/ImageWithFallback.tsx:30-32 | the flag comes down and the source is kept |
| ImageWithFallback.KeyedFallbackImage.Render | src/components/ImageWithFallback.tsx:34-36 | a changed prop restarts from that source; the same prop changes nothing, so a shown fallback stays |
| ImageWithFallback.BrokenSourceSettles | src/components/ImageWithFallback.tsx:23-36 | with the keyed resync, the fallback stays shown after it loads, and a new source is still picked up |

## Left out

- HTTP and JSON: `fetch` and `response.json()` are not modelled. The outcome of a request is an input (`NewsApi.HttpOutcome`). A body that fails to parse is folded into a thrown value.
- `URLSearchParams` serialisation: a request is its base URL plus endpoint and a map of query keys to values. Key order and form encoding are not modelled.
- The API key comes from the build environment, and a missing key triggers a console warning (src/services/newsApi.ts:4-8). Here the key is a parameter of `NewsApi.NewService`. Console logging is left out everywhere.
- Concurrency: overlapping `fetchNews` calls may settle in any order, and the last one to settle wins. No request is cancelled or ignored. The model exposes the start and settlement steps but proves nothing about interleavings.
- React scheduling is not modelled: when effects run, batching, and re-renders. Each effect and handler is a method that the environment calls. A render-time state update in the image component takes effect at once.
- UseNews.NewsStore.LoadMore: reads `hasMore` from the current state, while the source's callback may read it from the render in which it was created.
- The intersection observer's setup and teardown, thresholds and root margin are not modelled (src/hooks/useInfiniteScroll.ts). Only its guard is (`OnSentinelVisible`).
- Numbers are unbounded integers. NaN, fractional values, exponent-form printing of very large values and 64-bit float rounding are not modelled.
- Date formatting with `Intl` on the card and detail pages is not modelled.
- The router's own decoding of the `:id` path segment is not modelled. The id reaches `ResolveEffect` as given, and so does navigation home, which is reported as a boolean.
- The context provider's "used outside provider" error is not modelled.
- The `fallbackSrc` prop of the image component is fixed for the life of an instance.
- Presentational parts are not modelled: markup, class names, alt text, the search bar's local input state, the category filter's buttons, and the empty-state texts beyond their type.
- The article record's field types follow the API response shape (url, title, description, content, image, author, publishedAt, source name). src/types/news.ts is not part of this model.
- Strings are sequences of Unicode scalar values, not UTF-16 code units. A lone surrogate cannot occur, so the `URIError` that `encodeURIComponent` throws for one is not modelled, and the round trip covers well-formed strings only.
- NewsApi.SearchNews: its `page = 1` and `pageSize = 20` default arguments (src/services/newsApi.ts:72) are not modelled; both are plain integer parameters, and the only caller (the hook) always passes both.
- NewsApi.GetNewsByCategory: its `page = 1` and `pageSize = 20` default arguments (src/services/newsApi.ts:81) are not modelled; both are plain integer parameters, and no code in the core calls it.

## Findings

| source | as written | input that shows it | evidently intended | confidence | as-written member | corrected member |
|---|---|---|---|---|---|---|
| src/components/ImageWithFallback.tsx:23-36 | The render-time resync replaces `imgSrc` with the `src` prop whenever they differ and the error flag is down. The fallback's load event lowers the flag. | A non-empty `src` that fails to load, with a fallback that loads. The sequence is: error, then fallback shown, then fallback loads (flag down), then the next render restores the broken `src`. The next error repeats the cycle, so the image alternates between the broken source and the fallback. | Once the fallback is shown for a source, it stays until a different source is passed. | high; not executed | ImageWithFallback.BrokenSourceCycles | ImageWithFallback.BrokenSourceSettles |
