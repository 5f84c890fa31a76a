/** The home page: the filter state (free-text query or category), the effect
    that resets and refetches when the filter changes, the effect that keeps
    the lookup registry in step with the accumulated list, and the handlers
    that keep the two filters mutually exclusive. React decides when effects
    run; here each effect is a method the environment calls. */
module App {
  import opened NewsTypes
  import opened JsString
  import opened UseNews
  import NewsContext
  import NewsList
  import NewsApi

  /** `NewsCategory | 'all'`. */
  datatype CategoryChoice = All | Only(category: NewsCategory)

  /** The parameters the filter effect fetches with: exactly one of query,
      category and country; the trimmed query wins, then a category, and the
      default country covers "all". No page or page size is given. */
  function FilterParams(searchQuery: string, selected: CategoryChoice): (p: SearchParams)
    ensures p.page.None? && p.pageSize.None?
    ensures (if p.query.Some? then 1 else 0) + (if p.category.Some? then 1 else 0)
            + (if p.country.Some? then 1 else 0) == 1
    ensures p.query.Some? <==> Trim(searchQuery) != ""
    ensures p.query.Some? ==> p.query.value == Trim(searchQuery) && Truthy(p.query)
    ensures p.category.Some? <==> Trim(searchQuery) == "" && selected.Only?
    ensures p.category.Some? ==> p.category.value == selected.category
    ensures p.country.Some? ==> p.country.value == NewsApi.DEFAULT_COUNTRY
  {
    var q := Trim(searchQuery);
    if q != "" then SearchParams(Some(q), None, None, None, None)
    else if selected.All? then SearchParams(None, None, Some(NewsApi.DEFAULT_COUNTRY), None, None)
    else SearchParams(None, Some(selected.category), None, None, None)
  }

  /** `getEmptyStateType`. */
  function GetEmptyStateType(searchQuery: string, selected: CategoryChoice): (t: NewsList.EmptyStateType)
    ensures t == NewsList.SearchEmpty <==> Trim(searchQuery) != ""
    ensures t == NewsList.CategoryEmpty <==> Trim(searchQuery) == "" && selected.Only?
    ensures t == NewsList.GeneralEmpty <==> Trim(searchQuery) == "" && selected.All?
  {
    if Trim(searchQuery) != "" then NewsList.SearchEmpty
    else if selected.Only? then NewsList.CategoryEmpty
    else NewsList.GeneralEmpty
  }

  /** The empty state always describes the request that produced the empty
      list: "search" for a query request, "category" for a category request,
      "general" for the default-country request. */
  lemma EmptyStateMatchesRequest(searchQuery: string, selected: CategoryChoice)
    ensures (GetEmptyStateType(searchQuery, selected) == NewsList.SearchEmpty)
            <==> FilterParams(searchQuery, selected).query.Some?
    ensures (GetEmptyStateType(searchQuery, selected) == NewsList.CategoryEmpty)
            <==> FilterParams(searchQuery, selected).category.Some?
    ensures (GetEmptyStateType(searchQuery, selected) == NewsList.GeneralEmpty)
            <==> FilterParams(searchQuery, selected).country.Some?
  {
  }

  /** `getCategoryLabel`: no label for "all", the Ukrainian name otherwise. */
  function CategoryLabel(selected: CategoryChoice): (shown: Option<string>)
    ensures shown.None? <==> selected.All?
    ensures shown.Some? ==> shown.value != ""
  {
    match selected
    case All => None
    case Only(c) =>
      Some(match c
        case Business => "Бізнес"
        case Entertainment => "Розваги"
        case General => "Загальні"
        case Health => "Здоров'я"
        case Science => "Наука"
        case Sports => "Спорт"
        case Technology => "Технології")
  }

  /** Distinct categories carry distinct labels. */
  lemma CategoryLabelInjective(a: CategoryChoice, b: CategoryChoice)
    requires CategoryLabel(a) == CategoryLabel(b)
    ensures a == b
  {
  }

  /** `HomePage`: the filter state, the refs of the last filter seen, the
      `useNews` instance and the provider's registry. */
  class HomePage {
    var searchQuery: string
    var selectedCategory: CategoryChoice
    var previousSearchQuery: string
    var previousCategory: CategoryChoice
    const news: NewsStore
    const registry: NewsContext.NewsRegistry

    ghost predicate Valid()
      reads this, news
    {
      news.Valid()
    }

    constructor (registry: NewsContext.NewsRegistry, service: NewsApi.Service)
      ensures Valid() && fresh(news) && this.registry == registry && news.service == service
      ensures searchQuery == "" && selectedCategory == All
      ensures previousSearchQuery == "" && previousCategory == All
      ensures news.state == INITIAL_STATE && news.currentParams == NoParams
      ensures news.currentPageRef == 1 && !news.isLoadingMoreRef
    {
      searchQuery := "";
      selectedCategory := All;
      previousSearchQuery := "";
      previousCategory := All;
      news := new NewsStore(service);
      this.registry := registry;
    }

    /** The filter effect: a reset exactly when the query or the category
        differs from the last one seen, the refs brought up to date, and a
        fresh fetch on every run. */
    method FilterEffect() returns (call: PendingCall)
      requires Valid()
      modifies this, news
      ensures Valid()
      ensures searchQuery == old(searchQuery) && selectedCategory == old(selectedCategory)
      ensures previousSearchQuery == searchQuery && previousCategory == selectedCategory
      ensures news.currentParams == FilterParams(searchQuery, selectedCategory)
      ensures !call.append && call.page == 1 && call.pageSize == DEFAULT_PAGE_SIZE
      ensures news.currentPageRef == 1 && news.isLoadingMoreRef == old(news.isLoadingMoreRef)
      ensures IssuedFor(news.service, FilterParams(searchQuery, selectedCategory), call)
      ensures news.state.loading && news.state.error.None? && news.state.articles == []
              && news.state.currentPage == 1
      ensures (old(searchQuery) != old(previousSearchQuery) || old(selectedCategory) != old(previousCategory))
              ==> news.state == INITIAL_STATE.(loading := true)
      ensures (old(searchQuery) == old(previousSearchQuery) && old(selectedCategory) == old(previousCategory))
              ==> news.state == old(news.state).(loading := true, error := None, currentPage := 1, articles := [])
    {
      var searchChanged := searchQuery != previousSearchQuery;
      var categoryChanged := selectedCategory != previousCategory;
      if searchChanged || categoryChanged {
        news.Reset();
        previousSearchQuery := searchQuery;
        previousCategory := selectedCategory;
      }
      call := news.BeginFetch(FilterParams(searchQuery, selectedCategory), false);
    }

    /** The registry effect: only a non-empty list is registered, so after a
        reset or an empty result the registry keeps the last non-empty list. */
    method RegistrySyncEffect()
      requires Valid()
      modifies registry
      ensures Valid()
      ensures news.state.articles != [] ==> registry.articles == news.state.articles
      ensures news.state.articles == [] ==> registry.articles == old(registry.articles)
    {
      if |news.state.articles| > 0 {
        registry.SetArticles(news.state.articles);
      }
    }

    /** `handleSearch`: a new query always clears the category, so the next
        filter request carries no category. */
    method HandleSearch(query: string)
      modifies this
      ensures searchQuery == query && selectedCategory == All
      ensures FilterParams(searchQuery, selectedCategory).category.None?
      ensures previousSearchQuery == old(previousSearchQuery) && previousCategory == old(previousCategory)
    {
      searchQuery := query;
      selectedCategory := All;
    }

    /** `handleCategoryChange`: a new category always clears the query, so the
        next filter request carries no query. */
    method HandleCategoryChange(category: CategoryChoice)
      modifies this
      ensures selectedCategory == category && searchQuery == ""
      ensures FilterParams(searchQuery, selectedCategory).query.None?
      ensures previousSearchQuery == old(previousSearchQuery) && previousCategory == old(previousCategory)
    {
      selectedCategory := category;
      searchQuery := "";
    }

    /** `handleReset`: default filter and a reset of the hook, without a request. */
    method HandleReset()
      requires Valid()
      modifies this, news
      ensures Valid()
      ensures searchQuery == "" && selectedCategory == All
      ensures previousSearchQuery == old(previousSearchQuery) && previousCategory == old(previousCategory)
      ensures news.state == INITIAL_STATE && news.currentParams == NoParams
      ensures news.currentPageRef == 1 && news.isLoadingMoreRef == old(news.isLoadingMoreRef)
    {
      searchQuery := "";
      selectedCategory := All;
      news.Reset();
    }

    /** What the list shows for the current hook state and filter. */
    method RenderList() returns (v: NewsList.ListView)
      ensures v.EmptyState? ==> v.kind == GetEmptyStateType(searchQuery, selectedCategory)
      ensures v.Spinner? <==> news.state.loading && news.state.articles == []
      ensures v.EmptyState? <==> !news.state.loading && news.state.articles == []
      ensures v.Cards? ==> v.cards == NewsList.Dedup(news.state.articles)
                           && v.sentinel == news.state.hasMore
                           && v.loadingMoreIndicator == news.state.loadingMore
                           && v.endMarker == !news.state.hasMore
    {
      v := NewsList.Render(news.state.articles, news.state.loading, news.state.loadingMore,
                           news.state.hasMore, GetEmptyStateType(searchQuery, selectedCategory));
    }
  }
}
