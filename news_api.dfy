/** The paged search client: turns a request description into the endpoint and
    query-parameter map sent to the news API, and turns the HTTP outcome into
    a response or a single error value. The query string itself (the
    application/x-www-form-urlencoded serialiser of section 5.2 of the WHATWG
    URL Standard) is left abstract: the model reasons about the parameter map. */
module NewsApi {
  import opened NewsTypes
  import opened Decimal

  const API_BASE_URL := "https://newsapi.org/v2"
  const TOP_HEADLINES := "/top-headlines"
  const EVERYTHING := "/everything"
  const DEFAULT_COUNTRY := "us"
  const HTTP_ERROR_PREFIX := "HTTP error! status: "
  const UNEXPECTED_ERROR := "An unexpected error occurred while fetching news"

  /** The service's fixed configuration; the key comes from build-time
      configuration and may be empty. */
  datatype Service = Service(baseUrl: string, apiKey: string)

  function NewService(apiKey: string): (svc: Service)
  {
    Service(API_BASE_URL, apiKey)
  }

  /** What `fetch` is called with, before the query map is serialised. */
  datatype Outbound = Outbound(url: string, query: map<string, string>)

  /** A value a `throw` carries: an `Error` instance with its message, or anything else. */
  datatype Thrown = ErrorObject(message: string) | NonError

  /** How the HTTP exchange ended: something threw (the network call or the
      JSON parse), a non-2xx status with the body's optional `message`, or a
      2xx with the parsed page. */
  datatype HttpOutcome =
    | Threw(thrown: Thrown)
    | NotOk(status: nat, message: Option<string>)
    | Ok(data: ApiResponse)

  /** The request the private `fetchNews` issues for `endpoint` and `params`:
      the caller's keys are kept, and `apiKey`, spread last, overrides any
      caller-supplied key of that name. */
  function Prepare(svc: Service, endpoint: string, params: map<string, string>): (out: Outbound)
    ensures out.url == svc.baseUrl + endpoint
    ensures "apiKey" in out.query && out.query["apiKey"] == svc.apiKey
    ensures forall k :: k != "apiKey" ==> (k in out.query <==> k in params)
    ensures forall k :: k != "apiKey" && k in params ==> out.query[k] == params[k]
  {
    Outbound(svc.baseUrl + endpoint, params["apiKey" := svc.apiKey])
  }

  /** The message of the `Error` thrown for a non-OK response: the server's
      `message` when it is a non-empty string, otherwise the status line. */
  function HttpErrorMessage(status: nat, message: Option<string>): (m: string)
    ensures Truthy(message) ==> m == message.value
    ensures !Truthy(message) ==>
              |m| > |HTTP_ERROR_PREFIX| && m[..|HTTP_ERROR_PREFIX|] == HTTP_ERROR_PREFIX
              && AllDigits(m[|HTTP_ERROR_PREFIX|..]) && DecimalValue(m[|HTTP_ERROR_PREFIX|..]) == status
    ensures m != ""
  {
    if Truthy(message) then message.value
    else
      var m := HTTP_ERROR_PREFIX + NatToDecimal(status);
      assert m[|HTTP_ERROR_PREFIX|..] == NatToDecimal(status);
      DecimalRoundTrip(status);
      m
  }

  /** The private `fetchNews` after `fetch` has settled: the data on success;
      otherwise what it throws, which is always an `Error` — one already thrown
      is rethrown unchanged, any other value is replaced by a generic one. */
  function Settle(outcome: HttpOutcome): (r: Result<ApiResponse, Thrown>)
    ensures r.Success? <==> outcome.Ok?
    ensures outcome.Ok? ==> r.value == outcome.data
    ensures r.Failure? ==> r.error.ErrorObject?
    ensures outcome.Threw? && outcome.thrown.ErrorObject? ==> r == Failure(outcome.thrown)
    ensures outcome == Threw(NonError) ==> r == Failure(ErrorObject(UNEXPECTED_ERROR))
    ensures outcome.NotOk? ==> r == Failure(ErrorObject(HttpErrorMessage(outcome.status, outcome.message)))
  {
    match outcome
    case Ok(data) => Success(data)
    case NotOk(status, message) => Failure(ErrorObject(HttpErrorMessage(status, message)))
    case Threw(ErrorObject(m)) => Failure(ErrorObject(m))
    case Threw(NonError) => Failure(ErrorObject(UNEXPECTED_ERROR))
  }

  /** The top-headlines request `getTopHeadlines(params)` builds: page and
      page size defaulting only when absent, the category, the query and the
      country each present exactly when given (truthy), the default country
      when no filter is given, and the service's key. */
  ghost predicate TopHeadlinesRequest(svc: Service, params: SearchParams, out: Outbound)
  {
    out.url == svc.baseUrl + TOP_HEADLINES
    && out.query.Keys <= {"page", "pageSize", "category", "q", "country", "apiKey"}
    && "page" in out.query && out.query["page"] == IntToDecimal(OrDefault(params.page, 1))
    && "pageSize" in out.query && out.query["pageSize"] == IntToDecimal(OrDefault(params.pageSize, 20))
    && "apiKey" in out.query && out.query["apiKey"] == svc.apiKey
    && ("category" in out.query <==> params.category.Some?)
    && (params.category.Some? ==> out.query["category"] == CategoryName(params.category.value))
    && ("q" in out.query <==> Truthy(params.query))
    && (Truthy(params.query) ==> out.query["q"] == params.query.value)
    && ("country" in out.query <==> Truthy(params.country) || (params.category.None? && !Truthy(params.query)))
    && ("country" in out.query ==>
          out.query["country"] == if Truthy(params.country) then params.country.value else DEFAULT_COUNTRY)
  }

  /** `getTopHeadlines(params)`: fills the parameter map one optional field at
      a time and falls back to the default country when no filter is given,
      so the request always carries a filter. */
  method GetTopHeadlines(svc: Service, params: SearchParams) returns (out: Outbound)
    ensures TopHeadlinesRequest(svc, params, out)
    ensures "category" in out.query || "q" in out.query || "country" in out.query
  {
    var page := OrDefault(params.page, 1);
    var pageSize := OrDefault(params.pageSize, 20);
    var apiParams := map["page" := IntToDecimal(page), "pageSize" := IntToDecimal(pageSize)];
    if params.category.Some? {
      apiParams := apiParams["category" := CategoryName(params.category.value)];
    }
    if Truthy(params.query) {
      apiParams := apiParams["q" := params.query.value];
    }
    if Truthy(params.country) {
      apiParams := apiParams["country" := params.country.value];
    }
    if params.category.None? && !Truthy(params.query) && !Truthy(params.country) {
      apiParams := apiParams["country" := DEFAULT_COUNTRY];
    }
    out := Prepare(svc, TOP_HEADLINES, apiParams);
  }

  /** `searchNews(query, page, pageSize)`: the `/everything` endpoint with exactly
      the query, the page, the page size and recency ordering; the numbers read
      back from the map are the ones given. */
  function SearchNews(svc: Service, query: string, page: int, pageSize: int): (out: Outbound)
    ensures out.url == svc.baseUrl + EVERYTHING
    ensures out.query.Keys == {"q", "page", "pageSize", "sortBy", "apiKey"}
    ensures out.query["q"] == query && out.query["sortBy"] == "publishedAt"
    ensures out.query["apiKey"] == svc.apiKey
    ensures out.query["page"] == IntToDecimal(page) && out.query["pageSize"] == IntToDecimal(pageSize)
    ensures ParseInt(out.query["page"]) == page && ParseInt(out.query["pageSize"]) == pageSize
  {
    IntRoundTrip(page);
    IntRoundTrip(pageSize);
    Prepare(svc, EVERYTHING, map[
      "q" := query,
      "page" := IntToDecimal(page),
      "pageSize" := IntToDecimal(pageSize),
      "sortBy" := "publishedAt"])
  }

  /** `getNewsByCategory(category, page, pageSize)`: the top-headlines request
      for that category alone, so no country is added. */
  method GetNewsByCategory(svc: Service, category: NewsCategory, page: int, pageSize: int)
    returns (out: Outbound)
    ensures out.url == svc.baseUrl + TOP_HEADLINES
    ensures out.query == map[
      "page" := IntToDecimal(page),
      "pageSize" := IntToDecimal(pageSize),
      "category" := CategoryName(category),
      "apiKey" := svc.apiKey]
  {
    out := GetTopHeadlines(svc, SearchParams(None, Some(category), None, Some(page), Some(pageSize)));
  }
}
