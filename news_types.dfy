/** Shared value types of the news reader: articles, search parameters, the
    paged response, and the JavaScript truthiness tests the code relies on. */
module NewsTypes {

  datatype Option<+T> = None | Some(value: T)

  datatype Result<+R, +E> = Success(value: R) | Failure(error: E)

  /** An article as the search API delivers it; its `url` is its identity. */
  datatype Article = Article(
    url: string,
    title: string,
    description: Option<string>,
    content: Option<string>,
    urlToImage: Option<string>,
    author: Option<string>,
    publishedAt: string,
    sourceName: string)

  /** The closed set of headline categories. */
  datatype NewsCategory =
    Business | Entertainment | General | Health | Science | Sports | Technology

  /** The wire name of a category, as sent in the `category` query parameter. */
  function CategoryName(c: NewsCategory): (name: string)
    ensures name != ""
  {
    match c
    case Business => "business"
    case Entertainment => "entertainment"
    case General => "general"
    case Health => "health"
    case Science => "science"
    case Sports => "sports"
    case Technology => "technology"
  }

  /** `NewsSearchParams`: every field is optional. */
  datatype SearchParams = SearchParams(
    query: Option<string>,
    category: Option<NewsCategory>,
    country: Option<string>,
    page: Option<int>,
    pageSize: Option<int>)

  const NoParams := SearchParams(None, None, None, None, None)

  /** `NewsApiResponse`: one page of articles and the server's total count. */
  datatype ApiResponse = ApiResponse(articles: seq<Article>, totalResults: int)

  /** A JavaScript value `s` of type `string | undefined` is truthy iff it is a non-empty string. */
  predicate Truthy(s: Option<string>)
  {
    s.Some? && s.value != ""
  }

  /** `n || d` for `n: number | undefined`: both `undefined` and `0` fall back to `d`. */
  function OrElse(n: Option<int>, d: int): (v: int)
  {
    if n.Some? && n.value != 0 then n.value else d
  }

  /** A destructuring default `{ x = d }`: only `undefined` falls back to `d`. */
  function OrDefault(n: Option<int>, d: int): (v: int)
  {
    if n.Some? then n.value else d
  }
}
