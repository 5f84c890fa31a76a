/** The detail view: the effect that turns the route id into an article (or
    an error) through the registry, and the precedence among the screens. */
module NewsDetail {
  import opened NewsTypes
  import opened UriComponent
  import opened NewsContext
  import NewsList

  const NOT_FOUND_MESSAGE := "Новину не знайдено. Будь ласка, поверніться до списку новин."
  const LOAD_ERROR_MESSAGE := "Помилка при завантаженні новини"

  /** What the detail component renders. */
  datatype Screen = LoadingScreen | ErrorScreen(message: string) | NotFoundScreen | ArticleScreen(article: Article)

  /** Render precedence: loading first, then an error, then a missing article. */
  function ScreenFor(loading: bool, error: Option<string>, article: Option<Article>): (s: Screen)
    ensures s.LoadingScreen? <==> loading
    ensures s.ErrorScreen? <==> !loading && Truthy(error)
    ensures s.ErrorScreen? ==> s.message == error.value
    ensures s.NotFoundScreen? <==> !loading && !Truthy(error) && article.None?
    ensures s.ArticleScreen? ==> !loading && !Truthy(error) && article == Some(s.article)
  {
    if loading then LoadingScreen
    else if Truthy(error) then ErrorScreen(error.value)
    else if article.None? then NotFoundScreen
    else ArticleScreen(article.value)
  }

  /** The component's three state fields. */
  class DetailView {
    var article: Option<Article>
    var loading: bool
    var error: Option<string>

    constructor ()
      ensures article.None? && loading && error.None?
    {
      article := None;
      loading := true;
      error := None;
    }

    /** The id-resolution effect. A missing id asks for navigation home and
        changes nothing; an undecodable id stores the load error; a decoded id
        found in the registry stores that article; otherwise the not-found
        message. Every outcome but navigation ends loading. */
    method ResolveEffect(id: Option<string>, registry: NewsRegistry) returns (navigateHome: bool)
      modifies this
      ensures navigateHome <==> !Truthy(id)
      ensures navigateHome ==>
                article == old(article) && loading == old(loading) && error == old(error)
      ensures !navigateHome && DecodeURIComponent(id.value).None? ==>
                error == Some(LOAD_ERROR_MESSAGE) && !loading && article == old(article)
      ensures !navigateHome && DecodeURIComponent(id.value).Some? ==>
                !loading
                && (var found := registry.GetArticleByUrl(DecodeURIComponent(id.value).value);
                    if found.Some? then article == found && error == old(error)
                    else error == Some(NOT_FOUND_MESSAGE) && article == old(article))
    {
      if !Truthy(id) {
        return true;
      }
      navigateHome := false;
      var url := DecodeURIComponent(id.value);
      if url.None? {
        error := Some(LOAD_ERROR_MESSAGE);
        loading := false;
        return;
      }
      var foundArticle := registry.GetArticleByUrl(url.value);
      if foundArticle.Some? {
        article := foundArticle;
        loading := false;
      } else {
        error := Some(NOT_FOUND_MESSAGE);
        loading := false;
      }
    }
  }

  /** Mounting the detail page for a route id: a fresh view, then the effect,
      then the render. The not-found screen is never reached this way: a miss
      is reported through the error message. */
  method OpenDetail(id: Option<string>, registry: NewsRegistry) returns (screen: Screen)
    ensures !Truthy(id) ==> screen == LoadingScreen
    ensures Truthy(id) && DecodeURIComponent(id.value).None? ==> screen == ErrorScreen(LOAD_ERROR_MESSAGE)
    ensures Truthy(id) && DecodeURIComponent(id.value).Some? ==>
              (var found := FindByUrl(registry.articles, DecodeURIComponent(id.value).value);
               screen == if found.Some? then ArticleScreen(found.value) else ErrorScreen(NOT_FOUND_MESSAGE))
    ensures !screen.NotFoundScreen?
  {
    var view := new DetailView();
    var _ := view.ResolveEffect(id, registry);
    screen := ScreenFor(view.loading, view.error, view.article);
  }

  /** The id a card links to, `encodeURIComponent(url)`, resolves against the
      registry holding the list the cards were drawn from to exactly the
      card's own article, even when the list repeats URLs. */
  lemma CardLinkResolves(articles: seq<Article>, k: nat)
    requires k < |NewsList.Dedup(articles)|
    ensures DecodeURIComponent(EncodeURIComponent(NewsList.Dedup(articles)[k].url))
              == Some(NewsList.Dedup(articles)[k].url)
    ensures FindByUrl(articles, NewsList.Dedup(articles)[k].url) == Some(NewsList.Dedup(articles)[k])
  {
    var card := NewsList.Dedup(articles)[k];
    DecodeEncode(card.url);
    NewsList.DedupPreservesLookup(articles, card.url);
    NewsList.DedupDistinct(articles);
    var unique := NewsList.Dedup(articles);
    assert card in unique;
    NewsList.DedupUrls(articles);
    var r := FindByUrl(unique, card.url);
    var i :| 0 <= i < |unique| && unique[i] == r.value && r.value.url == card.url
             && forall j :: 0 <= j < i ==> unique[j].url != card.url;
    assert i == k;
  }
}
