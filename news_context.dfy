/** The article lookup registry: a replaceable list of the articles loaded in
    this session, searched by exact URL. */
module NewsContext {
  import opened NewsTypes

  /** The set of URLs carried by a list of articles. */
  function Urls(xs: seq<Article>): (urls: set<string>)
  {
    set a | a in xs :: a.url
  }

  /** `xs.find(a => a.url === u)`: the first article whose URL is exactly `u`;
      None exactly when no article carries that URL. */
  function FindByUrl(xs: seq<Article>, u: string): (r: Option<Article>)
    ensures r.None? <==> u !in Urls(xs)
    ensures r.Some? ==> exists i :: 0 <= i < |xs| && xs[i] == r.value && r.value.url == u
                                    && forall j :: 0 <= j < i ==> xs[j].url != u
  {
    if xs == [] then None
    else if xs[0].url == u then
      assert xs[0] in xs;
      Some(xs[0])
    else
      var r := FindByUrl(xs[1..], u);
      UrlsCons(xs);
      if r.Some? then
        var i :| 0 <= i < |xs[1..]| && xs[1..][i] == r.value && r.value.url == u
                 && forall j :: 0 <= j < i ==> xs[1..][j].url != u;
        assert xs[i + 1] == r.value;
        assert forall j :: 0 <= j < i + 1 ==> xs[j].url != u by {
          forall j | 0 <= j < i + 1 ensures xs[j].url != u {
            if j > 0 { assert xs[j] == xs[1..][j - 1]; }
          }
        }
        r
      else r
  }

  /** The URLs of a non-empty list are its head's URL and its tail's URLs. */
  lemma UrlsCons(xs: seq<Article>)
    requires xs != []
    ensures Urls(xs) == {xs[0].url} + Urls(xs[1..])
  {
    assert xs == [xs[0]] + xs[1..];
    assert forall a :: a in xs <==> a == xs[0] || a in xs[1..];
  }

  /** Looking up in a list extended at the end answers from the old list first. */
  lemma {:induction false} FindByUrlSnoc(xs: seq<Article>, a: Article, u: string)
    ensures FindByUrl(xs + [a], u) ==
              if FindByUrl(xs, u).Some? then FindByUrl(xs, u)
              else if a.url == u then Some(a) else None
  {
    if xs != [] {
      assert (xs + [a])[1..] == xs[1..] + [a];
      FindByUrlSnoc(xs[1..], a, u);
    }
  }

  /** `NewsProvider`'s `articles` state and the two operations it exposes. */
  class NewsRegistry {
    var articles: seq<Article>

    /** The registry starts empty, so every lookup misses until the first `SetArticles`. */
    constructor ()
      ensures articles == []
      ensures forall u :: GetArticleByUrl(u).None?
    {
      articles := [];
    }

    /** `setArticles(xs)`: replaces the whole list. */
    method SetArticles(xs: seq<Article>)
      modifies this
      ensures articles == xs
      ensures forall u :: GetArticleByUrl(u) == FindByUrl(xs, u)
    {
      articles := xs;
    }

    /** `getArticleByUrl(u)`: the first stored article with URL `u`; it only reads. */
    function GetArticleByUrl(u: string): (r: Option<Article>)
      reads this
      ensures r == FindByUrl(articles, u)
      ensures r.None? <==> u !in Urls(articles)
      ensures r.Some? ==> r.value in articles && r.value.url == u
    {
      FindByUrl(articles, u)
    }
  }
}
