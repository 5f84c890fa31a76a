/** The list view: de-duplication of the accumulated articles by URL, and the
    choice among the spinner, the empty state and the list with its footer. */
module NewsList {
  import opened NewsTypes
  import opened NewsContext

  /** Keep-first de-duplication by URL, defined by extending the input one
      article at a time: an article is kept iff no earlier kept article has
      its URL. */
  function Dedup(xs: seq<Article>): (kept: seq<Article>)
  {
    if xs == [] then []
    else
      var kept := Dedup(xs[..|xs| - 1]);
      var last := xs[|xs| - 1];
      if last.url in Urls(kept) then kept else kept + [last]
  }

  /** No two articles share a URL. */
  predicate DistinctUrls(xs: seq<Article>)
  {
    forall i, j :: 0 <= i < j < |xs| ==> xs[i].url != xs[j].url
  }

  /** `idx` picks, in strictly increasing positions of `xs`, the elements of `ys`. */
  predicate Embeds(idx: seq<nat>, ys: seq<Article>, xs: seq<Article>)
  {
    |idx| == |ys|
    && (forall k :: 0 <= k < |idx| ==> idx[k] < |xs| && ys[k] == xs[idx[k]])
    && (forall k, l :: 0 <= k < l < |idx| ==> idx[k] < idx[l])
  }

  lemma UrlsSnoc(xs: seq<Article>, a: Article)
    ensures Urls(xs + [a]) == Urls(xs) + {a.url}
  {
    assert forall b :: b in xs + [a] <==> b in xs || b == a;
  }

  /** De-duplication keeps every URL of the input and adds none. */
  lemma {:induction false} DedupUrls(xs: seq<Article>)
    ensures Urls(Dedup(xs)) == Urls(xs)
  {
    if xs != [] {
      var init := xs[..|xs| - 1];
      var last := xs[|xs| - 1];
      assert xs == init + [last];
      DedupUrls(init);
      UrlsSnoc(init, last);
      UrlsSnoc(Dedup(init), last);
    }
  }

  /** The result never holds two articles with the same URL. */
  lemma {:induction false} DedupDistinct(xs: seq<Article>)
    ensures DistinctUrls(Dedup(xs))
  {
    if xs != [] {
      var init := xs[..|xs| - 1];
      var last := xs[|xs| - 1];
      DedupDistinct(init);
      var kept := Dedup(init);
      if last.url !in Urls(kept) {
        forall i | 0 <= i < |kept| ensures kept[i].url != last.url {
          assert kept[i] in kept;
        }
      }
    }
  }

  /** The result is a subsequence of the input, and each kept article sits at
      the first position of the input carrying its URL. */
  lemma {:induction false} DedupSubsequence(xs: seq<Article>) returns (idx: seq<nat>)
    ensures Embeds(idx, Dedup(xs), xs)
    ensures forall k, j :: 0 <= k < |idx| && 0 <= j < idx[k] ==> xs[j].url != xs[idx[k]].url
  {
    if xs == [] {
      idx := [];
    } else {
      var init := xs[..|xs| - 1];
      var last := xs[|xs| - 1];
      var prev := DedupSubsequence(init);
      var kept := Dedup(init);
      assert forall j :: 0 <= j < |init| ==> xs[j] == init[j];
      if last.url in Urls(kept) {
        assert Dedup(xs) == kept;
        idx := prev;
      } else {
        DedupUrls(init);
        assert Dedup(xs) == kept + [last];
        idx := prev + [|xs| - 1];
        forall j | 0 <= j < |xs| - 1 ensures xs[j].url != last.url {
          assert init[j] in init;
        }
      }
    }
  }

  /** De-duplication changes no lookup: the first article with a URL is the
      same before and after. */
  lemma {:induction false} DedupPreservesLookup(xs: seq<Article>, u: string)
    ensures FindByUrl(Dedup(xs), u) == FindByUrl(xs, u)
  {
    if xs != [] {
      var init := xs[..|xs| - 1];
      var last := xs[|xs| - 1];
      assert xs == init + [last];
      DedupPreservesLookup(init, u);
      FindByUrlSnoc(init, last, u);
      var kept := Dedup(init);
      if last.url !in Urls(kept) {
        FindByUrlSnoc(kept, last, u);
      } else {
        DedupUrls(init);
        assert FindByUrl(init, last.url).Some?;
      }
    }
  }

  /** A list with distinct URLs is its own de-duplication. */
  lemma {:induction false} DedupOfDistinct(xs: seq<Article>)
    requires DistinctUrls(xs)
    ensures Dedup(xs) == xs
  {
    if xs != [] {
      var init := xs[..|xs| - 1];
      var last := xs[|xs| - 1];
      DedupOfDistinct(init);
      assert init + [last] == xs;
    }
  }

  /** Applying de-duplication twice is the same as applying it once. */
  lemma DedupIdempotent(xs: seq<Article>)
    ensures Dedup(Dedup(xs)) == Dedup(xs)
  {
    DedupDistinct(xs);
    DedupOfDistinct(Dedup(xs));
  }

  /** Only the empty list de-duplicates to the empty list. */
  lemma DedupEmptyIff(xs: seq<Article>)
    ensures Dedup(xs) == [] <==> xs == []
  {
    DedupUrls(xs);
    if xs != [] {
      assert xs[0] in xs;
    }
  }

  /** `uniqueArticles`: a filter over the articles with a growing seen-set. */
  method UniqueArticles(articles: seq<Article>) returns (unique: seq<Article>)
    ensures unique == Dedup(articles)
  {
    var seen: set<string> := {};
    unique := [];
    for i := 0 to |articles|
      invariant unique == Dedup(articles[..i])
      invariant seen == Urls(unique)
    {
      var article := articles[i];
      assert articles[..i + 1][..i] == articles[..i];
      if article.url !in seen {
        UrlsSnoc(unique, article);
        seen := seen + {article.url};
        unique := unique + [article];
      }
    }
    assert articles[..|articles|] == articles;
  }

  /** Which empty-state text the caller asked for. */
  datatype EmptyStateType = SearchEmpty | CategoryEmpty | GeneralEmpty

  /** What the list component renders. */
  datatype ListView =
    | Spinner
    | EmptyState(kind: EmptyStateType)
    | Cards(cards: seq<Article>, sentinel: bool, loadingMoreIndicator: bool, endMarker: bool)

  /** The rendering decision, given the raw article count and the de-duplicated list. */
  function SelectView(rawCount: nat, unique: seq<Article>, loading: bool, loadingMore: bool,
                      hasMore: bool, kind: EmptyStateType): (v: ListView)
    ensures v.Spinner? <==> loading && rawCount == 0
    ensures v.EmptyState? <==> !(loading && rawCount == 0) && unique == [] && !loading
    ensures v.EmptyState? ==> v.kind == kind
    ensures v.Cards? ==> v.cards == unique && v.sentinel == hasMore
                         && v.loadingMoreIndicator == loadingMore
                         && v.endMarker == (!hasMore && unique != [])
  {
    if loading && rawCount == 0 then Spinner
    else if unique == [] && !loading then EmptyState(kind)
    else Cards(unique, hasMore, loadingMore, !hasMore && unique != [])
  }

  /** `NewsList` rendered for the accumulated articles: the spinner only while
      the first page loads, the empty state only for an empty list at rest,
      and otherwise the de-duplicated cards, never an empty card list. */
  method Render(articles: seq<Article>, loading: bool, loadingMore: bool, hasMore: bool,
                kind: EmptyStateType) returns (v: ListView)
    ensures v.Spinner? <==> loading && articles == []
    ensures v.EmptyState? <==> !loading && articles == []
    ensures v.EmptyState? ==> v.kind == kind
    ensures v.Cards? ==> v.cards == Dedup(articles) && v.cards != []
                         && v.sentinel == hasMore && v.loadingMoreIndicator == loadingMore
                         && v.endMarker == !hasMore
  {
    var unique := UniqueArticles(articles);
    DedupEmptyIff(articles);
    v := SelectView(|articles|, unique, loading, loadingMore, hasMore, kind);
  }
}
