/** The article-list component: it fetches the article list, keeps at most
    `limit` of them, and renders a skeleton, an error panel, an empty notice or
    one card per article. */
module ArticleList {
  import opened Articles

  const LoadFailedMessage: string := "Impossible de charger les articles"

  // ---------------------------------------------------------------------
  // Limiting

  /** JavaScript truthiness of the optional `limit` prop: `undefined` and `0`
      are falsy. */
  predicate LimitSet(limit: Option<int>) {
    limit.Some? && limit.value != 0
  }

  /** Where `slice(0, end)` stops on a list of length `n`: a negative `end`
      counts back from the end of the list, and both are clamped to `0..n`. */
  function SliceEnd(n: nat, end: int): (k: nat)
    ensures k <= n
  {
    if end < 0 then (if n + end >= 0 then n + end else 0)
    else if end <= n then end
    else n
  }

  /** `limit ? data.slice(0, limit) : data` */
  function Displayed(data: seq<Article>, limit: Option<int>): (r: seq<Article>)
    ensures r <= data
    ensures !LimitSet(limit) ==> r == data
    ensures LimitSet(limit) ==> |r| == SliceEnd(|data|, limit.value)
  {
    if LimitSet(limit) then data[..SliceEnd(|data|, limit.value)] else data
  }

  /** A positive limit keeps the first `min(limit, n)` fetched articles. */
  lemma PositiveLimitKeepsFirst(data: seq<Article>, limit: int)
    requires limit > 0
    ensures Displayed(data, Some(limit)) == data[..if limit <= |data| then limit else |data|]
  {
  }

  /** The `limit` the page builder registers for the list by default. */
  const RegisteredLimit: int := 10

  /** A list placed with the page builder's default shows at most the first
      10 fetched articles, where the component left without a limit shows
      them all. */
  lemma RegisteredLimitKeepsFirstTen(data: seq<Article>)
    ensures Displayed(data, Some(RegisteredLimit)) == data[..if |data| <= 10 then |data| else 10]
    ensures Displayed(data, None) == data
  {
    PositiveLimitKeepsFirst(data, RegisteredLimit);
  }

  /** A negative limit drops the last `|limit|` fetched articles (all of them
      when there are fewer). */
  lemma NegativeLimitDropsLast(data: seq<Article>, limit: int)
    requires limit < 0
    ensures Displayed(data, Some(limit)) == data[..if |data| + limit >= 0 then |data| + limit else 0]
  {
  }

  /** The displayed list only ever drops articles from the end: every shown
      article sits at its fetched position, none is repeated or invented. */
  lemma DisplayedPreservesOrder(data: seq<Article>, limit: Option<int>)
    ensures forall i :: 0 <= i < |Displayed(data, limit)| ==> Displayed(data, limit)[i] == data[i]
    ensures multiset(Displayed(data, limit)) <= multiset(data)
  {
    var r := Displayed(data, limit);
    assert data == r + data[|r|..];
  }

  // ---------------------------------------------------------------------
  // Rendering

  /** The fields of one article card that depend on the data. */
  datatype Card = Card(
    key: int,
    titleHref: string,
    title: string,
    excerpt: Option<string>,
    author: Option<string>,
    publishedDate: string,
    readMoreHref: string)

  datatype View = Skeleton | ErrorPanel(message: string) | EmptyNotice | CardList(cards: seq<Card>)

  /** One `<article>` element: the excerpt only when `showExcerpt` holds and
      the excerpt is truthy, the author only when truthy. */
  function CardOf(a: Article, showExcerpt: bool): (c: Card)
    ensures c.key == a.id && c.title == a.title && c.publishedDate == a.publishedDate
    ensures c.titleHref == c.readMoreHref == ArticleHref(a.slug)
    ensures c.excerpt.Some? <==> showExcerpt && Present(a.excerpt)
    ensures c.excerpt.Some? ==> c.excerpt.value == a.excerpt.value
    ensures c.author.Some? <==> Present(a.author)
    ensures c.author.Some? ==> c.author.value == a.author.value
  {
    Card(
      a.id,
      ArticleHref(a.slug),
      a.title,
      if showExcerpt && Present(a.excerpt) then a.excerpt else None,
      if Present(a.author) then a.author else None,
      a.publishedDate,
      ArticleHref(a.slug))
  }

  /** `articles.map(article => <article ...>)` */
  function Cards(articles: seq<Article>, showExcerpt: bool): (cs: seq<Card>)
    ensures |cs| == |articles|
    ensures forall i :: 0 <= i < |articles| ==> cs[i] == CardOf(articles[i], showExcerpt)
  {
    if articles == [] then []
    else [CardOf(articles[0], showExcerpt)] + Cards(articles[1..], showExcerpt)
  }

  /** Render precedence: loading, then an error, then the empty notice, then
      the cards. */
  function Render(loading: bool, error: Option<string>, articles: seq<Article>, showExcerpt: bool): (v: View)
    ensures v.Skeleton? <==> loading
    ensures v.ErrorPanel? <==> !loading && Present(error)
    ensures v.ErrorPanel? ==> v.message == error.value
    ensures v.EmptyNotice? <==> !loading && !Present(error) && articles == []
    ensures v.CardList? ==> v.cards == Cards(articles, showExcerpt) && v.cards != []
  {
    if loading then Skeleton
    else if Present(error) then ErrorPanel(error.value)
    else if |articles| == 0 then EmptyNotice
    else CardList(Cards(articles, showExcerpt))
  }

  /** Every card links, from its title and from its "Lire plus" link, to the
      article it shows, so two cards of distinct slugs never share a target. */
  lemma CardLinksIdentifyArticles(articles: seq<Article>, showExcerpt: bool, i: int, j: int)
    requires 0 <= i < |articles| && 0 <= j < |articles|
    requires articles[i].slug != articles[j].slug
    ensures var cs := Cards(articles, showExcerpt);
            cs[i].titleHref == cs[i].readMoreHref == ArticleHref(articles[i].slug) &&
            cs[i].titleHref != cs[j].titleHref
  {
    ArticleHrefInjective(articles[i].slug, articles[j].slug);
  }

  // ---------------------------------------------------------------------
  // Component state

  /** The component's three state variables and its `limit` and
      `showExcerpt` props. */
  class ArticleListState {
    const limit: Option<int>
    const showExcerpt: bool
    var articles: seq<Article>
    var loading: bool
    var error: Option<string>

    /** The only error the component ever stores is its fixed message. */
    ghost predicate Valid()
      reads this
    {
      error.Some? ==> error.value == LoadFailedMessage
    }

    /** `useState([])`, `useState(true)`, `useState(null)`; `showExcerpt`
        defaults to `true`. */
    constructor (limit: Option<int>, showExcerpt: bool)
      ensures Valid()
      ensures this.limit == limit && this.showExcerpt == showExcerpt
      ensures articles == [] && loading && error == None
    {
      this.limit := limit;
      this.showExcerpt := showExcerpt;
      articles := [];
      loading := true;
      error := None;
    }

    /** What the component returns for its current state. */
    function CurrentView(): View
      reads this
    {
      Render(loading, error, articles, showExcerpt)
    }

    /** `setLoading(true)` at the head of `fetchArticles`. */
    method BeginFetch()
      requires Valid()
      modifies this
      ensures Valid()
      ensures loading
      ensures articles == old(articles) && error == old(error)
      ensures CurrentView() == Skeleton
    {
      loading := true;
    }

    /** The rest of `fetchArticles` once `getArticles()` has settled: store the
        limited list or the error message, then clear `loading` in `finally`.
        Nothing resets `error`. */
    method CompleteFetch(outcome: FetchOutcome)
      requires Valid()
      modifies this
      ensures Valid()
      ensures !loading
      ensures outcome.Loaded? ==> articles == Displayed(outcome.articles, limit) && error == old(error)
      ensures outcome.Failed? ==> error == Some(LoadFailedMessage) && articles == old(articles)
    {
      match outcome {
        case Loaded(data) =>
          articles := Displayed(data, limit);
        case Failed =>
          error := Some(LoadFailedMessage);
      }
      loading := false;
    }

    /** One whole run of `fetchArticles`. */
    method Fetch(outcome: FetchOutcome)
      requires Valid()
      modifies this
      ensures Valid()
      ensures !loading
      ensures outcome.Loaded? ==> articles == Displayed(outcome.articles, limit) && error == old(error)
      ensures outcome.Failed? ==> error == Some(LoadFailedMessage) && articles == old(articles)
      ensures CurrentView() ==
        if error.Some? then ErrorPanel(LoadFailedMessage)
        else if articles == [] then EmptyNotice
        else CardList(Cards(articles, showExcerpt))
    {
      BeginFetch();
      CompleteFetch(outcome);
    }
  }

  // ---------------------------------------------------------------------
  // Scenarios

  /** A limit of 2 over three fetched articles renders exactly two cards, the
      first two in fetched order. */
  method LimitTwoScenario(a0: Article, a1: Article, a2: Article) returns (v: View)
    ensures v == CardList([CardOf(a0, true), CardOf(a1, true)])
  {
    var component := new ArticleListState(Some(2), true);
    component.Fetch(Loaded([a0, a1, a2]));
    v := component.CurrentView();
  }

  /** A failed fetch shows the error, and so does every later fetch. */
  method StickyErrorScenario(data: seq<Article>) returns (v: View)
    ensures v == ErrorPanel(LoadFailedMessage)
  {
    var component := new ArticleListState(None, true);
    component.Fetch(Failed);
    component.Fetch(Loaded(data));
    v := component.CurrentView();
  }
}
