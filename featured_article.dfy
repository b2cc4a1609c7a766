/** The featured-article component: it fetches the article list, selects one
    article (by slug, or the most recent one) and renders a skeleton, an error
    panel or the article. */
module FeaturedArticle {
  import opened Articles
  import TextPreview

  const NoArticleMessage: string := "Aucun article disponible"
  const LoadFailedMessage: string := "Impossible de charger l'article"
  /** Shown by the error panel when there is no error text but no article. */
  const FallbackMessage: string := "Article non trouvé"

  /** `Article "${articleSlug}" non trouvé` */
  function NotFoundMessage(slug: string): (m: string)
    ensures |m| == |slug| + 21
    ensures m[..9] == "Article \"" && m[9..9 + |slug|] == slug
    ensures m[9 + |slug|..] == "\" non trouvé"
  {
    "Article \"" + slug + "\" non trouvé"
  }

  // ---------------------------------------------------------------------
  // Selection

  /** `i` is the position `articles.find(a => a.slug === slug)` stops at. */
  ghost predicate IsFirstMatch(articles: seq<Article>, slug: string, i: int) {
    0 <= i < |articles| && articles[i].slug == slug &&
    forall j :: 0 <= j < i ==> articles[j].slug != slug
  }

  /** The search performed by `articles.find(a => a.slug === slug)`. */
  function FindBySlug(articles: seq<Article>, slug: string): (r: Option<nat>)
    ensures r.Some? ==> IsFirstMatch(articles, slug, r.value)
    ensures r.None? <==> forall j :: 0 <= j < |articles| ==> articles[j].slug != slug
  {
    if articles == [] then None
    else if articles[0].slug == slug then Some(0)
    else match FindBySlug(articles[1..], slug)
      case None => None
      case Some(i) => Some(i + 1)
  }

  /** `articleSlug ? articles.find(...) : articles[0]`: a truthy slug selects
      the first article carrying it; an absent or empty slug selects the most
      recent article, which the CMS sorts first. */
  function Select(articles: seq<Article>, articleSlug: Option<string>): (r: Option<Article>)
    ensures Present(articleSlug) ==>
      (r.None? <==> forall j :: 0 <= j < |articles| ==> articles[j].slug != articleSlug.value)
    ensures Present(articleSlug) && r.Some? ==>
      exists i :: IsFirstMatch(articles, articleSlug.value, i) && r.value == articles[i]
    ensures !Present(articleSlug) ==> (r.Some? <==> articles != [])
    ensures !Present(articleSlug) && r.Some? ==> r.value == articles[0]
  {
    if Present(articleSlug) then
      match FindBySlug(articles, articleSlug.value)
      case None => None
      case Some(i) => Some(articles[i])
    else if articles != [] then Some(articles[0])
    else None
  }

  /** There is only one first match, so the selected article is determined by
      the list and the slug. */
  lemma FirstMatchUnique(articles: seq<Article>, slug: string, i: int, k: int)
    requires IsFirstMatch(articles, slug, i) && IsFirstMatch(articles, slug, k)
    ensures i == k
  {
  }

  /** With a truthy slug, the article selected is exactly the one at the first
      position carrying that slug. */
  lemma SelectPicksFirstMatch(articles: seq<Article>, slug: string, i: int)
    requires slug != "" && IsFirstMatch(articles, slug, i)
    ensures Select(articles, Some(slug)) == Some(articles[i])
  {
    var k := FindBySlug(articles, slug).value;
    FirstMatchUnique(articles, slug, i, k);
  }

  /** The slug property registered for the page builder defaults to `''`,
      which selects exactly as an absent slug does: the most recent article. */
  lemma EmptySlugSelectsMostRecent(articles: seq<Article>)
    ensures Select(articles, Some("")) == Select(articles, None)
    ensures articles != [] ==> Select(articles, Some("")) == Some(articles[0])
  {
  }

  // ---------------------------------------------------------------------
  // Outcome of one fetch

  /** What the `try`/`catch` of `fetchArticle` stores: an article, or an error. */
  datatype Resolution = Show(article: Article) | Fail(message: string)

  function Resolve(articleSlug: Option<string>, outcome: FetchOutcome): (r: Resolution)
    ensures outcome.Failed? ==> r == Fail(LoadFailedMessage)
    ensures r.Show? ==> outcome.Loaded? && Select(outcome.articles, articleSlug) == Some(r.article)
    ensures outcome.Loaded? && Present(articleSlug) ==>
      (r.Fail? <==> forall j :: 0 <= j < |outcome.articles| ==> outcome.articles[j].slug != articleSlug.value)
    ensures outcome.Loaded? && Present(articleSlug) && r.Fail? ==>
      r.message == NotFoundMessage(articleSlug.value)
    ensures outcome.Loaded? && !Present(articleSlug) ==>
      (r.Fail? <==> outcome.articles == []) && (r.Fail? ==> r.message == NoArticleMessage)
    ensures r.Fail? ==> StoredMessage(articleSlug, r.message) && r.message != ""
  {
    match outcome
    case Failed => Fail(LoadFailedMessage)
    case Loaded(articles) =>
      match Select(articles, articleSlug)
      case Some(a) => Show(a)
      case None =>
        Fail(if Present(articleSlug) then NotFoundMessage(articleSlug.value) else NoArticleMessage)
  }

  /** The error texts `fetchArticle` can store for a given slug. */
  predicate StoredMessage(articleSlug: Option<string>, m: string) {
    m == LoadFailedMessage || m == NoArticleMessage ||
    (Present(articleSlug) && m == NotFoundMessage(articleSlug.value))
  }

  // ---------------------------------------------------------------------
  // Rendering

  /** The fields of the article view that depend on the data. */
  datatype ArticleCard = ArticleCard(
    title: string,
    titleHref: string,
    author: Option<string>,
    publishedDate: string,
    summary: string,
    ctaHref: string)

  datatype View = Skeleton | ErrorPanel(text: string) | ArticleView(card: ArticleCard)

  /** `article.excerpt || getTextPreview(article.content)` */
  function Summary(a: Article): (s: string)
    ensures Present(a.excerpt) ==> s == a.excerpt.value
    ensures !Present(a.excerpt) ==> s == TextPreview.Preview(a.content, TextPreview.DefaultMaxLength)
  {
    if Present(a.excerpt) then a.excerpt.value
    else TextPreview.Preview(a.content, TextPreview.DefaultMaxLength)
  }

  /** A summary built from the content is plain text of at most 203
      characters; an excerpt is shown verbatim, whatever its length. */
  lemma SummaryFallbackIsPlainText(a: Article)
    requires !Present(a.excerpt)
    ensures TextPreview.NoTagSpan(Summary(a)) && |Summary(a)| <= 203
  {
    TextPreview.PreviewIsPlainText(a.content, TextPreview.DefaultMaxLength);
  }

  function CardOf(a: Article): (c: ArticleCard)
    ensures c.title == a.title && c.publishedDate == a.publishedDate
    ensures c.titleHref == c.ctaHref == ArticleHref(a.slug)
    ensures c.author.Some? <==> Present(a.author)
    ensures c.author.Some? ==> c.author.value == a.author.value
    ensures c.summary == Summary(a)
  {
    ArticleCard(
      a.title,
      ArticleHref(a.slug),
      if Present(a.author) then a.author else None,
      a.publishedDate,
      Summary(a),
      ArticleHref(a.slug))
  }

  /** Render precedence: loading first, then an error or a missing article,
      then the article. */
  function Render(loading: bool, error: Option<string>, article: Option<Article>): (v: View)
    ensures v.Skeleton? <==> loading
    ensures v.ErrorPanel? <==> !loading && (Present(error) || article.None?)
    ensures v.ErrorPanel? ==> v.text == if Present(error) then error.value else FallbackMessage
    ensures v.ArticleView? ==> article.Some? && v.card == CardOf(article.value)
  {
    if loading then Skeleton
    else if Present(error) || article.None? then
      ErrorPanel(if Present(error) then error.value else FallbackMessage)
    else ArticleView(CardOf(article.value))
  }

  /** Once a fetch has finished, an article or an error is always stored, and
      a stored error is one of the component's own messages; then the error
      panel shows that message, and the fallback text `Article non trouvé` is
      never rendered. */
  lemma FallbackUnreachable(articleSlug: Option<string>, loading: bool, error: Option<string>, article: Option<Article>)
    requires error.Some? ==> StoredMessage(articleSlug, error.value)
    requires !loading ==> article.Some? || error.Some?
    ensures Render(loading, error, article).ErrorPanel? ==>
      error.Some? && Render(loading, error, article).text == error.value
    ensures Render(loading, error, article) != ErrorPanel(FallbackMessage)
  {
    if error.Some? && Present(articleSlug) && error.value == NotFoundMessage(articleSlug.value) {
      assert |error.value| >= 21 > |FallbackMessage|;
    }
  }

  // ---------------------------------------------------------------------
  // Component state

  /** The component's three state variables and its `articleSlug` prop. */
  class FeaturedArticleState {
    const articleSlug: Option<string>
    var article: Option<Article>
    var loading: bool
    var error: Option<string>

    /** Every error the component stores is one of its own messages, and once
        a fetch has finished an article or an error is stored. */
    ghost predicate Valid()
      reads this
    {
      (error.Some? ==> StoredMessage(articleSlug, error.value)) &&
      (!loading ==> article.Some? || error.Some?)
    }

    /** `useState(null)`, `useState(true)`, `useState(null)`. */
    constructor (articleSlug: Option<string>)
      ensures Valid()
      ensures this.articleSlug == articleSlug
      ensures article == None && loading && error == None
    {
      this.articleSlug := articleSlug;
      article := None;
      loading := true;
      error := None;
    }

    /** What the component returns for its current state. */
    function CurrentView(): View
      reads this
    {
      Render(loading, error, article)
    }

    /** `setLoading(true)` at the head of `fetchArticle`. */
    method BeginFetch()
      requires Valid()
      modifies this
      ensures Valid()
      ensures loading
      ensures article == old(article) && error == old(error)
      ensures CurrentView() == Skeleton
    {
      loading := true;
    }

    /** The rest of `fetchArticle` once `getArticles()` has settled: store the
        selected article or an error, then clear `loading` in `finally`. A
        stored article never clears an earlier error. */
    method CompleteFetch(outcome: FetchOutcome)
      requires Valid()
      modifies this
      ensures Valid()
      ensures !loading
      ensures match Resolve(articleSlug, outcome)
        case Show(a) => article == Some(a) && error == old(error)
        case Fail(m) => error == Some(m) && article == old(article)
      ensures CurrentView() != ErrorPanel(FallbackMessage)
    {
      match outcome {
        case Failed =>
          error := Some(LoadFailedMessage);
        case Loaded(articles) =>
          var selected := Select(articles, articleSlug);
          if selected.Some? {
            article := selected;
          } else {
            error := Some(if Present(articleSlug) then NotFoundMessage(articleSlug.value) else NoArticleMessage);
          }
      }
      loading := false;
      FallbackUnreachable(articleSlug, loading, error, article);
    }

    /** One whole run of `fetchArticle`. */
    method Fetch(outcome: FetchOutcome)
      requires Valid()
      modifies this
      ensures Valid()
      ensures !loading
      ensures match Resolve(articleSlug, outcome)
        case Show(a) => article == Some(a) && error == old(error)
        case Fail(m) => error == Some(m) && article == old(article)
      ensures CurrentView() == match Resolve(articleSlug, outcome)
        case Show(a) => if old(error).Some? then ErrorPanel(old(error).value) else ArticleView(CardOf(a))
        case Fail(m) => ErrorPanel(m)
    {
      BeginFetch();
      CompleteFetch(outcome);
    }
  }

  // ---------------------------------------------------------------------
  // Scenarios

  /** The not-found text for the slug `missing`. */
  lemma NotFoundMessageOfMissing()
    ensures NotFoundMessage("missing") == "Article \"missing\" non trouvé"
  {
  }

  /** A slug that no fetched article carries renders the not-found panel. */
  method MissingSlugScenario(articles: seq<Article>) returns (v: View)
    requires forall j :: 0 <= j < |articles| ==> articles[j].slug != "missing"
    ensures v == ErrorPanel("Article \"missing\" non trouvé")
  {
    var component := new FeaturedArticleState(Some("missing"));
    assert Resolve(Some("missing"), Loaded(articles)) == Fail(NotFoundMessage("missing"));
    component.Fetch(Loaded(articles));
    v := component.CurrentView();
    assert v == ErrorPanel(NotFoundMessage("missing"));
    NotFoundMessageOfMissing();
  }

  /** With no slug, the most recent article is rendered, its summary taken
      from the excerpt or from the content. */
  method MostRecentScenario(articles: seq<Article>) returns (v: View)
    requires articles != []
    ensures v.ArticleView? && v.card == CardOf(articles[0])
  {
    var component := new FeaturedArticleState(None);
    component.Fetch(Loaded(articles));
    v := component.CurrentView();
  }

  /** The error is never reset: a failed fetch followed by a successful one
      still renders the failure message. */
  method StickyErrorScenario(articles: seq<Article>) returns (v: View)
    requires articles != []
    ensures v == ErrorPanel(LoadFailedMessage)
  {
    var component := new FeaturedArticleState(None);
    component.Fetch(Failed);
    component.Fetch(Loaded(articles));
    v := component.CurrentView();
  }
}
