/** Shared vocabulary of the two article components: the article record as the
    CMS returns it, the abstract outcome of one `getArticles()` call, and the
    JavaScript truthiness tests the components apply to optional strings. */
module Articles {

  datatype Option<+T> = None | Some(value: T)

  /** One record of the `articles` collection. `excerpt` and `author` are
      optional fields (`undefined` is `None`). The date is kept as the raw
      string the CMS sends; its locale formatting is not modelled. */
  datatype Article = Article(
    id: int,
    title: string,
    slug: string,
    excerpt: Option<string>,
    content: string,
    author: Option<string>,
    publishedDate: string,
    status: string)

  /** What one call of `getArticles()` produces for a component: the list,
      already sorted newest first by the CMS, or a thrown error. */
  datatype FetchOutcome = Loaded(articles: seq<Article>) | Failed

  /** JavaScript truthiness of an optional string: `undefined`, `null` and
      `''` are falsy, every other string is truthy. */
  predicate Present(s: Option<string>) {
    s.Some? && s.value != ""
  }

  const ArticlesPath: string := "/articles/"

  /** The link target of an article: `/articles/${slug}`. */
  function ArticleHref(slug: string): (href: string)
    ensures |href| == |ArticlesPath| + |slug|
    ensures href[..|ArticlesPath|] == ArticlesPath && href[|ArticlesPath|..] == slug
  {
    ArticlesPath + slug
  }

  /** Distinct slugs give distinct link targets, so every link names exactly
      one article. */
  lemma ArticleHrefInjective(s: string, t: string)
    ensures ArticleHref(s) == ArticleHref(t) ==> s == t
  {
  }
}
