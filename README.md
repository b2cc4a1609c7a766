# Article components of a Directus + Plasmic site, modelled in Dafny

The site renders pages built in the Plasmic page builder. It adds two React
components, fed from the `articles` collection of a Directus CMS:

- `FeaturedArticle` fetches the article list and selects one article. With a
  truthy `articleSlug` it takes the first article carrying that slug;
  otherwise it takes the most recent article, which the CMS sorts first. It
  renders a loading skeleton, an error panel or the article. When the article
  has no excerpt, its summary is a plain-text preview of its HTML content.
- `ArticleList` fetches the list, keeps `limit ? data.slice(0, limit) : data`
  and renders a skeleton, an error panel, an "empty" notice or one card per
  article.

The model has four modules, one per file:

- `Articles` (`articles.dfy`): the article record, the abstract outcome of one
  `getArticles()` call (`Loaded(list)` or `Failed`), JavaScript truthiness of
  optional strings (`Present`) and the `/articles/<slug>` link.
- `TextPreview` (`text_preview.dfy`): `getTextPreview`. `StripTags` is the
  global replacement of `/<[^>]*>/` by `''`. `Preview` adds the cut at
  `maxLength` with `...`.
- `FeaturedArticle` (`featured_article.dfy`):
  - pure functions for the selection (`FindBySlug`, `Select`), the outcome of
    a fetch (`Resolve`) and the render (`Summary`, `CardOf`, `Render`);
  - a class `FeaturedArticleState` holding the component's state variables
    `article`, `loading` and `error`.
- `ArticleList` (`article_list.dfy`):
  - pure functions for the limit (`SliceEnd`, `Displayed`) and the render
    (`CardOf`, `Cards`, `Render`);
  - a class `ArticleListState` holding `articles`, `loading` and `error`.

Each state class has a `BeginFetch` method (`setLoading(true)`) and a
`CompleteFetch(outcome)` method. `CompleteFetch` does what the `try`/`catch`
stores and then the `finally` clause. `Fetch` runs both; `CurrentView()`
returns the branch that renders. Because the steps are separate, the skeleton
state between them is part of the model.

The model keeps one quirk of the source: no path ever resets `error` to
`null`. A successful fetch after a failed one therefore still renders the
error panel. In `FeaturedArticle` this also holds after a failed selection.
The `StickyErrorScenario` methods and the `Fetch` contracts state this.

Two consequences of the code that the model makes explicit:

- The list component renders four states: loading, error, an empty notice for
  an empty list, and the cards.
- In the featured component, every finished fetch stores an article or one of
  three error messages. So once `loading` is false, the error panel
  (`error || !article`) only shows when an error is stored, and it shows that
  error. Its fallback text `Article non trouvé` is never rendered.
  `FallbackUnreachable` proves this, and `FeaturedArticleState.Valid()` keeps
  the fact as an invariant.

## Model

| member | source | states |
|---|---|---|
| `Articles.ArticleHref` | components/ArticleList.tsx:109 | the link target is `/articles/` followed by exactly the slug |
| `Articles.ArticleHrefInjective` | components/ArticleList.tsx:145 | distinct slugs give distinct link targets |
| `TextPreview.StripTags` | components/FeaturedArticle.tsx:100 | stripping never lengthens the text and only emits characters of the input |
| `TextPreview.StripTagsLeavesNoTag` | components/FeaturedArticle.tsx:100 | after stripping, no `<` is followed anywhere later by a `>` |
| `TextPreview.NoTagSpanIsFixpoint` | components/FeaturedArticle.tsx:100 | a string with no `<…>` span is returned unchanged |
| `TextPreview.WithoutOpeningBracketUnchanged` | components/FeaturedArticle.tsx:100 | a string without `<` is returned unchanged |
| `TextPreview.StripTagsIdempotent` | components/FeaturedArticle.tsx:100 | stripping twice equals stripping once |
| `TextPreview.StripTagsIsSubsequence` | components/FeaturedArticle.tsx:100 | the stripped text is a subsequence of the input: characters are only deleted |
| `TextPreview.StripTagsPlainPrefix` | components/FeaturedArticle.tsx:100 | text before any `<` passes through unchanged, in front of the stripped rest |
| `TextPreview.StripTagsDropsTag` | components/FeaturedArticle.tsx:100 | one complete `<…>` tag at the front is removed as a whole |
| `TextPreview.StripTagsExample` | components/FeaturedArticle.tsx:100 | `<p>Hello <b>world</b></p>` becomes `Hello world` |
| `TextPreview.Preview` | components/FeaturedArticle.tsx:99-102 | a stripped text of at most `maxLength` characters is the preview; a longer one gives its first `maxLength` characters plus `...`, `maxLength + 3` in all |
| `TextPreview.PreviewIsPlainText` | components/FeaturedArticle.tsx:99-102 | the preview has no `<…>` span and at most `maxLength + 3` characters |
| `TextPreview.PreviewKeepsPrefix` | components/FeaturedArticle.tsx:101 | the preview begins with the stripped text, up to `maxLength` characters of it |
| `FeaturedArticle.NotFoundMessage` | components/FeaturedArticle.tsx:58 | the not-found message is `Article "`, then the slug, then `" non trouvé`: 21 characters longer than the slug |
| `FeaturedArticle.FindBySlug` | components/FeaturedArticle.tsx:49 | the search returns the first position whose slug matches, or none exactly when no article has that slug |
| `FeaturedArticle.Select` | components/FeaturedArticle.tsx:47-53 | a truthy slug selects the first article carrying it, and none exactly when no article carries it; an absent or empty slug selects element 0, and none exactly when the list is empty |
| `FeaturedArticle.SelectPicksFirstMatch` | components/FeaturedArticle.tsx:49 | with a truthy slug, the selected article is the one at the first matching position |
| `FeaturedArticle.EmptySlugSelectsMostRecent` | components/register-components.ts:61 | the registered default slug `''` selects exactly as an absent slug does: the most recent article |
| `FeaturedArticle.Resolve` | components/FeaturedArticle.tsx:41-62 | a failed fetch stores `Impossible de charger l'article`; with a truthy slug and no match, `Article "<slug>" non trouvé`; with no slug and an empty list, `Aucun article disponible`; otherwise the selected article; every stored message is one of these three and non-empty |
| `FeaturedArticle.Summary` | components/FeaturedArticle.tsx:147 | a non-empty excerpt is shown verbatim; a missing or empty excerpt falls back to the preview of the content |
| `FeaturedArticle.SummaryFallbackIsPlainText` | components/FeaturedArticle.tsx:99-102 | the fallback summary contains no `<…>` span and at most 203 characters |
| `FeaturedArticle.CardOf` | components/FeaturedArticle.tsx:117-152 | the card keeps title and date; the title and the call-to-action both link to `/articles/<slug>`; the author shows exactly when truthy; the text is the summary |
| `FeaturedArticle.Render` | components/FeaturedArticle.tsx:71-96 | loading renders the skeleton; otherwise an error or a missing article renders the error panel with the error text or `Article non trouvé`; otherwise the article view; `FeaturedArticleState.CurrentView` returns this for the component's state |
| `FeaturedArticle.FallbackUnreachable` | components/FeaturedArticle.tsx:86-91 | when a finished fetch has stored an article or one of the component's messages, the error panel shows the stored error and never the fallback `Article non trouvé` |
| `FeaturedArticle.FeaturedArticleState.constructor` | components/FeaturedArticle.tsx:35-37 | the component starts with no article, loading, and no error |
| `FeaturedArticle.FeaturedArticleState.BeginFetch` | components/FeaturedArticle.tsx:42 | a fetch starts by setting `loading`, so the skeleton renders; nothing else changes |
| `FeaturedArticle.FeaturedArticleState.CompleteFetch` | components/FeaturedArticle.tsx:43-65 | a selected article replaces `article` and leaves `error` as it was; a failure sets `error` and leaves `article`; `loading` ends false on every path; the fallback panel text is never the result |
| `FeaturedArticle.FeaturedArticleState.Fetch` | components/FeaturedArticle.tsx:40-66 | the combined effect of one fetch, and the view it leaves: an earlier error still renders after a successful selection |
| `FeaturedArticle.MissingSlugScenario` | components/FeaturedArticle.tsx:58 | slug `missing` that no article carries renders the panel `Article "missing" non trouvé` |
| `FeaturedArticle.MostRecentScenario` | components/FeaturedArticle.tsx:52 | without a slug, a non-empty list renders its first article |
| `FeaturedArticle.StickyErrorScenario` | components/FeaturedArticle.tsx:55-61 | a failed fetch followed by a successful one still renders `Impossible de charger l'article` |
| `ArticleList.SliceEnd` | components/ArticleList.tsx:47 | where `slice(0, limit)` stops never lies past the end of the list |
| `ArticleList.Displayed` | components/ArticleList.tsx:47 | the displayed list is a prefix of the fetched list; it is the whole list when `limit` is absent or 0; otherwise it has the length `slice(0, limit)` gives |
| `ArticleList.PositiveLimitKeepsFirst` | components/ArticleList.tsx:47 | a positive limit keeps the first `min(limit, n)` articles |
| `ArticleList.RegisteredLimitKeepsFirstTen` | components/register-components.ts:29-34 | the registered default `limit` 10 shows the first `min(10, n)` articles, while no limit shows the whole list |
| `ArticleList.NegativeLimitDropsLast` | components/ArticleList.tsx:47 | a negative limit drops the last `|limit|` articles, or all of them |
| `ArticleList.DisplayedPreservesOrder` | components/ArticleList.tsx:47-48 | every displayed article sits at its fetched position; none is duplicated or invented (multiset inclusion) |
| `ArticleList.CardOf` | components/ArticleList.tsx:105-151 | the card keeps id, title and date; title and `Lire plus` both link to `/articles/<slug>`; the excerpt shows exactly when `showExcerpt` holds and the excerpt is truthy; the author exactly when truthy |
| `ArticleList.Cards` | components/ArticleList.tsx:104 | exactly one card per article, in list order |
| `ArticleList.Render` | components/ArticleList.tsx:60-104 | precedence loading, then error (showing its text), then the empty notice exactly when the list is empty, then the non-empty card list; `ArticleListState.CurrentView` returns this for the component's state |
| `ArticleList.CardLinksIdentifyArticles` | components/ArticleList.tsx:109 | each card's two links go to its own article, and cards of distinct slugs never share a target |
| `ArticleList.ArticleListState.constructor` | components/ArticleList.tsx:38-40 | the component starts with no articles, loading, and no error |
| `ArticleList.ArticleListState.BeginFetch` | components/ArticleList.tsx:45 | a fetch starts by setting `loading`, so the skeleton renders; nothing else changes |
| `ArticleList.ArticleListState.CompleteFetch` | components/ArticleList.tsx:46-54 | success stores the limited list and keeps `error`; failure sets `Impossible de charger les articles` and keeps `articles`; `loading` ends false on every path |
| `ArticleList.ArticleListState.Fetch` | components/ArticleList.tsx:42-58 | the combined effect of one fetch, and the view it leaves: the error panel whenever an error was ever stored |
| `ArticleList.LimitTwoScenario` | components/ArticleList.tsx:47 | `limit` 2 over three fetched articles renders exactly the first two cards, in order |
| `ArticleList.StickyErrorScenario` | components/ArticleList.tsx:49-50 | a failed fetch followed by any later fetch still renders the error panel |

## Left out

- The data helpers of `lib/directus.ts` are not part of this model; the result of `getArticles()` is an input, `Loaded(list)` or `Failed`. As written, `getArticles` catches its own errors and returns `[]`, so the components' `catch` branches are reached only in this abstract model. `getArticleBySlug` and `getGlobalData` are used by neither component.
- `lib/plasmic.ts`, `components/register-components.ts` and the catch-all route `app/[[...catchall]]/page.tsx` are not part of this model. They only configure and call the page-builder SDK. Two registration defaults are covered. `articleSlug: ''` selects exactly as an absent slug does (`EmptySlugSelectsMostRecent`). `limit: 10` changes behaviour: a list placed with the page builder shows at most 10 articles, where the component without a limit shows them all (`RegisteredLimitKeepsFirstTen`).
- React scheduling is not modelled: the `useEffect` re-run when a prop changes, overlapping fetches, and their races. Each fetch is the step `BeginFetch` followed by the step `CompleteFetch`. Props are constants of each state object.
- The date text (`toLocaleDateString('fr-FR', …)`) depends on the locale library and is not modelled. Cards carry the raw `published_date` string.
- `console.error` logging, CSS classes, `className` and the static markup are not modelled. The model records only which branch renders and which data fields it shows.
- `ArticleList.Displayed`: the `limit` prop is an integer; a `NaN` limit (falsy, so the whole list) and a fractional limit (truncated by `slice`) are not modelled.
- `TextPreview.Preview`: `maxLength` is a natural number (the component only uses the default 200), and lengths count Dafny characters rather than UTF-16 code units.
