# Knowledge base store — a Dafny model

The knowledge base is a single-page app that keeps articles and categories
in the browser and shows them as a searchable, category-filtered list. This
project models its in-memory store, the `KnowledgeBase` object in `app.js`,
without its DOM and `localStorage` code:

- the five state fields (`articles`, `categories`, `currentCategory`,
  `currentArticle`, `editingArticle`) as the class `Store.KnowledgeBase`,
  with the state each UI handler changes as a method;
- the views the page derives from that state as functions: the visible
  article list (category filter, then case-insensitive search), the sidebar
  counts, lookup by id and the card preview;
- the first-run seed data.

Files: `seqs.dfy` (an `Option` type; order-preserving `Filter` and its
laws), `text.dfy` (lower-casing, substring search, preview), `articles.dfy`
(records, views, lookup, seed data and their lemmas), `store.dfy` (the
class).

Modelling choices:

- `currentArticle` and `editingArticle` hold object references in the
  source, and `editingArticle` is an alias of an element of `articles`
  (app.js:136, app.js:267). The model keeps them as positions in
  `articles`. That is exact: positions only shift when `saveArticle`
  prepends (app.js:201), which happens only while `editingArticle` is null,
  and `saveArticle` clears `currentArticle` right after (app.js:209-211).
  `ShowArticleModal` therefore requires its position to be inside
  `articles`, standing for "a reference to one of the articles".
- `Valid()` states that both positions are inside `articles` and that the
  ghost fields `storedArticles`/`storedCategories`, the last values written
  to storage, equal the collections: every change is written back.
- Ids and timestamps (`Date.now()`, `new Date().toISOString()`) are method
  parameters. The two seed articles take two parameters, because the source
  reads the clock twice.
- `this.currentCategory ? … : …` tests truthiness, so both `null` and the
  empty name list all articles (`Articles.IsSelected`). A sidebar entry
  whose tag is `all` clears the selection, so a category literally named
  `all` cannot be selected (`Store.CategoryFromTag`).
- The search lower-cases the raw input once and skips the search filter
  when the result is empty (app.js:109-110); `Articles.Visible` does the
  same.

Behaviour of app.js a reader might not expect:

- No field is validated and no not-found error exists: `saveArticle` and
  `addCategory` accept empty strings, and `showArticle` silently does
  nothing for an unknown id. None of these errors is modelled.
- Ids are `Date.now()` and nothing checks that they are unique. The lemmas
  that need unique ids (`Articles.PrependFreshId`, `Articles.FindByIdUnique`)
  take freshness as a precondition.
- Seeding happens when `articles` alone is empty, and it overwrites
  `categories` even when categories are stored (app.js:19, app.js:25).
- With distinct category names the counts add up to the number of
  categorised articles (`Articles.CountsSumToCategorised`). An article whose
  category name is shared by two stored categories is counted once for each
  of them, and nothing keeps names distinct
  (`Articles.DuplicateNamesCountTwice`).
- Reading storage is not soft: `JSON.parse` on corrupt data throws
  (app.js:57, app.js:66).

## Model

| member | source | states |
|---|---|---|
| `Articles.Visible` | app.js:104-116 | the list is never longer than `articles`; what it holds and in which order is stated by `Articles.VisibleIsFilter`, `Articles.VisibleCharacterization` and `Articles.VisibleKeepsOrder` |
| `Articles.VisibleIsFilter` | app.js:104-116 | the category filter followed by the search filter is one order-preserving filter on the conjunction of the two tests |
| `Articles.VisibleCharacterization` | app.js:104-116 | an article is listed exactly when it is in the selected category (or none is selected) and, for a non-empty lower-cased term, the term occurs in its lower-cased title, body or category |
| `Articles.VisibleKeepsOrder` | app.js:104-116 | the list is a subsequence of `articles`: listed articles keep their stored relative order |
| `Articles.VisibleUnfiltered` | app.js:104-110 | with no category selected and an empty search the list is `articles` itself, in the same order |
| `Articles.VisibleInCategory` | app.js:104-106 | with a non-empty category C and no search every listed article has category exactly C and every article of category C is listed |
| `Articles.SearchIgnoresCase` | app.js:109 | the list depends on the search input only through its lower-cased form |
| `Articles.VisibleAfterPrepend` | app.js:201 | after a new article is put in front, the list is that article (if it passes both filters) followed by the previous list |
| `Text.ToLower` | app.js:109-114 | keeps the length, leaves no upper-case letter, maps A-Z to a-z and keeps every other character |
| `Text.Contains` | app.js:112-114 | the empty term is contained in every string and a contained term is no longer than the string; `Text.ContainsIffOccurs` characterises it fully |
| `Text.ContainsIffOccurs` | app.js:112-114 | `includes` holds exactly when the term occurs at some position of the string |
| `Text.Preview` | app.js:124 | the preview ends in "...", is at most 153 characters, has no `#`, `*` or backtick, is a subsequence of the first 150 body characters, keeps each of their other characters, and is exactly as long as the number of non-markup positions among them plus 3: the stripped prefix followed by "..." |
| `Text.PreviewOfPlainText` | app.js:124 | a body of at most 150 characters without markup characters is shown whole, followed by "..." |
| `Articles.CategoryCount` | app.js:86 | a count never exceeds the number of articles; `Articles.CategoryCountIsArticleCount` says which articles it counts |
| `Articles.CategoryCounts` | app.js:85-86 | one count per stored category, in category order: entry k is the number of positions in `articles` whose article carries the name of `categories[k]`, never above the number of articles |
| `Articles.CategoryCountIsArticleCount` | app.js:86 | a category's count is the number of positions in `articles` whose article has exactly that category name, possibly 0 |
| `Articles.CountsSumToCategorised` | app.js:81-93 | with distinct category names the counts add up to the number of articles whose category is a stored one, which is at most the "All Articles" count |
| `Articles.DuplicateNamesCountTwice` | app.js:85-86 | with two categories of the same name one article is counted twice, so the counts exceed the article total |
| `Articles.CountAfterPrepend` | app.js:194-201 | creating an article adds one to its own category's count and nothing to any other |
| `Articles.CountAfterEdit` | app.js:189-191 | editing an article moves one unit of count from its old category to its new one |
| `Articles.CountsAfterAddCategory` | app.js:224-228 | adding a category appends its count and leaves the earlier counts unchanged; a name no article carries counts 0 |
| `Articles.FindById` | app.js:136 | the result is the first position whose id matches, or None exactly when no article has that id |
| `Articles.FindByIdUnique` | app.js:136 | with unique ids, looking up an article's id finds that article's position |
| `Articles.PrependFreshId` | app.js:194-201 | prepending an article with a fresh id keeps ids unique and the lookup then finds it first |
| `Articles.EditKeepsIdsUnique` | app.js:189-191 | editing title, category and body keeps ids unique |
| `Articles.SeedCategories` | app.js:25-30 | four categories with distinct names |
| `Articles.SeedArticles` | app.js:32-47 | two articles with distinct ids, each with its own clock reading as `created`, both in the first seed category |
| `Articles.SeedFacts` | app.js:25-47 | the seed has 2 articles with distinct ids and 4 categories with distinct names, and its counts are 2, 0, 0, 0 |
| `Store.KnowledgeBase.VisibleArticles` | app.js:104-116 | the grid's list for the current state is the stored articles that pass the category and search tests, in stored order |
| `Store.KnowledgeBase.Counts` | app.js:81-87 | one sidebar count per stored category, equal to the number of stored articles carrying its name (the "All Articles" entry, app.js:81, is `|articles|` and has no member of its own) |
| `Store.KnowledgeBase.constructor` | app.js:3-11 | the store starts with what storage held, no selection, no article viewed, no editor binding; it is seeded exactly when no article was stored |
| `Store.KnowledgeBase.Init` | app.js:13-22 | an empty article list is replaced by the seed (and the categories by the seed categories, whatever they were); otherwise neither collection changes |
| `Store.KnowledgeBase.LoadSampleData` | app.js:24-53 | both collections become the seed and both are written to storage; nothing else changes |
| `Store.KnowledgeBase.ShowArticle` | app.js:135-139 | the viewed article becomes the first one with the id; with no such article nothing changes |
| `Store.KnowledgeBase.HideArticle` | app.js:157-161 | no article is viewed; nothing else changes |
| `Store.KnowledgeBase.ShowArticleModal` | app.js:163-164 | the editor is bound to the given article or to none; nothing else changes |
| `Store.KnowledgeBase.EditCurrentArticle` | app.js:266-268 | the editor is bound to the article being viewed |
| `Store.KnowledgeBase.HideArticleModal` | app.js:181-184 | the editor is unbound; nothing else changes |
| `Store.KnowledgeBase.SaveArticle` | app.js:186-212 | unbound, a new article with the given fields is put in front; bound to position i, only that article's title, category and body change, its id and timestamp and every other article stay; categories and selection are unchanged, and afterwards the editor is unbound and no article is viewed; a new article adds one to the count of every category carrying its name, an edit moves one unit of count from the old category name to the new one |
| `Store.KnowledgeBase.AddCategory` | app.js:223-232 | the categories become the old ones followed by the new one, with no duplicate check; articles are unchanged; the sidebar counts gain the new category's count at the end and keep the earlier ones |
| `Store.KnowledgeBase.SelectCategory` | app.js:241-249 | the selection becomes the clicked entry's category, or none for the "all" entry; nothing else changes |
| `Store.CategoryFromTag` | app.js:245-246 | the tag `all` (and only it) means no category; any other tag selects the category of that name |
| `Store.Reload` | app.js:55-67 | a fresh store built from what another store wrote has its articles and its categories; a store with no article is seeded again, articles and categories both |

## Left out

- Rendering and event wiring (`renderCategories`, `renderArticles` markup, `attachEventListeners`, `showCategoryModal`, `hideCategoryModal`, the form resets and `classList` changes): they only produce or change the page. The counts and the visible list they display are modelled, and so is the state each handler changes. The click handlers' "no entry was clicked" guards (app.js:243, app.js:254) are page-level and left out.
- Persistence (`loadArticles`, `saveArticles`, `loadCategories`, `saveCategories`): storage is an outside key-value store with a JSON serializer. The constructor takes the already parsed collections, and the ghost fields record what was last written. A parse failure, which throws in the source, is not modelled.
- Markdown rendering (`marked.parse`) and date display (`toLocaleDateString`) in `showArticle`: they belong to an outside library and to the page.
- Clock readings: `Date.now()` and `new Date().toISOString()` are passed in as parameters.
- Page start-up (`DOMContentLoaded`, app.js:319-321).
- Text.ToLower: lower-cases ASCII letters only, where `toLowerCase` applies full Unicode case mapping.
- Text.Preview: counts characters, where `substring(0, 150)` counts UTF-16 code units.
- Store.KnowledgeBase.LoadSampleData: requires `articles` to be empty, which holds at its only call site (app.js:19-20). The reason is that a position into a collection that was replaced cannot be represented.
