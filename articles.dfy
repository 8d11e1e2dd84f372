/**
 * The records of the knowledge base and the views derived from them:
 * the visible article list (category filter, then search), the per-category
 * counts of the sidebar, lookup by id and the seed data of a first run.
 */
module Articles {
  import opened Options
  import opened Seqs
  import opened Text

  /** An article; `category` holds a category NAME, not a category id. */
  datatype Article = Article(id: int, title: string, category: string, body: string, created: string)

  datatype Category = Category(id: int, name: string)

  // ---------------------------------------------------------------------------
  // The visible set (renderArticles)
  // ---------------------------------------------------------------------------

  /**
   * The category filter is in force. The store tests `currentCategory` for
   * truthiness, so both "no category" and the empty name mean all articles.
   */
  predicate IsSelected(current: Option<string>)
  {
    current.Some? && current.value != ""
  }

  predicate InSelectedCategory(a: Article, current: Option<string>)
  {
    !IsSelected(current) || a.category == current.value
  }

  /** `term` (already lower-cased) occurs in the lower-cased title, body or category. */
  predicate MatchesTerm(a: Article, term: string)
  {
    || Contains(ToLower(a.title), term)
    || Contains(ToLower(a.body), term)
    || Contains(ToLower(a.category), term)
  }

  /** The category test of the list and of the counts: `a => a.category === name`. */
  function HasCategory(name: string): Article -> bool
  {
    (a: Article) => a.category == name
  }

  /** The search test of the list, for a lower-cased term. */
  function MatchesSearch(term: string): Article -> bool
  {
    a => MatchesTerm(a, term)
  }

  /** The articles listed for the selected category and the raw search input. */
  function Visible(articles: seq<Article>, current: Option<string>, searchInput: string): (r: seq<Article>)
    ensures |r| <= |articles|
  {
    var base := if IsSelected(current) then Filter(articles, HasCategory(current.value)) else articles;
    var term := ToLower(searchInput);
    if term != "" then Filter(base, MatchesSearch(term)) else base
  }

  /** Whether one article is listed: both filters, conjunctively. */
  predicate Passes(a: Article, current: Option<string>, searchInput: string)
  {
    && InSelectedCategory(a, current)
    && (ToLower(searchInput) == "" || MatchesTerm(a, ToLower(searchInput)))
  }

  function Listed(current: Option<string>, searchInput: string): Article -> bool
  {
    a => Passes(a, current, searchInput)
  }

  /** The two successive filters are one order-preserving filter on their conjunction. */
  lemma VisibleIsFilter(articles: seq<Article>, current: Option<string>, searchInput: string)
    ensures Visible(articles, current, searchInput) == Filter(articles, Listed(current, searchInput))
  {
    var term := ToLower(searchInput);
    var passes := Listed(current, searchInput);
    var matches := MatchesSearch(term);
    if IsSelected(current) {
      var inCat := HasCategory(current.value);
      if term != "" {
        FilterFuse(articles, inCat, matches);
        FilterExtensional(articles, Both(inCat, matches), passes);
      } else {
        FilterExtensional(articles, inCat, passes);
      }
    } else {
      if term != "" {
        FilterExtensional(articles, matches, passes);
      } else {
        FilterAll(articles, passes);
      }
    }
  }

  /** The list keeps the stored order: it is a subsequence of `articles`. */
  lemma VisibleKeepsOrder(articles: seq<Article>, current: Option<string>, searchInput: string)
    ensures IsSubsequence(Visible(articles, current, searchInput), articles)
  {
    VisibleIsFilter(articles, current, searchInput);
    FilterIsSubsequence(articles, Listed(current, searchInput));
  }

  /** An article is listed exactly when it passes the category filter and the search. */
  lemma VisibleCharacterization(articles: seq<Article>, current: Option<string>, searchInput: string)
    ensures forall v :: v in Visible(articles, current, searchInput) ==>
      v in articles && InSelectedCategory(v, current)
      && (ToLower(searchInput) == "" || MatchesTerm(v, ToLower(searchInput)))
    ensures forall i :: 0 <= i < |articles| ==>
      (articles[i] in Visible(articles, current, searchInput) <==> Passes(articles[i], current, searchInput))
  {
    VisibleIsFilter(articles, current, searchInput);
    FilterMembers(articles, Listed(current, searchInput));
    var r := Visible(articles, current, searchInput);
    forall v | v in r
      ensures v in articles && Passes(v, current, searchInput)
    {
      var k :| 0 <= k < |r| && r[k] == v;
    }
  }

  /** No category and no search term: the whole collection, in stored order. */
  lemma VisibleUnfiltered(articles: seq<Article>, current: Option<string>)
    requires !IsSelected(current)
    ensures Visible(articles, current, "") == articles
  {
  }

  /** A selected category with an empty search: exactly that category's articles. */
  lemma VisibleInCategory(articles: seq<Article>, name: string)
    requires name != ""
    ensures forall v :: v in Visible(articles, Some(name), "") ==> v in articles && v.category == name
    ensures forall i :: 0 <= i < |articles| && articles[i].category == name ==>
      articles[i] in Visible(articles, Some(name), "")
  {
    VisibleCharacterization(articles, Some(name), "");
  }

  /** Only the lower-cased search input matters: the search ignores its letter case. */
  lemma SearchIgnoresCase(articles: seq<Article>, current: Option<string>, searchInput: string)
    ensures Visible(articles, current, searchInput) == Visible(articles, current, ToLower(searchInput))
  {
    ToLowerIdempotent(searchInput);
  }

  /** A prepended article is listed first if it passes the filters; the rest is unchanged. */
  lemma VisibleAfterPrepend(a: Article, articles: seq<Article>, current: Option<string>, searchInput: string)
    ensures Visible([a] + articles, current, searchInput)
         == (if Passes(a, current, searchInput) then [a] else []) + Visible(articles, current, searchInput)
  {
    VisibleIsFilter([a] + articles, current, searchInput);
    VisibleIsFilter(articles, current, searchInput);
    FilterCons(a, articles, Listed(current, searchInput));
  }

  // ---------------------------------------------------------------------------
  // Category counts (renderCategories)
  // ---------------------------------------------------------------------------

  /** The sidebar count of one category: how many articles carry its name. */
  function CategoryCount(articles: seq<Article>, name: string): (r: nat)
    ensures r <= |articles|
  {
    |Filter(articles, HasCategory(name))|
  }

  /** The counts of the stored categories, in category order. */
  function CategoryCounts(articles: seq<Article>, categories: seq<Category>): (r: seq<nat>)
    ensures |r| == |categories|
    ensures forall k :: 0 <= k < |r| ==> r[k] <= |articles|
    ensures forall k :: 0 <= k < |r| ==>
      r[k] == |set j | 0 <= j < |articles| && articles[j].category == categories[k].name|
  {
    var counts := seq(|categories|, i requires 0 <= i < |categories| => CategoryCount(articles, categories[i].name));
    forall k | 0 <= k < |counts|
      ensures counts[k] == |set j | 0 <= j < |articles| && articles[j].category == categories[k].name|
    {
      CategoryCountIsArticleCount(articles, categories[k].name);
    }
    counts
  }

  function Sum(xs: seq<nat>): nat
  {
    if xs == [] then 0 else xs[0] + Sum(xs[1..])
  }

  function NameSet(categories: seq<Category>): set<string>
  {
    set c | c in categories :: c.name
  }

  /** `a => a.category` is one of `names`. */
  function InNames(names: set<string>): Article -> bool
  {
    (a: Article) => a.category in names
  }

  predicate DistinctNames(categories: seq<Category>)
  {
    forall i, j :: 0 <= i < j < |categories| ==> categories[i].name != categories[j].name
  }

  /** A category's count is the number of positions holding an article of that category (possibly 0). */
  lemma CategoryCountIsArticleCount(articles: seq<Article>, name: string)
    ensures CategoryCount(articles, name) == |set i | 0 <= i < |articles| && articles[i].category == name|
  {
    var p := HasCategory(name);
    FilterLengthIsPositionCount(articles, p);
    assert Positions(articles, p) == set i | 0 <= i < |articles| && articles[i].category == name;
  }

  /**
   * When category names are distinct, the counts add up to the number of articles
   * whose category is a stored one (and so to at most the "All Articles" count).
   */
  lemma {:induction false} CountsSumToCategorised(articles: seq<Article>, categories: seq<Category>)
    requires DistinctNames(categories)
    ensures Sum(CategoryCounts(articles, categories)) == |Filter(articles, InNames(NameSet(categories)))|
    ensures Sum(CategoryCounts(articles, categories)) <= |articles|
  {
    if categories == [] {
      var f := Filter(articles, InNames(NameSet(categories)));
      FilterMembers(articles, InNames(NameSet(categories)));
      if f != [] {
        assert InNames(NameSet(categories))(f[0]);
      }
    } else {
      var first, rest := categories[0], categories[1..];
      DistinctNamesTail(categories);
      CountsSumToCategorised(articles, rest);
      CountsOfFirst(articles, categories);
      var p, q := HasCategory(first.name), InNames(NameSet(rest));
      FilterDisjointLength(articles, p, q);
      FilterExtensional(articles, Either(p, q), InNames(NameSet(categories)));
    }
  }

  lemma CountsOfFirst(articles: seq<Article>, categories: seq<Category>)
    requires categories != []
    ensures Sum(CategoryCounts(articles, categories))
         == CategoryCount(articles, categories[0].name) + Sum(CategoryCounts(articles, categories[1..]))
  {
    var counts := CategoryCounts(articles, categories);
    assert counts[1..] == CategoryCounts(articles, categories[1..]);
  }

  lemma DistinctNamesTail(categories: seq<Category>)
    requires DistinctNames(categories) && categories != []
    ensures DistinctNames(categories[1..])
    ensures categories[0].name !in NameSet(categories[1..])
    ensures NameSet(categories) == {categories[0].name} + NameSet(categories[1..])
  {
    var first, rest := categories[0], categories[1..];
    assert categories == [first] + rest;
  }

  /** Appending a category appends its count and leaves the other counts as they were. */
  lemma CountsAfterAddCategory(articles: seq<Article>, categories: seq<Category>, c: Category)
    ensures CategoryCounts(articles, categories + [c])
         == CategoryCounts(articles, categories) + [CategoryCount(articles, c.name)]
    ensures (forall i :: 0 <= i < |articles| ==> articles[i].category != c.name) ==>
      CategoryCounts(articles, categories + [c])[|categories|] == 0
  {
    CategoryCountIsArticleCount(articles, c.name);
    var none := set i | 0 <= i < |articles| && articles[i].category == c.name;
    if forall i :: 0 <= i < |articles| ==> articles[i].category != c.name {
      assert none == {};
    }
  }

  /** Without distinct names the sum overcounts: the code does not keep names distinct. */
  lemma DuplicateNamesCountTwice()
    ensures var articles := [Article(1, "t", "A", "b", "c")];
            var categories := [Category(1, "A"), Category(2, "A")];
            Sum(CategoryCounts(articles, categories)) == 2 > |articles|
  {
    var articles := [Article(1, "t", "A", "b", "c")];
    var categories := [Category(1, "A"), Category(2, "A")];
    assert CategoryCount(articles, "A") == 1 by {
      FilterCons(articles[0], [], HasCategory("A"));
      assert articles == [articles[0]] + [];
    }
    assert CategoryCounts(articles, categories) == [1, 1];
    assert [1, 1][1..] == [1];
    assert [1][1..] == [];
  }

  /** Prepending an article adds one to its own category's count and nothing to any other. */
  lemma CountAfterPrepend(a: Article, articles: seq<Article>, name: string)
    ensures CategoryCount([a] + articles, name)
         == CategoryCount(articles, name) + (if a.category == name then 1 else 0)
  {
    FilterCons(a, articles, HasCategory(name));
  }

  /** Re-tagging one article moves one unit of count from its old category to its new one. */
  lemma CountAfterEdit(articles: seq<Article>, i: nat, edited: Article, name: string)
    requires i < |articles|
    ensures CategoryCount(articles[i := edited], name) + (if articles[i].category == name then 1 else 0)
         == CategoryCount(articles, name) + (if edited.category == name then 1 else 0)
  {
    var p := HasCategory(name);
    var before, after := articles[..i], articles[i + 1..];
    assert articles == before + [articles[i]] + after;
    assert articles[i := edited] == before + [edited] + after;
    FilterConcat(before + [articles[i]], after, p);
    FilterConcat(before, [articles[i]], p);
    FilterConcat(before + [edited], after, p);
    FilterConcat(before, [edited], p);
  }

  // ---------------------------------------------------------------------------
  // Lookup by id (showArticle)
  // ---------------------------------------------------------------------------

  /** `articles.find(a => a.id === id)`, as the position of the first match. */
  function FindById(articles: seq<Article>, id: int): (r: Option<nat>)
    ensures r.Some? ==> r.value < |articles| && articles[r.value].id == id
    ensures r.Some? ==> forall j :: 0 <= j < r.value ==> articles[j].id != id
    ensures r.None? <==> forall j :: 0 <= j < |articles| ==> articles[j].id != id
  {
    if articles == [] then None
    else if articles[0].id == id then Some(0)
    else match FindById(articles[1..], id)
      case None => None
      case Some(k) => Some(k + 1)
  }

  predicate UniqueIds(articles: seq<Article>)
  {
    forall i, j :: 0 <= i < j < |articles| ==> articles[i].id != articles[j].id
  }

  /** With unique ids, looking up an article's id finds that very article. */
  lemma FindByIdUnique(articles: seq<Article>, i: nat)
    requires UniqueIds(articles) && i < |articles|
    ensures FindById(articles, articles[i].id) == Some(i)
  {
  }

  /** A fresh id keeps ids unique when the new article is prepended, and is then found first. */
  lemma PrependFreshId(a: Article, articles: seq<Article>)
    requires UniqueIds(articles)
    requires forall j :: 0 <= j < |articles| ==> articles[j].id != a.id
    ensures UniqueIds([a] + articles)
    ensures FindById([a] + articles, a.id) == Some(0)
  {
  }

  /** Editing title, category and body keeps ids unique. */
  lemma EditKeepsIdsUnique(articles: seq<Article>, i: nat, title: string, category: string, body: string)
    requires UniqueIds(articles) && i < |articles|
    ensures UniqueIds(articles[i := articles[i].(title := title, category := category, body := body)])
  {
  }

  // ---------------------------------------------------------------------------
  // Seed data (loadSampleData)
  // ---------------------------------------------------------------------------

  function SeedCategories(): (r: seq<Category>)
    ensures |r| == 4 && DistinctNames(r)
  {
    [ Category(1, "Getting Started"),
      Category(2, "Bot Commands"),
      Category(3, "Workflows"),
      Category(4, "Troubleshooting") ]
  }

  const WelcomeBody := "# Welcome!\n\nThis is your knowledge base for documenting everything your bots and employees need to know.\n\n## Features\n\n- **Search**: Find articles quickly\n- **Categories**: Organize by topic\n- **Markdown**: Write with formatting\n- **Easy editing**: Click any article to edit\n\n## Getting Started\n\n1. Create categories for your topics\n2. Add articles with documentation\n3. Use search to find information fast"

  const AddingBody := "# Adding Articles\n\nClick the **+ button** in the bottom right to create a new article.\n\n## Steps\n\n1. Enter a title\n2. Select a category\n3. Write your content in Markdown\n4. Click Save\n\nYou can use Markdown formatting:\n\n- **Bold text**\n- *Italic text*\n- `code snippets`\n- Lists and more!"

  /** The two sample articles; each `created` is its own reading of the clock. */
  function SeedArticles(created1: string, created2: string): (r: seq<Article>)
    ensures |r| == 2 && UniqueIds(r)
    ensures r[0].created == created1 && r[1].created == created2
    ensures forall i :: 0 <= i < |r| ==> r[i].category == SeedCategories()[0].name
  {
    [ Article(1, "Welcome to the Knowledge Base", "Getting Started", WelcomeBody, created1),
      Article(2, "How to Add New Articles", "Getting Started", AddingBody, created2) ]
  }

  /** Both seed articles are filed under "Getting Started". */
  lemma SeedCount(created1: string, created2: string, name: string)
    ensures CategoryCount(SeedArticles(created1, created2), name) == (if name == "Getting Started" then 2 else 0)
  {
    var s := SeedArticles(created1, created2);
    assert s == [s[0]] + ([s[1]] + []);
    FilterCons(s[1], [], HasCategory(name));
    FilterCons(s[0], [s[1]] + [], HasCategory(name));
  }

  /** The seed is consistent: unique ids, distinct category names, and both articles under the first category. */
  lemma SeedFacts(created1: string, created2: string)
    ensures |SeedArticles(created1, created2)| == 2 && |SeedCategories()| == 4
    ensures UniqueIds(SeedArticles(created1, created2))
    ensures DistinctNames(SeedCategories())
    ensures CategoryCounts(SeedArticles(created1, created2), SeedCategories()) == [2, 0, 0, 0]
  {
    var s, cats := SeedArticles(created1, created2), SeedCategories();
    var counts := CategoryCounts(s, cats);
    forall k | 0 <= k < 4
      ensures counts[k] == [2, 0, 0, 0][k]
    {
      SeedCount(created1, created2, cats[k].name);
    }
  }
}
