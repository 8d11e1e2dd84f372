/**
 * The in-memory store behind the knowledge-base page: the `KnowledgeBase`
 * object with its collections and selection state, and the state each
 * UI handler changes. Rendering, event wiring and the markdown renderer are
 * not modelled; persistence is a ghost copy of what was last written.
 */
module Store {
  import opened Options
  import opened Seqs
  import opened Articles

  class KnowledgeBase {
    /** All articles, newest-created first. */
    var articles: seq<Article>
    /** All categories, in the order they were added. */
    var categories: seq<Category>
    /** The category whose articles are listed; None lists all of them. */
    var currentCategory: Option<string>
    /** The article being viewed, as its position in `articles`. */
    var currentArticle: Option<nat>
    /** The article the editor is bound to, as its position in `articles`; None when creating. */
    var editingArticle: Option<nat>

    /** What the store last wrote under its two storage keys. */
    ghost var storedArticles: seq<Article>
    ghost var storedCategories: seq<Category>

    /**
     * The two references point into `articles`, and every change to the
     * collections has been written back to storage.
     */
    ghost predicate Valid()
      reads this
    {
      && (currentArticle.Some? ==> currentArticle.value < |articles|)
      && (editingArticle.Some? ==> editingArticle.value < |articles|)
      && storedArticles == articles
      && storedCategories == categories
    }

    /**
     * The list the article grid shows for the raw search input: the stored
     * articles passing both tests, in stored order.
     */
    function VisibleArticles(searchInput: string): (r: seq<Article>)
      reads this
      ensures r == Filter(articles, Listed(currentCategory, searchInput))
    {
      VisibleIsFilter(articles, currentCategory, searchInput);
      Visible(articles, currentCategory, searchInput)
    }

    /**
     * The sidebar counts, one per stored category: how many articles carry
     * its name. The "All Articles" entry shows `|articles|` and has no
     * function of its own.
     */
    function Counts(): (r: seq<nat>)
      reads this
      ensures |r| == |categories|
      ensures forall k :: 0 <= k < |r| ==>
        r[k] == |set j | 0 <= j < |articles| && articles[j].category == categories[k].name|
    {
      CategoryCounts(articles, categories)
    }

    /**
     * Builds the store from what storage held (already parsed) and runs the
     * first-run check: `created1` and `created2` are the clock readings the
     * seed articles would get.
     */
    constructor (loadedArticles: seq<Article>, loadedCategories: seq<Category>, created1: string, created2: string)
      ensures Valid()
      ensures loadedArticles == [] ==>
        articles == SeedArticles(created1, created2) && categories == SeedCategories()
      ensures loadedArticles != [] ==>
        articles == loadedArticles && categories == loadedCategories
      ensures currentCategory.None? && currentArticle.None? && editingArticle.None?
    {
      articles := loadedArticles;
      categories := loadedCategories;
      currentCategory := None;
      currentArticle := None;
      editingArticle := None;
      storedArticles := loadedArticles;
      storedCategories := loadedCategories;
      new;
      Init(created1, created2);
    }

    /** Seeds the store when it holds no article, whatever categories it holds. */
    method Init(created1: string, created2: string)
      requires Valid()
      modifies this`articles, this`categories, this`storedArticles, this`storedCategories
      ensures Valid()
      ensures old(articles) == [] ==>
        articles == SeedArticles(created1, created2) && categories == SeedCategories()
      ensures old(articles) != [] ==>
        articles == old(articles) && categories == old(categories)
    {
      if |articles| == 0 {
        LoadSampleData(created1, created2);
      }
    }

    /** Replaces both collections by the sample data and writes both to storage. */
    method LoadSampleData(created1: string, created2: string)
      requires Valid()
      requires articles == []
      modifies this`articles, this`categories, this`storedArticles, this`storedCategories
      ensures Valid()
      ensures articles == SeedArticles(created1, created2)
      ensures categories == SeedCategories()
    {
      categories := SeedCategories();
      articles := SeedArticles(created1, created2);
      storedArticles := articles;
      storedCategories := categories;
    }

    /** Opens the article with the given id, if there is one; otherwise nothing happens. */
    method ShowArticle(id: int)
      requires Valid()
      modifies this`currentArticle
      ensures Valid()
      ensures FindById(articles, id).None? ==> currentArticle == old(currentArticle)
      ensures FindById(articles, id).Some? ==> currentArticle == FindById(articles, id)
    {
      var found := FindById(articles, id);
      if found.Some? {
        currentArticle := found;
      }
    }

    /** Closes the article view. */
    method HideArticle()
      requires Valid()
      modifies this`currentArticle
      ensures Valid()
      ensures currentArticle.None?
    {
      currentArticle := None;
    }

    /** Opens the editor, bound to `article` (an edit) or to nothing (a new article). */
    method ShowArticleModal(article: Option<nat>)
      requires Valid()
      requires article.Some? ==> article.value < |articles|
      modifies this`editingArticle
      ensures Valid()
      ensures editingArticle == article
    {
      editingArticle := article;
    }

    /** The edit button: the editor is bound to the article being viewed. */
    method EditCurrentArticle()
      requires Valid()
      modifies this`editingArticle
      ensures Valid()
      ensures editingArticle == currentArticle
    {
      ShowArticleModal(currentArticle);
    }

    /** Closes the editor and unbinds it. */
    method HideArticleModal()
      requires Valid()
      modifies this`editingArticle
      ensures Valid()
      ensures editingArticle.None?
    {
      editingArticle := None;
    }

    /**
     * Submits the editor. Bound to article i, it overwrites that article's
     * title, category and body in place; unbound, it puts a new article with
     * the given id and timestamp in front. Then it writes the articles to
     * storage, closes the editor and the article view.
     */
    method SaveArticle(title: string, category: string, body: string, newId: int, now: string)
      requires Valid()
      modifies this`articles, this`storedArticles, this`editingArticle, this`currentArticle
      ensures Valid()
      ensures old(editingArticle).None? ==>
        articles == [Article(newId, title, category, body, now)] + old(articles)
      ensures old(editingArticle).Some? ==>
        var i := old(editingArticle).value;
        && |articles| == |old(articles)|
        && articles[i] == Article(old(articles)[i].id, title, category, body, old(articles)[i].created)
        && forall j :: 0 <= j < |articles| && j != i ==> articles[j] == old(articles)[j]
      ensures editingArticle.None? && currentArticle.None?
      ensures |Counts()| == |old(Counts())|
      ensures old(editingArticle).None? ==> forall k :: 0 <= k < |Counts()| ==>
        Counts()[k] == old(Counts())[k] + (if categories[k].name == category then 1 else 0)
      ensures old(editingArticle).Some? ==> forall k :: 0 <= k < |Counts()| ==>
        Counts()[k] + (if old(articles)[old(editingArticle).value].category == categories[k].name then 1 else 0)
        == old(Counts())[k] + (if category == categories[k].name then 1 else 0)
    {
      ghost var before := articles;
      if editingArticle.Some? {
        var i := editingArticle.value;
        var edited := articles[i].(title := title, category := category, body := body);
        articles := articles[i := edited];
        forall k | 0 <= k < |categories| {
          CountAfterEdit(before, i, edited, categories[k].name);
        }
      } else {
        var created := Article(newId, title, category, body, now);
        articles := [created] + articles;
        forall k | 0 <= k < |categories| {
          CountAfterPrepend(created, before, categories[k].name);
        }
      }
      storedArticles := articles;
      editingArticle := None;
      if currentArticle.Some? {
        currentArticle := None;
      }
    }

    /** Appends a category (duplicate names are accepted) and writes the categories to storage. */
    method AddCategory(name: string, newId: int)
      requires Valid()
      modifies this`categories, this`storedCategories
      ensures Valid()
      ensures categories == old(categories) + [Category(newId, name)]
      ensures Counts() == old(Counts()) + [CategoryCount(articles, name)]
    {
      CountsAfterAddCategory(articles, categories, Category(newId, name));
      categories := categories + [Category(newId, name)];
      storedCategories := categories;
    }

    /** A click on a sidebar entry: the "all" entry clears the selection. */
    method SelectCategory(tag: string)
      requires Valid()
      modifies this`currentCategory
      ensures Valid()
      ensures currentCategory == CategoryFromTag(tag)
    {
      currentCategory := CategoryFromTag(tag);
    }
  }

  /**
   * A page reload: a fresh store built from what `kb` last wrote to storage
   * has the same articles, and (having articles) the same categories; only
   * a store without articles is seeded again.
   */
  method Reload(kb: KnowledgeBase, created1: string, created2: string) returns (reloaded: KnowledgeBase)
    requires kb.Valid()
    ensures reloaded.Valid()
    ensures kb.articles != [] ==> reloaded.articles == kb.articles && reloaded.categories == kb.categories
    ensures kb.articles == [] ==>
      reloaded.articles == SeedArticles(created1, created2) && reloaded.categories == SeedCategories()
    ensures reloaded.currentCategory.None? && reloaded.currentArticle.None? && reloaded.editingArticle.None?
  {
    reloaded := new KnowledgeBase(kb.articles, kb.categories, created1, created2);
  }

  /** The selection a sidebar entry's tag stands for. */
  function CategoryFromTag(tag: string): (r: Option<string>)
    ensures r.None? <==> tag == "all"
    ensures r.Some? ==> r.value == tag
  {
    if tag == "all" then None else Some(tag)
  }
}
