/**
 * `filterArticles`: keeps, in order, the articles that pass every supplied
 * criterion. A string criterion is supplied when it is present and not
 * empty (JavaScript truthiness); the tag list when it is present and not
 * empty; the two flags whenever they are present.
 */
module Filtering {
  import opened Wrappers
  import opened Strings
  import opened Articles
  import opened Recency
  import opened Sequences

  datatype ArticleFilters = ArticleFilters(
    category: Option<string>,
    tags: Option<seq<string>>,
    author: Option<string>,
    isPremium: Option<bool>,
    isNew: Option<bool>,
    query: Option<string>)

  /** A truthy string: present and not empty. */
  predicate Supplied(s: Option<string>) {
    s.Some? && s.value != ""
  }

  /** The criteria the filter treats as absent. */
  predicate NoCriteria(f: ArticleFilters) {
    && !Supplied(f.category)
    && (f.tags.None? || f.tags.value == [])
    && !Supplied(f.author)
    && f.isPremium.None?
    && f.isNew.None?
    && !Supplied(f.query)
  }

  /** The text the query is looked for in: title, excerpt, category name, tag names and author name, joined by spaces. */
  function SearchTarget(article: Article): (target: string)
    ensures Includes(target, article.title) && Includes(target, article.excerpt)
    ensures Includes(target, article.category.name)
    ensures forall t :: t in article.TagList() ==> Includes(target, t.name)
    ensures article.author.Some? ==> Includes(target, article.author.value.name)
  {
    var authorName := if article.author.Some? then article.author.value.name else "";
    var tags := article.TagList();
    var parts := [article.title, article.excerpt, article.category.name] + TagNames(tags) + [authorName];
    JoinIncludesPart(" ", parts, 0);
    JoinIncludesPart(" ", parts, 1);
    JoinIncludesPart(" ", parts, 2);
    JoinIncludesPart(" ", parts, |parts| - 1);
    forall t | t in tags ensures Includes(Join(" ", parts), t.name) {
      var k :| 0 <= k < |tags| && tags[k] == t;
      JoinIncludesPart(" ", parts, 3 + k);
    }
    Join(" ", parts)
  }

  /** `article.author?.name !== filters.author` fails the author check. */
  predicate AuthorNamed(article: Article, name: string) {
    article.author.Some? && article.author.value.name == name
  }

  /** The early-return predicate of the filter callback. */
  predicate Keep(article: Article, f: ArticleFilters, now: int) {
    && (Supplied(f.category) ==> article.category.slug == f.category.value)
    && (f.tags.Some? && f.tags.value != [] ==>
          exists t :: t in f.tags.value && t in TagSlugs(article.TagList()))
    && (Supplied(f.author) ==> AuthorNamed(article, f.author.value))
    && (f.isPremium.Some? ==> article.isPremium == f.isPremium)
    && (f.isNew.Some? ==> IsNewArticle(article.EffectiveDate(), now) == f.isNew.value)
    && (Supplied(f.query) ==> Includes(Lower(SearchTarget(article)), Lower(f.query.value)))
  }

  /** `g` supplies at most the criteria of `f`, each with the same value. */
  predicate Relaxes(g: ArticleFilters, f: ArticleFilters) {
    && (g.category.None? || g.category == f.category)
    && (g.tags.None? || g.tags == f.tags)
    && (g.author.None? || g.author == f.author)
    && (g.isPremium.None? || g.isPremium == f.isPremium)
    && (g.isNew.None? || g.isNew == f.isNew)
    && (g.query.None? || g.query == f.query)
  }

  /** Each criterion can only turn articles away: dropping criteria keeps every article that passed. */
  lemma FewerCriteriaKeepMore(article: Article, g: ArticleFilters, f: ArticleFilters, now: int)
    requires Relaxes(g, f) && Keep(article, f, now)
    ensures Keep(article, g, now)
  {
  }

  /**
   * `filterArticles(articles, filters)` with the clock read as `now`: an
   * order-preserving subsequence holding exactly the articles that pass,
   * each as many times as in the input.
   */
  function FilterArticles(articles: seq<Article>, f: ArticleFilters, now: int): (r: seq<Article>)
    ensures |r| <= |articles|
    ensures forall a :: a in r ==> a in articles && Keep(a, f, now)
    decreases |articles|
  {
    if articles == [] then []
    else
      var rest := FilterArticles(articles[1..], f, now);
      if Keep(articles[0], f, now) then [articles[0]] + rest else rest
  }

  /**
   * Every article that passes survives, as many times as it occurs, and
   * no other article does.
   */
  lemma {:induction false} FilterCounts(articles: seq<Article>, f: ArticleFilters, now: int, a: Article)
    ensures multiset(FilterArticles(articles, f, now))[a] == if Keep(a, f, now) then multiset(articles)[a] else 0
    decreases |articles|
  {
    if articles != [] {
      FilterCounts(articles[1..], f, now, a);
      assert articles == [articles[0]] + articles[1..];
    }
  }

  /** Filtering with fewer criteria keeps at least the same articles, each at least as often. */
  lemma FewerCriteriaFilterMore(articles: seq<Article>, g: ArticleFilters, f: ArticleFilters, now: int)
    requires Relaxes(g, f)
    ensures multiset(FilterArticles(articles, f, now)) <= multiset(FilterArticles(articles, g, now))
  {
    forall a ensures multiset(FilterArticles(articles, f, now))[a] <= multiset(FilterArticles(articles, g, now))[a] {
      FilterCounts(articles, f, now, a);
      FilterCounts(articles, g, now, a);
      if Keep(a, f, now) {
        FewerCriteriaKeepMore(a, g, f, now);
      }
    }
  }

  /** The result keeps the input's order: it is picked out at increasing positions. */
  lemma {:induction false} FilterIsSubsequence(articles: seq<Article>, f: ArticleFilters, now: int)
    returns (idx: seq<nat>)
    ensures SubsequenceAt(FilterArticles(articles, f, now), articles, idx)
    decreases |articles|
  {
    if articles == [] {
      idx := [];
    } else {
      var rest := FilterArticles(articles[1..], f, now);
      var tail := FilterIsSubsequence(articles[1..], f, now);
      if Keep(articles[0], f, now) {
        SubsequenceCons(rest, articles, tail);
        idx := [0] + Shifted(tail);
      } else {
        SubsequenceShift(rest, articles, tail);
        idx := Shifted(tail);
      }
    }
  }

  /** With no criterion supplied the input comes back unchanged. */
  lemma {:induction false} NoCriteriaIsIdentity(articles: seq<Article>, f: ArticleFilters, now: int)
    requires NoCriteria(f)
    ensures FilterArticles(articles, f, now) == articles
    decreases |articles|
  {
    if articles != [] {
      NoCriteriaIsIdentity(articles[1..], f, now);
    }
  }

  /**
   * What each supplied criterion demands of a survivor. In particular an
   * article whose premium flag is absent fails `isPremium: false`.
   */
  lemma SurvivorsMeetCriteria(articles: seq<Article>, f: ArticleFilters, now: int, a: Article)
    requires a in FilterArticles(articles, f, now)
    ensures Supplied(f.category) ==> a.category.slug == f.category.value
    ensures f.tags.Some? && f.tags.value != [] ==>
              exists i, j :: 0 <= i < |f.tags.value| && 0 <= j < |a.TagList()| && f.tags.value[i] == a.TagList()[j].slug
    ensures Supplied(f.author) ==> a.author.Some? && a.author.value.name == f.author.value
    ensures f.isPremium == Some(false) ==> a.isPremium == Some(false)
    ensures f.isPremium == Some(true) ==> a.isPremium == Some(true)
    ensures f.isNew.Some? ==> (f.isNew.value <==> a.EffectiveDate() > now - 8 * DayMs)
  {
    if f.tags.Some? && f.tags.value != [] {
      var t :| t in f.tags.value && t in TagSlugs(a.TagList());
      var i :| 0 <= i < |f.tags.value| && f.tags.value[i] == t;
      var j :| 0 <= j < |a.TagList()| && TagSlugs(a.TagList())[j] == t;
    }
  }

  /**
   * The query check is a substring test on the joined, lower-cased fields,
   * so a match may run across the space between two fields.
   */
  lemma QueryMatchCrossesFields()
    ensures var a := CrossFieldArticle;
      var f := ArticleFilters(None, None, None, None, None, Some("pe sc"));
      && !Includes(Lower(a.title), "pe sc") && !Includes(Lower(a.excerpt), "pe sc")
      && FilterArticles([a], f, 0) == [a]
  {
    var a := CrossFieldArticle;
    IncludesTooLong(Lower(a.title), "pe sc");
    IncludesTooLong(Lower(a.excerpt), "pe sc");
    CrossFieldTarget();
    assert Lower(SearchTarget(a)) == "type sc  ";
    assert Lower("pe sc") == "pe sc";
    assert OccursAt("type sc  ", "pe sc", 2);
    IncludesAt("type sc  ", "pe sc", 2);
  }

  /** An article titled `Type` with the excerpt `Sc`, no tags and no author. */
  const CrossFieldArticle := Article("1", "Type", "s", "Sc", "", None, Category("c", "", "c", None),
                                     None, None, None, None, None, true, None, None, 0, None)

  lemma CrossFieldTarget()
    ensures SearchTarget(CrossFieldArticle) == "Type Sc  "
  {
    var a := CrossFieldArticle;
    assert [a.title, a.excerpt, a.category.name] + TagNames(a.TagList()) + [""] == ["Type", "Sc", "", ""];
    assert Join(" ", ["", ""]) == " ";
    assert Join(" ", ["Sc", "", ""]) == "Sc  ";
  }
}
