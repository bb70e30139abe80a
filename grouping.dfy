/**
 * `groupArticlesByCategory`: a `reduce` that pushes each article onto the
 * list kept under its category name, creating the list on first sight.
 */
module Grouping {
  import opened Articles

  /** The articles of `s` whose category is named `name`, in their order. */
  function InCategory(s: seq<Article>, name: string): seq<Article>
    decreases |s|
  {
    if s == [] then []
    else InCategory(s[..|s| - 1], name) + (if s[|s| - 1].category.name == name then [s[|s| - 1]] else [])
  }

  /** The category names that occur in `s`. */
  function CategoryNames(s: seq<Article>): set<string> {
    set a | a in s :: a.category.name
  }

  /**
   * Each article accumulated under `name`: the group holds every article
   * of that category as often as the input does, and nothing else.
   */
  lemma {:induction false} InCategoryCounts(s: seq<Article>, name: string, a: Article)
    ensures multiset(InCategory(s, name))[a] == if a.category.name == name then multiset(s)[a] else 0
    decreases |s|
  {
    if s != [] {
      InCategoryCounts(s[..|s| - 1], name, a);
      assert s == s[..|s| - 1] + [s[|s| - 1]];
    }
  }

  /** A group is non-empty exactly when some article has that category. */
  lemma {:induction false} InCategoryEmpty(s: seq<Article>, name: string)
    ensures InCategory(s, name) == [] <==> name !in CategoryNames(s)
    decreases |s|
  {
    if s != [] {
      var init := s[..|s| - 1];
      InCategoryEmpty(init, name);
      assert s == init + [s[|s| - 1]];
      assert CategoryNames(s) == CategoryNames(init) + {s[|s| - 1].category.name};
    }
  }

  /**
   * The resulting record has one key per category name that occurs, and
   * under each key the articles of that category in input order.
   */
  method GroupArticlesByCategory(articles: seq<Article>) returns (groups: map<string, seq<Article>>)
    ensures groups.Keys == CategoryNames(articles)
    ensures forall name :: name in groups ==> groups[name] == InCategory(articles, name)
  {
    groups := map[];
    var i := 0;
    while i < |articles|
      invariant 0 <= i <= |articles|
      invariant groups.Keys == CategoryNames(articles[..i])
      invariant forall name :: name in groups ==> groups[name] == InCategory(articles[..i], name)
    {
      var article := articles[i];
      var categoryName := article.category.name;
      assert articles[..i + 1] == articles[..i] + [article];
      assert articles[..i + 1][..i] == articles[..i];
      if categoryName !in groups {
        InCategoryEmpty(articles[..i], categoryName);
        groups := groups[categoryName := []];
      }
      groups := groups[categoryName := groups[categoryName] + [article]];
      assert CategoryNames(articles[..i + 1]) == CategoryNames(articles[..i]) + {categoryName};
      i := i + 1;
    }
    assert articles[..i] == articles;
  }
}
