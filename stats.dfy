/**
 * `calculateArticleStats`: totals of the counters (an absent counter adds
 * 0), averages rounded with `Math.round`, and the distinct category, tag
 * and author names in order of first appearance (`Array.from(new Set(...))`).
 */
module Stats {
  import opened Wrappers
  import opened Articles

  /** `s.reduce((sum, a) => sum + count(a), 0)`. */
  function Total(s: seq<Article>, count: Article -> int): int
    decreases |s|
  {
    if s == [] then 0 else Total(s[..|s| - 1], count) + count(s[|s| - 1])
  }

  lemma {:induction false} TotalAppend(a: seq<Article>, b: seq<Article>, count: Article -> int)
    ensures Total(a + b, count) == Total(a, count) + Total(b, count)
    decreases |b|
  {
    if b == [] {
      assert a + b == a;
    } else {
      assert (a + b)[..|a + b| - 1] == a + b[..|b| - 1];
      TotalAppend(a, b[..|b| - 1], count);
    }
  }

  /** Totals of counters that are never negative are never negative, and at least each term. */
  lemma {:induction false} TotalBounds(s: seq<Article>, count: Article -> int, i: int)
    requires forall a :: a in s ==> count(a) >= 0
    requires 0 <= i < |s|
    ensures Total(s, count) >= count(s[i]) >= 0
    decreases |s|
  {
    var init := s[..|s| - 1];
    if i < |s| - 1 {
      assert forall a :: a in init ==> a in s;
      TotalBounds(init, count, i);
      assert init[i] == s[i];
    } else if init != [] {
      assert forall a :: a in init ==> a in s;
      TotalBounds(init, count, 0);
    }
  }

  function Views(a: Article): int { a.viewCount.GetOr(0) }
  function Likes(a: Article): int { a.likeCount.GetOr(0) }
  function ReadTimes(a: Article): int { a.readTime.GetOr(0) }

  /**
   * `n > 0 ? Math.round(t / n) : 0`: the integer nearest to `t / n`, a
   * half rounded up.
   */
  function Average(t: int, n: nat): (r: int)
    ensures n > 0 ==> n * (2 * r - 1) <= 2 * t < n * (2 * r + 1)
    ensures n == 0 ==> r == 0
  {
    if n > 0 then (2 * t + n) / (2 * n) else 0
  }

  /** The distinct elements of `s`, in order of first occurrence. */
  function Dedup(s: seq<string>): (r: seq<string>)
    ensures forall x :: x in r <==> x in s
    ensures |r| <= |s|
    decreases |s|
  {
    if s == [] then []
    else
      var d := Dedup(s[..|s| - 1]);
      assert forall x :: x in s <==> x in s[..|s| - 1] || x == s[|s| - 1] by {
        assert s == s[..|s| - 1] + [s[|s| - 1]];
      }
      if s[|s| - 1] in d then d else d + [s[|s| - 1]]
  }

  ghost predicate Distinct(s: seq<string>) {
    forall i, j :: 0 <= i < j < |s| ==> s[i] != s[j]
  }

  /** The position of the first occurrence of `x`. */
  function FirstIndex(s: seq<string>, x: string): (i: nat)
    requires x in s
    ensures i < |s| && s[i] == x && x !in s[..i]
    decreases |s|
  {
    if s[0] == x then 0
    else
      assert x in s[1..] by { assert s == [s[0]] + s[1..]; }
      var j := FirstIndex(s[1..], x);
      assert s[..j + 1] == [s[0]] + s[1..][..j];
      j + 1
  }

  lemma FirstIndexPrefix(s: seq<string>, n: nat, x: string)
    requires n <= |s| && x in s[..n]
    ensures FirstIndex(s, x) == FirstIndex(s[..n], x)
  {
    var i, j := FirstIndex(s, x), FirstIndex(s[..n], x);
    assert s[..n][j] == s[j];
    assert s[..n][..j] == s[..j];
  }

  /**
   * The distinct elements are listed once each, in the order in which
   * they first occur in the input.
   */
  lemma {:induction false} DedupOrder(s: seq<string>)
    ensures Distinct(Dedup(s))
    ensures forall i, j :: 0 <= i < j < |Dedup(s)| ==> FirstIndex(s, Dedup(s)[i]) < FirstIndex(s, Dedup(s)[j])
    decreases |s|
  {
    if s != [] {
      var init, last := s[..|s| - 1], s[|s| - 1];
      DedupOrder(init);
      var d := Dedup(init);
      forall x | x in d ensures FirstIndex(s, x) == FirstIndex(init, x) < |init| {
        FirstIndexPrefix(s, |init|, x);
      }
      if last !in d {
        assert last !in init;
        assert s[..|init|] == init;
        assert FirstIndex(s, last) == |init|;
      }
    }
  }

  /** `new Set(s).size`: the number of distinct elements. */
  lemma {:induction false} DedupSize(s: seq<string>)
    ensures |Dedup(s)| == |set x | x in s|
    decreases |s|
  {
    if s != [] {
      var init, last := s[..|s| - 1], s[|s| - 1];
      DedupSize(init);
      assert s == init + [last];
      var before := set x | x in init;
      assert (set x | x in s) == before + {last};
      if last !in init {
        assert last !in before;
      }
    }
  }

  /** `articles.map(a => a.category.name)`. */
  function CategoryNameList(s: seq<Article>): seq<string> {
    seq(|s|, i requires 0 <= i < |s| => s[i].category.name)
  }

  /** `articles.flatMap(a => a.tags?.map(tag => tag.name) || [])`. */
  function TagNameList(s: seq<Article>): seq<string>
    decreases |s|
  {
    if s == [] then [] else TagNameList(s[..|s| - 1]) + TagNames(s[|s| - 1].TagList())
  }

  /** `articles.map(a => a.author?.name).filter(Boolean)`: no absent author, no empty name. */
  function AuthorNameList(s: seq<Article>): (r: seq<string>)
    ensures forall n :: n in r <==> n != [] && exists a :: a in s && a.author.Some? && a.author.value.name == n
    decreases |s|
  {
    if s == [] then []
    else
      var last := s[|s| - 1];
      assert forall a :: a in s <==> a in s[..|s| - 1] || a == last by {
        assert s == s[..|s| - 1] + [last];
      }
      AuthorNameList(s[..|s| - 1]) + (if last.author.Some? && last.author.value.name != [] then [last.author.value.name] else [])
  }

  datatype ArticleStats = ArticleStats(
    totalArticles: nat,
    totalViews: int,
    totalLikes: int,
    totalReadTime: int,
    averageViews: int,
    averageLikes: int,
    averageReadTime: int,
    categories: nat,
    tags: nat,
    authors: nat,
    categoryList: seq<string>,
    tagList: seq<string>,
    authorList: seq<string>)

  /** `calculateArticleStats(articles)`. */
  function CalculateArticleStats(articles: seq<Article>): (st: ArticleStats)
    ensures st.totalArticles == |articles|
    ensures st.totalViews == Total(articles, Views) && st.totalLikes == Total(articles, Likes)
    ensures st.totalReadTime == Total(articles, ReadTimes)
    ensures articles != [] ==> |articles| * (2 * st.averageViews - 1) <= 2 * st.totalViews < |articles| * (2 * st.averageViews + 1)
    ensures articles != [] ==> |articles| * (2 * st.averageLikes - 1) <= 2 * st.totalLikes < |articles| * (2 * st.averageLikes + 1)
    ensures articles != [] ==> |articles| * (2 * st.averageReadTime - 1) <= 2 * st.totalReadTime < |articles| * (2 * st.averageReadTime + 1)
    ensures articles == [] ==> st.averageViews == 0 && st.averageLikes == 0 && st.averageReadTime == 0
  {
    var n := |articles|;
    var totalViews := Total(articles, Views);
    var totalLikes := Total(articles, Likes);
    var totalReadTime := Total(articles, ReadTimes);
    var categories := Dedup(CategoryNameList(articles));
    var tags := Dedup(TagNameList(articles));
    var authors := Dedup(AuthorNameList(articles));
    ArticleStats(
      n, totalViews, totalLikes, totalReadTime,
      Average(totalViews, n), Average(totalLikes, n), Average(totalReadTime, n),
      |categories|, |tags|, |authors|,
      categories, tags, authors)
  }

  lemma CategoryNameSet(articles: seq<Article>)
    ensures (set x | x in CategoryNameList(articles)) == (set a | a in articles :: a.category.name)
  {
    var names := CategoryNameList(articles);
    forall x | x in names ensures exists a :: a in articles && a.category.name == x {
      var i :| 0 <= i < |names| && names[i] == x;
      assert articles[i] in articles;
    }
    forall a | a in articles ensures a.category.name in names {
      var i :| 0 <= i < |articles| && articles[i] == a;
      assert names[i] == a.category.name;
    }
  }

  /**
   * The name lists of the record: each lists every distinct name once, in
   * order of first appearance, and each count is the number of distinct
   * names.
   */
  lemma ArticleStatsNames(articles: seq<Article>)
    ensures var st := CalculateArticleStats(articles);
      && st.categories == |st.categoryList| == |set a | a in articles :: a.category.name|
      && st.tags == |st.tagList| == |set n | n in TagNameList(articles)|
      && st.authors == |st.authorList| == |set n | n in AuthorNameList(articles)|
      && (forall n :: n in st.categoryList <==> exists a :: a in articles && a.category.name == n)
      && (forall n :: n in st.tagList <==> n in TagNameList(articles))
      && (forall n :: n in st.authorList <==> n != [] && exists a :: a in articles && a.author.Some? && a.author.value.name == n)
      && Distinct(st.categoryList) && Distinct(st.tagList) && Distinct(st.authorList)
  {
    CategoryNameSet(articles);
    DedupSize(CategoryNameList(articles));
    DedupSize(TagNameList(articles));
    DedupSize(AuthorNameList(articles));
    DedupOrder(CategoryNameList(articles));
    DedupOrder(TagNameList(articles));
    DedupOrder(AuthorNameList(articles));
    var names := CategoryNameList(articles);
    forall n | n in names ensures exists a :: a in articles && a.category.name == n {
      var i :| 0 <= i < |names| && names[i] == n;
      assert articles[i] in articles;
    }
    forall a | a in articles ensures a.category.name in names {
      var i :| 0 <= i < |articles| && articles[i] == a;
      assert names[i] == a.category.name;
    }
  }

  /**
   * The three name lists of the record keep the order in which their
   * names first appear among the articles.
   */
  lemma ArticleStatsOrder(articles: seq<Article>)
    ensures var st := CalculateArticleStats(articles);
      var cs, ts, ns := CategoryNameList(articles), TagNameList(articles), AuthorNameList(articles);
      && (forall i, j :: 0 <= i < j < |st.categoryList| ==> FirstIndex(cs, st.categoryList[i]) < FirstIndex(cs, st.categoryList[j]))
      && (forall i, j :: 0 <= i < j < |st.tagList| ==> FirstIndex(ts, st.tagList[i]) < FirstIndex(ts, st.tagList[j]))
      && (forall i, j :: 0 <= i < j < |st.authorList| ==> FirstIndex(ns, st.authorList[i]) < FirstIndex(ns, st.authorList[j]))
  {
    DedupOrder(CategoryNameList(articles));
    DedupOrder(TagNameList(articles));
    DedupOrder(AuthorNameList(articles));
  }
}
