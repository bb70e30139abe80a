/**
 * The two relevance heuristics of the article utilities: the free-text
 * search score and the relatedness score between two articles. Both
 * accumulate a local score step by step, as the source does.
 */
module Scoring {
  import opened Wrappers
  import opened Strings
  import opened Articles

  function Indicator(b: bool): nat {
    if b then 1 else 0
  }

  // ---------------------------------------------------------------------
  // calculateSearchScore
  // ---------------------------------------------------------------------

  /** `tags.filter(tag => tag.name.toLowerCase().includes(q)).length`. */
  function MatchingTagCount(tags: seq<Tag>, q: string): (n: nat)
    ensures n <= |tags|
    decreases |tags|
  {
    if tags == [] then 0
    else Indicator(Includes(Lower(tags[0].name), q)) + MatchingTagCount(tags[1..], q)
  }

  /** `article.author?.id?.toLowerCase().includes(q)`, false without an author. */
  predicate AuthorIdMatches(article: Article, q: string) {
    article.author.Some? && Includes(Lower(article.author.value.id), q)
  }

  /**
   * The weighted sum the search score adds up: 10 for the title, 5 for the
   * excerpt, 3 per matching tag name, 7 for the category id and 4 for the
   * author id, every field lower-cased and tested for containing the
   * lower-cased query.
   */
  function SearchScoreOf(article: Article, query: string): int {
    var q := Lower(query);
    10 * Indicator(Includes(Lower(article.title), q))
    + 5 * Indicator(Includes(Lower(article.excerpt), q))
    + 3 * MatchingTagCount(article.TagList(), q)
    + 7 * Indicator(Includes(Lower(article.category.id), q))
    + 4 * Indicator(AuthorIdMatches(article, q))
  }

  /** `calculateSearchScore(article, query)`. */
  method CalculateSearchScore(article: Article, query: string) returns (score: int)
    ensures score == SearchScoreOf(article, query)
    ensures 0 <= score <= 26 + 3 * |article.TagList()|
  {
    var searchQuery := Lower(query);
    score := 0;
    if Includes(Lower(article.title), searchQuery) {
      score := score + 10;
    }
    if Includes(Lower(article.excerpt), searchQuery) {
      score := score + 5;
    }
    var tagMatches := MatchingTagCount(article.TagList(), searchQuery);
    score := score + tagMatches * 3;
    if Includes(Lower(article.category.id), searchQuery) {
      score := score + 7;
    }
    if AuthorIdMatches(article, searchQuery) {
      score := score + 4;
    }
  }

  /** No matching field gives a score of zero, and a zero score means no field matched. */
  lemma SearchScoreZeroIffNoMatch(article: Article, query: string)
    ensures var q := Lower(query);
      SearchScoreOf(article, query) == 0 <==>
        && !Includes(Lower(article.title), q)
        && !Includes(Lower(article.excerpt), q)
        && (forall t :: t in article.TagList() ==> !Includes(Lower(t.name), q))
        && !Includes(Lower(article.category.id), q)
        && !AuthorIdMatches(article, q)
  {
    NoMatchingTagIff(article.TagList(), Lower(query));
  }

  lemma {:induction false} NoMatchingTagIff(tags: seq<Tag>, q: string)
    ensures MatchingTagCount(tags, q) == 0 <==> forall t :: t in tags ==> !Includes(Lower(t.name), q)
    decreases |tags|
  {
    if tags != [] {
      NoMatchingTagIff(tags[1..], q);
      assert forall t :: t in tags <==> t == tags[0] || t in tags[1..];
    }
  }

  /** Every tag name includes the empty string. */
  lemma {:induction false} EmptyQueryMatchesAllTags(tags: seq<Tag>)
    ensures MatchingTagCount(tags, "") == |tags|
    decreases |tags|
  {
    if tags != [] {
      IncludesEmpty(Lower(tags[0].name));
      EmptyQueryMatchesAllTags(tags[1..]);
    }
  }

  /** The empty query matches every field, so it earns the largest score. */
  lemma EmptyQueryScoresEverything(article: Article)
    ensures SearchScoreOf(article, "") == 22 + 3 * |article.TagList()| + (if article.author.Some? then 4 else 0)
  {
    assert Lower("") == "";
    IncludesEmpty(Lower(article.title));
    IncludesEmpty(Lower(article.excerpt));
    IncludesEmpty(Lower(article.category.id));
    if article.author.Some? {
      IncludesEmpty(Lower(article.author.value.id));
    }
    EmptyQueryMatchesAllTags(article.TagList());
  }

  /** Lowering is idempotent. */
  lemma LowerIdempotent(s: string)
    ensures Lower(Lower(s)) == Lower(s)
  {
  }

  /** The score does not depend on the case of the query's ASCII letters. */
  lemma SearchScoreIgnoresQueryCase(article: Article, query: string)
    ensures SearchScoreOf(article, Lower(query)) == SearchScoreOf(article, query)
  {
    LowerIdempotent(query);
  }

  // ---------------------------------------------------------------------
  // calculateRelatedScore
  // ---------------------------------------------------------------------

  /** `baseTags.filter(tag => compareTags.includes(tag)).length`. */
  function CommonTagCount(baseTags: seq<string>, compareTags: seq<string>): (n: nat)
    ensures n <= |baseTags|
    decreases |baseTags|
  {
    if baseTags == [] then 0
    else Indicator(baseTags[0] in compareTags) + CommonTagCount(baseTags[1..], compareTags)
  }

  function Abs(x: int): nat {
    if x < 0 then -x else x
  }

  /**
   * The date-proximity bonus for a distance of `distance` milliseconds:
   * 3 within 7 days, else 2 within 30 days, else 1 within 90 days, else 0.
   * (`diffInDays <= 7` on the unrounded quotient is `distance <= 7 * DayMs`.)
   */
  function DateBand(distance: nat): nat {
    if distance <= 7 * DayMs then 3
    else if distance <= 30 * DayMs then 2
    else if distance <= 90 * DayMs then 1
    else 0
  }

  /** The bonus shrinks, one band at a time, as the dates move apart. */
  lemma DateBandMonotone(d1: nat, d2: nat)
    requires d1 <= d2
    ensures DateBand(d2) <= DateBand(d1) <= 3
  {
  }

  /**
   * The relatedness sum: 10 for the same category id, 3 per base tag id
   * found among the other article's tag ids, 5 when the author ids are
   * equal (two absent authors are equal), and the date band.
   */
  function RelatedScoreOf(base: Article, compare: Article): int {
    10 * Indicator(base.category.id == compare.category.id)
    + 3 * CommonTagCount(TagIds(base.TagList()), TagIds(compare.TagList()))
    + 5 * Indicator(base.AuthorId() == compare.AuthorId())
    + DateBand(Abs(base.EffectiveDate() - compare.EffectiveDate()))
  }

  /** `calculateRelatedScore(baseArticle, compareArticle)`. */
  method CalculateRelatedScore(base: Article, compare: Article) returns (score: int)
    ensures score == RelatedScoreOf(base, compare)
    ensures 0 <= score <= 18 + 3 * |base.TagList()|
  {
    score := 0;
    if base.category.id == compare.category.id {
      score := score + 10;
    }
    var baseTags := TagIds(base.TagList());
    var compareTags := TagIds(compare.TagList());
    score := score + CommonTagCount(baseTags, compareTags) * 3;
    if base.AuthorId() == compare.AuthorId() {
      score := score + 5;
    }
    var diff := Abs(base.EffectiveDate() - compare.EffectiveDate());
    if diff <= 7 * DayMs {
      score := score + 3;
    } else if diff <= 30 * DayMs {
      score := score + 2;
    } else if diff <= 90 * DayMs {
      score := score + 1;
    }
  }

  /** Every element of a list is found in the list itself. */
  lemma {:induction false} CommonWithSelf(tags: seq<string>, whole: seq<string>)
    requires forall t :: t in tags ==> t in whole
    ensures CommonTagCount(tags, whole) == |tags|
    decreases |tags|
  {
    if tags != [] {
      CommonWithSelf(tags[1..], whole);
    }
  }

  /** An article is at least as related to itself as to any other article. */
  lemma RelatedSelfIsMaximal(base: Article, compare: Article)
    ensures RelatedScoreOf(base, base) == 18 + 3 * |base.TagList()|
    ensures RelatedScoreOf(base, compare) <= RelatedScoreOf(base, base)
  {
    var ids := TagIds(base.TagList());
    CommonWithSelf(ids, ids);
  }

  ghost predicate Distinct(s: seq<string>) {
    forall i, j :: 0 <= i < j < |s| ==> s[i] != s[j]
  }

  /** The tag ids of a list, as a set. */
  ghost function Elements(s: seq<string>): set<string> {
    set x | x in s
  }

  lemma ElementsCons(s: seq<string>)
    requires s != []
    ensures Elements(s) == {s[0]} + Elements(s[1..])
  {
    assert s == [s[0]] + s[1..];
  }

  /** Adding an element outside `t` adds one to the intersection exactly when it is in `b`. */
  lemma IntersectionAdd(x: string, t: set<string>, b: set<string>)
    requires x !in t
    ensures |({x} + t) * b| == Indicator(x in b) + |t * b|
  {
    if x in b {
      assert ({x} + t) * b == {x} + t * b;
    } else {
      assert ({x} + t) * b == t * b;
    }
  }

  /** For a base list without repeats, the count is the size of the intersection. */
  lemma {:induction false} CommonIsIntersection(a: seq<string>, b: seq<string>)
    requires Distinct(a)
    ensures CommonTagCount(a, b) == |Elements(a) * Elements(b)|
    decreases |a|
  {
    if a == [] {
      assert Elements(a) == {};
    } else {
      var t := a[1..];
      assert Distinct(t) by {
        forall i, j | 0 <= i < j < |t| ensures t[i] != t[j] {
          assert t[i] == a[i + 1] && t[j] == a[j + 1];
        }
      }
      CommonIsIntersection(t, b);
      assert a[0] !in Elements(t) by {
        forall i | 0 <= i < |t| ensures t[i] != a[0] {
          assert t[i] == a[i + 1];
        }
      }
      ElementsCons(a);
      IntersectionAdd(a[0], Elements(t), Elements(b));
    }
  }

  /**
   * When neither article repeats a tag id, relatedness is symmetric.
   * (With repeats it is not: each repeat in the base counts again.)
   */
  lemma RelatedSymmetricWithoutRepeats(a: Article, b: Article)
    requires Distinct(TagIds(a.TagList())) && Distinct(TagIds(b.TagList()))
    ensures RelatedScoreOf(a, b) == RelatedScoreOf(b, a)
  {
    var ia := TagIds(a.TagList());
    var ib := TagIds(b.TagList());
    CommonIsIntersection(ia, ib);
    CommonIsIntersection(ib, ia);
    assert Elements(ia) * Elements(ib) == Elements(ib) * Elements(ia);
  }

  /** A base list with a repeated shared tag earns the repeat twice. */
  lemma RepeatedBaseTagCountsTwice(t: string)
    ensures CommonTagCount([t, t], [t]) == 2
    ensures CommonTagCount([t], [t, t]) == 1
  {
  }
}
