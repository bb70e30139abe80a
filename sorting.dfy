/**
 * `sortArticles`: copies the array and sorts the copy in place, stably,
 * with a comparator whose sign is flipped for `desc`. The comparator is a
 * difference of two numbers read from the articles (the effective date,
 * a count, or the position of the title in the Japanese collation), so
 * the sort is a stable sort by a numeric key, negated for `desc`.
 */
module Sorting {
  import opened Wrappers
  import opened Articles

  datatype SortBy = PublishedAt | ViewCount | LikeCount | Title
  datatype SortOrder = Asc | Desc

  /**
   * The field, the direction and the collation of titles: `collationRank`
   * places titles in the order `localeCompare(..., 'ja')` gives them, equal
   * ranks for titles that compare as equal.
   */
  datatype Ordering = Ordering(field: SortBy, order: SortOrder, collationRank: string -> int)

  /** The number the comparator reads: the effective date, the count (absent is 0) or the title's rank. */
  function FieldValue(a: Article, o: Ordering): int {
    match o.field
    case PublishedAt => a.EffectiveDate()
    case ViewCount => a.viewCount.GetOr(0)
    case LikeCount => a.likeCount.GetOr(0)
    case Title => o.collationRank(a.title)
  }

  /**
   * The comparator: the ascending comparison, negated for `desc`. `a` goes
   * first (a negative result) when its value is smaller for `asc` and
   * larger for `desc`; the two tie exactly when their values are equal.
   */
  function Compare(a: Article, b: Article, o: Ordering): (c: int)
    ensures c == 0 <==> FieldValue(a, o) == FieldValue(b, o)
    ensures o.order == Asc ==> (c < 0 <==> FieldValue(a, o) < FieldValue(b, o))
    ensures o.order == Desc ==> (c < 0 <==> FieldValue(a, o) > FieldValue(b, o))
  {
    var c := FieldValue(a, o) - FieldValue(b, o);
    if o.order == Desc then -c else c
  }

  /** The key the sort orders by ascending: the field value, negated for `desc`. */
  function SortKey(o: Ordering): (key: Article -> int)
    ensures forall a, b :: Compare(a, b, o) == key(a) - key(b)
  {
    (a: Article) => if o.order == Desc then -FieldValue(a, o) else FieldValue(a, o)
  }

  /**
   * Stable insertion from the back: `x` moves left past the elements with
   * a larger key and stops at the first one whose key is not larger.
   */
  function InsertBack<T>(s: seq<T>, x: T, key: T -> int): (r: seq<T>)
    ensures |r| == |s| + 1
    decreases |s|
  {
    if s == [] then [x]
    else if key(s[|s| - 1]) > key(x) then
      InsertBack(s[..|s| - 1], x, key) + [s[|s| - 1]]
    else s + [x]
  }

  /** Insertion adds `x` and loses nothing. */
  lemma {:induction false} InsertBackPermutes<T>(s: seq<T>, x: T, key: T -> int)
    ensures multiset(InsertBack(s, x, key)) == multiset(s) + multiset{x}
    decreases |s|
  {
    if s != [] && key(s[|s| - 1]) > key(x) {
      InsertBackPermutes(s[..|s| - 1], x, key);
      assert s == s[..|s| - 1] + [s[|s| - 1]];
    }
  }

  /** The order a stable sort by `key` produces. */
  function StableSort<T>(s: seq<T>, key: T -> int): (r: seq<T>)
    ensures |r| == |s|
    decreases |s|
  {
    if s == [] then [] else InsertBack(StableSort(s[..|s| - 1], key), s[|s| - 1], key)
  }

  ghost predicate Sorted<T>(s: seq<T>, key: T -> int) {
    forall i, j :: 0 <= i < j < |s| ==> key(s[i]) <= key(s[j])
  }

  /** The sort result is a permutation of its input. */
  lemma {:induction false} StableSortPermutes<T>(s: seq<T>, key: T -> int)
    ensures multiset(StableSort(s, key)) == multiset(s)
    decreases |s|
  {
    if s != [] {
      StableSortPermutes(s[..|s| - 1], key);
      InsertBackPermutes(StableSort(s[..|s| - 1], key), s[|s| - 1], key);
      assert s == s[..|s| - 1] + [s[|s| - 1]];
    }
  }

  lemma InsertBackElements<T>(s: seq<T>, x: T, key: T -> int, e: T)
    requires e in InsertBack(s, x, key)
    ensures e == x || e in s
  {
    InsertBackPermutes(s, x, key);
    assert e in multiset(InsertBack(s, x, key));
  }

  /** Appending an element whose key is at least every earlier key keeps a sequence sorted. */
  lemma SortedAppend<T>(r: seq<T>, last: T, key: T -> int)
    requires Sorted(r, key)
    requires forall e :: e in r ==> key(e) <= key(last)
    ensures Sorted(r + [last], key)
  {
    var rr := r + [last];
    forall i, j | 0 <= i < j < |rr| ensures key(rr[i]) <= key(rr[j]) {
      if j == |rr| - 1 {
        assert rr[i] in r;
      } else {
        assert rr[i] == r[i] && rr[j] == r[j];
      }
    }
  }

  lemma {:induction false} InsertBackSorted<T>(s: seq<T>, x: T, key: T -> int)
    requires Sorted(s, key)
    ensures Sorted(InsertBack(s, x, key), key)
    decreases |s|
  {
    if s != [] {
      var init, last := s[..|s| - 1], s[|s| - 1];
      if key(last) > key(x) {
        InsertBackSorted(init, x, key);
        var r := InsertBack(init, x, key);
        forall e | e in r ensures key(e) <= key(last) {
          InsertBackElements(init, x, key, e);
          if e != x {
            var i :| 0 <= i < |init| && init[i] == e;
            assert s[i] == e;
          }
        }
        SortedAppend(r, last, key);
      } else {
        forall e | e in s ensures key(e) <= key(x) {
          var i :| 0 <= i < |s| && s[i] == e;
        }
        SortedAppend(s, x, key);
      }
    }
  }

  /** The sort result is ordered by key. */
  lemma {:induction false} StableSortSorted<T>(s: seq<T>, key: T -> int)
    ensures Sorted(StableSort(s, key), key)
    decreases |s|
  {
    if s != [] {
      StableSortSorted(s[..|s| - 1], key);
      InsertBackSorted(StableSort(s[..|s| - 1], key), s[|s| - 1], key);
    }
  }

  /** The elements of `s` whose key is `k`, in their order. */
  function WithKey<T>(s: seq<T>, k: int, key: T -> int): seq<T>
    decreases |s|
  {
    if s == [] then []
    else WithKey(s[..|s| - 1], k, key) + (if key(s[|s| - 1]) == k then [s[|s| - 1]] else [])
  }

  lemma {:induction false} WithKeyAppend<T>(a: seq<T>, b: seq<T>, k: int, key: T -> int)
    ensures WithKey(a + b, k, key) == WithKey(a, k, key) + WithKey(b, k, key)
    decreases |b|
  {
    if b == [] {
      assert a + b == a;
    } else {
      var init := b[..|b| - 1];
      assert (a + b)[..|a + b| - 1] == a + init;
      WithKeyAppend(a, init, k, key);
    }
  }

  lemma {:induction false} InsertBackWithKey<T>(s: seq<T>, x: T, k: int, key: T -> int)
    ensures WithKey(InsertBack(s, x, key), k, key) == WithKey(s, k, key) + WithKey([x], k, key)
    decreases |s|
  {
    if s == [] {
    } else {
      var init, last := s[..|s| - 1], s[|s| - 1];
      assert s == init + [last];
      if key(last) > key(x) {
        InsertBackWithKey(init, x, k, key);
        WithKeyAppend(InsertBack(init, x, key), [last], k, key);
        WithKeyAppend(init, [last], k, key);
        // `last` and `x` have different keys, so at most one of them is kept.
        assert WithKey([x], k, key) == [] || WithKey([last], k, key) == [];
      } else {
        WithKeyAppend(s, [x], k, key);
      }
    }
  }

  /**
   * Stability: the elements sharing any one key keep, in the result,
   * exactly their input order.
   */
  lemma {:induction false} StableSortKeepsTies<T>(s: seq<T>, k: int, key: T -> int)
    ensures WithKey(StableSort(s, key), k, key) == WithKey(s, k, key)
    decreases |s|
  {
    if s != [] {
      var init, last := s[..|s| - 1], s[|s| - 1];
      StableSortKeepsTies(init, k, key);
      InsertBackWithKey(StableSort(init, key), last, k, key);
      assert s == init + [last];
      WithKeyAppend(init, [last], k, key);
    }
  }

  /**
   * The articles as `sortArticles` orders them: a permutation of the
   * input in which every earlier article compares as not after every
   * later one, and the articles that compare as equal keep their input
   * order; for `desc` as well, since the comparator is negated rather than
   * the result reversed.
   */
  lemma SortedArticles(s: seq<Article>, o: Ordering, k: int)
    ensures var r := StableSort(s, SortKey(o));
      && multiset(r) == multiset(s)
      && (forall i, j :: 0 <= i < j < |r| ==> Compare(r[i], r[j], o) <= 0)
      && WithKey(r, k, SortKey(o)) == WithKey(s, k, SortKey(o))
  {
    StableSortPermutes(s, SortKey(o));
    StableSortSorted(s, SortKey(o));
    StableSortKeepsTies(s, k, SortKey(o));
  }

  /** For the counters: non-decreasing for `asc`, non-increasing for `desc`, an absent count read as 0. */
  lemma SortedByCount(s: seq<Article>, o: Ordering, i: int, j: int)
    requires o.field == ViewCount || o.field == LikeCount
    requires 0 <= i < j < |s|
    ensures var r := StableSort(s, SortKey(o));
      var ci := if o.field == ViewCount then r[i].viewCount.GetOr(0) else r[i].likeCount.GetOr(0);
      var cj := if o.field == ViewCount then r[j].viewCount.GetOr(0) else r[j].likeCount.GetOr(0);
      if o.order == Asc then ci <= cj else ci >= cj
  {
    StableSortSorted(s, SortKey(o));
    var r := StableSort(s, SortKey(o));
    assert SortKey(o)(r[i]) <= SortKey(o)(r[j]);
  }

  /**
   * Where the insertion stops: `x` lands after `s[..j]` when every element
   * from `j` on has a larger key and `s[j - 1]` (if any) does not.
   */
  lemma {:induction false} InsertBackAt<T>(s: seq<T>, x: T, key: T -> int, j: int)
    requires 0 <= j <= |s|
    requires forall k :: j <= k < |s| ==> key(s[k]) > key(x)
    requires j == 0 || key(s[j - 1]) <= key(x)
    ensures InsertBack(s, x, key) == s[..j] + [x] + s[j..]
    decreases |s|
  {
    if j < |s| {
      var init := s[..|s| - 1];
      assert forall k :: j <= k < |init| ==> init[k] == s[k];
      InsertBackAt(init, x, key, j);
      assert init[..j] == s[..j];
      assert s[j..] == init[j..] + [s[|s| - 1]];
    }
  }

  /**
   * Moves `a[i]` left into the prefix `a[..i]`, shifting the elements
   * with a larger key one place right.
   */
  method InsertAt<T>(a: array<T>, i: nat, key: T -> int)
    requires i < a.Length
    modifies a
    ensures a[..i + 1] == InsertBack(old(a[..i]), old(a[i]), key)
    ensures a[i + 1..] == old(a[i + 1..])
  {
    var x := a[i];
    ghost var s := a[..i];
    var j := i;
    while j > 0 && key(a[j - 1]) > key(x)
      invariant 0 <= j <= i
      invariant forall k :: 0 <= k < j ==> a[k] == s[k]
      invariant forall k :: j < k <= i ==> a[k] == s[k - 1]
      invariant forall k :: i < k < a.Length ==> a[k] == old(a[k])
      invariant forall k :: j <= k < i ==> key(s[k]) > key(x)
    {
      a[j] := a[j - 1];
      j := j - 1;
    }
    a[j] := x;
    InsertBackAt(s, x, key, j);
    assert a[..i + 1] == s[..j] + [x] + s[j..] by {
      forall k | 0 <= k <= i ensures a[k] == (s[..j] + [x] + s[j..])[k] {
      }
    }
  }

  /** Sorts the array in place into the stable order. */
  method SortInPlace<T>(a: array<T>, key: T -> int)
    modifies a
    ensures a[..] == StableSort(old(a[..]), key)
  {
    var i := 0;
    while i < a.Length
      invariant 0 <= i <= a.Length
      invariant a[..i] == StableSort(old(a[..])[..i], key)
      invariant a[i..] == old(a[..])[i..]
    {
      assert old(a[..])[..i + 1][..i] == old(a[..])[..i];
      InsertAt(a, i, key);
      i := i + 1;
    }
    assert a[..] == a[..a.Length];
    assert old(a[..])[..a.Length] == old(a[..]);
  }

  /**
   * `sortArticles(articles, sortBy, order)`: `[...articles].sort(...)`. The
   * result is a fresh array in the stable order; the input is untouched.
   */
  method SortArticles(articles: array<Article>, o: Ordering) returns (sorted: array<Article>)
    ensures fresh(sorted)
    ensures sorted[..] == StableSort(articles[..], SortKey(o))
    ensures unchanged(articles)
  {
    sorted := new Article[articles.Length](i requires 0 <= i < articles.Length reads articles => articles[i]);
    assert sorted[..] == articles[..];
    SortInPlace(sorted, SortKey(o));
  }

  /**
   * The defaults `sortBy = 'publishedAt'` and `order = 'desc'`. Dates do not
   * read the collation, so any ranking of titles will do.
   */
  const DefaultOrdering: Ordering := Ordering(PublishedAt, Desc, (title: string) => 0)

  /** With the default arguments the newest article comes first. */
  lemma DefaultSortNewestFirst(s: seq<Article>, i: int, j: int)
    requires 0 <= i < j < |s|
    ensures var r := StableSort(s, SortKey(DefaultOrdering));
      r[i].EffectiveDate() >= r[j].EffectiveDate()
  {
    StableSortSorted(s, SortKey(DefaultOrdering));
    var r := StableSort(s, SortKey(DefaultOrdering));
    assert SortKey(DefaultOrdering)(r[i]) <= SortKey(DefaultOrdering)(r[j]);
  }

  /** `sortArticles(articles)`: the default arguments. */
  method SortArticlesByDefault(articles: array<Article>) returns (sorted: array<Article>)
    ensures fresh(sorted)
    ensures sorted[..] == StableSort(articles[..], SortKey(DefaultOrdering))
    ensures unchanged(articles)
  {
    sorted := SortArticles(articles, DefaultOrdering);
  }
}
