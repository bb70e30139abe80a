/**
 * `articleToCardData`: the projection of an article onto the props of its
 * card, with the defaults that `||` supplies for absent or falsy fields.
 */
module Cards {
  import opened Wrappers
  import opened Articles
  import opened TextMetrics
  import opened Recency

  datatype CardCategory = CardCategory(name: string, slug: string, color: Option<string>)
  datatype CardTag = CardTag(name: string, slug: string)
  datatype CardImage = CardImage(url: string, alt: string, width: int, height: int)
  datatype CardAuthor = CardAuthor(name: string, avatar: Option<string>)

  datatype CardData = CardData(
    id: string,
    title: string,
    excerpt: string,
    publishedAt: int,
    readTime: int,
    viewCount: int,
    likeCount: int,
    category: CardCategory,
    tags: seq<CardTag>,
    featuredImage: Option<CardImage>,
    author: Option<CardAuthor>,
    slug: string,
    isPremium: bool,
    isNew: bool)

  /** Default image size used when the CMS gives none (or 0). */
  const DefaultImageWidth := 800
  const DefaultImageHeight := 450

  function CardImageOf(img: Image, alt: string): CardImage {
    CardImage(img.url, alt, NumberOr(img.width, DefaultImageWidth), NumberOr(img.height, DefaultImageHeight))
  }

  function CardAuthorOf(a: Author): CardAuthor {
    CardAuthor(a.name, match a.avatar case Some(img) => Some(img.url) case None => None)
  }

  /**
   * The card of `article` at instant `now`. The read time is never 0 (a
   * stored 0 is recomputed from the content), the tags are the article's
   * own in order, an image always has a non-zero size and the title as
   * alternative text, and the card is new exactly when the CMS flags it so
   * or fewer than eight full days have passed since its date.
   */
  function ArticleToCardData(article: Article, now: int): (c: CardData)
    ensures c.id == article.id && c.title == article.title && c.excerpt == article.excerpt && c.slug == article.slug
    ensures c.category == CardCategory(article.category.name, article.category.slug, article.category.color)
    ensures c.publishedAt == article.EffectiveDate()
    ensures c.readTime != 0
    ensures article.readTime.Some? && article.readTime.value != 0 ==> c.readTime == article.readTime.value
    ensures article.readTime.None? || article.readTime == Some(0) ==> c.readTime == CalculateReadTime(article.content)
    ensures c.viewCount == article.viewCount.GetOr(0) && c.likeCount == article.likeCount.GetOr(0)
    ensures |c.tags| == |article.TagList()|
    ensures forall i :: 0 <= i < |c.tags| ==>
      c.tags[i].name == article.TagList()[i].name && c.tags[i].slug == article.TagList()[i].slug
    ensures c.featuredImage.Some? <==> article.featuredImage.Some?
    ensures c.featuredImage.Some? ==>
      && c.featuredImage.value.url == article.featuredImage.value.url
      && c.featuredImage.value.alt == article.title
      && c.featuredImage.value.width != 0 && c.featuredImage.value.height != 0
    ensures c.featuredImage.Some? ==>
      var img, card := article.featuredImage.value, c.featuredImage.value;
      && (img.width.Some? && img.width.value != 0 ==> card.width == img.width.value)
      && (img.width.None? || img.width == Some(0) ==> card.width == DefaultImageWidth)
      && (img.height.Some? && img.height.value != 0 ==> card.height == img.height.value)
      && (img.height.None? || img.height == Some(0) ==> card.height == DefaultImageHeight)
    ensures c.author.Some? <==> article.author.Some?
    ensures c.author.Some? ==>
      && c.author.value.name == article.author.value.name
      && (c.author.value.avatar.Some? <==> article.author.value.avatar.Some?)
      && (c.author.value.avatar.Some? ==> c.author.value.avatar.value == article.author.value.avatar.value.url)
    ensures c.isPremium <==> article.isPremium == Some(true)
    ensures c.isNew <==> article.isNew == Some(true) || now - article.EffectiveDate() < 8 * DayMs
  {
    var date := article.EffectiveDate();
    var tags := article.TagList();
    CardData(
      article.id,
      article.title,
      article.excerpt,
      date,
      NumberOr(article.readTime, CalculateReadTime(article.content)),
      article.viewCount.GetOr(0),
      article.likeCount.GetOr(0),
      CardCategory(article.category.name, article.category.slug, article.category.color),
      seq(|tags|, i requires 0 <= i < |tags| => CardTag(tags[i].name, tags[i].slug)),
      match article.featuredImage case Some(img) => Some(CardImageOf(img, article.title)) case None => None,
      match article.author case Some(a) => Some(CardAuthorOf(a)) case None => None,
      article.slug,
      article.isPremium.GetOr(false),
      article.isNew == Some(true) || IsNewArticle(date, now))
  }

  /** `articlesToCardData`: one card per article, in order. */
  function ArticlesToCardData(articles: seq<Article>, now: int): (cards: seq<CardData>)
    ensures |cards| == |articles|
    ensures forall i :: 0 <= i < |articles| ==> cards[i] == ArticleToCardData(articles[i], now)
    ensures forall i :: 0 <= i < |articles| ==> cards[i].id == articles[i].id && cards[i].readTime != 0
  {
    seq(|articles|, i requires 0 <= i < |articles| => ArticleToCardData(articles[i], now))
  }

  /** Converting a concatenation converts each part: the cards of `a + b` are those of `a`, then those of `b`. */
  lemma ArticlesToCardDataAppend(a: seq<Article>, b: seq<Article>, now: int)
    ensures ArticlesToCardData(a + b, now) == ArticlesToCardData(a, now) + ArticlesToCardData(b, now)
  {
    var l, ca, cb := ArticlesToCardData(a + b, now), ArticlesToCardData(a, now), ArticlesToCardData(b, now);
    forall i | 0 <= i < |a| ensures l[i] == ca[i] {
      assert (a + b)[i] == a[i];
    }
    forall i | |a| <= i < |l| ensures l[i] == cb[i - |a|] {
      assert (a + b)[i] == b[i - |a|];
    }
    assert l == ca + cb;
  }
}
