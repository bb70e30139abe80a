/**
 * The CMS records the query layer works on (the `Article`, `Category`,
 * `Tag` and `Author` interfaces of the type definitions). Timestamps are
 * instants in milliseconds; only the fields the core reads are kept.
 */
module Articles {
  import opened Wrappers

  /** Milliseconds in a day (`1000 * 60 * 60 * 24`). */
  const DayMs: int := 86400000

  datatype Image = Image(url: string, width: Option<int>, height: Option<int>)

  datatype Category = Category(id: string, name: string, slug: string, color: Option<string>)

  datatype Tag = Tag(id: string, name: string, slug: string)

  datatype Author = Author(id: string, name: string, avatar: Option<Image>)

  datatype Article = Article(
    id: string,
    title: string,
    slug: string,
    excerpt: string,
    content: string,
    featuredImage: Option<Image>,
    category: Category,
    tags: Option<seq<Tag>>,
    author: Option<Author>,
    readTime: Option<int>,
    viewCount: Option<int>,
    likeCount: Option<int>,
    isPublished: bool,
    isPremium: Option<bool>,
    isNew: Option<bool>,
    createdAt: int,
    publishedAt: Option<int>)
  {
    /** `publishedAt || createdAt`: the instant every consumer dates the article by. */
    function EffectiveDate(): int {
      publishedAt.GetOr(createdAt)
    }

    /** `tags || []`. */
    function TagList(): seq<Tag> {
      tags.GetOr([])
    }

    /** `author?.id`. */
    function AuthorId(): Option<string> {
      match author
      case Some(a) => Some(a.id)
      case None => None
    }
  }

  /** `tags.map(tag => tag.id)`. */
  function TagIds(tags: seq<Tag>): (ids: seq<string>)
    ensures |ids| == |tags|
    ensures forall i :: 0 <= i < |tags| ==> ids[i] == tags[i].id
  {
    seq(|tags|, i requires 0 <= i < |tags| => tags[i].id)
  }

  /** `tags.map(tag => tag.name)`. */
  function TagNames(tags: seq<Tag>): (names: seq<string>)
    ensures |names| == |tags|
    ensures forall i :: 0 <= i < |tags| ==> names[i] == tags[i].name
  {
    seq(|tags|, i requires 0 <= i < |tags| => tags[i].name)
  }

  /** `tags.map(tag => tag.slug)`. */
  function TagSlugs(tags: seq<Tag>): (slugs: seq<string>)
    ensures |slugs| == |tags|
    ensures forall i :: 0 <= i < |tags| ==> slugs[i] == tags[i].slug
  {
    seq(|tags|, i requires 0 <= i < |tags| => tags[i].slug)
  }

  /** `n || d` for a number: an absent value and 0 both give `d`. */
  function NumberOr(n: Option<int>, d: int): (r: int)
    ensures n.Some? && n.value != 0 ==> r == n.value
    ensures n.None? || n.value == 0 ==> r == d
  {
    if n.Some? && n.value != 0 then n.value else d
  }

  /** `Math.floor(a / b)` for a non-zero divisor of either sign. */
  function FloorDiv(a: int, b: int): (q: int)
    requires b != 0
    ensures b > 0 ==> q * b <= a < q * b + b
    ensures b < 0 ==> q * b >= a > q * b + b
  {
    if b > 0 then a / b
    else if a % b == 0 then a / b
    else a / b - 1
  }

  /** `Math.ceil(a / b)` for a non-zero divisor of either sign. */
  function CeilDiv(a: int, b: int): (q: int)
    requires b != 0
    ensures b > 0 ==> q * b - b < a <= q * b
    ensures b < 0 ==> q * b - b > a >= q * b
  {
    -FloorDiv(-a, b)
  }
}
