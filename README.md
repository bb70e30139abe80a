# Article query and ranking layer of a CMS-backed blog

This project models the in-memory side of a blog whose articles come
from a headless CMS:

- **Article utilities.** Filtering, stable sorting, the search and relatedness scores, excerpts, the reading-time estimate, the "new" and status rules, relative dates, grouping, statistics and the card projection.
- **CMS query composer.** Turns search parameters into the CMS query (limit, offset, the `[and]`/`[or]` filter string, `q`, `orders`) and computes the pagination of a fetched page.
- **Search-form state.** The filters of the search form, the handlers that update them, the "active filters" test and the hidden inputs submitted with the form.

Conventions of the model:

- Instants are integers in milliseconds.
- The current instant `now` is a parameter of every clock-dependent operation.
- Strings are sequences of characters.
- An optional field is an `Option`.
- Where the code relies on JavaScript truthiness, the contract spells it out: an empty string and `0` count as absent, so a stored read time of `0` is recomputed and a limit of `0` gives the default.

Modules and files:

| file | module | covers |
|---|---|---|
| `wrappers.dfy` | `Wrappers` | `Option` |
| `sequences.dfy` | `Sequences` | subsequences picked out at increasing positions, as `filter` returns them |
| `strings.dfy` | `Strings` | ASCII lower-casing, `includes`, `join`, `lastIndexOf`, decimal digits |
| `articles.dfy` | `Articles` | the CMS records; `Math.floor`/`Math.ceil` of a quotient |
| `text_metrics.dfy` | `TextMetrics` | tag stripping, whitespace collapsing, excerpts, word count, read time |
| `recency.dfy` | `Recency` | `isNewArticle`, `getArticleStatus`, `formatRelativeDate` |
| `scoring.dfy` | `Scoring` | `calculateSearchScore`, `calculateRelatedScore` (methods that accumulate a score) |
| `filtering.dfy` | `Filtering` | `filterArticles` |
| `sorting.dfy` | `Sorting` | `sortArticles`: copy, then an in-place stable insertion sort on an array, proved against a functional stable sort |
| `grouping.dfy` | `Grouping` | `groupArticlesByCategory` (a loop filling a map) |
| `stats.dfy` | `Stats` | `calculateArticleStats` |
| `cards.dfy` | `Cards` | `articleToCardData`, `articlesToCardData` |
| `microcms.dfy` | `Cms` | `calculatePagination`, `buildMicroCMSQuery` (a method that pushes clauses), `getArticles` with the fetched page as a parameter |
| `search_form.dfy` | `SearchFormState` | the filter updaters as functions, and the form component as a class with `query`, `filters`, `showAdvanced` and `isFocused` fields |

Where the code's own comments and its behaviour differ, the model follows the behaviour:

- The search score's author part is commented as a match on the author name (`src/lib/article-utils.ts:437`), but the code tests `author.id` (`src/lib/article-utils.ts:438`). The category part likewise tests `category.id` (`src/lib/article-utils.ts:433`).
- The relatedness bonus for "the same author" (`src/lib/article-utils.ts:338-339`) compares `author?.id`, so it is also given when neither article has an author.
- The common-tag count filters the base tags (`src/lib/article-utils.ts:334-337`), so a base tag listed twice is counted twice.

## Model

| member | source | states |
|---|---|---|
| Strings.IncludesIff | src/lib/article-utils.ts:416-439 | `includes` holds exactly when the needle occurs at some index of the haystack |
| Strings.IncludesInfix | src/lib/article-utils.ts:629-642 | a needle inside one part of a concatenation is found in the whole |
| Strings.LastIndexOf | src/lib/article-utils.ts:119 | -1 exactly when the character is absent; otherwise its position, with no occurrence after it |
| Strings.JoinStartsWithFirst | src/lib/microcms.ts:120 | a joined string begins with its first part |
| Strings.JoinIncludesPart | src/lib/article-utils.ts:631-638 | every part occurs in the joined string |
| Strings.NatToStringRoundTrip | src/lib/article-utils.ts:154-179 | the decimal digits printed for a number read back as that number |
| Articles.FloorDiv | src/lib/microcms.ts:52 | `Math.floor(a / b)` is the greatest integer q with q·b ≤ a (for b > 0), mirrored for b < 0 |
| Articles.CeilDiv | src/lib/microcms.ts:53 | `Math.ceil(a / b)` is the least integer q with a ≤ q·b (for b > 0), mirrored for b < 0 |
| TextMetrics.StripTags | src/lib/article-utils.ts:77 | removing `<…>` runs never lengthens the text and adds no character |
| TextMetrics.StripTagsLeavesNoTag | src/lib/article-utils.ts:77 | no `<` in the result is followed by a `>` |
| TextMetrics.StripTagsIdempotent | src/lib/article-utils.ts:77 | stripping twice is stripping once |
| TextMetrics.StripTagsKeepsPlainPrefix | src/lib/article-utils.ts:77 | text before the first `<` is kept as it is, and stripping goes on after it |
| TextMetrics.StripTagsDropsTag | src/lib/article-utils.ts:77 | a `<`, the text up to the first `>` and that `>` are removed, and stripping goes on after it |
| TextMetrics.CalculateWordCount | src/lib/article-utils.ts:298-301 | the count is at most the content length, and equal to it when the content has no `<` |
| TextMetrics.Collapse | src/lib/article-utils.ts:111 | the collapsed text is never longer, and starts with (a) whitespace exactly when the input does |
| TextMetrics.CollapseSingleSpaced | src/lib/article-utils.ts:111 | after collapsing, no two whitespace characters are adjacent and the only whitespace left is the plain space |
| TextMetrics.CollapseKeepsOtherChar | src/lib/article-utils.ts:111 | every character other than whitespace is kept, and the text on each side of it collapses on its own |
| TextMetrics.CollapseRun | src/lib/article-utils.ts:111 | a run of whitespace becomes a single space |
| TextMetrics.CollapseNoSpace | src/lib/article-utils.ts:111 | text without whitespace is left unchanged |
| TextMetrics.CleanText | src/lib/article-utils.ts:108-111 | the cleaned text is never longer than the content |
| TextMetrics.CleanTextNormalized | src/lib/article-utils.ts:108-111 | the cleaned text has no leading or trailing space and no other whitespace than single spaces |
| TextMetrics.Excerpt | src/lib/article-utils.ts:113-125 | a text that fits in `length` is returned unchanged |
| TextMetrics.ExcerptOfLongText | src/lib/article-utils.ts:117-125 | a longer text gives at most `length` characters and `...`, cut at the last space of the first `length` characters when it lies beyond 80% of `length`, otherwise hard at `length` |
| TextMetrics.GenerateExcerpt | src/lib/article-utils.ts:103-115 | a cleaned text that fits in `length` is returned unchanged |
| TextMetrics.ExcerptTruncates | src/lib/article-utils.ts:117-125 | a longer text gives at most `length` characters and `...`, cut at the last space when it lies beyond 80% of `length`, otherwise hard at `length` |
| TextMetrics.GenerateDefaultExcerpt | src/lib/article-utils.ts:103-106 | with the default length 160 the excerpt is the text itself or at most 163 characters |
| TextMetrics.WordsSeparated | src/lib/article-utils.ts:85 | a non-word character splits the word count into the counts of the two sides |
| TextMetrics.CalculateReadTime | src/lib/article-utils.ts:75-98 | the read time is at least one minute, also for empty content |
| TextMetrics.ReadTimeIsCeiling | src/lib/article-utils.ts:80-97 | the read time is the least positive m with jp + 2·en ≤ 450·m, that is ⌈(jp + 2·en)/450⌉ or 1 |
| Recency.IsNewArticle | src/lib/article-utils.ts:62-70 | an article is new exactly while fewer than eight full days have passed since its date (future dates are new) |
| Recency.IsNewArticleMonotone | src/lib/article-utils.ts:62-70 | an article new at some instant was new at every earlier instant |
| Recency.GetArticleStatus | src/lib/article-utils.ts:362-373 | a draft exactly when unpublished; scheduled exactly when published with a date after now; published exactly when published with a date not after now |
| Recency.StatusOverTime | src/lib/article-utils.ts:362-373 | drafts stay drafts; published stays published as time passes; scheduled turns published exactly at its date |
| Recency.RelativeDateOf | src/lib/article-utils.ts:144-179 | the label is "under a minute" exactly when less than 60 seconds have passed, and counts years once 365 days have passed |
| Recency.RelativeDateBands | src/lib/article-utils.ts:144-179 | each label carries the whole number of its unit elapsed, within the band of its unit |
| Recency.RenderRelativeDate | src/lib/article-utils.ts:149-178 | every label text starts with a digit and ends in 前 |
| Recency.RenderRelativeDateRoundTrip | src/lib/article-utils.ts:149-178 | the text of a label determines the label: reading it back gives the label |
| Recency.FormatRelativeDate | src/lib/article-utils.ts:144-179 | the text starts with a digit and ends in 前, and is `1分未満前` exactly when less than 60 seconds have passed |
| Recency.FormatRelativeDateRoundTrip | src/lib/article-utils.ts:144-179 | the formatted date loses nothing of the computed label |
| Scoring.CalculateSearchScore | src/lib/article-utils.ts:409-443 | the score is 10·title + 5·excerpt + 3·(matching tag names) + 7·category id + 4·author id, between 0 and 26 + 3·(number of tags) |
| Scoring.SearchScoreZeroIffNoMatch | src/lib/article-utils.ts:409-443 | the score is zero exactly when no field contains the query |
| Scoring.NoMatchingTagIff | src/lib/article-utils.ts:426-429 | no tag points exactly when no tag name contains the query |
| Scoring.EmptyQueryScoresEverything | src/lib/article-utils.ts:409-443 | the empty query matches every field: 22 + 3·(number of tags), plus 4 with an author |
| Scoring.SearchScoreIgnoresQueryCase | src/lib/article-utils.ts:413 | the query's case does not change the score |
| Scoring.DateBandMonotone | src/lib/article-utils.ts:352-354 | a closer date never earns fewer recency points, and at most 3 |
| Scoring.CalculateRelatedScore | src/lib/article-utils.ts:321-357 | 10 for the same category id, 3 per base tag id found in the other article, 5 for equal author ids (also both absent), one date band; between 0 and 18 + 3·(number of base tags) |
| Scoring.RelatedSelfIsMaximal | src/lib/article-utils.ts:321-357 | an article is at least as related to itself as to any other, with score 18 + 3·(number of tags) |
| Scoring.CommonIsIntersection | src/lib/article-utils.ts:334-337 | without repeated base tags, the common-tag count is the size of the intersection of the two tag sets |
| Scoring.RelatedSymmetricWithoutRepeats | src/lib/article-utils.ts:321-357 | without repeated tags on either side, relatedness is symmetric |
| Scoring.RepeatedBaseTagCountsTwice | src/lib/article-utils.ts:334-337 | a base tag listed twice is counted twice; the same tag listed twice on the other side counts once |
| Filtering.FilterArticles | src/lib/article-utils.ts:583-646 | every kept article comes from the input and passes every supplied criterion |
| Filtering.SearchTarget | src/lib/article-utils.ts:631-639 | the title, the excerpt, the category name, every tag name and the author name all occur in the search text |
| Filtering.FewerCriteriaKeepMore | src/lib/article-utils.ts:594-645 | each criterion of the filter callback can only reject: an article that passes some criteria passes any subset of them |
| Filtering.FewerCriteriaFilterMore | src/lib/article-utils.ts:583-646 | filtering with fewer criteria keeps every article at least as often |
| Filtering.FilterCounts | src/lib/article-utils.ts:594 | each article is kept as often as it occurs when it passes, and dropped when it fails |
| Filtering.FilterIsSubsequence | src/lib/article-utils.ts:594 | the result is the input with some articles left out and the rest in their order |
| Filtering.NoCriteriaIsIdentity | src/lib/article-utils.ts:583-646 | with no criterion supplied (absent or empty) the input comes back unchanged |
| Filtering.SurvivorsMeetCriteria | src/lib/article-utils.ts:596-626 | a kept article has the category slug, one of the tag slugs and the author name asked for; its `isPremium` equals the flag, so `false` rejects an unset flag; it is new exactly when asked |
| Filtering.QueryMatchCrossesFields | src/lib/article-utils.ts:629-642 | a query can match across the space between two fields |
| Sorting.Compare | src/lib/article-utils.ts:550-577 | the two articles tie exactly when their field values are equal; the first goes first when its value is smaller for `asc` and larger for `desc` |
| Sorting.SortKey | src/lib/article-utils.ts:550-577 | the comparator is the difference of the keys, negated for `desc` |
| Sorting.StableSortPermutes | src/lib/article-utils.ts:550 | sorting reorders its input and loses nothing |
| Sorting.StableSortSorted | src/lib/article-utils.ts:550 | the sorted sequence is non-decreasing in the key |
| Sorting.StableSortKeepsTies | src/lib/article-utils.ts:550 | the elements sharing a key keep their input order |
| Sorting.SortedArticles | src/lib/article-utils.ts:545-578 | the articles come out as a permutation, each comparing as not after the next, with equal-comparing articles in input order for `asc` and `desc` alike |
| Sorting.SortedByCount | src/lib/article-utils.ts:560-566 | by view or like count (absent as 0) the result is non-decreasing for `asc` and non-increasing for `desc` |
| Sorting.InsertAt | src/lib/article-utils.ts:550 | one insertion step in place: the prefix becomes the stable insertion of the next element |
| Sorting.SortInPlace | src/lib/article-utils.ts:550 | the array is sorted in place into the stable order |
| Sorting.SortArticles | src/lib/article-utils.ts:545-578 | a fresh array in the stable order, the input array untouched |
| Sorting.SortArticlesByDefault | src/lib/article-utils.ts:545-548 | without arguments the sort is by date, descending |
| Sorting.DefaultSortNewestFirst | src/lib/article-utils.ts:545-558 | with the default arguments the result runs from the newest date to the oldest |
| Grouping.InCategoryCounts | src/lib/article-utils.ts:451-459 | a group holds each article of its category as often as the input, and nothing else |
| Grouping.InCategoryEmpty | src/lib/article-utils.ts:455-457 | a group is empty exactly when no article has that category |
| Grouping.GroupArticlesByCategory | src/lib/article-utils.ts:448-464 | one key per category name that occurs, each mapped to that category's articles in input order |
| Stats.TotalAppend | src/lib/article-utils.ts:493-504 | a total over two runs of articles is the sum of their totals |
| Stats.TotalBounds | src/lib/article-utils.ts:493-504 | with non-negative counters the total is non-negative and at least each term |
| Stats.Average | src/lib/article-utils.ts:517-522 | `Math.round(t / n)`: the integer nearest to t/n, halves rounded up; 0 without articles |
| Stats.Dedup | src/lib/article-utils.ts:506-515 | the distinct names are exactly the names that occur |
| Stats.DedupOrder | src/lib/article-utils.ts:506-515 | each name is listed once, in order of first occurrence |
| Stats.DedupSize | src/lib/article-utils.ts:524-536 | the count of distinct names is the size of the set of names |
| Stats.AuthorNameList | src/lib/article-utils.ts:513-515 | author names without absent authors or empty names |
| Stats.CalculateArticleStats | src/lib/article-utils.ts:491-540 | the article count; each total is the sum of its counter over the articles (absent as 0); each average is the rounded mean of its total |
| Stats.ArticleStatsNames | src/lib/article-utils.ts:506-539 | the category, tag and author lists hold each distinct name once, and each count is the number of distinct names |
| Stats.ArticleStatsOrder | src/lib/article-utils.ts:506-515 | the category, tag and author lists each follow the order in which their names first appear |
| Cards.ArticleToCardData | src/lib/article-utils.ts:12-50 | the card carries the id, title, excerpt, slug and category of the article, the effective date, a non-zero read time (stored unless 0, else computed), counts with absent as 0, the article's tags in order, an image with the title as alt text and the stored width and height unless absent or 0 (then 800 and 450), the author's name and avatar URL, premium only when set to true, and is new exactly when flagged or within eight days |
| Cards.ArticlesToCardData | src/lib/article-utils.ts:55-57 | card i is the card of article i |
| Cards.ArticlesToCardDataAppend | src/lib/article-utils.ts:55-57 | the cards of two runs of articles put together are the cards of each run put together |
| Cms.CalculatePagination | src/lib/microcms.ts:47-63 | the current page is the one holding `offset`, the page count the least covering `total`; `hasNext` iff current < pages, `hasPrev` iff current > 1; total and limit echoed |
| Cms.PaginationBounds | src/lib/microcms.ts:47-63 | with a positive limit and non-negative offset the page is at least 1, and there are no pages exactly when there are no items |
| Cms.FloorDivMultiple | src/lib/microcms.ts:71 | a multiple of the limit divided by the limit gives the factor back, for either sign |
| Cms.PageOffsetRoundTrip | src/lib/microcms.ts:52-71 | the offset computed for page p lies on page p |
| Cms.EffectiveLimit | src/lib/microcms.ts:70 | the limit sent is never 0 |
| Cms.OrdersOf | src/lib/microcms.ts:128-133 | `-publishedAt` unless both the field and the direction are given; the field name, minus-prefixed for `desc` |
| Cms.BuildMicroCMSQuery | src/lib/microcms.ts:68-136 | limit and offset defaults, the default field list, the clauses joined with `[and]`, `q` exactly for a non-empty query, and the orders |
| Cms.FilterClauses | src/lib/microcms.ts:77-118 | one to four clauses with publication first; only that one when no category, tags or date range are given |
| Cms.FilterClausesShape | src/lib/microcms.ts:77-118 | publication first; a category clause iff a category is given; the `[or]` tag group iff tags are given; a date clause iff a range other than `all`; the author never sent |
| Cms.FiltersStartPublished | src/lib/microcms.ts:80-120 | the filter string always starts with `isPublished[equals]true` |
| Cms.GetArticles | src/lib/microcms.ts:141-162 | the page and total pass through; the pagination uses the query's own offset and limit, so its current page is the requested page |
| SearchFormState.WithoutTag | src/components/ui/search-form.tsx:127 | every occurrence of the tag goes and every other tag stays as often as it was there |
| SearchFormState.WithoutTagIsSubsequence | src/components/ui/search-form.tsx:127 | the remaining tags keep their order |
| SearchFormState.WithoutAbsentTag | src/components/ui/search-form.tsx:127 | removing a tag that is not there changes nothing |
| SearchFormState.TagToggled | src/components/ui/search-form.tsx:123-130 | a selected tag is removed (all occurrences, every other tag kept as often as before), an unselected one appended; other filters unchanged |
| SearchFormState.TagToggledKeepsOrder | src/components/ui/search-form.tsx:123-130 | removing a selected tag leaves the other tags in their order |
| SearchFormState.ToggleTwiceRestores | src/components/ui/search-form.tsx:123-130 | toggling an unselected tag twice restores the tag list |
| SearchFormState.CategorySelected | src/components/ui/search-form.tsx:115-120 | selecting sets the category, or clears it when it was the selected one; other filters unchanged |
| SearchFormState.SelectTwiceRestores | src/components/ui/search-form.tsx:115-120 | selecting the same category twice is a no-op when none or that one was selected |
| SearchFormState.SelectionActivatesFilters | src/components/ui/search-form.tsx:115-136 | selecting a non-empty category that was not selected, or adding a tag, leaves the filters active |
| SearchFormState.ClearedIsInactive | src/components/ui/search-form.tsx:100-136 | the cleared filters have no category or tags and are not active |
| SearchFormState.HiddenInputsOf | src/components/ui/search-form.tsx:167-178 | one field per selected tag and at most three fields besides |
| SearchFormState.InputsByPart | src/components/ui/search-form.tsx:167-178 | a field of a given name is present exactly when the part that renders that name emits one, so no name other than `category`, `tags`, `dateRange` or `sortBy` ever appears |
| SearchFormState.HiddenInputNames | src/components/ui/search-form.tsx:167-178 | a category field iff a non-empty category, a date-range field iff the range is not `all`, an order field iff the order is not `relevance`, tag fields iff tags are selected |
| SearchFormState.HiddenTagValues | src/components/ui/search-form.tsx:170-172 | one `tags` field per selected tag, in order |
| SearchFormState.HiddenInputsEmptyIffInactive | src/components/ui/search-form.tsx:132-178 | no hidden field is submitted exactly when no filter is active |
| SearchFormState.SearchForm.constructor | src/components/ui/search-form.tsx:89-92 | the form starts with the initial query and filters, closed and unfocused |
| SearchFormState.SearchForm.HandleQuickSearch | src/components/ui/search-form.tsx:95-97 | only the query changes |
| SearchFormState.SearchForm.ClearFilters | src/components/ui/search-form.tsx:100-106 | the filters become the cleared ones and are inactive; nothing else changes |
| SearchFormState.SearchForm.ClearQuery | src/components/ui/search-form.tsx:109-112 | the query is empty and focus is dropped; the filters are untouched |
| SearchFormState.SearchForm.HandleCategorySelect | src/components/ui/search-form.tsx:115-120 | the filters become the category-selected filters; nothing else changes |
| SearchFormState.SearchForm.HandleTagToggle | src/components/ui/search-form.tsx:123-130 | the filters become the tag-toggled filters; nothing else changes |
| SearchFormState.SearchForm.SetDateRange | src/components/ui/search-form.tsx:366-371 | only the date range changes |
| SearchFormState.SearchForm.SetSortBy | src/components/ui/search-form.tsx:398-402 | only the order changes |
| SearchFormState.SearchForm.RemoveCategory | src/components/ui/search-form.tsx:426 | only the category is dropped |
| SearchFormState.SearchForm.ToggleAdvanced | src/components/ui/search-form.tsx:293 | only the panel flag flips |
| SearchFormState.SearchForm.Focus | src/components/ui/search-form.tsx:160 | only the focus flag is set |

## Left out

- Network I/O is not modelled, nor the functions that only wrap it:
  - the CMS client and every `client.get` call (single article, by category, by tag, categories, tags, popular and latest articles, sitemap and RSS getters);
  - the environment checks at module load.
- `getArticles` takes the page the CMS returned as a parameter instead of fetching it.
- The start of a date range (`today`, `week`, `month`, `year`) is computed with local-time `Date` arithmetic. `Cms.BuildMicroCMSQuery` takes the ISO text of that instant as a parameter.
- Date parsing and formatting are not modelled: `new Date(...)`, `toISOString` and `toLocaleDateString`. So `formatDate` and `groupArticlesByMonth` are left out, because they need the local calendar year and month. Invalid dates (NaN) are not modelled.
- The blur handler of the search input is left out, because it clears the focus after a `setTimeout` delay.
- JSX rendering is left out, as are the SEO metadata, JSON-LD and URL builders, breadcrumbs, `getArticleTagsString`, `formatCount` (its `toFixed(1)` branch is floating point) and the feed and sitemap routes.
- Strings.Lower: only ASCII letters are lower-cased; full Unicode case mapping is not modelled.
- Sorting.Ordering: `localeCompare(..., 'ja')` is a caller-supplied rank for each title, so it is a total preorder. The actual Japanese collation is not modelled.
- Lengths count characters, not UTF-16 code units, so a character outside the Basic Multilingual Plane counts once in excerpt and word-count lengths.
- Floating-point arithmetic is treated as exact:
  - reading times use real numbers;
  - the 80% cut-off is compared as 5·k > 4·n;
  - the relatedness day bands are compared in milliseconds;
  - `Math.round` of an average is integer rounding.
- TextMetrics.GenerateExcerpt: `length` is a natural number. A negative or fractional length is not modelled.
- Cms.CalculatePagination requires a non-zero limit. Its only caller never passes 0, since `limit || 10` replaces 0; a zero limit would give non-finite numbers.
- Grouping.GroupArticlesByCategory: a category name that is also an `Object.prototype` key (like `constructor`) makes the source's `groups[name].push` fail. The model treats every name as an ordinary key.
- Stats.CalculateArticleStats: the counts are integers. Non-integer or NaN counters are not modelled.
