/**
 * Clock-dependent classifications of an article's date: the seven-day
 * "new" rule, the publication status and the relative-date label. The
 * current instant `now` is a parameter (milliseconds, like every date).
 */
module Recency {
  import opened Wrappers
  import opened Articles
  import opened Strings

  /**
   * `isNewArticle`: at most seven whole days (floored) have passed since
   * `published`. Because the day count is floored, "new" lasts until eight full days
   * have passed, and any date in the future is new.
   */
  function IsNewArticle(published: int, now: int): (r: bool)
    ensures r <==> now - published < 8 * DayMs
  {
    FloorDiv(now - published, DayMs) <= 7
  }

  /** Newness is lost as time passes and never regained. */
  lemma IsNewArticleMonotone(published: int, now: int, later: int)
    requires now <= later && IsNewArticle(published, later)
    ensures IsNewArticle(published, now)
  {
  }

  datatype Status = Published | Draft | Scheduled

  /**
   * `getArticleStatus`: an unpublished article is a draft; a published one
   * is scheduled while its date lies ahead, and published from that instant on.
   */
  function GetArticleStatus(article: Article, now: int): (st: Status)
    ensures st == Draft <==> !article.isPublished
    ensures st == Scheduled <==> article.isPublished && now < article.EffectiveDate()
    ensures st == Published <==> article.isPublished && article.EffectiveDate() <= now
  {
    if !article.isPublished then Draft
    else if article.EffectiveDate() > now then Scheduled
    else Published
  }

  /**
   * Drafts stay drafts whatever the clock; a published article stays
   * published as time advances; a scheduled one becomes published exactly
   * when the clock reaches its date.
   */
  lemma StatusOverTime(article: Article, now: int, later: int)
    requires now <= later
    ensures GetArticleStatus(article, now) == Draft <==> GetArticleStatus(article, later) == Draft
    ensures GetArticleStatus(article, now) == Published ==> GetArticleStatus(article, later) == Published
    ensures GetArticleStatus(article, later) == Scheduled ==> GetArticleStatus(article, now) == Scheduled
    ensures article.isPublished ==> GetArticleStatus(article, article.EffectiveDate()) == Published
    ensures article.isPublished ==> GetArticleStatus(article, article.EffectiveDate() - 1) == Scheduled
  {
  }

  /** The label `formatRelativeDate` renders, before it is turned into text. */
  datatype RelativeDate =
    | UnderAMinute
    | MinutesAgo(minutes: nat)
    | HoursAgo(hours: nat)
    | DaysAgo(days: nat)
    | WeeksAgo(weeks: nat)
    | MonthsAgo(months: nat)
    | YearsAgo(years: nat)

  /**
   * `formatRelativeDate`'s cascade of floored unit conversions: seconds,
   * then minutes, hours and days, each unit tried while it is below its
   * limit; weeks below 30 days, 30-day months below 365 days, then years.
   */
  function RelativeDateOf(date: int, now: int): (r: RelativeDate)
    ensures r == UnderAMinute <==> now - date < 60 * 1000
    ensures now - date >= 365 * DayMs ==> r.YearsAgo?
  {
    var seconds := FloorDiv(now - date, 1000);
    if seconds < 60 then UnderAMinute
    else
      var minutes := seconds / 60;
      if minutes < 60 then MinutesAgo(minutes)
      else
        var hours := minutes / 60;
        if hours < 24 then HoursAgo(hours)
        else
          var days := hours / 24;
          if days < 7 then DaysAgo(days)
          else if days < 30 then WeeksAgo(days / 7)
          else if days < 365 then MonthsAgo(days / 30)
          else YearsAgo(days / 365)
  }

  /**
   * Each label holds the number of whole units elapsed (the nested floors
   * collapse into one), within the band its unit covers. `s` is the number
   * of whole seconds elapsed.
   */
  lemma RelativeDateBands(date: int, now: int)
    ensures var s := FloorDiv(now - date, 1000);
      match RelativeDateOf(date, now)
      case UnderAMinute => s < 60
      case MinutesAgo(m) => 1 <= m < 60 && 60 * m <= s < 60 * (m + 1)
      case HoursAgo(h) => 1 <= h < 24 && 3600 * h <= s < 3600 * (h + 1)
      case DaysAgo(d) => 1 <= d < 7 && 86400 * d <= s < 86400 * (d + 1)
      case WeeksAgo(w) => 1 <= w <= 4 && 7 * 86400 <= 604800 * w <= s < 30 * 86400 && s < 604800 * (w + 1)
      case MonthsAgo(mo) => 1 <= mo <= 12 && 30 * 86400 <= s < 365 * 86400 && 2592000 * mo <= s < 2592000 * (mo + 1)
      case YearsAgo(y) => 1 <= y && 31536000 * y <= s < 31536000 * (y + 1)
  {
    var s := FloorDiv(now - date, 1000);
    if s >= 60 {
      var m := s / 60;
      if m >= 60 {
        var h := m / 60;
        assert h == s / 3600;
        if h >= 24 {
          var d := h / 24;
          assert d == s / 86400;
        }
      }
    }
  }

  /** The Japanese text of a label: `N分前`, `N時間前`, `N日前`, `N週間前`, `Nヶ月前`, `N年前`. */
  function RenderRelativeDate(r: RelativeDate): (text: string)
    ensures |text| >= 3 && '0' <= text[0] <= '9' && text[|text| - 1] == '前'
  {
    match r
    case UnderAMinute => "1分未満前"
    case MinutesAgo(m) => NatToString(m) + "分前"
    case HoursAgo(h) => NatToString(h) + "時間前"
    case DaysAgo(d) => NatToString(d) + "日前"
    case WeeksAgo(w) => NatToString(w) + "週間前"
    case MonthsAgo(mo) => NatToString(mo) + "ヶ月前"
    case YearsAgo(y) => NatToString(y) + "年前"
  }

  /** `formatRelativeDate(dateString)` with the clock read as `now`. */
  function FormatRelativeDate(date: int, now: int): (text: string)
    ensures |text| >= 3 && '0' <= text[0] <= '9' && text[|text| - 1] == '前'
    ensures text == "1分未満前" <==> now - date < 60 * 1000
  {
    var r := RelativeDateOf(date, now);
    // Reading the text back recovers the label, so only `UnderAMinute` renders as `1分未満前`.
    RenderRelativeDateRoundTrip(r);
    RenderRelativeDateRoundTrip(UnderAMinute);
    RenderRelativeDate(r)
  }

  /** The number of leading decimal digits. */
  function LeadingDigits(s: string): (k: nat)
    ensures k <= |s|
    ensures forall i :: 0 <= i < k ==> '0' <= s[i] <= '9'
    ensures k < |s| ==> !('0' <= s[k] <= '9')
    decreases |s|
  {
    if s != [] && '0' <= s[0] <= '9' then 1 + LeadingDigits(s[1..]) else 0
  }

  lemma {:induction false} LeadingDigitsOfNumber(digits: string, rest: string)
    requires forall i :: 0 <= i < |digits| ==> '0' <= digits[i] <= '9'
    requires rest == [] || !('0' <= rest[0] <= '9')
    ensures LeadingDigits(digits + rest) == |digits|
    decreases |digits|
  {
    if digits != [] {
      assert (digits + rest)[1..] == digits[1..] + rest;
      LeadingDigitsOfNumber(digits[1..], rest);
    } else {
      assert digits + rest == rest;
    }
  }

  /** The label for a number followed by a unit word. */
  function LabelOf(digits: string, n: nat, unit: string): Option<RelativeDate> {
    if unit == "分未満前" then (if digits == "1" then Some(UnderAMinute) else None)
    else if unit == "分前" then Some(MinutesAgo(n))
    else if unit == "時間前" then Some(HoursAgo(n))
    else if unit == "日前" then Some(DaysAgo(n))
    else if unit == "週間前" then Some(WeeksAgo(n))
    else if unit == "ヶ月前" then Some(MonthsAgo(n))
    else if unit == "年前" then Some(YearsAgo(n))
    else None
  }

  /** Reads a label back from its text. */
  function ParseRelativeDate(text: string): Option<RelativeDate> {
    var k := LeadingDigits(text);
    if k == 0 then None else LabelOf(text[..k], DigitsValue(text[..k]), text[k..])
  }

  /** Each unit word selects its own label. */
  lemma LabelOfUnits(digits: string, n: nat)
    ensures LabelOf("1", n, "分未満前") == Some(UnderAMinute)
    ensures LabelOf(digits, n, "分前") == Some(MinutesAgo(n))
    ensures LabelOf(digits, n, "時間前") == Some(HoursAgo(n))
    ensures LabelOf(digits, n, "日前") == Some(DaysAgo(n))
    ensures LabelOf(digits, n, "週間前") == Some(WeeksAgo(n))
    ensures LabelOf(digits, n, "ヶ月前") == Some(MonthsAgo(n))
    ensures LabelOf(digits, n, "年前") == Some(YearsAgo(n))
  {
    assert "分未満前"[1] != "分前"[1];
    assert "時間前"[0] != "分未満前"[0];
    assert "日前"[0] != "分前"[0];
    assert "週間前"[0] != "時間前"[0];
    assert "ヶ月前"[0] != "時間前"[0] && "ヶ月前"[0] != "週間前"[0];
    assert "年前"[0] != "分前"[0] && "年前"[0] != "日前"[0];
  }

  /** The rendered text determines the label: reading it back gives the label. */
  lemma RenderRelativeDateRoundTrip(r: RelativeDate)
    ensures ParseRelativeDate(RenderRelativeDate(r)) == Some(r)
  {
    match r
    case UnderAMinute =>
      LeadingDigitsOfNumber("1", "分未満前");
      assert RenderRelativeDate(r) == "1" + "分未満前";
      LabelOfUnits("1", 1);
    case MinutesAgo(m) =>
      NumberThenUnit(m, "分前");
      LabelOfUnits(NatToString(m), m);
    case HoursAgo(h) =>
      NumberThenUnit(h, "時間前");
      LabelOfUnits(NatToString(h), h);
    case DaysAgo(d) =>
      NumberThenUnit(d, "日前");
      LabelOfUnits(NatToString(d), d);
    case WeeksAgo(w) =>
      NumberThenUnit(w, "週間前");
      LabelOfUnits(NatToString(w), w);
    case MonthsAgo(mo) =>
      NumberThenUnit(mo, "ヶ月前");
      LabelOfUnits(NatToString(mo), mo);
    case YearsAgo(y) =>
      NumberThenUnit(y, "年前");
      LabelOfUnits(NatToString(y), y);
  }

  lemma NumberThenUnit(n: nat, unit: string)
    requires unit != [] && !('0' <= unit[0] <= '9')
    ensures var text := NatToString(n) + unit;
      && LeadingDigits(text) == |NatToString(n)|
      && text[..LeadingDigits(text)] == NatToString(n)
      && text[LeadingDigits(text)..] == unit
      && DigitsValue(NatToString(n)) == n
  {
    LeadingDigitsOfNumber(NatToString(n), unit);
    NatToStringRoundTrip(n);
  }

  /** `formatRelativeDate` loses nothing of the label it computes. */
  lemma FormatRelativeDateRoundTrip(date: int, now: int)
    ensures ParseRelativeDate(FormatRelativeDate(date, now)) == Some(RelativeDateOf(date, now))
  {
    RenderRelativeDateRoundTrip(RelativeDateOf(date, now));
  }
}
