/**
 * Text metrics of article bodies: markup stripping (`/<[^>]*>/g`),
 * whitespace normalisation, excerpts, the character count and the
 * dual-speed reading-time estimate.
 */
module TextMetrics {
  import opened Strings

  // ---------------------------------------------------------------------
  // Markup stripping: `content.replace(/<[^>]*>/g, '')`
  // ---------------------------------------------------------------------

  /** The suffix after the first occurrence of `c`. */
  function AfterFirst(s: string, c: char): (r: string)
    requires c in s
    ensures |r| < |s| && r == s[|s| - |r|..]
    decreases |s|
  {
    if s[0] == c then s[1..] else AfterFirst(s[1..], c)
  }

  /**
   * Removes every match of `<[^>]*>`: a `<` with a later `>` is dropped
   * together with everything up to and including the first such `>`; a `<`
   * with no later `>` is kept, as the regular expression cannot match there.
   */
  function StripTags(s: string): (r: string)
    ensures |r| <= |s|
    ensures forall c :: c in r ==> c in s
    decreases |s|
  {
    if s == [] then []
    else if s[0] == '<' && '>' in s[1..] then StripTags(AfterFirst(s[1..], '>'))
    else [s[0]] + StripTags(s[1..])
  }

  /** No `<` is followed, anywhere later, by a `>`: nothing left for the pattern to match. */
  ghost predicate NoTag(t: string) {
    forall i, j :: 0 <= i < j < |t| && t[i] == '<' ==> t[j] != '>'
  }

  /** The stripped text contains nothing the tag pattern could match. */
  lemma {:induction false} StripTagsLeavesNoTag(s: string)
    ensures NoTag(StripTags(s))
    decreases |s|
  {
    if s == [] {
    } else if s[0] == '<' && '>' in s[1..] {
      StripTagsLeavesNoTag(AfterFirst(s[1..], '>'));
    } else {
      StripTagsLeavesNoTag(s[1..]);
      var r := StripTags(s);
      var tail := StripTags(s[1..]);
      assert r == [s[0]] + tail;
      forall i, j | 0 <= i < j < |r| && r[i] == '<' ensures r[j] != '>' {
        if i == 0 {
          assert s[0] == '<' && '>' !in s[1..];
          assert r[j] in tail;
        } else {
          assert r[i] == tail[i - 1] && r[j] == tail[j - 1];
        }
      }
    }
  }

  /** Text without a tag is left as it is. */
  lemma {:induction false} StripTagsOfNoTag(t: string)
    requires NoTag(t)
    ensures StripTags(t) == t
    decreases |t|
  {
    if t != [] {
      if t[0] == '<' {
        forall j | 0 <= j < |t[1..]| ensures t[1..][j] != '>' {
          assert t[j + 1] != '>';
        }
      }
      assert NoTag(t[1..]) by {
        forall i, j | 0 <= i < j < |t[1..]| && t[1..][i] == '<' ensures t[1..][j] != '>' {
          assert t[i + 1] == '<';
        }
      }
      StripTagsOfNoTag(t[1..]);
    }
  }

  /** A character other than `<` is kept. */
  lemma StripTagsCons(x: char, rest: string)
    requires x != '<'
    ensures StripTags([x] + rest) == [x] + StripTags(rest)
  {
    assert ([x] + rest)[1..] == rest;
  }

  /** Text before the first `<` is kept as it is. */
  lemma {:induction false} StripTagsKeepsPlainPrefix(t: string, u: string)
    requires '<' !in t
    ensures StripTags(t + u) == t + StripTags(u)
    decreases |t|
  {
    if t == [] {
      assert t + u == u && t + StripTags(u) == StripTags(u);
    } else {
      var x, v, r := t[0], t[1..], StripTags(u);
      assert x in t;
      assert '<' !in v by {
        forall i | 0 <= i < |v| ensures v[i] != '<' {
          assert v[i] == t[i + 1];
        }
      }
      assert t == [x] + v;
      ConsRegroup(x, v, u);
      StripTagsCons(x, v + u);
      StripTagsKeepsPlainPrefix(v, u);
      ConsRegroup(x, v, r);
    }
  }

  lemma ConsRegroup(x: char, v: string, u: string)
    ensures ([x] + v) + u == [x] + (v + u)
  {
  }

  lemma {:induction false} AfterFirstSkips(body: string, c: char, u: string)
    requires c !in body
    ensures AfterFirst(body + [c] + u, c) == u
    decreases |body|
  {
    if body != [] {
      assert (body + [c] + u)[1..] == body[1..] + [c] + u;
      AfterFirstSkips(body[1..], c, u);
    }
  }

  /** A tag `<...>` with no `>` inside is dropped whole, and stripping goes on after it. */
  lemma StripTagsDropsTag(body: string, u: string)
    requires '>' !in body
    ensures StripTags("<" + body + ">" + u) == StripTags(u)
  {
    var s := "<" + body + ">" + u;
    assert s[1..] == body + ['>'] + u;
    assert s[1..][|body|] == '>';
    AfterFirstSkips(body, '>', u);
  }

  /** Stripping twice strips nothing more. */
  lemma StripTagsIdempotent(s: string)
    ensures StripTags(StripTags(s)) == StripTags(s)
  {
    StripTagsLeavesNoTag(s);
    StripTagsOfNoTag(StripTags(s));
  }

  /**
   * `calculateWordCount`: the length of the stripped text. It never exceeds
   * the raw length, and equals it when the content holds no `<`.
   */
  function CalculateWordCount(content: string): (n: nat)
    ensures n <= |content|
    ensures '<' !in content ==> n == |content|
  {
    if '<' !in content then
      assert NoTag(content);
      StripTagsOfNoTag(content);
      |StripTags(content)|
    else
      |StripTags(content)|
  }

  // ---------------------------------------------------------------------
  // Whitespace: `.replace(/\s+/g, ' ').trim()`
  // ---------------------------------------------------------------------

  /** The characters of the pattern `\s` (and of `trim`). */
  predicate IsSpace(c: char) {
    c == ' ' || c == '\t' || c == '\n' || c == '\r' || c == '\U{000B}' || c == '\U{000C}'
    || c == '\U{00A0}' || c == '\U{1680}' || ('\U{2000}' <= c <= '\U{200A}')
    || c == '\U{2028}' || c == '\U{2029}' || c == '\U{202F}' || c == '\U{205F}'
    || c == '\U{3000}' || c == '\U{FEFF}'
  }

  /** Drops the leading white space (`trimStart`). */
  function DropSpaces(s: string): (r: string)
    ensures |r| <= |s| && r == s[|s| - |r|..]
    ensures r == [] || !IsSpace(r[0])
    ensures forall i :: 0 <= i < |s| - |r| ==> IsSpace(s[i])
    decreases |s|
  {
    if s != [] && IsSpace(s[0]) then DropSpaces(s[1..]) else s
  }

  /** Drops the trailing white space (`trimEnd`). */
  function DropTrailingSpaces(s: string): (r: string)
    ensures |r| <= |s| && r == s[..|r|]
    ensures r == [] || !IsSpace(r[|r| - 1])
    ensures forall i :: |r| <= i < |s| ==> IsSpace(s[i])
    decreases |s|
  {
    if s != [] && IsSpace(s[|s| - 1]) then DropTrailingSpaces(s[..|s| - 1]) else s
  }

  /** Every white-space character is a plain space and no two are adjacent. */
  ghost predicate SingleSpaced(t: string) {
    && (forall i :: 0 <= i < |t| && IsSpace(t[i]) ==> t[i] == ' ')
    && (forall i :: 0 <= i < |t| - 1 ==> !(IsSpace(t[i]) && IsSpace(t[i + 1])))
  }

  /** Replaces every maximal run of white space by one space. */
  function Collapse(s: string): (r: string)
    ensures |r| <= |s|
    ensures s != [] ==> r != [] && (IsSpace(r[0]) <==> IsSpace(s[0]))
    decreases |s|
  {
    if s == [] then []
    else if IsSpace(s[0]) then [' '] + Collapse(DropSpaces(s[1..]))
    else [s[0]] + Collapse(s[1..])
  }

  /** After collapsing, every white-space character is a plain space and no two are adjacent. */
  lemma {:induction false} CollapseSingleSpaced(s: string)
    ensures SingleSpaced(Collapse(s))
    decreases |s|
  {
    if s != [] {
      var rest := if IsSpace(s[0]) then DropSpaces(s[1..]) else s[1..];
      CollapseSingleSpaced(rest);
      var r, tail := Collapse(s), Collapse(rest);
      assert r == [r[0]] + tail;
      forall i | 0 <= i < |r| && IsSpace(r[i]) ensures r[i] == ' ' {
        if i > 0 {
          assert r[i] == tail[i - 1];
        }
      }
      forall i | 0 <= i < |r| - 1 ensures !(IsSpace(r[i]) && IsSpace(r[i + 1])) {
        assert r[i + 1] == tail[i];
        if i > 0 {
          assert r[i] == tail[i - 1];
        }
      }
    }
  }

  /** Leading white space stops at the first other character. */
  lemma {:induction false} DropSpacesBefore(x: string, c: char, b: string)
    requires !IsSpace(c)
    ensures DropSpaces(x + [c] + b) == DropSpaces(x) + [c] + b
    decreases |x|
  {
    if x != [] {
      assert (x + [c] + b)[0] == x[0] && (x + [c] + b)[1..] == x[1..] + [c] + b;
      DropSpacesBefore(x[1..], c, b);
    }
  }

  lemma AppendRegroup(w: string, x: string, y: string, z: string)
    ensures w + (x + y + z) == (w + x) + y + z
  {
  }

  /** A character other than white space is kept, and the text on either side collapses separately. */
  lemma {:induction false} CollapseKeepsOtherChar(a: string, c: char, b: string)
    requires !IsSpace(c)
    ensures Collapse(a + [c] + b) == Collapse(a) + [c] + Collapse(b)
    decreases |a|
  {
    var s := a + [c] + b;
    if a == [] {
      assert s == [c] + b;
      assert Collapse(s) == [c] + Collapse(b);
      assert Collapse(a) + [c] == [c];
    } else {
      assert s[0] == a[0] && s[1..] == a[1..] + [c] + b;
      if IsSpace(a[0]) {
        var d := DropSpaces(a[1..]);
        DropSpacesBefore(a[1..], c, b);
        assert DropSpaces(s[1..]) == d + [c] + b;
        CollapseKeepsOtherChar(d, c, b);
        var cd, cb := Collapse(d), Collapse(b);
        assert Collapse(s) == [' '] + (cd + [c] + cb);
        assert Collapse(a) == [' '] + cd;
        AppendRegroup([' '], cd, [c], cb);
      } else {
        CollapseKeepsOtherChar(a[1..], c, b);
        var ct, cb := Collapse(a[1..]), Collapse(b);
        assert Collapse(s) == [a[0]] + (ct + [c] + cb);
        assert Collapse(a) == [a[0]] + ct;
        AppendRegroup([a[0]], ct, [c], cb);
      }
    }
  }

  /** A run of white space collapses to one plain space. */
  lemma CollapseRun(w: string)
    requires w != [] && forall i :: 0 <= i < |w| ==> IsSpace(w[i])
    ensures Collapse(w) == " "
  {
    assert DropSpaces(w[1..]) == [];
  }

  /** Text without white space is left as it is. */
  lemma {:induction false} CollapseNoSpace(t: string)
    requires forall i :: 0 <= i < |t| ==> !IsSpace(t[i])
    ensures Collapse(t) == t
    decreases |t|
  {
    if t != [] {
      CollapseNoSpace(t[1..]);
    }
  }

  /** A slice of a single-spaced text is single-spaced. */
  lemma SingleSpacedSlice(t: string, i: nat, j: nat)
    requires SingleSpaced(t) && i <= j <= |t|
    ensures SingleSpaced(t[i..j])
  {
    forall k | 0 <= k < j - i - 1 ensures !(IsSpace(t[i..j][k]) && IsSpace(t[i..j][k + 1])) {
      assert t[i..j][k] == t[i + k] && t[i..j][k + 1] == t[i + k + 1];
    }
  }

  /** Text with no leading or trailing white space, single-spaced inside. */
  ghost predicate Normalized(t: string) {
    && SingleSpaced(t)
    && (t == [] || (!IsSpace(t[0]) && !IsSpace(t[|t| - 1])))
  }

  /** `trim`: drops white space at both ends. */
  function Trim(s: string): (r: string)
    ensures |r| <= |s|
  {
    DropTrailingSpaces(DropSpaces(s))
  }

  /** A slice of a single-spaced text that starts and ends off white space is normalized. */
  lemma NormalizedSlice(t: string, i: nat, j: nat)
    requires SingleSpaced(t) && i <= j <= |t|
    requires i < j ==> !IsSpace(t[i]) && !IsSpace(t[j - 1])
    ensures Normalized(t[i..j])
  {
    SingleSpacedSlice(t, i, j);
  }

  /**
   * A prefix `t` of a suffix `d` of a single-spaced `s` is normalized when
   * `d` does not start and `t` does not end with white space.
   */
  lemma TrimmedSliceNormalized(s: string, d: string, t: string)
    requires SingleSpaced(s)
    requires |d| <= |s| && d == s[|s| - |d|..] && (d == [] || !IsSpace(d[0]))
    requires |t| <= |d| && t == d[..|t|] && (t == [] || !IsSpace(t[|t| - 1]))
    ensures Normalized(t)
  {
    var i := |s| - |d|;
    assert t == s[i..i + |t|];
    if t != [] {
      assert s[i] == d[0] && s[i + |t| - 1] == t[|t| - 1];
    }
    NormalizedSlice(s, i, i + |t|);
  }

  /** Trimming a single-spaced text leaves it normalized. */
  lemma TrimNormalizes(s: string)
    requires SingleSpaced(s)
    ensures Normalized(Trim(s))
  {
    var d := DropSpaces(s);
    TrimmedSliceNormalized(s, d, DropTrailingSpaces(d));
  }

  /** `content.replace(/<[^>]*>/g, '').replace(/\s+/g, ' ').trim()`. */
  function CleanText(content: string): (t: string)
    ensures |t| <= |content|
  {
    Trim(Collapse(StripTags(content)))
  }

  /** Cleaned text has no white space at its ends and only single spaces inside. */
  lemma CleanTextNormalized(content: string)
    ensures Normalized(CleanText(content))
  {
    CollapseSingleSpaced(StripTags(content));
    TrimNormalizes(Collapse(StripTags(content)));
  }

  // ---------------------------------------------------------------------
  // Excerpts: `generateExcerpt(content, length = 160)`
  // ---------------------------------------------------------------------

  const DefaultExcerptLength: nat := 160

  /** The cut falls on the last space inside `t[..n]`, which lies beyond 80% of `n`. */
  ghost predicate CutAtLastSpace(t: string, n: nat, p: string) {
    && |p| < n <= |t| && p == t[..|p|]
    && t[|p|] == ' ' && 5 * |p| > 4 * n
    && forall k :: |p| < k < n ==> t[k] != ' '
  }

  /** The cut is hard at `n`: no space inside `t[..n]` lies beyond 80% of `n`. */
  ghost predicate HardCut(t: string, n: nat, p: string) {
    && n <= |t| && p == t[..n]
    && forall k :: 0 <= k < n && 5 * k > 4 * n ==> t[k] != ' '
  }

  /**
   * The excerpt of an already cleaned text `t`: `t` itself when it fits in
   * `length` characters; otherwise its first `length` characters, shortened
   * to the last space when that space lies beyond 80% of `length`, followed
   * by `...` (`lastSpaceIndex > length * 0.8` is `5 * lastSpaceIndex > 4 * length`).
   */
  function Excerpt(t: string, length: nat): (r: string)
    ensures |t| <= length ==> r == t
  {
    if |t| <= length then t
    else
      var truncated := t[..length];
      var lastSpace := LastIndexOf(truncated, ' ');
      if 5 * lastSpace > 4 * length then truncated[..lastSpace] + "..."
      else truncated + "..."
  }

  /** `generateExcerpt`: the excerpt of the cleaned content. */
  function GenerateExcerpt(content: string, length: nat): (r: string)
    ensures |CleanText(content)| <= length ==> r == CleanText(content)
  {
    Excerpt(CleanText(content), length)
  }

  /**
   * A text longer than `length` becomes a prefix of at most `length`
   * characters followed by `...`; the prefix ends at the last space of
   * `t[..length]` when that space lies beyond 80% of `length`, and is all
   * of `t[..length]` when no space does.
   */
  lemma ExcerptOfLongText(t: string, length: nat)
    requires |t| > length
    ensures var r := Excerpt(t, length);
      && |r| >= 3 && r[|r| - 3..] == "..."
      && |r| - 3 <= length
      && (CutAtLastSpace(t, length, r[..|r| - 3]) || HardCut(t, length, r[..|r| - 3]))
  {
    var r := Excerpt(t, length);
    var truncated := t[..length];
    var lastSpace := LastIndexOf(truncated, ' ');
    if 5 * lastSpace > 4 * length {
      var p := truncated[..lastSpace];
      assert r == p + "...";
      assert r[..|r| - 3] == p;
      forall k | lastSpace < k < length ensures t[k] != ' ' {
        assert t[k] == truncated[lastSpace + 1..][k - lastSpace - 1];
      }
      assert CutAtLastSpace(t, length, p);
    } else {
      assert r == truncated + "...";
      assert r[..|r| - 3] == truncated;
      forall k | 0 <= k < length && 5 * k > 4 * length ensures t[k] != ' ' {
        assert t[k] == truncated[k];
        if lastSpace >= 0 {
          assert k > lastSpace;
          assert t[k] == truncated[lastSpace + 1..][k - lastSpace - 1];
        }
      }
      assert HardCut(t, length, truncated);
    }
  }

  /** The same for the excerpt of raw content whose cleaned text is too long. */
  lemma ExcerptTruncates(content: string, length: nat)
    requires |CleanText(content)| > length
    ensures var t := CleanText(content);
      var r := GenerateExcerpt(content, length);
      && |r| >= 3 && r[|r| - 3..] == "..."
      && |r| - 3 <= length
      && (CutAtLastSpace(t, length, r[..|r| - 3]) || HardCut(t, length, r[..|r| - 3]))
  {
    ExcerptOfLongText(CleanText(content), length);
  }

  /** Without a length the excerpt is cut at 160 characters. */
  function GenerateDefaultExcerpt(content: string): (r: string)
    ensures |CleanText(content)| <= DefaultExcerptLength ==> r == CleanText(content)
    ensures |CleanText(content)| > DefaultExcerptLength ==> |r| <= DefaultExcerptLength + 3
  {
    var r := GenerateExcerpt(content, DefaultExcerptLength);
    if |CleanText(content)| > DefaultExcerptLength then
      ExcerptTruncates(content, DefaultExcerptLength);
      r
    else
      r
  }

  // ---------------------------------------------------------------------
  // Reading time: `calculateReadTime(content)`
  // ---------------------------------------------------------------------

  const JapaneseCharsPerMinute: nat := 450
  const EnglishWordsPerMinute: nat := 225

  /** Hiragana, katakana and the CJK ideographs `一-龯`. */
  predicate IsJapanese(c: char) {
    ('\U{3040}' <= c <= '\U{309F}') || ('\U{30A0}' <= c <= '\U{30FF}') || ('\U{4E00}' <= c <= '\U{9FAF}')
  }

  /** `[a-zA-Z0-9]`. */
  predicate IsWordChar(c: char) {
    ('a' <= c <= 'z') || ('A' <= c <= 'Z') || ('0' <= c <= '9')
  }

  /** The number of matches of the Japanese character class. */
  function CountJapanese(s: string): (n: nat)
    ensures n <= |s|
    decreases |s|
  {
    if s == [] then 0 else (if IsJapanese(s[0]) then 1 else 0) + CountJapanese(s[1..])
  }

  /**
   * The number of matches of `[a-zA-Z0-9]+` in `s`, scanning with the flag
   * "the previous character belonged to a run".
   */
  function WordsFrom(s: string, inWord: bool): nat
    decreases |s|
  {
    if s == [] then 0
    else if IsWordChar(s[0]) then (if inWord then 0 else 1) + WordsFrom(s[1..], true)
    else WordsFrom(s[1..], false)
  }

  function CountWords(s: string): nat {
    WordsFrom(s, false)
  }

  /** Runs on either side of a non-word character are counted apart and add up. */
  lemma {:induction false} WordsSeparated(a: string, c: char, b: string, inWord: bool)
    requires !IsWordChar(c)
    ensures WordsFrom(a + [c] + b, inWord) == WordsFrom(a, inWord) + WordsFrom(b, false)
    decreases |a|
  {
    if a == [] {
      assert a + [c] + b == [c] + b;
      assert ([c] + b)[1..] == b;
    } else {
      assert (a + [c] + b)[1..] == a[1..] + [c] + b;
      WordsSeparated(a[1..], c, b, IsWordChar(a[0]));
    }
  }

  /** A word of `n` characters is one run. */
  lemma {:induction false} OneRun(w: string, inWord: bool)
    requires w != [] && forall i :: 0 <= i < |w| ==> IsWordChar(w[i])
    ensures WordsFrom(w, inWord) == if inWord then 0 else 1
    decreases |w|
  {
    if |w| > 1 {
      OneRun(w[1..], true);
    }
  }

  /** `Math.ceil` on reals. */
  function Ceil(x: real): int {
    -((-x).Floor)
  }

  /**
   * `Math.max(1, Math.ceil(japaneseChars / 450 + englishWords / 225))`,
   * both counts taken on the stripped text. Reading speeds are exact
   * rationals here.
   */
  function CalculateReadTime(content: string): (minutes: int)
    ensures minutes >= 1
  {
    var text := StripTags(content);
    var japaneseTime := CountJapanese(text) as real / JapaneseCharsPerMinute as real;
    var englishTime := CountWords(text) as real / EnglishWordsPerMinute as real;
    var total := Ceil(japaneseTime + englishTime);
    if total > 1 then total else 1
  }

  /**
   * The estimate is the least whole number of minutes (and at least one)
   * in which `jp + 2 * en` units at 450 a minute are read:
   * `max(1, ceil((jp + 2 * en) / 450))`.
   */
  lemma ReadTimeIsCeiling(content: string)
    ensures var text := StripTags(content);
      var units := CountJapanese(text) + 2 * CountWords(text);
      var minutes := CalculateReadTime(content);
      && units <= 450 * minutes
      && (minutes == 1 || 450 * (minutes - 1) < units)
      && minutes == if units == 0 then 1 else (units + 449) / 450
  {
    var text := StripTags(content);
    var jp := CountJapanese(text);
    var en := CountWords(text);
    var units := jp + 2 * en;
    var x := jp as real / 450.0 + en as real / 225.0;
    assert x == units as real / 450.0;
    var q := (units + 449) / 450;
    assert q as real - 1.0 < x <= q as real;
    assert Ceil(x) == q;
  }
}
