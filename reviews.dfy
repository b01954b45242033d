/**
 * The helpers of the reviews section: avatar initials, the test that hides a
 * placeholder review text, the five-star rating row and the newest-first
 * ordering of the review list. Dates are integer keys.
 */
module Reviews {
  import opened Js

  datatype Review = Review(name: Option<string>, text: Option<string>, rating: int, date: int)

  // ---------------------------------------------------------------------
  // Splitting on whitespace runs
  // ---------------------------------------------------------------------

  predicate NoWhitespace(w: string)
  {
    forall k :: 0 <= k < |w| ==> !IsWhitespace(w[k])
  }

  /** The first index at or after `k` holding whitespace. */
  function FirstWhitespace(s: string, k: nat): (r: Option<nat>)
    requires k <= |s|
    ensures r.Some? ==> k <= r.value < |s| && IsWhitespace(s[r.value])
    ensures r.Some? ==> forall j :: k <= j < r.value ==> !IsWhitespace(s[j])
    ensures r.None? ==> forall j :: k <= j < |s| ==> !IsWhitespace(s[j])
    decreases |s| - k
  {
    if k == |s| then None
    else if IsWhitespace(s[k]) then Some(k)
    else FirstWhitespace(s, k + 1)
  }

  /** The end of the whitespace run that starts at `i`. */
  function RunEnd(s: string, i: nat): (j: nat)
    requires i < |s|
    ensures i < j <= |s|
    ensures IsWhitespace(s[i]) ==> forall k :: i <= k < j ==> IsWhitespace(s[k])
    ensures j < |s| ==> !IsWhitespace(s[j])
    decreases |s| - i
  {
    if i + 1 < |s| && IsWhitespace(s[i + 1]) then RunEnd(s, i + 1) else i + 1
  }

  /** `s.split(/\s+/)`: the text between maximal whitespace runs. */
  function SplitWords(s: string): (r: seq<string>)
    ensures |r| > 0
    ensures forall i :: 0 <= i < |r| ==> NoWhitespace(r[i])
    decreases |s|
  {
    match FirstWhitespace(s, 0)
    case None => [s]
    case Some(i) => [s[..i]] + SplitWords(s[RunEnd(s, i)..])
  }

  lemma {:induction false} FirstWhitespaceAt(s: string, k: nat, n: nat)
    requires k <= n < |s| && IsWhitespace(s[n])
    requires forall j :: k <= j < n ==> !IsWhitespace(s[j])
    ensures FirstWhitespace(s, k) == Some(n)
    decreases n - k
  {
    if k < n {
      FirstWhitespaceAt(s, k + 1, n);
    }
  }

  /** Words joined by single blanks split back into the same words. */
  lemma {:induction false} SplitWordsJoin(words: seq<string>)
    requires |words| > 0
    requires forall i :: 0 <= i < |words| ==> words[i] != "" && NoWhitespace(words[i])
    ensures SplitWords(Join(words, " ")) == words
  {
    if |words| == 1 {
      assert FirstWhitespace(words[0], 0).None?;
    } else {
      var tail := Join(words[1..], " ");
      JoinHead(words[1..]);
      var s := words[0] + " " + tail;
      assert Join(words, " ") == s;
      var n := |words[0]|;
      forall j | 0 <= j < n
        ensures !IsWhitespace(s[j])
      {
        assert s[j] == words[0][j];
      }
      assert s[n] == ' ';
      FirstWhitespaceAt(s, 0, n);
      assert s[n + 1] == words[1][0];
      assert RunEnd(s, n) == n + 1;
      assert s[n + 1..] == tail;
      assert s[..n] == words[0];
      SplitWordsJoin(words[1..]);
      assert SplitWords(s) == [words[0]] + words[1..];
    }
  }

  /** A join of non-empty words starts with the first word's first character and ends
      with the last word's last character. */
  lemma {:induction false} JoinHead(words: seq<string>)
    requires |words| > 0
    requires forall i :: 0 <= i < |words| ==> words[i] != ""
    ensures var s := Join(words, " ");
      |s| >= |words[0]| && s[0] == words[0][0] &&
      s[|s| - 1] == words[|words| - 1][|words[|words| - 1]| - 1]
  {
    if |words| > 1 {
      JoinHead(words[1..]);
      var tail := Join(words[1..], " ");
      assert Join(words, " ") == words[0] + " " + tail;
    }
  }

  // ---------------------------------------------------------------------
  // Avatar initials
  // ---------------------------------------------------------------------

  /** `charAt(0)`: the first character, or the empty string. */
  function FirstChar(s: string): (r: string)
    ensures |r| <= 1
  {
    if s == "" then "" else s[..1]
  }

  /** `(name || '?')`. */
  function NameOrPlaceholder(name: Option<string>): string
  {
    match name
    case None => "?"
    case Some(n) => if n == "" then "?" else n
  }

  /** The avatar's letters: the first character of the first word and, when there are
      several words, of the last one, upper-cased; `?` when there is nothing to show. */
  function Initials(name: Option<string>): (r: string)
    ensures 1 <= |r| <= 2
  {
    Letters(SplitWords(Trim(NameOrPlaceholder(name))))
  }

  /** The letters taken from the words of the trimmed name. */
  function Letters(parts: seq<string>): (r: string)
    requires |parts| > 0
    ensures 1 <= |r| <= 2
  {
    var first := if FirstChar(parts[0]) != "" then FirstChar(parts[0]) else "?";
    var last := if |parts| > 1 then FirstChar(parts[|parts| - 1]) else "";
    Upper(first + last)
  }

  /** A missing, empty or all-blank name shows `?`. */
  lemma InitialsBlank(name: Option<string>)
    requires name.Some? ==> forall k :: 0 <= k < |name.value| ==> IsWhitespace(name.value[k])
    ensures Initials(name) == "?"
  {
    var n := NameOrPlaceholder(name);
    if n == "?" {
      TrimmedPlaceholder();
      assert FirstWhitespace("?", 0).None?;
      assert SplitWords("?") == ["?"];
      LettersOfWords(["?"]);
    } else {
      TrimEmpty(n);
      assert FirstWhitespace("", 0).None?;
      assert SplitWords("") == [""];
      LettersOfEmpty();
    }
  }

  lemma LettersOfEmpty()
    ensures Letters([""]) == "?"
  {
    assert Upper("?") == "?";
  }

  lemma TrimmedPlaceholder()
    ensures Trim("?") == "?"
  {
    assert TrimStart("?") == "?";
    assert TrimEnd("?") == "?";
  }

  /** A name made of words shows the first letter of its first word and, for two or
      more words, the first letter of its last word. */
  lemma InitialsOfWords(words: seq<string>)
    requires |words| > 0
    requires forall i :: 0 <= i < |words| ==> words[i] != "" && NoWhitespace(words[i])
    ensures Initials(Some(Join(words, " "))) ==
      if |words| == 1 then [UpperChar(words[0][0])]
      else [UpperChar(words[0][0]), UpperChar(words[|words| - 1][0])]
  {
    JoinTrimmed(words);
    SplitWordsJoin(words);
    LettersOfWords(words);
  }

  lemma JoinTrimmed(words: seq<string>)
    requires |words| > 0
    requires forall i :: 0 <= i < |words| ==> words[i] != "" && NoWhitespace(words[i])
    ensures Join(words, " ") != "" && Trim(Join(words, " ")) == Join(words, " ")
  {
    var s := Join(words, " ");
    JoinHead(words);
    var last := words[|words| - 1];
    assert !IsWhitespace(last[|last| - 1]);
    assert !IsWhitespace(s[0]) && !IsWhitespace(s[|s| - 1]);
    assert TrimStart(s) == s;
    assert TrimEnd(s) == s;
  }

  /** The letters of non-empty words. */
  lemma LettersOfWords(words: seq<string>)
    requires |words| > 0
    requires forall i :: 0 <= i < |words| ==> words[i] != ""
    ensures Letters(words) ==
      if |words| == 1 then [UpperChar(words[0][0])]
      else [UpperChar(words[0][0]), UpperChar(words[|words| - 1][0])]
  {
    var first := FirstChar(words[0]);
    assert first == [words[0][0]];
    if |words| > 1 {
      var last := FirstChar(words[|words| - 1]);
      assert last == [words[|words| - 1][0]];
      assert Upper(first + last)[1] == UpperChar((first + last)[1]);
    }
  }

  /** A name with no blank inside its trimmed form is one word and shows one letter. */
  lemma InitialsSingleWord(name: string)
    requires Trim(name) != "" && NoWhitespace(Trim(name))
    ensures Initials(Some(name)) == [UpperChar(Trim(name)[0])]
  {
    var t := Trim(name);
    assert FirstWhitespace(t, 0).None?;
    assert name != "";
    LettersOfWords([t]);
  }

  // ---------------------------------------------------------------------
  // Review text
  // ---------------------------------------------------------------------

  /** The placeholder the review export writes for a rating without text, in lower case. */
  const NoReviewMarker := "[no written review provided]"

  /** `rawText && !/^\[no written review provided\]/i.test(rawText)`, with
      `rawText = (review.text || '').trim()`. */
  predicate ShowText(text: Option<string>)
  {
    var raw := Trim(match text case None => "" case Some(t) => t);
    raw != "" && !StartsWith(Lower(raw), NoReviewMarker)
  }

  /** No text, or only blanks, shows nothing. */
  lemma ShowTextBlank(text: Option<string>)
    requires text.Some? ==> forall k :: 0 <= k < |text.value| ==> IsWhitespace(text.value[k])
    ensures !ShowText(text)
  {
    if text.Some? {
      TrimEmpty(text.value);
    }
  }

  /** Text that does not open with a bracket once trimmed is shown. */
  lemma ShowTextPlain(t: string)
    requires Trim(t) != "" && Trim(t)[0] != '['
    ensures ShowText(Some(t))
  {
    MarkerEnds();
    var low := Lower(Trim(t));
    assert low[0] == LowerChar(Trim(t)[0]);
  }

  lemma MarkerEnds()
    ensures |NoReviewMarker| == 28 && NoReviewMarker[0] == '[' && NoReviewMarker[27] == ']'
  {
  }

  /** The placeholder in any letter case, after any leading blanks and before anything,
      hides the text. */
  lemma HidesPlaceholder(pre: string, tag: string, post: string)
    requires forall k :: 0 <= k < |pre| ==> IsWhitespace(pre[k])
    requires Lower(tag) == NoReviewMarker
    ensures !ShowText(Some(pre + tag + post))
  {
    MarkerEnds();
    assert LowerChar(tag[0]) == '[' && LowerChar(tag[27]) == ']';
    TrimKeepsHead(pre, tag, post);
    LowerPrefix(Trim(pre + tag + post), tag);
  }

  /** Leading blanks go, and a head that starts and ends with non-blanks stays whole. */
  lemma TrimKeepsHead(pre: string, tag: string, post: string)
    requires forall k :: 0 <= k < |pre| ==> IsWhitespace(pre[k])
    requires tag != [] && !IsWhitespace(tag[0]) && !IsWhitespace(tag[|tag| - 1])
    ensures StartsWith(Trim(pre + tag + post), tag)
  {
    var x := tag + post;
    assert pre + tag + post == pre + x;
    TrimStartBlankPrefix(pre, x);
    assert x[0] == tag[0];
    assert TrimStart(x) == x;
    assert x[|tag| - 1] == tag[|tag| - 1];
    TrimEndKeeps(x, |tag|);
    assert x[..|tag|] == tag;
  }

  /** `trimEnd()` stops at the last non-blank, so it keeps every prefix ending in one. */
  lemma TrimEndKeeps(x: string, k: nat)
    requires 0 < k <= |x| && !IsWhitespace(x[k - 1])
    ensures |TrimEnd(x)| >= k && TrimEnd(x)[..k] == x[..k]
  {
  }

  /** Lower-casing keeps prefixes. */
  lemma LowerPrefix(s: string, tag: string)
    requires StartsWith(s, tag)
    ensures StartsWith(Lower(s), Lower(tag))
  {
    assert s == tag + s[|tag|..];
    LowerAppend(tag, s[|tag|..]);
  }

  lemma {:induction false} TrimStartBlankPrefix(pre: string, x: string)
    requires forall k :: 0 <= k < |pre| ==> IsWhitespace(pre[k])
    ensures TrimStart(pre + x) == TrimStart(x)
  {
    if pre == [] {
      assert pre + x == x;
    } else {
      assert (pre + x)[0] == pre[0];
      assert (pre + x)[1..] == pre[1..] + x;
      TrimStartBlankPrefix(pre[1..], x);
    }
  }

  // ---------------------------------------------------------------------
  // Stars
  // ---------------------------------------------------------------------

  /** The rating row: five stars, star `i` filled when `i < rating`. */
  function Stars(rating: int): (r: seq<bool>)
    ensures |r| == 5
    ensures forall i :: 0 <= i < 5 ==> (r[i] <==> i < rating)
  {
    seq(5, i => i < rating)
  }

  function CountFilled(stars: seq<bool>): (n: nat)
    ensures n <= |stars|
  {
    if stars == [] then 0 else (if stars[0] then 1 else 0) + CountFilled(stars[1..])
  }

  /** The filled stars form a prefix of the row. */
  lemma StarsFilledPrefix(rating: int, i: nat, j: nat)
    requires j < i < 5 && Stars(rating)[i]
    ensures Stars(rating)[j]
  {
  }

  lemma {:induction false} CountFilledFrom(rating: int, k: nat)
    requires k <= 5
    ensures CountFilled(Stars(rating)[k..]) ==
      if rating <= k then 0 else if rating >= 5 then 5 - k else rating - k
    decreases 5 - k
  {
    if k < 5 {
      CountFilledFrom(rating, k + 1);
      assert Stars(rating)[k..][1..] == Stars(rating)[k + 1..];
    }
  }

  /** As many stars are filled as the rating, clamped to the row. */
  lemma StarsFilledCount(rating: int)
    ensures CountFilled(Stars(rating)) == if rating <= 0 then 0 else if rating >= 5 then 5 else rating
  {
    CountFilledFrom(rating, 0);
    assert Stars(rating)[0..] == Stars(rating);
  }

  // ---------------------------------------------------------------------
  // Newest first
  // ---------------------------------------------------------------------

  /** Each review is at least as recent as every later one. */
  predicate NewestFirst(s: seq<Review>)
  {
    forall i, j :: 0 <= i < j < |s| ==> s[i].date >= s[j].date
  }

  /** Puts `x` before the first review that is not more recent than it. */
  function Insert(x: Review, s: seq<Review>): (r: seq<Review>)
    ensures |r| == |s| + 1
    ensures multiset(r) == multiset(s) + multiset{x}
  {
    if s == [] || s[0].date <= x.date then [x] + s
    else
      assert s == [s[0]] + s[1..];
      [s[0]] + Insert(x, s[1..])
  }

  /** `[...RAW_REVIEWS].sort((a, b) => date(b) - date(a))`, as the stable sort the
      language requires. */
  function SortNewestFirst(s: seq<Review>): (r: seq<Review>)
    ensures multiset(r) == multiset(s)
  {
    if s == [] then []
    else
      assert s == [s[0]] + s[1..];
      Insert(s[0], SortNewestFirst(s[1..]))
  }

  lemma {:induction false} InsertSorted(x: Review, s: seq<Review>)
    requires NewestFirst(s)
    ensures NewestFirst(Insert(x, s))
  {
    if s != [] && s[0].date > x.date {
      InsertSorted(x, s[1..]);
      var t := Insert(x, s[1..]);
      assert forall k :: 0 <= k < |t| ==> t[k] in multiset(s[1..]) + multiset{x};
      forall k | 0 <= k < |t|
        ensures s[0].date >= t[k].date
      {
        assert t[k] in multiset(s[1..]) + multiset{x};
        if t[k] in multiset(s[1..]) {
          var m :| 0 <= m < |s[1..]| && s[1..][m] == t[k];
          assert s[m + 1] == t[k];
        }
      }
    }
  }

  /** The displayed list is ordered newest first. */
  lemma {:induction false} SortNewestFirstSorted(s: seq<Review>)
    ensures NewestFirst(SortNewestFirst(s))
  {
    if s != [] {
      SortNewestFirstSorted(s[1..]);
      InsertSorted(s[0], SortNewestFirst(s[1..]));
    }
  }

  /** The reviews of one date, in list order. */
  function OnDate(s: seq<Review>, d: int): (r: seq<Review>)
    ensures |r| <= |s|
  {
    if s == [] then [] else (if s[0].date == d then [s[0]] else []) + OnDate(s[1..], d)
  }

  lemma {:induction false} InsertOnDate(x: Review, s: seq<Review>, d: int)
    ensures OnDate(Insert(x, s), d) == (if x.date == d then [x] else []) + OnDate(s, d)
  {
    if s == [] || s[0].date <= x.date {
      assert ([x] + s)[1..] == s;
    } else {
      InsertOnDate(x, s[1..], d);
      assert ([s[0]] + Insert(x, s[1..]))[1..] == Insert(x, s[1..]);
    }
  }

  /** Reviews of the same date keep their original order: the sort is stable. */
  lemma {:induction false} SortNewestFirstStable(s: seq<Review>, d: int)
    ensures OnDate(SortNewestFirst(s), d) == OnDate(s, d)
  {
    if s != [] {
      SortNewestFirstStable(s[1..], d);
      InsertOnDate(s[0], SortNewestFirst(s[1..]), d);
    }
  }
}
