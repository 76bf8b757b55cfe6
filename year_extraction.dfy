/** `_get_year_from_text` (main.py:96-114): the first match of the pattern
    `[^a-bA-B0-9](\d{4})[^a-zA-Z0-9]`, accepted only in 1000..currentYear,
    else the first year a date extractor found in the text. */
module YearExtraction {

  import opened Wrappers
  import opened Text

  /** The left character class `[^a-bA-B0-9]`, as written: it excludes only
      `a`, `b`, `A`, `B` and the digits. */
  predicate LeftBoundary(c: char)
  {
    !(('a' <= c <= 'b') || ('A' <= c <= 'B') || IsAsciiDigit(c))
  }

  /** The right character class `[^a-zA-Z0-9]`. */
  predicate RightBoundary(c: char)
  {
    !(('a' <= c <= 'z') || ('A' <= c <= 'Z') || IsAsciiDigit(c))
  }

  /** The pattern matches the six characters of `s` starting at `i`. The
      captured four digits are then a whole run of digits: no digit stands
      right before or right after them. */
  predicate MatchAt(s: string, i: nat)
    ensures MatchAt(s, i) ==> i + 6 <= |s| && AllAsciiDigits(s[i + 1..i + 5])
    ensures MatchAt(s, i) ==> i + 6 <= |s| && !IsAsciiDigit(s[i]) && !IsAsciiDigit(s[i + 5])
  {
    i + 6 <= |s|
    && LeftBoundary(s[i])
    && IsAsciiDigit(s[i + 1]) && IsAsciiDigit(s[i + 2])
    && IsAsciiDigit(s[i + 3]) && IsAsciiDigit(s[i + 4])
    && RightBoundary(s[i + 5])
  }

  /** `re.search` from index `from`: the leftmost match start at or after `from`. */
  function FirstMatchFrom(s: string, from: nat): (r: Option<nat>)
    requires from <= |s|
    ensures r.Some? ==> from <= r.value && MatchAt(s, r.value)
    ensures r.Some? ==> forall j: nat :: from <= j < r.value ==> !MatchAt(s, j)
    ensures r.None? ==> forall j: nat :: from <= j ==> !MatchAt(s, j)
    decreases |s| - from
  {
    if from + 6 > |s| then None
    else if MatchAt(s, from) then Some(from)
    else FirstMatchFrom(s, from + 1)
  }

  /** `re.search(regexp, text)`: where its leftmost match starts, if any. */
  function FirstMatch(s: string): (r: Option<nat>)
    ensures r.Some? ==> MatchAt(s, r.value) && forall j: nat :: j < r.value ==> !MatchAt(s, j)
    ensures r.None? <==> forall j: nat :: !MatchAt(s, j)
  {
    FirstMatchFrom(s, 0)
  }

  /** The number that the captured four-digit group of the match at `i` reads as. */
  function MatchedNumber(s: string, i: nat): (n: nat)
    requires MatchAt(s, i)
    ensures n < 10000
  {
    var digits := s[i + 1..i + 5];
    assert AllAsciiDigits(digits) by {
      forall k | 0 <= k < 4 ensures IsAsciiDigit(digits[k]) {
        assert digits[k] == s[i + 1 + k];
      }
    }
    Power10Four();
    DigitsValue(digits)
  }

  /** The regex step: the number of the first match, when it is a plausible year. */
  function RegexYear(s: string, currentYear: int): (r: Option<int>)
    ensures r.Some? ==> 1000 <= r.value <= currentYear
  {
    match FirstMatch(s)
    case None => None
    case Some(i) =>
      var n := MatchedNumber(s, i);
      if 1000 <= n <= currentYear then Some(n) else None
  }

  /** The first year among the extractor's facts, skipping facts without one. */
  function FirstYear(found: seq<Option<int>>): (r: Option<int>)
    ensures r.None? <==> forall i :: 0 <= i < |found| ==> found[i].None?
    ensures r.Some? ==> exists i :: 0 <= i < |found| && found[i] == r
                                     && forall j :: 0 <= j < i ==> found[j].None?
  {
    if found == [] then None
    else if found[0].Some? then found[0]
    else
      var r := FirstYear(found[1..]);
      assert forall i :: 1 <= i < |found| ==> found[i] == found[1..][i - 1];
      r
  }

  /** `_get_year_from_text`, with the date extractor's per-fact years given as
      `found` and `datetime.now().year` as `currentYear`. */
  function YearFromText(text: string, currentYear: int, found: seq<Option<int>>): (r: Option<int>)
    ensures r.None? <==> RegexYear(text, currentYear).None? && forall i :: 0 <= i < |found| ==> found[i].None?
    ensures r.Some? ==> (1000 <= r.value <= currentYear) || r in found
  {
    var fromRegex := RegexYear(text, currentYear);
    if fromRegex.Some? then fromRegex else FirstYear(found)
  }

  /** The first match alone decides: its number when in range, otherwise the
      extractor's first year, whatever later matches the text holds. */
  lemma FirstMatchDecides(text: string, currentYear: int, found: seq<Option<int>>, i: nat)
    requires MatchAt(text, i)
    requires forall j: nat :: j < i ==> !MatchAt(text, j)
    ensures YearFromText(text, currentYear, found)
         == if 1000 <= MatchedNumber(text, i) <= currentYear then Some(MatchedNumber(text, i))
            else FirstYear(found)
  {
    assert FirstMatch(text) == Some(i);
  }

  /** Without any match the extractor's first year is the answer. */
  lemma NoMatchFallsBack(text: string, currentYear: int, found: seq<Option<int>>)
    requires forall j: nat :: !MatchAt(text, j)
    ensures YearFromText(text, currentYear, found) == FirstYear(found)
  {
  }

  /** A year written as a standalone four-digit token after digit-free text is
      what the regex step returns. */
  lemma StandaloneYearFound(pre: string, left: char, y: nat, right: char, post: string,
                            currentYear: int, found: seq<Option<int>>)
    requires forall k :: 0 <= k < |pre| ==> !IsAsciiDigit(pre[k])
    requires LeftBoundary(left) && RightBoundary(right)
    requires 1000 <= y <= 9999 && y <= currentYear
    ensures YearFromText(pre + [left] + NatToString(y) + [right] + post, currentYear, found) == Some(y)
  {
    var digits := NatToString(y);
    FourDigits(y);
    var text := pre + [left] + digits + [right] + post;
    var p := |pre|;
    assert text[p] == left;
    assert text[p + 5] == right;
    assert text[p + 1..p + 5] == digits;
    forall k | 0 <= k < 4 ensures text[p + 1 + k] == digits[k] {
      assert text[p + 1..p + 5][k] == text[p + 1 + k];
    }
    assert MatchAt(text, p);
    forall j: nat | j < p ensures !MatchAt(text, j) {
      if j + 1 < p {
        assert text[j + 1] == pre[j + 1];
      }
    }
    DigitsValueOfNatToString(y);
    FirstMatchDecides(text, currentYear, found, p);
  }

  /** Only the first match is examined: " 0999 1961 " holds the year 1961 at its
      second match, yet the out-of-range first match sends the text to the extractor. */
  lemma LaterMatchIgnored(text: string, currentYear: int, found: seq<Option<int>>)
    requires text == " 0999 1961 " && currentYear >= 1961
    ensures MatchAt(text, 5) && MatchedNumber(text, 5) == 1961
    ensures YearFromText(text, currentYear, found) == FirstYear(found)
  {
    assert MatchAt(text, 0);
    assert text[1..5] == "0999";
    ValueOf0999(text[1..5]);
    FirstMatchDecides(text, currentYear, found, 0);
    assert text[6..10] == "1961";
    ValueOf1961(text[6..10]);
  }

  /** `int("0999") == 999`. */
  lemma ValueOf0999(d: string)
    requires d == "0999"
    ensures AllAsciiDigits(d) && DigitsValue(d) == 999
  {
    assert DigitsValue("0") == 0;
    assert DigitsValue("09") == 9;
    assert DigitsValue("099") == 99;
    assert d[..3] == "099";
  }

  /** `int("1961") == 1961`. */
  lemma ValueOf1961(d: string)
    requires d == "1961"
    ensures AllAsciiDigits(d) && DigitsValue(d) == 1961
  {
    assert DigitsValue("1") == 1;
    assert DigitsValue("19") == 19;
    assert DigitsValue("196") == 196;
    assert d[..3] == "196";
  }

  /** The left class as written lets a letter other than a/b precede the year:
      "x1961 " yields 1961. */
  lemma LeftClassAdmitsLetters(text: string, currentYear: int, found: seq<Option<int>>)
    requires text == "x1961 " && currentYear >= 1961
    ensures YearFromText(text, currentYear, found) == Some(1961)
  {
    assert text == "" + ['x'] + NatToString(1961) + [' '] + "" by {
      assert NatToString(1961) == "1961" by {
        assert NatToString(1) == "1";
        assert NatToString(19) == "19";
        assert NatToString(196) == "196";
      }
    }
    StandaloneYearFound("", 'x', 1961, ' ', "", currentYear, found);
  }

  /** The extractor's year is not checked against 1000..currentYear. */
  lemma FallbackYearNotRangeChecked(text: string, currentYear: int)
    requires text == ""
    ensures YearFromText(text, currentYear, [None, Some(currentYear + 1)]) == Some(currentYear + 1)
  {
    assert FirstMatch(text) == None;
    var found := [None, Some(currentYear + 1)];
    assert found[1..] == [Some(currentYear + 1)];
    assert FirstYear(found[1..]) == Some(currentYear + 1);
    assert RegexYear(text, currentYear) == None;
  }

  /** A text without ASCII digits, for which the extractor finds no year,
      has no year. */
  lemma NoDigitsNoYear(text: string, currentYear: int, found: seq<Option<int>>)
    requires forall k :: 0 <= k < |text| ==> !IsAsciiDigit(text[k])
    requires forall k :: 0 <= k < |found| ==> found[k].None?
    ensures YearFromText(text, currentYear, found) == None
  {
    forall j: nat ensures !MatchAt(text, j) {
      if j + 6 <= |text| {
        assert !IsAsciiDigit(text[j + 1]);
      }
    }
  }
}
