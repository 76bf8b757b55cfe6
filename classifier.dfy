/** The two historical-period tags of a coin ad (main.py:58-94). Texts are
    the already lowercased and stripped ad text; a missing year is `None`. */
module Classifier {

  import opened Wrappers
  import opened Text

  /** Currency and collector words that, with an imperial year, mark an Empire coin. */
  const EmpireKeywords: seq<string> := ["россий", "russian", "рубл", "копейк", "копеек", "гривен", "червон"]

  /** Words naming the Soviet state. */
  const SovietKeywords: seq<string> := ["ссср", "рсфср", "советск"]

  /** Currency words that, with a Soviet year, mark an RSFSR coin. */
  const SovietCurrencyKeywords: seq<string> := ["рубл", "копейк", "копеек"]

  /** The text contains at least one of the keywords as a substring. */
  predicate MentionsAny(text: string, keywords: seq<string>)
  {
    exists i :: 0 <= i < |keywords| && Contains(text, keywords[i])
  }

  /** Python's `year or 0`. */
  function YearOrZero(year: Option<int>): int
  {
    match year
    case None => 0
    case Some(y) => y
  }

  /** The ad names the Russian Empire itself, in Russian or in English. */
  predicate EmpireSelfReference(text: string)
  {
    (Contains(text, "россий") && Contains(text, "импер"))
    || (Contains(text, "russian") && Contains(text, "empire"))
  }

  /** `_produced_by_rus_empire`. A tagged ad always mentions one of the
      keywords (the self-reference words are keywords too), and only a
      self-reference tags it outside the years 1721..1917. */
  predicate ProducedByRusEmpire(text: string, year: Option<int>)
    ensures ProducedByRusEmpire(text, year) ==> MentionsAny(text, EmpireKeywords)
    ensures ProducedByRusEmpire(text, year) && !EmpireSelfReference(text) ==> 1721 <= YearOrZero(year) <= 1917
  {
    var y := YearOrZero(year);
    if EmpireSelfReference(text) then
      assert EmpireKeywords[0] == "россий" && EmpireKeywords[1] == "russian";
      true
    else if MentionsAny(text, EmpireKeywords) && 1721 <= y <= 1917 then true
    else false
  }

  /** `_produced_by_rsfsr`. A tagged ad has a missing or zero year or one in
      1922..1991, and mentions the Soviet state or a rouble/kopeck word. */
  predicate ProducedByRsfsr(text: string, year: Option<int>)
    ensures ProducedByRsfsr(text, year) ==> YearOrZero(year) == 0 || 1922 <= YearOrZero(year) <= 1991
    ensures ProducedByRsfsr(text, year) ==> MentionsAny(text, SovietKeywords + SovietCurrencyKeywords)
  {
    var y := YearOrZero(year);
    MentionsAnyConcat(text, SovietKeywords, SovietCurrencyKeywords);
    ((y == 0 || 1922 <= y <= 1991) && MentionsAny(text, SovietKeywords))
    || (1922 <= y <= 1991 && MentionsAny(text, SovietCurrencyKeywords))
  }

  /** Mentioning a keyword of `a + b` is mentioning one of `a` or one of `b`. */
  lemma MentionsAnyConcat(text: string, a: seq<string>, b: seq<string>)
    ensures MentionsAny(text, a + b) <==> MentionsAny(text, a) || MentionsAny(text, b)
  {
    var all := a + b;
    if MentionsAny(text, all) {
      var i :| 0 <= i < |all| && Contains(text, all[i]);
      if i < |a| {
        assert all[i] == a[i];
      } else {
        assert all[i] == b[i - |a|];
      }
    }
    if MentionsAny(text, a) {
      var i :| 0 <= i < |a| && Contains(text, a[i]);
      assert all[i] == a[i];
    }
    if MentionsAny(text, b) {
      var i :| 0 <= i < |b| && Contains(text, b[i]);
      assert all[i + |a|] == b[i];
    }
  }

  /** An Empire self-reference tags the ad whatever the year, a missing one included. */
  lemma EmpireSelfReferenceAnyYear(text: string, year: Option<int>)
    requires EmpireSelfReference(text)
    ensures ProducedByRusEmpire(text, year)
  {
  }

  /** Any currency or collector keyword together with a year of the Empire tags the ad. */
  lemma EmpireKeywordInRange(text: string, k: string, y: int)
    requires k in EmpireKeywords && Contains(text, k)
    requires 1721 <= y <= 1917
    ensures ProducedByRusEmpire(text, Some(y))
  {
  }

  /** With a missing year, a zero year or any year outside 1721..1917, only the
      self-reference tags an ad as an Empire coin. */
  lemma EmpireOutsideRange(text: string, year: Option<int>)
    requires !(1721 <= YearOrZero(year) <= 1917)
    ensures ProducedByRusEmpire(text, year) <==> EmpireSelfReference(text)
  {
  }

  /** With a missing or zero year, an ad is RSFSR exactly when it names the Soviet state. */
  lemma RsfsrWithoutYear(text: string, year: Option<int>)
    requires YearOrZero(year) == 0
    ensures ProducedByRsfsr(text, year)
        <==> Contains(text, "ссср") || Contains(text, "рсфср") || Contains(text, "советск")
  {
    if Contains(text, "ссср") {
      assert SovietKeywords[0] == "ссср";
    } else if Contains(text, "рсфср") {
      assert SovietKeywords[1] == "рсфср";
    } else if Contains(text, "советск") {
      assert SovietKeywords[2] == "советск";
    }
  }

  /** A non-zero year outside 1922..1991 never gives the RSFSR tag. */
  lemma RsfsrOutsideRange(text: string, year: Option<int>)
    requires YearOrZero(year) != 0 && !(1922 <= YearOrZero(year) <= 1991)
    ensures !ProducedByRsfsr(text, year)
  {
  }

  /** In 1922..1991 an ad is RSFSR exactly when it mentions the Soviet state or a
      rouble/kopeck word. */
  lemma RsfsrInRange(text: string, y: int)
    requires 1922 <= y <= 1991
    ensures ProducedByRsfsr(text, Some(y))
        <==> MentionsAny(text, SovietKeywords + SovietCurrencyKeywords)
  {
    MentionsAnyConcat(text, SovietKeywords, SovietCurrencyKeywords);
  }

  /** In 1922..1991 the word "ссср" alone is enough for the RSFSR tag. */
  lemma RsfsrUssrInRange(text: string, y: int)
    requires 1922 <= y <= 1991 && Contains(text, "ссср")
    ensures ProducedByRsfsr(text, Some(y))
  {
    assert SovietKeywords[0] == "ссср";
  }

  /** A text whose characters all sort below the first character of every
      keyword mentions none of them. */
  lemma NoKeywordAbove(text: string, keywords: seq<string>)
    requires forall j :: 0 <= j < |text| ==> text[j] < 'r'
    requires forall i :: 0 <= i < |keywords| ==> |keywords[i]| > 0 && keywords[i][0] >= 'r'
    ensures !MentionsAny(text, keywords)
  {
    forall i | 0 <= i < |keywords| ensures !Contains(text, keywords[i]) {
      AbsentFirstChar(text, keywords[i]);
    }
  }

  /** Every keyword, in Russian or in English, starts at or above `'r'`, so a
      text made of lower characters (such as `"None None"`) gets neither tag,
      whatever its year. */
  lemma UntaggedBelowR(text: string, year: Option<int>)
    requires forall j :: 0 <= j < |text| ==> text[j] < 'r'
    ensures !ProducedByRsfsr(text, year) && !ProducedByRusEmpire(text, year)
  {
    NoKeywordAbove(text, EmpireKeywords);
    NoKeywordAbove(text, SovietKeywords);
    NoKeywordAbove(text, SovietCurrencyKeywords);
    AbsentFirstChar(text, "россий");
    AbsentFirstChar(text, "russian");
  }

  /** A Soviet rouble of 1961: RSFSR and not the Empire. */
  lemma SovietRoubleScenario(text: string)
    requires text == "монета ссср 1 рубль 1961"
    ensures ProducedByRsfsr(text, Some(1961))
    ensures !ProducedByRusEmpire(text, Some(1961))
  {
    SovietRoubleNamesUssr(text);
    RsfsrUssrInRange(text, 1961);
    SovietRoubleNamesNoEmpire(text);
    EmpireOutsideRange(text, Some(1961));
  }

  /** The rouble ad contains "ссср", at index 7. */
  lemma SovietRoubleNamesUssr(text: string)
    requires text == "монета ссср 1 рубль 1961"
    ensures Contains(text, "ссср")
  {
    assert OccursAt(text, "ссср", 7);
    ContainsIff(text, "ссср");
  }

  /** The rouble ad names the Empire neither in Russian nor in English. */
  lemma SovietRoubleNamesNoEmpire(text: string)
    requires text == "монета ссср 1 рубль 1961"
    ensures !EmpireSelfReference(text)
  {
    AbsentFirstChar(text, "импер");
    AbsentFirstChar(text, "russian");
  }

  /** An imperial five-kopeck coin of 1850: the Empire and not RSFSR. */
  lemma ImperialKopeckScenario(text: string)
    requires text == "российская империя 5 копеек 1850"
    ensures ProducedByRusEmpire(text, Some(1850))
    ensures !ProducedByRsfsr(text, Some(1850))
  {
    assert OccursAt(text, "россий", 0);
    assert OccursAt(text, "импер", 11);
    ContainsIff(text, "россий");
    ContainsIff(text, "импер");
  }
}
