/** Keyword relevance scoring (app/tools/base_tool.py, `BaseTool._calculate_relevance_score`;
    app/tools/keyword_search_tool.py has the same code as a module function).

    The score of a text is the fraction of the keywords that, lower-cased and
    stripped, are non-empty and occur in the lower-cased text. It is computed
    exactly, as a `real`. */
module Relevance {
  import opened Text
  import opened Seqs

  /** `keyword.lower().strip()`. */
  function KeywordForm(k: string): string {
    Strip(Lower(k))
  }

  /** Whether keyword `k` counts as found in the lower-cased text `t`. */
  predicate Found(k: string, t: string) {
    KeywordForm(k) != [] && IsSubstring(KeywordForm(k), t)
  }

  /** The test "found in `t`" as a function value. */
  function FoundIn(t: string): string -> bool {
    k => Found(k, t)
  }

  /** How many of `ks` are found in `t` (duplicates counted each time). */
  function Matches(t: string, ks: seq<string>): nat {
    Count(ks, FoundIn(t))
  }

  /** The relevance score: 0 for an empty text or no keywords, otherwise
      matches / number of keywords. */
  function Score(text: string, ks: seq<string>): (r: real)
    ensures 0.0 <= r <= 1.0
  {
    if text == [] || ks == [] then 0.0
    else
      Fraction(Matches(Lower(text), ks), |ks|);
      Matches(Lower(text), ks) as real / |ks| as real
  }

  /** The loop of the source, counting matches one keyword at a time. */
  method CalculateRelevanceScore(text: string, keywords: seq<string>) returns (score: real)
    ensures score == Score(text, keywords)
  {
    if text == [] || keywords == [] {
      return 0.0;
    }
    var textLower := Lower(text);
    var matches := 0;
    for i := 0 to |keywords|
      invariant matches == Count(keywords[..i], FoundIn(textLower))
    {
      CountPrefixStep(keywords, i, FoundIn(textLower));
      var keywordLower := KeywordForm(keywords[i]);
      if keywordLower != [] && IsSubstring(keywordLower, textLower) {
        matches := matches + 1;
      }
    }
    assert keywords[..|keywords|] == keywords;
    score := matches as real / |keywords| as real;
  }

  /** Facts about `m / n` as a real, for counts `m <= n` with `n > 0`. */
  lemma Fraction(m: nat, n: nat)
    requires 0 < n && m <= n
    ensures 0.0 <= m as real / n as real <= 1.0
    ensures m as real / n as real == 1.0 <==> m == n
    ensures m as real / n as real == 0.0 <==> m == 0
  {
    var q := m as real / n as real;
    assert q * n as real == m as real;
  }

  lemma FractionScale(m: nat, n: nat)
    requires 0 < n
    ensures (2 * m) as real / (2 * n) as real == m as real / n as real
  {
    var q := m as real / n as real;
    assert q * n as real == m as real;
    assert q * (2 * n) as real == (2 * m) as real;
  }

  lemma FractionMonotone(m1: nat, m2: nat, n: nat)
    requires 0 < n && m1 <= m2
    ensures m1 as real / n as real <= m2 as real / n as real
  {
    var q1 := m1 as real / n as real;
    var q2 := m2 as real / n as real;
    assert q1 * n as real == m1 as real;
    assert q2 * n as real == m2 as real;
  }

  /** The score is 1 exactly when the text is non-empty, there is at least one
      keyword, and every keyword is non-blank and found. */
  lemma ScoreOne(text: string, ks: seq<string>)
    ensures Score(text, ks) == 1.0 <==>
      text != [] && ks != [] && forall k :: k in ks ==> KeywordForm(k) != [] && IsSubstring(KeywordForm(k), Lower(text))
  {
    CountAll(ks, FoundIn(Lower(text)));
    if text != [] && ks != [] {
      Fraction(Matches(Lower(text), ks), |ks|);
    }
  }

  /** A blank keyword is never found but still counts in the denominator. */
  lemma BlankKeywordDilutes(text: string, ks: seq<string>, blank: string)
    requires text != []
    requires KeywordForm(blank) == []
    ensures Score(text, ks + [blank]) == Matches(Lower(text), ks) as real / (|ks| + 1) as real
  {
    CountAppend(ks, [blank], FoundIn(Lower(text)));
    assert [blank][..0] == [];
  }

  /** Repeating the keyword list counts every keyword twice, in the numerator
      and in the denominator, so the score is the same. */
  lemma DuplicatesCountTwice(text: string, ks: seq<string>)
    ensures Matches(Lower(text), ks + ks) == 2 * Matches(Lower(text), ks)
    ensures Score(text, ks + ks) == Score(text, ks)
  {
    CountAppend(ks, ks, FoundIn(Lower(text)));
    if text != [] && ks != [] {
      FractionScale(Matches(Lower(text), ks), |ks|);
    }
  }

  /** More keywords found means a higher score: if every keyword found in
      `text1` is also found in `text2`, `text2` scores at least as high. */
  lemma ScoreMonotone(text1: string, text2: string, ks: seq<string>)
    requires forall k :: k in ks && Found(k, Lower(text1)) ==> Found(k, Lower(text2))
    ensures Score(text1, ks) <= Score(text2, ks)
  {
    if text2 == [] {
      assert Lower(text2) == [];
      NothingFoundIfOnlyInEmpty(text1, ks);
      if text1 != [] && ks != [] {
        Fraction(0, |ks|);
      }
      return;
    }
    assert forall k :: k in ks && FoundIn(Lower(text1))(k) ==> FoundIn(Lower(text2))(k);
    CountMonotone(ks, FoundIn(Lower(text1)), FoundIn(Lower(text2)));
    if text1 != [] && ks != [] {
      FractionMonotone(Matches(Lower(text1), ks), Matches(Lower(text2), ks), |ks|);
    }
  }

  /** If every keyword found in `text1` were also found in the empty text,
      `text1` finds nothing. */
  lemma NothingFoundIfOnlyInEmpty(text1: string, ks: seq<string>)
    requires forall k :: k in ks && Found(k, Lower(text1)) ==> Found(k, [])
    ensures Matches(Lower(text1), ks) == 0
  {
    var found := FoundIn(Lower(text1));
    forall k | k in ks ensures !found(k) {
      NotFoundInEmpty(k);
    }
    CountNone(ks, found);
  }

  /** The empty text contains no keyword. */
  lemma NotFoundInEmpty(k: string)
    ensures !Found(k, [])
  {
    var f := KeywordForm(k);
    if f != [] {
      assert !(f <= []);
      assert !IsSubstring(f, []);
    }
  }

  /** Matching ignores case on the text side. */
  lemma ScoreIgnoresTextCase(text: string, ks: seq<string>)
    ensures Score(Lower(text), ks) == Score(text, ks)
  {
    LowerIdempotent(text);
  }

  /** ... and on the keyword side. */
  lemma {:induction false} MatchesIgnoreKeywordCase(t: string, ks: seq<string>)
    ensures Matches(t, LowerAll(ks)) == Matches(t, ks)
    decreases |ks|
  {
    if ks != [] {
      var init := ks[..|ks| - 1];
      MatchesIgnoreKeywordCase(t, init);
      assert LowerAll(ks)[..|ks| - 1] == LowerAll(init);
      LowerIdempotent(ks[|ks| - 1]);
      assert FoundIn(t)(LowerAll(ks)[|ks| - 1]) == FoundIn(t)(ks[|ks| - 1]);
    }
  }

  function LowerAll(ks: seq<string>): (r: seq<string>)
    ensures |r| == |ks|
    ensures forall i :: 0 <= i < |ks| ==> r[i] == Lower(ks[i])
  {
    if ks == [] then [] else LowerAll(ks[..|ks| - 1]) + [Lower(ks[|ks| - 1])]
  }
}
