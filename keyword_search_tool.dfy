/** The lemmatising keyword search tool
    (app/tools/implementations/_shared/keyword_search_tool.py, `KeywordSearchTool`).

    Keywords and `risk_text` cells are both reduced to space-separated normal
    forms before scoring. The morphological analyser that gives a word its
    normal form is a parameter `nf`. Unlike the plain filter, a missing
    `risk_text` column yields an empty table, and the result rows are looked
    up again by index label in the input (`df.loc`), without helper columns. */
module LemmaSearch {
  import opened Wrappers
  import opened Seqs
  import opened Text
  import opened Frames
  import opened Relevance
  import opened Ranking
  import KeywordFilter

  /** The characters `re.sub(r'[^а-яА-Яa-zA-Z0-9\s]', ' ', ...)` keeps. */
  predicate IsAllowed(c: char) {
    ('а' <= c <= 'я') || ('А' <= c <= 'Я') || ('a' <= c <= 'z') || ('A' <= c <= 'Z') ||
    ('0' <= c <= '9') || IsSpace(c)
  }

  /** Every disallowed character becomes a space. */
  function ReplaceDisallowed(s: string): (r: string)
    ensures |r| == |s|
    ensures forall i :: 0 <= i < |s| ==> r[i] == if IsAllowed(s[i]) then s[i] else ' '
  {
    if s == [] then [] else [if IsAllowed(s[0]) then s[0] else ' '] + ReplaceDisallowed(s[1..])
  }

  /** The normal form of every word, in order. */
  function NormalForms(ws: seq<string>, nf: string -> string): (r: seq<string>)
    ensures |r| == |ws|
    ensures forall k :: 0 <= k < |ws| ==> r[k] == nf(ws[k])
  {
    if ws == [] then [] else [nf(ws[0])] + NormalForms(ws[1..], nf)
  }

  /** `_lemmatize_text` on a string: lower-case, blank out disallowed
      characters, split on whitespace, take each word's normal form, join
      with single spaces. Whatever the input, the text is made of the
      analyser's normal forms and spaces. */
  function LemmatizeText(s: string, nf: string -> string): (r: string)
    ensures FormsAndSpaces(r, nf)
  {
    var forms := NormalForms(Words(ReplaceDisallowed(Lower(s))), nf);
    JoinChars(forms, c => c == ' ' || OfSomeForm(c, nf));
    Join(forms)
  }

  /** Every character is a space or occurs in some normal form. */
  ghost predicate FormsAndSpaces(t: string, nf: string -> string) {
    forall i :: 0 <= i < |t| ==> t[i] == ' ' || OfSomeForm(t[i], nf)
  }

  /** The character occurs in some normal form the analyser gives. */
  ghost predicate OfSomeForm(c: char, nf: string -> string) {
    exists w :: c in nf(w)
  }

  /** `_lemmatize_text` on a cell: anything that is not a string gives `""`. */
  function LemmatizeCell(c: Cell, nf: string -> string): (r: string)
    ensures !c.Text? ==> r == []
  {
    if c.Text? then LemmatizeText(c.s, nf) else ""
  }

  /** A normal form the analyser may produce: lower-case letters and digits. */
  predicate IsLemmaChar(c: char) {
    ('a' <= c <= 'z') || ('а' <= c <= 'я') || ('0' <= c <= '9')
  }

  predicate IsLemma(w: string) {
    w != [] && forall i :: 0 <= i < |w| ==> IsLemmaChar(w[i])
  }

  /** If every word's normal form is non-empty and free of whitespace, the
      lemmatised text has no leading, trailing or doubled whitespace. */
  lemma LemmatizeShape(s: string, nf: string -> string)
    requires forall w :: nf(w) != [] && NoSpace(nf(w))
    ensures NoOuterSpace(LemmatizeText(s, nf)) && SingleSpaced(LemmatizeText(s, nf))
  {
    JoinShape(NormalForms(Words(ReplaceDisallowed(Lower(s))), nf));
  }

  /** Every character of a join is a space or a character of one of the words. */
  lemma {:induction false} JoinChars(ws: seq<string>, p: char -> bool)
    requires p(' ')
    requires forall k, i :: 0 <= k < |ws| && 0 <= i < |ws[k]| ==> p(ws[k][i])
    ensures forall i :: 0 <= i < |Join(ws)| ==> p(Join(ws)[i])
    decreases |ws|
  {
    if |ws| > 1 {
      JoinChars(ws[1..], p);
      var r := Join(ws);
      var t := Join(ws[1..]);
      assert r == ws[0] + " " + t;
      forall i | 0 <= i < |r| ensures p(r[i]) {
        if i > |ws[0]| {
          assert r[i] == t[i - |ws[0]| - 1];
        }
      }
    }
  }

  /** Lemmatising twice gives the same text as lemmatising once, provided the
      analyser yields lower-case words of letters and digits and is itself
      idempotent. */
  lemma LemmatizeIdempotent(s: string, nf: string -> string)
    requires forall w :: IsLemma(nf(w))
    requires forall w :: nf(nf(w)) == nf(w)
    ensures LemmatizeText(LemmatizeText(s, nf), nf) == LemmatizeText(s, nf)
  {
    var ls := NormalForms(Words(ReplaceDisallowed(Lower(s))), nf);
    var r := Join(ls);
    var keep := c => IsLemmaChar(c) || c == ' ';
    JoinChars(ls, keep);
    assert Lower(r) == r;
    assert ReplaceDisallowed(r) == r;
    forall k | 0 <= k < |ls| ensures ls[k] != [] && NoSpace(ls[k]) {
      assert IsLemma(nf(Words(ReplaceDisallowed(Lower(s)))[k]));
    }
    WordsOfJoin(ls);
    assert NormalForms(ls, nf) == ls;
  }

  /** `ё` lies outside `а-я`, so it splits a word: "ёж" is looked up as "ж". */
  lemma YoSplitsWords(nf: string -> string)
    ensures LemmatizeText("ёж", nf) == nf("ж")
  {
    assert Lower("ёж") == "ёж";
    assert ReplaceDisallowed("ёж") == " ж";
    assert Words(" ж") == ["ж"] by {
      assert TakeWord("ж") == "ж";
    }
  }

  predicate NonEmpty(k: string) {
    k != []
  }

  /** `[lemmatize(kw) for kw in keywords if kw]`. */
  function LemmatizedKeywords(keywords: seq<string>, nf: string -> string): (r: seq<string>)
    ensures |r| <= |keywords|
  {
    NormalizeAll(Where(keywords, NonEmpty), nf)
  }

  function NormalizeAll(ks: seq<string>, nf: string -> string): (r: seq<string>)
    ensures |r| == |ks|
    ensures forall k :: 0 <= k < |ks| ==> r[k] == LemmatizeText(ks[k], nf)
  {
    if ks == [] then [] else [LemmatizeText(ks[0], nf)] + NormalizeAll(ks[1..], nf)
  }

  /** The relevance of a row: its lemmatised `risk_text` cell (at column
      position `p`) scored against the lemmatised keywords. */
  function RowScorer(p: nat, lks: seq<string>, nf: string -> string): Row -> real {
    row => Score(LemmatizeCell(CellAt(row, p), nf), lks)
  }

  /** The relevance of every row. */
  function LemmaScores(rows: seq<Row>, p: nat, lks: seq<string>, nf: string -> string): (r: seq<real>)
    ensures |r| == |rows|
  {
    Apply(rows, RowScorer(p, lks, nf))
  }

  /** `{label: score}` built in row order (a later label overwrites an earlier one). */
  function ScoreMap(labels: seq<int>, scores: seq<real>): (m: map<int, real>)
    requires |labels| == |scores|
    ensures m.Keys == set l | l in labels
  {
    if labels == [] then map[]
    else
      var n := |labels| - 1;
      ScoreMap(labels[..n], scores[..n])[labels[n] := scores[n]]
  }

  /** `execute`: every row it returns is a row of the input, and every
      label it scores is the label of an input row. */
  function Execute(df: Frame, keywords: seq<string>, topN: nat, nf: string -> string): (r: ScoredFrame)
    ensures forall row :: row in r.frame.rows ==> row in df.rows
    ensures forall l :: l in r.scores ==> exists row :: row in df.rows && row.index == l
  {
    HeadFromInput(df, topN);
    if IsEmpty(df) || keywords == [] then ScoredFrame(Head(df, topN), map[])
    else if !HasColumn(df, KeywordFilter.RiskText) then ScoredFrame(EmptyFrame, map[])
    else
      var lks := LemmatizedKeywords(keywords, nf);
      var scores := LemmaScores(df.rows, Position(df, KeywordFilter.RiskText), lks, nf);
      if Candidates(scores) == [] then ScoredFrame(Head(df, topN), map[])
      else
        TopInRange(scores, topN);
        KeptLabels(df, Top(scores, topN));
        Matched(df, Top(scores, topN))
  }

  /** The match path once the ranked entries `sel` are known. The score
      series is rebuilt on its own index, so a repeated label does not raise:
      the dictionary keeps the later entry's score. `df.loc` on the kept
      labels returns every input row carrying one of them, in label order. */
  function Matched(df: Frame, sel: seq<Entry>): (r: ScoredFrame)
    requires forall k :: 0 <= k < |sel| ==> sel[k].pos < |df.rows|
    ensures r.frame.columns == df.columns
    ensures forall row :: row in r.frame.rows <==>
      row in df.rows && exists k :: 0 <= k < |sel| && df.rows[sel[k].pos].index == row.index
    ensures r.scores.Keys == (set k | 0 <= k < |sel| :: df.rows[sel[k].pos].index)
  {
    var labels := KeptLabelSeq(df, sel);
    KeptLabels(df, sel);
    ScoredFrame(Frame(df.columns, Loc(df.rows, labels)), ScoreMap(labels, KeywordFilter.ScoresOf(sel)))
  }

  /** The index labels of the kept rows, in rank order (`result_df.index`). */
  function KeptLabelSeq(df: Frame, sel: seq<Entry>): (labels: seq<int>)
    requires forall k :: 0 <= k < |sel| ==> sel[k].pos < |df.rows|
    ensures |labels| == |sel|
    ensures forall k :: 0 <= k < |sel| ==> labels[k] == df.rows[sel[k].pos].index
  {
    Indices(KeywordFilter.PickRows(df.rows, sel))
  }

  /** `df.loc` on the kept labels gives the input rows carrying one of them,
      and each kept label is the label of an input row. */
  lemma KeptLabels(df: Frame, sel: seq<Entry>)
    requires forall k :: 0 <= k < |sel| ==> sel[k].pos < |df.rows|
    ensures forall row :: row in Loc(df.rows, KeptLabelSeq(df, sel)) <==>
      row in df.rows && exists k :: 0 <= k < |sel| && df.rows[sel[k].pos].index == row.index
    ensures (set l | l in KeptLabelSeq(df, sel)) == (set k | 0 <= k < |sel| :: df.rows[sel[k].pos].index)
    ensures forall l :: l in KeptLabelSeq(df, sel) ==> exists row :: row in df.rows && row.index == l
  {
    forall row ensures row in Loc(df.rows, KeptLabelSeq(df, sel)) <==>
      row in df.rows && exists k :: 0 <= k < |sel| && df.rows[sel[k].pos].index == row.index
    {
      KeptRow(df, sel, row);
    }
    KeptLabelSet(df, sel);
  }

  /** One row: it is looked up again exactly when it is an input row whose
      label some kept row carries. */
  lemma KeptRow(df: Frame, sel: seq<Entry>, row: Row)
    requires forall k :: 0 <= k < |sel| ==> sel[k].pos < |df.rows|
    ensures row in Loc(df.rows, KeptLabelSeq(df, sel)) <==>
      row in df.rows && exists k :: 0 <= k < |sel| && df.rows[sel[k].pos].index == row.index
  {
    var labels := KeptLabelSeq(df, sel);
    LocMembers(df.rows, labels, row);
    if row.index in labels {
      var k :| 0 <= k < |labels| && labels[k] == row.index;
    }
  }

  /** The kept labels as a set, each the label of an input row. */
  lemma KeptLabelSet(df: Frame, sel: seq<Entry>)
    requires forall k :: 0 <= k < |sel| ==> sel[k].pos < |df.rows|
    ensures (set l | l in KeptLabelSeq(df, sel)) == (set k | 0 <= k < |sel| :: df.rows[sel[k].pos].index)
    ensures forall l :: l in KeptLabelSeq(df, sel) ==> exists row :: row in df.rows && row.index == l
  {
    var labels := KeptLabelSeq(df, sel);
    forall l | l in labels ensures l in (set k | 0 <= k < |sel| :: df.rows[sel[k].pos].index)
      && exists row :: row in df.rows && row.index == l
    {
      var k :| 0 <= k < |labels| && labels[k] == l;
      assert df.rows[sel[k].pos] in df.rows;
    }
  }

  /** The entries the match path keeps, ranked. */
  function Selection(df: Frame, keywords: seq<string>, topN: nat, nf: string -> string): seq<Entry>
    requires HasColumn(df, KeywordFilter.RiskText)
  {
    Top(LemmaScores(df.rows, Position(df, KeywordFilter.RiskText), LemmatizedKeywords(keywords, nf), nf), topN)
  }

  /** The relevance of row `k`. */
  function RowRelevance(df: Frame, k: nat, keywords: seq<string>, nf: string -> string): (r: real)
    requires HasColumn(df, KeywordFilter.RiskText) && k < |df.rows|
    ensures r == Score(LemmatizeCell(CellAt(df.rows[k], Position(df, KeywordFilter.RiskText)), nf), LemmatizedKeywords(keywords, nf))
    ensures 0.0 <= r <= 1.0
  {
    LemmaScores(df.rows, Position(df, KeywordFilter.RiskText), LemmatizedKeywords(keywords, nf), nf)[k]
  }

  /** The early exits: an empty table or keyword list gives the first `top_n`
      rows, and a missing `risk_text` column an empty table; both with no
      scores. */
  lemma ExecuteExits(df: Frame, keywords: seq<string>, topN: nat, nf: string -> string)
    ensures IsEmpty(df) || keywords == [] ==>
      Execute(df, keywords, topN, nf) == ScoredFrame(Head(df, topN), map[])
    ensures !IsEmpty(df) && keywords != [] && !HasColumn(df, KeywordFilter.RiskText) ==>
      Execute(df, keywords, topN, nf) == ScoredFrame(EmptyFrame, map[])
  {
  }

  /** When no row scores above zero, `execute` falls back to the first
      `top_n` rows, with no scores. */
  lemma ExecuteNoMatch(df: Frame, keywords: seq<string>, topN: nat, nf: string -> string)
    requires !IsEmpty(df) && keywords != [] && HasColumn(df, KeywordFilter.RiskText)
    requires forall k :: 0 <= k < |df.rows| ==> RowRelevance(df, k, keywords, nf) == 0.0
    ensures Execute(df, keywords, topN, nf) == ScoredFrame(Head(df, topN), map[])
  {
    var scores := LemmaScores(df.rows, Position(df, KeywordFilter.RiskText), LemmatizedKeywords(keywords, nf), nf);
    assert forall k :: 0 <= k < |scores| ==> scores[k] == 0.0 by {
      forall k | 0 <= k < |scores| ensures scores[k] == 0.0 {
        assert scores[k] == RowRelevance(df, k, keywords, nf);
      }
    }
    CandidatesNone(scores);
  }

  /** Empty keywords are dropped before lemmatisation, wherever they stand,
      so they do not dilute the score. */
  lemma KeywordsDropEmpty(before: seq<string>, after: seq<string>, nf: string -> string)
    ensures LemmatizedKeywords(before + [""] + after, nf) == LemmatizedKeywords(before + after, nf)
  {
    WhereAppend(before + [""], after, NonEmpty);
    WhereAppend(before, [""], NonEmpty);
    WhereAppend(before, after, NonEmpty);
    assert Where([""], NonEmpty) == [];
    assert Where(before, NonEmpty) + [] == Where(before, NonEmpty);
  }

  /** The score's denominator is the number of non-empty keywords, and the
      lemmatised list holds exactly the lemmatised non-empty keywords. */
  lemma KeywordsKept(keywords: seq<string>, nf: string -> string)
    ensures |LemmatizedKeywords(keywords, nf)| == Count(keywords, NonEmpty)
    ensures forall i :: 0 <= i < |LemmatizedKeywords(keywords, nf)| ==>
      LemmatizedKeywords(keywords, nf)[i] == LemmatizeText(Where(keywords, NonEmpty)[i], nf)
    ensures forall x :: x in LemmatizedKeywords(keywords, nf) <==>
      exists k :: k in keywords && k != [] && x == LemmatizeText(k, nf)
  {
    WhereCount(keywords, NonEmpty);
    forall x ensures x in LemmatizedKeywords(keywords, nf) <==> exists k :: k in keywords && k != [] && x == LemmatizeText(k, nf) {
      KeptKeyword(keywords, nf, x);
    }
  }

  /** One lemmatised keyword, in both directions. */
  lemma KeptKeyword(keywords: seq<string>, nf: string -> string, x: string)
    ensures x in LemmatizedKeywords(keywords, nf) <==> exists k :: k in keywords && k != [] && x == LemmatizeText(k, nf)
  {
    var kept := Where(keywords, NonEmpty);
    var lks := LemmatizedKeywords(keywords, nf);
    if x in lks {
      var i :| 0 <= i < |lks| && lks[i] == x;
      assert kept[i] in kept;
      WhereMembers(keywords, NonEmpty, kept[i]);
    }
    if exists k :: k in keywords && k != [] && x == LemmatizeText(k, nf) {
      var k :| k in keywords && k != [] && x == LemmatizeText(k, nf);
      WhereMembers(keywords, NonEmpty, k);
      var i :| 0 <= i < |kept| && kept[i] == k;
      assert lks[i] == x;
    }
  }

  /** `Series.to_dict` keeps, for each label, the score of its last
      occurrence: an entry with no later entry of the same label is the one
      the dictionary holds. */
  lemma {:induction false} ScoreMapLast(labels: seq<int>, scores: seq<real>)
    requires |labels| == |scores|
    ensures forall k :: 0 <= k < |labels| && (forall i :: k < i < |labels| ==> labels[i] != labels[k]) ==>
      labels[k] in ScoreMap(labels, scores) && ScoreMap(labels, scores)[labels[k]] == scores[k]
    decreases |labels|
  {
    if labels != [] {
      var n := |labels| - 1;
      ScoreMapLast(labels[..n], scores[..n]);
      var m := ScoreMap(labels[..n], scores[..n]);
      assert ScoreMap(labels, scores) == m[labels[n] := scores[n]];
      forall k | 0 <= k < |labels| && (forall i :: k < i < |labels| ==> labels[i] != labels[k])
        ensures labels[k] in ScoreMap(labels, scores) && ScoreMap(labels, scores)[labels[k]] == scores[k]
      {
        if k < n {
          assert labels[n] != labels[k];
          assert labels[..n][k] == labels[k] && scores[..n][k] == scores[k];
          assert forall i :: k < i < n ==> labels[..n][i] != labels[..n][k];
        }
      }
    }
  }

  /** Once some row scores above zero, `execute` takes the match path. */
  lemma ExecuteMatches(df: Frame, keywords: seq<string>, topN: nat, nf: string -> string)
    requires !IsEmpty(df) && keywords != [] && HasColumn(df, KeywordFilter.RiskText)
    requires Candidates(LemmaScores(df.rows, Position(df, KeywordFilter.RiskText), LemmatizedKeywords(keywords, nf), nf)) != []
    ensures var sel := Selection(df, keywords, topN, nf);
      && (forall k :: 0 <= k < |sel| ==> sel[k].pos < |df.rows|)
      && Execute(df, keywords, topN, nf) == Matched(df, sel)
  {
    TopInRange(LemmaScores(df.rows, Position(df, KeywordFilter.RiskText), LemmatizedKeywords(keywords, nf), nf), topN);
  }

  /** On the match path `execute` returns `Matched` of the ranked selection,
      whose entries are positive-scoring rows carrying their relevance. */
  lemma MatchPath(df: Frame, keywords: seq<string>, topN: nat, nf: string -> string)
    requires !IsEmpty(df) && keywords != [] && HasColumn(df, KeywordFilter.RiskText)
    requires exists k :: 0 <= k < |df.rows| && RowRelevance(df, k, keywords, nf) > 0.0
    ensures var sel := Selection(df, keywords, topN, nf);
      && Ranked(sel)
      && |sel| <= topN
      && (forall i, j :: 0 <= i < j < |sel| ==> sel[i].pos != sel[j].pos)
      && (forall k :: 0 <= k < |sel| ==>
            sel[k].pos < |df.rows| && sel[k].score == RowRelevance(df, sel[k].pos, keywords, nf) && sel[k].score > 0.0)
      && Execute(df, keywords, topN, nf) == Matched(df, sel)
  {
    var scores := LemmaScores(df.rows, Position(df, KeywordFilter.RiskText), LemmatizedKeywords(keywords, nf), nf);
    var k0 :| 0 <= k0 < |df.rows| && RowRelevance(df, k0, keywords, nf) > 0.0;
    assert scores[k0] == RowRelevance(df, k0, keywords, nf);
    CandidatesNonEmpty(scores, k0);
    ExecuteMatches(df, keywords, topN, nf);
    TopRanked(scores, topN);
    TopAtMost(scores, topN);
    TopDistinct(scores, topN);
    SelectionScores(df, keywords, topN, nf);
  }

  /** Each kept entry is a row scoring above zero, with its relevance. */
  lemma SelectionScores(df: Frame, keywords: seq<string>, topN: nat, nf: string -> string)
    requires HasColumn(df, KeywordFilter.RiskText)
    ensures var sel := Selection(df, keywords, topN, nf);
      forall k :: 0 <= k < |sel| ==>
        sel[k].pos < |df.rows| && sel[k].score == RowRelevance(df, sel[k].pos, keywords, nf) && sel[k].score > 0.0
  {
    var scores := LemmaScores(df.rows, Position(df, KeywordFilter.RiskText), LemmatizedKeywords(keywords, nf), nf);
    var sel := Top(scores, topN);
    TopEntries(scores, topN);
    forall k | 0 <= k < |sel|
      ensures sel[k].score == RowRelevance(df, sel[k].pos, keywords, nf)
    {
      assert sel[k].score == scores[sel[k].pos];
    }
  }

  /** What `Matched` returns: the input's columns; the input rows carrying
      a kept label; one score per kept label, and for a kept entry whose
      label no later kept entry repeats, that entry's score. */
  lemma MatchedScores(df: Frame, sel: seq<Entry>)
    requires forall k :: 0 <= k < |sel| ==> sel[k].pos < |df.rows|
    ensures var r := Matched(df, sel);
      && r.frame.columns == df.columns
      && (forall row :: row in r.frame.rows <==>
            row in df.rows && exists k :: 0 <= k < |sel| && df.rows[sel[k].pos].index == row.index)
      && r.scores.Keys == (set k | 0 <= k < |sel| :: KeptLabelSeq(df, sel)[k])
      && forall k :: 0 <= k < |sel| && LastOfLabel(df, sel, k) ==>
           KeptLabelSeq(df, sel)[k] in r.scores && r.scores[KeptLabelSeq(df, sel)[k]] == sel[k].score
  {
    var labels := KeptLabelSeq(df, sel);
    assert Matched(df, sel).scores == ScoreMap(labels, KeywordFilter.ScoresOf(sel));
    assert (set l | l in labels) == (set k | 0 <= k < |sel| :: labels[k]);
    MatchedLastScores(df, sel);
  }

  /** A kept entry whose label no later kept entry repeats keeps its score. */
  lemma MatchedLastScores(df: Frame, sel: seq<Entry>)
    requires forall k :: 0 <= k < |sel| ==> sel[k].pos < |df.rows|
    ensures forall k :: 0 <= k < |sel| && LastOfLabel(df, sel, k) ==>
      KeptLabelSeq(df, sel)[k] in Matched(df, sel).scores &&
      Matched(df, sel).scores[KeptLabelSeq(df, sel)[k]] == sel[k].score
  {
    var labels := KeptLabelSeq(df, sel);
    var vals := KeywordFilter.ScoresOf(sel);
    assert Matched(df, sel).scores == ScoreMap(labels, vals);
    ScoreMapLast(labels, vals);
    forall k | 0 <= k < |sel| && LastOfLabel(df, sel, k)
      ensures forall i :: k < i < |labels| ==> labels[i] != labels[k]
    {
    }
  }

  /** No kept entry after the `k`-th carries its label. */
  predicate LastOfLabel(df: Frame, sel: seq<Entry>, k: nat)
    requires forall k :: 0 <= k < |sel| ==> sel[k].pos < |df.rows|
    requires k < |sel|
  {
    forall i :: k < i < |sel| ==> df.rows[sel[i].pos].index != df.rows[sel[k].pos].index
  }

  /** With distinct index labels in the table and distinct kept positions,
      `Matched` returns exactly the kept rows, in order. */
  lemma MatchedRows(df: Frame, sel: seq<Entry>)
    requires forall k :: 0 <= k < |sel| ==> sel[k].pos < |df.rows|
    requires forall i, j :: 0 <= i < j < |sel| ==> sel[i].pos != sel[j].pos
    requires UniqueLabels(df.rows)
    ensures Matched(df, sel).frame.rows == KeywordFilter.PickRows(df.rows, sel)
  {
    var picked := KeywordFilter.PickRows(df.rows, sel);
    LocOfDistinct(df.rows, picked);
  }

  /** The match path of `execute` keeps at most `top_n` rows, highest
      relevance first with ties in input order, each scoring in (0, 1]. */
  lemma ExecuteRanking(df: Frame, keywords: seq<string>, topN: nat, nf: string -> string)
    requires !IsEmpty(df) && keywords != [] && HasColumn(df, KeywordFilter.RiskText)
    requires exists k :: 0 <= k < |df.rows| && RowRelevance(df, k, keywords, nf) > 0.0
    ensures var sel := Selection(df, keywords, topN, nf);
      && |sel| <= topN
      && (forall k :: 0 <= k < |sel| ==>
            sel[k].pos < |df.rows| && sel[k].score == RowRelevance(df, sel[k].pos, keywords, nf) && 0.0 < sel[k].score <= 1.0)
      && (forall i, j :: 0 <= i < j < |sel| ==>
            sel[i].score > sel[j].score || (sel[i].score == sel[j].score && sel[i].pos < sel[j].pos))
  {
    MatchPath(df, keywords, topN, nf);
  }

  /** On the match path `execute` returns the input's columns and the input
      rows carrying a kept label; its score dictionary holds exactly the kept
      labels, a label shared by several kept rows holding the relevance of
      the last of them. */
  lemma ExecuteResult(df: Frame, keywords: seq<string>, topN: nat, nf: string -> string)
    requires !IsEmpty(df) && keywords != [] && HasColumn(df, KeywordFilter.RiskText)
    requires exists k :: 0 <= k < |df.rows| && RowRelevance(df, k, keywords, nf) > 0.0
    ensures var sel := Selection(df, keywords, topN, nf);
      && (forall k :: 0 <= k < |sel| ==> sel[k].pos < |df.rows|)
      && var r := Execute(df, keywords, topN, nf);
         && r.frame.columns == df.columns
         && (forall row :: row in r.frame.rows <==>
               row in df.rows && exists k :: 0 <= k < |sel| && df.rows[sel[k].pos].index == row.index)
         && r.scores.Keys == (set k | 0 <= k < |sel| :: KeptLabelSeq(df, sel)[k])
         && forall k :: 0 <= k < |sel| && LastOfLabel(df, sel, k) ==>
              && KeptLabelSeq(df, sel)[k] in r.scores
              && r.scores[KeptLabelSeq(df, sel)[k]] == RowRelevance(df, sel[k].pos, keywords, nf)
  {
    var scores := LemmaScores(df.rows, Position(df, KeywordFilter.RiskText), LemmatizedKeywords(keywords, nf), nf);
    var k0 :| 0 <= k0 < |df.rows| && RowRelevance(df, k0, keywords, nf) > 0.0;
    assert scores[k0] == RowRelevance(df, k0, keywords, nf);
    CandidatesNonEmpty(scores, k0);
    ExecuteMatches(df, keywords, topN, nf);
    SelectionScores(df, keywords, topN, nf);
    MatchedScores(df, Selection(df, keywords, topN, nf));
  }

  /** With distinct index labels in the table, the match path returns
      exactly the kept rows, in rank order. */
  lemma ExecuteRows(df: Frame, keywords: seq<string>, topN: nat, nf: string -> string)
    requires !IsEmpty(df) && keywords != [] && HasColumn(df, KeywordFilter.RiskText)
    requires exists k :: 0 <= k < |df.rows| && RowRelevance(df, k, keywords, nf) > 0.0
    requires UniqueLabels(df.rows)
    ensures var sel := Selection(df, keywords, topN, nf);
      && (forall k :: 0 <= k < |sel| ==> sel[k].pos < |df.rows|)
      && Execute(df, keywords, topN, nf).frame.rows == KeywordFilter.PickRows(df.rows, sel)
  {
    MatchPath(df, keywords, topN, nf);
    MatchedRows(df, Selection(df, keywords, topN, nf));
  }
}
