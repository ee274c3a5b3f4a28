/** The plain keyword filter over the `risk_text` column
    (app/tools/keyword_search_tool.py, `filter_risks_by_keywords`).

    Every row is scored on its raw `risk_text` cell; the rows scoring above
    zero are ranked and the first `top_n` returned together with the added
    `keyword_relevance_score` column. Every other outcome falls back to the
    first `top_n` rows of the input, untouched. The input is a value, so it is
    never modified. */
module KeywordFilter {
  import opened Text
  import opened Frames
  import opened Relevance
  import opened Ranking

  const RiskText: string := "risk_text"

  /** The result table: either rows of the input as they were (`head`), or the
      selected rows with the values of the added score column alongside. */
  datatype Filtered = Unscored(frame: Frame) | Scored(frame: Frame, relevance: seq<real>)

  /** The score of one raw cell. `not text` is true for `""` and for the
      number 0; a missing value is a float `NaN`, which is truthy and reads
      as `"nan"`; a number is scored on its decimal form. */
  function CellScore(c: Cell, ks: seq<string>): (r: real)
    ensures 0.0 <= r <= 1.0
    ensures c.Text? ==> r == Score(c.s, ks)
  {
    match c
    case Text(s) => Score(s, ks)
    case Number(n) => if n == 0 then 0.0 else Score(Decimal(n), ks)
    case Missing => Score("nan", ks)
  }

  /** `df[col].apply(score)`: the score of every row's cell in column position `p`. */
  function ColumnScores(rows: seq<Row>, p: nat, ks: seq<string>): (r: seq<real>)
    ensures |r| == |rows|
    ensures forall k :: 0 <= k < |rows| ==> r[k] == CellScore(CellAt(rows[k], p), ks)
  {
    if rows == [] then [] else [CellScore(CellAt(rows[0], p), ks)] + ColumnScores(rows[1..], p, ks)
  }

  /** The score of row `k` on its `risk_text` cell. */
  function RowScore(df: Frame, k: nat, ks: seq<string>): (r: real)
    requires HasColumn(df, RiskText) && k < |df.rows|
    ensures r == CellScore(CellAt(df.rows[k], Position(df, RiskText)), ks)
  {
    ColumnScores(df.rows, Position(df, RiskText), ks)[k]
  }

  /** The rows at the given entries' positions, in entry order. */
  function PickRows(rows: seq<Row>, es: seq<Entry>): (r: seq<Row>)
    requires forall k :: 0 <= k < |es| ==> es[k].pos < |rows|
    ensures |r| == |es|
    ensures forall k :: 0 <= k < |es| ==> r[k] == rows[es[k].pos]
  {
    if es == [] then [] else [rows[es[0].pos]] + PickRows(rows, es[1..])
  }

  /** Picked rows are rows of the input. */
  lemma PickedFromInput(rows: seq<Row>, es: seq<Entry>)
    requires forall k :: 0 <= k < |es| ==> es[k].pos < |rows|
    ensures forall row :: row in PickRows(rows, es) ==> row in rows
  {
    forall row | row in PickRows(rows, es) ensures row in rows {
      var k :| 0 <= k < |es| && PickRows(rows, es)[k] == row;
      assert rows[es[k].pos] == row;
    }
  }

  /** The entries' scores, in entry order. */
  function ScoresOf(es: seq<Entry>): (r: seq<real>)
    ensures |r| == |es|
    ensures forall k :: 0 <= k < |es| ==> r[k] == es[k].score
  {
    if es == [] then [] else [es[0].score] + ScoresOf(es[1..])
  }

  /** The ranked entries the match path keeps. */
  function Selection(df: Frame, ks: seq<string>, topN: nat): seq<Entry>
    requires HasColumn(df, RiskText)
  {
    Top(ColumnScores(df.rows, Position(df, RiskText), ks), topN)
  }

  /** `filter_risks_by_keywords`: at most `top_n` rows of the input under its
      columns, with one score in (0, 1] per row on the match path. */
  function FilterRisksByKeywords(df: Frame, keywords: seq<string>, topN: nat): (r: Filtered)
    ensures r.frame.columns == df.columns && |r.frame.rows| <= topN
    ensures forall row :: row in r.frame.rows ==> row in df.rows
    ensures r.Scored? ==> |r.relevance| == |r.frame.rows| && forall x :: x in r.relevance ==> 0.0 < x <= 1.0
  {
    HeadFromInput(df, topN);
    if IsEmpty(df) || keywords == [] then Unscored(Head(df, topN))
    else if !HasColumn(df, RiskText) then Unscored(Head(df, topN))
    else
      var scores := ColumnScores(df.rows, Position(df, RiskText), keywords);
      if Candidates(scores) == [] then Unscored(Head(df, topN))
      else
        var top := Top(scores, topN);
        TopSpec(scores, topN);
        PickedFromInput(df.rows, top);
        Scored(Frame(df.columns, PickRows(df.rows, top)), ScoresOf(top))
  }

  /** The filter falls back to the first `top_n` rows exactly when the table
      is empty, there are no keywords, there is no `risk_text` column, or no
      row scores above zero. */
  lemma FilterFallsBack(df: Frame, keywords: seq<string>, topN: nat)
    ensures var r := FilterRisksByKeywords(df, keywords, topN);
      r.Unscored? <==>
        IsEmpty(df) || keywords == [] || !HasColumn(df, RiskText) ||
        forall k :: 0 <= k < |df.rows| ==> RowScore(df, k, keywords) == 0.0
    ensures var r := FilterRisksByKeywords(df, keywords, topN);
      r.Unscored? ==> r.frame == Head(df, topN)
  {
    if !IsEmpty(df) && keywords != [] && HasColumn(df, RiskText) {
      var scores := ColumnScores(df.rows, Position(df, RiskText), keywords);
      CandidatesSpec(scores);
      if Candidates(scores) != [] {
        var e := Candidates(scores)[0];
        assert e in Candidates(scores);
        assert RowScore(df, e.pos, keywords) != 0.0;
      } else {
        forall k | 0 <= k < |df.rows| ensures RowScore(df, k, keywords) == 0.0 {
          assert Entry(k, scores[k]) !in Candidates(scores);
        }
      }
    }
  }

  /** On the match path the result keeps the input's columns and holds at most
      `top_n` rows, each an input row scoring above zero, carried with its own
      score, highest score first and ties in input order. */
  lemma FilterMatchRows(df: Frame, keywords: seq<string>, topN: nat)
    requires FilterRisksByKeywords(df, keywords, topN).Scored?
    ensures HasColumn(df, RiskText)
    ensures var r := FilterRisksByKeywords(df, keywords, topN);
      var sel := Selection(df, keywords, topN);
      && r.frame.columns == df.columns
      && |r.frame.rows| == |r.relevance| == |sel| <= topN
      && (forall k :: 0 <= k < |sel| ==>
            sel[k].pos < |df.rows| && r.frame.rows[k] == df.rows[sel[k].pos] &&
            r.relevance[k] == RowScore(df, sel[k].pos, keywords) && 0.0 < r.relevance[k] <= 1.0)
      && (forall i, j :: 0 <= i < j < |sel| ==>
            r.relevance[i] > r.relevance[j] || (r.relevance[i] == r.relevance[j] && sel[i].pos < sel[j].pos))
  {
    var scores := ColumnScores(df.rows, Position(df, RiskText), keywords);
    var sel := Top(scores, topN);
    TopSpec(scores, topN);
    assert FilterRisksByKeywords(df, keywords, topN) == Scored(Frame(df.columns, PickRows(df.rows, sel)), ScoresOf(sel));
  }

  /** A positive-scoring row left out of the result means `top_n` rows were
      returned, each scoring at least as high. */
  lemma FilterMatchLeavesOut(df: Frame, keywords: seq<string>, topN: nat)
    requires FilterRisksByKeywords(df, keywords, topN).Scored?
    ensures HasColumn(df, RiskText)
    ensures var r := FilterRisksByKeywords(df, keywords, topN);
      var sel := Selection(df, keywords, topN);
      |r.relevance| == |sel| &&
      forall p :: 0 <= p < |df.rows| && RowScore(df, p, keywords) > 0.0 && (forall k :: 0 <= k < |sel| ==> sel[k].pos != p) ==>
        |sel| == topN && forall k :: 0 <= k < |sel| ==> RowScore(df, p, keywords) <= r.relevance[k]
  {
    var scores := ColumnScores(df.rows, Position(df, RiskText), keywords);
    var sel := Top(scores, topN);
    assert FilterRisksByKeywords(df, keywords, topN) == Scored(Frame(df.columns, PickRows(df.rows, sel)), ScoresOf(sel)) by {
      TopSpec(scores, topN);
    }
    TopLeavesOut(scores, topN);
  }
}
