/** Entity classification (app/services/base_classifier.py,
    `BaseClassifierService`).

    A classifier works on one column of a table, named by the concrete
    service (`project_name`, `work_types`, `project`, `name`). It loads the
    column's distinct non-empty strings into its `items_list`, asks a backend
    to score candidate items for a question and picks the best one, and
    filters a table to the rows whose column equals an item, ignoring case. */
module Classifier {
  import opened Wrappers
  import opened Seqs
  import opened Text
  import opened Frames

  /** `dropna()`: the cell is not a missing value. */
  predicate Present(c: Cell) {
    !c.Missing?
  }

  /** The values `load_items` keeps: non-empty strings, in order. */
  function Strings(cells: seq<Cell>): (r: seq<string>)
    ensures forall s :: s in r ==> s != []
    decreases |cells|
  {
    if cells == [] then []
    else
      var c := cells[|cells| - 1];
      Strings(cells[..|cells| - 1]) + (if c.Text? && c.s != [] then [c.s] else [])
  }

  /** The cells of the column at position `p`, in row order. */
  function ColumnCells(rows: seq<Row>, p: nat): (r: seq<Cell>)
    ensures |r| == |rows|
    ensures forall k :: 0 <= k < |rows| ==> r[k] == CellAt(rows[k], p)
  {
    if rows == [] then [] else [CellAt(rows[0], p)] + ColumnCells(rows[1..], p)
  }

  /** `[item for item in col.dropna().unique().tolist() if item and isinstance(item, str)]`. */
  function Vocabulary(cells: seq<Cell>): (r: seq<string>)
    ensures NoDup(r)
    ensures forall s :: s in r ==> s != []
  {
    VocabularyStep(cells);
    DedupNoDup(Strings(cells));
    Strings(Dedup(Where(cells, Present)))
  }

  /** The backend's structured answer: none, the scored items (a dictionary,
      as its items in order), or an exception. */
  datatype Answer = NoAnswer | Scored(reasoning: string, topItems: seq<(string, real)>) | BackendRaised

  /** The backend scored `item` among its top items. */
  predicate Named(item: string, answer: Answer) {
    answer.Scored? && exists i :: 0 <= i < |answer.topItems| && answer.topItems[i].0 == item
  }

  /** The position `max(top_items.items(), key=score)` picks: a highest
      score, the first one on a tie. */
  function BestIndex(items: seq<(string, real)>): (i: nat)
    requires items != []
    ensures i < |items|
    ensures forall k :: 0 <= k < |items| ==> items[k].1 <= items[i].1
    ensures forall k :: 0 <= k < i ==> items[k].1 < items[i].1
    decreases |items|
  {
    if |items| == 1 then 0
    else
      var j := BestIndex(items[..|items| - 1]);
      if items[|items| - 1].1 > items[j].1 then |items| - 1 else j
  }

  class ClassifierService {
    /** `get_column_name()`. */
    const columnName: string
    var itemsList: seq<string>

    constructor(columnName: string)
      ensures this.columnName == columnName && itemsList == []
    {
      this.columnName := columnName;
      itemsList := [];
    }

    /** `load_items`: with the column present, its vocabulary is stored and
        returned; without it, nothing changes and `[]` is returned. */
    method LoadItems(df: Frame) returns (items: seq<string>)
      modifies this
      ensures HasColumn(df, columnName) ==>
        items == Vocabulary(ColumnCells(df.rows, Position(df, columnName))) && itemsList == items
      ensures !HasColumn(df, columnName) ==> items == [] && itemsList == old(itemsList)
    {
      if columnName in Names(df.columns) {
        items := Vocabulary(ColumnCells(df.rows, Position(df, columnName)));
        itemsList := items;
      } else {
        items := [];
      }
    }

    /** `classify`. `buildPrompts` stands for the prompt builder, which runs
        outside the `try` (`None`: it raised, and so does `classify`);
        `backend` for the structured completion call. No items, no answer, an
        empty score map or an exception from the backend give `""`. Only the
        prompt builder can make it fail, and a non-empty answer is an item the
        backend scored. */
    function Classify(question: string, buildPrompts: (string, seq<string>) -> Option<(string, string)>,
                      backend: (string, string) -> Answer): (r: Result<string, string>)
      reads this
      ensures r.Failure? <==> itemsList != [] && buildPrompts(question, itemsList).None?
      ensures r.Success? && r.value != [] ==>
        buildPrompts(question, itemsList).Some? &&
        Named(r.value, backend(buildPrompts(question, itemsList).value.0, buildPrompts(question, itemsList).value.1))
    {
      if itemsList == [] then Success("")
      else
        match buildPrompts(question, itemsList)
        case None => Failure("building the classification prompts raised")
        case Some(prompts) =>
          match backend(prompts.0, prompts.1)
          case Scored(_, top) => if top == [] then Success("") else Success(top[BestIndex(top)].0)
          case _ => Success("")
    }

    /** With no items loaded the answer is `""`, whatever the prompt builder
        and the backend would do: neither is called. */
    lemma ClassifyWithoutItems(question: string,
                               build1: (string, seq<string>) -> Option<(string, string)>, backend1: (string, string) -> Answer,
                               build2: (string, seq<string>) -> Option<(string, string)>, backend2: (string, string) -> Answer)
      requires itemsList == []
      ensures Classify(question, build1, backend1) == Success("")
      ensures Classify(question, build1, backend1) == Classify(question, build2, backend2)
    {
    }

    /** With items and prompts, a non-empty score map gives an item of
        highest score, the first such on a tie; every other answer gives
        `""`. */
    lemma ClassifyPicksBest(question: string, buildPrompts: (string, seq<string>) -> Option<(string, string)>,
                            backend: (string, string) -> Answer, prompts: (string, string))
      requires itemsList != [] && buildPrompts(question, itemsList) == Some(prompts)
      ensures var answer := backend(prompts.0, prompts.1);
        answer.Scored? && answer.topItems != [] ==>
          exists i :: 0 <= i < |answer.topItems| &&
            Classify(question, buildPrompts, backend) == Success(answer.topItems[i].0) &&
            (forall k :: 0 <= k < |answer.topItems| ==> answer.topItems[k].1 <= answer.topItems[i].1) &&
            (forall k :: 0 <= k < i ==> answer.topItems[k].1 < answer.topItems[i].1)
      ensures var answer := backend(prompts.0, prompts.1);
        !answer.Scored? || answer.topItems == [] ==> Classify(question, buildPrompts, backend) == Success("")
    {
      var answer := backend(prompts.0, prompts.1);
      if answer.Scored? && answer.topItems != [] {
        var i := BestIndex(answer.topItems);
        assert Classify(question, buildPrompts, backend) == Success(answer.topItems[i].0);
      }
    }

    /** The chosen item is not checked against `items_list`: a backend naming
        an item that was never loaded has it returned. */
    lemma ClassifyNotCheckedAgainstItems(question: string, buildPrompts: (string, seq<string>) -> Option<(string, string)>,
                                         backend: (string, string) -> Answer, prompts: (string, string))
      requires itemsList == ["Проект А"] && buildPrompts(question, itemsList) == Some(prompts)
      requires backend(prompts.0, prompts.1) == Scored("", [("Проект Б", 0.9)])
      ensures Classify(question, buildPrompts, backend) == Success("Проект Б")
      ensures "Проект Б" !in itemsList
    {
      assert BestIndex([("Проект Б", 0.9)]) == 0;
    }

    /** `filter_items`: the rows whose column value, lower-cased, equals the
        lower-cased item, each scored 1.0. An empty item or a missing column
        gives the whole table and no scores; no matching row gives an empty
        table. `.str` on a column pandas refuses it for raises. */
    function FilterItems(df: Frame, itemValue: string): (r: Result<ScoredFrame, string>)
      ensures r.Success? ==> forall row :: row in r.value.frame.rows ==> row in df.rows
      ensures r.Success? ==> forall l :: l in r.value.scores ==> r.value.scores[l] == 1.0
      ensures r.Failure? ==> itemValue != [] && HasColumn(df, columnName)
    {
      if itemValue == [] || !HasColumn(df, columnName) then Success(ScoredFrame(df, map[]))
      else
        var p := Position(df, columnName);
        if !StrAccessorAllowed(df, p) then Failure("Can only use .str accessor with string values!")
        else
          var kept := Mask(df, EqualsIgnoringCase(p, itemValue));
          if kept.rows == [] then Success(ScoredFrame(EmptyFrame, map[]))
          else
            AllOnesSpec(kept.rows);
            Success(ScoredFrame(kept, AllOnes(kept.rows)))
    }

    /** The early exits of `filter_items`. */
    lemma FilterItemsFallsBack(df: Frame, itemValue: string)
      ensures itemValue == [] || !HasColumn(df, columnName) ==>
        FilterItems(df, itemValue) == Success(ScoredFrame(df, map[]))
    {
    }

    /** On the matching path the rows kept are exactly the input rows whose
        column holds the item up to case, in their input order with their
        index labels, under the input's columns; with none, the result is an
        empty table and no scores. The scores have exactly the kept rows'
        labels as keys, each 1.0. */
    lemma FilterItemsRows(df: Frame, itemValue: string)
      requires itemValue != [] && HasColumn(df, columnName)
      requires FilterItems(df, itemValue).Success?
      ensures var r := FilterItems(df, itemValue).value;
        var p := Position(df, columnName);
        && (r.frame.rows == [] ==> r == ScoredFrame(EmptyFrame, map[]))
        && (r.frame.rows != [] ==>
              && r.frame.columns == df.columns
              && r.frame.rows == Where(df.rows, EqualsIgnoringCase(p, itemValue))
              && (forall row :: row in r.frame.rows <==>
                    row in df.rows && CellAt(row, p).Text? && Lower(CellAt(row, p).s) == Lower(itemValue))
              && r.scores.Keys == (set row | row in r.frame.rows :: row.index)
              && forall l :: l in r.scores ==> r.scores[l] == 1.0)
    {
      var p := Position(df, columnName);
      var kept := Mask(df, EqualsIgnoringCase(p, itemValue));
      if kept.rows != [] {
        AllOnesSpec(kept.rows);
      }
    }

    /** Filtering the result again by the same item changes nothing. */
    lemma FilterItemsIdempotent(df: Frame, itemValue: string)
      requires FilterItems(df, itemValue).Success?
      ensures FilterItems(FilterItems(df, itemValue).value.frame, itemValue) == FilterItems(df, itemValue)
    {
      if itemValue != [] && HasColumn(df, columnName) {
        var p := Position(df, columnName);
        var keep := EqualsIgnoringCase(p, itemValue);
        var kept := Mask(df, keep);
        if kept.rows != [] {
          assert Names(kept.columns) == Names(df.columns);
          assert Position(kept, columnName) == p;
          assert kept.rows[0] in kept.rows;
          assert CellAt(kept.rows[0], p).Text?;
          assert StrAccessorAllowed(kept, p);
          WhereIdempotent(df.rows, keep);
        }
      }
    }
  }

  /** The row test of `filter_items`: the cell at position `p` is a string
      equal to `value` once both are lower-cased (any other cell lower-cases
      to `NaN`, which equals nothing). */
  function EqualsIgnoringCase(p: nat, value: string): Row -> bool {
    (r: Row) => CellAt(r, p).Text? && Lower(CellAt(r, p).s) == Lower(value)
  }

  /** `{idx: 1.0 for idx in filtered_df.index}`. */
  function AllOnes(rows: seq<Row>): map<int, real> {
    map l | l in Indices(rows) :: 1.0
  }

  lemma AllOnesSpec(rows: seq<Row>)
    ensures AllOnes(rows).Keys == (set row | row in rows :: row.index)
    ensures forall l :: l in AllOnes(rows) ==> AllOnes(rows)[l] == 1.0
  {
    forall l ensures l in Indices(rows) <==> exists row :: row in rows && row.index == l {
      if l in Indices(rows) {
        var k :| 0 <= k < |rows| && Indices(rows)[k] == l;
        assert rows[k] in rows;
      }
    }
  }

  /** The loaded vocabulary is the column's non-empty strings, each once, in
      the order of first occurrence. */
  lemma VocabularyIsDedup(cells: seq<Cell>)
    ensures Vocabulary(cells) == Dedup(Strings(cells))
  {
    VocabularyStep(cells);
  }

  /** What `load_items` returns: exactly the non-empty strings of the
      column, without repeats. */
  lemma VocabularyMembers(cells: seq<Cell>)
    ensures NoDup(Vocabulary(cells))
    ensures forall s :: s in Vocabulary(cells) <==> s != [] && Text(s) in cells
  {
    VocabularyIsDedup(cells);
    DedupNoDup(Strings(cells));
    forall s ensures s in Vocabulary(cells) <==> s != [] && Text(s) in cells {
      DedupMembers(Strings(cells), s);
      StringsMembers(cells, s);
    }
  }

  /** ... each placed by its first occurrence in the column. */
  lemma VocabularyOrder(cells: seq<Cell>, i: nat, j: nat)
    requires i < j < |Vocabulary(cells)|
    ensures var v := Vocabulary(cells); var all := Strings(cells);
      v[i] in all && v[j] in all && FirstIndex(all, v[i]) < FirstIndex(all, v[j])
  {
    VocabularyIsDedup(cells);
    DedupFirstOccurrenceOrder(Strings(cells), i, j);
  }

  lemma {:induction false} StringsMembers(cells: seq<Cell>, s: string)
    ensures s in Strings(cells) <==> s != [] && Text(s) in cells
    decreases |cells|
  {
    if cells != [] {
      var init := cells[..|cells| - 1];
      StringsMembers(init, s);
      assert cells == init + [cells[|cells| - 1]];
    }
  }

  /** `Strings` of one more cell. */
  lemma StringsSnoc(cells: seq<Cell>, c: Cell)
    ensures Strings(cells + [c]) == Strings(cells) + (if c.Text? && c.s != [] then [c.s] else [])
  {
    assert (cells + [c])[..|cells|] == cells;
  }

  /** `dropna`, `unique` and the string filter can be taken in either order. */
  lemma {:induction false} VocabularyStep(cells: seq<Cell>)
    ensures Strings(Dedup(Where(cells, Present))) == Dedup(Strings(cells))
    decreases |cells|
  {
    if cells != [] {
      var init := cells[..|cells| - 1];
      var c := cells[|cells| - 1];
      assert cells == init + [c];
      VocabularyStep(init);
      if c.Missing? {
        VocabularyStepMissing(init, c);
      } else {
        VocabularyStepPresent(init, c);
      }
    }
  }

  lemma VocabularyStepMissing(init: seq<Cell>, c: Cell)
    requires c.Missing?
    requires Strings(Dedup(Where(init, Present))) == Dedup(Strings(init))
    ensures Strings(Dedup(Where(init + [c], Present))) == Dedup(Strings(init + [c]))
  {
    WhereAppend(init, [c], Present);
    StringsSnoc(init, c);
    assert Where([c], Present) == [];
    assert Where(init, Present) + [] == Where(init, Present);
    assert Where(init + [c], Present) == Where(init, Present);
    assert Strings(init) + [] == Strings(init);
    assert Strings(init + [c]) == Strings(init);
  }

  lemma VocabularyStepPresent(init: seq<Cell>, c: Cell)
    requires !c.Missing?
    requires Strings(Dedup(Where(init, Present))) == Dedup(Strings(init))
    ensures Strings(Dedup(Where(init + [c], Present))) == Dedup(Strings(init + [c]))
  {
    var w := Where(init, Present);
    WhereAppend(init, [c], Present);
    assert Where([c], Present) == [c];
    assert Where(init + [c], Present) == w + [c];
    WhereMembers(init, Present, c);
    DedupSnoc(w, c);
    StringsSnoc(init, c);
    if c in init {
      RepeatedCell(init, c);
    } else {
      StringsSnoc(Dedup(w), c);
      NewCell(init, c);
    }
  }

  /** A cell seen before adds nothing to the de-duplicated strings. */
  lemma RepeatedCell(init: seq<Cell>, c: Cell)
    requires c in init
    ensures Dedup(Strings(init) + (if c.Text? && c.s != [] then [c.s] else [])) == Dedup(Strings(init))
  {
    if c.Text? && c.s != [] {
      StringsMembers(init, c.s);
      DedupSnoc(Strings(init), c.s);
    } else {
      assert Strings(init) + [] == Strings(init);
    }
  }

  /** A new cell adds its string, when it has one. */
  lemma NewCell(init: seq<Cell>, c: Cell)
    requires c !in init
    ensures Dedup(Strings(init) + (if c.Text? && c.s != [] then [c.s] else [])) ==
      Dedup(Strings(init)) + (if c.Text? && c.s != [] then [c.s] else [])
  {
    if c.Text? && c.s != [] {
      StringsMembers(init, c.s);
      DedupSnoc(Strings(init), c.s);
    } else {
      assert Strings(init) + [] == Strings(init);
      assert Dedup(Strings(init)) + [] == Dedup(Strings(init));
    }
  }
}
