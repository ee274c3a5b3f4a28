/** The risk-specific steps of the risks pipeline
    (app/pipelines/risks_pipeline.py, `RisksPipeline`): the pre-filter by
    risk category, the record built from a table row, and the context line
    handed to the answer generator. */
module RisksPipeline {
  import opened Wrappers
  import opened Seqs
  import opened Text
  import opened Frames

  /** `Risk`: the four required text fields, the two optional ones and the
      relevance score. */
  datatype Risk = Risk(
    projectId: string,
    projectType: string,
    projectName: string,
    riskText: string,
    riskPriority: Option<string>,
    status: Option<string>,
    relevanceScore: Option<real>)

  const ProjectType: string := "project_type"

  /** A table row as a `pd.Series`: `row.get(name, '')` gives the cell under
      the first column of that name, or `''` when there is none. */
  function Get(cols: seq<Column>, row: Row, name: string): Cell {
    var names := Names(cols);
    if name in names then CellAt(row, FirstIndex(names, name)) else Text("")
  }

  /** The row test `df['project_type'] == risk_category` at column position `p`:
      only a string cell equal to the category, character for character,
      matches. */
  function InCategory(p: nat, category: string): Row -> bool {
    (row: Row) => CellAt(row, p) == Text(category)
  }

  /** `_pre_process_dataframe`: a missing or empty category leaves the table
      as it is; otherwise the table of matching rows, which may have none.
      A table without a `project_type` column raises `KeyError`. */
  function PreProcess(df: Frame, category: Option<string>): (r: Result<Frame, string>)
    ensures r.Failure? <==> category.Some? && category.value != [] && !HasColumn(df, ProjectType)
    ensures r.Success? ==> r.value.columns == df.columns && forall row :: row in r.value.rows ==> row in df.rows
  {
    if category.None? || category.value == "" then Success(df)
    else if !HasColumn(df, ProjectType) then Failure("KeyError: 'project_type'")
    else Success(Mask(df, InCategory(Position(df, ProjectType), category.value)))
  }

  /** Without a category the table comes back unchanged, whatever its columns. */
  lemma PreProcessWithoutCategory(df: Frame, category: Option<string>)
    requires category.None? || category == Some("")
    ensures PreProcess(df, category) == Success(df)
  {
  }

  /** With a category, the result keeps the columns and exactly the rows whose
      `project_type` is that string, in their order; none matching gives an
      empty table, not an error. Only a missing column is an error. */
  lemma PreProcessKeepsCategory(df: Frame, category: string)
    requires category != ""
    ensures PreProcess(df, Some(category)).Success? <==> HasColumn(df, ProjectType)
    ensures HasColumn(df, ProjectType) ==>
      var r := PreProcess(df, Some(category)).value;
      var p := Position(df, ProjectType);
      && r.columns == df.columns
      && (forall row :: row in r.rows <==> row in df.rows && Get(df.columns, row, ProjectType) == Text(category))
      && |r.rows| == Count(df.rows, InCategory(p, category))
      && ((forall row :: row in df.rows ==> Get(df.columns, row, ProjectType) != Text(category)) ==> r.rows == [])
  {
    if HasColumn(df, ProjectType) {
      var p := Position(df, ProjectType);
      var keep := InCategory(p, category);
      WhereCount(df.rows, keep);
      if forall row :: row in df.rows ==> Get(df.columns, row, ProjectType) != Text(category) {
        WhereNone(df.rows, keep);
      }
    }
  }

  /** Filtering a filtered table again by the same category changes nothing. */
  lemma PreProcessIdempotent(df: Frame, category: Option<string>)
    requires PreProcess(df, category).Success?
    ensures PreProcess(PreProcess(df, category).value, category) == PreProcess(df, category)
  {
    if category.Some? && category.value != "" {
      var p := Position(df, ProjectType);
      WhereIdempotent(df.rows, InCategory(p, category.value));
    }
  }

  /** `str(value)` for a cell: missing values print as `nan`. */
  function Str(c: Cell): string {
    match c
    case Text(s) => s
    case Number(n) => Decimal(n)
    case Missing => "nan"
  }

  /** The fields `Risk` validates as strings, in declaration order. */
  const TextFields: seq<string> := ["project_type", "project_name", "risk_text", "risk_priority", "status"]

  /** A string field of the record: a string cell passes validation, a
      number or a missing value (a float `NaN`) does not. */
  function TextField(cols: seq<Column>, row: Row, name: string): Result<string, string> {
    match Get(cols, row, name)
    case Text(s) => Success(s)
    case _ => Failure("validation error for Risk: " + name)
  }

  /** `_create_model_instance`. */
  function CreateModelInstance(cols: seq<Column>, row: Row, relevanceScore: Option<real>): (r: Result<Risk, string>)
    ensures r.Success? <==> forall name :: name in TextFields ==> Get(cols, row, name).Text?
  {
    var fields := [TextField(cols, row, "project_type"), TextField(cols, row, "project_name"),
                   TextField(cols, row, "risk_text"), TextField(cols, row, "risk_priority"),
                   TextField(cols, row, "status")];
    if fields[0].Failure? then Failure(fields[0].error)
    else if fields[1].Failure? then Failure(fields[1].error)
    else if fields[2].Failure? then Failure(fields[2].error)
    else if fields[3].Failure? then Failure(fields[3].error)
    else if fields[4].Failure? then Failure(fields[4].error)
    else Success(Risk(Str(Get(cols, row, "project_id")), fields[0].value, fields[1].value, fields[2].value,
                      Some(fields[3].value), Some(fields[4].value), relevanceScore))
  }

  /** A row whose text fields are strings or absent becomes a record holding
      each string, `''` for an absent column, the identifier as printed by
      `str` and the relevance score passed in. */
  lemma CreateModelFields(cols: seq<Column>, row: Row, relevanceScore: Option<real>)
    requires forall name :: name in TextFields ==> Get(cols, row, name).Text?
    ensures var r := CreateModelInstance(cols, row, relevanceScore);
      && r.Success?
      && r.value.projectId == Str(Get(cols, row, "project_id"))
      && r.value.projectType == Get(cols, row, "project_type").s
      && r.value.projectName == Get(cols, row, "project_name").s
      && r.value.riskText == Get(cols, row, "risk_text").s
      && r.value.riskPriority == Some(Get(cols, row, "risk_priority").s)
      && r.value.status == Some(Get(cols, row, "status").s)
      && r.value.relevanceScore == relevanceScore
      && (forall name :: name in TextFields && name !in Names(cols) ==> Get(cols, row, name) == Text(""))
  {
    assert forall k :: 0 <= k < 5 ==> TextFields[k] in TextFields;
  }

  /** A table without any of the columns gives a record of empty strings
      with `project_id` empty too. */
  lemma CreateModelFromEmptyRow(row: Row, relevanceScore: Option<real>)
    ensures CreateModelInstance([], row, relevanceScore) ==
      Success(Risk("", "", "", "", Some(""), Some(""), relevanceScore))
  {
  }

  /** A table whose only column is `project_id`. */
  const IdOnly: seq<Column> := [Column("project_id", false)]

  /** An integer identifier is printed as `str` prints it, in decimal, and a
      missing one as `nan`. */
  lemma ProjectIdPrinted(row: Row, n: int)
    requires |row.cells| >= 1
    ensures row.cells[0] == Number(n) ==> CreateModelInstance(IdOnly, row, None).value.projectId == Decimal(n)
    ensures row.cells[0] == Missing ==> CreateModelInstance(IdOnly, row, None).value.projectId == "nan"
  {
    assert Names(IdOnly) == ["project_id"];
    assert Get(IdOnly, row, "project_id") == row.cells[0];
  }

  /** `_generate_additional_context`. */
  function AdditionalContext(filtered: Frame, bestItem: string, category: string): (r: string)
    ensures |r| > 10 && r[..8] == "Найдено "
    ensures r[|r| - 2..] == "'."
  {
    "Найдено " + Decimal(|filtered.rows|) + " рисков для проекта '" + bestItem + "' в категории '" + category + "'."
  }

  /** The line holds the number of rows of the filtered table, the item and
      the category, each right after its own phrase. */
  lemma AdditionalContextEmbeds(filtered: Frame, bestItem: string, category: string)
    ensures var r := AdditionalContext(filtered, bestItem, category);
      var count := Decimal(|filtered.rows|);
      var item := " рисков для проекта '" + bestItem;
      && r[8..8 + |count|] == count
      && r[8 + |count|..8 + |count| + |item|] == item
      && r[|r| - 2 - |category|..|r| - 2] == category
  {
  }
}
