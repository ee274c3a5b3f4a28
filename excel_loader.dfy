/** Loading a data kind's spreadsheet (app/adapters/excel_loader.py,
    `ExcelLoader`).

    The file is chosen by the button pressed; a missing file is an error
    before anything is read; the table read is cleaned in place, column by
    column: in every `object` column the `_x000D_` artefact and then every
    double quote are removed, and the result is stripped. Anything raised
    while reading or cleaning becomes a `DataLoadError`. */
module ExcelLoader {
  import opened Wrappers
  import opened Text
  import opened Frames

  /** `ButtonType`. */
  datatype ButtonType = Contractors | Risks | Errors | Processes

  /** The `data_file_path` of each kind's settings. */
  datatype Settings = Settings(contractorFile: string, riskFile: string, errorFile: string, processFile: string)

  /** `_get_file_path_and_description`: the three kinds in the table have
      their own file; any other value, `None` included, gives the
      contractors' file. */
  function FilePathAndDescription(button: Option<ButtonType>, settings: Settings): (r: (string, string))
    ensures r.0 in {settings.contractorFile, settings.riskFile, settings.errorFile, settings.processFile}
    ensures r.1 != []
  {
    match button
    case Some(Risks) => (settings.riskFile, "файл рисков")
    case Some(Errors) => (settings.errorFile, "файл ошибок")
    case Some(Processes) => (settings.processFile, "файл процессов")
    case _ => (settings.contractorFile, "файл подрядчиков")
  }

  /** The kind of file a button leads to: no button means contractors. */
  function KindOf(button: Option<ButtonType>): ButtonType {
    if button.Some? then button.value else Contractors
  }

  /** The description tells the kinds apart, and no button reads the same
      file as the contractors' button. */
  lemma FileDescriptionNamesKind(a: Option<ButtonType>, b: Option<ButtonType>, settings: Settings)
    ensures FilePathAndDescription(a, settings).1 == FilePathAndDescription(b, settings).1 <==> KindOf(a) == KindOf(b)
    ensures KindOf(a) == KindOf(b) ==> FilePathAndDescription(a, settings) == FilePathAndDescription(b, settings)
    ensures FilePathAndDescription(None, settings) == (settings.contractorFile, "файл подрядчиков")
  {
    assert "файл рисков"[5] != "файл ошибок"[5];
    assert "файл рисков"[5] != "файл процессов"[5];
    assert "файл рисков"[5] != "файл подрядчиков"[5];
    assert "файл ошибок"[5] != "файл процессов"[5];
    assert "файл ошибок"[5] != "файл подрядчиков"[5];
    assert "файл процессов"[6] != "файл подрядчиков"[6];
  }

  const NotFound: string := "Файл данных не найден: "
  const LoadFailed: string := "Ошибка чтения или обработки файла данных: "
  /** What pandas raises when `.str` is used on a column it refuses. */
  const StrAccessorError: string := "Can only use .str accessor with string values!"

  /** Lines 79, 85 and 88 on one string, in that order: never longer than
      the input. */
  function CleanText(s: string): (r: string)
    ensures |r| <= |s|
  {
    Strip(RemoveAll(RemoveAll(s, "_x000D_"), "\""))
  }

  /** A cell of a cleaned `object` column: the `.str` methods give `NaN`
      for anything that is not a string. */
  function CleanCell(c: Cell): Cell {
    if c.Text? then Text(CleanText(c.s)) else Missing
  }

  /** Every `object` column accepts `.str`. */
  predicate StrUsable(f: Frame) {
    forall p :: 0 <= p < |f.columns| && f.columns[p].isObject ==> StrAccessorAllowed(f, p)
  }

  /** What `_clean_dataframe` leaves in the table when nothing raises: the
      same columns, and as many rows, each keeping its label and its number
      of cells. */
  function Cleaned(f: Frame): (r: Frame)
    ensures r.columns == f.columns && |r.rows| == |f.rows|
    ensures forall i :: 0 <= i < |f.rows| ==> r.rows[i].index == f.rows[i].index && |r.rows[i].cells| == |f.rows[i].cells|
  {
    Frame(f.columns, MapColumnsBefore(f.rows, ObjectColumns(f.columns), |f.columns|, CleanCell))
  }

  /** One `object` column refusing `.str` makes the table unusable. */
  lemma NotUsable(f: Frame, p: nat)
    requires p < |f.columns| && f.columns[p].isObject && !StrAccessorAllowed(f, p)
    ensures !StrUsable(f)
  {
  }

  /** The `object` columns before position `n` accept `.str`. */
  predicate UsableBefore(f: Frame, n: nat) {
    forall q :: 0 <= q < n && q < |f.columns| && f.columns[q].isObject ==> StrAccessorAllowed(f, q)
  }

  /** One more column checked. */
  lemma UsableBeforeStep(f: Frame, p: nat)
    requires UsableBefore(f, p) && p < |f.columns|
    requires f.columns[p].isObject ==> StrAccessorAllowed(f, p)
    ensures UsableBefore(f, p + 1)
  {
  }

  /** Every `object` column accepting `.str` makes the table usable. */
  lemma UsableUpTo(f: Frame)
    requires UsableBefore(f, |f.columns|)
    ensures StrUsable(f)
  {
  }

  /** Columns not yet reached by the loop accept `.str` as they did before it. */
  lemma StrAccessorAhead(f: Frame, n: nat, p: nat)
    requires n <= p < |f.columns|
    ensures var g := Frame(f.columns, MapColumnsBefore(f.rows, ObjectColumns(f.columns), n, CleanCell));
      StrAccessorAllowed(g, p) == StrAccessorAllowed(f, p)
  {
    var rows := MapColumnsBefore(f.rows, ObjectColumns(f.columns), n, CleanCell);
    forall k | 0 <= k < |f.rows|
      ensures CellAt(rows[k], p) == CellAt(f.rows[k], p)
    {
      MapColumnsAhead(f.rows, ObjectColumns(f.columns), n, CleanCell, k, p);
    }
  }

  class Loader {
    const settings: Settings

    constructor(settings: Settings)
      ensures this.settings == settings
    {
      this.settings := settings;
    }

    /** `_clean_dataframe`: rewrites the `object` columns of the table in
        place, in column order, and returns it; it raises at the first
        `object` column that refuses `.str`. */
    method CleanDataframe(df: Table) returns (r: Result<Table, string>)
      modifies df
      ensures r.Success? <==> StrUsable(old(df.frame))
      ensures r.Success? ==> r.value == df && df.frame == Cleaned(old(df.frame))
      ensures r.Failure? ==> r.error == StrAccessorError
    {
      ghost var f := df.frame;
      var cols := df.frame.columns;
      var objects := ObjectColumns(cols);
      MapColumnsStart(f.rows, objects, CleanCell);
      for p := 0 to |cols|
        invariant df.frame == Frame(cols, MapColumnsBefore(f.rows, objects, p, CleanCell))
        invariant UsableBefore(f, p)
      {
        MapColumnsStep(f.rows, objects, p, CleanCell);
        if cols[p].isObject {
          StrAccessorAhead(f, p, p);
          if !StrAccessorAllowed(df.frame, p) {
            NotUsable(f, p);
            return Failure(StrAccessorError);
          }
          df.frame := Frame(cols, MapColumn(df.frame.rows, p, CleanCell));
        }
        UsableBeforeStep(f, p);
      }
      UsableUpTo(f);
      return Success(df);
    }

    /** `load`: the existence check comes first and its failure does not
        depend on the reader; a read or clean that raises is reported with
        its message; otherwise a new table holds the cleaned contents. */
    method Load(button: Option<ButtonType>, fileExists: string -> bool, readExcel: string -> Result<Frame, string>)
      returns (r: Result<Table, string>)
      ensures var path := FilePathAndDescription(button, settings).0;
        && (!fileExists(path) ==> r == Failure(NotFound + path))
        && (fileExists(path) && readExcel(path).Failure? ==> r == Failure(LoadFailed + readExcel(path).error))
        && (fileExists(path) && readExcel(path).Success? && !StrUsable(readExcel(path).value) ==>
              r == Failure(LoadFailed + StrAccessorError))
        && (fileExists(path) && readExcel(path).Success? && StrUsable(readExcel(path).value) ==>
              r.Success? && fresh(r.value) && r.value.frame == Cleaned(readExcel(path).value))
    {
      var (path, _) := FilePathAndDescription(button, settings);
      if !fileExists(path) {
        return Failure(NotFound + path);
      }
      var read := readExcel(path);
      if read.Failure? {
        return Failure(LoadFailed + read.error);
      }
      var df := new Table(read.value);
      var cleaned := CleanDataframe(df);
      if cleaned.Failure? {
        return Failure(LoadFailed + cleaned.error);
      }
      return Success(cleaned.value);
    }
  }

  /** A cleaned string holds no double quote and has no whitespace at
      either end; every other character it holds was in the original. */
  lemma CleanTextShape(s: string)
    ensures '"' !in CleanText(s)
    ensures NoOuterSpace(CleanText(s))
    ensures forall c :: c in CleanText(s) ==> c in s
  {
    var a := RemoveAll(s, "_x000D_");
    var b := RemoveAll(a, "\"");
    RemoveCharGone(a, '"');
    TrimInside(b, IsSpace);
    StripNoOuterSpace(b);
    RemoveKeeps(s, "_x000D_");
  }

  /** Removal only ever drops characters. */
  lemma {:induction false} RemoveKeeps(s: string, pat: string)
    requires pat != []
    ensures forall c :: c in RemoveAll(s, pat) ==> c in s
    decreases |s|
  {
    if s != [] {
      if pat <= s {
        RemoveKeeps(s[|pat|..], pat);
      } else {
        RemoveKeeps(s[1..], pat);
      }
    }
  }

  /** In an `object` column a string is cleaned and anything else becomes
      missing; cells of other columns are untouched. */
  lemma CleanedCells(f: Frame, i: nat, p: nat)
    requires i < |f.rows| && p < |f.rows[i].cells|
    ensures var c := Cleaned(f).rows[i].cells[p];
      var before := f.rows[i].cells[p];
      if p < |f.columns| && f.columns[p].isObject then
        && (before.Text? ==> c.Text? && '"' !in c.s && NoOuterSpace(c.s))
        && (!before.Text? ==> c.Missing?)
      else c == before
  {
    var objects := ObjectColumns(f.columns);
    var row := MapCellsBefore(f.rows[i], objects, |f.columns|, CleanCell);
    assert Cleaned(f).rows[i] == row;
    var before := f.rows[i].cells[p];
    if p < |f.columns| && f.columns[p].isObject {
      assert row.cells[p] == CleanCell(before);
      if before.Text? {
        CleanTextShape(before.s);
      }
    } else {
      assert row.cells[p] == before;
    }
  }

  /** Cleaning keeps every row, its label and its number of cells, and the columns. */
  lemma CleanedShape(f: Frame)
    ensures Cleaned(f).columns == f.columns
    ensures |Cleaned(f).rows| == |f.rows|
    ensures forall i :: 0 <= i < |f.rows| ==>
      Cleaned(f).rows[i].index == f.rows[i].index && |Cleaned(f).rows[i].cells| == |f.rows[i].cells|
  {
  }

  /** The artefact is removed in one left-to-right pass: one split around
      another survives, so cleaning is not idempotent. */
  lemma ArtefactRemovedOnce()
    ensures CleanText("_x00_x000D_0D_") == "_x000D_"
    ensures CleanText(CleanText("_x00_x000D_0D_")) == ""
  {
    RemoveOnceExample();
    NoQuoteKept("_x000D_");
    ArtefactStripped();
    assert RemoveAll("_x000D_", "_x000D_") == "" by {
      RemoveHit("_x000D_", "_x000D_");
    }
    assert Strip("") == "";
  }

  lemma ArtefactStripped()
    ensures Strip("_x000D_") == "_x000D_"
  {
    StripOfStripped("_x000D_");
  }

  /** One step of `RemoveAll` where the pattern does not start the text. */
  lemma RemoveSkip(s: string, pat: string)
    requires pat != [] && s != [] && pat[0] != s[0]
    ensures RemoveAll(s, pat) == [s[0]] + RemoveAll(s[1..], pat)
  {
    assert !(pat <= s);
  }

  /** One step of `RemoveAll` where the pattern starts the text. */
  lemma RemoveHit(s: string, pat: string)
    requires pat != [] && pat <= s
    ensures RemoveAll(s, pat) == RemoveAll(s[|pat|..], pat)
  {
  }

  /** One step of `RemoveAll` where the pattern does not start the text. */
  lemma RemoveMiss(s: string, pat: string)
    requires pat != [] && s != [] && !(pat <= s)
    ensures RemoveAll(s, pat) == [s[0]] + RemoveAll(s[1..], pat)
  {
  }

  /** A prefix holding no character that starts the pattern passes through. */
  lemma {:induction false} RemoveKeepsPrefix(a: string, b: string, pat: string)
    requires pat != [] && pat[0] !in a
    ensures RemoveAll(a + b, pat) == a + RemoveAll(b, pat)
    decreases |a|
  {
    if a == [] {
      assert a + b == b;
    } else {
      assert a[0] in a;
      RemoveSkip(a + b, pat);
      assert (a + b)[1..] == a[1..] + b;
      RemoveKeepsPrefix(a[1..], b, pat);
    }
  }

  /** A first character that does not start the pattern, a prefix free of
      its first character, one occurrence, and a tail too short to hold
      another: only that occurrence goes. */
  lemma RemoveOneAfterSkip(s: string, a: string, b: string, pat: string)
    requires pat != [] && s != [] && !(pat <= s)
    requires s[1..] == a + (pat + b) && pat[0] !in a && |b| < |pat|
    ensures RemoveAll(s, pat) == [s[0]] + a + b
  {
    RemoveMiss(s, pat);
    RemoveKeepsPrefix(a, pat + b, pat);
    RemoveHit(pat + b, pat);
    assert (pat + b)[|pat|..] == b;
    RemoveShort(b, pat);
  }

  lemma RemoveOnceExample()
    ensures RemoveAll("_x00_x000D_0D_", "_x000D_") == "_x000D_"
  {
    OnceExampleNoPrefix();
    OnceExampleTail();
    OnceExampleJoin();
    RemoveOneAfterSkip("_x00_x000D_0D_", "x00", "0D_", "_x000D_");
  }

  lemma OnceExampleNoPrefix()
    ensures !("_x000D_" <= "_x00_x000D_0D_")
  {
    assert "_x00_x000D_0D_"[4] != "_x000D_"[4];
  }

  lemma OnceExampleTail()
    ensures "_x00_x000D_0D_"[1..] == "x00" + ("_x000D_" + "0D_")
  {
  }

  lemma OnceExampleJoin()
    ensures ["_x00_x000D_0D_"[0]] + "x00" + "0D_" == "_x000D_"
  {
  }

  /** Text shorter than the pattern is kept. */
  lemma {:induction false} RemoveShort(s: string, pat: string)
    requires pat != [] && |s| < |pat|
    ensures RemoveAll(s, pat) == s
    decreases |s|
  {
    if s != [] {
      RemoveShort(s[1..], pat);
    }
  }

  /** A string without quotes is left alone by the quote removal. */
  lemma {:induction false} NoQuoteKept(s: string)
    requires '"' !in s
    ensures RemoveAll(s, "\"") == s
    decreases |s|
  {
    if s != [] {
      assert s[0] in s;
      RemoveSkip(s, "\"");
      NoQuoteKept(s[1..]);
    }
  }

  /** Quotes go after the artefact: a quote inside one hides it from the
      first removal, and its own removal then completes it. */
  lemma QuoteInsideArtefactKept()
    ensures CleanText("_x000\"D_") == "_x000D_"
  {
    var s := "_x000\"D_";
    ArtefactHidden();
    QuoteRemovedJoins();
    ArtefactStripped();
  }

  /** A first character that does not start the pattern, a prefix free of
      its first character and a tail too short to hold it: nothing goes. */
  lemma RemoveNoneAfterSkip(s: string, a: string, b: string, pat: string)
    requires pat != [] && s != [] && !(pat <= s)
    requires s[1..] == a + b && pat[0] !in a && |b| < |pat|
    ensures RemoveAll(s, pat) == [s[0]] + a + b
  {
    RemoveMiss(s, pat);
    RemoveKeepsPrefix(a, b, pat);
    RemoveShort(b, pat);
  }

  lemma ArtefactHidden()
    ensures RemoveAll("_x000\"D_", "_x000D_") == "_x000\"D_"
  {
    HiddenNoPrefix();
    HiddenTail();
    RemoveNoneAfterSkip("_x000\"D_", "x000\"D", "_", "_x000D_");
  }

  lemma HiddenNoPrefix()
    ensures !("_x000D_" <= "_x000\"D_")
  {
    assert "_x000\"D_"[5] != "_x000D_"[5];
  }

  lemma HiddenTail()
    ensures "_x000\"D_"[1..] == "x000\"D" + "_"
    ensures ["_x000\"D_"[0]] + "x000\"D" + "_" == "_x000\"D_"
  {
  }

  /** One occurrence between two stretches free of the pattern's first
      character: exactly that occurrence goes. */
  lemma RemoveBetween(a: string, b: string, pat: string)
    requires pat != [] && pat[0] !in a && pat[0] !in b
    ensures RemoveAll(a + pat + b, pat) == a + b
  {
    assert a + pat + b == a + (pat + b);
    RemoveKeepsPrefix(a, pat + b, pat);
    RemoveHit(pat + b, pat);
    assert (pat + b)[|pat|..] == b;
    RemoveKeepsPrefix(b, [], pat);
    assert b + [] == b;
  }

  lemma QuoteRemovedJoins()
    ensures RemoveAll("_x000\"D_", "\"") == "_x000D_"
  {
    var q := "\"";
    assert "_x000\"D_" == "_x000" + q + "D_";
    RemoveBetween("_x000", "D_", q);
    assert "_x000" + "D_" == "_x000D_";
  }
}
