/** Table normalisation shared by every data kind
    (app/services/base_normalization.py, `BaseNormalizationService`).

    `clean_df` renames the columns the kind's mapping knows, in place, then
    walks the columns and rewrites every `object` column: missing values
    become `''`, every value becomes its text, which is stripped and has its
    whitespace runs collapsed to one space. */
module Normalization {
  import opened Text
  import opened Frames

  /** `fillna('')` followed by `astype(str)`. */
  function CellText(c: Cell): string {
    match c
    case Text(s) => s
    case Number(n) => Decimal(n)
    case Missing => ""
  }

  /** `.str.strip()` followed by `.str.replace(r'\s+', ' ', regex=True)`:
      never longer than the input. */
  function NormalizeText(s: string): (r: string)
    ensures |r| <= |s|
  {
    CollapseSpaces(Strip(s))
  }

  /** One cell of an `object` column after the three reassignments. */
  function NormalizeCell(c: Cell): Cell {
    Text(NormalizeText(CellText(c)))
  }

  /** A normalised string has no whitespace at either end and every
      whitespace character in it is a single `' '` between two
      non-whitespace characters. */
  lemma NormalizeTextShape(s: string)
    ensures NoOuterSpace(NormalizeText(s))
    ensures SingleSpaced(NormalizeText(s))
  {
    var t := Strip(s);
    var r := CollapseSpaces(t);
    StripNoOuterSpace(s);
    CollapseEnds(t);
    assert NoOuterSpace(r);
    CollapseSingleSpaced(t);
    SingleSpacedOfInside(r);
  }

  /** Normalising a normalised string changes nothing. */
  lemma NormalizeTextIdempotent(s: string)
    ensures NormalizeText(NormalizeText(s)) == NormalizeText(s)
  {
    var r := NormalizeText(s);
    NormalizeTextShape(s);
    CollapseSingleSpaced(Strip(s));
    assert Strip(r) == r by {
      StripOfStripped(r);
    }
    CollapseOfSingleSpaced(r);
  }

  /** Every cell of a normalised column is a string: `''` for a missing
      value, the decimal digits for a number, and a text already in normal
      form is kept as it is. */
  lemma NormalizeCellValues(c: Cell)
    ensures NormalizeCell(c).Text?
    ensures c.Missing? ==> NormalizeCell(c) == Text("")
    ensures c.Number? ==> NormalizeCell(c) == Text(NormalizeText(Decimal(c.n)))
    ensures c.Text? && NoOuterSpace(c.s) && SingleSpaced(c.s) ==> NormalizeCell(c) == c
  {
    assert Strip("") == "";
    if c.Text? && NoOuterSpace(c.s) && SingleSpaced(c.s) {
      StripOfStripped(c.s);
      CollapseOfSingleSpaced(c.s);
    }
  }

  /** Normalising a cell twice is normalising it once. */
  lemma NormalizeCellIdempotent(c: Cell)
    ensures NormalizeCell(NormalizeCell(c)) == NormalizeCell(c)
  {
    NormalizeTextIdempotent(CellText(c));
  }

  /** The dictionary handed to `rename`: the mapping's entries whose key is
      a column of the table. */
  function PresentKeys(mapping: map<string, string>, cols: seq<Column>): map<string, string> {
    map k | k in mapping && k in Names(cols) :: mapping[k]
  }

  /** `rename(columns=...)`: a column whose name is a key takes the key's
      value; the dtype stays. */
  function Renamed(cols: seq<Column>, renames: map<string, string>): (r: seq<Column>)
    ensures |r| == |cols|
    ensures forall k :: 0 <= k < |cols| ==> r[k].isObject == cols[k].isObject
    ensures forall k :: 0 <= k < |cols| ==>
      r[k].name == if cols[k].name in renames then renames[cols[k].name] else cols[k].name
  {
    if cols == [] then []
    else
      var c := cols[0];
      [Column(if c.name in renames then renames[c.name] else c.name, c.isObject)] + Renamed(cols[1..], renames)
  }

  /** Keeping only the keys that are columns renames exactly as the whole
      mapping would: every column named by a key is renamed, every other
      column keeps its name. */
  lemma RenamePresentOnly(cols: seq<Column>, mapping: map<string, string>)
    ensures Renamed(cols, PresentKeys(mapping, cols)) == Renamed(cols, mapping)
  {
    var present := PresentKeys(mapping, cols);
    var names := Names(cols);
    forall k | 0 <= k < |cols|
      ensures Renamed(cols, present)[k] == Renamed(cols, mapping)[k]
    {
      assert names[k] == cols[k].name;
    }
  }

  /** What `clean_df` leaves in the table: as many columns and rows, the
      rows keeping their labels and their number of cells. */
  function Normalized(f: Frame, mapping: map<string, string>): (r: Frame)
    ensures |r.columns| == |f.columns| && |r.rows| == |f.rows|
    ensures forall i :: 0 <= i < |f.rows| ==> r.rows[i].index == f.rows[i].index && |r.rows[i].cells| == |f.rows[i].cells|
  {
    var cols := Renamed(f.columns, PresentKeys(mapping, f.columns));
    Frame(cols, MapColumnsBefore(f.rows, ObjectColumns(cols), |cols|, NormalizeCell))
  }

  class NormalizationService {
    /** `get_column_mapping()`: old column name to new one. */
    const mapping: map<string, string>

    constructor(mapping: map<string, string>)
      ensures this.mapping == mapping
    {
      this.mapping := mapping;
    }

    /** `clean_df`: renames in place, then rewrites the `object` columns one
        by one, and returns the same table object. */
    method CleanDf(df: Table) returns (r: Table)
      modifies df
      ensures r == df
      ensures df.frame == Normalized(old(df.frame), mapping)
    {
      var cols := Renamed(df.frame.columns, PresentKeys(mapping, df.frame.columns));
      df.frame := Frame(cols, df.frame.rows);
      ghost var rows := df.frame.rows;
      var objects := ObjectColumns(cols);
      MapColumnsStart(rows, objects, NormalizeCell);
      for p := 0 to |cols|
        invariant df.frame == Frame(cols, MapColumnsBefore(rows, objects, p, NormalizeCell))
      {
        MapColumnsStep(rows, objects, p, NormalizeCell);
        if cols[p].isObject {
          df.frame := Frame(cols, MapColumn(df.frame.rows, p, NormalizeCell));
        }
      }
      r := AdditionalProcessing(df);
    }

    /** `_additional_processing`: the base class hands the table back as it is. */
    method AdditionalProcessing(df: Table) returns (r: Table)
      ensures r == df && r.frame == df.frame
    {
      r := df;
    }
  }

  /** `clean_df` keeps every row, in order, with its label and its number of
      cells; the columns keep their order and dtype, and only a column named
      by a key of the mapping changes its name, to the key's value. */
  lemma NormalizedShape(f: Frame, mapping: map<string, string>)
    ensures var g := Normalized(f, mapping);
      && |g.rows| == |f.rows|
      && |g.columns| == |f.columns|
      && (forall k :: 0 <= k < |f.columns| ==>
            g.columns[k] == Column(if f.columns[k].name in mapping then mapping[f.columns[k].name] else f.columns[k].name,
                                   f.columns[k].isObject))
      && (forall i :: 0 <= i < |f.rows| ==>
            g.rows[i].index == f.rows[i].index && |g.rows[i].cells| == |f.rows[i].cells|)
  {
    RenamePresentOnly(f.columns, mapping);
  }

  /** A cell of an `object` column comes out a string without outer or
      doubled whitespace (`''` when it was missing); a cell of any other
      column is untouched. */
  lemma NormalizedCells(f: Frame, mapping: map<string, string>, i: nat, p: nat)
    requires i < |f.rows| && p < |f.rows[i].cells|
    ensures var c := Normalized(f, mapping).rows[i].cells[p];
      var before := f.rows[i].cells[p];
      if p < |f.columns| && f.columns[p].isObject then
        && c.Text? && NoOuterSpace(c.s) && SingleSpaced(c.s)
        && (before.Missing? ==> c.s == "")
      else c == before
  {
    NormalizedCellIs(f, mapping, i, p);
    NormalizeTextShape(CellText(f.rows[i].cells[p]));
    NormalizeCellValues(f.rows[i].cells[p]);
  }

  /** The cell the column loop leaves at row `i`, position `p`. */
  lemma NormalizedCellIs(f: Frame, mapping: map<string, string>, i: nat, p: nat)
    requires i < |f.rows| && p < |f.rows[i].cells|
    ensures Normalized(f, mapping).rows[i].cells[p] ==
      if p < |f.columns| && f.columns[p].isObject then NormalizeCell(f.rows[i].cells[p]) else f.rows[i].cells[p]
  {
    var cols := Renamed(f.columns, PresentKeys(mapping, f.columns));
    assert Normalized(f, mapping).rows[i] == MapCellsBefore(f.rows[i], ObjectColumns(cols), |cols|, NormalizeCell);
  }

  /** No new name is itself a key: renaming never chains. */
  predicate NoChainedRenames(mapping: map<string, string>) {
    forall k :: k in mapping ==> mapping[k] !in mapping
  }

  /** With a mapping whose new names are not old names, running `clean_df`
      again on its own output changes nothing. */
  lemma NormalizedIdempotent(f: Frame, mapping: map<string, string>)
    requires NoChainedRenames(mapping)
    ensures Normalized(Normalized(f, mapping), mapping) == Normalized(f, mapping)
  {
    var g := Normalized(f, mapping);
    var h := Normalized(g, mapping);
    NormalizedShape(f, mapping);
    NormalizedShape(g, mapping);
    assert h.columns == g.columns;
    forall i | 0 <= i < |g.rows|
      ensures h.rows[i] == g.rows[i]
    {
      forall p | 0 <= p < |g.rows[i].cells|
        ensures h.rows[i].cells[p] == g.rows[i].cells[p]
      {
        if p < |g.columns| && g.columns[p].isObject {
          NormalizeCellIdempotent(f.rows[i].cells[p]);
        }
      }
    }
  }
}
