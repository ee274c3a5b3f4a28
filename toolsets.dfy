/** Named tool sets and their combination (app/tools/common_toolsets.py,
    `CommonToolSets`).

    A tool set is a list of tool names. `combine` appends every name of every
    set, in argument order, unless it is already in the result: its
    specification is `Combined`, the de-duplication of the concatenation. */
module ToolSets {
  import opened Wrappers
  import opened Seqs

  const BasicSearch: seq<string> := ["search_by_keywords"]
  const RiskAnalysis: seq<string> := ["search_by_keywords"]
  const ContractorAnalysis: seq<string> := []
  const ErrorAnalysis: seq<string> := []
  const ProcessAnalysis: seq<string> := []
  const FullAnalysis: seq<string> := ["search_by_keywords"]
  const NoTools: seq<string> := []

  /** What `combine(*toolsets)` returns: it has no duplicates. */
  function Combined(toolsets: seq<seq<string>>): (r: seq<string>)
    ensures NoDup(r)
  {
    DedupNoDup(Flatten(toolsets));
    Dedup(Flatten(toolsets))
  }

  /** `combine`: the nested loop with its membership test. */
  method Combine(toolsets: seq<seq<string>>) returns (combined: seq<string>)
    ensures combined == Combined(toolsets)
  {
    combined := [];
    for i := 0 to |toolsets|
      invariant combined == Dedup(Flatten(toolsets[..i]))
    {
      var toolset := toolsets[i];
      ghost var done := Flatten(toolsets[..i]);
      assert done + toolset[..0] == done;
      for j := 0 to |toolset|
        invariant combined == Dedup(done + toolset[..j])
      {
        AppendOneMore(done, toolset, j);
        DedupSnoc(done + toolset[..j], toolset[j]);
        DedupMembers(done + toolset[..j], toolset[j]);
        if toolset[j] !in combined {
          combined := combined + [toolset[j]];
        }
      }
      assert toolset[..|toolset|] == toolset;
      FlattenSnoc(toolsets, i);
    }
    assert toolsets[..|toolsets|] == toolsets;
  }

  /** One more element of the current set extends the names seen so far by it. */
  lemma AppendOneMore(done: seq<string>, toolset: seq<string>, j: nat)
    requires j < |toolset|
    ensures done + toolset[..j + 1] == (done + toolset[..j]) + [toolset[j]]
  {
    assert toolset[..j + 1] == toolset[..j] + [toolset[j]];
  }

  /** Taking one more set appends it to the flattened prefix. */
  lemma FlattenSnoc(toolsets: seq<seq<string>>, i: nat)
    requires i < |toolsets|
    ensures Flatten(toolsets[..i + 1]) == Flatten(toolsets[..i]) + toolsets[i]
  {
    assert toolsets[..i + 1][..i] == toolsets[..i];
  }

  /** `extend(base, additional)` is `combine(base, additional)`. */
  method Extend(base: seq<string>, additional: seq<string>) returns (extended: seq<string>)
    ensures extended == Combined([base, additional])
    ensures extended == Dedup(base + additional)
  {
    extended := Combine([base, additional]);
    assert [base, additional][..1] == [base];
    assert [base][..0] == [];
    assert Flatten([base]) == base;
  }

  /** A name is in the result exactly when it is in one of the sets. */
  lemma CombinedMembers(toolsets: seq<seq<string>>, name: string)
    ensures name in Combined(toolsets) <==> exists k :: 0 <= k < |toolsets| && name in toolsets[k]
  {
    DedupMembers(Flatten(toolsets), name);
    FlattenMembers(toolsets, name);
  }

  /** The result lists names in the order of their first occurrence across
      the sets taken in argument order. */
  lemma CombinedOrder(toolsets: seq<seq<string>>, i: nat, j: nat)
    requires i < j < |Combined(toolsets)|
    ensures var all := Flatten(toolsets); var r := Combined(toolsets);
      r[i] in all && r[j] in all && FirstIndex(all, r[i]) < FirstIndex(all, r[j])
  {
    DedupFirstOccurrenceOrder(Flatten(toolsets), i, j);
  }

  /** A single duplicate-free set combines to itself. */
  lemma CombinedSingle(toolset: seq<string>)
    requires NoDup(toolset)
    ensures Combined([toolset]) == toolset
  {
    assert [toolset][..0] == [];
    assert Flatten([toolset]) == toolset;
    DedupOfDistinct(toolset);
  }

  /** Combining the result of `combine` again changes nothing. */
  lemma CombinedIdempotent(toolsets: seq<seq<string>>)
    ensures Combined([Combined(toolsets)]) == Combined(toolsets)
  {
    CombinedSingle(Combined(toolsets));
  }

  /** The class attributes holding tool sets, by name. */
  function Attribute(name: string): Option<seq<string>> {
    match name
    case "BASIC_SEARCH" => Some(BasicSearch)
    case "RISK_ANALYSIS" => Some(RiskAnalysis)
    case "CONTRACTOR_ANALYSIS" => Some(ContractorAnalysis)
    case "ERROR_ANALYSIS" => Some(ErrorAnalysis)
    case "PROCESS_ANALYSIS" => Some(ProcessAnalysis)
    case "FULL_ANALYSIS" => Some(FullAnalysis)
    case "NONE" => Some(NoTools)
    case _ => None
  }

  /** Every name is a class attribute. */
  predicate AllDefined(names: seq<string>) {
    forall n :: n in names ==> Attribute(n).Some?
  }

  /** Building `{name: CommonToolSets.<name>, ...}`: each attribute is read in
      turn, and reading one that does not exist raises. */
  function Lookup(names: seq<string>): (r: Result<map<string, seq<string>>, string>)
    ensures r.Success? <==> AllDefined(names)
    ensures r.Success? ==> r.value.Keys == set n | n in names
    ensures r.Success? ==> forall n :: n in names ==> r.value[n] == Attribute(n).value
  {
    if names == [] then Success(map[])
    else
      match Attribute(names[0])
      case None => Failure("type object 'CommonToolSets' has no attribute '" + names[0] + "'")
      case Some(set0) =>
        match Lookup(names[1..])
        case Failure(e) => Failure(e)
        case Success(rest) => Success(rest[names[0] := set0])
  }

  /** The names `get_available_toolsets` lists, as written: the six defined
      sets and `MINIMAL`. */
  const ListedAsWritten: seq<string> :=
    ["BASIC_SEARCH", "RISK_ANALYSIS", "CONTRACTOR_ANALYSIS", "ERROR_ANALYSIS", "PROCESS_ANALYSIS", "FULL_ANALYSIS", "MINIMAL"]

  /** The names it can list: the six sets it names that are defined. */
  const Listed: seq<string> :=
    ["BASIC_SEARCH", "RISK_ANALYSIS", "CONTRACTOR_ANALYSIS", "ERROR_ANALYSIS", "PROCESS_ANALYSIS", "FULL_ANALYSIS"]

  /** `get_available_toolsets` as written: it fails only on a listed name
      that is not an attribute, and otherwise maps each listed name. */
  function AvailableToolSetsAsWritten(): (r: Result<map<string, seq<string>>, string>)
    ensures r.Success? <==> AllDefined(ListedAsWritten)
    ensures r.Success? ==> r.value.Keys == set n | n in ListedAsWritten
  {
    Lookup(ListedAsWritten)
  }

  /** `get_available_toolsets` without the undefined entry. */
  function AvailableToolSets(): (r: Result<map<string, seq<string>>, string>)
    ensures r.Success? <==> AllDefined(Listed)
    ensures r.Success? ==> r.value.Keys == set n | n in Listed
  {
    Lookup(Listed)
  }

  /** As written, the call always raises: `MINIMAL` is not an attribute. */
  lemma AvailableToolSetsAsWrittenRaises()
    ensures AvailableToolSetsAsWritten().Failure?
  {
    assert ListedAsWritten[6] == "MINIMAL";
    MinimalUndefined();
  }

  /** `MINIMAL` differs in its first letter from every defined set's name. */
  lemma MinimalUndefined()
    ensures Attribute("MINIMAL") == None
  {
    var m := "MINIMAL";
    assert m != "BASIC_SEARCH" by { assert "BASIC_SEARCH"[0] != m[0]; }
    assert m != "RISK_ANALYSIS" by { assert "RISK_ANALYSIS"[0] != m[0]; }
    assert m != "CONTRACTOR_ANALYSIS" by { assert "CONTRACTOR_ANALYSIS"[0] != m[0]; }
    assert m != "ERROR_ANALYSIS" by { assert "ERROR_ANALYSIS"[0] != m[0]; }
    assert m != "PROCESS_ANALYSIS" by { assert "PROCESS_ANALYSIS"[0] != m[0]; }
    assert m != "FULL_ANALYSIS" by { assert "FULL_ANALYSIS"[0] != m[0]; }
    assert m != "NONE" by { assert "NONE"[0] != m[0]; }
  }

  /** Without it, the call returns every listed set under its own name. */
  lemma AvailableToolSetsListsAll()
    ensures AvailableToolSets().Success?
    ensures AvailableToolSets().value.Keys == set n | n in Listed
    ensures forall n :: n in Listed ==> AvailableToolSets().value[n] == Attribute(n).value
    ensures AvailableToolSets().value["BASIC_SEARCH"] == ["search_by_keywords"]
  {
    assert forall n :: n in Listed ==> Attribute(n).Some?;
  }
}
