/** The tool registry (app/tools/registry.py, `ToolRegistry`): a dictionary
    from the name in a tool's schema to the tool, filled in place.

    A Python `dict` remembers insertion order, which `get_all_schemas`
    exposes; the model keeps the keys in `names`, in the order they were first
    registered, next to the `tools` map. */
module Registry {
  import opened Wrappers
  import opened Seqs

  /** The part of a tool's JSON schema the registry reads: the value at
      `schema["function"]["name"]`, absent when either key is missing. */
  datatype Schema = Schema(functionName: Option<string>)

  /** A tool: the lemmatising keyword search, or any other tool, known only
      by an identity and the schema it reports. */
  datatype Tool = KeywordSearch | Other(id: nat, schema: Schema)

  const KeywordSearchName: string := "search_by_keywords"

  /** `tool.get_schema()`. */
  function SchemaOf(t: Tool): Schema {
    match t
    case KeywordSearch => Schema(Some(KeywordSearchName))
    case Other(_, s) => s
  }

  /** The name a tool registers under, or `None` when its schema has no
      usable name (missing or empty: `not tool_name`). */
  function NameOf(t: Tool): (n: Option<string>)
    ensures n.Some? ==> n.value != [] && SchemaOf(t).functionName == n
  {
    match SchemaOf(t).functionName
    case None => None
    case Some(s) => if s == [] then None else Some(s)
  }

  class ToolRegistry {
    /** The dictionary's keys, in insertion order. */
    var names: seq<string>
    var tools: map<string, Tool>

    /** The keys are distinct, are exactly the map's keys, and each tool is
        stored under the name its own schema gives. */
    ghost predicate Valid()
      reads this
    {
      && NoDup(names)
      && (forall n :: n in tools <==> n in names)
      && (forall n :: n in tools ==> NameOf(tools[n]) == Some(n))
    }

    /** A new registry holds exactly the keyword search tool. */
    constructor()
      ensures Valid()
      ensures names == [KeywordSearchName]
      ensures tools == map[KeywordSearchName := KeywordSearch]
    {
      names := [];
      tools := map[];
      new;
      RegisterTool(KeywordSearch);
    }

    /** `register_tool`: a tool whose schema has no usable name is ignored;
        otherwise it is stored under its name, replacing any earlier tool of
        that name, which keeps its place in the order. */
    method RegisterTool(tool: Tool)
      requires Valid()
      modifies this
      ensures Valid()
      ensures NameOf(tool).None? ==> names == old(names) && tools == old(tools)
      ensures NameOf(tool).Some? ==>
        var n := NameOf(tool).value;
        && tools == old(tools)[n := tool]
        && names == (if n in old(names) then old(names) else old(names) + [n])
      ensures NameOf(tool).Some? ==> GetTool(NameOf(tool).value) == Some(tool)
      ensures forall m :: NameOf(tool) != Some(m) ==> GetTool(m) == old(GetTool(m))
    {
      var name := NameOf(tool);
      if name.None? {
        return;
      }
      if name.value !in tools {
        names := names + [name.value];
      }
      tools := tools[name.value := tool];
    }

    /** `get_tool`: the tool registered under `name`, if any. */
    function GetTool(name: string): (t: Option<Tool>)
      reads this
      ensures t.Some? <==> name in tools
    {
      if name in tools then Some(tools[name]) else None
    }

    /** `get_all_schemas`: one schema per registered name, in the order the
        names were first registered. */
    function GetAllSchemas(): (schemas: seq<Schema>)
      reads this
      requires Valid()
      ensures |schemas| == |names|
      ensures forall k :: 0 <= k < |names| ==> schemas[k] == SchemaOf(tools[names[k]])
      ensures forall k :: 0 <= k < |names| ==> schemas[k].functionName == Some(names[k])
    {
      SchemasOf(names, tools)
    }
  }

  function SchemasOf(names: seq<string>, tools: map<string, Tool>): (schemas: seq<Schema>)
    requires forall n :: n in names ==> n in tools
    ensures |schemas| == |names|
    ensures forall k :: 0 <= k < |names| ==> schemas[k] == SchemaOf(tools[names[k]])
  {
    if names == [] then [] else [SchemaOf(tools[names[0]])] + SchemasOf(names[1..], tools)
  }
}
