/** Choosing and running a search tool for a question
    (app/tools/tool_executor.py, `ToolExecutor`).

    The executor has no state of its own that it changes: it reads the tool
    registry and calls out to a keyword extractor, an LLM and the tools. The
    extractor and the LLM are parameters (functions from what they are asked
    to what they answer, an exception being one of the answers); the
    lemmatising keyword search is modelled in `LemmaSearch`, any other tool is
    the parameter `other`. Every exception inside the `try` blocks ends in the
    input table with no scores. */
module Executor {
  import opened Wrappers
  import opened Text
  import opened Seqs
  import opened Frames
  import opened Registry
  import LemmaSearch

  /** What the keyword extractor is asked for: the text, how many keywords,
      and the n-gram range of a keyword. */
  datatype KeywordRequest = KeywordRequest(text: string, topN: nat, ngramMin: nat, ngramMax: nat)

  /** The keyword extractor's answer: keywords, or an exception. */
  datatype Extraction = Extracted(keywords: seq<string>) | ExtractorRaised

  /** The arguments a tool is called with besides the table: the
      `keywords` and `top_n` entries of the argument dictionary, each possibly
      absent. Other entries are accepted and ignored by the keyword search. */
  datatype Args = Args(keywords: Option<seq<string>>, topN: Option<nat>)

  /** A tool other than the keyword search, run on a table: its result, or
      an exception. */
  type OtherTool = (nat, Frame, Args) -> Result<ScoredFrame, string>

  /** An optional argument, or its default. */
  function OrDefault(n: Option<nat>, default: nat): nat {
    if n.Some? then n.value else default
  }

  /** The fallback every failure ends in: the input table and no scores. */
  function Unchanged(df: Frame): ScoredFrame {
    ScoredFrame(df, map[])
  }

  /** `_extract_keywords_with_keybert`: seven single-word keywords are asked
      for; an exception gives no keywords. */
  function ExtractKeywords(question: string, extractor: KeywordRequest -> Extraction): (ks: seq<string>)
    ensures extractor(KeywordRequest(question, 7, 1, 1)).ExtractorRaised? ==> ks == []
    ensures extractor(KeywordRequest(question, 7, 1, 1)).Extracted? ==>
      ks == extractor(KeywordRequest(question, 7, 1, 1)).keywords
  {
    match extractor(KeywordRequest(question, 7, 1, 1))
    case Extracted(ks) => ks
    case ExtractorRaised => []
  }

  /** Python's `not text or not text.strip()`: empty or only whitespace. */
  predicate IsBlank(text: string) {
    forall i :: 0 <= i < |text| ==> IsSpace(text[i])
  }

  /** The one promise of the keyword extraction service the executor relies
      on: empty or blank text gives no keywords, whatever else is asked. */
  ghost predicate BlankGivesNoKeywords(extractor: KeywordRequest -> Extraction) {
    forall text, n, lo, hi :: IsBlank(text) ==> extractor(KeywordRequest(text, n, lo, hi)) == Extracted([])
  }

  /** With an extractor that keeps that promise, a blank question finds no
      keywords. */
  lemma BlankQuestionNoKeywords(question: string, extractor: KeywordRequest -> Extraction)
    ensures BlankGivesNoKeywords(extractor) && IsBlank(question) ==> ExtractKeywords(question, extractor) == []
  {
    if BlankGivesNoKeywords(extractor) && IsBlank(question) {
      assert extractor(KeywordRequest(question, 7, 1, 1)) == Extracted([]);
    }
  }

  /** `tool.execute(df=df, **arguments)`. The keyword search's `top_n`
      defaults to 3, and a missing `keywords` argument raises. */
  function RunTool(tool: Tool, df: Frame, args: Args, nf: string -> string, other: OtherTool): Result<ScoredFrame, string> {
    match tool
    case KeywordSearch =>
      (match args.keywords
       case None => Failure("execute() missing 1 required positional argument: 'keywords'")
       case Some(ks) => Success(LemmaSearch.Execute(df, ks, OrDefault(args.topN, 3), nf)))
    case Other(id, _) => other(id, df, args)
  }

  /** A result, or the fallback when the call raised. */
  function Caught(r: Result<ScoredFrame, string>, df: Frame): ScoredFrame {
    match r
    case Success(v) => v
    case Failure(_) => Unchanged(df)
  }

  /** `select_and_execute`: keywords come from the extractor; without any, or
      without a tool registered as `search_by_keywords`, the table comes back
      unchanged; otherwise that tool runs on the keywords with the caller's
      `top_n`, 5 when none is given. */
  function SelectAndExecute(question: string, df: Frame, topN: Option<nat>, registry: ToolRegistry,
                            extractor: KeywordRequest -> Extraction, nf: string -> string, other: OtherTool): (r: ScoredFrame)
    reads registry
    ensures BlankGivesNoKeywords(extractor) && IsBlank(question) ==> r == Unchanged(df)
    ensures KeywordSearchName in registry.tools && registry.tools[KeywordSearchName] == KeywordSearch ==>
      forall row :: row in r.frame.rows ==> row in df.rows
  {
    BlankQuestionNoKeywords(question, extractor);
    var keywords := ExtractKeywords(question, extractor);
    if keywords == [] then Unchanged(df)
    else
      match registry.GetTool(KeywordSearchName)
      case None => Unchanged(df)
      case Some(tool) => Caught(RunTool(tool, df, Args(Some(keywords), Some(OrDefault(topN, 5))), nf, other), df)
  }

  /** The fallbacks of `select_and_execute`: no keywords (the extractor found
      none or raised), no `search_by_keywords` tool, or a tool that raised. */
  lemma SelectFallsBack(question: string, df: Frame, topN: Option<nat>, registry: ToolRegistry,
                        extractor: KeywordRequest -> Extraction, nf: string -> string, other: OtherTool)
    ensures var request := extractor(KeywordRequest(question, 7, 1, 1));
      request.ExtractorRaised? || request.keywords == [] || KeywordSearchName !in registry.tools ==>
        SelectAndExecute(question, df, topN, registry, extractor, nf, other) == Unchanged(df)
    ensures var keywords := ExtractKeywords(question, extractor);
      keywords != [] && KeywordSearchName in registry.tools &&
      RunTool(registry.tools[KeywordSearchName], df, Args(Some(keywords), Some(OrDefault(topN, 5))), nf, other).Failure? ==>
        SelectAndExecute(question, df, topN, registry, extractor, nf, other) == Unchanged(df)
  {
  }

  /** A registry holding the keyword search under `search_by_keywords` (a
      new registry does, and other tools may sit beside it): with keywords,
      `select_and_execute` is the keyword search on them, with `top_n` 5
      unless given. */
  lemma SelectRunsKeywordSearch(question: string, df: Frame, topN: Option<nat>, registry: ToolRegistry,
                                extractor: KeywordRequest -> Extraction, nf: string -> string, other: OtherTool)
    requires KeywordSearchName in registry.tools && registry.tools[KeywordSearchName] == KeywordSearch
    requires ExtractKeywords(question, extractor) != []
    ensures SelectAndExecute(question, df, topN, registry, extractor, nf, other) ==
      LemmaSearch.Execute(df, ExtractKeywords(question, extractor), OrDefault(topN, 5), nf)
  {
  }

  /** End to end on such a registry: when the table has unique index labels
      and a `risk_text` column in which some row is relevant to the
      extracted keywords, `select_and_execute` returns exactly the keyword
      search's ranked rows, at most five by default, and a score for each of
      their labels. */
  lemma SelectFindsRows(question: string, df: Frame, registry: ToolRegistry,
                        extractor: KeywordRequest -> Extraction, nf: string -> string, other: OtherTool)
    requires KeywordSearchName in registry.tools && registry.tools[KeywordSearchName] == KeywordSearch
    requires ExtractKeywords(question, extractor) != []
    requires !IsEmpty(df) && HasColumn(df, LemmaSearch.KeywordFilter.RiskText) && UniqueLabels(df.rows)
    requires exists k :: 0 <= k < |df.rows| && LemmaSearch.RowRelevance(df, k, ExtractKeywords(question, extractor), nf) > 0.0
    ensures var ks := ExtractKeywords(question, extractor);
      var sel := LemmaSearch.Selection(df, ks, 5, nf);
      var r := SelectAndExecute(question, df, None, registry, extractor, nf, other);
      && |sel| <= 5
      && (forall k :: 0 <= k < |sel| ==> sel[k].pos < |df.rows|)
      && r.frame.rows == LemmaSearch.KeywordFilter.PickRows(df.rows, sel)
      && r.scores.Keys == (set k | 0 <= k < |sel| :: df.rows[sel[k].pos].index)
  {
    var ks := ExtractKeywords(question, extractor);
    assert registry.GetTool(KeywordSearchName) == Some(KeywordSearch);
    assert SelectAndExecute(question, df, None, registry, extractor, nf, other) ==
      LemmaSearch.Execute(df, ks, 5, nf);
    LemmaSearch.ExecuteRows(df, ks, 5, nf);
    LemmaSearch.ExecuteRanking(df, ks, 5, nf);
    LemmaSearch.ExecuteResult(df, ks, 5, nf);
  }

  /** One tool call chosen by the LLM: the tool's name and its arguments,
      `None` when the arguments are not valid JSON. */
  datatype ToolCall = ToolCall(name: string, arguments: Option<Args>)

  /** What the LLM is asked: the system prompt, the user prompt and the
      schemas of the tools it may choose from. */
  datatype LlmRequest = LlmRequest(systemPrompt: string, userPrompt: string, tools: seq<Schema>)

  /** The LLM's answer: the tool calls of its first choice, or an exception. */
  datatype LlmReply = Reply(toolCalls: seq<ToolCall>) | LlmRaised

  /** The request `select_and_execute_legacy` sends. */
  function LegacyRequest(question: string, context: seq<(string, string)>, registry: ToolRegistry): LlmRequest
    reads registry
    requires registry.Valid()
  {
    LlmRequest(BuildSystemPrompt(context), "Вопрос: " + question, registry.GetAllSchemas())
  }

  /** Running the first tool call: unparsable arguments or an unknown tool
      give the fallback. */
  function RunCall(call: ToolCall, df: Frame, registry: ToolRegistry, nf: string -> string, other: OtherTool): ScoredFrame
    reads registry
  {
    match call.arguments
    case None => Unchanged(df)
    case Some(args) =>
      match registry.GetTool(call.name)
      case None => Unchanged(df)
      case Some(tool) => Caught(RunTool(tool, df, args, nf, other), df)
  }

  /** `select_and_execute_legacy`: with no registered tools, an LLM that
      raises or chooses nothing, the table comes back unchanged; otherwise
      only the first tool call is run. */
  function SelectAndExecuteLegacy(question: string, df: Frame, context: seq<(string, string)>, registry: ToolRegistry,
                                  llm: LlmRequest -> LlmReply, nf: string -> string, other: OtherTool): (r: ScoredFrame)
    reads registry
    requires registry.Valid()
    ensures (forall name :: name in registry.tools ==> registry.tools[name] == KeywordSearch) ==>
      forall row :: row in r.frame.rows ==> row in df.rows
  {
    if registry.GetAllSchemas() == [] then Unchanged(df)
    else
      match llm(LegacyRequest(question, context, registry))
      case LlmRaised => Unchanged(df)
      case Reply(calls) =>
        if calls == [] then Unchanged(df)
        else
          RunCallRows(calls[0], df, registry, nf, other);
          RunCall(calls[0], df, registry, nf, other)
  }

  /** When every registered tool is the keyword search, a call returns only
      input rows. */
  lemma RunCallRows(call: ToolCall, df: Frame, registry: ToolRegistry, nf: string -> string, other: OtherTool)
    ensures (forall name :: name in registry.tools ==> registry.tools[name] == KeywordSearch) ==>
      forall row :: row in RunCall(call, df, registry, nf, other).frame.rows ==> row in df.rows
  {
  }

  /** Only the first tool call counts: two replies that start with the same
      call give the same result. */
  lemma LegacyFirstCallOnly(question: string, df: Frame, context: seq<(string, string)>, registry: ToolRegistry,
                            llm1: LlmRequest -> LlmReply, llm2: LlmRequest -> LlmReply, nf: string -> string, other: OtherTool,
                            call: ToolCall, rest1: seq<ToolCall>, rest2: seq<ToolCall>)
    requires registry.Valid()
    requires llm1(LegacyRequest(question, context, registry)) == Reply([call] + rest1)
    requires llm2(LegacyRequest(question, context, registry)) == Reply([call] + rest2)
    ensures SelectAndExecuteLegacy(question, df, context, registry, llm1, nf, other) ==
      SelectAndExecuteLegacy(question, df, context, registry, llm2, nf, other)
  {
    assert ([call] + rest1)[0] == call;
    assert ([call] + rest2)[0] == call;
  }

  /** The legacy fallbacks: an LLM that raises or chooses no tool, arguments
      that are not JSON, or a name not in the registry. */
  lemma LegacyFallsBack(question: string, df: Frame, context: seq<(string, string)>, registry: ToolRegistry,
                        llm: LlmRequest -> LlmReply, nf: string -> string, other: OtherTool)
    requires registry.Valid()
    ensures var reply := llm(LegacyRequest(question, context, registry));
      reply.LlmRaised? || reply.toolCalls == [] ||
      reply.toolCalls[0].arguments.None? || reply.toolCalls[0].name !in registry.tools ==>
        SelectAndExecuteLegacy(question, df, context, registry, llm, nf, other) == Unchanged(df)
  {
  }

  /** A first call naming the registered keyword search runs it on the
      call's keywords, with `top_n` 3 unless the call gives one. */
  lemma LegacyRunsKeywordSearch(question: string, df: Frame, context: seq<(string, string)>, registry: ToolRegistry,
                                llm: LlmRequest -> LlmReply, nf: string -> string, other: OtherTool,
                                keywords: seq<string>, topN: Option<nat>, rest: seq<ToolCall>)
    requires registry.Valid()
    requires KeywordSearchName in registry.tools && registry.tools[KeywordSearchName] == KeywordSearch
    requires llm(LegacyRequest(question, context, registry)) ==
      Reply([ToolCall(KeywordSearchName, Some(Args(Some(keywords), topN)))] + rest)
    ensures SelectAndExecuteLegacy(question, df, context, registry, llm, nf, other) ==
      LemmaSearch.Execute(df, keywords, OrDefault(topN, 3), nf)
  {
    var call := ToolCall(KeywordSearchName, Some(Args(Some(keywords), topN)));
    assert KeywordSearchName in registry.names;
    assert |registry.GetAllSchemas()| > 0;
    assert ([call] + rest)[0] == call;
    assert registry.GetTool(KeywordSearchName) == Some(KeywordSearch);
    assert RunCall(call, df, registry, nf, other) == LemmaSearch.Execute(df, keywords, OrDefault(topN, 3), nf);
  }

  /** The fixed part of the system prompt: the role, then the duty. */
  const Role: string := "Ты — эксперт по анализу данных."
  const Duty: string := " Твоя задача — на основе вопроса пользователя выбрать наиболее подходящий инструмент и извлечь из вопроса аргументы для его выполнения."
  const BasePrompt: string := Role + Duty

  const ContextLead: string := " Контекст запроса:"

  /** One context entry, as `f"{k}: {v}"`. */
  function ContextEntry(kv: (string, string)): string {
    kv.0 + ": " + kv.1
  }

  /** `" ".join(...)` of the context entries, in the order they were given. */
  function Context(context: seq<(string, string)>): string {
    Join(Apply(context, ContextEntry))
  }

  /** `_build_system_prompt`. */
  function BuildSystemPrompt(context: seq<(string, string)>): (r: string)
    ensures NoOuterSpace(r)
  {
    LeadShape();
    StripAfterLead(BasePrompt + ContextLead, Context(context));
    Strip(BasePrompt + ContextLead + " " + Context(context))
  }

  /** The base prompt and lead have no whitespace at either end. */
  lemma LeadShape()
    ensures BasePrompt + ContextLead != [] && NoOuterSpace(BasePrompt + ContextLead)
  {
    assert Role[0] == 'Т';
    var lead := BasePrompt + ContextLead;
    assert lead[0] == Role[0];
  }

  /** The prompt always starts with the base prompt and the context lead, and
      has no outer whitespace; only trailing whitespace of the context is
      lost, so a context that does not end in whitespace is kept whole, and
      an empty context leaves the lead's colon last. */
  lemma PromptShape(context: seq<(string, string)>)
    ensures BasePrompt + ContextLead <= BuildSystemPrompt(context)
    ensures NoOuterSpace(BuildSystemPrompt(context))
    ensures Context(context) == [] ==> BuildSystemPrompt(context) == BasePrompt + ContextLead
    ensures Context(context) != [] && !IsSpace(Context(context)[|Context(context)| - 1]) ==>
      BuildSystemPrompt(context) == BasePrompt + ContextLead + " " + Context(context)
  {
    LeadShape();
    StripAfterLead(BasePrompt + ContextLead, Context(context));
  }

  /** Stripping a string that starts with a lead without outer whitespace,
      followed by a space and a tail, keeps the lead and loses only the
      tail's trailing whitespace. */
  lemma StripAfterLead(lead: string, tail: string)
    requires lead != [] && NoOuterSpace(lead)
    ensures lead <= Strip(lead + " " + tail)
    ensures NoOuterSpace(Strip(lead + " " + tail))
    ensures tail == [] ==> Strip(lead + " " + tail) == lead
    ensures tail != [] && !IsSpace(tail[|tail| - 1]) ==> Strip(lead + " " + tail) == lead + " " + tail
  {
    var s := lead + " " + tail;
    assert s[0] == lead[0];
    assert TrimStart(s, IsSpace) == s;
    var r := TrimEnd(s, IsSpace);
    assert s[|lead| - 1] == lead[|lead| - 1];
    assert lead <= r;
    StripNoOuterSpace(s);
    if tail == [] {
      assert s[..|s| - 1] == lead;
    }
  }
}
