# dup_ai core, modelled in Dafny

This project models the data-handling core of dup_ai. dup_ai is a service that answers questions about projects: their risks, contractors, errors and processes. For each question it loads a spreadsheet of the relevant kind and normalises it. It picks the entity the question is about, filters the table down to that entity, and can narrow the rows further with keyword search.

The core modelled here:

- **Frames** (`frames.dfy`): a pandas `DataFrame` as a value.
  - A frame is a list of columns, each with a name and whether it has the `object` dtype, and rows, each with an index label and one cell per column.
  - A cell is a string, an integer or a missing value.
  - `Table` is the mutable table object that the in-place cleaners update.
  - `MapColumnsBefore` describes the state after a loop of `df[col] = g(df[col])` over the first `n` columns.
- **Relevance and ranking** (`relevance.dfy`, `ranking.dfy`):
  - The relevance score is the fraction of the keywords found in the text, computed exactly as a `real`.
  - `nlargest` is modelled as a stable descending sort followed by a prefix.
- **Keyword tools**:
  - `keyword_filter.dfy`: the plain `filter_risks_by_keywords`.
  - `keyword_search_tool.dfy`: the lemmatising `KeywordSearchTool.execute`.
- **Tool machinery**:
  - `registry.dfy`: the tool registry, a class over an insertion-ordered dictionary.
  - `tool_executor.dfy`: the tool executor, covering both selection paths and the system prompt.
  - `toolsets.dfy`: the named tool sets and their combination.
  - `tool_selector.dfy`: the simple tool selector's keyword extraction.
- **Classification** (`classifier.dfy`): `load_items` stores the vocabulary, `classify` picks the best-scored item, and `filter_items` filters rows ignoring case.
- **Loading and normalisation**:
  - `excel_loader.dfy`: choosing the file, the missing-file check, and the in-place `_x000D_`, quote and whitespace cleaning.
  - `normalization.dfy`: the column rename and the in-place whitespace normalisation of `clean_df`.
- **Risks pipeline** (`risks_pipeline.dfy`): the category pre-filter, the `Risk` record built from a row, and the context line.
- **Dependency container** (`container.dfy`): `register`, `register_factory`, `get` and `clear`.

External services are parameters of the functions that use them:

- The LLM is a function from request to reply.
- KeyBERT is a function from request to keywords or an exception.
- The `pymorphy3` lemmatiser is a function from a word to its normal form.
- The classification prompt builder is a function that may raise.
- A tool other than the keyword search is a function from arguments to a result.
- The file-existence check and `pd.read_excel` are parameters of `Load`.

## Model

| member | source | states |
|---|---|---|
| Relevance.CalculateRelevanceScore | app/tools/base_tool.py:29-50 | The counting loop returns exactly `Score`: 0 for an empty text or no keywords, otherwise matched keywords divided by the number of keywords. |
| Relevance.Score | app/tools/base_tool.py:29-50 | The relevance score lies in [0, 1], as the docstring promises. |
| Relevance.ScoreOne | app/tools/base_tool.py:44-50 | The score is 1 iff the text is non-empty, there are keywords, and every keyword is non-blank after lower-casing and stripping and occurs in the lower-cased text. |
| Relevance.BlankKeywordDilutes | app/tools/base_tool.py:45-50 | A keyword that is blank after stripping never matches but still counts in the denominator. |
| Relevance.DuplicatesCountTwice | app/tools/base_tool.py:44-50 | Repeating the keyword list doubles the match count and leaves the score unchanged. |
| Relevance.ScoreMonotone | app/tools/base_tool.py:44-50 | A text in which every keyword found in another text is also found scores at least as high. |
| Relevance.ScoreIgnoresTextCase | app/tools/base_tool.py:41 | Lower-casing the text first does not change the score. |
| Relevance.MatchesIgnoreKeywordCase | app/tools/base_tool.py:45 | Lower-casing the keywords first does not change the match count. |
| Ranking.TopSpec | app/tools/keyword_search_tool.py:37-45 | The selection is ranked (higher score first, ties in row order) and has length min(n, number of positive rows). Each entry is a positive-scoring row with its own score. Every positive row left out ranks after every row kept. |
| Ranking.TopEmpty | app/tools/keyword_search_tool.py:37-45 | Nothing is selected iff n is 0 or no row scores above zero. |
| Ranking.TopLeavesOut | app/tools/keyword_search_tool.py:45 | If a positive-scoring row is left out, exactly n rows were kept, each scoring at least as high. |
| Ranking.TopShort | app/tools/keyword_search_tool.py:45 | A selection shorter than n holds every positive-scoring row. |
| Ranking.CandidatesSpec | app/tools/keyword_search_tool.py:37 | The `score > 0` mask keeps exactly the positive-scoring rows with their scores, in row order. |
| Ranking.Top | app/tools/keyword_search_tool.py:45 | `nlargest(n)` keeps at most n rows and never more than the table has. |
| KeywordFilter.CellScore | app/tools/keyword_search_tool.py:61-64 | The score of a cell lies in [0, 1], and for a string it is the relevance score of that string. A missing value is scored as the text "nan". |
| KeywordFilter.FilterFallsBack | app/tools/keyword_search_tool.py:20-42 | The result is the untouched `head(top_n)` iff the table is empty, there are no keywords, `risk_text` is missing, or every row scores 0. |
| KeywordFilter.FilterMatchRows | app/tools/keyword_search_tool.py:31-49 | On the match path the result keeps the input's columns and holds at most top_n input rows scoring above zero, each with its own score. They are ordered by score descending, ties in input order. |
| KeywordFilter.FilterMatchLeavesOut | app/tools/keyword_search_tool.py:45 | A positive row left out means top_n rows were returned, each scoring at least as high. |
| KeywordFilter.FilterRisksByKeywords | app/tools/keyword_search_tool.py:11-49 | Every path keeps the input's columns and returns at most top_n of the input's own rows. On the match path there is one relevance per returned row, each in (0, 1]. |
| LemmaSearch.LemmatizeShape | app/tools/implementations/_shared/keyword_search_tool.py:22-33 | When every normal form is a non-empty word, the lemmatised text has no outer whitespace and single spaces only. |
| LemmaSearch.LemmatizeIdempotent | app/tools/implementations/_shared/keyword_search_tool.py:22-33 | With an idempotent lemmatiser yielding lower-case letters and digits, lemmatising twice equals lemmatising once. |
| LemmaSearch.YoSplitsWords | app/tools/implementations/_shared/keyword_search_tool.py:30 | `ё` is outside `а-я`, so "ёж" is looked up as "ж". |
| LemmaSearch.LemmatizeCell | app/tools/implementations/_shared/keyword_search_tool.py:26-27 | A value that is not a string lemmatises to "". |
| LemmaSearch.LemmatizeText | app/tools/implementations/_shared/keyword_search_tool.py:22-33 | The lemmatised text is made of spaces and characters of some normal form given by the lemmatiser. |
| LemmaSearch.KeywordsDropEmpty | app/tools/implementations/_shared/keyword_search_tool.py:82 | An empty keyword at any position of the list is dropped: removing it leaves the lemmatised keywords unchanged. |
| LemmaSearch.KeywordsKept | app/tools/implementations/_shared/keyword_search_tool.py:82 | There are as many lemmatised keywords as non-empty keywords. The i-th is the lemmatised i-th non-empty keyword, and a string is among them iff it lemmatises some non-empty keyword. |
| LemmaSearch.RowRelevance | app/tools/implementations/_shared/keyword_search_tool.py:88-96 | A row's relevance is the score of its lemmatised `risk_text` against the lemmatised keywords, and lies in [0, 1]. |
| LemmaSearch.ExecuteExits | app/tools/implementations/_shared/keyword_search_tool.py:69-77 | An empty table or keyword list gives `head(top_n)` with no scores. A missing `risk_text` column gives an empty table with no scores. |
| LemmaSearch.ExecuteNoMatch | app/tools/implementations/_shared/keyword_search_tool.py:98-102 | With no row relevant, the result is `head(top_n)` with no scores. |
| LemmaSearch.MatchPath | app/tools/implementations/_shared/keyword_search_tool.py:98-112 | On the match path the selection is ranked, at most top_n long, made of distinct positive rows with their relevance, and `execute` returns their lookup. |
| LemmaSearch.Execute | app/tools/implementations/_shared/keyword_search_tool.py:60-112 | `execute` returns only rows of the input table, and scores only labels that rows of the input carry. |
| LemmaSearch.ExecuteRanking | app/tools/implementations/_shared/keyword_search_tool.py:104 | The kept rows number at most top_n, score in (0, 1], and are ordered by relevance descending, ties in input order. |
| LemmaSearch.ExecuteResult | app/tools/implementations/_shared/keyword_search_tool.py:104-112 | On the match path `execute` keeps the input's columns. It returns exactly the input rows carrying a kept label. The score dictionary's keys are exactly the kept labels, and a label maps to the relevance of the last kept row carrying it (`to_dict` keeps the last value of a repeated label). |
| LemmaSearch.ExecuteRows | app/tools/implementations/_shared/keyword_search_tool.py:112 | With unique index labels, `df.loc` returns exactly the kept rows in rank order. |
| LemmaSearch.MatchedScores | app/tools/implementations/_shared/keyword_search_tool.py:107-112 | The lookup keeps the input's columns and returns exactly the input rows carrying a kept label. The score dictionary's keys are exactly the kept labels, each mapped to the score of the last kept entry with that label. |
| LemmaSearch.MatchedRows | app/tools/implementations/_shared/keyword_search_tool.py:112 | With unique labels and distinct kept positions, the lookup returns exactly the kept rows, in rank order. |
| LemmaSearch.Matched | app/tools/implementations/_shared/keyword_search_tool.py:107-112 | The lookup keeps the input's columns and returns the input rows carrying a kept label and no others. Its score keys are exactly the kept labels. |
| Frames.LocOfDistinct | app/tools/implementations/_shared/keyword_search_tool.py:112 | With unique labels, `df.loc[labels of some rows]` gives back those rows, in label order. |
| Registry.NameOf | app/tools/registry.py:31-37 | A registered name is non-empty and is the one the schema gives. |
| Registry.ToolRegistry.constructor | app/tools/registry.py:17-27 | A new registry holds exactly the keyword search tool under `search_by_keywords`. |
| Registry.ToolRegistry.RegisterTool | app/tools/registry.py:29-45 | A tool without a usable name is ignored. Otherwise it is stored under its name, replacing any earlier one, which keeps its place in order. Other names are unaffected, and the registry invariant is kept. |
| Registry.ToolRegistry.GetTool | app/tools/registry.py:47-54 | A tool is returned iff its name is registered. |
| Registry.ToolRegistry.GetAllSchemas | app/tools/registry.py:56-62 | One schema per registered name, in registration order, each naming its key. |
| Executor.ExtractKeywords | app/tools/tool_executor.py:77-96 | Seven single-word keywords are requested; an extractor exception gives none. |
| Executor.BlankQuestionNoKeywords | app/services/keybert_service.py:49-51 | An extractor that, like KeyBERT, returns no keywords for blank text gives no keywords for a blank question. |
| Executor.SelectAndExecute | app/tools/tool_executor.py:31-75 | With such an extractor, a blank question gives the input table unchanged with no scores. With the keyword search registered under its name, only input rows are returned. |
| Executor.SelectFallsBack | app/tools/tool_executor.py:46-75 | No keywords, no `search_by_keywords` tool, or a raising tool each give the input table with no scores. |
| Executor.SelectRunsKeywordSearch | app/tools/tool_executor.py:55-71 | On a registry holding the keyword search under `search_by_keywords`, with keywords, the result is the keyword search's, with top_n 5 unless given. |
| Executor.SelectFindsRows | app/tools/tool_executor.py:31-75 | End to end, with unique labels and a relevant row: the result is exactly the ranked kept rows, at most five by default, with a score for each of their labels. |
| Executor.LegacyFirstCallOnly | app/tools/tool_executor.py:130-138 | Only the first tool call matters: replies that start with the same call give the same result. |
| Executor.LegacyFallsBack | app/tools/tool_executor.py:123-154 | An LLM that raises or chooses no tool, unparsable arguments, or an unknown tool name give the input unchanged. |
| Executor.LegacyRunsKeywordSearch | app/tools/tool_executor.py:112-150 | A first call naming the keyword search runs it on the call's keywords with top_n 3 unless given. |
| Executor.SelectAndExecuteLegacy | app/tools/tool_executor.py:98-154 | When every registered tool is the keyword search, only rows of the input table are returned, whatever the LLM replies. |
| Executor.BuildSystemPrompt | app/tools/tool_executor.py:156-164 | The system prompt has no leading or trailing whitespace, since it is stripped. |
| Executor.PromptShape | app/tools/tool_executor.py:156-164 | The prompt starts with the base text and the context lead and has no outer whitespace. An empty context leaves the lead's colon last. A context not ending in whitespace is kept whole. |
| ToolSets.Combine | app/tools/common_toolsets.py:73-93 | The nested loop returns `Combined`: the de-duplicated concatenation of the sets. |
| ToolSets.Extend | app/tools/common_toolsets.py:95-110 | `extend(base, additional)` is the de-duplicated `base + additional`. |
| ToolSets.Combined | app/tools/common_toolsets.py:73-93 | The combination has no duplicates. |
| ToolSets.CombinedMembers | app/tools/common_toolsets.py:88-93 | A name is in the combination iff it is in some argument set. |
| ToolSets.CombinedOrder | app/tools/common_toolsets.py:88-93 | Names appear in order of their first occurrence across the sets in argument order. |
| ToolSets.CombinedSingle | app/tools/common_toolsets.py:73-93 | A duplicate-free set combines to itself. |
| ToolSets.CombinedIdempotent | app/tools/common_toolsets.py:73-93 | Combining a combination again changes nothing. |
| ToolSets.Lookup | app/tools/common_toolsets.py:119-126 | Building the dictionary succeeds iff every named attribute exists; its keys are the names and its values the attributes. |
| ToolSets.AvailableToolSetsAsWrittenRaises | app/tools/common_toolsets.py:112-126 | As written, `get_available_toolsets` always raises, because `MINIMAL` is not defined. |
| ToolSets.AvailableToolSetsListsAll | app/tools/common_toolsets.py:112-124 | Without `MINIMAL` it returns each of the six defined sets under its own name. |
| ToolSets.AvailableToolSetsAsWritten | app/tools/common_toolsets.py:112-126 | The dictionary is built iff every listed attribute is defined, and then its keys are exactly the listed names. |
| ToolSets.AvailableToolSets | app/tools/common_toolsets.py:112-124 | With the undefined name dropped, the same holds of the six defined sets. |
| Selector.SimpleKeywordsSelect | app/tools/tool_selector.py:81-95 | At most three keywords: the punctuation-stripped forms of the first three significant words of the lower-cased question, in order. |
| Selector.SimpleKeywordsWords | app/tools/tool_selector.py:89-93 | Each keyword comes from a word longer than two characters that is not a stop word. It has no whitespace and no punctuation at either end. |
| Selector.StopWordWithPunctuationKept | app/tools/tool_selector.py:92-93 | The stop-word test sees the unstripped word: "Что?" gives ["что"]. |
| Selector.PunctuationOnlyWordGivesEmpty | app/tools/tool_selector.py:92-93 | A word of only punctuation is kept and strips to "". |
| Selector.ExtractKeywordsCases | app/tools/tool_selector.py:24-79 | The simple extraction is used exactly when the LLM raises, makes no call, or gives unparsable arguments; otherwise the call's keywords, `[]` when absent. |
| Selector.ExtractSimpleKeywords | app/tools/tool_selector.py:81-95 | At most three keywords, a prefix of the significant words. Fewer than three means every significant word was taken. |
| Selector.ExtractKeywords | app/tools/tool_selector.py:24-79 | More than three keywords can only come from the LLM's first tool call with parsed arguments; the simple fallback gives at most three. |
| Classifier.BestIndex | app/services/base_classifier.py:115 | The chosen item has a maximal score and every earlier item scores strictly lower: the first maximum. |
| Classifier.ClassifierService.LoadItems | app/services/base_classifier.py:56-81 | With the column, its vocabulary is stored and returned; without it, `[]` is returned and `items_list` is unchanged. |
| Classifier.VocabularyMembers | app/services/base_classifier.py:68-71 | The vocabulary has no repeats and holds exactly the column's non-empty strings. |
| Classifier.VocabularyOrder | app/services/base_classifier.py:68 | Vocabulary items appear in order of first occurrence. |
| Classifier.VocabularyIsDedup | app/services/base_classifier.py:68-71 | `dropna`, `unique` and the string filter commute: the vocabulary is the de-duplicated list of non-empty strings. |
| Classifier.Vocabulary | app/services/base_classifier.py:68-71 | The vocabulary has no repeats and no empty string. |
| Classifier.ClassifierService.ClassifyWithoutItems | app/services/base_classifier.py:92-94 | With no items, `classify` gives "" whatever the prompt builder and backend do. |
| Classifier.ClassifierService.ClassifyPicksBest | app/services/base_classifier.py:101-125 | A non-empty score map gives its first highest-scored item; every other backend answer gives "". |
| Classifier.ClassifierService.ClassifyNotCheckedAgainstItems | app/services/base_classifier.py:108-118 | The chosen item is not checked against `items_list`: an item never loaded is returned. |
| Classifier.ClassifierService.Classify | app/services/base_classifier.py:83-125 | It fails iff there are items and the prompt builder raises. A non-empty answer is an item the backend scored. |
| Classifier.ClassifierService.FilterItemsFallsBack | app/services/base_classifier.py:138-145 | An empty value or a missing column gives the whole table with no scores. |
| Classifier.ClassifierService.FilterItemsRows | app/services/base_classifier.py:148-159 | Exactly the rows whose cell equals the value ignoring case are kept, in order, under the input's columns, each labelled row scored 1.0. With none the result is an empty table. |
| Classifier.ClassifierService.FilterItemsIdempotent | app/services/base_classifier.py:148-159 | Filtering the result again by the same value changes nothing. |
| Classifier.ClassifierService.FilterItems | app/services/base_classifier.py:127-159 | A success holds only input rows, each score 1.0. A failure needs a non-empty value and an existing column. |
| Normalization.NormalizeTextShape | app/services/base_normalization.py:52-54 | A normalised string has no outer whitespace, and each whitespace character is a single space between non-spaces. |
| Normalization.NormalizeTextIdempotent | app/services/base_normalization.py:52-54 | Normalising twice equals normalising once. |
| Normalization.NormalizeText | app/services/base_normalization.py:52-54 | Normalising never lengthens a string. |
| Normalization.NormalizeCellValues | app/services/base_normalization.py:50-54 | Every cleaned cell is a string. A missing value becomes "" and a number its decimal text. A string already in normal form is kept. |
| Normalization.NormalizeCellIdempotent | app/services/base_normalization.py:50-54 | Cell normalisation is idempotent. |
| Normalization.RenamePresentOnly | app/services/base_normalization.py:41 | Restricting the mapping to present columns renames exactly as the whole mapping would: a column named by a key takes its value, the others keep their names. |
| Normalization.NormalizationService.CleanDf | app/services/base_normalization.py:28-60 | The rename and the column loop leave `Normalized(old table)` in the same table object, which is returned. |
| Normalization.NormalizationService.AdditionalProcessing | app/services/base_normalization.py:62-70 | The base hook returns the table unchanged. |
| Normalization.NormalizedShape | app/services/base_normalization.py:41-57 | Row count, labels, cell counts and column order and dtypes are kept; only columns named by a mapping key are renamed, to its value. |
| Normalization.NormalizedCells | app/services/base_normalization.py:47-54 | An object-column cell becomes a string without outer or doubled whitespace ("" if missing); other columns are untouched. |
| Normalization.NormalizedIdempotent | app/services/base_normalization.py:28-60 | With a mapping whose new names are not old names, `clean_df` on its own output changes nothing. |
| Normalization.Normalized | app/services/base_normalization.py:28-60 | The column and row counts are kept, and each row keeps its label and its number of cells. |
| ExcelLoader.FileDescriptionNamesKind | app/adapters/excel_loader.py:98-110 | RISKS, ERRORS and PROCESSES each have their own file and description. Anything else, `None` included, gives the contractors' file. |
| ExcelLoader.FilePathAndDescription | app/adapters/excel_loader.py:91-110 | The path is one of the four configured files and the description is non-empty. |
| ExcelLoader.Loader.CleanDataframe | app/adapters/excel_loader.py:64-89 | The column loop succeeds iff every object column accepts `.str`, and then leaves `Cleaned(old table)` in the same object. |
| ExcelLoader.Loader.Load | app/adapters/excel_loader.py:23-62 | A missing file fails with the not-found message, whatever the reader would do. A read or clean error fails with the load message. Otherwise a new table holds the cleaned contents. |
| ExcelLoader.CleanTextShape | app/adapters/excel_loader.py:79-88 | A cleaned string has no `"`, no outer whitespace, and only characters of the original. |
| ExcelLoader.CleanText | app/adapters/excel_loader.py:79-88 | Cleaning never lengthens a string. |
| ExcelLoader.Cleaned | app/adapters/excel_loader.py:64-89 | The columns and row count are kept, and each row keeps its label and its number of cells. |
| ExcelLoader.CleanedCells | app/adapters/excel_loader.py:73-88 | In an object column a string is cleaned and any other value becomes missing; other columns are untouched. |
| ExcelLoader.ArtefactRemovedOnce | app/adapters/excel_loader.py:79 | The artefact is removed in one pass: "_x00_x000D_0D_" cleans to "_x000D_", and cleaning again gives "", so cleaning is not idempotent. |
| ExcelLoader.QuoteInsideArtefactKept | app/adapters/excel_loader.py:79-85 | The order matters: "_x000\"D_" cleans to "_x000D_", because the quote is removed only after the artefact pass. |
| RisksPipeline.PreProcessKeepsCategory | app/pipelines/risks_pipeline.py:83-88 | With a category, the result keeps exactly the rows whose `project_type` is that string (case-sensitive), in order, under the same columns; no match gives an empty table, not an error. |
| RisksPipeline.PreProcessWithoutCategory | app/pipelines/risks_pipeline.py:76-80 | Without a category the table is returned unchanged. |
| RisksPipeline.PreProcessIdempotent | app/pipelines/risks_pipeline.py:83 | Filtering the result again by the same category changes nothing. |
| RisksPipeline.PreProcess | app/pipelines/risks_pipeline.py:68-88 | It fails iff a non-empty category is given and `project_type` is missing. A success keeps the columns and holds only input rows. |
| RisksPipeline.CreateModelInstance | app/pipelines/risks_pipeline.py:50-58 | The record is built iff each of the five string fields reads as a string (or is absent). |
| RisksPipeline.CreateModelFields | app/pipelines/risks_pipeline.py:50-58 | Each field is copied with `''` as the default, `project_id` is stringified, and the relevance score passes through. |
| RisksPipeline.ProjectIdPrinted | app/pipelines/risks_pipeline.py:51 | A numeric `project_id` n, of any sign, is stored as `Decimal(n)` and a missing one as "nan". |
| Text.DecimalDigits | app/pipelines/risks_pipeline.py:51 | For n ≥ 0, `str(n)` is made of digits, starts with 0 only for 0, and the digits denote n. |
| RisksPipeline.AdditionalContext | app/pipelines/risks_pipeline.py:106-107 | The line starts with "Найдено " and ends with "'.". |
| RisksPipeline.AdditionalContextEmbeds | app/pipelines/risks_pipeline.py:107 | The line holds the filtered row count, then the item, and the category just before its end. |
| DependencyContainer.Container.Register | app/config.py:96-98 | The instance is stored under its key and factories are unchanged. |
| DependencyContainer.Container.RegisterFactory | app/config.py:100-102 | The factory is stored, replacing any earlier one; a cached instance stays. |
| DependencyContainer.Container.Get | app/config.py:104-116 | A stored instance wins and nothing changes. Otherwise the factory is called once and its result cached and returned. With neither, `None` and nothing changes. Each factory is called at most once between clears. |
| DependencyContainer.Container.Clear | app/config.py:118-121 | Both dictionaries become empty. |

## Left out

- Logging, the web layer, settings loading from the environment, and the per-kind subclasses are not modelled. The kinds differ only in a column name or a mapping table, which are parameters here.
- The LLM client, KeyBERT, `pymorphy3` and the prompt templates are parameters. Their internal behaviour is not modelled.
- Floating point: scores are exact rationals (`real`). Numeric cells are integers only.
- Lower-casing covers ASCII and Cyrillic letters only.
- Duplicate column names: a lookup by name takes the first such column. pandas would return a sub-table instead.
- Rows are taken to have one cell per column. A cell past the end of a row reads as missing.
- The forced `tool_choice` of the LLM requests is not part of `LlmRequest`.
- Tool-call arguments are limited to a keyword list and a natural `top_n`. A negative `top_n` is not modelled.
- Context values in the system prompt are strings.
- The `process` override of `RisksPipeline` (lines 120-128) only forwards `risk_category` to `BasePipeline.process`. `BasePipeline` is not part of this model, so neither is the forwarding.
- `_load_classifier_items`, `_filter_data` and `_generate_answer` of `RisksPipeline` call methods the classifier and answer generator do not define here; they are not modelled.
- RisksPipeline.AdditionalContext: the category is taken as its string value. In an f-string a `str`-based enum member gives its value before Python 3.11.
- RisksPipeline.CreateModelInstance: a validation failure carries a short message naming the field, not pydantic's full error text.
- ExcelLoader.Loader.CleanDataframe: when it raises, the columns before the failing one have already been rewritten. The contract does not state the table's contents then, because `load` discards it.
- DependencyContainer.Container.Get: a factory is a pure function here, so two calls would give equal values. The ghost call log records each call to show it happens at most once per key between clears. A factory that raises is not modelled.
- Ranking.TopSpec: when top_n is at least the number of positive rows, pandas' `nlargest` sorts with the default quicksort, which promises no order among equal scores. The model keeps equal scores in row order.
- Classifier.ClassifierService.Classify: a raising prompt builder is a `Failure`. With the prompt builder's signature as shown, the call at base_classifier.py:171-175 would always raise.

## Findings

| source | as written | input that shows it | evidently intended | confidence | as-written member | corrected member |
|---|---|---|---|---|---|---|
| app/tools/common_toolsets.py:125 | `get_available_toolsets` lists `cls.MINIMAL`, which the class does not define | any call | return the defined tool sets by name | not executed | ToolSets.AvailableToolSetsAsWrittenRaises | ToolSets.AvailableToolSetsListsAll |
