/** Keyword extraction for the simple tool selector
    (app/tools/tool_selector.py, `SimpleToolSelector`).

    The LLM is asked, through a forced function call, for the keywords of a
    question; when it gives no call or anything raises, a stop-word filter
    over the question's words is used instead. */
module Selector {
  import opened Wrappers
  import opened Seqs
  import opened Text
  import opened Registry
  import opened Executor

  const StopWords: set<string> :=
    {"что", "как", "где", "когда", "почему", "какие", "для", "в", "на", "с", "по", "и", "или"}

  /** The characters stripped from both ends of a kept word. */
  predicate IsPunctuation(c: char) {
    c == '.' || c == ',' || c == '!' || c == '?' || c == '"' || c == ';' ||
    c == '(' || c == ')' || c == '[' || c == ']' || c == '{' || c == '}'
  }

  /** `len(word) > 2 and word not in stop_words`, checked on the word before
      any punctuation is stripped. */
  predicate Significant(word: string) {
    |word| > 2 && word !in StopWords
  }

  /** `word.strip('.,!?";()[]{}')`. */
  function StripPunctuation(word: string): string {
    Trim(word, IsPunctuation)
  }

  /** The stripped significant words of the lower-cased question, in order. */
  function Candidates(question: string): seq<string> {
    Apply(Where(Words(Lower(question)), Significant), StripPunctuation)
  }

  /** `_extract_simple_keywords`: the first three candidates. */
  function ExtractSimpleKeywords(question: string): (r: seq<string>)
    ensures |r| <= 3 && r <= Candidates(question)
    ensures |r| < 3 ==> r == Candidates(question)
  {
    var c := Candidates(question);
    if |c| <= 3 then c else c[..3]
  }

  /** At most three keywords come back: the stripped forms of the first
      three significant words of the lower-cased question, in order. */
  lemma SimpleKeywordsSelect(question: string)
    ensures var ks := ExtractSimpleKeywords(question);
      var significant := Where(Words(Lower(question)), Significant);
      && |ks| <= 3
      && |ks| == (if |significant| <= 3 then |significant| else 3)
      && forall k :: 0 <= k < |ks| ==> ks[k] == StripPunctuation(significant[k])
  {
    var significant := Where(Words(Lower(question)), Significant);
    var c := Apply(significant, StripPunctuation);
    assert Candidates(question) == c;
  }

  /** Each keyword comes from a word of the lower-cased question that is
      longer than two characters and not a stop word; it has no whitespace
      and neither starts nor ends with punctuation. */
  lemma SimpleKeywordsWords(question: string)
    ensures var ks := ExtractSimpleKeywords(question);
      var significant := Where(Words(Lower(question)), Significant);
      forall k :: 0 <= k < |ks| ==>
        && significant[k] in Words(Lower(question))
        && |significant[k]| > 2 && significant[k] !in StopWords
        && NoSpace(ks[k])
        && (ks[k] == [] || (!IsPunctuation(ks[k][0]) && !IsPunctuation(ks[k][|ks[k]| - 1])))
  {
    var words := Words(Lower(question));
    var significant := Where(words, Significant);
    SimpleKeywordsSelect(question);
    forall k | 0 <= k < |significant|
      ensures significant[k] in words && Significant(significant[k])
      ensures NoSpace(StripPunctuation(significant[k]))
      ensures var t := StripPunctuation(significant[k]);
        t == [] || (!IsPunctuation(t[0]) && !IsPunctuation(t[|t| - 1]))
    {
      WhereMembers(words, Significant, significant[k]);
      StrippedWord(significant[k]);
    }
  }

  /** Stripping punctuation from a word keeps it free of whitespace and
      leaves no punctuation at either end. */
  lemma StrippedWord(w: string)
    ensures NoSpace(w) ==> NoSpace(StripPunctuation(w))
    ensures var t := StripPunctuation(w); t == [] || (!IsPunctuation(t[0]) && !IsPunctuation(t[|t| - 1]))
  {
    TrimEnds(w, IsPunctuation);
    TrimInside(w, IsPunctuation);
  }

  /** The stop-word test sees the word with its punctuation: `что?` is
      not a stop word and is kept, stripped to `что`, which is one. */
  lemma StopWordWithPunctuationKept()
    ensures "что" in StopWords
    ensures ExtractSimpleKeywords("Что?") == ["что"]
  {
    LowerExample();
    WordsExample();
    SignificantExample();
    StripExample();
    assert Where(["что?"], Significant) == ["что?"];
    assert Apply(["что?"], StripPunctuation) == ["что"];
  }

  lemma LowerExample() ensures Lower("Что?") == "что?" {
    assert LowerChar('Ч') == 'ч';
  }
  lemma WordsExample() ensures Words("что?") == ["что?"] {
    assert TakeWord("что?") == "что?";
  }
  lemma SignificantExample() ensures Significant("что?") {
  }
  lemma StripExample() ensures StripPunctuation("что?") == "что" {
    assert TrimStart("что?", IsPunctuation) == "что?";
    assert TrimEnd("что?", IsPunctuation) == "что";
  }

  /** A word made only of punctuation is long enough to be kept and strips
      to the empty string. */
  lemma PunctuationOnlyWordGivesEmpty()
    ensures ExtractSimpleKeywords("(?)") == [""]
  {
    assert Lower("(?)") == "(?)";
    assert TakeWord("(?)") == "(?)";
    assert Words("(?)") == ["(?)"];
    assert Where(["(?)"], Significant) == ["(?)"];
    assert TrimStart("(?)", IsPunctuation) == "";
  }

  const SystemPrompt: string := "Ты эксперт по анализу рисков проектов. Извлеки ключевые слова из вопроса пользователя для поиска релевантных рисков."

  /** The one tool offered, and required, in the request. */
  const FilterToolName: string := "filter_risks_by_keywords"

  function KeywordsRequest(question: string): LlmRequest {
    LlmRequest(SystemPrompt, "Вопрос: " + question, [Schema(Some(FilterToolName))])
  }

  /** `extract_keywords`: the `keywords` argument of the first tool call
      (`[]` when the call has none); without a call, or when the LLM raises or
      the arguments are not JSON, the simple extraction. More than three
      keywords can only come from the LLM's call. */
  function ExtractKeywords(question: string, llm: LlmRequest -> LlmReply): (r: seq<string>)
    ensures |r| > 3 ==>
      var reply := llm(KeywordsRequest(question));
      reply.Reply? && reply.toolCalls != [] && reply.toolCalls[0].arguments.Some?
  {
    match llm(KeywordsRequest(question))
    case LlmRaised => ExtractSimpleKeywords(question)
    case Reply(calls) =>
      if calls == [] then ExtractSimpleKeywords(question)
      else
        match calls[0].arguments
        case None => ExtractSimpleKeywords(question)
        case Some(args) => if args.keywords.Some? then args.keywords.value else []
  }

  /** The fallbacks and the call path of `extract_keywords`: the simple
      extraction exactly when there is no usable first call, and otherwise
      the call's keywords, an absent argument giving `[]` rather than the
      fallback. */
  lemma ExtractKeywordsCases(question: string, llm: LlmRequest -> LlmReply)
    ensures var reply := llm(KeywordsRequest(question));
      reply.LlmRaised? || reply.toolCalls == [] || reply.toolCalls[0].arguments.None? ==>
        ExtractKeywords(question, llm) == ExtractSimpleKeywords(question)
    ensures var reply := llm(KeywordsRequest(question));
      reply.Reply? && reply.toolCalls != [] && reply.toolCalls[0].arguments.Some? ==>
        ExtractKeywords(question, llm) ==
          (var args := reply.toolCalls[0].arguments.value;
           if args.keywords.Some? then args.keywords.value else [])
  {
  }
}
