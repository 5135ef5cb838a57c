/** The application's three calls to the text model (services/geminiService.ts):
    the labels and the memory context put into the prompts, and what each call
    does before and after the remote request.

    The remote request is not modelled: each operation receives the reply it
    would get, as a `Reply`, and returns the request it would send together
    with its outcome. */
module GeminiService {
  import opened Types
  import opened Text

  // ------------------------------------------------- languages, categories

  /** `getLanguageName`: the English name of a language code. Every code other
      than zh, de and es reads as English. */
  function LanguageName(code: LangCode): (r: string)
    ensures r == "English" <==> code != ZH && code != DE && code != ES
  {
    if code == ZH then "Simplified Chinese"
    else if code == DE then "German"
    else if code == ES then "Spanish"
    else "English"
  }

  /** Different application languages get different names. */
  lemma LanguageNamesDistinct(a: LangCode, b: LangCode)
    requires IsAppLanguage(a) && IsAppLanguage(b) && a != b
    ensures LanguageName(a) != LanguageName(b)
  {
  }

  /** The language the analysis explains itself in: English for a Chinese
      story, Simplified Chinese for any other. */
  function ExplanationLanguage(targetLanguage: LangCode): (r: string)
    ensures r == "English" <==> targetLanguage == ZH
    ensures r != LanguageName(targetLanguage)
  {
    if targetLanguage == ZH then "English" else "Simplified Chinese"
  }

  /** `getCategoryContextLabel`: the prompt header for a memory category; any
      value that is not a category gets the generic header. */
  function CategoryContextLabel(category: Category): (r: string)
    ensures r == "ADDITIONAL CONTEXT" <==> !IsCategory(category)
    ensures r != ""
  {
    if category == CHARACTER then "DRAMATIS PERSONAE (Characters & Traits)"
    else if category == SETTING then "SETTING & ATMOSPHERE (World Building Rules)"
    else if category == PLOT then "PLOT OUTLINE (Required Events)"
    else if category == STYLE then "STYLISTIC INSTRUCTIONS (Tone, Voice, & Constraints)"
    else "ADDITIONAL CONTEXT"
  }

  /** Each category has a header of its own. */
  lemma CategoryLabelsDistinct(a: Category, b: Category)
    requires IsCategory(a) && IsCategory(b) && a != b
    ensures CategoryContextLabel(a) != CategoryContextLabel(b)
  {
  }

  // --------------------------------------------------------- memory context

  /** The fixed text of a memory block around its category header, name and
      details. */
  const NAME_LINE := "]: \n     Name: "
  const DETAILS_LINE := "\n     Details: "

  /** The block one memory item contributes to the prompt: its category's
      header in brackets, then the name, then the description, each at the
      place the template gives it. */
  function MemoryBlock(item: MemoryItem): (r: string)
    ensures var header := CategoryContextLabel(item.category);
      var n := 1 + |header| + |NAME_LINE|;
      var d := n + |item.name| + |DETAILS_LINE|;
      && |r| == d + |item.description|
      && r[..1] == "[" && r[1..1 + |header|] == header && r[1 + |header|..n] == NAME_LINE
      && r[n..n + |item.name|] == item.name
      && r[n + |item.name|..d] == DETAILS_LINE
      && r[d..] == item.description
  {
    BlockLayout("[", CategoryContextLabel(item.category), NAME_LINE, item.name, DETAILS_LINE, item.description);
    "[" + CategoryContextLabel(item.category) + NAME_LINE + item.name + DETAILS_LINE + item.description
  }

  /** Where each of six strings lies in their concatenation. */
  lemma BlockLayout(p0: string, p1: string, p2: string, p3: string, p4: string, p5: string)
    ensures var r := p0 + p1 + p2 + p3 + p4 + p5;
      var n := |p0| + |p1| + |p2|;
      var d := n + |p3| + |p4|;
      && |r| == d + |p5|
      && r[..|p0|] == p0 && r[|p0|..|p0| + |p1|] == p1 && r[|p0| + |p1|..n] == p2
      && r[n..n + |p3|] == p3 && r[n + |p3|..d] == p4 && r[d..] == p5
  {
    var a := p0 + p1;
    var b := a + p2;
    var c := b + p3;
    var e := c + p4;
    var r := e + p5;
    assert r[..|e|] == e && r[|e|..] == p5;
    assert e[..|c|] == c && e[|c|..] == p4;
    assert c[..|b|] == b && c[|b|..] == p3;
    assert b[..|a|] == a && b[|a|..] == p2;
    assert a[..|p0|] == p0 && a[|p0|..] == p1;
  }

  function MemoryBlocks(items: seq<MemoryItem>): (r: seq<string>)
    ensures |r| == |items| && forall k :: 0 <= k < |items| ==> r[k] == MemoryBlock(items[k])
  {
    seq(|items|, k requires 0 <= k < |items| => MemoryBlock(items[k]))
  }

  /** `memoryLibrary.map(...).join('\n\n')`. */
  function MemoryContext(items: seq<MemoryItem>): (r: string)
    ensures items != [] ==> |r| >= |MemoryBlock(items[0])| && r[..|MemoryBlock(items[0])|] == MemoryBlock(items[0])
  {
    Join(MemoryBlocks(items), "\n\n")
  }

  /** The context is empty exactly when the library is. */
  lemma MemoryContextEmpty(items: seq<MemoryItem>)
    ensures MemoryContext(items) == "" <==> items == []
  {
    if items != [] {
      assert MemoryBlocks(items)[0] == MemoryBlock(items[0]);
    }
  }

  /** One block per item, in library order: a library of one item is that
      item's block, and an item added at the end adds its block at the end. */
  lemma MemoryContextAppend(items: seq<MemoryItem>, item: MemoryItem)
    ensures MemoryContext([item]) == MemoryBlock(item)
    ensures items != [] ==> MemoryContext(items + [item]) == MemoryContext(items) + "\n\n" + MemoryBlock(item)
  {
    if items != [] {
      assert MemoryBlocks(items + [item]) == MemoryBlocks(items) + [MemoryBlock(item)];
      JoinAppend(MemoryBlocks(items), MemoryBlock(item), "\n\n");
    }
  }

  const EMPTY_ARCHIVES := "The archives are currently empty."

  /** `memoryContext || "The archives are currently empty."`. */
  function ContextSection(items: seq<MemoryItem>): (r: string)
    ensures items == [] ==> r == EMPTY_ARCHIVES
    ensures items != [] ==> r == MemoryContext(items)
  {
    MemoryContextEmpty(items);
    var context := MemoryContext(items);
    if context == "" then EMPTY_ARCHIVES else context
  }

  /** The fixed lines of `fullPrompt` around its two interpolations. */
  const PROMPT_HEAD := "\n    === MEMORY LIBRARY (MANDATORY CONTEXT) ===\n    "
  const PROMPT_MIDDLE := "\n\n    === USER'S REQUEST (INSPIRATION) ===\n    "
  const PROMPT_TAIL := "\n  "

  /** `fullPrompt`: the context section and the user's request under their
      headings. */
  function StoryPrompt(userPrompt: string, items: seq<MemoryItem>): string {
    PROMPT_HEAD + ContextSection(items) + PROMPT_MIDDLE + userPrompt + PROMPT_TAIL
  }

  /** Both parts can be read back from the prompt: the context section right
      after the first heading, the user's text verbatim between the second
      heading and the closing line. */
  lemma StoryPromptParts(userPrompt: string, items: seq<MemoryItem>)
    ensures var p, c := StoryPrompt(userPrompt, items), ContextSection(items);
      var start := |PROMPT_HEAD| + |c| + |PROMPT_MIDDLE|;
      && |p| == start + |userPrompt| + |PROMPT_TAIL|
      && p[..|PROMPT_HEAD|] == PROMPT_HEAD
      && p[|PROMPT_HEAD|..|PROMPT_HEAD| + |c|] == c
      && p[|PROMPT_HEAD| + |c|..start] == PROMPT_MIDDLE
      && p[start..start + |userPrompt|] == userPrompt
      && p[start + |userPrompt|..] == PROMPT_TAIL
  {
    PromptLayout(PROMPT_HEAD, ContextSection(items), PROMPT_MIDDLE, userPrompt, PROMPT_TAIL);
  }

  /** Where each of five strings lies in their concatenation. */
  lemma PromptLayout(p0: string, p1: string, p2: string, p3: string, p4: string)
    ensures var r := p0 + p1 + p2 + p3 + p4;
      var start := |p0| + |p1| + |p2|;
      && |r| == start + |p3| + |p4|
      && r[..|p0|] == p0
      && r[|p0|..|p0| + |p1|] == p1
      && r[|p0| + |p1|..start] == p2
      && r[start..start + |p3|] == p3
      && r[start + |p3|..] == p4
  {
    var a := p0 + p1;
    var b := a + p2;
    var c := b + p3;
    var r := c + p4;
    assert r[..|c|] == c && r[|c|..] == p4;
    assert c[..|b|] == b && c[|b|..] == p3;
    assert b[..|a|] == a && b[|a|..] == p2;
    assert a[..|p0|] == p0 && a[|p0|..] == p1;
  }

  // ------------------------------------------------------ the remote calls

  /** What the remote call gives back: a rejection with its error message, or
      the reply's text ("" when there is none) together with the outcome of
      `JSON.parse` on it. */
  datatype Reply<T> = CallFailed(message: string) | Replied(text: string, parsed: Result<T>)

  /** The parts of a request that depend on the caller's input; the fixed
      instruction wording around them is not modelled. */
  datatype Request =
    | StoryRequest(contents: string, languageName: string)
    | AnalysisRequest(contents: string, languageName: string, explanationLanguage: string)
    | EnhanceRequest(draft: Draft, languageName: string)

  /** A call's outcome and the request it sent, if it got that far. */
  datatype Call<T> = Call(request: Option<Request>, result: Result<T>)

  /** A story as the model returns it, with "" for a missing or empty field. */
  datatype StoryText = StoryText(title: string, content: string)

  /** A memory entry draft, and the name and description an enhancement
      returns for it. */
  datatype Draft = Draft(category: Category, name: string, description: string)
  datatype Enhanced = Enhanced(name: string, description: string)

  const STORY_KEY_MISSING := "API Key is missing. Please check your environment configuration."
  const KEY_MISSING := "API Key is missing."
  const STORY_SILENT := "The spirit of the quill was silent (No response)."
  const ANALYSIS_FAILED := "Analysis failed."
  const ENHANCE_SILENT := "No response from AI."
  const UNTITLED := "Untitled Chronicle"

  /** The analysis returned when anything inside the analysis call fails. */
  const EMPTY_ANALYSIS := LearningAnalysis([], [])

  /** `generateFictionStory`. Without a key nothing is sent. A rejected call,
      an empty reply and a reply that does not parse are errors; otherwise the
      title falls back to "Untitled Chronicle" and the content to the raw
      reply text, so a story never has an empty title or content. */
  function GenerateFictionStory(apiKey: string, userPrompt: string, memoryLibrary: seq<MemoryItem>,
                                targetLanguage: LangCode, reply: Reply<StoryText>): (r: Call<StoryText>)
    ensures apiKey == "" ==> r == Call(None, Err(STORY_KEY_MISSING))
    ensures apiKey != "" ==> r.request == Some(StoryRequest(StoryPrompt(userPrompt, memoryLibrary), LanguageName(targetLanguage)))
    ensures r.result.Ok? <==> apiKey != "" && reply.Replied? && reply.text != "" && reply.parsed.Ok?
    ensures apiKey != "" && reply.CallFailed? ==> r.result == Err(reply.message)
    ensures apiKey != "" && reply.Replied? && reply.text == "" ==> r.result == Err(STORY_SILENT)
    ensures apiKey != "" && reply.Replied? && reply.text != "" && reply.parsed.Err? ==> r.result == reply.parsed
    ensures r.result.Ok? ==>
      var parsed, story := reply.parsed.value, r.result.value;
      && story.title != "" && story.content != ""
      && (parsed.title != "" ==> story.title == parsed.title)
      && (parsed.title == "" ==> story.title == UNTITLED)
      && (parsed.content != "" ==> story.content == parsed.content)
      && (parsed.content == "" ==> story.content == reply.text)
  {
    if apiKey == "" then Call(None, Err(STORY_KEY_MISSING))
    else
      var request := Some(StoryRequest(StoryPrompt(userPrompt, memoryLibrary), LanguageName(targetLanguage)));
      match reply
      case CallFailed(message) => Call(request, Err(message))
      case Replied(text, parsed) =>
        if text == "" then Call(request, Err(STORY_SILENT))
        else if parsed.Err? then Call(request, Err(parsed.message))
        else
          var title := if parsed.value.title != "" then parsed.value.title else UNTITLED;
          var content := if parsed.value.content != "" then parsed.value.content else text;
          Call(request, Ok(StoryText(title, content)))
  }

  /** `analyzeStoryForLearning`. Only a missing key is an error (it is checked
      before the `try`); every failure after that gives the empty analysis. */
  function AnalyzeStoryForLearning(apiKey: string, storyContent: string, targetLanguage: LangCode,
                                   reply: Reply<LearningAnalysis>): (r: Call<LearningAnalysis>)
    ensures apiKey == "" ==> r == Call(None, Err(KEY_MISSING))
    ensures apiKey != "" ==> r.request == Some(AnalysisRequest("Analyze this text:\n" + storyContent,
                                                               LanguageName(targetLanguage),
                                                               ExplanationLanguage(targetLanguage)))
    ensures r.result.Err? <==> apiKey == ""
    ensures r.result.Ok? ==>
      if reply.Replied? && reply.text != "" && reply.parsed.Ok? then r.result.value == reply.parsed.value
      else r.result.value == EMPTY_ANALYSIS
  {
    if apiKey == "" then Call(None, Err(KEY_MISSING))
    else
      var request := Some(AnalysisRequest("Analyze this text:\n" + storyContent,
                                          LanguageName(targetLanguage), ExplanationLanguage(targetLanguage)));
      var attempt: Result<LearningAnalysis> :=
        match reply
        case CallFailed(message) => Err(message)
        case Replied(text, parsed) => if text == "" then Err(ANALYSIS_FAILED) else parsed;
      Call(request, if attempt.Ok? then attempt else Ok(EMPTY_ANALYSIS))
  }

  /** `enhanceMemoryEntry`. A missing key, a rejected call, an empty reply and
      a reply that does not parse are errors; a parsed reply is returned as it
      is. */
  function EnhanceMemoryEntry(apiKey: string, draft: Draft, language: LangCode, reply: Reply<Enhanced>): (r: Call<Enhanced>)
    ensures apiKey == "" ==> r == Call(None, Err(KEY_MISSING))
    ensures apiKey != "" ==> r.request == Some(EnhanceRequest(draft, LanguageName(language)))
    ensures r.result.Ok? <==> apiKey != "" && reply.Replied? && reply.text != "" && reply.parsed.Ok?
    ensures r.result.Ok? ==> r.result == reply.parsed
    ensures apiKey != "" && reply.CallFailed? ==> r.result == Err(reply.message)
    ensures apiKey != "" && reply.Replied? && reply.text == "" ==> r.result == Err(ENHANCE_SILENT)
  {
    if apiKey == "" then Call(None, Err(KEY_MISSING))
    else
      var request := Some(EnhanceRequest(draft, LanguageName(language)));
      match reply
      case CallFailed(message) => Call(request, Err(message))
      case Replied(text, parsed) =>
        if text == "" then Call(request, Err(ENHANCE_SILENT)) else Call(request, parsed)
  }

  /** In all three operations a missing key fails before any request. */
  lemma MissingKeySendsNothing(userPrompt: string, memoryLibrary: seq<MemoryItem>, storyContent: string,
                               draft: Draft, language: LangCode,
                               story: Reply<StoryText>, analysis: Reply<LearningAnalysis>, enhanced: Reply<Enhanced>)
    ensures GenerateFictionStory("", userPrompt, memoryLibrary, language, story).request.None?
    ensures AnalyzeStoryForLearning("", storyContent, language, analysis).request.None?
    ensures EnhanceMemoryEntry("", draft, language, enhanced).request.None?
    ensures GenerateFictionStory("", userPrompt, memoryLibrary, language, story).result.Err?
    ensures AnalyzeStoryForLearning("", storyContent, language, analysis).result.Err?
    ensures EnhanceMemoryEntry("", draft, language, enhanced).result.Err?
  {
  }
}
