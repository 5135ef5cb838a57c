/** The generator workspace (components/GeneratorView.tsx): the request form,
    the generation flow with its status, the saved and shared text, and the
    hand-off of a vocabulary item to the lexicon. The highlighted rendering of
    the story is the Highlighter module. */
module Generator {
  import opened Types
  import opened Text
  import opened GeminiService
  import opened App

  const UNKNOWN_MALAISE := "An unknown malaise has afflicted the generator."

  /** `err.message || "An unknown malaise has afflicted the generator."`. */
  function ErrorText(message: string): (r: string)
    ensures r != ""
    ensures message != "" ==> r == message
  {
    if message != "" then message else UNKNOWN_MALAISE
  }

  /** The requests a call sent, as a list. */
  function Sent(request: Option<Request>): seq<Request> {
    if request.Some? then [request.value] else []
  }

  // ------------------------------------------------------------ save, share

  /** The text saved and shared: the title, a blank line, the story. */
  function SaveText(title: string, content: string): (r: string)
    ensures |r| == |title| + 2 + |content|
    ensures r[..|title|] == title && r[|title|..|title| + 2] == "\n\n" && r[|title| + 2..] == content
  {
    title + "\n\n" + content
  }

  /** Read line by line, a saved story is its title, an empty line, and then
      exactly the paragraphs the workspace renders. */
  lemma SaveTextLines(title: string, content: string)
    requires '\n' !in title
    ensures Split(SaveText(title, content), '\n') == [title, ""] + Split(content, '\n')
  {
    assert SaveText(title, content) == title + ['\n'] + ("" + ['\n'] + content);
    SplitAfterHead(title, '\n', "" + ['\n'] + content);
    SplitAfterHead("", '\n', content);
  }

  /** The download name: the title with every run of white space replaced by
      one '_', then ".txt". */
  function DownloadName(title: string): (r: string)
    ensures |r| >= 4 && r[|r| - 4..] == ".txt"
  {
    ReplaceWhitespaceRuns(title, '_') + ".txt"
  }

  /** The download name contains no white space, ends in ".txt", and keeps
      the characters of the title that are neither white space nor '_' in
      order; it is never longer than the title plus the extension.
      `DownloadNameRun` and `DownloadNameOfPlainTitle` cover the rest. */
  lemma DownloadNameSpec(title: string)
    ensures var n := DownloadName(title);
      && |n| >= 4 && n[|n| - 4..] == ".txt"
      && (forall i :: 0 <= i < |n| ==> !IsWhitespace(n[i]))
      && Visible(n[..|n| - 4], '_') == Visible(title, '_')
      && |n| <= |title| + 4
  {
    ReplaceWhitespaceRunsSpec(title, '_');
    var base := ReplaceWhitespaceRuns(title, '_');
    var n := base + ".txt";
    assert n[..|n| - 4] == base && n[|n| - 4..] == ".txt";
    forall i | 0 <= i < |n| ensures !IsWhitespace(n[i]) {
      if i >= |base| {
        assert n[i] == ".txt"[i - |base|];
      } else {
        assert n[i] == base[i];
      }
    }
  }

  /** A title without white space is used as it is. */
  lemma DownloadNameOfPlainTitle(title: string)
    requires forall i :: 0 <= i < |title| ==> !IsWhitespace(title[i])
    ensures DownloadName(title) == title + ".txt"
  {
    ReplaceWhitespaceRunsIdentity(title, '_');
  }

  /** Each maximal run of white space in the title becomes exactly one `_`
      of the download name, with what stands on either side of the run
      handled independently. */
  lemma DownloadNameRun(x: string, w: string, y: string)
    requires w != [] && IsBlank(w)
    requires x == [] || !IsWhitespace(x[|x| - 1])
    requires y == [] || !IsWhitespace(y[0])
    ensures DownloadName(x + w + y) == ReplaceWhitespaceRuns(x, '_') + ['_'] + DownloadName(y)
  {
    ReplaceWhitespaceRunThen(x, w, y, '_', ".txt");
  }

  /** A file handed to the browser's download. */
  datatype Download = Download(filename: string, text: string)

  /** `navigator.share` with a title and the text, or the clipboard when the
      browser cannot share. */
  datatype Sharing = NativeShare(title: string, text: string) | Clipboard(text: string)

  // ------------------------------------------------------------ generation

  /** What a generation run leaves behind: the status, story, analysis and
      error it shows, and the requests it sent in order. */
  datatype Generated = Generated(status: LoadingState, result: Option<Fiction>, learningData: Option<LearningAnalysis>,
                                 error: Option<string>, sent: seq<Request>)

  /** The steps of `handleGenerate` after its guard: request the story; on
      failure show the error; otherwise show the story in the language it was
      asked in and, in learning mode, analyse it. The analysis fails only
      without a key, and the story has already failed then, so the shared
      `catch` never sees an analysis failure (see `AnalysisFollowsStory`). */
  function Generation(prompt: string, memoryItems: seq<MemoryItem>, targetLang: LangCode, learningMode: bool,
                      apiKey: string, storyReply: Reply<StoryText>, analysisReply: Reply<LearningAnalysis>): (r: Generated)
    ensures r.status == Success || r.status == Error
    ensures |r.sent| <= 2 && (learningMode || |r.sent| <= 1)
  {
    var story := GenerateFictionStory(apiKey, prompt, memoryItems, targetLang, storyReply);
    if story.result.Err? then
      Generated(Error, None, None, Some(ErrorText(story.result.message)), Sent(story.request))
    else
      var fiction := Fiction(story.result.value.title, story.result.value.content, targetLang);
      if !learningMode then
        Generated(Success, Some(fiction), None, None, Sent(story.request))
      else
        var analysis := AnalyzeStoryForLearning(apiKey, story.result.value.content, targetLang, analysisReply);
        Generated(Success, Some(fiction), Some(analysis.result.value), None, Sent(story.request) + Sent(analysis.request))
  }

  /** `Generation` step by step, for a story call already made. */
  lemma GenerationSteps(prompt: string, memoryItems: seq<MemoryItem>, targetLang: LangCode, learningMode: bool,
                        apiKey: string, storyReply: Reply<StoryText>, analysisReply: Reply<LearningAnalysis>,
                        story: Call<StoryText>)
    requires story == GenerateFictionStory(apiKey, prompt, memoryItems, targetLang, storyReply)
    ensures var g := Generation(prompt, memoryItems, targetLang, learningMode, apiKey, storyReply, analysisReply);
      story.result.Err? ==> g == Generated(Error, None, None, Some(ErrorText(story.result.message)), Sent(story.request))
    ensures var g := Generation(prompt, memoryItems, targetLang, learningMode, apiKey, storyReply, analysisReply);
      story.result.Ok? && !learningMode ==>
        g == Generated(Success, Some(Fiction(story.result.value.title, story.result.value.content, targetLang)), None, None,
                       Sent(story.request))
    ensures var g := Generation(prompt, memoryItems, targetLang, learningMode, apiKey, storyReply, analysisReply);
      story.result.Ok? && learningMode ==>
        var analysis := AnalyzeStoryForLearning(apiKey, story.result.value.content, targetLang, analysisReply);
        && analysis.result.Ok?
        && g == Generated(Success, Some(Fiction(story.result.value.title, story.result.value.content, targetLang)),
                          Some(analysis.result.value), None, Sent(story.request) + Sent(analysis.request))
  {
  }

  /** Once a story has come back, its analysis cannot fail. */
  lemma AnalysisFollowsStory(prompt: string, memoryItems: seq<MemoryItem>, targetLang: LangCode, apiKey: string,
                             storyReply: Reply<StoryText>, analysisReply: Reply<LearningAnalysis>)
    requires GenerateFictionStory(apiKey, prompt, memoryItems, targetLang, storyReply).result.Ok?
    ensures AnalyzeStoryForLearning(apiKey, GenerateFictionStory(apiKey, prompt, memoryItems, targetLang, storyReply).result.value.content,
                                    targetLang, analysisReply).result.Ok?
  {
  }

  /** A run ends in success exactly when the story came back, and in the error
      state otherwise, with a non-empty message and no story left on screen.
      A story shown has a title and content and the requested language; an
      analysis is shown exactly in learning mode after a success. */
  lemma GenerationOutcome(prompt: string, memoryItems: seq<MemoryItem>, targetLang: LangCode, learningMode: bool,
                          apiKey: string, storyReply: Reply<StoryText>, analysisReply: Reply<LearningAnalysis>)
    ensures var g := Generation(prompt, memoryItems, targetLang, learningMode, apiKey, storyReply, analysisReply);
      && (g.status == Success <==> GenerateFictionStory(apiKey, prompt, memoryItems, targetLang, storyReply).result.Ok?)
      && (g.status == Success || g.status == Error)
      && (g.status == Error <==> g.error.Some?)
      && (g.error.Some? ==> g.error.value != "" && g.result.None?)
      && (g.status == Success <==> g.result.Some?)
      && (g.result.Some? ==> g.result.value.title != "" && g.result.value.content != "" && g.result.value.language == targetLang)
      && (g.learningData.Some? <==> learningMode && g.status == Success)
  {
  }

  /** Without a key nothing is sent; otherwise the story request goes first,
      and an analysis request follows only in learning mode, for the story
      that came back. */
  lemma GenerationRequests(prompt: string, memoryItems: seq<MemoryItem>, targetLang: LangCode, learningMode: bool,
                           apiKey: string, storyReply: Reply<StoryText>, analysisReply: Reply<LearningAnalysis>)
    ensures var g := Generation(prompt, memoryItems, targetLang, learningMode, apiKey, storyReply, analysisReply);
      && (apiKey == "" ==> g.sent == [])
      && (apiKey != "" ==> |g.sent| >= 1 && g.sent[0] == StoryRequest(StoryPrompt(prompt, memoryItems), LanguageName(targetLang)))
      && (|g.sent| == 2 <==> learningMode && g.status == Success)
      && (|g.sent| == 2 ==> g.sent[1] == AnalysisRequest("Analyze this text:\n" + g.result.value.content,
                                                        LanguageName(targetLang), ExplanationLanguage(targetLang)))
      && |g.sent| <= 2
  {
  }

  // -------------------------------------------------------------- the view

  class GeneratorView {
    var prompt: string
    var targetLang: LangCode
    var status: LoadingState
    var learningMode: bool
    var result: Option<Fiction>
    var learningData: Option<LearningAnalysis>
    var error: Option<string>
    var selectedVocab: Option<VocabItem>
    var selectedGrammar: Option<GrammarPoint>

    /** How the state fits together between two events: no call in flight; a
        success has a story and no error; an error state exactly when there
        is an error text, which is never empty; an analysis only beside a
        story, and a story only in a success or error state. */
    predicate Consistent()
      reads this
    {
      && status != Loading
      && (status == Success ==> result.Some? && error.None?)
      && (status == Error <==> error.Some?)
      && (error.Some? ==> error.value != "")
      && (learningData.Some? ==> result.Some?)
      && (result.Some? ==> status != Idle)
    }

    /** An empty form in the application's language, learning mode off. */
    constructor(appLanguage: LangCode)
      ensures prompt == "" && targetLang == appLanguage && status == Idle && !learningMode
      ensures result.None? && learningData.None? && error.None?
      ensures selectedVocab.None? && selectedGrammar.None?
      ensures Consistent()
    {
      prompt := "";
      targetLang := appLanguage;
      status := Idle;
      learningMode := false;
      result := None;
      learningData := None;
      error := None;
      selectedVocab := None;
      selectedGrammar := None;
    }

    method SetPrompt(p: string)
      modifies this
      ensures prompt == p && targetLang == old(targetLang) && learningMode == old(learningMode)
      ensures status == old(status) && result == old(result) && learningData == old(learningData)
      ensures error == old(error) && selectedVocab == old(selectedVocab) && selectedGrammar == old(selectedGrammar)
      ensures old(Consistent()) ==> Consistent()
    {
      prompt := p;
    }

    method SetTargetLang(code: LangCode)
      modifies this
      ensures targetLang == code && prompt == old(prompt) && learningMode == old(learningMode)
      ensures status == old(status) && result == old(result) && learningData == old(learningData)
      ensures error == old(error) && selectedVocab == old(selectedVocab) && selectedGrammar == old(selectedGrammar)
      ensures old(Consistent()) ==> Consistent()
    {
      targetLang := code;
    }

    method SetLearningMode(on: bool)
      modifies this
      ensures learningMode == on && prompt == old(prompt) && targetLang == old(targetLang)
      ensures status == old(status) && result == old(result) && learningData == old(learningData)
      ensures error == old(error) && selectedVocab == old(selectedVocab) && selectedGrammar == old(selectedGrammar)
      ensures old(Consistent()) ==> Consistent()
    {
      learningMode := on;
    }

    /** `handleGenerate`, run to completion: a blank prompt does nothing;
        otherwise the selections are cleared and the run's outcome is shown.
        Returns the requests sent, in order. */
    method HandleGenerate(memoryItems: seq<MemoryItem>, apiKey: string,
                          storyReply: Reply<StoryText>, analysisReply: Reply<LearningAnalysis>)
      returns (sent: seq<Request>)
      modifies this
      ensures IsBlank(old(prompt)) ==> unchanged(this) && sent == []
      ensures !IsBlank(old(prompt)) ==>
        var g := Generation(old(prompt), memoryItems, old(targetLang), old(learningMode), apiKey, storyReply, analysisReply);
        && status == g.status && result == g.result && learningData == g.learningData && error == g.error
        && sent == g.sent
        && prompt == old(prompt) && targetLang == old(targetLang) && learningMode == old(learningMode)
        && selectedVocab.None? && selectedGrammar.None?
      ensures old(Consistent()) ==> Consistent()
      ensures !IsBlank(old(prompt)) ==> Consistent()
    {
      TrimEmptyIffBlank(prompt);
      if Trim(prompt) == "" {
        return [];
      }
      sent := Generate(memoryItems, apiKey, storyReply, analysisReply);
    }

    /** The part of `handleGenerate` past its guard. Whatever the replies,
        the view is left consistent. */
    method Generate(memoryItems: seq<MemoryItem>, apiKey: string,
                    storyReply: Reply<StoryText>, analysisReply: Reply<LearningAnalysis>)
      returns (sent: seq<Request>)
      modifies this
      ensures var g := Generation(prompt, memoryItems, targetLang, learningMode, apiKey, storyReply, analysisReply);
        && status == g.status && result == g.result && learningData == g.learningData && error == g.error
        && sent == g.sent
      ensures prompt == old(prompt) && targetLang == old(targetLang) && learningMode == old(learningMode)
      ensures selectedVocab.None? && selectedGrammar.None?
      ensures Consistent()
    {
      status := Loading;
      error := None;
      result := None;
      learningData := None;
      selectedVocab := None;
      selectedGrammar := None;

      var story := GenerateFictionStory(apiKey, prompt, memoryItems, targetLang, storyReply);
      GenerationSteps(prompt, memoryItems, targetLang, learningMode, apiKey, storyReply, analysisReply, story);
      sent := Sent(story.request);
      if story.result.Err? {
        error := Some(ErrorText(story.result.message));
        status := Error;
      } else {
        result := Some(Fiction(story.result.value.title, story.result.value.content, targetLang));
        if learningMode {
          var analysis := AnalyzeStoryForLearning(apiKey, story.result.value.content, targetLang, analysisReply);
          sent := sent + Sent(analysis.request);
          learningData := Some(analysis.result.value);
        }
        status := Success;
      }
    }

    /** `handleSave`: nothing without a story; otherwise the saved text under
        the download name. */
    function SaveFile(): (d: Option<Download>)
      reads this
      ensures d.None? <==> result.None?
      ensures d.Some? ==> var t := result.value.title;
        && |d.value.text| >= |t| + 2 && d.value.text[..|t| + 2] == t + "\n\n"
        && d.value.text[|t| + 2..] == result.value.content
        && d.value.filename == DownloadName(t)
    {
      if result.None? then None
      else Some(Download(DownloadName(result.value.title), SaveText(result.value.title, result.value.content)))
    }

    /** `handleShare`: nothing without a story; otherwise the same text, shared
        natively with the title when the browser can, copied otherwise. */
    function ShareAction(canShare: bool): (s: Option<Sharing>)
      reads this
      ensures s.None? <==> result.None?
      ensures s.Some? ==> (s.value.NativeShare? <==> canShare)
      ensures s.Some? ==> s.value.text == SaveFile().value.text
      ensures s.Some? && s.value.NativeShare? ==> s.value.title == result.value.title
    {
      if result.None? then None
      else
        var text := SaveText(result.value.title, result.value.content);
        if canShare then Some(NativeShare(result.value.title, text)) else Some(Clipboard(text))
    }

    /** `handleAddToTextbook`: the selected item, stamped with the current
        time, goes to the lexicon, which drops it if its word is already
        there. */
    method HandleAddToTextbook(app: AppState, item: VocabItem, now: int)
      modifies app
      ensures var entry := TextbookItem(item, now);
        && ((exists k :: 0 <= k < |old(app.textbookItems)| && old(app.textbookItems)[k].Word() == item.word)
              ==> app.textbookItems == old(app.textbookItems))
        && ((forall k :: 0 <= k < |old(app.textbookItems)| ==> old(app.textbookItems)[k].Word() != item.word)
              ==> app.textbookItems == [entry] + old(app.textbookItems))
      ensures UniqueWords(old(app.textbookItems)) ==> UniqueWords(app.textbookItems)
      ensures app.memoryItems == old(app.memoryItems) && app.activeTab == old(app.activeTab)
      ensures app.language == old(app.language)
    {
      app.AddToTextbook(TextbookItem(item, now));
    }
  }
}
