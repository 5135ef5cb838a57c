# The Aetherial Quill — a Dafny model of its core

The Aetherial Quill is a browser application for writing Victorian-style fan
fiction with a text model. The user keeps a *memory library* of characters,
settings, plot points and style notes. The *scriptorium* (generator view)
asks the model for a story built on that library. In *learning mode* it also
asks for a vocabulary and grammar analysis and highlights the analysed words
and sentences in the story. Words can be collected into a *lexicon*
(textbook).

This project models the logic behind that in Dafny:

- `Types` (types.dfy): the records of the application (memory items,
  vocabulary items, grammar points, lexicon entries, analyses, stories, the
  loading state), with language codes and categories as strings.
- `Text` (text.dfy): the JavaScript string operations the code relies on,
  defined on `seq<char>`: `trim` and `\s`, `toLowerCase`, `indexOf`, `split`
  and `join`, and `replace(/\s+/g, c)`, together with their properties.
- `Highlighter` (highlighter.dfy): `renderContent`. A story is split into
  paragraphs. Each paragraph gets one grammar pass per grammar point and
  then one vocabulary pass per vocabulary item. Each pass cuts plain
  segments into prefix, match and suffix. The loops are written as the
  code writes them, and are proved against a functional specification.
- `GeminiService` (gemini_service.dfy): the language and category labels,
  the memory context and prompt, and the three calls to the model. Each
  call is written as a function of the reply the remote service would give.
- `App` (app.dfy): the top-level state container as a class (tab, memory
  library, lexicon, language) with its update operations.
- `Library` (library_view.dfy): the archive entry form as a class (draft,
  enhancement flag, pending delete).
- `Generator` (generator_view.dfy): the scriptorium as a class. It covers
  the generation flow and its status, the saved and shared text with the
  download name, and adding a word to the lexicon.

The remote model is not called. Each operation receives a `Reply` instead:
either a rejected call with its message, or the reply text together with the
outcome of parsing it. It returns the request it would have sent and its
result. The API key, the fresh id from `crypto.randomUUID`, the time from
`Date.now` and whether the browser can share are likewise parameters. A
string field that is missing or empty is `""`, because the code's `||` and
`!` tests treat both alike.

Each highlight candidate splits every plain segment that contains it, each at
that segment's own first occurrence. The pass walks the list it started with,
so a suffix it has just made is not searched again.
`Highlighter.EveryPlainSegmentScenario` and
`Highlighter.SuffixNotRescannedScenario` show both effects.

In `handleGenerate`, the shared `catch` can never see a failed analysis. The
analysis only fails without an API key, and without a key the story request
has already failed. `Generator.AnalysisFollowsStory` proves this, so the model
writes no branch for it.

## Model

| member | source | states |
|---|---|---|
| Text.TrimEmptyIffBlank | components/GeneratorView.tsx:29 | `prompt.trim()` is empty exactly when every character of the prompt is JavaScript white space |
| Text.TrimStart | components/GeneratorView.tsx:29 | the part kept is a suffix that does not start with white space, and everything cut off is white space |
| Text.TrimEnd | components/GeneratorView.tsx:29 | the part kept is a prefix that does not end with white space, and everything cut off is white space |
| Text.Trim | components/GeneratorView.tsx:29 | `trim()`: the result is no longer than the text and neither starts nor ends with white space; `Text.TrimCutsBlankEnds` and `Text.TrimEmptyIffBlank` relate it to the text |
| Text.TrimCutsBlankEnds | components/GeneratorView.tsx:29 | `trim()` returns the text with a blank start and a blank end cut off |
| Text.Lower | components/GeneratorView.tsx:152 | `toLowerCase` keeps the length and lowers each character on its own |
| Text.LowerChar | components/GeneratorView.tsx:152 | ASCII and Latin-1 capitals move 32 code points up to their lower-case letters, every other character is left as it is, and only letters map to ASCII lower case |
| Text.IndexOf | components/GeneratorView.tsx:123 | `indexOf` is -1 exactly when the needle occurs nowhere; otherwise it is the first position at which the needle occurs |
| Text.IndexFrom | components/GeneratorView.tsx:123 | the search from a position finds an occurrence at or after it, with none in between |
| Text.IndexOfIs | components/GeneratorView.tsx:152 | an occurrence with no earlier one is what `indexOf` returns |
| Text.Split | components/GeneratorView.tsx:106 | `split('\n')` always gives at least one paragraph |
| Text.JoinSplit | components/GeneratorView.tsx:106 | joining the paragraphs with '\n' gives back the story |
| Text.SplitJoin | components/GeneratorView.tsx:106 | splitting a join of separator-free pieces gives back the pieces |
| Text.SplitPiecesLackSeparator | components/GeneratorView.tsx:106 | no paragraph contains '\n' |
| Text.SplitAfterHead | components/GeneratorView.tsx:106 | a separator-free head followed by '\n' splits off as the first piece |
| Text.SplitOfSeparatorFree | components/GeneratorView.tsx:106 | a text without '\n' is one paragraph |
| Text.JoinAppend | services/geminiService.ts:56 | joining one more piece adds the separator and that piece at the end |
| Text.Join | services/geminiService.ts:56 | `join`: no pieces give "", one piece gives that piece, and a join starts with its first piece; `Text.JoinAppend` adds each further piece after the separator, and `Text.JoinSplit` and `Text.SplitJoin` relate it to `split` |
| Text.ReplaceWhitespaceRunsSpec | components/GeneratorView.tsx:71 | after `replace(/\s+/g, '_')` no white space is left, the characters that are neither white space nor '_' stay in order, and the text gets no longer; `Text.ReplaceWhitespaceRun` and `Text.ReplaceWhitespaceRunsIdentity` cover the rest, including a '_' already in the text |
| Text.ReplaceWhitespaceRunsIdentity | components/GeneratorView.tsx:71 | a text without white space is left unchanged |
| Text.VisibleSkipsWhitespace | components/GeneratorView.tsx:71 | skipping the white space at the start of a text drops no other character |
| Text.ReplaceWhitespaceRuns | components/GeneratorView.tsx:71 | reference definition of `replace(/\s+/g, c)`; its properties are the lemmas `Text.ReplaceWhitespaceRunsSpec`, `Text.ReplaceWhitespaceRun` and `Text.ReplaceWhitespaceRunsIdentity` |
| Text.ReplaceWhitespaceRun | components/GeneratorView.tsx:71 | each maximal run of white space, between text not ending in white space and text not starting with it, becomes exactly one replacement character, and the two sides are replaced independently |
| Highlighter.SplitSegment | components/GeneratorView.tsx:123-160 | reference definition of the three-way split of one segment by one candidate; `Highlighter.SplitSegmentHit`, `Highlighter.SplitSegmentHitPosition` and `Highlighter.SplitSegmentMiss` state what it does |
| Highlighter.Pass | components/GeneratorView.tsx:118-134 | reference definition of one candidate's pass over the segment list; `Highlighter.PassAppend`, `Highlighter.PassConcat`, `Highlighter.PassFaithful` and `Highlighter.PassTagsEachHit` state its properties |
| Highlighter.Passes | components/GeneratorView.tsx:116-171 | reference definition of the passes of a list of candidates in array order; `Highlighter.PassesAppend`, `Highlighter.PassesConcat` and `Highlighter.PassesInvariants` state its properties |
| Highlighter.Annotate | components/GeneratorView.tsx:113-171 | reference definition of a paragraph in learning mode, grammar passes first; `Highlighter.AnnotateConcat`, `Highlighter.AnnotateFaithful` and `Highlighter.AnnotateGrammarPrecedence` state its properties |
| Highlighter.ParagraphView | components/GeneratorView.tsx:105-113 | reference definition of one paragraph as shown with or without an analysis; `Highlighter.ParagraphViewConcat` states that its segments spell the paragraph |
| Highlighter.SplitPart | components/GeneratorView.tsx:118-133 | the body of the inner `forEach` pushes exactly the three-way split of the segment |
| Highlighter.ApplyPass | components/GeneratorView.tsx:117-135 | the inner loop over the segments rebuilds the list into one full pass of the candidate |
| Highlighter.ApplyPasses | components/GeneratorView.tsx:116-136 | the outer loop applies the candidates' passes in array order |
| Highlighter.RenderParagraph | components/GeneratorView.tsx:112-171 | one paragraph in learning mode: grammar passes then vocabulary passes; its segments spell the paragraph, every tagged segment matches its candidate, and a non-empty paragraph has no empty plain segment |
| Highlighter.RenderParagraphs | components/GeneratorView.tsx:106-112 | one segment list per paragraph, in order: a single plain segment without analysis, the annotated segments with one |
| Highlighter.RenderContent | components/GeneratorView.tsx:103-112 | nothing without a story; otherwise one segment list per '\n'-paragraph, and the paragraphs' texts joined by '\n' give back the story |
| Highlighter.ParagraphViewConcat | components/GeneratorView.tsx:105-113 | with or without analysis, a paragraph's segments spell the paragraph |
| Highlighter.TextsOfViews | components/GeneratorView.tsx:106-112 | the texts of the rendered paragraphs are the paragraphs |
| Highlighter.Candidate.Find | components/GeneratorView.tsx:123-152 | a found match lies inside the segment text |
| Highlighter.SplitSegmentHit | components/GeneratorView.tsx:123-160 | cutting a plain segment that contains the candidate keeps its text, makes exactly one tagged segment that is faithful to the candidate, and leaves no empty plain piece |
| Highlighter.SplitSegmentHitPosition | components/GeneratorView.tsx:123-130 | the tagged piece sits at the first occurrence: the pieces before it spell the text before that occurrence |
| Highlighter.SplitSegmentMiss | components/GeneratorView.tsx:119-168 | a tagged segment, or a plain one without the candidate, passes through unchanged |
| Highlighter.FindSlice | components/GeneratorView.tsx:126-156 | the matched slice is the grammar sentence exactly, or a slice as long as the vocabulary word that equals it up to case |
| Highlighter.PassAppend | components/GeneratorView.tsx:118-134 | a pass treats each segment on its own and keeps their order |
| Highlighter.PassesAppend | components/GeneratorView.tsx:116-136 | passes compose in candidate order |
| Highlighter.PassConcat | components/GeneratorView.tsx:125-130 | a pass keeps the concatenated text |
| Highlighter.PassesConcat | components/GeneratorView.tsx:116-171 | any number of passes keep the concatenated text |
| Highlighter.AnnotateConcat | components/GeneratorView.tsx:113-171 | concatenating the segments of an annotated paragraph gives back the paragraph |
| Highlighter.AnnotateEmpty | components/GeneratorView.tsx:113 | an empty analysis leaves the paragraph as one plain segment |
| Highlighter.PassFaithful | components/GeneratorView.tsx:126-159 | a pass adds only tagged segments that hold what their candidate matched |
| Highlighter.PassNoEmptyPlain | components/GeneratorView.tsx:128-160 | a pass never creates an empty plain segment |
| Highlighter.PassesInvariants | components/GeneratorView.tsx:116-171 | faithfulness and the absence of empty plain segments survive every pass |
| Highlighter.AnnotateFaithful | components/GeneratorView.tsx:113-171 | every tagged segment of a paragraph is faithful; a non-empty paragraph has no empty plain segment |
| Highlighter.PassTagsEachHit | components/GeneratorView.tsx:118-134 | a pass adds exactly one tagged segment for each plain segment containing the candidate: each is split once and its suffix is not rescanned |
| Highlighter.PassWithoutHits | components/GeneratorView.tsx:131-133 | a candidate found in no plain segment leaves the list unchanged |
| Highlighter.VocabPassKeepsGrammar | components/GeneratorView.tsx:161-165 | a vocabulary pass keeps every grammar segment whole and in order, even when the word occurs inside it |
| Highlighter.VocabPassesKeepGrammar | components/GeneratorView.tsx:139-171 | all the vocabulary passes together keep the grammar segments |
| Highlighter.AnnotateGrammarPrecedence | components/GeneratorView.tsx:116-171 | the grammar segments of a paragraph are exactly those the grammar passes made |
| Highlighter.TaggedAppend | components/GeneratorView.tsx:118-134 | the tagged count of a list is the sum over its parts |
| Highlighter.GrammarSegmentsAppend | components/GeneratorView.tsx:118-134 | the grammar segments of a list are those of its parts, in order |
| Highlighter.ConcatAppend | components/GeneratorView.tsx:118-134 | the text of a list is the text of its parts, in order |
| Highlighter.AnnotateOneWord | components/GeneratorView.tsx:139-160 | with one vocabulary item and no grammar, a paragraph is that item's split of it |
| Highlighter.AnnotateOneEach | components/GeneratorView.tsx:116-171 | with one grammar point and one word, the word pass runs over the pieces of the grammar split |
| Highlighter.FogScenario | components/GeneratorView.tsx:151-160 | "The fog crept over the moor." with the word "fog" gives a plain prefix, the vocabulary segment and a plain suffix |
| Highlighter.NestedWordScenario | components/GeneratorView.tsx:161-165 | a word inside a grammar sentence gives no vocabulary segment, and the sentence stays one grammar segment |
| Highlighter.EveryPlainSegmentScenario | components/GeneratorView.tsx:141-169 | in "fog; rain; fog", with grammar on "rain", both plain segments containing "fog" are cut |
| Highlighter.SuffixNotRescannedScenario | components/GeneratorView.tsx:152-160 | in "Fog and fog" only the first "Fog" is tagged, matched regardless of case; the suffix is not searched again |
| Highlighter.WordFoundAt | components/GeneratorView.tsx:152 | when the word matches at a position, ignoring case, and no earlier position holds the word's first letter (ignoring case), the case-insensitive search returns that position |
| Highlighter.SentenceFoundAt | components/GeneratorView.tsx:123 | when the sentence matches exactly at a position and no earlier position holds its first character, the grammar search returns that position |
| Highlighter.SplitAround | components/GeneratorView.tsx:125-130 | a segment with its first match between a given prefix and suffix is cut into exactly those |
| GeminiService.LanguageName | services/geminiService.ts:9-16 | "English" exactly for codes other than zh, de and es |
| GeminiService.LanguageNamesDistinct | services/geminiService.ts:9-16 | the four application languages have four different names |
| GeminiService.ExplanationLanguage | services/geminiService.ts:133 | "English" exactly for a Chinese story, and never the story's own language name |
| GeminiService.CategoryContextLabel | services/geminiService.ts:21-34 | "ADDITIONAL CONTEXT" exactly for a value that is not one of the four categories; never empty |
| GeminiService.CategoryLabelsDistinct | services/geminiService.ts:21-34 | the four categories get four different headers |
| GeminiService.MemoryBlock | services/geminiService.ts:52-55 | an item's block is its category header in brackets, then "]: \n     Name: " and the name, then "\n     Details: " and the description, each at its position and nothing else |
| GeminiService.MemoryBlocks | services/geminiService.ts:52-55 | one block per item, in library order |
| GeminiService.MemoryContext | services/geminiService.ts:52-56 | the context of a non-empty library starts with the first item's block; `GeminiService.MemoryContextEmpty` and `GeminiService.MemoryContextAppend` give the rest |
| GeminiService.MemoryContextEmpty | services/geminiService.ts:52-56 | the memory context is empty exactly when the library is |
| GeminiService.MemoryContextAppend | services/geminiService.ts:52-56 | one item's context is its block; an item added at the end adds "\n\n" and its block at the end |
| GeminiService.ContextSection | services/geminiService.ts:89 | an empty library puts "The archives are currently empty." in the prompt, and any other library its context |
| GeminiService.StoryPrompt | services/geminiService.ts:87-93 | reference definition of `fullPrompt`; `GeminiService.StoryPromptParts` states where its two interpolations lie |
| GeminiService.StoryPromptParts | services/geminiService.ts:87-93 | the prompt is the first heading, the context section, the second heading, the user's request verbatim and the closing line, each at its position |
| GeminiService.GenerateFictionStory | services/geminiService.ts:39-121 | no key: error and no request; a rejected call or an empty reply is an error; an unparseable reply gives its parse error; a result has a non-empty title and content, falling back to "Untitled Chronicle" and to the raw reply text |
| GeminiService.AnalyzeStoryForLearning | services/geminiService.ts:126-181 | an error exactly when the key is missing; otherwise the parsed analysis, or the empty analysis when anything inside the `try` fails |
| GeminiService.EnhanceMemoryEntry | services/geminiService.ts:186-242 | no key: error and no request; a result exactly when a non-empty reply parses, and then it is the parsed record; a rejection or an empty reply is an error |
| GeminiService.MissingKeySendsNothing | services/geminiService.ts:45-193 | without a key none of the three operations sends a request, and each fails |
| App.WithoutId | App.tsx:54 | `filter(item => item.id !== id)`: never longer than the library, and no kept item has the id; `App.WithoutIdMembers` and `App.WithoutIdAppend` state which items stay and in what order |
| App.WithoutIdMembers | App.tsx:53-55 | the id filter keeps exactly the items with another id |
| App.WithoutIdAppend | App.tsx:53-55 | the filter distributes over concatenation, so the kept items stay in their relative order |
| App.WithoutAbsentId | App.tsx:53-55 | deleting an id nobody has changes nothing |
| App.DeleteUndoesAdd | App.tsx:49-55 | deleting the id of an item just added under a fresh id gives back the library |
| App.FindByWord | App.tsx:59 | `find` is None exactly when no entry has the word; otherwise it is an entry with that word |
| App.AppState.constructor | App.tsx:12-15 | library tab, empty memory and lexicon, English |
| App.AppState.Load | App.tsx:20-34 | a stored list that is missing or does not parse leaves its list as it is; a non-empty stored language replaces the current one, unchecked |
| App.AppState.AddMemoryItem | App.tsx:49-51 | the new item goes first, the rest follow unchanged; nothing else changes |
| App.AppState.DeleteMemoryItem | App.tsx:53-55 | exactly the items with that id go, the rest keep their order; nothing else changes |
| App.AppState.AddToTextbook | App.tsx:57-62 | an entry with the same word (compared exactly) makes it a no-op, otherwise the item goes first; distinct words stay distinct |
| App.AppState.SetActiveTab | App.tsx:86-106 | only the tab changes |
| App.AppState.SetLanguage | App.tsx:82 | only the language changes |
| App.AppState.CurrentView | App.tsx:127-145 | exactly one view is shown, chosen by the tab, with the state that view is given |
| Library.LibraryView.constructor | components/LibraryView.tsx:17-23 | a Character draft with empty name and description, not enhancing, no delete pending |
| Library.LibraryView.HandleAdd | components/LibraryView.tsx:26-36 | a draft with all three fields filled becomes the new first item under the fresh id; name and description are cleared and the category is kept; an incomplete draft changes nothing |
| Library.LibraryView.HandleEnhance | components/LibraryView.tsx:38-58 | without a category nothing happens; a result replaces name and description and keeps the category; a failure keeps the draft; not enhancing afterwards |
| Library.LibraryView.RequestDelete | components/LibraryView.tsx:190 | the item's id awaits confirmation; the draft is unchanged |
| Library.LibraryView.ConfirmDelete | components/LibraryView.tsx:60-65 | a pending id is deleted from the library and cleared; with none pending nothing happens |
| Library.LibraryView.CancelDelete | components/LibraryView.tsx:67-69 | the pending id is cleared and the draft is unchanged |
| Library.LibraryView.SelectCategory | components/LibraryView.tsx:131 | only the category changes |
| Library.LibraryView.EditName | components/LibraryView.tsx:143 | only the name changes |
| Library.LibraryView.EditDescription | components/LibraryView.tsx:155 | only the description changes |
| Library.AddThenDelete | components/LibraryView.tsx:26-65 | filing a complete draft and then confirming the delete of its id gives back the library |
| Generator.ErrorText | components/GeneratorView.tsx:51 | the error text is never empty, and it is the error's message when there is one |
| Generator.SaveText | components/GeneratorView.tsx:66 | the saved text is the title, then "\n\n", then the story, each at its position |
| Generator.SaveTextLines | components/GeneratorView.tsx:66-106 | read line by line, the saved text is the title, an empty line and then exactly the paragraphs of the story |
| Generator.DownloadNameSpec | components/GeneratorView.tsx:71 | the download name ends in ".txt", has no white space, keeps the title's characters that are neither white space nor '_' in order, and is at most the title's length plus four; `Generator.DownloadNameRun` and `Generator.DownloadNameOfPlainTitle` cover the rest |
| Generator.DownloadName | components/GeneratorView.tsx:71 | the download name ends in ".txt"; `Generator.DownloadNameSpec` and `Generator.DownloadNameRun` state the rest |
| Generator.DownloadNameRun | components/GeneratorView.tsx:71 | each maximal run of white space in the title becomes exactly one '_' of the download name |
| Generator.DownloadNameOfPlainTitle | components/GeneratorView.tsx:71 | a title without white space is used as it is |
| Generator.Generation | components/GeneratorView.tsx:38-53 | reference definition of a run after the guard: it ends in success or error and sends at most the story request and, in learning mode, the analysis request; `Generator.GenerationOutcome` and `Generator.GenerationRequests` state the rest |
| Generator.AnalysisFollowsStory | components/GeneratorView.tsx:40-46 | once a story has come back, its analysis cannot fail |
| Generator.GenerationSteps | components/GeneratorView.tsx:38-53 | what a generation run shows after each outcome of the story call |
| Generator.GenerationOutcome | components/GeneratorView.tsx:38-53 | a run succeeds exactly when the story came back, and ends in the error state otherwise, with a non-empty message and no story; a story shown has a title, content and the requested language; an analysis is shown exactly in learning mode after success |
| Generator.GenerationRequests | components/GeneratorView.tsx:40-45 | without a key nothing is sent; otherwise the story request goes first, and an analysis request of the story follows exactly in learning mode after success |
| Generator.GeneratorView.constructor | components/GeneratorView.tsx:16-24 | an empty form in the application's language, idle, learning mode off |
| Generator.GeneratorView.HandleGenerate | components/GeneratorView.tsx:28-54 | a blank prompt changes nothing and sends nothing; otherwise the view shows what the run produced, the selections are cleared and the view is consistent; a consistent view stays consistent |
| Generator.GeneratorView.Generate | components/GeneratorView.tsx:31-53 | the run past the guard leaves the view in the state the generation describes, and consistent |
| Generator.GeneratorView.SetPrompt | components/GeneratorView.tsx:222 | only the prompt changes, and a consistent view stays consistent |
| Generator.GeneratorView.SetTargetLang | components/GeneratorView.tsx:229 | only the target language changes, and a consistent view stays consistent |
| Generator.GeneratorView.SetLearningMode | components/GeneratorView.tsx:236 | only learning mode changes, and a consistent view stays consistent |
| Generator.GeneratorView.SaveFile | components/GeneratorView.tsx:64-76 | nothing without a story; otherwise the title, "\n\n" and the story, under the download name |
| Generator.GeneratorView.ShareAction | components/GeneratorView.tsx:78-100 | nothing without a story; otherwise the saved text, shared natively with the title exactly when the browser can share, else copied |
| Generator.GeneratorView.HandleAddToTextbook | components/GeneratorView.tsx:56-62 | the item, stamped with the time, is added to the lexicon unless its word is already there; distinct words stay distinct |

## Left out

- The JSX, styles and icons, and the click handlers that only select a vocabulary item or grammar point for the side panel: presentation only.
- The remote model client (`generateContent`, model names, temperatures, the system instructions and the fixed enhancement prompt text): a foreign network API. It is replaced by the `Reply` parameter.
- `JSON.parse` of replies and of stored values: a foreign parser. Its outcome is part of `Reply` and of `Stored`.
- GeminiService.AnalyzeStoryForLearning: the parsed analysis is typed as well formed. In the code a parsed reply without a `grammar` array is returned as it is (services/geminiService.ts:174), and `learningData.grammar.forEach` (components/GeneratorView.tsx:116) then throws while rendering; the model has no such reply.
- App.AppState.CurrentView: only the selected view is mounted (App.tsx:127-145), so in the code a tab switch discards the scriptorium's story and analysis and the archive's draft and pending delete. The model's `GeneratorView` and `LibraryView` objects keep their state across a tab switch.
- App.AppState.Load: `Stored` types every parsed value as a list. In the code whatever a stored value parses to is set as it is (App.tsx:26, 29), so a value that parses to something else, such as "null", is set and fails later.
- The localStorage reads and writes (App.tsx:20-47): browser I/O. Loading is modelled as an optional parsed value per key, and saving is not modelled.
- `crypto.randomUUID`, `Date.now`, the API key from the environment and `navigator.share` support: nondeterministic or environment inputs, passed in as parameters.
- Blob and DOM download, `navigator.share`, the clipboard, `alert` and `console`: browser side effects. Saving and sharing return what they would hand to the browser.
- Generator.GeneratorView.HandleGenerate: the asynchronous interleaving is not modelled. A run executes to completion as one transition, so the `loading` state is only passed through.
- Library.LibraryView.HandleEnhance: the `await` (components/LibraryView.tsx:43) is one atomic step. In the code the user can still edit or file the entry while `isEnhancing` is set, and the reply is merged into the draft as it is then (`prev`, lines 48-52), so it can refill a draft that `handleAdd` has just cleared.
- Strings as code units: a Dafny `string` is a sequence of Unicode scalar values, while a JavaScript string is a sequence of UTF-16 code units. `indexOf` positions differ for text outside the Basic Multilingual Plane, and a lone surrogate (such as "\ud800" in a reply) cannot be represented. The core uses positions only to slice the same string they were found in.
- Text.LowerChar: lowers only the ASCII and Latin-1 capitals. Unicode case mappings that change a string's length under `toLowerCase` are not modelled.
- The translation table, the shared UI components and the lexicon view with its flashcards: static strings and presentation, with no logic of their own.
