/** The entities of the application (types.ts) and the Option and Result
    wrappers the rest of the model uses.

    Strings stand for JavaScript strings, as sequences of Unicode scalar
    values rather than of UTF-16 code units. Where the code tests a value for
    truthiness (`if (x)`, `x || y`), an absent field and the empty string
    behave alike, so the model writes "" for both. */
module Types {

  datatype Option<+T> = None | Some(value: T)

  /** A JavaScript value or a thrown `Error`, whose `message` is the payload. */
  datatype Result<+T> = Ok(value: T) | Err(message: string)

  /** `AppLanguage` codes. The stored language is cast to this type without a
      check, so the model keeps a code as a plain string. */
  type LangCode = string
  const EN: LangCode := "en"
  const ZH: LangCode := "zh"
  const DE: LangCode := "de"
  const ES: LangCode := "es"

  predicate IsAppLanguage(code: LangCode) {
    code == EN || code == ZH || code == DE || code == ES
  }

  /** `MemoryCategory` is a string enum; the values are its members' strings. */
  type Category = string
  const CHARACTER: Category := "Character"
  const SETTING: Category := "World Setting"
  const PLOT: Category := "Storyline"
  const STYLE: Category := "Narrative Style"

  predicate IsCategory(c: Category) {
    c == CHARACTER || c == SETTING || c == PLOT || c == STYLE
  }

  datatype MemoryItem = MemoryItem(id: string, category: Category, name: string, description: string)

  datatype VocabItem = VocabItem(id: string, word: string, translation: string, definition: string, partOfSpeech: string)

  datatype GrammarPoint = GrammarPoint(sentence: string, rule: string, explanation: string)

  /** A vocabulary item promoted to the lexicon, stamped with `Date.now()`. */
  datatype TextbookItem = TextbookItem(vocab: VocabItem, addedAt: int) {
    function Word(): string { vocab.word }
  }

  datatype LearningAnalysis = LearningAnalysis(vocabulary: seq<VocabItem>, grammar: seq<GrammarPoint>)

  /** The story shown in the generator workspace: the service's reply plus the
      language it was requested in. */
  datatype Fiction = Fiction(title: string, content: string, language: LangCode)

  datatype LoadingState = Idle | Loading | Success | Error
}
