/** The application state held by the top-level component (App.tsx): the
    active tab, the memory library, the lexicon (textbook) and the interface
    language, with the updates the views call back into. */
module App {
  import opened Types

  datatype Tab = LibraryTab | GeneratorTab | TextbookTab

  /** A value read back from browser storage: absent (or empty), present but
      not parseable, or parsed. */
  datatype Stored<T> = Missing | Unparseable | Parsed(value: T)

  /** The view shown for a tab, with the state it is given. */
  datatype View =
    | LibraryPage(items: seq<MemoryItem>, language: LangCode)
    | GeneratorPage(memoryItems: seq<MemoryItem>, appLanguage: LangCode)
    | TextbookPage(entries: seq<TextbookItem>, language: LangCode)

  // ------------------------------------------------------ memory deletion

  /** `items.filter(item => item.id !== id)`. */
  function WithoutId(items: seq<MemoryItem>, id: string): (r: seq<MemoryItem>)
    ensures |r| <= |items|
    ensures forall k :: 0 <= k < |r| ==> r[k].id != id
    decreases |items|
  {
    if items == [] then []
    else
      var rest := WithoutId(items[..|items| - 1], id);
      var last := items[|items| - 1];
      if last.id != id then rest + [last] else rest
  }

  /** Exactly the items with another id are kept. */
  lemma {:induction false} WithoutIdMembers(items: seq<MemoryItem>, id: string)
    ensures forall x :: x in WithoutId(items, id) <==> x in items && x.id != id
    decreases |items|
  {
    if items != [] {
      var init := items[..|items| - 1];
      WithoutIdMembers(init, id);
      assert items == init + [items[|items| - 1]];
    }
  }

  /** Filtering distributes over concatenation, so the kept items stay in
      their original relative order. */
  lemma {:induction false} WithoutIdAppend(a: seq<MemoryItem>, b: seq<MemoryItem>, id: string)
    ensures WithoutId(a + b, id) == WithoutId(a, id) + WithoutId(b, id)
    decreases |b|
  {
    if b != [] {
      var b' := b[..|b| - 1];
      assert (a + b)[..|a + b| - 1] == a + b';
      assert (a + b)[|a + b| - 1] == b[|b| - 1];
      WithoutIdAppend(a, b', id);
    } else {
      assert a + b == a;
    }
  }

  /** Deleting an id nobody has changes nothing. */
  lemma {:induction false} WithoutAbsentId(items: seq<MemoryItem>, id: string)
    requires forall k :: 0 <= k < |items| ==> items[k].id != id
    ensures WithoutId(items, id) == items
    decreases |items|
  {
    if items != [] {
      WithoutAbsentId(items[..|items| - 1], id);
    }
  }

  /** Deleting the id of an item just added with a fresh id gives back the
      library as it was. */
  lemma DeleteUndoesAdd(items: seq<MemoryItem>, item: MemoryItem)
    requires forall k :: 0 <= k < |items| ==> items[k].id != item.id
    ensures WithoutId([item] + items, item.id) == items
  {
    WithoutIdAppend([item], items, item.id);
    assert WithoutId([item], item.id) == [] by {
      assert [item][..0] == [];
    }
    WithoutAbsentId(items, item.id);
  }

  // ------------------------------------------------------ lexicon entries

  /** `items.find(i => i.word === word)`: the first entry with that word. */
  function FindByWord(items: seq<TextbookItem>, word: string): (r: Option<TextbookItem>)
    ensures r.None? <==> forall k :: 0 <= k < |items| ==> items[k].Word() != word
    ensures r.Some? ==> exists k :: 0 <= k < |items| && items[k] == r.value && r.value.Word() == word
    decreases |items|
  {
    if items == [] then None
    else if items[0].Word() == word then Some(items[0])
    else
      var r := FindByWord(items[1..], word);
      assert forall k :: 1 <= k < |items| ==> items[k] == items[1..][k - 1];
      r
  }

  /** No two lexicon entries share a word. */
  predicate UniqueWords(items: seq<TextbookItem>) {
    forall i, j :: 0 <= i < j < |items| ==> items[i].Word() != items[j].Word()
  }

  // ------------------------------------------------------------- the state

  class AppState {
    var activeTab: Tab
    var memoryItems: seq<MemoryItem>
    var textbookItems: seq<TextbookItem>
    var language: LangCode

    /** The initial state: the library tab, nothing stored yet, English. */
    constructor()
      ensures activeTab == LibraryTab && memoryItems == [] && textbookItems == [] && language == EN
    {
      activeTab := LibraryTab;
      memoryItems := [];
      textbookItems := [];
      language := EN;
    }

    /** The mount effect reading back the stored values: a collection that is
        missing or does not parse leaves its list as it is; a non-empty stored
        language replaces the current one, unchecked. */
    method Load(savedMemory: Stored<seq<MemoryItem>>, savedTextbook: Stored<seq<TextbookItem>>, savedLanguage: string)
      modifies this
      ensures memoryItems == if savedMemory.Parsed? then savedMemory.value else old(memoryItems)
      ensures textbookItems == if savedTextbook.Parsed? then savedTextbook.value else old(textbookItems)
      ensures language == if savedLanguage != "" then savedLanguage else old(language)
      ensures activeTab == old(activeTab)
    {
      if savedMemory.Parsed? {
        memoryItems := savedMemory.value;
      }
      if savedTextbook.Parsed? {
        textbookItems := savedTextbook.value;
      }
      if savedLanguage != "" {
        language := savedLanguage;
      }
    }

    /** `addMemoryItem`: the new item goes first. */
    method AddMemoryItem(item: MemoryItem)
      modifies this
      ensures memoryItems == [item] + old(memoryItems)
      ensures activeTab == old(activeTab) && textbookItems == old(textbookItems) && language == old(language)
    {
      memoryItems := [item] + memoryItems;
    }

    /** `deleteMemoryItem`: every item with that id goes, the others stay in
        order. */
    method DeleteMemoryItem(id: string)
      modifies this
      ensures memoryItems == WithoutId(old(memoryItems), id)
      ensures forall x :: x in memoryItems <==> x in old(memoryItems) && x.id != id
      ensures activeTab == old(activeTab) && textbookItems == old(textbookItems) && language == old(language)
    {
      WithoutIdMembers(memoryItems, id);
      memoryItems := WithoutId(memoryItems, id);
    }

    /** `addToTextbook`: nothing happens when an entry already has the item's
        word (compared exactly); otherwise the item goes first. Either way,
        distinct words stay distinct. */
    method AddToTextbook(item: TextbookItem)
      modifies this
      ensures (exists k :: 0 <= k < |old(textbookItems)| && old(textbookItems)[k].Word() == item.Word())
                ==> textbookItems == old(textbookItems)
      ensures (forall k :: 0 <= k < |old(textbookItems)| ==> old(textbookItems)[k].Word() != item.Word())
                ==> textbookItems == [item] + old(textbookItems)
      ensures UniqueWords(old(textbookItems)) ==> UniqueWords(textbookItems)
      ensures activeTab == old(activeTab) && memoryItems == old(memoryItems) && language == old(language)
    {
      if FindByWord(textbookItems, item.Word()).None? {
        textbookItems := [item] + textbookItems;
      }
    }

    method SetActiveTab(tab: Tab)
      modifies this
      ensures activeTab == tab
      ensures memoryItems == old(memoryItems) && textbookItems == old(textbookItems) && language == old(language)
    {
      activeTab := tab;
    }

    method SetLanguage(code: LangCode)
      modifies this
      ensures language == code
      ensures activeTab == old(activeTab) && memoryItems == old(memoryItems) && textbookItems == old(textbookItems)
    {
      language := code;
    }

    /** The main area: one view per tab, given the state that view needs. */
    function CurrentView(): (v: View)
      reads this
      ensures v.LibraryPage? <==> activeTab == LibraryTab
      ensures v.GeneratorPage? <==> activeTab == GeneratorTab
      ensures v.TextbookPage? <==> activeTab == TextbookTab
      ensures v.LibraryPage? ==> v == LibraryPage(memoryItems, language)
      ensures v.GeneratorPage? ==> v == GeneratorPage(memoryItems, language)
      ensures v.TextbookPage? ==> v == TextbookPage(textbookItems, language)
    {
      match activeTab
      case LibraryTab => LibraryPage(memoryItems, language)
      case GeneratorTab => GeneratorPage(memoryItems, language)
      case TextbookTab => TextbookPage(textbookItems, language)
    }
  }
}
