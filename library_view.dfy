/** The archive entry form of the library view (components/LibraryView.tsx):
    the draft entry, the enhancement flag and the id awaiting a delete
    confirmation. The list it adds to and deletes from is the application
    state, passed in where the code calls back into it. */
module Library {
  import opened Types
  import opened App
  import opened GeminiService

  class LibraryView {
    var category: Category
    var name: string
    var description: string
    var isEnhancing: bool
    /** The id awaiting confirmation; "" when no delete is pending. */
    var deleteId: string

    /** An empty draft for a character, nothing being enhanced, no delete
        pending. */
    constructor()
      ensures category == CHARACTER && name == "" && description == ""
      ensures !isEnhancing && deleteId == ""
    {
      category := CHARACTER;
      name := "";
      description := "";
      isEnhancing := false;
      deleteId := "";
    }

    /** The draft as the enhancement sees it. */
    function CurrentDraft(): Draft
      reads this
    {
      Draft(category, name, description)
    }

    /** A draft can be filed once all three of its fields are filled in. */
    predicate Complete()
      reads this
    {
      name != "" && description != "" && category != ""
    }

    /** `handleAdd`: a complete draft becomes a new first item of the library
        under `freshId`, and the form keeps its category but clears name and
        description; an incomplete draft changes nothing. */
    method HandleAdd(freshId: string, app: AppState)
      modifies this, app
      ensures old(Complete()) ==>
        && app.memoryItems == [MemoryItem(freshId, old(category), old(name), old(description))] + old(app.memoryItems)
        && category == old(category) && name == "" && description == ""
      ensures !old(Complete()) ==> unchanged(this) && unchanged(app)
      ensures isEnhancing == old(isEnhancing) && deleteId == old(deleteId)
      ensures app.activeTab == old(app.activeTab) && app.textbookItems == old(app.textbookItems)
      ensures app.language == old(app.language)
    {
      if name != "" && description != "" && category != "" {
        app.AddMemoryItem(MemoryItem(freshId, category, name, description));
        name, description := "", "";
      }
    }

    /** `handleEnhance`: without a category nothing happens. Otherwise the
        draft is sent for enhancement; a result replaces name and description
        and keeps the category, a failure leaves the draft as it was, and
        either way `isEnhancing` is off again afterwards. */
    method HandleEnhance(apiKey: string, language: LangCode, reply: Reply<Enhanced>)
      returns (sent: Option<Request>)
      modifies this
      ensures old(category) == "" ==> unchanged(this) && sent.None?
      ensures old(category) != "" ==>
        var call := EnhanceMemoryEntry(apiKey, Draft(old(category), old(name), old(description)), language, reply);
        && sent == call.request
        && !isEnhancing
        && category == old(category)
        && (call.result.Ok? ==> name == call.result.value.name && description == call.result.value.description)
        && (call.result.Err? ==> name == old(name) && description == old(description))
      ensures deleteId == old(deleteId)
    {
      if category == "" {
        return None;
      }
      isEnhancing := true;
      var call := EnhanceMemoryEntry(apiKey, CurrentDraft(), language, reply);
      sent := call.request;
      if call.result.Ok? {
        name, description := call.result.value.name, call.result.value.description;
      }
      isEnhancing := false;
    }

    /** The delete button of an item: ask for confirmation of its id. */
    method RequestDelete(id: string)
      modifies this
      ensures deleteId == id
      ensures category == old(category) && name == old(name) && description == old(description)
      ensures isEnhancing == old(isEnhancing)
    {
      deleteId := id;
    }

    /** `confirmDelete`: a pending id is deleted from the library and cleared;
        with none pending nothing happens. */
    method ConfirmDelete(app: AppState)
      modifies this, app
      ensures old(deleteId) != "" ==>
        && app.memoryItems == WithoutId(old(app.memoryItems), old(deleteId))
        && deleteId == ""
      ensures old(deleteId) == "" ==> unchanged(this) && unchanged(app)
      ensures category == old(category) && name == old(name) && description == old(description)
      ensures isEnhancing == old(isEnhancing)
      ensures app.activeTab == old(app.activeTab) && app.textbookItems == old(app.textbookItems)
      ensures app.language == old(app.language)
    {
      if deleteId != "" {
        app.DeleteMemoryItem(deleteId);
        deleteId := "";
      }
    }

    /** `cancelDelete`: the pending id is dropped and nothing is deleted. */
    method CancelDelete()
      modifies this
      ensures deleteId == ""
      ensures category == old(category) && name == old(name) && description == old(description)
      ensures isEnhancing == old(isEnhancing)
    {
      deleteId := "";
    }

    /** The category selector. */
    method SelectCategory(c: Category)
      modifies this
      ensures category == c && name == old(name) && description == old(description)
      ensures isEnhancing == old(isEnhancing) && deleteId == old(deleteId)
    {
      category := c;
    }

    /** The name field. */
    method EditName(n: string)
      modifies this
      ensures name == n && category == old(category) && description == old(description)
      ensures isEnhancing == old(isEnhancing) && deleteId == old(deleteId)
    {
      name := n;
    }

    /** The description field. */
    method EditDescription(d: string)
      modifies this
      ensures description == d && category == old(category) && name == old(name)
      ensures isEnhancing == old(isEnhancing) && deleteId == old(deleteId)
    {
      description := d;
    }
  }

  /** Filing a complete draft under a fresh id and then confirming the delete
      of that id gives back the library as it was. */
  method AddThenDelete(form: LibraryView, app: AppState, freshId: string)
    requires form.Complete() && freshId != ""
    requires forall k :: 0 <= k < |app.memoryItems| ==> app.memoryItems[k].id != freshId
    modifies form, app
    ensures app.memoryItems == old(app.memoryItems)
    ensures form.category == old(form.category) && form.name == "" && form.description == ""
    ensures form.deleteId == ""
  {
    form.HandleAdd(freshId, app);
    form.RequestDelete(freshId);
    form.ConfirmDelete(app);
    DeleteUndoesAdd(old(app.memoryItems), MemoryItem(freshId, old(form.category), old(form.name), old(form.description)));
  }
}
