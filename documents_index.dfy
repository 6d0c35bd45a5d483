/** The document list page of the admin front end: its category and document lists, the
    create and edit category modals with their slug check, the delete confirmations and the
    per-row menus. Each handler is a method on the page state; the answers of the API calls
    it awaits are parameters. */
module DocumentsIndex {
  import opened Common
  import SlugRules

  datatype Category = Category(slug: string, sidebarLabel: string)

  datatype DocumentItem = DocumentItem(
    sidebarLabel: Option<string>,
    slug: Option<string>,
    isPublic: bool,
    status: string,
    lastEditedBy: Option<string>,
    fileOrder: Option<int>)

  /** The answer of the category-by-slug endpoint: `position` is a number, or null or
      missing (`None`); `description` may be missing. */
  datatype CategoryDetail = CategoryDetail(
    slug: string, sidebarLabel: string, position: Option<int>, description: Option<string>)

  /** `response.position?.toString() || ''`: the decimal text of a number, else empty. */
  function PositionText(position: Option<int>): (r: string)
    ensures position.None? <==> r == ""
    ensures position.Some? ==> r == IntText(position.value)
  {
    if position.Some? then IntText(position.value) else ""
  }

  /** The body sent to the create-folder endpoint. `position` is the raw text of the field:
      its conversion by `parseInt` is not modelled. */
  datatype CreateFolderRequest =
    CreateFolderRequest(slug: string, sidebarLabel: string, position: string, description: string)

  /** The body sent to the update-folder endpoint. */
  datatype UpdateFolderRequest = UpdateFolderRequest(
    originalSlug: string, slug: string, sidebarLabel: string, position: string, description: string)

  /** How an awaited create call ended: it threw (with the `message` of an `Error`, or none
      for any other thrown value), or it answered with the created slug and label. */
  datatype CreateOutcome = CreateThrew(message: Option<string>) | Created(slug: Option<string>, labelText: string)

  /** How an awaited update call ended. */
  datatype EditOutcome =
    | EditThrew(message: Option<string>)
    | Edited(success: bool, slug: Option<string>, labelText: Option<string>)

  /** How an awaited delete call ended. */
  datatype DeleteOutcome = DeleteThrew | Answered(success: bool, message: Option<string>)

  const PositionMessage: string := "表示順は数値を入力してください"
  const UnknownErrorMessage: string := "不明なエラーが発生しました"
  const CategoryUpdatedMessage: string := "カテゴリが更新されました"
  const DocumentDeletedMessage: string := "ドキュメントが削除されました"
  const DocumentDeleteFailedMessage: string := "ドキュメントの削除に失敗しました"
  const DocumentDeleteErrorMessage: string := "ドキュメントの削除中にエラーが発生しました"
  const CategoryDeletedMessage: string := "カテゴリが削除されました"
  const CategoryDeleteFailedMessage: string := "カテゴリの削除に失敗しました"
  const CategoryDeleteErrorMessage: string := "カテゴリの削除中にエラーが発生しました"

  /** The text shown for a thrown value: its `message` when it is an `Error`. */
  function ThrownMessage(message: Option<string>): string {
    if message.Some? then message.value else UnknownErrorMessage
  }

  /** `prev.map(cat => cat.slug === original ? replacement : cat)`: the entries with the
      original slug are replaced, every other entry and the length stay as they were. */
  function ReplaceCategory(categories: seq<Category>, original: string, replacement: Category)
    : (r: seq<Category>)
    ensures |r| == |categories|
    ensures forall i :: 0 <= i < |r| && categories[i].slug == original ==> r[i] == replacement
    ensures forall i :: 0 <= i < |r| && categories[i].slug != original ==> r[i] == categories[i]
  {
    if categories == [] then []
    else
      var head := if categories[0].slug == original then replacement else categories[0];
      [head] + ReplaceCategory(categories[1..], original, replacement)
  }

  /** `prev.filter(cat => cat.slug !== slug)`: no entry with the slug remains, every other
      entry does, and the survivors keep their relative order. */
  function WithoutCategory(categories: seq<Category>, slug: string): (r: seq<Category>)
    ensures forall i :: 0 <= i < |r| ==> r[i].slug != slug && r[i] in categories
    ensures forall i :: 0 <= i < |categories| && categories[i].slug != slug ==> categories[i] in r
    ensures forall c :: multiset(r)[c] == if c.slug != slug then multiset(categories)[c] else 0
    ensures IsSubsequence(r, categories)
  {
    FilterMultiset(categories, (c: Category) => c.slug != slug);
    Filter(categories, (c: Category) => c.slug != slug)
  }

  /** Removing a slug a second time changes nothing. */
  lemma WithoutCategoryIdempotent(categories: seq<Category>, slug: string)
    ensures WithoutCategory(WithoutCategory(categories, slug), slug) == WithoutCategory(categories, slug)
  {
    var once := WithoutCategory(categories, slug);
    FilterKeepsAll(once, (c: Category) => c.slug != slug);
  }

  /** `prev.filter(doc => doc.slug !== slug)`, where a null slug equals only null. */
  function WithoutDocument(documents: seq<DocumentItem>, slug: Option<string>): (r: seq<DocumentItem>)
    ensures forall i :: 0 <= i < |r| ==> r[i].slug != slug && r[i] in documents
    ensures forall i :: 0 <= i < |documents| && documents[i].slug != slug ==> documents[i] in r
    ensures forall d :: multiset(r)[d] == if d.slug != slug then multiset(documents)[d] else 0
    ensures IsSubsequence(r, documents)
  {
    FilterMultiset(documents, (d: DocumentItem) => d.slug != slug);
    Filter(documents, (d: DocumentItem) => d.slug != slug)
  }

  /** `open === index ? null : index`: the clicked menu is open afterwards exactly when it was
      not open before, and no other menu is open. */
  function ToggleIndex(open: Option<int>, index: int): (r: Option<int>)
    ensures r == Some(index) <==> open != Some(index)
    ensures r.Some? ==> r.value == index
  {
    if open == Some(index) then None else Some(index)
  }

  class DocumentsPage {
    var slug: string
    var labelText: string
    var position: string
    var description: string
    var invalidSlug: Option<string>
    var error: Option<string>
    var categories: seq<Category>
    var documents: seq<DocumentItem>
    var editingCategory: Option<Category>
    var showCategoryModal: bool
    var showCategoryEditModal: bool
    var submitSuccess: Option<string>
    var openMenuIndex: Option<int>
    var openCategoryMenuIndex: Option<int>
    var documentToDelete: Option<DocumentItem>
    var showDeleteModal: bool
    var deleteError: Option<string>
    var categoryToDelete: Option<Category>
    var showCategoryDeleteModal: bool
    var categoryDeleteError: Option<string>

    /** The initial `useState` values. */
    constructor ()
      ensures slug == "" && labelText == "" && position == "" && description == ""
      ensures invalidSlug == None && error == None && submitSuccess == None
      ensures categories == [] && documents == [] && editingCategory == None
      ensures !showCategoryModal && !showCategoryEditModal && !showDeleteModal && !showCategoryDeleteModal
      ensures openMenuIndex == None && openCategoryMenuIndex == None
      ensures documentToDelete == None && categoryToDelete == None
      ensures deleteError == None && categoryDeleteError == None
    {
      slug, labelText, position, description := "", "", "", "";
      invalidSlug, error, submitSuccess := None, None, None;
      categories, documents, editingCategory := [], [], None;
      showCategoryModal, showCategoryEditModal := false, false;
      showDeleteModal, showCategoryDeleteModal := false, false;
      openMenuIndex, openCategoryMenuIndex := None, None;
      documentToDelete, categoryToDelete := None, None;
      deleteError, categoryDeleteError := None, None;
    }

    /** `validateSlug`: the early-return ladder that sets or clears `invalidSlug`. */
    method ValidateSlug(value: string)
      modifies this`invalidSlug
      ensures invalidSlug == SlugRules.SlugError(value)
    {
      if IsBlank(value) {
        invalidSlug := None;
        return;
      }
      if ToLower(value) in SlugRules.ReservedSlugs {
        invalidSlug := Some(SlugRules.ReservedMessage(value));
        return;
      }
      if !SlugRules.MatchesSlugPattern(value) {
        invalidSlug := Some(SlugRules.CharsetMessage);
        return;
      }
      invalidSlug := None;
    }

    /** The `onChange` of the slug field of the create modal. */
    method OnCreateSlugChange(value: string)
      modifies this`slug, this`invalidSlug
      ensures slug == value && invalidSlug == SlugRules.SlugError(value)
    {
      slug := value;
      ValidateSlug(value);
    }

    /** The `onChange` of the slug field of the edit modal, which is on screen only while a
        category is being edited: typing the original slug back clears the error. */
    method OnEditSlugChange(value: string)
      requires editingCategory.Some?
      modifies this`slug, this`invalidSlug
      ensures slug == value
      ensures invalidSlug == if value == editingCategory.value.slug then None else SlugRules.SlugError(value)
    {
      slug := value;
      if value != editingCategory.value.slug {
        ValidateSlug(value);
      } else {
        invalidSlug := None;
      }
    }

    /** `handleCloseModal`: hides the create modal and clears its fields. */
    method CloseModal()
      modifies this`showCategoryModal, this`slug, this`labelText, this`position, this`description, this`invalidSlug
      ensures !showCategoryModal && slug == "" && labelText == "" && position == "" && description == ""
      ensures invalidSlug == None
    {
      showCategoryModal := false;
      slug, labelText, position, description := "", "", "", "";
      invalidSlug := None;
    }

    /** `handleCloseEditModal`: hides the edit modal and forgets the edited category. */
    method CloseEditModal()
      modifies this`showCategoryEditModal, this`editingCategory, this`slug, this`labelText
      modifies this`position, this`description, this`invalidSlug
      ensures !showCategoryEditModal && editingCategory == None
      ensures slug == "" && labelText == "" && position == "" && description == "" && invalidSlug == None
    {
      showCategoryEditModal := false;
      editingCategory := None;
      slug, labelText, position, description := "", "", "", "";
      invalidSlug := None;
    }

    /** `handleOpenEditModal` once the category has been fetched: its slug, label, position
        and description fill the edit modal. The edited category keeps the slug and label of
        the answer, the only fields the page reads from it. */
    method OpenEditModal(fetched: CategoryDetail)
      modifies this`editingCategory, this`slug, this`labelText, this`position, this`description
      modifies this`invalidSlug, this`showCategoryEditModal, this`openCategoryMenuIndex
      ensures editingCategory == Some(Category(fetched.slug, fetched.sidebarLabel))
      ensures slug == fetched.slug && labelText == fetched.sidebarLabel
      ensures position == PositionText(fetched.position) && description == OrElse(fetched.description, "")
      ensures invalidSlug == None && showCategoryEditModal && openCategoryMenuIndex == None
    {
      editingCategory := Some(Category(fetched.slug, fetched.sidebarLabel));
      slug, labelText := fetched.slug, fetched.sidebarLabel;
      position, description := PositionText(fetched.position), OrElse(fetched.description, "");
      invalidSlug := None;
      showCategoryEditModal := true;
      openCategoryMenuIndex := None;
    }

    /** `handleCreateCategory`. `positionNotNumeric` is the value of
        `isNaN(Number(position))`; `outcome` is how the create call ended. The answer
        `request` is the body sent, or `None` when a guard returned before any request.
        Only the form, its errors, the list and the modal flag can change. */
    method HandleCreateCategory(positionNotNumeric: bool, outcome: CreateOutcome)
      returns (request: Option<CreateFolderRequest>)
      modifies this`error, this`categories, this`showCategoryModal, this`slug, this`labelText
      modifies this`position, this`description, this`invalidSlug
      ensures IsBlank(old(slug)) ==> request == None && unchanged(this)
      ensures !IsBlank(old(slug)) && !IsBlank(old(position)) && positionNotNumeric ==>
                request == None && error == Some(PositionMessage)
      ensures request == None && Truthy(old(invalidSlug)) ==>
                error == (if IsBlank(old(slug)) then old(error)
                          else if !IsBlank(old(position)) && positionNotNumeric then Some(PositionMessage)
                          else old(invalidSlug))
      ensures request == None || outcome.CreateThrew? ==>
                categories == old(categories) && showCategoryModal == old(showCategoryModal)
                && slug == old(slug) && labelText == old(labelText) && position == old(position)
                && description == old(description) && invalidSlug == old(invalidSlug)
      ensures request.Some? <==>
                !IsBlank(old(slug)) && !(!IsBlank(old(position)) && positionNotNumeric)
                && !Truthy(old(invalidSlug))
      ensures request.Some? ==>
                request.value == CreateFolderRequest(old(slug), old(labelText), old(position), old(description))
      ensures request.Some? && outcome.Created? ==>
                categories == old(categories)
                  + (if Truthy(outcome.slug) then [Category(outcome.slug.value, outcome.labelText)] else [])
                && !showCategoryModal && slug == "" && labelText == "" && position == "" && description == ""
                && invalidSlug == None && error == None
      ensures request.Some? && outcome.CreateThrew? ==> error == Some(ThrownMessage(outcome.message))
    {
      if IsBlank(slug) {
        return None;
      }
      if !IsBlank(position) && positionNotNumeric {
        error := Some(PositionMessage);
        return None;
      }
      if Truthy(invalidSlug) {
        error := invalidSlug;
        return None;
      }
      error := None;
      request := Some(CreateFolderRequest(slug, labelText, position, description));
      match outcome {
        case CreateThrew(message) =>
          error := Some(ThrownMessage(message));
        case Created(createdSlug, createdLabel) =>
          if Truthy(createdSlug) {
            categories := categories + [Category(createdSlug.value, createdLabel)];
          }
          CloseModal();
      }
    }

    /** `handleEditCategory`. A pending slug error is ignored while the slug equals the
        original one. On success the entries with the original slug are replaced; the modal
        closes and the form is cleared whenever the call answered, successful or not. */
    method HandleEditCategory(positionNotNumeric: bool, outcome: EditOutcome)
      returns (request: Option<UpdateFolderRequest>)
      modifies this`error, this`categories, this`submitSuccess, this`showCategoryEditModal
      modifies this`editingCategory, this`slug, this`labelText, this`position, this`description
      modifies this`invalidSlug
      ensures IsBlank(old(slug)) || old(editingCategory) == None ==> request == None && unchanged(this)
      ensures !IsBlank(old(slug)) && old(editingCategory).Some? && !IsBlank(old(position)) && positionNotNumeric ==>
                request == None && error == Some(PositionMessage)
      ensures request.Some? <==>
                !IsBlank(old(slug)) && old(editingCategory).Some?
                && !(!IsBlank(old(position)) && positionNotNumeric)
                && !(old(slug) != old(editingCategory).value.slug && Truthy(old(invalidSlug)))
      ensures (request == None && !IsBlank(old(slug)) && old(editingCategory).Some?
               && !(!IsBlank(old(position)) && positionNotNumeric)) ==> error == old(invalidSlug)
      ensures request == None || outcome.EditThrew? ==>
                categories == old(categories) && submitSuccess == old(submitSuccess)
                && showCategoryEditModal == old(showCategoryEditModal) && editingCategory == old(editingCategory)
                && slug == old(slug) && labelText == old(labelText) && position == old(position)
                && description == old(description) && invalidSlug == old(invalidSlug)
      ensures request.Some? ==>
                request.value == UpdateFolderRequest(old(editingCategory).value.slug, old(slug), old(labelText),
                                                      old(position), old(description))
      ensures request.Some? && outcome.Edited? && outcome.success ==>
                categories == ReplaceCategory(old(categories), old(editingCategory).value.slug,
                                              Category(OrElse(outcome.slug, old(slug)), OrElse(outcome.labelText, old(labelText))))
                && submitSuccess == Some(CategoryUpdatedMessage)
      ensures request.Some? && outcome.Edited? && !outcome.success ==>
                categories == old(categories) && submitSuccess == old(submitSuccess)
      ensures request.Some? && outcome.Edited? ==>
                !showCategoryEditModal && editingCategory == None && error == None
                && slug == "" && labelText == "" && position == "" && description == "" && invalidSlug == None
      ensures request.Some? && outcome.EditThrew? ==> error == Some(ThrownMessage(outcome.message))
    {
      if IsBlank(slug) || editingCategory == None {
        return None;
      }
      if !IsBlank(position) && positionNotNumeric {
        error := Some(PositionMessage);
        return None;
      }
      var original := editingCategory.value.slug;
      if slug != original && Truthy(invalidSlug) {
        error := invalidSlug;
        return None;
      }
      error := None;
      request := Some(UpdateFolderRequest(original, slug, labelText, position, description));
      match outcome {
        case EditThrew(message) =>
          error := Some(ThrownMessage(message));
        case Edited(success, newSlug, newLabel) =>
          if success {
            categories := ReplaceCategory(categories, original, Category(OrElse(newSlug, slug), OrElse(newLabel, labelText)));
            submitSuccess := Some(CategoryUpdatedMessage);
          }
          CloseEditModal();
      }
    }

    /** `openDeleteModal`. */
    method OpenDeleteModal(document: DocumentItem)
      modifies this`documentToDelete, this`showDeleteModal, this`openMenuIndex
      ensures documentToDelete == Some(document) && showDeleteModal && openMenuIndex == None
    {
      documentToDelete, showDeleteModal, openMenuIndex := Some(document), true, None;
    }

    /** `handleDeleteDocument`: on a successful answer no document with the deleted slug
        remains and the others keep their order; otherwise only the error changes. */
    method HandleDeleteDocument(outcome: DeleteOutcome)
      modifies this`documents, this`showDeleteModal, this`documentToDelete, this`submitSuccess, this`deleteError
      ensures old(documentToDelete) == None ==> unchanged(this)
      ensures old(documentToDelete).Some? && outcome.Answered? && outcome.success ==>
                documents == WithoutDocument(old(documents), old(documentToDelete).value.slug)
                && !showDeleteModal && documentToDelete == None
                && submitSuccess == Some(DocumentDeletedMessage) && deleteError == None
      ensures old(documentToDelete).Some? && outcome.Answered? && !outcome.success ==>
                documents == old(documents) && deleteError == Some(OrElse(outcome.message, DocumentDeleteFailedMessage))
      ensures old(documentToDelete).Some? && outcome.DeleteThrew? ==>
                documents == old(documents) && deleteError == Some(DocumentDeleteErrorMessage)
      ensures !(outcome.Answered? && outcome.success) ==>
                showDeleteModal == old(showDeleteModal) && documentToDelete == old(documentToDelete)
                && submitSuccess == old(submitSuccess)
    {
      if documentToDelete == None {
        return;
      }
      deleteError := None;
      match outcome {
        case DeleteThrew =>
          deleteError := Some(DocumentDeleteErrorMessage);
        case Answered(success, message) =>
          if success {
            documents := WithoutDocument(documents, documentToDelete.value.slug);
            showDeleteModal := false;
            documentToDelete := None;
            submitSuccess := Some(DocumentDeletedMessage);
          } else {
            deleteError := Some(OrElse(message, DocumentDeleteFailedMessage));
          }
      }
    }

    /** `openCategoryDeleteModal`. */
    method OpenCategoryDeleteModal(category: Category)
      modifies this`categoryToDelete, this`showCategoryDeleteModal, this`openCategoryMenuIndex
      ensures categoryToDelete == Some(category) && showCategoryDeleteModal && openCategoryMenuIndex == None
    {
      categoryToDelete, showCategoryDeleteModal, openCategoryMenuIndex := Some(category), true, None;
    }

    /** `handleDeleteCategory`, the same shape as the document delete. */
    method HandleDeleteCategory(outcome: DeleteOutcome)
      modifies this`categories, this`showCategoryDeleteModal, this`categoryToDelete, this`submitSuccess
      modifies this`categoryDeleteError
      ensures old(categoryToDelete) == None ==> unchanged(this)
      ensures old(categoryToDelete).Some? && outcome.Answered? && outcome.success ==>
                categories == WithoutCategory(old(categories), old(categoryToDelete).value.slug)
                && !showCategoryDeleteModal && categoryToDelete == None
                && submitSuccess == Some(CategoryDeletedMessage) && categoryDeleteError == None
      ensures old(categoryToDelete).Some? && outcome.Answered? && !outcome.success ==>
                categories == old(categories)
                && categoryDeleteError == Some(OrElse(outcome.message, CategoryDeleteFailedMessage))
      ensures old(categoryToDelete).Some? && outcome.DeleteThrew? ==>
                categories == old(categories) && categoryDeleteError == Some(CategoryDeleteErrorMessage)
      ensures !(outcome.Answered? && outcome.success) ==>
                showCategoryDeleteModal == old(showCategoryDeleteModal) && categoryToDelete == old(categoryToDelete)
                && submitSuccess == old(submitSuccess)
    {
      if categoryToDelete == None {
        return;
      }
      categoryDeleteError := None;
      match outcome {
        case DeleteThrew =>
          categoryDeleteError := Some(CategoryDeleteErrorMessage);
        case Answered(success, message) =>
          if success {
            categories := WithoutCategory(categories, categoryToDelete.value.slug);
            showCategoryDeleteModal := false;
            categoryToDelete := None;
            submitSuccess := Some(CategoryDeletedMessage);
          } else {
            categoryDeleteError := Some(OrElse(message, CategoryDeleteFailedMessage));
          }
      }
    }

    /** The three-dots button of document row `index`. */
    method ToggleDocumentMenu(index: int)
      modifies this`openMenuIndex
      ensures openMenuIndex == ToggleIndex(old(openMenuIndex), index)
    {
      openMenuIndex := ToggleIndex(openMenuIndex, index);
    }

    /** The three-dots button of category card `index`. */
    method ToggleCategoryMenu(index: int)
      modifies this`openCategoryMenuIndex
      ensures openCategoryMenuIndex == ToggleIndex(old(openCategoryMenuIndex), index)
    {
      openCategoryMenuIndex := ToggleIndex(openCategoryMenuIndex, index);
    }
  }
}
