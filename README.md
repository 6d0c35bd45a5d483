# Handbook admin panel: verified model of its core logic

The handbook is a document CMS. Its admin panel has React pages for listing, creating and reviewing documents and categories. Behind them are Express routes over a SQLite database. This project is a Dafny model of the sequential logic under the markup and the SQL plumbing, with proofs about it:

- the slug validator that appears on two pages;
- the state updates of the document list page: the create and edit guards, the list updaters and the menu toggles;
- the create page: slug checks, user search and the save request;
- the new-document page: the two-column folder split and the hierarchy picker;
- the diff review page: field classification, value rendering, the breadcrumb paths, the reviewer toggle and the payload of the pull request;
- the `PUT /update-category` route, a ladder of checks followed by soft-delete plus insert versioning;
- the `GET /` document-listing route: visibility rules, post-processing and sorting;
- the session table: upsert on create, lookup with strict expiry, delete and cleanup.

Module layout, one file per part of the program:

| file | module | models |
|---|---|---|
| common.dfy | `Common` | JavaScript helpers: truthiness, `\|\|` fallback, `trim`, ASCII `toLowerCase`, `includes`, `split`/`filter`/`map` |
| slug.dfy | `SlugRules` | the `validateSlug` rule shared by the list and create pages |
| documents_index.dfy | `DocumentsIndex` | the document list page (`DocumentsPage` class over its state fields) |
| create_document.dfy | `CreateDocument` | the create page |
| new_document.dfy | `NewDocument` | the new-document page |
| diff_review.dfy | `DiffReview` | the diff review page |
| tables.dfy | `Tables` | the `document_categories`, `user_branches` and `document_versions` tables |
| update_category.dfy | `UpdateCategory` | `PUT /update-category` |
| get_documents.dfy | `GetDocuments` | `GET /` |
| sessions.dfy | `Sessions` | the session service (`SessionStore` class over the sessions table) |

Conventions:
- React state is modelled as the fields of a class, and each handler as a method with a `modifies` clause. A network answer the handler awaits is a parameter of type `...Outcome`.
- A database table is a `seq` of rows in table order. A nullable column is an `Option`, and SQL `=` is `Tables.SqlEq`, under which a null matches nothing.
- Helpers whose code is not part of this model become parameters: the category path resolver `getCategoryIdFromPath`, the authentication helper `getAuthenticatedUser`, and the branch snapshot `initBranchSnapshot` (which contributes the branch rows it inserts). The same goes for the clock (`now`) and `uuidv4` (`freshId`).

## Model

| member | source | states |
|---|---|---|
| SlugRules.BlankSlugHasNoError | admin-frontend/src/pages/documents/index.tsx:73-76 | an empty or whitespace-only slug leaves no slug error |
| SlugRules.SlugError | admin-frontend/src/pages/documents/index.tsx:71-91 | an error is set only for a non-blank slug, and it is either the reserved-word message quoting the slug or the charset message |
| SlugRules.ReservedSlugRejected | admin-frontend/src/pages/documents/index.tsx:68-82 | a slug whose lower-cased form is create/edit/new/delete/update gets the reserved-word message quoting it, whatever its characters (the check runs before the charset check) |
| SlugRules.SlugAcceptedIff | admin-frontend/src/pages/documents/index.tsx:71-91 | no error iff the slug is blank, or it is not reserved and all its characters are ASCII letters, digits or '-' |
| SlugRules.SpacedSlugRejected | admin-frontend/src/pages/documents/index.tsx:85-88 | a non-blank slug containing a space (surrounding spaces included) gets the charset message |
| SlugRules.ReservedAreSlugChars | admin-frontend/src/pages/documents/index.tsx:68 | the reserved words are lower-case ASCII, so only the reserved check can reject them |
| SlugRules.SlugErrorIsTruthy | admin-frontend/src/pages/documents/index.tsx:167 | every message the validator sets is non-empty, so the `if (invalidSlug)` guards see it |
| Common.TrimEmptyIffBlank | admin-frontend/src/pages/documents/index.tsx:73 | `value.trim()` is empty exactly when every character is JavaScript whitespace |
| DocumentsIndex.DocumentsPage.ValidateSlug | admin-frontend/src/pages/documents/index.tsx:71-91 | `invalidSlug` becomes the rule's verdict and nothing else changes |
| DocumentsIndex.DocumentsPage.OnCreateSlugChange | admin-frontend/src/pages/documents/index.tsx:71-91 | stores the typed slug and re-validates it |
| DocumentsIndex.DocumentsPage.OnEditSlugChange | admin-frontend/src/pages/documents/index.tsx:848-857 | stores the slug; typing back the original slug clears the error, any other value is validated |
| DocumentsIndex.DocumentsPage.CloseModal | admin-frontend/src/pages/documents/index.tsx:124-131 | closes the create modal and clears its form and the slug error (`invalidSlug`); `error` is kept |
| DocumentsIndex.DocumentsPage.CloseEditModal | admin-frontend/src/pages/documents/index.tsx:147-155 | closes the edit modal, forgets the category and clears the form |
| DocumentsIndex.DocumentsPage.OpenEditModal | admin-frontend/src/pages/documents/index.tsx:133-145 | the edited category and the form come from the fetched answer: its slug and label, the position's decimal text or empty when it is missing, the description or empty; the slug error is cleared, the modal opens, the category menu closes, and no other field changes |
| DocumentsIndex.DocumentsPage.HandleCreateCategory | admin-frontend/src/pages/documents/index.tsx:157-204 | a blank slug changes nothing; a bad position or a set slug error goes to `error` and sends nothing; otherwise it sends the form; on success it appends one entry exactly when the answer carries a slug, then closes the modal and clears the whole form and the slug error; a send-free return or a throw keeps the list, the modal, the form and the slug error; only the form, its errors, the list and the modal flag ever change |
| DocumentsIndex.DocumentsPage.HandleEditCategory | admin-frontend/src/pages/documents/index.tsx:206-255 | as create: a blank slug or no edited category changes nothing; a bad position sets the position message and sends nothing; a slug error is ignored when the slug equals the original; on success exactly the entries with the original slug are replaced (with the answer's slug and label, falling back to the form's) and the success message is set; any answer closes the modal, forgets the category and clears the form; a failed answer keeps the list and the success message; a send-free return or a throw keeps the category, the form, the slug error and the modal; deletes and menus never change |
| DocumentsIndex.ReplaceCategory | admin-frontend/src/pages/documents/index.tsx:238-244 | same length; entries with the original slug become the replacement, all others are unchanged |
| DocumentsIndex.WithoutCategory | admin-frontend/src/pages/documents/index.tsx:346 | no entry with the slug remains; every other entry does, as often as before and in its relative order |
| DocumentsIndex.WithoutCategoryIdempotent | admin-frontend/src/pages/documents/index.tsx:346 | removing the same slug twice is the same as once |
| DocumentsIndex.WithoutDocument | admin-frontend/src/pages/documents/index.tsx:303 | no document with the slug remains; every other one does, as often as before and in order |
| DocumentsIndex.DocumentsPage.OpenDeleteModal | admin-frontend/src/pages/documents/index.tsx:319-323 | remembers the document, opens the modal, closes the menu |
| DocumentsIndex.DocumentsPage.HandleDeleteDocument | admin-frontend/src/pages/documents/index.tsx:290-316 | nothing without a target; on success the list loses exactly that slug, the modal closes, the target is cleared and the success message set; a failure or throw keeps the list, the modal, the target and the success message, and sets the matching error |
| DocumentsIndex.DocumentsPage.OpenCategoryDeleteModal | admin-frontend/src/pages/documents/index.tsx:362-366 | remembers the category, opens the modal, closes the menu |
| DocumentsIndex.DocumentsPage.HandleDeleteCategory | admin-frontend/src/pages/documents/index.tsx:333-359 | as document deletion, over the category list: a failure or throw keeps the list, the modal, the target and the success message |
| DocumentsIndex.ToggleIndex | admin-frontend/src/pages/documents/index.tsx:416 | the clicked menu ends open iff it was not open, and no other menu is open |
| DocumentsIndex.DocumentsPage.ToggleDocumentMenu | admin-frontend/src/pages/documents/index.tsx:546 | the document menu index is toggled |
| DocumentsIndex.DocumentsPage.ToggleCategoryMenu | admin-frontend/src/pages/documents/index.tsx:416 | the category menu index is toggled |
| CreateDocument.CreateDocumentPage.HandleSlugChange | admin-frontend/src/pages/documents/create.tsx:39-66 | every edit stores the value and sets the rule's verdict |
| CreateDocument.FilterUsers | admin-frontend/src/pages/documents/create.tsx:104-114 | an empty query keeps all users; otherwise exactly those whose lower-cased email contains the lower-cased query, each as often as listed, as a subsequence |
| CreateDocument.EmptyQueryMatchesAll | admin-frontend/src/pages/documents/create.tsx:106-112 | the filter with the empty query would keep everyone anyway |
| CreateDocument.QueryCaseIgnored | admin-frontend/src/pages/documents/create.tsx:108 | two queries that lower-case alike select the same users |
| CreateDocument.CreateDocumentPage.SetSearchQuery | admin-frontend/src/pages/documents/create.tsx:104-114 | the shown users are the filter of the users by the new query |
| CreateDocument.CreateDocumentPage.LoadUsers | admin-frontend/src/pages/documents/create.tsx:87-99 | a list in the answer replaces the users and refreshes the shown ones; no list changes nothing |
| CreateDocument.SaveRequest | admin-frontend/src/pages/documents/create.tsx:120-138 | no request iff the title is empty; `isPublic` iff the option is exactly 公開する; every other field copied |
| CreateDocument.HandleSave | admin-frontend/src/pages/documents/create.tsx:120-152 | an empty title stops; success redirects to `/admin/documents/<category>` (`null` when absent); a failure alerts with the prefix and a non-empty reason |
| CreateDocument.SaveDisabledIffSlugError | admin-frontend/src/pages/documents/create.tsx:273 | the save button is disabled exactly when a slug error is set |
| NewDocument.MidPoint | src/pages/admin/documents/new.tsx:108 | `Math.ceil(n / 2)`: twice it is n or n + 1 |
| NewDocument.RenderFolderList | src/pages/admin/documents/new.tsx:103-110 | the "no folders" view iff the list is empty; otherwise the two slices at the midpoint |
| NewDocument.ColumnsPartition | src/pages/admin/documents/new.tsx:108-110 | left ++ right is the folder list; left is as long as right or one longer |
| NewDocument.ColumnPositions | src/pages/admin/documents/new.tsx:109-110 | the i-th folder is shown at position i of the left column or i - |left| of the right |
| NewDocument.NewDocumentPage.HandleSelectFolder | src/pages/admin/documents/new.tsx:81-83 | the selection becomes the folder; nothing else changes |
| NewDocument.NewDocumentPage.HandleConfirmHierarchy | src/pages/admin/documents/new.tsx:85-90 | with a selection the hierarchy becomes it and the modal closes; without one nothing changes |
| DiffReview.GetDiffInfoById | admin-frontend/src/pages/documents/diff.tsx:352-355 | null without diff data; otherwise the first entry with that id and type, or null when none matches |
| DiffReview.GetFieldInfo | admin-frontend/src/pages/documents/diff.tsx:358-389 | no record: unchanged with both values passed through; deleted record: deleted, current null, original kept; otherwise the recorded field info, or unchanged when the field is not recorded |
| DiffReview.ChangedOnlyByRecord | admin-frontend/src/pages/documents/diff.tsx:364-388 | a field shows as changed only when a record says so |
| DiffReview.RenderValue | admin-frontend/src/pages/documents/diff.tsx:63-68 | null/undefined give '-', booleans はい/いいえ, numbers their decimal text, strings themselves |
| DiffReview.NatTextValue | admin-frontend/src/pages/documents/diff.tsx:66 | the decimal text of n reads back as n |
| DiffReview.RenderNumberReadsBack | admin-frontend/src/pages/documents/diff.tsx:66 | a rendered non-negative number is all digits and reads back as itself |
| DiffReview.DeletedItemShowsOriginal | admin-frontend/src/pages/documents/diff.tsx:373-379 | every field of a deleted item shows its original value |
| DiffReview.MapBySlug | admin-frontend/src/pages/documents/diff.tsx:469 | every slug is a key, and each key maps to an item with that slug |
| DiffReview.MapBySlugKeepsLast | admin-frontend/src/pages/documents/diff.tsx:469 | for a repeated slug the last item wins |
| DiffReview.SlugBreadcrumb | admin-frontend/src/pages/documents/diff.tsx:116-125 | the parts are the non-empty '/'-segments; the i-th path joins the first i + 1 parts and splits back into them |
| DiffReview.BuildDiffItems | admin-frontend/src/pages/documents/diff.tsx:283-303 | every document version then every category, in input order; length is the sum |
| DiffReview.ListsDiffDetermines | admin-frontend/src/pages/documents/diff.tsx:283-303 | the description `ListsDiff` that `BuildDiffItems` and `HandleSubmitPR` promise fixes the diff items uniquely |
| DiffReview.ToggleReviewer | admin-frontend/src/pages/documents/diff.tsx:594-599 | the id is present afterwards iff it was absent; other ids are untouched; an absent id is appended; removing keeps the other ids in order and as often as before |
| DiffReview.ToggleTwiceRestores | admin-frontend/src/pages/documents/diff.tsx:594-599 | toggling an absent id twice restores the list |
| DiffReview.ToggleKeepsNoDuplicates | admin-frontend/src/pages/documents/diff.tsx:594-599 | toggling keeps a duplicate-free list duplicate-free |
| DiffReview.ReviewerCandidates | admin-frontend/src/pages/documents/diff.tsx:586-589 | exactly the users whose lower-cased email contains the lower-cased search, each as often as listed, in order |
| DiffReview.SelectedUsers | admin-frontend/src/pages/documents/diff.tsx:306-309 | the listed users whose id is selected, each as often as listed, in list order |
| DiffReview.EmptySearchListsAll | admin-frontend/src/pages/documents/diff.tsx:586-589 | the empty search lists everyone |
| DiffReview.ReviewerEmails | admin-frontend/src/pages/documents/diff.tsx:306-309 | undefined iff none selected; otherwise the emails of `SelectedUsers`: every selected listed user's email and no other, as a subsequence of the users' emails (`ListsSelectedEmails`) |
| DiffReview.SelectedEmails | admin-frontend/src/pages/documents/diff.tsx:306-309 | the emails of the selected users are exactly those of the listed users whose id is selected, in list order |
| DiffReview.PrTitle | admin-frontend/src/pages/documents/diff.tsx:325 | the title, or the fixed default when empty |
| DiffReview.PrDescription | admin-frontend/src/pages/documents/diff.tsx:326 | the description, or the fixed default when empty |
| DiffReview.DiffPage.ClickReviewer | admin-frontend/src/pages/documents/diff.tsx:594-599 | the selection is toggled |
| DiffReview.DiffPage.HandleSubmitPR | admin-frontend/src/pages/documents/diff.tsx:267-346 | no branch id: error and no request; otherwise the request carries branch, title, description, the diff items and the reviewer emails; the answer sets the success (with the PR url when given) or error message |
| Tables.NullMatchesNothing | api/admin/routes/documents/get-documents.ts:88 | SQL `=` with a null side is false |
| Tables.NextCategoryId | api/admin/routes/documents/update-category.ts:170-175 | the inserted id is above every existing id |
| Tables.AppendNextIdKeepsUnique | api/admin/routes/documents/update-category.ts:170-175 | inserting under the next id keeps ids unique |
| Tables.OpenBranchId | api/admin/routes/documents/update-category.ts:111-121 | null iff the user has no active branch with PR status 'none'; otherwise the id of one |
| Tables.NewestActiveBranchId | api/admin/routes/documents/update-category.ts:126-135 | the largest id among the user's active branches (any PR status), null iff there is none |
| Tables.OpenBranchIsActive | api/admin/routes/documents/update-category.ts:119-135 | a user with an open branch always has an active one |
| UpdateCategory.Ladder | api/admin/routes/documents/update-category.ts:71-108 | checks in order, first failure answers: each of the six checks, once every earlier one passed, fails with its own status and message; passes iff every check passes |
| UpdateCategory.ValidateAsWritten | api/admin/routes/documents/update-category.ts:71-108 | as written: passes iff all checks pass and the new slug does not resolve |
| UpdateCategory.LabelOnlyEditConflicts | api/admin/routes/documents/update-category.ts:84-89 | as written, keeping an existing slug always answers 409 |
| UpdateCategory.Validate | api/admin/routes/documents/update-category.ts:71-108 | corrected: the duplicate check is skipped when the slug is unchanged |
| UpdateCategory.LabelOnlyEditPasses | api/admin/routes/documents/update-category.ts:84-89 | corrected: an edit keeping the slug passes validation |
| UpdateCategory.MovedOntoTakenSlugConflicts | api/admin/routes/documents/update-category.ts:84-89 | moving onto a slug that resolves answers 409 |
| UpdateCategory.ConflictBeforeLabel | api/admin/routes/documents/update-category.ts:84-96 | the 409 wins over a missing sidebarLabel |
| UpdateCategory.NullPositionRefused | api/admin/routes/documents/update-category.ts:98-102 | an explicit null position is refused with 400, while an absent one passes |
| UpdateCategory.FirstLive | api/admin/routes/documents/update-category.ts:148-153 | the first live row with the id, or none |
| UpdateCategory.SoftDelete | api/admin/routes/documents/update-category.ts:162-165 | exactly the rows with the id get is_deleted and the time; the rest are unchanged |
| UpdateCategory.NewPosition | api/admin/routes/documents/update-category.ts:179 | a truthy requested position is used, otherwise the old one |
| UpdateCategory.NewDescription | api/admin/routes/documents/update-category.ts:180 | a non-empty requested description is used, otherwise the old one |
| UpdateCategory.EditVersionsCategory | api/admin/routes/documents/update-category.ts:159-190 | about `EditedCategories` and `NewCategoryRow`: exactly the old row is soft-deleted; exactly one new row is appended under a fresh id, as a live draft on the branch with the old parent, the requested slug and label and the editor |
| UpdateCategory.NextIdDependsOnIds | api/admin/routes/documents/update-category.ts:170-175 | soft-deleting does not change the next id |
| UpdateCategory.FalsyFieldsFallBack | api/admin/routes/documents/update-category.ts:179-180 | a position of 0 or a description of "" falls back to the old row's value |
| UpdateCategory.ResolvedBranch | api/admin/routes/documents/update-category.ts:111-136 | a branch is found iff the user has an active branch after the snapshot rows are added, and it is the id of one |
| UpdateCategory.PutUpdateCategory | api/admin/routes/documents/update-category.ts:50-204 | 401 without cookie or session, then the as-written ladder's answer (so a kept slug gets 409), none touching the tables; branch rows are appended exactly when validation passed, no open branch exists and the snapshot succeeds; 500 exactly when no open branch exists and the snapshot throws or finds none; 404 exactly when a branch was found but the original slug does not resolve to a live row; on success the versioned table and the echoed slug, label and new id |
| GetDocuments.CategoryPath | api/admin/routes/documents/get-documents.ts:128-131 | no segment is empty or contains '/'; a missing query gives the empty path |
| GetDocuments.CategoryPathOfJoin | api/admin/routes/documents/get-documents.ts:131 | splitting a '/'-joined path gives back its segments |
| GetDocuments.SelectDocuments | api/admin/routes/documents/get-documents.ts:73-95 | exactly the rows of the category that are live and pushed, merged, or a draft of the user's branch, each as often as in the table, in table order |
| GetDocuments.NullBranchHidesDrafts | api/admin/routes/documents/get-documents.ts:86-89 | without a branch only pushed or merged documents are listed |
| GetDocuments.OrderByPosition | api/admin/routes/documents/get-documents.ts:61-67 | `ORDER BY position ASC`: a rearrangement of the rows, null positions first, the rest ascending |
| GetDocuments.SelectSubCategoriesAsWritten | api/admin/routes/documents/get-documents.ts:59-71 | as written the rows carry no position |
| GetDocuments.SelectSubCategories | api/admin/routes/documents/get-documents.ts:59-71 | corrected: every row carries its position |
| GetDocuments.ToDocumentResponse | api/admin/routes/documents/get-documents.ts:100-107 | `isPublic` is the truthiness of is_public; the other fields are copied |
| GetDocuments.SortDocuments | api/admin/routes/documents/get-documents.ts:155-158 | the documents with a file order, rearranged (same multiset) into ascending file order |
| GetDocuments.SortByAscending | api/admin/routes/documents/get-documents.ts:158 | with numeric keys the comparator sort yields ascending keys |
| GetDocuments.SortByAllNaN | api/admin/routes/documents/get-documents.ts:166-170 | when every comparison is NaN the sort keeps the order |
| GetDocuments.FindBySlug | api/admin/routes/documents/get-documents.ts:163 | the first row with the slug, none iff no row has it |
| GetDocuments.SortCategories | api/admin/routes/documents/get-documents.ts:160-170 | every listed category comes from a row and passes the null-position filter; never more categories than rows |
| GetDocuments.AsWrittenKeepsSqlOrder | api/admin/routes/documents/get-documents.ts:160-170 | as written the categories are the SQL rows in SQL order, none dropped |
| GetDocuments.AsWrittenListsNullPosition | api/admin/routes/documents/get-documents.ts:160-170 | as written a sub-category with a null position is listed |
| GetDocuments.KeptCategoriesHavePositions | api/admin/routes/documents/get-documents.ts:162-165 | with positions selected every kept category has a numeric position |
| GetDocuments.CategoriesDropNullAndSort | api/admin/routes/documents/get-documents.ts:160-170 | corrected: no null positions, ascending by first-row position, a rearrangement of the kept ones |
| GetDocuments.CorrectedDropsNullPositions | api/admin/routes/documents/get-documents.ts:160-170 | the corrected route lists no null-position sub-category |
| GetDocuments.GetDocumentsRoute | api/admin/routes/documents/get-documents.ts:115-178 | 401 iff no session; otherwise the sorted documents of the resolved category on the user's first open branch, or none, and the sub-categories as written: the matching rows in `ORDER BY position` order, null positions included |
| Sessions.CreateRefreshesExisting | src/services/sessionService.ts:20-32 | about `CreatedRows` and `CreatedId`: a user with a row keeps the same rows; theirs get the new data and 90-day expiry; the answer is their id |
| Sessions.CreateAddsOne | src/services/sessionService.ts:33-40 | about `CreatedRows` and `CreatedId`: a user without a row gets exactly one appended under the fresh id, which is returned |
| Sessions.CreateKeepsWellFormed | src/services/sessionService.ts:18-41 | ids stay unique and no user gets two rows |
| Sessions.LookupSession | src/services/sessionService.ts:49-70 | a user iff a row with that id expires strictly after now; then its stored user id, email and last activity |
| Sessions.CreatedSessionIsFound | src/services/sessionService.ts:6-70 | a created session is found until its 90 days end |
| Sessions.WithoutSession | src/services/sessionService.ts:73-83 | exactly the rows with that id are removed; the rest stay, as often as before and in order |
| Sessions.DeletedSessionNotFound | src/services/sessionService.ts:73-83 | a deleted session is no longer found |
| Sessions.Unexpired | src/services/sessionService.ts:86-96 | exactly the rows expiring before now are removed; the rest stay, as often as before and in order |
| Sessions.ExpiryBoundary | src/services/sessionService.ts:49-96 | a row expiring exactly now survives cleanup, yet lookup rejects it |
| Sessions.CleanupKeepsLookups | src/services/sessionService.ts:49-96 | cleanup never changes what a lookup at a later time answers |
| Sessions.SubsequenceKeepsWellFormed | src/services/sessionService.ts:73-96 | deleting rows keeps ids unique and one row per user |
| Sessions.SessionStore.CreateSession | src/services/sessionService.ts:6-45 | the table becomes the upsert of the user and stays well formed |
| Sessions.SessionStore.GetSessionUser | src/services/sessionService.ts:49-70 | a user exactly when the current table has a row with that id expiring strictly after now, and then that row's stored user id, email and last activity |
| Sessions.SessionStore.DeleteSession | src/services/sessionService.ts:73-83 | the table loses exactly that id and stays well formed |
| Sessions.SessionStore.CleanupSessions | src/services/sessionService.ts:86-96 | the table keeps exactly the unexpired rows and stays well formed |

## Left out

- JSX rendering, styling, loading flags, modals' markup and spinners; the close-menu and close-delete-modal handlers, which only reset fields.
- Network I/O (`apiClient`, `createPullRequest`, the session-check hook). Answers are parameters; the authentication and snapshot helpers and `getCategoryIdFromPath` are oracle parameters, and the resolver is the same function before and after the snapshot.
- DocumentsIndex.DocumentsPage.OpenEditModal: the edited category holds only the answer's slug and label, the fields the page reads; a fetch that throws leaves the page as it was and is not modelled.
- DocumentsIndex.DocumentsPage.HandleCreateCategory: `isNaN(Number(position))` and `parseInt` are one boolean parameter, and the position is sent as its text.
- DocumentsIndex.DocumentsPage.HandleEditCategory: likewise, `isNaN(Number(position))` is a boolean parameter and the position is sent as its text, not as `parseInt(position, 10)`.
- UpdateCategory: a JSON number is an integer (`JNum(n: int)`), so a fractional position such as 1.5, which the route accepts and stores, is not modelled.
- DiffReview.DiffPage.HandleSubmitPR: the request carries the branch id as the query text; `parseInt(userBranchId)` is not modelled.
- Time is an integer of milliseconds; `setDate(+90)` is a fixed 90 days (daylight-saving shifts are not modelled), and ISO-string comparison is integer comparison.
- Sessions.SessionStore.CreateSession: requires the table to be well formed (ids unique, one row per user), which every operation preserves, and `uuidv4` to give an unused id.
- Sessions: the source takes a string user id; the model uses an integer. Errors thrown by the database are not modelled.
- `toLowerCase` and `trim` are ASCII-only and JavaScript-whitespace-only respectively; no Unicode case folding.
- UpdateCategory.PutUpdateCategory: a database error other than the missing branch (500) is not modelled; `initBranchSnapshot` only appends branch rows.
- GetDocuments.GetDocumentsRoute: the 500 on a database error is not modelled; `Promise.all` is two independent reads.
- GetDocuments.OrderByPosition: rows with equal positions keep table order, an order SQL leaves open; the documents query has no ORDER BY and keeps table order.
- GetDocuments.SortBy: a stable insertion sort; where keys mix NaN and numbers the comparator is inconsistent and JavaScript's order is implementation-defined, a case neither the as-written nor the corrected query produces.
- DiffReview.RenderValue: numbers are integers (no floating point); objects and arrays are not rendered.
- DiffReview: the debounce and redirect timers, `markdownToHtml` and the console logging.

## Findings

| source | as written | input that shows it | evidently intended | confidence | as-written member | corrected member |
|---|---|---|---|---|---|---|
| api/admin/routes/documents/update-category.ts:84-89 | the duplicate-slug check resolves the new slug with no exemption for the category being edited | an edit whose `slug` equals `originalSlug` of an existing category (a label-only edit, which the list page sends after skipping its own slug check when the slug is unchanged) answers 409 | skip the duplicate check when the slug is unchanged | not executed | UpdateCategory.LabelOnlyEditConflicts | UpdateCategory.LabelOnlyEditPasses |
| api/admin/routes/documents/get-documents.ts:61-67 | the sub-category query selects only `slug, sidebar_label`, so `position` reads as undefined in the filter and the sort | a sub-category row (live or soft-deleted, as the query has no `is_deleted` filter) with a null position on the user's branch: the `!== null` filter keeps it and `Number(undefined)` makes every comparison NaN | select `position` too, so null positions are dropped and the rest sorted by position | not executed | GetDocuments.AsWrittenListsNullPosition | GetDocuments.CategoriesDropNullAndSort |

Both routes are modelled as written: `UpdateCategory.PutUpdateCategory` runs `ValidateAsWritten`, and `GetDocuments.GetDocumentsRoute` lists the sub-categories of `SelectSubCategoriesAsWritten`. The corrected halves, `Validate` and `SelectSubCategories`, are stated beside them with the properties the code evidently intends.
