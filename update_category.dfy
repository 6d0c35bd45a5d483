/** The `PUT /update-category` route. It authenticates the caller and checks the body in a
    fixed order, where the first failure decides the answer. It then finds the caller's
    working branch or creates one. It versions the category: the live row is soft-deleted
    and a new draft row carrying the edit is inserted under the branch. */
module UpdateCategory {
  import opened Common
  import opened Tables

  /** A field of the JSON body as the handler sees it. */
  datatype Json = Missing | JNull | JBool(b: bool) | JNum(n: int) | JStr(s: string) | JObject

  datatype UpdateCategoryBody = UpdateCategoryBody(
    originalSlug: Json, slug: Json, sidebarLabel: Json, position: Json, description: Json)

  /** What the authentication helper resolves a session to. */
  datatype LoginUser = LoginUser(userId: int, email: string)

  datatype AuthError = NoSession | InvalidSession

  datatype UpdateResponse =
    | Unauthorized(authError: AuthError)
    | BadRequest(error: string)
    | Conflict(error: string)
    | NotFound(error: string)
    | ServerError(error: string)
    | Updated(slug: string, labelText: string, id: int)

  function StatusCode(r: UpdateResponse): int {
    match r
    case Unauthorized(_) => 401
    case BadRequest(_) => 400
    case Conflict(_) => 409
    case NotFound(_) => 404
    case ServerError(_) => 500
    case Updated(_, _, _) => 200
  }

  const OriginalSlugMessage: string := "originalSlug is required and must be a string"
  const SlugMessage: string := "slug is required and must be a string"
  const DuplicateSlugMessage: string := "slugが重複しています"
  const SidebarLabelMessage: string := "sidebarLabel is required and must be a string"
  const PositionMessage: string := "position must be a number"
  const DescriptionMessage: string := "description must be a string"
  const CategoryNotFoundMessage: string := "更新対象のカテゴリが見つかりません"
  const UpdateFailedMessage: string := "Failed to update category"

  /** `!x || typeof x !== 'string'` fails exactly for everything but a non-empty string. */
  predicate NonEmptyString(j: Json) {
    j.JStr? && j.s != ""
  }

  /** `x !== undefined && typeof x !== 'number'` fails for everything but absent or a number
      (so an explicit null fails). */
  predicate AbsentOrNumber(j: Json) {
    j.Missing? || j.JNum?
  }

  predicate AbsentOrString(j: Json) {
    j.Missing? || j.JStr?
  }

  function StrOf(j: Json): string {
    if j.JStr? then j.s else ""
  }

  /** The truthiness test applied to a category id the path resolver returns. */
  predicate Found(id: Option<int>) {
    id.Some? && id.value != 0
  }

  /** The validation ladder, given whether the slug counts as taken. The checks run in this
      order and the first that fails answers: originalSlug, slug, duplicate, sidebarLabel,
      position, description. */
  function Ladder(body: UpdateCategoryBody, taken: bool): (r: Option<UpdateResponse>)
    ensures r.None? <==>
              NonEmptyString(body.originalSlug) && NonEmptyString(body.slug) && !taken
              && NonEmptyString(body.sidebarLabel) && AbsentOrNumber(body.position) && AbsentOrString(body.description)
    ensures r.Some? ==> StatusCode(r.value) == 400 || StatusCode(r.value) == 409
    ensures !NonEmptyString(body.originalSlug) ==> r == Some(BadRequest(OriginalSlugMessage))
    ensures NonEmptyString(body.originalSlug) && !NonEmptyString(body.slug) ==> r == Some(BadRequest(SlugMessage))
    ensures NonEmptyString(body.originalSlug) && NonEmptyString(body.slug) && taken ==>
              r == Some(Conflict(DuplicateSlugMessage))
    ensures NonEmptyString(body.originalSlug) && NonEmptyString(body.slug) && !taken
            && !NonEmptyString(body.sidebarLabel) ==>
              r == Some(BadRequest(SidebarLabelMessage))
    ensures NonEmptyString(body.originalSlug) && NonEmptyString(body.slug) && !taken
            && NonEmptyString(body.sidebarLabel) && !AbsentOrNumber(body.position) ==>
              r == Some(BadRequest(PositionMessage))
    ensures NonEmptyString(body.originalSlug) && NonEmptyString(body.slug) && !taken
            && NonEmptyString(body.sidebarLabel) && AbsentOrNumber(body.position) && !AbsentOrString(body.description) ==>
              r == Some(BadRequest(DescriptionMessage))
  {
    if !NonEmptyString(body.originalSlug) then Some(BadRequest(OriginalSlugMessage))
    else if !NonEmptyString(body.slug) then Some(BadRequest(SlugMessage))
    else if taken then Some(Conflict(DuplicateSlugMessage))
    else if !NonEmptyString(body.sidebarLabel) then Some(BadRequest(SidebarLabelMessage))
    else if !AbsentOrNumber(body.position) then Some(BadRequest(PositionMessage))
    else if !AbsentOrString(body.description) then Some(BadRequest(DescriptionMessage))
    else None
  }

  /** The ladder as the route runs it: the new slug counts as taken whenever it resolves to a
      category, including when it is the slug being edited. */
  function ValidateAsWritten(body: UpdateCategoryBody, resolve: string -> Option<int>): (r: Option<UpdateResponse>)
    ensures r.None? <==>
              NonEmptyString(body.originalSlug) && NonEmptyString(body.slug) && !Found(resolve(body.slug.s))
              && NonEmptyString(body.sidebarLabel) && AbsentOrNumber(body.position) && AbsentOrString(body.description)
  {
    Ladder(body, NonEmptyString(body.slug) && Found(resolve(body.slug.s)))
  }

  /** An edit that keeps the slug and changes only the label of an existing category is
      always refused with 409, because the unchanged slug resolves to the category itself. */
  lemma LabelOnlyEditConflicts(body: UpdateCategoryBody, resolve: string -> Option<int>)
    requires NonEmptyString(body.originalSlug) && body.slug == body.originalSlug
    requires Found(resolve(body.originalSlug.s))
    ensures ValidateAsWritten(body, resolve) == Some(Conflict(DuplicateSlugMessage))
  {
  }

  /** The ladder with the duplicate check the edit form evidently relies on: keeping the
      original slug is not a conflict. */
  function Validate(body: UpdateCategoryBody, resolve: string -> Option<int>): (r: Option<UpdateResponse>)
    ensures r.None? <==>
              NonEmptyString(body.originalSlug) && NonEmptyString(body.slug)
              && (body.slug == body.originalSlug || !Found(resolve(body.slug.s)))
              && NonEmptyString(body.sidebarLabel) && AbsentOrNumber(body.position) && AbsentOrString(body.description)
    ensures r.Some? ==> StatusCode(r.value) == 400 || StatusCode(r.value) == 409
  {
    Ladder(body, NonEmptyString(body.slug) && body.slug != body.originalSlug && Found(resolve(body.slug.s)))
  }

  /** With the corrected check a label-only edit of a well-formed body passes validation,
      and a slug moved onto another existing category is still refused. */
  lemma LabelOnlyEditPasses(body: UpdateCategoryBody, resolve: string -> Option<int>)
    requires NonEmptyString(body.originalSlug) && body.slug == body.originalSlug
    requires NonEmptyString(body.sidebarLabel) && AbsentOrNumber(body.position) && AbsentOrString(body.description)
    ensures Validate(body, resolve) == None
  {
  }

  lemma MovedOntoTakenSlugConflicts(body: UpdateCategoryBody, resolve: string -> Option<int>)
    requires NonEmptyString(body.originalSlug) && NonEmptyString(body.slug) && body.slug != body.originalSlug
    requires Found(resolve(body.slug.s))
    ensures Validate(body, resolve) == Some(Conflict(DuplicateSlugMessage))
  {
  }

  /** The duplicate answer comes before the sidebarLabel check: a body with a taken slug and
      no label gets 409, not 400. */
  lemma ConflictBeforeLabel(body: UpdateCategoryBody, resolve: string -> Option<int>)
    requires NonEmptyString(body.originalSlug) && NonEmptyString(body.slug) && body.slug != body.originalSlug
    requires Found(resolve(body.slug.s)) && body.sidebarLabel == Missing
    ensures StatusCode(Validate(body, resolve).value) == 409
  {
  }

  /** A null position, unlike an absent one, is refused. */
  lemma NullPositionRefused(body: UpdateCategoryBody, resolve: string -> Option<int>)
    requires Validate(body.(position := Missing), resolve) == None
    ensures Validate(body.(position := JNull), resolve) == Some(BadRequest(PositionMessage))
  {
  }

  predicate LiveRowWithId(row: CategoryRow, id: int) {
    row.id == id && !row.isDeleted
  }

  /** `SELECT * FROM document_categories WHERE id = ? AND is_deleted = 0`, first row: its
      index, or `|rows|` when there is none. */
  function FirstLive(rows: seq<CategoryRow>, id: int): (k: nat)
    ensures k <= |rows|
    ensures k < |rows| ==> LiveRowWithId(rows[k], id)
    ensures forall j :: 0 <= j < k ==> !LiveRowWithId(rows[j], id)
  {
    if rows == [] then 0
    else if LiveRowWithId(rows[0], id) then 0
    else 1 + FirstLive(rows[1..], id)
  }

  /** `UPDATE document_categories SET is_deleted = 1, updated_at = ? WHERE id = ?`. */
  function SoftDelete(rows: seq<CategoryRow>, id: int, now: int): (r: seq<CategoryRow>)
    ensures |r| == |rows|
    ensures forall i :: 0 <= i < |rows| && rows[i].id == id ==> r[i] == rows[i].(isDeleted := true, updatedAt := now)
    ensures forall i :: 0 <= i < |rows| && rows[i].id != id ==> r[i] == rows[i]
  {
    MapSeq(rows, (row: CategoryRow) => if row.id == id then row.(isDeleted := true, updatedAt := now) else row)
  }

  /** `position || categoryData.position`: a missing or zero position keeps the old one. */
  function NewPosition(position: Json, previous: Option<int>): (r: Option<int>)
    ensures position.JNum? && position.n != 0 ==> r == Some(position.n)
    ensures !(position.JNum? && position.n != 0) ==> r == previous
  {
    if position.JNum? && position.n != 0 then Some(position.n) else previous
  }

  /** `description || categoryData.description`: a missing or empty description keeps the
      old one. */
  function NewDescription(description: Json, previous: Option<string>): (r: Option<string>)
    ensures NonEmptyString(description) ==> r == Some(description.s)
    ensures !NonEmptyString(description) ==> r == previous
  {
    if NonEmptyString(description) then Some(description.s) else previous
  }

  /** The inserted row: the edit under a new id, a draft of the branch, last edited by the
      caller, under the old row's parent, live. */
  function NewCategoryRow(id: int, previous: CategoryRow, body: UpdateCategoryBody, email: string, branchId: int, now: int)
    : CategoryRow
  {
    CategoryRow(id, StrOf(body.slug), StrOf(body.sidebarLabel), NewPosition(body.position, previous.position),
                NewDescription(body.description, previous.description), "draft", Some(email), Some(branchId),
                previous.parentId, now, now, false)
  }

  /** The category table after a successful update of the live row at index `k`. */
  function EditedCategories(rows: seq<CategoryRow>, k: nat, body: UpdateCategoryBody, email: string, branchId: int, now: int)
    : seq<CategoryRow>
    requires k < |rows|
  {
    var deleted := SoftDelete(rows, rows[k].id, now);
    deleted + [NewCategoryRow(NextCategoryId(deleted), rows[k], body, email, branchId, now)]
  }

  /** A successful update soft-deletes exactly the old row (ids being unique), keeps every
      other row and adds one live draft row under a fresh id, with the branch and the old
      parent; ids stay unique. */
  lemma EditVersionsCategory(rows: seq<CategoryRow>, k: nat, body: UpdateCategoryBody, email: string, branchId: int, now: int)
    requires UniqueCategoryIds(rows) && k < |rows|
    ensures var r := EditedCategories(rows, k, body, email, branchId, now);
            && |r| == |rows| + 1
            && r[k] == rows[k].(isDeleted := true, updatedAt := now)
            && (forall i :: 0 <= i < |rows| && i != k ==> r[i] == rows[i])
            && r[|rows|].id == NextCategoryId(rows)
            && (forall i :: 0 <= i < |rows| ==> r[i].id != r[|rows|].id)
            && r[|rows|].status == "draft" && !r[|rows|].isDeleted
            && r[|rows|].userBranchId == Some(branchId) && r[|rows|].parentId == rows[k].parentId
            && r[|rows|].slug == StrOf(body.slug) && r[|rows|].sidebarLabel == StrOf(body.sidebarLabel)
            && r[|rows|].lastEditedBy == Some(email)
            && UniqueCategoryIds(r)
  {
    var deleted := SoftDelete(rows, rows[k].id, now);
    assert forall i :: 0 <= i < |rows| ==> deleted[i].id == rows[i].id;
    assert NextCategoryId(deleted) == NextCategoryId(rows) by {
      NextIdDependsOnIds(deleted, rows);
    }
    assert UniqueCategoryIds(deleted);
    AppendNextIdKeepsUnique(deleted, NewCategoryRow(NextCategoryId(deleted), rows[k], body, email, branchId, now));
  }

  /** The next id depends only on the ids of the rows. */
  lemma {:induction false} NextIdDependsOnIds(a: seq<CategoryRow>, b: seq<CategoryRow>)
    requires |a| == |b| && forall i :: 0 <= i < |a| ==> a[i].id == b[i].id
    ensures NextCategoryId(a) == NextCategoryId(b)
  {
    if a != [] {
      NextIdDependsOnIds(a[1..], b[1..]);
    }
  }

  /** A zero or absent position and an empty or absent description keep the old values. */
  lemma FalsyFieldsFallBack(rows: seq<CategoryRow>, k: nat, body: UpdateCategoryBody, email: string, branchId: int, now: int)
    requires k < |rows|
    requires body.position == Missing || body.position == JNum(0)
    requires body.description == Missing || body.description == JStr("")
    ensures var r := EditedCategories(rows, k, body, email, branchId, now);
            r[|rows|].position == rows[k].position && r[|rows|].description == rows[k].description
  {
  }

  /** The branch the edit goes to: the caller's first open branch if there is one, else the
      newest active branch after the snapshot branch rows were added. */
  function ResolvedBranch(branches: seq<BranchRow>, snapshot: seq<BranchRow>, userId: int): (r: Option<int>)
    ensures r.None? <==> forall j :: 0 <= j < |branches + snapshot| ==> !ActiveBranchOf((branches + snapshot)[j], userId)
    ensures r.Some? ==> exists j :: 0 <= j < |branches + snapshot|
                          && ActiveBranchOf((branches + snapshot)[j], userId) && (branches + snapshot)[j].id == r.value
  {
    if OpenBranchId(branches, userId).Some? then
      var j :| 0 <= j < |branches| && OpenBranchOf(branches[j], userId) && branches[j].id == OpenBranchId(branches, userId).value;
      assert (branches + snapshot)[j] == branches[j];
      OpenBranchId(branches, userId)
    else NewestActiveBranchId(branches + snapshot, userId)
  }

  /** The handler. `sid` is the session cookie, `auth` what the authentication helper makes
      of it, `resolve` the category path resolver, `snapshot` the branch rows the snapshot
      helper inserts when there is no open branch and `snapshotThrows` whether it fails.
      The duplicate check runs as written (`ValidateAsWritten`), so an edit that keeps an
      existing slug is refused with 409. */
  method PutUpdateCategory(db: Database, sid: Option<string>, auth: Option<LoginUser>, body: UpdateCategoryBody,
                           resolve: string -> Option<int>, snapshot: seq<BranchRow>, snapshotThrows: bool, now: int)
    returns (response: UpdateResponse)
    modifies db
    ensures !Truthy(sid) ==> response == Unauthorized(NoSession) && unchanged(db)
    ensures Truthy(sid) && auth.None? ==> response == Unauthorized(InvalidSession) && unchanged(db)
    ensures Truthy(sid) && auth.Some? && ValidateAsWritten(body, resolve).Some? ==>
              response == ValidateAsWritten(body, resolve).value && unchanged(db)
    ensures db.documents == old(db.documents)
    ensures !response.Updated? ==> db.categories == old(db.categories)
    ensures response.ServerError? ==> response.error == UpdateFailedMessage
    ensures db.branches == if Truthy(sid) && auth.Some? && ValidateAsWritten(body, resolve).None?
                              && OpenBranchId(old(db.branches), auth.value.userId).None? && !snapshotThrows
                           then old(db.branches) + snapshot else old(db.branches)
    ensures Truthy(sid) && auth.Some? && ValidateAsWritten(body, resolve).None?
            && OpenBranchId(old(db.branches), auth.value.userId).None?
            && (snapshotThrows || NewestActiveBranchId(old(db.branches) + snapshot, auth.value.userId).None?) ==>
              response == ServerError(UpdateFailedMessage)
    ensures Truthy(sid) && auth.Some? && ValidateAsWritten(body, resolve).None?
            && !(snapshotThrows && OpenBranchId(old(db.branches), auth.value.userId).None?)
            && ResolvedBranch(old(db.branches), snapshot, auth.value.userId).Some?
            && (!Found(resolve(body.originalSlug.s))
                || FirstLive(old(db.categories), resolve(body.originalSlug.s).value) == |old(db.categories)|) ==>
              response == NotFound(CategoryNotFoundMessage)
    ensures response.Updated? <==>
              Truthy(sid) && auth.Some? && ValidateAsWritten(body, resolve).None?
              && !(snapshotThrows && OpenBranchId(old(db.branches), auth.value.userId).None?)
              && ResolvedBranch(old(db.branches), snapshot, auth.value.userId).Some?
              && Found(resolve(body.originalSlug.s))
              && FirstLive(old(db.categories), resolve(body.originalSlug.s).value) < |old(db.categories)|
    ensures response.Updated? ==>
              var k := FirstLive(old(db.categories), resolve(body.originalSlug.s).value);
              && k < |old(db.categories)|
              && db.categories == EditedCategories(old(db.categories), k, body, auth.value.email,
                                                   ResolvedBranch(old(db.branches), snapshot, auth.value.userId).value, now)
              && response == Updated(body.slug.s, body.sidebarLabel.s, NextCategoryId(old(db.categories)))
  {
    if !Truthy(sid) {
      return Unauthorized(NoSession);
    }
    if auth.None? {
      return Unauthorized(InvalidSession);
    }
    var user := auth.value;
    var invalid := ValidateAsWritten(body, resolve);
    if invalid.Some? {
      return invalid.value;
    }

    var userBranchId: int;
    var open := OpenBranchId(db.branches, user.userId);
    if open.Some? {
      userBranchId := open.value;
    } else {
      if snapshotThrows {
        return ServerError(UpdateFailedMessage);
      }
      db.branches := db.branches + snapshot;
      var newest := NewestActiveBranchId(db.branches, user.userId);
      if newest.None? {
        return ServerError(UpdateFailedMessage);
      }
      userBranchId := newest.value;
    }

    var existingId := resolve(body.originalSlug.s);
    if !Found(existingId) {
      return NotFound(CategoryNotFoundMessage);
    }
    var k := FirstLive(db.categories, existingId.value);
    if k == |db.categories| {
      return NotFound(CategoryNotFoundMessage);
    }
    var categoryData := db.categories[k];

    db.categories := SoftDelete(db.categories, existingId.value, now);
    var newId := NextCategoryId(db.categories);
    NextIdDependsOnIds(db.categories, old(db.categories));
    db.categories := db.categories + [NewCategoryRow(newId, categoryData, body, user.email, userBranchId, now)];
    response := Updated(body.slug.s, body.sidebarLabel.s, newId);
  }
}
