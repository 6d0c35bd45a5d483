/** The database tables the document routes read and write, as sequences of rows in table
    order. A nullable column is an `Option`. */
module Tables {
  import opened Common

  /** A row of `document_categories`. Every edit soft-deletes the row and inserts a new one,
      so one category has a chain of rows of which at most one is live. */
  datatype CategoryRow = CategoryRow(
    id: int,
    slug: string,
    sidebarLabel: string,
    position: Option<int>,
    description: Option<string>,
    status: string,
    lastEditedBy: Option<string>,
    userBranchId: Option<int>,
    parentId: Option<int>,
    createdAt: int,
    updatedAt: int,
    isDeleted: bool)

  /** A row of `user_branches`. */
  datatype BranchRow = BranchRow(id: int, userId: int, branchName: string, isActive: bool, prStatus: string)

  /** A row of `document_versions`; `isPublic` is the stored 0/1 integer. */
  datatype DocumentRow = DocumentRow(
    sidebarLabel: Option<string>,
    slug: Option<string>,
    isPublic: Option<int>,
    status: string,
    lastEditedBy: Option<string>,
    fileOrder: Option<int>,
    categoryId: Option<int>,
    userBranchId: Option<int>,
    isDeleted: bool)

  /** SQL `a = b`: true only when both sides are non-null and equal; a null on either side
      matches nothing. */
  predicate SqlEq(a: Option<int>, b: Option<int>) {
    a.Some? && b.Some? && a.value == b.value
  }

  /** A null never equals anything, not even a null. */
  lemma NullMatchesNothing(a: Option<int>)
    ensures !SqlEq(a, None) && !SqlEq(None, a)
  {
  }

  /** No two category rows share an id. */
  predicate UniqueCategoryIds(rows: seq<CategoryRow>) {
    forall i, j :: 0 <= i < j < |rows| ==> rows[i].id != rows[j].id
  }

  /** The id SQLite gives the next inserted row: one more than the largest id in the table
      (1 for an empty table). */
  function NextCategoryId(rows: seq<CategoryRow>): (id: int)
    ensures id >= 1
    ensures forall i :: 0 <= i < |rows| ==> rows[i].id < id
  {
    if rows == [] then 1
    else
      var rest := NextCategoryId(rows[1..]);
      assert forall i :: 1 <= i < |rows| ==> rows[i].id == rows[1..][i - 1].id;
      if rows[0].id + 1 > rest then rows[0].id + 1 else rest
  }

  /** Appending a row under the next id keeps the ids unique. */
  lemma AppendNextIdKeepsUnique(rows: seq<CategoryRow>, row: CategoryRow)
    requires UniqueCategoryIds(rows) && row.id == NextCategoryId(rows)
    ensures UniqueCategoryIds(rows + [row])
  {
  }

  predicate OpenBranchOf(row: BranchRow, userId: int) {
    row.userId == userId && row.isActive && row.prStatus == "none"
  }

  /** `SELECT id FROM user_branches WHERE user_id = ? AND is_active = 1 AND pr_status = 'none'`,
      first row: the index of the user's first open branch, `|rows|` when there is none. */
  function FirstOpenBranch(rows: seq<BranchRow>, userId: int): (k: nat)
    ensures k <= |rows|
    ensures k < |rows| ==> OpenBranchOf(rows[k], userId)
    ensures forall j :: 0 <= j < k ==> !OpenBranchOf(rows[j], userId)
  {
    if rows == [] then 0
    else if OpenBranchOf(rows[0], userId) then 0
    else 1 + FirstOpenBranch(rows[1..], userId)
  }

  /** The id of the user's first open branch, if any. */
  function OpenBranchId(rows: seq<BranchRow>, userId: int): (r: Option<int>)
    ensures r.None? <==> forall j :: 0 <= j < |rows| ==> !OpenBranchOf(rows[j], userId)
    ensures r.Some? ==> exists j :: 0 <= j < |rows| && OpenBranchOf(rows[j], userId) && rows[j].id == r.value
  {
    var k := FirstOpenBranch(rows, userId);
    if k < |rows| then Some(rows[k].id) else None
  }

  predicate ActiveBranchOf(row: BranchRow, userId: int) {
    row.userId == userId && row.isActive
  }

  /** `SELECT id FROM user_branches WHERE user_id = ? AND is_active = 1 ORDER BY id DESC
      LIMIT 1`: the largest id among the user's active branches, whatever their PR status. */
  function NewestActiveBranchId(rows: seq<BranchRow>, userId: int): (r: Option<int>)
    ensures r.None? <==> forall j :: 0 <= j < |rows| ==> !ActiveBranchOf(rows[j], userId)
    ensures r.Some? ==> exists j :: 0 <= j < |rows| && ActiveBranchOf(rows[j], userId) && rows[j].id == r.value
    ensures r.Some? ==> forall j :: 0 <= j < |rows| && ActiveBranchOf(rows[j], userId) ==> rows[j].id <= r.value
  {
    if rows == [] then None
    else
      var rest := NewestActiveBranchId(rows[1..], userId);
      assert forall j :: 1 <= j < |rows| ==> rows[j] == rows[1..][j - 1];
      if !ActiveBranchOf(rows[0], userId) then rest
      else if rest.Some? && rest.value >= rows[0].id then rest
      else Some(rows[0].id)
  }

  /** An open branch is active, so once the user has an open branch the newest-active query
      finds one too. */
  lemma OpenBranchIsActive(rows: seq<BranchRow>, userId: int)
    requires OpenBranchId(rows, userId).Some?
    ensures NewestActiveBranchId(rows, userId).Some?
  {
    var k := FirstOpenBranch(rows, userId);
    assert ActiveBranchOf(rows[k], userId);
  }

  /** The three tables. */
  class Database {
    var categories: seq<CategoryRow>
    var branches: seq<BranchRow>
    var documents: seq<DocumentRow>

    constructor (categories: seq<CategoryRow>, branches: seq<BranchRow>, documents: seq<DocumentRow>)
      ensures this.categories == categories && this.branches == branches && this.documents == documents
    {
      this.categories, this.branches, this.documents := categories, branches, documents;
    }
  }
}
