/** The `GET /` route of the document admin API. It lists the documents and sub-categories
    of the category named by the `slug` path that the caller may see. The rows come from
    two SQL queries, and the documents and categories are then post-processed in
    JavaScript: mapped, filtered and sorted. */
module GetDocuments {
  import opened Common
  import opened Tables
  import Sessions

  datatype DocumentResponse = DocumentResponse(
    sidebarLabel: Option<string>,
    slug: Option<string>,
    isPublic: bool,
    status: string,
    lastEditedBy: Option<string>,
    fileOrder: Option<int>)

  datatype CategoryResponse = CategoryResponse(slug: string, sidebarLabel: string)

  /** The answer of the route. */
  datatype ListResponse = Unauthorized | Listed(documents: seq<DocumentResponse>, categories: seq<CategoryResponse>)

  /** `(req.query.slug as string) || ''` split on '/' with the empty segments dropped. */
  function CategoryPath(slugParam: Option<string>): (path: seq<string>)
    ensures forall k :: 0 <= k < |path| ==> path[k] != "" && '/' !in path[k]
    ensures !Truthy(slugParam) ==> path == []
  {
    SplitPathEmpty();
    SplitPath(OrElse(slugParam, ""))
  }

  /** The path of a category nested as `a/b/c` is its segments, and a leading, trailing or
      doubled '/' makes no difference. */
  lemma CategoryPathOfJoin(segments: seq<string>)
    requires |segments| >= 1
    requires forall k :: 0 <= k < |segments| ==> segments[k] != "" && '/' !in segments[k]
    ensures CategoryPath(Some(Join(segments, '/'))) == segments
  {
    SplitPathJoin(segments);
    assert Join(segments, '/') != "" by {
      JoinNonEmpty(segments);
    }
  }

  lemma {:induction false} JoinNonEmpty(segments: seq<string>)
    requires |segments| >= 1 && segments[0] != ""
    ensures Join(segments, '/') != ""
  {
    if |segments| > 1 {
      assert Join(segments, '/') == segments[0] + ['/'] + Join(segments[1..], '/');
    }
  }

  // ---------------------------------------------------------------------------
  // The SQL side

  /** The WHERE clause of the documents query: the category matches, the row is live and it
      is either pushed or merged, or a draft of the caller's branch. */
  predicate Visible(row: DocumentRow, categoryId: Option<int>, branchId: Option<int>) {
    && SqlEq(row.categoryId, categoryId)
    && !row.isDeleted
    && (row.status == "pushed" || row.status == "merged" || (SqlEq(row.userBranchId, branchId) && row.status == "draft"))
  }

  /** The documents query; it has no ORDER BY, and the model keeps table order. */
  function SelectDocuments(rows: seq<DocumentRow>, categoryId: Option<int>, branchId: Option<int>)
    : (r: seq<DocumentRow>)
    ensures forall i :: 0 <= i < |r| ==> r[i] in rows && Visible(r[i], categoryId, branchId)
    ensures forall i :: 0 <= i < |rows| && Visible(rows[i], categoryId, branchId) ==> rows[i] in r
    ensures forall row :: multiset(r)[row] == if Visible(row, categoryId, branchId) then multiset(rows)[row] else 0
    ensures IsSubsequence(r, rows)
  {
    FilterMultiset(rows, (row: DocumentRow) => Visible(row, categoryId, branchId));
    Filter(rows, (row: DocumentRow) => Visible(row, categoryId, branchId))
  }

  /** Without a working branch no draft is listed: the branch test is SQL `=` against a
      null, so only pushed and merged rows remain. */
  lemma NullBranchHidesDrafts(rows: seq<DocumentRow>, categoryId: Option<int>)
    ensures forall i :: 0 <= i < |SelectDocuments(rows, categoryId, None)| ==>
              SelectDocuments(rows, categoryId, None)[i].status in {"pushed", "merged"}
  {
  }

  predicate SubCategoryOf(row: CategoryRow, categoryId: Option<int>, branchId: Option<int>) {
    SqlEq(row.parentId, categoryId) && SqlEq(row.userBranchId, branchId)
  }

  /** The sort keys of the JavaScript comparator: a number, or NaN. */
  datatype SortKey = NaNKey | NumKey(v: int)

  /** The comparator result `a - b`, where a NaN result counts as +0, as `Array.prototype.sort`
      treats it. */
  function Compare(a: SortKey, b: SortKey): int {
    if a.NumKey? && b.NumKey? then a.v - b.v else 0
  }

  /** Places `x` before the first element that compares strictly greater. */
  function Insert<T>(x: T, ys: seq<T>, key: T -> SortKey): (r: seq<T>)
    ensures |r| == |ys| + 1
    ensures multiset(r) == multiset(ys) + multiset{x}
    ensures forall i :: 0 <= i < |r| ==> r[i] == x || r[i] in ys
  {
    if ys == [] then [x]
    else if Compare(key(x), key(ys[0])) < 0 then [x] + ys
    else
      var rest := Insert(x, ys[1..], key);
      assert ys == [ys[0]] + ys[1..];
      assert forall i :: 1 <= i < 1 + |rest| ==> ([ys[0]] + rest)[i] == rest[i - 1];
      [ys[0]] + rest
  }

  /** A stable insertion sort by the comparator: the elements are inserted in list order,
      each after those comparing equal. For the comparators used here (all keys numbers, or
      all NaN) every stable sort gives this result. */
  function SortBy<T>(xs: seq<T>, key: T -> SortKey): (r: seq<T>)
    ensures |r| == |xs|
    ensures multiset(r) == multiset(xs)
  {
    if xs == [] then []
    else
      assert xs == xs[..|xs| - 1] + [xs[|xs| - 1]];
      Insert(xs[|xs| - 1], SortBy(xs[..|xs| - 1], key), key)
  }

  /** The sort only rearranges: each element of its result is an element of its input. */
  lemma SortByElements<T>(xs: seq<T>, key: T -> SortKey)
    ensures forall i :: 0 <= i < |xs| ==> SortBy(xs, key)[i] in xs
  {
    var r := SortBy(xs, key);
    forall i | 0 <= i < |xs| ensures r[i] in xs {
      assert r[i] in multiset(xs);
    }
  }

  predicate AllNumbers<T>(xs: seq<T>, key: T -> SortKey) {
    forall i :: 0 <= i < |xs| ==> key(xs[i]).NumKey?
  }

  /** Both keys are numbers and the first is at most the second. */
  predicate Le(a: SortKey, b: SortKey) {
    a.NumKey? && b.NumKey? && a.v <= b.v
  }

  /** Every key is at most every later one. */
  predicate Ascending<T>(xs: seq<T>, key: T -> SortKey) {
    forall i, j :: 0 <= i < j < |xs| ==> Le(key(xs[i]), key(xs[j]))
  }

  /** A key below both `x` and every element of `ys` stays below all of `Insert(x, ys)`. */
  lemma InsertLowerBound<T>(b: SortKey, x: T, ys: seq<T>, key: T -> SortKey)
    requires Le(b, key(x)) && forall i :: 0 <= i < |ys| ==> Le(b, key(ys[i]))
    ensures forall i :: 0 <= i < |ys| + 1 ==> Le(b, key(Insert(x, ys, key)[i]))
  {
    var r := Insert(x, ys, key);
    forall i | 0 <= i < |r| ensures Le(b, key(r[i])) {
      if r[i] != x {
        var m :| 0 <= m < |ys| && ys[m] == r[i];
      }
    }
  }

  lemma {:induction false} InsertAscending<T>(x: T, ys: seq<T>, key: T -> SortKey)
    requires key(x).NumKey? && AllNumbers(ys, key) && Ascending(ys, key)
    ensures Ascending(Insert(x, ys, key), key)
  {
    if ys == [] {
    } else if Compare(key(x), key(ys[0])) < 0 {
      var r := Insert(x, ys, key);
      assert r == [x] + ys;
      forall i, j | 0 <= i < j < |r| ensures Le(key(r[i]), key(r[j])) {
        if i == 0 {
          assert r[j] == ys[j - 1];
          if j > 1 {
            assert Le(key(ys[0]), key(ys[j - 1]));
          }
        } else {
          assert r[i] == ys[i - 1] && r[j] == ys[j - 1];
        }
      }
    } else {
      var tail := ys[1..];
      assert AllNumbers(tail, key) && Ascending(tail, key) by {
        assert forall i :: 0 <= i < |tail| ==> tail[i] == ys[i + 1];
      }
      InsertAscending(x, tail, key);
      var rest := Insert(x, tail, key);
      assert forall i :: 0 <= i < |tail| ==> Le(key(ys[0]), key(tail[i])) by {
        assert forall i :: 0 <= i < |tail| ==> tail[i] == ys[i + 1];
      }
      InsertLowerBound(key(ys[0]), x, tail, key);
      var r := Insert(x, ys, key);
      assert r == [ys[0]] + rest;
      forall i, j | 0 <= i < j < |r| ensures Le(key(r[i]), key(r[j])) {
        assert r[j] == rest[j - 1];
        if i > 0 {
          assert r[i] == rest[i - 1];
        }
      }
    }
  }

  /** With numeric keys the sort gives ascending keys. */
  lemma {:induction false} SortByAscending<T>(xs: seq<T>, key: T -> SortKey)
    requires AllNumbers(xs, key)
    ensures Ascending(SortBy(xs, key), key)
    ensures AllNumbers(SortBy(xs, key), key)
  {
    if xs != [] {
      var init := xs[..|xs| - 1];
      assert AllNumbers(init, key);
      SortByAscending(init, key);
      InsertAscending(xs[|xs| - 1], SortBy(init, key), key);
      var r := SortBy(xs, key);
      forall i | 0 <= i < |r| ensures key(r[i]).NumKey? {
        if r[i] != xs[|xs| - 1] {
          var j :| 0 <= j < |SortBy(init, key)| && SortBy(init, key)[j] == r[i];
        }
      }
    }
  }

  lemma {:induction false} InsertAtEnd<T>(x: T, ys: seq<T>, key: T -> SortKey)
    requires forall i :: 0 <= i < |ys| ==> Compare(key(x), key(ys[i])) >= 0
    ensures Insert(x, ys, key) == ys + [x]
  {
    if ys != [] {
      InsertAtEnd(x, ys[1..], key);
      assert [ys[0]] + (ys[1..] + [x]) == ys + [x];
    }
  }

  /** When every comparison yields NaN the sort keeps the list as it is. */
  lemma {:induction false} SortByAllNaN<T>(xs: seq<T>, key: T -> SortKey)
    requires forall i :: 0 <= i < |xs| ==> key(xs[i]).NaNKey?
    ensures SortBy(xs, key) == xs
  {
    if xs != [] {
      var init := xs[..|xs| - 1];
      SortByAllNaN(init, key);
      InsertAtEnd(xs[|xs| - 1], init, key);
      assert init + [xs[|xs| - 1]] == xs;
    }
  }

  /** `ORDER BY position ASC` in SQLite: the null positions first, then the rest ascending.
      Rows with equal positions keep table order here, an order SQL leaves open. */
  function OrderByPosition(rows: seq<CategoryRow>): (r: seq<CategoryRow>)
    ensures multiset(r) == multiset(rows)
    ensures forall i, j :: 0 <= i < j < |r| && r[j].position.None? ==> r[i].position.None?
    ensures forall i, j :: 0 <= i < j < |r| && r[i].position.Some? ==>
              r[j].position.Some? && r[i].position.value <= r[j].position.value
  {
    var numbered := Filter(rows, (row: CategoryRow) => row.position.Some?);
    assert AllNumbers(numbered, PositionSortKey);
    SortByAscending(numbered, PositionSortKey);
    NullsThenAscending(Filter(rows, (row: CategoryRow) => row.position.None?), SortBy(numbered, PositionSortKey));
    SplitByNullKeepsRows(rows);
    Filter(rows, (row: CategoryRow) => row.position.None?) + SortBy(numbered, PositionSortKey)
  }

  lemma SplitByNullKeepsRows(rows: seq<CategoryRow>)
    ensures multiset(Filter(rows, (row: CategoryRow) => row.position.None?))
            + multiset(Filter(rows, (row: CategoryRow) => row.position.Some?)) == multiset(rows)
  {
    FilterMultiset(rows, (row: CategoryRow) => row.position.None?);
    FilterMultiset(rows, (row: CategoryRow) => row.position.Some?);
  }

  /** Null positions followed by ascending numeric positions are in `ORDER BY position` order. */
  lemma NullsThenAscending(nulls: seq<CategoryRow>, sorted: seq<CategoryRow>)
    requires forall i :: 0 <= i < |nulls| ==> nulls[i].position.None?
    requires AllNumbers(sorted, PositionSortKey) && Ascending(sorted, PositionSortKey)
    ensures var r := nulls + sorted;
            && (forall i, j :: 0 <= i < j < |r| && r[j].position.None? ==> r[i].position.None?)
            && (forall i, j :: 0 <= i < j < |r| && r[i].position.Some? ==>
                  r[j].position.Some? && r[i].position.value <= r[j].position.value)
  {
    var r := nulls + sorted;
    var n := |nulls|;
    forall i, j | 0 <= i < j < |r| && r[i].position.Some?
      ensures r[j].position.Some? && r[i].position.value <= r[j].position.value
    {
      assert i >= n;
      assert r[i] == sorted[i - n] && r[j] == sorted[j - n];
      assert Le(PositionSortKey(sorted[i - n]), PositionSortKey(sorted[j - n]));
    }
  }

  function PositionSortKey(row: CategoryRow): SortKey {
    if row.position.Some? then NumKey(row.position.value) else NaNKey
  }

  /** A column as the JavaScript reads it from a result row: a column the SELECT did not
      list reads as `undefined`. */
  datatype Column = Undefined | NullValue | Number(n: int)

  /** A row of the sub-category query. */
  datatype SubCategoryRow = SubCategoryRow(slug: string, sidebarLabel: string, position: Column)

  function Matching(rows: seq<CategoryRow>, categoryId: Option<int>, branchId: Option<int>): seq<CategoryRow> {
    Filter(rows, (row: CategoryRow) => SubCategoryOf(row, categoryId, branchId))
  }

  /** The sub-category query as written: `SELECT slug, sidebar_label ... ORDER BY position
      ASC`, so the rows it hands back carry no position. */
  function SelectSubCategoriesAsWritten(rows: seq<CategoryRow>, categoryId: Option<int>, branchId: Option<int>)
    : (r: seq<SubCategoryRow>)
    ensures forall i :: 0 <= i < |r| ==> r[i].position == Undefined
  {
    MapSeq(OrderByPosition(Matching(rows, categoryId, branchId)),
           (row: CategoryRow) => SubCategoryRow(row.slug, row.sidebarLabel, Undefined))
  }

  function PositionColumn(position: Option<int>): Column {
    if position.Some? then Number(position.value) else NullValue
  }

  /** The sub-category query with the position column selected, which the post-processing
      below evidently expects. */
  function SelectSubCategories(rows: seq<CategoryRow>, categoryId: Option<int>, branchId: Option<int>)
    : (r: seq<SubCategoryRow>)
    ensures forall i :: 0 <= i < |r| ==> r[i].position != Undefined
  {
    MapSeq(OrderByPosition(Matching(rows, categoryId, branchId)),
           (row: CategoryRow) => SubCategoryRow(row.slug, row.sidebarLabel, PositionColumn(row.position)))
  }

  // ---------------------------------------------------------------------------
  // The JavaScript side

  /** `transformers.toDocumentResponse`: `isPublic` is the truthiness of the stored value,
      every other field is copied. */
  function ToDocumentResponse(row: DocumentRow): (d: DocumentResponse)
    ensures d.isPublic <==> row.isPublic.Some? && row.isPublic.value != 0
    ensures d.sidebarLabel == row.sidebarLabel && d.slug == row.slug && d.status == row.status
    ensures d.lastEditedBy == row.lastEditedBy && d.fileOrder == row.fileOrder
  {
    DocumentResponse(row.sidebarLabel, row.slug, row.isPublic.Some? && row.isPublic.value != 0,
                     row.status, row.lastEditedBy, row.fileOrder)
  }

  /** `a.fileOrder! - b.fileOrder!`: the key is the number (a null would count as 0, but the
      filter has removed those). */
  function FileOrderKey(d: DocumentResponse): SortKey {
    NumKey(if d.fileOrder.Some? then d.fileOrder.value else 0)
  }

  function WithFileOrder(documents: seq<DocumentResponse>): seq<DocumentResponse> {
    Filter(documents, (d: DocumentResponse) => d.fileOrder.Some?)
  }

  /** `sortedDocuments`: the documents without a file order are dropped and the rest are
      rearranged into ascending file order. */
  function SortDocuments(rows: seq<DocumentRow>): (r: seq<DocumentResponse>)
    ensures multiset(r) == multiset(WithFileOrder(MapSeq(rows, ToDocumentResponse)))
    ensures forall i :: 0 <= i < |r| ==> r[i].fileOrder.Some?
    ensures forall i, j :: 0 <= i < j < |r| ==> r[i].fileOrder.Some? && r[j].fileOrder.Some? && r[i].fileOrder.value <= r[j].fileOrder.value
  {
    var kept := WithFileOrder(MapSeq(rows, ToDocumentResponse));
    SortByAscending(kept, FileOrderKey);
    var r := SortBy(kept, FileOrderKey);
    forall i, j | 0 <= i < j < |r|
      ensures r[i].fileOrder.Some? && r[j].fileOrder.Some? && r[i].fileOrder.value <= r[j].fileOrder.value
    {
      assert r[i] in multiset(kept) && r[j] in multiset(kept);
      assert Le(FileOrderKey(r[i]), FileOrderKey(r[j]));
    }
    forall i | 0 <= i < |r| ensures r[i].fileOrder.Some? {
      assert r[i] in multiset(kept);
    }
    r
  }

  /** `subCategories.find(c => c.slug === slug)`. */
  function FindBySlug(rows: seq<SubCategoryRow>, slug: string): (r: Option<SubCategoryRow>)
    ensures r.Some? ==> r.value in rows && r.value.slug == slug
    ensures r.None? <==> forall i :: 0 <= i < |rows| ==> rows[i].slug != slug
    ensures r.Some? ==> exists k :: 0 <= k < |rows| && rows[k] == r.value && forall j :: 0 <= j < k ==> rows[j].slug != slug
  {
    if rows == [] then None
    else if rows[0].slug == slug then Some(rows[0])
    else
      var r := FindBySlug(rows[1..], slug);
      assert r.Some? ==> exists k :: 0 <= k < |rows| && rows[k] == r.value && forall j :: 0 <= j < k ==> rows[j].slug != slug by {
        if r.Some? {
          var k :| 0 <= k < |rows[1..]| && rows[1..][k] == r.value && forall j :: 0 <= j < k ==> rows[1..][j].slug != slug;
          assert rows[k + 1] == r.value && forall j :: 0 <= j < k + 1 ==> rows[j].slug != slug;
        }
      }
      r
  }

  function ToCategoryResponse(row: SubCategoryRow): CategoryResponse {
    CategoryResponse(row.slug, row.sidebarLabel)
  }

  /** `originalCat?.position !== null`: only a found row whose position is null drops a
      category; an undefined position does not. */
  predicate KeepCategory(rows: seq<SubCategoryRow>, c: CategoryResponse) {
    var found := FindBySlug(rows, c.slug);
    !(found.Some? && found.value.position == NullValue)
  }

  /** `Number(subCategories.find(...)?.position)`: undefined gives NaN and null gives 0. */
  function CategoryKey(rows: seq<SubCategoryRow>, c: CategoryResponse): SortKey {
    var found := FindBySlug(rows, c.slug);
    if found.None? then NaNKey
    else match found.value.position
      case Undefined => NaNKey
      case NullValue => NumKey(0)
      case Number(n) => NumKey(n)
  }

  /** `sortedCategories`: map, filter, then sort by the position of the first row with the
      same slug. */
  function SortCategories(rows: seq<SubCategoryRow>): (r: seq<CategoryResponse>)
    ensures |r| <= |rows|
    ensures forall i :: 0 <= i < |r| ==> r[i] in MapSeq(rows, ToCategoryResponse) && KeepCategory(rows, r[i])
  {
    var kept := Filter(MapSeq(rows, ToCategoryResponse), (c: CategoryResponse) => KeepCategory(rows, c));
    SortByElements(kept, (c: CategoryResponse) => CategoryKey(rows, c));
    SortBy(kept, (c: CategoryResponse) => CategoryKey(rows, c))
  }

  /** As the route is written the filter keeps every sub-category and every comparison is
      NaN, so the answer is the query's rows in SQL order, null positions included. */
  lemma AsWrittenKeepsSqlOrder(table: seq<CategoryRow>, categoryId: Option<int>, branchId: Option<int>)
    ensures SortCategories(SelectSubCategoriesAsWritten(table, categoryId, branchId))
            == MapSeq(OrderByPosition(Matching(table, categoryId, branchId)),
                      (row: CategoryRow) => CategoryResponse(row.slug, row.sidebarLabel))
  {
    var ordered := OrderByPosition(Matching(table, categoryId, branchId));
    var rows := SelectSubCategoriesAsWritten(table, categoryId, branchId);
    UndefinedPositionsKeepOrder(rows);
    var shown := MapSeq(ordered, (row: CategoryRow) => CategoryResponse(row.slug, row.sidebarLabel));
    assert MapSeq(rows, ToCategoryResponse) == shown;
  }

  /** Rows without a position column are all kept and stay in their order. */
  lemma {:induction false} UndefinedPositionsKeepOrder(rows: seq<SubCategoryRow>)
    requires forall i :: 0 <= i < |rows| ==> rows[i].position == Undefined
    ensures SortCategories(rows) == MapSeq(rows, ToCategoryResponse)
  {
    var cats := MapSeq(rows, ToCategoryResponse);
    forall i | 0 <= i < |cats| ensures KeepCategory(rows, cats[i]) && CategoryKey(rows, cats[i]).NaNKey? {
      assert rows[i].slug == cats[i].slug;
    }
    FilterKeepsAll(cats, (c: CategoryResponse) => KeepCategory(rows, c));
    SortByAllNaN(cats, (c: CategoryResponse) => CategoryKey(rows, c));
  }

  /** The discrepancy on a concrete table: a sub-category with a null position is listed. */
  lemma AsWrittenListsNullPosition()
    ensures var table := [CategoryRow(2, "guide", "Guide", None, None, "draft", None, Some(7), Some(1), 0, 0, false)];
            SortCategories(SelectSubCategoriesAsWritten(table, Some(1), Some(7))) == [CategoryResponse("guide", "Guide")]
  {
    var row := CategoryRow(2, "guide", "Guide", None, None, "draft", None, Some(7), Some(1), 0, 0, false);
    var table := [row];
    AsWrittenKeepsSqlOrder(table, Some(1), Some(7));
    assert Matching(table, Some(1), Some(7)) == table by {
      assert SubCategoryOf(row, Some(1), Some(7));
      FilterKeepsAll(table, (r: CategoryRow) => SubCategoryOf(r, Some(1), Some(7)));
    }
    var nulls := Filter(table, (r: CategoryRow) => r.position.None?);
    var numbered := Filter(table, (r: CategoryRow) => r.position.Some?);
    assert nulls == table by {
      FilterKeepsAll(table, (r: CategoryRow) => r.position.None?);
    }
    assert numbered == [];
    assert OrderByPosition(table) == table;
    var shown := MapSeq(table, (r: CategoryRow) => CategoryResponse(r.slug, r.sidebarLabel));
    assert |shown| == 1 && shown[0] == CategoryResponse("guide", "Guide");
  }

  /** When every row carries its position, each category kept by the filter has a row under
      its slug whose position is a number. */
  lemma KeptCategoriesHavePositions(rows: seq<SubCategoryRow>)
    requires forall i :: 0 <= i < |rows| ==> rows[i].position != Undefined
    ensures var kept := Filter(MapSeq(rows, ToCategoryResponse), (c: CategoryResponse) => KeepCategory(rows, c));
            forall i :: 0 <= i < |kept| ==> CategoryKey(rows, kept[i]).NumKey?
                                            && FindBySlug(rows, kept[i].slug).Some?
                                            && FindBySlug(rows, kept[i].slug).value.position.Number?
  {
    var cats := MapSeq(rows, ToCategoryResponse);
    var kept := Filter(cats, (c: CategoryResponse) => KeepCategory(rows, c));
    forall i | 0 <= i < |kept|
      ensures FindBySlug(rows, kept[i].slug).Some? && FindBySlug(rows, kept[i].slug).value.position.Number?
    {
      var j :| 0 <= j < |cats| && cats[j] == kept[i];
      assert rows[j].slug == kept[i].slug;
      var found := FindBySlug(rows, kept[i].slug);
      var m :| 0 <= m < |rows| && rows[m] == found.value;
    }
  }

  /** When every row carries its position (as with the corrected query): no listed category
      has a null position, the categories come in ascending position order, and they are
      exactly the kept ones rearranged. */
  lemma CategoriesDropNullAndSort(rows: seq<SubCategoryRow>)
    requires forall i :: 0 <= i < |rows| ==> rows[i].position != Undefined
    ensures var r := SortCategories(rows);
            && (forall i :: 0 <= i < |r| ==>
                  FindBySlug(rows, r[i].slug).Some? && FindBySlug(rows, r[i].slug).value.position.Number?)
            && Ascending(r, (c: CategoryResponse) => CategoryKey(rows, c))
            && multiset(r) == multiset(Filter(MapSeq(rows, ToCategoryResponse), (c: CategoryResponse) => KeepCategory(rows, c)))
  {
    var key := (c: CategoryResponse) => CategoryKey(rows, c);
    var kept := Filter(MapSeq(rows, ToCategoryResponse), (c: CategoryResponse) => KeepCategory(rows, c));
    KeptCategoriesHavePositions(rows);
    assert AllNumbers(kept, key);
    SortByAscending(kept, key);
    var r := SortBy(kept, key);
    forall i | 0 <= i < |r|
      ensures FindBySlug(rows, r[i].slug).Some? && FindBySlug(rows, r[i].slug).value.position.Number?
    {
      assert r[i] in multiset(kept);
      var j :| 0 <= j < |kept| && kept[j] == r[i];
    }
  }

  /** The corrected route lists no sub-category whose position is null. */
  lemma CorrectedDropsNullPositions(table: seq<CategoryRow>, categoryId: Option<int>, branchId: Option<int>)
    ensures var rows := SelectSubCategories(table, categoryId, branchId);
            var r := SortCategories(rows);
            forall i :: 0 <= i < |r| ==> FindBySlug(rows, r[i].slug).Some? && FindBySlug(rows, r[i].slug).value.position.Number?
  {
    CategoriesDropNullAndSort(SelectSubCategories(table, categoryId, branchId));
  }

  // ---------------------------------------------------------------------------
  // The handler

  /** The route. `sid` is the session cookie and `now` the current time; `resolvePath` is
      the category path resolver. The caller's branch is their first open branch, or null.
      The sub-categories come from the query as written, without its position column, so
      they are listed in SQL order with null positions included; `CategoriesDropNullAndSort`
      states what the query with the position selected would give. */
  method GetDocumentsRoute(store: Sessions.SessionStore, db: Database, sid: Option<string>, now: int,
                           slugParam: Option<string>, resolvePath: seq<string> -> Option<int>)
    returns (response: ListResponse)
    ensures store.GetSessionUser(sid, now).None? <==> response == Unauthorized
    ensures response.Listed? ==>
              var user := store.GetSessionUser(sid, now).value;
              var categoryId := resolvePath(CategoryPath(slugParam));
              var branchId := OpenBranchId(db.branches, user.userId);
              && response.documents == SortDocuments(SelectDocuments(db.documents, categoryId, branchId))
              && response.categories == SortCategories(SelectSubCategoriesAsWritten(db.categories, categoryId, branchId))
              && response.categories == MapSeq(OrderByPosition(Matching(db.categories, categoryId, branchId)),
                                               (row: CategoryRow) => CategoryResponse(row.slug, row.sidebarLabel))
  {
    var loginUser := store.GetSessionUser(sid, now);
    if loginUser.None? {
      return Unauthorized;
    }
    var categoryPath := CategoryPath(slugParam);
    var currentCategoryId := resolvePath(categoryPath);
    var userBranchId: Option<int>;
    var k := FirstOpenBranch(db.branches, loginUser.value.userId);
    if k < |db.branches| {
      userBranchId := Some(db.branches[k].id);
    } else {
      userBranchId := None;
    }
    var subCategories := SelectSubCategoriesAsWritten(db.categories, currentCategoryId, userBranchId);
    AsWrittenKeepsSqlOrder(db.categories, currentCategoryId, userBranchId);
    var documents := SelectDocuments(db.documents, currentCategoryId, userBranchId);
    response := Listed(SortDocuments(documents), SortCategories(subCategories));
  }
}
