/** The diff review page of the admin front end: how each field of a changed document or
    category is classified and rendered, the breadcrumb of a slug path, and the pull request
    body assembled from the fetched diff, the title and description fields and the chosen
    reviewers. */
module DiffReview {
  import opened Common

  /** The JSON values a diff field can hold (numbers are integers here). */
  datatype JsValue = Undefined | Null | Bool(b: bool) | Num(n: int) | Str(s: string)

  /** JavaScript truthiness of a field value. */
  predicate JsTruthy(v: JsValue) {
    match v
    case Undefined => false
    case Null => false
    case Bool(b) => b
    case Num(n) => n != 0
    case Str(s) => s != ""
  }

  datatype FieldStatus = Added | Deleted | Modified | Unchanged

  datatype DiffFieldInfo = DiffFieldInfo(status: FieldStatus, current: JsValue, original: JsValue)

  datatype ItemType = DocumentType | CategoryType

  datatype Operation = CreatedOp | UpdatedOp | DeletedOp

  /** One entry of `diff_data`: the field-level changes of one document or category. */
  datatype DiffDataInfo = DiffDataInfo(
    id: int, itemType: ItemType, operation: Operation, changedFields: map<string, DiffFieldInfo>)

  /** One document version or category of the diff response. */
  datatype DiffItem = DiffItem(id: int, slug: string, sidebarLabel: string, status: string)

  /** One entry of the `diff_items` sent with the pull request. */
  datatype ApiDiffItem = ApiDiffItem(id: int, itemType: ItemType)

  /** A reviewer candidate as listed by the reviewers endpoint. */
  datatype Reviewer = Reviewer(id: int, email: string)

  const DefaultPrTitle: string := "更新内容の提出"
  const DefaultPrDescription: string := "このPRはハンドブックの更新を含みます。"
  const MissingBranchMessage: string := "user_branch_idパラメータが必要です"
  const SubmittedMessage: string := "差分の提出が完了しました"
  const SubmittedWithPrPrefix: string := "差分の提出が完了しました。PR: "
  const SubmitFailedMessage: string := "差分の提出に失敗しました"
  const SubmitErrorMessage: string := "差分の提出中にエラーが発生しました"

  predicate Matches(entry: DiffDataInfo, id: int, itemType: ItemType) {
    entry.id == id && entry.itemType == itemType
  }

  /** `entries[k]` is the first entry for `id` and `itemType`. */
  predicate FirstMatchAt(entries: seq<DiffDataInfo>, id: int, itemType: ItemType, k: nat) {
    k < |entries| && Matches(entries[k], id, itemType) && forall j :: 0 <= j < k ==> !Matches(entries[j], id, itemType)
  }

  /** The index of the first entry for `id` and `itemType`, or `|entries|` when there is none. */
  function FindIndex(entries: seq<DiffDataInfo>, id: int, itemType: ItemType): (k: nat)
    ensures k <= |entries|
    ensures k < |entries| ==> Matches(entries[k], id, itemType)
    ensures forall j :: 0 <= j < k ==> !Matches(entries[j], id, itemType)
  {
    if entries == [] then 0
    else if Matches(entries[0], id, itemType) then 0
    else 1 + FindIndex(entries[1..], id, itemType)
  }

  /** `getDiffInfoById`: the first `diff_data` entry with that id and type; null when there
      is none, or when the diff (or its `diff_data`) is missing. */
  function GetDiffInfoById(diffData: Option<seq<DiffDataInfo>>, id: int, itemType: ItemType)
    : (r: Option<DiffDataInfo>)
    ensures diffData.None? ==> r.None?
    ensures diffData.Some? && r.None? ==> forall j :: 0 <= j < |diffData.value| ==> !Matches(diffData.value[j], id, itemType)
    ensures r.Some? ==> diffData.Some? && Matches(r.value, id, itemType)
    ensures r.Some? ==> exists k: nat :: FirstMatchAt(diffData.value, id, itemType, k) && diffData.value[k] == r.value
  {
    if diffData.None? then None
    else
      var k := FindIndex(diffData.value, id, itemType);
      if k < |diffData.value| then
        assert FirstMatchAt(diffData.value, id, itemType, k);
        Some(diffData.value[k])
      else None
  }

  /** `getFieldInfo`: without a diff record the field is unchanged; a deleted record marks
      every field deleted with no current value; otherwise a field recorded in
      `changed_fields` is shown as recorded and any other field is unchanged. */
  function GetFieldInfo(diffInfo: Option<DiffDataInfo>, fieldName: string, current: JsValue, original: JsValue)
    : (r: DiffFieldInfo)
    ensures diffInfo.None? ==> r == DiffFieldInfo(Unchanged, current, original)
    ensures diffInfo.Some? && diffInfo.value.operation == DeletedOp ==> r == DiffFieldInfo(Deleted, Null, original)
    ensures diffInfo.Some? && diffInfo.value.operation != DeletedOp ==>
              if fieldName in diffInfo.value.changedFields then r == diffInfo.value.changedFields[fieldName]
              else r == DiffFieldInfo(Unchanged, current, original)
  {
    if diffInfo.None? then DiffFieldInfo(Unchanged, current, original)
    else if diffInfo.value.operation == DeletedOp then DiffFieldInfo(Deleted, Null, original)
    else if fieldName !in diffInfo.value.changedFields then DiffFieldInfo(Unchanged, current, original)
    else diffInfo.value.changedFields[fieldName]
  }

  /** A field is only ever shown as changed because the diff says so: an unchanged result
      keeps the caller's values, and any other status comes from a record. */
  lemma ChangedOnlyByRecord(diffInfo: Option<DiffDataInfo>, fieldName: string, current: JsValue, original: JsValue)
    ensures var r := GetFieldInfo(diffInfo, fieldName, current, original);
            r.status != Unchanged ==>
              (diffInfo.Some?
               && (diffInfo.value.operation == DeletedOp
                   || (fieldName in diffInfo.value.changedFields && r == diffInfo.value.changedFields[fieldName])))
  {
  }

  /** The number a string of decimal digits denotes. */
  function DigitsValue(s: string): nat
    requires forall i :: 0 <= i < |s| ==> '0' <= s[i] <= '9'
  {
    if s == [] then 0 else 10 * DigitsValue(s[..|s| - 1]) + (s[|s| - 1] as int - '0' as int)
  }

  /** Reading the decimal text back gives the number. */
  lemma {:induction false} NatTextValue(n: nat)
    ensures DigitsValue(NatText(n)) == n
    decreases n
  {
    var s := NatText(n);
    if n >= 10 {
      NatTextValue(n / 10);
      assert s[..|s| - 1] == NatText(n / 10);
    }
  }

  /** `renderValue`: null and undefined show as "-", booleans as はい/いいえ, numbers as
      their decimal text and strings as themselves. */
  function RenderValue(v: JsValue): (r: string)
    ensures v.Undefined? || v.Null? ==> r == "-"
    ensures v.Bool? ==> r == if v.b then "はい" else "いいえ"
    ensures v.Num? ==> r == IntText(v.n)
    ensures v.Str? ==> r == v.s
  {
    match v
    case Undefined => "-"
    case Null => "-"
    case Bool(b) => if b then "はい" else "いいえ"
    case Num(n) => IntText(n)
    case Str(s) => s
  }

  /** A non-negative number renders as text that reads back as that number. */
  lemma RenderNumberReadsBack(n: nat)
    ensures forall i :: 0 <= i < |RenderValue(Num(n))| ==> '0' <= RenderValue(Num(n))[i] <= '9'
    ensures DigitsValue(RenderValue(Num(n))) == n
  {
    NatTextValue(n);
  }

  /** `current || original`, the value an unchanged field shows. */
  function UnchangedValue(info: DiffFieldInfo): (v: JsValue)
    ensures JsTruthy(info.current) ==> v == info.current
    ensures !JsTruthy(info.current) ==> v == info.original
  {
    if JsTruthy(info.current) then info.current else info.original
  }

  /** The boxes a field shows, top to bottom: the current value when added, the original
      when deleted, the original then the current when modified, and for an unchanged field
      the current value or, when that is falsy, the original. */
  function DisplayedValues(info: DiffFieldInfo): seq<string> {
    match info.status
    case Added => [RenderValue(info.current)]
    case Deleted => [RenderValue(info.original)]
    case Modified => [RenderValue(info.original), RenderValue(info.current)]
    case Unchanged => [RenderValue(UnchangedValue(info))]
  }

  /** A field of a deleted item shows just its original value. */
  lemma DeletedItemShowsOriginal(info: DiffDataInfo, fieldName: string, current: JsValue, original: JsValue)
    requires info.operation == DeletedOp
    ensures DisplayedValues(GetFieldInfo(Some(info), fieldName, current, original)) == [RenderValue(original)]
  {
  }

  /** `Object.fromEntries(arr.map(item => [item.slug, item]))`: entries are inserted in list
      order, so a later item overwrites an earlier one with the same slug. The keys are
      exactly the slugs of the items and every value is an item of the list under its slug. */
  function MapBySlug(items: seq<DiffItem>): (m: map<string, DiffItem>)
    ensures forall k :: 0 <= k < |items| ==> items[k].slug in m
    ensures forall slug :: slug in m ==> m[slug] in items && m[slug].slug == slug
  {
    if items == [] then map[]
    else
      var init := items[..|items| - 1];
      assert forall k :: 0 <= k < |init| ==> init[k] == items[k];
      MapBySlug(init)[items[|items| - 1].slug := items[|items| - 1]]
  }

  /** `items[k]` has `slug` and no later item has it. */
  predicate LastWithSlug(items: seq<DiffItem>, slug: string, k: nat) {
    k < |items| && items[k].slug == slug && forall j :: k < j < |items| ==> items[j].slug != slug
  }

  /** For a repeated slug the map keeps the last item with it. */
  lemma {:induction false} MapBySlugKeepsLast(items: seq<DiffItem>, slug: string, k: nat)
    requires LastWithSlug(items, slug, k)
    ensures MapBySlug(items)[slug] == items[k]
  {
    var init := items[..|items| - 1];
    if k < |items| - 1 {
      assert LastWithSlug(init, slug, k);
      MapBySlugKeepsLast(init, slug, k);
    }
  }

  /** `SlugBreadcrumb`: the slug is split into its non-empty segments and, walking them in
      order, `currentPath` grows by a '/' (except before the first) and the segment. Each
      path is the join of the segments so far and splits back into them. */
  method SlugBreadcrumb(slug: string) returns (parts: seq<string>, paths: seq<string>)
    ensures parts == SplitPath(slug)
    ensures |paths| == |parts|
    ensures forall i :: 0 <= i < |paths| ==> paths[i] == Join(parts[..i + 1], '/')
    ensures forall i :: 0 <= i < |paths| ==> SplitPath(paths[i]) == parts[..i + 1]
  {
    parts := SplitPath(slug);
    var currentPath := "";
    paths := [];
    var index := 0;
    while index < |parts|
      invariant 0 <= index <= |parts|
      invariant |paths| == index
      invariant currentPath == Join(parts[..index], '/')
      invariant forall i :: 0 <= i < index ==> paths[i] == Join(parts[..i + 1], '/')
    {
      PathStep(parts, index);
      currentPath := currentPath + (if index == 0 then "" else "/") + parts[index];
      paths := paths + [currentPath];
      index := index + 1;
    }
    forall i | 0 <= i < |paths| ensures SplitPath(paths[i]) == parts[..i + 1] {
      SplitPathJoin(parts[..i + 1]);
    }
  }

  /** One step of the breadcrumb walk: the path of one more segment is the previous path,
      a '/' unless it is the first, and the segment. */
  lemma PathStep(parts: seq<string>, index: nat)
    requires index < |parts|
    ensures Join(parts[..index + 1], '/') == Join(parts[..index], '/') + (if index == 0 then "" else "/") + parts[index]
  {
    assert parts[..index + 1] == parts[..index] + [parts[index]];
    if index > 0 {
      JoinSnoc(parts[..index], parts[index], '/');
    }
  }

  /** The optional arrays of the diff read as empty when missing. */
  function OrEmpty(items: Option<seq<DiffItem>>): seq<DiffItem> {
    if items.Some? then items.value else []
  }

  /** `diffItems` holds one entry per document version, then one per category, each group
      in its input order, and nothing else. */
  predicate ListsDiff(diffItems: seq<ApiDiffItem>, versions: Option<seq<DiffItem>>, categories: Option<seq<DiffItem>>) {
    && |diffItems| == |OrEmpty(versions)| + |OrEmpty(categories)|
    && (forall i :: 0 <= i < |OrEmpty(versions)| ==>
          diffItems[i] == ApiDiffItem(OrEmpty(versions)[i].id, DocumentType))
    && (forall j :: 0 <= j < |OrEmpty(categories)| ==>
          diffItems[|OrEmpty(versions)| + j] == ApiDiffItem(OrEmpty(categories)[j].id, CategoryType))
  }

  /** The description pins the list down: at most one list of items fits it. */
  lemma ListsDiffDetermines(a: seq<ApiDiffItem>, b: seq<ApiDiffItem>, versions: Option<seq<DiffItem>>,
                            categories: Option<seq<DiffItem>>)
    requires ListsDiff(a, versions, categories) && ListsDiff(b, versions, categories)
    ensures a == b
  {
    var n := |OrEmpty(versions)|;
    forall i | 0 <= i < |a| ensures a[i] == b[i] {
      if i >= n {
        var j := i - n;
        assert 0 <= j < |OrEmpty(categories)|;
        assert a[n + j] == ApiDiffItem(OrEmpty(categories)[j].id, CategoryType);
        assert b[n + j] == ApiDiffItem(OrEmpty(categories)[j].id, CategoryType);
      }
    }
  }

  /** The `diff_items` of `handleSubmitPR`. */
  method BuildDiffItems(versions: Option<seq<DiffItem>>, categories: Option<seq<DiffItem>>)
    returns (diffItems: seq<ApiDiffItem>)
    ensures ListsDiff(diffItems, versions, categories)
  {
    var docs, cats := OrEmpty(versions), OrEmpty(categories);
    diffItems := [];
    if versions.Some? {
      var i := 0;
      while i < |docs|
        invariant 0 <= i <= |docs| && |diffItems| == i
        invariant forall k :: 0 <= k < i ==> diffItems[k] == ApiDiffItem(docs[k].id, DocumentType)
      {
        diffItems := diffItems + [ApiDiffItem(docs[i].id, DocumentType)];
        i := i + 1;
      }
    }
    if categories.Some? {
      var j := 0;
      while j < |cats|
        invariant 0 <= j <= |cats| && |diffItems| == |docs| + j
        invariant forall k :: 0 <= k < |docs| ==> diffItems[k] == ApiDiffItem(docs[k].id, DocumentType)
        invariant forall k :: 0 <= k < j ==> diffItems[|docs| + k] == ApiDiffItem(cats[k].id, CategoryType)
      {
        diffItems := diffItems + [ApiDiffItem(cats[j].id, CategoryType)];
        j := j + 1;
      }
    }
  }

  /** The reviewer toggle: a selected id is removed, any other id is appended. */
  function ToggleReviewer(selected: seq<int>, id: int): (r: seq<int>)
    ensures id in r <==> id !in selected
    ensures forall x :: x != id ==> (x in r <==> x in selected)
    ensures id !in selected ==> r == selected + [id]
    ensures id in selected ==> IsSubsequence(r, selected)
    ensures id in selected ==> forall x :: multiset(r)[x] == if x == id then 0 else multiset(selected)[x]
  {
    if id in selected then
      FilterMultiset(selected, (x: int) => x != id);
      Filter(selected, (x: int) => x != id)
    else selected + [id]
  }

  /** Toggling an unselected reviewer on and off again restores the selection. */
  lemma ToggleTwiceRestores(selected: seq<int>, id: int)
    requires id !in selected
    ensures ToggleReviewer(ToggleReviewer(selected, id), id) == selected
  {
    var keep := (x: int) => x != id;
    assert ToggleReviewer(selected + [id], id) == Filter(selected + [id], keep);
    FilterSnocRejected(selected, id, keep);
    FilterKeepsAll(selected, keep);
  }

  /** The toggle never selects a reviewer twice. */
  lemma ToggleKeepsNoDuplicates(selected: seq<int>, id: int)
    requires NoDuplicates(selected)
    ensures NoDuplicates(ToggleReviewer(selected, id))
  {
    if id in selected {
      FilterNoDuplicates(selected, (x: int) => x != id);
    }
  }

  /** The reviewer search of the modal: the candidates whose lower-cased e-mail contains the
      lower-cased search text, in list order. */
  function ReviewerCandidates(users: seq<Reviewer>, search: string): (r: seq<Reviewer>)
    ensures forall i :: 0 <= i < |r| ==> r[i] in users && Includes(ToLower(r[i].email), ToLower(search))
    ensures forall i :: 0 <= i < |users| && Includes(ToLower(users[i].email), ToLower(search)) ==> users[i] in r
    ensures forall u :: multiset(r)[u] == if Includes(ToLower(u.email), ToLower(search)) then multiset(users)[u] else 0
    ensures IsSubsequence(r, users)
  {
    FilterMultiset(users, (u: Reviewer) => Includes(ToLower(u.email), ToLower(search)));
    Filter(users, (u: Reviewer) => Includes(ToLower(u.email), ToLower(search)))
  }

  /** An empty search lists every candidate. */
  lemma EmptySearchListsAll(users: seq<Reviewer>)
    ensures ReviewerCandidates(users, "") == users
  {
    forall i | 0 <= i < |users| ensures Includes(ToLower(users[i].email), ToLower("")) {
      IncludesEmpty(ToLower(users[i].email));
    }
    FilterKeepsAll(users, (u: Reviewer) => Includes(ToLower(u.email), ToLower("")));
  }

  /** The e-mails of a list of users, in order. */
  function Emails(users: seq<Reviewer>): (r: seq<string>)
    ensures |r| == |users| && forall i :: 0 <= i < |users| ==> r[i] == users[i].email
  {
    MapSeq(users, EmailOf)
  }

  function EmailOf(u: Reviewer): string {
    u.email
  }

  /** The listed users whose id is selected, each as often as it is listed, in list order. */
  function SelectedUsers(selected: seq<int>, users: seq<Reviewer>): (r: seq<Reviewer>)
    ensures forall i :: 0 <= i < |r| ==> r[i] in users && r[i].id in selected
    ensures forall i :: 0 <= i < |users| && users[i].id in selected ==> users[i] in r
    ensures forall u :: multiset(r)[u] == if u.id in selected then multiset(users)[u] else 0
    ensures IsSubsequence(r, users)
  {
    FilterMultiset(users, (u: Reviewer) => u.id in selected);
    Filter(users, (u: Reviewer) => u.id in selected)
  }

  /** `emails` holds the e-mail of every listed user whose id is selected and no other, in
      the order of the user list. */
  ghost predicate ListsSelectedEmails(emails: seq<string>, selected: seq<int>, users: seq<Reviewer>) {
    && (forall i :: 0 <= i < |users| && users[i].id in selected ==> users[i].email in emails)
    && (forall k :: 0 <= k < |emails| ==>
          exists i :: 0 <= i < |users| && users[i].id in selected && users[i].email == emails[k])
    && IsSubsequence(emails, Emails(users))
  }

  /** The e-mails of the selected users are those of the listed users whose id is selected,
      in the order of the user list. */
  lemma SelectedEmails(selected: seq<int>, users: seq<Reviewer>)
    ensures ListsSelectedEmails(Emails(SelectedUsers(selected, users)), selected, users)
  {
    EmailsOfChosen(SelectedUsers(selected, users), selected, users);
  }

  lemma EmailsOfChosen(chosen: seq<Reviewer>, selected: seq<int>, users: seq<Reviewer>)
    requires forall i :: 0 <= i < |chosen| ==> chosen[i] in users && chosen[i].id in selected
    requires forall i :: 0 <= i < |users| && users[i].id in selected ==> users[i] in chosen
    requires IsSubsequence(chosen, users)
    ensures ListsSelectedEmails(Emails(chosen), selected, users)
  {
    var emails := Emails(chosen);
    SubsequenceMap(chosen, users, EmailOf);
    forall i | 0 <= i < |users| && users[i].id in selected ensures users[i].email in emails {
      var k :| 0 <= k < |chosen| && chosen[k] == users[i];
      assert emails[k] == users[i].email;
    }
    forall k | 0 <= k < |emails|
      ensures exists i :: 0 <= i < |users| && users[i].id in selected && users[i].email == emails[k]
    {
      var i :| 0 <= i < |users| && users[i] == chosen[k];
    }
  }

  /** `reviewerEmails`: undefined when no reviewer is selected; otherwise the e-mails of the
      listed users whose id is selected, in the order of the user list. */
  function ReviewerEmails(selected: seq<int>, users: seq<Reviewer>): (r: Option<seq<string>>)
    ensures r.None? <==> selected == []
    ensures r.Some? ==> r.value == Emails(SelectedUsers(selected, users))
    ensures r.Some? ==> ListsSelectedEmails(r.value, selected, users)
  {
    if selected == [] then None
    else
      SelectedEmails(selected, users);
      Some(Emails(SelectedUsers(selected, users)))
  }

  /** `prTitle || '更新内容の提出'`. */
  function PrTitle(prTitle: string): (r: string)
    ensures r != ""
    ensures prTitle != "" ==> r == prTitle
    ensures prTitle == "" ==> r == DefaultPrTitle
  {
    if prTitle != "" then prTitle else DefaultPrTitle
  }

  /** `prDescription || 'このPRはハンドブックの更新を含みます。'`. */
  function PrDescription(prDescription: string): (r: string)
    ensures r != ""
    ensures prDescription != "" ==> r == prDescription
    ensures prDescription == "" ==> r == DefaultPrDescription
  {
    if prDescription != "" then prDescription else DefaultPrDescription
  }

  /** The argument of `createPullRequest`. `userBranchId` is the raw query parameter; its
      `parseInt` is not modelled. */
  datatype PullRequestBody = PullRequestBody(
    userBranchId: string,
    title: string,
    description: string,
    diffItems: seq<ApiDiffItem>,
    reviewers: Option<seq<string>>)

  /** What the fetched diff holds, as far as the pull request needs it. */
  datatype DiffResponse = DiffResponse(
    documentVersions: Option<seq<DiffItem>>,
    documentCategories: Option<seq<DiffItem>>,
    diffData: Option<seq<DiffDataInfo>>)

  /** How the awaited `createPullRequest` ended. */
  datatype SubmitOutcome =
    | SubmitThrew
    | SubmitAnswered(success: bool, prUrl: Option<string>, message: Option<string>)

  class DiffPage {
    var diffData: Option<DiffResponse>
    var prTitle: string
    var prDescription: string
    var selectedReviewers: seq<int>
    var users: seq<Reviewer>
    var isSubmitting: bool
    var submitError: Option<string>
    var submitSuccess: Option<string>

    constructor ()
      ensures diffData == None && prTitle == "" && prDescription == "" && selectedReviewers == []
      ensures users == [] && !isSubmitting && submitError == None && submitSuccess == None
    {
      diffData, prTitle, prDescription, selectedReviewers := None, "", "", [];
      users, isSubmitting, submitError, submitSuccess := [], false, None, None;
    }

    /** A click on a reviewer of the modal. */
    method ClickReviewer(id: int)
      modifies this`selectedReviewers
      ensures selectedReviewers == ToggleReviewer(old(selectedReviewers), id)
    {
      selectedReviewers := ToggleReviewer(selectedReviewers, id);
    }

    /** `handleSubmitPR`. `userBranchId` is the `user_branch_id` query parameter and
      `outcome` how the submission ended. A missing or empty parameter sets the error and
      sends nothing; otherwise the body is built from the diff, the fields and the
      selected reviewers. Either way the page stops submitting. */
    method HandleSubmitPR(userBranchId: Option<string>, outcome: SubmitOutcome)
      returns (request: Option<PullRequestBody>)
      modifies this`isSubmitting, this`submitError, this`submitSuccess
      ensures !isSubmitting
      ensures request.None? <==> !Truthy(userBranchId)
      ensures request.None? ==> submitError == Some(MissingBranchMessage) && submitSuccess == None
      ensures request.Some? ==>
                var docs := if diffData.Some? then diffData.value.documentVersions else None;
                var cats := if diffData.Some? then diffData.value.documentCategories else None;
                && request.value.userBranchId == userBranchId.value
                && request.value.title == PrTitle(prTitle)
                && request.value.description == PrDescription(prDescription)
                && request.value.reviewers == ReviewerEmails(selectedReviewers, users)
                && ListsDiff(request.value.diffItems, docs, cats)
      ensures request.Some? && outcome.SubmitAnswered? && outcome.success ==>
                submitError == None
                && submitSuccess == Some(if Truthy(outcome.prUrl) then SubmittedWithPrPrefix + outcome.prUrl.value
                                         else SubmittedMessage)
      ensures request.Some? && outcome.SubmitAnswered? && !outcome.success ==>
                submitSuccess == None && submitError == Some(OrElse(outcome.message, SubmitFailedMessage))
      ensures request.Some? && outcome.SubmitThrew? ==>
                submitSuccess == None && submitError == Some(SubmitErrorMessage)
    {
      isSubmitting := true;
      submitError := None;
      submitSuccess := None;
      if !Truthy(userBranchId) {
        submitError := Some(MissingBranchMessage);
        isSubmitting := false;
        return None;
      }
      var docs := if diffData.Some? then diffData.value.documentVersions else None;
      var cats := if diffData.Some? then diffData.value.documentCategories else None;
      var diffItems := BuildDiffItems(docs, cats);
      var reviewerEmails := ReviewerEmails(selectedReviewers, users);
      request := Some(PullRequestBody(userBranchId.value, PrTitle(prTitle), PrDescription(prDescription),
                                      diffItems, reviewerEmails));
      match outcome {
        case SubmitThrew =>
          submitError := Some(SubmitErrorMessage);
        case SubmitAnswered(success, prUrl, message) =>
          if success {
            submitSuccess := Some(if Truthy(prUrl) then SubmittedWithPrPrefix + prUrl.value else SubmittedMessage);
          } else {
            submitError := Some(OrElse(message, SubmitFailedMessage));
          }
      }
      isSubmitting := false;
    }
  }
}
