/** The document creation page of the admin front end: the slug field with its rule, the
    reviewer search box over the user list, and the save guard that builds the request. */
module CreateDocument {
  import opened Common
  import SlugRules

  datatype User = User(id: string, email: string)

  /** The two entries of the visibility select. */
  const PublicOption: string := "公開する"
  const PrivateOption: string := "公開しない"

  const TitleRequiredMessage: string := "タイトルを入力してください"
  const CreateFailedPrefix: string := "ドキュメントの作成に失敗しました: "
  const UnknownErrorMessage: string := "不明なエラーが発生しました"
  const UnknownErrorShort: string := "不明なエラー"

  /** The body posted to the create-document endpoint. `category` is the `category` query
      parameter of the page URL, null when absent. */
  datatype CreateDocumentRequest = CreateDocumentRequest(
    category: Option<string>,
    labelText: string,
    content: string,
    isPublic: bool,
    slug: string,
    fileOrder: string)

  /** How the awaited create call ended: it threw (with the `message` of the error, if any),
      or it answered. */
  datatype SaveOutcome = SaveThrew(message: Option<string>) | SaveAnswered(success: bool, message: Option<string>)

  /** What the user sees after pressing save: the title alert and no request, a redirect to
      the category's list, or the failure alert. */
  datatype SaveResult = TitleMissing | Redirect(url: string) | Failed(alert: string)

  /** `publicOption === '公開する'`. */
  predicate IsPublic(publicOption: string) {
    publicOption == PublicOption
  }

  /** The save button is disabled by a set slug error (`disabled={!!invalidSlug}`). */
  predicate SaveDisabled(invalidSlug: Option<string>) {
    Truthy(invalidSlug)
  }

  /** The request `handleSave` sends, or `None` when the title is empty and nothing is sent. */
  function SaveRequest(category: Option<string>, labelText: string, content: string, publicOption: string,
                       slug: string, fileOrder: string): (r: Option<CreateDocumentRequest>)
    ensures r == None <==> labelText == ""
    ensures r.Some? ==> (r.value.isPublic <==> publicOption == PublicOption)
    ensures r.Some? ==> r.value.category == category && r.value.labelText == labelText
                        && r.value.content == content && r.value.slug == slug && r.value.fileOrder == fileOrder
  {
    if labelText == "" then None
    else Some(CreateDocumentRequest(category, labelText, content, IsPublic(publicOption), slug, fileOrder))
  }

  /** A template literal renders a missing query parameter as "null". */
  function CategoryText(category: Option<string>): string {
    if category.Some? then category.value else "null"
  }

  /** The end of `handleSave`: an empty title stops before the call; a successful answer
      redirects to the category; an unsuccessful answer is rethrown with its message (or the
      unknown-error text), so the alert always carries a non-empty reason. */
  function HandleSave(category: Option<string>, labelText: string, outcome: SaveOutcome): (r: SaveResult)
    ensures r == TitleMissing <==> labelText == ""
    ensures r.Redirect? <==> labelText != "" && outcome.SaveAnswered? && outcome.success
    ensures r.Redirect? ==> r.url == "/admin/documents/" + CategoryText(category)
    ensures r.Failed? && outcome.SaveAnswered? ==>
              r.alert == CreateFailedPrefix + OrElse(outcome.message, UnknownErrorMessage)
    ensures r.Failed? && outcome.SaveThrew? ==>
              r.alert == CreateFailedPrefix + OrElse(outcome.message, UnknownErrorShort)
    ensures r.Failed? ==> |r.alert| > |CreateFailedPrefix|
  {
    if labelText == "" then TitleMissing
    else match outcome {
      case SaveAnswered(success, message) =>
        if success then Redirect("/admin/documents/" + CategoryText(category))
        else Failed(CreateFailedPrefix + OrElse(message, UnknownErrorMessage))
      case SaveThrew(message) =>
        Failed(CreateFailedPrefix + OrElse(message, UnknownErrorShort))
    }
  }

  /** The user search effect: an empty query shows every user; otherwise exactly the users
      whose lower-cased e-mail contains the lower-cased query, in their original order. */
  function FilterUsers(users: seq<User>, query: string): (r: seq<User>)
    ensures query == "" ==> r == users
    ensures forall i :: 0 <= i < |r| ==> r[i] in users && Includes(ToLower(r[i].email), ToLower(query))
    ensures forall i :: 0 <= i < |users| && Includes(ToLower(users[i].email), ToLower(query)) ==> users[i] in r
    ensures forall u :: multiset(r)[u] == if query == "" || Includes(ToLower(u.email), ToLower(query)) then multiset(users)[u] else 0
    ensures IsSubsequence(r, users)
  {
    if query == "" then
      ListIsSubsequence(users);
      users
    else
      FilterMultiset(users, (u: User) => Includes(ToLower(u.email), ToLower(query)));
      Filter(users, (u: User) => Includes(ToLower(u.email), ToLower(query)))
  }

  lemma {:induction false} ListIsSubsequence<T>(xs: seq<T>)
    ensures IsSubsequence(xs, xs)
  {
    if xs != [] {
      ListIsSubsequence(xs[1..]);
    }
  }

  /** The empty-query shortcut agrees with the filter: every e-mail contains the empty
      string, so running the filter on "" would also keep every user. */
  lemma EmptyQueryMatchesAll(users: seq<User>)
    ensures Filter(users, (u: User) => Includes(ToLower(u.email), ToLower(""))) == users
  {
    forall i | 0 <= i < |users| ensures Includes(ToLower(users[i].email), ToLower("")) {
      IncludesEmpty(ToLower(users[i].email));
    }
    FilterKeepsAll(users, (u: User) => Includes(ToLower(u.email), ToLower("")));
  }

  /** The search ignores ASCII case on both sides: upper-casing letters of the query does not
      change who is shown. */
  lemma QueryCaseIgnored(users: seq<User>, query: string, query2: string)
    requires ToLower(query) == ToLower(query2)
    ensures FilterUsers(users, query) == FilterUsers(users, query2)
  {
    assert |query2| == |query|;
  }

  /** After a slug edit the save button is disabled exactly when the slug rule reported an
      error. */
  lemma SaveDisabledIffSlugError(value: string)
    ensures SaveDisabled(SlugRules.SlugError(value)) <==> SlugRules.SlugError(value).Some?
  {
    SlugRules.SlugErrorIsTruthy(value);
  }

  class CreateDocumentPage {
    var labelText: string
    var publicOption: string
    var slug: string
    var fileOrder: string
    var invalidSlug: Option<string>
    var searchQuery: string
    var users: seq<User>
    var filteredUsers: seq<User>

    /** The search effect has run on the current users and query. */
    predicate Valid()
      reads this
    {
      filteredUsers == FilterUsers(users, searchQuery)
    }

    constructor ()
      ensures Valid()
      ensures labelText == "" && publicOption == PublicOption && slug == "" && fileOrder == ""
      ensures invalidSlug == None && searchQuery == "" && users == [] && filteredUsers == []
    {
      labelText, publicOption, slug, fileOrder := "", PublicOption, "", "";
      invalidSlug, searchQuery, users, filteredUsers := None, "", [], [];
    }

    /** `handleSlugChange`: the value is stored and the slug rule re-run on it. */
    method HandleSlugChange(value: string)
      modifies this`slug, this`invalidSlug
      ensures slug == value && invalidSlug == SlugRules.SlugError(value)
    {
      slug := value;
      invalidSlug := SlugRules.SlugError(value);
    }

    /** Typing in the search box; the effect then recomputes the shown users. */
    method SetSearchQuery(query: string)
      modifies this`searchQuery, this`filteredUsers
      ensures Valid() && searchQuery == query && filteredUsers == FilterUsers(users, query)
    {
      searchQuery := query;
      filteredUsers := FilterUsers(users, searchQuery);
    }

    /** The users fetch: a response carrying users replaces the list, then the effect filters
      it by the current query; a response without users changes nothing. */
    method LoadUsers(response: Option<seq<User>>)
      requires Valid()
      modifies this`users, this`filteredUsers
      ensures Valid()
      ensures response.Some? ==> users == response.value
      ensures response.None? ==> users == old(users) && filteredUsers == old(filteredUsers)
    {
      if response.Some? {
        users := response.value;
        filteredUsers := response.value;
        filteredUsers := FilterUsers(users, searchQuery);
      }
    }
  }
}
