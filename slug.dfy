/** The slug rule that the category modal of the document list page and the document
    creation page both apply on every keystroke (`validateSlug`). */
module SlugRules {
  import opened Common

  /** Words that collide with the admin routes. */
  const ReservedSlugs: seq<string> := ["create", "edit", "new", "delete", "update"]

  const CharsetMessage: string := "英数字とハイフン(-)のみ使用できます"

  function ReservedMessage(value: string): string {
    "\"" + value + "\" は予約語のため使用できません"
  }

  /** One character of the class `[a-z0-9-]` matched case-insensitively. */
  predicate IsSlugChar(c: char) {
    'a' <= c <= 'z' || 'A' <= c <= 'Z' || '0' <= c <= '9' || c == '-'
  }

  /** `/^[a-z0-9-]+$/i.test(value)`. */
  predicate MatchesSlugPattern(value: string) {
    |value| > 0 && forall i :: 0 <= i < |value| ==> IsSlugChar(value[i])
  }

  /** The message that `validateSlug` leaves in `invalidSlug`; `None` clears it. The three
      checks run in this order and the first that applies decides. `!value.trim()` is
      written `IsBlank(value)`, which `Common.TrimEmptyIffBlank` shows to be the same test. */
  function SlugError(value: string): (r: Option<string>)
    ensures r.Some? ==> !IsBlank(value)
    ensures r.Some? ==> r.value == ReservedMessage(value) || r.value == CharsetMessage
  {
    if IsBlank(value) then None
    else if ToLower(value) in ReservedSlugs then Some(ReservedMessage(value))
    else if !MatchesSlugPattern(value) then Some(CharsetMessage)
    else None
  }

  /** An empty or whitespace-only slug clears the error (presence is checked elsewhere). */
  lemma BlankSlugHasNoError(value: string)
    requires IsBlank(value)
    ensures SlugError(value) == None
  {
    TrimEmptyIffBlank(value);
  }

  /** A slug whose lower-cased form is reserved gets the reserved-word message, whatever
      its characters: the reserved check comes before the charset check. */
  lemma ReservedSlugRejected(value: string)
    requires ToLower(value) in ReservedSlugs
    ensures SlugError(value) == Some(ReservedMessage(value))
  {
    var w := ToLower(value);
    assert w == "create" || w == "edit" || w == "new" || w == "delete" || w == "update";
    assert |w| > 0 && !IsJsWhitespace(w[0]);
    assert !IsJsWhitespace(value[0]) by {
      assert w[0] == LowerChar(value[0]);
    }
    TrimEmptyIffBlank(value);
  }

  /** Every other slug is accepted exactly when it is non-empty and made only of ASCII
      letters of either case, digits and '-'. */
  lemma SlugAcceptedIff(value: string)
    ensures SlugError(value) == None
            <==> IsBlank(value) || (ToLower(value) !in ReservedSlugs && MatchesSlugPattern(value))
  {
    TrimEmptyIffBlank(value);
  }

  /** A non-blank slug with a space in it (leading, trailing or inner) gets the charset
      message, because the rule tests the untrimmed value. */
  lemma SpacedSlugRejected(value: string, k: nat)
    requires !IsBlank(value) && k < |value| && value[k] == ' '
    ensures SlugError(value) == Some(CharsetMessage)
  {
    TrimEmptyIffBlank(value);
    var w := ToLower(value);
    assert w[k] == ' ';
    assert !IsSlugChar(value[k]);
    assert w !in ReservedSlugs by {
      forall x | x in ReservedSlugs ensures w != x {
        ReservedAreSlugChars(x);
        assert k >= |x| || x[k] != w[k];
      }
    }
  }

  /** The reserved words are made of lower-case letters only. */
  lemma ReservedAreSlugChars(x: string)
    requires x in ReservedSlugs
    ensures forall i :: 0 <= i < |x| ==> 'a' <= x[i] <= 'z'
  {
  }

  /** The messages are never empty, so a set error is always truthy. */
  lemma SlugErrorIsTruthy(value: string)
    ensures SlugError(value).Some? ==> Truthy(SlugError(value))
  {
  }
}
