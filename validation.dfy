/** The field rules that create and update apply to a request's title and
    content, and the error map they fill when a rule is broken. */
module Validation {
  import opened Models

  const TitleField := "Title"
  const ContentField := "Content"
  const IsActiveField := "IsActive"

  const TitleRuleMessage := "Title is required and must be between 3 and 200 characters."
  const ContentRuleMessage := "Content must be between 10 and 1000 characters."

  const MinTitleLength := 3
  const MaxTitleLength := 200
  const MinContentLength := 10
  const MaxContentLength := 1000

  /** The characters .NET classifies as white space (Unicode category Zs,
      the separators U+2028 and U+2029, and the controls U+0009 to U+000D
      and U+0085). */
  predicate IsWhiteSpace(c: char) {
    var n := c as int;
    || n == 0x20 || (0x09 <= n <= 0x0D) || n == 0x85 || n == 0xA0
    || n == 0x1680 || (0x2000 <= n <= 0x200A) || n == 0x2028 || n == 0x2029
    || n == 0x202F || n == 0x205F || n == 0x3000
  }

  /** `string.IsNullOrWhiteSpace`: a missing value is the empty string here.
      Scans the characters from the front and stops at the first one that is
      not white space. */
  function IsNullOrWhiteSpace(s: string): (r: bool)
    ensures r <==> forall i :: 0 <= i < |s| ==> IsWhiteSpace(s[i])
  {
    if |s| == 0 then true
    else if !IsWhiteSpace(s[0]) then false
    else
      assert forall i :: 1 <= i < |s| ==> s[i] == s[1..][i - 1];
      IsNullOrWhiteSpace(s[1..])
  }

  /** The title rule: required, not blank, 3 to 200 characters inclusive. */
  predicate TitleInvalid(title: string)
    ensures TitleInvalid(title) <==>
      (forall i :: 0 <= i < |title| ==> IsWhiteSpace(title[i])) || !(3 <= |title| <= 200)
  {
    IsNullOrWhiteSpace(title) || |title| < MinTitleLength || |title| > MaxTitleLength
  }

  /** The content rule: required, not blank, 10 to 1000 characters inclusive. */
  predicate ContentInvalid(content: string)
    ensures ContentInvalid(content) <==>
      (forall i :: 0 <= i < |content| ==> IsWhiteSpace(content[i])) || !(10 <= |content| <= 1000)
  {
    IsNullOrWhiteSpace(content) || |content| < MinContentLength || |content| > MaxContentLength
  }

  /** `errors` names exactly the fields that break their rule, each with the
      single message of that rule. */
  ghost predicate ReportsFieldErrors(errors: ErrorMap, title: string, content: string) {
    && errors.Keys == (if TitleInvalid(title) then {TitleField} else {})
                      + (if ContentInvalid(content) then {ContentField} else {})
    && (TitleField in errors ==> errors[TitleField] == [TitleRuleMessage])
    && (ContentField in errors ==> errors[ContentField] == [ContentRuleMessage])
  }

  /** The reported errors depend on the request alone: two error maps that
      both report the same request are the same map. */
  lemma FieldErrorsAreDetermined(e1: ErrorMap, e2: ErrorMap, title: string, content: string)
    requires ReportsFieldErrors(e1, title, content) && ReportsFieldErrors(e2, title, content)
    ensures e1 == e2
  {
  }

  /** Checks both fields, one after the other, and records every failure in
      a dictionary that starts empty: a bad title does not stop the content
      from being checked. */
  method CollectFieldErrors(title: string, content: string) returns (errors: ErrorMap)
    ensures ReportsFieldErrors(errors, title, content)
    ensures |errors| == 0 <==> !TitleInvalid(title) && !ContentInvalid(content)
  {
    errors := map[];
    if IsNullOrWhiteSpace(title) || |title| < MinTitleLength || |title| > MaxTitleLength {
      errors := errors[TitleField := [TitleRuleMessage]];
    }
    if IsNullOrWhiteSpace(content) || |content| < MinContentLength || |content| > MaxContentLength {
      errors := errors[ContentField := [ContentRuleMessage]];
    }
  }

  /** The length bounds are inclusive on both ends for both fields, and one
      character outside them is rejected. */
  lemma LengthBoundsAreInclusive()
    ensures !TitleInvalid(seq(3, _ => 'A')) && !TitleInvalid(seq(200, _ => 'T'))
    ensures TitleInvalid(seq(2, _ => 'A')) && TitleInvalid(seq(201, _ => 'T'))
    ensures !ContentInvalid(seq(10, _ => 'C')) && !ContentInvalid(seq(1000, _ => 'C'))
    ensures ContentInvalid(seq(9, _ => 'C')) && ContentInvalid(seq(1001, _ => 'C'))
  {
  }

  /** A blank value (white space only, of any kind) is rejected whatever its length. */
  lemma BlankFieldsAreInvalid(title: string, content: string)
    requires forall i :: 0 <= i < |title| ==> IsWhiteSpace(title[i])
    requires forall i :: 0 <= i < |content| ==> IsWhiteSpace(content[i])
    ensures TitleInvalid(title) && ContentInvalid(content)
  {
  }
}
