/**
 * The comment column of the admin list (backend/issues/admin.py): long
 * comments are cut to 50 characters and marked with an ellipsis.
 */
module Admin {
  const Limit: nat := 50
  const Ellipsis: string := "..."

  /**
   * `short_text`: a text of at most 50 characters is shown whole; a longer
   * one as its first 50 characters and "...".
   */
  function ShortText(text: string): (r: string)
    ensures |text| <= Limit ==> r == text
    ensures |text| > Limit ==> |r| == Limit + |Ellipsis| && r[..Limit] == text[..Limit] && r[Limit..] == Ellipsis
    ensures |r| <= Limit + |Ellipsis|
  {
    if |text| > Limit then text[..Limit] + Ellipsis else text
  }
}
