/** The error-page text for an HTTP status code, utils/error.ts. */
module StatusText {

  const Fallback := "An unexpected error has occurred"

  /** The status codes with a text of their own. */
  const StatusTexts: map<int, string> := map[
    400 := "Bad Request",
    404 := "This page could not be found",
    405 := "Method Not Allowed",
    500 := "Internal Server Error"]

  /** The table's text for a known code, the fallback text for any other. */
  function StatusTextFrom(code: int): (r: string)
    ensures code == 400 ==> r == "Bad Request"
    ensures code == 404 ==> r == "This page could not be found"
    ensures code == 405 ==> r == "Method Not Allowed"
    ensures code == 500 ==> r == "Internal Server Error"
    ensures code !in {400, 404, 405, 500} ==> r == Fallback
    ensures r in {"Bad Request", "This page could not be found", "Method Not Allowed",
                  "Internal Server Error", Fallback}
  {
    if code in StatusTexts then StatusTexts[code] else Fallback
  }

  /**
   * Two codes get the same text exactly when they are the same code or both
   * fall back; so a text other than the fallback identifies its code.
   */
  lemma StatusTextDistinguishesCodes(a: int, b: int)
    ensures StatusTextFrom(a) == StatusTextFrom(b) <==>
      a == b || (a !in StatusTexts && b !in StatusTexts)
  {
  }
}
