/** The lookup tables of the parser, entry by entry: which characters they hold, and what they map them to. */
module HttpTables {
  import opened HttpTypes

  const DIGITS: string := "0123456789abcdef"
  const CAPITALS: string := "0123456789ABCDEF"

  predicate IsLetter(ch: char) { 'a' <= ch <= 'z' || 'A' <= ch <= 'Z' }

  lemma DigitTable(k: nat)
    requires k < 10
    ensures IsDigit(DIGITS[k]) && Digit(DIGITS[k]) == k
  {
  }

  lemma DigitsOnly(ch: char)
    requires IsDigit(ch)
    ensures DIGITS[Digit(ch)] == ch
  {
  }

  lemma HexTable(k: nat)
    requires k < 16
    ensures Unhex(DIGITS[k]) == k && Unhex(CAPITALS[k]) == k
  {
  }

  /** Every other ASCII character is rejected; bytes above 127 count as zero. */
  lemma HexOnly(ch: char)
    ensures ch < 128 as char && Unhex(ch) != -1 ==> ch == DIGITS[Unhex(ch)] || ch == CAPITALS[Unhex(ch)]
    ensures ch >= 128 as char ==> Unhex(ch) == 0
  {
  }

  lemma LetterTable(ch: char)
    requires ch < 256 as char
    ensures IsAlpha(ch) <==> IsLetter(ch)
  {
  }

  /** The characters that continue a path: all printable ones but space, '#' and '?'. */
  lemma UrlTable(ch: char)
    ensures NormalUrlChar(ch) <==>
      IsLetter(ch) || IsDigit(ch) || ch in
        {'!', '"', '$', '%', '&', '\'', '(', ')', '*', '+', ',', '-', '.', '/', ':', ';', '<', '=', '>', '@', '[',
         '\\', ']', '^', '_', '`', '{', '|', '}', '~'}
  {
  }

  /** The names of the methods. */
  lemma MethodNames()
    ensures MethodString(DELETE) == "DELETE" && MethodString(GET) == "GET" && MethodString(HEAD) == "HEAD"
    ensures MethodString(POST) == "POST" && MethodString(PUT) == "PUT" && MethodString(CONNECT) == "CONNECT"
    ensures MethodString(OPTIONS) == "OPTIONS" && MethodString(TRACE) == "TRACE" && MethodString(COPY) == "COPY"
    ensures MethodString(LOCK) == "LOCK" && MethodString(MKCOL) == "MKCOL" && MethodString(MOVE) == "MOVE"
    ensures MethodString(PROPFIND) == "PROPFIND" && MethodString(PROPPATCH) == "PROPPATCH"
    ensures MethodString(UNLOCK) == "UNLOCK" && MethodString(REPORT) == "REPORT"
    ensures MethodString(MKACTIVITY) == "MKACTIVITY" && MethodString(CHECKOUT) == "CHECKOUT"
    ensures MethodString(MERGE) == "MERGE" && MethodString(MSEARCH) == "M-SEARCH" && MethodString(NOTIFY) == "NOTIFY"
    ensures MethodString(SUBSCRIBE) == "SUBSCRIBE" && MethodString(UNSUBSCRIBE) == "UNSUBSCRIBE"
  {
  }
}
