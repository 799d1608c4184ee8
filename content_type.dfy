/** The body content type of a mail: its display name and its MIME type. */
module MailContentType {

  /** ContentType is a uint8; only two values are named. */
  type ContentType = x: int | 0 <= x < 256

  const ContentPlainText: ContentType := 0
  const ContentHTML: ContentType := 1

  /** ContentType.String: unnamed values fall back to the plain-text name. */
  function Name(c: ContentType): (r: string)
    ensures r == (if c == ContentHTML then "HTML" else "Plain Text")
  {
    if c == ContentPlainText then "Plain Text"
    else if c == ContentHTML then "HTML"
    else Name(ContentPlainText)
  }

  /** getContentType: unnamed values fall back to text/plain. */
  function MimeType(c: ContentType): (r: string)
    ensures r == (if c == ContentHTML then "text/html" else "text/plain")
  {
    if c == ContentPlainText then "text/plain"
    else if c == ContentHTML then "text/html"
    else MimeType(ContentPlainText)
  }

  /** The display name and the MIME type agree on which values mean HTML. */
  lemma NameAgreesWithMimeType(c: ContentType)
    ensures Name(c) == "HTML" <==> MimeType(c) == "text/html"
    ensures MimeType(c) == "text/html" <==> c == ContentHTML
  {
  }
}
