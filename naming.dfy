/**
 * Names and URLs of published PDFs (main.py:104-117): a published file is
 * called `doc_<YYYYMMDD_HHMMSS>_<8 hex>.pdf` and is reachable at
 * `<base url>pdfs/<file name>`.
 */
module Naming {
  import opened Common

  const NAME_PREFIX := "doc_"
  const NAME_EXTENSION := ".pdf"
  /** Path under which the static mount serves the PDF directory. */
  const ROUTE := "pdfs/"

  predicate IsDigit(c: char) { '0' <= c <= '9' }

  predicate IsLowerHexDigit(c: char) { IsDigit(c) || 'a' <= c <= 'f' }

  /** What `strftime("%Y%m%d_%H%M%S")` produces for a four-digit year. */
  predicate IsTimestamp(ts: string) {
    |ts| == 15 && ts[8] == '_' && forall i :: 0 <= i < 15 && i != 8 ==> IsDigit(ts[i])
  }

  /** Eight lower-case hex digits. */
  predicate IsToken(t: string) {
    |t| == 8 && forall i :: 0 <= i < 8 ==> IsLowerHexDigit(t[i])
  }

  /** What `uuid4().hex` produces: 32 lower-case hex digits. */
  predicate IsUuidHex(h: string) {
    |h| == 32 && forall i :: 0 <= i < 32 ==> IsLowerHexDigit(h[i])
  }

  /** The slice `hex[:8]`; like Python's slice it is clamped to the string's length. */
  function ShortToken(hex: string): (t: string)
    ensures t <= hex
    ensures |t| == if |hex| < 8 then |hex| else 8
    ensures IsUuidHex(hex) ==> IsToken(t)
  {
    if |hex| <= 8 then hex else hex[..8]
  }

  /** The f-string `f"doc_{timestamp}_{token}.pdf"`. */
  function PdfFilename(ts: string, token: string): string {
    NAME_PREFIX + ts + "_" + token + NAME_EXTENSION
  }

  /** Recovers the timestamp and token from a name of the published shape. */
  function ParseFilename(name: string): (r: Option<(string, string)>)
    ensures r.Some? ==> IsTimestamp(r.value.0) && IsToken(r.value.1)
    ensures r.Some? ==> PdfFilename(r.value.0, r.value.1) == name
  {
    if |name| == 32 && name[..4] == NAME_PREFIX && name[19] == '_' && name[28..] == NAME_EXTENSION
       && IsTimestamp(name[4..19]) && IsToken(name[20..28])
    then
      assert name == name[..4] + name[4..19] + [name[19]] + name[20..28] + name[28..];
      Some((name[4..19], name[20..28]))
    else
      None
  }

  /** A published name is 32 characters long, has no `/`, and parses back. */
  lemma FilenameShape(ts: string, token: string)
    requires IsTimestamp(ts) && IsToken(token)
    ensures |PdfFilename(ts, token)| == 32
    ensures '/' !in PdfFilename(ts, token)
    ensures ParseFilename(PdfFilename(ts, token)) == Some((ts, token))
  {
    var name := PdfFilename(ts, token);
    assert name[..4] == NAME_PREFIX;
    assert name[4..19] == ts;
    assert name[20..28] == token;
    assert name[28..] == NAME_EXTENSION;
    forall i | 0 <= i < |name| ensures name[i] != '/' {
      if 4 <= i < 19 {
        assert name[i] == ts[i - 4];
      } else if 20 <= i < 28 {
        assert name[i] == token[i - 20];
      }
    }
  }

  /** Two stamps that give the same name have the same timestamp and token. */
  lemma FilenameInjective(ts1: string, token1: string, ts2: string, token2: string)
    requires IsTimestamp(ts1) && IsToken(token1) && IsTimestamp(ts2) && IsToken(token2)
    requires PdfFilename(ts1, token1) == PdfFilename(ts2, token2)
    ensures ts1 == ts2 && token1 == token2
  {
    FilenameShape(ts1, token1);
    FilenameShape(ts2, token2);
  }

  /** The f-string `f"{base_url}pdfs/{filename}"`. */
  function PdfUrl(baseUrl: string, name: string): string {
    baseUrl + ROUTE + name
  }

  /** The text after the last `/` of a URL (all of it when there is none). */
  function LastSegment(url: string): (seg: string)
    ensures '/' !in seg
    ensures |seg| <= |url| && seg == url[|url| - |seg|..]
    ensures |seg| < |url| ==> url[|url| - |seg| - 1] == '/'
  {
    if url == [] || url[|url| - 1] == '/' then []
    else LastSegment(url[..|url| - 1]) + [url[|url| - 1]]
  }

  /** The last segment of a published URL is the file name it was built from. */
  lemma {:induction false} UrlEndsWithName(baseUrl: string, name: string)
    requires '/' !in name
    ensures LastSegment(PdfUrl(baseUrl, name)) == name
  {
    var url := PdfUrl(baseUrl, name);
    var slash := |url| - |name| - 1;
    assert url[slash] == '/';
    assert url[slash + 1..] == name;
  }
}
