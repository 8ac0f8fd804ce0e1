/**
 * The per-request decisions of the two conversion endpoints: the
 * `/fixed-input` gate, the reply from the external converter, the choice
 * between a JSON body and the raw PDF, and the status of a failure.
 */
module Requests {
  import opened Common

  const OK := 200
  const BAD_REQUEST := 400
  const SERVER_ERROR := 500

  /** The only text `/fixed-input` accepts, compared after lower-casing. */
  const FIXED_WORD := "go"
  /** The markdown `/fixed-input` converts (main.py:178). */
  const FIXED_MARKDOWN := "# Hello World\n\nThis is a fixed markdown content."
  const JSON_MEDIA_TYPE := "application/json"
  const SUCCESS_MESSAGE := "PDF generated successfully"
  /** Attachment names of the raw-PDF responses (main.py:161, 219). */
  const TEXT_ATTACHMENT := "converted.pdf"
  const FIXED_ATTACHMENT := "fixed_output.pdf"

  function LowerChar(c: char): char {
    if 'A' <= c <= 'Z' then (c as int + 32) as char else c
  }

  /** `str.lower()`, on the ASCII letters. */
  function Lower(s: string): string {
    seq(|s|, i requires 0 <= i < |s| => LowerChar(s[i]))
  }

  /** The test `text.lower() != "go"` of main.py:170, negated. */
  predicate FixedInputAccepted(text: string) {
    Lower(text) == FIXED_WORD
  }

  /** The gate lets through exactly the four spellings of "go". */
  lemma FixedInputAcceptedIff(text: string)
    ensures FixedInputAccepted(text) <==> text in {"go", "Go", "gO", "GO"}
  {
    if FixedInputAccepted(text) {
      assert |text| == 2;
      assert Lower(text)[0] == 'g' && Lower(text)[1] == 'o';
      assert LowerChar(text[0]) == 'g' && LowerChar(text[1]) == 'o';
      assert text == [text[0], text[1]];
    }
  }

  /** What the handlers read from the incoming request. */
  datatype HttpRequest = HttpRequest(baseUrl: string, accept: Option<string>)

  /** The test `request.headers.get("accept") == "application/json"`: an absent header is `None`. */
  predicate WantsJson(accept: Option<string>) {
    accept == Some(JSON_MEDIA_TYPE)
  }

  /** The outcome of the POST to the external converter. */
  datatype Upstream =
    | Reply(status: int, content: Bytes)
    /** The client raised: connection refused, timeout, ... */
    | Unreachable

  /** Exceptions raised inside the handlers' `try` block. */
  datatype Fault =
    | UpstreamError(status: int)   // the HTTPException raised on a non-200 reply
    | TransportError               // raised by the HTTP client
    | WriteError                   // OSError from writing the PDF file

  datatype Response =
    | JsonBody(pdfUrl: string, message: string)
    | PdfAttachment(content: Bytes, filename: string)
    | Failure(status: int)

  /** The HTTP status a response goes out with. */
  function Status(r: Response): int {
    if r.Failure? then r.status else OK
  }

  /** The check of the converter's reply (main.py:137-144). */
  function CheckUpstream(up: Upstream): (r: Result<Bytes, Fault>)
    ensures r.Ok? <==> up.Reply? && up.status == OK
    ensures r.Ok? ==> r.value == up.content
    ensures r.Err? && up.Reply? ==> r.error == UpstreamError(up.status)
    ensures up.Unreachable? ==> r == Err(TransportError)
  {
    match up
    case Unreachable => Err(TransportError)
    case Reply(status, content) =>
      if status != OK then Err(UpstreamError(status)) else Ok(content)
  }

  /** The `except Exception` handler (main.py:165-166): every fault becomes a 500, whatever status it carried. */
  function Handled(f: Fault): Response {
    Failure(SERVER_ERROR)
  }

  /** The successful answer (main.py:150-163): a JSON body carrying the URL, or the PDF itself. */
  function Respond(pdf: Bytes, url: string, accept: Option<string>, attachment: string): (r: Response)
    ensures Status(r) == OK
    ensures r.JsonBody? <==> WantsJson(accept)
    ensures r.JsonBody? ==> r.pdfUrl == url && r.message == SUCCESS_MESSAGE
    ensures !r.JsonBody? ==> r == PdfAttachment(pdf, attachment)
  {
    if WantsJson(accept) then JsonBody(url, SUCCESS_MESSAGE)
    else PdfAttachment(pdf, attachment)
  }

  /** A non-200 reply from the converter is answered with 500, not with its own status. */
  lemma UpstreamStatusNotPassedOn(status: int, content: Bytes)
    requires status != OK
    ensures CheckUpstream(Reply(status, content)).Err?
    ensures Status(Handled(CheckUpstream(Reply(status, content)).error)) == SERVER_ERROR
  {
  }
}
