/**
 * The handlers of `POST /text-input` (main.py:119-166) and
 * `POST /fixed-input` (main.py:168-224). The external converter is the
 * function `convert` from the markdown sent to the reply received; the
 * stylesheet and engine sent along with it are constants and are not
 * modelled.
 */
module Endpoints {
  import opened Common
  import opened Naming
  import opened Requests
  import opened PdfStore

  /** What a handler reads from outside the request: the converter and the publisher's stamp. */
  datatype Env = Env(convert: string -> Upstream, stamp: Stamp)

  /** The `try` block of a conversion handler: the new state and the response. */
  function Conversion(s: State, up: Upstream, req: HttpRequest, st: Stamp, attachment: string): (State, Response)
  {
    match CheckUpstream(up)
    case Err(fault) => (s, Handled(fault))
    case Ok(pdf) =>
      var (s', url) := Publication(s, pdf, req.baseUrl, st);
      match url
      case None => (s', Handled(WriteError))
      case Some(u) => (s', Respond(pdf, u, req.accept, attachment))
  }

  /**
   * A conversion answers 200 exactly when the converter replied 200 and the
   * file could be written; every other outcome, whatever status the
   * converter gave, is a 500 that leaves the store as it was. On success the
   * PDF is published whichever response form is chosen, and the form is
   * JSON exactly when `accept` is `application/json`.
   */
  lemma ConversionOutcome(s: State, up: Upstream, req: HttpRequest, st: Stamp, attachment: string)
    ensures var (s', r) := Conversion(s, up, req, st, attachment);
      && (Status(r) == OK <==> up.Reply? && up.status == OK && StampName(st) !in st.unwritable)
      && (Status(r) != OK ==> r == Failure(SERVER_ERROR) && s' == s)
      && (Status(r) == OK ==> s' == Published(s, StampName(st), up.content, st.now))
      && (r.JsonBody? <==> Status(r) == OK && WantsJson(req.accept))
      && (Status(r) == OK && !WantsJson(req.accept) ==> r == PdfAttachment(up.content, attachment))
      && (r.JsonBody? ==> r.pdfUrl == PdfUrl(req.baseUrl, StampName(st)) && r.message == SUCCESS_MESSAGE)
      && (r.PdfAttachment? ==> r.content == up.content && r.filename == attachment)
  {
  }

  /**
   * The shared body of both handlers, from the converter call on. The ghost
   * `sent` records, in order, the markdown texts handed to the converter.
   */
  method Convert(store: Store, markdown: string, req: HttpRequest, env: Env, attachment: string)
    returns (resp: Response, ghost sent: seq<string>)
    modifies store
    ensures sent == [markdown]
    ensures (store.Snapshot(), resp) == Conversion(old(store.Snapshot()), env.convert(markdown), req, env.stamp, attachment)
  {
    var up := env.convert(markdown);
    sent := [markdown];
    match CheckUpstream(up)
    case Err(fault) =>
      resp := Handled(fault);
    case Ok(pdf) =>
      var url := store.Publish(pdf, req.baseUrl, env.stamp);
      match url
      case None =>
        resp := Handled(WriteError);
      case Some(u) =>
        resp := Respond(pdf, u, req.accept, attachment);
  }

  /** `POST /text-input`: convert the caller's markdown. */
  method TextInput(store: Store, req: HttpRequest, text: string, env: Env)
    returns (resp: Response, ghost sent: seq<string>)
    modifies store
    ensures sent == [text]
    ensures (store.Snapshot(), resp) == Conversion(old(store.Snapshot()), env.convert(text), req, env.stamp, TEXT_ATTACHMENT)
  {
    resp, sent := Convert(store, text, req, env, TEXT_ATTACHMENT);
  }

  /** `POST /fixed-input`: a 400 before any converter call unless the text is "go" in any case; then convert the fixed markdown. */
  method FixedInput(store: Store, req: HttpRequest, text: string, env: Env)
    returns (resp: Response, ghost sent: seq<string>)
    modifies store
    ensures sent == if FixedInputAccepted(text) then [FIXED_MARKDOWN] else []
    ensures !FixedInputAccepted(text) ==> resp == Failure(BAD_REQUEST) && store.Snapshot() == old(store.Snapshot())
    ensures FixedInputAccepted(text) ==>
      (store.Snapshot(), resp) == Conversion(old(store.Snapshot()), env.convert(FIXED_MARKDOWN), req, env.stamp, FIXED_ATTACHMENT)
  {
    if !FixedInputAccepted(text) {
      resp, sent := Failure(BAD_REQUEST), [];
      return;
    }
    resp, sent := Convert(store, FIXED_MARKDOWN, req, env, FIXED_ATTACHMENT);
  }
}
