# Ephemeral PDF store of the markdown-to-PDF gateway

The gateway takes markdown from `POST /text-input`, or the word "go" from
`POST /fixed-input`, and sends it to an external converter. It stores the
PDF it gets back under `static/pdfs` for one hour. It answers either with a
JSON body holding the file's URL or with the PDF itself. A background task
sweeps expired files away every ten minutes.

This project models the stateful part of that flow and proves properties of
it:

- the table `pdf_files` from file name to expiry time, and the directory of
  files beside it (`PdfStore.Store`);
- one cycle of the sweep (`Store.Sweep`), specified by `Swept`;
- the publisher `save_pdf_get_url` (`Store.Publish`), specified by
  `Publication`;
- the file name and URL formats (`Naming`);
- the per-request decisions (`Requests`): the gate, the choice between JSON
  and bytes, and the error status;
- the two handlers (`Endpoints`).

Time is a whole number of seconds. The directory is a map from file name to
bytes. `os.remove` fails when the file is missing, and also for any name in
a `failing` set that the sweep is given. Writing a file fails for any name
in the stamp's `unwritable` set. The clock readings, the formatted
timestamp, `uuid4().hex` and the converter's reply are all parameters.

Two behaviours of the code are easy to misread, and the model follows the
code:

- When removing a file fails, the sweep does not delete its table entry.
  Both statements sit in one `try`, so the entry stays, still expired, and
  the next cycle tries it again (`FailedEntryRetried`).
- A non-200 reply from the converter is raised as an `HTTPException` inside
  `try ... except Exception`. It is therefore answered with 500, not with the
  converter's own status (`UpstreamStatusNotPassedOn`, `ConversionOutcome`).
- No input size limit exists, so none is modelled.

## Model

| member | source | states |
|---|---|---|
| `Naming.PdfFilename` | main.py:106 | definition of `f"doc_{timestamp}_{token}.pdf"`; its properties are in `FilenameShape`, `ParseFilename` and `FilenameInjective` |
| `Naming.ShortToken` | main.py:106 | `hex[:8]` is a prefix of the uuid hex, clamped to its length; for a `uuid4().hex` it is 8 lower-case hex digits |
| `Naming.ParseFilename` | main.py:106 | a name it accepts has a `YYYYMMDD_HHMMSS` timestamp and an 8-hex token, and rebuilding the name from them gives the name back |
| `Naming.FilenameShape` | main.py:105-106 | `doc_<ts>_<token>.pdf` is 32 characters long, contains no `/`, and parses back to `(ts, token)` |
| `Naming.FilenameInjective` | main.py:105-106 | two well-formed stamps give the same name only if their timestamps and tokens are equal |
| `Naming.PdfUrl` | main.py:117 | definition of `f"{base_url}pdfs/{filename}"`; its properties are in `UrlEndsWithName` |
| `Naming.LastSegment` | main.py:117 | the result is the suffix of the URL after its last `/` (the whole URL when there is none) |
| `Naming.UrlEndsWithName` | main.py:117 | the last path segment of `base_url + "pdfs/" + name` is `name`, for any base URL |
| `Requests.FixedInputAccepted` | main.py:170 | definition of the test `text.lower() == "go"`; its properties are in `FixedInputAcceptedIff` |
| `Requests.WantsJson` | main.py:150 | definition of the test `request.headers.get("accept") == "application/json"`, an absent header failing it; its properties are in `Respond` |
| `Requests.FixedInputAcceptedIff` | main.py:170-174 | `text.lower() == "go"` holds exactly for "go", "Go", "gO" and "GO" |
| `Requests.CheckUpstream` | main.py:137-144 | the reply's bytes are used exactly when the status is 200; any other status raises an error carrying that status; a client failure is a transport error |
| `Requests.Respond` | main.py:149-163 | the answer is JSON with the URL and the success message exactly when `accept` is `application/json`; otherwise it is the PDF bytes as the named attachment; either way the status is 200 |
| `Requests.Handled` | main.py:165-166 | definition of the `except Exception` handler, which answers every fault with 500; its properties are in `UpstreamStatusNotPassedOn` and `Endpoints.ConversionOutcome` |
| `Requests.UpstreamStatusNotPassedOn` | main.py:137-166 | a non-200 reply raises, and the outer handler answers it with 500 |
| `PdfStore.CollectExpired` | main.py:80-83 | lists, each once, exactly the names whose expiry is strictly earlier than now |
| `PdfStore.Swept` | main.py:78-92 | an expired name whose removal succeeds loses both file and entry; an expired name whose removal raises keeps both, still expired; non-expired entries (including expiry == now) and untracked files are unchanged; "every entry has its file" is preserved |
| `PdfStore.TryRemove` | main.py:87-92 | definition of one pass of the per-entry `try`: remove the file, then the entry, or change nothing if the removal raises; its properties are in `RemoveEachReclaims` |
| `PdfStore.RemoveEach` | main.py:86-92 | definition of the `for` loop over the collected names, in list order; its properties are in `RemoveEachReclaims` and `LoopIsSweep` |
| `PdfStore.RemoveEachReclaims` | main.py:86-92 | processing names one at a time, each failure swallowed, removes exactly the listed names whose removal succeeds, whatever the order and even with repeats |
| `PdfStore.LoopIsSweep` | main.py:80-92 | the loop over any listing of the expired names gives the one-cycle result `Swept` |
| `PdfStore.SweepWithNothingExpired` | main.py:80-92 | a sweep with nothing expired leaves the table and the directory unchanged |
| `PdfStore.SweepIdempotent` | main.py:80-92 | a second sweep at the same time, with the same failures, changes nothing |
| `PdfStore.SweepAfterFullSuccess` | main.py:80-92 | after a sweep in which every removal succeeded, nothing is expired and any next sweep at that time changes nothing |
| `PdfStore.FailedEntryRetried` | main.py:86-92 | an entry whose removal raised is still in the table, and a later cycle whose removal succeeds deletes its file and its entry |
| `PdfStore.Publication` | main.py:102-117 | if writing fails, nothing changes and no URL is returned; otherwise the file holds exactly the bytes (overwriting any file of that name), the entry expires at now + 3600, every other name is unchanged, and the URL is `base_url + "pdfs/" + name` |
| `PdfStore.PublishedUrlNamesFile` | main.py:105-117 | for a well-formed timestamp and uuid hex, the published name is 32 characters and is the last segment of the returned URL |
| `PdfStore.PublishedLifetime` | main.py:78-117 | a published file survives every sweep up to its expiry with its bytes, and is gone from table and directory after a sweep past it whose removal succeeds |
| `PdfStore.Store.constructor` | main.py:33-40 | at start-up the table is empty, and the directory keeps the files an earlier run left there |
| `PdfStore.Store.Sweep` | main.py:78-92 | one cycle of `cleanup_old_files` changes the table and directory exactly as `Swept` says |
| `PdfStore.Store.Publish` | main.py:102-117 | `save_pdf_get_url` changes the table and directory and returns the URL exactly as `Publication` says |
| `Endpoints.Conversion` | main.py:130-166 | definition of the handlers' `try` block as a new state and a response; its properties are in `ConversionOutcome` |
| `Endpoints.ConversionOutcome` | main.py:121-166 | status 200 exactly when the converter replied 200 and the file was written; otherwise 500 with the store unchanged; on success the PDF is published whichever response form is chosen; the form is JSON with the URL exactly when `accept` is `application/json`, and otherwise the PDF bytes as the named attachment |
| `Endpoints.Convert` | main.py:130-166 | the handlers' shared body produces the state and response that `Conversion` gives, and hands the converter exactly the given markdown, once |
| `Endpoints.TextInput` | main.py:119-166 | `/text-input` sends the caller's markdown to the converter, once, and answers as `Conversion` gives, with `converted.pdf` as the attachment name |
| `Endpoints.FixedInput` | main.py:168-224 | `/fixed-input` answers 400, changes nothing and sends nothing to the converter unless the text lower-cases to "go"; otherwise it sends the fixed markdown, once, and answers as `Conversion` gives, with `fixed_output.pdf` as the attachment name |

## Left out

- Application setup, the CORS middleware and the `/` welcome handler (main.py:17-26, 226-228) are framework wiring.
- The static mount at `/pdfs` (main.py:37) is not modelled as a server. The directory map stands for what it serves.
- The HTTP call to the converter (main.py:130-135, 188-193) is a function parameter from the markdown to a reply (status and bytes) or a transport failure. The form payload's engine and stylesheet are constants and are not passed. The upstream body text is not modelled.
- The `detail` text of error responses is not modelled; only the status is.
- The background task's scheduling (`create_task`, `while True`, `asyncio.sleep(600)`; main.py:77, 95, 100) is left out. One sweep cycle is modelled, and several cycles are compositions of `Swept`.
- Concurrency between requests and the sweeper is left out. Every operation is modelled as atomic.
- `datetime.now()`, `strftime` and `uuid4()` are parameters. Uniqueness of generated names is not claimed.
- The order in which the sweep visits entries (the dict's insertion order) is not modelled. `RemoveEachReclaims` shows that the result does not depend on it.
- A partially written file (a write that fails after `open`) is not modelled. A failed write changes nothing.
- `TEMP_PDF_DIR` (main.py:29-30) is never used after it is created. `PDF_CSS` (main.py:43-67) is constant data.
- Requests.Lower: lowers only ASCII letters, whereas Python's `str.lower` also lowers other scripts. No other character lowers to "g" or "o", so the gate accepts the same texts.
