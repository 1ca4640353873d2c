# LastSnap upload lifecycle, modelled in Dafny

LastSnap is a single-page app. The user drops or picks an MP4. The page
POSTs it to a frame-extraction service and shows the returned image (the
video's last frame), with a progress ring while the upload runs. Once there
is a result, the user can reset, download, or share through native
sharing or third-party links. The page also defines a handler that copies
the page link and shows a copy status, but no element is bound to it and
the status is never rendered.

This project models the page's controller without React or the browser.
It has three modules:

- `Js` (`js.dfy`): the JavaScript values the controller handles. These are
  `null`/`undefined` as `Option`, parsed JSON bodies as `Json`, and the
  JavaScript truthiness of JSON values. The other truthiness tests (a file
  name, `imageSrc`, the configured service URL) are written out where they
  occur.
- `Transfer` (`transfer.dfy`): the state record
  `{file, imageSrc, loading, uploadProgress, error, copyStatus}` and an
  `Event` datatype. The events are `Submit`, the request's `Progress`,
  `Load`, `NetError` and `Abort`, `Reset`, and the copy result and its
  expiry timer. The two copy events model the unbound copy handler: on the
  page they never occur and `copyStatus` stays "". `Step` is a pure
  function over the state and an event. It returns the next state and the
  request a submission sends, if any. `Run` folds `Step` over
  a sequence of events. The predicates for which inputs the page offers
  (picker buttons, drop zone, result panel) are here as well.
- `Share` (`share.dfy`): the six outbound share links, the (unbound) copy
  handler (Clipboard API first, then the `execCommand` fallback), and native
  link or image sharing. The page renders only three of the links
  (WhatsApp, X and Facebook); the Telegram, LinkedIn and email links are
  built but never used.

Anything the platform decides is an input:

- what `URL.createObjectURL` returns, and what `JSON.parse` makes of the body;
- whether `writeText` resolved, and what `execCommand` did;
- whether `navigator.share` exists, and what `canShare` answers;
- what `fetch(imageSrc)` yields;
- `encodeURIComponent`, as an uninterpreted function.

Behaviour worth knowing:

- A non-MP4 file only sets `error`, to "Only MP4 files are supported at
  this time." The earlier file and image stay.
- Accepting an MP4 sets the file to the new one and clears the image,
  error and progress fields. It keeps `copyStatus`.
- `resetState` leaves `loading` alone. Nothing ever releases the object URL.
- The page has no cancel action. `Abort` is an event from the environment.
- Drops are not guarded by `loading`, so two uploads can overlap. No event
  of an earlier request is filtered out.
- A 2xx `load` does not clear an earlier `error` and does not push the
  progress to 100.
- A non-2xx `load` is modelled with the corrected reading of the body
  (see "## Findings"): `Step` on `Load(status, url, payload)` shows the
  service's `error` field. The page as written behaves as
  `Load(status, url, None)` and always shows "Failed to extract frame".

## Model

| member | source | states |
|---|---|---|
| Js.GetProperty | frontend/src/App.jsx:166-170 | For the `error` key: reading it off a parsed body throws exactly for `null` and is defined exactly for an object holding that key. |
| Transfer.RoundPercent | frontend/src/App.jsx:152-157 | `Math.round(loaded / total * 100)`: NaN for 0/0, Infinity for n/0, and otherwise the integer r with 2·total·r ≤ 200·loaded + total < 2·total·(r+1), i.e. nearest with halves rounded up. |
| Transfer.RoundPercentInRange | frontend/src/App.jsx:152-157 | For 0 ≤ loaded ≤ total and total > 0 the percentage lies in 0..100. It is exactly 0 at the start and exactly 100 at the end. |
| Transfer.RoundPercentMonotone | frontend/src/App.jsx:152-157 | More bytes sent never gives a smaller percentage. |
| Transfer.OnProgress | frontend/src/App.jsx:152-157 | A progress event changes nothing but `uploadProgress`, and changes nothing at all unless the length is computable. When it is computable the progress becomes `RoundPercent(loaded, total)`. A well-formed event leaves a percentage in 0..100. |
| Transfer.ServiceError | frontend/src/App.jsx:166-171 | A failed response's message is the payload's `error` field when the body parses and that field is truthy. Otherwise it is "Failed to extract frame". It is always truthy. |
| Transfer.ResponseText | frontend/src/App.jsx:167 | The `responseText` getter yields the body only when the response type is text, and throws otherwise. |
| Transfer.ReadErrorAsWritten | frontend/src/App.jsx:166-171 | The failure branch as written: with the blob response type the page requests, the message is always the generic one. With a text response type it would be `ServiceError` of the parsed body. |
| Transfer.ServiceMessageLostAsWritten | frontend/src/App.jsx:186 | Example: a 500 with body {"error":"decode failed"} still shows "Failed to extract frame" as written, while the intended reading gives "decode failed". |
| Transfer.ApiUrl | frontend/src/App.jsx:147 | The service base is the configured URL when non-empty, else http://localhost:5001. |
| Transfer.UploadRequest | frontend/src/App.jsx:143-188 | The request for an accepted file is a POST of the field `video` holding that file to `<base>/extract-frame`, asking for a blob. |
| Transfer.ProcessFile | frontend/src/App.jsx:129-150 | No file: nothing changes. A non-MP4: only `error` changes, to the rejection text, and no request is sent. An MP4: file set, loading on, image, error and progress cleared, copy status kept, and one POST of field `video` to `<base>/extract-frame` asking for a blob. A request is sent iff the file is an MP4. |
| Transfer.OnLoad | frontend/src/App.jsx:159-174 | `load` always clears `loading` and keeps the file, progress and copy status. 2xx shows the object URL and keeps any error. Any other status keeps the image and sets `ServiceError` of the payload: the corrected reading of line 167. The page as written is the case of no payload. |
| Transfer.LoadAsWrittenIsPayloadless | frontend/src/App.jsx:165-172 | A non-2xx `load` with no payload sets exactly the message the as-written failure branch produces on a blob response, "Failed to extract frame". |
| Transfer.OnFailure | frontend/src/App.jsx:176-184 | `error`/`abort` set their fixed message and clear `loading`. Every other field is untouched. |
| Transfer.ResetState | frontend/src/App.jsx:121-127 | Reset keeps `loading`. Every other field takes its initial value. |
| Transfer.Step | frontend/src/App.jsx:72-189 | Only a submission sends a request. A finished copy of the unbound copy handler sets only the copy status, to "Copied!" on success and "Copy failed" otherwise. The timer's expiry only clears it. |
| Transfer.Run | frontend/src/App.jsx:129-189 | The handlers applied in order: no events leave the state as it is, and one event is one step. |
| Transfer.RunAppend | frontend/src/App.jsx:129-189 | Running two event sequences one after the other is running their concatenation. |
| Transfer.Requests | frontend/src/App.jsx:137-150 | The requests a sequence sends: no more requests than events in total, and none from a sequence without submissions. |
| Transfer.ResultShown | frontend/src/App.jsx:386-429 | The result block and the share panel render exactly when `imageSrc` is a non-empty string. |
| Transfer.DropZoneShown | frontend/src/App.jsx:302 | The drop zone renders exactly when `imageSrc` is absent or empty, so exactly one of drop zone and result is on screen. |
| Transfer.HeroBrowseEnabled | frontend/src/App.jsx:266 | The hero button opens the picker exactly when not loading and with no result; the drop zone is then on screen. |
| Transfer.DropZoneBrowseEnabled | frontend/src/App.jsx:302-308 | A click on the drop zone opens the picker exactly when the zone is rendered and not loading. |
| Transfer.BrowseGuardsAgree | frontend/src/App.jsx:266-308 | The hero button and the drop zone open the picker in exactly the same states. |
| Transfer.FirstFile | frontend/src/App.jsx:205-206 | A drop or picker change yields a file iff its file list is present and non-empty, and that file is the first one. |
| Transfer.OnFiles | frontend/src/App.jsx:201-215 | Drop and picker change hand the first file to `processFile` with no check of `loading`. With no file they do nothing. |
| Transfer.AcceptForgetsPriorState | frontend/src/App.jsx:137-141 | The state after accepting an MP4 depends only on the file and the earlier copy status. |
| Transfer.RejectThenAccept | frontend/src/App.jsx:132-141 | A rejection keeps the earlier file and image. A following MP4 gives the same result as if the rejection never happened. |
| Transfer.TerminalEventsSettle | frontend/src/App.jsx:159-184 | `load`, `error` and `abort` all end with `loading` false and the file kept. `error`/`abort` never touch the image. |
| Transfer.ResetIdempotent | frontend/src/App.jsx:121-127 | Resetting twice is resetting once. |
| Transfer.ResetIsInitIffSettled | frontend/src/App.jsx:121-127 | Reset gives exactly the initial state iff `loading` was false. |
| Transfer.InitValid | frontend/src/App.jsx:5-11 | The initial state satisfies the invariant: no error, empty copy status, progress 0. |
| Transfer.RunKeepsResultSettled | frontend/src/App.jsx:137-184 | A shown result never coexists with `loading`: every handler that sets the image also clears `loading`, and a new upload clears the image. This holds after any event sequence. |
| Transfer.ResetButtonReturnsToInit | frontend/src/App.jsx:408 | The reset button renders only with a result, and in any state reached from the start it returns exactly to the initial state. |
| Transfer.StepPreservesValid | frontend/src/App.jsx:129-189 | Each well-formed event keeps three things: any error is truthy, the copy status is "", "Copied!" or "Copy failed", and the progress lies in 0..100. |
| Transfer.RunPreservesValid | frontend/src/App.jsx:129-189 | The same invariant holds after any sequence of well-formed events. |
| Transfer.RequestsAreMp4Posts | frontend/src/App.jsx:132-150 | Every request any event sequence sends is a POST of an MP4 to the extraction endpoint. |
| Transfer.RequestCount | frontend/src/App.jsx:129-150 | An event sequence sends as many requests as it has submissions carrying an MP4. |
| Transfer.RequestsMatchSubmissions | frontend/src/App.jsx:129-188 | The i-th request sent is the upload of the file of the i-th submission carrying an MP4, and there are no other requests. |
| Transfer.DropDuringUploadStartsAnother | frontend/src/App.jsx:201-209 | While uploading, both picker buttons are disabled, but the drop zone is still shown and a drop sends a second request. |
| Transfer.StaleLoadIsNotFiltered | frontend/src/App.jsx:159-164 | Two overlapping uploads: the first one's `load` still shows its image next to the second file and turns `loading` off. |
| Transfer.ScenarioRejectMov | frontend/src/App.jsx:132-135 | Submitting a QuickTime file sets the rejection message and sends nothing. |
| Transfer.ScenarioSuccess | frontend/src/App.jsx:137-164 | Progress 0, 45 and 100 followed by a 200 ends with the image shown, progress 100, no error and not loading. |
| Transfer.ScenarioServiceError | frontend/src/App.jsx:165-172 | With the intended reading of the body, a 500 whose body is {"error":"decode failed"} shows "decode failed". |
| Transfer.ScenarioResetAfterSuccess | frontend/src/App.jsx:121-127 | After a successful upload, reset returns to the initial state exactly. |
| Share.PageUrl | frontend/src/App.jsx:24-30 | The page address is `location.href`, or "" when reading it throws. |
| Share.ShareLinks | frontend/src/App.jsx:35-46 | Every link is its fixed prefix, then the encoded page address, then its fixed suffix. |
| Share.Between | frontend/src/App.jsx:35-46 | Specification helper, the inverse of the link builder: recovering the middle of a prefix/suffix-shaped link puts back exactly that link. |
| Share.BetweenRoundTrip | frontend/src/App.jsx:35-46 | Specification helper, the inverse of the link builder: recovering the middle of prefix + m + suffix yields m. |
| Share.ShareLinksCarryAddress | frontend/src/App.jsx:35-46 | Every share link gives back exactly `encode(pageUrl)`. |
| Share.ShareLinksInjective | frontend/src/App.jsx:35-46 | With an injective encoder, equal link sets mean equal page addresses. |
| Share.EmptyPageUrlLinks | frontend/src/App.jsx:36 | An empty address contributes nothing to any link, given that the encoder maps "" to "". |
| Share.CopyToClipboard | frontend/src/App.jsx:48-70 | Copy succeeds iff the text is non-empty and either `writeText` resolved or `execCommand` returned true. Nothing is tried for empty text. The Clipboard API is tried first. The fallback is tried iff the text is non-empty and `writeText` failed. |
| Share.CopyStatusText | frontend/src/App.jsx:74 | The status is "Copied!" exactly on success and "Copy failed" exactly on failure. |
| Share.OnCopyLink | frontend/src/App.jsx:72-76 | "Copied!" iff the page address is non-empty and one of the two techniques worked, otherwise "Copy failed". |
| Share.NativeShare | frontend/src/App.jsx:78-91 | A link share is issued iff native share exists. It carries the title "LastSnap" and the page address. The text names the file iff the file has a non-empty name. |
| Share.ShareImage | frontend/src/App.jsx:93-119 | A file share is issued iff native share exists, there is an image, the fetch worked and `canShare` says yes. It has the title "LastSnap" and the text "Final frame image from <name>" when the file has a non-empty name, else "Final frame image". The file is "last-snap.jpg", typed as the blob's type or image/jpeg. If only `canShare` fails, the result falls back to the native link share. Nothing is shared without native share, without an image, or after a failed fetch. |
| Share.OnMoreClicked | frontend/src/App.jsx:429-478 | The "More" handler shares nothing without native share. With an image it is exactly the image share, which is the only case the page renders (the button sits in the share panel, shown only with an image). Without an image it is the link share. Any link it shares is the page address. |

## Left out

- The Flask services (`app.py`, `backend/app.py`): OpenCV and temp-file
  work. The model treats the service as a status plus a body.
- Markup, styling, the scroll listener and the drag-highlight flags: these
  are presentation only. The UI guards that decide which inputs exist are
  modelled as predicates.
- The real XHR, FormData, `fetch`, Blob/File, `URL.createObjectURL`,
  `JSON.parse`, the DOM textarea, `navigator.share`/`canShare` and
  `encodeURIComponent`. Each one enters only as an input value or as an
  uninterpreted function.
- The copy button: the page defines `onCopyLink` (frontend/src/App.jsx:72)
  but binds it to no element and never renders `copyStatus`. The model
  keeps the handler (`Share.OnCopyLink`, the `CopyFinished` and
  `CopyStatusExpired` events) as it is written; on the page those events
  never occur.
- Time. The 1.6 s copy-status timer is the `CopyStatusExpired` event. When
  it arrives is not modelled.
- The download link and the progress-ring geometry: markup only.
- Transfer.RoundPercent: uses exact rational rounding instead of IEEE
  doubles. Round-off in `loaded / total * 100` is not modelled.
- Transfer.ProcessFile: assumes the configured service base gives a URL
  that `xhr.open` accepts. With one that does not parse (e.g.
  `VITE_API_URL` set to `http://:5001`), `open` throws after the file is
  stored and `loading` is set, so the page sends nothing and stays
  loading. The model always sends the POST for an MP4.
- Js.GetProperty: built-in and inherited properties (a string's `length`,
  an object's `toString`) are not modelled. The page reads only `error`,
  which no built-in property shares.
- Js.Json: numbers are exact reals, so underflow to zero (e.g. `1e-400`)
  is not modelled.
- Whether the share promise resolves or rejects: both share handlers
  swallow it, so it is not an input to anything. `ShareImage` and
  `NativeShare` return the request they issue and nothing else.
- Cancel-and-replace, stale-event filtering and object-URL release: the
  page implements none of them, so the model states none. The lemmas
  `StaleLoadIsNotFiltered` and `DropDuringUploadStartsAnother` show their
  absence.

## Findings

| source | as written | input that shows it | evidently intended | confidence | as-written member | corrected member |
|---|---|---|---|---|---|---|
| frontend/src/App.jsx:167 | The failure branch parses `xhr.responseText`, but line 186 sets `responseType = 'blob'`. Under the XMLHttpRequest Standard (the `responseText` getter) that getter throws InvalidStateError for any response type other than "" or "text". The catch then always shows "Failed to extract frame". | A 500 response with body {"error":"decode failed"} | The service's `error` field ("decode failed") is shown | high (reasoned from the XMLHttpRequest Standard; not executed) | Transfer.ReadErrorAsWritten, Transfer.ServiceMessageLostAsWritten | Transfer.ServiceError, used by Transfer.OnLoad |
