/** The upload/result lifecycle of the page: one immutable record
    `{file, imageSrc, loading, uploadProgress, error, copyStatus}` driven
    by discrete events (a file submitted, the request's progress, load,
    error and abort events, the reset button, copy results). The request
    itself, `URL.createObjectURL` and `JSON.parse` are outside: their
    results arrive as event payloads. */
module Transfer {
  import opened Js
  import Share

  const Mp4 := "video/mp4"
  const RejectMessage := "Only MP4 files are supported at this time."
  const FallbackMessage := "Failed to extract frame"
  const NetworkMessage := "Network error occurred"
  const CancelMessage := "Upload cancelled"
  const DefaultApiUrl := "http://localhost:5001"

  /** A browser `File`: its name, declared MIME type and size. */
  datatype FileRef = FileRef(name: string, mime: string, size: nat)

  /** A JavaScript number as `Math.round` of a non-negative ratio can
      produce it: a whole number, NaN (0/0) or +Infinity (n/0, n > 0). */
  datatype Num = Finite(value: int) | NaN | Infinity

  datatype State = State(
    file: Option<FileRef>,
    imageSrc: Option<string>,
    loading: bool,
    uploadProgress: Num,
    error: Option<Json>,
    copyStatus: string)

  /** The initial `useState` values. */
  const Init := State(None, None, false, Finite(0), None, "")

  /** `xhr.responseType`: "" (or "text") versus "blob". */
  datatype ResponseType = TextResponse | BlobResponse

  /** The request `processFile` sends: method (`verb`), URL, multipart field name,
      the file, and the response type it asks for. */
  datatype Request = Request(verb: string, url: string, field: string, file: FileRef, responseType: ResponseType)

  datatype Event =
    | Submit(candidate: Option<FileRef>)
      /** `progress` on `xhr.upload`. */
    | Progress(lengthComputable: bool, loaded: nat, total: nat)
      /** `load`: the status, the URL `URL.createObjectURL` makes for the
          response blob, and what `JSON.parse` makes of the body (None when
          it throws). This is the intended reading of the body; the page as
          written never gets past `xhr.responseText` on a blob response, so
          it behaves as `Load(status, objectUrl, None)` (see
          `LoadAsWrittenIsPayloadless`). */
    | Load(status: int, objectUrl: string, payload: Option<Json>)
    | NetError
    | Abort
    | Reset
      /** `onCopyLink` finished with this result. The page defines
          `onCopyLink` but binds it to no element and never renders
          `copyStatus`, so in the page as it stands this event (and the
          next) never happens and `copyStatus` stays "". */
    | CopyFinished(ok: bool)
      /** The 1.6 s timer that clears the copy status fired. */
    | CopyStatusExpired

  /** The next state, and the request the event sends, if any. */
  datatype Transition = Transition(next: State, request: Option<Request>)

  // ---------------------------------------------------------------------
  // Progress
  // ---------------------------------------------------------------------

  /** `Math.round(loaded / total * 100)` in exact arithmetic: the largest
      integer not above `loaded / total * 100 + 1/2`. */
  function RoundPercent(loaded: nat, total: nat): (r: Num)
    ensures total == 0 && loaded == 0 <==> r.NaN?
    ensures total == 0 && loaded > 0 <==> r.Infinity?
    ensures total > 0 ==>
      r.Finite? && 2 * total * r.value <= 200 * loaded + total < 2 * total * (r.value + 1)
  {
    if total == 0 then (if loaded == 0 then NaN else Infinity)
    else
      var q := (200 * loaded + total) / (2 * total);
      DivBounds(200 * loaded + total, 2 * total);
      Finite(q)
  }

  lemma DivBounds(a: nat, b: nat)
    requires b > 0
    ensures b * (a / b) <= a < b * (a / b + 1)
  {
    assert a == b * (a / b) + a % b;
  }

  /** A progress event the browser can actually deliver: when its length
      is computable the total is positive and not exceeded. */
  ghost predicate WellFormed(e: Event) {
    e.Progress? && e.lengthComputable ==> 0 < e.total && e.loaded <= e.total
  }

  predicate PercentInRange(p: Num) {
    p.Finite? && 0 <= p.value <= 100
  }

  /** Progress of a well-formed event lies in 0..100, hitting 0 and 100
      exactly at the ends. */
  lemma RoundPercentInRange(loaded: nat, total: nat)
    requires 0 < total && loaded <= total
    ensures PercentInRange(RoundPercent(loaded, total))
    ensures loaded == 0 ==> RoundPercent(loaded, total) == Finite(0)
    ensures loaded == total ==> RoundPercent(loaded, total) == Finite(100)
  {
    var r := RoundPercent(loaded, total).value;
    assert 2 * total * r <= 200 * loaded + total < 2 * total * (r + 1);
    if r > 100 {
      assert 2 * total * r >= 2 * total * 101 by { MulMonotone(2 * total, 101, r); }
      assert false;
    }
    if loaded == 0 && r != 0 {
      assert 2 * total * r >= 2 * total * 1 by { MulMonotone(2 * total, 1, r); }
      assert false;
    }
    if loaded == total && r != 100 {
      assert 2 * total * (r + 1) <= 2 * total * 100 by { MulMonotone(2 * total, r + 1, 100); }
      assert false;
    }
  }

  lemma MulMonotone(k: nat, a: int, b: int)
    requires a <= b
    ensures k * a <= k * b
  {
    assert k * b - k * a == k * (b - a);
  }

  /** More bytes sent never shows a smaller percentage. */
  lemma RoundPercentMonotone(loaded1: nat, loaded2: nat, total: nat)
    requires 0 < total && loaded1 <= loaded2
    ensures RoundPercent(loaded1, total).value <= RoundPercent(loaded2, total).value
  {
    var r1 := RoundPercent(loaded1, total).value;
    var r2 := RoundPercent(loaded2, total).value;
    if r2 < r1 {
      MulMonotone(2 * total, r2 + 1, r1);
      assert false;
    }
  }

  /** The `progress` listener: only `uploadProgress` changes, and only
      when the length is computable. */
  function OnProgress(s: State, lengthComputable: bool, loaded: nat, total: nat): (s': State)
    ensures s'.(uploadProgress := s.uploadProgress) == s
    ensures !lengthComputable ==> s' == s
    ensures lengthComputable ==> s'.uploadProgress == RoundPercent(loaded, total)
    ensures lengthComputable && 0 < total && loaded <= total ==> PercentInRange(s'.uploadProgress)
  {
    if lengthComputable then
      assert 0 < total && loaded <= total ==> PercentInRange(RoundPercent(loaded, total)) by {
        if 0 < total && loaded <= total { RoundPercentInRange(loaded, total); }
      }
      s.(uploadProgress := RoundPercent(loaded, total))
    else s
  }

  // ---------------------------------------------------------------------
  // Reading the service's error
  // ---------------------------------------------------------------------

  /** The payload carries a truthy `error` field. */
  ghost predicate HasErrorField(payload: Option<Json>) {
    payload.Some? && GetProperty(payload.value, "error").Defined?
    && Truthy(GetProperty(payload.value, "error").value)
  }

  /** The message a failed response leaves in `error`: the payload's
      `error` field when the body parses and the field is truthy, the
      generic message otherwise (including a body that parses to `null`,
      whose property read throws). */
  function ServiceError(payload: Option<Json>): (m: Json)
    ensures Truthy(m)
    ensures HasErrorField(payload) ==> m == payload.value.fields["error"]
    ensures !HasErrorField(payload) ==> m == JString(FallbackMessage)
  {
    match payload
    case None => JString(FallbackMessage)
    case Some(v) =>
      match GetProperty(v, "error")
      case Defined(e) => if Truthy(e) then e else JString(FallbackMessage)
      case _ => JString(FallbackMessage)
  }

  /** The `xhr.responseText` getter: the body as text, or None when it
      throws, which it does for any response type other than text. */
  function ResponseText(responseType: ResponseType, body: string): (t: Option<string>)
    ensures t.Some? <==> responseType == TextResponse
    ensures t.Some? ==> t.value == body
  {
    if responseType == TextResponse then Some(body) else None
  }

  /** The failure branch of the `load` listener as the page has it: parse
      `xhr.responseText`, read its `error` field, fall back on any throw.
      `parse` is `JSON.parse`, None when it throws. */
  function ReadErrorAsWritten(responseType: ResponseType, body: string, parse: string -> Option<Json>): (m: Json)
    ensures responseType == BlobResponse ==> m == JString(FallbackMessage)
    ensures responseType == TextResponse ==> m == ServiceError(parse(body))
  {
    match ResponseText(responseType, body)
    case None => JString(FallbackMessage)
    case Some(text) => ServiceError(parse(text))
  }

  /** The request asks for a blob, so a service message is lost: a 500
      with body {"error":"decode failed"} still shows the generic text. */
  lemma ServiceMessageLostAsWritten(parse: string -> Option<Json>)
    requires parse("{\"error\":\"decode failed\"}") == Some(JObject(map["error" := JString("decode failed")]))
    ensures ReadErrorAsWritten(BlobResponse, "{\"error\":\"decode failed\"}", parse) == JString(FallbackMessage)
    ensures ServiceError(parse("{\"error\":\"decode failed\"}")) == JString("decode failed")
  {
    var p := parse("{\"error\":\"decode failed\"}");
    assert GetProperty(p.value, "error") == Defined(JString("decode failed"));
  }

  // ---------------------------------------------------------------------
  // Transitions
  // ---------------------------------------------------------------------

  /** `import.meta.env.VITE_API_URL || 'http://localhost:5001'`. */
  function ApiUrl(configured: Option<string>): (u: string)
    ensures configured.Some? && configured.value != "" ==> u == configured.value
    ensures !(configured.Some? && configured.value != "") ==> u == DefaultApiUrl
  {
    if configured.Some? && configured.value != "" then configured.value else DefaultApiUrl
  }

  /** The request `processFile` sends for an accepted file `f`: a POST
      of the form field `video` to the service's extraction endpoint,
      asking for a blob. */
  function UploadRequest(f: FileRef, apiConfig: Option<string>): (q: Request)
    ensures q.verb == "POST" && q.field == "video" && q.file == f && q.responseType == BlobResponse
    ensures q.url == ApiUrl(apiConfig) + "/extract-frame"
  {
    Request("POST", ApiUrl(apiConfig) + "/extract-frame", "video", f, BlobResponse)
  }

  /** `processFile`: nothing for no file; an error only for a non-MP4;
      for an MP4 a fresh upload state and the POST request. */
  function ProcessFile(s: State, candidate: Option<FileRef>, apiConfig: Option<string>): (t: Transition)
    ensures t.request.Some? <==> candidate.Some? && candidate.value.mime == Mp4
    ensures candidate.None? ==> t.next == s
    ensures candidate.Some? && candidate.value.mime != Mp4 ==>
      t.next == s.(error := Some(JString(RejectMessage)))
    ensures candidate.Some? && candidate.value.mime == Mp4 ==>
      && t.next.file == candidate
      && t.next.imageSrc.None?
      && t.next.loading
      && t.next.uploadProgress == Finite(0)
      && t.next.error.None?
      && t.next.copyStatus == s.copyStatus
    ensures t.request.Some? ==>
      && t.request.value.verb == "POST"
      && t.request.value.url == ApiUrl(apiConfig) + "/extract-frame"
      && t.request.value.field == "video"
      && t.request.value.file == candidate.value
      && t.request.value.responseType == BlobResponse
  {
    match candidate
    case None => Transition(s, None)
    case Some(f) =>
      if f.mime != Mp4 then Transition(s.(error := Some(JString(RejectMessage))), None)
      else
        var s' := s.(file := Some(f), loading := true, error := None, imageSrc := None, uploadProgress := Finite(0));
        Transition(s', Some(UploadRequest(f, apiConfig)))
  }

  /** The `load` listener, with the corrected reading of a failed body:
      a 2xx status shows the image and leaves any error in place; any
      other status sets the service's message. The page as written is the
      case `payload == None`. */
  function OnLoad(s: State, status: int, objectUrl: string, payload: Option<Json>): (s': State)
    ensures !s'.loading
    ensures s'.file == s.file && s'.uploadProgress == s.uploadProgress && s'.copyStatus == s.copyStatus
    ensures 200 <= status < 300 ==> s'.imageSrc == Some(objectUrl) && s'.error == s.error
    ensures !(200 <= status < 300) ==>
      s'.imageSrc == s.imageSrc && s'.error == Some(ServiceError(payload))
  {
    if 200 <= status < 300 then s.(imageSrc := Some(objectUrl), loading := false)
    else s.(error := Some(ServiceError(payload)), loading := false)
  }

  /** The `error` and `abort` listeners: a fixed message, loading off. */
  function OnFailure(s: State, message: string): (s': State)
    ensures s'.(error := s.error, loading := s.loading) == s
    ensures !s'.loading && s'.error == Some(JString(message))
  {
    s.(error := Some(JString(message)), loading := false)
  }

  /** The page as written: since the body of a blob response cannot be
      read as text, every non-2xx `load` behaves as one whose body did not
      parse. */
  lemma LoadAsWrittenIsPayloadless(s: State, status: int, objectUrl: string, body: string,
                                   parse: string -> Option<Json>)
    requires !(200 <= status < 300)
    ensures OnLoad(s, status, objectUrl, None).error == Some(ReadErrorAsWritten(BlobResponse, body, parse))
    ensures OnLoad(s, status, objectUrl, None).error == Some(JString(FallbackMessage))
  {
  }

  /** `resetState`: clears everything except `loading`. It does not
      release the object URL. */
  function ResetState(s: State): (s': State)
    ensures s'.loading == s.loading
    ensures s'.(loading := false) == Init
  {
    s.(file := None, imageSrc := None, error := None, uploadProgress := Finite(0), copyStatus := "")
  }

  /** One event. Only a submission sends a request; the copy events
      touch nothing but the copy status. */
  function Step(s: State, e: Event, apiConfig: Option<string>): (t: Transition)
    ensures t.request.Some? ==> e.Submit?
    ensures e.CopyFinished? || e.CopyStatusExpired? ==> t.next.(copyStatus := s.copyStatus) == s
    ensures e.CopyFinished? ==> t.next.copyStatus == Share.CopyStatusText(e.ok)
    ensures e.CopyStatusExpired? ==> t.next.copyStatus == ""
  {
    match e
    case Submit(candidate) => ProcessFile(s, candidate, apiConfig)
    case Progress(computable, loaded, total) => Transition(OnProgress(s, computable, loaded, total), None)
    case Load(status, objectUrl, payload) => Transition(OnLoad(s, status, objectUrl, payload), None)
    case NetError => Transition(OnFailure(s, NetworkMessage), None)
    case Abort => Transition(OnFailure(s, CancelMessage), None)
    case Reset => Transition(ResetState(s), None)
    case CopyFinished(ok) => Transition(s.(copyStatus := Share.CopyStatusText(ok)), None)
    case CopyStatusExpired => Transition(s.(copyStatus := ""), None)
  }

  /** The state after a sequence of events: no events change nothing,
      and a single event is one step. */
  function Run(s: State, events: seq<Event>, apiConfig: Option<string>): (r: State)
    ensures events == [] ==> r == s
    ensures |events| == 1 ==> r == Step(s, events[0], apiConfig).next
    decreases |events|
  {
    if events == [] then s
    else Run(Step(s, events[0], apiConfig).next, events[1..], apiConfig)
  }

  /** The requests a sequence of events sends, in order: at most one per
      event, and only submissions send any. */
  function Requests(s: State, events: seq<Event>, apiConfig: Option<string>): (r: seq<Request>)
    ensures |r| <= |events|
    ensures (forall i :: 0 <= i < |events| ==> !events[i].Submit?) ==> r == []
    decreases |events|
  {
    if events == [] then []
    else
      var t := Step(s, events[0], apiConfig);
      (if t.request.Some? then [t.request.value] else []) + Requests(t.next, events[1..], apiConfig)
  }

  // ---------------------------------------------------------------------
  // What the page shows and which inputs it accepts
  // ---------------------------------------------------------------------

  /** The result block, with the reset button and the share panel, is
      rendered exactly when `imageSrc` is truthy; this is the same test
      the share handlers make. */
  function ResultShown(s: State): (b: bool)
    ensures b <==> s.imageSrc.Some? && s.imageSrc.value != ""
  {
    Share.HasImage(s.imageSrc)
  }

  /** The drop zone (and so drag-and-drop) is rendered exactly when the
      result is not: one of the two always occupies the panel. */
  function DropZoneShown(s: State): (b: bool)
    ensures b <==> s.imageSrc.None? || s.imageSrc.value == ""
    ensures b != ResultShown(s)
  {
    !ResultShown(s)
  }

  /** The hero button opens the file picker only when idle with no result. */
  function HeroBrowseEnabled(s: State): (b: bool)
    ensures b <==> !s.loading && (s.imageSrc.None? || s.imageSrc.value == "")
    ensures b ==> DropZoneShown(s)
  {
    !s.loading && !ResultShown(s)
  }

  /** A click on the drop zone opens the picker when the zone is rendered
      and no upload is marked as loading. */
  function DropZoneBrowseEnabled(s: State): (b: bool)
    ensures b <==> !s.loading && (s.imageSrc.None? || s.imageSrc.value == "")
    ensures b ==> DropZoneShown(s)
  {
    DropZoneShown(s) && !s.loading
  }

  /** Both ways of opening the picker are available in exactly the same
      states. */
  lemma BrowseGuardsAgree(s: State)
    ensures HeroBrowseEnabled(s) <==> DropZoneBrowseEnabled(s)
  {
  }

  /** The first file of a drop or a picker change, if there is one. */
  function FirstFile(files: Option<seq<FileRef>>): (f: Option<FileRef>)
    ensures f.Some? <==> files.Some? && |files.value| > 0
    ensures f.Some? ==> f.value == files.value[0]
  {
    if files.Some? && |files.value| > 0 then Some(files.value[0]) else None
  }

  /** `onDrop` and `onFileInputChange`: process the first file, with no
      check of `loading`. */
  function OnFiles(s: State, files: Option<seq<FileRef>>, apiConfig: Option<string>): (t: Transition)
    ensures FirstFile(files).None? ==> t == Transition(s, None)
    ensures FirstFile(files).Some? ==> t == ProcessFile(s, FirstFile(files), apiConfig)
  {
    ProcessFile(s, FirstFile(files), apiConfig)
  }

  // ---------------------------------------------------------------------
  // Properties of the lifecycle
  // ---------------------------------------------------------------------

  /** Accepting an MP4 forgets everything but the copy status. */
  lemma AcceptForgetsPriorState(s1: State, s2: State, f: FileRef, apiConfig: Option<string>)
    requires f.mime == Mp4 && s1.copyStatus == s2.copyStatus
    ensures ProcessFile(s1, Some(f), apiConfig) == ProcessFile(s2, Some(f), apiConfig)
    ensures ProcessFile(s1, Some(f), apiConfig).next == Init.(file := Some(f), loading := true, copyStatus := s1.copyStatus)
  {
  }

  /** A rejected file leaves the earlier file and image on screen, and a
      following MP4 wipes the rejection as if it never happened. */
  lemma RejectThenAccept(s: State, bad: FileRef, good: FileRef, apiConfig: Option<string>)
    requires bad.mime != Mp4 && good.mime == Mp4
    ensures ProcessFile(s, Some(bad), apiConfig).next.file == s.file
    ensures ProcessFile(s, Some(bad), apiConfig).next.imageSrc == s.imageSrc
    ensures ProcessFile(ProcessFile(s, Some(bad), apiConfig).next, Some(good), apiConfig)
            == ProcessFile(s, Some(good), apiConfig)
  {
  }

  /** Every terminal event clears `loading` and keeps the file. */
  lemma TerminalEventsSettle(s: State, e: Event, apiConfig: Option<string>)
    requires e.Load? || e.NetError? || e.Abort?
    ensures !Step(s, e, apiConfig).next.loading
    ensures Step(s, e, apiConfig).next.file == s.file
    ensures Step(s, e, apiConfig).next.error.Some?
            || Step(s, e, apiConfig).next.imageSrc == Some(e.objectUrl)
    ensures !e.Load? ==> Step(s, e, apiConfig).next.imageSrc == s.imageSrc
  {
  }

  lemma ResetIdempotent(s: State)
    ensures ResetState(ResetState(s)) == ResetState(s)
  {
  }

  /** Reset returns exactly to the initial state iff no upload is marked
      as loading. */
  lemma ResetIsInitIffSettled(s: State)
    ensures ResetState(s) == Init <==> !s.loading
  {
    if ResetState(s) == Init {
      assert ResetState(s).loading == Init.loading;
    }
  }

  /** The invariant every reachable state keeps: any error is a truthy
      value, the copy status is one of the three texts, and (when the
      browser's progress events are well formed) the progress is a
      percentage. */
  ghost predicate Valid(s: State) {
    && (s.error.Some? ==> Truthy(s.error.value))
    && (s.copyStatus == "" || s.copyStatus == Share.CopiedText || s.copyStatus == Share.CopyFailedText)
    && PercentInRange(s.uploadProgress)
  }

  lemma InitValid()
    ensures Valid(Init)
  {
  }

  lemma StepPreservesValid(s: State, e: Event, apiConfig: Option<string>)
    requires Valid(s) && WellFormed(e)
    ensures Valid(Step(s, e, apiConfig).next)
  {
  }

  lemma {:induction false} RunPreservesValid(s: State, events: seq<Event>, apiConfig: Option<string>)
    requires Valid(s)
    requires forall i :: 0 <= i < |events| ==> WellFormed(events[i])
    ensures Valid(Run(s, events, apiConfig))
    decreases |events|
  {
    if events != [] {
      StepPreservesValid(s, events[0], apiConfig);
      RunPreservesValid(Step(s, events[0], apiConfig).next, events[1..], apiConfig);
    }
  }

  /** Every request sent carries an MP4 and goes to the extraction endpoint. */
  lemma {:induction false} RequestsAreMp4Posts(s: State, events: seq<Event>, apiConfig: Option<string>)
    ensures forall r :: r in Requests(s, events, apiConfig) ==>
      r.file.mime == Mp4 && r.verb == "POST" && r.url == ApiUrl(apiConfig) + "/extract-frame"
    decreases |events|
  {
    if events != [] {
      RequestsAreMp4Posts(Step(s, events[0], apiConfig).next, events[1..], apiConfig);
    }
  }

  /** The i-th request sent is the upload of the file of the i-th
      submission that carries an MP4, and there are no others. */
  lemma {:induction false} RequestsMatchSubmissions(s: State, events: seq<Event>, apiConfig: Option<string>)
    ensures var a := AcceptedSubmissions(events);
      && (forall i :: 0 <= i < |a| ==> a[i].Submit? && a[i].candidate.Some? && a[i].candidate.value.mime == Mp4)
      && Requests(s, events, apiConfig)
         == seq(|a|, i requires 0 <= i < |a| && a[i].Submit? && a[i].candidate.Some? =>
                       UploadRequest(a[i].candidate.value, apiConfig))
    decreases |events|
  {
    if events != [] {
      var t := Step(s, events[0], apiConfig);
      RequestsMatchSubmissions(t.next, events[1..], apiConfig);
      var a := AcceptedSubmissions(events);
      var rest := AcceptedSubmissions(events[1..]);
      var e := events[0];
      if e.Submit? && e.candidate.Some? && e.candidate.value.mime == Mp4 {
        assert a == [e] + rest;
        assert t.request == Some(UploadRequest(e.candidate.value, apiConfig));
      } else {
        assert a == rest;
        assert t.request.None?;
      }
    }
  }

  /** Only events that hand over an MP4 send requests: one per such event. */
  lemma RequestCount(s: State, events: seq<Event>, apiConfig: Option<string>)
    ensures |Requests(s, events, apiConfig)| == |AcceptedSubmissions(events)|
  {
    RequestsMatchSubmissions(s, events, apiConfig);
  }

  /** The submissions in `events` that carry an MP4. */
  ghost function AcceptedSubmissions(events: seq<Event>): seq<Event>
    decreases |events|
  {
    if events == [] then []
    else
      (if events[0].Submit? && events[0].candidate.Some? && events[0].candidate.value.mime == Mp4
       then [events[0]] else [])
      + AcceptedSubmissions(events[1..])
  }

  /** A shown result never coexists with `loading`: every event that sets
      the image also clears `loading`, and a new upload clears the image. */
  ghost predicate ResultSettled(s: State) {
    ResultShown(s) ==> !s.loading
  }

  lemma {:induction false} RunKeepsResultSettled(s: State, events: seq<Event>, apiConfig: Option<string>)
    requires ResultSettled(s)
    ensures ResultSettled(Run(s, events, apiConfig))
    decreases |events|
  {
    if events != [] {
      var s' := Step(s, events[0], apiConfig).next;
      assert ResultSettled(s');
      RunKeepsResultSettled(s', events[1..], apiConfig);
    }
  }

  /** The reset button is rendered only with a result, and from any state
      the page can reach it returns exactly to the initial state. */
  lemma {:induction false} ResetButtonReturnsToInit(events: seq<Event>, apiConfig: Option<string>)
    requires ResultShown(Run(Init, events, apiConfig))
    ensures ResetState(Run(Init, events, apiConfig)) == Init
  {
    RunKeepsResultSettled(Init, events, apiConfig);
    ResetIsInitIffSettled(Run(Init, events, apiConfig));
  }

  /** Running `a` then `b` is running `a + b`. */
  lemma {:induction false} RunAppend(s: State, a: seq<Event>, b: seq<Event>, apiConfig: Option<string>)
    ensures Run(s, a + b, apiConfig) == Run(Run(s, a, apiConfig), b, apiConfig)
    decreases |a|
  {
    if a == [] {
      assert a + b == b;
    } else {
      assert (a + b)[0] == a[0];
      assert (a + b)[1..] == a[1..] + b;
      RunAppend(Step(s, a[0], apiConfig).next, a[1..], b, apiConfig);
    }
  }

  /** Running `e` then `rest` is stepping once and running `rest`. */
  lemma RunCons(s: State, e: Event, rest: seq<Event>, apiConfig: Option<string>)
    ensures Run(s, [e] + rest, apiConfig) == Run(Step(s, e, apiConfig).next, rest, apiConfig)
  {
    assert ([e] + rest)[1..] == rest;
  }

  // ---------------------------------------------------------------------
  // Scenarios
  // ---------------------------------------------------------------------

  /** A drop while uploading starts a second request: nothing stops it. */
  lemma DropDuringUploadStartsAnother(a: FileRef, b: FileRef, apiConfig: Option<string>)
    requires a.mime == Mp4 && b.mime == Mp4
    ensures var s := ProcessFile(Init, Some(a), apiConfig).next;
      && s.loading
      && !HeroBrowseEnabled(s) && !DropZoneBrowseEnabled(s)
      && DropZoneShown(s)
      && OnFiles(s, Some([b]), apiConfig).request.Some?
  {
  }

  /** With two uploads overlapping, the first one's load still lands: the
      page shows the first result beside the second file and stops
      loading while the second is still in flight. */
  lemma StaleLoadIsNotFiltered(a: FileRef, b: FileRef, urlA: string, apiConfig: Option<string>)
    requires a.mime == Mp4 && b.mime == Mp4
    ensures Run(Init, [Submit(Some(a)), Submit(Some(b)), Load(200, urlA, None)], apiConfig)
            == State(Some(b), Some(urlA), false, Finite(0), None, "")
  {
    var s1 := Step(Init, Submit(Some(a)), apiConfig).next;
    var s2 := Step(s1, Submit(Some(b)), apiConfig).next;
    RunCons(Init, Submit(Some(a)), [Submit(Some(b)), Load(200, urlA, None)], apiConfig);
    RunCons(s1, Submit(Some(b)), [Load(200, urlA, None)], apiConfig);
    RunCons(s2, Load(200, urlA, None), [], apiConfig);
  }

  /** A .mov file: the rejection message and no request. */
  lemma ScenarioRejectMov(apiConfig: Option<string>)
    ensures var mov := FileRef("clip.mov", "video/quicktime", 1000);
      && Run(Init, [Submit(Some(mov))], apiConfig).error == Some(JString(RejectMessage))
      && Requests(Init, [Submit(Some(mov))], apiConfig) == []
  {
    var mov := FileRef("clip.mov", "video/quicktime", 1000);
    assert [Submit(Some(mov))][1..] == [];
  }

  /** An MP4 with progress 0, 45, 100 and a 2xx response. */
  lemma ScenarioSuccess(url: string, apiConfig: Option<string>)
    ensures var f := FileRef("clip.mp4", Mp4, 1000);
      Run(Init, [Submit(Some(f)), Progress(true, 0, 1000), Progress(true, 450, 1000),
                 Progress(true, 1000, 1000), Load(200, url, None)], apiConfig)
      == State(Some(f), Some(url), false, Finite(100), None, "")
  {
    var f := FileRef("clip.mp4", Mp4, 1000);
    var e0, e1, e2, e3, e4 := Submit(Some(f)), Progress(true, 0, 1000), Progress(true, 450, 1000),
                              Progress(true, 1000, 1000), Load(200, url, None);
    var s1 := Step(Init, e0, apiConfig).next;
    var s2 := Step(s1, e1, apiConfig).next;
    var s3 := Step(s2, e2, apiConfig).next;
    var s4 := Step(s3, e3, apiConfig).next;
    RunCons(Init, e0, [e1, e2, e3, e4], apiConfig);
    RunCons(s1, e1, [e2, e3, e4], apiConfig);
    RunCons(s2, e2, [e3, e4], apiConfig);
    RunCons(s3, e3, [e4], apiConfig);
    RunCons(s4, e4, [], apiConfig);
    RoundPercentInRange(1000, 1000);
  }

  /** An MP4 answered by a 500 with body {"error":"decode failed"}. */
  lemma ScenarioServiceError(apiConfig: Option<string>)
    ensures var f := FileRef("clip.mp4", Mp4, 1000);
      Run(Init, [Submit(Some(f)), Load(500, "", Some(JObject(map["error" := JString("decode failed")])))], apiConfig)
        .error == Some(JString("decode failed"))
  {
    var f := FileRef("clip.mp4", Mp4, 1000);
    var payload := Some(JObject(map["error" := JString("decode failed")]));
    var s1 := Step(Init, Submit(Some(f)), apiConfig).next;
    RunCons(Init, Submit(Some(f)), [Load(500, "", payload)], apiConfig);
    RunCons(s1, Load(500, "", payload), [], apiConfig);
    assert GetProperty(payload.value, "error") == Defined(JString("decode failed"));
  }

  /** After a success, reset yields the initial state exactly. */
  lemma ScenarioResetAfterSuccess(url: string, apiConfig: Option<string>)
    ensures var f := FileRef("clip.mp4", Mp4, 1000);
      Run(Init, [Submit(Some(f)), Load(200, url, None), Reset], apiConfig) == Init
  {
    var f := FileRef("clip.mp4", Mp4, 1000);
    var s1 := Step(Init, Submit(Some(f)), apiConfig).next;
    var s2 := Step(s1, Load(200, url, None), apiConfig).next;
    RunCons(Init, Submit(Some(f)), [Load(200, url, None), Reset], apiConfig);
    RunCons(s1, Load(200, url, None), [Reset], apiConfig);
    RunCons(s2, Reset, [], apiConfig);
  }
}
