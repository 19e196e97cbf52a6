/** The application's submission controller: the state record
    `{file, isLoading, results, error}`, the handlers that change it, and the
    classification of the extraction service's reply. The HTTP request itself
    is not modelled: a reply arrives as an already-decoded `Response`, and one
    extraction is a single step from the state before to the state after. */
module Controller {
  import opened Optional
  import opened Results
  import Values

  /** A file chosen by the user: its name, size in bytes and media type. */
  datatype FileHandle = FileHandle(name: string, size: nat, mimeType: string)

  /** The application's state. */
  datatype AppState = AppState(
    file: Option<FileHandle>,
    isLoading: bool,
    results: Option<ExtractionResult>,
    error: Option<string>)

  /** The state before any interaction. */
  const Initial: AppState := AppState(None, false, None, None)

  /** The decoded reply body. `success` is the truthiness of the `success`
      property; a missing string property is `None`. */
  datatype ResponseBody = ResponseBody(
    success: bool,
    data: Option<ExtractionResult>,
    detail: Option<string>,
    message: Option<string>)

  /** How the request settled: an answer with the transport's `ok` flag (a
      2xx status) and its parsed body, or a rejection carrying the thrown
      error's message (the network failed, or the body was not JSON). */
  datatype Response =
    | Answered(ok: bool, body: ResponseBody)
    | Rejected(reason: string)

  /** What one extraction comes to. */
  datatype Outcome = Succeeded(data: Option<ExtractionResult>) | Failed(message: string)

  const TransportFailureMessage: string := "Failed to extract data from PDF"
  const ExtractionFailureMessage: string := "Extraction failed"

  /** `s || fallback` for an optional string: a missing or empty string gives
      the fallback. */
  function OrFallback(s: Option<string>, fallback: string): (r: string)
    ensures fallback != "" ==> r != ""
    ensures s.Some? && s.value != "" ==> r == s.value
    ensures s.None? || s.value == "" ==> r == fallback
  {
    if s.Some? && s.value != "" then s.value else fallback
  }

  /** The reply carries a result object with at least one key. */
  predicate HasData(body: ResponseBody)
    ensures HasData(body) <==>
              body.data.Some? &&
              (|| body.data.value.filename.Some? || body.data.value.page1.Some?
               || body.data.value.partVIII.Some? || body.data.value.partIX.Some?
               || body.data.value.errors.Some? || body.data.value.otherKeys > 0)
  {
    body.data.Some? && KeyCount(body.data.value) > 0
  }

  /** The classification in `handleExtract`. A rejection fails with the
      thrown message. An answer that is not `ok` fails with its `detail`,
      before the success flag is even looked at. An `ok` answer succeeds when
      its success flag is set or when it carries a non-empty result (a
      low-confidence extraction still counts); otherwise it fails with its
      `message`. Only a rejection can fail with an empty message. */
  function Classify(resp: Response): (o: Outcome)
    ensures resp.Rejected? ==> o == Failed(resp.reason)
    ensures resp.Answered? && !resp.ok ==>
              o == Failed(OrFallback(resp.body.detail, TransportFailureMessage))
    ensures resp.Answered? && resp.ok ==>
              (o.Succeeded? <==> resp.body.success || HasData(resp.body))
    ensures o.Succeeded? ==> resp.Answered? && o.data == resp.body.data
    ensures resp.Answered? && resp.ok && o.Failed? ==>
              o.message == OrFallback(resp.body.message, ExtractionFailureMessage)
    ensures o.Failed? && o.message == "" ==> resp == Rejected("")
  {
    match resp
    case Rejected(reason) => Failed(reason)
    case Answered(ok, body) =>
      if !ok then
        Failed(OrFallback(body.detail, TransportFailureMessage))
      else if body.success || HasData(body) then
        Succeeded(body.data)
      else
        Failed(OrFallback(body.message, ExtractionFailureMessage))
  }

  // ---------------------------------------------------------------------------
  // Handlers
  // ---------------------------------------------------------------------------

  /** `handleFileSelect`: the new file replaces the held one, and any error
      or result of the previous file is dropped. A running extraction keeps
      running. */
  function SelectFile(s: AppState, f: FileHandle): (s': AppState)
    ensures s'.file == Some(f) && s'.error.None? && s'.results.None?
    ensures s'.isLoading == s.isLoading
  {
    s.(file := Some(f), error := None, results := None)
  }

  /** `handleRemoveFile`: file, error and result all cleared. */
  function RemoveFile(s: AppState): (s': AppState)
    ensures s'.file.None? && s'.error.None? && s'.results.None?
    ensures s'.isLoading == s.isLoading
  {
    s.(file := None, error := None, results := None)
  }

  /** `handleReset`: the same three fields cleared, so it is the same
      transition as removing the file. */
  function Reset(s: AppState): (s': AppState)
    ensures s'.file.None? && s'.error.None? && s'.results.None?
    ensures s'.isLoading == s.isLoading
  {
    s.(file := None, results := None, error := None)
  }

  lemma ResetIsRemove(s: AppState)
    ensures Reset(s) == RemoveFile(s)
  {
  }

  /** The extract button is enabled: a file is held and nothing is running. */
  predicate CanExtract(s: AppState)
    ensures CanExtract(s) ==> BeginExtract(s) != s && BeginExtract(s).isLoading
    ensures CanExtract(s) ==> BeginExtract(s).file == s.file && BeginExtract(s).error.None?
  {
    s.file.Some? && !s.isLoading
  }

  /** The error banner is shown: the error is truthy. */
  predicate ErrorShown(s: AppState)
    ensures ErrorShown(s) <==> s.error.Some? && Values.Truthy(Values.Str(s.error.value))
  {
    s.error.Some? && s.error.value != ""
  }

  /** The start of `handleExtract`: without a file nothing happens; with one,
      loading goes on and the error is cleared while the previous result stays
      on screen. */
  function BeginExtract(s: AppState): (s': AppState)
    ensures s.file.None? ==> s' == s
    ensures s.file.Some? ==> s'.isLoading && s'.error.None?
    ensures s'.file == s.file && s'.results == s.results
  {
    if s.file.None? then s else s.(isLoading := true, error := None)
  }

  /** How `handleExtract` settles: loading off; a success replaces the result
      and clears the error, a failure sets only the error and leaves the
      result shown before. The file is not looked at again. */
  function FinishExtract(s: AppState, resp: Response): (s': AppState)
    ensures !s'.isLoading && s'.file == s.file
    ensures Classify(resp).Succeeded? ==> s'.results == Classify(resp).data && s'.error.None?
    ensures Classify(resp).Failed? ==>
              s'.results == s.results && s'.error == Some(Classify(resp).message)
  {
    match Classify(resp)
    case Succeeded(d) => s.(isLoading := false, results := d, error := None)
    case Failed(m) => s.(isLoading := false, error := Some(m))
  }

  /** `handleExtract` run to completion with nothing in between. */
  function Extract(s: AppState, resp: Response): (s': AppState)
    ensures s.file.None? ==> s' == s
    ensures s.file.Some? ==> !s'.isLoading && s'.file == s.file
    ensures s.file.Some? ==> (ErrorShown(s') <==> Classify(resp).Failed? && resp != Rejected(""))
    ensures s.file.Some? && Classify(resp).Succeeded? ==>
              s'.results == Classify(resp).data && s'.error.None?
    ensures s.file.Some? && Classify(resp).Failed? ==> s'.results == s.results
  {
    if s.file.None? then s else FinishExtract(BeginExtract(s), resp)
  }

  // ---------------------------------------------------------------------------
  // Scenarios
  // ---------------------------------------------------------------------------

  /** A failed extraction leaves a previously shown result in place, next to
      the error: after a success followed by a failure, both are shown. */
  lemma FailureKeepsEarlierResult(f: FileHandle, r: ExtractionResult, bad: Response)
    requires Classify(bad).Failed? && bad != Rejected("")
    ensures var good := Answered(true, ResponseBody(true, Some(r), None, None));
            var s := Extract(Extract(SelectFile(Initial, f), good), bad);
            s.results == Some(r) && ErrorShown(s)
  {
  }

  /** A rejection whose error has an empty message fails silently: loading
      ends, no error appears, and the screen keeps whatever result it showed
      before, so with no earlier result nothing is shown at all. */
  lemma SilentFailure(s: AppState)
    requires s.file.Some?
    ensures var s' := Extract(s, Rejected(""));
            !ErrorShown(s') && s'.results == s.results && !s'.isLoading
    ensures s.results.None? ==> Extract(s, Rejected("")).results.None?
  {
  }

  /** A failing status wins over a success flag in the body. */
  lemma NotOkFailsDespiteSuccessFlag(data: Option<ExtractionResult>)
    ensures Classify(Answered(false, ResponseBody(true, data, None, None))) == Failed(TransportFailureMessage)
    ensures Classify(Answered(false, ResponseBody(true, data, Some(""), None))) == Failed(TransportFailureMessage)
    ensures Classify(Answered(false, ResponseBody(true, data, Some("Bad file"), None))) == Failed("Bad file")
  {
  }

  /** A low-confidence answer (flag false, data with at least one key) is a
      success exactly like a flagged one: the result is shown as sent. */
  lemma PartialResultSucceeds(body: ResponseBody)
    requires HasData(body)
    ensures Classify(Answered(true, body.(success := false))) == Succeeded(body.data)
    ensures Classify(Answered(true, body)) == Succeeded(body.data)
  {
  }

  /** `{success: false, data: {page1: null}}`: the `page1` key is present with
      `null`, so it counts for `Object.keys`, and the reply succeeds although
      no section holds a value. */
  lemma NullSectionKeyCounts()
    ensures var nullPage1 := ExtractionResult(None, None, None, None, None, 1);
            KeyCount(nullPage1) == 1 &&
            Classify(Answered(true, ResponseBody(false, Some(nullPage1), None, None))) == Succeeded(Some(nullPage1))
  {
  }

  /** An `ok` answer with the flag false and an empty or missing result fails
      with the fallback message unless it brings its own; a set flag succeeds
      even without data. */
  lemma EmptyResultFails(empty: ExtractionResult)
    requires KeyCount(empty) == 0
    ensures Classify(Answered(true, ResponseBody(false, Some(empty), None, None))) == Failed(ExtractionFailureMessage)
    ensures Classify(Answered(true, ResponseBody(false, None, None, None))) == Failed(ExtractionFailureMessage)
    ensures Classify(Answered(true, ResponseBody(false, None, Some("x"), Some("No fields")))) == Failed("No fields")
    ensures Classify(Answered(true, ResponseBody(true, None, None, None))) == Succeeded(None)
  {
  }

  // ---------------------------------------------------------------------------
  // Event traces and the state invariant
  // ---------------------------------------------------------------------------

  /** What the user and the network can do. Extraction is two events, so
      other events can arrive while the request is in flight. */
  datatype AppEvent =
    | FileSelected(f: FileHandle)
    | RemoveClicked
    | ExtractClicked
    | RequestSettled(resp: Response)

  /** One event. The remove button is hidden and the extract button disabled
      while loading, so those clicks do nothing then; a file can still be
      dropped. A settlement with no request in flight cannot happen and is
      ignored. (Nothing calls `handleReset`.) */
  function Step(s: AppState, e: AppEvent): (s': AppState)
    ensures s'.file != s.file ==> e.FileSelected? || e.RemoveClicked?
    ensures s'.results != s.results ==> s'.results.None? || e.RequestSettled?
    ensures s'.error.Some? ==> s'.error == s.error || e.RequestSettled?
    ensures s.isLoading && !e.RequestSettled? ==> s'.isLoading
    ensures e.RequestSettled? ==> !s'.isLoading
    ensures !s.isLoading && e.RequestSettled? ==> s' == s
    ensures s'.isLoading && !s.isLoading ==> e.ExtractClicked? && s.file.Some?
  {
    match e
    case FileSelected(f) => SelectFile(s, f)
    case RemoveClicked => if s.isLoading then s else RemoveFile(s)
    case ExtractClicked => if CanExtract(s) then BeginExtract(s) else s
    case RequestSettled(resp) => if s.isLoading then FinishExtract(s, resp) else s
  }

  /** Clicking extract does something exactly when the button is enabled:
      a file is held and nothing is running. */
  lemma ExtractClickActsIffEnabled(s: AppState)
    ensures Step(s, ExtractClicked) != s <==> CanExtract(s)
    ensures CanExtract(s) ==> Step(s, ExtractClicked).isLoading
  {
  }

  /** Clicking remove clears the file unless an extraction is running. */
  lemma RemoveClickActsIffIdle(s: AppState)
    requires s.file.Some?
    ensures Step(s, RemoveClicked) != s <==> !s.isLoading
  {
  }

  /** The state after a sequence of events. */
  function Run(s: AppState, events: seq<AppEvent>): AppState
    decreases |events|
  {
    if |events| == 0 then s else Run(Step(s, events[0]), events[1..])
  }

  /** What holds between events: without a file nothing is running and
      neither a result nor an error is shown; while running, no error is
      shown. */
  ghost predicate Consistent(s: AppState) {
    && (s.file.None? ==> !s.isLoading && s.results.None? && s.error.None?)
    && (s.isLoading ==> s.error.None?)
  }

  /** The application starts consistent. */
  lemma InitialConsistent()
    ensures Consistent(Initial)
  {
  }

  /** Each event keeps the state consistent. */
  lemma StepKeepsConsistent(s: AppState, e: AppEvent)
    requires Consistent(s)
    ensures Consistent(Step(s, e))
  {
  }

  /** Every sequence of events from a consistent state ends in a consistent
      one; in particular a result or an error is only ever shown next to a
      held file. */
  lemma {:induction false} RunKeepsConsistent(s: AppState, events: seq<AppEvent>)
    requires Consistent(s)
    ensures Consistent(Run(s, events))
    ensures Run(s, events).results.Some? ==> Run(s, events).file.Some?
    decreases |events|
  {
    if |events| > 0 {
      StepKeepsConsistent(s, events[0]);
      RunKeepsConsistent(Step(s, events[0]), events[1..]);
    }
  }

  /** Every state the application can reach is consistent: whatever the
      events, a result or an error is only shown next to a held file, and
      no error is shown while an extraction runs. */
  lemma ReachableConsistent(events: seq<AppEvent>)
    ensures Consistent(Run(Initial, events))
    ensures Run(Initial, events).results.Some? ==> Run(Initial, events).file.Some?
    ensures Run(Initial, events).isLoading ==> Run(Initial, events).error.None?
  {
    InitialConsistent();
    RunKeepsConsistent(Initial, events);
  }

  /** Clicking extract and the request settling, with nothing in between, is
      the whole of `handleExtract`. */
  lemma ClickThenSettleIsExtract(s: AppState, resp: Response)
    requires CanExtract(s)
    ensures Run(s, [ExtractClicked, RequestSettled(resp)]) == Extract(s, resp)
  {
    var events := [ExtractClicked, RequestSettled(resp)];
    var s1 := BeginExtract(s);
    assert events[1..] == [RequestSettled(resp)];
    assert Run(s, events) == Run(s1, events[1..]);
    assert Run(s1, [RequestSettled(resp)]) == Run(FinishExtract(s1, resp), []);
  }

  /** A file dropped while an extraction runs does not cancel it: the result
      extracted from the first file is then shown next to the second. */
  lemma ResultShownForReplacedFile(f1: FileHandle, f2: FileHandle, r: ExtractionResult)
    ensures var good := Answered(true, ResponseBody(true, Some(r), None, None));
            var s := Run(Initial, [FileSelected(f1), ExtractClicked, FileSelected(f2), RequestSettled(good)]);
            s.file == Some(f2) && s.results == Some(r)
  {
    var good := Answered(true, ResponseBody(true, Some(r), None, None));
    var events := [FileSelected(f1), ExtractClicked, FileSelected(f2), RequestSettled(good)];
    var s1 := SelectFile(Initial, f1);
    var s2 := BeginExtract(s1);
    var s3 := SelectFile(s2, f2);
    assert Step(Initial, FileSelected(f1)) == s1;
    assert Step(s1, ExtractClicked) == s2;
    assert Step(s2, FileSelected(f2)) == s3;
    assert s3.isLoading;
    assert Step(s3, RequestSettled(good)) == FinishExtract(s3, good);
    assert events[1..] == [ExtractClicked, FileSelected(f2), RequestSettled(good)];
    assert events[2..] == [FileSelected(f2), RequestSettled(good)];
    assert events[3..] == [RequestSettled(good)];
    assert Run(Initial, events) == Run(s1, events[1..]);
    assert Run(s1, events[1..]) == Run(s2, events[2..]);
    assert Run(s2, events[2..]) == Run(s3, events[3..]);
  }
}
