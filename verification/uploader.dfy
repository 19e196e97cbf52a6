/** The upload area: the drag highlight, the two ways a file reaches the
    controller (dropping it, or choosing it in the file picker), and the
    controls hidden while an extraction runs. The browser's event objects
    are reduced to what the handlers read: the list of files carried. */
module Uploader {
  import opened Optional
  import opened Controller

  /** The only media type a dropped file may have. */
  const PdfMimeType: string := "application/pdf"

  /** The drag events on the drop zone. */
  datatype DragEvent = DragEnter | DragLeave | DragOver

  /** The highlight after one drag event: enter sets it, leave clears it,
      over leaves it as it was. */
  function DragStep(active: bool, e: DragEvent): (active': bool)
    ensures e.DragEnter? ==> active'
    ensures e.DragLeave? ==> !active'
    ensures e.DragOver? ==> active' == active
  {
    match e
    case DragEnter => true
    case DragLeave => false
    case DragOver => active
  }

  /** The highlight after a sequence of drag events. */
  function DragAfter(active: bool, events: seq<DragEvent>): bool
    decreases |events|
  {
    if |events| == 0 then active else DragAfter(DragStep(active, events[0]), events[1..])
  }

  /** The last enter or leave decides the highlight; with neither, it is
      unchanged. (Enter and leave are not counted, so leaving a child element
      switches the highlight off while the cursor is still over the zone.) */
  lemma {:induction false} LastEnterOrLeaveDecides(active: bool, events: seq<DragEvent>, k: nat)
    requires k <= |events|
    requires forall i :: k <= i < |events| ==> events[i].DragOver?
    ensures k == 0 ==> DragAfter(active, events) == active
    ensures k > 0 && events[k - 1].DragEnter? ==> DragAfter(active, events)
    ensures k > 0 && events[k - 1].DragLeave? ==> !DragAfter(active, events)
    decreases |events|
  {
    if |events| > 0 {
      var a := DragStep(active, events[0]);
      if k == 0 {
        LastEnterOrLeaveDecides(a, events[1..], 0);
      } else {
        LastEnterOrLeaveDecides(a, events[1..], k - 1);
        if k == 1 {
          OverOnlyKeeps(a, events[1..]);
        }
      }
    }
  }

  /** Drag-over events alone never change the highlight. */
  lemma {:induction false} OverOnlyKeeps(active: bool, events: seq<DragEvent>)
    requires forall i :: 0 <= i < |events| ==> events[i].DragOver?
    ensures DragAfter(active, events) == active
    decreases |events|
  {
    if |events| > 0 {
      OverOnlyKeeps(active, events[1..]);
    }
  }

  /** The drop handler: the highlight always goes off, and the FIRST dropped
      file is passed on only when its media type is exactly `application/pdf`
      (case and parameters matter). Further files are ignored. */
  function OnDrop(files: seq<FileHandle>): (r: (bool, Option<FileHandle>))
    ensures !r.0
    ensures r.1.Some? <==> |files| > 0 && files[0].mimeType == PdfMimeType
    ensures r.1.Some? ==> r.1.value == files[0]
  {
    if |files| > 0 && files[0].mimeType == PdfMimeType then (false, Some(files[0]))
    else (false, None)
  }

  /** The picker's change handler: the first chosen file is passed on
      whatever its type, since the picker's `accept` filter is only a hint to
      the browser's dialog. */
  function OnFileChange(files: seq<FileHandle>): (r: Option<FileHandle>)
    ensures r.Some? <==> |files| > 0
    ensures r.Some? ==> r.value == files[0]
  {
    if |files| > 0 then Some(files[0]) else None
  }

  /** Clicking the drop zone opens the file picker unless an extraction is
      running: with a file held, the picker and the remove button are offered
      together. */
  predicate OpensPicker(s: AppState)
    ensures s.file.Some? ==> (OpensPicker(s) <==> RemoveButtonShown(s))
    ensures s.isLoading ==> !OpensPicker(s)
  {
    !s.isLoading
  }

  /** The selected-file row is shown when a file is held; its remove button
      only when nothing is running. */
  predicate FileRowShown(s: AppState) {
    s.file.Some?
  }

  predicate RemoveButtonShown(s: AppState)
    ensures RemoveButtonShown(s) ==> FileRowShown(s)
    ensures RemoveButtonShown(s) <==> CanExtract(s)
    ensures FileRowShown(s) && !RemoveButtonShown(s) ==> s.isLoading
  {
    s.file.Some? && !s.isLoading
  }

  /** The remove button is offered exactly when extraction is enabled; a
      file row without its remove button means an extraction is running. */
  lemma RemoveOfferedWithExtract(s: AppState)
    ensures RemoveButtonShown(s) <==> CanExtract(s)
    ensures FileRowShown(s) && !RemoveButtonShown(s) ==> s.isLoading
  {
  }

  /** A file forwarded by the upload area reaches the controller's
      `handleFileSelect`; nothing forwarded leaves the state as it was. */
  function Deliver(s: AppState, forwarded: Option<FileHandle>): (s': AppState)
    ensures forwarded.None? ==> s' == s
    ensures forwarded.Some? ==> s' == SelectFile(s, forwarded.value)
  {
    match forwarded
    case None => s
    case Some(f) => SelectFile(s, f)
  }

  /** Clicking the drop zone and then choosing in the picker: while an
      extraction runs the picker does not open, so nothing is chosen. */
  function ClickThenChoose(s: AppState, files: seq<FileHandle>): (s': AppState)
    ensures s'.isLoading == s.isLoading
    ensures s'.file != s.file ==> !s.isLoading && |files| > 0
    ensures !s.isLoading && |files| > 0 ==>
              s'.file == Some(files[0]) && s'.results.None? && s'.error.None?
    ensures s.isLoading ==> s' == s
  {
    if OpensPicker(s) then Choose(s, files) else s
  }

  /** Dropping: the application state after a drop. */
  function Drop(s: AppState, files: seq<FileHandle>): (s': AppState)
    ensures |files| > 0 && files[0].mimeType == PdfMimeType ==>
              s'.file == Some(files[0]) && s'.results.None? && s'.error.None?
    ensures !(|files| > 0 && files[0].mimeType == PdfMimeType) ==> s' == s
    ensures s'.isLoading == s.isLoading
  {
    Deliver(s, OnDrop(files).1)
  }

  /** Choosing in the picker: the application state after the change. */
  function Choose(s: AppState, files: seq<FileHandle>): (s': AppState)
    ensures |files| > 0 ==> s'.file == Some(files[0]) && s'.results.None? && s'.error.None?
    ensures |files| == 0 ==> s' == s
    ensures s'.isLoading == s.isLoading
  {
    Deliver(s, OnFileChange(files))
  }

  /** The two routes differ on media type only: for a non-empty list they
      agree exactly when the first file is typed as a PDF. */
  lemma DropVersusChoose(s: AppState, files: seq<FileHandle>)
    requires |files| > 0
    ensures Drop(s, files) == Choose(s, files) <==>
              files[0].mimeType == PdfMimeType || Choose(s, files) == s
  {
  }

  /** Dropping a file of another type, even `application/PDF`, leaves the
      whole application state untouched, including a previous error and
      result; the picker takes the same file. */
  lemma NonPdfDropIgnored(s: AppState, name: string, size: nat)
    ensures var upper := FileHandle(name, size, "application/PDF");
            Drop(s, [upper]) == s && Choose(s, [upper]).file == Some(upper)
    ensures var text := FileHandle(name, size, "text/plain");
            Drop(s, [text]) == s && Choose(s, [text]).file == Some(text)
  {
    assert "application/PDF" != PdfMimeType by {
      assert "application/PDF"[12] != PdfMimeType[12];
    }
    assert "text/plain" != PdfMimeType by {
      assert |"text/plain"| != |PdfMimeType|;
    }
  }

  /** Only the first dropped file counts: a PDF in second place is not
      taken. */
  lemma OnlyFirstDroppedFileCounts(s: AppState, first: FileHandle, second: FileHandle)
    requires first.mimeType != PdfMimeType
    ensures Drop(s, [first, second]) == s
  {
  }

  /** A drop while an extraction runs is accepted: the held file changes
      although the remove button is hidden and the picker route, offered the
      same file, changes nothing. */
  lemma DropWhileLoadingReplacesFile(s: AppState, f: FileHandle)
    requires s.isLoading && s.file.Some?
    requires f.mimeType == PdfMimeType
    ensures !RemoveButtonShown(s) && !OpensPicker(s)
    ensures Drop(s, [f]).file == Some(f) && Drop(s, [f]).isLoading
    ensures ClickThenChoose(s, [f]) == s
  {
  }
}
