/**
 * The application's session state (App.tsx): starting a run, cancelling it,
 * resetting, and exporting the finished session.
 *
 * A run is awaited as one step here. The points where the user can cancel while
 * it is in flight are the abort-flag values the driver reads (`PageWorld`);
 * the clock readings and the date rendering are inputs.
 */
module AppState {
  import opened Wrappers
  import opened Text
  import opened Types
  import opened PdfService
  import opened GeminiService
  import opened Export

  /** The page counter shown while a run is in progress. */
  datatype PageCounter = PageCounter(current: int, total: int)

  /** A cooperative cancellation token: `abort()` raises the flag for good. */
  class AbortController {
    var aborted: bool

    constructor ()
      ensures !aborted
    {
      aborted := false;
    }

    method Abort()
      modifies this
      ensures aborted
    {
      aborted := true;
    }
  }

  /** How a run ends: a new session, a cancellation (logged only), or any other
      failure (the user is told to try again). */
  datatype RunEnd = Finished(session: ProofreadingSession) | Cancelled | Failed

  /** The run `startProofreading` performs for a main file: aggregate the
      references, extract the main document, proofread its pages, and time it. */
  function Proofreading(mainFile: File, refFiles: seq<File>, world: seq<PageWorld>, decode: Decoder,
                        startTime: int, endTime: int): RunEnd
    requires mainFile.pdf.Some? ==> |world| == |mainFile.pdf.value|
  {
    match ReferenceText(refFiles)
    case Failure(_) => Failed
    case Success(referenceText) =>
      if mainFile.pdf.None? then Failed
      else
        var pages := Pages(mainFile.pdf.value);
        match Drive(pages, referenceText, world, decode, |pages|).result
        case AbortError => Cancelled
        case Completed(errors) =>
          Finished(ProofreadingSession(mainFile.name, startTime, Some(endTime), Some(FormatDuration(startTime, endTime)), errors))
  }

  /** A run ends with a session exactly when every reference and the main file can
      be read and no page aborts; the session names the main file, holds the
      driver's entries and the duration between the two clock readings. */
  lemma ProofreadingEnds(mainFile: File, refFiles: seq<File>, world: seq<PageWorld>, decode: Decoder,
                         startTime: int, endTime: int)
    requires mainFile.pdf.Some? ==> |world| == |mainFile.pdf.value|
    ensures var end := Proofreading(mainFile, refFiles, world, decode, startTime, endTime);
      (end.Failed? <==> !AllReadable(refFiles) || mainFile.pdf.None?) &&
      (end.Finished? ==>
        var pages := Pages(mainFile.pdf.value);
        FirstAbort(pages, world, decode, |pages|) == |pages| &&
        end.session.fileName == mainFile.name &&
        end.session.duration == Some(FormatDuration(startTime, endTime)) &&
        end.session.errors == Flatten(EntriesUpTo(pages, world, decode, |pages|))) &&
      (end.Cancelled? ==> var pages := Pages(mainFile.pdf.value);
        FirstAbort(pages, world, decode, |pages|) < |pages|)
  {
    if AllReadable(refFiles) && mainFile.pdf.Some? {
      var pages := Pages(mainFile.pdf.value);
      DriveResult(pages, Sections(refFiles), world, decode, |pages|);
    }
  }

  class App {
    var mainFile: Option<File>
    var refFiles: seq<File>
    var session: Option<ProofreadingSession>
    var isProcessing: bool
    var progress: PageCounter
    var abortController: AbortController?

    /** The state when the page loads. */
    constructor ()
      ensures mainFile == None && refFiles == [] && session == None
      ensures !isProcessing && progress == PageCounter(0, 0) && abortController == null
    {
      mainFile := None;
      refFiles := [];
      session := None;
      isProcessing := false;
      progress := PageCounter(0, 0);
      abortController := null;
    }

    /** `setMainFile`, as the file picker calls it. */
    method SetMainFile(file: Option<File>)
      modifies this
      ensures mainFile == file
      ensures refFiles == old(refFiles) && session == old(session) && isProcessing == old(isProcessing)
      ensures progress == old(progress) && abortController == old(abortController)
    {
      mainFile := file;
    }

    /** `setRefFiles`, as the file picker calls it; the order is the priority order. */
    method SetRefFiles(files: seq<File>)
      modifies this
      ensures refFiles == files
      ensures mainFile == old(mainFile) && session == old(session) && isProcessing == old(isProcessing)
      ensures progress == old(progress) && abortController == old(abortController)
    {
      refFiles := files;
    }

    /** `startProofreading`: without a main file nothing happens. Otherwise the run
        is carried out; only a run that finishes replaces the session, and
        whatever the outcome the processing flag, the progress counter and the
        controller are cleared. `alerted` says the "try again" alert was shown. */
    method StartProofreading(world: seq<PageWorld>, decode: Decoder, startTime: int, endTime: int)
      returns (alerted: bool)
      requires mainFile.Some? && mainFile.value.pdf.Some? ==> |world| == |mainFile.value.pdf.value|
      modifies this
      ensures old(mainFile).None? ==>
        !alerted && mainFile == old(mainFile) && refFiles == old(refFiles) && session == old(session) &&
        isProcessing == old(isProcessing) && progress == old(progress) && abortController == old(abortController)
      ensures old(mainFile).Some? ==>
        var end := Proofreading(old(mainFile).value, old(refFiles), world, decode, startTime, endTime);
        mainFile == old(mainFile) && refFiles == old(refFiles) &&
        !isProcessing && progress == PageCounter(0, 0) && abortController == null &&
        session == (if end.Finished? then Some(end.session) else old(session)) &&
        alerted == end.Failed?
    {
      alerted := false;
      if mainFile.None? {
        return;
      }
      var file := mainFile.value;
      isProcessing := true;
      abortController := new AbortController();
      var referenceText := ExtractReferenceText(refFiles);
      if referenceText.Failure? {
        alerted := true;
      } else {
        var documentPages := ExtractTextFromPDF(file);
        if documentPages.Failure? {
          alerted := true;
        } else {
          var result, trace := ProofreadText(documentPages.value, referenceText.value, world, decode);
          match result {
            case AbortError =>
            case Completed(errors) =>
              session := Some(ProofreadingSession(file.name, startTime, Some(endTime), Some(FormatDuration(startTime, endTime)), errors));
          }
        }
      }
      isProcessing := false;
      progress := PageCounter(0, 0);
      abortController := null;
    }

    /** `cancelProofreading`: raises the abort flag of the run in flight, if any. */
    method CancelProofreading()
      modifies this.abortController
      ensures abortController != null ==> abortController.aborted
    {
      if abortController != null {
        abortController.Abort();
      }
    }

    /** `reset`: forgets the files and the session and clears the processing flag;
        the progress counter and the controller are left as they are. */
    method Reset()
      modifies this
      ensures mainFile == None && refFiles == [] && session == None && !isProcessing
      ensures progress == old(progress) && abortController == old(abortController)
    {
      mainFile := None;
      refFiles := [];
      session := None;
      isProcessing := false;
    }

    /** `exportToExcel`: nothing without a session, else the shaped workbook. */
    function ExportWorkbook(formatDate: int -> string): (w: Option<Workbook>)
      reads this
      ensures w.None? <==> session.None?
      ensures w.Some? ==> w.value.rows == SheetRows(session.value, formatDate(session.value.startTime))
    {
      ExportToExcel(session, formatDate)
    }
  }
}
