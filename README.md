# Proofreading pipeline model

A Dafny model of the proofreading pipeline in *Revisor Pro AI*. The pipeline:

- reads a PDF's pages in order;
- merges the reference PDFs into one rules text, where list position is priority;
- asks a language model, page by page, for correction entries;
- forces each entry's page number and empty status;
- lets the user cancel a run;
- shapes the finished session into a spreadsheet with a six-row metadata block.

Modules, one per source file, plus two helper modules:

- `Types` (types.ts): the records, plus the JSON values the model's answer decodes to. A correction entry is the model's object spread into a new one. So it is a map from property names to values, and properties the declared type omits (`arquivoReferencia`) survive.
- `PdfService` (services/pdfService.ts): `ExtractTextFromPDF` and `ExtractReferenceText` are loops, proved against the spec functions `Pages` and `ReferenceText`.
- `GeminiService` (services/geminiService.ts):
  - the prompt template (`BuildPrompt`);
  - the per-page step (`ProcessPage`, described by `ProcessPageMeaning`);
  - the page loop `ProofreadText`, proved against the spec function `Drive`;
  - lemmas saying what `Drive` produces.
- `Export` (App.tsx): `formatDuration`, row shaping, metadata, and the output file name.
- `AppState` (App.tsx): the `App` class with the state that `startProofreading`, `cancelProofreading` and `reset` update, plus the cancellation token.
- `Text` and `Wrappers`: `join`, splitting, decimal numerals, substring search, first-occurrence `replace`, and `Option`/`Result`.

External calls are inputs:

- A readable PDF is the `str` of each text item on each page. An unreadable one is `None`.
- The model's reply per page is `CallFailed` or `Answered(text)`.
- `JSON.parse` followed by `.map` is a `Decoder` function. It gives the own properties of each element of the decoded array, or `None` when that throws.
- The abort signal is the flag value at each of the two check points per page (`PageWorld`).
- The clock readings and `toLocaleDateString` are parameters.

Behaviour of the code that the model follows and a reader might not expect:

- The output file name drops the first `.pdf` anywhere in the name. The match is case-sensitive, so it is not necessarily the extension.
- The model's entries are not checked for required fields.
- On cancellation the entries gathered so far are discarded.
- A cancelled or failed run leaves the previous `session` value in place; it does not clear it.

## Model

| member | source | states |
|---|---|---|
| `PdfService.ExtractTextFromPDF` | services/pdfService.ts:4-17 | one page per document page, the k-th numbered k+1, its text the item strings joined by single spaces; an unreadable file fails |
| `PdfService.ExtractReferenceText` | services/pdfService.ts:19-27 | the result is the in-order concatenation of header-plus-content per file (`ReferenceText`); no files gives `""`; the first unreadable file fails the whole call |
| `PdfService.FirstUnreadable` | services/pdfService.ts:21-22 | the failing file is the first in list order that cannot be read, all earlier ones being readable |
| `PdfService.SectionsPrefix` | services/pdfService.ts:21-25 | the text built from the first k files is a prefix of the full combined text (accumulation only appends) |
| `PdfService.SectionPlacement` | services/pdfService.ts:21-25 | file i's header, naming it, and then its content sit at offset i in the combined text, and every later file's section starts after file i's ends (priority order preserved) |
| `Text.SplitJoin` | services/pdfService.ts:12 | joining item strings with one space loses nothing: splitting at spaces gives the items back when none contains a space |
| `Text.NatToStringDenotes` | services/geminiService.ts:29 | the numeral interpolated for a number is a well-formed decimal (digits only, no leading zero) that reads back as that number |
| `GeminiService.PromptHasRules` | services/geminiService.ts:31-33 | every prompt contains the reference rules verbatim between the begin and end markers |
| `GeminiService.PromptHasPage` | services/geminiService.ts:38-39 | every prompt contains the page numeral followed by the page text in double quotes |
| `GeminiService.PromptHasPriorityDirective` | services/geminiService.ts:35-36 | every prompt contains the directive to prefer the reference document listed first |
| `GeminiService.Normalize` | services/geminiService.ts:75-79 | the entry keeps every property of the model's object except `pagina` and `status`, which become the real page number and `""` |
| `GeminiService.ProcessPageMeaning` | services/geminiService.ts:21-85 | a page aborts iff the flag is up on arrival, or it fails with the flag up; a failed or empty-text page adds nothing; entries exist only when the whole answer decoded, one per decoded object in the model's order, each with the forced page and status; and a non-empty answer that decodes, on a page reached, becomes exactly the page's entries: one normalised entry per decoded object, in the model's order |
| `GeminiService.CallAndDecode` | services/geminiService.ts:49-81 | the try block fails exactly when the call throws or a non-empty answer does not decode, and otherwise yields the page's entries; a failure aborts the page exactly when the flag is up in the handler, and otherwise adds nothing |
| `GeminiService.ProofreadText` | services/geminiService.ts:7-89 | the loop's result and its calls are those of `Drive` over all pages |
| `GeminiService.AbortIsFinal` | services/geminiService.ts:22 | once the run has thrown `AbortError`, later pages change neither the result nor the calls |
| `GeminiService.FirstAbort` | services/geminiService.ts:19-23 | the position of the first page in loop order that aborts: within the pages visited, and that page does abort when one does |
| `GeminiService.FirstAbortMeaning` | services/geminiService.ts:19-23 | every page before the first aborting one completes with its entries |
| `GeminiService.DriveResult` | services/geminiService.ts:19-88 | the run throws `AbortError` iff some page aborts, with no partial result; otherwise the result is the per-page entry lists concatenated in page order |
| `GeminiService.DriveTrace` | services/geminiService.ts:21-50 | the calls made are exactly, per page reached up to the aborting one, one `onProgress(pageNumber, pages.length)` followed by one model request for that page |
| `GeminiService.EntriesCarryTheirPage` | services/geminiService.ts:75-80 | every returned entry has status `""` and the page number of a visited page, whatever the model reported |
| `GeminiService.EntriesInPageOrder` | services/geminiService.ts:19-80 | with pages in ascending number order, the returned entries are in ascending page order |
| `GeminiService.CancelledBeforeFirstPage` | services/geminiService.ts:21-23 | with the flag up at the first page, the run throws `AbortError` having reported no progress and made no request |
| `GeminiService.RequestContents` | services/geminiService.ts:27-47 | the text sent by any request holds its reference rules between their markers and its page block |
| `GeminiService.RequestsCarryTheirPage` | services/geminiService.ts:19-50 | every model request of a run is for the run's reference rules and for one of the pages visited |
| `GeminiService.ProgressStopsBeforeCancelledPage` | services/geminiService.ts:21-25 | when the flag is first seen before page k, the run throws, and its last two calls are page k-1's progress report and then page k-1's model request, so the last progress reported is page k-1's |
| `Export.JsRemainder` | App.tsx:22 | JavaScript's `%` keeps the dividend's sign and agrees with the mathematical remainder for non-negative dividends |
| `Export.FormatDurationMeaning` | App.tsx:18-24 | for a non-negative elapsed time the text is "<m>m <s>s" with 0 <= s < 60 and m*60 + s the elapsed whole seconds |
| `Export.ChapterCell` | App.tsx:80 | the chapter cell is the entry's `capitulo` when truthy, and "N/A" when it is missing or falsy |
| `Export.DataRows` | App.tsx:78-86 | exactly one row per session entry, in session order |
| `Export.DataRowColumns` | App.tsx:79-85 | each row's seven cells, in column order, are the entry's fields unchanged, the chapter cell, and an empty status |
| `Export.SheetRows` | App.tsx:89-101 | six metadata rows (the title; "Arquivo:" and the file name; "Data:" and the date; "Duração:" and the duration, empty when absent; an empty row; the seven column labels), then the data rows starting at row 7 |
| `Export.OutputFileName` | App.tsx:106 | "Revisao_" + the name with its first ".pdf" removed + ".xlsx"; the name is kept whole when it has no ".pdf" |
| `Export.ExportToExcel` | App.tsx:74-107 | no session gives no workbook; otherwise the sheet is named "Revisão", its rows are the shaped session dated by the session's start time (6 + entries rows), and the file name is the output file name |
| `AppState.ProofreadingEnds` | App.tsx:35-60 | a run fails iff a reference or the main file cannot be read; it finishes iff no page aborts, with the main file's name, the duration and the driver's entries; otherwise it is cancelled |
| `AppState.AbortController.Abort` | App.tsx:70 | aborting raises the flag |
| `AppState.App.constructor` | App.tsx:10-16 | no files, no session, not processing, progress (0, 0), no controller |
| `AppState.App.SetMainFile` | App.tsx:150 | replaces the main file and nothing else |
| `AppState.App.SetRefFiles` | App.tsx:151 | replaces the reference list and nothing else |
| `AppState.App.StartProofreading` | App.tsx:26-66 | without a main file nothing changes; otherwise processing ends false, progress (0, 0) and the controller cleared, the session replaced only by a finished run, and the alert shown exactly on a non-cancellation failure |
| `AppState.App.CancelProofreading` | App.tsx:68-72 | raises the abort flag of the current controller when there is one |
| `AppState.App.Reset` | App.tsx:109-114 | clears the main file, the references and the session and the processing flag; progress and controller untouched |
| `AppState.App.ExportWorkbook` | App.tsx:74-75 | nothing is exported without a session; with one, the sheet is the shaped session |

## Left out

- pdf.js (`getDocument`, `getPage`, `getTextContent`) is not modelled. A readable document is given as its pages' item strings, and a file pdf.js rejects as `None`. A failure partway through a document is not distinguished from an unreadable file.
- The language-model SDK call, its model name and its response schema are not modelled. The reply is an input per page, and the schema's required fields are not enforced, because the code does not check them either.
- `JSON.parse` and the object spread of array elements that are not objects are covered by the `Decoder` input. It yields each element's own properties.
- JSON numbers are exact reals. No property is claimed for non-integral page numbers.
- The prompt is recorded as a request event carrying the page number, rules and page text. `Event.Contents` rebuilds the exact prompt text from them with `BuildPrompt`; `RequestContents` states what that text holds.
- `AppState.App.CancelProofreading`: the controller is null in every state the model reaches, because a run is one step of `StartProofreading` and clears it on return, so in the model cancelling never raises a flag and no contract reads `AbortController.aborted`.
- Cancellation is not concurrent here. The abort flag values the driver reads are inputs (`PageWorld`), and they are not tied to `CancelProofreading`. A run is one step of `StartProofreading`.
- The progress counter shown while a run is in flight (`setProgress` from the callback) is not part of the `App` state in the model. The callback calls are in the driver's trace, and the counter is reset to (0, 0) at the end.
- `Date`, `getTime` and `toLocaleDateString('pt-BR')` are parameters. The spreadsheet library (`json_to_sheet`, `sheet_add_aoa`, `writeFile`) is replaced by the grid and file name it receives.
- `process.env.API_KEY`, `console.log` and `console.error` are not modelled. `alert` appears only as the `alerted` result.
- The JSX is not modelled: the file picker, the results table, the error-type colours, the floating-point progress percentage, and the disabling of the start button while processing.
- `Export.JsRemainder`: for a negative dividend only the sign and bound of the remainder are stated, not its congruence.
- `Export.FormatDurationMeaning`: the minutes-and-seconds reading is stated only when the end is not before the start. For a clock that went backwards the model computes the same text as the code, for example "-1m -2s", but states nothing about it.
