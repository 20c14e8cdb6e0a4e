/**
 * Shaping a finished session for the spreadsheet (App.tsx): the duration text,
 * one data row per entry under a six-row metadata block, and the file name.
 * The spreadsheet library itself is not modelled; its input is the grid of
 * cells below, with `None` for a cell left undefined.
 */
module Export {
  import opened Wrappers
  import opened Text
  import opened Types

  // ---------------------------------------------------------------------------
  // Duration

  /** JavaScript's `%`: the remainder takes the sign of the dividend. */
  function JsRemainder(a: int, b: int): (r: int)
    requires b > 0
    ensures a >= 0 ==> 0 <= r < b && r == a % b
    ensures a < 0 ==> -b < r <= 0
  {
    if a >= 0 then a % b else -((-a) % b)
  }

  /** `formatDuration(start, end)` on times in milliseconds: whole minutes and the
      remaining whole seconds, as "<m>m <s>s". `Math.floor(x / k)` for a positive
      `k` is Dafny's `/`. */
  function FormatDuration(start: int, end: int): string
  {
    var diff := end - start;
    var seconds := diff / 1000;
    var minutes := seconds / 60;
    var remainingSeconds := JsRemainder(seconds, 60);
    IntToString(minutes) + "m " + IntToString(remainingSeconds) + "s"
  }

  /** For an end no earlier than the start, the text names `m` minutes and `s`
      seconds with `0 <= s < 60` and `m * 60 + s` the elapsed whole seconds. */
  lemma FormatDurationMeaning(start: int, end: int)
    requires start <= end
    ensures exists m: nat, s: nat :: s < 60 && m * 60 + s == (end - start) / 1000 &&
              FormatDuration(start, end) == NatToString(m) + "m " + NatToString(s) + "s"
  {
    var seconds := (end - start) / 1000;
    var m: nat, s: nat := seconds / 60, seconds % 60;
    assert JsRemainder(seconds, 60) == s;
    assert m * 60 + s == seconds;
    assert IntToString(m) == NatToString(m) && IntToString(s) == NatToString(s);
    assert FormatDuration(start, end) == NatToString(m) + "m " + NatToString(s) + "s";
  }

  // ---------------------------------------------------------------------------
  // Rows

  /** A spreadsheet cell: `None` when the value written is `undefined`. */
  type Cell = Option<Value>

  type Row = seq<Cell>

  const Title := "RELATÓRIO DE REVISÃO"
  const ColumnLabels: seq<string> := ["TIPO DE ERRO", "CAPÍTULO", "PÁGINA", "DE", "PARA", "EXPLICAÇÃO", "STATUS"]
  const NotApplicable := "N/A"

  /** Number of rows of the metadata block; data rows start right after it (row A7). */
  const MetadataRows := 6

  function TextCell(s: string): Cell
  {
    Some(Str(s))
  }

  /** `err.capitulo || 'N/A'`. */
  function ChapterCell(e: ProofreadingError): (c: Cell)
    ensures e.Field(Capitulo).Some? && Truthy(e.Field(Capitulo).value) ==> c == e.Field(Capitulo)
    ensures e.Field(Capitulo).None? || !Truthy(e.Field(Capitulo).value) ==> c == TextCell(NotApplicable)
  {
    var c := e.Field(Capitulo);
    if c.Some? && Truthy(c.value) then c else TextCell(NotApplicable)
  }

  /** One entry as a row, in the fixed column order: type, chapter, page, original,
      suggestion, explanation, and an always-empty status. */
  function DataRow(e: ProofreadingError): Row
  {
    [e.Field(TipoErro), ChapterCell(e), e.Field(Pagina), e.Field(De), e.Field(Para), e.Field(Explicacao), TextCell("")]
  }

  /** `session.errors.map(...)`: one row per entry, in session order. */
  function DataRows(errors: seq<ProofreadingError>): (rows: seq<Row>)
    ensures |rows| == |errors|
    ensures forall k :: 0 <= k < |errors| ==> rows[k] == DataRow(errors[k])
  {
    if |errors| == 0 then [] else [DataRow(errors[0])] + DataRows(errors[1..])
  }

  /** The block above the data: title, file name, date, duration, an empty row
      and the column labels. */
  function Metadata(session: ProofreadingSession, date: string): seq<Row>
  {
    [ [TextCell(Title)],
      [TextCell("Arquivo:"), TextCell(session.fileName)],
      [TextCell("Data:"), TextCell(date)],
      [TextCell("Duração:"), if session.duration.Some? then TextCell(session.duration.value) else None],
      [],
      seq(|ColumnLabels|, i requires 0 <= i < |ColumnLabels| => TextCell(ColumnLabels[i])) ]
  }

  /** The whole sheet: the metadata block followed by the data rows. */
  function SheetRows(session: ProofreadingSession, date: string): (rows: seq<Row>)
    ensures |rows| == MetadataRows + |session.errors|
    ensures rows[0] == [TextCell(Title)]
    ensures rows[1] == [TextCell("Arquivo:"), TextCell(session.fileName)]
    ensures rows[2] == [TextCell("Data:"), TextCell(date)]
    ensures rows[3] == [TextCell("Duração:"), if session.duration.Some? then TextCell(session.duration.value) else None]
    ensures rows[MetadataRows - 1] == seq(7, i requires 0 <= i < 7 => TextCell(ColumnLabels[i]))
    ensures rows[MetadataRows - 2] == []
    ensures forall k :: 0 <= k < |session.errors| ==> rows[MetadataRows + k] == DataRow(session.errors[k])
  {
    Metadata(session, date) + DataRows(session.errors)
  }

  /** Each data row has the seven columns under their labels: the entry's fields
      unchanged, its chapter or "N/A", and an empty status. */
  lemma DataRowColumns(e: ProofreadingError)
    ensures |DataRow(e)| == |ColumnLabels| == 7
    ensures DataRow(e)[0] == e.Field(TipoErro) && DataRow(e)[2] == e.Field(Pagina)
    ensures DataRow(e)[3] == e.Field(De) && DataRow(e)[4] == e.Field(Para) && DataRow(e)[5] == e.Field(Explicacao)
    ensures DataRow(e)[6] == Some(Str(""))
    ensures DataRow(e)[1] == TextCell(NotApplicable) <==>
              e.Field(Capitulo).None? || !Truthy(e.Field(Capitulo).value) || e.Field(Capitulo) == TextCell(NotApplicable)
  {
  }

  // ---------------------------------------------------------------------------
  // File

  /** `Revisao_${fileName.replace('.pdf', '')}.xlsx`. */
  function OutputFileName(fileName: string): (name: string)
    ensures !IsInfix(".pdf", fileName) ==> name == "Revisao_" + fileName + ".xlsx"
    ensures forall i: nat :: FirstOccurrence(fileName, ".pdf", i) ==>
              name == "Revisao_" + fileName[..i] + fileName[i + 4..] + ".xlsx"
  {
    "Revisao_" + ReplaceFirst(fileName, ".pdf", "") + ".xlsx"
  }

  /** What `exportToExcel` hands to the spreadsheet writer. */
  datatype Workbook = Workbook(sheetName: string, rows: seq<Row>, fileName: string)

  /** `exportToExcel`: nothing without a session; otherwise the sheet "Revisão"
      and its file name. `formatDate` stands for `toLocaleDateString('pt-BR')`. */
  function ExportToExcel(session: Option<ProofreadingSession>, formatDate: int -> string): (w: Option<Workbook>)
    ensures w.None? <==> session.None?
    ensures w.Some? ==> w.value.fileName == OutputFileName(session.value.fileName)
    ensures w.Some? ==> |w.value.rows| == MetadataRows + |session.value.errors|
    ensures w.Some? ==> w.value.sheetName == "Revisão"
    ensures w.Some? ==> w.value.rows == SheetRows(session.value, formatDate(session.value.startTime))
  {
    match session
    case None => None
    case Some(s) => Some(Workbook("Revisão", SheetRows(s, formatDate(s.startTime)), OutputFileName(s.fileName)))
  }
}
