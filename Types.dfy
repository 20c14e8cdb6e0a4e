/**
 * The records of the application (types.ts) and the JSON values that the
 * language model's reply decodes to.
 */
module Types {
  import opened Wrappers

  /** A JSON value as `JSON.parse` yields it. Numbers are exact reals; arrays and
      objects nested inside a correction entry are never inspected, so they are
      one opaque `Composite` case. */
  datatype Value = Str(s: string) | Num(r: real) | Bool(b: bool) | Null | Composite

  /** JavaScript truthiness, as `x || fallback` uses it. */
  predicate Truthy(v: Value)
  {
    match v
    case Str(s) => s != ""
    case Num(r) => r != 0.0
    case Bool(b) => b
    case Null => false
    case Composite => true
  }

  /** A decoded JSON object: its own properties by name. */
  type JsonObject = map<string, Value>

  // Property names of a correction entry (types.ts:2-10, plus the extra field the model may return).
  const TipoErro := "tipoErro"
  const Capitulo := "capitulo"
  const Pagina := "pagina"
  const De := "de"
  const Para := "para"
  const Explicacao := "explicacao"
  const Status := "status"
  const ArquivoReferencia := "arquivoReferencia"

  /** One correction entry. At run time it is the model's object spread into a
      fresh one, so it carries every property the model returned, declared or not. */
  datatype ProofreadingError = ProofreadingError(fields: JsonObject)
  {
    /** Reading a property: `None` stands for `undefined`. */
    function Field(name: string): Option<Value>
    {
      if name in fields then Some(fields[name]) else None
    }
  }

  /** One proofreading run's record. Times are milliseconds since the epoch. */
  datatype ProofreadingSession = ProofreadingSession(
    fileName: string,
    startTime: int,
    endTime: Option<int>,
    duration: Option<string>,
    errors: seq<ProofreadingError>)

  /** The text of one page of a document, numbered from 1. */
  datatype PDFPageContent = PDFPageContent(pageNumber: int, text: string)
}
