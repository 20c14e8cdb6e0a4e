/**
 * The proofreading driver (services/geminiService.ts): for each page in order,
 * check the abort flag, report progress, build the prompt, call the language
 * model and decode its reply into correction entries whose page number and
 * status are forced by the driver.
 *
 * The language model, `JSON.parse` and the abort signal are not modelled; what
 * they contribute to each page is an input (`PageWorld`, `Decoder`).
 */
module GeminiService {
  import opened Wrappers
  import opened Text
  import opened Types

  // ---------------------------------------------------------------------------
  // Prompt

  const RulesBegin := "--- REGRAS DE REFERÊNCIA (ORDEM DE PRIORIDADE) ---"
  const RulesEnd := "--- FIM DAS REGRAS ---"
  function Opening(): string { "\n      Atue como um revisor profissional de textos em língua portuguesa altamente criterioso.\n      Analise o texto a seguir extraído da página " }
  function PriorityRule(): string { "REGRA CRÍTICA DE PRIORIDADE:\n      Os documentos de referência acima estão listados em ordem de importância. Em caso de CONFLITOS ou divergências entre as regras ou termos contidos neles, você deve SEMPRE priorizar a regra do documento que aparece primeiro na lista acima." }
  function Instructions(): string { "Instruções específicas:\n      1. Identifique erros de ortografia, gramática, pontuação, sintaxe e concordância baseando-se estritamente nas referências (quando aplicável) e na norma culta.\n      2. Tente identificar o \"Capítulo\" ou seção principal baseado no contexto do texto.\n      3. Forneça uma explicação técnica e clara para cada correção.\n      4. No campo 'arquivoReferencia', indique o nome exato do arquivo (conforme cabeçalho nas REGRAS DE REFERÊNCIA) se a correção for baseada em uma regra específica desse documento.\n      5. Se não houver erros na página, retorne uma lista vazia []." }

  /** The opening lines, which name the page. */
  function Intro(pageNumber: int): string
  {
    Opening() + IntToString(pageNumber) + " de um documento PDF.\n      \n      "
  }

  /** The reference rules, verbatim, between their markers. */
  function RulesBlock(referenceRules: string): string
  {
    RulesBegin + "\n      " + referenceRules + "\n      " + RulesEnd
  }

  /** The page under review: its numeral and its text in double quotes. */
  function PageBlock(pageNumber: int, text: string): string
  {
    "(Página " + IntToString(pageNumber) + "):\n      \"" + text + "\""
  }

  /** The layout of a request: the opening, the rules block, the priority
      directive, the page block and the instructions, joined by fixed separators. */
  function Assemble(intro: string, rules: string, priority: string, page: string, instructions: string): string
  {
    intro + rules + "\n\n      " + priority + "\n\n      TEXTO PARA REVISÃO " + page + "\n\n      " + instructions + "\n    "
  }

  /** The rules block occurs whole in the assembled request, whatever the parts. */
  lemma AssembleKeepsRules(intro: string, rules: string, priority: string, page: string, instructions: string)
    ensures IsInfix(rules, Assemble(intro, rules, priority, page, instructions))
  {
    var rest := "\n\n      " + priority + "\n\n      TEXTO PARA REVISÃO " + page + "\n\n      " + instructions + "\n    ";
    assert Assemble(intro, rules, priority, page, instructions) == intro + rules + rest;
    InfixAtEnd(intro, rules);
    InfixExtend(rules, intro + rules, rest);
  }

  /** The priority directive occurs whole in the assembled request, whatever the parts. */
  lemma AssembleKeepsPriority(intro: string, rules: string, priority: string, page: string, instructions: string)
    ensures IsInfix(priority, Assemble(intro, rules, priority, page, instructions))
  {
    var front := intro + rules + "\n\n      ";
    var rest := "\n\n      TEXTO PARA REVISÃO " + page + "\n\n      " + instructions + "\n    ";
    assert Assemble(intro, rules, priority, page, instructions) == front + priority + rest;
    InfixAtEnd(front, priority);
    InfixExtend(priority, front + priority, rest);
  }

  /** The page block occurs whole in the assembled request, whatever the parts. */
  lemma AssembleKeepsPage(intro: string, rules: string, priority: string, page: string, instructions: string)
    ensures IsInfix(page, Assemble(intro, rules, priority, page, instructions))
  {
    var front := intro + rules + "\n\n      " + priority + "\n\n      TEXTO PARA REVISÃO ";
    var rest := "\n\n      " + instructions + "\n    ";
    assert Assemble(intro, rules, priority, page, instructions) == front + page + rest;
    InfixAtEnd(front, page);
    InfixExtend(page, front + page, rest);
  }

  /** The request text for one page: persona and page number, the reference rules
      between their markers, the priority directive, the page text and the
      instructions on the expected answer. */
  function BuildPrompt(pageNumber: int, referenceRules: string, text: string): string
  {
    Assemble(Intro(pageNumber), RulesBlock(referenceRules), PriorityRule(), PageBlock(pageNumber, text), Instructions())
  }

  /** The reference rules appear verbatim between the begin and end markers. */
  lemma PromptHasRules(pageNumber: int, referenceRules: string, text: string)
    ensures IsInfix(RulesBlock(referenceRules), BuildPrompt(pageNumber, referenceRules, text))
  {
    AssembleKeepsRules(Intro(pageNumber), RulesBlock(referenceRules), PriorityRule(), PageBlock(pageNumber, text), Instructions());
  }

  /** The page text appears in quotes right after the page's numeral. */
  lemma PromptHasPage(pageNumber: int, referenceRules: string, text: string)
    ensures IsInfix(PageBlock(pageNumber, text), BuildPrompt(pageNumber, referenceRules, text))
  {
    AssembleKeepsPage(Intro(pageNumber), RulesBlock(referenceRules), PriorityRule(), PageBlock(pageNumber, text), Instructions());
  }

  /** The directive to follow the earlier reference document on conflicts is part of every prompt. */
  lemma PromptHasPriorityDirective(pageNumber: int, referenceRules: string, text: string)
    ensures IsInfix(PriorityRule(), BuildPrompt(pageNumber, referenceRules, text))
  {
    AssembleKeepsPriority(Intro(pageNumber), RulesBlock(referenceRules), PriorityRule(), PageBlock(pageNumber, text), Instructions());
  }

  // ---------------------------------------------------------------------------
  // Oracles for one page

  /** What the language-model call did for one page: it threw, or it answered with
      `response.text` (absent when the answer carried no text). */
  datatype Reply = CallFailed | Answered(text: Option<string>)

  /** The outside world as one page sees it: the abort flag when the page is
      reached, the model's reply, and the abort flag as seen by the failure
      handler if the page fails. */
  datatype PageWorld = PageWorld(abortedBefore: bool, reply: Reply, abortedOnFailure: bool)

  /** `JSON.parse` followed by `.map`: the own properties of each element of the
      decoded array, or `None` when the text is not JSON or not an array. */
  type Decoder = string -> Option<seq<JsonObject>>

  /** The calls the driver makes, in order: `onProgress(current, total)`, and a
      model request for one page, whose contents is the prompt built from that
      page's number and text and the reference rules. */
  datatype Event = Progress(current: int, total: int) | Request(pageNumber: int, referenceRules: string, text: string)
  {
    /** The text sent to the model by a request. */
    function Contents(): string
      requires Request?
    {
      BuildPrompt(pageNumber, referenceRules, text)
    }
  }

  /** How one page ends: its entries, or an `AbortError`. */
  datatype PageOutcome = Entries(errors: seq<ProofreadingError>) | Abort

  /** How the whole driver ends: every entry, or an `AbortError` (and nothing else). */
  datatype DriverResult = Completed(errors: seq<ProofreadingError>) | AbortError

  // ---------------------------------------------------------------------------
  // One page

  /** `{...err, pagina: pageNumber, status: ""}`: every property of the model's
      object is kept except the page number and the status, which are forced. */
  function Normalize(raw: JsonObject, pageNumber: int): (e: ProofreadingError)
    ensures e.fields.Keys == raw.Keys + {Pagina, Status}
    ensures e.fields[Pagina] == Num(pageNumber as real)
    ensures e.fields[Status] == Str("")
    ensures forall k :: k in raw && k != Pagina && k != Status ==> e.fields[k] == raw[k]
  {
    ProofreadingError(raw[Pagina := Num(pageNumber as real)][Status := Str("")])
  }

  /** The page's model call threw, or its non-empty answer did not decode. */
  predicate PageFails(w: PageWorld, decode: Decoder)
  {
    match w.reply
    case CallFailed => true
    case Answered(text) => text.Some? && text.value != "" && decode(text.value).None?
  }

  /** One iteration of the page loop. A failure is swallowed (no entries) unless
      the abort flag is raised by the time it is handled. */
  function ProcessPage(page: PDFPageContent, w: PageWorld, decode: Decoder): PageOutcome
  {
    if w.abortedBefore then Abort
    else match w.reply
      case CallFailed => if w.abortedOnFailure then Abort else Entries([])
      case Answered(text) =>
        if text.None? || text.value == "" then Entries([])
        else match decode(text.value)
          case None => if w.abortedOnFailure then Abort else Entries([])
          case Some(raws) =>
            Entries(seq(|raws|, i requires 0 <= i < |raws| => Normalize(raws[i], page.pageNumber)))
  }

  /** A page aborts exactly when the flag is up on arrival or when it fails with
      the flag up; a failed page or an empty answer adds nothing; entries exist
      only when the whole answer decoded, one per decoded object in the model's
      order, each with the page's number and an empty status. */
  lemma ProcessPageMeaning(page: PDFPageContent, w: PageWorld, decode: Decoder)
    ensures var r := ProcessPage(page, w, decode);
      r.Abort? <==> w.abortedBefore || (PageFails(w, decode) && w.abortedOnFailure)
    ensures var r := ProcessPage(page, w, decode);
      r.Entries? && PageFails(w, decode) ==> r.errors == []
    ensures var r := ProcessPage(page, w, decode);
      r.Entries? && w.reply.Answered? && (w.reply.text.None? || w.reply.text.value == "") ==> r.errors == []
    ensures var r := ProcessPage(page, w, decode);
      r.Entries? ==> forall e :: e in r.errors ==>
        Pagina in e.fields && e.fields[Pagina] == Num(page.pageNumber as real) &&
        Status in e.fields && e.fields[Status] == Str("")
    ensures var r := ProcessPage(page, w, decode);
      r.Entries? && r.errors != [] ==>
        w.reply.Answered? && w.reply.text.Some? && decode(w.reply.text.value).Some? &&
        var raws := decode(w.reply.text.value).value;
        |r.errors| == |raws| && forall i :: 0 <= i < |raws| ==> r.errors[i] == Normalize(raws[i], page.pageNumber)
    ensures var r := ProcessPage(page, w, decode);
      !w.abortedBefore && w.reply.Answered? && w.reply.text.Some? && w.reply.text.value != "" &&
      decode(w.reply.text.value).Some? ==>
        var raws := decode(w.reply.text.value).value;
        r == Entries(seq(|raws|, i requires 0 <= i < |raws| => Normalize(raws[i], page.pageNumber)))
  {
  }

  /** The entries a page contributes (none when it aborts). */
  function PageEntries(page: PDFPageContent, w: PageWorld, decode: Decoder): seq<ProofreadingError>
  {
    match ProcessPage(page, w, decode)
    case Entries(es) => es
    case Abort => []
  }

  /** The calls a page makes: progress, then the model request, unless the abort
      flag stops it first. */
  function PageEvents(page: PDFPageContent, referenceRules: string, w: PageWorld, total: int): seq<Event>
  {
    if w.abortedBefore then []
    else [Progress(page.pageNumber, total), Request(page.pageNumber, referenceRules, page.text)]
  }

  // ---------------------------------------------------------------------------
  // The page loop

  /** The state of a run: its result so far and the calls made so far. */
  datatype Run = Run(result: DriverResult, trace: seq<Event>)

  /** The run after the first `k` pages have been visited: an abort ends it, and
      otherwise each page's entries are appended. */
  function Drive(pages: seq<PDFPageContent>, referenceRules: string, world: seq<PageWorld>, decode: Decoder, k: nat): Run
    requires |world| == |pages| && k <= |pages|
  {
    if k == 0 then Run(Completed([]), [])
    else
      var prev := Drive(pages, referenceRules, world, decode, k - 1);
      if prev.result.AbortError? then prev
      else
        var trace := prev.trace + PageEvents(pages[k - 1], referenceRules, world[k - 1], |pages|);
        match ProcessPage(pages[k - 1], world[k - 1], decode)
        case Abort => Run(AbortError, trace)
        case Entries(es) => Run(Completed(prev.result.errors + es), trace)
  }

  /** Once a run has aborted, visiting more pages changes nothing. */
  lemma {:induction false} AbortIsFinal(pages: seq<PDFPageContent>, referenceRules: string, world: seq<PageWorld>, decode: Decoder, k: nat, m: nat)
    requires |world| == |pages| && k <= m <= |pages|
    requires Drive(pages, referenceRules, world, decode, k).result.AbortError?
    ensures Drive(pages, referenceRules, world, decode, m) == Drive(pages, referenceRules, world, decode, k)
    decreases m
  {
    if m > k {
      AbortIsFinal(pages, referenceRules, world, decode, k, m - 1);
    }
  }

  /** Visiting one more page after a run that has not aborted. */
  lemma DriveStep(pages: seq<PDFPageContent>, referenceRules: string, world: seq<PageWorld>, decode: Decoder, i: nat,
                  errs: seq<ProofreadingError>, trace: seq<Event>)
    requires |world| == |pages| && i < |pages|
    requires Drive(pages, referenceRules, world, decode, i) == Run(Completed(errs), trace)
    ensures Drive(pages, referenceRules, world, decode, i + 1) ==
      var t := trace + PageEvents(pages[i], referenceRules, world[i], |pages|);
      match ProcessPage(pages[i], world[i], decode)
      case Abort => Run(AbortError, t)
      case Entries(es) => Run(Completed(errs + es), t)
  {
  }

  /** The `try` block of one page: the model call and the decoding of a non-empty
      answer into normalised entries. `failed` says the block threw. */
  method CallAndDecode(page: PDFPageContent, w: PageWorld, decode: Decoder)
    returns (pageErrors: seq<ProofreadingError>, failed: bool)
    requires !w.abortedBefore
    ensures failed == PageFails(w, decode)
    ensures !failed ==> ProcessPage(page, w, decode) == Entries(pageErrors)
    ensures failed ==> ProcessPage(page, w, decode) == if w.abortedOnFailure then Abort else Entries([])
  {
    pageErrors, failed := [], false;
    match w.reply {
      case CallFailed =>
        failed := true;
      case Answered(text) =>
        if text.Some? && text.value != "" {
          match decode(text.value) {
            case None =>
              failed := true;
            case Some(raws) =>
              pageErrors := seq(|raws|, k requires 0 <= k < |raws| => Normalize(raws[k], page.pageNumber));
          }
        }
    }
  }

  /** The driver: visits the pages strictly in order, checks the abort flag before
      each, reports progress, calls the model and keeps the decoded entries; a
      page failure is swallowed unless the abort flag is raised. */
  method ProofreadText(pages: seq<PDFPageContent>, referenceRules: string, world: seq<PageWorld>, decode: Decoder)
    returns (result: DriverResult, trace: seq<Event>)
    requires |world| == |pages|
    ensures Run(result, trace) == Drive(pages, referenceRules, world, decode, |pages|)
  {
    var allErrors: seq<ProofreadingError> := [];
    var totalPages := |pages|;
    trace := [];
    var i := 0;
    while i < |pages|
      invariant 0 <= i <= |pages|
      invariant Drive(pages, referenceRules, world, decode, i) == Run(Completed(allErrors), trace)
    {
      var pageContent := pages[i];
      var w := world[i];
      DriveStep(pages, referenceRules, world, decode, i, allErrors, trace);
      if w.abortedBefore {
        result := AbortError;
        AbortIsFinal(pages, referenceRules, world, decode, i + 1, |pages|);
        return;
      }
      trace := trace + [Progress(pageContent.pageNumber, totalPages)];
      var request := Request(pageContent.pageNumber, referenceRules, pageContent.text);
      trace := trace + [request];
      var pageErrors, failed := CallAndDecode(pageContent, w, decode);
      if !failed {
        allErrors := allErrors + pageErrors;
      }
      if failed && w.abortedOnFailure {
        result := AbortError;
        AbortIsFinal(pages, referenceRules, world, decode, i + 1, |pages|);
        return;
      }
      i := i + 1;
    }
    result := Completed(allErrors);
  }

  // ---------------------------------------------------------------------------
  // What a run produces

  /** The entries of each of the first `m` pages, page by page. */
  function EntriesUpTo(pages: seq<PDFPageContent>, world: seq<PageWorld>, decode: Decoder, m: nat): seq<seq<ProofreadingError>>
    requires |world| == |pages| && m <= |pages|
  {
    seq(m, i requires 0 <= i < m => PageEntries(pages[i], world[i], decode))
  }

  /** The calls of each of the first `m` pages, page by page. */
  function EventsUpTo(pages: seq<PDFPageContent>, referenceRules: string, world: seq<PageWorld>, m: nat): seq<seq<Event>>
    requires |world| == |pages| && m <= |pages|
  {
    seq(m, i requires 0 <= i < m => PageEvents(pages[i], referenceRules, world[i], |pages|))
  }

  /** The position of the first of the first `k` pages that aborts, or `k` when none does. */
  function FirstAbort(pages: seq<PDFPageContent>, world: seq<PageWorld>, decode: Decoder, k: nat): (f: nat)
    requires |world| == |pages| && k <= |pages|
    ensures f <= k
    ensures f < k ==> ProcessPage(pages[f], world[f], decode).Abort?
  {
    if k == 0 then 0
    else
      var f := FirstAbort(pages, world, decode, k - 1);
      if f < k - 1 then f
      else if ProcessPage(pages[k - 1], world[k - 1], decode).Abort? then k - 1
      else k
  }

  /** Every page before the first aborting one completes. */
  lemma {:induction false} FirstAbortMeaning(pages: seq<PDFPageContent>, world: seq<PageWorld>, decode: Decoder, k: nat)
    requires |world| == |pages| && k <= |pages|
    ensures forall i :: 0 <= i < FirstAbort(pages, world, decode, k) ==> ProcessPage(pages[i], world[i], decode).Entries?
    decreases k
  {
    if k > 0 {
      FirstAbortMeaning(pages, world, decode, k - 1);
    }
  }

  /** Visiting one more page after a run that has aborted changes nothing. */
  lemma DriveStaysAborted(pages: seq<PDFPageContent>, referenceRules: string, world: seq<PageWorld>, decode: Decoder, i: nat)
    requires |world| == |pages| && i < |pages|
    requires Drive(pages, referenceRules, world, decode, i).result.AbortError?
    ensures Drive(pages, referenceRules, world, decode, i + 1) == Drive(pages, referenceRules, world, decode, i)
  {
  }

  /** The per-page entries of one more page. */
  lemma EntriesUpToSnoc(pages: seq<PDFPageContent>, world: seq<PageWorld>, decode: Decoder, i: nat)
    requires |world| == |pages| && i < |pages|
    ensures EntriesUpTo(pages, world, decode, i + 1) == EntriesUpTo(pages, world, decode, i) + [PageEntries(pages[i], world[i], decode)]
  {
  }

  /** The per-page calls of one more page. */
  lemma EventsUpToSnoc(pages: seq<PDFPageContent>, referenceRules: string, world: seq<PageWorld>, i: nat)
    requires |world| == |pages| && i < |pages|
    ensures EventsUpTo(pages, referenceRules, world, i + 1) ==
      EventsUpTo(pages, referenceRules, world, i) + [PageEvents(pages[i], referenceRules, world[i], |pages|)]
  {
  }

  /** What a run over the first `n` pages ended in: `AbortError` exactly when
      one of those pages aborts, otherwise every page's entries in page order. */
  predicate ResultIsFirstAbort(pages: seq<PDFPageContent>, referenceRules: string, world: seq<PageWorld>, decode: Decoder, n: nat)
    requires |world| == |pages| && n <= |pages|
  {
    (Drive(pages, referenceRules, world, decode, n).result.AbortError? <==> FirstAbort(pages, world, decode, n) < n) &&
    (FirstAbort(pages, world, decode, n) == n ==>
      Drive(pages, referenceRules, world, decode, n).result == Completed(Flatten(EntriesUpTo(pages, world, decode, n))))
  }

  /** The result property carries over to one more page. */
  lemma ResultStep(pages: seq<PDFPageContent>, referenceRules: string, world: seq<PageWorld>, decode: Decoder, i: nat)
    requires |world| == |pages| && i < |pages|
    requires ResultIsFirstAbort(pages, referenceRules, world, decode, i)
    ensures ResultIsFirstAbort(pages, referenceRules, world, decode, i + 1)
  {
    var prev := Drive(pages, referenceRules, world, decode, i);
    if prev.result.AbortError? {
      DriveStaysAborted(pages, referenceRules, world, decode, i);
    } else {
      DriveStep(pages, referenceRules, world, decode, i, prev.result.errors, prev.trace);
      EntriesUpToSnoc(pages, world, decode, i);
      FlattenSnoc(EntriesUpTo(pages, world, decode, i), PageEntries(pages[i], world[i], decode));
    }
  }

  /** The result property holds for every prefix of the pages. */
  lemma {:induction false} ResultInvariant(pages: seq<PDFPageContent>, referenceRules: string, world: seq<PageWorld>, decode: Decoder, n: nat)
    requires |world| == |pages| && n <= |pages|
    ensures ResultIsFirstAbort(pages, referenceRules, world, decode, n)
    decreases n
  {
    if n == 0 {
      assert EntriesUpTo(pages, world, decode, 0) == [];
    } else {
      ResultInvariant(pages, referenceRules, world, decode, n - 1);
      ResultStep(pages, referenceRules, world, decode, n - 1);
    }
  }

  /** A run over the first `n` pages ends in `AbortError` exactly when one of
      them aborts; otherwise its result is every page's entries concatenated in
      page order, each page's own entries kept in the order the model gave them. */
  lemma DriveResult(pages: seq<PDFPageContent>, referenceRules: string, world: seq<PageWorld>, decode: Decoder, n: nat)
    requires |world| == |pages| && n <= |pages|
    ensures Drive(pages, referenceRules, world, decode, n).result.AbortError? <==> FirstAbort(pages, world, decode, n) < n
    ensures FirstAbort(pages, world, decode, n) == n ==>
      Drive(pages, referenceRules, world, decode, n).result == Completed(Flatten(EntriesUpTo(pages, world, decode, n)))
  {
    ResultInvariant(pages, referenceRules, world, decode, n);
  }

  /** The calls of a run over the first `n` pages: those of every page up to
      and including the first one that aborts. */
  predicate TraceIsFirstAbort(pages: seq<PDFPageContent>, referenceRules: string, world: seq<PageWorld>, decode: Decoder, n: nat)
    requires |world| == |pages| && n <= |pages|
  {
    var f := FirstAbort(pages, world, decode, n);
    Drive(pages, referenceRules, world, decode, n).trace == Flatten(EventsUpTo(pages, referenceRules, world, if f < n then f + 1 else n))
  }

  /** The trace property carries over to one more page. */
  lemma TraceStep(pages: seq<PDFPageContent>, referenceRules: string, world: seq<PageWorld>, decode: Decoder, i: nat)
    requires |world| == |pages| && i < |pages|
    requires ResultIsFirstAbort(pages, referenceRules, world, decode, i)
    requires TraceIsFirstAbort(pages, referenceRules, world, decode, i)
    ensures TraceIsFirstAbort(pages, referenceRules, world, decode, i + 1)
  {
    var prev := Drive(pages, referenceRules, world, decode, i);
    if prev.result.AbortError? {
      DriveStaysAborted(pages, referenceRules, world, decode, i);
    } else {
      DriveStep(pages, referenceRules, world, decode, i, prev.result.errors, prev.trace);
      EventsUpToSnoc(pages, referenceRules, world, i);
      FlattenSnoc(EventsUpTo(pages, referenceRules, world, i), PageEvents(pages[i], referenceRules, world[i], |pages|));
    }
  }

  /** The trace property holds for every prefix of the pages. */
  lemma {:induction false} TraceInvariant(pages: seq<PDFPageContent>, referenceRules: string, world: seq<PageWorld>, decode: Decoder, n: nat)
    requires |world| == |pages| && n <= |pages|
    ensures TraceIsFirstAbort(pages, referenceRules, world, decode, n)
    decreases n
  {
    if n == 0 {
      assert EventsUpTo(pages, referenceRules, world, 0) == [];
    } else {
      TraceInvariant(pages, referenceRules, world, decode, n - 1);
      ResultInvariant(pages, referenceRules, world, decode, n - 1);
      TraceStep(pages, referenceRules, world, decode, n - 1);
    }
  }

  /** The calls of a run over the first `n` pages are those of every page up to
      and including the first one that aborts: per page reached, one progress
      report and then one model request. */
  lemma DriveTrace(pages: seq<PDFPageContent>, referenceRules: string, world: seq<PageWorld>, decode: Decoder, n: nat)
    requires |world| == |pages| && n <= |pages|
    ensures var f := FirstAbort(pages, world, decode, n);
      Drive(pages, referenceRules, world, decode, n).trace == Flatten(EventsUpTo(pages, referenceRules, world, if f < n then f + 1 else n))
  {
    TraceInvariant(pages, referenceRules, world, decode, n);
  }

  /** Every entry of a completed run carries the page number of a visited page
      (never the model's own) and an empty status. */
  lemma {:induction false} EntriesCarryTheirPage(pages: seq<PDFPageContent>, referenceRules: string, world: seq<PageWorld>, decode: Decoder, n: nat)
    requires |world| == |pages| && n <= |pages|
    ensures Drive(pages, referenceRules, world, decode, n).result.Completed? ==>
      forall e :: e in Drive(pages, referenceRules, world, decode, n).result.errors ==>
        Status in e.fields && e.fields[Status] == Str("") && Pagina in e.fields &&
        exists i :: 0 <= i < n && e.fields[Pagina] == Num(pages[i].pageNumber as real)
    decreases n
  {
    if n > 0 {
      EntriesCarryTheirPage(pages, referenceRules, world, decode, n - 1);
      var prev := Drive(pages, referenceRules, world, decode, n - 1);
      if prev.result.Completed? {
        DriveStep(pages, referenceRules, world, decode, n - 1, prev.result.errors, prev.trace);
        var outcome := ProcessPage(pages[n - 1], world[n - 1], decode);
        ProcessPageMeaning(pages[n - 1], world[n - 1], decode);
        if outcome.Entries? {
          forall e | e in prev.result.errors + outcome.errors
            ensures Status in e.fields && e.fields[Status] == Str("") && Pagina in e.fields &&
                    exists i :: 0 <= i < n && e.fields[Pagina] == Num(pages[i].pageNumber as real)
          {
            if e in outcome.errors {
              assert e.fields[Pagina] == Num(pages[n - 1].pageNumber as real);
            }
          }
        }
      }
    }
  }

  /** The page number an entry carries, read back as a number. */
  function PageOf(e: ProofreadingError): real
    requires Pagina in e.fields && e.fields[Pagina].Num?
  {
    e.fields[Pagina].r
  }

  /** Every entry carries a numeric page, and the pages never decrease. */
  predicate InPageOrder(r: seq<ProofreadingError>)
  {
    (forall a :: 0 <= a < |r| ==> Pagina in r[a].fields && r[a].fields[Pagina].Num?) &&
    forall a, b :: 0 <= a < b < |r| ==> PageOf(r[a]) <= PageOf(r[b])
  }

  /** Entries of a page numbered at least every earlier entry keep the order. */
  lemma InPageOrderAppend(done: seq<ProofreadingError>, es: seq<ProofreadingError>, top: real)
    requires InPageOrder(done)
    requires forall a :: 0 <= a < |done| ==> PageOf(done[a]) <= top
    requires forall e :: e in es ==> Pagina in e.fields && e.fields[Pagina] == Num(top)
    ensures InPageOrder(done + es)
  {
  }

  /** When the pages come in ascending order of their numbers (as the extractor
      delivers them), the entries of a completed run are in ascending page order. */
  lemma {:induction false} EntriesInPageOrder(pages: seq<PDFPageContent>, referenceRules: string, world: seq<PageWorld>, decode: Decoder, n: nat)
    requires |world| == |pages| && n <= |pages|
    requires forall i, j :: 0 <= i < j < |pages| ==> pages[i].pageNumber <= pages[j].pageNumber
    ensures Drive(pages, referenceRules, world, decode, n).result.Completed? ==>
      InPageOrder(Drive(pages, referenceRules, world, decode, n).result.errors)
    decreases n
  {
    if n > 0 {
      EntriesInPageOrder(pages, referenceRules, world, decode, n - 1);
      EntriesCarryTheirPage(pages, referenceRules, world, decode, n - 1);
      var prev := Drive(pages, referenceRules, world, decode, n - 1);
      if prev.result.Completed? {
        DriveStep(pages, referenceRules, world, decode, n - 1, prev.result.errors, prev.trace);
        var outcome := ProcessPage(pages[n - 1], world[n - 1], decode);
        ProcessPageMeaning(pages[n - 1], world[n - 1], decode);
        if outcome.Entries? {
          var done := prev.result.errors;
          var top := pages[n - 1].pageNumber as real;
          forall a | 0 <= a < |done| ensures PageOf(done[a]) <= top {
            assert done[a] in done;
            var i :| 0 <= i < n - 1 && done[a].fields[Pagina] == Num(pages[i].pageNumber as real);
          }
          InPageOrderAppend(done, outcome.errors, top);
        }
      }
    }
  }

  /** A run whose abort flag is already raised at the first page makes no call
      and ends in `AbortError`. */
  lemma CancelledBeforeFirstPage(pages: seq<PDFPageContent>, referenceRules: string, world: seq<PageWorld>, decode: Decoder)
    requires |world| == |pages| && |pages| > 0 && world[0].abortedBefore
    ensures Drive(pages, referenceRules, world, decode, |pages|) == Run(AbortError, [])
  {
    DriveResult(pages, referenceRules, world, decode, |pages|);
    DriveTrace(pages, referenceRules, world, decode, |pages|);
    FirstAbortMeaning(pages, world, decode, |pages|);
    assert EventsUpTo(pages, referenceRules, world, 1) == [[]];
  }

  /** When the abort flag is first seen before page `k`, the run ends in
      `AbortError` and the last progress reported is that of page `k - 1`. */
  lemma ProgressStopsBeforeCancelledPage(pages: seq<PDFPageContent>, referenceRules: string, world: seq<PageWorld>, decode: Decoder, k: nat)
    requires |world| == |pages| && 0 < k < |pages| && world[k].abortedBefore
    requires forall i :: 0 <= i < k ==> ProcessPage(pages[i], world[i], decode).Entries?
    ensures Drive(pages, referenceRules, world, decode, |pages|).result == AbortError
    ensures var trace := Drive(pages, referenceRules, world, decode, |pages|).trace;
      |trace| >= 2 && trace[|trace| - 2] == Progress(pages[k - 1].pageNumber, |pages|) &&
      trace[|trace| - 1] == Request(pages[k - 1].pageNumber, referenceRules, pages[k - 1].text)
  {
    DriveResult(pages, referenceRules, world, decode, |pages|);
    DriveTrace(pages, referenceRules, world, decode, |pages|);
    FirstAbortMeaning(pages, world, decode, |pages|);
    var f := FirstAbort(pages, world, decode, |pages|);
    assert f == k;
    var parts := EventsUpTo(pages, referenceRules, world, k + 1);
    assert parts == EventsUpTo(pages, referenceRules, world, k - 1) + [parts[k - 1]] + [[]];
    FlattenSnoc(EventsUpTo(pages, referenceRules, world, k - 1) + [parts[k - 1]], []);
    FlattenSnoc(EventsUpTo(pages, referenceRules, world, k - 1), parts[k - 1]);
  }

  /** A request's text holds the reference rules between their markers and the
      page block of the page it is for. */
  lemma RequestContents(e: Event)
    requires e.Request?
    ensures IsInfix(RulesBlock(e.referenceRules), e.Contents())
    ensures IsInfix(PageBlock(e.pageNumber, e.text), e.Contents())
  {
    PromptHasRules(e.pageNumber, e.referenceRules, e.text);
    PromptHasPage(e.pageNumber, e.referenceRules, e.text);
  }

  /** Every request of a run over the first `n` pages is for one of those pages
      and the run's reference rules (so, by `RequestContents`, the text sent
      holds that page's block and those rules verbatim). */
  lemma {:induction false} RequestsCarryTheirPage(pages: seq<PDFPageContent>, referenceRules: string, world: seq<PageWorld>, decode: Decoder, n: nat)
    requires |world| == |pages| && n <= |pages|
    ensures forall e :: e in Drive(pages, referenceRules, world, decode, n).trace && e.Request? ==>
      e.referenceRules == referenceRules &&
      exists i :: 0 <= i < n && e.pageNumber == pages[i].pageNumber && e.text == pages[i].text
    decreases n
  {
    if n > 0 {
      RequestsCarryTheirPage(pages, referenceRules, world, decode, n - 1);
      var prev := Drive(pages, referenceRules, world, decode, n - 1);
      if prev.result.AbortError? {
        DriveStaysAborted(pages, referenceRules, world, decode, n - 1);
      } else {
        DriveStep(pages, referenceRules, world, decode, n - 1, prev.result.errors, prev.trace);
        var last := PageEvents(pages[n - 1], referenceRules, world[n - 1], |pages|);
        forall e | e in prev.trace + last && e.Request?
          ensures e.referenceRules == referenceRules
          ensures exists i :: 0 <= i < n && e.pageNumber == pages[i].pageNumber && e.text == pages[i].text
        {
          if e !in prev.trace {
            assert e == Request(pages[n - 1].pageNumber, referenceRules, pages[n - 1].text);
          }
        }
      }
    }
  }
}
