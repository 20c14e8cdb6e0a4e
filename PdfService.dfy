/**
 * Page extraction and reference aggregation (services/pdfService.ts).
 * pdf.js itself is not modelled: a readable document is given as the `str`
 * of every text item of every page, and an unreadable one as `None`.
 */
module PdfService {
  import opened Wrappers
  import opened Text
  import opened Types

  /** What pdf.js reports for a document: per page, the strings of its text items. */
  type PdfDocument = seq<seq<string>>

  /** A file chosen by the user: its name and, when pdf.js can open it, its document. */
  datatype File = File(name: string, pdf: Option<PdfDocument>)

  /** pdf.js rejected the file (corrupt or not a PDF). */
  datatype PdfError = UnreadablePdf(fileName: string)

  /** A page's text: its item strings joined by single spaces. */
  function PageText(items: seq<string>): string
  {
    Join(items, " ")
  }

  /** The pages of a readable document, numbered from 1. */
  function Pages(doc: PdfDocument): seq<PDFPageContent>
  {
    seq(|doc|, k requires 0 <= k < |doc| => PDFPageContent(k + 1, PageText(doc[k])))
  }

  /** Reads every page of a file in order and numbers it 1..numPages. */
  method ExtractTextFromPDF(file: File) returns (r: Result<seq<PDFPageContent>, PdfError>)
    ensures file.pdf.None? ==> r == Failure(UnreadablePdf(file.name))
    ensures file.pdf.Some? ==> r.Success? && |r.value| == |file.pdf.value|
    ensures file.pdf.Some? ==> forall k :: 0 <= k < |r.value| ==>
              r.value[k].pageNumber == k + 1 && r.value[k].text == PageText(file.pdf.value[k])
    ensures file.pdf.Some? ==> r.value == Pages(file.pdf.value)
  {
    if file.pdf.None? {
      return Failure(UnreadablePdf(file.name));
    }
    var pdf := file.pdf.value;
    var pages: seq<PDFPageContent> := [];
    var i := 1;
    while i <= |pdf|
      invariant 1 <= i <= |pdf| + 1
      invariant |pages| == i - 1
      invariant forall k :: 0 <= k < |pages| ==> pages[k].pageNumber == k + 1 && pages[k].text == PageText(pdf[k])
    {
      var text := PageText(pdf[i - 1]);
      pages := pages + [PDFPageContent(i, text)];
      i := i + 1;
    }
    assert pages == Pages(pdf);
    return Success(pages);
  }

  // ---------------------------------------------------------------------------
  // Reference aggregation

  /** The delimiter naming a reference document, placed before its content. */
  function Header(name: string): string
  {
    "\n--- Documento de Referência: " + name + " ---\n"
  }

  /** `pages.map(p => p.text)` for the pages of a readable document. */
  function PageTexts(doc: PdfDocument): seq<string>
  {
    seq(|doc|, k requires 0 <= k < |doc| => PageText(doc[k]))
  }

  /** One reference document's part of the combined text. */
  function Section(file: File): string
    requires file.pdf.Some?
  {
    Header(file.name) + Join(PageTexts(file.pdf.value), " ")
  }

  predicate AllReadable(files: seq<File>)
  {
    forall i :: 0 <= i < |files| ==> files[i].pdf.Some?
  }

  /** Each file's section, in list order. */
  function SectionList(files: seq<File>): seq<string>
    requires AllReadable(files)
  {
    seq(|files|, i requires 0 <= i < |files| => Section(files[i]))
  }

  /** The sections of all files, in list order (list position is priority). */
  function Sections(files: seq<File>): string
    requires AllReadable(files)
  {
    Flatten(SectionList(files))
  }

  /** The position of the first file pdf.js cannot open. */
  function FirstUnreadable(files: seq<File>): (i: nat)
    requires !AllReadable(files)
    ensures i < |files| && files[i].pdf.None?
    ensures forall j :: 0 <= j < i ==> files[j].pdf.Some?
  {
    if files[0].pdf.None? then 0 else 1 + FirstUnreadable(files[1..])
  }

  /** The combined reference text, or the failure of the first unreadable file. */
  function ReferenceText(files: seq<File>): Result<string, PdfError>
  {
    if AllReadable(files) then Success(Sections(files))
    else Failure(UnreadablePdf(files[FirstUnreadable(files)].name))
  }

  /** Appends, for each file in order, its header and its page texts joined by spaces. */
  method ExtractReferenceText(files: seq<File>) returns (r: Result<string, PdfError>)
    ensures r == ReferenceText(files)
    ensures files == [] ==> r == Success("")
  {
    var combinedText := "";
    var i := 0;
    while i < |files|
      invariant 0 <= i <= |files|
      invariant AllReadable(files[..i])
      invariant combinedText == Sections(files[..i])
    {
      var file := files[i];
      var pages := ExtractTextFromPDF(file);
      if pages.Failure? {
        assert !AllReadable(files);
        return Failure(pages.error);
      }
      combinedText := combinedText + Header(file.name);
      var texts := seq(|pages.value|, k requires 0 <= k < |pages.value| => pages.value[k].text);
      assert texts == PageTexts(file.pdf.value);
      combinedText := combinedText + Join(texts, " ");
      assert AllReadable(files[..i + 1]) by {
        assert files[..i + 1] == files[..i] + [file];
      }
      SectionsSnoc(files, i);
      i := i + 1;
    }
    assert files[..i] == files;
    return Success(combinedText);
  }

  /** Where the section of the file at position `i` starts in the combined text. */
  function Offset(files: seq<File>, i: nat): nat
    requires i <= |files| && AllReadable(files)
  {
    |Flatten(SectionList(files)[..i])|
  }

  /** The combined text of one more file. */
  lemma SectionsSnoc(files: seq<File>, i: nat)
    requires i < |files| && AllReadable(files[..i + 1])
    ensures AllReadable(files[..i]) && files[i].pdf.Some?
    ensures Sections(files[..i + 1]) == Sections(files[..i]) + Section(files[i])
  {
    assert files[..i + 1][i] == files[i];
    assert SectionList(files[..i + 1]) == SectionList(files[..i]) + [Section(files[i])];
    FlattenSnoc(SectionList(files[..i]), Section(files[i]));
  }

  /** The text built from the first `k` files is a prefix of the combined text. */
  lemma SectionsPrefix(files: seq<File>, k: nat)
    requires AllReadable(files) && k <= |files|
    ensures |Sections(files[..k])| <= |Sections(files)|
    ensures Sections(files)[..|Sections(files[..k])|] == Sections(files[..k])
  {
    var parts := SectionList(files);
    assert SectionList(files[..k]) == parts[..k];
    assert parts == parts[..k] + parts[k..];
    FlattenAppend(parts[..k], parts[k..]);
  }

  /** The file at position `i` contributes its header (naming it) and then its
      content at `Offset(files, i)`, and every later file's section starts after it ends. */
  lemma SectionPlacement(files: seq<File>, i: nat, j: nat)
    requires AllReadable(files) && i < j <= |files|
    ensures Offset(files, i) + |Section(files[i])| <= Offset(files, j)
    ensures Offset(files, i) + |Section(files[i])| <= |Sections(files)|
    ensures Sections(files)[Offset(files, i)..Offset(files, i) + |Section(files[i])|] == Section(files[i])
    ensures Sections(files)[Offset(files, i)..Offset(files, i) + |Header(files[i].name)|] == Header(files[i].name)
  {
    var parts := SectionList(files);
    FlattenPlacement(parts, i, j);
    var lo, sec, head := Offset(files, i), Section(files[i]), Header(files[i].name);
    assert parts[i] == sec;
    assert sec[..|head|] == head;
    assert Sections(files)[lo..lo + |head|] == Sections(files)[lo..lo + |sec|][..|head|];
  }
}
