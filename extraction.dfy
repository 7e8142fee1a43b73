/** Text extraction as the document sorter performs it around its foreign
    readers (OCR engine, PDF reader, Word reader), and the choice of reader by
    file-name suffix. The readers themselves are inputs: each either yields its
    raw content or the message of the exception it raised. */
module Extraction {
  import opened Text

  /** What a foreign reader produced: its content, or an exception's message. */
  datatype Opened<T> = Opened(content: T) | Failed(message: string)

  const PdfNoText := "Error: No text found in PDF"
  const DocxNoText := "Error: No text found in DOCX"

  // ---------------------------------------------------------------------------
  // Images

  /** The OCR'd text stripped, or an error text naming the failure. */
  function ImageText(scan: Opened<string>): string {
    match scan
    case Opened(raw) => Strip(raw)
    case Failed(msg) => "Error processing image: " + msg
  }

  // ---------------------------------------------------------------------------
  // PDF

  /** The text the PDF loop accumulates: every page followed by a newline. */
  function PdfConcat(pages: seq<string>): (r: string)
    ensures |r| >= |pages|
    ensures r == "" <==> pages == []
  {
    if pages == [] then ""
    else PdfConcat(pages[..|pages| - 1]) + pages[|pages| - 1] + "\n"
  }

  /** The PDF extractor's answer. */
  function PdfText(doc: Opened<seq<string>>): string {
    match doc
    case Opened(pages) =>
      var text := PdfConcat(pages);
      if text != "" then Strip(text) else PdfNoText
    case Failed(msg) => "Error processing PDF: " + msg
  }

  /** Reads the pages one after another, appending each page's text and a
      newline, then strips the result; a document without pages yields the
      "no text" marker and a reader failure yields an error text. */
  method ExtractTextFromPdf(doc: Opened<seq<string>>) returns (text: string)
    ensures text == PdfText(doc)
  {
    match doc
    case Failed(msg) =>
      text := "Error processing PDF: " + msg;
    case Opened(pages) =>
      var acc := "";
      for i := 0 to |pages|
        invariant acc == PdfConcat(pages[..i])
      {
        assert pages[..i + 1][..i] == pages[..i];
        acc := acc + pages[i] + "\n";
      }
      assert pages[..|pages|] == pages;
      text := if acc != "" then Strip(acc) else PdfNoText;
  }

  /** The "no text" marker is chosen exactly for a PDF without pages; any
      other readable PDF yields its stripped page texts. */
  lemma PdfNoTextOnlyWithoutPages(pages: seq<string>)
    ensures pages == [] ==> PdfText(Opened(pages)) == PdfNoText
    ensures pages != [] ==> PdfText(Opened(pages)) == Strip(PdfConcat(pages))
  {
  }

  /** Pages whose text is all whitespace (a scan without a text layer) give the
      empty text, not the "no text" marker. */
  lemma ScannedPdfGivesEmptyText(pages: seq<string>)
    requires pages != []
    requires forall p, k :: p in pages && 0 <= k < |p| ==> IsSpace(p[k])
    ensures PdfText(Opened(pages)) == ""
  {
    PdfConcatAllSpace(pages);
    StripAllSpace(PdfConcat(pages));
  }

  lemma {:induction false} PdfConcatAllSpace(pages: seq<string>)
    requires forall p, k :: p in pages && 0 <= k < |p| ==> IsSpace(p[k])
    ensures forall k :: 0 <= k < |PdfConcat(pages)| ==> IsSpace(PdfConcat(pages)[k])
  {
    if pages != [] {
      var init := pages[..|pages| - 1];
      var last := pages[|pages| - 1];
      assert forall p :: p in init ==> p in pages;
      PdfConcatAllSpace(init);
      var prev := PdfConcat(init);
      var r := prev + last + "\n";
      forall k | 0 <= k < |r| ensures IsSpace(r[k]) {
        if k < |prev| {
          assert r[k] == prev[k];
        } else if k < |prev| + |last| {
          assert r[k] == last[k - |prev|];
        }
      }
    }
  }

  // ---------------------------------------------------------------------------
  // Word documents

  /** The DOCX extractor's answer: the paragraphs joined by newlines, stripped. */
  function DocxText(doc: Opened<seq<string>>): string {
    match doc
    case Opened(paragraphs) =>
      var text := Join(paragraphs, "\n");
      if text != "" then Strip(text) else DocxNoText
    case Failed(msg) => "Error processing DOCX: " + msg
  }

  /** The "no text" marker is chosen exactly for no paragraphs or a single empty
      one; several empty paragraphs give the empty text. */
  lemma DocxNoTextCases(paragraphs: seq<string>)
    ensures paragraphs == [] || paragraphs == [""] ==> DocxText(Opened(paragraphs)) == DocxNoText
    ensures paragraphs != [] && paragraphs != [""] ==>
      DocxText(Opened(paragraphs)) == Strip(Join(paragraphs, "\n"))
    ensures |paragraphs| >= 2 && (forall p :: p in paragraphs ==> p == "") ==>
      DocxText(Opened(paragraphs)) == ""
  {
    JoinEmpty(paragraphs, "\n");
    if |paragraphs| >= 2 && (forall p :: p in paragraphs ==> p == "") {
      JoinAllSpace(paragraphs, "\n");
      StripAllSpace(Join(paragraphs, "\n"));
    }
  }

  /** No extractor raises: a failed read becomes an error text that names the
      reader, and a successful read is either trimmed text or a marker. */
  lemma ExtractorsNeverRaise(scan: Opened<string>, pdf: Opened<seq<string>>, docx: Opened<seq<string>>)
    ensures scan.Failed? ==> ImageText(scan) == "Error processing image: " + scan.message
    ensures pdf.Failed? ==> PdfText(pdf) == "Error processing PDF: " + pdf.message
    ensures docx.Failed? ==> DocxText(docx) == "Error processing DOCX: " + docx.message
    ensures scan.Opened? ==> IsTrimmed(ImageText(scan))
    ensures pdf.Opened? ==> IsTrimmed(PdfText(pdf))
    ensures docx.Opened? ==> IsTrimmed(DocxText(docx))
  {
  }

  // ---------------------------------------------------------------------------
  // Choosing the reader

  datatype Kind = Image | Pdf | Docx | Unsupported

  const ImageSuffixes: seq<string> := [".png", ".jpg", ".jpeg", ".tiff", ".bmp", ".gif"]

  predicate IsImageName(lowered: string) {
    exists e :: e in ImageSuffixes && EndsWith(lowered, e)
  }

  /** The reader a file name selects: its lowered name is tested against the
      image suffixes, then ".pdf", then ".docx". */
  function KindOf(filename: string): Kind {
    var lowered := Lower(filename);
    if IsImageName(lowered) then Image
    else if EndsWith(lowered, ".pdf") then Pdf
    else if EndsWith(lowered, ".docx") then Docx
    else Unsupported
  }

  /** The reader does not depend on the letter case of the name. */
  lemma KindIgnoresCase(filename: string)
    ensures KindOf(Lower(filename)) == KindOf(filename)
    ensures KindOf(Upper(filename)) == KindOf(filename)
  {
    LowerIdempotent(filename);
    LowerUpper(filename);
  }

  /** A name cannot end in ".pdf", ".docx" or ".zip" and in an image suffix. */
  lemma SuffixesExclusive(lowered: string)
    ensures EndsWith(lowered, ".pdf") ==> !IsImageName(lowered) && !EndsWith(lowered, ".docx")
    ensures EndsWith(lowered, ".docx") ==> !IsImageName(lowered)
    ensures EndsWith(lowered, ".zip") ==>
      !IsImageName(lowered) && !EndsWith(lowered, ".pdf") && !EndsWith(lowered, ".docx")
  {
    forall e | e in ImageSuffixes && EndsWith(lowered, e)
      ensures !EndsWith(lowered, ".pdf") && !EndsWith(lowered, ".docx") && !EndsWith(lowered, ".zip")
    {
      if EndsWith(lowered, ".pdf") { EndsWithBoth(lowered, e, ".pdf", 2); EndsWithBoth(lowered, e, ".pdf", 0); }
      if EndsWith(lowered, ".docx") { EndsWithBoth(lowered, e, ".docx", 0); }
      if EndsWith(lowered, ".zip") { EndsWithBoth(lowered, e, ".zip", 2); EndsWithBoth(lowered, e, ".zip", 0); }
    }
    if EndsWith(lowered, ".pdf") && EndsWith(lowered, ".docx") { EndsWithBoth(lowered, ".pdf", ".docx", 0); }
    if EndsWith(lowered, ".zip") && EndsWith(lowered, ".docx") { EndsWithBoth(lowered, ".zip", ".docx", 0); }
  }

  /** Each reader is chosen exactly for its own suffixes, in any letter case, and
      a ".zip" (such as the archive the batch produces) is never read. */
  lemma KindBySuffix(filename: string)
    ensures KindOf(filename) == Image <==> IsImageName(Lower(filename))
    ensures KindOf(filename) == Pdf <==> EndsWith(Lower(filename), ".pdf")
    ensures KindOf(filename) == Docx <==> EndsWith(Lower(filename), ".docx")
    ensures KindOf(filename) == Unsupported <==>
      !IsImageName(Lower(filename)) && !EndsWith(Lower(filename), ".pdf") && !EndsWith(Lower(filename), ".docx")
    ensures EndsWith(Lower(filename), ".zip") ==> KindOf(filename) == Unsupported
  {
    SuffixesExclusive(Lower(filename));
  }
}
