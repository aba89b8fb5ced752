/**
 The text side of utils.py: `extract_text_from_pdf` keeps the pages that
 hold something besides whitespace, and `process_pdf_folder` labels each
 kept page with its file name and 1-based number among the kept pages,
 concatenating the files in the order they are listed. Opening a PDF and
 reading its pages is done by pymupdf; here a file arrives as its page
 texts, or as the fact that pymupdf raised.
 */
module PdfText {
  import opened PyStr
  import opened Selection

  /**
   A page worth keeping: one with a character that is not whitespace. By the
   contract of `Strip` this is exactly when `text.strip()` is truthy, the test
   the source makes.
   */
  predicate HasText(page: string) {
    !AllSpace(page)
  }

  /**
   `extract_text_from_pdf` on a document whose pages read as `pages`: the
   pages with a non-whitespace character, unstripped and in page order.
   */
  method ExtractTextFromPdf(pages: seq<string>) returns (texts: seq<string>)
    ensures texts == Filter(pages, HasText)
    ensures forall j :: 0 <= j < |texts| ==> Strip(texts[j]) != []
  {
    texts := [];
    for p := 0 to |pages|
      invariant texts == Filter(pages[..p], HasText)
    {
      assert pages[..p + 1][..p] == pages[..p];
      var text := pages[p];
      if Strip(text) != [] {
        texts := texts + [text];
      }
    }
    assert pages[..|pages|] == pages;
  }

  /**
   The pages `extract_text_from_pdf` returns are the pages at the ascending
   indices whose text holds a non-whitespace character, and every such page
   is among them.
   */
  lemma ExtractedPages(pages: seq<string>)
    ensures |Filter(pages, HasText)| == |Positions(pages, HasText)|
    ensures forall j :: 0 <= j < |Filter(pages, HasText)| ==> Filter(pages, HasText)[j] == pages[Positions(pages, HasText)[j]]
    ensures forall i :: 0 <= i < |pages| ==> (i in Positions(pages, HasText) <==> Strip(pages[i]) != [])
  {
    FilterIsSelection(pages, HasText);
  }

  /**
   The f-string `f"Source: {name}, Page {page_no}: {text}"`: it opens with the
   file name, `str(page_no)` follows as decimal digits and then a ": ", and
   the page text closes it unchanged.
   */
  function Label(name: string, pageNo: nat, text: string): (r: string)
    ensures var prefix := "Source: " + name + ", Page ";
      && |r| == |prefix| + |NatToDecimal(pageNo)| + 2 + |text|
      && r[..|prefix|] == prefix
      && r[|prefix|..|prefix| + |NatToDecimal(pageNo)|] == NatToDecimal(pageNo)
      && AllDigits(r[|prefix|..|prefix| + |NatToDecimal(pageNo)|])
      && r[|r| - |text| - 2..|r| - |text|] == ": "
      && r[|r| - |text|..] == text
  {
    "Source: " + name + ", Page " + NatToDecimal(pageNo) + ": " + text
  }

  /** The comprehension over `enumerate(texts)`: the i-th kept page is labelled page i+1. */
  function Labelled(name: string, texts: seq<string>): (r: seq<string>)
    ensures |r| == |texts|
  {
    seq(|texts|, i requires 0 <= i < |texts| => Label(name, i + 1, texts[i]))
  }

  /** The i-th string of `Labelled` is the label of the i-th text as page i+1. */
  lemma LabelledAt(name: string, texts: seq<string>, i: nat)
    requires i < |texts|
    ensures Labelled(name, texts)[i] == Label(name, i + 1, texts[i])
  {
  }

  /** What reading a label back yields. */
  datatype Reading = Read(pageNo: nat, text: string) | Unlabelled

  /**
   Reads a string made by `Label` for the file `name`: the page number is the
   digit run after the prefix, the text everything after the ": " that ends it.
   */
  function ReadLabel(name: string, s: string): Reading {
    var prefix := "Source: " + name + ", Page ";
    if |s| < |prefix| || s[..|prefix|] != prefix then Unlabelled
    else
      var rest := s[|prefix|..];
      var k := LeadingDigits(rest);
      if k == 0 || |rest| < k + 2 || rest[k..k + 2] != ": " then Unlabelled
      else Read(ParseDecimal(rest[..k]), rest[k + 2..])
  }

  /** The two halves of a concatenation are its slices at the seam. */
  lemma Halves(a: string, b: string)
    ensures (a + b)[..|a|] == a && (a + b)[|a|..] == b
  {
  }

  /** The digits, the ": " and the text behind the prefix of a label are its slices at their seams. */
  lemma LabelTail(digits: string, text: string)
    ensures var rest, k := digits + (": " + text), |digits|;
      && |rest| >= k + 2
      && rest[..k] == digits
      && rest[k..k + 2] == ": "
      && rest[k + 2..] == text
  {
    Halves(digits, ": " + text);
    Halves(": ", text);
  }

  /** A digit run and a text behind the prefix for `name` read back as that run's value and the text. */
  lemma ReadLabelOfParts(name: string, digits: string, text: string)
    requires |digits| >= 1 && AllDigits(digits)
    ensures ReadLabel(name, "Source: " + name + ", Page " + (digits + (": " + text))) == Read(ParseDecimal(digits), text)
  {
    Halves("Source: " + name + ", Page ", digits + (": " + text));
    LeadingDigitsOfRun(digits, ": " + text);
    LabelTail(digits, text);
  }

  /** A label reads back as the page number and text it was made from, whatever the text. */
  lemma LabelRoundTrip(name: string, pageNo: nat, text: string)
    ensures ReadLabel(name, Label(name, pageNo, text)) == Read(pageNo, text)
  {
    var digits := NatToDecimal(pageNo);
    assert Label(name, pageNo, text) == "Source: " + name + ", Page " + (digits + (": " + text));
    ReadLabelOfParts(name, digits, text);
    DecimalRoundTrip(pageNo);
  }

  /**
   The file name cannot always be read back from a label: a name that itself
   contains ", Page <n>: " gives the same string as the shorter name with that
   part moved into the text, and read under the shorter name it yields the
   longer text.
   */
  lemma LabelNameAmbiguous(name: string, pageNo: nat, part: string, text: string)
    ensures var marker := ", Page " + NatToDecimal(pageNo) + ": ";
      && Label(name + marker + part, pageNo, text) == Label(name, pageNo, part + marker + text)
      && ReadLabel(name, Label(name + marker + part, pageNo, text)) == Read(pageNo, part + marker + text)
  {
    var marker := ", Page " + NatToDecimal(pageNo) + ": ";
    LabelShape(name + marker + part, pageNo, text);
    LabelShape(name, pageNo, part + marker + text);
    ShiftMarker("Source: ", name, marker, part, text);
    LabelRoundTrip(name, pageNo, part + marker + text);
  }

  /** A label is the prefix, the name, the page marker ", Page <n>: " and the text. */
  lemma LabelShape(name: string, pageNo: nat, text: string)
    ensures Label(name, pageNo, text) == "Source: " + name + (", Page " + NatToDecimal(pageNo) + ": ") + text
  {
  }

  /** Moving a marked part from the end of the name to the front of the text leaves the string as it is. */
  lemma ShiftMarker(head: string, name: string, marker: string, part: string, text: string)
    ensures head + (name + marker + part) + marker + text == head + name + marker + (part + marker + text)
  {
  }

  /**
   Within one file the labels number the kept pages 1, 2, .., m with no gap,
   and each reads back as its page's text.
   */
  lemma LabelledPageNumbers(name: string, texts: seq<string>)
    ensures forall i :: 0 <= i < |texts| ==> ReadLabel(name, Labelled(name, texts)[i]) == Read(i + 1, texts[i])
  {
    forall i | 0 <= i < |texts|
      ensures ReadLabel(name, Labelled(name, texts)[i]) == Read(i + 1, texts[i])
    {
      LabelRoundTrip(name, i + 1, texts[i]);
    }
  }

  /** What pymupdf made of one file: it raised, or it read these page texts. */
  datatype Extraction = Raised | Opened(pages: seq<string>)

  /** One `*.pdf` path from the folder listing: its `name` and what reading it gave. */
  datatype PdfFile = PdfFile(name: string, content: Extraction)

  /**
   What one file adds to `all_texts`: nothing if extraction raised, else one
   label per kept page, the i-th reading back under the file's name as page
   i+1 with that page's text.
   */
  function FileTexts(file: PdfFile): (r: seq<string>)
    ensures file.content.Raised? ==> r == []
    ensures file.content.Opened? ==>
      var kept := Filter(file.content.pages, HasText);
      && |r| == |kept|
      && forall i :: 0 <= i < |r| ==> ReadLabel(file.name, r[i]) == Read(i + 1, kept[i])
  {
    match file.content
    case Raised => []
    case Opened(pages) =>
      LabelledPageNumbers(file.name, Filter(pages, HasText));
      Labelled(file.name, Filter(pages, HasText))
  }

  /** The i-th string a file adds is the label of its i-th kept page as page i+1. */
  lemma FileTextAt(file: PdfFile, i: nat)
    requires file.content.Opened? && i < |Filter(file.content.pages, HasText)|
    ensures var kept := Filter(file.content.pages, HasText);
      i < |FileTexts(file)| && FileTexts(file)[i] == Label(file.name, i + 1, kept[i])
  {
    LabelledAt(file.name, Filter(file.content.pages, HasText), i);
  }

  /** What `process_pdf_folder` returns for files listed in this order. */
  function FolderTexts(files: seq<PdfFile>): seq<string> {
    ConcatMap(files, FileTexts)
  }

  /**
   `process_pdf_folder` over the listed files: each file's pages are
   extracted and labelled and appended; a file whose extraction raises is
   reported and skipped, and the loop goes on with the next.
   */
  method ProcessPdfFolder(files: seq<PdfFile>) returns (allTexts: seq<string>)
    ensures allTexts == FolderTexts(files)
  {
    allTexts := [];
    for f := 0 to |files|
      invariant allTexts == FolderTexts(files[..f])
    {
      assert files[..f + 1][..f] == files[..f];
      var file := files[f];
      match file.content {
        case Raised =>
        case Opened(pages) =>
          var texts := ExtractTextFromPdf(pages);
          texts := Labelled(file.name, texts);
          allTexts := allTexts + texts;
      }
    }
    assert files[..|files|] == files;
  }

  /**
   A file whose extraction raises contributes nothing, and the files after
   it are processed as if it were not listed.
   */
  lemma RaisingFileIsSkipped(files: seq<PdfFile>, f: nat)
    requires f < |files| && files[f].content.Raised?
    ensures FolderTexts(files) == FolderTexts(files[..f] + files[f + 1..])
  {
    var rest := files[..f] + files[f + 1..];
    assert FolderTexts(files) == ConcatMap(files, FileTexts) && FolderTexts(rest) == ConcatMap(rest, FileTexts);
    ConcatMapSkip(files, f, FileTexts);
  }

  /**
   Where each page lands: the i-th kept page of file f is the string at
   position i after everything the earlier files produced, and it reads back
   under f's name as page i+1 with that page's text.
   */
  lemma FolderTextsProvenance(files: seq<PdfFile>, f: nat, i: nat)
    requires f < |files| && files[f].content.Opened?
    requires i < |Filter(files[f].content.pages, HasText)|
    ensures var kept := Filter(files[f].content.pages, HasText);
      && |FolderTexts(files[..f])| + i < |FolderTexts(files)|
      && FolderTexts(files)[|FolderTexts(files[..f])| + i] == Label(files[f].name, i + 1, kept[i])
      && ReadLabel(files[f].name, FolderTexts(files)[|FolderTexts(files[..f])| + i]) == Read(i + 1, kept[i])
  {
    var all, before := FolderTexts(files), FolderTexts(files[..f]);
    assert all == ConcatMap(files, FileTexts) && before == ConcatMap(files[..f], FileTexts);
    ConcatMapAt(files, f, FileTexts, i);
    assert all[|before| + i] == FileTexts(files[f])[i];
    FileTextAt(files[f], i);
    LabelRoundTrip(files[f].name, i + 1, Filter(files[f].content.pages, HasText)[i]);
  }
}
