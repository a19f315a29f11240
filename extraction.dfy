/**
  Text extraction from one upload (`extract_text`): the format is chosen
  from the suffix of the upload's name, and each format's parsed document
  is turned into text by joining its pieces with newlines.

  The document libraries themselves are not modelled: an upload carries
  what each library would yield for it, either the parsed document or a
  failure, and the plain-text fallback carries the decoded contents or
  nothing when reading raises.
*/
module Extraction {
  import opened Wrappers
  import opened PyStr

  /** What a document library yields for an upload: the parsed document, or an exception. */
  datatype Parse<+T> = Parsed(doc: T) | Malformed

  /** A slide shape; `text` is present exactly for the shapes that carry text. */
  datatype Shape = Shape(text: Option<string>)

  type Slide = seq<Shape>

  /**
    One uploaded file. `name` is absent when the object has no name.
    `pdf` holds the text of each page (absent when the page yields none),
    `docx` the text of each paragraph, `pptx` the shapes of each slide, and
    `plain` the decoded contents, absent when reading raises.
  */
  datatype Upload = Upload(
    name: Option<string>,
    pdf: Parse<seq<Option<string>>>,
    docx: Parse<seq<string>>,
    pptx: Parse<seq<Slide>>,
    plain: Option<string>)

  datatype Format = Pdf | Docx | Pptx | Plain

  /** A document library's exception, which `extract_text` does not catch. */
  datatype ExtractError = PdfUnreadable | DocxUnreadable | PptxUnreadable

  /** The upload's name, or the empty string when it has none. */
  function NameOf(f: Upload): string {
    if f.name.Some? then f.name.value else ""
  }

  // ---------------------------------------------------------------------
  // Format dispatch

  /** The three suffixes differ in their last two characters, so at most one matches. */
  lemma SuffixesExclusive(name: string)
    ensures !(EndsWith(name, ".pdf") && EndsWith(name, ".docx"))
    ensures !(EndsWith(name, ".pdf") && EndsWith(name, ".pptx"))
    ensures !(EndsWith(name, ".docx") && EndsWith(name, ".pptx"))
  {
    var n := |name|;
    if EndsWith(name, ".pdf") {
      assert name[n - 1] == ".pdf"[3] == 'f';
    }
    if EndsWith(name, ".docx") {
      assert name[n - 1] == ".docx"[4] == 'x';
      assert name[n - 2] == ".docx"[3] == 'c';
    }
    if EndsWith(name, ".pptx") {
      assert name[n - 1] == ".pptx"[4] == 'x';
      assert name[n - 2] == ".pptx"[3] == 't';
    }
  }

  /**
    The format chosen for a name: the suffix tests run in the order
    `.pdf`, `.docx`, `.pptx`, and anything else is plain text. Because the
    suffixes exclude one another, each format is chosen exactly when its
    own suffix is present, whatever the order of the tests.
  */
  function FormatOf(name: string): (format: Format)
    ensures format == Pdf <==> EndsWith(name, ".pdf")
    ensures format == Docx <==> EndsWith(name, ".docx")
    ensures format == Pptx <==> EndsWith(name, ".pptx")
    ensures format == Plain <==> !EndsWith(name, ".pdf") && !EndsWith(name, ".docx") && !EndsWith(name, ".pptx")
  {
    SuffixesExclusive(name);
    if EndsWith(name, ".pdf") then Pdf
    else if EndsWith(name, ".docx") then Docx
    else if EndsWith(name, ".pptx") then Pptx
    else Plain
  }

  /** An upload without a name goes to the plain-text fallback. */
  lemma UnnamedIsPlain(f: Upload)
    requires f.name.None?
    ensures FormatOf(NameOf(f)) == Plain
  {
    assert !EndsWith("", ".pdf") && !EndsWith("", ".docx") && !EndsWith("", ".pptx");
  }

  /** The suffix test is case-sensitive: an upper-case suffix is plain text. */
  lemma UpperCaseSuffixIsPlain()
    ensures FormatOf("A.PDF") == Plain
  {
    assert "A.PDF"[4] != 'f' && "A.PDF"[4] != 'x';
  }

  // ---------------------------------------------------------------------
  // PDF and DOCX: one piece per page or paragraph, joined by newlines

  /** A page's text, or the empty string when the page yields none. */
  function PageText(page: Option<string>): string {
    if page.Some? then page.value else ""
  }

  function PageTexts(pages: seq<Option<string>>): (texts: seq<string>)
    ensures |texts| == |pages|
    ensures forall i :: 0 <= i < |pages| ==> texts[i] == PageText(pages[i])
  {
    seq(|pages|, i requires 0 <= i < |pages| => PageText(pages[i]))
  }

  function PdfText(pages: seq<Option<string>>): string {
    Join(PageTexts(pages), "\n")
  }

  function DocxText(paragraphs: seq<string>): string {
    Join(paragraphs, "\n")
  }

  /**
    The page texts are laid out in page order, one per line: when no page
    text holds a newline, splitting the PDF text at newlines gives them
    back, with the empty string for each page that yields no text.
  */
  lemma PdfPagesInOrder(pages: seq<Option<string>>)
    requires pages != []
    requires forall i :: 0 <= i < |pages| ==> !Contains(PageText(pages[i]), "\n")
    ensures Split(PdfText(pages), "\n") == PageTexts(pages)
  {
    SplitJoin(PageTexts(pages), "\n");
  }

  /** Likewise the paragraphs of a DOCX document, in document order. */
  lemma DocxParagraphsInOrder(paragraphs: seq<string>)
    requires paragraphs != []
    requires forall i :: 0 <= i < |paragraphs| ==> !Contains(paragraphs[i], "\n")
    ensures Split(DocxText(paragraphs), "\n") == paragraphs
  {
    SplitJoin(paragraphs, "\n");
  }

  /** Each page adds its text and, after the first, one newline. */
  lemma PdfTextLength(pages: seq<Option<string>>)
    requires pages != []
    ensures |PdfText(pages)| == TotalLength(PageTexts(pages)) + |pages| - 1
  {
    JoinLength(PageTexts(pages), "\n");
  }

  // ---------------------------------------------------------------------
  // PPTX: the texts of text-bearing shapes, slide by slide, shape by shape

  /** The text of a shape, as a list of zero or one strings. */
  function TextOf(shape: Shape): seq<string> {
    if shape.text.Some? then [shape.text.value] else []
  }

  /** The texts of a slide's text-bearing shapes, in shape order. */
  function SlideTexts(shapes: Slide): (texts: seq<string>)
    ensures |texts| <= |shapes|
    decreases |shapes|
  {
    if shapes == [] then []
    else SlideTexts(shapes[..|shapes| - 1]) + TextOf(shapes[|shapes| - 1])
  }

  /**
    A slide's texts are exactly the texts of its text-bearing shapes:
    every collected text comes from some shape, and no shape's text is
    missed.
  */
  lemma {:induction false} SlideTextsMembers(shapes: Slide)
    ensures forall t :: t in SlideTexts(shapes) ==> exists i :: 0 <= i < |shapes| && shapes[i].text == Some(t)
    ensures forall i :: 0 <= i < |shapes| && shapes[i].text.Some? ==> shapes[i].text.value in SlideTexts(shapes)
    decreases |shapes|
  {
    if shapes != [] {
      var n := |shapes| - 1;
      var front := shapes[..n];
      SlideTextsMembers(front);
      forall t | t in SlideTexts(shapes)
        ensures exists i :: 0 <= i < |shapes| && shapes[i].text == Some(t)
      {
        if t in SlideTexts(front) {
          var i :| 0 <= i < n && front[i].text == Some(t);
          assert shapes[i] == front[i];
        } else {
          assert shapes[n].text == Some(t);
        }
      }
      forall i | 0 <= i < |shapes| && shapes[i].text.Some?
        ensures shapes[i].text.value in SlideTexts(shapes)
      {
        if i < n {
          assert front[i] == shapes[i];
        }
      }
    }
  }

  /** The texts of all text-bearing shapes, slide by slide. */
  function ShapeTexts(slides: seq<Slide>): seq<string>
    decreases |slides|
  {
    if slides == [] then []
    else ShapeTexts(slides[..|slides| - 1]) + SlideTexts(slides[|slides| - 1])
  }

  /** One more slide adds its texts at the end. */
  lemma ShapeTextsSnoc(slides: seq<Slide>)
    requires slides != []
    ensures ShapeTexts(slides) == ShapeTexts(slides[..|slides| - 1]) + SlideTexts(slides[|slides| - 1])
  {
  }

  /** All shapes of a presentation, slide by slide. */
  function AllShapes(slides: seq<Slide>): seq<Shape>
    decreases |slides|
  {
    if slides == [] then []
    else AllShapes(slides[..|slides| - 1]) + slides[|slides| - 1]
  }

  /** Collecting texts distributes over putting shapes side by side: the order is kept. */
  lemma {:induction false} SlideTextsAppend(a: Slide, b: Slide)
    ensures SlideTexts(a + b) == SlideTexts(a) + SlideTexts(b)
    decreases |b|
  {
    if b == [] {
      assert a + b == a;
    } else {
      var n := |b| - 1;
      var front, last := b[..n], b[n];
      assert a + b == (a + front) + [last];
      assert b == front + [last];
      calc {
        SlideTexts(a + b);
        == { SlideTextsSnoc(a + front, last); }
        SlideTexts(a + front) + TextOf(last);
        == { SlideTextsAppend(a, front); }
        SlideTexts(a) + SlideTexts(front) + TextOf(last);
        == { SlideTextsSnoc(front, last); }
        SlideTexts(a) + SlideTexts(b);
      }
    }
  }

  /** One more shape adds its text, if any, at the end. */
  lemma SlideTextsSnoc(shapes: Slide, shape: Shape)
    ensures SlideTexts(shapes + [shape]) == SlideTexts(shapes) + TextOf(shape)
  {
    assert (shapes + [shape])[..|shapes|] == shapes;
  }

  /**
    Slide boundaries do not matter: the presentation's texts are those of
    its shapes read in order, as if they were all on one slide.
  */
  lemma {:induction false} ShapeTextsOfAllShapes(slides: seq<Slide>)
    ensures ShapeTexts(slides) == SlideTexts(AllShapes(slides))
    decreases |slides|
  {
    if slides != [] {
      var n := |slides| - 1;
      ShapeTextsOfAllShapes(slides[..n]);
      SlideTextsAppend(AllShapes(slides[..n]), slides[n]);
    }
  }

  /** Shapes without text contribute nothing. */
  lemma {:induction false} TextlessSlide(shapes: Slide)
    requires forall i :: 0 <= i < |shapes| ==> shapes[i].text.None?
    ensures SlideTexts(shapes) == []
    decreases |shapes|
  {
    if shapes != [] {
      TextlessSlide(shapes[..|shapes| - 1]);
    }
  }

  /** The PPTX branch: the two nested loops collect the texts, then one newline join. */
  method PptxText(slides: seq<Slide>) returns (r: string)
    ensures r == Join(ShapeTexts(slides), "\n")
  {
    var text: seq<string> := [];
    for i := 0 to |slides|
      invariant text == ShapeTexts(slides[..i])
    {
      text := CollectSlide(text, slides[i]);
      assert slides[..i + 1][..i] == slides[..i];
      ShapeTextsSnoc(slides[..i + 1]);
    }
    assert slides[..|slides|] == slides;
    r := Join(text, "\n");
  }

  /** The inner loop of the PPTX branch: appends a slide's texts, shape by shape. */
  method CollectSlide(text: seq<string>, shapes: Slide) returns (r: seq<string>)
    ensures r == text + SlideTexts(shapes)
  {
    r := text;
    for j := 0 to |shapes|
      invariant r == text + SlideTexts(shapes[..j])
    {
      assert shapes[..j + 1] == shapes[..j] + [shapes[j]];
      SlideTextsSnoc(shapes[..j], shapes[j]);
      if shapes[j].text.Some? {
        r := r + [shapes[j].text.value];
      }
    }
    assert shapes[..|shapes|] == shapes;
  }

  // ---------------------------------------------------------------------
  // The whole of `extract_text`

  /** What `extract_text` returns for an upload, or the exception it lets through. */
  function Extracted(f: Upload): Result<string, ExtractError> {
    match FormatOf(NameOf(f))
    case Pdf => if f.pdf.Parsed? then Success(PdfText(f.pdf.doc)) else Failure(PdfUnreadable)
    case Docx => if f.docx.Parsed? then Success(DocxText(f.docx.doc)) else Failure(DocxUnreadable)
    case Pptx => if f.pptx.Parsed? then Success(Join(ShapeTexts(f.pptx.doc), "\n")) else Failure(PptxUnreadable)
    case Plain => Success(if f.plain.Some? then f.plain.value else "")
  }

  method ExtractText(f: Upload) returns (r: Result<string, ExtractError>)
    ensures r == Extracted(f)
  {
    var name := NameOf(f);
    if EndsWith(name, ".pdf") {
      if f.pdf.Malformed? {
        return Failure(PdfUnreadable);
      }
      return Success(PdfText(f.pdf.doc));
    }
    if EndsWith(name, ".docx") {
      if f.docx.Malformed? {
        return Failure(DocxUnreadable);
      }
      return Success(DocxText(f.docx.doc));
    }
    if EndsWith(name, ".pptx") {
      if f.pptx.Malformed? {
        return Failure(PptxUnreadable);
      }
      var text := PptxText(f.pptx.doc);
      return Success(text);
    }
    if f.plain.Some? {
      return Success(f.plain.value);
    }
    return Success("");
  }

  /**
    Extraction fails exactly when the upload's name selects a document
    format and that format's library cannot parse it; the plain-text
    fallback never fails, and yields the empty string when reading raises.
  */
  lemma ExtractedFailsOnlyInParsers(f: Upload)
    ensures Extracted(f).Failure? <==>
              (FormatOf(NameOf(f)) == Pdf && f.pdf.Malformed?)
              || (FormatOf(NameOf(f)) == Docx && f.docx.Malformed?)
              || (FormatOf(NameOf(f)) == Pptx && f.pptx.Malformed?)
    ensures FormatOf(NameOf(f)) == Plain ==> Extracted(f) == Success(if f.plain.Some? then f.plain.value else "")
  {
    match FormatOf(NameOf(f))
    case Pdf =>
    case Docx =>
    case Pptx =>
    case Plain =>
  }

  /** A presentation's extracted text is its shapes' texts, in reading order, one per line. */
  lemma ExtractedPptx(f: Upload)
    requires FormatOf(NameOf(f)) == Pptx && f.pptx.Parsed?
    ensures Extracted(f) == Success(Join(SlideTexts(AllShapes(f.pptx.doc)), "\n"))
  {
    ShapeTextsOfAllShapes(f.pptx.doc);
  }
}
