# StudyMe study-pack generator, modelled in Dafny

The application takes a learner's uploaded course material (PDF, Word and
PowerPoint files, or anything else as plain text), a subject name and
optional exam instructions. It sends one generation request to a
completion service and cuts the single free-text reply into a study pack
of four fields: textbook, flashcards, question bank and exam. A second
action sends the exam and the learner's answers in one grading request
and shows the reply as feedback.

The model covers both actions and everything they are built from. The
completion service is a parameter `complete: string -> string`, and each
action also returns the requests it sent, so "the service is not called"
is the statement `requests == []`.

| file | module | what it holds |
|---|---|---|
| `wrappers.dfy` | `Wrappers` | `Option`, `Result` |
| `pystr.dfy` | `PyStr` | the Python `str` operations used, with CPython's semantics: `find`/`in`, `replace`, `split`, `split(sep, 1)`, `join`, `endswith`, `strip()` with CPython's whitespace table |
| `extraction.dfy` | `Extraction` | `extract_text`: dispatch on the name's suffix, the PDF and DOCX newline joins, and the PPTX loops as methods |
| `corpus.dfy` | `Corpus` | the corpus loop of `generate_all` as a method, its specification function, and lemmas |
| `prompts.dfy` | `Prompts` | the default subject, the two requests, and the four heading tokens shared with the segmenter |
| `segmenter.dfy` | `Segmenter` | heading normalisation and the three first-occurrence cuts, with case lemmas and worked examples |
| `app.dfy` | `App` | `generate_all` and `grade_exam` |

The prompt wording is held as data (`Prompts.StudyPackText`,
`Prompts.FeedbackText`). The lemmas about the requests hold for any
wording and are then instantiated with the application's own.

## Model

| member | source | states |
|---|---|---|
| App.GenerateAll | app.py:45-140 | With no uploads: the no-files message in the textbook field, three empty fields, and no request. When an upload's document library fails: that failure, and no request. Otherwise: exactly one request, the generation prompt for the subject (or its default), the corpus and the instructions; its reply segmented is the result. |
| App.GradeExam | app.py:146-171 | A request is sent exactly when the answers are non-empty. Empty answers get the fixed message. Otherwise exactly one request is sent and its reply is the feedback. |
| App.GradingRequestCarriesAnswers | app.py:150-164 | The grading request holds the exam text verbatim after the lead, then the answers verbatim after the exam text and the fixed separator. |
| App.GenerationRequestCarriesInputs | app.py:60-97 | The generation request holds the subject (the default when the name is empty), then the corpus, then the exam instructions, each verbatim at the offset the fixed wording gives it. |
| App.GenerationRequestHeadings | app.py:66-91 | The generation request names the four heading tokens after the corpus, in the order the segmenter cuts on them, without overlap. |
| Corpus.BuildCorpus | app.py:56-58 | The loop yields exactly `CorpusOf(files)`: each text plus a blank line in upload order, or the first extraction failure. |
| Corpus.CorpusOf | app.py:56-58 | The corpus as a value: each upload's text followed by a blank line, in upload order, or the first extraction failure, since app.py catches none. Its properties are the lemmas below. |
| Corpus.Chunked | app.py:58 | Each text followed by `"\n\n"`, in order. `ChunkedIsJoin` ties it to a join and `ChunkedLength` to its length. |
| Corpus.FailureSticks | app.py:57-58 | Once a prefix of the uploads fails, the whole run fails with the same error. Nothing later can recover it, because the exception is not caught. |
| Corpus.CorpusSucceedsIff | app.py:56-58 | The corpus is built if and only if every upload extracts. |
| Corpus.SucceedsWhenAllExtract | app.py:56-58 | If every upload extracts, the corpus is built. |
| Corpus.AllExtractWhenSucceeds | app.py:56-58 | If the corpus is built, every upload extracted. |
| Corpus.CorpusIsChunked | app.py:56-58 | When every upload extracts, the corpus is the in-order concatenation of each text followed by `"\n\n"`. |
| Corpus.FirstFailure | app.py:57-58 | A failing run reports the error of the first failing upload, and every earlier upload extracts. |
| Corpus.ChunkedIsJoin | app.py:58 | The corpus equals `"\n\n".join(texts + [""])`. |
| Corpus.ChunkedLength | app.py:58 | Every upload adds its text and exactly two characters, even when its text is empty. |
| Extraction.SuffixesExclusive | app.py:18-26 | No name ends with two of `.pdf`, `.docx`, `.pptx`. |
| Extraction.FormatOf | app.py:17-39 | Each format is chosen if and only if its suffix is present. Plain text is chosen if and only if none of the three is. |
| Extraction.UnnamedIsPlain | app.py:17 | An upload with no name takes the plain-text fallback. |
| Extraction.UpperCaseSuffixIsPlain | app.py:18 | The suffix test is case-sensitive: `A.PDF` is plain text. |
| Extraction.PdfText | app.py:19-20 | The page texts, a page without text giving `""`, joined by newlines. `PdfPagesInOrder` and `PdfTextLength` state its properties. |
| Extraction.DocxText | app.py:22-24 | The paragraph texts joined by newlines. `DocxParagraphsInOrder` states its round trip. |
| Extraction.PdfPagesInOrder | app.py:19-20 | If no page text holds a newline, splitting the PDF text at newlines gives back the page texts in page order. |
| Extraction.DocxParagraphsInOrder | app.py:23-24 | If no paragraph holds a newline, splitting the DOCX text at newlines gives back the paragraphs in order. |
| Extraction.PdfTextLength | app.py:20 | The PDF text is the page texts plus one newline between each two pages. |
| Extraction.SlideTexts | app.py:30-32 | A slide yields at most one text per shape. |
| Extraction.SlideTextsMembers | app.py:30-32 | Every collected text is some shape's text, and every text-bearing shape's text is collected. |
| Extraction.SlideTextsAppend | app.py:29-32 | Collecting over two runs of shapes is the concatenation of the two collections, so order is kept. |
| Extraction.ShapeTextsOfAllShapes | app.py:29-32 | Slide boundaries do not matter: the result is the texts of all shapes read in order. |
| Extraction.TextlessSlide | app.py:31-32 | Shapes without text contribute nothing. |
| Extraction.ShapeTexts | app.py:28-32 | The texts of the text-bearing shapes, slide by slide and shape by shape. `ShapeTextsOfAllShapes` and `SlideTextsAppend` state its properties, and `PptxText` is proved against it. |
| Extraction.CollectSlide | app.py:30-32 | The inner loop appends exactly the slide's texts, in shape order, to what was collected so far. |
| Extraction.PptxText | app.py:26-33 | The nested loops and the join give the presentation's shape texts joined by newlines. |
| Extraction.ExtractText | app.py:15-39 | The method returns exactly `Extracted(f)`. |
| Extraction.Extracted | app.py:15-39 | The text of one upload as a value: the format chosen by suffix, the library's text or its failure, and otherwise the decoded bytes or `""`. `ExtractedFailsOnlyInParsers` and `ExtractedPptx` state its properties. |
| Extraction.ExtractedFailsOnlyInParsers | app.py:15-39 | Extraction fails if and only if the name selects PDF, DOCX or PPTX and that library cannot parse the upload. The fallback never fails and yields `""` when reading raises. |
| Extraction.ExtractedPptx | app.py:26-33 | A parsed presentation's text is its shapes' texts in reading order, one per line. |
| Prompts.SubjectOrDefault | app.py:47-48 | An empty subject name becomes "My Course"; any other name is kept. The subject is never empty. |
| Prompts.Sections | app.py:66-89 | The numbered section list: each heading token followed by its brief, in cut order. `SectionsHeadings` states its property. |
| Prompts.GenerationPromptIn | app.py:60-97 | The generation request for a given wording: the lead, the subject, the corpus, the section list, the instructions and the closing, in that order. `GenerationPromptEmbeds` and `GenerationPromptHeadings` state its properties. |
| Prompts.GenerationPrompt | app.py:60-97 | The generation request in the application's own wording; `App.GenerationRequestCarriesInputs` and `App.GenerationRequestHeadings` instantiate the lemmas with it. |
| Prompts.GenerationPromptEmbeds | app.py:60-97 | For any wording: subject, corpus and instructions sit verbatim at fixed offsets, and the request's length is accounted for exactly. |
| Prompts.GenerationPromptHeadings | app.py:66-91 | For any wording: the four heading tokens sit between the corpus and the instructions, in order and without overlap. |
| Prompts.SectionsHeadings | app.py:66-89 | The numbered section list holds the four heading tokens in order. |
| Prompts.GradingPromptEmbeds | app.py:150-164 | For any wording: exam text and answers sit verbatim at fixed offsets, and the length is accounted for exactly. |
| Prompts.GradingPromptIn | app.py:150-164 | The grading request for a given wording: the lead, the exam text, the fixed separator, the answers and the closing. `GradingPromptEmbeds` states its properties. |
| Prompts.GradingPrompt | app.py:150-164 | The grading request in the application's own wording; `App.GradingRequestCarriesAnswers` instantiates the lemma with it. |
| Segmenter.Segment | app.py:109-140 | All four fields are trimmed: none starts or ends with whitespace. |
| Segmenter.Normalize | app.py:115 | "Flashcards", then "Question Bank", then "Exam Template" are each rewritten everywhere to the upper-case token. The length is kept, because each title and its token have the same length. |
| Segmenter.NormalizeScope | app.py:115 | A reply with none of the three title-case headings is left unchanged. |
| Segmenter.NormalizeWithoutTitleLetters | app.py:115 | A reply without `h`, `u` and `m` holds none of the three titles, so it is left unchanged. |
| Segmenter.NormalizeExamOpening | app.py:115 | A leading "Exam Template" becomes "EXAM TEMPLATE" when no later text can start a title. |
| Segmenter.NormalizeNotIdempotent | app.py:115 | Normalising once can create a new "Exam Template": the last `E` of a rewritten token completes it. |
| Segmenter.SegmentDegrade | app.py:117-123 | Without FLASHCARDS, the textbook is the whole normalised reply trimmed, with the textbook token kept, and the other fields are empty. |
| Segmenter.SegmentEmpty | app.py:109-140 | An empty reply gives four empty fields. |
| Segmenter.SegmentNoQuestionBank | app.py:117-131 | FLASHCARDS present, QUESTION BANK absent after it: the textbook is the part before the first FLASHCARDS with every textbook token removed, the flashcards are all that follows, and the rest is empty. |
| Segmenter.SegmentNoExam | app.py:117-138 | FLASHCARDS, then QUESTION BANK, and no EXAM TEMPLATE after them: the exam is empty and the question bank is the remainder, trimmed. |
| Segmenter.SegmentAllHeadings | app.py:117-136 | All three headings present: the fields are the four trimmed pieces between the first occurrences. |
| Segmenter.TextbookHeadingsAllRemoved | app.py:119 | Every textbook token before FLASHCARDS is removed, not only a leading one. |
| Segmenter.ExamNeedsAllHeadings | app.py:117-136 | A non-empty exam implies FLASHCARDS, then QUESTION BANK, then EXAM TEMPLATE, in order, in the normalised reply. |
| Segmenter.HeadingsNotInFields | app.py:125-138 | The flashcards never contain QUESTION BANK and the question bank never contains EXAM TEMPLATE. |
| Segmenter.LayoutCuts | app.py:115-136 | A reply in the requested layout is left unchanged by normalisation, and each of the three cuts falls at its own heading, when two conditions hold. First, no title-case heading occurs anywhere in it. Second, no heading token starts before its own place: none of FLASHCARDS in the textbook heading and introduction, none of QUESTION BANK in the flashcards, none of EXAM TEMPLATE in the question bank, including an occurrence that would run into the heading. |
| Segmenter.SegmentLayout | app.py:109-140 | Under the same two conditions, a reply in the requested layout splits back into its four sections, trimmed. From the introduction every textbook token is removed. Replies where a heading is missing or comes early are covered by `SegmentDegrade`, `SegmentNoQuestionBank`, `SegmentNoExam` and, for any three headings in order, `SegmentAllHeadings`. |
| Segmenter.LayoutWithoutTitles | app.py:115 | Sections without `h`, `u` and `m` give a layout with no title-case heading. |
| Segmenter.LayoutHeadingsFirst | app.py:117-136 | No `F` in the introduction, no `U` in the flashcards and no `E` in the question bank mean that no heading token starts before its own place. |
| Segmenter.SegmentPlain | app.py:117-123 | A reply that holds none of the three title-case headings and no FLASHCARDS, padded with whitespace, is the textbook alone. The other fields are empty. |
| Segmenter.UnmarkedHasNoHeadings | app.py:115-117 | A reply without `F`, `Q` or `E` holds no title-case heading and no FLASHCARDS. |
| Segmenter.SegmentUnmarked | app.py:117-123 | A reply without `F`, `Q` or `E` is the trimmed textbook, and the other fields are empty. |
| Segmenter.SegmentUnmarkedText | app.py:121-123 | `"just some text"` is the textbook as it stands, and the other fields are empty. |
| Segmenter.SegmentWorkedExample | app.py:109-140 | A small well-formed reply gives `":\nHello"`, `"Q: x\nA: y"`, `"MCQ1"` and `"Final"`. |
| Segmenter.SegmentNoHeadingsExample | app.py:121-123 | `" plain notes\n"` is the textbook `"plain notes"` alone. |
| PyStr.Find | app.py:117 | The position `find` reports leaves room for the pattern in the string. `FindFound`, `FindFirst` and `FindIsFirst` state that it is the first occurrence, and that there is none when it reports nothing. |
| PyStr.Contains | app.py:117 | `p in s`: `find` reports a position. `FindFirst` states that this holds exactly when an occurrence exists. |
| PyStr.FindFound | app.py:117 | Whatever `find` reports is an occurrence. |
| PyStr.FindFirst | app.py:117-118 | Every occurrence is found, and none comes before the one reported. |
| PyStr.FindIsFirst | app.py:118 | An occurrence with none before it is the one `find` reports. |
| PyStr.FirstCutAfter | app.py:117-118 | When the pattern does not occur in `x` followed by all but its last character, the first cut of `x + p + y` is at the `p` after `x`. |
| PyStr.TailCutByChar | app.py:117-118 | That condition holds when some character of the pattern is missing from `x` and from the pattern's part before it. |
| PyStr.NoOccurrenceBeforeFirst | app.py:126-127 | The part before the first occurrence does not contain the separator. |
| PyStr.SplitOnce | app.py:118 | `split(sep, 1)` makes two parts if and only if `sep` occurs; the parts rebuild the string around the first occurrence; otherwise the one part is the string. |
| PyStr.SplitOnceCut | app.py:118 | A first-occurrence cut is exactly what `split(sep, 1)` returns. |
| PyStr.CutExists | app.py:117-118 | When `sep in s`, the first cut exists. |
| PyStr.Replace | app.py:115 | `str.replace` with a non-empty target: every occurrence, found left to right without overlap, is rewritten. `ReplaceIsJoinOfSplit` ties it to an independent definition. |
| PyStr.Split | app.py:115 | `str.split(sep)` with a non-empty separator: the pieces between the occurrences, at least one. `JoinSplit` and `SplitPiecesClean` state its properties. |
| PyStr.ReplaceIsJoinOfSplit | app.py:115 | `replace` agrees with the independent definition `r.join(s.split(t))`. |
| PyStr.ReplaceAbsent | app.py:115 | A string without the target is left unchanged. |
| PyStr.ReplaceKeepsLength | app.py:115 | Replacing with a string of the same length keeps the length. |
| PyStr.ReplaceOpening | app.py:119 | A leading target is rewritten, then the rest is processed. |
| PyStr.ReplaceAfterClean | app.py:119 | Text free of the target's first character is kept up to the occurrence, which is rewritten. |
| PyStr.ReplaceLeading | app.py:119 | A leading target with no later occurrence gives the replacement followed by the rest. |
| PyStr.ReplaceTwoOccurrences | app.py:119 | Both of two occurrences are rewritten, not only the first. |
| PyStr.SplitPiecesClean | app.py:115 | No piece of the split that `replace` is checked against contains the separator. |
| PyStr.JoinSplit | app.py:115 | `sep.join(s.split(sep)) == s`: the split that `replace` is checked against loses nothing. |
| PyStr.Join | app.py:20 | `sep.join(parts)`: the parts with one separator between each two. `JoinLength`, `JoinAppend` and `SplitJoin` state its properties. |
| PyStr.SplitJoin | app.py:20 | With a one-character separator that no part contains, `split` gives back the joined parts. |
| PyStr.JoinLength | app.py:20 | A join holds every part plus one separator between each two. |
| PyStr.JoinAppend | app.py:33 | Appending a part adds the separator and the part at the end. |
| PyStr.EndsWith | app.py:17-25 | `s.endswith(suffix)`, case-sensitive: the last characters of `s` are the suffix. `Extraction.FormatOf` and `Extraction.SuffixesExclusive` use it. |
| PyStr.IsSpace | app.py:119 | CPython's whitespace table for `str.isspace`, which `strip()` trims. |
| PyStr.TrimStart | app.py:119 | The result is a suffix, what was removed is all whitespace, and the result does not start with whitespace. |
| PyStr.TrimEnd | app.py:119 | The result is a prefix, what was removed is all whitespace, and the result does not end with whitespace. |
| PyStr.Strip | app.py:119 | The result neither starts nor ends with whitespace. |
| PyStr.StripWindow | app.py:119 | `strip()` keeps one contiguous window, with only whitespace outside it. |
| PyStr.StripEmptyIffAllSpace | app.py:122 | `strip()` gives `""` if and only if the input is all whitespace. |
| PyStr.StripStripped | app.py:119 | A string with no whitespace at either end is its own strip. |
| PyStr.StripPadded | app.py:119 | Such a string surrounded by whitespace strips back to itself. |
| PyStr.StripIdempotent | app.py:119 | `strip()` is idempotent. |
| PyStr.StripKeepsAbsence | app.py:127 | Stripping cannot introduce an occurrence. |

## Left out

- The Gradio user interface (app.py:177-216) is not modelled: widget layout, tabs, and the wiring of buttons to the two actions.
- The OpenAI client is replaced by the `complete` parameter. The model, key and message framing are not modelled. Neither is a request failure or a reply whose content is `None`: the service is taken to always answer with a string.
- The document libraries (pypdf, python-docx, python-pptx) are not modelled. An upload carries what each would yield, or `Malformed` when it would raise.
- Reading and UTF-8 decoding with `errors="ignore"` are folded into `Upload.plain`: the decoded text, or `None` when reading raises. Upload paths given as plain strings, which have no `name` and no `read`, are an upload with no name and `plain == None`.
- `files` being `None` is folded into the empty sequence, since both take the no-files branch.
- PyStr.Replace: requires a non-empty target. Python's `replace` with an empty target inserts between characters, but the application only replaces non-empty constants.
- PyStr.Split: requires a non-empty separator, which Python enforces by raising. `Split` serves only as the reference definition for `replace` and for the newline joins.
- PyStr.SplitOnce: requires a non-empty separator, which Python enforces by raising. The application cuts only at the non-empty heading tokens.
- PyStr.SplitJoin: stated only for one-character separators. The newline that both joins of `extract_text` use is one.

## Behaviour of app.py the model keeps

These follow from the code and are easy to miss when reading it:

- The suffix test is case-sensitive (`UpperCaseSuffixIsPlain`).
- A PDF, DOCX or PPTX library failure ends `generate_all` with that failure. It is not turned into an empty text (`ExtractedFailsOnlyInParsers`, `FailureSticks`).
- The textbook token is removed wherever it occurs before FLASHCARDS, not only at the start (`TextbookHeadingsAllRemoved`).
- On the degrade path the token is not removed at all (`SegmentDegrade`).
- The colon that follows the token stays in the textbook (`SegmentWorkedExample`).
