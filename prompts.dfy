/**
  The two requests the application sends to the completion service, and the
  four heading tokens that the generation request asks for and that the
  segmenter later splits the reply on. Keeping the tokens here, in one
  place, is what ties the request to the parser.
*/
module Prompts {
  import opened PyStr

  const TextbookHeading := "PRAACHI-GUIDE TEXTBOOK"
  const FlashcardsHeading := "FLASHCARDS"
  const QuestionBankHeading := "QUESTION BANK"
  const ExamHeading := "EXAM TEMPLATE"

  /** The subject used when the caller leaves the subject name empty. */
  const DefaultSubject := "My Course"

  /** An empty subject name is replaced by the default; any other is kept. */
  function SubjectOrDefault(subjectName: string): (subject: string)
    ensures subject != ""
    ensures subjectName == "" ==> subject == DefaultSubject
    ensures subjectName != "" ==> subject == subjectName
  {
    if subjectName == "" then DefaultSubject else subjectName
  }

  /**
    The fixed wording of the generation request, in the pieces that
    surround the values it embeds and the four heading tokens.
  */
  datatype GenerationText = GenerationText(
    lead: string, afterSubject: string, opening: string, textbookBrief: string,
    flashcardsBrief: string, questionBankBrief: string, examBrief: string, closing: string)

  /** The wording the application uses. */
  const StudyPackText := GenerationText(
    "\nYou are an AI tutor creating a full study system for the subject: ",
    ".\n\nHere is the course material (syllabi, slides, notes, etc.):\n",
    "\n\nPlease generate ALL of the following in one message, separated clearly with headings:\n\n1. ",
    ":\n- Written in Praachi\U{2019}s casual academic voice:\n  - clear, simple explanations\n  - conversational but not sloppy\n  - uses intuition and examples\n  - points out common mistakes\n- Organized into sections/chapters\n- Include short knowledge checks every few paragraphs.\n\n2. ",
    ":\nProvide 15\U{2013}25 flashcards in this exact format:\nQ: <front of card>\nA: <back of card>\n\n3. ",
    ":\nProvide 10 multiple-choice questions + 10 short-answer questions.\nFor each MCQ, include:\n- The correct answer\n- Why each wrong option is wrong\n- A short reference label like [See: Topic X in Textbook]\n\n4. ",
    ":\nGenerate an exam using these optional instructions:\n\"\"\"",
    "\"\"\"\n\nInclude:\n- 10 multiple-choice questions\n- 5 short-answer questions\n- 1 longer applied / case-style question.\n")

  /** The numbered list of sections asked for, each opened by its heading token. */
  function Sections(t: GenerationText): string {
    t.opening + TextbookHeading + t.textbookBrief + FlashcardsHeading + t.flashcardsBrief
    + QuestionBankHeading + t.questionBankBrief + ExamHeading + t.examBrief
  }

  /** The generation request: subject, corpus and exam instructions embedded verbatim. */
  function GenerationPromptIn(t: GenerationText, subject: string, corpus: string, examInstructions: string): string {
    t.lead + subject + t.afterSubject + corpus + Sections(t) + examInstructions + t.closing
  }

  /** The generation request in the application's wording. */
  function GenerationPrompt(subject: string, corpus: string, examInstructions: string): string {
    GenerationPromptIn(StudyPackText, subject, corpus, examInstructions)
  }

  /**
    The generation request carries the subject, then the corpus, then the
    exam instructions, each verbatim and each where the fixed text puts it.
  */
  lemma GenerationPromptEmbeds(t: GenerationText, subject: string, corpus: string, examInstructions: string)
    ensures var p := GenerationPromptIn(t, subject, corpus, examInstructions);
            var c := |t.lead| + |subject| + |t.afterSubject|;
            && IsAt(p, |t.lead|, subject)
            && IsAt(p, c, corpus)
            && IsAt(p, c + |corpus| + |Sections(t)|, examInstructions)
            && |p| == c + |corpus| + |Sections(t)| + |examInstructions| + |t.closing|
  {
    ThreeSlots(t.lead, subject, t.afterSubject, corpus, Sections(t), examInstructions, t.closing);
  }

  /** Where three values sit in `a + x + b + y + c + z + d`. */
  lemma ThreeSlots(a: string, x: string, b: string, y: string, c: string, z: string, d: string)
    ensures IsAt(a + x + b + y + c + z + d, |a|, x)
    ensures IsAt(a + x + b + y + c + z + d, |a| + |x| + |b|, y)
    ensures IsAt(a + x + b + y + c + z + d, |a| + |x| + |b| + |y| + |c|, z)
  {
    var s1 := a + x;
    var s3 := s1 + b + y;
    var s5 := s3 + c + z;
    IsAtEnd(a, x);
    IsAtEnd(s1 + b, y);
    IsAtEnd(s3 + c, z);
    IsAtPrefix2(s1, b, y, |a|, x);
    IsAtPrefix2(s3, c, z, |a|, x);
    IsAtPrefix2(s3, c, z, |s1 + b|, y);
    IsAtPrefix(s5, d, |a|, x);
    IsAtPrefix(s5, d, |s1 + b|, y);
    IsAtPrefix(s5, d, |s3 + c|, z);
  }

  /**
    The four heading tokens sit in `p` at `i`, `f`, `q` and `e`, in the
    order the segmenter splits on them and without overlapping.
  */
  predicate HeadingsInOrder(p: string, i: nat, f: nat, q: nat, e: nat) {
    && IsAt(p, i, TextbookHeading) && IsAt(p, f, FlashcardsHeading)
    && IsAt(p, q, QuestionBankHeading) && IsAt(p, e, ExamHeading)
    && i + |TextbookHeading| <= f && f + |FlashcardsHeading| <= q && q + |QuestionBankHeading| <= e
  }

  /**
    The request names the four heading tokens in the order the segmenter
    splits on them, all of them between the corpus and the exam
    instructions.
  */
  lemma GenerationPromptHeadings(t: GenerationText, subject: string, corpus: string, examInstructions: string)
    returns (i: nat, f: nat, q: nat, e: nat)
    ensures var c := |t.lead| + |subject| + |t.afterSubject| + |corpus|;
            && HeadingsInOrder(GenerationPromptIn(t, subject, corpus, examInstructions), i, f, q, e)
            && c <= i && e + |ExamHeading| <= c + |Sections(t)|
  {
    var i0, f0, q0, e0 := SectionsHeadings(t);
    var head := t.lead + subject + t.afterSubject + corpus;
    i, f, q, e := |head| + i0, |head| + f0, |head| + q0, |head| + e0;
    HeadingsCarried(head, Sections(t), examInstructions, t.closing, i0, f0, q0, e0);
  }

  /** Headings in order in `s` stay in order in `head + s + u + v`, shifted by `|head|`. */
  lemma HeadingsCarried(head: string, s: string, u: string, v: string, i: nat, f: nat, q: nat, e: nat)
    requires HeadingsInOrder(s, i, f, q, e)
    ensures HeadingsInOrder(head + s + u + v, |head| + i, |head| + f, |head| + q, |head| + e)
  {
    Carried(head, s, u, v, i, TextbookHeading);
    Carried(head, s, u, v, f, FlashcardsHeading);
    Carried(head, s, u, v, q, QuestionBankHeading);
    Carried(head, s, u, v, e, ExamHeading);
  }

  /** An occurrence in `s` is one in `head + s + u + v`, shifted by `|head|`. */
  lemma Carried(head: string, s: string, u: string, v: string, k: nat, p: string)
    requires IsAt(s, k, p)
    ensures IsAt(head + s + u + v, |head| + k, p)
  {
    IsAtShift(head, s, k, p);
    IsAtPrefix2(head + s, u, v, |head| + k, p);
  }

  /** Where the four heading tokens sit in the section list. */
  lemma SectionsHeadings(t: GenerationText) returns (i: nat, f: nat, q: nat, e: nat)
    ensures HeadingsInOrder(Sections(t), i, f, q, e) && e + |ExamHeading| <= |Sections(t)|
  {
    i, f, q, e := FourSlots(t.opening, TextbookHeading, t.textbookBrief, FlashcardsHeading, t.flashcardsBrief,
                            QuestionBankHeading, t.questionBankBrief, ExamHeading, t.examBrief);
  }

  /** Where four values sit, in order, in `o + w + a + x + b + y + c + z + d`. */
  lemma FourSlots(o: string, w: string, a: string, x: string, b: string, y: string, c: string, z: string, d: string)
    returns (i: nat, j: nat, k: nat, l: nat)
    ensures var s := o + w + a + x + b + y + c + z + d;
            && IsAt(s, i, w) && IsAt(s, j, x) && IsAt(s, k, y) && IsAt(s, l, z)
            && i + |w| <= j && j + |x| <= k && k + |y| <= l && l + |z| <= |s|
  {
    var s1 := o + w;
    var s3 := s1 + a + x;
    var s5 := s3 + b + y;
    var s7 := s5 + c + z;
    i, j, k, l := |o|, |s1 + a|, |s3 + b|, |s5 + c|;
    IsAtEnd(o, w);
    IsAtEnd(s1 + a, x);
    IsAtEnd(s3 + b, y);
    IsAtEnd(s5 + c, z);
    IsAtPrefix2(s1, a, x, i, w);
    IsAtPrefix2(s3, b, y, i, w);
    IsAtPrefix2(s3, b, y, j, x);
    IsAtPrefix2(s5, c, z, i, w);
    IsAtPrefix2(s5, c, z, j, x);
    IsAtPrefix2(s5, c, z, k, y);
    IsAtPrefix(s7, d, i, w);
    IsAtPrefix(s7, d, j, x);
    IsAtPrefix(s7, d, k, y);
    IsAtPrefix(s7, d, l, z);
  }

  /** The fixed wording of the grading request. */
  datatype GradingText = GradingText(lead: string, afterExam: string, closing: string)

  /** The wording the application uses. */
  const FeedbackText := GradingText(
    "\nYou are grading the following exam.\n\nExam text:\n",
    "\n\nStudent answers:\n",
    "\n\nPlease give:\n1. A score out of 100.\n2. What they understood well.\n3. What they misunderstood.\n4. Specific topics and textbook sections they should review (refer to themes, not exact page numbers).\n")

  /** The grading request: exam text, then the learner's answers, both verbatim. */
  function GradingPromptIn(t: GradingText, examText: string, userAnswers: string): string {
    t.lead + examText + t.afterExam + userAnswers + t.closing
  }

  /** The grading request in the application's wording. */
  function GradingPrompt(examText: string, userAnswers: string): string {
    GradingPromptIn(FeedbackText, examText, userAnswers)
  }

  /** The grading request carries the exam text, then the answers, each verbatim. */
  lemma GradingPromptEmbeds(t: GradingText, examText: string, userAnswers: string)
    ensures var p := GradingPromptIn(t, examText, userAnswers);
            var a := |t.lead| + |examText| + |t.afterExam|;
            && IsAt(p, |t.lead|, examText)
            && IsAt(p, a, userAnswers)
            && |p| == a + |userAnswers| + |t.closing|
  {
    var p := GradingPromptIn(t, examText, userAnswers);
    assert p == t.lead + examText + (t.afterExam + userAnswers + t.closing);
    IsAtMiddle(t.lead, examText, t.afterExam + userAnswers + t.closing);
    IsAtMiddle(t.lead + examText + t.afterExam, userAnswers, t.closing);
  }
}
