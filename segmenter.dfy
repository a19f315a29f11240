/**
  The response segmenter: the model's single free-text reply is cut into the
  four sections of a study pack by first-occurrence splits on the heading
  tokens, with a defined fallback when a heading is missing.
*/
module Segmenter {
  import opened PyStr
  import opened Prompts

  /** The four fields returned to the caller, in the order the UI shows them. */
  datatype StudyPack = StudyPack(textbook: string, flashcards: string, questionBank: string, exam: string)

  /** The three title-case spellings that are rewritten to the heading tokens. */
  const FlashcardsTitle := "Flashcards"
  const QuestionBankTitle := "Question Bank"
  const ExamTitle := "Exam Template"

  /**
    Canonicalise the three title-case headings, in this order, each
    everywhere. Each title is rewritten to a token of the same length, so
    the length is kept.
  */
  function Normalize(output: string): (normalized: string)
    ensures |normalized| == |output|
  {
    var once := Replace(output, FlashcardsTitle, FlashcardsHeading);
    var twice := Replace(once, QuestionBankTitle, QuestionBankHeading);
    ReplaceKeepsLength(output, FlashcardsTitle, FlashcardsHeading);
    ReplaceKeepsLength(once, QuestionBankTitle, QuestionBankHeading);
    ReplaceKeepsLength(twice, ExamTitle, ExamHeading);
    Replace(twice, ExamTitle, ExamHeading)
  }

  /**
    Split the reply: canonicalise, cut at the first FLASHCARDS (dropping every
    textbook heading token before it), then at the first QUESTION BANK after
    that, then at the first EXAM TEMPLATE after that; trim every field. A
    missing heading leaves the remainder in the current field and every later
    field empty.
  */
  function Segment(output: string): (pack: StudyPack)
    ensures Stripped(pack.textbook) && Stripped(pack.flashcards)
    ensures Stripped(pack.questionBank) && Stripped(pack.exam)
  {
    var normalized := Normalize(output);
    var (textbook, rest) :=
      if Contains(normalized, FlashcardsHeading) then
        var parts := SplitOnce(normalized, FlashcardsHeading);
        (Strip(Replace(parts[0], TextbookHeading, "")), parts[1])
      else
        (Strip(normalized), "");
    var (flashcards, rest2) :=
      if Contains(rest, QuestionBankHeading) then
        var parts2 := SplitOnce(rest, QuestionBankHeading);
        (Strip(parts2[0]), parts2[1])
      else
        (Strip(rest), "");
    var (questionBank, exam) :=
      if Contains(rest2, ExamHeading) then
        var parts3 := SplitOnce(rest2, ExamHeading);
        (Strip(parts3[0]), Strip(parts3[1]))
      else
        (Strip(rest2), "");
    StudyPack(textbook, flashcards, questionBank, exam)
  }

  // ---------------------------------------------------------------------
  // Normalisation

  /** None of the three title-case headings occurs in `s`. */
  predicate NoTitles(s: string) {
    !Contains(s, FlashcardsTitle) && !Contains(s, QuestionBankTitle) && !Contains(s, ExamTitle)
  }

  /** A reply with none of the three title-case headings passes through unchanged. */
  lemma NormalizeScope(output: string)
    requires NoTitles(output)
    ensures Normalize(output) == output
  {
    ReplaceAbsent(output, FlashcardsTitle, FlashcardsHeading);
    ReplaceAbsent(output, QuestionBankTitle, QuestionBankHeading);
    ReplaceAbsent(output, ExamTitle, ExamHeading);
  }

  /**
    None of `h`, `u`, `m`: one lower-case letter of each title-case heading
    ("Flashcards", "Question Bank", "Exam Template").
  */
  predicate NoTitleLetters(s: string) {
    'h' !in s && 'u' !in s && 'm' !in s
  }

  /** A reply without those letters has no title-case heading to rewrite. */
  lemma NormalizeWithoutTitleLetters(output: string)
    requires NoTitleLetters(output)
    ensures NoTitles(output) && Normalize(output) == output
  {
    MissingCharExcludes(output, FlashcardsTitle, 4);
    MissingCharExcludes(output, QuestionBankTitle, 1);
    MissingCharExcludes(output, ExamTitle, 3);
    NormalizeScope(output);
  }

  /** A reply that opens with "Exam Template", followed by text free of `F`, `Q` and `E`. */
  lemma NormalizeExamOpening(t: string)
    requires 'F' !in t && 'Q' !in t && 'E' !in t
    ensures Normalize(ExamTitle + t) == ExamHeading + t
  {
    var x := ExamTitle + t;
    MissingCharExcludes(x, FlashcardsTitle, 0);
    ReplaceAbsent(x, FlashcardsTitle, FlashcardsHeading);
    MissingCharExcludes(x, QuestionBankTitle, 0);
    ReplaceAbsent(x, QuestionBankTitle, QuestionBankHeading);
    MissingCharExcludes(t, ExamTitle, 0);
    ReplaceLeading(ExamTitle, t, ExamHeading);
  }

  /**
    Normalisation is not idempotent: in "Exam Templatexam Template" the
    rewrite of the first heading ends in "...TEMPLATE", whose final `E`
    completes a new "Exam Template" that a second pass would rewrite again.
  */
  lemma NormalizeNotIdempotent()
    ensures Contains(Normalize(ExamTitle + ExamTitle[1..]), ExamTitle)
  {
    ExamTitleTail();
    NormalizeExamOpening(ExamTitle[1..]);
    RewriteCompletesTitle();
  }

  /** Proof aid: a fact about the literal title, checked on its own. */
  lemma ExamTitleTail()
    ensures 'F' !in ExamTitle[1..] && 'Q' !in ExamTitle[1..] && 'E' !in ExamTitle[1..]
  {
    assert ExamTitle[1..] == "xam Template";
  }

  /** The final `E` of the upper-case token and the rest of the title form the title again. */
  lemma RewriteCompletesTitle()
    ensures Contains(ExamHeading + ExamTitle[1..], ExamTitle)
  {
    var t := ExamTitle[1..];
    var n := |ExamHeading| - 1;
    assert ExamHeading[n] == ExamTitle[0];
    assert ExamHeading + t == ExamHeading[..n] + ExamTitle + "";
    IsAtMiddle(ExamHeading[..n], ExamTitle, "");
    FindFirst(ExamHeading + t, ExamTitle, n);
  }

  // ---------------------------------------------------------------------
  // Segmentation, case by case

  /**
    Degrade path: without FLASHCARDS the whole normalised reply, trimmed,
    is the textbook (its heading token is not removed) and the rest is empty.
  */
  lemma SegmentDegrade(output: string)
    requires !Contains(Normalize(output), FlashcardsHeading)
    ensures Segment(output) == StudyPack(Strip(Normalize(output)), "", "", "")
  {
    assert Strip("") == "";
  }

  /** An empty reply gives four empty fields. */
  lemma SegmentEmpty()
    ensures Segment("") == StudyPack("", "", "", "")
  {
    assert Normalize("") == "";
    SegmentDegrade("");
  }

  /**
    FLASHCARDS present, QUESTION BANK absent after it: textbook is what
    precedes the first FLASHCARDS with every textbook heading token removed,
    flashcards is all that follows, and the two later fields are empty.
  */
  lemma SegmentNoQuestionBank(output: string, before: string, rest: string)
    requires FirstCut(Normalize(output), FlashcardsHeading, before, rest)
    requires !Contains(rest, QuestionBankHeading)
    ensures Segment(output)
         == StudyPack(Strip(Replace(before, TextbookHeading, "")), Strip(rest), "", "")
  {
    SplitOnceCut(Normalize(output), FlashcardsHeading, before, rest);
    assert Strip("") == "";
  }

  /** FLASHCARDS and then QUESTION BANK present, EXAM TEMPLATE absent after them. */
  lemma SegmentNoExam(output: string, before: string, rest: string, cards: string, rest2: string)
    requires FirstCut(Normalize(output), FlashcardsHeading, before, rest)
    requires FirstCut(rest, QuestionBankHeading, cards, rest2)
    requires !Contains(rest2, ExamHeading)
    ensures Segment(output)
         == StudyPack(Strip(Replace(before, TextbookHeading, "")), Strip(cards), Strip(rest2), "")
  {
    SplitOnceCut(Normalize(output), FlashcardsHeading, before, rest);
    SplitOnceCut(rest, QuestionBankHeading, cards, rest2);
  }

  /**
    All three headings present in order, each cut at its first occurrence in
    what remains: the four fields are the four trimmed pieces between them.
  */
  lemma SegmentAllHeadings(output: string, before: string, rest: string, cards: string,
                           rest2: string, bank: string, exam: string)
    requires FirstCut(Normalize(output), FlashcardsHeading, before, rest)
    requires FirstCut(rest, QuestionBankHeading, cards, rest2)
    requires FirstCut(rest2, ExamHeading, bank, exam)
    ensures Segment(output)
         == StudyPack(Strip(Replace(before, TextbookHeading, "")), Strip(cards), Strip(bank), Strip(exam))
  {
    SplitOnceCut(Normalize(output), FlashcardsHeading, before, rest);
    SplitOnceCut(rest, QuestionBankHeading, cards, rest2);
    SplitOnceCut(rest2, ExamHeading, bank, exam);
  }

  /**
    Every textbook heading token before FLASHCARDS is dropped, not only a
    leading one: two tokens around an introduction that holds no `P` both
    go, and the text between and after them is kept.
  */
  lemma TextbookHeadingsAllRemoved(x: string, y: string)
    requires 'P' !in x && 'P' !in y
    ensures Replace(TextbookHeading + x + TextbookHeading + y, TextbookHeading, "") == x + y
  {
    assert TextbookHeading[0] == 'P';
    ReplaceTwoOccurrences(TextbookHeading, x, y, "");
    assert "" + x + "" + y == x + y;
  }

  // ---------------------------------------------------------------------
  // Consequences

  /**
    A non-empty exam means the normalised reply has FLASHCARDS, then
    QUESTION BANK after it, then EXAM TEMPLATE after that.
  */
  lemma ExamNeedsAllHeadings(output: string) returns (i: nat, j: nat, k: nat)
    requires Segment(output).exam != ""
    ensures IsAt(Normalize(output), i, FlashcardsHeading)
    ensures IsAt(Normalize(output), j, QuestionBankHeading)
    ensures IsAt(Normalize(output), k, ExamHeading)
    ensures i + |FlashcardsHeading| <= j && j + |QuestionBankHeading| <= k
  {
    var normalized := Normalize(output);
    assert Contains(normalized, FlashcardsHeading);
    var before, rest := CutExists(normalized, FlashcardsHeading);
    SplitOnceCut(normalized, FlashcardsHeading, before, rest);
    assert Contains(rest, QuestionBankHeading);
    var cards, rest2 := CutExists(rest, QuestionBankHeading);
    SplitOnceCut(rest, QuestionBankHeading, cards, rest2);
    assert Contains(rest2, ExamHeading);
    var bank, exam := CutExists(rest2, ExamHeading);
    i, j, k := HeadingPositions(before, cards, bank, exam);
  }

  /** Where the three headings sit in `before + FC + cards + QB + bank + ET + exam`. */
  lemma HeadingPositions(before: string, cards: string, bank: string, exam: string)
    returns (i: nat, j: nat, k: nat)
    ensures var s := before + FlashcardsHeading + (cards + QuestionBankHeading + (bank + ExamHeading + exam));
            IsAt(s, i, FlashcardsHeading) && IsAt(s, j, QuestionBankHeading) && IsAt(s, k, ExamHeading)
    ensures i + |FlashcardsHeading| <= j && j + |QuestionBankHeading| <= k
  {
    var rest2 := bank + ExamHeading + exam;
    var rest := cards + QuestionBankHeading + rest2;
    i := |before|;
    j := i + |FlashcardsHeading| + |cards|;
    k := j + |QuestionBankHeading| + |bank|;
    IsAtMiddle(before, FlashcardsHeading, rest);
    IsAtMiddle(cards, QuestionBankHeading, rest2);
    IsAtShift(before + FlashcardsHeading, rest, |cards|, QuestionBankHeading);
    IsAtMiddle(bank, ExamHeading, exam);
    IsAtShift(cards + QuestionBankHeading, rest2, |bank|, ExamHeading);
    IsAtShift(before + FlashcardsHeading, rest, |cards| + |QuestionBankHeading| + |bank|, ExamHeading);
  }

  /**
    The splits are first-occurrence splits: flashcards never contains
    QUESTION BANK and the question bank never contains EXAM TEMPLATE.
  */
  lemma HeadingsNotInFields(output: string)
    ensures !Contains(Segment(output).flashcards, QuestionBankHeading)
    ensures !Contains(Segment(output).questionBank, ExamHeading)
  {
    var normalized := Normalize(output);
    var rest := if Contains(normalized, FlashcardsHeading) then SplitOnce(normalized, FlashcardsHeading)[1] else "";
    var rest2 := "";
    if Contains(rest, QuestionBankHeading) {
      var parts2 := SplitOnce(rest, QuestionBankHeading);
      NoOccurrenceBeforeFirst(rest, QuestionBankHeading, |parts2[0]|);
      StripKeepsAbsence(parts2[0], QuestionBankHeading);
      rest2 := parts2[1];
    } else {
      StripKeepsAbsence(rest, QuestionBankHeading);
    }
    if Contains(rest2, ExamHeading) {
      var parts3 := SplitOnce(rest2, ExamHeading);
      NoOccurrenceBeforeFirst(rest2, ExamHeading, |parts3[0]|);
      StripKeepsAbsence(parts3[0], ExamHeading);
    } else {
      StripKeepsAbsence(rest2, ExamHeading);
    }
  }

  // ---------------------------------------------------------------------
  // The requested layout, and worked examples

  predicate NoLowerCase(s: string) {
    forall i :: 0 <= i < |s| ==> !('a' <= s[i] <= 'z')
  }

  lemma HeadingTokensUpperCase()
    ensures NoTitleLetters(TextbookHeading) && NoTitleLetters(FlashcardsHeading)
    ensures NoTitleLetters(QuestionBankHeading) && NoTitleLetters(ExamHeading)
  {
    TextbookHeadingUpperCase();
    assert NoLowerCase(FlashcardsHeading);
    assert NoLowerCase(QuestionBankHeading);
    assert NoLowerCase(ExamHeading);
  }

  lemma TextbookHeadingUpperCase()
    ensures NoLowerCase(TextbookHeading)
  {
  }

  /**
    A reply in the layout the generation request asks for: the textbook
    heading, the introduction, then each upper-case heading followed by its
    section.
  */
  function Layout(intro: string, cards: string, bank: string, exam: string): string {
    TextbookHeading + intro + FlashcardsHeading + (cards + QuestionBankHeading + (bank + ExamHeading + exam))
  }

  /**
    The normalisation and the three cuts of a reply in the layout: when no
    title-case heading occurs in it and no heading token occurs before its
    own place, normalisation changes nothing and each cut falls at its own
    heading.
  */
  lemma LayoutCuts(intro: string, cards: string, bank: string, exam: string)
    requires NoTitles(Layout(intro, cards, bank, exam))
    requires NotBefore(TextbookHeading + intro, FlashcardsHeading)
    requires NotBefore(cards, QuestionBankHeading) && NotBefore(bank, ExamHeading)
    ensures var rest2 := bank + ExamHeading + exam;
            var rest := cards + QuestionBankHeading + rest2;
            var reply := Layout(intro, cards, bank, exam);
            && Normalize(reply) == reply
            && FirstCut(reply, FlashcardsHeading, TextbookHeading + intro, rest)
            && FirstCut(rest, QuestionBankHeading, cards, rest2)
            && FirstCut(rest2, ExamHeading, bank, exam)
  {
    var rest2 := bank + ExamHeading + exam;
    var rest := cards + QuestionBankHeading + rest2;
    NormalizeScope(Layout(intro, cards, bank, exam));
    FirstCutAfter(TextbookHeading + intro, FlashcardsHeading, rest);
    FirstCutAfter(cards, QuestionBankHeading, rest2);
    FirstCutAfter(bank, ExamHeading, exam);
  }

  /**
    A reply in the layout splits back into its four sections, trimmed, with
    every textbook heading token removed from the introduction. The cases
    where a heading is missing or occurs early are `SegmentDegrade`,
    `SegmentNoQuestionBank`, `SegmentNoExam` and `SegmentAllHeadings`.
  */
  lemma SegmentLayout(intro: string, cards: string, bank: string, exam: string)
    requires NoTitles(Layout(intro, cards, bank, exam))
    requires NotBefore(TextbookHeading + intro, FlashcardsHeading)
    requires NotBefore(cards, QuestionBankHeading) && NotBefore(bank, ExamHeading)
    ensures Segment(Layout(intro, cards, bank, exam))
         == StudyPack(Strip(Replace(intro, TextbookHeading, "")), Strip(cards), Strip(bank), Strip(exam))
  {
    var rest2 := bank + ExamHeading + exam;
    var rest := cards + QuestionBankHeading + rest2;
    LayoutCuts(intro, cards, bank, exam);
    ReplaceOpening(TextbookHeading, intro, "");
    assert "" + Replace(intro, TextbookHeading, "") == Replace(intro, TextbookHeading, "");
    SegmentAllHeadings(Layout(intro, cards, bank, exam), TextbookHeading + intro, rest, cards, rest2, bank, exam);
  }

  /**
    Letter conditions that give the first requirement of `SegmentLayout`:
    sections without `h`, `u` and `m` hold no title-case heading, and the
    upper-case tokens add none.
  */
  lemma LayoutWithoutTitles(intro: string, cards: string, bank: string, exam: string)
    requires NoTitleLetters(intro) && NoTitleLetters(cards) && NoTitleLetters(bank) && NoTitleLetters(exam)
    ensures NoTitles(Layout(intro, cards, bank, exam))
  {
    HeadingTokensUpperCase();
    var rest2 := bank + ExamHeading + exam;
    NoTitleLettersConcat(bank, ExamHeading, exam);
    var rest := cards + QuestionBankHeading + rest2;
    NoTitleLettersConcat(cards, QuestionBankHeading, rest2);
    NoTitleLettersConcat(TextbookHeading, intro, "");
    assert TextbookHeading + intro + "" == TextbookHeading + intro;
    NoTitleLettersConcat(TextbookHeading + intro, FlashcardsHeading, rest);
    NormalizeWithoutTitleLetters(Layout(intro, cards, bank, exam));
  }

  /**
    Letter conditions that give the cut requirements of `SegmentLayout`: no
    `F` in the introduction, no `U` in the flashcards, no `E` in the
    question bank.
  */
  lemma LayoutHeadingsFirst(intro: string, cards: string, bank: string)
    requires 'F' !in intro && 'U' !in cards && 'E' !in bank
    ensures NotBefore(TextbookHeading + intro, FlashcardsHeading)
    ensures NotBefore(cards, QuestionBankHeading) && NotBefore(bank, ExamHeading)
  {
    HeadingLetters();
    TailCutByChar(TextbookHeading + intro, FlashcardsHeading, 0);
    TailCutByChar(cards, QuestionBankHeading, 1);
    TailCutByChar(bank, ExamHeading, 0);
  }

  // Proof aids: facts about the literal heading tokens, and one step about
  // letters in a concatenation, each kept in a lemma of its own so that it
  // is checked apart from the reasoning that uses it.

  lemma HeadingLetters()
    ensures FlashcardsHeading[0] == 'F' && 'F' !in TextbookHeading
    ensures QuestionBankHeading[1] == 'U' && QuestionBankHeading[..1] == "Q"
    ensures ExamHeading[0] == 'E'
  {
    assert QuestionBankHeading[..1] == ['Q'];
  }

  lemma NoTitleLettersConcat(a: string, b: string, c: string)
    requires NoTitleLetters(a) && NoTitleLetters(b) && NoTitleLetters(c)
    ensures NoTitleLetters(a + b + c)
  {
  }

  /** A reply with no heading at all, padded with whitespace, is the textbook alone. */
  lemma SegmentPlain(ws1: string, text: string, ws2: string)
    requires AllSpace(ws1) && AllSpace(ws2) && Stripped(text)
    requires NoTitles(ws1 + text + ws2) && !Contains(ws1 + text + ws2, FlashcardsHeading)
    ensures Segment(ws1 + text + ws2) == StudyPack(text, "", "", "")
  {
    var reply := ws1 + text + ws2;
    NormalizeScope(reply);
    SegmentDegrade(reply);
    StripPadded(ws1, text, ws2);
  }

  /**
    The layout on a small reply: each section is padded by the newlines
    around the headings, which stripping removes; the colon after the
    textbook token stays.
  */
  lemma SegmentWorkedExample()
    ensures Segment(TextbookHeading + (":\nHello" + "\n") + FlashcardsHeading
                    + (("\n" + "Q: x\nA: y" + "\n") + QuestionBankHeading
                       + (("\n" + "MCQ1" + "\n") + ExamHeading + ("\n" + "Final"))))
         == StudyPack(":\nHello", "Q: x\nA: y", "MCQ1", "Final")
  {
    var intro, cards, bank, exam := ":\nHello" + "\n", "\n" + "Q: x\nA: y" + "\n", "\n" + "MCQ1" + "\n", "\n" + "Final";
    WorkedExampleSections();
    LayoutWithoutTitles(intro, cards, bank, exam);
    LayoutHeadingsFirst(intro, cards, bank);
    SegmentLayout(intro, cards, bank, exam);
    ReplaceAbsent(intro, TextbookHeading, "");
    StripIntro();
    StripCards();
    StripBank();
    StripExam();
  }

  // Proof aids for the worked examples: facts about their literal strings,
  // each checked on its own.

  lemma WorkedExampleSections()
    ensures var intro, cards, bank, exam := ":\nHello" + "\n", "\n" + "Q: x\nA: y" + "\n", "\n" + "MCQ1" + "\n", "\n" + "Final";
            && NoTitleLetters(intro) && NoTitleLetters(cards) && NoTitleLetters(bank) && NoTitleLetters(exam)
            && 'F' !in intro && 'U' !in cards && 'E' !in bank
            && !Contains(intro, TextbookHeading)
  {
    IntroLetters();
    CardsLetters();
    BankLetters();
    ExamLetters();
  }

  lemma IntroLetters()
    ensures NoTitleLetters(":\nHello" + "\n") && 'F' !in ":\nHello" + "\n"
    ensures !Contains(":\nHello" + "\n", TextbookHeading)
  {
    MissingCharExcludes(":\nHello" + "\n", TextbookHeading, 0);
  }

  lemma CardsLetters()
    ensures NoTitleLetters("\n" + "Q: x\nA: y" + "\n") && 'U' !in "\n" + "Q: x\nA: y" + "\n"
  {
  }

  lemma BankLetters()
    ensures NoTitleLetters("\n" + "MCQ1" + "\n") && 'E' !in "\n" + "MCQ1" + "\n"
  {
  }

  lemma ExamLetters()
    ensures NoTitleLetters("\n" + "Final")
  {
  }

  lemma StripIntro() ensures Strip(":\nHello" + "\n") == ":\nHello"
  {
    StripPadded("", ":\nHello", "\n");
    assert "" + ":\nHello" + "\n" == ":\nHello" + "\n";
  }

  lemma StripCards() ensures Strip("\n" + "Q: x\nA: y" + "\n") == "Q: x\nA: y"
  {
    StripPadded("\n", "Q: x\nA: y", "\n");
  }

  lemma StripBank() ensures Strip("\n" + "MCQ1" + "\n") == "MCQ1"
  {
    StripPadded("\n", "MCQ1", "\n");
  }

  lemma StripExam() ensures Strip("\n" + "Final") == "Final"
  {
    StripPadded("\n", "Final", "");
    assert "\n" + "Final" + "" == "\n" + "Final";
  }

  /** A reply without `F`, `Q` or `E` holds no heading in either spelling. */
  lemma UnmarkedHasNoHeadings(s: string)
    requires 'F' !in s && 'Q' !in s && 'E' !in s
    ensures NoTitles(s) && !Contains(s, FlashcardsHeading)
  {
    MissingCharExcludes(s, FlashcardsTitle, 0);
    MissingCharExcludes(s, QuestionBankTitle, 0);
    MissingCharExcludes(s, ExamTitle, 0);
    MissingCharExcludes(s, FlashcardsHeading, 0);
  }

  /** So the whole reply, trimmed, is the textbook. */
  lemma SegmentUnmarked(s: string)
    requires 'F' !in s && 'Q' !in s && 'E' !in s
    ensures Segment(s) == StudyPack(Strip(s), "", "", "")
  {
    UnmarkedHasNoHeadings(s);
    NormalizeScope(s);
    SegmentDegrade(s);
  }

  /** Text with no heading at all, and nothing to trim, is the textbook as it stands. */
  lemma SegmentUnmarkedText()
    ensures Segment("just some text") == StudyPack("just some text", "", "", "")
  {
    UnmarkedLetters();
    SegmentUnmarked("just some text");
    StripStripped("just some text");
  }

  /** Proof aid: facts about the literal reply. */
  lemma UnmarkedLetters()
    ensures 'F' !in "just some text" && 'Q' !in "just some text" && 'E' !in "just some text"
    ensures Stripped("just some text")
  {
  }

  /** A reply without any heading, padded with whitespace, is kept whole, trimmed, as the textbook. */
  lemma SegmentNoHeadingsExample()
    ensures Segment(" " + "plain notes" + "\n") == StudyPack("plain notes", "", "", "")
  {
    PlainNotesLetters();
    UnmarkedHasNoHeadings(" " + "plain notes" + "\n");
    SegmentPlain(" ", "plain notes", "\n");
  }

  /** Proof aid: facts about the literal reply. */
  lemma PlainNotesLetters()
    ensures var s := " " + "plain notes" + "\n"; 'F' !in s && 'Q' !in s && 'E' !in s
    ensures Stripped("plain notes") && AllSpace(" ") && AllSpace("\n")
  {
  }
}
