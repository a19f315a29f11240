/**
  The two actions of the application: generating a study pack from the
  uploads (`generate_all`) and getting feedback on exam answers
  (`grade_exam`).

  The completion service is the parameter `complete`, from a request to
  its reply. Each action also returns the requests it sent, so that "the
  service is not called" is the statement that this list is empty.
*/
module App {
  import opened Wrappers
  import opened PyStr
  import opened Prompts
  import opened Segmenter
  import opened Extraction
  import opened Corpus

  const NoFilesMessage := "Please upload at least one syllabus / slide / PDF to generate a study pack."
  const NoAnswersMessage := "Please paste your exam answers before submitting."

  /**
    `generate_all`: with no uploads, a message in the textbook field and
    nothing sent; when an upload cannot be extracted, that failure and
    nothing sent; otherwise exactly one generation request, whose reply is
    segmented into the four fields.
  */
  method GenerateAll(files: seq<Upload>, subjectName: string, examInstructions: string,
                     complete: string -> string)
    returns (r: Result<StudyPack, ExtractError>, requests: seq<string>)
    ensures files == [] ==> r == Success(StudyPack(NoFilesMessage, "", "", "")) && requests == []
    ensures files != [] && CorpusOf(files).Failure? ==> r == Failure(CorpusOf(files).error) && requests == []
    ensures files != [] && CorpusOf(files).Success? ==>
              && requests == [GenerationPrompt(SubjectOrDefault(subjectName), CorpusOf(files).value, examInstructions)]
              && r == Success(Segment(complete(requests[0])))
  {
    var subject := SubjectOrDefault(subjectName);
    if files == [] {
      return Success(StudyPack(NoFilesMessage, "", "", "")), [];
    }
    var corpus := BuildCorpus(files);
    if corpus.Failure? {
      return Failure(corpus.error), [];
    }
    var prompt := GenerationPrompt(subject, corpus.value, examInstructions);
    var reply := complete(prompt);
    return Success(Segment(reply)), [prompt];
  }

  /** `grade_exam`: the feedback shown, and the requests sent for it. */
  datatype Graded = Graded(feedback: string, requests: seq<string>)

  /**
    Empty answers get a fixed message and send nothing; otherwise one
    grading request is sent and its reply is the feedback.
  */
  function GradeExam(userAnswers: string, examText: string, complete: string -> string): (g: Graded)
    ensures g.requests == [] <==> userAnswers == ""
    ensures userAnswers == "" ==> g.feedback == NoAnswersMessage
    ensures userAnswers != "" ==> |g.requests| == 1 && g.feedback == complete(g.requests[0])
  {
    if userAnswers == "" then Graded(NoAnswersMessage, [])
    else
      var prompt := GradingPrompt(examText, userAnswers);
      Graded(complete(prompt), [prompt])
  }

  /**
    The one grading request carries the exam text and then the answers,
    each verbatim, so the service grades exactly what the learner submitted.
  */
  lemma GradingRequestCarriesAnswers(userAnswers: string, examText: string, complete: string -> string)
    requires userAnswers != ""
    ensures var p := GradeExam(userAnswers, examText, complete).requests[0];
            && IsAt(p, |FeedbackText.lead|, examText)
            && IsAt(p, |FeedbackText.lead| + |examText| + |FeedbackText.afterExam|, userAnswers)
  {
    GradingPromptEmbeds(FeedbackText, examText, userAnswers);
  }

  /**
    The one generation request carries the subject (the default when none
    is given), then the corpus, then the exam instructions, each verbatim.
  */
  lemma GenerationRequestCarriesInputs(subjectName: string, corpus: string, examInstructions: string)
    ensures var subject := SubjectOrDefault(subjectName);
            var p := GenerationPrompt(subject, corpus, examInstructions);
            var c := |StudyPackText.lead| + |subject| + |StudyPackText.afterSubject|;
            && IsAt(p, |StudyPackText.lead|, subject)
            && IsAt(p, c, corpus)
            && IsAt(p, c + |corpus| + |Sections(StudyPackText)|, examInstructions)
  {
    GenerationPromptEmbeds(StudyPackText, SubjectOrDefault(subjectName), corpus, examInstructions);
  }

  /**
    After the corpus, the generation request names the four headings the
    reply is split on, in the order of the split.
  */
  lemma GenerationRequestHeadings(subjectName: string, corpus: string, examInstructions: string)
    returns (i: nat, f: nat, q: nat, e: nat)
    ensures var subject := SubjectOrDefault(subjectName);
            && HeadingsInOrder(GenerationPrompt(subject, corpus, examInstructions), i, f, q, e)
            && |StudyPackText.lead| + |subject| + |StudyPackText.afterSubject| + |corpus| <= i
  {
    i, f, q, e := GenerationPromptHeadings(StudyPackText, SubjectOrDefault(subjectName), corpus, examInstructions);
  }
}
