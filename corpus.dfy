/**
  The corpus of the generation request: the extracted text of every
  upload, in upload order, each followed by a blank line. An extraction
  failure is not caught, so the first upload whose library fails ends the
  whole operation with that failure.
*/
module Corpus {
  import opened Wrappers
  import opened PyStr
  import opened Extraction

  /** Each text followed by `"\n\n"`, in order. */
  function Chunked(texts: seq<string>): string
    decreases |texts|
  {
    if texts == [] then ""
    else Chunked(texts[..|texts| - 1]) + texts[|texts| - 1] + "\n\n"
  }

  /** The corpus built from the uploads, or the first extraction failure. */
  function CorpusOf(files: seq<Upload>): Result<string, ExtractError>
    decreases |files|
  {
    if files == [] then Success("")
    else
      match CorpusOf(files[..|files| - 1])
      case Failure(e) => Failure(e)
      case Success(corpus) =>
        match Extracted(files[|files| - 1])
        case Failure(e) => Failure(e)
        case Success(text) => Success(corpus + text + "\n\n")
  }

  /** The texts of a run of uploads that all extract. */
  function TextsOf(files: seq<Upload>): (texts: seq<string>)
    requires AllExtract(files)
    ensures |texts| == |files|
    ensures forall i :: 0 <= i < |files| ==> Success(texts[i]) == Extracted(files[i])
  {
    seq(|files|, i requires 0 <= i < |files| => Extracted(files[i]).value)
  }

  /** The loop of `generate_all` that accumulates the corpus. */
  method BuildCorpus(files: seq<Upload>) returns (r: Result<string, ExtractError>)
    ensures r == CorpusOf(files)
  {
    var corpus := "";
    for i := 0 to |files|
      invariant CorpusOf(files[..i]) == Success(corpus)
    {
      var text := ExtractText(files[i]);
      assert files[..i + 1][..i] == files[..i];
      if text.Failure? {
        FailureSticks(files, i + 1);
        return Failure(text.error);
      }
      corpus := corpus + text.value + "\n\n";
    }
    assert files[..|files|] == files;
    return Success(corpus);
  }

  /** Once a prefix of the uploads fails, the whole run fails the same way. */
  lemma {:induction false} FailureSticks(files: seq<Upload>, k: nat)
    requires k <= |files| && CorpusOf(files[..k]).Failure?
    ensures CorpusOf(files) == CorpusOf(files[..k])
    decreases |files| - k
  {
    if k == |files| {
      assert files[..k] == files;
    } else {
      var n := |files| - 1;
      assert files[..n][..k] == files[..k];
      FailureSticks(files[..n], k);
    }
  }

  /** Every upload extracts. */
  predicate AllExtract(files: seq<Upload>) {
    forall i :: 0 <= i < |files| ==> Extracted(files[i]).Success?
  }

  /** One more upload: the corpus grows by its text and a blank line, or fails. */
  lemma CorpusStep(files: seq<Upload>)
    requires files != []
    ensures var n := |files| - 1;
            CorpusOf(files).Success? <==> CorpusOf(files[..n]).Success? && Extracted(files[n]).Success?
  {
  }

  /** The corpus is built exactly when every upload extracts. */
  lemma CorpusSucceedsIff(files: seq<Upload>)
    ensures CorpusOf(files).Success? <==> AllExtract(files)
  {
    if AllExtract(files) {
      SucceedsWhenAllExtract(files);
    }
    if CorpusOf(files).Success? {
      AllExtractWhenSucceeds(files);
    }
  }

  lemma {:induction false} SucceedsWhenAllExtract(files: seq<Upload>)
    requires AllExtract(files)
    ensures CorpusOf(files).Success?
    decreases |files|
  {
    if files != [] {
      var n := |files| - 1;
      var front := files[..n];
      forall i | 0 <= i < n ensures Extracted(front[i]).Success? {
        assert front[i] == files[i];
      }
      SucceedsWhenAllExtract(front);
      CorpusStep(files);
    }
  }

  lemma {:induction false} AllExtractWhenSucceeds(files: seq<Upload>)
    requires CorpusOf(files).Success?
    ensures AllExtract(files)
    decreases |files|
  {
    if files != [] {
      var n := |files| - 1;
      var front := files[..n];
      CorpusStep(files);
      AllExtractWhenSucceeds(front);
      var last := Extracted(files[n]);
      assert last.Success?;
      forall i | 0 <= i < |files| ensures Extracted(files[i]).Success? {
        if i < n {
          assert front[i] == files[i];
        } else {
          assert files[i] == files[n];
        }
      }
    }
  }

  /**
    When every upload extracts, the corpus is the in-order concatenation
    of each text followed by a blank line.
  */
  lemma {:induction false} CorpusIsChunked(files: seq<Upload>)
    requires AllExtract(files)
    ensures CorpusOf(files) == Success(Chunked(TextsOf(files)))
    decreases |files|
  {
    if files != [] {
      var n := |files| - 1;
      var front := files[..n];
      assert forall i :: 0 <= i < n ==> front[i] == files[i];
      CorpusIsChunked(front);
      assert TextsOf(files)[..n] == TextsOf(front);
    }
  }

  /**
    A failing corpus reports the failure of the first upload that fails;
    every upload before it extracts.
  */
  lemma {:induction false} FirstFailure(files: seq<Upload>) returns (k: nat)
    requires CorpusOf(files).Failure?
    ensures k < |files| && Extracted(files[k]) == CorpusOf(files)
    ensures forall i :: 0 <= i < k ==> Extracted(files[i]).Success?
    decreases |files|
  {
    var n := |files| - 1;
    var front := files[..n];
    if CorpusOf(front).Failure? {
      k := FirstFailure(front);
      assert front[k] == files[k];
      forall i | 0 <= i < k ensures Extracted(files[i]).Success? {
        assert front[i] == files[i];
      }
    } else {
      k := n;
      CorpusSucceedsIff(front);
      forall i | 0 <= i < k ensures Extracted(files[i]).Success? {
        assert front[i] == files[i];
      }
    }
  }

  /** Chunking is joining with blank lines, after one last empty piece. */
  lemma {:induction false} ChunkedIsJoin(texts: seq<string>)
    ensures Chunked(texts) == Join(texts + [""], "\n\n")
    decreases |texts|
  {
    if texts != [] {
      var n := |texts| - 1;
      ChunkedIsJoin(texts[..n]);
      assert texts[..n] + [texts[n]] == texts;
      JoinAppend(texts, "", "\n\n");
      if n == 0 {
        assert texts == [texts[0]];
      } else {
        JoinAppend(texts[..n], "", "\n\n");
        JoinAppend(texts[..n], texts[n], "\n\n");
      }
    }
  }

  /** Every upload adds its text and exactly one blank line, even when its text is empty. */
  lemma {:induction false} ChunkedLength(texts: seq<string>)
    ensures |Chunked(texts)| == TotalLength(texts) + 2 * |texts|
    decreases |texts|
  {
    if texts != [] {
      var n := |texts| - 1;
      ChunkedLength(texts[..n]);
      assert texts[..n] + [texts[n]] == texts;
      TotalLengthAppend(texts[..n], texts[n]);
    }
  }
}
