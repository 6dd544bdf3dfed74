/**
 * The three passes chained as the ElevenLabs branch of speech generation
 * chains them: estimate the timings from the text and the audio's length,
 * expand verse references and numerals, then correct the order of a
 * misplaced citation.
 */
module Pipeline {
  import opened Text
  import opened Patterns
  import opened Timings
  import opened Estimator
  import opened Expander
  import opened Corrector

  /** The word timings returned with the audio. */
  function SpeechTimings(text: string, duration: real): (r: seq<WordTiming>)
    ensures |r| == |Expand(Estimate(text, duration))|
  {
    Correct(text, Expand(Estimate(text, duration)))
  }

  /**
   * Before the citation correction, the timings of audio of non-negative
   * length cover it back to back: from 0 to its length (or to within 0.01 s of
   * it), no interval ends before it starts, and they are empty only for a
   * text without words.
   */
  lemma ExpandedTimingsCover(text: string, duration: real)
    requires duration >= 0.0
    ensures var x := Expand(Estimate(text, duration));
      Contiguous(x) && WellFormed(x) && (x == [] <==> Split(text) == [])
      && (x != [] ==> x[0].start == 0.0 && Abs(x[|x| - 1].end - duration) <= 0.01)
  {
    var e := Estimate(text, duration);
    EstimateWellFormed(text, duration);
    assert |e| == |Split(text)|;
    ExpandSpan(e);
    ExpandWellFormed(e);
  }

  /**
   * The correction only reorders the expanded timings, and leaves them as they
   * are when the text cites nothing.
   */
  lemma SpeechTimingsReorder(text: string, duration: real)
    ensures multiset(SpeechTimings(text, duration)) == multiset(Expand(Estimate(text, duration)))
    ensures !ContainsCitation(text) ==> SpeechTimings(text, duration) == Expand(Estimate(text, duration))
  {
    var x := Expand(Estimate(text, duration));
    CorrectPermutation(text, x);
    if !ContainsCitation(text) {
      CorrectFastPath(text, x);
    }
  }

  /** The word timings the chain would return with the corrector as documented. */
  function SpeechTimingsIntended(text: string, duration: real): (r: seq<WordTiming>)
    ensures |r| == |Expand(Estimate(text, duration))|
  {
    CorrectIntended(text, Expand(Estimate(text, duration)))
  }

  /**
   * The documented correction, too, only reorders the expanded timings, and
   * leaves them as they are when the text cites nothing.
   */
  lemma SpeechTimingsIntendedReorder(text: string, duration: real)
    ensures multiset(SpeechTimingsIntended(text, duration)) == multiset(Expand(Estimate(text, duration)))
    ensures !ContainsCitation(text) ==> SpeechTimingsIntended(text, duration) == Expand(Estimate(text, duration))
  {
    var x := Expand(Estimate(text, duration));
    CorrectIntendedPermutation(text, x);
    if !ContainsCitation(text) {
      FindCitationsEmpty(text);
    }
  }

  /**
   * With the corrector as documented, the chain returns the expanded timings
   * as they are: they follow the text, so no citation is taken to be out of
   * place.
   */
  lemma SpeechTimingsIntendedInOrder(text: string, duration: real)
    ensures SpeechTimingsIntended(text, duration) == Expand(Estimate(text, duration))
  {
    var e := Estimate(text, duration);
    var x := Expand(e);
    var refs := FindCitations(text);
    forall k | 0 <= k < |refs| ensures OpensLikeText(text, Words(x), refs[k]) {
      var p := FirstPart(refs[k]);
      if x != [] && StartsWith(x[0].word, p) {
        FirstPartOpens(refs[k]);
        ExpandOpening(e, p);
        StripFirstWord(text);
        StartsWithTrans(Strip(text), Split(text)[0], p);
      }
    }
    CorrectIntendedOpensLikeText(text, x);
  }
}
