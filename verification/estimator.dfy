/**
 * The duration-proportional timing estimator: from a text and the length of
 * its audio, one `(word, start, end)` per whitespace-delimited token, laid out
 * back to back from 0 with durations proportional to a length-based weight,
 * and stretched so that the last word ends on the audio's end.
 */
module Estimator {
  import opened Text
  import opened Patterns
  import opened Timings

  datatype TokenKind = VerseReference | Numeral | Ordinary

  /** The verse-reference pattern is tried first, then the numeral pattern. */
  function Classify(w: string): TokenKind {
    if IsVerseReference(w) then VerseReference
    else if IsNumeral(w) then Numeral
    else Ordinary
  }

  /** Verse references and numerals get extra time. */
  predicate IsSpecial(w: string) {
    Classify(w) != Ordinary
  }

  /** The upper clamp of a kind's weight. */
  function Cap(k: TokenKind): real {
    match k
    case VerseReference => 4.0
    case Numeral => 3.0
    case Ordinary => 2.0
  }

  /** How many times longer than its length suggests a kind of token is spoken. */
  function Multiplier(k: TokenKind): real {
    match k
    case VerseReference => 3.0
    case Numeral => 2.0
    case Ordinary => 1.0
  }

  /** Python's `min(a, b)` and `max(a, b)`. */
  function Min(a: real, b: real): real {
    if b < a then b else a
  }

  function Max(a: real, b: real): real {
    if b > a then b else a
  }

  function Abs(x: real): real {
    if x < 0.0 then -x else x
  }

  /** The unclamped weight: the token's length over five, times its kind's multiplier. */
  function LengthFactor(w: string): real {
    (|w| as real / 5.0) * Multiplier(Classify(w))
  }

  /** A token's weight: its length factor, clamped to [0.5, cap] for its kind. */
  function Weight(w: string): (r: real)
    ensures 0.5 <= r <= Cap(Classify(w))
    ensures 0.5 <= LengthFactor(w) <= Cap(Classify(w)) ==> r == LengthFactor(w)
    ensures LengthFactor(w) < 0.5 ==> r == 0.5
    ensures Cap(Classify(w)) < LengthFactor(w) ==> r == Cap(Classify(w))
  {
    Max(0.5, Min(Cap(Classify(w)), LengthFactor(w)))
  }

  /** Every weight is at least one half. */
  predicate AtLeastHalf(ws: seq<real>) {
    forall i | 0 <= i < |ws| :: 0.5 <= ws[i]
  }

  /** The weights of the tokens, in order. */
  function Weights(words: seq<string>): (r: seq<real>)
    ensures |r| == |words|
    ensures AtLeastHalf(r)
  {
    if words == [] then [] else Weights(words[..|words| - 1]) + [Weight(words[|words| - 1])]
  }

  lemma {:induction false} WeightsAt(words: seq<string>)
    ensures forall i | 0 <= i < |words| :: Weights(words)[i] == Weight(words[i])
  {
    if words != [] {
      var init := words[..|words| - 1];
      WeightsAt(init);
      assert forall i | 0 <= i < |init| :: init[i] == words[i];
    }
  }

  /** The weights grow by one token at a time. */
  lemma WeightsSnoc(words: seq<string>, i: nat)
    requires i < |words|
    ensures Weights(words[..i + 1]) == Weights(words[..i]) + [Weight(words[i])]
  {
    assert words[..i + 1][..i] == words[..i];
  }

  /** `special_case_indices`: the positions of the verse references and numerals, in increasing order. */
  function SpecialIndices(words: seq<string>): (r: seq<nat>)
    ensures forall k | 0 <= k < |r| :: r[k] < |words| && IsSpecial(words[r[k]])
    ensures forall k, m | 0 <= k < m < |r| :: r[k] < r[m]
  {
    if words == [] then []
    else
      var init := SpecialIndices(words[..|words| - 1]);
      if IsSpecial(words[|words| - 1]) then init + [|words| - 1] else init
  }

  /** No special token is missing from `special_case_indices`. */
  lemma {:induction false} SpecialIndicesComplete(words: seq<string>)
    ensures forall i | 0 <= i < |words| && IsSpecial(words[i]) :: i in SpecialIndices(words)
  {
    if words != [] {
      var init := words[..|words| - 1];
      SpecialIndicesComplete(init);
      forall i | 0 <= i < |words| - 1 && IsSpecial(words[i]) ensures i in SpecialIndices(words) {
        assert init[i] == words[i];
      }
    }
  }

  lemma {:induction false} SpecialIndicesBound(words: seq<string>)
    ensures |SpecialIndices(words)| <= |words|
  {
    if words != [] {
      SpecialIndicesBound(words[..|words| - 1]);
    }
  }

  lemma {:induction false} SpecialIndicesNone(words: seq<string>)
    ensures SpecialIndices(words) == [] <==> forall i | 0 <= i < |words| :: !IsSpecial(words[i])
  {
    if words != [] {
      var init := words[..|words| - 1];
      SpecialIndicesNone(init);
      assert forall i | 0 <= i < |words| - 1 :: init[i] == words[i];
    }
  }

  lemma {:induction false} SpecialIndicesAll(words: seq<string>)
    ensures |SpecialIndices(words)| == |words| <==> forall i | 0 <= i < |words| :: IsSpecial(words[i])
  {
    if words != [] {
      var init := words[..|words| - 1];
      SpecialIndicesBound(init);
      SpecialIndicesAll(init);
      assert forall i | 0 <= i < |words| - 1 :: init[i] == words[i];
    }
  }

  /** The list is empty exactly when no token is special, and as long as the text exactly when every token is. */
  lemma SpecialIndicesCount(words: seq<string>)
    ensures |SpecialIndices(words)| <= |words|
    ensures SpecialIndices(words) == [] <==> forall i | 0 <= i < |words| :: !IsSpecial(words[i])
    ensures |SpecialIndices(words)| == |words| <==> forall i | 0 <= i < |words| :: IsSpecial(words[i])
  {
    SpecialIndicesBound(words);
    SpecialIndicesNone(words);
    SpecialIndicesAll(words);
  }

  /** Fitting applies when at least one token is special and not every token is. */
  predicate NeedsFitting(words: seq<string>) {
    var special := SpecialIndices(words);
    special != [] && |words| > |special|
  }

  lemma NeedsFittingIff(words: seq<string>)
    ensures NeedsFitting(words) <==>
      (exists i | 0 <= i < |words| :: IsSpecial(words[i])) && (exists i | 0 <= i < |words| :: !IsSpecial(words[i]))
  {
    SpecialIndicesCount(words);
  }

  /** The raw durations, each weight times the average token duration, add up to zero only for audio of zero length. */
  lemma RawTotal(ws: seq<real>, duration: real)
    requires ws != [] && AtLeastHalf(ws)
    ensures Sum(Scale(ws, duration / |ws| as real)) == Sum(ws) * (duration / |ws| as real)
    ensures Sum(Scale(ws, duration / |ws| as real)) == 0.0 <==> duration == 0.0
  {
    var avg := duration / |ws| as real;
    SumScale(ws, avg);
    SumLowerBound(ws, 0.5);
    DivZero(duration, |ws| as real);
    MulZero(Sum(ws), avg);
  }

  /**
   * `initial_durations`: each weight times the average token duration, and
   * then, when `fit` holds and these overrun the audio, all shrunk by one
   * factor.
   */
  function Durations(ws: seq<real>, fit: bool, duration: real): (ds: seq<real>)
    requires ws != [] && AtLeastHalf(ws)
    ensures |ds| == |ws|
  {
    var raw := Scale(ws, duration / |ws| as real);
    var total := Sum(raw);
    if fit && total > duration then
      RawTotal(ws, duration);
      Scale(raw, duration / total)
    else raw
  }

  /** Fitting never leaves the durations overrunning the audio: after it they sum to exactly its length. */
  lemma FittedWithinDuration(ws: seq<real>, duration: real)
    requires ws != [] && AtLeastHalf(ws)
    ensures Sum(Durations(ws, true, duration)) <= duration
    ensures Sum(Scale(ws, duration / |ws| as real)) > duration ==> Sum(Durations(ws, true, duration)) == duration
  {
    var raw := Scale(ws, duration / |ws| as real);
    var total := Sum(raw);
    if total > duration {
      RawTotal(ws, duration);
      SumScale(raw, duration / total);
      MulDiv(duration, total);
    }
  }

  /** The durations add up to zero only for audio of zero length, so the final normalisation never divides by zero. */
  lemma DurationsTotal(ws: seq<real>, fit: bool, duration: real)
    requires ws != [] && AtLeastHalf(ws)
    ensures Sum(Durations(ws, fit, duration)) == 0.0 <==> duration == 0.0
  {
    var raw := Scale(ws, duration / |ws| as real);
    var total := Sum(raw);
    RawTotal(ws, duration);
    if fit && total > duration {
      SumScale(raw, duration / total);
      MulDiv(duration, total);
    }
  }

  /** Every duration is its weight times one common rate, which is not negative for a non-negative duration. */
  lemma DurationRate(ws: seq<real>, fit: bool, duration: real) returns (rate: real)
    requires ws != [] && AtLeastHalf(ws)
    ensures Durations(ws, fit, duration) == Scale(ws, rate)
    ensures duration >= 0.0 ==> rate >= 0.0
  {
    var avg := duration / |ws| as real;
    var total := Sum(Scale(ws, avg));
    RawTotal(ws, duration);
    if duration >= 0.0 {
      DivNonNegative(duration, |ws| as real);
    }
    if fit && total > duration {
      var c := duration / total;
      rate := avg * c;
      ScaleScale(ws, avg, c);
      if duration >= 0.0 {
        DivNonNegative(duration, total);
        MulNonNegative(avg, c);
      }
    } else {
      rate := avg;
    }
  }

  /** For audio of non-negative length, no duration is negative, and neither is their total. */
  lemma DurationsNonNegative(ws: seq<real>, fit: bool, duration: real)
    requires ws != [] && AtLeastHalf(ws) && duration >= 0.0
    ensures forall i | 0 <= i < |ws| :: 0.0 <= Durations(ws, fit, duration)[i]
    ensures 0.0 <= Sum(Durations(ws, fit, duration))
  {
    var ds := Durations(ws, fit, duration);
    var rate := DurationRate(ws, fit, duration);
    forall i | 0 <= i < |ws| ensures 0.0 <= ds[i] {
      MulNonNegative(ws[i], rate);
    }
    SumNonNegative(ds);
  }

  /** Back to back: each token starts where the durations before it add up to. */
  function Layout(words: seq<string>, ds: seq<real>): (r: seq<WordTiming>)
    requires |ds| == |words|
    ensures |r| == |words|
  {
    if words == [] then []
    else
      var n := |words| - 1;
      Layout(words[..n], ds[..n]) + [WordTiming(words[n], Sum(ds[..n]), Sum(ds[..n]) + ds[n])]
  }

  /** The interval of the `i`-th token: from the total of the durations before it, for its own duration. */
  lemma {:induction false} LayoutAt(words: seq<string>, ds: seq<real>, i: nat)
    requires |ds| == |words| && i < |words|
    ensures Layout(words, ds)[i] == WordTiming(words[i], Sum(ds[..i]), Sum(ds[..i]) + ds[i])
  {
    var n := |words| - 1;
    if i < n {
      LayoutAt(words[..n], ds[..n], i);
      assert ds[..n][..i] == ds[..i];
    }
  }

  /** The layout of one token more. */
  lemma LayoutSnoc(words: seq<string>, ds: seq<real>, i: nat)
    requires |ds| == |words| && i < |words|
    ensures Layout(words[..i + 1], ds[..i + 1])
      == Layout(words[..i], ds[..i]) + [WordTiming(words[i], Sum(ds[..i]), Sum(ds[..i]) + ds[i])]
  {
    assert words[..i + 1][..i] == words[..i];
    assert ds[..i + 1][..i] == ds[..i];
  }

  /** The layout keeps the words, is back to back, starts at 0 and ends at the total duration. */
  lemma LayoutContiguous(words: seq<string>, ds: seq<real>)
    requires |ds| == |words|
    ensures Words(Layout(words, ds)) == words
    ensures Contiguous(Layout(words, ds))
    ensures words != [] ==> Layout(words, ds)[0].start == 0.0
    ensures words != [] ==> Layout(words, ds)[|words| - 1].end == Sum(ds)
  {
    var r := Layout(words, ds);
    forall i | 0 <= i < |r| ensures r[i].word == words[i] {
      LayoutAt(words, ds, i);
    }
    forall i | 0 <= i < |r| - 1 ensures r[i].end == r[i + 1].start {
      LayoutAt(words, ds, i);
      LayoutAt(words, ds, i + 1);
      SumPrefix(ds, i);
    }
    if words != [] {
      LayoutAt(words, ds, 0);
      assert ds[..0] == [];
    }
  }

  /** `[(w, s * c, e * c) for w, s, e in ts]` */
  function ScaleTimings(ts: seq<WordTiming>, c: real): (r: seq<WordTiming>)
    ensures |r| == |ts|
    ensures forall i | 0 <= i < |ts| :: r[i] == WordTiming(ts[i].word, ts[i].start * c, ts[i].end * c)
  {
    seq(|ts|, i requires 0 <= i < |ts| => WordTiming(ts[i].word, ts[i].start * c, ts[i].end * c))
  }

  /** Stretching keeps the words and keeps the intervals back to back. */
  lemma ScaleTimingsKeeps(ts: seq<WordTiming>, c: real)
    ensures Words(ScaleTimings(ts, c)) == Words(ts)
    ensures Contiguous(ts) ==> Contiguous(ScaleTimings(ts, c))
  {
  }

  /** Stretching by `duration` over the last end makes the last interval end on `duration`. */
  lemma StretchToDuration(ts: seq<WordTiming>, duration: real)
    requires ts != [] && ts[|ts| - 1].end != 0.0
    ensures var r := ScaleTimings(ts, duration / ts[|ts| - 1].end); r[|r| - 1].end == duration
  {
    MulDiv(duration, ts[|ts| - 1].end);
  }

  /**
   * The final stretch: when the last interval ends more than 0.01 away from
   * `duration`, every time is multiplied by `duration` over that end, so that
   * the last interval ends on `duration`; otherwise nothing changes.
   */
  function Normalise(ts: seq<WordTiming>, duration: real): (r: seq<WordTiming>)
    requires ts != [] && (ts[|ts| - 1].end == 0.0 <==> duration == 0.0)
    ensures Words(r) == Words(ts)
    ensures Contiguous(ts) ==> Contiguous(r)
    ensures ts[0].start == 0.0 ==> r[0].start == 0.0
    ensures r[|r| - 1].end == duration || (Abs(ts[|ts| - 1].end - duration) <= 0.01 && r == ts)
  {
    var e := ts[|ts| - 1].end;
    if Abs(e - duration) > 0.01 then
      StretchToDuration(ts, duration);
      ScaleTimingsKeeps(ts, duration / e);
      ScaleTimings(ts, duration / e)
    else ts
  }

  /** The durations of the words of a text, before the final normalisation. */
  function TextDurations(words: seq<string>, duration: real): (ds: seq<real>)
    requires words != []
    ensures |ds| == |words|
  {
    Durations(Weights(words), NeedsFitting(words), duration)
  }

  /** The timings before the final normalisation. */
  function LaidOut(words: seq<string>, duration: real): seq<WordTiming>
    requires words != []
  {
    Layout(words, TextDurations(words, duration))
  }

  /** The layout starts at 0, is back to back, and ends at 0 only for audio of zero length. */
  lemma LaidOutFacts(words: seq<string>, duration: real)
    requires words != []
    ensures var r := LaidOut(words, duration);
      |r| == |words| && Words(r) == words && Contiguous(r) && r[0].start == 0.0
      && (r[|r| - 1].end == 0.0 <==> duration == 0.0)
  {
    var ds := TextDurations(words, duration);
    LayoutContiguous(words, ds);
    DurationsTotal(Weights(words), NeedsFitting(words), duration);
  }

  /**
   * The estimate: one timing per token of the text, same words in the same
   * order, back to back from 0; the last one ends on `duration` exactly,
   * unless the layout already ended within 0.01 of it and was kept as it was.
   */
  function Estimate(text: string, duration: real): (r: seq<WordTiming>)
    ensures Words(r) == Split(text)
    ensures Contiguous(r)
    ensures r != [] ==> r[0].start == 0.0
    ensures r != [] ==>
      var e := r[|r| - 1].end;
      e == duration || (Abs(e - duration) <= 0.01 && r == LaidOut(Split(text), duration))
  {
    var words := Split(text);
    if words == [] then []
    else
      LaidOutFacts(words, duration);
      Normalise(LaidOut(words, duration), duration)
  }

  /** Each interval lasts its weight in `ws` times `rate`. */
  predicate Proportional(ts: seq<WordTiming>, ws: seq<real>, rate: real) {
    |ws| == |ts| && forall i | 0 <= i < |ts| :: ts[i].end - ts[i].start == ws[i] * rate
  }

  lemma LayoutProportional(words: seq<string>, ws: seq<real>, rate: real)
    requires |ws| == |words|
    ensures Proportional(Layout(words, Scale(ws, rate)), ws, rate)
  {
    forall i | 0 <= i < |words| ensures Layout(words, Scale(ws, rate))[i].end - Layout(words, Scale(ws, rate))[i].start == ws[i] * rate {
      LayoutAt(words, Scale(ws, rate), i);
    }
  }

  lemma ScaleProportional(ts: seq<WordTiming>, ws: seq<real>, rate: real, c: real)
    requires Proportional(ts, ws, rate)
    ensures Proportional(ScaleTimings(ts, c), ws, rate * c)
  {
    var r := ScaleTimings(ts, c);
    forall i | 0 <= i < |r| ensures r[i].end - r[i].start == ws[i] * (rate * c) {
      MulAssoc(ws[i], rate, c);
      MulSubDistrib(ts[i].end, ts[i].start, c);
    }
  }

  /** Stretching keeps the durations proportional to the weights, at a rate that stays non-negative. */
  lemma NormaliseProportional(ts: seq<WordTiming>, ws: seq<real>, rate: real, duration: real) returns (rate': real)
    requires ts != [] && (ts[|ts| - 1].end == 0.0 <==> duration == 0.0)
    requires Proportional(ts, ws, rate)
    requires duration >= 0.0 ==> rate >= 0.0 && ts[|ts| - 1].end >= 0.0
    ensures Proportional(Normalise(ts, duration), ws, rate')
    ensures duration >= 0.0 ==> rate' >= 0.0
  {
    var e := ts[|ts| - 1].end;
    if Abs(e - duration) > 0.01 {
      var c := duration / e;
      ScaleProportional(ts, ws, rate, c);
      rate' := rate * c;
      if duration >= 0.0 {
        DivNonNegative(duration, e);
        MulNonNegative(rate, c);
      }
    } else {
      rate' := rate;
    }
  }

  /** Before normalisation every token lasts its weight times one common rate, and for a non-negative duration nothing is negative. */
  lemma LaidOutProportional(words: seq<string>, duration: real) returns (rate: real)
    requires words != []
    ensures Proportional(LaidOut(words, duration), Weights(words), rate)
    ensures duration >= 0.0 ==> rate >= 0.0 && LaidOut(words, duration)[|words| - 1].end >= 0.0
  {
    var ws := Weights(words);
    rate := DurationRate(ws, NeedsFitting(words), duration);
    LayoutProportional(words, ws, rate);
    if duration >= 0.0 {
      DurationsNonNegative(ws, NeedsFitting(words), duration);
      LayoutContiguous(words, TextDurations(words, duration));
    }
  }

  /** Every token lasts its weight times one common rate, the same for the whole text. */
  lemma EstimateProportional(text: string, duration: real) returns (rate: real)
    ensures Proportional(Estimate(text, duration), Weights(Split(text)), rate)
    ensures duration >= 0.0 ==> rate >= 0.0
  {
    var words := Split(text);
    if words == [] {
      rate := 0.0;
    } else {
      var f := LaidOutProportional(words, duration);
      LaidOutFacts(words, duration);
      rate := NormaliseProportional(LaidOut(words, duration), Weights(words), f, duration);
    }
  }

  /** Positive weights at a non-negative rate give intervals that do not end before they start. */
  lemma ProportionalWellFormed(ts: seq<WordTiming>, ws: seq<real>, rate: real)
    requires Proportional(ts, ws, rate) && AtLeastHalf(ws) && rate >= 0.0
    ensures WellFormed(ts)
  {
    forall i | 0 <= i < |ts| ensures ts[i].start <= ts[i].end {
      MulNonNegative(ws[i], rate);
    }
  }

  /** For audio of non-negative length, no interval ends before it starts, none starts before 0, and they are in order. */
  lemma EstimateWellFormed(text: string, duration: real)
    requires duration >= 0.0
    ensures WellFormed(Estimate(text, duration))
    ensures forall i | 0 <= i < |Estimate(text, duration)| :: 0.0 <= Estimate(text, duration)[i].start
    ensures Chronological(Estimate(text, duration))
  {
    var r := Estimate(text, duration);
    var rate := EstimateProportional(text, duration);
    ProportionalWellFormed(r, Weights(Split(text)), rate);
    StartsFromZero(r);
    ContiguousIsChronological(r);
  }

  /** The weight of a token, branch by branch as the source computes it. */
  lemma WeightCases(w: string)
    ensures IsVerseReference(w) ==> Weight(w) == Max(0.5, Min(4.0, (|w| as real / 5.0) * 3.0))
    ensures !IsVerseReference(w) && IsNumeral(w) ==> Weight(w) == Max(0.5, Min(3.0, (|w| as real / 5.0) * 2.0))
    ensures !IsVerseReference(w) && !IsNumeral(w) ==> Weight(w) == Max(0.5, Min(2.0, |w| as real / 5.0))
    ensures IsSpecial(w) <==> IsVerseReference(w) || IsNumeral(w)
  {
  }

  /** `special_case_indices` grows by one position at a time. */
  lemma SpecialIndicesSnoc(words: seq<string>, i: nat)
    requires i < |words|
    ensures SpecialIndices(words[..i + 1]) == SpecialIndices(words[..i]) + (if IsSpecial(words[i]) then [i] else [])
  {
    assert words[..i + 1][..i] == words[..i];
  }

  /** The first pass of the estimator: each token's weight times the average duration, and the special tokens' positions. */
  method InitialDurations(words: seq<string>, avgWordDuration: real) returns (initialDurations: seq<real>, specialCaseIndices: seq<nat>)
    ensures initialDurations == Scale(Weights(words), avgWordDuration)
    ensures specialCaseIndices == SpecialIndices(words)
  {
    initialDurations := [];
    specialCaseIndices := [];
    for i := 0 to |words|
      invariant initialDurations == Scale(Weights(words[..i]), avgWordDuration)
      invariant specialCaseIndices == SpecialIndices(words[..i])
    {
      var word := words[i];
      WeightCases(word);
      SpecialIndicesSnoc(words, i);
      WeightsSnoc(words, i);
      var wordLengthFactor: real;
      if IsVerseReference(word) {
        var baseFactor := |word| as real / 5.0;
        var adjustedFactor := baseFactor * 3.0;
        wordLengthFactor := Max(0.5, Min(4.0, adjustedFactor));
        specialCaseIndices := specialCaseIndices + [i];
      } else if IsNumeral(word) {
        var baseFactor := |word| as real / 5.0;
        var adjustedFactor := baseFactor * 2.0;
        wordLengthFactor := Max(0.5, Min(3.0, adjustedFactor));
        specialCaseIndices := specialCaseIndices + [i];
      } else {
        wordLengthFactor := |word| as real / 5.0;
        wordLengthFactor := Max(0.5, Min(2.0, wordLengthFactor));
      }
      ScaleAppend(Weights(words[..i]), wordLengthFactor, avgWordDuration);
      initialDurations := initialDurations + [wordLengthFactor * avgWordDuration];
    }
    assert words[..|words|] == words;
  }

  /** The second pass of the estimator: the tokens laid out back to back with a running clock. */
  method LayOutWords(words: seq<string>, initialDurations: seq<real>) returns (timings: seq<WordTiming>)
    requires |initialDurations| == |words|
    ensures timings == Layout(words, initialDurations)
  {
    timings := [];
    var currentTime := 0.0;
    for i := 0 to |words|
      invariant currentTime == Sum(initialDurations[..i])
      invariant timings == Layout(words[..i], initialDurations[..i])
    {
      var wordDuration := initialDurations[i];
      LayoutSnoc(words, initialDurations, i);
      timings := timings + [WordTiming(words[i], currentTime, currentTime + wordDuration)];
      SumPrefix(initialDurations, i);
      currentTime := currentTime + wordDuration;
    }
    assert words[..|words|] == words;
    assert initialDurations[..|words|] == initialDurations;
  }

  /** The fitting between the passes: shrink every duration by one factor when the special tokens make the total overrun the audio. */
  method FitDurations(words: seq<string>, duration: real, initialDurations: seq<real>, specialCaseIndices: seq<nat>)
    returns (fitted: seq<real>)
    requires words != []
    requires initialDurations == Scale(Weights(words), duration / |words| as real)
    requires specialCaseIndices == SpecialIndices(words)
    ensures fitted == TextDurations(words, duration)
  {
    fitted := initialDurations;
    if specialCaseIndices != [] && |words| > |specialCaseIndices| {
      var totalDuration := Sum(initialDurations);
      if totalDuration > duration {
        RawTotal(Weights(words), duration);
        var scaleFactor := duration / totalDuration;
        fitted := Scale(initialDurations, scaleFactor);
      }
    }
  }

  /** `_generate_approximate_word_timings`: the two passes, the fitting in between, and the final stretch. */
  method ApproximateWordTimings(text: string, duration: real) returns (timings: seq<WordTiming>)
    ensures timings == Estimate(text, duration)
  {
    var words := Split(text);
    if words == [] {
      return [];
    }
    var avgWordDuration := duration / |words| as real;
    var initialDurations, specialCaseIndices := InitialDurations(words, avgWordDuration);
    initialDurations := FitDurations(words, duration, initialDurations, specialCaseIndices);
    timings := LayOutWords(words, initialDurations);

    // Stretch to the audio's length when the last word ends more than 0.01 away from it.
    LaidOutFacts(words, duration);
    var lastWordEnd := timings[|timings| - 1].end;
    if Abs(lastWordEnd - duration) > 0.01 {
      var scaleFactor := duration / lastWordEnd;
      timings := ScaleTimings(timings, scaleFactor);
    }
  }
}
