/**
 * The numeric-reference expander: one left-to-right pass over word timings
 * that merges a parenthesised citation spread over several tokens into one
 * token, splits a verse reference `c:v` into its chapter and its verse, splits
 * a two-digit numeral above twenty into a tens token and a ones token, and
 * passes everything else through. Split tokens share the original interval,
 * 60% for the first part and 40% for the second.
 */
module Expander {
  import opened Text
  import opened Patterns
  import opened Timings

  /** Where a token's interval is cut: 60% of the way from its start to its end. */
  function SplitPoint(t: WordTiming): (p: real)
    ensures t.start <= t.end ==> t.start <= p <= t.end
  {
    t.start + (t.end - t.start) * 0.6
  }

  /** `f"{tens_digit}0"` */
  function TensWord(n: nat): string
    requires n < 100
  {
    [DigitChar(n / 10), '0']
  }

  /** `f"{ones_digit}"` */
  function OnesWord(n: nat): string {
    [DigitChar(n % 10)]
  }

  /** The tens token and the ones token, read as numbers, add up to the numeral they came from. */
  lemma NumeralWordsValue(n: nat)
    requires n < 100
    ensures forall k | 0 <= k < |TensWord(n)| :: IsDigit(TensWord(n)[k])
    ensures forall k | 0 <= k < |OnesWord(n)| :: IsDigit(OnesWord(n)[k])
    ensures DecimalValue(TensWord(n)) == n / 10 * 10
    ensures DecimalValue(TensWord(n)) + DecimalValue(OnesWord(n)) == n
  {
    var t, o := TensWord(n), OnesWord(n);
    assert t[..1] == [DigitChar(n / 10)] && t[..1][..0] == [];
    assert DecimalValue(t[..1]) == n / 10;
    assert DecimalValue(t) == 10 * DecimalValue(t[..1]) + DigitValue('0');
    assert o[..0] == [];
    assert DecimalValue(o) == n % 10;
  }

  /** A numeral of more than one character whose integer part lies strictly between 20 and 100. */
  predicate IsCompoundNumeral(w: string) {
    IsNumeral(w) && |w| > 1 && 20 < IntegerPart(w) < 100
  }

  /** A verse reference splits at its one colon into exactly two pieces: the chapter and the verse (or verse range). */
  lemma VerseParts(w: string)
    requires IsVerseReference(w)
    ensures var c := IndexOf(w, ':'); c < |w| && SplitOn(w, ':') == [w[..c], w[c + 1..]]
  {
    VerseReferenceChars(w);
    SplitOnOnly(w, IndexOf(w, ':'), ':');
  }

  /**
   * What a token that is not part of a merged citation becomes: a verse
   * reference its chapter and its verse, a compound numeral its tens and ones
   * (or its tens alone, over the whole interval, when the ones digit is 0),
   * anything else itself. The pieces cover the token's interval back to back.
   */
  function ExpandToken(t: WordTiming): (r: seq<WordTiming>)
    ensures 1 <= |r| <= 2
    ensures r[0].start == t.start && r[|r| - 1].end == t.end
    ensures Contiguous(r)
    ensures t.start <= t.end ==> WellFormed(r)
  {
    var w := t.word;
    if IsVerseReference(w) then
      var c := IndexOf(w, ':');
      var p := SplitPoint(t);
      [WordTiming(w[..c], t.start, p), WordTiming(w[c + 1..], p, t.end)]
    else if IsCompoundNumeral(w) then
      var n := IntegerPart(w);
      var p := SplitPoint(t);
      (if n % 10 > 0 then [WordTiming(TensWord(n), t.start, p), WordTiming(OnesWord(n), p, t.end)]
       else [WordTiming(TensWord(n), t.start, t.end)])
    else [t]
  }

  /** A verse reference becomes its chapter, up to the 60% point, and what follows the colon, from there to the end. */
  lemma ExpandVerseReference(t: WordTiming)
    requires IsVerseReference(t.word)
    ensures var parts := SplitOn(t.word, ':');
      (|parts| == 2
       && ExpandToken(t) == [WordTiming(parts[0], t.start, SplitPoint(t)), WordTiming(parts[1], SplitPoint(t), t.end)])
  {
    VerseParts(t.word);
  }

  /**
   * A compound numeral becomes its tens and its ones, 60/40, whose values add
   * up to its integer part; when the ones digit is 0 the tens token alone
   * takes the whole interval.
   */
  lemma ExpandCompoundNumeral(t: WordTiming)
    requires IsCompoundNumeral(t.word)
    ensures var n := IntegerPart(t.word); var r := ExpandToken(t);
      (n % 10 > 0 ==> |r| == 2 && r[0] == WordTiming(TensWord(n), t.start, SplitPoint(t)) && r[1].word == OnesWord(n))
      && (n % 10 == 0 ==> r == [WordTiming(TensWord(n), t.start, t.end)])
      && DecimalValue(TensWord(n)) + DecimalValue(OnesWord(n)) == n
  {
    assert !IsVerseReference(t.word) by {
      if IsVerseReference(t.word) {
        NumeralHasNoColon(t.word);
      }
    }
    NumeralWordsValue(IntegerPart(t.word));
  }

  /** A numeral has no colon, so it is never taken for a verse reference. */
  lemma NumeralHasNoColon(w: string)
    requires IsNumeral(w)
    ensures ':' !in w
  {
    var body := if NumeralShape(w) then w else w[..|w| - 1];
    var d := IndexOf(body, '.');
    forall m | 0 <= m < |body| ensures body[m] != ':' {
      if d == |body| {
        assert IsDigit(body[m]);
      } else if m < d {
        assert body[..d][m] == body[m];
      } else if m > d {
        assert body[d + 1..][m - d - 1] == body[m];
      }
    }
    if !NumeralShape(w) {
      assert w == body + ['\n'];
    }
  }

  /** Any other token passes through unchanged. */
  lemma ExpandOrdinary(t: WordTiming)
    requires !IsVerseReference(t.word) && !IsCompoundNumeral(t.word)
    ensures ExpandToken(t) == [t]
  {
  }

  /** The first index at or after `i` whose token contains `)`, or `|ts|` when there is none. */
  function CloseIndex(ts: seq<WordTiming>, i: nat): (j: nat)
    requires i <= |ts|
    ensures i <= j <= |ts|
    ensures j < |ts| ==> ')' in ts[j].word
    ensures forall k | i <= k < j :: ')' !in ts[k].word
    decreases |ts| - i
  {
    if i == |ts| || ')' in ts[i].word then i else CloseIndex(ts, i + 1)
  }

  /** `' '.join` of the words of `ts[i..j + 1]`. */
  function CitationText(ts: seq<WordTiming>, i: nat, j: nat): string
    requires i <= j < |ts|
  {
    JoinSpace(Words(ts[i..j + 1]))
  }

  /** The run from `i` that is merged into one citation token: it opens with `(`, closes at the first `)`, and its text holds a citation. */
  predicate Merges(ts: seq<WordTiming>, i: nat)
    requires i < |ts|
  {
    var j := CloseIndex(ts, i);
    '(' in ts[i].word && j < |ts| && ContainsCitation(CitationText(ts, i, j))
  }

  /** What one iteration of the pass emits, and the index it moves on to. */
  datatype Step = Step(emitted: seq<WordTiming>, next: nat)

  /**
   * One iteration at `i`: a merged citation spans from the start of its first
   * token to the end of its last; anything else is expanded on its own.
   * Either way the emitted tokens cover the interval from `ts[i].start` to
   * the end of the last token consumed, back to back.
   */
  function StepAt(ts: seq<WordTiming>, i: nat): (r: Step)
    requires i < |ts|
    ensures i < r.next <= |ts|
    ensures r.emitted != [] && |r.emitted| <= 2
    ensures r.emitted[0].start == ts[i].start && r.emitted[|r.emitted| - 1].end == ts[r.next - 1].end
    ensures Contiguous(r.emitted)
  {
    if Merges(ts, i) then
      var j := CloseIndex(ts, i);
      Step([WordTiming(CitationText(ts, i, j), ts[i].start, ts[j].end)], j + 1)
    else Step(ExpandToken(ts[i]), i + 1)
  }

  /** The pass from index `i` to the end. */
  function ExpandFrom(ts: seq<WordTiming>, i: nat): seq<WordTiming>
    requires i <= |ts|
    decreases |ts| - i
  {
    if i == |ts| then []
    else
      var s := StepAt(ts, i);
      s.emitted + ExpandFrom(ts, s.next)
  }

  /** `_expand_numeric_references` */
  function Expand(ts: seq<WordTiming>): seq<WordTiming> {
    ExpandFrom(ts, 0)
  }

  /**
   * A merge takes the tokens from the one holding `(` up to the first holding
   * `)`, joined with spaces, over the interval from the first's start to the
   * last's end; without a `)` further on there is no merge, and the token is
   * expanded on its own.
   */
  lemma MergeCases(ts: seq<WordTiming>, i: nat)
    requires i < |ts|
    ensures Merges(ts, i) ==> var j := CloseIndex(ts, i);
      StepAt(ts, i) == Step([WordTiming(CitationText(ts, i, j), ts[i].start, ts[j].end)], j + 1)
    ensures CloseIndex(ts, i) == |ts| || '(' !in ts[i].word ==> StepAt(ts, i) == Step(ExpandToken(ts[i]), i + 1)
  {
  }

  /** The merged token is its parts joined by single spaces, so splitting it gives back their words. */
  lemma MergedWords(ts: seq<WordTiming>, i: nat)
    requires i < |ts| && Merges(ts, i)
    requires forall k | 0 <= k < |ts| :: IsWord(ts[k].word)
    ensures var j := CloseIndex(ts, i); Split(StepAt(ts, i).emitted[0].word) == Words(ts[i..j + 1])
  {
    var j := CloseIndex(ts, i);
    MergeCases(ts, i);
    var ws := Words(ts[i..j + 1]);
    assert StepAt(ts, i).emitted[0].word == JoinSpace(ws);
    RunWords(ts, i, j, ws);
    SplitJoin(ws);
  }

  /** A run of tokens without whitespace gives words without whitespace. */
  lemma RunWords(ts: seq<WordTiming>, i: nat, j: nat, ws: seq<string>)
    requires i <= j < |ts| && ws == Words(ts[i..j + 1])
    requires forall k | 0 <= k < |ts| :: IsWord(ts[k].word)
    ensures forall k | 0 <= k < |ws| :: IsWord(ws[k])
  {
    forall k | 0 <= k < |ws| ensures IsWord(ws[k]) {
      assert ws[k] == ts[i + k].word;
    }
  }

  /** Joining two back-to-back runs gives one run from the first's start to the second's end. */
  lemma ConcatSpan(e: seq<WordTiming>, rest: seq<WordTiming>)
    requires e != [] && Contiguous(e) && Contiguous(rest)
    requires rest != [] ==> e[|e| - 1].end == rest[0].start
    ensures Contiguous(e + rest) && (e + rest)[0] == e[0]
    ensures (e + rest)[|e + rest| - 1] == if rest == [] then e[|e| - 1] else rest[|rest| - 1]
  {
    ContiguousAppend(e, rest);
  }

  /** The expansion of a contiguous list is contiguous and spans the same interval. */
  lemma {:induction false} ExpandFromSpan(ts: seq<WordTiming>, i: nat)
    requires i <= |ts| && Contiguous(ts)
    ensures var r := ExpandFrom(ts, i);
      Contiguous(r) && (r == [] <==> i == |ts|)
      && (i < |ts| ==> r[0].start == ts[i].start && r[|r| - 1].end == ts[|ts| - 1].end)
    decreases |ts| - i
  {
    if i < |ts| {
      var s := StepAt(ts, i);
      var e, rest := s.emitted, ExpandFrom(ts, s.next);
      assert ExpandFrom(ts, i) == e + rest;
      ExpandFromSpan(ts, s.next);
      if s.next < |ts| {
        assert ts[s.next - 1].end == ts[s.next].start;
      }
      ConcatSpan(e, rest);
    }
  }

  /** Expanding keeps a contiguous list contiguous, from the same start to the same end. */
  lemma ExpandSpan(ts: seq<WordTiming>)
    requires Contiguous(ts)
    ensures var r := Expand(ts);
      Contiguous(r) && (r == [] <==> ts == [])
      && (ts != [] ==> r[0].start == ts[0].start && r[|r| - 1].end == ts[|ts| - 1].end)
  {
    ExpandFromSpan(ts, 0);
  }

  /** On a contiguous, well-formed list, no emitted interval ends before it starts. */
  lemma StepWellFormed(ts: seq<WordTiming>, i: nat)
    requires i < |ts| && Contiguous(ts) && WellFormed(ts)
    ensures WellFormed(StepAt(ts, i).emitted)
  {
    if Merges(ts, i) {
      RunBounds(ts, i, CloseIndex(ts, i));
    }
  }

  lemma {:induction false} ExpandFromWellFormed(ts: seq<WordTiming>, i: nat)
    requires i <= |ts| && Contiguous(ts) && WellFormed(ts)
    ensures WellFormed(ExpandFrom(ts, i))
    decreases |ts| - i
  {
    if i < |ts| {
      var s := StepAt(ts, i);
      StepWellFormed(ts, i);
      ExpandFromWellFormed(ts, s.next);
    }
  }

  /** Expanding a contiguous, well-formed list yields a well-formed list. */
  lemma ExpandWellFormed(ts: seq<WordTiming>)
    requires Contiguous(ts) && WellFormed(ts)
    ensures WellFormed(Expand(ts))
  {
    ExpandFromWellFormed(ts, 0);
  }

  /**
   * The expansion opens with a word that starts with a `(`-word only when
   * the first token starts with it too: a merged citation opens with its
   * first token, a chapter is a prefix of its verse reference, and a tens
   * token is digits.
   */
  lemma ExpandOpening(ts: seq<WordTiming>, p: string)
    requires ts != [] && IsWord(p) && p[0] == '('
    ensures Expand(ts) != [] && (StartsWith(Expand(ts)[0].word, p) ==> StartsWith(ts[0].word, p))
  {
    var s := StepAt(ts, 0);
    assert Expand(ts) == s.emitted + ExpandFrom(ts, s.next);
    var w, t := s.emitted[0].word, ts[0].word;
    if Merges(ts, 0) {
      var ws := Words(ts[0..CloseIndex(ts, 0) + 1]);
      assert w == JoinSpace(ws) && ws[0] == t;
      JoinSpaceOpensWith(ws, p);
    } else if IsVerseReference(t) {
      VerseParts(t);
      assert w == t[..IndexOf(t, ':')];
      if StartsWith(w, p) {
        StartsWithTrans(t, w, p);
      }
    } else if IsCompoundNumeral(t) {
      assert w == TensWord(IntegerPart(t));
      NotStartingWith(w, p);
    }
  }

  /** Nothing to expand: no `(`, no verse reference, no compound numeral. */
  predicate Plain(w: string) {
    '(' !in w && !IsVerseReference(w) && !IsCompoundNumeral(w)
  }

  lemma {:induction false} ExpandFromPlain(ts: seq<WordTiming>, i: nat)
    requires i <= |ts|
    requires forall k | 0 <= k < |ts| :: Plain(ts[k].word)
    ensures ExpandFrom(ts, i) == ts[i..]
    decreases |ts| - i
  {
    if i < |ts| {
      ExpandFromPlain(ts, i + 1);
      assert ts[i..] == [ts[i]] + ts[i + 1..];
    }
  }

  /** A list with nothing to expand comes back unchanged. */
  lemma ExpandPlain(ts: seq<WordTiming>)
    requires forall k | 0 <= k < |ts| :: Plain(ts[k].word)
    ensures Expand(ts) == ts
  {
    ExpandFromPlain(ts, 0);
  }

  lemma {:induction false} ExpandFromLength(ts: seq<WordTiming>, i: nat)
    requires i <= |ts|
    ensures |ExpandFrom(ts, i)| <= 2 * (|ts| - i)
    decreases |ts| - i
  {
    if i < |ts| {
      ExpandFromLength(ts, StepAt(ts, i).next);
    }
  }

  /** Every token becomes at most two. */
  lemma ExpandLength(ts: seq<WordTiming>)
    ensures |Expand(ts)| <= 2 * |ts|
  {
    ExpandFromLength(ts, 0);
  }

  /** The inner loop: collect the tokens from `i` up to and including the first that holds `)`. */
  method CollectCitation(wordTimings: seq<WordTiming>, i: nat) returns (citationParts: seq<WordTiming>, j: nat, citationEnd: real)
    requires i < |wordTimings|
    ensures j == CloseIndex(wordTimings, i)
    ensures citationParts == wordTimings[i..if j < |wordTimings| then j + 1 else j]
    ensures citationEnd == citationParts[|citationParts| - 1].end
  {
    citationParts := [];
    citationEnd := wordTimings[i].end;
    j := i;
    while j < |wordTimings|
      invariant i <= j <= |wordTimings|
      invariant citationParts == wordTimings[i..j]
      invariant CloseIndex(wordTimings, i) == CloseIndex(wordTimings, j)
      invariant citationEnd == if j == i then wordTimings[i].end else wordTimings[j - 1].end
      decreases |wordTimings| - j
    {
      var current := wordTimings[j];
      citationParts := citationParts + [current];
      citationEnd := current.end;
      if ')' in current.word {
        break;
      }
      j := j + 1;
    }
  }

  /** The verse-reference branch of the loop body: the chapter, then the verse or verse range, 60/40. */
  method AppendVerseReference(expanded: seq<WordTiming>, t: WordTiming) returns (expanded': seq<WordTiming>)
    requires IsVerseReference(t.word)
    ensures expanded' == expanded + ExpandToken(t)
  {
    var word, startTime, endTime := t.word, t.start, t.end;
    var duration := endTime - startTime;
    ExpandVerseReference(t);
    var parts := SplitOn(word, ':');
    // `c:v-w` and `c:v` are told apart and then treated alike.
    var chapterDuration := duration * 0.6;
    expanded' := expanded + [WordTiming(parts[0], startTime, startTime + chapterDuration)];
    AppendPair(expanded, expanded'[|expanded|], WordTiming(parts[1], startTime + chapterDuration, endTime));
    expanded' := expanded' + [WordTiming(parts[1], startTime + chapterDuration, endTime)];
  }

  /**
   * The numeral branch of the loop body: a numeral between 20 and 100
   * becomes its tens, then its ones, 60/40; when the ones digit is 0 the
   * tens token, once appended, is stretched to the end of the interval.
   */
  method AppendNumeral(expanded: seq<WordTiming>, t: WordTiming) returns (expanded': seq<WordTiming>)
    requires !IsVerseReference(t.word) && IsNumeral(t.word) && |t.word| > 1
    ensures expanded' == expanded + ExpandToken(t)
  {
    var word, startTime, endTime := t.word, t.start, t.end;
    var duration := endTime - startTime;
    var num := IntegerPart(word);
    if 20 < num < 100 {
      var tensDigit := num / 10;
      var onesDigit := num % 10;
      var firstDuration := duration * 0.6;
      var tens := WordTiming([DigitChar(tensDigit), '0'], startTime, startTime + firstDuration);
      expanded' := expanded + [tens];
      if onesDigit > 0 {
        var ones := WordTiming([DigitChar(onesDigit)], startTime + firstDuration, endTime);
        AppendPair(expanded, tens, ones);
        expanded' := expanded' + [ones];
      } else {
        var last := expanded'[|expanded'| - 1];
        ReplaceLast(expanded, tens, WordTiming(last.word, last.start, endTime));
        expanded' := expanded'[..|expanded'| - 1] + [WordTiming(last.word, last.start, endTime)];
      }
    } else {
      expanded' := expanded + [t];
    }
  }

  /** The loop body for a token that is not merged into a citation. */
  method AppendExpanded(expanded: seq<WordTiming>, t: WordTiming) returns (expanded': seq<WordTiming>)
    ensures expanded' == expanded + ExpandToken(t)
  {
    var word := t.word;
    if IsVerseReference(word) {
      expanded' := AppendVerseReference(expanded, t);
    } else if IsNumeral(word) && |word| > 1 {
      expanded' := AppendNumeral(expanded, t);
    } else {
      expanded' := expanded + [t];
    }
  }

  /** One iteration of the loop at `i`: a merged citation, or the token at `i` expanded on its own. */
  method ExpandAt(wordTimings: seq<WordTiming>, i: nat, expandedTimings: seq<WordTiming>)
    returns (expanded': seq<WordTiming>, next: nat)
    requires i < |wordTimings|
    ensures expanded' == expandedTimings + StepAt(wordTimings, i).emitted
    ensures next == StepAt(wordTimings, i).next
  {
    var t := wordTimings[i];
    if '(' in t.word {
      var citationParts, j, citationEnd := CollectCitation(wordTimings, i);
      if j < |wordTimings| && citationParts != [] {
        var citationText := JoinSpace(Words(citationParts));
        if ContainsCitation(citationText) {
          assert Merges(wordTimings, i);
          return expandedTimings + [WordTiming(citationText, t.start, citationEnd)], j + 1;
        }
      }
    }
    expanded' := AppendExpanded(expandedTimings, t);
    next := i + 1;
  }

  /** The pass from `i` is what the iteration at `i` emits, then the pass from where it moves on to. */
  lemma ExpandFromStep(ts: seq<WordTiming>, i: nat)
    requires i < |ts|
    ensures ExpandFrom(ts, i) == StepAt(ts, i).emitted + ExpandFrom(ts, StepAt(ts, i).next)
  {
  }

  lemma ConcatAssoc(a: seq<WordTiming>, b: seq<WordTiming>, c: seq<WordTiming>)
    ensures a + (b + c) == (a + b) + c
  {
  }

  /** `_expand_numeric_references`, with the source's index loop. */
  method ExpandNumericReferences(wordTimings: seq<WordTiming>) returns (expandedTimings: seq<WordTiming>)
    ensures expandedTimings == Expand(wordTimings)
  {
    expandedTimings := [];
    var i := 0;
    while i < |wordTimings|
      invariant i <= |wordTimings|
      invariant expandedTimings + ExpandFrom(wordTimings, i) == Expand(wordTimings)
      decreases |wordTimings| - i
    {
      ghost var step := StepAt(wordTimings, i);
      ExpandFromStep(wordTimings, i);
      var e', n' := ExpandAt(wordTimings, i, expandedTimings);
      ConcatAssoc(expandedTimings, step.emitted, ExpandFrom(wordTimings, step.next));
      expandedTimings, i := e', n';
    }
  }
}
