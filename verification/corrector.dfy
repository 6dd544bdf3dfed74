/**
 * The reference-order corrector: when a parenthesised citation of the
 * original text seems to have been put near the front of the word timings,
 * the run of timings that holds it is cut out and spliced back in at the
 * position the citation has in the text, counted in words. At most one run
 * is moved; when nothing is found to move, the timings come back unchanged.
 */
module Corrector {
  import opened Options
  import opened Text
  import opened Patterns
  import opened Timings

  /** The first index at or after `i` whose word starts with `key`, or `|words|`. */
  function FirstStarting(words: seq<string>, key: string, i: nat): (k: nat)
    requires i <= |words|
    ensures i <= k <= |words|
    ensures k < |words| ==> StartsWith(words[k], key)
    ensures forall m | i <= m < k :: !StartsWith(words[m], key)
    decreases |words| - i
  {
    if i == |words| || StartsWith(words[i], key) then i else FirstStarting(words, key, i + 1)
  }

  /** The first index at or after `i` whose word contains `)`, or `|words|`. */
  function FirstClosing(words: seq<string>, i: nat): (k: nat)
    requires i <= |words|
    ensures i <= k <= |words|
    ensures k < |words| ==> ')' in words[k]
    ensures forall m | i <= m < k :: ')' !in words[m]
    decreases |words| - i
  {
    if i == |words| || ')' in words[i] then i else FirstClosing(words, i + 1)
  }

  /** The run `words[first..last + 1]` taken to hold a citation. */
  datatype Block = Block(first: nat, last: nat)

  /**
   * Where the citation whose first word, without its `(`, is `key` sits in
   * `words`: from the first word after the very first that starts with `key`,
   * to the first word from there on that contains `)`.
   */
  function Locate(words: seq<string>, key: string): (r: Option<Block>)
    ensures r.Some? ==>
      var b := r.value;
      1 <= b.first <= b.last < |words|
      && StartsWith(words[b.first], key) && (forall m | 1 <= m < b.first :: !StartsWith(words[m], key))
      && ')' in words[b.last] && (forall m | b.first <= m < b.last :: ')' !in words[m])
    ensures r.None? ==> |words| <= 1 || FirstClosing(words, FirstStarting(words, key, 1)) == |words|
  {
    if |words| <= 1 then None
    else
      var s := FirstStarting(words, key, 1);
      var e := FirstClosing(words, s);
      if e == |words| then None else Some(Block(s, e))
  }

  /**
   * Cut `xs[first..last + 1]` out and put it back in front of the element
   * that is `target`-th among the rest (at the end when there are fewer).
   */
  function Splice<T>(xs: seq<T>, first: nat, last: nat, target: nat): (r: seq<T>)
    requires first <= last < |xs|
    ensures |r| == |xs|
  {
    var block := xs[first..last + 1];
    var rest := xs[..first] + xs[last + 1..];
    var t := Min(target, |rest|);
    rest[..t] + block + rest[t..]
  }

  function Min(a: nat, b: nat): nat {
    if a < b then a else b
  }

  /** Splicing only reorders: the same elements, as often as before. */
  lemma SplicePermutation<T>(xs: seq<T>, first: nat, last: nat, target: nat)
    requires first <= last < |xs|
    ensures multiset(Splice(xs, first, last, target)) == multiset(xs)
  {
    var block, before, after := xs[first..last + 1], xs[..first], xs[last + 1..];
    var rest := before + after;
    var t := Min(target, |rest|);
    assert xs == before + block + after;
    assert rest == rest[..t] + rest[t..];
    calc {
      multiset(Splice(xs, first, last, target));
      multiset(rest[..t]) + multiset(block) + multiset(rest[t..]);
      multiset(rest) + multiset(block);
      multiset(before) + multiset(after) + multiset(block);
      multiset(xs);
    }
  }

  /**
   * The block lands at `min(target, number of other elements)`, whole and in
   * order, and the other elements keep their order around it.
   */
  lemma SplicePlacement<T>(xs: seq<T>, first: nat, last: nat, target: nat)
    requires first <= last < |xs|
    ensures var r := Splice(xs, first, last, target);
      var n := last + 1 - first;
      var t := Min(target, |xs| - n);
      r[t..t + n] == xs[first..last + 1]
      && r[..t] + r[t + n..] == xs[..first] + xs[last + 1..]
  {
    var block := xs[first..last + 1];
    var rest := xs[..first] + xs[last + 1..];
    var t := Min(target, |rest|);
    var r := rest[..t] + block + rest[t..];
    assert r[t..t + |block|] == block;
    assert r[..t] == rest[..t];
    assert r[t + |block|..] == rest[t..];
  }

  /**
   * `r` is `xs` with its first `last + 1` elements taken out and put back,
   * whole and in order, in front of the `target`-th of the others (after all
   * of them when there are fewer), the others keeping their order.
   */
  ghost predicate MovedFront<T>(r: seq<T>, xs: seq<T>, last: nat, target: nat) {
    last < |xs|
    && var t := Min(target, |xs| - (last + 1));
    r == xs[last + 1..][..t] + xs[..last + 1] + xs[last + 1..][t..]
  }

  /** Splicing a block that opens the sequence moves it so. */
  lemma SpliceFront<T>(xs: seq<T>, last: nat, target: nat)
    requires last < |xs|
    ensures MovedFront(Splice(xs, 0, last, target), xs, last, target)
  {
    assert xs[0..last + 1] == xs[..last + 1];
    assert xs[..0] + xs[last + 1..] == xs[last + 1..];
  }

  /** `any(word.startswith(key) for word in words[:3])` */
  predicate NearFront(words: seq<string>, key: string) {
    exists k | 0 <= k < |words| && k < 3 :: StartsWith(words[k], key)
  }

  /** The first word of a citation, and that word without its `(`. */
  function FirstPart(ref: string): string
    requires Parenthesised(ref)
  {
    var parts := Split(ref);
    assert parts != [] by {
      assert !IsSpace(ref[0]);
    }
    parts[0]
  }

  function Key(ref: string): string
    requires Parenthesised(ref)
  {
    StripChar(FirstPart(ref), '(')
  }

  /** The citation looks misplaced: its key starts one of the first three words, and the text does not begin with the citation. */
  predicate Misplaced(text: string, words: seq<string>, ref: string)
    requires Parenthesised(ref)
  {
    NearFront(words, Key(ref)) && !StartsWith(Strip(text), FirstPart(ref))
  }

  /** The number of words of `text` before offset `pos`. */
  function WordsBefore(text: string, pos: nat): nat
    requires pos <= |text|
  {
    |Split(text[..pos])|
  }

  /** The attempt for one citation: the reordered timings, or nothing when there is nothing to move. */
  function TryReference(text: string, wt: seq<WordTiming>, ref: string): (r: Option<seq<WordTiming>>)
    requires Parenthesised(ref)
    ensures r.Some? <==> Moves(text, Words(wt), ref)
    ensures r.Some? ==> |r.value| == |wt|
  {
    var words := Words(wt);
    if !Misplaced(text, words, ref) then None
    else
      var pos := Find(text, ref);
      if pos <= 0 then None
      else
        match Locate(words, Key(ref))
        case None => None
        case Some(b) => Some(Splice(wt, b.first, b.last, WordsBefore(text, pos)))
  }

  /** The citations are tried in order; the first that can be moved is, and nothing else. */
  function CorrectWith(text: string, wt: seq<WordTiming>, refs: seq<string>): (r: seq<WordTiming>)
    requires forall k | 0 <= k < |refs| :: Parenthesised(refs[k])
    ensures |r| == |wt|
  {
    if refs == [] then wt
    else
      match TryReference(text, wt, refs[0])
      case Some(r) => r
      case None => CorrectWith(text, wt, refs[1..])
  }

  /** `_fix_reference_order` */
  function Correct(text: string, wt: seq<WordTiming>): (r: seq<WordTiming>)
    ensures |r| == |wt|
  {
    var refs := FindCitations(text);
    if refs == [] then wt else CorrectWith(text, wt, refs)
  }

  /** Fast path: a text without a citation leaves the timings as they are. */
  lemma CorrectFastPath(text: string, wt: seq<WordTiming>)
    requires !ContainsCitation(text)
    ensures Correct(text, wt) == wt
  {
    FindCitationsEmpty(text);
  }

  /**
   * The attempt for the citation succeeds: it looks misplaced, the text has
   * it after its first character, and its run is found.
   */
  predicate Moves(text: string, words: seq<string>, ref: string)
    requires Parenthesised(ref)
  {
    Misplaced(text, words, ref) && Find(text, ref) > 0 && Locate(words, Key(ref)).Some?
  }

  lemma {:induction false} CorrectWithUnmoved(text: string, wt: seq<WordTiming>, refs: seq<string>)
    requires forall k | 0 <= k < |refs| :: Parenthesised(refs[k]) && !Moves(text, Words(wt), refs[k])
    ensures CorrectWith(text, wt, refs) == wt
  {
    if refs != [] {
      CorrectWithSkip(text, wt, refs);
      assert forall k | 0 <= k < |refs[1..]| :: refs[1..][k] == refs[k + 1];
      CorrectWithUnmoved(text, wt, refs[1..]);
    }
  }

  /** When no citation of the text moves, the timings come back unchanged. */
  lemma CorrectUnmoved(text: string, wt: seq<WordTiming>)
    requires forall k | 0 <= k < |FindCitations(text)| :: !Moves(text, Words(wt), FindCitations(text)[k])
    ensures Correct(text, wt) == wt
  {
    if FindCitations(text) != [] {
      CorrectWithUnmoved(text, wt, FindCitations(text));
    }
  }

  /** A citation that does not move passes the turn to the next. */
  lemma CorrectWithSkip(text: string, wt: seq<WordTiming>, refs: seq<string>)
    requires forall k | 0 <= k < |refs| :: Parenthesised(refs[k])
    requires refs != [] && !Moves(text, Words(wt), refs[0])
    ensures CorrectWith(text, wt, refs) == CorrectWith(text, wt, refs[1..])
  {
    assert TryReference(text, wt, refs[0]).None?;
  }

  lemma {:induction false} CorrectWithFirstMover(text: string, wt: seq<WordTiming>, refs: seq<string>, i: nat, k: nat)
    requires forall j | 0 <= j < |refs| :: Parenthesised(refs[j])
    requires i <= k < |refs| && Moves(text, Words(wt), refs[k])
    requires forall j | i <= j < k :: !Moves(text, Words(wt), refs[j])
    ensures var b := Locate(Words(wt), Key(refs[k])).value;
      b.last < |wt| && CorrectWith(text, wt, refs[i..]) == Splice(wt, b.first, b.last, WordsBefore(text, Find(text, refs[k])))
    decreases k - i
  {
    var tail := refs[i..];
    assert tail[0] == refs[i] && tail[1..] == refs[i + 1..];
    if i == k {
      TryReferenceSplice(text, wt, refs[k]);
    } else {
      CorrectWithSkip(text, wt, tail);
      CorrectWithFirstMover(text, wt, refs, i + 1, k);
    }
  }

  /**
   * Otherwise the first citation of the text that moves decides the result:
   * its run, as located, is spliced to the number of words before it.
   */
  lemma CorrectFirstMover(text: string, wt: seq<WordTiming>, k: nat)
    requires k < |FindCitations(text)| && Moves(text, Words(wt), FindCitations(text)[k])
    requires forall j | 0 <= j < k :: !Moves(text, Words(wt), FindCitations(text)[j])
    ensures var ref := FindCitations(text)[k]; var b := Locate(Words(wt), Key(ref)).value;
      b.last < |wt| && Correct(text, wt) == Splice(wt, b.first, b.last, WordsBefore(text, Find(text, ref)))
  {
    CorrectWithFirstMover(text, wt, FindCitations(text), 0, k);
    assert FindCitations(text)[0..] == FindCitations(text);
  }

  /** A citation that does not look misplaced, or whose run cannot be found, changes nothing. */
  lemma TryReferenceNone(text: string, wt: seq<WordTiming>, ref: string)
    requires Parenthesised(ref)
    requires !Misplaced(text, Words(wt), ref) || Find(text, ref) <= 0 || Locate(Words(wt), Key(ref)).None?
    ensures TryReference(text, wt, ref).None?
  {
  }

  /**
   * The key has lost its `(`, but the words it is compared with keep theirs:
   * a word that still opens with `(` never starts with a non-empty key. So
   * the citation's own first word, as long as it is bracketed, is never taken
   * for the citation.
   */
  lemma BracketedWordUnmatched(w: string, ref: string)
    requires Parenthesised(ref) && Key(ref) != []
    requires w != [] && w[0] == '('
    ensures !StartsWith(w, Key(ref))
  {
    var k := Key(ref);
    assert w[0] != k[0];
    assert |k| <= |w| ==> w[..|k|][0] == w[0];
  }

  /** `r` is `xs`, or `xs` with one contiguous run moved. */
  ghost predicate OneSplice<T>(xs: seq<T>, r: seq<T>) {
    r == xs || exists s: nat, e: nat, t: nat | s <= e < |xs| :: r == Splice(xs, s, e, t)
  }

  /** A successful attempt moves the run it located, to the number of words before the citation in the text. */
  lemma TryReferenceSplice(text: string, wt: seq<WordTiming>, ref: string)
    requires Parenthesised(ref) && TryReference(text, wt, ref).Some?
    ensures var pos := Find(text, ref); var b := Locate(Words(wt), Key(ref));
      pos > 0 && b.Some? && b.value.last < |wt|
      && TryReference(text, wt, ref).value == Splice(wt, b.value.first, b.value.last, WordsBefore(text, pos))
  {
  }

  lemma {:induction false} CorrectWithOneSplice(text: string, wt: seq<WordTiming>, refs: seq<string>)
    requires forall k | 0 <= k < |refs| :: Parenthesised(refs[k])
    ensures OneSplice(wt, CorrectWith(text, wt, refs))
  {
    if refs != [] {
      var attempt := TryReference(text, wt, refs[0]);
      if attempt.Some? {
        TryReferenceSplice(text, wt, refs[0]);
        var b := Locate(Words(wt), Key(refs[0])).value;
        var t := WordsBefore(text, Find(text, refs[0]));
        assert CorrectWith(text, wt, refs) == Splice(wt, b.first, b.last, t);
      } else {
        CorrectWithOneSplice(text, wt, refs[1..]);
      }
    }
  }

  /** The corrector either returns its input or moves one contiguous run of it, and nothing else. */
  lemma CorrectOneSplice(text: string, wt: seq<WordTiming>)
    ensures OneSplice(wt, Correct(text, wt))
  {
    if FindCitations(text) != [] {
      CorrectWithOneSplice(text, wt, FindCitations(text));
    }
  }

  /** Moving one run only reorders. */
  lemma OneSplicePermutation<T>(xs: seq<T>, r: seq<T>)
    requires OneSplice(xs, r)
    ensures multiset(r) == multiset(xs) && |r| == |xs|
  {
    if r != xs {
      var s: nat, e: nat, t: nat :| s <= e < |xs| && r == Splice(xs, s, e, t);
      SplicePermutation(xs, s, e, t);
    }
  }

  /** The corrector only permutes: no timing is lost, duplicated or changed. */
  lemma CorrectPermutation(text: string, wt: seq<WordTiming>)
    ensures multiset(Correct(text, wt)) == multiset(wt)
    ensures |Correct(text, wt)| == |wt|
  {
    CorrectOneSplice(text, wt);
    OneSplicePermutation(wt, Correct(text, wt));
  }

  /**
   * As written, a citation put at the very front of the timings stays there:
   * its first word still opens with `(`, so it never starts with the key, and
   * when the next two words do not either, nothing looks misplaced.
   */
  lemma FrontCitationKept(text: string, wt: seq<WordTiming>)
    requires |FindCitations(text)| == 1 && Key(FindCitations(text)[0]) != []
    requires wt != [] && wt[0].word != [] && wt[0].word[0] == '('
    requires forall k | 1 <= k < |wt| && k < 3 :: !StartsWith(wt[k].word, Key(FindCitations(text)[0]))
    ensures Correct(text, wt) == wt
  {
    var refs := FindCitations(text);
    assert TryReference(text, wt, refs[0]).None? by {
      BracketedFrontNone(text, wt, refs[0]);
    }
    assert CorrectWith(text, wt, refs[1..]) == wt by {
      assert refs[1..] == [];
    }
  }

  /** A run that still opens with `(` is not seen near the front. */
  lemma BracketedFrontNone(text: string, wt: seq<WordTiming>, ref: string)
    requires Parenthesised(ref) && Key(ref) != []
    requires wt != [] && wt[0].word != [] && wt[0].word[0] == '('
    requires forall k | 1 <= k < |wt| && k < 3 :: !StartsWith(wt[k].word, Key(ref))
    ensures TryReference(text, wt, ref).None?
  {
    var words := Words(wt);
    assert !NearFront(words, Key(ref)) by {
      BracketedNotNearFront(words, ref);
    }
    TryReferenceNone(text, wt, ref);
  }

  lemma BracketedNotNearFront(words: seq<string>, ref: string)
    requires Parenthesised(ref) && Key(ref) != []
    requires words != [] && words[0] != [] && words[0][0] == '('
    requires forall k | 1 <= k < |words| && k < 3 :: !StartsWith(words[k], Key(ref))
    ensures !NearFront(words, Key(ref))
  {
    BracketedWordUnmatched(words[0], ref);
  }

  // The corrector as its documentation describes it: a citation whose run of
  // timings was put at the beginning of the timings is moved back to where
  // the citation stands in the text. The run is recognised by its words,
  // which spell the citation, either as the citation's own tokens or as the
  // single token the expander merges them into.

  /**
   * The run from word `s` to the first word from there with `)` spells the
   * citation: its words, joined by single spaces, are the citation's.
   */
  predicate SpellsAt(words: seq<string>, s: nat, ref: string)
    requires s <= |words|
  {
    var e := FirstClosing(words, s);
    e < |words| && JoinSpace(words[s..e + 1]) == JoinSpace(Split(ref))
  }

  /** The first word of a citation is a word that opens with `(`. */
  lemma FirstPartOpens(ref: string)
    requires Parenthesised(ref)
    ensures IsWord(FirstPart(ref)) && FirstPart(ref)[0] == '('
  {
    assert !IsSpace(ref[0]);
  }

  /** A run that spells the citation opens with the citation's first word. */
  lemma SpellsOpening(words: seq<string>, s: nat, ref: string)
    requires s <= |words| && Parenthesised(ref) && SpellsAt(words, s, ref)
    ensures s < |words| && StartsWith(words[s], FirstPart(ref))
  {
    var run := words[s..FirstClosing(words, s) + 1];
    var parts := Split(ref);
    FirstPartOpens(ref);
    assert parts != [] && parts[0] == FirstPart(ref);
    JoinSpaceOpens(parts);
    JoinSpaceOpensWith(run, FirstPart(ref));
    assert run[0] == words[s];
  }

  /**
   * The run of the citation, when it opens the timings: found exactly when the
   * words from the first to the first with `)` spell the citation, and then
   * opening with the citation's first word.
   */
  function LocateIntended(words: seq<string>, ref: string): (r: Option<Block>)
    requires Parenthesised(ref)
    ensures r.Some? <==> SpellsAt(words, 0, ref)
    ensures r.Some? ==>
      r.value.first == 0 && r.value.last == FirstClosing(words, 0) < |words|
      && StartsWith(words[0], FirstPart(ref))
  {
    if SpellsAt(words, 0, ref) then
      SpellsOpening(words, 0, ref);
      Some(Block(0, FirstClosing(words, 0)))
    else None
  }

  /**
   * The documented attempt for one citation: it succeeds exactly when the text
   * does not open with the citation, finds it after its first character, and
   * the timings open with its run.
   */
  function TryReferenceIntended(text: string, wt: seq<WordTiming>, ref: string): (r: Option<seq<WordTiming>>)
    requires Parenthesised(ref)
    ensures r.Some? <==>
      !StartsWith(Strip(text), FirstPart(ref)) && Find(text, ref) > 0 && LocateIntended(Words(wt), ref).Some?
    ensures r.Some? ==> |r.value| == |wt|
  {
    if StartsWith(Strip(text), FirstPart(ref)) then None
    else
      var pos := Find(text, ref);
      if pos <= 0 then None
      else
        match LocateIntended(Words(wt), ref)
        case None => None
        case Some(b) => Some(Splice(wt, b.first, b.last, WordsBefore(text, pos)))
  }

  function CorrectWithIntended(text: string, wt: seq<WordTiming>, refs: seq<string>): (r: seq<WordTiming>)
    requires forall k | 0 <= k < |refs| :: Parenthesised(refs[k])
    ensures |r| == |wt|
  {
    if refs == [] then wt
    else
      match TryReferenceIntended(text, wt, refs[0])
      case Some(r) => r
      case None => CorrectWithIntended(text, wt, refs[1..])
  }

  /** The corrector as documented. */
  function CorrectIntended(text: string, wt: seq<WordTiming>): (r: seq<WordTiming>)
    ensures |r| == |wt|
  {
    var refs := FindCitations(text);
    if refs == [] then wt else CorrectWithIntended(text, wt, refs)
  }

  /**
   * As documented, a citation whose run of timings was put at the front is
   * moved back to where the citation stands in the text, counted in words:
   * the run lands whole at that position (clamped to the length), and the
   * other timings keep their order around it.
   */
  lemma CorrectIntendedRelocates(text: string, wt: seq<WordTiming>, ref: string, last: nat, target: nat)
    requires OpensWithCitation(text, wt, ref, last, target)
    ensures MovedFront(CorrectIntended(text, wt), wt, last, target)
  {
    CorrectIntendedFront(text, wt, ref, last, target);
    SpliceFront(wt, last, target);
  }

  /**
   * The case the documentation is about: `ref` is the first citation of the
   * text and the text does not open with it; it stands after `target` words;
   * the timings open with its run, which ends at `last`, the first word with
   * `)`, and whose words spell the citation.
   */
  ghost predicate OpensWithCitation(text: string, wt: seq<WordTiming>, ref: string, last: nat, target: nat) {
    FindCitations(text) != [] && ref == FindCitations(text)[0]
    && Find(text, ref) > 0 && !StartsWith(Strip(text), FirstPart(ref))
    && target == WordsBefore(text, Find(text, ref))
    && SpellsAt(Words(wt), 0, ref) && last == FirstClosing(Words(wt), 0)
  }

  /** The documented corrector splices the front run of the first citation to its place. */
  lemma CorrectIntendedFront(text: string, wt: seq<WordTiming>, ref: string, last: nat, target: nat)
    requires OpensWithCitation(text, wt, ref, last, target)
    ensures last < |wt| && CorrectIntended(text, wt) == Splice(wt, 0, last, target)
  {
    TryIntendedFront(text, wt, ref);
  }

  /** The step of the relocation for one citation whose run opens the timings. */
  lemma TryIntendedFront(text: string, wt: seq<WordTiming>, ref: string)
    requires Parenthesised(ref) && 0 < Find(text, ref) <= |text|
    requires !StartsWith(Strip(text), FirstPart(ref))
    requires SpellsAt(Words(wt), 0, ref)
    ensures FirstClosing(Words(wt), 0) < |wt|
    ensures TryReferenceIntended(text, wt, ref)
      == Some(Splice(wt, 0, FirstClosing(Words(wt), 0), WordsBefore(text, Find(text, ref))))
  {
  }

  /**
   * The timings open with the citation's first word only when the text,
   * stripped, does too, as timings that follow the text do.
   */
  ghost predicate OpensLikeText(text: string, words: seq<string>, ref: string)
    requires Parenthesised(ref)
  {
    words != [] && StartsWith(words[0], FirstPart(ref)) ==> StartsWith(Strip(text), FirstPart(ref))
  }

  /** A citation for which the timings open like the text is not moved. */
  lemma TryIntendedOpensLikeText(text: string, wt: seq<WordTiming>, ref: string)
    requires Parenthesised(ref) && OpensLikeText(text, Words(wt), ref)
    ensures TryReferenceIntended(text, wt, ref).None?
  {
  }

  lemma {:induction false} CorrectWithIntendedOpensLikeText(text: string, wt: seq<WordTiming>, refs: seq<string>)
    requires forall k | 0 <= k < |refs| :: Parenthesised(refs[k]) && OpensLikeText(text, Words(wt), refs[k])
    ensures CorrectWithIntended(text, wt, refs) == wt
  {
    if refs != [] {
      TryIntendedOpensLikeText(text, wt, refs[0]);
      assert forall k | 0 <= k < |refs[1..]| :: refs[1..][k] == refs[k + 1];
      CorrectWithIntendedOpensLikeText(text, wt, refs[1..]);
    }
  }

  /** Timings that open like the text, for every citation of it, come back unchanged. */
  lemma CorrectIntendedOpensLikeText(text: string, wt: seq<WordTiming>)
    requires forall k | 0 <= k < |FindCitations(text)| :: OpensLikeText(text, Words(wt), FindCitations(text)[k])
    ensures CorrectIntended(text, wt) == wt
  {
    if FindCitations(text) != [] {
      CorrectWithIntendedOpensLikeText(text, wt, FindCitations(text));
    }
  }

  /**
   * Timings that follow the text, one per word of it, come back unchanged
   * from the documented corrector: correcting them is a no-op.
   */
  lemma CorrectIntendedInOrder(text: string, wt: seq<WordTiming>)
    requires Words(wt) == Split(text)
    ensures CorrectIntended(text, wt) == wt
  {
    var refs := FindCitations(text);
    forall k | 0 <= k < |refs| ensures OpensLikeText(text, Words(wt), refs[k]) {
      var p := FirstPart(refs[k]);
      if Split(text) != [] && StartsWith(Split(text)[0], p) {
        StripFirstWord(text);
        StartsWithTrans(Strip(text), Split(text)[0], p);
      }
    }
    CorrectIntendedOpensLikeText(text, wt);
  }

  lemma {:induction false} CorrectWithIntendedOneSplice(text: string, wt: seq<WordTiming>, refs: seq<string>)
    requires forall k | 0 <= k < |refs| :: Parenthesised(refs[k])
    ensures OneSplice(wt, CorrectWithIntended(text, wt, refs))
  {
    if refs != [] {
      var attempt := TryReferenceIntended(text, wt, refs[0]);
      if attempt.Some? {
        var b := LocateIntended(Words(wt), refs[0]).value;
        var t := WordsBefore(text, Find(text, refs[0]));
        assert CorrectWithIntended(text, wt, refs) == Splice(wt, b.first, b.last, t);
      } else {
        CorrectWithIntendedOneSplice(text, wt, refs[1..]);
      }
    }
  }

  /** The documented corrector only permutes too. */
  lemma CorrectIntendedPermutation(text: string, wt: seq<WordTiming>)
    ensures multiset(CorrectIntended(text, wt)) == multiset(wt)
    ensures |CorrectIntended(text, wt)| == |wt|
  {
    if FindCitations(text) != [] {
      CorrectWithIntendedOneSplice(text, wt, FindCitations(text));
    }
    OneSplicePermutation(wt, CorrectIntended(text, wt));
  }

  /** The search loop: `ref_start` and `ref_end` as the source finds them, -1 when not found. */
  method LocateReference(words: seq<string>, key: string) returns (refStart: int, refEnd: int)
    ensures Locate(words, key).Some? ==>
      (refStart == Locate(words, key).value.first && refEnd == Locate(words, key).value.last)
    ensures Locate(words, key).None? ==> refStart == -1 || refEnd == -1
  {
    refStart, refEnd := -1, -1;
    for i := 0 to |words|
      invariant refEnd == -1
      invariant refStart == -1 ==> i <= 1 || FirstStarting(words, key, 1) >= i
      invariant refStart != -1 ==>
        (1 <= i && refStart == FirstStarting(words, key, 1) < i && FirstClosing(words, refStart) >= i)
    {
      var word := words[i];
      if i > 0 && refStart == -1 && StartsWith(word, key) {
        refStart := i;
      }
      if refStart != -1 && refEnd == -1 {
        if ')' in word {
          refEnd := i;
          break;
        }
      }
    }
  }

  /** The move itself: find the run, cut it out, and put it back in at the clamped target position. */
  method MoveReference(wordTimings: seq<WordTiming>, words: seq<string>, key: string, targetPosition: nat)
    returns (found: bool, reorderedTimings: seq<WordTiming>)
    requires words == Words(wordTimings)
    ensures found <==> Locate(words, key).Some?
    ensures found ==> (var b := Locate(words, key).value;
      b.last < |wordTimings| && reorderedTimings == Splice(wordTimings, b.first, b.last, targetPosition))
  {
    found, reorderedTimings := false, [];
    var refStart, refEnd := LocateReference(words, key);
    if refStart != -1 && refEnd != -1 {
      var refTimings := wordTimings[refStart..refEnd + 1];
      var newTimings := wordTimings[..refStart] + wordTimings[refEnd + 1..];
      var target := Min(targetPosition, |newTimings|);
      reorderedTimings := newTimings[..target] + refTimings + newTimings[target..];
      found := true;
    }
  }

  /** The body of the loop over the citations, for one citation. */
  method TryReferenceAt(originalText: string, wordTimings: seq<WordTiming>, words: seq<string>, ref: string)
    returns (found: bool, reorderedTimings: seq<WordTiming>)
    requires Parenthesised(ref) && words == Words(wordTimings)
    ensures found <==> TryReference(originalText, wordTimings, ref).Some?
    ensures found ==> reorderedTimings == TryReference(originalText, wordTimings, ref).value
  {
    found, reorderedTimings := false, [];
    var firstPart := FirstPart(ref);
    var key := Key(ref);
    if NearFront(words, key) && !StartsWith(Strip(originalText), firstPart) {
      var refPosInText := Find(originalText, ref);
      if refPosInText > 0 {
        var targetPosition := WordsBefore(originalText, refPosInText);
        found, reorderedTimings := MoveReference(wordTimings, words, key, targetPosition);
      } else {
        TryReferenceNone(originalText, wordTimings, ref);
      }
    } else {
      TryReferenceNone(originalText, wordTimings, ref);
    }
  }

  /** `_fix_reference_order`, with the source's loop over the citations. */
  method FixReferenceOrder(originalText: string, wordTimings: seq<WordTiming>) returns (result: seq<WordTiming>)
    ensures result == Correct(originalText, wordTimings)
  {
    var parentheticalRefs := FindCitations(originalText);
    if parentheticalRefs == [] {
      return wordTimings;
    }
    var words := Words(wordTimings);
    for k := 0 to |parentheticalRefs|
      invariant CorrectWith(originalText, wordTimings, parentheticalRefs[k..]) == Correct(originalText, wordTimings)
    {
      var ref := parentheticalRefs[k];
      var found, reorderedTimings := TryReferenceAt(originalText, wordTimings, words, ref);
      assert parentheticalRefs[k..][0] == ref && parentheticalRefs[k..][1..] == parentheticalRefs[k + 1..];
      if found {
        return reorderedTimings;
      }
    }
    return wordTimings;
  }
}
