/**
 * One text and its timings in the text's own order, which the corrector as
 * written reorders (the documented corrector leaves every such list as it is,
 * `Corrector.CorrectIntendedInOrder`). The text has one
 * citation, `(see 7:28)`, whose first word without its `(` is `see`, and
 * `see` is also the text's second word.
 */
module ReorderExample {
  import opened Options
  import opened Text
  import opened Patterns
  import opened Timings
  import opened Corrector

  const ExampleRef: string := "(see 7:28)"
  const ExampleText: string := "We see " + ExampleRef + " it"
  const ExampleWords: seq<string> := ["We", "see", "(see", "7:28)", "it"]

  /** The words of the text are its whitespace-delimited tokens. */
  lemma ExampleSplit()
    ensures Split(ExampleText) == ExampleWords
  {
    var ws := ExampleWords;
    assert ExampleText == JoinSpace(ws);
    forall i | 0 <= i < |ws| ensures IsWord(ws[i]) {
      assert ws[i] != [] && forall k | 0 <= k < |ws[i]| :: ws[i][k] != ' ' && !IsSpace(ws[i][k]);
    }
    SplitJoin(ws);
  }

  /** The citation, its first word and its key. */
  lemma ExampleRefParts()
    ensures Parenthesised(ExampleRef)
    ensures Split(ExampleRef) == ["(see", "7:28)"] && JoinSpace(Split(ExampleRef)) == ExampleRef
    ensures FirstPart(ExampleRef) == "(see" && Key(ExampleRef) == "see"
  {
    var parts := ["(see", "7:28)"];
    ExampleRefJoined();
    SplitJoin(parts);
    assert StripChar("(see", '(') == "see" by {
      StripOpening("(see", '(');
      assert "(see"[1..] == "see";
    }
  }

  /** The citation is its two words joined by a space. */
  lemma ExampleRefJoined()
    ensures ExampleRef == JoinSpace(["(see", "7:28)"]) && Parenthesised(ExampleRef)
    ensures IsWord("(see") && IsWord("7:28)")
  {
    assert forall c | c in "(see7:28)" :: !IsSpace(c);
  }

  /** The one match of the pattern opens at offset 7 and closes at offset 16. */
  lemma ExampleSpan()
    ensures CitationEnd(ExampleText, 7) == Some(16) && ExampleText[7..17] == ExampleRef
  {
    var t := ExampleText;
    assert t[7..17] == ExampleRef;
    ExampleClose();
    ExampleColon();
  }

  /** The first `)` after the `(` at offset 7 is eight characters on. */
  lemma ExampleClose()
    ensures ExampleText[7] == '(' && IndexOf(ExampleText[8..], ')') == 8
  {
    var after := ExampleText[8..];
    assert after == "see 7:28) it";
    IndexOfAt(after, ')', 8);
  }

  /** Between the parentheses stands a digit, a colon and a digit. */
  lemma ExampleColon()
    ensures HasVerseColon(ExampleText[8..16])
  {
    var inner := ExampleText[8..16];
    assert inner == "see 7:28";
    assert inner[5] == ':' && IsDigit(inner[4]) && IsDigit(inner[6]);
  }

  /** The pattern finds exactly the one citation. */
  lemma ExampleCitations()
    ensures FindCitations(ExampleText) == [ExampleRef]
  {
    var t := ExampleText;
    ExampleOpenings();
    FindCitationsFromUnopened(t, 19);
    FindCitationsFromUnopened(t, 18);
    FindCitationsFromUnopened(t, 17);
    assert FindCitationsFrom(t, 7) == [ExampleRef] + FindCitationsFrom(t, 17) by {
      ExampleSpan();
    }
    FindCitationsFromUnopened(t, 6);
    FindCitationsFromUnopened(t, 5);
    FindCitationsFromUnopened(t, 4);
    FindCitationsFromUnopened(t, 3);
    FindCitationsFromUnopened(t, 2);
    FindCitationsFromUnopened(t, 1);
    FindCitationsFromUnopened(t, 0);
  }

  /** The only `(` of the text is at offset 7. */
  lemma ExampleOpenings()
    ensures |ExampleText| == 20
    ensures forall i | 0 <= i < 7 :: ExampleText[i] != '('
    ensures forall i | 17 <= i < 20 :: ExampleText[i] != '('
  {
  }

  /** The citation starts at offset 7, after two words of the text. */
  lemma ExamplePosition()
    ensures Find(ExampleText, ExampleRef) == 7 && WordsBefore(ExampleText, 7) == 2
  {
    var t, r := ExampleText, ExampleRef;
    assert OccursAt(t, r, 7) by {
      ExampleSpan();
    }
    ExampleOpenings();
    forall i: nat | i < 7 ensures !OccursAt(t, r, i) {
      assert t[i..i + |r|][0] == t[i];
    }
    assert FindFrom(t, r, 7) == 7;
    assert t[..7] == "We see ";
    ExampleWordsBefore();
  }

  /** The text before the citation splits into two words. */
  lemma ExampleWordsBefore()
    ensures Split("We see ") == ["We", "see"]
  {
    assert IsWord("We") && IsWord("see") by {
      assert !IsSpace('W') && !IsSpace('e') && !IsSpace('s');
    }
    assert "We see " == "We" + (" " + ("see" + (" " + [])));
    SplitWordThen("see", " " + []);
    SplitSpaceThen([]);
    SplitSpaceThen("see" + (" " + []));
    SplitWordThen("We", " " + ("see" + (" " + [])));
  }

  /** The text does not open with the citation's first word. */
  lemma ExampleNotOpening()
    ensures !StartsWith(Strip(ExampleText), FirstPart(ExampleRef))
  {
    ExampleEnds();
    StripUntouched(ExampleText);
    assert FirstPart(ExampleRef) == "(see" by {
      ExampleRefParts();
    }
    NotStartingWith(ExampleText, "(see");
  }

  /** The text opens with `W` and closes with `t`. */
  lemma ExampleEnds()
    ensures |ExampleText| == 20 && ExampleText[0] == 'W' && ExampleText[19] == 't'
    ensures !IsSpace('W') && !IsSpace('t')
  {
  }

  /** Only the fourth word holds a `)`. */
  lemma ExampleClosing()
    ensures FirstClosing(ExampleWords, 0) == 3 && FirstClosing(ExampleWords, 1) == 3
    ensures FirstClosing(ExampleWords, 2) == 3
  {
    var ws := ExampleWords;
    assert ws[3][4] == ')';
    assert ')' !in ws[2] by {
      assert ws[2] == "(see";
    }
    assert ')' !in ws[1] && ')' !in ws[0];
  }

  /**
   * As written, timings that already follow the text are reordered: the text's
   * second word `see` starts with the key, so the run from it to `7:28)` is
   * taken for the citation and spliced after the next two other words.
   */
  lemma CorrectScramblesInOrder(wt: seq<WordTiming>)
    requires Words(wt) == Split(ExampleText)
    ensures |wt| == 5 && Correct(ExampleText, wt) == [wt[0], wt[4], wt[1], wt[2], wt[3]]
  {
    assert Words(wt) == ExampleWords by {
      ExampleSplit();
    }
    assert FindCitations(ExampleText) == [ExampleRef] by {
      ExampleCitations();
    }
    ExampleMoves();
    CorrectFirstMover(ExampleText, wt, 0);
    SpliceSecondToFourth(wt);
  }

  /** As written, the citation moves: its key starts the second word, and the run from there is spliced after two words. */
  lemma ExampleMoves()
    ensures Moves(ExampleText, ExampleWords, ExampleRef)
    ensures Locate(ExampleWords, Key(ExampleRef)) == Some(Block(1, 3))
    ensures Find(ExampleText, ExampleRef) == 7 && WordsBefore(ExampleText, 7) == 2
  {
    assert Key(ExampleRef) == "see" by {
      ExampleRefParts();
    }
    ExampleLocate();
    ExampleNotOpening();
    ExamplePosition();
  }

  /** The key `see` starts the second word, and the run from it ends at the fourth. */
  lemma ExampleLocate()
    ensures NearFront(ExampleWords, "see") && Locate(ExampleWords, "see") == Some(Block(1, 3))
  {
    ExampleClosing();
    assert StartsWith(ExampleWords[1], "see");
    assert FirstStarting(ExampleWords, "see", 1) == 1;
  }

  /** Moving the second to fourth of five elements after the next two others. */
  lemma SpliceSecondToFourth<T>(xs: seq<T>)
    requires |xs| == 5
    ensures Splice(xs, 1, 3, 2) == [xs[0], xs[4], xs[1], xs[2], xs[3]]
  {
    var rest := xs[..1] + xs[4..];
    assert rest == [xs[0], xs[4]];
    assert xs[1..4] == [xs[1], xs[2], xs[3]];
  }
}
