/** The standard optional value, for lookups that may find nothing. */
module Options {
  datatype Option<+T> = None | Some(value: T)
}

/**
 * The three regular expressions of the timing engine, written as predicates on
 * strings:
 *   verse reference   `^\d+:\d+(-\d+)?$`
 *   numeral           `^\d+(\.\d+)?$`
 *   citation          `\([^)]*\d+:\d+[^)]*\)`
 * `\d` is an ASCII digit here.
 */
module Patterns {
  import opened Options

  predicate IsDigit(c: char) {
    '0' <= c <= '9'
  }

  /** `\d+` matching the whole of `s`. */
  predicate AllDigits(s: string) {
    s != [] && forall i | 0 <= i < |s| :: IsDigit(s[i])
  }

  /** The index of the first `c` in `s`, or `|s|` when there is none. */
  function IndexOf(s: string, c: char): (k: nat)
    ensures k <= |s|
    ensures k < |s| ==> s[k] == c
    ensures forall i | 0 <= i < k :: s[i] != c
  {
    if s == [] || s[0] == c then 0 else 1 + IndexOf(s[1..], c)
  }

  /** The first `c` of `s` is where `c` occurs with none before it. */
  lemma {:induction false} IndexOfAt(s: string, c: char, k: nat)
    requires k < |s| && s[k] == c && forall i | 0 <= i < k :: s[i] != c
    ensures IndexOf(s, c) == k
  {
    if k > 0 {
      IndexOfAt(s[1..], c, k - 1);
    }
  }

  /** `\d+(-\d+)?` matching the whole of `s`. */
  predicate RangeShape(s: string) {
    var d := IndexOf(s, '-');
    if d == |s| then AllDigits(s) else AllDigits(s[..d]) && AllDigits(s[d + 1..])
  }

  /** `\d+:\d+(-\d+)?` matching the whole of `s`. */
  predicate VerseShape(s: string) {
    var c := IndexOf(s, ':');
    c < |s| && AllDigits(s[..c]) && RangeShape(s[c + 1..])
  }

  /** `\d+(\.\d+)?` matching the whole of `s`. */
  predicate NumeralShape(s: string) {
    var d := IndexOf(s, '.');
    if d == |s| then AllDigits(s) else AllDigits(s[..d]) && AllDigits(s[d + 1..])
  }

  /** Python's `$` also matches just before a newline that ends the string. */
  predicate EndsWithNewline(s: string) {
    s != [] && s[|s| - 1] == '\n'
  }

  /** `re.match(r'^\d+:\d+(-\d+)?$', w)` */
  predicate IsVerseReference(w: string) {
    VerseShape(w) || (EndsWithNewline(w) && VerseShape(w[..|w| - 1]))
  }

  /** `re.match(r'^\d+(\.\d+)?$', w)` */
  predicate IsNumeral(w: string) {
    NumeralShape(w) || (EndsWithNewline(w) && NumeralShape(w[..|w| - 1]))
  }

  lemma RangeChars(r: string)
    requires RangeShape(r)
    ensures forall m | 0 <= m < |r| :: IsDigit(r[m]) || r[m] == '-'
  {
    var d := IndexOf(r, '-');
    if d < |r| {
      forall m | 0 <= m < |r|
        ensures IsDigit(r[m]) || r[m] == '-'
      {
        if m < d {
          assert r[..d][m] == r[m];
        } else if m > d {
          assert r[d + 1..][m - d - 1] == r[m];
        }
      }
    }
  }

  /** No digit, colon, dash or point is a parenthesis. */
  predicate Unparenthesised(w: string) {
    '(' !in w && ')' !in w
  }

  /** A verse-shaped string has one colon and no parenthesis. */
  lemma VerseShapeChars(s: string)
    requires VerseShape(s)
    ensures IndexOf(s, ':') < |s|
    ensures forall m | IndexOf(s, ':') < m < |s| :: s[m] != ':'
    ensures Unparenthesised(s)
  {
    var c := IndexOf(s, ':');
    RangeChars(s[c + 1..]);
    forall m | 0 <= m < |s|
      ensures s[m] != '(' && s[m] != ')'
      ensures m > c ==> s[m] != ':'
    {
      if m < c {
        assert s[..c][m] == s[m];
      } else if m > c {
        assert s[c + 1..][m - c - 1] == s[m];
      }
    }
  }

  lemma NumeralShapeChars(s: string)
    requires NumeralShape(s)
    ensures Unparenthesised(s)
  {
    var d := IndexOf(s, '.');
    forall m | 0 <= m < |s|
      ensures s[m] != '(' && s[m] != ')'
    {
      if d == |s| {
        assert IsDigit(s[m]);
      } else if m < d {
        assert s[..d][m] == s[m];
      } else if m > d {
        assert s[d + 1..][m - d - 1] == s[m];
      }
    }
  }

  /** Appending to a string that already holds `c` does not move its first `c`. */
  lemma {:induction false} IndexOfAppend(s: string, x: string, c: char)
    requires IndexOf(s, c) < |s|
    ensures IndexOf(s + x, c) == IndexOf(s, c)
  {
    if s[0] != c {
      assert (s + x)[1..] == s[1..] + x;
      IndexOfAppend(s[1..], x, c);
    }
  }

  /** A chomped newline brings no parenthesis back. */
  lemma UnparenthesisedNewline(b: string)
    requires Unparenthesised(b)
    ensures Unparenthesised(b + ['\n'])
  {
  }

  /** A chomped newline brings back no colon and no parenthesis. */
  lemma OneColonChomped(w: string, b: string)
    requires EndsWithNewline(w) && b == w[..|w| - 1]
    requires IndexOf(b, ':') < |b|
    requires forall m | IndexOf(b, ':') < m < |b| :: b[m] != ':'
    requires Unparenthesised(b)
    ensures IndexOf(w, ':') < |w|
    ensures forall m | IndexOf(w, ':') < m < |w| :: w[m] != ':'
    ensures Unparenthesised(w)
  {
    assert w == b + ['\n'];
    IndexOfAppend(b, ['\n'], ':');
    forall m | IndexOf(b, ':') < m < |w| ensures w[m] != ':' {
      if m < |b| {
        assert w[m] == b[m];
      }
    }
    UnparenthesisedNewline(b);
  }

  lemma ChompedVerseChars(w: string)
    requires EndsWithNewline(w) && VerseShape(w[..|w| - 1])
    ensures IndexOf(w, ':') < |w|
    ensures forall m | IndexOf(w, ':') < m < |w| :: w[m] != ':'
    ensures Unparenthesised(w)
  {
    VerseShapeChars(w[..|w| - 1]);
    OneColonChomped(w, w[..|w| - 1]);
  }

  /**
   * A verse reference has exactly one colon, so `w.split(':')` yields the
   * chapter before it and the verse (or verse range) after it; and it holds no
   * parenthesis.
   */
  lemma VerseReferenceChars(w: string)
    requires IsVerseReference(w)
    ensures IndexOf(w, ':') < |w|
    ensures forall m | IndexOf(w, ':') < m < |w| :: w[m] != ':'
    ensures Unparenthesised(w)
  {
    if VerseShape(w) {
      VerseShapeChars(w);
    } else {
      ChompedVerseChars(w);
    }
  }

  /** A numeral holds no parenthesis. */
  lemma NumeralChars(w: string)
    requires IsNumeral(w)
    ensures Unparenthesised(w)
  {
    if NumeralShape(w) {
      NumeralShapeChars(w);
    } else {
      var b := w[..|w| - 1];
      NumeralShapeChars(b);
      assert w == b + ['\n'];
      UnparenthesisedNewline(b);
    }
  }

  function DigitValue(c: char): nat
    requires IsDigit(c)
  {
    c as int - '0' as int
  }

  function DigitChar(d: nat): (c: char)
    requires d < 10
    ensures IsDigit(c) && DigitValue(c) == d
  {
    ('0' as int + d) as char
  }

  /** The value of a string of decimal digits (0 for the empty string). */
  function DecimalValue(s: string): nat
    requires forall i | 0 <= i < |s| :: IsDigit(s[i])
  {
    if s == [] then 0 else 10 * DecimalValue(s[..|s| - 1]) + DigitValue(s[|s| - 1])
  }

  /** `int(float(w))` of a numeral: the value of its digits before the decimal point. */
  function IntegerPart(w: string): nat
    requires IsNumeral(w)
  {
    var body := if NumeralShape(w) then w else w[..|w| - 1];
    var d := IndexOf(body, '.');
    assert forall i | 0 <= i < d :: body[..d][i] == body[i];
    DecimalValue(body[..d])
  }

  /** `\d+:\d+` somewhere in `s`: a colon with a digit on either side. */
  predicate HasVerseColon(s: string) {
    exists k | 1 <= k < |s| - 1 :: s[k] == ':' && IsDigit(s[k - 1]) && IsDigit(s[k + 1])
  }

  /**
   * The citation pattern matches exactly `t[p..j + 1]`: an opening parenthesis
   * at `p`, a closing one at `j`, no closing parenthesis in between, and a
   * digit-colon-digit in between.
   */
  predicate IsCitationSpan(t: string, p: nat, j: nat) {
    p < j < |t| && t[p] == '(' && t[j] == ')'
    && (forall k | p < k < j :: t[k] != ')')
    && HasVerseColon(t[p + 1..j])
  }

  /** Where the match of the citation pattern that starts at `p` ends, if one starts there. */
  function CitationEnd(t: string, p: nat): Option<nat> {
    if p < |t| && t[p] == '(' then
      var j := p + 1 + IndexOf(t[p + 1..], ')');
      if j < |t| && HasVerseColon(t[p + 1..j]) then Some(j) else None
    else None
  }

  /** `CitationEnd` finds the one match that starts at `p`, and only it. */
  lemma CitationEndSpec(t: string, p: nat)
    ensures CitationEnd(t, p).Some? ==> IsCitationSpan(t, p, CitationEnd(t, p).value)
    ensures CitationEnd(t, p).None? ==> forall j | p < j < |t| :: !IsCitationSpan(t, p, j)
  {
    if p < |t| && t[p] == '(' {
      var j := p + 1 + IndexOf(t[p + 1..], ')');
      assert forall k | p < k < j :: t[k] == t[p + 1..][k - p - 1];
      forall j' | p < j' < |t| && t[j'] == ')' ensures j <= j' {
        assert t[p + 1..][j' - p - 1] == ')';
      }
    }
  }

  /** `re.search` of the citation pattern succeeds on `t[p..]`. */
  predicate ContainsCitationFrom(t: string, p: nat)
    requires p <= |t|
    decreases |t| - p
  {
    p < |t| && (CitationEnd(t, p).Some? || ContainsCitationFrom(t, p + 1))
  }

  /** `re.search` of the citation pattern succeeds on `t`. */
  predicate ContainsCitation(t: string) {
    ContainsCitationFrom(t, 0)
  }

  lemma {:induction false} ContainsCitationFromSpec(t: string, p: nat)
    requires p <= |t|
    ensures ContainsCitationFrom(t, p) <==> exists q, j | p <= q < j < |t| :: IsCitationSpan(t, q, j)
    decreases |t| - p
  {
    if p < |t| {
      ContainsCitationFromSpec(t, p + 1);
      CitationEndSpec(t, p);
      if CitationEnd(t, p).None? {
        assert (exists q, j | p <= q < j < |t| :: IsCitationSpan(t, q, j))
          ==> exists q, j | p + 1 <= q < j < |t| :: IsCitationSpan(t, q, j);
      }
    }
  }

  /** The search succeeds exactly when some span of `t` is a match of the citation pattern. */
  lemma ContainsCitationSpec(t: string)
    ensures ContainsCitation(t) <==> exists q, j | 0 <= q < j < |t| :: IsCitationSpan(t, q, j)
  {
    ContainsCitationFromSpec(t, 0);
  }

  /** Opens with `(` and closes with `)`, as every match of the citation pattern does. */
  predicate Parenthesised(m: string) {
    2 <= |m| && m[0] == '(' && m[|m| - 1] == ')'
  }

  /** `m` is a match of the citation pattern in `t` that starts at or after `p`. */
  ghost predicate MatchFrom(t: string, p: nat, m: string) {
    exists q, j | p <= q < j < |t| :: IsCitationSpan(t, q, j) && m == t[q..j + 1]
  }

  lemma MatchFromEarlier(t: string, p: nat, p': nat, ms: seq<string>)
    requires p <= p'
    requires forall i | 0 <= i < |ms| :: MatchFrom(t, p', ms[i])
    ensures forall i | 0 <= i < |ms| :: MatchFrom(t, p, ms[i])
  {
    forall i | 0 <= i < |ms| ensures MatchFrom(t, p, ms[i]) {
      var q, j :| p' <= q < j < |t| && IsCitationSpan(t, q, j) && ms[i] == t[q..j + 1];
    }
  }

  /** The match `CitationEnd` finds at `p` is bracketed, and a match of the pattern in `t`. */
  lemma CitationEndMatch(t: string, p: nat)
    requires CitationEnd(t, p).Some?
    ensures var m := t[p..CitationEnd(t, p).value + 1]; Parenthesised(m) && MatchFrom(t, p, m)
  {
    var j := CitationEnd(t, p).value;
    CitationEndSpec(t, p);
    var m := t[p..j + 1];
    assert m[0] == t[p] && m[|m| - 1] == t[j];
  }

  /**
   * `re.findall` of the citation pattern on `t[p..]`: the leftmost matches,
   * without overlap. Every one of them is a match of the pattern in `t`.
   */
  function FindCitationsFrom(t: string, p: nat): (ms: seq<string>)
    requires p <= |t|
    ensures forall i | 0 <= i < |ms| :: Parenthesised(ms[i]) && MatchFrom(t, p, ms[i])
    decreases |t| - p
  {
    if p == |t| then []
    else
      match CitationEnd(t, p)
      case Some(j) =>
        var m := t[p..j + 1];
        CitationEndMatch(t, p);
        var rest := FindCitationsFrom(t, j + 1);
        MatchFromEarlier(t, p, j + 1, rest);
        [m] + rest
      case None =>
        var rest := FindCitationsFrom(t, p + 1);
        MatchFromEarlier(t, p, p + 1, rest);
        rest
  }

  /**
   * What `re.findall` returns, told without the search: nothing when no match
   * starts at or after `p`; otherwise the leftmost such match, followed by
   * the matches after its end.
   */
  lemma {:induction false} FindCitationsFromLeftmost(t: string, p: nat)
    requires p <= |t|
    ensures FindCitationsFrom(t, p) == [] <==> forall q, j | p <= q < j < |t| :: !IsCitationSpan(t, q, j)
    ensures FindCitationsFrom(t, p) != [] ==>
      exists q, j | p <= q < j < |t| :: IsCitationSpan(t, q, j)
        && (forall q', j' | p <= q' < q && q' < j' < |t| :: !IsCitationSpan(t, q', j'))
        && FindCitationsFrom(t, p) == [t[q..j + 1]] + FindCitationsFrom(t, j + 1)
    decreases |t| - p
  {
    FindCitationsFromEmpty(t, p);
    ContainsCitationFromSpec(t, p);
    if p < |t| {
      CitationEndSpec(t, p);
      if CitationEnd(t, p).None? {
        FindCitationsFromLeftmost(t, p + 1);
        if FindCitationsFrom(t, p) != [] {
          var q, j :| p + 1 <= q < j < |t| && IsCitationSpan(t, q, j)
            && (forall q', j' | p + 1 <= q' < q && q' < j' < |t| :: !IsCitationSpan(t, q', j'))
            && FindCitationsFrom(t, p + 1) == [t[q..j + 1]] + FindCitationsFrom(t, j + 1);
          assert IsCitationSpan(t, q, j);
        }
      } else {
        var j := CitationEnd(t, p).value;
        assert IsCitationSpan(t, p, j);
      }
    }
  }

  /** No match starts at a character other than `(`: findall moves on. */
  lemma FindCitationsFromUnopened(t: string, p: nat)
    requires p < |t| && t[p] != '('
    ensures FindCitationsFrom(t, p) == FindCitationsFrom(t, p + 1)
  {
    assert CitationEnd(t, p) == None;
  }

  function FindCitations(t: string): seq<string> {
    FindCitationsFrom(t, 0)
  }

  lemma {:induction false} FindCitationsFromEmpty(t: string, p: nat)
    requires p <= |t|
    ensures FindCitationsFrom(t, p) == [] <==> !ContainsCitationFrom(t, p)
    decreases |t| - p
  {
    if p < |t| && CitationEnd(t, p).None? {
      FindCitationsFromEmpty(t, p + 1);
    }
  }

  /** `re.findall` finds nothing exactly when `re.search` fails. */
  lemma FindCitationsEmpty(t: string)
    ensures FindCitations(t) == [] <==> !ContainsCitation(t)
  {
    FindCitationsFromEmpty(t, 0);
  }
}
