/**
 * The Python string primitives the word-timing engine is built from, on Dafny
 * strings (sequences of Unicode scalar values): `str.isspace`, `str.split()`,
 * `' '.join`, `str.strip`, `str.lower`, `str.startswith`, `str.find` and `in`.
 */
module Text {

  /** `c.isspace()`: the code points Python treats as whitespace. */
  predicate IsSpace(c: char) {
    var n := c as int;
    n == 0x20 || 0x09 <= n <= 0x0D || 0x1C <= n <= 0x1F || n == 0x85 || n == 0xA0
    || n == 0x1680 || 0x2000 <= n <= 0x200A || n == 0x2028 || n == 0x2029
    || n == 0x202F || n == 0x205F || n == 0x3000
  }

  predicate NoSpace(s: string) {
    forall i | 0 <= i < |s| :: !IsSpace(s[i])
  }

  /** A word as `str.split()` yields it: non-empty, without whitespace. */
  predicate IsWord(w: string) {
    w != [] && NoSpace(w)
  }

  /** Length of the longest prefix of `s` that holds no whitespace. */
  function WordLength(s: string): (n: nat)
    ensures n <= |s|
    ensures forall i | 0 <= i < n :: !IsSpace(s[i])
    ensures n < |s| ==> IsSpace(s[n])
    ensures s != [] && !IsSpace(s[0]) ==> n >= 1
  {
    if s == [] || IsSpace(s[0]) then 0 else 1 + WordLength(s[1..])
  }

  /** `s.split()`: the maximal runs of non-whitespace characters, in order. */
  function Split(s: string): (words: seq<string>)
    ensures forall i | 0 <= i < |words| :: IsWord(words[i])
    decreases |s|
  {
    if s == [] then []
    else if IsSpace(s[0]) then Split(s[1..])
    else
      var n := WordLength(s);
      [s[..n]] + Split(s[n..])
  }

  /** `' '.join(words)` */
  function JoinSpace(words: seq<string>): string {
    if words == [] then []
    else if |words| == 1 then words[0]
    else words[0] + " " + JoinSpace(words[1..])
  }

  /** All the words glued together, without separators. */
  function Concat(words: seq<string>): string {
    if words == [] then [] else words[0] + Concat(words[1..])
  }

  /** The non-whitespace characters of `s`, in order. */
  function NonSpace(s: string): string {
    if s == [] then []
    else (if IsSpace(s[0]) then [] else [s[0]]) + NonSpace(s[1..])
  }

  lemma {:induction false} NonSpaceAppend(a: string, b: string)
    ensures NonSpace(a + b) == NonSpace(a) + NonSpace(b)
  {
    if a == [] {
      assert a + b == b;
    } else {
      assert (a + b)[1..] == a[1..] + b;
      NonSpaceAppend(a[1..], b);
    }
  }

  lemma {:induction false} NonSpaceOfWord(w: string)
    requires NoSpace(w)
    ensures NonSpace(w) == w
  {
    if w != [] {
      NonSpaceOfWord(w[1..]);
    }
  }

  /** Splitting loses exactly the whitespace: the words, glued together, are the text without its whitespace. */
  lemma {:induction false} SplitKeepsText(s: string)
    ensures Concat(Split(s)) == NonSpace(s)
    decreases |s|
  {
    if s == [] {
    } else if IsSpace(s[0]) {
      SplitKeepsText(s[1..]);
    } else {
      var n := WordLength(s);
      assert s == s[..n] + s[n..];
      NonSpaceAppend(s[..n], s[n..]);
      NonSpaceOfWord(s[..n]);
      SplitKeepsText(s[n..]);
    }
  }

  /** A text splits into no words exactly when it is all whitespace. */
  lemma {:induction false} SplitEmpty(s: string)
    ensures Split(s) == [] <==> forall i | 0 <= i < |s| :: IsSpace(s[i])
    decreases |s|
  {
    if s != [] {
      SplitEmpty(s[1..]);
      if IsSpace(s[0]) {
        assert (forall i | 0 <= i < |s| :: IsSpace(s[i]))
          <==> (forall i | 0 <= i < |s[1..]| :: IsSpace(s[1..][i]));
      }
    }
  }

  lemma {:induction false} WordLengthOf(w: string, rest: string)
    requires IsWord(w)
    requires rest == [] || IsSpace(rest[0])
    ensures WordLength(w + rest) == |w|
    decreases |w|
  {
    var s := w + rest;
    assert s[0] == w[0] && !IsSpace(s[0]);
    assert WordLength(s) == 1 + WordLength(s[1..]);
    if |w| > 1 {
      assert s[1..] == w[1..] + rest;
      assert IsWord(w[1..]) by {
        forall i | 0 <= i < |w| - 1 ensures !IsSpace(w[1..][i]) {
          assert w[1..][i] == w[i + 1];
        }
      }
      WordLengthOf(w[1..], rest);
    } else {
      assert s[1..] == rest;
    }
  }

  /** Round trip: joining words with single spaces and splitting again gives the words back. */
  lemma {:induction false} SplitJoin(words: seq<string>)
    requires forall i | 0 <= i < |words| :: IsWord(words[i])
    ensures Split(JoinSpace(words)) == words
  {
    if words == [] {
    } else {
      var w := words[0];
      var rest := if |words| == 1 then [] else " " + JoinSpace(words[1..]);
      assert JoinSpace(words) == w + rest;
      WordLengthOf(w, rest);
      assert (w + rest)[..|w|] == w;
      assert (w + rest)[|w|..] == rest;
      if |words| > 1 {
        assert rest[1..] == JoinSpace(words[1..]);
        SplitJoin(words[1..]);
      }
    }
  }

  /** `s.split(c)` for a single-character separator: the pieces between the occurrences of `c`. */
  function SplitOn(s: string, c: char): (parts: seq<string>)
    ensures parts != []
  {
    if s == [] then [[]]
    else
      var rest := SplitOn(s[1..], c);
      if s[0] == c then [[]] + rest else [[s[0]] + rest[0]] + rest[1..]
  }

  /** `c.join(parts)` */
  function JoinOn(parts: seq<string>, c: char): string
    requires parts != []
  {
    if |parts| == 1 then parts[0] else parts[0] + [c] + JoinOn(parts[1..], c)
  }

  /** Round trip: joining the pieces with the separator gives the string back. */
  lemma {:induction false} SplitOnJoin(s: string, c: char)
    ensures JoinOn(SplitOn(s, c), c) == s
  {
    if s != [] {
      var rest := SplitOn(s[1..], c);
      SplitOnJoin(s[1..], c);
      if s[0] == c {
        assert [[]] + rest == SplitOn(s, c);
        assert ([[]] + rest)[1..] == rest;
      } else if |rest| > 1 {
        assert ([[s[0]] + rest[0]] + rest[1..])[1..] == rest[1..];
        assert JoinOn(rest, c) == rest[0] + [c] + JoinOn(rest[1..], c);
      }
    }
  }

  /** A string without the separator is one piece. */
  lemma {:induction false} SplitOnAbsent(s: string, c: char)
    requires c !in s
    ensures SplitOn(s, c) == [s]
  {
    if s != [] {
      assert s == [s[0]] + s[1..];
      assert c !in s[1..];
      SplitOnAbsent(s[1..], c);
    }
  }

  /** Splitting at the first separator: the piece before it, then the pieces of what follows. */
  lemma {:induction false} SplitOnFirst(a: string, b: string, c: char)
    requires c !in a
    ensures SplitOn(a + [c] + b, c) == [a] + SplitOn(b, c)
  {
    if a == [] {
      assert ([] + [c] + b)[1..] == b;
    } else {
      var s := a + [c] + b;
      assert s[0] == a[0] && s[1..] == a[1..] + [c] + b;
      assert c !in a[1..] by {
        assert forall k | 0 <= k < |a[1..]| :: a[1..][k] == a[k + 1];
      }
      SplitOnFirst(a[1..], b, c);
      assert a == [a[0]] + a[1..];
    }
  }

  /** A string with one separator, at `k`, splits into the piece before it and the piece after it. */
  lemma SplitOnOnly(s: string, k: nat, c: char)
    requires k < |s| && s[k] == c
    requires forall m | 0 <= m < |s| && m != k :: s[m] != c
    ensures SplitOn(s, c) == [s[..k], s[k + 1..]]
  {
    var a, b := s[..k], s[k + 1..];
    assert c !in a by {
      forall m | 0 <= m < |a| ensures a[m] != c {
        assert a[m] == s[m];
      }
    }
    assert c !in b by {
      forall m | 0 <= m < |b| ensures b[m] != c {
        assert b[m] == s[k + 1 + m];
      }
    }
    assert s == a + [c] + b;
    SplitOnFirst(a, b, c);
    SplitOnAbsent(b, c);
  }

  /** `s.lstrip(chars)` for the characters `drop` accepts. */
  function TrimStart(s: string, drop: char -> bool): (r: string)
    ensures |r| <= |s| && r == s[|s| - |r|..]
    ensures r != [] ==> !drop(r[0])
    ensures forall i | 0 <= i < |s| - |r| :: drop(s[i])
  {
    if s != [] && drop(s[0]) then TrimStart(s[1..], drop) else s
  }

  /** `s.rstrip(chars)` for the characters `drop` accepts. */
  function TrimEnd(s: string, drop: char -> bool): (r: string)
    ensures |r| <= |s| && r == s[..|r|]
    ensures r != [] ==> !drop(r[|r| - 1])
    ensures forall i | |r| <= i < |s| :: drop(s[i])
  {
    if s != [] && drop(s[|s| - 1]) then TrimEnd(s[..|s| - 1], drop) else s
  }

  /** `s.strip()` */
  function Strip(s: string): string {
    TrimEnd(TrimStart(s, IsSpace), IsSpace)
  }

  /** `s.strip(c)` for a single character `c`. */
  function StripChar(s: string, c: char): (r: string)
    ensures r != [] ==> r[0] != c && r[|r| - 1] != c
  {
    var a := TrimStart(s, x => x == c);
    var r := TrimEnd(a, x => x == c);
    assert r != [] ==> r[0] == a[0];
    r
  }

  /** `str.lower()` on one character; only ASCII letters are mapped. */
  function LowerChar(c: char): char {
    if 'A' <= c <= 'Z' then (c as int + 32) as char else c
  }

  function Lower(s: string): (r: string)
    ensures |r| == |s| && forall i | 0 <= i < |s| :: r[i] == LowerChar(s[i])
  {
    seq(|s|, i requires 0 <= i < |s| => LowerChar(s[i]))
  }

  /** Every character of `s` is its own lower case. */
  predicate IsLower(s: string) {
    forall i | 0 <= i < |s| :: LowerChar(s[i]) == s[i]
  }

  /** Lower-casing a lower-case string changes nothing; lower-casing twice is lower-casing once. */
  lemma LowerOfLower(s: string)
    ensures IsLower(Lower(s))
    ensures IsLower(s) ==> Lower(s) == s
  {
  }

  /** The words of a lower-case text are lower case. */
  lemma {:induction false} SplitLower(s: string)
    requires IsLower(s)
    ensures forall i | 0 <= i < |Split(s)| :: IsLower(Split(s)[i])
    decreases |s|
  {
    if s != [] {
      if IsSpace(s[0]) {
        SplitLower(s[1..]);
      } else {
        var n := WordLength(s);
        assert IsLower(s[..n]) && IsLower(s[n..]);
        SplitLower(s[n..]);
      }
    }
  }

  /** Lower-case words joined with spaces make a lower-case text. */
  lemma {:induction false} JoinSpaceLower(words: seq<string>)
    requires forall i | 0 <= i < |words| :: IsLower(words[i])
    ensures IsLower(JoinSpace(words))
  {
    if |words| > 1 {
      JoinSpaceLower(words[1..]);
      var rest := JoinSpace(words[1..]);
      assert JoinSpace(words) == words[0] + " " + rest;
    }
  }

  /** Words joined with spaces begin and end with a non-space character. */
  lemma {:induction false} JoinSpaceEnds(words: seq<string>)
    requires forall i | 0 <= i < |words| :: IsWord(words[i])
    requires words != []
    ensures var j := JoinSpace(words); j != [] && !IsSpace(j[0]) && !IsSpace(j[|j| - 1])
  {
    if |words| > 1 {
      JoinSpaceEnds(words[1..]);
      var rest := JoinSpace(words[1..]);
      var j := words[0] + " " + rest;
      assert JoinSpace(words) == j;
      assert j[0] == words[0][0];
      assert j[|j| - 1] == rest[|rest| - 1];
    }
  }

  /** Neither end of `s` is whitespace. */
  predicate Trimmed(s: string) {
    s == [] || (!IsSpace(s[0]) && !IsSpace(s[|s| - 1]))
  }

  /** `strip` leaves a text with neither end whitespace, and changes nothing in such a text. */
  lemma StripTrimmed(s: string)
    ensures Trimmed(Strip(s))
    ensures Trimmed(s) ==> Strip(s) == s
  {
    var a := TrimStart(s, IsSpace);
    var r := TrimEnd(a, IsSpace);
    assert r != [] ==> r[0] == a[0];
  }

  /** Lower-casing keeps whitespace where it is. */
  lemma LowerTrimmed(s: string)
    requires Trimmed(s)
    ensures Trimmed(Lower(s))
  {
  }

  predicate StartsWith(s: string, prefix: string) {
    |prefix| <= |s| && s[..|prefix|] == prefix
  }

  predicate OccursAt(s: string, p: string, i: nat) {
    i + |p| <= |s| && s[i..i + |p|] == p
  }

  /** Python's `p in s` for strings. */
  predicate Contains(s: string, p: string) {
    exists i: nat | i <= |s| :: OccursAt(s, p, i)
  }

  /** What `p` occurs in still holds it with more text on either side. */
  lemma ContainsAppend(a: string, b: string, p: string)
    ensures Contains(a, p) || Contains(b, p) ==> Contains(a + b, p)
  {
    if Contains(a, p) {
      var i: nat :| i <= |a| && OccursAt(a, p, i);
      assert (a + b)[i..i + |p|] == a[i..i + |p|];
      assert OccursAt(a + b, p, i);
    } else if Contains(b, p) {
      var i: nat :| i <= |b| && OccursAt(b, p, i);
      assert (a + b)[|a| + i..|a| + i + |p|] == b[i..i + |p|];
      assert OccursAt(a + b, p, |a| + i);
    }
  }

  /** `c in s` for a one-character `p`. */
  lemma ContainsChar(s: string, c: char)
    ensures Contains(s, [c]) <==> c in s
  {
    if c in s {
      var i :| 0 <= i < |s| && s[i] == c;
      assert OccursAt(s, [c], i);
    }
    if Contains(s, [c]) {
      var i: nat :| i <= |s| && OccursAt(s, [c], i);
      assert s[i] == s[i..i + 1][0];
    }
  }

  /** Lower-casing works character by character. */
  lemma LowerAppend(a: string, b: string)
    ensures Lower(a + b) == Lower(a) + Lower(b)
  {
  }

  /** A text that does not open with the prefix's first character does not start with the prefix. */
  lemma NotStartingWith(s: string, p: string)
    requires s != [] && p != [] && s[0] != p[0]
    ensures !StartsWith(s, p)
  {
    if |p| <= |s| {
      assert s[..|p|][0] == s[0];
    }
  }

  /** A prefix of a prefix is a prefix. */
  lemma StartsWithTrans(s: string, a: string, p: string)
    requires StartsWith(s, a) && StartsWith(a, p)
    ensures StartsWith(s, p)
  {
    assert s[..|p|] == s[..|a|][..|p|];
  }

  /**
   * Two prefixes of one text, where the shorter-looking one `a` ends at the
   * end of the text or before whitespace: a prefix `p` without whitespace is
   * then a prefix of `a`.
   */
  lemma WordPrefix(s: string, a: string, p: string)
    requires StartsWith(s, a) && NoSpace(p)
    requires |a| == |s| || IsSpace(s[|a|])
    ensures StartsWith(s, p) ==> StartsWith(a, p)
  {
    if StartsWith(s, p) {
      assert forall i | 0 <= i < |p| :: s[i] == s[..|p|][i] == p[i];
      assert |p| <= |a|;
      assert a[..|p|] == s[..|a|][..|p|];
    }
  }

  /** Words joined by single spaces open with the first word, followed by a space when more follow. */
  lemma JoinSpaceOpens(words: seq<string>)
    requires words != []
    ensures StartsWith(JoinSpace(words), words[0])
    ensures |words| == 1 ==> JoinSpace(words) == words[0]
    ensures |words| > 1 ==> |words[0]| < |JoinSpace(words)| && JoinSpace(words)[|words[0]|] == ' '
  {
    if |words| > 1 {
      var j := JoinSpace(words);
      assert j == words[0] + (" " + JoinSpace(words[1..]));
      assert j[..|words[0]|] == words[0];
    }
  }

  /** Whatever prefix without whitespace a space-joined text has, its first word has too. */
  lemma JoinSpaceOpensWith(words: seq<string>, p: string)
    requires words != [] && NoSpace(p)
    ensures StartsWith(JoinSpace(words), p) ==> StartsWith(words[0], p)
  {
    JoinSpaceOpens(words);
    assert IsSpace(' ');
    WordPrefix(JoinSpace(words), words[0], p);
  }

  /** `s.strip()` opens with the first word of `s.split()`. */
  lemma {:induction false} StripFirstWord(s: string)
    requires Split(s) != []
    ensures StartsWith(Strip(s), Split(s)[0])
    decreases |s|
  {
    if IsSpace(s[0]) {
      assert TrimStart(s, IsSpace) == TrimStart(s[1..], IsSpace);
      StripFirstWord(s[1..]);
    } else {
      var n := WordLength(s);
      assert TrimStart(s, IsSpace) == s;
      var r := TrimEnd(s, IsSpace);
      assert !IsSpace(s[n - 1]);
      assert n <= |r|;
      assert r[..n] == s[..n];
    }
  }

  /** A word that opens with `c`, and has no other `c` at either end, loses just that one. */
  lemma StripOpening(w: string, c: char)
    requires 2 <= |w| && w[0] == c && w[1] != c && w[|w| - 1] != c
    ensures StripChar(w, c) == w[1..]
  {
    assert TrimStart(w[1..], x => x == c) == w[1..];
    assert TrimEnd(w[1..], x => x == c) == w[1..];
  }

  /** `s.strip()` leaves a text that neither opens nor closes with whitespace as it is. */
  lemma StripUntouched(s: string)
    requires s != [] && !IsSpace(s[0]) && !IsSpace(s[|s| - 1])
    ensures Strip(s) == s
  {
    assert TrimStart(s, IsSpace) == s;
  }

  /** A word followed by whitespace, or by nothing, is the first word of the split. */
  lemma SplitWordThen(w: string, rest: string)
    requires IsWord(w) && (rest == [] || IsSpace(rest[0]))
    ensures Split(w + rest) == [w] + Split(rest)
  {
    WordLengthOf(w, rest);
    assert (w + rest)[..|w|] == w && (w + rest)[|w|..] == rest;
  }

  /** A leading blank does not count. */
  lemma SplitSpaceThen(rest: string)
    ensures Split(" " + rest) == Split(rest)
  {
    assert IsSpace(' ') && (" " + rest)[1..] == rest;
  }

  /** `s.find(p, k)`: the first index at or after `k` where `p` occurs, or -1. */
  function FindFrom(s: string, p: string, k: nat): (r: int)
    ensures r == -1 || (k <= r <= |s| && OccursAt(s, p, r))
    ensures forall i: nat | k <= i && (r == -1 || i < r) :: !OccursAt(s, p, i)
    decreases |s| + 1 - k
  {
    if k > |s| then -1
    else if OccursAt(s, p, k) then k
    else FindFrom(s, p, k + 1)
  }

  /** `s.find(p)` */
  function Find(s: string, p: string): (r: int)
    ensures r == -1 || (0 <= r <= |s| && OccursAt(s, p, r))
  {
    FindFrom(s, p, 0)
  }
}
