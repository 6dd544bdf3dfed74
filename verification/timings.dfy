/**
 * Word timings, the `(word, start, end)` tuples handed to karaoke
 * highlighting, and the properties a list of them can have. Times are seconds,
 * as exact reals.
 */
module Timings {

  datatype WordTiming = WordTiming(word: string, start: real, end: real)

  /** `[w[0] for w in timings]` */
  function Words(ts: seq<WordTiming>): (ws: seq<string>)
    ensures |ws| == |ts| && forall i | 0 <= i < |ts| :: ws[i] == ts[i].word
  {
    seq(|ts|, i requires 0 <= i < |ts| => ts[i].word)
  }

  /** Every interval ends where the next one starts. */
  predicate Contiguous(ts: seq<WordTiming>) {
    forall i | 0 <= i < |ts| - 1 :: ts[i].end == ts[i + 1].start
  }

  /** No interval ends before it starts. */
  predicate WellFormed(ts: seq<WordTiming>) {
    forall i | 0 <= i < |ts| :: ts[i].start <= ts[i].end
  }

  /** Start times never decrease. */
  predicate Chronological(ts: seq<WordTiming>) {
    forall i, j | 0 <= i < j < |ts| :: ts[i].start <= ts[j].start
  }

  /** In a contiguous, well-formed list, a later interval ends no earlier than an earlier one starts. */
  lemma {:induction false} RunBounds(ts: seq<WordTiming>, i: nat, j: nat)
    requires Contiguous(ts) && WellFormed(ts)
    requires i <= j < |ts|
    ensures ts[i].start <= ts[j].start <= ts[j].end
    ensures ts[i].start <= ts[j].end
    decreases j - i
  {
    if i < j {
      RunBounds(ts, i, j - 1);
    }
  }

  /** Contiguous, well-formed timings are in chronological order. */
  lemma ContiguousIsChronological(ts: seq<WordTiming>)
    requires Contiguous(ts) && WellFormed(ts)
    ensures Chronological(ts)
  {
    forall i, j | 0 <= i < j < |ts| ensures ts[i].start <= ts[j].start {
      RunBounds(ts, i, j);
    }
  }

  /** Contiguous, well-formed timings that start at 0 never start before it. */
  lemma StartsFromZero(ts: seq<WordTiming>)
    requires Contiguous(ts) && WellFormed(ts)
    requires ts != [] ==> ts[0].start == 0.0
    ensures forall i | 0 <= i < |ts| :: 0.0 <= ts[i].start
  {
    forall i | 0 <= i < |ts| ensures 0.0 <= ts[i].start {
      RunBounds(ts, 0, i);
    }
  }

  lemma ContiguousAppend(a: seq<WordTiming>, b: seq<WordTiming>)
    requires Contiguous(a) && Contiguous(b)
    requires a != [] && b != [] ==> a[|a| - 1].end == b[0].start
    ensures Contiguous(a + b)
  {
    forall i | 0 <= i < |a + b| - 1 ensures (a + b)[i].end == (a + b)[i + 1].start {
      if i < |a| - 1 {
      } else if i == |a| - 1 {
      } else {
        assert (a + b)[i] == b[i - |a|];
      }
    }
  }

  /** Appending two timings one after the other. */
  lemma AppendPair(a: seq<WordTiming>, x: WordTiming, y: WordTiming)
    ensures a + [x] + [y] == a + [x, y]
  {
  }

  /** `a[-1] = y` right after appending `x`. */
  lemma ReplaceLast(a: seq<WordTiming>, x: WordTiming, y: WordTiming)
    ensures (a + [x])[..|a|] + [y] == a + [y]
  {
    assert (a + [x])[..|a|] == a;
  }

  /** Python's `sum`, adding from the left. */
  function Sum(xs: seq<real>): real {
    if xs == [] then 0.0 else Sum(xs[..|xs| - 1]) + xs[|xs| - 1]
  }

  /** The running total gains one element at a time. */
  lemma SumPrefix(xs: seq<real>, i: nat)
    requires i < |xs|
    ensures Sum(xs[..i + 1]) == Sum(xs[..i]) + xs[i]
  {
    assert xs[..i + 1][..i] == xs[..i];
  }

  /** `[x * c for x in xs]` */
  function Scale(xs: seq<real>, c: real): (r: seq<real>)
    ensures |r| == |xs| && forall i | 0 <= i < |xs| :: r[i] == xs[i] * c
  {
    seq(|xs|, i requires 0 <= i < |xs| => xs[i] * c)
  }

  lemma {:induction false} SumScale(xs: seq<real>, c: real)
    ensures Sum(Scale(xs, c)) == Sum(xs) * c
  {
    if xs != [] {
      var init := xs[..|xs| - 1];
      var whole, part := Scale(xs, c), Scale(init, c);
      assert |whole[..|xs| - 1]| == |part|;
      assert forall i | 0 <= i < |part| :: whole[..|xs| - 1][i] == whole[i] == part[i];
      assert whole[..|xs| - 1] == part;
      SumScale(init, c);
    }
  }

  lemma {:induction false} SumLowerBound(xs: seq<real>, lo: real)
    requires forall i | 0 <= i < |xs| :: lo <= xs[i]
    ensures lo * |xs| as real <= Sum(xs)
  {
    if xs != [] {
      SumLowerBound(xs[..|xs| - 1], lo);
    }
  }

  lemma {:induction false} SumNonNegative(xs: seq<real>)
    requires forall i | 0 <= i < |xs| :: 0.0 <= xs[i]
    ensures 0.0 <= Sum(xs)
  {
    SumLowerBound(xs, 0.0);
  }

  /** Scaling one element more. */
  lemma ScaleAppend(xs: seq<real>, x: real, c: real)
    ensures Scale(xs + [x], c) == Scale(xs, c) + [x * c]
  {
    var l, r := Scale(xs + [x], c), Scale(xs, c) + [x * c];
    forall i | 0 <= i < |l| ensures l[i] == r[i] {
      if i < |xs| {
        assert (xs + [x])[i] == xs[i];
      }
    }
  }

  /** Scaling twice is scaling once by the product. */
  lemma ScaleScale(xs: seq<real>, a: real, c: real)
    ensures Scale(Scale(xs, a), c) == Scale(xs, a * c)
  {
    forall i | 0 <= i < |xs| ensures Scale(Scale(xs, a), c)[i] == Scale(xs, a * c)[i] {
      MulAssoc(xs[i], a, c);
    }
  }

  // Facts of real arithmetic, each on its own so that no proof below has to find them.

  lemma DivZero(a: real, n: real)
    requires n > 0.0
    ensures a / n == 0.0 <==> a == 0.0
  {
  }

  lemma MulZero(a: real, b: real)
    requires a > 0.0
    ensures a * b == 0.0 <==> b == 0.0
  {
  }

  lemma MulNonNegative(a: real, b: real)
    requires 0.0 <= a && 0.0 <= b
    ensures 0.0 <= a * b
  {
  }

  lemma DivNonNegative(a: real, b: real)
    requires 0.0 <= a && 0.0 < b
    ensures 0.0 <= a / b
  {
  }

  lemma MulDiv(a: real, b: real)
    requires b != 0.0
    ensures b * (a / b) == a
  {
  }

  lemma MulAssoc(a: real, b: real, c: real)
    ensures a * b * c == a * (b * c)
  {
  }

  lemma MulSubDistrib(a: real, b: real, c: real)
    ensures a * c - b * c == (a - b) * c
  {
  }
}
