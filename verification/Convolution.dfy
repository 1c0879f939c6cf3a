/** What the filters compute: symmetric convolution with the samples so far, and every so many-th output of it. */
module Convolution {
  import opened Common

  /** Sample k of a signal that was silent before it began. */
  function At(past: seq<real>, k: int): real { if 0 <= k < |past| then past[k] else 0.0 }

  /** The n newest samples, oldest first. */
  function Window(past: seq<real>, n: nat): (w: seq<real>)
    ensures |w| == n
  {
    seq(n, i requires 0 <= i < n => At(past, |past| - n + i))
  }

  /** The impulse response: only the first half of the taps is used, mirrored. */
  function Response(taps: seq<real>, n: nat, j: nat): real
    requires j < n <= |taps|
  {
    if j < n - 1 - j then taps[j] else taps[n - 1 - j]
  }

  function Term(taps: seq<real>, n: nat, past: seq<real>, j: nat): real
    requires j < n <= |taps|
  {
    Response(taps, n, j) * At(past, |past| - 1 - j)
  }

  function Terms(taps: seq<real>, n: nat, past: seq<real>, lo: nat, hi: nat): real
    requires lo <= hi <= n <= |taps|
    decreases hi - lo
  {
    if lo == hi then 0.0 else Term(taps, n, past, lo) + Terms(taps, n, past, lo + 1, hi)
  }

  /** The convolution of the response with the signal, at its newest sample. */
  function Convolve(taps: seq<real>, n: nat, past: seq<real>): real
    requires n <= |taps|
  {
    Terms(taps, n, past, 0, n)
  }

  // ---------------------------------------------------------------- what it is

  function Impulse(before: nat, after: nat): seq<real>
  {
    seq(before + 1 + after, i => if i == before then 1.0 else 0.0)
  }

  lemma {:induction false} TermsOfImpulse(taps: seq<real>, n: nat, before: nat, after: nat, lo: nat, hi: nat)
    requires lo <= hi <= n <= |taps|
    ensures Terms(taps, n, Impulse(before, after), lo, hi)
         == if lo <= after < hi then Response(taps, n, after) else 0.0
    decreases hi - lo
  {
    if lo < hi { TermsOfImpulse(taps, n, before, after, lo + 1, hi); }
  }

  /** A single one comes out as the taps, forwards and backwards, and then nothing. */
  lemma ImpulseResponse(taps: seq<real>, n: nat, before: nat, after: nat)
    requires n <= |taps|
    ensures Convolve(taps, n, Impulse(before, after)) == if after < n then taps[Min(after, n - 1 - after)] else 0.0
  {
    TermsOfImpulse(taps, n, before, after, 0, n);
  }

  /** One signal and c times another. */
  function Mixed(a: seq<real>, b: seq<real>, c: real): (m: seq<real>)
    requires |a| == |b|
    ensures |m| == |a|
  {
    seq(|a|, i requires 0 <= i < |a| => a[i] + c * b[i])
  }

  function Times(c: real, x: real): real { c * x }

  lemma TimesSum(c: real, x: real, y: real)
    ensures Times(c, x + y) == Times(c, x) + Times(c, y) && Times(c, 0.0) == 0.0
  {}

  lemma MixedProduct(r: real, x: real, y: real, c: real)
    ensures r * (x + c * y) == r * x + Times(c, r * y)
  {}

  lemma TermIsLinear(taps: seq<real>, n: nat, a: seq<real>, b: seq<real>, c: real, j: nat)
    requires j < n <= |taps| && |a| == |b|
    ensures Term(taps, n, Mixed(a, b, c), j) == Term(taps, n, a, j) + Times(c, Term(taps, n, b, j))
  {
    hide Response;
    var k := |a| - 1 - j;
    assert At(Mixed(a, b, c), k) == At(a, k) + c * At(b, k);
    hide At, Mixed, Times;
    MixedProduct(Response(taps, n, j), At(a, k), At(b, k), c);
  }

  lemma {:induction false} TermsAreLinear(taps: seq<real>, n: nat, a: seq<real>, b: seq<real>, c: real,
                                          lo: nat, hi: nat)
    requires lo <= hi <= n <= |taps| && |a| == |b|
    ensures Terms(taps, n, Mixed(a, b, c), lo, hi) == Terms(taps, n, a, lo, hi) + Times(c, Terms(taps, n, b, lo, hi))
    decreases hi - lo
  {
    hide Term, Mixed, Times;
    if lo < hi {
      TermsAreLinear(taps, n, a, b, c, lo + 1, hi);
      TermIsLinear(taps, n, a, b, c, lo);
      TimesSum(c, Term(taps, n, b, lo), Terms(taps, n, b, lo + 1, hi));
    } else {
      TimesSum(c, 0.0, 0.0);
    }
  }

  lemma ConvolutionIsLinear(taps: seq<real>, n: nat, a: seq<real>, b: seq<real>, c: real)
    requires n <= |taps| && |a| == |b|
    ensures Convolve(taps, n, Mixed(a, b, c)) == Convolve(taps, n, a) + c * Convolve(taps, n, b)
  {
    TermsAreLinear(taps, n, a, b, c, 0, n);
  }

  // ---------------------------------------------------------------- the symmetric form

  function Tapped(tap: real, a: real, b: real): real { tap * (a + b) }

  function Pairs(taps: seq<real>, w: seq<real>, k: nat): real
    requires 2 * k <= |w| <= |taps|
  {
    if k == 0 then 0.0 else Pairs(taps, w, k - 1) + Tapped(taps[k - 1], w[k - 1], w[|w| - k])
  }

  /** Pairs of samples at equal distance from the middle share a tap; an odd one is left in the middle. */
  function Folded(taps: seq<real>, w: seq<real>): real
    requires |w| <= |taps|
  {
    Pairs(taps, w, |w| / 2) + (if |w| % 2 == 1 then w[|w| / 2] * taps[|w| / 2] else 0.0)
  }

  lemma {:induction false} TermsLast(taps: seq<real>, n: nat, past: seq<real>, lo: nat, hi: nat)
    requires lo < hi <= n <= |taps|
    ensures Terms(taps, n, past, lo, hi) == Terms(taps, n, past, lo, hi - 1) + Term(taps, n, past, hi - 1)
    decreases hi - lo
  {
    hide Term;
    if lo + 1 < hi { TermsLast(taps, n, past, lo + 1, hi); }
  }

  lemma PairOfTerms(taps: seq<real>, n: nat, past: seq<real>, k: nat)
    requires 2 * (k + 1) <= n <= |taps|
    ensures Term(taps, n, past, k) + Term(taps, n, past, n - 1 - k)
         == Tapped(taps[k], Window(past, n)[k], Window(past, n)[n - 1 - k])
  {}

  lemma {:induction false} PairsAreTerms(taps: seq<real>, n: nat, past: seq<real>, k: nat)
    requires 2 * k <= n <= |taps|
    ensures Pairs(taps, Window(past, n), k) + Terms(taps, n, past, k, n - k) == Convolve(taps, n, past)
  {
    hide Term, Tapped;
    if k > 0 {
      PairsAreTerms(taps, n, past, k - 1);
      TermsLast(taps, n, past, k - 1, n - k + 1);
      if k < n - k + 1 {
        PairOfTerms(taps, n, past, k - 1);
      }
    }
  }

  /** For odd and even lengths the folded sum over the window is the convolution. */
  lemma FoldedIsConvolution(taps: seq<real>, n: nat, past: seq<real>)
    requires n <= |taps|
    ensures Folded(taps, Window(past, n)) == Convolve(taps, n, past)
  {
    hide Pairs;
    var k := n / 2;
    PairsAreTerms(taps, n, past, k);
    if n % 2 == 1 {
      assert Terms(taps, n, past, k, k + 1) == Term(taps, n, past, k);
    }
  }

  // ---------------------------------------------------------------- runs

  /** One output for each input sample. */
  function Filtered(taps: seq<real>, n: nat, past: seq<real>, input: seq<real>): seq<real>
    requires n <= |taps|
  {
    seq(|input|, i requires 0 <= i < |input| => Convolve(taps, n, past + input[..i + 1]))
  }

  /** One output whenever the number of samples so far is a multiple of the factor. */
  function Decimated(taps: seq<real>, n: nat, factor: nat, past: seq<real>, input: seq<real>): seq<real>
    requires n <= |taps| && factor > 0
    decreases |input|
  {
    if input == [] then []
    else Decimated(taps, n, factor, past, input[..|input| - 1])
         + (if (|past| + |input|) % factor == 0 then [Convolve(taps, n, past + input)] else [])
  }

  /** The filter's outputs do not depend on how its input is cut into blocks. */
  lemma FilteredInBlocks(taps: seq<real>, n: nat, past: seq<real>, a: seq<real>, b: seq<real>)
    requires n <= |taps|
    ensures Filtered(taps, n, past, a + b) == Filtered(taps, n, past, a) + Filtered(taps, n, past + a, b)
  {
    hide Convolve;
    var whole, parts := Filtered(taps, n, past, a + b), Filtered(taps, n, past, a) + Filtered(taps, n, past + a, b);
    forall i | 0 <= i < |whole|
      ensures whole[i] == parts[i]
    {
      if i < |a| {
        assert (a + b)[..i + 1] == a[..i + 1];
      } else {
        assert past + (a + b)[..i + 1] == past + a + b[..i - |a| + 1];
      }
    }
  }

  /** Nor do the decimator's: its phase is carried across blocks. */
  lemma {:induction false} DecimatedInBlocks(taps: seq<real>, n: nat, factor: nat, past: seq<real>, a: seq<real>,
                                             b: seq<real>)
    requires n <= |taps| && factor > 0
    ensures Decimated(taps, n, factor, past, a + b)
         == Decimated(taps, n, factor, past, a) + Decimated(taps, n, factor, past + a, b)
    decreases |b|
  {
    hide Convolve;
    if b == [] {
      assert a + b == a;
    } else {
      assert (a + b)[..|a + b| - 1] == a + b[..|b| - 1];
      assert past + (a + b) == past + a + b;
      DecimatedInBlocks(taps, n, factor, past, a, b[..|b| - 1]);
    }
  }

  /** How many samples there have been when the decimator emits output k. */
  function End(k: nat, factor: nat): nat { (k + 1) * factor }

  /** Output k of the decimator is the filter's output at sample (k + 1) * factor, counted from one. */
  lemma {:induction false} DecimatedIsEveryFactorth(taps: seq<real>, n: nat, factor: nat, input: seq<real>)
    requires n <= |taps| && factor > 0
    ensures var d, f := Decimated(taps, n, factor, [], input), Filtered(taps, n, [], input);
      && |d| == |input| / factor
      && forall k :: 0 <= k < |d| ==> 0 < End(k, factor) <= |input| && d[k] == f[End(k, factor) - 1]
    decreases |input|
  {
    hide Convolve, End;
    var m := |input|;
    if m == 0 {
      Quotient(0, 0, factor);
    } else {
      var init := input[..m - 1];
      DecimatedIsEveryFactorth(taps, n, factor, init);
      QuotientStep(m, factor);
      FilteredPrefix(taps, n, init, input);
      var d, f := Decimated(taps, n, factor, [], input), Filtered(taps, n, [], input);
      var d0, f0 := Decimated(taps, n, factor, [], init), Filtered(taps, n, [], init);
      forall k | 0 <= k < |d|
        ensures 0 < End(k, factor) <= |input| && d[k] == f[End(k, factor) - 1]
      {
        if k < |d0| {
          assert d[k] == d0[k];
        } else {
          LastEnd(m, factor);
          assert [] + input == input && [] + input[..m] == input;
        }
      }
    }
  }

  lemma FilteredPrefix(taps: seq<real>, n: nat, a: seq<real>, b: seq<real>)
    requires n <= |taps| && a <= b
    ensures Filtered(taps, n, [], a) <= Filtered(taps, n, [], b)
  {
    hide Convolve;
    var fa, fb := Filtered(taps, n, [], a), Filtered(taps, n, [], b);
    forall i | 0 <= i < |fa|
      ensures fa[i] == fb[i]
    {
      assert a[..i + 1] == b[..i + 1];
    }
  }

  lemma LastEnd(m: nat, factor: nat)
    requires factor > 0 && m > 0 && m % factor == 0
    ensures m / factor > 0 && End(m / factor - 1, factor) == m
  {
    QuotientStep(m, factor);
  }

  lemma QuotientStep(m: nat, factor: nat)
    requires m > 0 && factor > 0
    ensures m % factor == 0 ==> m / factor == (m - 1) / factor + 1 && m == (m / factor) * factor
    ensures m % factor != 0 ==> m / factor == (m - 1) / factor
  {
    var q, r := (m - 1) / factor, (m - 1) % factor;
    assert m == q * factor + r + 1;
    if r + 1 < factor {
      Quotient(q, r + 1, factor);
    } else {
      assert m == (q + 1) * factor;
      Quotient(q + 1, 0, factor);
    }
  }

}
