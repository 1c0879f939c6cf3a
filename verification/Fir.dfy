/** The FIR filter and its generic decimator: a mirrored circular history. */
module Fir {
  import opened Common
  import opened Convolution

  const MAX_TAPS: nat := 128

  // ---------------------------------------------------------------- the mirrored history

  /** Two copies of the n newest samples, laid out in a circle: from slot `at` on they are in order, oldest first. */
  predicate Mirrored(history: seq<real>, n: nat, at: nat, past: seq<real>)
  {
    at < n && 2 * n <= |history| && history[..n] == history[n..2 * n] && history[at..at + n] == Window(past, n)
  }

  function NextSlot(at: nat, n: nat): nat { if at + 1 == n then 0 else at + 1 }

  lemma WindowStep(past: seq<real>, n: nat, x: real)
    requires n > 0
    ensures Window(past + [x], n) == Window(past, n)[1..] + [x]
  {
    var a, b := Window(past + [x], n), Window(past, n)[1..] + [x];
    forall i | 0 <= i < n
      ensures a[i] == b[i]
    {
      assert a[i] == At(past + [x], |past| + 1 - n + i);
      if i < n - 1 { assert b[i] == Window(past, n)[i + 1] == At(past, |past| - n + (i + 1)); }
    }
  }

  lemma StoreKeepsMirrored(history: seq<real>, n: nat, at: nat, past: seq<real>, x: real)
    requires Mirrored(history, n, at, past)
    ensures Mirrored(history[at := x][at + n := x], n, NextSlot(at, n), past + [x])
  {
    hide Window;
    var h, w, next := history[at := x][at + n := x], Window(past, n), NextSlot(at, n);
    WindowStep(past, n, x);
    assert h[..n] == history[..n][at := x] && h[n..2 * n] == history[n..2 * n][at := x];
    if next == 0 {
      assert history[..n][..at] == history[n..2 * n][..at];
      assert h[..n] == history[n..2 * n][..at] + [x] && w[1..] == history[n..2 * n][..at];
    } else {
      assert h[next..next + n] == history[next..at + n] + [x] && w[1..] == history[next..at + n];
    }
  }

  lemma SilenceIsMirrored(history: seq<real>, n: nat)
    requires 0 < n && 2 * n <= |history| && forall k :: 0 <= k < |history| ==> history[k] == 0.0
    ensures Mirrored(history, n, 0, [])
  {
    var silence: seq<real> := [];
    var w := Window(silence, n);
    forall i | 0 <= i < n
      ensures w[i] == history[0..0 + n][i]
    {
      assert w[i] == At(silence, |silence| - n + i);
    }
  }

  lemma MirroredAt(history: seq<real>, n: nat, at: nat, past: seq<real>, i: nat)
    requires Mirrored(history, n, at, past) && i < n
    ensures at < n && at + i < |history| && history[at + i] == Window(past, n)[i]
  {
    assert history[at + i] == history[at..at + n][i];
  }

  // ---------------------------------------------------------------- the filter

  /** The coefficients a filter keeps, in an array of MAX_TAPS. */
  function Padded(coefficients: seq<real>): (taps: seq<real>)
    ensures |taps| == MAX_TAPS
  {
    seq(MAX_TAPS, i requires 0 <= i < MAX_TAPS => if i < |coefficients| then coefficients[i] else 0.0)
  }

  class Filter {
    const taps: array<real>
    const history: array<real>
    var tapCount: nat
    var pairCount: nat
    var writeIndex: nat
    /** Every sample since the filter was configured. */
    ghost var past: seq<real>

    ghost predicate Shape()
      reads this
    {
      && taps.Length == MAX_TAPS && history.Length == 2 * MAX_TAPS && taps != history
      && 0 < tapCount <= MAX_TAPS && pairCount == tapCount / 2
    }

    ghost predicate Valid()
      reads this, history
    {
      Shape() && Mirrored(history[..], tapCount, writeIndex, past)
    }

    /** Callers configure a filter with at least one tap; more than MAX_TAPS are cut off. */
    constructor (coefficients: seq<real>)
      requires coefficients != []
      ensures Valid() && fresh(taps) && fresh(history)
      ensures tapCount == Min(|coefficients|, MAX_TAPS) && taps[..] == Padded(coefficients)
      ensures forall i :: 0 <= i < tapCount ==> taps[i] == coefficients[i]
      ensures past == [] && writeIndex == 0 && forall k :: 0 <= k < history.Length ==> history[k] == 0.0
    {
      var count := Min(|coefficients|, MAX_TAPS);
      var t := new real[MAX_TAPS](i => if 0 <= i < count then coefficients[i] else 0.0);
      var h := new real[2 * MAX_TAPS](i => 0.0);
      taps, history := t, h;
      tapCount, pairCount, writeIndex, past := count, count / 2, 0, [];
      new;
      SilenceIsMirrored(history[..], tapCount);
    }

    method Store(sample: real)
      requires Valid()
      modifies `writeIndex, `past, history
      ensures Valid() && past == old(past) + [sample]
    {
      StoreKeepsMirrored(history[..], tapCount, writeIndex, past, sample);
      ghost var stored := history[..][writeIndex := sample][writeIndex + tapCount := sample];
      history[writeIndex] := sample;
      history[writeIndex + tapCount] := sample;
      assert history[..] == stored;
      writeIndex := if writeIndex + 1 == tapCount then 0 else writeIndex + 1;
      past := past + [sample];
    }

    method ComputeCurrent() returns (acc: real)
      requires Valid()
      ensures acc == Convolve(taps[..], tapCount, past)
    {
      hide Convolve, Tapped, Mirrored, Window;
      ghost var w := Window(past, tapCount);
      acc := 0.0;
      for tapIndex := 0 to pairCount
        invariant acc == Pairs(taps[..], w, tapIndex)
      {
        MirroredAt(history[..], tapCount, writeIndex, past, tapIndex);
        MirroredAt(history[..], tapCount, writeIndex, past, tapCount - 1 - tapIndex);
        acc := acc + Tapped(taps[tapIndex], history[writeIndex + tapIndex],
                            history[writeIndex + (tapCount - 1 - tapIndex)]);
      }
      if tapCount % 2 != 0 {
        MirroredAt(history[..], tapCount, writeIndex, past, pairCount);
        acc := acc + history[writeIndex + pairCount] * taps[pairCount];
      }
      FoldedIsConvolution(taps[..], tapCount, past);
    }

    method ExecuteBlock(input: seq<real>, output: array<real>)
      requires Valid() && |input| <= output.Length && output != taps && output != history
      modifies `writeIndex, `past, history, output
      ensures Valid() && past == old(past) + input
      ensures output[..|input|] == Filtered(taps[..], tapCount, old(past), input)
    {
      hide Convolve, Mirrored;
      for i := 0 to |input|
        invariant Valid() && past == old(past) + input[..i]
        invariant taps[..] == old(taps[..])
        invariant forall k :: 0 <= k < i ==> output[k] == Convolve(taps[..], tapCount, old(past) + input[..k + 1])
      {
        assert old(past) + input[..i + 1] == past + [input[i]];
        Store(input[i]);
        var acc := ComputeCurrent();
        output[i] := acc;
      }
    }
  }

  // ---------------------------------------------------------------- the generic decimator

  /** The outputs for which there is room. */
  function First(s: seq<real>, n: nat): seq<real> { if |s| <= n then s else s[..n] }

  lemma FirstOfNothing(n: nat)
    ensures First([], n) == []
  {}

  lemma FirstGrows(s: seq<real>, x: real, n: nat)
    ensures |First(s, n)| <= n && First(s + [x], n) == if |First(s, n)| < n then First(s, n) + [x] else First(s, n)
  {}

  class Decimator {
    const fir: Filter
    const factor: nat
    var configured: bool
    var phase: nat

    ghost predicate Valid()
      reads this, fir, fir.history
    {
      fir.Valid() && (configured <==> 2 <= factor) && (configured ==> phase == |fir.past| % factor)
    }

    constructor (factor: nat, coefficients: seq<real>)
      requires coefficients != []
      ensures Valid() && fresh(fir) && fresh(fir.taps) && fresh(fir.history)
      ensures this.factor == factor && fir.past == [] && phase == 0 && fir.writeIndex == 0
      ensures forall k :: 0 <= k < fir.history.Length ==> fir.history[k] == 0.0
      ensures fir.tapCount == Min(|coefficients|, MAX_TAPS) && fir.taps[..] == Padded(coefficients)
      ensures forall i :: 0 <= i < fir.tapCount ==> fir.taps[i] == coefficients[i]
    {
      fir := new Filter(coefficients);
      this.factor := factor;
      configured, phase := factor >= 2, 0;
    }

    /** Stores samples up to the next output or the end of the input. */
    method StoreBatch(batch: seq<real>)
      requires fir.Valid()
      modifies fir`writeIndex, fir`past, fir.history
      ensures fir.Valid() && fir.past == old(fir.past) + batch
    {
      hide Mirrored;
      for i := 0 to |batch|
        invariant fir.Valid() && fir.past == old(fir.past) + batch[..i]
      {
        assert batch[..i + 1] == batch[..i] + [batch[i]];
        fir.Store(batch[i]);
      }
    }

    /** Stores samples up to the next output, and computes it when it is reached. */
    method TakeBatch(batch: seq<real>) returns (complete: bool, acc: real)
      requires Valid() && configured && batch != [] && phase + |batch| <= factor
      modifies `phase, fir`writeIndex, fir`past, fir.history
      ensures Valid() && fir.past == old(fir.past) + batch
      ensures complete == (old(phase) + |batch| == factor)
      ensures complete ==> acc == Convolve(fir.taps[..], fir.tapCount, fir.past)
    {
      hide Convolve, Mirrored;
      PhaseAfter(|fir.past|, |batch|, factor);
      StoreBatch(batch);
      phase := phase + |batch|;
      complete, acc := phase == factor, 0.0;
      if complete {
        phase := 0;
        acc := fir.ComputeCurrent();
      }
    }

    /** Writes an output for which there is room. */
    static method Emit(output: array<real>, produced: nat, maxOutput: nat, acc: real) returns (next: nat)
      requires produced <= maxOutput <= output.Length
      modifies output
      ensures next == (if produced < maxOutput then produced + 1 else produced)
      ensures output[..next] == old(output[..produced]) + (if produced < maxOutput then [acc] else [])
      ensures output[next..] == old(output[..])[next..]
    {
      next := produced;
      if next < maxOutput {
        output[next] := acc;
        next := next + 1;
      }
    }

    method ProcessBlock(input: seq<real>, output: array<real>, maxOutput: nat) returns (produced: nat)
      requires Valid() && maxOutput <= output.Length && output != fir.taps && output != fir.history
      modifies `phase, fir`writeIndex, fir`past, fir.history, output
      ensures Valid() && produced <= maxOutput && output[produced..] == old(output[..])[produced..]
      ensures !configured ==> produced == 0 && fir.past == old(fir.past)
      ensures configured ==>
        && fir.past == old(fir.past) + input
        && output[..produced] == First(Decimated(fir.taps[..], fir.tapCount, factor, old(fir.past), input), maxOutput)
    {
      hide Convolve, Mirrored, Decimated, First;
      if !configured || factor < 2 {
        return 0;
      }
      var inputIndex: nat := 0;
      produced := 0;
      ghost var t, n, start, unwritten := fir.taps[..], fir.tapCount, fir.past, output[..];
      DecimatedNothing(t, n, factor, start);
      FirstOfNothing(maxOutput);
      assert input[..0] == [];
      while inputIndex < |input|
        invariant Valid() && inputIndex <= |input| && fir.taps[..] == t && fir.tapCount == n
        invariant fir.past == start + input[..inputIndex]
        invariant produced <= maxOutput
        invariant output[..produced] == First(Decimated(t, n, factor, start, input[..inputIndex]), maxOutput)
        invariant output[produced..] == unwritten[produced..]
        decreases |input| - inputIndex
      {
        var batch := Min(|input| - inputIndex, factor - phase);
        BatchStep(t, n, factor, start, input, inputIndex, batch, phase);
        ghost var emitted := Decimated(t, n, factor, start, input[..inputIndex]);
        var complete, acc := TakeBatch(input[inputIndex..inputIndex + batch]);
        inputIndex := inputIndex + batch;
        if !complete {
          assert inputIndex == |input| && emitted + [] == emitted;
          break;
        }
        FirstGrows(emitted, acc, maxOutput);
        produced := Emit(output, produced, maxOutput, acc);
      }
      assert input[..|input|] == input;
    }
  }

  lemma DecimatedNothing(t: seq<real>, n: nat, factor: nat, past: seq<real>)
    requires n <= |t| && factor > 0
    ensures Decimated(t, n, factor, past, []) == []
  {}

  /** Between two outputs nothing is emitted; a batch that completes the factor emits one. */
  lemma BatchStep(t: seq<real>, n: nat, factor: nat, start: seq<real>, input: seq<real>, at: nat, batch: nat,
                  phase: nat)
    requires n <= |t| && factor >= 2 && phase < factor
    requires at < |input| && batch == Min(|input| - at, factor - phase) && phase == (|start| + at) % factor
    ensures batch > 0 && start + input[..at] + input[at..at + batch] == start + input[..at + batch]
    ensures Decimated(t, n, factor, start, input[..at + batch])
         == Decimated(t, n, factor, start, input[..at])
            + (if phase + batch == factor then [Convolve(t, n, start + input[..at + batch])] else [])
    ensures (|start| + at + batch) % factor == if phase + batch == factor then 0 else phase + batch
  {
    hide Convolve, Decimated;
    EarlierBatch(t, n, factor, start, input, at, batch, phase);
  }

  lemma {:induction false} EarlierBatch(t: seq<real>, n: nat, factor: nat, start: seq<real>, input: seq<real>,
                                        at: nat, batch: nat, phase: nat)
    requires n <= |t| && factor >= 2
    requires at + batch <= |input| && phase == (|start| + at) % factor && phase + batch <= factor
    ensures Decimated(t, n, factor, start, input[..at + batch])
         == Decimated(t, n, factor, start, input[..at])
            + (if batch > 0 && phase + batch == factor then [Convolve(t, n, start + input[..at + batch])] else [])
    ensures (|start| + at + batch) % factor == if phase + batch == factor then 0 else phase + batch
  {
    hide Convolve;
    PhaseAfter(|start| + at, batch, factor);
    if batch > 0 {
      EarlierBatch(t, n, factor, start, input, at, batch - 1, phase);
      PhaseAfter(|start| + at, batch - 1, factor);
      assert input[..at + batch][..at + batch - 1] == input[..at + batch - 1];
    }
  }

  lemma PhaseAfter(m: nat, k: nat, factor: nat)
    requires factor > 0 && m % factor + k <= factor
    ensures (m + k) % factor == if m % factor + k == factor then 0 else m % factor + k
  {
    var q, r := m / factor, m % factor;
    assert m == q * factor + r;
    if r + k < factor {
      Quotient(q, r + k, factor);
    } else {
      assert m + k == (q + 1) * factor + 0;
      Quotient(q + 1, 0, factor);
    }
  }

  /** A whole factor of samples from a boundary on gives one output. */
  lemma GroupEmitsOne(t: seq<real>, n: nat, factor: nat, past: seq<real>, input: seq<real>, at: nat)
    requires n <= |t| && factor >= 2 && at + factor <= |input| && (|past| + at) % factor == 0
    ensures Decimated(t, n, factor, past, input[..at + factor])
         == Decimated(t, n, factor, past, input[..at]) + [Convolve(t, n, past + input[..at + factor])]
  {
    hide Convolve, Decimated;
    EarlierBatch(t, n, factor, past, input, at, factor, 0);
  }

  // ---------------------------------------------------------------- overlaps

  /** The window of n samples is what is kept of the one before, and the new group. */
  lemma WindowExtends(past: seq<real>, group: seq<real>, n: nat)
    requires |group| <= n
    ensures Window(past + group, n) == Window(past, n - |group|) + group
    ensures Window(past + group, n - |group|) == Window(past + group, n)[|group|..]
  {
    var k := n - |group|;
    var a, b := Window(past + group, n), Window(past, k) + group;
    forall i | 0 <= i < n
      ensures a[i] == b[i]
    {
      assert a[i] == At(past + group, |past| + |group| - n + i);
      if i < k { assert b[i] == At(past, |past| - k + i); }
    }
    var c := Window(past + group, k);
    forall i | 0 <= i < k
      ensures c[i] == a[|group|..][i]
    {
      assert c[i] == At(past + group, |past + group| - k + i);
      assert a[|group| + i] == At(past + group, |past + group| - n + (|group| + i));
    }
  }

  /** The newest k samples, saved apart, are the newest k of the circle. */
  lemma OverlapIsNewestOfCircle(circular: seq<real>, n: nat, at: nat, overlap: seq<real>, k: nat, past: seq<real>)
    requires Mirrored(circular, n, at, past) && k <= n && overlap == Window(past, k)
    ensures overlap == circular[at + (n - k)..at + n]
  {
    var w := Window(past, n);
    forall i | 0 <= i < k
      ensures overlap[i] == circular[at + (n - k)..at + n][i]
    {
      assert circular[at + (n - k) + i] == circular[at..at + n][n - k + i] == w[n - k + i];
      assert w[n - k + i] == At(past, |past| - n + (n - k + i));
    }
  }
}
