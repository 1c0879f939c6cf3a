/** The receiver's decimator: sixteen taps, a factor of eight, and two channels of bytes. */
module IqDecimator {
  import opened Common
  import opened Bytes
  import opened Convolution
  import opened Fir

  const TAP_COUNT: nat := 16
  const FACTOR: nat := 8
  const OVERLAP: nat := 8
  const OUTPUT_BLOCK_SAMPLES: nat := 5120
  const BLOCK_INPUT_BYTES: nat := OUTPUT_BLOCK_SAMPLES * FACTOR * 2

  function Level(b: Byte): real { Num(b) as real * 2.0 - 255.0 }

  /** The samples of one channel: every other byte, from `channel` on. */
  function Channel(bytes: seq<Byte>, channel: nat): (levels: seq<real>)
    requires channel < 2
    ensures |levels| == |bytes| / 2
  {
    seq(|bytes| / 2, i requires 0 <= i < |bytes| / 2 => Level(bytes[2 * i + channel]))
  }

  /** Levels lie symmetric about zero, two apart, up to 255. */
  lemma LevelsAreCentred(b: Byte)
    ensures Level(255 - b) == -Level(b) && (b < 255 ==> Level(b + 1) == Level(b) + 2.0) && Level(255) == 255.0
  {}

  /** In-phase and quadrature bytes take turns, in-phase first; a byte stands for the level twice its distance from the
      middle. */
  lemma ChannelsTakeTurns(bytes: seq<Byte>, i: nat)
    requires 2 * i + 1 < |bytes|
    ensures |Channel(bytes, 0)| == |Channel(bytes, 1)| == |bytes| / 2
    ensures Channel(bytes, 0)[i] / 2.0 == Num(bytes[2 * i]) as real - 127.5
    ensures Channel(bytes, 1)[i] / 2.0 == Num(bytes[2 * i + 1]) as real - 127.5
  {}

  /** The sum over a window of sixteen samples, written out. */
  function Unrolled(t: seq<real>, w: seq<real>): real
    requires |t| == TAP_COUNT == |w|
  {
    Tapped(t[0], w[0], w[15]) + Tapped(t[1], w[1], w[14]) + Tapped(t[2], w[2], w[13]) + Tapped(t[3], w[3], w[12]) +
    Tapped(t[4], w[4], w[11]) + Tapped(t[5], w[5], w[10]) + Tapped(t[6], w[6], w[9]) + Tapped(t[7], w[7], w[8])
  }

  lemma UnrolledIsConvolution(t: seq<real>, past: seq<real>)
    requires |t| == TAP_COUNT
    ensures Unrolled(t, Window(past, TAP_COUNT)) == Convolve(t, TAP_COUNT, past)
  {
    hide Tapped, Convolve, Window, Pairs;
    var w := Window(past, TAP_COUNT);
    FoldedIsConvolution(t, TAP_COUNT, past);
    NoPairs(t, w);
    PairsStep(t, w, 0);
    PairsStep(t, w, 1);
    PairsStep(t, w, 2);
    PairsStep(t, w, 3);
    PairsStep(t, w, 4);
    PairsStep(t, w, 5);
    PairsStep(t, w, 6);
    PairsStep(t, w, 7);
  }

  lemma NoPairs(t: seq<real>, w: seq<real>)
    requires |t| == TAP_COUNT == |w|
    ensures Pairs(t, w, 0) == 0.0
  {}

  lemma PairsStep(t: seq<real>, w: seq<real>, k: nat)
    requires |t| == TAP_COUNT == |w| && k < 8
    ensures Pairs(t, w, k + 1) == Pairs(t, w, k) + Tapped(t[k], w[k], w[15 - k])
  {}

  /** What one block makes of one channel. */
  function ChannelOutput(t: seq<real>, past: seq<real>, bytes: seq<Byte>, channel: nat): seq<real>
    requires |t| == TAP_COUNT && channel < 2
  {
    Decimated(t, TAP_COUNT, FACTOR, past, Channel(bytes, channel))
  }

  /** Output pairs in turn: in-phase, quadrature. */
  predicate HoldsOutputs(output: seq<real>, inPhase: seq<real>, quadrature: seq<real>)
  {
    && |inPhase| == |quadrature| && 2 * |inPhase| <= |output|
    && forall k :: 0 <= k < |inPhase| ==> output[2 * k] == inPhase[k] && output[2 * k + 1] == quadrature[k]
  }

  lemma OutputsGrow(output: seq<real>, inPhase: seq<real>, quadrature: seq<real>, i: real, q: real)
    requires HoldsOutputs(output, inPhase, quadrature) && 2 * |inPhase| + 2 <= |output|
    ensures HoldsOutputs(output[2 * |inPhase| := i][2 * |inPhase| + 1 := q], inPhase + [i], quadrature + [q])
  {}

  lemma ChannelStep(bytes: seq<Byte>, channel: nat, n: nat)
    requires channel < 2 && 2 * n + 1 < |bytes|
    ensures Channel(bytes, channel)[..n + 1] == Channel(bytes, channel)[..n] + [Level(bytes[2 * n + channel])]
  {}

  lemma AtBoundary(m: nat, k: nat)
    requires m % FACTOR == 0
    ensures (m + FACTOR * k) % FACTOR == 0 && FACTOR * k + FACTOR == FACTOR * (k + 1)
  {
  }

  class IqDecimator {
    const taps: array<real>
    const historyInPhase: array<real>
    const historyQuadrature: array<real>
    var historyWriteIndex: nat
    /** Every sample of each channel so far. */
    ghost var pastInPhase: seq<real>
    ghost var pastQuadrature: seq<real>

    ghost predicate Shape()
      reads this
    {
      && taps.Length == TAP_COUNT && historyInPhase.Length == 2 * TAP_COUNT && historyQuadrature.Length == 2 * TAP_COUNT
      && taps != historyInPhase && taps != historyQuadrature && historyInPhase != historyQuadrature
      && |pastInPhase| == |pastQuadrature| && |pastInPhase| % FACTOR == 0
    }

    /** The generic form's state: two mirrored circles. */
    ghost predicate Circular()
      reads this, historyInPhase, historyQuadrature
    {
      && Shape()
      && Mirrored(historyInPhase[..], TAP_COUNT, historyWriteIndex, pastInPhase)
      && Mirrored(historyQuadrature[..], TAP_COUNT, historyWriteIndex, pastQuadrature)
    }

    /** The specialised form's state: the newest eight samples at the front. */
    ghost predicate Overlapping()
      reads this, historyInPhase, historyQuadrature
    {
      && Shape() && historyWriteIndex == 0
      && historyInPhase[..OVERLAP] == Window(pastInPhase, OVERLAP)
      && historyQuadrature[..OVERLAP] == Window(pastQuadrature, OVERLAP)
    }

    constructor (coefficients: seq<real>)
      requires |coefficients| == TAP_COUNT
      ensures Circular() && Overlapping() && fresh(taps) && fresh(historyInPhase) && fresh(historyQuadrature)
      ensures taps[..] == coefficients && pastInPhase == [] && pastQuadrature == []
    {
      var t := new real[TAP_COUNT](i => if 0 <= i < |coefficients| then coefficients[i] else 0.0);
      var h := new real[2 * TAP_COUNT](i => 0.0);
      var g := new real[2 * TAP_COUNT](i => 0.0);
      taps, historyInPhase, historyQuadrature := t, h, g;
      historyWriteIndex, pastInPhase, pastQuadrature := 0, [], [];
      new;
      SilenceIsMirrored(historyInPhase[..], TAP_COUNT);
      SilenceIsMirrored(historyQuadrature[..], TAP_COUNT);
      SilentWindow(historyInPhase[..OVERLAP]);
      SilentWindow(historyQuadrature[..OVERLAP]);
    }

    static lemma SilentWindow(h: seq<real>)
      requires |h| == OVERLAP && forall k :: 0 <= k < OVERLAP ==> h[k] == 0.0
      ensures h == Window([], OVERLAP)
    {
      var silence: seq<real> := [];
      var w := Window(silence, OVERLAP);
      forall i | 0 <= i < OVERLAP
        ensures w[i] == h[i]
      {
        assert w[i] == At(silence, |silence| - OVERLAP + i);
      }
    }

    // -------------------------------------------------------------- the generic form

    method StorePair(inPhase: real, quadrature: real)
      requires historyInPhase.Length == 2 * TAP_COUNT == historyQuadrature.Length && historyInPhase != historyQuadrature
      requires Mirrored(historyInPhase[..], TAP_COUNT, historyWriteIndex, pastInPhase)
      requires Mirrored(historyQuadrature[..], TAP_COUNT, historyWriteIndex, pastQuadrature)
      modifies `historyWriteIndex, `pastInPhase, `pastQuadrature, historyInPhase, historyQuadrature
      ensures Mirrored(historyInPhase[..], TAP_COUNT, historyWriteIndex, pastInPhase)
      ensures Mirrored(historyQuadrature[..], TAP_COUNT, historyWriteIndex, pastQuadrature)
      ensures pastInPhase == old(pastInPhase) + [inPhase] && pastQuadrature == old(pastQuadrature) + [quadrature]
    {
      StoreKeepsMirrored(historyInPhase[..], TAP_COUNT, historyWriteIndex, pastInPhase, inPhase);
      StoreKeepsMirrored(historyQuadrature[..], TAP_COUNT, historyWriteIndex, pastQuadrature, quadrature);
      ghost var at := historyWriteIndex;
      ghost var i := historyInPhase[..][at := inPhase][at + TAP_COUNT := inPhase];
      ghost var q := historyQuadrature[..][at := quadrature][at + TAP_COUNT := quadrature];
      historyInPhase[historyWriteIndex] := inPhase;
      historyInPhase[historyWriteIndex + TAP_COUNT] := inPhase;
      historyQuadrature[historyWriteIndex] := quadrature;
      historyQuadrature[historyWriteIndex + TAP_COUNT] := quadrature;
      assert historyInPhase[..] == i && historyQuadrature[..] == q;
      historyWriteIndex := if historyWriteIndex + 1 == TAP_COUNT then 0 else historyWriteIndex + 1;
      pastInPhase, pastQuadrature := pastInPhase + [inPhase], pastQuadrature + [quadrature];
    }

    /** Eight sample pairs into the circles. */
    method StoreGroup(bytes: seq<Byte>)
      requires Circular() && |bytes| == 2 * FACTOR
      modifies `historyWriteIndex, `pastInPhase, `pastQuadrature, historyInPhase, historyQuadrature
      ensures Circular() && taps[..] == old(taps[..])
      ensures pastInPhase == old(pastInPhase) + Channel(bytes, 0)
         && pastQuadrature == old(pastQuadrature) + Channel(bytes, 1)
    {
      hide Mirrored, Channel;
      ChannelLength(bytes);
      assert Channel(bytes, 0)[..0] == [] == Channel(bytes, 1)[..0];
      for n := 0 to FACTOR
        invariant Mirrored(historyInPhase[..], TAP_COUNT, historyWriteIndex, pastInPhase)
        invariant Mirrored(historyQuadrature[..], TAP_COUNT, historyWriteIndex, pastQuadrature)
        invariant pastInPhase == old(pastInPhase) + Channel(bytes, 0)[..n]
        invariant pastQuadrature == old(pastQuadrature) + Channel(bytes, 1)[..n]
        invariant taps[..] == old(taps[..])
      {
        ChannelStep(bytes, 0, n);
        ChannelStep(bytes, 1, n);
        StorePair(Level(bytes[2 * n]), Level(bytes[2 * n + 1]));
      }
      assert Channel(bytes, 0)[..FACTOR] == Channel(bytes, 0) && Channel(bytes, 1)[..FACTOR] == Channel(bytes, 1);
    }

    static lemma ChannelLength(bytes: seq<Byte>)
      ensures |Channel(bytes, 0)| == |bytes| / 2 == |Channel(bytes, 1)|
    {}

    /** One output pair: eight sample pairs stored, two sums. */
    method GenericGroup(bytes: seq<Byte>) returns (inPhase: real, quadrature: real)
      requires Circular() && |bytes| == 2 * FACTOR
      modifies `historyWriteIndex, `pastInPhase, `pastQuadrature, historyInPhase, historyQuadrature
      ensures Circular()
      ensures pastInPhase == old(pastInPhase) + Channel(bytes, 0)
         && pastQuadrature == old(pastQuadrature) + Channel(bytes, 1)
      ensures inPhase == Convolve(taps[..], TAP_COUNT, pastInPhase)
      ensures quadrature == Convolve(taps[..], TAP_COUNT, pastQuadrature)
    {
      hide Mirrored, Convolve, Window, Unrolled, Channel;
      StoreGroup(bytes);
      MirroredSlice(historyInPhase[..], historyWriteIndex, pastInPhase);
      MirroredSlice(historyQuadrature[..], historyWriteIndex, pastQuadrature);
      inPhase := Unrolled(taps[..], historyInPhase[historyWriteIndex..historyWriteIndex + TAP_COUNT]);
      quadrature := Unrolled(taps[..], historyQuadrature[historyWriteIndex..historyWriteIndex + TAP_COUNT]);
      UnrolledIsConvolution(taps[..], pastInPhase);
      UnrolledIsConvolution(taps[..], pastQuadrature);
    }

    static lemma MirroredSlice(h: seq<real>, at: nat, past: seq<real>)
      requires Mirrored(h, TAP_COUNT, at, past)
      ensures at + TAP_COUNT <= |h| && h[at..at + TAP_COUNT] == Window(past, TAP_COUNT)
    {}

    /** `received` is what reading the source delivered; nothing on failure. */
    method ReadBlockGeneric(received: Option<seq<Byte>>, output: array<real>) returns (status: int)
      requires Circular() && output.Length == 2 * OUTPUT_BLOCK_SAMPLES
      requires received.Some? ==> |received.value| == BLOCK_INPUT_BYTES
      requires output != taps && output != historyInPhase && output != historyQuadrature
      modifies `historyWriteIndex, `pastInPhase, `pastQuadrature, historyInPhase, historyQuadrature, output
      ensures Circular()
      ensures status == if received.Some? then 0 else -1
      ensures status < 0 ==> pastInPhase == old(pastInPhase) && pastQuadrature == old(pastQuadrature)
      ensures status == 0 ==> var bytes := received.value;
        && pastInPhase == old(pastInPhase) + Channel(bytes, 0)
        && pastQuadrature == old(pastQuadrature) + Channel(bytes, 1)
        && |ChannelOutput(taps[..], old(pastInPhase), bytes, 0)| == OUTPUT_BLOCK_SAMPLES
        && HoldsOutputs(output[..], ChannelOutput(taps[..], old(pastInPhase), bytes, 0),
                        ChannelOutput(taps[..], old(pastQuadrature), bytes, 1))
    {
      hide Mirrored, Convolve, Decimated, Channel, HoldsOutputs;
      if received.None? {
        return -1;
      }
      var bytes := received.value;
      ghost var t, i0, q0 := taps[..], pastInPhase, pastQuadrature;
      Prepared(t, i0, q0, bytes, output[..]);
      for k := 0 to OUTPUT_BLOCK_SAMPLES
        invariant Circular() && taps[..] == t
        invariant Progress(t, i0, q0, bytes, k, pastInPhase, pastQuadrature, output[..])
      {
        var i, q := GenericGroup(bytes[2 * FACTOR * k..2 * FACTOR * (k + 1)]);
        ghost var next := output[..][2 * k := i][2 * k + 1 := q];
        OneMore(t, i0, q0, bytes, k, pastInPhase, pastQuadrature, output[..]);
        output[2 * k] := i;
        output[2 * k + 1] := q;
        assert output[..] == next;
      }
      Finished(t, i0, q0, bytes, pastInPhase, pastQuadrature, output[..]);
      return 0;
    }

    // -------------------------------------------------------------- the specialised form

    /** One output pair: eight sample pairs behind the overlap, two sums, and the window moved down by eight. */
    method SpecializedGroup(bytes: seq<Byte>, window: array<real>, channel: nat, ghost past: seq<real>)
        returns (sum: real)
      requires Shape() && window.Length == TAP_COUNT && window != taps && |bytes| == 2 * FACTOR && channel < 2
      requires window[..OVERLAP] == Window(past, OVERLAP)
      modifies window
      ensures sum == Convolve(taps[..], TAP_COUNT, past + Channel(bytes, channel))
      ensures window[..OVERLAP] == Window(past + Channel(bytes, channel), OVERLAP)
    {
      hide Convolve, Unrolled, Window;
      forall n | 0 <= n < FACTOR { window[OVERLAP + n] := Level(bytes[2 * n + channel]); }
      assert window[..OVERLAP] == old(window[..OVERLAP]);
      assert window[..] == window[..OVERLAP] + Channel(bytes, channel);
      WindowExtends(past, Channel(bytes, channel), TAP_COUNT);
      ghost var t, moved := taps[..], window[..];
      assert moved == Window(past + Channel(bytes, channel), TAP_COUNT);
      sum := Unrolled(taps[..], window[..]);
      UnrolledIsConvolution(t, past + Channel(bytes, channel));
      forall n | 0 <= n < OVERLAP { window[n] := window[OVERLAP + n]; }
      assert window[..OVERLAP] == moved[OVERLAP..] && taps[..] == t;
    }

    method ReadBlockSpecialized(received: Option<seq<Byte>>, output: array<real>) returns (status: int)
      requires Overlapping() && output.Length == 2 * OUTPUT_BLOCK_SAMPLES
      requires received.Some? ==> |received.value| == BLOCK_INPUT_BYTES
      requires output != taps && output != historyInPhase && output != historyQuadrature
      modifies `historyWriteIndex, `pastInPhase, `pastQuadrature, historyInPhase, historyQuadrature, output
      ensures Overlapping()
      ensures status == if received.Some? then 0 else -1
      ensures status < 0 ==> pastInPhase == old(pastInPhase) && pastQuadrature == old(pastQuadrature)
      ensures status == 0 ==> var bytes := received.value;
        && pastInPhase == old(pastInPhase) + Channel(bytes, 0)
        && pastQuadrature == old(pastQuadrature) + Channel(bytes, 1)
        && |ChannelOutput(taps[..], old(pastInPhase), bytes, 0)| == OUTPUT_BLOCK_SAMPLES
        && HoldsOutputs(output[..], ChannelOutput(taps[..], old(pastInPhase), bytes, 0),
                        ChannelOutput(taps[..], old(pastQuadrature), bytes, 1))
    {
      hide Convolve, Decimated, Channel, HoldsOutputs, Window;
      if received.None? {
        return -1;
      }
      var bytes := received.value;
      ghost var t, i0, q0 := taps[..], pastInPhase, pastQuadrature;
      ghost var i1, q1 := i0, q0;
      var windowI := new real[TAP_COUNT](i => 0.0);
      var windowQ := new real[TAP_COUNT](i => 0.0);
      forall n | 0 <= n < OVERLAP { windowI[n] := historyInPhase[n]; }
      forall n | 0 <= n < OVERLAP { windowQ[n] := historyQuadrature[n]; }
      assert windowI[..OVERLAP] == historyInPhase[..OVERLAP] && windowQ[..OVERLAP] == historyQuadrature[..OVERLAP];
      Prepared(t, i0, q0, bytes, output[..]);
      for k := 0 to OUTPUT_BLOCK_SAMPLES
        invariant Shape() && taps[..] == t && pastInPhase == i0 && pastQuadrature == q0
        invariant windowI[..OVERLAP] == Window(i1, OVERLAP) && windowQ[..OVERLAP] == Window(q1, OVERLAP)
        invariant Progress(t, i0, q0, bytes, k, i1, q1, output[..])
      {
        var group := bytes[2 * FACTOR * k..2 * FACTOR * (k + 1)];
        var i := SpecializedGroup(group, windowI, 0, i1);
        var q := SpecializedGroup(group, windowQ, 1, q1);
        i1, q1 := i1 + Channel(group, 0), q1 + Channel(group, 1);
        ghost var next := output[..][2 * k := i][2 * k + 1 := q];
        OneMore(t, i0, q0, bytes, k, i1, q1, output[..]);
        output[2 * k] := i;
        output[2 * k + 1] := q;
        assert output[..] == next;
      }
      Finished(t, i0, q0, bytes, i1, q1, output[..]);
      SaveOverlaps(windowI, windowQ, i1, q1);
      return 0;
    }

    method SaveOverlaps(windowI: array<real>, windowQ: array<real>, ghost i1: seq<real>, ghost q1: seq<real>)
      requires Shape() && windowI.Length == TAP_COUNT == windowQ.Length
      requires windowI != historyInPhase && windowI != historyQuadrature
      requires windowQ != historyInPhase && windowQ != historyQuadrature
      requires windowI[..OVERLAP] == Window(i1, OVERLAP) && windowQ[..OVERLAP] == Window(q1, OVERLAP)
      requires |i1| == |q1| && |i1| % FACTOR == 0
      modifies `historyWriteIndex, `pastInPhase, `pastQuadrature, historyInPhase, historyQuadrature
      ensures Overlapping() && pastInPhase == i1 && pastQuadrature == q1
    {
      hide Window;
      forall n | 0 <= n < OVERLAP { historyInPhase[n] := windowI[n]; }
      forall n | 0 <= n < OVERLAP { historyQuadrature[n] := windowQ[n]; }
      assert historyInPhase[..OVERLAP] == windowI[..OVERLAP] && historyQuadrature[..OVERLAP] == windowQ[..OVERLAP];
      historyWriteIndex := 0;
      pastInPhase, pastQuadrature := i1, q1;
    }
  }

  // ---------------------------------------------------------------- progress through a block

  /** After k groups: the samples taken and the outputs written. */
  ghost predicate Progress(t: seq<real>, i0: seq<real>, q0: seq<real>, bytes: seq<Byte>, k: nat,
                           i1: seq<real>, q1: seq<real>, output: seq<real>)
  {
    && |t| == TAP_COUNT && |bytes| == BLOCK_INPUT_BYTES && k <= OUTPUT_BLOCK_SAMPLES
    && |Channel(bytes, 0)| == FACTOR * OUTPUT_BLOCK_SAMPLES == |Channel(bytes, 1)|
    && |i0| % FACTOR == 0 && |q0| % FACTOR == 0 && |output| == 2 * OUTPUT_BLOCK_SAMPLES
    && i1 == i0 + Channel(bytes, 0)[..FACTOR * k] && q1 == q0 + Channel(bytes, 1)[..FACTOR * k]
    && var i := Decimated(t, TAP_COUNT, FACTOR, i0, Channel(bytes, 0)[..FACTOR * k]);
       var q := Decimated(t, TAP_COUNT, FACTOR, q0, Channel(bytes, 1)[..FACTOR * k]);
       |i| == k && HoldsOutputs(output, i, q)
  }

  lemma Prepared(t: seq<real>, i0: seq<real>, q0: seq<real>, bytes: seq<Byte>, output: seq<real>)
    requires |t| == TAP_COUNT && |bytes| == BLOCK_INPUT_BYTES && |output| == 2 * OUTPUT_BLOCK_SAMPLES
    requires |i0| % FACTOR == 0 && |q0| % FACTOR == 0
    ensures Progress(t, i0, q0, bytes, 0, i0, q0, output)
  {
    hide Convolve;
    assert Channel(bytes, 0)[..0] == [] && Channel(bytes, 1)[..0] == [] && i0 + [] == i0 && q0 + [] == q0;
  }

  lemma GroupOfChannel(bytes: seq<Byte>, channel: nat, k: nat)
    requires |bytes| == BLOCK_INPUT_BYTES && k < OUTPUT_BLOCK_SAMPLES && channel < 2
    ensures |Channel(bytes, channel)| == FACTOR * OUTPUT_BLOCK_SAMPLES
    ensures Channel(bytes, channel)[..FACTOR * (k + 1)]
         == Channel(bytes, channel)[..FACTOR * k] + Channel(bytes[2 * FACTOR * k..2 * FACTOR * (k + 1)], channel)
  {
    var whole, group := Channel(bytes, channel), Channel(bytes[2 * FACTOR * k..2 * FACTOR * (k + 1)], channel);
    forall i | 0 <= i < FACTOR
      ensures whole[FACTOR * k + i] == group[i]
    {
      assert bytes[2 * FACTOR * k..2 * FACTOR * (k + 1)][2 * i + channel] == bytes[2 * (FACTOR * k + i) + channel];
    }
    assert whole[..FACTOR * (k + 1)] == whole[..FACTOR * k] + whole[FACTOR * k..FACTOR * (k + 1)];
    assert whole[FACTOR * k..FACTOR * (k + 1)] == group;
  }

  lemma OneMore(t: seq<real>, i0: seq<real>, q0: seq<real>, bytes: seq<Byte>, k: nat,
                i2: seq<real>, q2: seq<real>, output: seq<real>)
    requires k < OUTPUT_BLOCK_SAMPLES
    requires |bytes| == BLOCK_INPUT_BYTES
    requires exists i1, q1 :: Progress(t, i0, q0, bytes, k, i1, q1, output)
               && i2 == i1 + Channel(bytes[2 * FACTOR * k..2 * FACTOR * (k + 1)], 0)
               && q2 == q1 + Channel(bytes[2 * FACTOR * k..2 * FACTOR * (k + 1)], 1)
    ensures |t| == TAP_COUNT && |output| == 2 * OUTPUT_BLOCK_SAMPLES
    ensures Progress(t, i0, q0, bytes, k + 1, i2, q2,
                     output[2 * k := Convolve(t, TAP_COUNT, i2)][2 * k + 1 := Convolve(t, TAP_COUNT, q2)])
  {
    hide Convolve, Decimated, Channel, HoldsOutputs;
    var i1, q1 :| Progress(t, i0, q0, bytes, k, i1, q1, output)
      && i2 == i1 + Channel(bytes[2 * FACTOR * k..2 * FACTOR * (k + 1)], 0)
      && q2 == q1 + Channel(bytes[2 * FACTOR * k..2 * FACTOR * (k + 1)], 1);
    GroupOfChannel(bytes, 0, k);
    GroupOfChannel(bytes, 1, k);
    AtBoundary(|i0|, k);
    AtBoundary(|q0|, k);
    GroupEmitsOne(t, TAP_COUNT, FACTOR, i0, Channel(bytes, 0), FACTOR * k);
    GroupEmitsOne(t, TAP_COUNT, FACTOR, q0, Channel(bytes, 1), FACTOR * k);
    OutputsGrow(output, Decimated(t, TAP_COUNT, FACTOR, i0, Channel(bytes, 0)[..FACTOR * k]),
                Decimated(t, TAP_COUNT, FACTOR, q0, Channel(bytes, 1)[..FACTOR * k]),
                Convolve(t, TAP_COUNT, i2), Convolve(t, TAP_COUNT, q2));
    assert i0 + Channel(bytes, 0)[..FACTOR * (k + 1)] == i2;
    assert q0 + Channel(bytes, 1)[..FACTOR * (k + 1)] == q2;
  }

  lemma Finished(t: seq<real>, i0: seq<real>, q0: seq<real>, bytes: seq<Byte>, i1: seq<real>, q1: seq<real>,
                 output: seq<real>)
    requires Progress(t, i0, q0, bytes, OUTPUT_BLOCK_SAMPLES, i1, q1, output)
    ensures i1 == i0 + Channel(bytes, 0) && q1 == q0 + Channel(bytes, 1)
    ensures |i1| % FACTOR == 0 && |i1| - |i0| == |q1| - |q0|
    ensures |ChannelOutput(t, i0, bytes, 0)| == OUTPUT_BLOCK_SAMPLES
    ensures HoldsOutputs(output, ChannelOutput(t, i0, bytes, 0), ChannelOutput(t, q0, bytes, 1))
  {
    hide Decimated, Channel, HoldsOutputs;
    assert Channel(bytes, 0)[..FACTOR * OUTPUT_BLOCK_SAMPLES] == Channel(bytes, 0);
    assert Channel(bytes, 1)[..FACTOR * OUTPUT_BLOCK_SAMPLES] == Channel(bytes, 1);
  }

  // ---------------------------------------------------------------- refinement

  /** Both forms' contracts fix the outputs: whatever the two write for the same samples is the same. */
  lemma OutputsAreDetermined(a: seq<real>, b: seq<real>, inPhase: seq<real>, quadrature: seq<real>)
    requires HoldsOutputs(a, inPhase, quadrature) && HoldsOutputs(b, inPhase, quadrature)
    requires |a| == |b| == 2 * |inPhase|
    ensures a == b
  {
    forall i | 0 <= i < |a|
      ensures a[i] == b[i]
    {
      var k := i / 2;
      assert a[2 * k] == b[2 * k] && a[2 * k + 1] == b[2 * k + 1];
    }
  }

  // ---------------------------------------------------------------- both forms over a run

  /** What reading one block returns and, on success, writes. */
  datatype BlockResult = BlockResult(status: int, output: seq<real>)

  /** The two objects have seen the same samples and are in the states their forms need. */
  ghost predicate Related(generic: IqDecimator, specialized: IqDecimator)
    reads generic, specialized, generic.taps, specialized.taps
    reads generic.historyInPhase, generic.historyQuadrature, specialized.historyInPhase, specialized.historyQuadrature
  {
    && generic.Circular() && specialized.Overlapping() && generic.taps[..] == specialized.taps[..]
    && generic.pastInPhase == specialized.pastInPhase && generic.pastQuadrature == specialized.pastQuadrature
  }

  /** No memory of one is memory of the other. */
  ghost predicate Apart(generic: IqDecimator, specialized: IqDecimator)
  {
    && generic != specialized
    && {generic.taps, generic.historyInPhase, generic.historyQuadrature}
         !! {specialized.taps, specialized.historyInPhase, specialized.historyQuadrature}
  }

  predicate WholeBlock(received: Option<seq<Byte>>)
  {
    received.Some? ==> |received.value| == BLOCK_INPUT_BYTES
  }

  /** The eight samples saved are the newest eight of the circles. */
  lemma RelatedHistories(generic: IqDecimator, specialized: IqDecimator)
    requires Related(generic, specialized)
    ensures var at := generic.historyWriteIndex;
      && at + TAP_COUNT <= 2 * TAP_COUNT
      && specialized.historyInPhase[..OVERLAP] == generic.historyInPhase[..][at + OVERLAP..at + TAP_COUNT]
      && specialized.historyQuadrature[..OVERLAP] == generic.historyQuadrature[..][at + OVERLAP..at + TAP_COUNT]
  {
    var at := generic.historyWriteIndex;
    OverlapIsNewestOfCircle(generic.historyInPhase[..], TAP_COUNT, at, specialized.historyInPhase[..OVERLAP], OVERLAP,
                            generic.pastInPhase);
    OverlapIsNewestOfCircle(generic.historyQuadrature[..], TAP_COUNT, at, specialized.historyQuadrature[..OVERLAP],
                            OVERLAP, generic.pastQuadrature);
  }

  method ReadGeneric(d: IqDecimator, received: Option<seq<Byte>>) returns (r: BlockResult)
    requires d.Circular() && WholeBlock(received)
    modifies d, d.historyInPhase, d.historyQuadrature
    ensures d.Circular() && d.taps[..] == old(d.taps[..])
    ensures r == ResultOf(d.taps[..], old(d.pastInPhase), old(d.pastQuadrature), received)
    ensures d.pastInPhase == After(old(d.pastInPhase), received, 0)
    ensures d.pastQuadrature == After(old(d.pastQuadrature), received, 1)
  {
    hide Convolve, Decimated, Mirrored, Channel;
    var output := new real[2 * OUTPUT_BLOCK_SAMPLES];
    var status := d.ReadBlockGeneric(received, output);
    r := BlockResult(status, if status == 0 then output[..] else []);
    if status == 0 {
      Outputs(d.taps[..], old(d.pastInPhase), old(d.pastQuadrature), received.value, r.output);
    }
  }

  method ReadSpecialized(d: IqDecimator, received: Option<seq<Byte>>) returns (r: BlockResult)
    requires d.Overlapping() && WholeBlock(received)
    modifies d, d.historyInPhase, d.historyQuadrature
    ensures d.Overlapping() && d.taps[..] == old(d.taps[..])
    ensures r == ResultOf(d.taps[..], old(d.pastInPhase), old(d.pastQuadrature), received)
    ensures d.pastInPhase == After(old(d.pastInPhase), received, 0)
    ensures d.pastQuadrature == After(old(d.pastQuadrature), received, 1)
  {
    hide Convolve, Decimated, Window, Channel;
    var output := new real[2 * OUTPUT_BLOCK_SAMPLES];
    var status := d.ReadBlockSpecialized(received, output);
    r := BlockResult(status, if status == 0 then output[..] else []);
    if status == 0 {
      Outputs(d.taps[..], old(d.pastInPhase), old(d.pastQuadrature), received.value, r.output);
    }
  }

  function After(past: seq<real>, received: Option<seq<Byte>>, channel: nat): seq<real>
    requires channel < 2
  {
    if received.None? then past else past + Channel(received.value, channel)
  }

  /** Both channels' outputs, in turn. */
  function Paired(inPhase: seq<real>, quadrature: seq<real>): seq<real>
    requires |inPhase| == |quadrature|
  {
    seq(2 * |inPhase|, i requires 0 <= i < 2 * |inPhase| => if i % 2 == 0 then inPhase[i / 2] else quadrature[i / 2])
  }

  /** How many outputs there are depends on how many samples there are. */
  lemma {:induction false} SameCount(t: seq<real>, i0: seq<real>, q0: seq<real>, i: seq<real>, q: seq<real>)
    requires |t| == TAP_COUNT && |i0| == |q0| && |i| == |q|
    ensures |Decimated(t, TAP_COUNT, FACTOR, i0, i)| == |Decimated(t, TAP_COUNT, FACTOR, q0, q)|
    decreases |i|
  {
    hide Convolve;
    if i != [] { SameCount(t, i0, q0, i[..|i| - 1], q[..|q| - 1]); }
  }

  ghost function ResultOf(t: seq<real>, i0: seq<real>, q0: seq<real>, received: Option<seq<Byte>>): BlockResult
    requires |t| == TAP_COUNT && |i0| == |q0|
  {
    if received.None? then BlockResult(-1, [])
    else
      SameCount(t, i0, q0, Channel(received.value, 0), Channel(received.value, 1));
      BlockResult(0, Paired(ChannelOutput(t, i0, received.value, 0), ChannelOutput(t, q0, received.value, 1)))
  }

  /** What a run of reads returns and writes, block by block, after the samples so far. */
  ghost function Results(t: seq<real>, i0: seq<real>, q0: seq<real>, blocks: seq<Option<seq<Byte>>>): seq<BlockResult>
    requires |t| == TAP_COUNT && |i0| == |q0|
    decreases |blocks|
  {
    if blocks == [] then []
    else [ResultOf(t, i0, q0, blocks[0])] + Results(t, After(i0, blocks[0], 0), After(q0, blocks[0], 1), blocks[1..])
  }

  lemma Outputs(t: seq<real>, i0: seq<real>, q0: seq<real>, bytes: seq<Byte>, output: seq<real>)
    requires |t| == TAP_COUNT && |i0| == |q0| && |output| == 2 * OUTPUT_BLOCK_SAMPLES
    requires |ChannelOutput(t, i0, bytes, 0)| == OUTPUT_BLOCK_SAMPLES
    requires HoldsOutputs(output, ChannelOutput(t, i0, bytes, 0), ChannelOutput(t, q0, bytes, 1))
    ensures BlockResult(0, output) == ResultOf(t, i0, q0, Some(bytes))
  {
    hide Decimated, Channel, ChannelOutput;
    var i, q := ChannelOutput(t, i0, bytes, 0), ChannelOutput(t, q0, bytes, 1);
    OutputsAreDetermined(output, Paired(i, q), i, q);
  }

  /** Over any run of blocks, failed reads among them, both forms return and write the same and stay related. */
  method ReadBoth(generic: IqDecimator, specialized: IqDecimator, blocks: seq<Option<seq<Byte>>>)
      returns (a: seq<BlockResult>, b: seq<BlockResult>)
    requires Related(generic, specialized) && Apart(generic, specialized)
    requires forall k :: 0 <= k < |blocks| ==> WholeBlock(blocks[k])
    modifies generic, generic.historyInPhase, generic.historyQuadrature
    modifies specialized, specialized.historyInPhase, specialized.historyQuadrature
    ensures Related(generic, specialized)
    ensures a == b == Results(generic.taps[..], old(generic.pastInPhase), old(generic.pastQuadrature), blocks)
  {
    hide Mirrored, Window, Channel, ResultOf, After;
    ghost var t, i0, q0 := generic.taps[..], generic.pastInPhase, generic.pastQuadrature;
    a, b := [], [];
    assert blocks[0..] == blocks;
    for k := 0 to |blocks|
      invariant Related(generic, specialized) && a == b && generic.taps[..] == t
      invariant a + Results(t, generic.pastInPhase, generic.pastQuadrature, blocks[k..]) == Results(t, i0, q0, blocks)
    {
      assert blocks[k..][1..] == blocks[k + 1..];
      var x := ReadGeneric(generic, blocks[k]);
      var y := ReadSpecialized(specialized, blocks[k]);
      a, b := a + [x], b + [y];
    }
    assert blocks[|blocks|..] == [] && a + [] == a;
  }

  /** So for objects just made with the same coefficients. */
  method ReadFresh(coefficients: seq<real>, blocks: seq<Option<seq<Byte>>>)
      returns (a: seq<BlockResult>, b: seq<BlockResult>)
    requires |coefficients| == TAP_COUNT
    requires forall k :: 0 <= k < |blocks| ==> WholeBlock(blocks[k])
    ensures a == b == Results(coefficients, [], [], blocks)
  {
    hide Mirrored, Window, Results;
    var generic := new IqDecimator(coefficients);
    var specialized := new IqDecimator(coefficients);
    a, b := ReadBoth(generic, specialized, blocks);
  }

  // ---------------------------------------------------------------- symmetry

  function Negative(x: seq<real>): (y: seq<real>)
    ensures |y| == |x|
  {
    seq(|x|, i requires 0 <= i < |x| => -x[i])
  }

  function Complement(bytes: seq<Byte>): (c: seq<Byte>)
    ensures |c| == |bytes|
  {
    seq(|bytes|, i requires 0 <= i < |bytes| => 255 - bytes[i])
  }

  function Complemented(blocks: seq<Option<seq<Byte>>>): (c: seq<Option<seq<Byte>>>)
    ensures |c| == |blocks|
  {
    seq(|blocks|, k requires 0 <= k < |blocks| =>
      if blocks[k].None? then None else Some(Complement(blocks[k].value)))
  }

  lemma ConvolutionIsOdd(t: seq<real>, past: seq<real>)
    requires |t| == TAP_COUNT
    ensures Convolve(t, TAP_COUNT, Negative(past)) == -Convolve(t, TAP_COUNT, past)
  {
    hide Convolve;
    ConvolutionIsLinear(t, TAP_COUNT, past, past, -2.0);
    assert Mixed(past, past, -2.0) == Negative(past);
  }

  lemma {:induction false} DecimationIsOdd(t: seq<real>, past: seq<real>, input: seq<real>)
    requires |t| == TAP_COUNT
    ensures Decimated(t, TAP_COUNT, FACTOR, Negative(past), Negative(input))
         == Negative(Decimated(t, TAP_COUNT, FACTOR, past, input))
    decreases |input|
  {
    hide Convolve;
    if input != [] {
      var n := |input| - 1;
      DecimationIsOdd(t, past, input[..n]);
      assert Negative(input)[..n] == Negative(input[..n]) && Negative(past) + Negative(input) == Negative(past + input);
      ConvolutionIsOdd(t, past + input);
    }
  }

  lemma ChannelOfComplement(bytes: seq<Byte>, channel: nat)
    requires channel < 2
    ensures Channel(Complement(bytes), channel) == Negative(Channel(bytes, channel))
  {
    forall i | 0 <= i < |bytes| / 2
      ensures Channel(Complement(bytes), channel)[i] == -Channel(bytes, channel)[i]
    {
      LevelsAreCentred(bytes[2 * i + channel]);
    }
  }

  /** The same status, and the negative of every output. */
  predicate IsNegative(a: BlockResult, b: BlockResult)
  {
    a.status == b.status && |a.output| == |b.output| && forall i :: 0 <= i < |a.output| ==> a.output[i] == -b.output[i]
  }

  lemma ResultOfComplement(t: seq<real>, i0: seq<real>, q0: seq<real>, bytes: seq<Byte>)
    requires |t| == TAP_COUNT && |i0| == |q0|
    ensures IsNegative(ResultOf(t, Negative(i0), Negative(q0), Some(Complement(bytes))),
                       ResultOf(t, i0, q0, Some(bytes)))
    ensures After(Negative(i0), Some(Complement(bytes)), 0) == Negative(After(i0, Some(bytes), 0))
    ensures After(Negative(q0), Some(Complement(bytes)), 1) == Negative(After(q0, Some(bytes), 1))
  {
    hide Decimated, Channel, Complement;
    ChannelOfComplement(bytes, 0);
    ChannelOfComplement(bytes, 1);
    DecimationIsOdd(t, i0, Channel(bytes, 0));
    DecimationIsOdd(t, q0, Channel(bytes, 1));
    SameCount(t, i0, q0, Channel(bytes, 0), Channel(bytes, 1));
  }

  lemma {:induction false} ResultsOfComplement(t: seq<real>, i0: seq<real>, q0: seq<real>,
                                               blocks: seq<Option<seq<Byte>>>)
    requires |t| == TAP_COUNT && |i0| == |q0|
    ensures var r, n := Results(t, i0, q0, blocks), Results(t, Negative(i0), Negative(q0), Complemented(blocks));
      |r| == |n| == |blocks| && forall k :: 0 <= k < |r| ==> IsNegative(n[k], r[k])
    decreases |blocks|
  {
    hide ResultOf, Complement, Negative;
    if blocks != [] {
      assert Complemented(blocks)[1..] == Complemented(blocks[1..]);
      if blocks[0].Some? {
        ResultOfComplement(t, i0, q0, blocks[0].value);
      } else {
        FailedRead(t, i0, q0);
      }
      ResultsOfComplement(t, After(i0, blocks[0], 0), After(q0, blocks[0], 1), blocks[1..]);
    }
  }

  lemma FailedRead(t: seq<real>, i0: seq<real>, q0: seq<real>)
    requires |t| == TAP_COUNT && |i0| == |q0|
    ensures IsNegative(ResultOf(t, Negative(i0), Negative(q0), None), ResultOf(t, i0, q0, None))
  {}

  /** Complementing every byte of a run negates every output from silence, in both forms. */
  method ReadComplement(coefficients: seq<real>, blocks: seq<Option<seq<Byte>>>)
      returns (a: seq<BlockResult>, b: seq<BlockResult>)
    requires |coefficients| == TAP_COUNT
    requires forall k :: 0 <= k < |blocks| ==> WholeBlock(blocks[k])
    ensures |a| == |b| == |blocks| && forall k :: 0 <= k < |blocks| ==> IsNegative(b[k], a[k])
  {
    hide Results;
    var same, negative: seq<BlockResult>;
    a, same := ReadFresh(coefficients, blocks);
    negative, b := ReadFresh(coefficients, Complemented(blocks));
    assert Negative([]) == [];
    ResultsOfComplement(coefficients, [], [], blocks);
  }
}
