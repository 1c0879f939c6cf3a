/** The decimator specialised for ninety taps and a factor of five: no circle, but an overlap of 85 saved samples. */
module FirSpecialized {
  import opened Convolution
  import opened Fir

  const TAP_COUNT: nat := 90
  const FACTOR: nat := 5
  const OVERLAP: nat := 85

  /** The sum over a window of ninety samples, written out. */
  function Unrolled(t: seq<real>, w: seq<real>): real
    requires |t| >= 45 && |w| == TAP_COUNT
  {
    Tapped(t[0], w[0], w[89]) +
    Tapped(t[1], w[1], w[88]) +
    Tapped(t[2], w[2], w[87]) +
    Tapped(t[3], w[3], w[86]) +
    Tapped(t[4], w[4], w[85]) +
    Tapped(t[5], w[5], w[84]) +
    Tapped(t[6], w[6], w[83]) +
    Tapped(t[7], w[7], w[82]) +
    Tapped(t[8], w[8], w[81]) +
    Tapped(t[9], w[9], w[80]) +
    Tapped(t[10], w[10], w[79]) +
    Tapped(t[11], w[11], w[78]) +
    Tapped(t[12], w[12], w[77]) +
    Tapped(t[13], w[13], w[76]) +
    Tapped(t[14], w[14], w[75]) +
    Tapped(t[15], w[15], w[74]) +
    Tapped(t[16], w[16], w[73]) +
    Tapped(t[17], w[17], w[72]) +
    Tapped(t[18], w[18], w[71]) +
    Tapped(t[19], w[19], w[70]) +
    Tapped(t[20], w[20], w[69]) +
    Tapped(t[21], w[21], w[68]) +
    Tapped(t[22], w[22], w[67]) +
    Tapped(t[23], w[23], w[66]) +
    Tapped(t[24], w[24], w[65]) +
    Tapped(t[25], w[25], w[64]) +
    Tapped(t[26], w[26], w[63]) +
    Tapped(t[27], w[27], w[62]) +
    Tapped(t[28], w[28], w[61]) +
    Tapped(t[29], w[29], w[60]) +
    Tapped(t[30], w[30], w[59]) +
    Tapped(t[31], w[31], w[58]) +
    Tapped(t[32], w[32], w[57]) +
    Tapped(t[33], w[33], w[56]) +
    Tapped(t[34], w[34], w[55]) +
    Tapped(t[35], w[35], w[54]) +
    Tapped(t[36], w[36], w[53]) +
    Tapped(t[37], w[37], w[52]) +
    Tapped(t[38], w[38], w[51]) +
    Tapped(t[39], w[39], w[50]) +
    Tapped(t[40], w[40], w[49]) +
    Tapped(t[41], w[41], w[48]) +
    Tapped(t[42], w[42], w[47]) +
    Tapped(t[43], w[43], w[46]) +
    Tapped(t[44], w[44], w[45])
  }

  lemma PairsStep(t: seq<real>, w: seq<real>, k: nat)
    requires 2 * (k + 1) <= |w| <= |t|
    ensures Pairs(t, w, k + 1) == Pairs(t, w, k) + Tapped(t[k], w[k], w[|w| - 1 - k])
  {}

  lemma UnrolledIsFolded(t: seq<real>, w: seq<real>)
    requires |w| == TAP_COUNT <= |t|
    ensures Unrolled(t, w) == Folded(t, w)
  {
    hide Pairs, Tapped;
    PairsNothing(t, w);
    PairsStep(t, w, 0); PairsStep(t, w, 1); PairsStep(t, w, 2); PairsStep(t, w, 3); PairsStep(t, w, 4);
    PairsStep(t, w, 5); PairsStep(t, w, 6); PairsStep(t, w, 7); PairsStep(t, w, 8); PairsStep(t, w, 9);
    PairsStep(t, w, 10); PairsStep(t, w, 11); PairsStep(t, w, 12); PairsStep(t, w, 13); PairsStep(t, w, 14);
    PairsStep(t, w, 15); PairsStep(t, w, 16); PairsStep(t, w, 17); PairsStep(t, w, 18); PairsStep(t, w, 19);
    PairsStep(t, w, 20); PairsStep(t, w, 21); PairsStep(t, w, 22); PairsStep(t, w, 23); PairsStep(t, w, 24);
    PairsStep(t, w, 25); PairsStep(t, w, 26); PairsStep(t, w, 27); PairsStep(t, w, 28); PairsStep(t, w, 29);
    PairsStep(t, w, 30); PairsStep(t, w, 31); PairsStep(t, w, 32); PairsStep(t, w, 33); PairsStep(t, w, 34);
    PairsStep(t, w, 35); PairsStep(t, w, 36); PairsStep(t, w, 37); PairsStep(t, w, 38); PairsStep(t, w, 39);
    PairsStep(t, w, 40); PairsStep(t, w, 41); PairsStep(t, w, 42); PairsStep(t, w, 43); PairsStep(t, w, 44);
  }

  lemma PairsNothing(t: seq<real>, w: seq<real>)
    requires |w| <= |t|
    ensures Pairs(t, w, 0) == 0.0
  {}

  // ---------------------------------------------------------------- one block

  /** The samples of a block that the specialised form uses: whole groups of five. */
  function Usable(input: seq<real>): (used: seq<real>)
    ensures |used| <= |input|
  {
    input[..|input| - |input| % FACTOR]
  }

  /** The state between blocks: the newest 85 samples, at the front of the history. */
  ghost predicate Overlapping(d: Decimator)
    reads d, d.fir, d.fir.history
  {
    && d.fir.Shape() && d.fir.tapCount == TAP_COUNT && d.factor == FACTOR && d.configured
    && d.phase == 0 && d.fir.writeIndex == 0 && |d.fir.past| % FACTOR == 0
    && d.fir.history[..OVERLAP] == Window(d.fir.past, OVERLAP)
  }

  /** A decimator fresh from its configuration is in both forms at once. */
  lemma FreshIsOverlapping(d: Decimator)
    requires d.Valid() && d.fir.tapCount == TAP_COUNT && d.factor == FACTOR
    requires d.fir.past == [] && d.phase == 0 && d.fir.writeIndex == 0
    requires forall k :: 0 <= k < d.fir.history.Length ==> d.fir.history[k] == 0.0
    ensures Overlapping(d)
  {
    hide Mirrored;
    var past := d.fir.past;
    var w := Window(past, OVERLAP);
    forall i | 0 <= i < OVERLAP
      ensures d.fir.history[i] == w[i]
    {
      assert w[i] == At(past, |past| - OVERLAP + i);
    }
  }

  lemma Multiples(a: nat, b: nat)
    requires a % FACTOR == 0 && b % FACTOR == 0
    ensures (a + b) % FACTOR == 0
  {}

  /** Copies 85 samples of the scratch window, from `start` on, to its front. */
  method Rewind(window: array<real>, start: nat)
    requires window.Length == 2 * TAP_COUNT && start + OVERLAP <= window.Length && OVERLAP <= start
    modifies window
    ensures window[..OVERLAP] == old(window[start..start + OVERLAP])
  {
    forall k | 0 <= k < OVERLAP { window[k] := window[start + k]; }
  }

  method PutGroup(window: array<real>, at: nat, group: seq<real>)
    requires |group| == FACTOR && OVERLAP <= at && at + FACTOR <= window.Length
    modifies window
    ensures window[at - OVERLAP..at + FACTOR] == old(window[at - OVERLAP..at]) + group
  {
    window[at] := group[0];
    window[at + 1] := group[1];
    window[at + 2] := group[2];
    window[at + 3] := group[3];
    window[at + 4] := group[4];
  }

  /** Takes five samples into the scratch window and computes the output they complete. */
  method GroupOutput(taps: array<real>, window: array<real>, start: nat, group: seq<real>, ghost now: seq<real>)
      returns (acc: real)
    requires taps.Length == MAX_TAPS && taps != window && |group| == FACTOR
    requires window.Length == 2 * TAP_COUNT && start + TAP_COUNT <= window.Length
    requires window[start..start + OVERLAP] == Window(now, OVERLAP)
    modifies window
    ensures acc == Convolve(taps[..], TAP_COUNT, now + group)
    ensures window[start + FACTOR..start + TAP_COUNT] == Window(now + group, OVERLAP)
  {
    hide Convolve, Unrolled, Window, Folded;
    PutGroup(window, start + OVERLAP, group);
    WindowExtends(now, group, TAP_COUNT);
    acc := Unrolled(taps[..], window[start..start + TAP_COUNT]);
    UnrolledIsFolded(taps[..], window[start..start + TAP_COUNT]);
    FoldedIsConvolution(taps[..], TAP_COUNT, now + group);
    assert window[start + FACTOR..start + TAP_COUNT] == window[start..start + TAP_COUNT][FACTOR..];
  }

  /** The same wherever the group falls: at its end the scratch window is rewound first. */
  method TakeGroup(taps: array<real>, window: array<real>, start: nat, group: seq<real>, ghost now: seq<real>)
      returns (next: nat, acc: real)
    requires taps.Length == MAX_TAPS && taps != window && |group| == FACTOR && window.Length == 2 * TAP_COUNT
    requires start <= TAP_COUNT && start % FACTOR == 0 && window[start..start + OVERLAP] == Window(now, OVERLAP)
    modifies window
    ensures next <= TAP_COUNT && next % FACTOR == 0 && window[next..next + OVERLAP] == Window(now + group, OVERLAP)
    ensures acc == Convolve(taps[..], TAP_COUNT, now + group)
  {
    hide Convolve, Window;
    next := start;
    if next == TAP_COUNT {
      Rewind(window, next);
      next := 0;
    }
    acc := GroupOutput(taps, window, next, group, now);
    next := next + FACTOR;
  }

  lemma UsableIs(input: seq<real>, n: nat)
    requires n <= |input| < n + FACTOR && n % FACTOR == 0
    ensures Usable(input) == input[..n]
  {}

  method ProcessBlock(d: Decimator, input: seq<real>, output: array<real>, maxOutput: nat) returns (produced: nat)
    requires Overlapping(d) && maxOutput <= output.Length && output != d.fir.taps && output != d.fir.history
    modifies d`phase, d.fir`writeIndex, d.fir`past, d.fir.history, output
    ensures Overlapping(d) && d.fir.past == old(d.fir.past) + Usable(input)
    ensures produced <= maxOutput
    ensures output[..produced]
         == First(Decimated(d.fir.taps[..], TAP_COUNT, FACTOR, old(d.fir.past), Usable(input)), maxOutput)
  {
    hide Convolve, Decimated, Window, First, Usable;
    var window := new real[2 * TAP_COUNT](i => 0.0);
    var windowStart: nat, inputIndex: nat := 0, 0;
    produced := 0;
    ghost var t, start := d.fir.taps[..], d.fir.past;
    forall k | 0 <= k < OVERLAP { window[k] := d.fir.history[k]; }
    assert window[..OVERLAP] == d.fir.history[..OVERLAP];
    DecimatedNothing(t, TAP_COUNT, FACTOR, start);
    FirstOfNothing(maxOutput);
    assert input[..0] == [] && start + [] == start;
    while inputIndex + FACTOR <= |input|
      invariant inputIndex <= |input| && inputIndex % FACTOR == 0 && windowStart % FACTOR == 0
      invariant windowStart <= TAP_COUNT && produced <= maxOutput
      invariant window[windowStart..windowStart + OVERLAP] == Window(start + input[..inputIndex], OVERLAP)
      invariant d.fir.taps[..] == t && |t| == MAX_TAPS
      invariant output[..produced] == First(Decimated(t, TAP_COUNT, FACTOR, start, input[..inputIndex]), maxOutput)
    {
      ghost var now := start + input[..inputIndex];
      ghost var emitted := Decimated(t, TAP_COUNT, FACTOR, start, input[..inputIndex]);
      var group := input[inputIndex..inputIndex + FACTOR];
      assert now + group == start + input[..inputIndex + FACTOR];
      Multiples(|start|, inputIndex);
      Multiples(inputIndex, FACTOR);
      GroupEmitsOne(t, TAP_COUNT, FACTOR, start, input, inputIndex);
      var acc: real;
      windowStart, acc := TakeGroup(d.fir.taps, window, windowStart, group, now);
      FirstGrows(emitted, acc, maxOutput);
      produced := Decimator.Emit(output, produced, maxOutput, acc);
      inputIndex := inputIndex + FACTOR;
    }
    UsableIs(input, inputIndex);
    SaveOverlap(d, window, windowStart, start + input[..inputIndex]);
  }

  /** Keeps the newest 85 samples for the next block. */
  method SaveOverlap(d: Decimator, window: array<real>, windowStart: nat, ghost now: seq<real>)
    requires d.fir.Shape() && d.fir.tapCount == TAP_COUNT && d.factor == FACTOR && d.configured
    requires window != d.fir.history && windowStart + OVERLAP <= window.Length && |now| % FACTOR == 0
    requires window[windowStart..windowStart + OVERLAP] == Window(now, OVERLAP)
    modifies d`phase, d.fir`writeIndex, d.fir`past, d.fir.history
    ensures Overlapping(d) && d.fir.past == now
  {
    hide Window;
    forall k | 0 <= k < OVERLAP { d.fir.history[k] := window[windowStart + k]; }
    assert d.fir.history[..OVERLAP] == window[windowStart..windowStart + OVERLAP];
    d.fir.writeIndex := 0;
    d.phase := 0;
    d.fir.past := now;
  }

  // ---------------------------------------------------------------- refinement

  datatype Block = Block(input: seq<real>, maxOutput: nat)

  /** What the generic form's contract says a run of blocks outputs after `past`, block by block. */
  function GenericRun(t: seq<real>, past: seq<real>, blocks: seq<Block>): seq<seq<real>>
    requires |t| >= TAP_COUNT
    decreases |blocks|
  {
    if blocks == [] then []
    else [First(Decimated(t, TAP_COUNT, FACTOR, past, blocks[0].input), blocks[0].maxOutput)]
         + GenericRun(t, past + blocks[0].input, blocks[1..])
  }

  /** And the specialised form's. */
  function SpecializedRun(t: seq<real>, past: seq<real>, blocks: seq<Block>): seq<seq<real>>
    requires |t| >= TAP_COUNT
    decreases |blocks|
  {
    if blocks == [] then []
    else [First(Decimated(t, TAP_COUNT, FACTOR, past, Usable(blocks[0].input)), blocks[0].maxOutput)]
         + SpecializedRun(t, past + Usable(blocks[0].input), blocks[1..])
  }

  function Trimmed(blocks: seq<Block>): seq<Block>
  {
    seq(|blocks|, i requires 0 <= i < |blocks| => blocks[i].(input := Usable(blocks[i].input)))
  }

  /** On any blocks, the specialised form does what the generic form does on the whole groups of five in them. */
  lemma {:induction false} SpecializedRefinesGeneric(t: seq<real>, past: seq<real>, blocks: seq<Block>)
    requires |t| >= TAP_COUNT
    ensures SpecializedRun(t, past, blocks) == GenericRun(t, past, Trimmed(blocks))
    decreases |blocks|
  {
    hide Decimated;
    if blocks != [] {
      assert Trimmed(blocks)[1..] == Trimmed(blocks[1..]);
      SpecializedRefinesGeneric(t, past + Usable(blocks[0].input), blocks[1..]);
    }
  }

  /** So the two agree on every run of blocks whose lengths are multiples of five. */
  lemma SpecializedEqualsGeneric(t: seq<real>, past: seq<real>, blocks: seq<Block>)
    requires |t| >= TAP_COUNT
    requires forall i :: 0 <= i < |blocks| ==> |blocks[i].input| % FACTOR == 0
    ensures SpecializedRun(t, past, blocks) == GenericRun(t, past, blocks)
  {
    hide Decimated;
    SpecializedRefinesGeneric(t, past, blocks);
    forall i | 0 <= i < |blocks|
      ensures Trimmed(blocks)[i] == blocks[i]
    {
      assert Usable(blocks[i].input) == blocks[i].input;
    }
    assert Trimmed(blocks) == blocks;
  }
}
