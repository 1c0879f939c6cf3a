/** When the two forms of the decimator agree: over whole runs of the objects, and for which block lengths at all. */
module FirAgreement {
  import opened Convolution
  import opened Fir
  import opened FirSpecialized

  // ---------------------------------------------------------------- runs of the objects

  /** Feeds the generic form block after block. */
  method RunGeneric(d: Decimator, blocks: seq<Block>) returns (outputs: seq<seq<real>>)
    requires d.Valid() && d.configured && d.fir.tapCount == TAP_COUNT && d.factor == FACTOR
    modifies d`phase, d.fir`writeIndex, d.fir`past, d.fir.history
    ensures d.Valid() && d.fir.past == old(d.fir.past) + Inputs(blocks)
    ensures outputs == GenericRun(d.fir.taps[..], old(d.fir.past), blocks)
  {
    hide Decimated, Mirrored, First, GenericRun, Inputs;
    ghost var t, start := d.fir.taps[..], d.fir.past;
    outputs := [];
    NoBlocks(t, start);
    assert blocks[0..] == blocks && blocks[..0] == [];
    for k := 0 to |blocks|
      invariant d.Valid() && d.fir.taps[..] == t && d.fir.past == start + Inputs(blocks[..k])
      invariant outputs + GenericRun(t, d.fir.past, blocks[k..]) == GenericRun(t, start, blocks)
    {
      GenericStep(t, d.fir.past, blocks, k);
      InputsStep(blocks, k);
      var output := new real[blocks[k].maxOutput];
      var produced := d.ProcessBlock(blocks[k].input, output, blocks[k].maxOutput);
      outputs := outputs + [output[..produced]];
    }
    NoBlocks(t, d.fir.past);
    assert blocks[..|blocks|] == blocks && blocks[|blocks|..] == [];
    assert outputs + [] == outputs;
  }

  lemma NoBlocks(t: seq<real>, past: seq<real>)
    requires |t| >= TAP_COUNT
    ensures GenericRun(t, past, []) == [] == SpecializedRun(t, past, []) && past + Inputs([]) == past
  {}

  /** And the specialised one. */
  method RunSpecialized(d: Decimator, blocks: seq<Block>) returns (outputs: seq<seq<real>>)
    requires Overlapping(d)
    modifies d`phase, d.fir`writeIndex, d.fir`past, d.fir.history
    ensures Overlapping(d) && d.fir.past == old(d.fir.past) + Inputs(Trimmed(blocks))
    ensures outputs == SpecializedRun(d.fir.taps[..], old(d.fir.past), blocks)
  {
    hide Decimated, Window, First, Usable, SpecializedRun, Inputs;
    ghost var t, start, kept := d.fir.taps[..], d.fir.past, Trimmed(blocks);
    outputs := [];
    NoBlocks(t, start);
    assert blocks[0..] == blocks && kept[..0] == [];
    for k := 0 to |blocks|
      invariant Overlapping(d) && d.fir.taps[..] == t && d.fir.past == start + Inputs(kept[..k])
      invariant outputs + SpecializedRun(t, d.fir.past, blocks[k..]) == SpecializedRun(t, start, blocks)
    {
      SpecializedStep(t, d.fir.past, blocks, k);
      InputsStep(kept, k);
      var output := new real[blocks[k].maxOutput];
      var produced := ProcessBlock(d, blocks[k].input, output, blocks[k].maxOutput);
      outputs := outputs + [output[..produced]];
    }
    NoBlocks(t, d.fir.past);
    assert kept[..|blocks|] == kept && blocks[|blocks|..] == [];
    assert outputs + [] == outputs;
  }

  function Inputs(blocks: seq<Block>): seq<real>
  {
    if blocks == [] then [] else Inputs(blocks[..|blocks| - 1]) + blocks[|blocks| - 1].input
  }

  lemma InputsStep(blocks: seq<Block>, k: nat)
    requires k < |blocks|
    ensures Inputs(blocks[..k + 1]) == Inputs(blocks[..k]) + blocks[k].input
  {
    assert blocks[..k + 1][..k] == blocks[..k];
  }

  lemma GenericStep(t: seq<real>, past: seq<real>, blocks: seq<Block>, k: nat)
    requires |t| >= TAP_COUNT && k < |blocks|
    ensures GenericRun(t, past, blocks[k..])
         == [First(Decimated(t, TAP_COUNT, FACTOR, past, blocks[k].input), blocks[k].maxOutput)]
            + GenericRun(t, past + blocks[k].input, blocks[k + 1..])
  {
    hide Decimated;
    assert blocks[k..][1..] == blocks[k + 1..];
  }

  lemma SpecializedStep(t: seq<real>, past: seq<real>, blocks: seq<Block>, k: nat)
    requires |t| >= TAP_COUNT && k < |blocks|
    ensures SpecializedRun(t, past, blocks[k..])
         == [First(Decimated(t, TAP_COUNT, FACTOR, past, Usable(blocks[k].input)), blocks[k].maxOutput)]
            + SpecializedRun(t, past + Usable(blocks[k].input), blocks[k + 1..])
  {
    hide Decimated;
    assert blocks[k..][1..] == blocks[k + 1..];
  }

  /** The two objects have seen the same samples and are in the states their forms need. */
  ghost predicate Related(generic: Decimator, specialized: Decimator)
    reads generic, generic.fir, generic.fir.history, generic.fir.taps
    reads specialized, specialized.fir, specialized.fir.history, specialized.fir.taps
  {
    && generic.Valid() && generic.configured && generic.fir.tapCount == TAP_COUNT && generic.factor == FACTOR
    && Overlapping(specialized) && generic.fir.taps[..] == specialized.fir.taps[..]
    && generic.fir.past == specialized.fir.past
  }

  /** The 85 samples saved are the newest 85 of the circle. */
  lemma RelatedHistories(generic: Decimator, specialized: Decimator)
    requires Related(generic, specialized)
    ensures var at := generic.fir.writeIndex;
      && at + TAP_COUNT <= 2 * TAP_COUNT
      && specialized.fir.history[..OVERLAP] == generic.fir.history[..][at + FACTOR..at + TAP_COUNT]
  {
    OverlapIsNewestOfCircle(generic.fir.history[..], TAP_COUNT, generic.fir.writeIndex,
                            specialized.fir.history[..OVERLAP], OVERLAP, generic.fir.past);
  }

  /** Over any run of whole groups of five, with any limits, both objects write the same and stay related. */
  method RunBoth(generic: Decimator, specialized: Decimator, blocks: seq<Block>)
      returns (a: seq<seq<real>>, b: seq<seq<real>>)
    requires Related(generic, specialized)
    requires generic != specialized && generic.fir != specialized.fir
    requires {generic.fir.history, generic.fir.taps} !! {specialized.fir.history, specialized.fir.taps}
    requires forall i :: 0 <= i < |blocks| ==> |blocks[i].input| % FACTOR == 0
    modifies generic`phase, generic.fir`writeIndex, generic.fir`past, generic.fir.history
    modifies specialized`phase, specialized.fir`writeIndex, specialized.fir`past, specialized.fir.history
    ensures a == b == GenericRun(generic.fir.taps[..], old(generic.fir.past), blocks)
    ensures Related(generic, specialized)
  {
    hide Mirrored, Window, GenericRun, SpecializedRun, Inputs;
    ghost var t, past := generic.fir.taps[..], generic.fir.past;
    SpecializedEqualsGeneric(t, past, blocks);
    NothingTrimmed(blocks);
    a := RunGeneric(generic, blocks);
    b := RunSpecialized(specialized, blocks);
    assert generic.fir.taps[..] == t == specialized.fir.taps[..];
  }

  /** So for decimators just configured with the same ninety coefficients. */
  method RunFresh(coefficients: seq<real>, blocks: seq<Block>) returns (a: seq<seq<real>>, b: seq<seq<real>>)
    requires |coefficients| == TAP_COUNT
    requires forall i :: 0 <= i < |blocks| ==> |blocks[i].input| % FACTOR == 0
    ensures a == b == GenericRun(Padded(coefficients), [], blocks)
  {
    hide GenericRun, Inputs, Mirrored, Window, Padded;
    var generic := new Decimator(FACTOR, coefficients);
    var specialized := new Decimator(FACTOR, coefficients);
    FreshIsOverlapping(specialized);
    a, b := RunBoth(generic, specialized, blocks);
  }

  lemma NothingTrimmed(blocks: seq<Block>)
    requires forall i :: 0 <= i < |blocks| ==> |blocks[i].input| % FACTOR == 0
    ensures Trimmed(blocks) == blocks
  {
    forall i | 0 <= i < |blocks|
      ensures Trimmed(blocks)[i] == blocks[i]
    {
      assert Usable(blocks[i].input) == blocks[i].input;
    }
  }

  // ---------------------------------------------------------------- block lengths with which they agree

  /** The decimator stands between two groups. */
  predicate Boundary(past: seq<real>) { |past| % FACTOR == 0 }

  /** The blocks of a signal, with room for every output. */
  function Whole(signal: seq<seq<real>>): seq<Block>
  {
    seq(|signal|, i requires 0 <= i < |signal| => Block(signal[i], |signal[i]|))
  }

  predicate HasLengths(signal: seq<seq<real>>, lengths: seq<nat>)
  {
    |signal| == |lengths| && forall i :: 0 <= i < |signal| ==> |signal[i]| == lengths[i]
  }

  /** Both forms write the same for every signal cut into blocks of these lengths. */
  ghost predicate Agree(t: seq<real>, past: seq<real>, lengths: seq<nat>)
    requires |t| >= TAP_COUNT
  {
    forall signal :: HasLengths(signal, lengths) ==>
      SpecializedRun(t, past, Whole(signal)) == GenericRun(t, past, Whole(signal))
  }

  function Total(lengths: seq<nat>): nat { if lengths == [] then 0 else lengths[0] + Total(lengths[1..]) }

  /** The samples left over in the first block that is not whole groups, and all after it, make no group. */
  predicate LeavesNoGroup(lengths: seq<nat>)
  {
    if lengths == [] then true
    else if lengths[0] % FACTOR == 0 then LeavesNoGroup(lengths[1..])
    else lengths[0] % FACTOR + Total(lengths[1..]) < FACTOR
  }

  /** One of the taps for the five newest samples is not zero. */
  predicate HearsNewest(t: seq<real>)
    requires |t| >= TAP_COUNT
  {
    exists j :: 0 <= j < FACTOR && t[j] != 0.0
  }

  lemma WholeStep(x: seq<real>, rest: seq<seq<real>>)
    ensures Whole([x] + rest)[0] == Block(x, |x|) && Whole([x] + rest)[1..] == Whole(rest)
  {}

  lemma UsableSplits(x: seq<real>)
    ensures Boundary(Usable(x)) && x == Usable(x) + x[|Usable(x)|..] && |x[|Usable(x)|..]| == |x| % FACTOR
  {}

  /** Fewer than five samples after a boundary complete nothing. */
  lemma NothingCompleted(t: seq<real>, base: seq<real>, d: seq<real>, x: seq<real>)
    requires |t| >= TAP_COUNT && Boundary(base) && |d| + |x| < FACTOR
    ensures Decimated(t, TAP_COUNT, FACTOR, base + d, x) == [] && Usable(x) == []
  {
    hide Boundary, Convolve, Decimated, Usable;
    NothingUsable(x);
    UpToOneGroup(t, base, d, x);
  }

  /** At most one group after a boundary: its last sample, if it comes, gives the only output. */
  lemma {:induction false} UpToOneGroup(t: seq<real>, base: seq<real>, d: seq<real>, x: seq<real>)
    requires |t| >= TAP_COUNT && Boundary(base) && |d| < FACTOR && |d| + |x| <= FACTOR
    ensures Decimated(t, TAP_COUNT, FACTOR, base + d, x)
         == if |d| + |x| == FACTOR then [Convolve(t, TAP_COUNT, base + d + x)] else []
    decreases |x|
  {
    hide Boundary, Convolve, Decimated;
    if x == [] {
      DecimatedNothing(t, TAP_COUNT, FACTOR, base + d);
    } else {
      UpToOneGroup(t, base, d, x[..|x| - 1]);
      DecimatedLast(t, base + d, x);
      PhaseAfterBoundary(base, |d| + |x|);
    }
  }

  lemma DecimatedLast(t: seq<real>, past: seq<real>, x: seq<real>)
    requires |t| >= TAP_COUNT && x != []
    ensures Decimated(t, TAP_COUNT, FACTOR, past, x) == Decimated(t, TAP_COUNT, FACTOR, past, x[..|x| - 1])
      + (if (|past| + |x|) % FACTOR == 0 then [Convolve(t, TAP_COUNT, past + x)] else [])
  {
    hide Convolve;
  }

  lemma NothingUsable(x: seq<real>)
    requires |x| < FACTOR
    ensures Usable(x) == []
  {}

  lemma PhaseAfterBoundary(base: seq<real>, k: nat)
    requires Boundary(base) && 0 < k <= FACTOR
    ensures (|base| + k) % FACTOR == 0 <==> k == FACTOR
  {
  }

  lemma BoundariesJoin(a: seq<real>, b: seq<real>)
    requires Boundary(a) && Boundary(b)
    ensures Boundary(a + b)
  {
    Multiples(|a|, |b|);
  }

  /** Both forms stay silent when all that is left over makes no group. */
  lemma {:induction false} BothStaySilent(t: seq<real>, base: seq<real>, d: seq<real>, signal: seq<seq<real>>,
                                          lengths: seq<nat>)
    requires |t| >= TAP_COUNT && Boundary(base) && HasLengths(signal, lengths) && |d| + Total(lengths) < FACTOR
    ensures SpecializedRun(t, base, Whole(signal)) == GenericRun(t, base + d, Whole(signal))
    decreases |signal|
  {
    hide Boundary, Convolve, Decimated, Usable;
    if signal != [] {
      var x, rest := signal[0], signal[1..];
      assert signal == [x] + rest;
      WholeStep(x, rest);
      NothingCompleted(t, base, d, x);
      DecimatedNothing(t, TAP_COUNT, FACTOR, base);
      assert base + [] == base && base + d + x == base + (d + x);
      BothStaySilent(t, base, d + x, rest, lengths[1..]);
    }
  }

  lemma {:induction false} AgreeIfNoGroupIsLeft(t: seq<real>, past: seq<real>, signal: seq<seq<real>>,
                                                lengths: seq<nat>)
    requires |t| >= TAP_COUNT && Boundary(past) && HasLengths(signal, lengths) && LeavesNoGroup(lengths)
    ensures SpecializedRun(t, past, Whole(signal)) == GenericRun(t, past, Whole(signal))
    decreases |signal|
  {
    hide Boundary, Convolve, Decimated, Usable;
    if signal != [] {
      var x, rest := signal[0], signal[1..];
      var used, d := Usable(x), x[|Usable(x)|..];
      assert signal == [x] + rest;
      WholeStep(x, rest);
      UsableSplits(x);
      BoundariesJoin(past, used);
      LeftOverEmitsNothing(t, past, x);
      if |x| % FACTOR == 0 {
        assert used == x;
        AgreeIfNoGroupIsLeft(t, past + x, rest, lengths[1..]);
      } else {
        assert past + x == past + used + d;
        BothStaySilent(t, past + used, d, rest, lengths[1..]);
      }
    }
  }

  lemma LeftOverEmitsNothing(t: seq<real>, past: seq<real>, x: seq<real>)
    requires |t| >= TAP_COUNT && Boundary(past)
    ensures Decimated(t, TAP_COUNT, FACTOR, past, Usable(x)) == Decimated(t, TAP_COUNT, FACTOR, past, x)
  {
    hide Boundary, Convolve, Decimated, Usable;
    var used, d := Usable(x), x[|Usable(x)|..];
    UsableSplits(x);
    BoundariesJoin(past, used);
    var base, empty: seq<real> := past + used, [];
    NothingCompleted(t, base, empty, d);
    assert base + empty == base;
    DecimatedInBlocks(t, TAP_COUNT, FACTOR, past, used, d);
    var out := Decimated(t, TAP_COUNT, FACTOR, past, used);
    assert out + [] == out;
  }

  // ---------------------------------------------------------------- a signal that tells them apart

  /** A one at position p of n zeros; none when p is not a position. */
  function Pulse(n: nat, p: int): seq<real> { seq(n, i => if i == p then 1.0 else 0.0) }

  /** The part of a convolution that the five newest samples contribute. */
  function Five(t: seq<real>, u: seq<real>): real
    requires |t| >= TAP_COUNT && |u| == FACTOR
  {
    Times(t[0], u[4]) + (Times(t[1], u[3]) + (Times(t[2], u[2]) + (Times(t[3], u[1]) + Times(t[4], u[0]))))
  }

  function Times(a: real, b: real): real { a * b }

  lemma FiveOfPulse(t: seq<real>, p: int)
    requires |t| >= TAP_COUNT
    ensures Five(t, Pulse(FACTOR, p)) == if 0 <= p < FACTOR then t[4 - p] else 0.0
  {
    assert p == 0 || p == 1 || p == 2 || p == 3 || p == 4 || !(0 <= p < FACTOR);
  }

  /** A term of a sample before the five newest. */
  lemma OlderTermAgrees(t: seq<real>, a: seq<real>, b: seq<real>, j: nat)
    requires |t| >= TAP_COUNT && FACTOR <= j < TAP_COUNT && |a| == |b| >= FACTOR
    requires a[..|a| - FACTOR] == b[..|b| - FACTOR]
    ensures Term(t, TAP_COUNT, a, j) == Term(t, TAP_COUNT, b, j)
  {
    hide Response;
    var k := |a| - 1 - j;
    assert 0 <= k ==> a[k] == a[..|a| - FACTOR][k] && b[k] == b[..|b| - FACTOR][k];
    assert At(a, k) == At(b, k);
  }

  lemma {:induction false} OlderTermsAgree(t: seq<real>, a: seq<real>, b: seq<real>, lo: nat)
    requires |t| >= TAP_COUNT && FACTOR <= lo <= TAP_COUNT && |a| == |b| >= FACTOR
    requires a[..|a| - FACTOR] == b[..|b| - FACTOR]
    ensures Terms(t, TAP_COUNT, a, lo, TAP_COUNT) == Terms(t, TAP_COUNT, b, lo, TAP_COUNT)
    decreases TAP_COUNT - lo
  {
    hide Term;
    if lo < TAP_COUNT {
      OlderTermAgrees(t, a, b, lo);
      OlderTermsAgree(t, a, b, lo + 1);
    }
  }

  lemma NewestTerms(t: seq<real>, base: seq<real>, u: seq<real>)
    requires |t| >= TAP_COUNT && |u| == FACTOR
    ensures Convolve(t, TAP_COUNT, base + u)
         == Five(t, u) + Terms(t, TAP_COUNT, base + u, FACTOR, TAP_COUNT)
  {
    hide Convolve, Term, Terms, Times;
    var a := base + u;
    assert Convolve(t, TAP_COUNT, a) == Terms(t, TAP_COUNT, a, 0, TAP_COUNT) by { AllTerms(t, a); }
    TermsFirst(t, base, u, 0);
    TermsFirst(t, base, u, 1);
    TermsFirst(t, base, u, 2);
    TermsFirst(t, base, u, 3);
    TermsFirst(t, base, u, 4);
  }

  lemma AllTerms(t: seq<real>, a: seq<real>)
    requires |t| >= TAP_COUNT
    ensures Convolve(t, TAP_COUNT, a) == Terms(t, TAP_COUNT, a, 0, TAP_COUNT)
  {}

  lemma TermsFirst(t: seq<real>, base: seq<real>, u: seq<real>, j: nat)
    requires |t| >= TAP_COUNT && |u| == FACTOR && j < FACTOR
    ensures Terms(t, TAP_COUNT, base + u, j, TAP_COUNT)
         == Times(t[j], u[4 - j]) + Terms(t, TAP_COUNT, base + u, j + 1, TAP_COUNT)
  {
    NewestTerm(t, base, u, j);
    hide Term, Times;
  }

  lemma NewestTerm(t: seq<real>, base: seq<real>, u: seq<real>, j: nat)
    requires |t| >= TAP_COUNT && |u| == FACTOR && j < FACTOR
    ensures Term(t, TAP_COUNT, base + u, j) == Times(t[j], u[4 - j])
  {}

  /** Two signals that differ in their five newest samples alone. */
  lemma DifferenceIsInNewest(t: seq<real>, base: seq<real>, u: seq<real>, v: seq<real>)
    requires |t| >= TAP_COUNT && |u| == FACTOR == |v|
    ensures Convolve(t, TAP_COUNT, base + u) == Convolve(t, TAP_COUNT, base + v) <==> Five(t, u) == Five(t, v)
  {
    hide Convolve, Terms, Five;
    NewestTerms(t, base, u);
    NewestTerms(t, base, v);
    assert (base + u)[..|base|] == base == (base + v)[..|base|];
    OlderTermsAgree(t, base + u, base + v, FACTOR);
  }

  lemma FirstTap(t: seq<real>) returns (j: nat)
    requires |t| >= TAP_COUNT && HearsNewest(t)
    ensures j < FACTOR && t[j] != 0.0 && forall i :: 0 <= i < j ==> t[i] == 0.0
  {
    j := 0;
    while t[j] == 0.0
      invariant j < FACTOR && forall i :: 0 <= i < j ==> t[i] == 0.0
      decreases FACTOR - j
    {
      assert exists i :: j < i < FACTOR && t[i] != 0.0;
      j := j + 1;
    }
  }

  /** s samples left over and the five that follow, of which the two forms make different outputs. */
  lemma TellApart(t: seq<real>, base: seq<real>, s: nat, n: nat) returns (d: seq<real>, x: seq<real>)
    requires |t| >= TAP_COUNT && HearsNewest(t) && 0 < s < FACTOR && n >= FACTOR
    ensures |d| == s && |x| == n
    ensures Convolve(t, TAP_COUNT, base + d + x[..FACTOR - s]) != Convolve(t, TAP_COUNT, base + x[..FACTOR])
  {
    hide Convolve, Five;
    var j := FirstTap(t);
    var p := 4 - j;
    var none := -1;
    var inLeftOver := p < s;
    d, x := Pulse(s, if inLeftOver then p else none), Pulse(n, if inLeftOver then none else p);
    var u, v := d + x[..FACTOR - s], x[..FACTOR];
    assert v == Pulse(FACTOR, if inLeftOver then none else p);
    assert u == Pulse(FACTOR, if inLeftOver then p else p + s);
    FiveOfPulse(t, p);
    FiveOfPulse(t, none);
    FiveOfPulse(t, p + s);
    assert base + d + x[..FACTOR - s] == base + u;
    DifferenceIsInNewest(t, base, u, v);
  }

  /** The first output after s samples left over and enough new ones. */
  lemma FirstOutput(t: seq<real>, base: seq<real>, d: seq<real>, x: seq<real>)
    requires |t| >= TAP_COUNT && Boundary(base) && |d| < FACTOR <= |d| + |x|
    ensures var out := First(Decimated(t, TAP_COUNT, FACTOR, base + d, x), |x|);
      out != [] && out[0] == Convolve(t, TAP_COUNT, base + d + x[..FACTOR - |d|])
  {
    hide Boundary, Convolve, Decimated, First;
    var past, head, tail := base + d, x[..FACTOR - |d|], x[FACTOR - |d|..];
    assert x == head + tail;
    UpToOneGroup(t, base, d, head);
    DecimatedInBlocks(t, TAP_COUNT, FACTOR, past, head, tail);
    FirstIsKept(Convolve(t, TAP_COUNT, past + head), Decimated(t, TAP_COUNT, FACTOR, past + head, tail), |x|);
  }

  lemma FirstIsKept(c: real, rest: seq<real>, n: nat)
    requires n > 0
    ensures First([c] + rest, n) != [] && First([c] + rest, n)[0] == c
  {}

  /** After s samples that one form has dropped, as soon as the next group is complete the outputs can differ. */
  lemma {:induction false} DifferAfterLeftOver(t: seq<real>, base: seq<real>, s: nat, lengths: seq<nat>)
      returns (d: seq<real>, signal: seq<seq<real>>)
    requires |t| >= TAP_COUNT && HearsNewest(t) && Boundary(base) && 0 < s < FACTOR <= s + Total(lengths)
    ensures |d| == s && HasLengths(signal, lengths)
    ensures SpecializedRun(t, base, Whole(signal)) != GenericRun(t, base + d, Whole(signal))
    decreases |lengths|
  {
    hide Boundary, Convolve, Decimated, Usable, HearsNewest;
    var n := lengths[0];
    if s + n < FACTOR {
      var more, rest := DifferAfterLeftOver(t, base, s + n, lengths[1..]);
      var x := more[s..];
      d, signal := more[..s], [more[s..]] + rest;
      WholeStep(x, rest);
      NothingCompleted(t, base, d, x);
      assert base + [] == base && base + d + x == base + more;
      var a, b := SpecializedRun(t, base, Whole(signal)), GenericRun(t, base + d, Whole(signal));
      assert a[1..] != b[1..];
    } else {
      var x: seq<real>;
      if n < FACTOR { d, x := Pulse(s, -1), Pulse(n, -1); } else { d, x := TellApart(t, base, s, n); }
      var rest := Silence(lengths[1..]);
      signal := [x] + rest;
      WholeStep(x, rest);
      FirstOutput(t, base, d, x);
      var a, b := SpecializedRun(t, base, Whole(signal)), GenericRun(t, base + d, Whole(signal));
      if n < FACTOR {
        ShortBlockIsDropped(t, base, x);
        assert a[0] != b[0];
      } else {
        FirstOfGroups(t, base, x);
        assert a[0][0] != b[0][0];
      }
    }
  }

  lemma ShortBlockIsDropped(t: seq<real>, base: seq<real>, x: seq<real>)
    requires |t| >= TAP_COUNT && |x| < FACTOR
    ensures Usable(x) == [] && Decimated(t, TAP_COUNT, FACTOR, base, Usable(x)) == []
  {}

  lemma FirstOfGroups(t: seq<real>, base: seq<real>, x: seq<real>)
    requires |t| >= TAP_COUNT && Boundary(base) && |x| >= FACTOR
    ensures var out := First(Decimated(t, TAP_COUNT, FACTOR, base, Usable(x)), |x|);
      out != [] && out[0] == Convolve(t, TAP_COUNT, base + x[..FACTOR])
  {
    hide Boundary, Convolve, Decimated;
    var empty: seq<real> := [];
    LeftOverEmitsNothing(t, base, x);
    FirstOutput(t, base, empty, x);
    assert base + empty == base;
  }

  function Silence(lengths: seq<nat>): (signal: seq<seq<real>>)
    ensures HasLengths(signal, lengths)
  {
    seq(|lengths|, i requires 0 <= i < |lengths| => Pulse(lengths[i], -1))
  }

  lemma {:induction false} DifferIfGroupIsLeft(t: seq<real>, past: seq<real>, lengths: seq<nat>)
      returns (signal: seq<seq<real>>)
    requires |t| >= TAP_COUNT && HearsNewest(t) && Boundary(past) && !LeavesNoGroup(lengths)
    ensures HasLengths(signal, lengths)
    ensures SpecializedRun(t, past, Whole(signal)) != GenericRun(t, past, Whole(signal))
    decreases |lengths|
  {
    hide Boundary, Convolve, Decimated, HearsNewest;
    var n := lengths[0];
    var zeros := Pulse(n - n % FACTOR, -1);
    BoundariesJoin(past, zeros);
    var x, rest;
    if n % FACTOR == 0 {
      rest := DifferIfGroupIsLeft(t, past + zeros, lengths[1..]);
      x := zeros;
    } else {
      var d;
      d, rest := DifferAfterLeftOver(t, past + zeros, n % FACTOR, lengths[1..]);
      x := zeros + d;
      assert past + x == past + zeros + d;
    }
    assert Usable(x) == zeros;
    signal := [x] + rest;
    WholeStep(x, rest);
    var a, b := SpecializedRun(t, past, Whole(signal)), GenericRun(t, past, Whole(signal));
    assert a[1..] != b[1..];
  }

  /**
   * For a filter that hears any of the five newest samples: the two forms write the same for every signal cut into
   * blocks of these lengths if and only if what is left over in the first block that is not whole groups of five,
   * together with all the blocks after it, makes no group.
   */
  lemma FormsAgreeExactly(t: seq<real>, past: seq<real>, lengths: seq<nat>)
    requires |t| >= TAP_COUNT && HearsNewest(t) && Boundary(past)
    ensures Agree(t, past, lengths) <==> LeavesNoGroup(lengths)
  {
    hide Boundary, HearsNewest, LeavesNoGroup, SpecializedRun, GenericRun;
    if LeavesNoGroup(lengths) {
      forall signal | HasLengths(signal, lengths)
        ensures SpecializedRun(t, past, Whole(signal)) == GenericRun(t, past, Whole(signal))
      {
        AgreeIfNoGroupIsLeft(t, past, signal, lengths);
      }
    } else {
      var signal := DifferIfGroupIsLeft(t, past, lengths);
    }
  }

  /** Over all filters, then, the block lengths decide. */
  lemma LengthsDecideForAllTaps(past: seq<real>, lengths: seq<nat>)
    requires Boundary(past)
    ensures LeavesNoGroup(lengths) <==> forall t: seq<real> :: |t| >= TAP_COUNT ==> Agree(t, past, lengths)
  {
    hide Boundary, LeavesNoGroup, SpecializedRun, GenericRun;
    var one := Pulse(TAP_COUNT, 0);
    assert one[0] != 0.0;
    FormsAgreeExactly(one, past, lengths);
    if LeavesNoGroup(lengths) {
      forall t: seq<real>, signal | |t| >= TAP_COUNT && HasLengths(signal, lengths)
        ensures SpecializedRun(t, past, Whole(signal)) == GenericRun(t, past, Whole(signal))
      {
        AgreeIfNoGroupIsLeft(t, past, signal, lengths);
      }
    }
  }

  lemma TwoBlocks(t: seq<real>, past: seq<real>, x: seq<real>, y: seq<real>)
    requires |t| >= TAP_COUNT
    ensures GenericRun(t, past, Whole([x] + [y]))
         == [First(Decimated(t, TAP_COUNT, FACTOR, past, x), |x|)]
            + [First(Decimated(t, TAP_COUNT, FACTOR, past + x, y), |y|)]
  {
    hide Decimated, First;
    WholeStep(x, [y]);
    var z := past + x;
    assert GenericRun(t, z, Whole([y]))
       == [First(Decimated(t, TAP_COUNT, FACTOR, z, y), |y|)] by { NoBlocks(t, z + y); }
  }

  /** Three samples and then two: the generic form completes a group. */
  lemma ThreeThenTwoGeneric(t: seq<real>, a: seq<real>, b: seq<real>)
    requires |t| >= TAP_COUNT && |a| == 3 && |b| == 2
    ensures GenericRun(t, [], Whole([a] + [b])) == [[], [Convolve(t, TAP_COUNT, a + b)]]
  {
    hide Convolve, Decimated, Boundary, GenericRun, Whole;
    var base: seq<real> := [];
    NothingIsBoundary(base);
    assert base + base == base && base + a == a;
    NothingCompleted(t, base, base, a);
    UpToOneGroup(t, base, a, b);
    TwoBlocks(t, base, a, b);
  }

  /** The specialised one has dropped both parts. */
  lemma ThreeThenTwoSpecialized(t: seq<real>, a: seq<real>, b: seq<real>)
    requires |t| >= TAP_COUNT && |a| == 3 && |b| == 2
    ensures SpecializedRun(t, [], Whole([a] + [b])) == [[], []]
  {
    hide Convolve, Decimated, Usable;
    var base: seq<real> := [];
    WholeStep(a, [b]);
    NothingUsable(a);
    NothingUsable(b);
    DecimatedNothing(t, TAP_COUNT, FACTOR, base);
    assert base + base == base;
    assert SpecializedRun(t, base, Whole([b])) == [[]];
  }

  lemma NothingIsBoundary(base: seq<real>)
    requires base == []
    ensures Boundary(base)
  {}
}
