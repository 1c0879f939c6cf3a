/** The first corrector: single-bit errors and bursts of two adjacent bits. */
module RdsBurst {
  import opened RdsCode

  datatype Correction = Correction(correctedBits: Word, correctedBitCount: nat, succeeded: bool)

  /** `width` adjacent ones shifted left by `shift`, clipped to the block. */
  function ErrorVector(width: nat, shift: nat): Word
  {
    seq(BLOCK_LENGTH, i requires 0 <= i < BLOCK_LENGTH => shift <= 25 - i < shift + width)
  }

  /** The patterns a block may suffer: 26 single bits and 25 adjacent pairs. */
  predicate IsPattern(width: nat, shift: nat)
  {
    1 <= width <= 2 && shift + width <= BLOCK_LENGTH
  }

  predicate Matches(raw: Word, expected: Offset, width: nat, shift: nat)
  {
    Syndrome(Xor(ErrorVector(width, shift), OffsetBlock(expected))) == Syndrome(raw)
  }

  /** The outcome of the search from pattern (width, shift) on: all single bits first, then the pairs. */
  function Search(raw: Word, expected: Offset, width: nat, shift: nat): Correction
    requires 1 <= width <= 3 && shift <= BLOCK_LENGTH
    decreases |raw|, 3 - width, BLOCK_LENGTH - shift
  {
    if width == 3 then Correction(raw, 0, false)
    else if shift == BLOCK_LENGTH then Search(raw, expected, width + 1, 0)
    else if Matches(raw, expected, width, shift) then Correction(Xor(raw, ErrorVector(width, shift)), width, true)
    else Search(raw, expected, width, shift + 1)
  }

  function BurstCorrection(raw: Word, expected: Offset): Correction { Search(raw, expected, 1, 0) }

  method CorrectBurstErrors(rawBlock: Word, expectedOffset: Offset) returns (result: Correction)
    ensures result == BurstCorrection(rawBlock, expectedOffset)
  {
    hide Syndrome, ErrorVector, Xor, OffsetBlock;
    var syndrome := CalculateSyndrome(rawBlock);
    for width := 1 to 3
      invariant BurstCorrection(rawBlock, expectedOffset) == Search(rawBlock, expectedOffset, width, 0)
    {
      for shift := 0 to BLOCK_LENGTH
        invariant BurstCorrection(rawBlock, expectedOffset) == Search(rawBlock, expectedOffset, width, shift)
      {
        var errorVector := ErrorVector(width, shift);
        var candidateSyndrome := CalculateSyndrome(Xor(errorVector, OffsetBlock(expectedOffset)));
        if candidateSyndrome == syndrome {
          return Correction(Xor(rawBlock, errorVector), width, true);
        }
      }
    }
    return Correction(rawBlock, 0, false);
  }

  // ---------------------------------------------------------------- syndromes of the patterns

  function PairRow(k: nat): Bits10
    requires k < 25
  {
    Xor10(Row(k), Row(k + 1))
  }

  function PatternSyndrome(width: nat, shift: nat): Bits10
    requires IsPattern(width, shift)
  {
    if width == 1 then Row(shift) else PairRow(shift)
  }

  lemma {:induction false} PartialSyndromeOfSingle(shift: nat, k: nat)
    requires shift < BLOCK_LENGTH && k <= BLOCK_LENGTH
    ensures PartialSyndrome(ErrorVector(1, shift), k) == if k <= shift then ZERO else Row(shift)
  {
    hide Row, Xor10;
    if k > 0 {
      PartialSyndromeOfSingle(shift, k - 1);
      Xor10Zero(PartialSyndrome(ErrorVector(1, shift), k - 1));
      Xor10Zero(Row(k - 1));
    }
  }

  lemma SyndromeOfPattern(width: nat, shift: nat)
    requires IsPattern(width, shift)
    ensures Syndrome(ErrorVector(width, shift)) == PatternSyndrome(width, shift)
  {
    hide Row, Xor10;
    PartialSyndromeOfSingle(shift, BLOCK_LENGTH);
    if width == 2 {
      PartialSyndromeOfSingle(shift + 1, BLOCK_LENGTH);
      assert ErrorVector(2, shift) == Xor(ErrorVector(1, shift), ErrorVector(1, shift + 1));
      SyndromeXor(ErrorVector(1, shift), ErrorVector(1, shift + 1));
    }
  }

  lemma PatternStep(width: nat, shift: nat)
    requires IsPattern(width, shift + 1)
    ensures PatternSyndrome(width, shift + 1) == MulX(PatternSyndrome(width, shift))
  {
    hide Row, MulX, Xor10;
    RowStep(shift);
    if width == 2 {
      RowStep(shift + 1);
      MulXLinear(Row(shift), Row(shift + 1));
    }
  }

  lemma BottomPatternsDiffer(d: nat)
    requires d < 26
    ensures d > 0 ==> Row(0) != Row(d)
    ensures PairRow(0) != Row(d)
    ensures d < 25 ==> Row(0) != PairRow(d) && (d > 0 ==> PairRow(0) != PairRow(d))
  {
    match d {
      case 0 =>
      case 1 =>
      case 2 =>
      case 3 =>
      case 4 =>
      case 5 =>
      case 6 =>
      case 7 =>
      case 8 =>
      case 9 =>
      case 10 =>
      case 11 =>
      case 12 =>
      case 13 =>
      case 14 =>
      case 15 =>
      case 16 =>
      case 17 =>
      case 18 =>
      case 19 =>
      case 20 =>
      case 21 =>
      case 22 =>
      case 23 =>
      case 24 =>
      case _ => assert d == 25;
    }
  }

  /** Any two patterns shift down together until one of them is at the bottom; there they differ. */
  lemma {:induction false} PatternsDiffer(w1: nat, s1: nat, w2: nat, s2: nat)
    requires IsPattern(w1, s1) && IsPattern(w2, s2) && (w1, s1) != (w2, s2)
    ensures PatternSyndrome(w1, s1) != PatternSyndrome(w2, s2)
    ensures PatternSyndrome(w1, s1) != ZERO
    decreases s1
  {
    hide Row, MulX, Xor10, PairRow;
    if s1 > 0 && s2 > 0 {
      PatternsDiffer(w1, s1 - 1, w2, s2 - 1);
      PatternStep(w1, s1 - 1);
      PatternStep(w2, s2 - 1);
      MulXInjective(PatternSyndrome(w1, s1 - 1), PatternSyndrome(w2, s2 - 1));
    } else {
      BottomPatternsDiffer(s1 + s2);
    }
    PatternNonZero(w1, s1);
  }

  lemma {:induction false} PatternNonZero(width: nat, shift: nat)
    requires IsPattern(width, shift)
    ensures PatternSyndrome(width, shift) != ZERO
  {
    hide MulX;
    if shift > 0 {
      PatternNonZero(width, shift - 1);
      PatternStep(width, shift - 1);
      MulXInjective(PatternSyndrome(width, shift - 1), ZERO);
      MulXLowBit(ZERO);
    }
  }

  // ---------------------------------------------------------------- what the search finds

  /** A pattern matches exactly when removing it leaves a word with the offset word's syndrome. */
  lemma MatchesIff(raw: Word, expected: Offset, width: nat, shift: nat)
    ensures Matches(raw, expected, width, shift)
       <==> Syndrome(Xor(raw, ErrorVector(width, shift))) == OffsetSyndrome(expected)
  {
    hide Syndrome, OffsetSyndrome, OffsetForSyndrome, Xor10, ErrorVector, Xor, OffsetBlock;
    var e, w := ErrorVector(width, shift), OffsetBlock(expected);
    SyndromeOfOffset(expected);
    SyndromeXor(e, w);
    SyndromeXor(raw, e);
    Xor10Comm(Syndrome(raw), Syndrome(e));
    Xor10Swap(Syndrome(e), Syndrome(w), Syndrome(raw));
  }

  lemma Xor10Swap(p: Bits10, q: Bits10, r: Bits10)
    ensures Xor10(p, q) == r <==> q == Xor10(p, r)
  {}

  /** The pair shifted past the top of the block is clipped to the single bit already tried. */
  lemma ClippedPair()
    ensures ErrorVector(2, 25) == ErrorVector(1, 25)
  {}

  /** Patterns in the order in which they are tried. */
  predicate NotAfter(w1: nat, s1: nat, w2: nat, s2: nat)
  {
    w1 < w2 || (w1 == w2 && s1 <= s2)
  }

  lemma {:induction false} SearchFindsFirst(raw: Word, expected: Offset, width: nat, shift: nat, w: nat, s: nat)
    requires 1 <= width <= 3 && shift <= BLOCK_LENGTH
    requires IsPattern(w, s) && NotAfter(width, shift, w, s)
    requires Matches(raw, expected, w, s)
    requires forall w': nat, s': nat :: 1 <= w' <= 2 && s' < BLOCK_LENGTH && Matches(raw, expected, w', s')
                                        ==> NotAfter(w, s, w', s')
    ensures Search(raw, expected, width, shift) == Correction(Xor(raw, ErrorVector(w, s)), w, true)
    decreases 3 - width, BLOCK_LENGTH - shift
  {
    hide Matches, ErrorVector, Xor;
    if shift == BLOCK_LENGTH {
      SearchFindsFirst(raw, expected, width + 1, 0, w, s);
    } else if (width, shift) != (w, s) {
      SearchFindsFirst(raw, expected, width, shift + 1, w, s);
    }
  }

  lemma {:induction false} SearchOutcome(raw: Word, expected: Offset, width: nat, shift: nat)
    requires 1 <= width <= 3 && shift <= BLOCK_LENGTH
    ensures var r := Search(raw, expected, width, shift);
      if r.succeeded
      then exists w: nat, s: nat :: IsPattern(w, s) && Matches(raw, expected, w, s)
                                    && r == Correction(Xor(raw, ErrorVector(w, s)), r.correctedBitCount, true)
      else r == Correction(raw, 0, false)
           && forall w: nat, s: nat :: IsPattern(w, s) && NotAfter(width, shift, w, s) ==> !Matches(raw, expected, w, s)
    decreases 3 - width, BLOCK_LENGTH - shift
  {
    hide Matches, Xor;
    if width < 3 {
      if shift == BLOCK_LENGTH {
        SearchOutcome(raw, expected, width + 1, 0);
      } else if Matches(raw, expected, width, shift) {
        if !IsPattern(width, shift) {
          ClippedPairMatches(raw, expected);
          assert IsPattern(1, 25);
        }
      } else {
        SearchOutcome(raw, expected, width, shift + 1);
      }
    }
  }

  lemma ClippedPairMatches(raw: Word, expected: Offset)
    ensures Matches(raw, expected, 2, 25) <==> Matches(raw, expected, 1, 25)
    ensures ErrorVector(2, 25) == ErrorVector(1, 25)
  {
    ClippedPair();
  }

  lemma MatchingPatternIs(c: Word, expected: Offset, width: nat, shift: nat, w: nat, s: nat)
    requires Syndrome(c) == OffsetSyndrome(expected)
    requires IsPattern(width, shift) && IsPattern(w, s)
    ensures Matches(Xor(c, ErrorVector(width, shift)), expected, w, s) <==> (w, s) == (width, shift)
  {
    hide Syndrome, OffsetSyndrome, Xor10, ErrorVector, Xor, OffsetBlock, PatternSyndrome;
    var e, f, o := ErrorVector(width, shift), ErrorVector(w, s), OffsetBlock(expected);
    SyndromeOfOffset(expected);
    SyndromeXor(f, o);
    SyndromeXor(c, e);
    Xor10Comm(Syndrome(f), Syndrome(o));
    SyndromeOfPattern(width, shift);
    SyndromeOfPattern(w, s);
    if (w, s) != (width, shift) {
      PatternsDiffer(w, s, width, shift);
    }
    if Matches(Xor(c, e), expected, w, s) {
      Xor10Cancels(Syndrome(o), Syndrome(f), Syndrome(e));
    }
  }

  /** Every one of the 51 patterns is removed exactly, and its number of flipped bits is reported. */
  lemma BurstCorrectionIsExact(c: Word, expected: Offset, width: nat, shift: nat)
    requires Syndrome(c) == OffsetSyndrome(expected)
    requires IsPattern(width, shift)
    ensures BurstCorrection(Xor(c, ErrorVector(width, shift)), expected) == Correction(c, width, true)
  {
    hide Syndrome, OffsetSyndrome, ErrorVector, Xor, OffsetBlock, Matches;
    var raw := Xor(c, ErrorVector(width, shift));
    MatchingPatternIs(c, expected, width, shift, width, shift);
    forall w: nat, s: nat | 1 <= w <= 2 && s < BLOCK_LENGTH && Matches(raw, expected, w, s)
      ensures NotAfter(width, shift, w, s)
    {
      if IsPattern(w, s) {
        MatchingPatternIs(c, expected, width, shift, w, s);
      } else {
        ClippedPairMatches(raw, expected);
        assert IsPattern(1, 25);
        MatchingPatternIs(c, expected, width, shift, 1, 25);
      }
    }
    SearchFindsFirst(raw, expected, 1, 0, width, shift);
    XorUndo(c, ErrorVector(width, shift));
  }

  predicate Repairs(raw: Word, expected: Offset, width: nat, shift: nat)
  {
    IsPattern(width, shift)
    && Syndrome(Xor(raw, ErrorVector(width, shift))) == OffsetSyndrome(expected)
  }

  /** Correction succeeds exactly when some pattern repairs the word, and then it applies that pattern. */
  lemma BurstCorrectionOutcome(raw: Word, expected: Offset)
    ensures var r := BurstCorrection(raw, expected);
      && (r.succeeded <==> exists w: nat, s: nat :: Repairs(raw, expected, w, s))
      && (forall w: nat, s: nat :: Repairs(raw, expected, w, s) ==>
                                   r == Correction(Xor(raw, ErrorVector(w, s)), w, true))
      && (r.succeeded ==> Syndrome(r.correctedBits) == OffsetSyndrome(expected))
      && (!r.succeeded ==> r == Correction(raw, 0, false))
  {
    hide Syndrome, OffsetSyndrome, ErrorVector, Xor, OffsetBlock, Matches;
    var r := BurstCorrection(raw, expected);
    SearchOutcome(raw, expected, 1, 0);
    if r.succeeded {
      var w: nat, s: nat :| IsPattern(w, s) && Matches(raw, expected, w, s)
                            && r == Correction(Xor(raw, ErrorVector(w, s)), r.correctedBitCount, true);
      MatchesIff(raw, expected, w, s);
      assert Repairs(raw, expected, w, s);
    }
    forall w: nat, s: nat | Repairs(raw, expected, w, s)
      ensures r == Correction(Xor(raw, ErrorVector(w, s)), w, true)
    {
      var c := Xor(raw, ErrorVector(w, s));
      BurstCorrectionIsExact(c, expected, w, s);
      XorUndo(raw, ErrorVector(w, s));
    }
  }
}
