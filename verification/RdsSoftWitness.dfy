/**
 * Damage beyond the burst corrector: exactly when the data stored of a damaged block are those sent, with one damage
 * after which they are not, and one after which nothing is stored.
 */
module RdsSoftWitness {
  import opened Common
  import opened RdsCode
  import opened RdsBurst
  import opened RdsSoft
  import opened RdsBlockStream
  import opened RdsDelivery

  // ---------------------------------------------------------------- exactly when the data are right

  function Damaged(d: Data, o: Offset, e: Word): Word { Xor(Transmit(d, o), e) }

  /** What the decoder changes of the word that arrives as block n. */
  function Changes(w: Word, n: nat, conf: Confidences): Word
    requires n < 4
  {
    Xor(w, if OffsetOf(w) == ExpectedNow(n, w) then w else Correct(w, ExpectedNow(n, w), conf).correctedBits)
  }

  /** Only bits of the checkword. */
  predicate InCheckBits(e: Word) { forall i :: 0 <= i < 16 ==> !e[i] }

  /** A code word within the check bits is none at all. */
  lemma NothingInCheckBits(e: Word)
    requires Syndrome(e) == ZERO && InCheckBits(e)
    ensures forall i :: 0 <= i < BLOCK_LENGTH ==> !e[i]
  {
    hide Syndrome, Remainder;
    var check := Bits10(e[16], e[17], e[18], e[19], e[20], e[21], e[22], e[23], e[24], e[25]);
    assert e == Block(NoData(), check);
    ZeroSyndromeIffCodeword(NoData(), check);
    RemainderOfZeros(BLOCK_LENGTH);
    assert NoData() + seq(CHECKWORD_LENGTH, i => false) == seq(BLOCK_LENGTH, i => false);
    assert ToSeq(ZERO) == seq(CHECKWORD_LENGTH, i => false);
    assert e == seq(BLOCK_LENGTH, i => false);
  }

  /** Another word that shows the offset a block was sent with has other data. */
  lemma SameOffsetSameData(d: Data, o: Offset, c: Word)
    requires Syndrome(c) == OffsetSyndrome(o)
    ensures c[..16] == d <==> c == Transmit(d, o)
  {
    hide Syndrome, OffsetSyndrome, Transmit, Xor10;
    var sent := Transmit(d, o);
    DataOfTransmit(d, o);
    SyndromeOfTransmit(d, o);
    SyndromeXor(sent, c);
    Xor10Zero(Syndrome(c));
    if c[..16] == d {
      assert forall i :: 0 <= i < 16 ==> c[i] == c[..16][i] == sent[..16][i] == sent[i];
      NothingInCheckBits(Xor(sent, c));
      forall i | 0 <= i < BLOCK_LENGTH
        ensures c[i] == sent[i]
      {
        assert !Xor(sent, c)[i];
      }
      assert c == sent;
    }
  }

  /**
   * Whatever the damage e to a block: what is stored of it has the data sent if and only if the damage and the
   * decoder's changes together stay within the check bits. As long as the block is taken for one of its own offset,
   * undamaged or by the burst corrector, they do so only if the changes undo the damage; the soft corrector's never do.
   */
  lemma StoredDataAreRightIff(d: Data, o: Offset, e: Word, n: nat, conf: Confidences)
    requires n < 4 && o != Invalid && !IsLost(Damaged(d, o, e), n, conf)
    ensures var w := Damaged(d, o, e);
      var changes := Changes(w, n, conf);
      && (Outcome(w, n, conf).data == d <==> InCheckBits(Xor(e, changes)))
      && (o == ExpectedNow(n, w) ==>
            if OffsetOf(w) == o || BurstCorrection(w, o).succeeded
            then InCheckBits(Xor(e, changes)) <==> e == changes
            else e != changes)
  {
    hide Syndrome, OffsetForSyndrome, BurstCorrection, FewestFlips, Transmit, MeanConfidence, OffsetSyndrome,
      OffsetWord, Hits, Weakest;
    var w := Damaged(d, o, e);
    var c := if OffsetOf(w) == ExpectedNow(n, w) then w else Correct(w, ExpectedNow(n, w), conf).correctedBits;
    WordsDiffer(Transmit(d, o), e, c);
    DataOfTransmit(d, o);
    assert Outcome(w, n, conf).data == c[..16];
    DataDiffer(Transmit(d, o), c);
    if o == ExpectedNow(n, w) {
      if OffsetOf(w) == o || BurstCorrection(w, o).succeeded {
        WhichOffset(Syndrome(w), o);
        BurstCorrectionOutcome(w, o);
        SameOffsetSameData(d, o, c);
      } else {
        SoftSearchOutcome(w, OffsetWord(o), conf);
        OffsetWordsAreNoSyndromes(o, o);
        SyndromeOfTransmit(d, o);
      }
    }
  }

  lemma DataDiffer(a: Word, b: Word)
    ensures a[..16] == b[..16] <==> forall i :: 0 <= i < 16 ==> a[i] == b[i]
  {
    assert a[..16] == b[..16] ==> forall i :: 0 <= i < 16 ==> a[..16][i] == b[..16][i];
  }

  lemma WordsDiffer(t: Word, e: Word, c: Word)
    ensures var x := Xor(e, Xor(Xor(t, e), c));
      && (forall i :: 0 <= i < BLOCK_LENGTH ==> (x[i] <==> c[i] != t[i]))
      && (e == Xor(Xor(t, e), c) <==> c == t)
  {
    var m := Xor(Xor(t, e), c);
    if c == t { assert e == m; }
    if e == m {
      forall i | 0 <= i < BLOCK_LENGTH
        ensures c[i] == t[i]
      {
        assert e[i] == m[i];
      }
      assert c == t;
    }
  }

  // ---------------------------------------------------------------- two bits that make it wrong, or nothing

  /** Bit 0 and another one. */
  function TwoBits(shift: nat): Word { Xor(ErrorVector(1, 0), ErrorVector(1, shift)) }

  /** Bit 3 of the low byte; with it the soft corrector changes the data for the worse. */
  const MISLEADING: nat := 13

  /** Bit 4 of the checkword; with it no flip of the first six bits gives what the soft corrector is after. */
  const HOPELESS: nat := 4

  /** The bit the soft corrector flips, bit 22. */
  const WRONG_BIT: Slot := 3

  /** The data with a bit of the low byte changed by the channel and one of the high byte by the corrector. */
  function Misread(d: Data): Data { d[WRONG_BIT := !d[WRONG_BIT]][12 := !d[12]] }

  lemma NoPattern(d: nat)
    requires d < 26
    ensures Row(d) != Xor10(Row(0), Row(13)) && Row(d) != Xor10(Row(0), Row(4))
    ensures d < 25 ==> PairRow(d) != Xor10(Row(0), Row(13)) && PairRow(d) != Xor10(Row(0), Row(4))
  {
    match d {
      case 0 =>
      case 1 =>
      case 2 =>
      case 3 =>
      case 4 =>
      case 5 =>
      case 6 =>
      case 7 =>
      case 8 =>
      case 9 =>
      case 10 =>
      case 11 =>
      case 12 =>
      case 13 =>
      case 14 =>
      case 15 =>
      case 16 =>
      case 17 =>
      case 18 =>
      case 19 =>
      case 20 =>
      case 21 =>
      case 22 =>
      case 23 =>
      case 24 =>
      case _ => assert d == 25;
    }
  }

  lemma SyndromeOfSingle(shift: nat)
    requires shift < BLOCK_LENGTH
    ensures Syndrome(ErrorVector(1, shift)) == Row(shift)
  {
    SyndromeOfPattern(1, shift);
  }

  lemma SyndromeOfTwoBits(d: Data, shift: nat)
    requires shift < BLOCK_LENGTH
    ensures Syndrome(Damaged(d, D, TwoBits(shift))) == Xor10(OffsetSyndrome(D), Xor10(Row(0), Row(shift)))
  {
    hide Syndrome, OffsetSyndrome, Transmit, ErrorVector, Xor, Xor10, Row;
    SyndromeOfTransmit(d, D);
    SyndromeOfSingle(0);
    SyndromeOfSingle(shift);
    SyndromeXor(ErrorVector(1, 0), ErrorVector(1, shift));
    SyndromeXor(Transmit(d, D), TwoBits(shift));
  }

  lemma BurstCorrectorGivesUp(d: Data, shift: nat)
    requires shift == MISLEADING || shift == HOPELESS
    ensures var w := Damaged(d, D, TwoBits(shift)); OffsetOf(w) != D && !BurstCorrection(w, D).succeeded
  {
    hide Syndrome, OffsetSyndrome, OffsetForSyndrome, Damaged, ErrorVector, Xor, Xor10, Row, PairRow, OffsetBlock,
      BurstCorrection;
    var w, o, e := Damaged(d, D, TwoBits(shift)), OffsetSyndrome(D), Xor10(Row(0), Row(shift));
    SyndromeOfTwoBits(d, shift);
    Xor10Zero(o);
    Xor10Zero(Row(0));
    if Xor10(o, e) == o {
      Xor10Cancels(o, e, ZERO);
      Xor10Cancels(Row(0), Row(shift), Row(0));
      PatternsDiffer(1, 0, 1, shift);
    }
    WhichOffset(Syndrome(w), D);
    BurstCorrectionOutcome(w, D);
    forall width: nat, s: nat | IsPattern(width, s)
      ensures !Repairs(w, D, width, s)
    {
      var p := PatternSyndrome(width, s);
      SyndromeOfPattern(width, s);
      SyndromeXor(w, ErrorVector(width, s));
      Xor10Assoc(o, e, p);
      Xor10Zero(e);
      if Repairs(w, D, width, s) {
        Xor10Cancels(o, Xor10(e, p), ZERO);
        Xor10Cancels(e, p, e);
      }
      NoPattern(s);
    }
  }

  lemma OneFlip(i: Slot)
    ensures Mask({i}) == ErrorVector(1, 25 - i) && Syndrome(Mask({i})) == Row(25 - i)
  {
    hide Syndrome, Row;
    SyndromeOfSingle(25 - i);
  }

  lemma RowsAddUp()
    ensures Xor10(Xor10(OffsetSyndrome(D), Xor10(Row(0), Row(13))), Row(22)) == OffsetWord(D)
  {}

  /** Among single flips only the wrong one gives what the soft corrector is after. */
  lemma OnlyTheWrongFlipHits(d: Data, i: Slot)
    ensures Hits(Damaged(d, D, TwoBits(MISLEADING)), OffsetWord(D), {i}) <==> i == WRONG_BIT
  {
    hide Syndrome, OffsetSyndrome, OffsetWord, Damaged, Mask, ErrorVector, Xor, Xor10, Row;
    var w := Damaged(d, D, TwoBits(MISLEADING));
    SyndromeOfTwoBits(d, MISLEADING);
    OneFlip(i);
    SyndromeXor(w, Mask({i}));
    RowsAddUp();
    if Hits(w, OffsetWord(D), {i}) {
      Xor10Cancels(Syndrome(w), Row(25 - i), Row(22));
      if i != WRONG_BIT { PatternsDiffer(1, 25 - i, 1, 22); }
    }
  }

  /**
   * Whatever was sent as a fourth block: bits 0 and 13 changed, the burst corrector gives up; and with bit 22 among the
   * six least confident the soft one flips it, reports success after one correction, and returns a word of no offset.
   */
  lemma SoftCorrectionOfNoBlock(d: Data, conf: Confidences)
    requires WRONG_BIT in Weakest(conf, BLOCK_LENGTH)
    ensures var w := Damaged(d, D, TwoBits(MISLEADING));
      && !BurstCorrection(w, D).succeeded
      && SoftCorrection(w, D, conf) == Correction(Xor(w, Mask({WRONG_BIT})), 1, true)
      && OffsetForSyndrome(Syndrome(SoftCorrection(w, D, conf).correctedBits)) == Invalid
  {
    hide Hits, Syndrome, OffsetForSyndrome, OffsetWord, Damaged, Mask, Xor, Weakest, BurstCorrection, FewestFlips;
    var w := Damaged(d, D, TwoBits(MISLEADING));
    BurstCorrectorGivesUp(d, MISLEADING);
    OnlyTheWrongFlipHits(d, WRONG_BIT);
    SoftSearchOutcome(w, OffsetWord(D), conf);
    assert Repair(w, OffsetWord(D), conf, {WRONG_BIT});
    var s :| Repair(w, OffsetWord(D), conf, s) && SoftCorrection(w, D, conf) == Correction(Xor(w, Mask(s)), |s|, true)
      && forall t :: Repair(w, OffsetWord(D), conf, t) ==> |s| <= |t|;
    var i :| i in s;
    assert |s - {i}| == |s| - 1 && s == {i} + (s - {i});
    OnlyTheWrongFlipHits(d, i);
    SoftCorrectedWordHasNoOffset(w, D, conf);
  }

  /** What is stored is that word's data, as received and corrected in one bit. */
  lemma ItIsStoredAsReceived(d: Data, conf: Confidences)
    requires WRONG_BIT in Weakest(conf, BLOCK_LENGTH)
    ensures var b := Outcome(Damaged(d, D, TwoBits(MISLEADING)), 3, conf);
      b.isReceived && b.hadErrors && b.correctedBitCount == 1 && b.data == Misread(d) != d
  {
    hide OffsetOf, BurstCorrection, SoftCorrection, Transmit, Weakest, MeanConfidence;
    var w := Transmit(d, D);
    BurstCorrectorGivesUp(d, MISLEADING);
    SoftCorrectionOfNoBlock(d, conf);
    DataOfTransmit(d, D);
    DataDiffer(w, w);
    assert Misread(d)[12] != d[12];
    assert Xor(Damaged(d, D, TwoBits(MISLEADING)), Mask({WRONG_BIT}))[..16] == Misread(d) by {
      assert forall i :: 0 <= i < 16 ==> w[i] == w[..16][i];
    }
  }

  predicate Uniform(conf: Confidences) { forall i, j :: 0 <= i < j < BLOCK_LENGTH ==> conf[i] == conf[j] }

  /** With equal confidences the six candidates are the six bits received first. */
  lemma FirstSixAreWeakest(conf: Confidences, i: Slot)
    requires Uniform(conf)
    ensures i in Weakest(conf, BLOCK_LENGTH) <==> i < CANDIDATE_BITS
  {
    hide Weakest;
    var w := Weakest(conf, BLOCK_LENGTH);
    WeakestIsSelection(conf, BLOCK_LENGTH);
    assert Before(conf, w[0], w[1]) && Before(conf, w[1], w[2]) && Before(conf, w[2], w[3]);
    assert Before(conf, w[3], w[4]) && Before(conf, w[4], w[5]);
    assert w[5] >= 5;
    assert forall j: Slot :: j < 6 && j !in w ==> Before(conf, w[5], j);
    assert {0, 1, 2, 3, 4, 5} <= (set j | j in w);
  }

  predicate LowBitsAreZero(s: Bits10) { !s.b3 && !s.b2 && !s.b1 && !s.b0 }

  /** Flips among the first six bits leave the low bits of the syndrome alone. */
  lemma {:induction false} FirstSixFlips(s: set<Slot>, k: nat)
    requires k <= BLOCK_LENGTH && forall i :: i in s ==> i < CANDIDATE_BITS
    ensures LowBitsAreZero(PartialSyndrome(Mask(s), k))
  {
    if k > 0 { FirstSixFlips(s, k - 1); }
  }

  /** Whatever was sent as a fourth block: bits 0 and 4 changed and all confidences equal, nothing is stored of it. */
  lemma NothingIsStored(d: Data, conf: Confidences)
    requires Uniform(conf)
    ensures IsLost(Damaged(d, D, TwoBits(HOPELESS)), 3, conf)
  {
    hide PartialSyndrome, OffsetForSyndrome, OffsetSyndrome, OffsetWord, Damaged, Mask, Xor, Xor10, Row, Weakest,
      BurstCorrection, FewestFlips, LowBitsAreZero;
    var w := Damaged(d, D, TwoBits(HOPELESS));
    BurstCorrectorGivesUp(d, HOPELESS);
    SyndromeOfTwoBits(d, HOPELESS);
    SoftSearchOutcome(w, OffsetWord(D), conf);
    forall s | Repair(w, OffsetWord(D), conf, s)
      ensures false
    {
      forall i | i in s
        ensures i < CANDIDATE_BITS
      {
        FirstSixAreWeakest(conf, i);
      }
      FirstSixFlips(s, BLOCK_LENGTH);
      SyndromeXor(w, Mask(s));
      OutOfReach(Syndrome(Mask(s)));
    }
  }

  lemma OutOfReach(s: Bits10)
    requires LowBitsAreZero(s)
    ensures Xor10(Xor10(OffsetSyndrome(D), Xor10(Row(0), Row(4))), s) != OffsetWord(D)
  {}
}
