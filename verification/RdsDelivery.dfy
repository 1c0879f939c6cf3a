/** End to end: what an encoder sends over a lightly damaged channel is what the block stream delivers. */
module RdsDelivery {
  import opened Common
  import opened RdsCode
  import opened RdsBurst
  import opened RdsSoft
  import opened RdsBlockStream
  import Ring = RdsErrorRing

  // ---------------------------------------------------------------- receiving

  datatype Reception = Reception(state: State, groups: seq<Group>)

  /** Pushes the bits one by one and pops the group whenever one is ready. */
  function Receive(s: State, inputs: seq<Input>): Reception
    decreases |inputs|
  {
    if inputs == [] then Reception(s, [])
    else
      var pushed := PushBit(s, inputs[0]);
      var rest := Receive(pushed.(hasGroupReady := false), inputs[1..]);
      Reception(rest.state, (if pushed.hasGroupReady then [pushed.readyGroup] else []) + rest.groups)
  }

  /** The stream's count of groups is the number of groups that have come out. */
  lemma {:induction false} GroupsAreCounted(s: State, inputs: seq<Input>)
    requires !s.hasGroupReady && s.groupsReadyCount < WORD64
    ensures var r := Receive(s, inputs);
      !r.state.hasGroupReady && r.state.groupsReadyCount == (s.groupsReadyCount + |r.groups|) % WORD64
    decreases |inputs|
  {
    hide PushBit;
    if inputs != [] {
      OneBitCounts(s, inputs[0]);
      GroupsAreCounted(PushBit(s, inputs[0]).(hasGroupReady := false), inputs[1..]);
    }
  }

  lemma OneBitCounts(s: State, input: Input)
    requires !s.hasGroupReady && s.groupsReadyCount < WORD64
    ensures var p := PushBit(s, input);
      p.groupsReadyCount == (s.groupsReadyCount + if p.hasGroupReady then 1 else 0) % WORD64
  {
    hide OffsetOf, DecodeBlock, SequenceFound, Record, Ring.Push, Ring.Cleared;
    var shifted := ShiftIn(s, input);
    var offset := OffsetOf(shifted.register);
    var sought := SoughtSync(shifted, offset, shifted.bitCount);
    DecodeFrame(JudgeBlock(ExpectThirdBlock(sought, offset), offset), offset);
  }

  lemma DecodeFrame(s: State, offset: Offset)
    ensures var d := DecodeBlock(s, offset);
      d == s.(currentGroup := d.currentGroup, correctedBlocksSeen := d.correctedBlocksSeen)
  {
    hide Correct, StoreBlock;
  }

  function Bits(inputs: seq<Input>): (bits: seq<bool>)
    ensures |bits| == |inputs|
  {
    seq(|inputs|, i requires 0 <= i < |inputs| => inputs[i].bit)
  }

  function Strengths(inputs: seq<Input>): (strengths: seq<real>)
    ensures |strengths| == |inputs|
  {
    seq(|inputs|, i requires 0 <= i < |inputs| => inputs[i].confidence)
  }

  /** In synchronisation, with a whole block to come and no group waiting. */
  predicate Aligned(s: State)
  {
    s.isInSync && s.bitsUntilNextBlock == BLOCK_LENGTH && !s.hasGroupReady
  }

  lemma {:induction false} ReceiveConcat(s: State, a: seq<Input>, b: seq<Input>)
    ensures Receive(s, a + b).state == Receive(Receive(s, a).state, b).state
    ensures Receive(s, a + b).groups == Receive(s, a).groups + Receive(Receive(s, a).state, b).groups
    decreases |a|
  {
    hide PushBit;
    if a == [] {
      assert a + b == b;
    } else {
      assert (a + b)[1..] == a[1..] + b;
      var pushed := PushBit(s, a[0]).(hasGroupReady := false);
      ReceiveConcat(pushed, a[1..], b);
    }
  }

  /** The state after n bits of a block. */
  function Filled(s: State, inputs: seq<Input>): State
    requires |inputs| <= BLOCK_LENGTH && s.bitsUntilNextBlock == BLOCK_LENGTH
  {
    var n := |inputs|;
    s.(register := s.register[n..] + Bits(inputs), conf := s.conf[n..] + Strengths(inputs),
       bitCount := (s.bitCount + n) % WORD32, bitsUntilNextBlock := BLOCK_LENGTH - n)
  }

  lemma FilledStep(s: State, inputs: seq<Input>)
    requires 0 < |inputs| <= BLOCK_LENGTH && s.bitsUntilNextBlock == BLOCK_LENGTH
    ensures ShiftIn(Filled(s, inputs[..|inputs| - 1]), inputs[|inputs| - 1]) == Filled(s, inputs)
  {
    hide Bits, Strengths;
    var init, last := inputs[..|inputs| - 1], inputs[|inputs| - 1];
    InputsStep(init, last);
    assert inputs == init + [last];
    CountOn(s.bitCount, |init|);
    var before, after := Filled(s, init), Filled(s, inputs);
    var shifted := ShiftIn(before, last);
    assert shifted.register == after.register;
    assert shifted.conf == after.conf;
    assert shifted.bitCount == after.bitCount && shifted.bitsUntilNextBlock == after.bitsUntilNextBlock;
  }

  lemma CountOn(count: nat, n: nat)
    ensures ((count + n) % WORD32 + 1) % WORD32 == (count + (n + 1)) % WORD32
  {}

  lemma InputsStep(init: seq<Input>, last: Input)
    ensures Bits(init + [last]) == Bits(init) + [last.bit]
    ensures Strengths(init + [last]) == Strengths(init) + [last.confidence]
  {}

  lemma {:induction false} PartOfBlock(s: State, inputs: seq<Input>)
    requires |inputs| < BLOCK_LENGTH && s.bitsUntilNextBlock == BLOCK_LENGTH && !s.hasGroupReady
    requires s.bitCount < WORD32
    ensures Receive(s, inputs) == Reception(Filled(s, inputs), [])
  {
    hide FindBlock, ShiftIn;
    if inputs == [] {
      assert Filled(s, []) == s;
    } else {
      var init, last := inputs[..|inputs| - 1], inputs[|inputs| - 1];
      PartOfBlock(s, init);
      ReceiveConcat(s, init, [last]);
      assert inputs == init + [last];
      FilledStep(s, inputs);
      assert [last][1..] == [];
      assert Receive(Filled(s, init), [last]) == Reception(Filled(s, inputs), []);
    }
  }

  /** The state in which a block's last bit has just been shifted in. */
  function BlockIn(s: State, inputs: seq<Input>): State
    requires |inputs| == BLOCK_LENGTH
  {
    s.(register := Bits(inputs), conf := Strengths(inputs),
       bitCount := (s.bitCount + BLOCK_LENGTH) % WORD32, bitsUntilNextBlock := 0)
  }

  lemma WholeBlock(s: State, inputs: seq<Input>)
    requires |inputs| == BLOCK_LENGTH && Aligned(s) && s.bitCount < WORD32
    ensures var found := FindBlock(BlockIn(s, inputs));
      Receive(s, inputs) == Reception(found.(bitsUntilNextBlock := if found.isInSync then BLOCK_LENGTH else 1,
                                             hasGroupReady := false),
                                      if found.hasGroupReady then [found.readyGroup] else [])
  {
    hide FindBlock, ShiftIn, Filled, BlockIn, Receive;
    var init, last := inputs[..BLOCK_LENGTH - 1], inputs[BLOCK_LENGTH - 1];
    PartOfBlock(s, init);
    ReceiveConcat(s, init, [last]);
    assert inputs == init + [last];
    FilledStep(s, inputs);
    FilledIsBlockIn(s, inputs);
    OneInput(Filled(s, init), last);
    assert [] + Receive(Filled(s, init), [last]).groups == Receive(Filled(s, init), [last]).groups;
  }

  lemma FilledIsBlockIn(s: State, inputs: seq<Input>)
    requires |inputs| == BLOCK_LENGTH && s.bitsUntilNextBlock == BLOCK_LENGTH
    ensures Filled(s, inputs) == BlockIn(s, inputs) && BlockIn(s, inputs).bitsUntilNextBlock == 0
  {}

  lemma OneInput(s: State, input: Input)
    ensures var pushed := PushBit(s, input);
      Receive(s, [input]) == Reception(pushed.(hasGroupReady := false),
                                       if pushed.hasGroupReady then [pushed.readyGroup] else [])
  {
    hide PushBit;
    assert [input][1..] == [];
  }

  // ---------------------------------------------------------------- sending

  /** The block an encoder sends: information, checkword, and the offset word added. */
  function Transmit(d: Data, o: Offset): Word { Block(d, Xor10(Checkword(d), OffsetWord(o))) }

  /** A block and the damage it suffers: none, one bit, or two adjacent bits, from bit `shift` up. */
  datatype SentBlock = SentBlock(data: Data, flips: nat, shift: nat)

  predicate Correctable(b: SentBlock) { b.flips == 0 || IsPattern(b.flips, b.shift) }

  function Wire(b: SentBlock, o: Offset): Word { Xor(Transmit(b.data, o), ErrorVector(b.flips, b.shift)) }

  type FourBlocks = b: seq<SentBlock> | |b| == 4
    witness seq(4, i => SentBlock(seq(16, j => false), 0, 0))

  /** Version B groups send their third block with offset C'. */
  datatype SentGroup = SentGroup(blocks: FourBlocks, versionB: bool)

  function OffsetAt(g: SentGroup, i: nat): Offset
    requires i < 4
  {
    if i == 0 then A else if i == 1 then B else if i == 3 then D else if g.versionB then CPrime else C
  }

  predicate WellSent(g: SentGroup)
  {
    (forall i :: 0 <= i < 4 ==> Correctable(g.blocks[i])) && (g.versionB ==> g.blocks[2].flips == 0)
  }

  predicate Carries(inputs: seq<Input>, g: SentGroup)
  {
    |inputs| == 4 * BLOCK_LENGTH
    && forall i :: 0 <= i < 4 ==>
        Bits(inputs[i * BLOCK_LENGTH..(i + 1) * BLOCK_LENGTH]) == Wire(g.blocks[i], OffsetAt(g, i))
  }

  predicate CarriesAll(inputs: seq<Input>, groups: seq<SentGroup>)
  {
    if groups == [] then inputs == []
    else |inputs| >= 104 && Carries(inputs[..104], groups[0]) && CarriesAll(inputs[104..], groups[1..])
  }

  function Verdicts(g: SentGroup): seq<bool> { seq(4, i requires 0 <= i < 4 => g.blocks[i].flips > 0) }

  function AllVerdicts(groups: seq<SentGroup>): seq<bool>
  {
    if groups == [] then [] else Verdicts(groups[0]) + AllVerdicts(groups[1..])
  }

  /** Never more than 35 damaged blocks among the newest fifty. */
  predicate Tolerable(past: seq<bool>, verdicts: seq<bool>)
  {
    forall n :: 0 <= n <= |verdicts| ==> Ring.Errors(Ring.Recent(past + verdicts[..n])) <= Ring.MAX_ERRORS_TOLERATED
  }

  predicate Delivered(b: BlockInfo, sent: SentBlock)
  {
    b.isReceived && b.data == sent.data && b.hadErrors == (sent.flips > 0) && b.correctedBitCount == sent.flips
  }

  predicate DeliveredGroup(g: Group, sent: SentGroup) { forall i :: 0 <= i < 4 ==> Delivered(g[i], sent.blocks[i]) }

  // ---------------------------------------------------------------- one block

  lemma SyndromeOfTransmit(d: Data, o: Offset)
    ensures Syndrome(Transmit(d, o)) == OffsetSyndrome(o)
  {
    hide Syndrome, Checkword, OffsetWord, OffsetSyndrome, Xor10, Remainder, Block;
    var check, offset := Checkword(d), OffsetWord(o);
    RemainderOfBlock(d, Xor10(check, offset));
    Xor10Assoc(check, check, offset);
    Xor10Zero(check);
    Xor10Zero(offset);
    OffsetOfRemainder(Transmit(d, o), o);
  }

  lemma NoDamage(w: Word, shift: nat)
    ensures Xor(w, ErrorVector(0, shift)) == w
  {}

  lemma WhichOffset(syndrome: Bits10, o: Offset)
    requires o != Invalid
    ensures OffsetForSyndrome(syndrome) == o <==> syndrome == OffsetSyndrome(o)
  {}

  lemma PatternIsNoThirdBlockSwap(width: nat, shift: nat)
    requires IsPattern(width, shift)
    ensures Xor10(OffsetSyndrome(C), PatternSyndrome(width, shift)) != OffsetSyndrome(CPrime)
  {
    hide Row, PairRow, Xor10;
    NoThirdBlockSwap(shift);
  }

  lemma NoThirdBlockSwap(d: nat)
    requires d < 26
    ensures Xor10(OffsetSyndrome(C), Row(d)) != OffsetSyndrome(CPrime)
    ensures d < 25 ==> Xor10(OffsetSyndrome(C), PairRow(d)) != OffsetSyndrome(CPrime)
  {
    match d {
      case 0 =>
      case 1 =>
      case 2 =>
      case 3 =>
      case 4 =>
      case 5 =>
      case 6 =>
      case 7 =>
      case 8 =>
      case 9 =>
      case 10 =>
      case 11 =>
      case 12 =>
      case 13 =>
      case 14 =>
      case 15 =>
      case 16 =>
      case 17 =>
      case 18 =>
      case 19 =>
      case 20 =>
      case 21 =>
      case 22 =>
      case 23 =>
      case 24 =>
      case _ => assert d == 25;
    }
  }

  /** A damaged block never shows the offset it was sent with, nor C' in place of C. */
  lemma OffsetOfWire(b: SentBlock, o: Offset)
    requires Correctable(b) && o != Invalid
    ensures b.flips == 0 ==> OffsetOf(Wire(b, o)) == o
    ensures b.flips > 0 ==> OffsetOf(Wire(b, o)) != o && !(o == C && OffsetOf(Wire(b, o)) == CPrime)
  {
    hide Syndrome, OffsetForSyndrome, OffsetSyndrome, Transmit, ErrorVector, Xor, Xor10, PatternSyndrome;
    SyndromeOfTransmit(b.data, o);
    WhichOffset(Syndrome(Wire(b, o)), o);
    if b.flips == 0 {
      NoDamage(Transmit(b.data, o), b.shift);
    } else {
      var pattern := PatternSyndrome(b.flips, b.shift);
      SyndromeXor(Transmit(b.data, o), ErrorVector(b.flips, b.shift));
      SyndromeOfPattern(b.flips, b.shift);
      PatternNonZero(b.flips, b.shift);
      if Xor10(OffsetSyndrome(o), pattern) == OffsetSyndrome(o) {
        Xor10Zero(OffsetSyndrome(o));
        Xor10Cancels(OffsetSyndrome(o), pattern, ZERO);
      }
      PatternIsNoThirdBlockSwap(b.flips, b.shift);
      WhichOffset(Syndrome(Wire(b, o)), CPrime);
    }
  }

  lemma WireIsCorrected(b: SentBlock, o: Offset, conf: Confidences)
    requires Correctable(b) && b.flips > 0
    ensures Correct(Wire(b, o), o, conf) == Correction(Transmit(b.data, o), b.flips, true)
  {
    hide Syndrome, OffsetSyndrome, Transmit, ErrorVector, Xor, BurstCorrection, SoftCorrection;
    SyndromeOfTransmit(b.data, o);
    SyndromeOfOffset(o);
    BurstCorrectionIsExact(Transmit(b.data, o), o, b.flips, b.shift);
  }

  lemma DataOfTransmit(d: Data, o: Offset)
    ensures Transmit(d, o)[..16] == d
  {
    hide Checkword, OffsetWord;
  }

  lemma FinishWire(d: State)
    requires d.expected != Invalid
    ensures var f := FinishBlock(d);
      if d.expected == D
      then f == d.(expected := A, readyGroup := d.currentGroup, hasGroupReady := true, currentGroup := EmptyGroup(),
                   groupsReadyCount := f.groupsReadyCount)
      else f == d.(expected := NextOffset(d.expected))
  {}

  // ---------------------------------------------------------------- any block

  /** The offset expected of block n of a group. */
  function Expected(n: nat): Offset
    requires n < 4
  {
    if n == 0 then A else if n == 1 then B else if n == 2 then C else D
  }

  /** The verdict on block n, as observed; C' is taken for C. */
  function Mismatch(n: nat, w: Word): bool
    requires n < 4
  {
    OffsetOf(w) != Expected(n) && !(n == 2 && OffsetOf(w) == CPrime)
  }

  /** w can be what came of sending b as block n: with at most a correctable damage, or with C' and none. */
  predicate Fits(b: SentBlock, w: Word, n: nat)
    requires n < 4
  {
    Correctable(b) && (w == Wire(b, Expected(n)) || (n == 2 && b.flips == 0 && w == Wire(b, CPrime)))
  }

  /** If the block received can have been sent at all, it is delivered as sent. */
  ghost predicate Right(info: BlockInfo, w: Word, n: nat)
    requires n < 4
  {
    forall b :: Fits(b, w, n) ==> Delivered(info, b)
  }

  /** What the state expects once the offset of block n has been seen. */
  function ExpectedNow(n: nat, w: Word): Offset
    requires n < 4
  {
    if n == 2 && OffsetOf(w) == CPrime then CPrime else Expected(n)
  }

  /** A block that fits is judged for what it is. */
  lemma FittingBlock(b: SentBlock, w: Word, n: nat)
    requires n < 4 && Fits(b, w, n)
    ensures w == Wire(b, ExpectedNow(n, w)) && Mismatch(n, w) == (b.flips > 0)
  {
    hide OffsetOf, Wire;
    OffsetOfWire(b, Expected(n));
    if n == 2 { OffsetOfWire(b, CPrime); }
  }

  /** What is stored of the word that arrives as block n: the block, as received or corrected, or nothing. */
  function Outcome(w: Word, n: nat, conf: Confidences): BlockInfo
    requires n < 4
  {
    var o := ExpectedNow(n, w);
    var correction := Correct(w, o, conf);
    if OffsetOf(w) == o then StoredBlock(w, false, 0, conf)
    else if correction.succeeded then StoredBlock(correction.correctedBits, true, correction.correctedBitCount, conf)
    else EmptyBlock()
  }

  /** Neither the offset expected nor correctable: nothing is stored. */
  predicate IsLost(w: Word, n: nat, conf: Confidences)
    requires n < 4
  {
    OffsetOf(w) != ExpectedNow(n, w) && !Correct(w, ExpectedNow(n, w), conf).succeeded
  }

  lemma LostIffNothingIsStored(w: Word, n: nat, conf: Confidences)
    requires n < 4
    ensures IsLost(w, n, conf) <==> Outcome(w, n, conf) == EmptyBlock()
    ensures IsLost(w, n, conf) <==> !Outcome(w, n, conf).isReceived
  {
    hide OffsetOf, Correct, MeanConfidence;
  }

  lemma OutcomeOfFit(b: SentBlock, w: Word, n: nat, conf: Confidences)
    requires n < 4 && Fits(b, w, n)
    ensures Delivered(Outcome(w, n, conf), b)
  {
    hide OffsetOf, Correct, Transmit, ErrorVector, Xor, MeanConfidence;
    var o := ExpectedNow(n, w);
    FittingBlock(b, w, n);
    OffsetOfWire(b, o);
    DataOfTransmit(b.data, o);
    if b.flips == 0 {
      NoDamage(Transmit(b.data, o), b.shift);
    } else {
      WireIsCorrected(b, o, conf);
    }
  }

  lemma OutcomeIsRight(w: Word, n: nat, conf: Confidences)
    requires n < 4
    ensures Right(Outcome(w, n, conf), w, n)
  {
    hide Outcome, Fits, Delivered;
    forall b | Fits(b, w, n)
      ensures Delivered(Outcome(w, n, conf), b)
    {
      OutcomeOfFit(b, w, n, conf);
    }
  }

  /** Decoding puts the outcome in its place. */
  lemma DecodeIs(s: State, w: Word, n: nat)
    requires n < 4 && s.expected == ExpectedNow(n, w) && s.register == w && s.currentGroup[n] == EmptyBlock()
    ensures var d := DecodeBlock(s, OffsetOf(w));
      d == s.(currentGroup := s.currentGroup[n := Outcome(w, n, s.conf)], correctedBlocksSeen := d.correctedBlocksSeen)
  {
    hide OffsetOf, Correct, StoredBlock;
    var o := ExpectedNow(n, w);
    assert BlockNumber(o) == n;
    hide ExpectedNow, BlockNumber;
    if OffsetOf(w) != o && !Correct(w, o, s.conf).succeeded {
      assert s.currentGroup[n := EmptyBlock()] == s.currentGroup;
    }
  }

  /** One step in synchronisation on any word. */
  lemma TakeWord(s: State, w: Word, n: nat) returns (d: State)
    requires n < 4 && s.expected == Expected(n) && s.register == w && s.currentGroup[n] == EmptyBlock()
    requires Ring.Push(s.ring, Mismatch(n, w)).sum <= Ring.MAX_ERRORS_TOLERATED
    ensures InSyncStep(s, OffsetOf(w)) == FinishBlock(d)
    ensures d == s.(currentGroup := s.currentGroup[n := Outcome(w, n, s.conf)],
                    correctedBlocksSeen := d.correctedBlocksSeen, expected := ExpectedNow(n, w),
                    ring := Ring.Push(s.ring, Mismatch(n, w)), totalBlocksSeen := d.totalBlocksSeen)
  {
    hide OffsetOf, DecodeBlock, FinishBlock, Ring.Push, Outcome;
    var judged := JudgeBlock(ExpectThirdBlock(s, OffsetOf(w)), OffsetOf(w));
    d := DecodeBlock(judged, OffsetOf(w));
    DecodeIs(judged, w, n);
  }

  // ---------------------------------------------------------------- one group of any blocks

  const GROUP_LENGTH: nat := 104

  /** Block n of the inputs of a group. */
  function WordOf(x: seq<Input>, n: nat): Word
    requires |x| == GROUP_LENGTH && n < 4
  {
    Bits(x[n * BLOCK_LENGTH..(n + 1) * BLOCK_LENGTH])
  }

  function StrengthsOf(x: seq<Input>, n: nat): Confidences
    requires |x| == GROUP_LENGTH && n < 4
  {
    Strengths(x[n * BLOCK_LENGTH..(n + 1) * BLOCK_LENGTH])
  }

  function ObservedInGroup(x: seq<Input>): seq<bool>
    requires |x| == GROUP_LENGTH
  {
    [Mismatch(0, WordOf(x, 0)), Mismatch(1, WordOf(x, 1)), Mismatch(2, WordOf(x, 2)), Mismatch(3, WordOf(x, 3))]
  }

  /** What is stored of block n of the inputs of a group. */
  function OutcomeAt(x: seq<Input>, n: nat): BlockInfo
    requires |x| == GROUP_LENGTH && n < 4
  {
    Outcome(WordOf(x, n), n, StrengthsOf(x, n))
  }

  function BlockSoFar(g: Group, x: seq<Input>, m: nat, n: nat, i: nat): BlockInfo
    requires |x| == GROUP_LENGTH && i < 4
  {
    if i < m then g[i] else if i < n then OutcomeAt(x, i) else EmptyBlock()
  }

  /** The group so far: what g holds before block m, the outcomes from m up to n, and nothing from there on. */
  function GroupSoFar(g: Group, x: seq<Input>, m: nat, n: nat): Group
    requires |x| == GROUP_LENGTH && m <= n <= 4
  {
    [BlockSoFar(g, x, m, n, 0), BlockSoFar(g, x, m, n, 1), BlockSoFar(g, x, m, n, 2), BlockSoFar(g, x, m, n, 3)]
  }

  ghost predicate RightGroup(g: Group, x: seq<Input>)
    requires |x| == GROUP_LENGTH
  {
    forall i :: 0 <= i < 4 ==> Right(g[i], WordOf(x, i), i)
  }

  /** Aligned and expecting block n, with the blocks from m on in place and the ring describing `past`. */
  predicate Assembling(s: State, g: Group, x: seq<Input>, m: nat, n: nat, past: seq<bool>)
    requires |x| == GROUP_LENGTH && m <= n < 4
  {
    && Aligned(s) && s.bitCount < WORD32 && Ring.Describes(s.ring, past) && s.expected == Expected(n)
    && s.currentGroup == GroupSoFar(g, x, m, n)
  }

  /** Aligned and expecting the first block of a group; the ring describes `past`. */
  predicate BetweenGroups(s: State, past: seq<bool>)
  {
    && Aligned(s) && s.expected == A && s.bitCount < WORD32 && Ring.Describes(s.ring, past)
    && s.currentGroup == EmptyGroup()
  }

  lemma GroupGrows(g: Group, x: seq<Input>, m: nat, n: nat)
    requires |x| == GROUP_LENGTH && m <= n < 4
    ensures GroupSoFar(g, x, m, n)[n] == EmptyBlock()
    ensures GroupSoFar(g, x, m, n)[n := OutcomeAt(x, n)] == GroupSoFar(g, x, m, n + 1)
  {
    hide OutcomeAt;
  }

  lemma TakeBlockOfGroup(s: State, g: Group, x: seq<Input>, m: nat, n: nat, past: seq<bool>, v: bool)
    requires |x| == GROUP_LENGTH && m <= n < 4 && Assembling(s, g, x, m, n, past) && v == Mismatch(n, WordOf(x, n))
    requires Ring.Errors(Ring.Recent(past + [v])) <= Ring.MAX_ERRORS_TOLERATED
    ensures var r := Receive(s, x[n * BLOCK_LENGTH..(n + 1) * BLOCK_LENGTH]);
      if n < 3
      then r.groups == [] && Assembling(r.state, g, x, m, n + 1, past + [v])
      else r.groups == [GroupSoFar(g, x, m, 4)] && BetweenGroups(r.state, past + [v])
  {
    hide OffsetOf, InSyncStep, Mismatch, Outcome, GroupSoFar, Ring.Push, Ring.Describes, Ring.Errors, Ring.Recent, Bits,
      Strengths;
    var inputs := x[n * BLOCK_LENGTH..(n + 1) * BLOCK_LENGTH];
    var s0 := BlockIn(s, inputs);
    WholeBlock(s, inputs);
    GroupGrows(g, x, m, n);
    Ring.PushDescribes(s.ring, past, v);
    RingSum(Ring.Push(s.ring, v), past + [v]);
    var d := TakeWord(s0, WordOf(x, n), n);
    FinishWire(d);
    assert FindBlock(s0) == FinishBlock(d);
  }

  lemma RingSum(r: Ring.ErrorRing, verdicts: seq<bool>)
    requires Ring.Describes(r, verdicts)
    ensures r.sum == Ring.Errors(Ring.Recent(verdicts))
  {}

  /** The inputs of the group from block n on. */
  function From(x: seq<Input>, n: nat): seq<Input>
    requires |x| == GROUP_LENGTH && n <= 4
  {
    x[n * BLOCK_LENGTH..]
  }

  lemma FromSplits(x: seq<Input>, n: nat)
    requires |x| == GROUP_LENGTH && n < 4
    ensures From(x, n) == x[n * BLOCK_LENGTH..(n + 1) * BLOCK_LENGTH] + From(x, n + 1) && From(x, 4) == []
  {}

  function VerdictsFrom(x: seq<Input>, n: nat): seq<bool>
    requires |x| == GROUP_LENGTH && n <= 4
  {
    ObservedInGroup(x)[n..]
  }

  lemma VerdictsSplit(x: seq<Input>, n: nat)
    requires |x| == GROUP_LENGTH && n < 4
    ensures VerdictsFrom(x, n) == [Mismatch(n, WordOf(x, n))] + VerdictsFrom(x, n + 1) && VerdictsFrom(x, 4) == []
  {
    hide Mismatch, WordOf;
  }

  lemma {:induction false} TakeBlocksOfGroup(s: State, g: Group, x: seq<Input>, m: nat, n: nat, past: seq<bool>)
    requires |x| == GROUP_LENGTH && m <= n < 4 && Assembling(s, g, x, m, n, past)
    requires Tolerable(past, VerdictsFrom(x, n))
    ensures var r := Receive(s, From(x, n));
      r.groups == [GroupSoFar(g, x, m, 4)] && BetweenGroups(r.state, past + VerdictsFrom(x, n))
    decreases 4 - n
  {
    hide Assembling, BetweenGroups, GroupSoFar, Mismatch, WordOf, Receive, Ring.Errors, Ring.Recent, Tolerable, From,
      VerdictsFrom;
    var first := x[n * BLOCK_LENGTH..(n + 1) * BLOCK_LENGTH];
    var v, later := Mismatch(n, WordOf(x, n)), VerdictsFrom(x, n + 1);
    FromSplits(x, n);
    VerdictsSplit(x, n);
    TolerableFirst(past, [v] + later);
    TakeBlockOfGroup(s, g, x, m, n, past, v);
    ReceiveConcat(s, first, From(x, n + 1));
    assert past + [v] + later == past + ([v] + later);
    if n < 3 {
      TolerableTail(past, [v] + later, 1);
      assert ([v] + later)[..1] == [v] && ([v] + later)[1..] == later;
      TakeBlocksOfGroup(Receive(s, first).state, g, x, m, n + 1, past + [v]);
    } else {
      assert n + 1 == 4 && past + [v] + later == past + [v];
      NothingReceived(Receive(s, first).state);
    }
  }

  lemma NothingReceived(s: State)
    ensures Receive(s, []) == Reception(s, [])
  {}

  lemma TolerableTail(past: seq<bool>, verdicts: seq<bool>, n: nat)
    requires n <= |verdicts| && Tolerable(past, verdicts)
    ensures Tolerable(past + verdicts[..n], verdicts[n..])
  {
    hide Ring.Errors, Ring.Recent;
    forall k | 0 <= k <= |verdicts| - n
      ensures past + verdicts[..n] + verdicts[n..][..k] == past + verdicts[..n + k]
    {}
  }

  lemma TolerableFirst(past: seq<bool>, verdicts: seq<bool>)
    requires verdicts != [] && Tolerable(past, verdicts)
    ensures Ring.Errors(Ring.Recent(past + [verdicts[0]])) <= Ring.MAX_ERRORS_TOLERATED
  {
    hide Ring.Errors, Ring.Recent;
    assert verdicts[..1] == [verdicts[0]];
  }

  lemma TolerableHead(past: seq<bool>, verdicts: seq<bool>, more: seq<bool>)
    requires Tolerable(past, verdicts + more)
    ensures Tolerable(past, verdicts)
  {
    hide Ring.Errors, Ring.Recent;
    forall k | 0 <= k <= |verdicts|
      ensures past + verdicts[..k] == past + (verdicts + more)[..k]
    {}
  }

  // ---------------------------------------------------------------- any number of groups

  function GroupOf(inputs: seq<Input>, k: nat): seq<Input>
    requires (k + 1) * GROUP_LENGTH <= |inputs|
  {
    inputs[k * GROUP_LENGTH..(k + 1) * GROUP_LENGTH]
  }

  /** The verdicts on all blocks, as observed. */
  function Observed(inputs: seq<Input>, count: nat): seq<bool>
    requires |inputs| == count * GROUP_LENGTH
    decreases count
  {
    if count == 0 then [] else ObservedInGroup(inputs[..GROUP_LENGTH]) + Observed(inputs[GROUP_LENGTH..], count - 1)
  }

  /** The group that comes of any 104 inputs. */
  function GroupOutcome(x: seq<Input>): Group
    requires |x| == GROUP_LENGTH
  {
    GroupSoFar(EmptyGroup(), x, 0, 4)
  }

  lemma AnyGroupIsTaken(s: State, x: seq<Input>, past: seq<bool>)
    requires BetweenGroups(s, past) && |x| == GROUP_LENGTH && Tolerable(past, ObservedInGroup(x))
    ensures var r := Receive(s, x);
      r.groups == [GroupOutcome(x)] && BetweenGroups(r.state, past + ObservedInGroup(x))
  {
    hide OutcomeAt, ObservedInGroup, WordOf, Receive, Ring.Errors, Ring.Recent, Ring.Describes;
    assert GroupSoFar(EmptyGroup(), x, 0, 0) == EmptyGroup();
    assert Assembling(s, EmptyGroup(), x, 0, 0, past);
    assert VerdictsFrom(x, 0) == ObservedInGroup(x) && From(x, 0) == x;
    TakeBlocksOfGroup(s, EmptyGroup(), x, 0, 0, past);
  }

  lemma GroupOfRest(inputs: seq<Input>, k: nat)
    requires (k + 2) * GROUP_LENGTH <= |inputs|
    ensures GroupOf(inputs[GROUP_LENGTH..], k) == GroupOf(inputs, k + 1)
  {}

  /** The groups are, one by one, what the inputs make of them. */
  predicate ComeOut(groups: seq<Group>, inputs: seq<Input>, count: nat)
    requires |inputs| == count * GROUP_LENGTH
  {
    |groups| == count && forall k :: 0 <= k < count ==> groups[k] == GroupOutcome(GroupOf(inputs, k))
  }

  /**
   * Whatever the channel does, as long as no more than 35 of the newest fifty blocks show a wrong offset: alignment is
   * kept, and each group delivered is exactly what its four words make of it.
   */
  lemma {:induction false} ReceptionIsDetermined(s: State, past: seq<bool>, inputs: seq<Input>, count: nat)
    requires BetweenGroups(s, past) && |inputs| == count * GROUP_LENGTH && Tolerable(past, Observed(inputs, count))
    ensures var r := Receive(s, inputs);
      ComeOut(r.groups, inputs, count) && BetweenGroups(r.state, past + Observed(inputs, count))
    decreases count
  {
    hide BetweenGroups, GroupOutcome, ObservedInGroup, Receive, Ring.Errors, Ring.Recent;
    if count == 0 {
      NothingReceived(s);
      assert past + [] == past;
    } else {
      var first, rest := inputs[..GROUP_LENGTH], inputs[GROUP_LENGTH..];
      var verdicts, later := ObservedInGroup(first), Observed(rest, count - 1);
      assert inputs == first + rest && GroupOf(inputs, 0) == first;
      FourVerdicts(first);
      TolerableHead(past, verdicts, later);
      TolerableTail(past, verdicts + later, 4);
      assert (verdicts + later)[..4] == verdicts && (verdicts + later)[4..] == later;
      AnyGroupIsTaken(s, first, past);
      ReceiveConcat(s, first, rest);
      ReceptionIsDetermined(Receive(s, first).state, past + verdicts, rest, count - 1);
      assert past + verdicts + later == past + (verdicts + later);
      forall k | 0 < k < count
        ensures Receive(s, inputs).groups[k] == GroupOutcome(GroupOf(inputs, k))
      {
        GroupOfRest(inputs, k - 1);
      }
    }
  }

  /** In particular one group comes out for each group sent, and every block that arrives correctable is delivered as
      sent, whatever has become of the others. */
  lemma EveryCorrectableBlockIsDelivered(s: State, past: seq<bool>, inputs: seq<Input>, count: nat)
    requires BetweenGroups(s, past) && |inputs| == count * GROUP_LENGTH && Tolerable(past, Observed(inputs, count))
    ensures var r := Receive(s, inputs);
      && |r.groups| == count && BetweenGroups(r.state, past + Observed(inputs, count))
      && forall k :: 0 <= k < count ==> RightGroup(r.groups[k], GroupOf(inputs, k))
  {
    hide BetweenGroups, Right, Outcome, WordOf, StrengthsOf, Observed, Receive, Tolerable;
    ReceptionIsDetermined(s, past, inputs, count);
    forall k, i | 0 <= k < count && 0 <= i < 4
      ensures Right(GroupOutcome(GroupOf(inputs, k))[i], WordOf(GroupOf(inputs, k), i), i)
    {
      OutcomeIsRight(WordOf(GroupOf(inputs, k), i), i, StrengthsOf(GroupOf(inputs, k), i));
    }
  }

  lemma FourVerdicts(x: seq<Input>)
    requires |x| == GROUP_LENGTH
    ensures |ObservedInGroup(x)| == 4
  {}

  // ---------------------------------------------------------------- light damage

  /** Exactly the groups sent are delivered, in order, with the damaged blocks and no others marked. */
  lemma LightlyDamagedGroupsAreDelivered(s: State, past: seq<bool>, groups: seq<SentGroup>, inputs: seq<Input>)
    requires BetweenGroups(s, past) && CarriesAll(inputs, groups) && Tolerable(past, AllVerdicts(groups))
    requires forall k :: 0 <= k < |groups| ==> WellSent(groups[k])
    ensures var r := Receive(s, inputs);
      && |r.groups| == |groups|
      && (forall k :: 0 <= k < |groups| ==> DeliveredGroup(r.groups[k], groups[k]))
      && BetweenGroups(r.state, past + AllVerdicts(groups))
  {
    hide BetweenGroups, CarriesAll, WellSent, DeliveredGroup, RightGroup, FitsGroup, Observed, AllVerdicts, Receive,
      Tolerable;
    CarriedGroups(inputs, groups);
    EveryCorrectableBlockIsDelivered(s, past, inputs, |groups|);
    forall k | 0 <= k < |groups|
      ensures DeliveredGroup(Receive(s, inputs).groups[k], groups[k])
    {
      RightIsDelivered(Receive(s, inputs).groups[k], GroupOf(inputs, k), groups[k]);
    }
  }

  predicate FitsGroup(x: seq<Input>, g: SentGroup)
    requires |x| == GROUP_LENGTH
  {
    forall i :: 0 <= i < 4 ==> Fits(g.blocks[i], WordOf(x, i), i)
  }

  /** Lightly damaged groups show wrong offsets exactly where they are damaged, and fit throughout. */
  lemma {:induction false} CarriedGroups(inputs: seq<Input>, groups: seq<SentGroup>)
    requires CarriesAll(inputs, groups) && forall k :: 0 <= k < |groups| ==> WellSent(groups[k])
    ensures |inputs| == |groups| * GROUP_LENGTH && Observed(inputs, |groups|) == AllVerdicts(groups)
    ensures forall k :: 0 <= k < |groups| ==> FitsGroup(GroupOf(inputs, k), groups[k])
    decreases |groups|
  {
    hide Wire, Correctable, Mismatch, Fits, Bits;
    if groups != [] {
      var g, first, rest := groups[0], inputs[..GROUP_LENGTH], inputs[GROUP_LENGTH..];
      CarriedGroups(rest, groups[1..]);
      forall i | 0 <= i < 4
        ensures Fits(g.blocks[i], WordOf(first, i), i) && Mismatch(i, WordOf(first, i)) == (g.blocks[i].flips > 0)
      {
        assert WellSent(g);
        LightlyDamagedBlock(g, WordOf(first, i), i);
        FittingBlock(g.blocks[i], WordOf(first, i), i);
      }
      forall k | 0 <= k < |groups|
        ensures FitsGroup(GroupOf(inputs, k), groups[k])
      {
        if k > 0 { GroupOfRest(inputs, k - 1); }
      }
    }
  }

  lemma LightlyDamagedBlock(g: SentGroup, w: Word, i: nat)
    requires WellSent(g) && i < 4 && w == Wire(g.blocks[i], OffsetAt(g, i))
    ensures Fits(g.blocks[i], w, i)
  {
    hide Wire, Correctable;
  }

  lemma RightIsDelivered(g: Group, x: seq<Input>, sent: SentGroup)
    requires |x| == GROUP_LENGTH && RightGroup(g, x) && FitsGroup(x, sent)
    ensures DeliveredGroup(g, sent)
  {
    hide Delivered, Fits, WordOf;
    forall i | 0 <= i < 4
      ensures Delivered(g[i], sent.blocks[i])
    {
      assert Right(g[i], WordOf(x, i), i);
    }
  }
}
