/** The bit-serial block synchroniser: its state, one step of it, and the object that takes the steps. */
module RdsBlockStream {
  import opened Common
  import opened RdsCode
  import opened RdsBurst
  import opened RdsSoft
  import Ring = RdsErrorRing

  datatype BlockInfo = BlockInfo(data: Data, isReceived: bool, hadErrors: bool, correctedBitCount: nat,
                                 confidence: real, softReliable: bool)

  function EmptyBlock(): BlockInfo { BlockInfo(NoData(), false, false, 0, 0.0, false) }

  type Group = g: seq<BlockInfo> | |g| == 4
    witness seq(4, i => BlockInfo(seq(16, j => false), false, false, 0, 0.0, false))

  function EmptyGroup(): Group { [EmptyBlock(), EmptyBlock(), EmptyBlock(), EmptyBlock()] }

  // ---------------------------------------------------------------- sync history

  type Offsets8 = o: seq<Offset> | |o| == 8 witness seq(8, i => Invalid)
  type Positions8 = p: seq<nat> | |p| == 8 witness seq(8, i => 0)

  datatype History = History(offsets: Offsets8, positions: Positions8)

  function BlockNumber(o: Offset): nat
  {
    match o
    case A => 0
    case B => 1
    case C => 2
    case CPrime => 2
    case D => 3
    case Invalid => 0
  }

  function NextOffset(o: Offset): Offset
  {
    match o
    case A => B
    case B => C
    case C => D
    case CPrime => D
    case D => A
    case Invalid => A
  }

  predicate CouldFollow(offset: Offset, bitPosition: nat, otherOffset: Offset, otherBitPosition: nat)
  {
    var syncDistance := (bitPosition - otherBitPosition) % WORD32;
    && syncDistance % BLOCK_LENGTH == 0 && syncDistance / BLOCK_LENGTH <= 6
    && offset != Invalid && otherOffset != Invalid
    && (BlockNumber(otherOffset) + syncDistance / BLOCK_LENGTH) % 4 == BlockNumber(offset)
  }

  function Record(h: History, offset: Offset, bitPosition: nat): History
  {
    History(h.offsets[1..] + [offset], h.positions[1..] + [bitPosition])
  }

  predicate Chain(h: History, first: nat, second: nat)
    requires first < 8 && second < 8
  {
    && CouldFollow(h.offsets[7], h.positions[7], h.offsets[second], h.positions[second])
    && CouldFollow(h.offsets[second], h.positions[second], h.offsets[first], h.positions[first])
  }

  predicate SequenceFound(h: History)
  {
    exists first, second :: 0 <= first < second < 7 && Chain(h, first, second)
  }

  // ---------------------------------------------------------------- one step

  datatype State = State(
    register: Word, conf: Confidences, bitCount: nat, bitsUntilNextBlock: nat,
    isInSync: bool, syncAcquired: bool, syncLost: bool, expected: Offset,
    currentGroup: Group, readyGroup: Group, hasGroupReady: bool,
    totalBlocksSeen: nat, correctedBlocksSeen: nat, groupsReadyCount: nat,
    ring: Ring.ErrorRing, history: History)

  function InitialState(): State
  {
    State(seq(BLOCK_LENGTH, i => false), seq(BLOCK_LENGTH, i => 0.0), 0, 1, false, false, false, Invalid,
          EmptyGroup(), EmptyGroup(), false, 0, 0, 0, Ring.Cleared(),
          History(seq(8, i => Invalid), seq(8, i => 0)))
  }

  function Sum(c: seq<real>): real
  {
    if c == [] then 0.0 else Sum(c[..|c| - 1]) + c[|c| - 1]
  }

  function MeanConfidence(c: Confidences): real { Sum(c) / 26.0 }

  function OffsetOf(w: Word): Offset { OffsetForSyndrome(Syndrome(w)) }

  function SoughtSync(s: State, offset: Offset, bitPosition: nat): State
  {
    if s.isInSync || offset == Invalid then s
    else
      var recorded := s.(history := Record(s.history, offset, bitPosition));
      if SequenceFound(recorded.history) then EnterSync(recorded, offset) else recorded
  }

  function EnterSync(s: State, offset: Offset): State
  {
    s.(isInSync := true, syncAcquired := true, expected := offset, currentGroup := EmptyGroup(), ring := Ring.Cleared())
  }

  /** The two correctors in turn. */
  function Correct(raw: Word, expected: Offset, conf: Confidences): Correction
  {
    var burst := BurstCorrection(raw, expected);
    if burst.succeeded then burst else SoftCorrection(raw, expected, conf)
  }

  /** A block received: its information, and how it came to be. */
  function StoredBlock(w: Word, hadErrors: bool, correctedBitCount: nat, conf: Confidences): BlockInfo
  {
    var confidence := MeanConfidence(conf);
    BlockInfo(w[..16], true, hadErrors, correctedBitCount, confidence,
              hadErrors && 0 < correctedBitCount <= 2 && confidence >= 0.0)
  }

  lemma {:induction false} SumChanged(c: seq<real>, i: nat, x: real)
    requires i < |c|
    ensures Sum(c[i := x]) == Sum(c) + (x - c[i])
  {
    var n := |c| - 1;
    if i < n {
      SumChanged(c[..n], i, x);
      assert c[i := x][..n] == c[..n][i := x];
    } else {
      assert c[i := x][..n] == c[..n];
    }
  }

  lemma {:induction false} SumOfEqual(c: seq<real>, x: real)
    requires forall i :: 0 <= i < |c| ==> c[i] == x
    ensures Sum(c) == |c| as real * x
  {
    if c != [] { SumOfEqual(c[..|c| - 1], x); }
  }

  /** The confidence stored with a block is the mean over its bits: each bit counts for a twenty-sixth, and equal bits
      give their own. */
  lemma StoredConfidenceIsMean(w: Word, hadErrors: bool, count: nat, conf: Confidences, i: nat, x: real)
    requires i < BLOCK_LENGTH
    ensures StoredBlock(w, hadErrors, count, conf[i := x]).confidence
         == StoredBlock(w, hadErrors, count, conf).confidence + (x - conf[i]) / 26.0
    ensures (forall k :: 0 <= k < BLOCK_LENGTH ==> conf[k] == x) ==>
      StoredBlock(w, hadErrors, count, conf).confidence == x
  {
    hide Sum;
    SumChanged(conf, i, x);
    if forall k :: 0 <= k < BLOCK_LENGTH ==> conf[k] == x { SumOfEqual(conf, x); }
  }

  function StoreBlock(g: Group, expected: Offset, w: Word, hadErrors: bool, correctedBitCount: nat,
                      conf: Confidences): Group
  {
    g[BlockNumber(expected) := StoredBlock(w, hadErrors, correctedBitCount, conf)]
  }

  function FinishBlock(s: State): State
  {
    var next := NextOffset(s.expected);
    if next == A
    then s.(readyGroup := s.currentGroup, hasGroupReady := true, groupsReadyCount := (s.groupsReadyCount + 1) % WORD64,
            currentGroup := EmptyGroup(), expected := next)
    else s.(expected := next)
  }

  /** What a block contributes to the group being assembled. */
  function DecodeBlock(s: State, offset: Offset): State
  {
    if offset == s.expected then
      s.(currentGroup := StoreBlock(s.currentGroup, s.expected, s.register, false, 0, s.conf))
    else
      var correction := Correct(s.register, s.expected, s.conf);
      if correction.succeeded
      then s.(currentGroup := StoreBlock(s.currentGroup, s.expected, correction.correctedBits, true,
                                         correction.correctedBitCount, s.conf),
              correctedBlocksSeen := (s.correctedBlocksSeen + 1) % WORD64)
      else s
  }

  function ExpectThirdBlock(s: State, offset: Offset): State
  {
    if s.expected == C && offset == CPrime then s.(expected := CPrime) else s
  }

  function JudgeBlock(s: State, offset: Offset): State
  {
    s.(ring := Ring.Push(s.ring, offset != s.expected), totalBlocksSeen := (s.totalBlocksSeen + 1) % WORD64)
  }

  function LoseSync(s: State): State
  {
    s.(isInSync := false, syncLost := true, ring := Ring.Cleared())
  }

  function InSyncStep(s: State, offset: Offset): State
  {
    var judged := JudgeBlock(ExpectThirdBlock(s, offset), offset);
    if judged.ring.sum > Ring.MAX_ERRORS_TOLERATED then LoseSync(judged)
    else FinishBlock(DecodeBlock(judged, offset))
  }

  function FindBlock(s: State): State
  {
    var offset := OffsetOf(s.register);
    var sought := SoughtSync(s, offset, s.bitCount);
    if sought.isInSync then InSyncStep(sought, offset) else sought
  }

  datatype Input = Input(bit: bool, confidence: real)

  function ShiftIn(s: State, input: Input): State
  {
    s.(register := s.register[1..] + [input.bit], conf := s.conf[1..] + [input.confidence],
       bitsUntilNextBlock := (s.bitsUntilNextBlock + WORD32 - 1) % WORD32,
       bitCount := (s.bitCount + 1) % WORD32)
  }

  function PushBit(s: State, input: Input): State
  {
    var shifted := ShiftIn(s, input);
    if shifted.bitsUntilNextBlock == 0
    then var found := FindBlock(shifted); found.(bitsUntilNextBlock := if found.isInSync then BLOCK_LENGTH else 1)
    else shifted
  }

  // ---------------------------------------------------------------- the object

  class BlockStream {
    var inputRegister: Word
    const inputConfidenceRegister: array<real>
    var bitCount: nat
    var bitsUntilNextBlock: nat
    var isInSync: bool
    var syncAcquiredEvent: bool
    var syncLostEvent: bool
    var expectedOffset: Offset
    var currentGroup: Group
    var readyGroup: Group
    var hasGroupReady: bool
    var totalBlocksSeen: nat
    var correctedBlocksSeen: nat
    var groupsReadyCount: nat
    const recentBlockErrors: array<bool>
    var recentBlockErrorsPos: Ring.Position
    var recentBlockErrorsCount: nat
    var recentBlockErrorSum: int
    const syncOffsets: array<Offset>
    const syncPositions: array<nat>

    ghost predicate Valid()
    {
      && inputConfidenceRegister.Length == BLOCK_LENGTH && recentBlockErrors.Length == Ring.RING_SIZE
      && syncOffsets.Length == 8 && syncPositions.Length == 8
      && recentBlockErrors as object != inputConfidenceRegister && recentBlockErrors as object != syncOffsets
      && recentBlockErrors as object != syncPositions && inputConfidenceRegister as object != syncOffsets
      && inputConfidenceRegister as object != syncPositions && syncOffsets as object != syncPositions
    }

    ghost function ErrorRing(): Ring.ErrorRing
      reads this, recentBlockErrors
      requires Valid()
    {
      Ring.ErrorRing(recentBlockErrors[..], recentBlockErrorsPos, recentBlockErrorsCount, recentBlockErrorSum)
    }

    ghost function SyncHistory(): History
      reads this, syncOffsets, syncPositions
      requires Valid()
    {
      History(syncOffsets[..], syncPositions[..])
    }

    /** The value of the object, on which all its steps are specified. */
    ghost function Value(): State
      reads this, inputConfidenceRegister, recentBlockErrors, syncOffsets, syncPositions
      requires Valid()
    {
      State(inputRegister, inputConfidenceRegister[..], bitCount, bitsUntilNextBlock,
            isInSync, syncAcquiredEvent, syncLostEvent, expectedOffset,
            currentGroup, readyGroup, hasGroupReady,
            totalBlocksSeen, correctedBlocksSeen, groupsReadyCount, ErrorRing(), SyncHistory())
    }

    /** The object has value s. */
    ghost predicate Is(s: State)
      reads this, inputConfidenceRegister, recentBlockErrors, syncOffsets, syncPositions
      requires Valid()
    {
      && inputRegister == s.register && inputConfidenceRegister[..] == s.conf
      && bitCount == s.bitCount && bitsUntilNextBlock == s.bitsUntilNextBlock
      && isInSync == s.isInSync && syncAcquiredEvent == s.syncAcquired && syncLostEvent == s.syncLost
      && expectedOffset == s.expected && currentGroup == s.currentGroup
      && readyGroup == s.readyGroup && hasGroupReady == s.hasGroupReady
      && totalBlocksSeen == s.totalBlocksSeen && correctedBlocksSeen == s.correctedBlocksSeen
      && groupsReadyCount == s.groupsReadyCount
      && ErrorRing() == s.ring && SyncHistory() == s.history
    }

    constructor ()
      ensures Valid()
      ensures fresh(inputConfidenceRegister) && fresh(recentBlockErrors) && fresh(syncOffsets) && fresh(syncPositions)
      ensures Value() == InitialState()
    {
      var confidences := new real[BLOCK_LENGTH](i => 0.0);
      var errors := new bool[Ring.RING_SIZE](i => false);
      var offsets := new Offset[8](i => Invalid);
      var positions := new nat[8](i => 0);
      inputRegister := seq(BLOCK_LENGTH, i => false);
      inputConfidenceRegister := confidences;
      bitCount, bitsUntilNextBlock := 0, 1;
      isInSync, syncAcquiredEvent, syncLostEvent, expectedOffset := false, false, false, Invalid;
      currentGroup, readyGroup, hasGroupReady := EmptyGroup(), EmptyGroup(), false;
      totalBlocksSeen, correctedBlocksSeen, groupsReadyCount := 0, 0, 0;
      recentBlockErrors := errors;
      recentBlockErrorsPos, recentBlockErrorsCount, recentBlockErrorSum := 0, 0, 0;
      syncOffsets := offsets;
      syncPositions := positions;
      new;
      assert inputConfidenceRegister[..] == InitialState().conf;
      assert recentBlockErrors[..] == Ring.Cleared().flags;
      assert syncOffsets[..] == InitialState().history.offsets;
      assert syncPositions[..] == InitialState().history.positions;
    }

    method RecentErrorPush(hadError: bool)
      requires Valid()
      modifies `recentBlockErrorsPos, `recentBlockErrorsCount, `recentBlockErrorSum, recentBlockErrors
      ensures ErrorRing() == Ring.Push(old(ErrorRing()), hadError)
    {
      if recentBlockErrorsCount == Ring.RING_SIZE {
        recentBlockErrorSum := recentBlockErrorSum - (if recentBlockErrors[recentBlockErrorsPos] then 1 else 0);
      } else {
        recentBlockErrorsCount := recentBlockErrorsCount + 1;
      }
      recentBlockErrors[recentBlockErrorsPos] := hadError;
      recentBlockErrorSum := recentBlockErrorSum + (if hadError then 1 else 0);
      recentBlockErrorsPos := (recentBlockErrorsPos + 1) % Ring.RING_SIZE;
    }

    method RecentErrorClear()
      requires Valid()
      modifies `recentBlockErrorsPos, `recentBlockErrorsCount, `recentBlockErrorSum, recentBlockErrors
      ensures ErrorRing() == Ring.Cleared()
    {
      forall i | 0 <= i < Ring.RING_SIZE { recentBlockErrors[i] := false; }
      recentBlockErrorsPos, recentBlockErrorsCount, recentBlockErrorSum := 0, 0, 0;
      assert recentBlockErrors[..] == Ring.Cleared().flags;
    }

    method SyncBufferPush(offset: Offset, bitPosition: nat)
      requires Valid()
      modifies syncOffsets, syncPositions
      ensures SyncHistory() == Record(old(SyncHistory()), offset, bitPosition)
    {
      for i := 0 to 7
        invariant forall k :: 0 <= k < i ==> syncOffsets[k] == old(syncOffsets[k + 1])
        invariant forall k :: 0 <= k < i ==> syncPositions[k] == old(syncPositions[k + 1])
        invariant forall k :: i <= k < 8 ==> syncOffsets[k] == old(syncOffsets[k])
        invariant forall k :: i <= k < 8 ==> syncPositions[k] == old(syncPositions[k])
      {
        syncOffsets[i] := syncOffsets[i + 1];
        syncPositions[i] := syncPositions[i + 1];
      }
      syncOffsets[7] := offset;
      syncPositions[7] := bitPosition;
      ghost var recorded := Record(old(SyncHistory()), offset, bitPosition);
      assert syncOffsets[..] == recorded.offsets;
      assert syncPositions[..] == recorded.positions;
    }

    method SyncBufferIsSequenceFound() returns (found: bool)
      requires Valid()
      ensures found == SequenceFound(SyncHistory())
    {
      hide CouldFollow;
      ghost var h := SyncHistory();
      for first := 0 to 6
        invariant forall f, s :: 0 <= f < first && f < s < 7 ==> !Chain(h, f, s)
      {
        for second := first + 1 to 7
          invariant forall s :: first < s < second ==> !Chain(h, first, s)
        {
          if CouldFollow(syncOffsets[7], syncPositions[7], syncOffsets[second], syncPositions[second])
             && CouldFollow(syncOffsets[second], syncPositions[second], syncOffsets[first], syncPositions[first]) {
            assert Chain(h, first, second);
            return true;
          }
        }
      }
      return false;
    }

    method AcquireSync(offset: Offset, bitPosition: nat, ghost s: State)
      requires Valid() && Is(s)
      modifies this, recentBlockErrors, syncOffsets, syncPositions
      ensures Is(SoughtSync(s, offset, bitPosition))
    {
      hide Record, SequenceFound, EnterSync;
      if !isInSync && offset != Invalid {
        SyncBufferPush(offset, bitPosition);
        ghost var recorded := s.(history := Record(s.history, offset, bitPosition));
        assert Is(recorded);
        var found := SyncBufferIsSequenceFound();
        if found {
          BeginSync(offset, recorded);
        }
      }
    }

    method BeginSync(offset: Offset, ghost s: State)
      requires Valid() && Is(s)
      modifies this, recentBlockErrors
      ensures Is(EnterSync(s, offset))
    {
      hide EmptyGroup, Ring.Cleared;
      isInSync, syncAcquiredEvent, expectedOffset, currentGroup := true, true, offset, EmptyGroup();
      RecentErrorClear();
    }

    method HandleReadyGroup()
      requires Valid()
      modifies `readyGroup, `hasGroupReady, `groupsReadyCount, `currentGroup
      ensures readyGroup == old(currentGroup) && hasGroupReady
      ensures groupsReadyCount == (old(groupsReadyCount) + 1) % WORD64
      ensures currentGroup == EmptyGroup()
    {
      readyGroup := currentGroup;
      hasGroupReady := true;
      groupsReadyCount := (groupsReadyCount + 1) % WORD64;
      currentGroup := EmptyGroup();
    }

    method GetBlockConfidence() returns (mean: real)
      requires Valid()
      ensures mean == MeanConfidence(inputConfidenceRegister[..])
    {
      var sum := 0.0;
      for i := 0 to BLOCK_LENGTH
        invariant sum == Sum(inputConfidenceRegister[..i])
      {
        assert inputConfidenceRegister[..i + 1][..i] == inputConfidenceRegister[..i];
        sum := sum + inputConfidenceRegister[i];
      }
      assert inputConfidenceRegister[..BLOCK_LENGTH] == inputConfidenceRegister[..];
      mean := sum / 26.0;
    }

    method CorrectBlock() returns (correction: Correction)
      requires Valid()
      ensures correction == Correct(inputRegister, expectedOffset, inputConfidenceRegister[..])
    {
      hide BurstCorrection, SoftCorrection;
      correction := CorrectBurstErrors(inputRegister, expectedOffset);
      if !correction.succeeded {
        correction := CorrectSoftErrors(inputRegister, expectedOffset, inputConfidenceRegister);
      }
    }

    method Store(w: Word, hadErrors: bool, correctedBitCount: nat)
      requires Valid()
      modifies `currentGroup
      ensures currentGroup == StoreBlock(old(currentGroup), expectedOffset, w, hadErrors, correctedBitCount,
                                         inputConfidenceRegister[..])
    {
      hide MeanConfidence;
      var blockConfidence := GetBlockConfidence();
      var softReliable := hadErrors && 0 < correctedBitCount <= 2 && blockConfidence >= 0.0;
      currentGroup := currentGroup[BlockNumber(expectedOffset) :=
        BlockInfo(w[..16], true, hadErrors, correctedBitCount, blockConfidence, softReliable)];
    }

    /** Stores what the block carries, after correction if the offset is not the expected one. */
    method Decode(offset: Offset, ghost s: State)
      requires Valid() && Is(s)
      modifies `currentGroup, `correctedBlocksSeen
      ensures Is(DecodeBlock(s, offset))
    {
      hide Correct, StoreBlock;
      if offset == expectedOffset {
        Store(inputRegister, false, 0);
      } else {
        var correction := CorrectBlock();
        if correction.succeeded {
          correctedBlocksSeen := (correctedBlocksSeen + 1) % WORD64;
          Store(correction.correctedBits, true, correction.correctedBitCount);
        }
      }
    }

    method Finish(ghost s: State)
      requires Valid() && Is(s)
      modifies this
      ensures Is(FinishBlock(s))
    {
      hide EmptyGroup, NextOffset;
      if NextOffset(expectedOffset) == A {
        HandleReadyGroup();
      }
      expectedOffset := NextOffset(expectedOffset);
    }

    method FindBlockInRegister(ghost s: State)
      requires Valid() && Is(s)
      modifies this, recentBlockErrors, syncOffsets, syncPositions
      ensures Is(FindBlock(s))
    {
      hide Syndrome, OffsetForSyndrome, SoughtSync, Ring.Push, Ring.Cleared, DecodeBlock, FinishBlock;
      var syndrome := CalculateSyndrome(inputRegister);
      var offset := OffsetForSyndrome(syndrome);
      AcquireSync(offset, bitCount, s);
      if isInSync {
        TakeBlock(offset, SoughtSync(s, offset, s.bitCount));
      }
    }

    method Judge(offset: Offset, ghost s: State)
      requires Valid() && Is(s)
      modifies this, recentBlockErrors
      ensures Is(JudgeBlock(s, offset))
    {
      hide Ring.Push;
      totalBlocksSeen := (totalBlocksSeen + 1) % WORD64;
      RecentErrorPush(offset != expectedOffset);
    }

    method ExpectThird(offset: Offset, ghost s: State)
      requires Valid() && Is(s)
      modifies `expectedOffset
      ensures Is(ExpectThirdBlock(s, offset))
    {
      if expectedOffset == C && offset == CPrime {
        expectedOffset := CPrime;
      }
    }

    method DropSync(ghost s: State)
      requires Valid() && Is(s)
      modifies this, recentBlockErrors
      ensures Is(LoseSync(s))
    {
      hide Ring.Cleared;
      isInSync := false;
      syncLostEvent := true;
      RecentErrorClear();
    }

    method TakeBlock(offset: Offset, ghost s: State)
      requires Valid() && Is(s)
      modifies this, recentBlockErrors
      ensures Is(InSyncStep(s, offset))
    {
      hide JudgeBlock, ExpectThirdBlock, LoseSync, DecodeBlock, FinishBlock;
      ghost var ready := ExpectThirdBlock(s, offset);
      ghost var judged := JudgeBlock(ready, offset);
      ExpectThird(offset, s);
      Judge(offset, ready);
      if recentBlockErrorSum > Ring.MAX_ERRORS_TOLERATED {
        DropSync(judged);
      } else {
        Decode(offset, judged);
        Finish(DecodeBlock(judged, offset));
      }
    }

    method ShiftConfidence(confidence: real)
      requires Valid()
      modifies inputConfidenceRegister
      ensures inputConfidenceRegister[..] == old(inputConfidenceRegister[..])[1..] + [confidence]
    {
      for i := 0 to BLOCK_LENGTH - 1
        invariant forall k :: 0 <= k < i ==> inputConfidenceRegister[k] == old(inputConfidenceRegister[k + 1])
        invariant forall k :: i <= k < BLOCK_LENGTH ==> inputConfidenceRegister[k] == old(inputConfidenceRegister[k])
      {
        inputConfidenceRegister[i] := inputConfidenceRegister[i + 1];
      }
      inputConfidenceRegister[BLOCK_LENGTH - 1] := confidence;
    }

    method ShiftBit(bit: bool, confidence: real, ghost s: State)
      requires Valid() && Is(s)
      modifies this, inputConfidenceRegister
      ensures Is(ShiftIn(s, Input(bit, confidence)))
    {
      inputRegister := inputRegister[1..] + [bit];
      ShiftConfidence(confidence);
      bitsUntilNextBlock := (bitsUntilNextBlock + WORD32 - 1) % WORD32;
      bitCount := (bitCount + 1) % WORD32;
    }

    method PushBitWithConfidence(bit: bool, confidence: real)
      requires Valid()
      modifies this, inputConfidenceRegister, recentBlockErrors, syncOffsets, syncPositions
      ensures Value() == PushBit(old(Value()), Input(bit, confidence))
    {
      hide FindBlock, ShiftIn;
      ghost var shifted := ShiftIn(Value(), Input(bit, confidence));
      ShiftBit(bit, confidence, Value());
      if bitsUntilNextBlock == 0 {
        FindBlockInRegister(shifted);
        bitsUntilNextBlock := if isInSync then BLOCK_LENGTH else 1;
      }
    }

    method PopGroup() returns (group: Group)
      requires Valid()
      modifies this
      ensures group == old(readyGroup)
      ensures Value() == old(Value()).(hasGroupReady := false)
    {
      hasGroupReady := false;
      return readyGroup;
    }
  }
}
