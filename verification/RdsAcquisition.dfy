/** From acquiring synchronisation to delivering groups: what every run keeps, and what comes after an acquisition. */
module RdsAcquisition {
  import opened Common
  import opened RdsCode
  import opened RdsSoft
  import opened RdsBlockStream
  import opened RdsSyncRuns
  import Delivery = RdsDelivery
  import Ring = RdsErrorRing

  // ---------------------------------------------------------------- the group being assembled

  /** In synchronisation nothing is stored yet of the block awaited and those after it. */
  predicate RestIsEmpty(s: State)
  {
    && s.expected != Invalid
    && forall i :: BlockNumber(s.expected) <= i < 4 ==> s.currentGroup[i] == EmptyBlock()
  }

  predicate Tidy(s: State) { s.isInSync ==> RestIsEmpty(s) && s.expected != CPrime }

  lemma DecodeKeepsOthers(s: State, offset: Offset)
    requires s.expected != Invalid
    ensures var d := DecodeBlock(s, offset);
      && d.expected == s.expected && d.isInSync == s.isInSync
      && forall i :: 0 <= i < 4 && i != BlockNumber(s.expected) ==> d.currentGroup[i] == s.currentGroup[i]
  {
    hide Correct, StoredBlock;
  }

  lemma FinishIsTidy(s: State)
    requires s.expected != Invalid && forall i :: BlockNumber(s.expected) < i < 4 ==> s.currentGroup[i] == EmptyBlock()
    ensures Tidy(FinishBlock(s)) && FinishBlock(s).expected == NextOffset(s.expected)
    ensures FinishBlock(s).isInSync == s.isInSync
    ensures s.currentGroup[0] == EmptyBlock() ==> FinishBlock(s).currentGroup[0] == EmptyBlock()
  {}

  lemma StepIsTidy(s: State, offset: Offset)
    requires s.isInSync && RestIsEmpty(s)
    ensures Tidy(InSyncStep(s, offset))
    ensures InSyncStep(s, offset).isInSync ==>
      InSyncStep(s, offset).expected == NextOffset(ExpectThirdBlock(s, offset).expected)
    ensures s.expected != A && s.currentGroup[0] == EmptyBlock() ==>
      InSyncStep(s, offset).currentGroup[0] == EmptyBlock()
  {
    hide DecodeBlock, FinishBlock, Ring.Push, Ring.Cleared, Tidy, NextOffset;
    var judged := JudgeBlock(ExpectThirdBlock(s, offset), offset);
    assert RestIsEmpty(judged);
    if judged.ring.sum > Ring.MAX_ERRORS_TOLERATED {
      OutOfSyncIsTidy(LoseSync(judged));
    } else {
      DecodeKeepsOthers(judged, offset);
      FinishIsTidy(DecodeBlock(judged, offset));
    }
  }

  lemma OutOfSyncIsTidy(s: State)
    requires !s.isInSync
    ensures Tidy(s)
  {}

  /** The bit that acquires synchronisation is the last of a block, and the next one is awaited. */
  lemma Acquired(s: State, input: Input)
    requires !s.isInSync && s.bitsUntilNextBlock == 1 && PushBit(s, input).isInSync
    ensures var t, offset := PushBit(s, input), OffsetOf(ShiftIn(s, input).register);
      && Tidy(t) && offset != Invalid && t.expected == NextOffset(offset) && t.bitsUntilNextBlock == BLOCK_LENGTH
      && Ring.Describes(t.ring, [false]) && t.bitCount < WORD32
      && (t.expected != B ==> t.currentGroup[0] == EmptyBlock())
  {
    hide OffsetOf, SequenceFound, Record, InSyncStep, Tidy, Ring.Describes;
    var shifted := ShiftIn(s, input);
    var offset := OffsetOf(shifted.register);
    SeekingStep(s, input);
    var sought := SoughtSync(shifted, offset, shifted.bitCount);
    assert sought == EnterSync(shifted.(history := Record(s.history, offset, shifted.bitCount)), offset);
    StepIsTidy(sought, offset);
    TidyFrame(InSyncStep(sought, offset), BLOCK_LENGTH);
  }

  lemma TidyFrame(s: State, n: nat)
    ensures Tidy(s) == Tidy(s.(bitsUntilNextBlock := n)) == Tidy(s.(hasGroupReady := false))
  {}

  lemma PushKeepsTidy(r: Run, input: Input)
    requires Consistent(r) && Tidy(r.state)
    ensures Tidy(PushBit(r.state, input))
  {
    hide OffsetOf, Window, ConfidenceWindow, Remembers, PulsesAreBlocks, InSyncStep, PushBit, Ring.Describes,
      Ring.Errors, Ring.Recent;
    var s := r.state;
    if s.isInSync {
      HoldingStep(s, input);
      if s.bitsUntilNextBlock == 1 {
        var shifted := ShiftIn(s, input);
        StepIsTidy(shifted, OffsetOf(shifted.register));
      }
    } else if PushBit(s, input).isInSync {
      Acquired(s, input);
    }
  }

  lemma {:induction false} RunsAreTidy(actions: seq<Action>)
    ensures Tidy(RunOf(actions).state)
  {
    hide Consistent, PushBit, Observe;
    if actions != [] {
      var before, a := RunOf(actions[..|actions| - 1]), actions[|actions| - 1];
      RunsAreTidy(actions[..|actions| - 1]);
      RunsAreConsistent(actions[..|actions| - 1]);
      if a.Bit? { PushKeepsTidy(before, a.input); }
    }
  }

  /** In any run, whenever the stream is in synchronisation with a whole first block to come, it is between groups. */
  lemma BoundariesOfRuns(actions: seq<Action>)
    requires var s := RunOf(actions).state; Delivery.Aligned(s) && s.expected == A
    ensures Delivery.BetweenGroups(RunOf(actions).state, RunOf(actions).log.verdicts)
  {
    hide Window, ConfidenceWindow, Remembers, PulsesAreBlocks;
    RunsAreConsistent(actions);
    RunsAreTidy(actions);
    var g := RunOf(actions).state.currentGroup;
    assert g == EmptyGroup();
  }

  // ---------------------------------------------------------------- after an acquisition

  /** The blocks of a group before block n, which nobody has seen. */
  function Unseen(n: nat): (x: seq<Input>)
    ensures |x| == n * BLOCK_LENGTH
  {
    seq(n * BLOCK_LENGTH, i => Input(false, 0.0))
  }

  /** The inputs still to come of a group of which block n is awaited. */
  predicate CompletesGroup(lead: seq<Input>, n: nat)
  {
    n < 4 && |lead| == if n == 0 then 0 else (4 - n) * BLOCK_LENGTH
  }

  /** The verdicts on those. */
  function LeadVerdicts(lead: seq<Input>, n: nat): seq<bool>
    requires CompletesGroup(lead, n)
  {
    if n == 0 then [] else Delivery.VerdictsFrom(Unseen(n) + lead, n)
  }

  lemma FinishFirstGroup(t: State, lead: seq<Input>, n: nat, past: seq<bool>)
    requires Delivery.Aligned(t) && Tidy(t) && t.bitCount < WORD32 && Ring.Describes(t.ring, past)
    requires n == BlockNumber(t.expected) && CompletesGroup(lead, n)
    requires Delivery.Tolerable(past, LeadVerdicts(lead, n))
    ensures var r := Delivery.Receive(t, lead);
      && |r.groups| == (if n == 0 then 0 else 1) && Delivery.BetweenGroups(r.state, past + LeadVerdicts(lead, n))
      && (n > 0 ==> r.groups[0][0] == t.currentGroup[0])
  {
    hide Delivery.Receive, Delivery.OutcomeAt, Delivery.ObservedInGroup, Delivery.WordOf, Delivery.Tolerable,
      Ring.Describes;
    if n == 0 {
      Delivery.NothingReceived(t);
      assert t.currentGroup == EmptyGroup() && past + [] == past;
    } else {
      var x := Unseen(n) + lead;
      assert Delivery.From(x, n) == lead;
      var g := t.currentGroup;
      assert Delivery.GroupSoFar(g, x, n, n) == g;
      assert t.expected == Delivery.Expected(n);
      Delivery.TakeBlocksOfGroup(t, g, x, n, n, past);
    }
  }

  /** In this run that bit acquires synchronisation, and t is the state when any group it completes has been taken. */
  predicate AcquiredIn(actions: seq<Action>, input: Input, t: State)
  {
    var before, after := RunOf(actions).state, PushBit(RunOf(actions).state, input);
    !before.isInSync && after.isInSync && t == after.(hasGroupReady := false)
  }

  lemma AcquiredState(actions: seq<Action>, input: Input, t: State)
    requires AcquiredIn(actions, input, t)
    ensures Delivery.Aligned(t) && Tidy(t) && t.bitCount < WORD32 && Ring.Describes(t.ring, [false])
    ensures t.expected != B ==> t.currentGroup[0] == EmptyBlock()
  {
    hide PushBit, Consistent, Tidy, OffsetOf, Ring.Describes, RunOf;
    RunsAreConsistent(actions);
    OutOfSyncWaits(RunOf(actions));
    Acquired(RunOf(actions).state, input);
    TidyFrame(PushBit(RunOf(actions).state, input), BLOCK_LENGTH);
  }

  /**
   * Wherever in a group synchronisation is acquired, in whatever run: once the rest of that group has passed, every
   * group delivered is exactly what its words make of it. A group begun in the middle has no first block.
   */
  lemma DeliveryAfterAcquisition(actions: seq<Action>, input: Input, t: State, n: nat, lead: seq<Input>,
                                 inputs: seq<Input>, count: nat)
    requires AcquiredIn(actions, input, t) && n == BlockNumber(t.expected) && CompletesGroup(lead, n)
    requires |inputs| == count * Delivery.GROUP_LENGTH
    requires Delivery.Tolerable([false], LeadVerdicts(lead, n) + Delivery.Observed(inputs, count))
    ensures var r := Delivery.Receive(t, lead + inputs);
      && |r.groups| == (if n == 0 then 0 else 1) + count
      && (n > 1 ==> r.groups[0][0] == EmptyBlock())
      && Delivery.ComeOut(r.groups[if n == 0 then 0 else 1..], inputs, count)
      && Delivery.BetweenGroups(r.state, [false] + (LeadVerdicts(lead, n) + Delivery.Observed(inputs, count)))
  {
    hide AcquiredIn, Tidy, Delivery.Aligned, Delivery.Receive, Delivery.GroupOutcome, Delivery.Observed,
      Delivery.Tolerable, LeadVerdicts, Ring.Describes, Delivery.BetweenGroups;
    AcquiredState(actions, input, t);
    var a, b := LeadVerdicts(lead, n), Delivery.Observed(inputs, count);
    Delivery.TolerableHead([false], a, b);
    FinishFirstGroup(t, lead, n, [false]);
    Delivery.TolerableTail([false], a + b, |a|);
    assert (a + b)[..|a|] == a && (a + b)[|a|..] == b && [false] + a + b == [false] + (a + b);
    var first, rest := Delivery.Receive(t, lead), Delivery.Receive(Delivery.Receive(t, lead).state, inputs);
    Delivery.ReceptionIsDetermined(first.state, [false] + a, inputs, count);
    Delivery.ReceiveConcat(t, lead, inputs);
    assert (first.groups + rest.groups)[|first.groups|..] == rest.groups;
  }

  lemma OutOfSyncWaits(r: Run)
    requires Consistent(r) && !r.state.isInSync
    ensures r.state.bitsUntilNextBlock == 1
  {}
}
