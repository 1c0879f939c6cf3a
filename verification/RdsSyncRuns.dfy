/** Whole runs of the block stream: when synchronisation is acquired and when it is lost. */
module RdsSyncRuns {
  import opened Common
  import opened RdsCode
  import opened RdsSoft
  import opened RdsBlockStream
  import Ring = RdsErrorRing

  /** What a caller may do to the stream. */
  datatype Action = Bit(input: Input) | PopGroup | ConsumeSyncAcquired | ConsumeSyncLost

  function Apply(s: State, a: Action): State
  {
    match a
    case Bit(input) => PushBit(s, input)
    case PopGroup => s.(hasGroupReady := false)
    case ConsumeSyncAcquired => s.(syncAcquired := false)
    case ConsumeSyncLost => s.(syncLost := false)
  }

  /** A bit position, counted from one, at which a block with a known offset ended while out of synchronisation. */
  datatype Pulse = Pulse(offset: Offset, position: nat)

  /** What an observer writes down: every bit and its confidence, the pulses, and the verdicts on blocks since the
      last acquisition (true where the offset was not the expected one). */
  datatype Log = Log(bits: seq<bool>, confidences: seq<real>, pulses: seq<Pulse>, verdicts: seq<bool>)

  /** The 26 newest bits; before there are so many, the register's initial zeros. */
  function Window(bits: seq<bool>): Word
  {
    (seq(BLOCK_LENGTH, i => false) + bits)[|bits|..]
  }

  /** The 26 newest confidences. */
  function ConfidenceWindow(confidences: seq<real>): Confidences
  {
    (seq(BLOCK_LENGTH, i => 0.0) + confidences)[|confidences|..]
  }

  function Verdict(s: State, offset: Offset): bool { offset != ExpectThirdBlock(s, offset).expected }

  function Observe(log: Log, s: State, a: Action): Log
  {
    if !a.Bit? then log
    else
      var bits, confidences := log.bits + [a.input.bit], log.confidences + [a.input.confidence];
      var offset := OffsetOf(Window(bits));
      if s.isInSync then
        if s.bitsUntilNextBlock == 1
        then log.(bits := bits, confidences := confidences, verdicts := log.verdicts + [Verdict(s, offset)])
        else log.(bits := bits, confidences := confidences)
      else
        Log(bits, confidences, if offset == Invalid then log.pulses else log.pulses + [Pulse(offset, |bits|)], [false])
  }

  datatype Run = Run(state: State, log: Log)

  function RunOf(actions: seq<Action>): Run
  {
    if actions == [] then Run(InitialState(), Log([], [], [], []))
    else
      var before := RunOf(actions[..|actions| - 1]);
      var a := actions[|actions| - 1];
      Run(Apply(before.state, a), Observe(before.log, before.state, a))
  }

  // ---------------------------------------------------------------- the invariant

  /** The eight slots hold the newest eight pulses, older slots first. */
  predicate Remembers(h: History, pulses: seq<Pulse>)
  {
    forall k :: 0 <= k < 8 ==>
      var i := |pulses| - 8 + k;
      if i < 0 then h.offsets[k] == Invalid
      else h.offsets[k] == pulses[i].offset && h.positions[k] == pulses[i].position % WORD32
  }

  predicate PulsesAreBlocks(bits: seq<bool>, pulses: seq<Pulse>)
  {
    && (forall i :: 0 <= i < |pulses| ==>
          && 1 <= pulses[i].position <= |bits|
          && pulses[i].offset != Invalid
          && pulses[i].offset == OffsetOf(Window(bits[..pulses[i].position])))
    && forall i, j :: 0 <= i < j < |pulses| ==> pulses[i].position < pulses[j].position
  }

  predicate Consistent(r: Run)
  {
    var s, log := r.state, r.log;
    && s.register == Window(log.bits) && s.conf == ConfidenceWindow(log.confidences)
    && |log.confidences| == |log.bits|
    && s.bitCount == |log.bits| % WORD32
    && (if s.isInSync then 1 <= s.bitsUntilNextBlock <= BLOCK_LENGTH else s.bitsUntilNextBlock == 1)
    && Remembers(s.history, log.pulses)
    && PulsesAreBlocks(log.bits, log.pulses)
    && (s.isInSync ==> Ring.Describes(s.ring, log.verdicts)
                       && Ring.Errors(Ring.Recent(log.verdicts)) <= Ring.MAX_ERRORS_TOLERATED)
  }

  lemma WindowStep(bits: seq<bool>, b: bool)
    ensures Window(bits + [b]) == Window(bits)[1..] + [b]
  {}

  lemma ConfidenceWindowStep(confidences: seq<real>, c: real)
    ensures ConfidenceWindow(confidences + [c]) == ConfidenceWindow(confidences)[1..] + [c]
  {}

  lemma RecordRemembers(h: History, pulses: seq<Pulse>, p: Pulse)
    requires Remembers(h, pulses)
    ensures Remembers(Record(h, p.offset, p.position % WORD32), pulses + [p])
  {
    forall k | 0 <= k < 8
      ensures var i := |pulses + [p]| - 8 + k;
        var g := Record(h, p.offset, p.position % WORD32);
        if i < 0 then g.offsets[k] == Invalid
        else g.offsets[k] == (pulses + [p])[i].offset && g.positions[k] == (pulses + [p])[i].position % WORD32
    {
      if k < 7 {
        assert Record(h, p.offset, p.position % WORD32).offsets[k] == h.offsets[k + 1];
      }
    }
  }

  lemma PulsesStayBlocks(bits: seq<bool>, pulses: seq<Pulse>, b: bool)
    requires PulsesAreBlocks(bits, pulses)
    ensures PulsesAreBlocks(bits + [b], pulses)
    ensures var offset := OffsetOf(Window(bits + [b]));
      offset != Invalid ==> PulsesAreBlocks(bits + [b], pulses + [Pulse(offset, |bits| + 1)])
  {
    hide OffsetOf, Window;
    var more := bits + [b];
    assert more[..|more|] == more;
    forall i | 0 <= i < |pulses|
      ensures more[..pulses[i].position] == bits[..pulses[i].position]
    {}
  }

  /** The two ways a step in synchronisation can end. */
  lemma InSyncOutcome(s: State, offset: Offset, verdicts: seq<bool>)
    requires Ring.Describes(s.ring, verdicts)
    ensures var next, v := InSyncStep(s, offset), Verdict(s, offset);
      && next.register == s.register && next.conf == s.conf && next.bitCount == s.bitCount && next.history == s.history
      && (next.isInSync <==> s.isInSync && Ring.Errors(Ring.Recent(verdicts + [v])) <= Ring.MAX_ERRORS_TOLERATED)
      && (next.isInSync ==> Ring.Describes(next.ring, verdicts + [v]))
      && (s.isInSync && !next.isInSync ==> next.syncLost)
  {
    hide Correct, StoreBlock, Ring.Push, Ring.Recent, Ring.Errors, Ring.Cleared;
    Ring.PushDescribes(s.ring, verdicts, Verdict(s, offset));
  }

  lemma FirstVerdict()
    ensures Ring.Describes(Ring.Cleared(), []) && Ring.Errors(Ring.Recent([] + [false])) == 0
  {
    Ring.ClearedDescribes();
    assert [false][..0] == [];
  }

  predicate Acquires(s: State, offset: Offset, bitPosition: nat)
  {
    !s.isInSync && offset != Invalid && SequenceFound(Record(s.history, offset, bitPosition))
  }

  /** What a step does while out of synchronisation. */
  lemma SeekingStep(s: State, input: Input)
    requires !s.isInSync && s.bitsUntilNextBlock == 1
    ensures var shifted := ShiftIn(s, input);
      var offset := OffsetOf(shifted.register);
      var next := PushBit(s, input);
      && next.register == shifted.register && next.conf == shifted.conf && next.bitCount == shifted.bitCount
      && next.history == (if offset == Invalid then s.history else Record(s.history, offset, shifted.bitCount))
      && (next.isInSync <==> Acquires(s, offset, shifted.bitCount))
      && next.bitsUntilNextBlock == (if next.isInSync then BLOCK_LENGTH else 1)
      && (next.isInSync ==> next.syncAcquired && Ring.Describes(next.ring, [false]))
  {
    hide OffsetOf, SequenceFound, Record, Correct, StoreBlock, InSyncStep;
    var shifted := ShiftIn(s, input);
    var offset := OffsetOf(shifted.register);
    var sought := SoughtSync(shifted, offset, shifted.bitCount);
    FirstVerdict();
    if sought.isInSync {
      InSyncOutcome(sought, offset, []);
      EventKept(sought, offset);
      assert [] + [false] == [false];
    }
  }

  lemma EventKept(s: State, offset: Offset)
    ensures InSyncStep(s, offset).syncAcquired == s.syncAcquired
  {
    hide Correct, StoreBlock, Ring.Push, Ring.Cleared;
  }

  /** What a step does in synchronisation. */
  lemma HoldingStep(s: State, input: Input)
    requires s.isInSync && 1 <= s.bitsUntilNextBlock <= BLOCK_LENGTH
    ensures var shifted := ShiftIn(s, input);
      var next := PushBit(s, input);
      if s.bitsUntilNextBlock > 1 then next == shifted && shifted.bitsUntilNextBlock == s.bitsUntilNextBlock - 1
      else
        var taken := InSyncStep(shifted, OffsetOf(shifted.register));
        next == taken.(bitsUntilNextBlock := if taken.isInSync then BLOCK_LENGTH else 1)
  {
    hide OffsetOf, InSyncStep;
    var shifted := ShiftIn(s, input);
    assert s.bitsUntilNextBlock == 1 ==> FindBlock(shifted) == InSyncStep(shifted, OffsetOf(shifted.register));
  }

  lemma BitKeepsConsistent(r: Run, input: Input)
    requires Consistent(r)
    ensures Consistent(Run(PushBit(r.state, input), Observe(r.log, r.state, Bit(input))))
  {
    hide OffsetOf, Window, ConfidenceWindow, Remembers, PulsesAreBlocks, InSyncStep, PushBit, Record, SequenceFound,
      Ring.Describes, Ring.Errors, Ring.Recent;
    var s, log := r.state, r.log;
    var bits := log.bits + [input.bit];
    var shifted := ShiftIn(s, input);
    WindowStep(log.bits, input.bit);
    ConfidenceWindowStep(log.confidences, input.confidence);
    PulsesStayBlocks(log.bits, log.pulses, input.bit);
    assert shifted.register == Window(bits);
    assert shifted.bitCount == |bits| % WORD32;
    if s.isInSync {
      HoldingStep(s, input);
      if s.bitsUntilNextBlock == 1 {
        InSyncOutcome(shifted, OffsetOf(shifted.register), log.verdicts);
      }
    } else {
      SeekingStep(s, input);
      RecordRemembers(s.history, log.pulses, Pulse(OffsetOf(shifted.register), |bits|));
      FirstVerdict();
      assert [] + [false] == [false];
    }
  }

  /** In every run the register, the pulse history and the error ring say what the observer wrote down. */
  lemma {:induction false} RunsAreConsistent(actions: seq<Action>)
    ensures Consistent(RunOf(actions))
  {
    hide Consistent, PushBit, Observe;
    if actions == [] {
      InitialIsConsistent();
    } else {
      var before, a := RunOf(actions[..|actions| - 1]), actions[|actions| - 1];
      RunsAreConsistent(actions[..|actions| - 1]);
      match a
      case Bit(input) => BitKeepsConsistent(before, input);
      case _ => CallerKeepsConsistent(before, a);
    }
  }

  /** In every run index i of both registers belongs to the same input: the bit 25 - i places back and its
      confidence. */
  lemma RegistersAreAligned(actions: seq<Action>, i: nat)
    requires i < BLOCK_LENGTH && BLOCK_LENGTH <= |RunOf(actions).log.bits| + i
    ensures var s, log := RunOf(actions).state, RunOf(actions).log;
      var at := |log.bits| + i - BLOCK_LENGTH;
      |log.confidences| == |log.bits| && s.register[i] == log.bits[at] && s.conf[i] == log.confidences[at]
  {
    hide Consistent, Window, ConfidenceWindow;
    var r := RunOf(actions);
    RunsAreConsistent(actions);
    RegistersAreWindows(r);
    WindowsAt(r.log.bits, r.log.confidences, i);
  }

  lemma RegistersAreWindows(r: Run)
    requires Consistent(r)
    ensures r.state.register == Window(r.log.bits) && r.state.conf == ConfidenceWindow(r.log.confidences)
    ensures |r.log.confidences| == |r.log.bits|
  {
    hide Window, ConfidenceWindow, Remembers, PulsesAreBlocks, Ring.Describes;
  }

  lemma WindowsAt(bits: seq<bool>, confidences: seq<real>, i: nat)
    requires |bits| == |confidences| && i < BLOCK_LENGTH <= |bits| + i
    ensures Window(bits)[i] == bits[|bits| + i - BLOCK_LENGTH]
    ensures ConfidenceWindow(confidences)[i] == confidences[|bits| + i - BLOCK_LENGTH]
  {}

  lemma InitialIsConsistent()
    ensures Consistent(Run(InitialState(), Log([], [], [], [])))
  {}

  lemma CallerKeepsConsistent(r: Run, a: Action)
    requires Consistent(r) && !a.Bit?
    ensures Consistent(Run(Apply(r.state, a), Observe(r.log, r.state, a)))
  {
    hide Window, Remembers, PulsesAreBlocks;
  }

  // ---------------------------------------------------------------- losing synchronisation

  /** In synchronisation the ring's sum is the number of mismatched blocks among the newest fifty since the
      acquisition, and it is at most 35. */
  lemma RingSumCountsMismatches(actions: seq<Action>)
    requires RunOf(actions).state.isInSync
    ensures var s, log := RunOf(actions).state, RunOf(actions).log;
      s.ring.sum == Ring.Errors(Ring.Recent(log.verdicts)) <= Ring.MAX_ERRORS_TOLERATED
  {
    RunsAreConsistent(actions);
  }

  /** Synchronisation is lost by a bit exactly when that bit completes a block whose verdict takes the number
      of mismatches among the newest fifty above 35. */
  lemma SyncIsLostExactlyAbove35(actions: seq<Action>, input: Input)
    requires RunOf(actions).state.isInSync
    ensures var s, log := RunOf(actions).state, RunOf(actions).log;
      var offset := OffsetOf(Window(log.bits + [input.bit]));
      !PushBit(s, input).isInSync <==>
        s.bitsUntilNextBlock == 1
        && Ring.Errors(Ring.Recent(log.verdicts + [Verdict(s, offset)])) > Ring.MAX_ERRORS_TOLERATED
  {
    hide OffsetOf, Window, Remembers, PulsesAreBlocks, InSyncStep, PushBit, Ring.Describes, Ring.Errors, Ring.Recent;
    RunsAreConsistent(actions);
    var s, log := RunOf(actions).state, RunOf(actions).log;
    var shifted := ShiftIn(s, input);
    WindowStep(log.bits, input.bit);
    HoldingStep(s, input);
    if s.bitsUntilNextBlock == 1 {
      InSyncOutcome(shifted, OffsetOf(shifted.register), log.verdicts);
    }
  }

  // ---------------------------------------------------------------- acquiring synchronisation

  /** p comes one to six whole blocks after q, and their offsets agree with that distance. */
  predicate Follows(p: Pulse, q: Pulse)
  {
    var distance := p.position - q.position;
    && distance % BLOCK_LENGTH == 0 && 1 <= distance / BLOCK_LENGTH <= 6
    && (BlockNumber(q.offset) + distance / BLOCK_LENGTH) % 4 == BlockNumber(p.offset)
  }

  lemma CouldFollowIff(p: Pulse, q: Pulse)
    requires p.offset != Invalid && q.offset != Invalid
    requires q.position < p.position < WORD32
    ensures CouldFollow(p.offset, p.position, q.offset, q.position) <==> Follows(p, q)
  {
    hide BlockNumber;
    var d := p.position - q.position;
    assert d % WORD32 == d;
  }

  /** The pulses a new one can complete a sequence with: the seven recorded before it. */
  predicate Completes(p: Pulse, pulses: seq<Pulse>)
  {
    exists i, j :: 0 <= i < j < |pulses| && |pulses| - 7 <= i && Follows(p, pulses[j]) && Follows(pulses[j], pulses[i])
  }

  lemma SlotOfPulse(h: History, pulses: seq<Pulse>, p: Pulse, k: nat)
    requires Remembers(h, pulses) && k < 8
    requires p.position < WORD32 && forall i :: 0 <= i < |pulses| ==> pulses[i].position < WORD32
    ensures var g := Record(h, p.offset, p.position);
      var i := |pulses| - 7 + k;
      if i < 0 then g.offsets[k] == Invalid
      else g.offsets[k] == (pulses + [p])[i].offset && g.positions[k] == (pulses + [p])[i].position
  {
    RecordRemembers(h, pulses, p);
  }

  lemma ChainIffFollows(h: History, pulses: seq<Pulse>, p: Pulse, first: nat, second: nat)
    requires Remembers(h, pulses) && first < second < 7
    requires p.offset != Invalid && forall i :: 0 <= i < |pulses| ==> pulses[i].offset != Invalid
    requires p.position < WORD32 && forall i :: 0 <= i < |pulses| ==> pulses[i].position < p.position
    requires forall i, j :: 0 <= i < j < |pulses| ==> pulses[i].position < pulses[j].position
    ensures var i, j := |pulses| - 7 + first, |pulses| - 7 + second;
      Chain(Record(h, p.offset, p.position), first, second)
      <==> 0 <= i && Follows(p, pulses[j]) && Follows(pulses[j], pulses[i])
  {
    hide Record, Remembers, Follows, CouldFollow;
    var i, j := |pulses| - 7 + first, |pulses| - 7 + second;
    SlotOfPulse(h, pulses, p, 7);
    SlotOfPulse(h, pulses, p, second);
    SlotOfPulse(h, pulses, p, first);
    if j >= 0 {
      CouldFollowIff(p, pulses[j]);
      if i >= 0 {
        CouldFollowIff(pulses[j], pulses[i]);
      } else {
        InvalidFollowsNothing(pulses[j].offset, pulses[j].position, Record(h, p.offset, p.position).positions[first]);
      }
    } else {
      InvalidFollowsNothing(p.offset, p.position, Record(h, p.offset, p.position).positions[second]);
    }
  }

  lemma InvalidFollowsNothing(offset: Offset, position: nat, other: nat)
    ensures !CouldFollow(offset, position, Invalid, other)
  {}

  lemma SequenceFoundIff(h: History, pulses: seq<Pulse>, p: Pulse)
    requires Remembers(h, pulses)
    requires p.offset != Invalid && forall i :: 0 <= i < |pulses| ==> pulses[i].offset != Invalid
    requires p.position < WORD32 && forall i :: 0 <= i < |pulses| ==> pulses[i].position < p.position
    requires forall i, j :: 0 <= i < j < |pulses| ==> pulses[i].position < pulses[j].position
    ensures SequenceFound(Record(h, p.offset, p.position)) <==> Completes(p, pulses)
  {
    hide Record, Remembers, Follows, Chain;
    var g := Record(h, p.offset, p.position);
    if SequenceFound(g) {
      var first, second :| 0 <= first < second < 7 && Chain(g, first, second);
      ChainIffFollows(h, pulses, p, first, second);
    }
    if Completes(p, pulses) {
      var i, j :| 0 <= i < j < |pulses| && |pulses| - 7 <= i && Follows(p, pulses[j]) && Follows(pulses[j], pulses[i]);
      ChainIffFollows(h, pulses, p, i - (|pulses| - 7), j - (|pulses| - 7));
      assert Chain(g, i - (|pulses| - 7), j - (|pulses| - 7));
    }
  }

  /** Synchronisation is acquired exactly by a pulse that completes three in block order, the first of them no more
      than seven pulses back (so at most five others lie between the first and the third). */
  lemma SyncIsAcquiredExactlyByThreePulses(actions: seq<Action>, input: Input)
    requires !RunOf(actions).state.isInSync
    requires |RunOf(actions).log.bits| + 1 < WORD32
    ensures var s, log := RunOf(actions).state, RunOf(actions).log;
      var p := Pulse(OffsetOf(Window(log.bits + [input.bit])), |log.bits| + 1);
      && (PushBit(s, input).isInSync <==> p.offset != Invalid && Completes(p, log.pulses))
      && PulsesAreBlocks(log.bits, log.pulses)
  {
    hide OffsetOf, Window, InSyncStep, PushBit, Remembers, Record, SequenceFound, Completes;
    RunsAreConsistent(actions);
    var s, log := RunOf(actions).state, RunOf(actions).log;
    var p := Pulse(OffsetOf(Window(log.bits + [input.bit])), |log.bits| + 1);
    WindowStep(log.bits, input.bit);
    SeekingStep(s, input);
    if p.offset != Invalid {
      SequenceFoundIff(s.history, log.pulses, p);
    }
  }
}
