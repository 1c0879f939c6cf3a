/** The receiver's objects at work: bits into the block stream, its groups into the parser. */
module RdsReceiver {
  import opened Common
  import opened RdsCode
  import opened RdsBlockStream
  import opened RdsDelivery
  import opened RdsText
  import opened RdsTextDelivery
  import opened Bytes
  import RdsSyncRuns
  import opened RdsAcquisition

  /** No memory of one is memory of the other. */
  ghost predicate Apart(stream: BlockStream, parser: Parser)
  {
    var a: set<object> := {stream, stream.inputConfidenceRegister, stream.recentBlockErrors, stream.syncOffsets,
                           stream.syncPositions};
    var b: set<object> := {parser, parser.radiotext, parser.radiotextSeen, parser.radiotextQuality};
    a !! b
  }

  /** One bit, and the group it may complete. */
  method HearBit(stream: BlockStream, parser: Parser, input: Input)
    requires stream.Valid() && parser.Valid() && Apart(stream, parser)
    modifies stream, stream.inputConfidenceRegister, stream.recentBlockErrors, stream.syncOffsets, stream.syncPositions
    modifies parser, parser.radiotext, parser.radiotextSeen, parser.radiotextQuality
    ensures parser.Valid()
    ensures var pushed := PushBit(old(stream.Value()), input);
      && stream.Value() == pushed.(hasGroupReady := false)
      && parser.Now()
           == if pushed.hasGroupReady then Process(old(parser.Now()), pushed.readyGroup) else old(parser.Now())
  {
    hide PushBit, Process;
    stream.PushBitWithConfidence(input.bit, input.confidence);
    ghost var pushed := stream.Value();
    if stream.hasGroupReady {
      var group := stream.PopGroup();
      var processed, changed := parser.ProcessGroup(group);
    }
  }

  lemma OneGroup(p: TextState, groups: seq<Group>, g: Group)
    ensures Run(p, groups + [g]) == Process(Run(p, groups), g) && Run(p, groups + []) == Run(p, groups)
  {
    hide Process;
    assert (groups + [g])[..|groups|] == groups && groups + [] == groups;
  }

  /** The objects do what the functions say, over any inputs. */
  method Listen(stream: BlockStream, parser: Parser, inputs: seq<Input>)
    requires stream.Valid() && parser.Valid() && Apart(stream, parser)
    modifies stream, stream.inputConfidenceRegister, stream.recentBlockErrors, stream.syncOffsets, stream.syncPositions
    modifies parser, parser.radiotext, parser.radiotextSeen, parser.radiotextQuality
    ensures parser.Valid()
    ensures stream.Value() == Receive(old(stream.Value()), inputs).state
    ensures parser.Now() == Run(old(parser.Now()), Receive(old(stream.Value()), inputs).groups)
  {
    hide PushBit, Process, Receive, Run;
    ghost var s0, p0 := stream.Value(), parser.Now();
    assert inputs[..0] == [];
    NothingReceived(s0);
    NothingProcessed(p0);
    for i := 0 to |inputs|
      invariant parser.Valid()
      invariant stream.Value() == Receive(s0, inputs[..i]).state
      invariant parser.Now() == Run(p0, Receive(s0, inputs[..i]).groups)
    {
      ghost var s := stream.Value();
      OneInput(s, inputs[i]);
      OneGroup(p0, Receive(s0, inputs[..i]).groups, PushBit(s, inputs[i]).readyGroup);
      ReceiveConcat(s0, inputs[..i], [inputs[i]]);
      assert inputs[..i + 1] == inputs[..i] + [inputs[i]];
      HearBit(stream, parser, inputs[i]);
    }
    assert inputs[..|inputs|] == inputs;
  }

  lemma NothingProcessed(p: TextState)
    ensures Run(p, []) == p
  {}

  /** A text on the air, some of its blocks lost: the parser object has it, and has reported it, exactly when all of it
      gets through. */
  method HearText(stream: BlockStream, parser: Parser, inputs: seq<Input>, ghost past: seq<bool>,
                  ghost sent: seq<SentGroup>, ghost t: seq<Byte>, ghost ab: bool)
    requires stream.Valid() && parser.Valid() && Apart(stream, parser)
    requires BetweenGroups(stream.Value(), past) && Endures(inputs, sent) && Tolerable(past, Observed(inputs, |sent|))
    requires WellFormed(t) && SendsNoOther(sent, t, ab) && parser.Now().flag != Some(ab)
    modifies stream, stream.inputConfidenceRegister, stream.recentBlockErrors, stream.syncOffsets, stream.syncPositions
    modifies parser, parser.radiotext, parser.radiotextSeen, parser.radiotextQuality
    ensures parser.Valid()
    ensures parser.Now().flag == Some(ab) && IsComplete(parser.CellsNow())
       <==> TextArrives(Outcomes(inputs, |sent|), sent, t, ab) && ShowsSomething(TextSent(t))
    ensures parser.Now().flag == Some(ab) && IsComplete(parser.CellsNow())
        ==> UpToZero(Kept(parser.CellsNow())) == TextSent(t) == parser.lastReportedRadiotext
    ensures forall text :: IsPlain(text) && t == Padded(text) ==> TextSent(t) == text
  {
    hide BetweenGroups, RightOrLost, Tolerable, Observed, Receive, Run, IsComplete, ShowsSomething, TextSent,
      WellFormed, SendsNoOther, Kept, UpToZero, TextArrives;
    TextDespiteLosses(stream.Value(), past, sent, inputs, parser.Now(), t, ab);
    forall text | IsPlain(text) && t == Padded(text)
      ensures TextSent(t) == text
    {
      PlainTextIsSent(text);
    }
    Listen(stream, parser, inputs);
  }

  /**
   * A receiver that acquires synchronisation in the middle of a group, in whatever run: what is left of that group does
   * no harm, and from the next one on it has the text exactly when all of it arrives.
   */
  lemma TextAfterAcquisition(actions: seq<RdsSyncRuns.Action>, input: Input, s: State, n: nat, lead: seq<Input>,
                             sent: seq<SentGroup>, inputs: seq<Input>, parser: TextState, t: seq<Byte>, ab: bool)
    requires AcquiredIn(actions, input, s) && n == BlockNumber(s.expected) && n != 1 && CompletesGroup(lead, n)
    requires Endures(inputs, sent) && Tolerable([false], LeadVerdicts(lead, n) + Observed(inputs, |sent|))
    requires WellFormed(t) && SendsNoOther(sent, t, ab) && parser.flag != Some(ab)
    ensures var r := Run(parser, Receive(s, lead + inputs).groups);
      && (r.flag == Some(ab) && IsComplete(r.cells)
          <==> TextArrives(Outcomes(inputs, |sent|), sent, t, ab) && ShowsSomething(TextSent(t)))
      && (r.flag == Some(ab) && IsComplete(r.cells) ==> UpToZero(Kept(r.cells)) == TextSent(t) == r.reported)
  {
    hide AcquiredIn, BetweenGroups, RightOrLost, Tolerable, Observed, LeadVerdicts, WellFormed, SendsNoOther, Receive,
      Run, IsComplete, Kept, UpToZero, TextSent, ShowsSomething, AllSpared, GroupOutcome, TextArrives;
    DeliveryAfterAcquisition(actions, input, s, n, lead, inputs, |sent|);
    var groups, rest := Receive(s, lead + inputs).groups, Outcomes(inputs, |sent|);
    var partial := groups[..|groups| - |sent|];
    assert groups == partial + rest;
    RunConcat(parser, partial, rest);
    NothingUnderstood(parser, partial);
    OutcomesAreSpared(inputs, sent);
    SparedTextIsReported(parser, rest, sent, t, ab);
  }

  lemma NothingUnderstood(parser: TextState, groups: seq<Group>)
    requires |groups| <= 1 && forall k :: 0 <= k < |groups| ==> groups[k][0] == EmptyBlock()
    ensures Run(parser, groups) == parser
  {}
}
