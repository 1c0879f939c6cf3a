/** The title in the stream: from a text on the air to what a listener reads between its samples. */
module StreamTitle {
  import opened Common
  import opened Bytes
  import opened RdsBlockStream
  import opened RdsText
  import opened RdsDelivery
  import opened RdsTextDelivery
  import RdsReceiver
  import Icy

  /** No memory of the parser is memory of the interleaver. */
  ghost predicate Apart(parser: Parser, icy: Icy.Metadata) { icy.metadataBlock != parser.radiotext }

  /** What the interleaver announces of a text. */
  function TitleOf(text: seq<Byte>): seq<Byte> { Icy.CopiedText(text, Icy.TITLE_MAX_LENGTH + 1) }

  /** Hands the parser's text to the interleaver. */
  method RefreshMetadata(parser: Parser, icy: Icy.Metadata) returns (ok: bool)
    requires parser.Valid() && icy.Valid() && Apart(parser, icy)
    modifies icy, icy.metadataBlock
    ensures icy.Valid() && parser.Valid() && parser.Now() == old(parser.Now()) && icy.enabled == old(icy.enabled)
    ensures icy.enabled ==> var text, complete := UpToZero(Kept(parser.CellsNow())), IsComplete(parser.CellsNow());
      && icy.stableTitle == (if complete && text != [] && TitleOf(text) != [] then TitleOf(text)
                             else old(icy.stableTitle))
      && var title := if complete && text != [] then TitleOf(text) else old(icy.stableTitle);
         (ok <==> |title| < 225)
         && (ok ==> icy.metadataLength <= Icy.BLOCK_CAPACITY && icy.Block() == Icy.BlockOf(title))
  {
    hide IsComplete, Kept, UpToZero, Icy.CopiedText, Icy.BlockOf, Icy.IsTitle;
    if !icy.enabled {
      return true;
    }
    var complete := parser.RadiotextIsComplete();
    var text := parser.RadiotextString();
    ok := icy.Update(text, complete);
  }

  /** A text on the air that gets through is what the metadata block announces. */
  method AnnounceTextOnAir(stream: BlockStream, parser: Parser, icy: Icy.Metadata, inputs: seq<Input>,
                           ghost past: seq<bool>, ghost sent: seq<SentGroup>, ghost t: seq<Byte>, ghost ab: bool)
      returns (ok: bool)
    requires stream.Valid() && parser.Valid() && RdsReceiver.Apart(stream, parser)
    requires icy.Valid() && icy.enabled && Apart(parser, icy)
    requires BetweenGroups(stream.Value(), past) && Endures(inputs, sent) && Tolerable(past, Observed(inputs, |sent|))
    requires WellFormed(t) && SendsNoOther(sent, t, ab) && parser.Now().flag != Some(ab)
    requires TextArrives(Outcomes(inputs, |sent|), sent, t, ab) && ShowsSomething(TextSent(t))
    modifies stream, stream.inputConfidenceRegister, stream.recentBlockErrors, stream.syncOffsets, stream.syncPositions
    modifies parser, parser.radiotext, parser.radiotextSeen, parser.radiotextQuality, icy, icy.metadataBlock
    ensures ok && icy.metadataLength <= Icy.BLOCK_CAPACITY && Announces(icy.Block(), TextSent(t))
    ensures forall text :: IsPlain(text) && t == Padded(text) ==>
      parser.lastReportedRadiotext == text && Announces(icy.Block(), text)
  {
    hide BetweenGroups, RightOrLost, Tolerable, Observed, IsComplete, ShowsSomething, TextSent,
      SendsNoOther, Kept, UpToZero, TextArrives, Announces, Icy.CopiedText, Icy.BlockOf, Icy.IsTitle, RdsReceiver.Apart;
    RdsReceiver.HearText(stream, parser, inputs, past, sent, t, ab);
    ok := RefreshMetadata(parser, icy);
    TextIsShort(t);
    TitleIsAnnounced(TextSent(t));
  }

  /** A block in which a client reads the title of the text; the text itself, if it can be one. */
  predicate Announces(block: seq<Byte>, text: seq<Byte>)
  {
    && Icy.WellFormed(block)
    && Icy.ClientTitle(block) == (if TitleOf(text) == [] then None else Some(TitleOf(text)))
    && (Icy.IsTitle(text) ==> TitleOf(text) == text)
  }

  lemma TextIsShort(t: seq<Byte>)
    requires WellFormed(t) && ShowsSomething(TextSent(t))
    ensures 0 < |TextSent(t)| <= TEXT_LENGTH
  {}

  lemma TitleIsAnnounced(text: seq<Byte>)
    requires 0 < |text| <= TEXT_LENGTH
    ensures |TitleOf(text)| < 225 && Announces(Icy.BlockOf(TitleOf(text)), text)
  {
    hide Icy.CopiedText, Icy.IsTitle, Icy.BlockOf;
    Icy.CopiedTextIsTitle(text, Icy.TITLE_MAX_LENGTH + 1);
    Icy.RadiotextIsAlwaysAnnounced([], text, true);
    Icy.CopiedUnchangedIffTitle(text, Icy.TITLE_MAX_LENGTH + 1);
    Icy.ClientReadsTitle(TitleOf(text));
  }

  /** As long as it is the block in force, it is what the listener reads at the next boundary. */
  lemma {:induction false} ReadAtNextBoundary(wraps: seq<Icy.Wrapped>, until: nat, block: seq<Byte>)
    requires until > 0 && |Icy.Bodies(wraps)| >= until
    requires Icy.WellFormed(block) && forall i :: 0 <= i < |wraps| ==> wraps[i].block == block
    ensures var read := Icy.Demux(Icy.ClientStream(wraps, until), until).blocks; read != [] && read[0] == block
    decreases |wraps|
  {
    hide Icy.Demux, Icy.ClientStream, Icy.WellFormed;
    Icy.ClientStreamIsTakenApart(wraps, until);
    if |wraps[0].body| < until {
      var left := until - |wraps[0].body|;
      Icy.ClientStreamIsTakenApart(wraps[1..], left);
      ReadAtNextBoundary(wraps[1..], left, block);
      assert Icy.Copies(block, 0) == [];
    }
  }
}
