/** Radiotext end to end: the text a station repeats in 2A and 2B groups is the text the parser reports. */
module RdsTextDelivery {
  import opened Common
  import opened Binary
  import opened Bytes
  import opened RdsCode
  import opened RdsBurst
  import opened RdsSoft
  import opened RdsBlockStream
  import opened RdsText
  import opened RdsDelivery

  // ---------------------------------------------------------------- sending a text

  /** What a station puts into its segments: a terminator at the latest at the end, unless all 64 positions are used. */
  predicate WellFormed(t: seq<Byte>)
  {
    0 < |t| <= TEXT_LENGTH && (|t| == TEXT_LENGTH || exists i :: 0 <= i < |t| && Sanitize(t[i]) == 0)
  }

  function Sanitised(t: seq<Byte>): (r: seq<Byte>)
    ensures |r| == |t|
  {
    seq(|t|, i requires 0 <= i < |t| => Sanitize(t[i]))
  }

  /** The text meant: up to the terminator. */
  function TextSent(t: seq<Byte>): seq<Byte> { UpToZero(Sanitised(t)) }

  predicate ShowsSomething(text: seq<Byte>) { exists i :: 0 <= i < |text| && text[i] != SPACE }

  function TwoBytes(high: Byte, low: Byte): Data { Digits(high, 8) + Digits(low, 8) }

  /** The second block of a text group; `service` stands for the programme bits, which radiotext does not use. */
  function SegmentHeader(versionB: bool, service: seq<bool>, ab: bool, n: nat): Data
    requires |service| == 6
  {
    Digits(2, 4) + [versionB] + service + [ab] + Digits(n, 4)
  }

  lemma TwoBytesAreRead(high: Byte, low: Byte)
    ensures HighByte(TwoBytes(high, low)) == high && LowByte(TwoBytes(high, low)) == low
  {
    assert Power(8) == 256;
    ValueOfDigits(high, 8);
    ValueOfDigits(low, 8);
    assert TwoBytes(high, low)[..8] == Digits(high, 8) && TwoBytes(high, low)[8..] == Digits(low, 8);
  }

  lemma SegmentHeaderIsRead(versionB: bool, service: seq<bool>, ab: bool, n: nat)
    requires |service| == 6 && n < 16
    ensures var block2 := SegmentHeader(versionB, service, ab, n);
      GroupType(block2) == 2 && IsVersionB(block2) == versionB && AbFlag(block2) == ab && SegmentAddress(block2) == n
  {
    var block2 := SegmentHeader(versionB, service, ab, n);
    assert Power(4) == 16;
    ValueOfDigits(2, 4);
    ValueOfDigits(n, 4);
    assert block2[..4] == Digits(2, 4) && block2[12..] == Digits(n, 4);
  }

  // ---------------------------------------------------------------- receiving it

  /** What g says of the text, if anything, is right: its usable characters are those of t at their positions. */
  predicate Agrees(g: Group, t: seq<Byte>, ab: bool)
  {
    IsTextGroup(g) ==>
      && AbFlag(g[1].data) == ab
      && forall j :: 0 <= j < |TextChars(g)| ==> TextPosition(g) + j < |t| && TextChars(g)[j] == t[TextPosition(g) + j]
  }

  predicate Consistent(groups: seq<Group>, t: seq<Byte>, ab: bool)
  {
    forall k :: 0 <= k < |groups| ==> Agrees(groups[k], t, ab)
  }

  /** g has a usable character for position i. */
  predicate Covers(g: Group, i: nat) { IsTextGroup(g) && TextPosition(g) <= i < TextPosition(g) + |TextChars(g)| }

  predicate Received(groups: seq<Group>, i: nat) { exists k :: 0 <= k < |groups| && Covers(groups[k], i) }

  /** A cell is filled exactly when its character has been received, and then rightly. */
  predicate Tells(cell: Cell, t: seq<Byte>, i: nat, received: bool)
  {
    if received then cell.Seen? && i < |t| && cell.ch == Sanitize(t[i]) else cell.Unseen?
  }

  lemma GroupIsMerged(s: TextState, g: Group, t: seq<Byte>, ab: bool, i: nat, received: bool)
    requires Agrees(g, t, ab) && i < TEXT_LENGTH && (s.flag == Some(ab) ==> Tells(s.cells[i], t, i, received))
    requires s.flag != Some(ab) ==> !received
    ensures Process(s, g).flag == if IsTextGroup(g) then Some(ab) else s.flag
    ensures Process(s, g).flag == Some(ab) ==> Tells(Process(s, g).cells[i], t, i, received || Covers(g, i))
  {
    hide IsComplete, Kept, Reports, TextQuality, GroupType, AbFlag, TextChars, SegmentAddress, Sanitize;
    if IsTextGroup(g) {
      var cells, chars, at := Flagged(WithPi(s, g), ab).cells, TextChars(g), TextPosition(g);
      assert Tells(cells[i], t, i, received);
      assert Process(s, g).cells == Written(cells, at, chars, TextQuality(g));
      if Covers(g, i) { assert chars[i - at] == t[i]; }
    }
  }

  lemma ReceivedStep(groups: seq<Group>, g: Group, i: nat)
    ensures Received(groups + [g], i) <==> Received(groups, i) || Covers(g, i)
  {
    hide Covers;
    var more := groups + [g];
    if Covers(g, i) { assert Covers(more[|groups|], i); }
    if Received(groups, i) {
      var k :| 0 <= k < |groups| && Covers(groups[k], i);
      assert Covers(more[k], i);
    }
  }

  /** In whatever order the segments come, and however often, exactly the cells of those received are filled. */
  lemma {:induction false} CellsTellWhatWasReceived(s: TextState, groups: seq<Group>, t: seq<Byte>, ab: bool, i: nat)
    requires s.flag != Some(ab) && Consistent(groups, t, ab) && i < TEXT_LENGTH
    ensures var r := Run(s, groups);
      && (r.flag == Some(ab) ==> Tells(r.cells[i], t, i, Received(groups, i)))
      && (Received(groups, i) ==> r.flag == Some(ab))
  {
    hide Process, Agrees, Tells, TextPosition, TextChars, GroupType;
    if groups != [] {
      var init, g := groups[..|groups| - 1], groups[|groups| - 1];
      assert groups == init + [g];
      CellsTellWhatWasReceived(s, init, t, ab, i);
      ReceivedStep(init, g, i);
      GroupIsMerged(Run(s, init), g, t, ab, i, Received(init, i));
    }
  }

  /** The text and its terminator. */
  predicate AllReceived(groups: seq<Group>, t: seq<Byte>)
  {
    forall i :: 0 <= i < |t| && i <= |TextSent(t)| ==> Received(groups, i)
  }

  /** Cells filled from t alone, each with its right character. */
  predicate PartOf(cells: Cells, t: seq<Byte>)
  {
    forall i :: 0 <= i < TEXT_LENGTH && cells[i].Seen? ==> i < |t| && cells[i].ch == Sanitize(t[i])
  }

  lemma PartOfEnds(cells: Cells, t: seq<Byte>, end: nat)
    requires WellFormed(t) && PartOf(cells, t) && EndsAt(cells, end)
    ensures end == |TextSent(t)| && UpToZero(Kept(cells)) == TextSent(t)
  {
    var kept, whole := Kept(cells), Sanitised(t);
    assert forall i :: 0 <= i < end ==> kept[i] == cells[i].ch;
    UpToZeroIs(kept, end);
    assert |t| < TEXT_LENGTH ==> !cells[|t|].Seen?;
    forall i | 0 <= i < end
      ensures whole[i] == kept[i]
    {
      assert cells[i].Seen?;
    }
    if end < |t| { assert cells[end].Seen?; }
    UpToZeroIs(whole, end);
    assert kept[..end] == whole[..end];
  }

  /** Partly received or not, a complete text is the whole text. */
  lemma CompleteTextIsWholeText(s: TextState, groups: seq<Group>, t: seq<Byte>, ab: bool)
    requires s.flag != Some(ab) && WellFormed(t) && Consistent(groups, t, ab)
    ensures var r := Run(s, groups);
      r.flag == Some(ab) && IsComplete(r.cells) ==> UpToZero(Kept(r.cells)) == TextSent(t)
  {
    hide Run, Consistent, Received, Kept, UpToZero, TextSent, Sanitize;
    var r := Run(s, groups);
    if r.flag == Some(ab) && IsComplete(r.cells) {
      RunIsPartOf(s, groups, t, ab);
      var end :| 0 <= end <= TEXT_LENGTH && CompleteAt(r.cells, end);
      PartOfEnds(r.cells, t, end);
    }
  }

  lemma RunIsPartOf(s: TextState, groups: seq<Group>, t: seq<Byte>, ab: bool)
    requires s.flag != Some(ab) && Consistent(groups, t, ab) && Run(s, groups).flag == Some(ab)
    ensures PartOf(Run(s, groups).cells, t)
  {
    hide Run, Consistent, Received, Sanitize;
    forall i | 0 <= i < TEXT_LENGTH && Run(s, groups).cells[i].Seen?
      ensures i < |t| && Run(s, groups).cells[i].ch == Sanitize(t[i])
    {
      CellsTellWhatWasReceived(s, groups, t, ab, i);
    }
  }

  /** The text is complete exactly when it and its terminator have been received and it shows something. */
  lemma CompleteIffAllReceived(s: TextState, groups: seq<Group>, t: seq<Byte>, ab: bool)
    requires s.flag != Some(ab) && WellFormed(t) && Consistent(groups, t, ab) && Run(s, groups).flag == Some(ab)
    ensures IsComplete(Run(s, groups).cells) <==> AllReceived(groups, t) && ShowsSomething(TextSent(t))
  {
    hide Run, Consistent, Received, Kept, UpToZero, Sanitize;
    var r := Run(s, groups);
    var cells, end := r.cells, |TextSent(t)|;
    RunIsPartOf(s, groups, t, ab);
    if IsComplete(cells) {
      var e :| 0 <= e <= TEXT_LENGTH && CompleteAt(cells, e);
      PartOfEnds(cells, t, e);
      forall i | 0 <= i < |t| && i <= end
        ensures Received(groups, i)
      {
        CellsTellWhatWasReceived(s, groups, t, ab, i);
        assert cells[i].Seen?;
      }
      TextOfComplete(cells, e);
      var i :| 0 <= i < e && cells[i].ch != SPACE;
      assert TextSent(t)[i] == Kept(cells)[i] by { KeptAt(cells, i); }
      KeptAt(cells, i);
    }
    if AllReceived(groups, t) && ShowsSomething(TextSent(t)) {
      AllReceivedCompletes(s, groups, t, ab);
    }
  }

  lemma KeptAt(cells: Cells, i: nat)
    requires i < TEXT_LENGTH && cells[i].Seen?
    ensures Kept(cells)[i] == cells[i].ch
  {}

  lemma AllReceivedCompletes(s: TextState, groups: seq<Group>, t: seq<Byte>, ab: bool)
    requires s.flag != Some(ab) && WellFormed(t) && Consistent(groups, t, ab) && Run(s, groups).flag == Some(ab)
    requires AllReceived(groups, t) && ShowsSomething(TextSent(t))
    ensures IsComplete(Run(s, groups).cells)
  {
    hide Run, Consistent, Received, Kept, Sanitize;
    var cells, text := Run(s, groups).cells, TextSent(t);
    var end := |text|;
    forall i | 0 <= i < |t| && i <= end
      ensures cells[i].Seen? && cells[i].ch == Sanitised(t)[i]
    {
      CellsTellWhatWasReceived(s, groups, t, ab, i);
      assert Received(groups, i);
    }
    if end < TEXT_LENGTH { TerminatorIsInside(t); }
    assert EndsAt(cells, end) by {
      forall i | 0 <= i < end
        ensures cells[i].ch != 0
      {
        assert text[i] in text && text[i] == Sanitised(t)[i];
      }
    }
    var i :| 0 <= i < |text| && text[i] != SPACE;
    assert cells[i].ch == text[i];
    assert CompleteAt(cells, end);
  }

  lemma TerminatorIsInside(t: seq<Byte>)
    requires WellFormed(t) && |TextSent(t)| < TEXT_LENGTH
    ensures |TextSent(t)| < |t|
  {
    var text := TextSent(t);
    forall i | 0 <= i < |text|
      ensures Sanitize(t[i]) != 0
    {
      assert text[i] in text && text[i] == Sanitised(t)[i];
    }
  }

  /** A complete text has been reported. */
  lemma {:induction false} CompleteIsReported(s: TextState, groups: seq<Group>, ab: bool)
    requires s.flag != Some(ab)
    ensures var r := Run(s, groups);
      r.flag == Some(ab) && IsComplete(r.cells) ==> r.reported == UpToZero(Kept(r.cells))
  {
    hide IsComplete, Kept, UpToZero, WithPi, WithText;
    if groups != [] {
      CompleteIsReported(s, groups[..|groups| - 1], ab);
    }
  }

  /** A station repeating its text is heard: whatever the order and the gaps, the whole text is what is reported. */
  lemma RepeatedTextIsReported(s: TextState, groups: seq<Group>, t: seq<Byte>, ab: bool)
    requires s.flag != Some(ab) && WellFormed(t) && Consistent(groups, t, ab)
    requires AllReceived(groups, t) && ShowsSomething(TextSent(t))
    ensures var r := Run(s, groups);
      IsComplete(r.cells) && UpToZero(Kept(r.cells)) == TextSent(t) == r.reported
  {
    hide Run, Consistent, Received, Kept, UpToZero, IsComplete, ShowsSomething, TextSent;
    CellsTellWhatWasReceived(s, groups, t, ab, 0);
    assert Received(groups, 0);
    CompleteIffAllReceived(s, groups, t, ab);
    CompleteTextIsWholeText(s, groups, t, ab);
    CompleteIsReported(s, groups, ab);
  }

  /**
   * Of whatever the groups say, u, all of it received: the text reported is the text t if and only if every character
   * up to the terminator is said rightly, as far as sanitising can tell.
   */
  lemma ReportedTextIsRightIff(s: TextState, groups: seq<Group>, u: seq<Byte>, t: seq<Byte>, ab: bool)
    requires s.flag != Some(ab) && Consistent(groups, u, ab) && (forall i :: 0 <= i < |u| ==> Received(groups, i))
    requires WellFormed(t) && ShowsSomething(TextSent(t)) && |u| == |t|
    ensures var r := Run(s, groups);
      r.flag == Some(ab) && IsComplete(r.cells) && r.reported == TextSent(t)
      <==> forall i :: 0 <= i < |t| && i <= |TextSent(t)| ==> Sanitize(u[i]) == Sanitize(t[i])
  {
    hide Run, Consistent, Received, Kept, UpToZero, Sanitize;
    var r, text := Run(s, groups), TextSent(t);
    var cells, end := r.cells, |text|;
    forall i | 0 <= i < TEXT_LENGTH
      ensures r.flag == Some(ab)
      ensures if i < |t| then cells[i].Seen? && cells[i].ch == Sanitize(u[i]) else cells[i].Unseen?
    {
      CellsTellWhatWasReceived(s, groups, u, ab, i);
      CellsTellWhatWasReceived(s, groups, u, ab, 0);
      assert Received(groups, 0);
    }
    CompleteIsReported(s, groups, ab);
    forall i | 0 <= i < end
      ensures text[i] == Sanitised(t)[i] && text[i] != 0
    {
      assert text[i] in text;
    }
    if end < TEXT_LENGTH { TerminatorIsInside(t); }
    if forall i :: 0 <= i < |t| && i <= end ==> Sanitize(u[i]) == Sanitize(t[i]) {
      forall i | 0 <= i < |t| && i <= end
        ensures cells[i].ch == Sanitised(t)[i]
      {
        assert Sanitize(u[i]) == Sanitize(t[i]);
      }
      assert EndsAt(cells, end);
      var i :| 0 <= i < end && text[i] != SPACE;
      assert cells[i].ch == text[i];
      assert CompleteAt(cells, end);
      TextOfComplete(cells, end);
      forall i | 0 <= i < end
        ensures Kept(cells)[i] == text[i]
      {
        KeptAt(cells, i);
      }
      assert Kept(cells)[..end] == text;
    }
    if IsComplete(cells) && r.reported == text {
      var e :| 0 <= e <= TEXT_LENGTH && CompleteAt(cells, e);
      TextOfComplete(cells, e);
      forall i | 0 <= i < |t| && i <= end
        ensures Sanitize(u[i]) == Sanitize(t[i])
      {
        if i < end { KeptAt(cells, i); }
      }
    }
  }

  // ---------------------------------------------------------------- padding a text

  predicate IsText(text: seq<Byte>) { |text| <= TEXT_LENGTH && forall i :: 0 <= i < |text| ==> Sanitize(text[i]) != 0 }

  /** A terminator and spaces to fill the last segment, unless the text fills all. */
  function Padded(text: seq<Byte>): seq<Byte>
  {
    if |text| == TEXT_LENGTH then text else text + [CARRIAGE_RETURN] + Repeat(SPACE, 3 - |text| % 4)
  }

  lemma PaddedTextIsSent(text: seq<Byte>)
    requires IsText(text)
    ensures WellFormed(Padded(text)) && TextSent(Padded(text)) == Sanitised(text)
  {
    var t := Padded(text);
    if |text| < TEXT_LENGTH {
      assert Sanitize(t[|text|]) == 0;
    }
    UpToZeroIs(Sanitised(t), |text|);
    assert Sanitised(t)[..|text|] == Sanitised(text);
  }

  /** Printable characters only. */
  predicate IsPlain(text: seq<Byte>)
  {
    |text| <= TEXT_LENGTH && forall i :: 0 <= i < |text| ==> IsPrintable(text[i])
  }

  /** Such a text, closed and padded, means itself, character for character. */
  lemma PlainTextIsSent(text: seq<Byte>)
    requires IsPlain(text)
    ensures WellFormed(Padded(text)) && TextSent(Padded(text)) == text
  {
    hide Padded, TextSent, WellFormed, Sanitize;
    forall i | 0 <= i < |text|
      ensures Sanitize(text[i]) == text[i] != 0
    {
      SanitizedStaysSo(text[i]);
    }
    PaddedTextIsSent(text);
    assert Sanitised(text) == text;
  }

  // ---------------------------------------------------------------- over the air

  ghost predicate HasHeader(g: SentGroup, versionB: bool, ab: bool, n: nat)
  {
    exists service: seq<bool> :: |service| == 6 && g.blocks[1].data == SegmentHeader(versionB, service, ab, n)
  }

  /** A group on the air with four characters of the text, from 4 * n on. */
  ghost predicate SendsFour(g: SentGroup, t: seq<Byte>, ab: bool, n: nat)
  {
    && 4 * n + 4 <= |t| <= TEXT_LENGTH && HasHeader(g, false, ab, n)
    && g.blocks[2].data == TwoBytes(t[4 * n], t[4 * n + 1]) && g.blocks[3].data == TwoBytes(t[4 * n + 2], t[4 * n + 3])
  }

  /** One with two, from 2 * n on; the third block repeats the programme identification. */
  ghost predicate SendsTwo(g: SentGroup, t: seq<Byte>, ab: bool, n: nat)
  {
    && n < 16 && 2 * n + 2 <= |t| <= TEXT_LENGTH && HasHeader(g, true, ab, n)
    && g.blocks[3].data == TwoBytes(t[2 * n], t[2 * n + 1])
  }

  ghost predicate SendsPart(g: SentGroup, t: seq<Byte>, ab: bool)
  {
    exists n: nat :: SendsFour(g, t, ab, n) || SendsTwo(g, t, ab, n)
  }

  /** The group sends position i. */
  ghost predicate Sends(g: SentGroup, t: seq<Byte>, ab: bool, i: nat)
  {
    SendsFour(g, t, ab, i / 4) || SendsTwo(g, t, ab, i / 2)
  }

  /** Every text group is one of this text. */
  ghost predicate SendsNoOther(groups: seq<SentGroup>, t: seq<Byte>, ab: bool)
  {
    forall k :: 0 <= k < |groups| ==> GroupType(groups[k].blocks[1].data) != 2 || SendsPart(groups[k], t, ab)
  }

  ghost predicate IsSent(groups: seq<SentGroup>, t: seq<Byte>, ab: bool, i: nat)
  {
    exists k :: 0 <= k < |groups| && Sends(groups[k], t, ab, i)
  }

  ghost predicate SendsText(groups: seq<SentGroup>, t: seq<Byte>, ab: bool)
  {
    && SendsNoOther(groups, t, ab)
    && forall i :: 0 <= i < |t| ==> IsSent(groups, t, ab, i)
  }

  // ---------------------------------------------------------------- blocks lost on the way

  /** Each block after the first, which says nothing of the text, carries the data sent, or has not come at all. */
  predicate Spared(g: Group, sent: SentGroup)
  {
    forall i :: 1 <= i < 4 ==> (UsableForText(g[i]) && g[i].data == sent.blocks[i].data) || g[i] == EmptyBlock()
  }

  predicate AllSpared(groups: seq<Group>, sent: seq<SentGroup>)
  {
    |groups| == |sent| && forall k :: 0 <= k < |groups| ==> Spared(groups[k], sent[k])
  }

  /** Every block that a text group needs has come; version B does without the third. */
  predicate HasText(g: Group, versionB: bool)
  {
    g[0].isReceived && g[1].isReceived && (versionB || g[2].isReceived) && g[3].isReceived
  }

  /** Position i is sent in some group that has come with every block it needs. */
  ghost predicate Arrives(groups: seq<Group>, sent: seq<SentGroup>, t: seq<Byte>, ab: bool, i: nat)
    requires |groups| == |sent|
  {
    exists k :: 0 <= k < |groups| && HasText(groups[k], IsVersionB(sent[k].blocks[1].data)) && Sends(sent[k], t, ab, i)
  }

  /** The text and its terminator arrive. */
  ghost predicate TextArrives(groups: seq<Group>, sent: seq<SentGroup>, t: seq<Byte>, ab: bool)
    requires |groups| == |sent|
  {
    forall i :: 0 <= i < |t| && i <= |TextSent(t)| ==> Arrives(groups, sent, t, ab, i)
  }

  lemma HeaderIsRead(block2: Data, sent: SentGroup, versionB: bool, ab: bool, n: nat)
    requires block2 == sent.blocks[1].data && HasHeader(sent, versionB, ab, n) && n < 16
    ensures GroupType(block2) == 2 && IsVersionB(block2) == versionB && AbFlag(block2) == ab
    ensures SegmentAddress(block2) == n
  {
    hide SegmentHeader, GroupType, AbFlag, SegmentAddress, IsVersionB;
    var service: seq<bool> :| |service| == 6 && sent.blocks[1].data == SegmentHeader(versionB, service, ab, n);
    SegmentHeaderIsRead(versionB, service, ab, n);
  }

  lemma FourAreSpared(g: Group, sent: SentGroup, t: seq<Byte>, ab: bool, n: nat)
    requires Spared(g, sent) && SendsFour(sent, t, ab, n)
    ensures Agrees(g, t, ab) && GroupType(sent.blocks[1].data) == 2 && !IsVersionB(sent.blocks[1].data)
    ensures forall i: nat :: Covers(g, i) <==> 4 * n <= i < 4 * n + 4 && HasText(g, false)
  {
    hide HasHeader, HighByte, LowByte, TwoBytes, GroupType, AbFlag, IsVersionB, SegmentAddress;
    HeaderIsRead(sent.blocks[1].data, sent, false, ab, n);
    if Understood(g) {
      TwoBytesAreRead(t[4 * n], t[4 * n + 1]);
      TwoBytesAreRead(t[4 * n + 2], t[4 * n + 3]);
      assert TextChars(g) == if HasText(g, false) then t[4 * n..4 * n + 4] else [];
    }
  }

  lemma TwoAreSpared(g: Group, sent: SentGroup, t: seq<Byte>, ab: bool, n: nat)
    requires Spared(g, sent) && SendsTwo(sent, t, ab, n)
    ensures Agrees(g, t, ab) && GroupType(sent.blocks[1].data) == 2 && IsVersionB(sent.blocks[1].data)
    ensures forall i: nat :: Covers(g, i) <==> 2 * n <= i < 2 * n + 2 && HasText(g, true)
  {
    hide HasHeader, HighByte, LowByte, TwoBytes, GroupType, AbFlag, IsVersionB, SegmentAddress;
    HeaderIsRead(sent.blocks[1].data, sent, true, ab, n);
    if Understood(g) {
      TwoBytesAreRead(t[2 * n], t[2 * n + 1]);
      assert TextChars(g) == if HasText(g, true) then t[2 * n..2 * n + 2] else [];
    }
  }

  lemma OtherGroupAgrees(g: Group, sent: SentGroup, t: seq<Byte>, ab: bool)
    requires Spared(g, sent) && GroupType(sent.blocks[1].data) != 2
    ensures Agrees(g, t, ab) && forall i :: !Covers(g, i)
  {
    hide GroupType, TextChars;
  }

  /** What a spared group says of the text is right, and it covers exactly what it was sent for, if that has come. */
  lemma SparedGroup(g: Group, sent: SentGroup, t: seq<Byte>, ab: bool, i: nat)
    requires Spared(g, sent) && (GroupType(sent.blocks[1].data) != 2 || SendsPart(sent, t, ab))
    ensures Agrees(g, t, ab)
    ensures Covers(g, i) <==> HasText(g, IsVersionB(sent.blocks[1].data)) && Sends(sent, t, ab, i)
  {
    hide Spared, Agrees, Covers, HasText, SendsFour, SendsTwo, GroupType, IsVersionB;
    if SendsFour(sent, t, ab, i / 4) { FourAreSpared(g, sent, t, ab, i / 4); }
    if SendsTwo(sent, t, ab, i / 2) { TwoAreSpared(g, sent, t, ab, i / 2); }
    if GroupType(sent.blocks[1].data) != 2 {
      OtherGroupAgrees(g, sent, t, ab);
    } else {
      var n: nat :| SendsFour(sent, t, ab, n) || SendsTwo(sent, t, ab, n);
      if SendsFour(sent, t, ab, n) {
        FourAreSpared(g, sent, t, ab, n);
        assert 4 * n <= i < 4 * n + 4 <==> i / 4 == n;
      } else {
        TwoAreSpared(g, sent, t, ab, n);
        assert 2 * n <= i < 2 * n + 2 <==> i / 2 == n;
      }
    }
  }

  lemma SparedGroups(groups: seq<Group>, sent: seq<SentGroup>, t: seq<Byte>, ab: bool)
    requires AllSpared(groups, sent) && SendsNoOther(sent, t, ab)
    ensures Consistent(groups, t, ab) && (AllReceived(groups, t) <==> TextArrives(groups, sent, t, ab))
  {
    hide Spared, Agrees, Covers, HasText, Sends, SendsPart, GroupType, TextSent;
    forall k | 0 <= k < |groups|
      ensures Agrees(groups[k], t, ab)
    {
      SparedGroup(groups[k], sent[k], t, ab, 0);
    }
    forall i: nat
      ensures Received(groups, i) <==> Arrives(groups, sent, t, ab, i)
    {
      forall k | 0 <= k < |groups|
        ensures Covers(groups[k], i)
           <==> HasText(groups[k], IsVersionB(sent[k].blocks[1].data)) && Sends(sent[k], t, ab, i)
      {
        SparedGroup(groups[k], sent[k], t, ab, i);
      }
    }
  }

  /**
   * The parser fed with what is left of a station's groups has the whole text exactly when every position up to the
   * terminator has arrived, and then it has reported it.
   */
  lemma SparedTextIsReported(parser: TextState, groups: seq<Group>, sent: seq<SentGroup>, t: seq<Byte>, ab: bool)
    requires AllSpared(groups, sent) && SendsNoOther(sent, t, ab)
    requires WellFormed(t) && parser.flag != Some(ab)
    ensures var r := Run(parser, groups);
      && (r.flag == Some(ab) && IsComplete(r.cells)
          <==> TextArrives(groups, sent, t, ab) && ShowsSomething(TextSent(t)))
      && (r.flag == Some(ab) && IsComplete(r.cells) ==> UpToZero(Kept(r.cells)) == TextSent(t) == r.reported)
  {
    hide AllSpared, Run, Consistent, Received, Kept, UpToZero, IsComplete, ShowsSomething, TextSent, SendsNoOther,
      Arrives;
    var r := Run(parser, groups);
    SparedGroups(groups, sent, t, ab);
    CellsTellWhatWasReceived(parser, groups, t, ab, 0);
    assert AllReceived(groups, t) ==> Received(groups, 0);
    if r.flag == Some(ab) {
      CompleteIffAllReceived(parser, groups, t, ab);
      CompleteTextIsWholeText(parser, groups, t, ab);
      CompleteIsReported(parser, groups, ab);
    }
  }

  // ---------------------------------------------------------------- from the air to the text

  /** Whatever is stored of a block is usable for text: received undamaged, or corrected by one corrector or the
      other, in one bit at least. */
  lemma WhateverIsStoredIsUsable(w: Word, n: nat, conf: Confidences)
    requires n < 4
    ensures UsableForText(Outcome(w, n, conf)) <==> !IsLost(w, n, conf)
  {
    hide OffsetOf, Syndrome, MeanConfidence, BurstCorrection, FewestFlips, Hits, Weakest, Xor, Mask, OffsetWord,
      ErrorVector;
    var o := ExpectedNow(n, w);
    if BurstCorrection(w, o).succeeded {
      BurstCorrectionOutcome(w, o);
      var width: nat, shift: nat :| Repairs(w, o, width, shift);
    } else {
      SoftSearchOutcome(w, OffsetWord(o), conf);
    }
  }

  /** Block i of the group arrives so that what is stored of it, if anything, is what was sent. */
  predicate RightOrLost(x: seq<Input>, g: SentGroup, i: nat)
    requires |x| == GROUP_LENGTH && i < 4
  {
    OutcomeAt(x, i).data == g.blocks[i].data || IsLost(WordOf(x, i), i, StrengthsOf(x, i))
  }

  /** So do all blocks that carry text, in all groups. */
  predicate Endures(inputs: seq<Input>, sent: seq<SentGroup>)
  {
    && |inputs| == |sent| * GROUP_LENGTH
    && forall k, i :: 0 <= k < |sent| && 1 <= i < 4 ==> RightOrLost(GroupOf(inputs, k), sent[k], i)
  }

  /** What is made of each group. */
  function Outcomes(inputs: seq<Input>, count: nat): (groups: seq<Group>)
    requires |inputs| == count * GROUP_LENGTH
    ensures |groups| == count
  {
    seq(count, k requires 0 <= k < count => GroupOutcome(GroupOf(inputs, k)))
  }

  lemma OutcomeIsSpared(x: seq<Input>, g: SentGroup)
    requires |x| == GROUP_LENGTH && forall i :: 1 <= i < 4 ==> RightOrLost(x, g, i)
    ensures Spared(GroupOutcome(x), g)
  {
    hide IsLost, WordOf, StrengthsOf, Outcome, UsableForText;
    forall i | 1 <= i < 4
      ensures (UsableForText(GroupOutcome(x)[i]) && GroupOutcome(x)[i].data == g.blocks[i].data)
              || GroupOutcome(x)[i] == EmptyBlock()
    {
      assert RightOrLost(x, g, i);
      LostIffNothingIsStored(WordOf(x, i), i, StrengthsOf(x, i));
      WhateverIsStoredIsUsable(WordOf(x, i), i, StrengthsOf(x, i));
    }
  }

  lemma OutcomesAreSpared(inputs: seq<Input>, sent: seq<SentGroup>)
    requires Endures(inputs, sent)
    ensures AllSpared(Outcomes(inputs, |sent|), sent)
  {
    hide RightOrLost, Spared, GroupOutcome;
    forall k | 0 <= k < |sent|
      ensures Spared(Outcomes(inputs, |sent|)[k], sent[k])
    {
      OutcomeIsSpared(GroupOf(inputs, k), sent[k]);
    }
  }

  /**
   * A text on the air, among groups of other kinds, some of its blocks lost altogether: it is reported, whole, exactly
   * when each of its positions is sent in some group of which no block that the text needs is lost.
   */
  lemma TextDespiteLosses(stream: State, past: seq<bool>, sent: seq<SentGroup>, inputs: seq<Input>,
                          parser: TextState, t: seq<Byte>, ab: bool)
    requires BetweenGroups(stream, past) && Endures(inputs, sent) && Tolerable(past, Observed(inputs, |sent|))
    requires WellFormed(t) && SendsNoOther(sent, t, ab) && parser.flag != Some(ab)
    ensures var r := Run(parser, Receive(stream, inputs).groups);
      && (r.flag == Some(ab) && IsComplete(r.cells)
          <==> TextArrives(Outcomes(inputs, |sent|), sent, t, ab) && ShowsSomething(TextSent(t)))
      && (r.flag == Some(ab) && IsComplete(r.cells) ==> UpToZero(Kept(r.cells)) == TextSent(t) == r.reported)
  {
    hide BetweenGroups, RightOrLost, Tolerable, Observed, WellFormed, SendsNoOther, Receive, Run, IsComplete, Kept,
      UpToZero, TextSent, ShowsSomething, AllSpared, GroupOutcome, TextArrives;
    ReceptionIsDetermined(stream, past, inputs, |sent|);
    assert Receive(stream, inputs).groups == Outcomes(inputs, |sent|);
    OutcomesAreSpared(inputs, sent);
    SparedTextIsReported(parser, Outcomes(inputs, |sent|), sent, t, ab);
  }

  /** A text of printable characters, of which all positions arrive, is reported character for character. */
  lemma PlainTextIsReported(stream: State, past: seq<bool>, sent: seq<SentGroup>, inputs: seq<Input>,
                            parser: TextState, text: seq<Byte>, ab: bool)
    requires BetweenGroups(stream, past) && Endures(inputs, sent) && Tolerable(past, Observed(inputs, |sent|))
    requires IsPlain(text) && ShowsSomething(text) && SendsNoOther(sent, Padded(text), ab) && parser.flag != Some(ab)
    requires TextArrives(Outcomes(inputs, |sent|), sent, Padded(text), ab)
    ensures var r := Run(parser, Receive(stream, inputs).groups);
      IsComplete(r.cells) && UpToZero(Kept(r.cells)) == text == r.reported
  {
    hide BetweenGroups, RightOrLost, Tolerable, Observed, WellFormed, SendsNoOther, Receive, Run, IsComplete, Kept,
      UpToZero, TextSent, ShowsSomething, Outcomes, TextArrives, Padded, IsPlain;
    PlainTextIsSent(text);
    TextDespiteLosses(stream, past, sent, inputs, parser, Padded(text), ab);
  }

  /** A group has every block its text needs exactly when none of them is lost. */
  lemma HasTextIff(x: seq<Input>, versionB: bool)
    requires |x| == GROUP_LENGTH
    ensures HasText(GroupOutcome(x), versionB)
       <==> forall i :: 0 <= i < 4 && (i == 2 ==> !versionB) ==> !IsLost(WordOf(x, i), i, StrengthsOf(x, i))
  {
    hide IsLost, WordOf, StrengthsOf, Outcome;
    LostIffNothingIsStored(WordOf(x, 0), 0, StrengthsOf(x, 0));
    LostIffNothingIsStored(WordOf(x, 1), 1, StrengthsOf(x, 1));
    LostIffNothingIsStored(WordOf(x, 2), 2, StrengthsOf(x, 2));
    LostIffNothingIsStored(WordOf(x, 3), 3, StrengthsOf(x, 3));
  }

  lemma FittingBlockArrives(x: seq<Input>, g: SentGroup, i: nat)
    requires |x| == GROUP_LENGTH && i < 4 && Fits(g.blocks[i], WordOf(x, i), i)
    ensures RightOrLost(x, g, i) && !IsLost(WordOf(x, i), i, StrengthsOf(x, i))
  {
    hide Fits, WordOf, StrengthsOf, Outcome, IsLost;
    OutcomeOfFit(g.blocks[i], WordOf(x, i), i, StrengthsOf(x, i));
    LostIffNothingIsStored(WordOf(x, i), i, StrengthsOf(x, i));
  }

  /**
   * In particular a text repeated over a lightly damaged channel, among groups of other kinds, is reported whole:
   * the block stream delivers its groups and the parser puts them together.
   */
  lemma TextOverTheAirIsReported(stream: State, past: seq<bool>, sent: seq<SentGroup>, inputs: seq<Input>,
                                 parser: TextState, t: seq<Byte>, ab: bool)
    requires BetweenGroups(stream, past) && CarriesAll(inputs, sent) && Tolerable(past, AllVerdicts(sent))
    requires forall k :: 0 <= k < |sent| ==> WellSent(sent[k])
    requires WellFormed(t) && ShowsSomething(TextSent(t)) && SendsText(sent, t, ab) && parser.flag != Some(ab)
    ensures var r := Run(parser, Receive(stream, inputs).groups);
      IsComplete(r.cells) && UpToZero(Kept(r.cells)) == TextSent(t) == r.reported
  {
    hide BetweenGroups, CarriesAll, Tolerable, AllVerdicts, Observed, WellSent, Receive, Run, Kept, UpToZero, Sends,
      IsComplete, ShowsSomething, TextSent, WellFormed, SendsNoOther, RightOrLost, HasText, Fits, WordOf, StrengthsOf,
      IsLost, IsVersionB, GroupOutcome;
    CarriedGroups(inputs, sent);
    forall k, i | 0 <= k < |sent| && 0 <= i < 4
      ensures RightOrLost(GroupOf(inputs, k), sent[k], i)
      ensures !IsLost(WordOf(GroupOf(inputs, k), i), i, StrengthsOf(GroupOf(inputs, k), i))
    {
      assert FitsGroup(GroupOf(inputs, k), sent[k]);
      FittingBlockArrives(GroupOf(inputs, k), sent[k], i);
    }
    forall i: nat | i < |t|
      ensures Arrives(Outcomes(inputs, |sent|), sent, t, ab, i)
    {
      assert IsSent(sent, t, ab, i);
      var k :| 0 <= k < |sent| && Sends(sent[k], t, ab, i);
      HasTextIff(GroupOf(inputs, k), IsVersionB(sent[k].blocks[1].data));
      assert Outcomes(inputs, |sent|)[k] == GroupOutcome(GroupOf(inputs, k));
    }
    TextDespiteLosses(stream, past, sent, inputs, parser, t, ab);
  }
}
