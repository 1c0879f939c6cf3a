/**
 * Damage beyond the burst corrector: the soft corrector turns one text into another. Two bits of a block changed on the
 * air are enough, and the block that comes of it is as good to the parser as any.
 */
module RdsTextDamage {
  import opened Common
  import opened Binary
  import opened Bytes
  import opened RdsCode
  import opened RdsSoft
  import opened RdsBlockStream
  import opened RdsDelivery
  import opened RdsText
  import opened RdsTextDelivery
  import opened RdsSoftWitness

  // ---------------------------------------------------------------- characters

  /** The number with its binary digit k changed. */
  function Toggled(v: nat, k: nat): nat
  {
    if k > 0 then 2 * Toggled(v / 2, k - 1) + v % 2 else if v % 2 == 1 then v - 1 else v + 1
  }

  lemma {:induction false} ToggledDigits(v: nat, n: nat, k: nat)
    requires k < n
    ensures Digits(Toggled(v, k), n) == Digits(v, n)[n - 1 - k := !Digits(v, n)[n - 1 - k]]
  {
    if k > 0 { ToggledDigits(v / 2, n - 1, k - 1); }
  }

  /** Digits 3 and 4 of a printable character change it into another one, or into 127. */
  lemma AnotherCharacter(c: Byte)
    requires IsPrintable(c)
    ensures 32 <= Toggled(c, 3) < 128 && 32 <= Toggled(c, 4) < 128
    ensures Sanitize(Toggled(c, 3)) != Sanitize(c) && Sanitize(Toggled(c, 4)) != Sanitize(c)
  {
    hide Toggled;
    ToggledIs(c, 3, 8);
    ToggledIs(c, 4, 16);
  }

  lemma {:induction false} ToggledIs(v: nat, k: nat, power: nat)
    requires power == if k == 0 then 1 else if k == 1 then 2 else if k == 2 then 4 else if k == 3 then 8 else 16
    requires k <= 4
    ensures Toggled(v, k) == if v / power % 2 == 1 then v - power else v + power
  {
    if k > 0 {
      ToggledIs(v / 2, k - 1, power / 2);
      if power == 4 { assert v / 2 / 2 == v / 4; }
      if power == 8 { assert v / 2 / 4 == v / 8; }
      if power == 16 { assert v / 2 / 8 == v / 16; }
    }
  }

  lemma TwoBytesMisread(high: Byte, low: Byte)
    requires IsPrintable(high) && IsPrintable(low)
    ensures Toggled(high, 4) < 256 && Toggled(low, 3) < 256
    ensures Misread(TwoBytes(high, low)) == TwoBytes(Toggled(high, 4), Toggled(low, 3))
  {
    hide Digits, Toggled;
    AnotherCharacter(high);
    AnotherCharacter(low);
    ToggledDigits(high, 8, 4);
    ToggledDigits(low, 8, 3);
  }

  // ---------------------------------------------------------------- the text

  /** Segment n ends in two printable characters. */
  predicate EndsPrintable(t: seq<Byte>, n: nat)
  {
    4 * n + 4 <= |t| && IsPrintable(t[4 * n + 2]) && IsPrintable(t[4 * n + 3])
  }

  /** Those changed. */
  function Garbled(t: seq<Byte>, n: nat): (changed: seq<Byte>)
    requires EndsPrintable(t, n)
    ensures |changed| == |t|
  {
    AnotherCharacter(t[4 * n + 2]);
    AnotherCharacter(t[4 * n + 3]);
    t[4 * n + 2 := Toggled(t[4 * n + 2], 4)][4 * n + 3 := Toggled(t[4 * n + 3], 3)]
  }

  lemma GarbledIsWellFormed(t: seq<Byte>, n: nat)
    requires WellFormed(t) && EndsPrintable(t, n)
    ensures WellFormed(Garbled(t, n))
  {
    hide Toggled;
    if |t| < TEXT_LENGTH {
      var i :| 0 <= i < |t| && Sanitize(t[i]) == 0;
      assert Garbled(t, n)[i] == t[i];
    }
  }

  lemma GarbledIsAnotherText(t: seq<Byte>, n: nat)
    requires EndsPrintable(t, n)
    requires 4 * n + 3 < |TextSent(t)|
    ensures TextSent(Garbled(t, n)) != TextSent(t)
  {
    hide Toggled, UpToZero, Sanitize;
    var p, u := 4 * n + 3, Garbled(t, n);
    AnotherCharacter(t[p]);
    assert TextSent(t)[p] == Sanitised(t)[p] == Sanitize(t[p]);
    assert p < |TextSent(u)| ==> TextSent(u)[p] == Sanitised(u)[p] == Sanitize(u[p]);
  }

  // ---------------------------------------------------------------- one group told wrongly

  /** The group with other characters in its fourth block. */
  function Retold(g: SentGroup): SentGroup
  {
    SentGroup(g.blocks[3 := SentBlock(Misread(g.blocks[3].data), 1, 0)], g.versionB)
  }

  /** A part of the text other than segment n. */
  ghost predicate SendsOtherPart(g: SentGroup, t: seq<Byte>, ab: bool, n: nat)
  {
    exists m: nat :: (m != n && SendsFour(g, t, ab, m)) || (m / 2 != n && SendsTwo(g, t, ab, m))
  }

  /** Group `hit` alone sends segment n, and all the others say nothing of it. */
  ghost predicate AloneSends(sent: seq<SentGroup>, t: seq<Byte>, ab: bool, hit: nat, n: nat)
  {
    && EndsPrintable(t, n) && hit < |sent| && SendsFour(sent[hit], t, ab, n)
    && forall k :: 0 <= k < |sent| && k != hit ==>
         GroupType(sent[k].blocks[1].data) != 2 || SendsOtherPart(sent[k], t, ab, n)
  }

  /** Every position but those of segment n arrives. */
  ghost predicate RestArrives(groups: seq<Group>, sent: seq<SentGroup>, t: seq<Byte>, ab: bool, n: nat)
    requires |groups| == |sent|
  {
    forall i :: 0 <= i < |t| && i / 4 != n ==> Arrives(groups, sent, t, ab, i)
  }

  lemma OtherPartIsShared(g: SentGroup, t: seq<Byte>, ab: bool, n: nat, m: nat)
    requires EndsPrintable(t, n)
    ensures m != n && SendsFour(g, t, ab, m) ==> SendsFour(g, Garbled(t, n), ab, m)
    ensures m / 2 != n && SendsTwo(g, t, ab, m) ==> SendsTwo(g, Garbled(t, n), ab, m)
  {
    hide HasHeader, TwoBytes, Toggled;
  }

  lemma RetoldSendsGarbled(g: SentGroup, t: seq<Byte>, ab: bool, n: nat)
    requires EndsPrintable(t, n) && SendsFour(g, t, ab, n)
    ensures SendsFour(Retold(g), Garbled(t, n), ab, n) && !IsVersionB(g.blocks[1].data)
    ensures forall i: nat :: Sends(g, t, ab, i) ==> i / 4 == n
  {
    hide SegmentHeader, TwoBytes, Misread, Toggled, IsVersionB, GroupType, AbFlag, SegmentAddress;
    TwoBytesMisread(t[4 * n + 2], t[4 * n + 3]);
    HeaderIsRead(g.blocks[1].data, g, false, ab, n);
    forall i: nat | Sends(g, t, ab, i)
      ensures i / 4 == n
    {
      if SendsFour(g, t, ab, i / 4) { HeaderIsRead(g.blocks[1].data, g, false, ab, i / 4); }
      if SendsTwo(g, t, ab, i / 2) { HeaderIsRead(g.blocks[1].data, g, true, ab, i / 2); }
    }
  }

  /** To the parser it is as if the station had sent the garbled text. */
  lemma GarbledIsTold(groups: seq<Group>, sent: seq<SentGroup>, t: seq<Byte>, ab: bool, hit: nat, n: nat)
    requires AloneSends(sent, t, ab, hit, n) && |groups| == |sent| && HasText(groups[hit], false)
    requires RestArrives(groups, sent, t, ab, n)
    ensures var told, u := sent[hit := Retold(sent[hit])], Garbled(t, n);
      SendsNoOther(told, u, ab) && forall i: nat :: i < |u| ==> Arrives(groups, told, u, ab, i)
  {
    hide SendsFour, SendsTwo, HasText, IsVersionB, GroupType, Misread, Garbled, EndsPrintable;
    var told, u := sent[hit := Retold(sent[hit])], Garbled(t, n);
    RetoldSendsGarbled(sent[hit], t, ab, n);
    forall k | 0 <= k < |sent| && k != hit && SendsOtherPart(sent[k], t, ab, n)
      ensures SendsPart(sent[k], u, ab)
    {
      var m: nat :| (m != n && SendsFour(sent[k], t, ab, m)) || (m / 2 != n && SendsTwo(sent[k], t, ab, m));
      OtherPartIsShared(sent[k], t, ab, n, m);
    }
    forall i: nat | i < |u|
      ensures Arrives(groups, told, u, ab, i)
    {
      if i / 4 == n {
        assert Sends(told[hit], u, ab, i);
      } else {
        assert Arrives(groups, sent, t, ab, i);
        var k :| 0 <= k < |sent| && HasText(groups[k], IsVersionB(sent[k].blocks[1].data)) && Sends(sent[k], t, ab, i);
        OtherPartIsShared(sent[k], t, ab, n, i / 4);
        OtherPartIsShared(sent[k], t, ab, n, i / 2);
        assert i / 2 / 2 == i / 4;
        assert Sends(told[k], u, ab, i);
      }
    }
  }

  // ---------------------------------------------------------------- over the air

  /** The fourth block of this group is hit; the others are right and there. */
  predicate IsHit(x: seq<Input>, g: SentGroup)
    requires |x| == GROUP_LENGTH
  {
    && (forall i :: 0 <= i < 3 ==> !IsLost(WordOf(x, i), i, StrengthsOf(x, i)) && (i > 0 ==> RightOrLost(x, g, i)))
    && WordOf(x, 3) == Damaged(g.blocks[3].data, D, TwoBits(MISLEADING))
    && WRONG_BIT in Weakest(StrengthsOf(x, 3), BLOCK_LENGTH)
  }

  lemma HitIsRetold(x: seq<Input>, g: SentGroup)
    requires |x| == GROUP_LENGTH && IsHit(x, g)
    ensures Spared(GroupOutcome(x), Retold(g)) && HasText(GroupOutcome(x), false)
  {
    hide WordOf, StrengthsOf, Outcome, IsLost, UsableForText, Damaged, Misread, Weakest;
    ItIsStoredAsReceived(g.blocks[3].data, StrengthsOf(x, 3));
    forall i | 0 <= i < 4
      ensures UsableForText(GroupOutcome(x)[i]) && GroupOutcome(x)[i].isReceived
      ensures i > 0 ==> GroupOutcome(x)[i].data == Retold(g).blocks[i].data
    {
      LostIffNothingIsStored(WordOf(x, i), i, StrengthsOf(x, i));
      WhateverIsStoredIsUsable(WordOf(x, i), i, StrengthsOf(x, i));
      if 0 < i < 3 { assert RightOrLost(x, g, i); }
    }
  }

  /** All the other groups endure. */
  predicate OthersEndure(inputs: seq<Input>, sent: seq<SentGroup>, hit: nat)
    requires |inputs| == |sent| * GROUP_LENGTH
  {
    forall k, i :: 0 <= k < |sent| && k != hit && 1 <= i < 4 ==> RightOrLost(GroupOf(inputs, k), sent[k], i)
  }

  /** Group `hit` alone sends segment n, and its fourth block is hit; all else arrives. */
  ghost predicate OneHit(inputs: seq<Input>, sent: seq<SentGroup>, t: seq<Byte>, ab: bool, hit: nat, n: nat)
  {
    && |inputs| == |sent| * GROUP_LENGTH && AloneSends(sent, t, ab, hit, n)
    && IsHit(GroupOf(inputs, hit), sent[hit]) && OthersEndure(inputs, sent, hit)
    && RestArrives(Outcomes(inputs, |sent|), sent, t, ab, n)
  }

  /**
   * A text on the air of which one segment is sent once, with two bits of its fourth block changed: however well the
   * rest arrives, the parser reports another text, and takes it for complete.
   */
  lemma AnotherTextIsReported(stream: State, past: seq<bool>, sent: seq<SentGroup>, inputs: seq<Input>,
                              parser: TextState, t: seq<Byte>, ab: bool, hit: nat, n: nat)
    requires BetweenGroups(stream, past) && OneHit(inputs, sent, t, ab, hit, n)
    requires Tolerable(past, Observed(inputs, |sent|))
    requires WellFormed(t) && 4 * n + 3 < |TextSent(t)| && ShowsSomething(TextSent(Garbled(t, n)))
    requires parser.flag != Some(ab)
    ensures var r := Run(parser, Receive(stream, inputs).groups);
      IsComplete(r.cells) && r.reported == TextSent(Garbled(t, n)) != TextSent(t)
  {
    hide BetweenGroups, Tolerable, Observed, Receive, Run, IsComplete, Kept, UpToZero, TextSent, ShowsSomething,
      WellFormed, Garbled, SendsNoOther, RestArrives, IsHit, RightOrLost, EndsPrintable, SendsFour, Retold, Spared,
      HasText, GroupOutcome, Arrives;
    var groups, u, told := Outcomes(inputs, |sent|), Garbled(t, n), sent[hit := Retold(sent[hit])];
    ReceptionIsDetermined(stream, past, inputs, |sent|);
    assert Receive(stream, inputs).groups == groups;
    HitIsRetold(GroupOf(inputs, hit), sent[hit]);
    forall k | 0 <= k < |sent|
      ensures Spared(groups[k], told[k])
    {
      if k != hit { OutcomeIsSpared(GroupOf(inputs, k), sent[k]); }
    }
    GarbledIsWellFormed(t, n);
    GarbledIsAnotherText(t, n);
    GarbledIsTold(groups, sent, t, ab, hit, n);
    SparedTextIsReported(parser, groups, told, u, ab);
  }

  // ---------------------------------------------------------------- it can happen

  /** Words on the air, one after the other, all bits with the same confidence. */
  function OnAir(words: seq<Word>): (inputs: seq<Input>)
    ensures |inputs| == |words| * BLOCK_LENGTH
  {
    seq(|words| * BLOCK_LENGTH, j requires 0 <= j < |words| * BLOCK_LENGTH =>
      Input(words[j / BLOCK_LENGTH][j % BLOCK_LENGTH], 1.0))
  }

  lemma WordOnAir(words: seq<Word>, k: nat, i: nat)
    requires i < 4 && (k + 1) * 4 <= |words|
    ensures (k + 1) * GROUP_LENGTH <= |OnAir(words)|
    ensures WordOf(GroupOf(OnAir(words), k), i) == words[4 * k + i] && Uniform(StrengthsOf(GroupOf(OnAir(words), k), i))
  {
    var x := GroupOf(OnAir(words), k);
    forall j | 0 <= j < BLOCK_LENGTH
      ensures WordOf(x, i)[j] == words[4 * k + i][j] && StrengthsOf(x, i)[j] == 1.0
    {
      assert x[i * BLOCK_LENGTH + j] == OnAir(words)[(4 * k + i) * BLOCK_LENGTH + j];
    }
  }

  /** Segment k of the text, undamaged. */
  function SegmentSent(t: seq<Byte>, ab: bool, k: nat): SentGroup
    requires 4 * k + 4 <= |t|
  {
    SentGroup([SentBlock(NoData(), 0, 0), SentBlock(SegmentHeader(false, seq(6, i => false), ab, k), 0, 0),
               SentBlock(TwoBytes(t[4 * k], t[4 * k + 1]), 0, 0),
               SentBlock(TwoBytes(t[4 * k + 2], t[4 * k + 3]), 0, 0)], false)
  }

  function SegmentsSent(t: seq<Byte>, ab: bool): seq<SentGroup>
    requires |t| % 4 == 0
  {
    seq(|t| / 4, k requires 0 <= k < |t| / 4 => SegmentSent(t, ab, k))
  }

  /** Word w of those segments; the fourth of segment n is damaged. */
  function HitWord(t: seq<Byte>, ab: bool, n: nat, w: nat): Word
    requires 4 * (w / 4) + 4 <= |t|
  {
    var g := SegmentSent(t, ab, w / 4);
    if w == 4 * n + 3 then Damaged(g.blocks[3].data, D, TwoBits(MISLEADING))
    else Transmit(g.blocks[w % 4].data, Expected(w % 4))
  }

  function HitWords(t: seq<Byte>, ab: bool, n: nat): (words: seq<Word>)
    requires |t| % 4 == 0
    ensures |words| == |t|
  {
    seq(|t|, w requires 0 <= w < |t| => HitWord(t, ab, n, w))
  }

  lemma HitWordsArrive(t: seq<Byte>, ab: bool, n: nat, k: nat, i: nat)
    requires |t| % 4 == 0 && 4 * n + 4 <= |t| && 4 * k + 4 <= |t| && i < 4
    ensures var g, x := SegmentSent(t, ab, k), GroupOf(OnAir(HitWords(t, ab, n)), k);
      if (k, i) == (n, 3)
      then WordOf(x, i) == Damaged(g.blocks[3].data, D, TwoBits(MISLEADING))
           && WRONG_BIT in Weakest(StrengthsOf(x, i), BLOCK_LENGTH)
      else RightOrLost(x, g, i) && !IsLost(WordOf(x, i), i, StrengthsOf(x, i))
  {
    hide WordOf, StrengthsOf, Transmit, Damaged, OnAir, IsLost, RightOrLost, Weakest, Uniform, SegmentHeader, TwoBytes;
    var g, x := SegmentSent(t, ab, k), GroupOf(OnAir(HitWords(t, ab, n)), k);
    WordOnAir(HitWords(t, ab, n), k, i);
    assert (4 * k + i) / 4 == k && (4 * k + i) % 4 == i;
    if (k, i) == (n, 3) {
      FirstSixAreWeakest(StrengthsOf(x, i), WRONG_BIT);
    } else {
      assert Fits(g.blocks[i], WordOf(x, i), i) by {
        NoDamage(Transmit(g.blocks[i].data, Expected(i)), 0);
        assert Wire(g.blocks[i], Expected(i)) == Transmit(g.blocks[i].data, Expected(i));
      }
      FittingBlockArrives(x, g, i);
    }
  }

  lemma SegmentIsSent(t: seq<Byte>, ab: bool, k: nat)
    requires 4 * k + 4 <= |t| <= TEXT_LENGTH
    ensures SendsFour(SegmentSent(t, ab, k), t, ab, k)
  {
    hide SegmentHeader, TwoBytes;
    assert SegmentSent(t, ab, k).blocks[1].data == SegmentHeader(false, seq(6, i => false), ab, k);
  }

  /** Every text in whole segments can be sent like that, whichever of them is to be hit. */
  lemma OneHitExists(t: seq<Byte>, ab: bool, n: nat)
    requires |t| % 4 == 0 && |t| <= TEXT_LENGTH && EndsPrintable(t, n)
    ensures OneHit(OnAir(HitWords(t, ab, n)), SegmentsSent(t, ab), t, ab, n, n)
  {
    hide WordOf, StrengthsOf, Damaged, OnAir, IsLost, RightOrLost, IsPrintable, GroupOutcome, HasText, SendsFour,
      IsVersionB, SegmentSent, HitWords, Weakest;
    var sent, inputs := SegmentsSent(t, ab), OnAir(HitWords(t, ab, n));
    forall k: nat | k < |sent|
      ensures SendsFour(sent[k], t, ab, k) && (k != n ==> SendsOtherPart(sent[k], t, ab, n))
      ensures forall i :: 0 <= i < 4 && (k, i) != (n, 3) ==>
        RightOrLost(GroupOf(inputs, k), sent[k], i)
        && !IsLost(WordOf(GroupOf(inputs, k), i), i, StrengthsOf(GroupOf(inputs, k), i))
    {
      SegmentIsSent(t, ab, k);
      HitWordsArrive(t, ab, n, k, 0);
      HitWordsArrive(t, ab, n, k, 1);
      HitWordsArrive(t, ab, n, k, 2);
      HitWordsArrive(t, ab, n, k, 3);
    }
    HitWordsArrive(t, ab, n, n, 3);
    forall i | 0 <= i < |t| && i / 4 != n
      ensures Arrives(Outcomes(inputs, |sent|), sent, t, ab, i)
    {
      HasTextIff(GroupOf(inputs, i / 4), IsVersionB(sent[i / 4].blocks[1].data));
      assert Sends(sent[i / 4], t, ab, i);
    }
  }
}
