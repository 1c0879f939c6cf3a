/** The radiotext parser: segments merged by quality, cleared by the A/B flag, reported when complete. */
module RdsText {
  import opened Common
  import opened Binary
  import opened Bytes
  import opened RdsCode
  import opened RdsBlockStream

  const TEXT_LENGTH: nat := 64
  const SPACE: Byte := 32
  const CARRIAGE_RETURN: Byte := 13
  const LINE_FEED: Byte := 10

  // ---------------------------------------------------------------- reading a group

  /** A data word holds two bytes. */
  function HighByte(d: Data): Byte { ValueInRange(d[..8]); Value(d[..8]) }

  function LowByte(d: Data): Byte { ValueInRange(d[8..]); Value(d[8..]) }

  function GroupType(block2: Data): nat { Value(block2[..4]) }

  function IsVersionB(block2: Data): bool { block2[4] }

  function AbFlag(block2: Data): bool { block2[11] }

  function SegmentAddress(block2: Data): (n: nat)
    ensures n < 16
  {
    ValueInRange(block2[12..]);
    Value(block2[12..])
  }

  function Sanitize(value: Byte): Byte
  {
    if value == 0 || value == CARRIAGE_RETURN || value == LINE_FEED then 0
    else if 32 <= value < 127 then value
    else SPACE
  }

  predicate IsPrintable(c: Byte) { 32 <= c < 127 }

  /** Printable characters are kept, exactly NUL and the line breaks end a text, all else is a space; so sanitising
      again changes nothing. */
  lemma SanitizedStaysSo(value: Byte)
    ensures IsPrintable(value) ==> Sanitize(value) == value
    ensures Sanitize(value) == 0 <==> value == 0 || value == 10 || value == 13
    ensures !IsPrintable(value) && Sanitize(value) != 0 ==> Sanitize(value) == 32
    ensures Sanitize(Sanitize(value)) == Sanitize(value)
  {}

  function BlockQuality(b: BlockInfo): real
  {
    if !b.isReceived then 0.0
    else b.confidence / (1.0 + b.correctedBitCount as real) + (if b.hadErrors then 0.25 else 2.0)
  }

  /** At equal confidence an undamaged block is worth more than a damaged one, and fewer corrections more than many. */
  lemma QualityRanksDamage(a: BlockInfo, b: BlockInfo)
    requires a.isReceived && b.isReceived && a.confidence == b.confidence >= 0.0
    requires a.correctedBitCount <= b.correctedBitCount && (a.hadErrors ==> b.hadErrors)
    ensures BlockQuality(a) >= BlockQuality(b) > 0.0
    ensures a.hadErrors != b.hadErrors ==> BlockQuality(a) > BlockQuality(b)
    ensures a.correctedBitCount < b.correctedBitCount && a.confidence > 0.0 ==> BlockQuality(a) > BlockQuality(b)
  {
    var x, y := 1.0 + a.correctedBitCount as real, 1.0 + b.correctedBitCount as real;
    QuotientFalls(a.confidence, x, y);
  }

  lemma QuotientFalls(c: real, x: real, y: real)
    requires c >= 0.0 && 0.0 < x <= y
    ensures c / x >= c / y >= 0.0 && (x < y && c > 0.0 ==> c / x > c / y)
  {
    var p, q := c / x, c / y;
    assert p * x == c == q * y;
    FactorKeepsSign(q, y);
    FactorKeepsSign(p - q, x);
  }

  lemma FactorKeepsSign(a: real, x: real)
    requires x > 0.0
    ensures (a * x >= 0.0 ==> a >= 0.0) && (a * x > 0.0 ==> a > 0.0)
  {}

  predicate UsableForText(b: BlockInfo) { b.isReceived && (!b.hadErrors || b.correctedBitCount > 0) }

  predicate Understood(g: Group) { g[0].isReceived && g[1].isReceived }

  predicate IsTextGroup(g: Group) { Understood(g) && GroupType(g[1].data) == 2 }

  /** The characters a text group contributes: four, two, or none when a block it needs is not usable. */
  function TextChars(g: Group): (chars: seq<Byte>)
    ensures |chars| <= 4 && (IsVersionB(g[1].data) ==> |chars| <= 2)
  {
    if IsVersionB(g[1].data) then
      if UsableForText(g[1]) && UsableForText(g[3]) then [HighByte(g[3].data), LowByte(g[3].data)] else []
    else
      if UsableForText(g[1]) && UsableForText(g[2]) && UsableForText(g[3])
      then [HighByte(g[2].data), LowByte(g[2].data), HighByte(g[3].data), LowByte(g[3].data)] else []
  }

  function TextPosition(g: Group): (position: nat)
    ensures position + |TextChars(g)| <= TEXT_LENGTH
  {
    SegmentAddress(g[1].data) * (if IsVersionB(g[1].data) then 2 else 4)
  }

  function TextQuality(g: Group): real
  {
    if IsVersionB(g[1].data) then BlockQuality(g[1]) + BlockQuality(g[3])
    else BlockQuality(g[1]) + BlockQuality(g[2]) + BlockQuality(g[3])
  }

  predicate NoWorse(a: BlockInfo, b: BlockInfo)
  {
    && a.isReceived && b.isReceived && a.confidence == b.confidence >= 0.0
    && a.correctedBitCount <= b.correctedBitCount && (a.hadErrors ==> b.hadErrors)
  }

  /** A worse block makes a worse group, whichever of the blocks its text depends on that is: the third counts in
      version A only. */
  lemma GroupQualityRanksDamage(g: Group, h: Group)
    requires IsVersionB(g[1].data) == IsVersionB(h[1].data)
    requires NoWorse(g[1], h[1]) && NoWorse(g[2], h[2]) && NoWorse(g[3], h[3])
    ensures TextQuality(g) >= TextQuality(h) > 0.0
    ensures g[1].hadErrors != h[1].hadErrors || g[3].hadErrors != h[3].hadErrors ==> TextQuality(g) > TextQuality(h)
    ensures !IsVersionB(g[1].data) && g[2].hadErrors != h[2].hadErrors ==> TextQuality(g) > TextQuality(h)
    ensures forall i :: 1 <= i < 4 && (i == 2 ==> !IsVersionB(g[1].data)) ==>
      (g[i].confidence > 0.0 && g[i].correctedBitCount < h[i].correctedBitCount ==> TextQuality(g) > TextQuality(h))
  {
    hide BlockQuality, IsVersionB;
    QualityRanksDamage(g[1], h[1]);
    QualityRanksDamage(g[2], h[2]);
    QualityRanksDamage(g[3], h[3]);
  }

  // ---------------------------------------------------------------- cells

  datatype Cell = Unseen | Seen(ch: Byte, quality: real)

  type Cells = c: seq<Cell> | |c| == TEXT_LENGTH witness seq(TEXT_LENGTH, i => Unseen)

  function Blank(): Cells { seq(TEXT_LENGTH, i => Unseen) }

  /** What one observation makes of a cell. */
  function Observe(cell: Cell, ch: Byte, quality: real): Cell
  {
    match cell
    case Unseen => Seen(ch, quality)
    case Seen(stored, best) =>
      if stored != ch && quality < best then cell else Seen(ch, if quality > best then quality else best)
  }

  function Written(cells: Cells, position: nat, chars: seq<Byte>, quality: real): Cells
  {
    seq(TEXT_LENGTH, i requires 0 <= i < TEXT_LENGTH =>
      if position <= i < position + |chars|
      then Observe(cells[i], Sanitize(chars[i - position]), quality) else cells[i])
  }

  /** The text ends at `end`: everything before is received and no terminator. */
  predicate EndsAt(cells: Cells, end: nat)
  {
    && end <= TEXT_LENGTH
    && (forall i :: 0 <= i < end ==> cells[i].Seen? && cells[i].ch != 0)
    && (end < TEXT_LENGTH ==> cells[end].Seen? && cells[end].ch == 0)
  }

  predicate CompleteAt(cells: Cells, end: nat)
  {
    EndsAt(cells, end) && exists i :: 0 <= i < end && cells[i].ch != SPACE
  }

  predicate IsComplete(cells: Cells) { exists end :: 0 <= end <= TEXT_LENGTH && CompleteAt(cells, end) }

  /** The characters as kept: a zero where nothing has been received. */
  function Kept(cells: Cells): seq<Byte>
  {
    seq(TEXT_LENGTH, i requires 0 <= i < TEXT_LENGTH => if cells[i].Seen? then cells[i].ch else 0)
  }

  /** What a reader of a zero-terminated string sees. */
  function UpToZero(chars: seq<Byte>): (text: seq<Byte>)
    ensures |text| <= |chars| && text == chars[..|text|] && 0 !in text
    ensures |text| < |chars| ==> chars[|text|] == 0
  {
    if chars == [] || chars[0] == 0 then [] else [chars[0]] + UpToZero(chars[1..])
  }

  lemma UpToZeroIs(chars: seq<Byte>, n: nat)
    requires n <= |chars| && (forall i :: 0 <= i < n ==> chars[i] != 0) && (n < |chars| ==> chars[n] == 0)
    ensures UpToZero(chars) == chars[..n]
  {
    var text := UpToZero(chars);
    forall i | 0 <= i < |text|
      ensures chars[i] != 0
    {
      assert text[i] in text;
    }
  }

  // ---------------------------------------------------------------- one group

  datatype TextState = TextState(cells: Cells, flag: Option<bool>, reported: seq<Byte>, pi: Option<Data>)

  function Start(): TextState { TextState(Blank(), None, [], None) }

  function WithPi(s: TextState, g: Group): TextState
  {
    if UsableForText(g[0]) || s.pi == None then s.(pi := Some(g[0].data)) else s
  }

  function Flagged(s: TextState, flag: bool): TextState
  {
    if s.flag == Some(flag) then s else s.(flag := Some(flag), cells := Blank())
  }

  function WithText(s: TextState, g: Group): TextState
  {
    if GroupType(g[1].data) != 2 then s
    else
      var flagged := Flagged(s, AbFlag(g[1].data));
      flagged.(cells := Written(flagged.cells, TextPosition(g), TextChars(g), TextQuality(g)))
  }

  predicate Reports(s: TextState) { IsComplete(s.cells) && s.reported != UpToZero(Kept(s.cells)) }

  function Reported(s: TextState): TextState { if Reports(s) then s.(reported := UpToZero(Kept(s.cells))) else s }

  function Process(s: TextState, g: Group): TextState
  {
    if Understood(g) then Reported(WithText(WithPi(s, g), g)) else s
  }

  function Run(s: TextState, groups: seq<Group>): TextState
  {
    if groups == [] then s else Process(Run(s, groups[..|groups| - 1]), groups[|groups| - 1])
  }

  lemma {:induction false} RunConcat(s: TextState, a: seq<Group>, b: seq<Group>)
    ensures Run(s, a + b) == Run(Run(s, a), b)
  {
    hide Process;
    if b == [] {
      assert a + b == a;
    } else {
      var init := b[..|b| - 1];
      assert (a + b)[..|a + b| - 1] == a + init;
      RunConcat(s, a, init);
    }
  }

  // ---------------------------------------------------------------- what completeness means

  lemma TextOfComplete(cells: Cells, end: nat)
    requires CompleteAt(cells, end)
    ensures UpToZero(Kept(cells)) == Kept(cells)[..end] && |UpToZero(Kept(cells))| == end > 0
  {
    var kept := Kept(cells);
    assert forall i :: 0 <= i < end ==> kept[i] == cells[i].ch;
    UpToZeroIs(kept, end);
  }

  /** The position of the first terminator received, or 64. */
  function FirstTerminator(cells: Cells, from: nat): (end: nat)
    requires from <= TEXT_LENGTH
    ensures from <= end <= TEXT_LENGTH
    ensures forall i :: from <= i < end ==> !(cells[i].Seen? && cells[i].ch == 0)
    ensures end < TEXT_LENGTH ==> cells[end].Seen? && cells[end].ch == 0
    decreases TEXT_LENGTH - from
  {
    if from == TEXT_LENGTH || (cells[from].Seen? && cells[from].ch == 0) then from else FirstTerminator(cells, from + 1)
  }

  ghost predicate NonSpaceBelow(cells: Cells, n: nat)
    requires n <= TEXT_LENGTH
  {
    exists i :: 0 <= i < n && cells[i].Seen? && cells[i].ch != SPACE
  }

  /** A text is complete exactly when everything before the first terminator received is there, and is not all
      spaces. */
  lemma CompleteIffNoHole(cells: Cells)
    ensures var end := FirstTerminator(cells, 0);
      IsComplete(cells) <==>
        (forall i :: 0 <= i < end ==> cells[i].Seen?) && NonSpaceBelow(cells, end)
  {
    var end := FirstTerminator(cells, 0);
    if IsComplete(cells) {
      var e :| 0 <= e <= TEXT_LENGTH && CompleteAt(cells, e);
      assert e >= end && end >= e;
    }
    if (forall i :: 0 <= i < end ==> cells[i].Seen?) && NonSpaceBelow(cells, end) {
      assert CompleteAt(cells, end);
    }
  }

  // ---------------------------------------------------------------- the object

  class Parser {
    const radiotext: array<Byte>
    const radiotextSeen: array<bool>
    const radiotextQuality: array<real>
    var radiotextAb: bool
    var radiotextAbValid: bool
    var lastReportedRadiotext: seq<Byte>
    var hasPi: bool
    var pi: Data

    ghost predicate Valid()
      reads this, radiotext, radiotextSeen
    {
      && radiotext.Length == TEXT_LENGTH + 1 && radiotextSeen.Length == TEXT_LENGTH == radiotextQuality.Length
      && radiotext as object != radiotextSeen && radiotext as object != radiotextQuality
      && radiotextSeen as object != radiotextQuality
      && radiotext[TEXT_LENGTH] == 0
      && forall i :: 0 <= i < TEXT_LENGTH && !radiotextSeen[i] ==> radiotext[i] == 0
    }

    ghost function CellAt(i: nat): Cell
      requires Valid() && i < TEXT_LENGTH
      reads this, radiotext, radiotextSeen, radiotextQuality
    {
      if radiotextSeen[i] then Seen(radiotext[i], radiotextQuality[i]) else Unseen
    }

    ghost function CellsNow(): Cells
      requires Valid()
      reads this, radiotext, radiotextSeen, radiotextQuality
    {
      seq(TEXT_LENGTH, i requires 0 <= i < TEXT_LENGTH reads this, radiotext, radiotextSeen, radiotextQuality
                                  requires Valid() => CellAt(i))
    }

    /** The value of the object, on which its steps are specified. */
    ghost function Now(): TextState
      requires Valid()
      reads this, radiotext, radiotextSeen, radiotextQuality
    {
      TextState(CellsNow(), if radiotextAbValid then Some(radiotextAb) else None, lastReportedRadiotext,
            if hasPi then Some(pi) else None)
    }

    constructor ()
      ensures Valid() && Now() == Start()
      ensures fresh(radiotext) && fresh(radiotextSeen) && fresh(radiotextQuality)
    {
      radiotext := new Byte[TEXT_LENGTH + 1](i => 0);
      radiotextSeen := new bool[TEXT_LENGTH](i => false);
      radiotextQuality := new real[TEXT_LENGTH](i => 0.0);
      radiotextAb, radiotextAbValid, lastReportedRadiotext, hasPi, pi := false, false, [], false, NoData();
    }

    method ClearRadiotext()
      requires Valid()
      modifies radiotext, radiotextSeen, radiotextQuality
      ensures Valid() && CellsNow() == Blank()
    {
      forall i | 0 <= i <= TEXT_LENGTH { radiotext[i] := 0; }
      forall i | 0 <= i < TEXT_LENGTH { radiotextQuality[i] := 0.0; }
      forall i | 0 <= i < TEXT_LENGTH { radiotextSeen[i] := false; }
    }

    method UpdateRadiotextChars(position: nat, chars: seq<Byte>, quality: real)
      requires Valid()
      modifies radiotext, radiotextSeen, radiotextQuality
      ensures Valid() && CellsNow() == Written(old(CellsNow()), position, chars, quality)
    {
      for i := 0 to |chars|
        invariant Valid()
        invariant CellsNow() == Written(old(CellsNow()), position, chars[..i], quality)
      {
        var textIndex := position + i;
        if textIndex >= TEXT_LENGTH {
          WrittenPastEnd(old(CellsNow()), position, chars, i, quality);
          break;
        }
        WrittenStep(old(CellsNow()), position, chars, i, quality);
        ObserveAt(textIndex, Sanitize(chars[i]), quality);
      }
      assert chars[..|chars|] == chars;
      radiotext[TEXT_LENGTH] := 0;
    }

    /** One character of the merging loop. */
    method ObserveAt(textIndex: nat, sanitized: Byte, quality: real)
      requires Valid() && textIndex < TEXT_LENGTH
      modifies radiotext, radiotextSeen, radiotextQuality
      ensures Valid() && CellsNow()
         == old(CellsNow())[textIndex := Observe(old(CellsNow())[textIndex], sanitized, quality)]
    {
      var seen := radiotextSeen[textIndex];
      var sameChar := seen && radiotext[textIndex] == sanitized;
      if seen && !sameChar && quality < radiotextQuality[textIndex] {
        return;
      }
      radiotext[textIndex] := sanitized;
      radiotextSeen[textIndex] := true;
      if !seen || quality > radiotextQuality[textIndex] {
        radiotextQuality[textIndex] := quality;
      }
    }

    static lemma WrittenStep(cells: Cells, position: nat, chars: seq<Byte>, i: nat, quality: real)
      requires i < |chars| && position + i < TEXT_LENGTH
      ensures var before := Written(cells, position, chars[..i], quality);
        Written(cells, position, chars[..i + 1], quality)
          == before[position + i := Observe(before[position + i], Sanitize(chars[i]), quality)]
    {}

    static lemma WrittenPastEnd(cells: Cells, position: nat, chars: seq<Byte>, i: nat, quality: real)
      requires i <= |chars| && position + i >= TEXT_LENGTH
      ensures Written(cells, position, chars[..i], quality) == Written(cells, position, chars, quality)
    {}

    method RadiotextIsComplete() returns (complete: bool)
      requires Valid()
      ensures complete == IsComplete(CellsNow())
    {
      hide FirstTerminator, IsComplete, NonSpaceBelow;
      ghost var cells := CellsNow();
      CompleteIffNoHole(cells);
      NonSpaceNeedsRoom(cells);
      if radiotext[0] == 0 {
        assert !cells[0].Seen? || FirstTerminator(cells, 0) == 0;
        return false;
      }
      var endIndex, foundEnd, hasNonSpace := ScanText();
      if !foundEnd {
        var all := AllSeen(TEXT_LENGTH);
        if !all {
          return false;
        }
        for i := 0 to TEXT_LENGTH
          invariant hasNonSpace <==> NonSpaceBelow(cells, TEXT_LENGTH)
        {
          assert cells[i] == CellAt(i) && CellsNow()[i].Seen?;
          if radiotext[i] != SPACE {
            NonSpaceIntro(cells, i, TEXT_LENGTH);
            hasNonSpace := true;
            break;
          }
        }
      }
      var all := AllSeen(endIndex);
      complete := all && hasNonSpace;
    }

    static lemma NonSpaceNeedsRoom(cells: Cells)
      ensures !NonSpaceBelow(cells, 0)
    {}

    static lemma NonSpaceIntro(cells: Cells, i: nat, n: nat)
      requires i < n <= TEXT_LENGTH && cells[i].Seen? && cells[i].ch != SPACE
      ensures NonSpaceBelow(cells, n)
    {}

    static lemma NonSpaceStep(cells: Cells, n: nat)
      requires n < TEXT_LENGTH
      ensures NonSpaceBelow(cells, n + 1) <==> NonSpaceBelow(cells, n) || (cells[n].Seen? && cells[n].ch != SPACE)
    {}

    /** The first pass: where the text ends, and whether it shows anything. */
    method ScanText() returns (endIndex: nat, foundEnd: bool, hasNonSpace: bool)
      requires Valid()
      ensures endIndex == FirstTerminator(CellsNow(), 0) && foundEnd == (endIndex < TEXT_LENGTH)
      ensures hasNonSpace <==> NonSpaceBelow(CellsNow(), endIndex)
    {
      hide FirstTerminator, NonSpaceBelow;
      ghost var cells := CellsNow();
      NonSpaceNeedsRoom(cells);
      endIndex, foundEnd, hasNonSpace := TEXT_LENGTH, false, false;
      for i := 0 to TEXT_LENGTH
        invariant !foundEnd && endIndex == TEXT_LENGTH
        invariant FirstTerminator(cells, 0) >= i
        invariant hasNonSpace <==> NonSpaceBelow(cells, i)
      {
        NonSpaceStep(cells, i);
        assert cells[i] == CellAt(i);
        if !radiotextSeen[i] {
          continue;
        }
        if radiotext[i] == 0 {
          endIndex, foundEnd := i, true;
          break;
        }
        if radiotext[i] != SPACE {
          hasNonSpace := true;
        }
      }
    }

    method AllSeen(end: nat) returns (all: bool)
      requires Valid() && end <= TEXT_LENGTH
      ensures all <==> forall i :: 0 <= i < end ==> CellsNow()[i].Seen?
    {
      for i := 0 to end
        invariant forall k: nat :: 0 <= k < i ==> CellsNow()[k].Seen?
      {
        if !radiotextSeen[i] {
          assert !CellsNow()[i].Seen?;
          return false;
        }
      }
      return true;
    }

    /** The text as a zero-terminated string is read. */
    method RadiotextString() returns (text: seq<Byte>)
      requires Valid()
      ensures text == UpToZero(Kept(CellsNow()))
    {
      ghost var kept := Kept(CellsNow());
      assert kept == radiotext[..TEXT_LENGTH];
      var n: nat := 0;
      while radiotext[n] != 0
        decreases TEXT_LENGTH - n
        invariant n <= TEXT_LENGTH && forall i :: 0 <= i < n ==> radiotext[i] != 0
      {
        n := n + 1;
      }
      UpToZeroIs(kept, n);
      text := radiotext[..n];
    }

    method ProcessGroup(g: Group) returns (processed: bool, radiotextChanged: bool)
      requires Valid()
      modifies this, radiotext, radiotextSeen, radiotextQuality
      ensures Valid() && Now() == Process(old(Now()), g)
      ensures processed == Understood(g)
      ensures radiotextChanged == (Understood(g) && Reports(WithText(WithPi(old(Now()), g), g)))
    {
      hide IsComplete, Written, Kept, Blank, TextChars, TextQuality, TextPosition;
      if !(g[0].isReceived && g[1].isReceived) {
        return false, false;
      }
      if UsableForText(g[0]) || !hasPi {
        hasPi, pi := true, g[0].data;
      }
      assert Now() == WithPi(old(Now()), g);
      ProcessText(g);
      radiotextChanged := Report();
      processed := true;
    }

    method ProcessText(g: Group)
      requires Valid()
      modifies `radiotextAb, `radiotextAbValid, radiotext, radiotextSeen, radiotextQuality
      ensures Valid() && Now() == WithText(old(Now()), g)
    {
      hide IsComplete, Kept, Written, Blank;
      var block2 := g[1].data;
      if GroupType(block2) == 2 {
        var ab := AbFlag(block2);
        if !radiotextAbValid || radiotextAb != ab {
          radiotextAb := ab;
          radiotextAbValid := true;
          ClearRadiotext();
        }
        assert Now() == Flagged(old(Now()), ab);
        WriteText(g);
      }
    }

    method WriteText(g: Group)
      requires Valid()
      modifies radiotext, radiotextSeen, radiotextQuality
      ensures Valid() && CellsNow() == Written(old(CellsNow()), TextPosition(g), TextChars(g), TextQuality(g))
    {
      var segment := SegmentAddress(g[1].data);
      if !IsVersionB(g[1].data) {
        if UsableForText(g[1]) && UsableForText(g[2]) && UsableForText(g[3]) {
          var chars := [HighByte(g[2].data), LowByte(g[2].data), HighByte(g[3].data), LowByte(g[3].data)];
          UpdateRadiotextChars(segment * 4, chars, BlockQuality(g[1]) + BlockQuality(g[2]) + BlockQuality(g[3]));
        }
      } else if UsableForText(g[1]) && UsableForText(g[3]) {
        UpdateRadiotextChars(segment * 2, [HighByte(g[3].data), LowByte(g[3].data)],
                             BlockQuality(g[1]) + BlockQuality(g[3]));
      }
    }

    method Report() returns (radiotextChanged: bool)
      requires Valid()
      modifies `lastReportedRadiotext
      ensures Valid() && Now() == Reported(old(Now())) && radiotextChanged == old(Reports(Now()))
    {
      var complete := RadiotextIsComplete();
      var text := RadiotextString();
      if complete {
        ghost var end :| 0 <= end <= TEXT_LENGTH && CompleteAt(CellsNow(), end);
        TextOfComplete(CellsNow(), end);
      }
      if complete && lastReportedRadiotext != text && radiotext[0] != 0 {
        lastReportedRadiotext := text;
        return true;
      }
      return false;
    }
  }

  // ---------------------------------------------------------------- merging

  /** One usable character heard. */
  datatype Observation = Observation(position: nat, ch: Byte, quality: real)

  function Observations(g: Group): seq<Observation>
  {
    seq(|TextChars(g)|, k requires 0 <= k < |TextChars(g)| =>
      Observation(TextPosition(g) + k, Sanitize(TextChars(g)[k]), TextQuality(g)))
  }

  /** The flag last heard and every usable character heard since it last changed. */
  datatype Heard = Heard(flag: Option<bool>, log: seq<Observation>)

  function Hear(groups: seq<Group>): Heard
  {
    if groups == [] then Heard(None, [])
    else
      var h, g := Hear(groups[..|groups| - 1]), groups[|groups| - 1];
      if !IsTextGroup(g) then h
      else
        var flag := Some(AbFlag(g[1].data));
        Heard(flag, (if h.flag == flag then h.log else []) + Observations(g))
  }

  /** The log's entry k is the best for its position: none better, and none as good after it. */
  predicate IsLatestBest(log: seq<Observation>, k: nat)
  {
    && k < |log|
    && forall j :: 0 <= j < |log| && log[j].position == log[k].position ==>
         log[j].quality <= log[k].quality && (j > k ==> log[j].quality < log[k].quality)
  }

  ghost predicate Merges(cell: Cell, log: seq<Observation>, i: nat)
  {
    match cell
    case Unseen => forall j :: 0 <= j < |log| ==> log[j].position != i
    case Seen(ch, quality) =>
      exists k: nat :: IsLatestBest(log, k) && log[k] == Observation(i, ch, quality)
  }

  lemma MergesOne(cell: Cell, log: seq<Observation>, i: nat, o: Observation)
    requires Merges(cell, log, i)
    ensures Merges(if o.position == i then Observe(cell, o.ch, o.quality) else cell, log + [o], i)
  {
    var more := log + [o];
    if cell.Unseen? {
      if o.position == i { assert IsLatestBest(more, |log|); }
    } else {
      var k: nat :| IsLatestBest(log, k) && log[k] == Observation(i, cell.ch, cell.quality);
      assert more[k] == log[k];
      if o.position != i || o.quality < cell.quality {
        assert IsLatestBest(more, k);
      } else {
        assert more[|log|] == o;
        assert IsLatestBest(more, |log|);
      }
    }
  }

  lemma {:induction false} MergesGroup(cells: Cells, log: seq<Observation>, i: nat, g: Group, n: nat)
    requires i < TEXT_LENGTH && Merges(cells[i], log, i) && n <= |TextChars(g)|
    ensures Merges(Written(cells, TextPosition(g), TextChars(g)[..n], TextQuality(g))[i], log + Observations(g)[..n], i)
  {
    hide Merges, Observe, TextChars, TextPosition, TextQuality, Sanitize;
    if n == 0 {
      assert log + Observations(g)[..0] == log;
    } else {
      MergesGroup(cells, log, i, g, n - 1);
      var o := Observations(g)[n - 1];
      var before := Written(cells, TextPosition(g), TextChars(g)[..n - 1], TextQuality(g));
      MergesOne(before[i], log + Observations(g)[..n - 1], i, o);
      assert log + Observations(g)[..n - 1] + [o] == log + Observations(g)[..n];
    }
  }

  /**
   * Whatever was received, each cell holds the best quality heard at its position since the flag last changed,
   * with the character of the latest observation of that quality.
   */
  lemma {:induction false} EveryRunMergesByQuality(groups: seq<Group>, i: nat)
    requires i < TEXT_LENGTH
    ensures Run(Start(), groups).flag == Hear(groups).flag
    ensures Merges(Run(Start(), groups).cells[i], Hear(groups).log, i)
  {
    hide Merges, Written, Reports, TextChars, TextPosition, TextQuality, Observations, GroupType, AbFlag;
    if groups == [] {
      NothingHeard(i);
    } else {
      var init, g := groups[..|groups| - 1], groups[|groups| - 1];
      EveryRunMergesByQuality(init, i);
      NothingHeard(i);
      var s, h := Run(Start(), init), Hear(init);
      if IsTextGroup(g) {
        var flag := AbFlag(g[1].data);
        var log := if h.flag == Some(flag) then h.log else [];
        MergesAllOfGroup(Flagged(WithPi(s, g), flag).cells, log, i, g);
      }
    }
  }

  lemma MergesAllOfGroup(cells: Cells, log: seq<Observation>, i: nat, g: Group)
    requires i < TEXT_LENGTH && Merges(cells[i], log, i)
    ensures Merges(Written(cells, TextPosition(g), TextChars(g), TextQuality(g))[i], log + Observations(g), i)
  {
    hide Merges, Written, TextChars, TextPosition, TextQuality;
    MergesGroup(cells, log, i, g, |TextChars(g)|);
    assert TextChars(g)[..|TextChars(g)|] == TextChars(g);
    assert Observations(g)[..|TextChars(g)|] == Observations(g);
  }

  lemma NothingHeard(i: nat)
    requires i < TEXT_LENGTH
    ensures Merges(Blank()[i], [], i)
  {}

  // ---------------------------------------------------------------- the programme identification

  /** The latest group understood whose first block was usable. */
  predicate LatestUsable(groups: seq<Group>, k: nat)
  {
    && k < |groups| && Understood(groups[k]) && UsableForText(groups[k][0])
    && forall j :: k < j < |groups| ==> !(Understood(groups[j]) && UsableForText(groups[j][0]))
  }

  predicate FirstUnderstood(groups: seq<Group>, k: nat)
  {
    k < |groups| && Understood(groups[k]) && forall j :: 0 <= j < k ==> !Understood(groups[j])
  }

  /** A noisy first block counts only while there is nothing better, and then only the first one does. */
  ghost predicate IsStablePi(pi: Option<Data>, groups: seq<Group>)
  {
    && (forall k: nat :: LatestUsable(groups, k) ==> pi == Some(groups[k][0].data))
    && ((forall j :: 0 <= j < |groups| ==> !(Understood(groups[j]) && UsableForText(groups[j][0]))) ==>
          forall k: nat :: FirstUnderstood(groups, k) ==> pi == Some(groups[k][0].data))
    && (pi == None <==> forall j :: 0 <= j < |groups| ==> !Understood(groups[j]))
  }

  function NextPi(pi: Option<Data>, g: Group): Option<Data>
  {
    if Understood(g) && (UsableForText(g[0]) || pi == None) then Some(g[0].data) else pi
  }

  lemma PiStep(pi: Option<Data>, groups: seq<Group>, g: Group)
    requires IsStablePi(pi, groups)
    ensures IsStablePi(NextPi(pi, g), groups + [g])
  {
    hide UsableForText, Understood;
    var more, next, n := groups + [g], NextPi(pi, g), |groups|;
    assert forall j :: 0 <= j < n ==> more[j] == groups[j];
    assert more[n] == g;
    forall k: nat | LatestUsable(more, k)
      ensures next == Some(more[k][0].data)
    {
      if k < n {
        assert LatestUsable(groups, k);
        assert !(Understood(more[n]) && UsableForText(more[n][0]));
        assert Understood(groups[k]);
      }
    }
    if forall j :: 0 <= j < |more| ==> !(Understood(more[j]) && UsableForText(more[j][0])) {
      forall k: nat | FirstUnderstood(more, k)
        ensures next == Some(more[k][0].data)
      {
        if k < n {
          assert FirstUnderstood(groups, k);
          assert Understood(groups[k]);
          assert !(Understood(more[n]) && UsableForText(more[n][0]));
        } else {
          assert forall j :: 0 <= j < n ==> !Understood(more[j]);
        }
      }
    }
  }

  lemma {:induction false} EveryRunKeepsStablePi(groups: seq<Group>)
    ensures IsStablePi(Run(Start(), groups).pi, groups)
  {
    hide IsStablePi, Written, Reports, GroupType, Flagged;
    if groups == [] {
      assert IsStablePi(None, []) by { NoPi(); }
    } else {
      var init, g := groups[..|groups| - 1], groups[|groups| - 1];
      EveryRunKeepsStablePi(init);
      PiStep(Run(Start(), init).pi, init, g);
      assert init + [g] == groups;
      ProcessPi(Run(Start(), init), g);
    }
  }

  lemma NoPi()
    ensures IsStablePi(None, [])
  {}

  lemma ProcessPi(s: TextState, g: Group)
    ensures Process(s, g).pi == NextPi(s.pi, g)
  {
    hide Written, Reports, GroupType;
  }
}
