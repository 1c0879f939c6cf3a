/** The ICY metadata interleaver and the client that takes the stream apart again. */
module Icy {
  import opened Common
  import opened Bytes

  const METAINT: nat := 16384
  const TITLE_MAX_LENGTH: nat := 240
  const BLOCK_CAPACITY: nat := 256
  const SIZE_MAX: nat := 0xFFFF_FFFF_FFFF_FFFF

  // ---------------------------------------------------------------- titles

  const SPACE: Byte := 32
  const QUOTE: Byte := 39
  const SEMICOLON: Byte := 59

  /** What one byte of a text (a run of bytes without NUL) leaves in the copy: quotes and semicolons become spaces,
      other unprintable bytes vanish, and nothing is kept before the first printing byte. */
  function Emitted(c: Byte, started: bool): seq<Byte>
  {
    if c == QUOTE || c == SEMICOLON then (if started then [SPACE] else [])
    else if 32 <= c < 127 then (if started || c != SPACE then [c] else [])
    else []
  }

  /** What is kept of a text in a room of `room` bytes. */
  function Kept(source: seq<Byte>, room: nat, started: bool): (r: seq<Byte>)
    ensures |r| <= room
    decreases |source|
  {
    if source == [] || room == 0 then []
    else
      var e := Emitted(source[0], started);
      e + Kept(source[1..], room - |e|, started || e != [])
  }

  function TrimRight(s: seq<Byte>): seq<Byte>
  {
    if s != [] && s[|s| - 1] == SPACE then TrimRight(s[..|s| - 1]) else s
  }

  function CopiedText(source: seq<Byte>, capacity: nat): seq<Byte>
    requires capacity > 0
  {
    TrimRight(Kept(source, capacity - 1, false))
  }

  predicate TitleByte(c: Byte) { 32 <= c < 127 && c != QUOTE && c != SEMICOLON }

  /** Printable, free of quotes and semicolons, and with no space at either end. */
  predicate IsTitle(t: seq<Byte>)
  {
    (forall c :: c in t ==> TitleByte(c)) && (t != [] ==> t[0] != SPACE && t[|t| - 1] != SPACE)
  }

  /** One byte of the copying loop. */
  lemma KeptStep(source: seq<Byte>, read: nat, room: nat, started: bool)
    requires read < |source| && room > 0
    ensures var e := Emitted(source[read], started);
      |e| <= 1 && Kept(source[read..], room, started) == e + Kept(source[read + 1..], room - |e|, started || e != [])
  {
    assert source[read..][1..] == source[read + 1..];
  }

  /** Writes what is kept of one byte. */
  method KeepByte(dest: array<Byte>, writePos: nat, c: Byte, started: bool) returns (next: nat, nowStarted: bool)
    requires writePos < dest.Length
    modifies dest
    ensures var e := Emitted(c, started);
      next == writePos + |e| <= dest.Length && dest[..next] == old(dest[..writePos]) + e
         && nowStarted == (started || e != [])
  {
    next, nowStarted := writePos, started;
    if c == QUOTE || c == SEMICOLON {
      if started {
        dest[writePos] := SPACE;
        next := writePos + 1;
      }
    } else if 32 <= c < 127 {
      if started || c != SPACE {
        dest[writePos] := c;
        next := writePos + 1;
        nowStarted := true;
      }
    }
  }

  method KeepInto(dest: array<Byte>, capacity: nat, source: seq<Byte>) returns (writePos: nat)
    requires 0 < capacity <= dest.Length
    modifies dest
    ensures writePos < capacity && dest[..writePos] == Kept(source, capacity - 1, false)
  {
    hide Kept, Emitted;
    writePos := 0;
    var read: nat, started := 0, false;
    assert source[0..] == source;
    while read < |source| && writePos + 1 < capacity
      invariant read <= |source| && writePos + 1 <= capacity
      invariant dest[..writePos] + Kept(source[read..], capacity - 1 - writePos, started)
         == Kept(source, capacity - 1, false)
      decreases |source| - read
    {
      KeptStep(source, read, capacity - 1 - writePos, started);
      ghost var done, e := dest[..writePos], Emitted(source[read], started);
      ghost var rest := Kept(source[read + 1..], capacity - 1 - writePos - |e|, started || e != []);
      assert done + (e + rest) == done + e + rest;
      writePos, started := KeepByte(dest, writePos, source[read], started);
      read := read + 1;
    }
    KeptNothing(source[read..], capacity - 1 - writePos, started);
  }

  lemma KeptNothing(source: seq<Byte>, room: nat, started: bool)
    ensures source == [] || room == 0 ==> Kept(source, room, started) == []
  {}

  method CopyText(dest: array<Byte>, capacity: nat, source: seq<Byte>)
    requires capacity <= dest.Length
    requires 0 !in source
    modifies dest
    ensures capacity > 0 ==> var t := CopiedText(source, capacity);
      |t| < capacity && dest[..|t|] == t && dest[|t|] == 0
    ensures capacity == 0 ==> dest[..] == old(dest[..])
  {
    if capacity == 0 {
      return;
    }
    var writePos: nat := KeepInto(dest, capacity, source);
    while writePos > 0 && dest[writePos - 1] == SPACE
      invariant writePos + 1 <= capacity
      invariant TrimRight(dest[..writePos]) == CopiedText(source, capacity)
    {
      assert dest[..writePos][..writePos - 1] == dest[..writePos - 1];
      writePos := writePos - 1;
    }
    dest[writePos] := 0;
  }

  lemma {:induction false} KeptBytes(source: seq<Byte>, room: nat, started: bool)
    ensures var k := Kept(source, room, started);
      (forall c :: c in k ==> TitleByte(c)) && (!started && k != [] ==> k[0] != SPACE)
    decreases |source|
  {
    if source != [] && room > 0 {
      var e := Emitted(source[0], started);
      KeptBytes(source[1..], room - |e|, started || e != []);
    }
  }

  lemma {:induction false} TrimRightIsPrefix(s: seq<Byte>)
    ensures TrimRight(s) <= s
    ensures TrimRight(s) != [] ==> TrimRight(s)[|TrimRight(s)| - 1] != SPACE
    ensures s != [] && s[0] != SPACE ==> TrimRight(s) != []
    ensures forall i :: |TrimRight(s)| <= i < |s| ==> s[i] == SPACE
  {
    if s != [] && s[|s| - 1] == SPACE {
      TrimRightIsPrefix(s[..|s| - 1]);
    }
  }

  lemma CopiedTextIsTitle(source: seq<Byte>, capacity: nat)
    requires capacity > 0
    ensures IsTitle(CopiedText(source, capacity)) && |CopiedText(source, capacity)| < capacity
  {
    KeptBytes(source, capacity - 1, false);
    TrimRightIsPrefix(Kept(source, capacity - 1, false));
  }

  lemma {:induction false} TitleIsKept(t: seq<Byte>, room: nat, started: bool)
    requires |t| <= room && forall c :: c in t ==> TitleByte(c)
    requires !started && t != [] ==> t[0] != SPACE
    ensures Kept(t, room, started) == t
    decreases |t|
  {
    if t != [] {
      assert t[0] in t;
      TitleIsKept(t[1..], room - 1, true);
    }
  }

  /** Titles, and only titles that fit, are copied unchanged. */
  lemma CopiedUnchangedIffTitle(t: seq<Byte>, capacity: nat)
    requires capacity > 0
    ensures CopiedText(t, capacity) == t <==> IsTitle(t) && |t| < capacity
  {
    CopiedTextIsTitle(t, capacity);
    if IsTitle(t) && |t| < capacity {
      TitleIsKept(t, capacity - 1, false);
    }
  }

  /** Nothing for an unprintable byte, a space for a quote or a semicolon. */
  function Marked(c: Byte): seq<Byte>
  {
    if c < 32 || c > 126 then [] else if c == QUOTE || c == SEMICOLON then [SPACE] else [c]
  }

  function Cleaned(text: seq<Byte>): seq<Byte>
  {
    if text == [] then [] else Marked(text[0]) + Cleaned(text[1..])
  }

  function FirstOf(s: seq<Byte>, n: nat): seq<Byte> { if n <= |s| then s[..n] else s }

  predicate AreSpaces(s: seq<Byte>) { forall i :: 0 <= i < |s| ==> s[i] == SPACE }

  lemma {:induction false} KeptIsCleaned(source: seq<Byte>, room: nat)
    ensures Kept(source, room, true) == FirstOf(Cleaned(source), room)
    decreases |source|
  {
    if source != [] && room > 0 {
      var e, rest := Marked(source[0]), Cleaned(source[1..]);
      assert Emitted(source[0], true) == e;
      hide Emitted, Marked, Cleaned;
      KeptIsCleaned(source[1..], room - |e|);
      assert FirstOf(e + rest, room) == e + FirstOf(rest, room - |e|);
    }
  }

  /** Before the first printing byte spaces are passed over. */
  lemma {:induction false} KeptFromFirst(source: seq<Byte>, room: nat) returns (lead: nat)
    ensures lead <= |Cleaned(source)| && AreSpaces(Cleaned(source)[..lead])
    ensures Kept(source, room, false) == FirstOf(Cleaned(source)[lead..], room)
    decreases |source|
  {
    lead := 0;
    if source != [] && room > 0 {
      var e, mark, rest := Emitted(source[0], false), Marked(source[0]), Cleaned(source[1..]);
      assert if e == [] then AreSpaces(mark) else e == mark && |e| == 1;
      assert Kept(source, room, false) == e + Kept(source[1..], room - |e|, e != []);
      assert Cleaned(source) == mark + rest;
      hide Kept, Emitted, Marked, Cleaned;
      if e == [] {
        var l := KeptFromFirst(source[1..], room);
        lead := |mark| + l;
        SpacesFirst(mark, rest, l);
      } else {
        KeptIsCleaned(source[1..], room - 1);
        FirstOfMore(e, rest, room);
      }
    }
  }

  lemma SpacesFirst(mark: seq<Byte>, rest: seq<Byte>, l: nat)
    requires l <= |rest| && AreSpaces(mark) && AreSpaces(rest[..l])
    ensures (mark + rest)[|mark| + l..] == rest[l..] && AreSpaces((mark + rest)[..|mark| + l])
  {
    assert (mark + rest)[..|mark| + l] == mark + rest[..l];
  }

  lemma FirstOfMore(e: seq<Byte>, rest: seq<Byte>, room: nat)
    requires |e| <= room
    ensures FirstOf((e + rest)[0..], room) == e + FirstOf(rest, room - |e|)
  {
    assert (e + rest)[0..] == e + rest;
  }

  /** A copy is the cleaned text between its outer spaces, cut to the room there is. */
  lemma CopiedTextIsCleaned(source: seq<Byte>, capacity: nat) returns (lead: nat, tail: nat)
    requires capacity > 0
    ensures var clean, copy := Cleaned(source), CopiedText(source, capacity);
      && lead + |copy| + tail <= |clean| && clean[lead..lead + |copy|] == copy
      && AreSpaces(clean[..lead]) && AreSpaces(clean[lead + |copy|..lead + |copy| + tail])
      && (lead + |copy| + tail == |clean| || |copy| + tail == capacity - 1)
  {
    hide Kept, Cleaned, TrimRight, FirstOf, AreSpaces;
    lead := KeptFromFirst(source, capacity - 1);
    var kept := Kept(source, capacity - 1, false);
    TrimRightIsPrefix(kept);
    tail := |kept| - |TrimRight(kept)|;
    Cut(Cleaned(source), lead, kept, TrimRight(kept), capacity - 1);
  }

  lemma Cut(clean: seq<Byte>, lead: nat, kept: seq<Byte>, copy: seq<Byte>, room: nat)
    requires lead <= |clean| && kept == FirstOf(clean[lead..], room) && copy <= kept
    requires forall i :: |copy| <= i < |kept| ==> kept[i] == SPACE
    ensures lead + |kept| <= |clean| && clean[lead..lead + |copy|] == copy
    ensures AreSpaces(clean[lead + |copy|..lead + |kept|])
    ensures lead + |kept| == |clean| || |kept| == room
  {
    assert kept == clean[lead..lead + |kept|];
    assert clean[lead + |copy|..lead + |kept|] == kept[|copy|..];
  }

  lemma SpacesAt(s: seq<Byte>, from: nat, n: nat, i: nat)
    requires i < n && from + n <= |s| && AreSpaces(s[from..from + n])
    ensures s[from + i] == SPACE
  {
    assert s[from + i] == s[from..from + n][i];
  }

  lemma {:induction false} CleanedIsPointwise(text: seq<Byte>)
    requires forall i :: 0 <= i < |text| ==> 32 <= text[i] < 127
    ensures |Cleaned(text)| == |text|
    ensures forall i :: 0 <= i < |text| ==>
      Cleaned(text)[i] == if text[i] == QUOTE || text[i] == SEMICOLON then SPACE else text[i]
  {
    if text != [] { CleanedIsPointwise(text[1..]); }
  }

  /** A printable text that neither begins nor ends with a blank is copied with a space for each quote and semicolon,
      and otherwise as it is. */
  lemma QuotesBecomeSpaces(text: seq<Byte>, capacity: nat)
    requires text != [] && |text| < capacity && forall i :: 0 <= i < |text| ==> 32 <= text[i] < 127
    requires TitleByte(text[0]) && text[0] != SPACE && TitleByte(text[|text| - 1]) && text[|text| - 1] != SPACE
    ensures var copy := CopiedText(text, capacity);
      |copy| == |text| && forall i :: 0 <= i < |text| ==>
        copy[i] == if text[i] == QUOTE || text[i] == SEMICOLON then SPACE else text[i]
  {
    hide Cleaned, CopiedText;
    CleanedIsPointwise(text);
    CopiedTextIsTitle(text, capacity);
    var lead, tail := CopiedTextIsCleaned(text, capacity);
    var clean, copy := Cleaned(text), CopiedText(text, capacity);
    if lead > 0 { SpacesAt(clean, 0, lead, 0); }
    if tail > 0 { SpacesAt(clean, lead + |copy|, tail, tail - 1); }
  }

  lemma {:induction false} KeptIsNoLonger(source: seq<Byte>, room: nat, started: bool)
    ensures |Kept(source, room, started)| <= |source|
    decreases |source|
  {
    if source != [] && room > 0 {
      var e := Emitted(source[0], started);
      KeptIsNoLonger(source[1..], room - |e|, started || e != []);
    }
  }

  // ---------------------------------------------------------------- metadata blocks

  // The bytes of StreamTitle=' and of the closing quote and semicolon.
  const PREFIX: seq<Byte> := [83, 116, 114, 101, 97, 109, 84, 105, 116, 108, 101, 61, 39]
  const SUFFIX: seq<Byte> := [39, 59]

  function Padding(n: nat): (p: nat)
    ensures p < 16 && (n + p) % 16 == 0
  {
    ((n + 15) / 16) * 16 - n
  }

  /** The block that announces a title: a length in units of sixteen, the text, and zeros. */
  function BlockOf(title: seq<Byte>): seq<Byte>
    requires |title| < 225
  {
    if title == [] then [0]
    else
      var text := PREFIX + title + SUFFIX;
      [(|text| + Padding(|text|)) / 16] + text + Repeat(0, Padding(|text|))
  }

  predicate WellFormed(block: seq<Byte>) { block != [] && |block| == 1 + 16 * (block[0] as int) }

  /** The bytes before the first quote. */
  function UpToQuote(s: seq<Byte>): seq<Byte>
  {
    if s == [] || s[0] == QUOTE then [] else [s[0]] + UpToQuote(s[1..])
  }

  /** How a client reads a block: nothing new, or the text between the first two quotes. */
  function ClientTitle(block: seq<Byte>): Option<seq<Byte>>
    requires WellFormed(block)
  {
    if block[0] == 0 || !(PREFIX <= block[1..]) then None else Some(UpToQuote(block[1 + |PREFIX|..]))
  }

  lemma {:induction false} UpToQuoteOf(t: seq<Byte>, more: seq<Byte>)
    requires QUOTE !in t
    requires more != [] && more[0] == QUOTE
    ensures UpToQuote(t + more) == t
  {
    if t == [] {
      assert t + more == more;
    } else {
      UpToQuoteOf(t[1..], more);
      assert (t + more)[1..] == t[1..] + more;
    }
  }

  /** The client reads back exactly the title that was announced. */
  lemma ClientReadsTitle(title: seq<Byte>)
    requires |title| < 225 && IsTitle(title)
    ensures WellFormed(BlockOf(title))
    ensures ClientTitle(BlockOf(title)) == if title == [] then None else Some(title)
  {
    hide UpToQuote;
    if title != [] {
      var text := PREFIX + title + SUFFIX;
      var zeros := Repeat(0, Padding(|text|));
      var block := BlockOf(title);
      assert block[1..] == text + zeros;
      assert block[1 + |PREFIX|..] == title + (SUFFIX + zeros);
      assert title[0] in title;
      UpToQuoteOf(title, SUFFIX + zeros);
    }
  }

  // ---------------------------------------------------------------- interleaving

  /** A body with the metadata block inserted wherever the count of audio bytes reaches the interval. */
  function Interleave(body: seq<Byte>, until: nat, block: seq<Byte>): seq<Byte>
    requires until > 0
    decreases |body|
  {
    if |body| < until then body
    else body[..until] + block + Interleave(body[until..], METAINT, block)
  }

  /** The count of audio bytes still due after n more of them. */
  function UntilAfter(n: nat, until: nat): (left: nat)
    requires until > 0
    ensures 0 < left && (until <= METAINT ==> left <= METAINT)
    decreases n
  {
    if n < until then until - n else UntilAfter(n - until, METAINT)
  }

  function BytesUntilNextMetadata(streamBodyBytes: nat): nat
  {
    var remainder := streamBodyBytes % METAINT;
    if remainder == 0 then METAINT else METAINT - remainder
  }

  class Metadata {
    var enabled: bool
    var audioBytesUntilMetadata: nat
    var metadataLength: nat
    const metadataBlock: array<Byte>
    var stableTitle: seq<Byte>

    /** Holds from construction on, except after a failed wrap. */
    ghost predicate Valid()
      reads this
    {
      metadataBlock.Length == BLOCK_CAPACITY && 1 <= audioBytesUntilMetadata <= METAINT
      && IsTitle(stableTitle) && |stableTitle| <= TITLE_MAX_LENGTH
    }

    /** The current block; its length is only meaningful after a successful update. */
    ghost function Block(): seq<Byte>
      requires metadataLength <= metadataBlock.Length
      reads this, metadataBlock
    {
      metadataBlock[..metadataLength]
    }

    constructor (enabled: bool)
      ensures Valid() && fresh(metadataBlock)
      ensures this.enabled == enabled && audioBytesUntilMetadata == METAINT && metadataLength == 0 && stableTitle == []
    {
      this.enabled := enabled;
      audioBytesUntilMetadata, metadataLength, stableTitle := METAINT, 0, [];
      metadataBlock := new Byte[BLOCK_CAPACITY](i => 0);
    }

    /** Writes the block for a title; -1 when the text does not fit its buffer of 240 bytes with a terminator. */
    method BuildBlock(title: seq<Byte>) returns (length: int)
      requires metadataBlock.Length == BLOCK_CAPACITY
      modifies metadataBlock
      ensures length == if |title| < 225 then |BlockOf(title)| else -1
      ensures |title| < 225 ==>
        |BlockOf(title)| <= BLOCK_CAPACITY && metadataBlock[..|BlockOf(title)|] == BlockOf(title)
      ensures |title| >= 225 ==> metadataBlock[..] == old(metadataBlock[..])
    {
      hide BlockOf;
      if title == [] {
        metadataBlock[0] := 0;
        NothingToAnnounce();
        return 1;
      }
      var metadata := PREFIX + title + SUFFIX;
      if |metadata| >= TITLE_MAX_LENGTH {
        return -1;
      }
      var padded := ((|metadata| + 15) / 16) * 16;
      metadataBlock[0] := padded / 16;
      forall i | 0 <= i < |metadata| { metadataBlock[1 + i] := metadata[i]; }
      forall i | |metadata| <= i < padded { metadataBlock[1 + i] := 0; }
      BlockIs(title);
      assert metadataBlock[..1 + padded] == BlockOf(title);
      return 1 + padded;
    }

    static lemma NothingToAnnounce()
      ensures BlockOf([]) == [0]
    {}

    static lemma BlockIs(title: seq<Byte>)
      requires title != [] && |title| < 225
      ensures var text := PREFIX + title + SUFFIX;
        var padded := ((|text| + 15) / 16) * 16;
        && |text| <= padded < BLOCK_CAPACITY
        && BlockOf(title) == [padded / 16] + text + Repeat(0, padded - |text|)
    {}

    method Update(radiotext: seq<Byte>, hasCompleteRadiotext: bool) returns (ok: bool)
      requires Valid()
      requires 0 !in radiotext
      modifies this, metadataBlock
      ensures Valid()
      ensures enabled == old(enabled) && audioBytesUntilMetadata == old(audioBytesUntilMetadata)
      ensures var title := AnnouncedTitle(old(stableTitle), radiotext, hasCompleteRadiotext);
        && (ok <==> |title| < 225)
        && (ok ==> metadataLength <= BLOCK_CAPACITY && Block() == BlockOf(title))
        && (!ok ==> metadataLength == SIZE_MAX)
        && stableTitle == (if hasCompleteRadiotext && title != [] then title else old(stableTitle))
    {
      var title: seq<Byte> := [];
      if hasCompleteRadiotext && radiotext != [] {
        var copy := new Byte[TITLE_MAX_LENGTH + 1];
        CopyText(copy, TITLE_MAX_LENGTH + 1, radiotext);
        CopiedTextIsTitle(radiotext, TITLE_MAX_LENGTH + 1);
        title := Terminated(copy, CopiedText(radiotext, TITLE_MAX_LENGTH + 1));
      } else if stableTitle != [] {
        title := stableTitle;
      }
      if hasCompleteRadiotext && title != [] {
        stableTitle := title;
      }
      var length := BuildBlock(title);
      metadataLength := if length < 0 then SIZE_MAX else length;
      ok := length >= 0;
    }

    method Wrap(body: seq<Byte>, buffer: array<Byte>, capacity: nat) returns (length: int)
      requires Valid() && capacity <= buffer.Length && buffer != metadataBlock
      requires enabled ==> metadataLength <= metadataBlock.Length
      modifies `audioBytesUntilMetadata, buffer
      ensures enabled ==> var out := Interleave(body, old(audioBytesUntilMetadata), Block());
        && length == (if |out| <= capacity then |out| else -1)
        && (length >= 0 ==> buffer[..|out|] == out && Valid()
                            && audioBytesUntilMetadata == UntilAfter(|body|, old(audioBytesUntilMetadata)))
      ensures !enabled ==>
        && length == (if |body| <= capacity then |body| else -1)
        && (length >= 0 ==> buffer[..|body|] == body)
        && audioBytesUntilMetadata == old(audioBytesUntilMetadata)
    {
      if !enabled {
        if |body| > capacity {
          return -1;
        }
        CopyInto(buffer, 0, body);
        return |body|;
      }
      length := WrapEnabled(body, buffer, capacity);
    }

    /** Copies a stretch of the body, and behind it the block when the interval is complete. */
    method PutStretch(buffer: array<Byte>, at: nat, stretch: seq<Byte>, crossing: bool)
      requires metadataLength <= metadataBlock.Length && buffer != metadataBlock
      requires at + |stretch| + (if crossing then metadataLength else 0) <= buffer.Length
      modifies buffer
      ensures buffer[..at + |stretch| + (if crossing then metadataLength else 0)]
           == old(buffer[..at]) + stretch + (if crossing then Block() else [])
    {
      CopyInto(buffer, at, stretch);
      if crossing {
        CopyInto(buffer, at + |stretch|, metadataBlock[..metadataLength]);
      }
    }

    method WrapEnabled(body: seq<Byte>, buffer: array<Byte>, capacity: nat) returns (length: int)
      requires Valid() && capacity <= buffer.Length && buffer != metadataBlock
      requires metadataLength <= metadataBlock.Length
      modifies `audioBytesUntilMetadata, buffer
      ensures var out := Interleave(body, old(audioBytesUntilMetadata), Block());
        && length == (if |out| <= capacity then |out| else -1)
        && (length >= 0 ==> buffer[..|out|] == out && 1 <= audioBytesUntilMetadata <= METAINT
                            && audioBytesUntilMetadata == UntilAfter(|body|, old(audioBytesUntilMetadata)))
    {
      hide Interleave, UntilAfter;
      ghost var block, done := Block(), [];
      ghost var out := Interleave(body, audioBytesUntilMetadata, block);
      var bodyOffset: nat, outputOffset: nat := 0, 0;
      assert body[0..] == body;
      while bodyOffset < |body|
        invariant bodyOffset <= |body| && outputOffset <= capacity
        invariant 1 <= audioBytesUntilMetadata <= METAINT && Block() == block
        invariant UntilAfter(|body| - bodyOffset, audioBytesUntilMetadata)
           == UntilAfter(|body|, old(audioBytesUntilMetadata))
        invariant buffer[..outputOffset] == done
        invariant done + Interleave(body[bodyOffset..], audioBytesUntilMetadata, block) == out
        decreases |body| - bodyOffset
      {
        var chunk := Min(|body| - bodyOffset, audioBytesUntilMetadata);
        InterleaveStep(body, bodyOffset, audioBytesUntilMetadata, block, done);
        if outputOffset + chunk > capacity {
          return -1;
        }
        var crossing := chunk == audioBytesUntilMetadata;
        if crossing && outputOffset + chunk + metadataLength > capacity {
          return -1;
        }
        PutStretch(buffer, outputOffset, body[bodyOffset..bodyOffset + chunk], crossing);
        done := done + body[bodyOffset..bodyOffset + chunk] + (if crossing then block else []);
        outputOffset := outputOffset + chunk + (if crossing then metadataLength else 0);
        bodyOffset := bodyOffset + chunk;
        audioBytesUntilMetadata := if crossing then METAINT else audioBytesUntilMetadata - chunk;
      }
      InterleaveNothing(audioBytesUntilMetadata, block);
      assert body[bodyOffset..] == [];
      return outputOffset;
    }
  }

  /** One turn of the wrapping loop. */
  lemma InterleaveStep(body: seq<Byte>, from: nat, until: nat, block: seq<Byte>, done: seq<Byte>)
    requires until > 0 && from <= |body|
    ensures var chunk := Min(|body| - from, until);
      var stretch := body[from..from + chunk];
      if chunk == until
      then done + Interleave(body[from..], until, block)
           == done + stretch + block + Interleave(body[from + chunk..], METAINT, block)
           && UntilAfter(|body| - from, until) == UntilAfter(|body| - (from + chunk), METAINT)
      else done + Interleave(body[from..], until, block)
           == done + stretch + Interleave(body[from + chunk..], until - chunk, block)
           && UntilAfter(|body| - from, until) == UntilAfter(|body| - (from + chunk), until - chunk)
  {
    var rest, chunk := body[from..], Min(|body| - from, until);
    assert rest[..chunk] == body[from..from + chunk] && rest[chunk..] == body[from + chunk..];
    if chunk < until {
      assert rest[chunk..] == [] && done + rest + [] == done + rest;
    } else {
      var later := Interleave(rest[chunk..], METAINT, block);
      assert done + (rest[..chunk] + block + later) == done + rest[..chunk] + block + later;
    }
  }

  lemma InterleaveNothing(until: nat, block: seq<Byte>)
    requires until > 0
    ensures Interleave([], until, block) == [] && UntilAfter(0, until) == until
  {}

  /** The title an update announces: a complete radiotext, or else the last title announced. */
  function AnnouncedTitle(stable: seq<Byte>, radiotext: seq<Byte>, complete: bool): seq<Byte>
  {
    if complete && radiotext != [] then CopiedText(radiotext, TITLE_MAX_LENGTH + 1) else stable
  }

  /** Updates from radiotexts (64 characters at most) keep every title short enough to be announced. */
  lemma RadiotextIsAlwaysAnnounced(stable: seq<Byte>, radiotext: seq<Byte>, complete: bool)
    requires |stable| <= 64 && |radiotext| <= 64
    ensures |AnnouncedTitle(stable, radiotext, complete)| <= 64
  {
    KeptIsNoLonger(radiotext, TITLE_MAX_LENGTH, false);
    TrimRightIsPrefix(Kept(radiotext, TITLE_MAX_LENGTH, false));
  }

  /** A complete radiotext that can be a title reaches the client as it is. */
  lemma CompleteRadiotextIsRead(stable: seq<Byte>, radiotext: seq<Byte>)
    requires radiotext != [] && |radiotext| <= 64 && IsTitle(radiotext)
    ensures var title := AnnouncedTitle(stable, radiotext, true);
      |title| < 225 && WellFormed(BlockOf(title)) && ClientTitle(BlockOf(title)) == Some(radiotext)
  {
    CopiedUnchangedIffTitle(radiotext, TITLE_MAX_LENGTH + 1);
    ClientReadsTitle(radiotext);
  }

  /** A text of 225 letters fits the title buffer but not a block: the update fails, and because the title has been
      stored, so does the next update without a text. */
  lemma LongTitleIsRefused()
    ensures var text := Repeat(65, 225);
      && IsTitle(text) && |text| <= TITLE_MAX_LENGTH
      && |AnnouncedTitle([], text, true)| >= 225
      && |AnnouncedTitle(AnnouncedTitle([], text, true), [], false)| >= 225
  {
    CopiedUnchangedIffTitle(Repeat(65, 225), TITLE_MAX_LENGTH + 1);
  }

  /** Reads a terminated text back from its buffer. */
  method Terminated(buffer: array<Byte>, ghost text: seq<Byte>) returns (r: seq<Byte>)
    requires |text| < buffer.Length && buffer[..|text|] == text && buffer[|text|] == 0
    requires 0 !in text
    ensures r == text
  {
    assert forall i :: 0 <= i < |text| ==> buffer[i] == text[i];
    var n := 0;
    while buffer[n] != 0
      invariant n <= |text|
      decreases |text| - n
    {
      n := n + 1;
    }
    r := buffer[..n];
  }

  // ---------------------------------------------------------------- the client

  /** What a client makes of a stream: the audio, the metadata blocks, and whether it ends outside a block. */
  datatype Demuxed = Demuxed(audio: seq<Byte>, blocks: seq<seq<Byte>>, complete: bool)

  /** `until` audio bytes, a length byte, sixteen times as many bytes of metadata, and so on every METAINT. */
  function Demux(stream: seq<Byte>, until: nat): Demuxed
    requires until > 0
    decreases |stream|
  {
    if |stream| < until then Demuxed(stream, [], true)
    else
      var rest := stream[until..];
      if rest == [] || |rest| < 1 + 16 * (rest[0] as int) then Demuxed(stream[..until], [], false)
      else
        var length := 1 + 16 * (rest[0] as int);
        var d := Demux(rest[length..], METAINT);
        Demuxed(stream[..until] + d.audio, [rest[..length]] + d.blocks, d.complete)
  }

  /** How often n bytes of audio reach the interval. */
  function Crossings(n: nat, until: nat): nat
    requires until > 0
    decreases n
  {
    if n < until then 0 else 1 + Crossings(n - until, METAINT)
  }

  function Copies(block: seq<Byte>, n: nat): seq<seq<Byte>> { seq(n, i => block) }

  lemma {:induction false} DemuxInterleaved(body: seq<Byte>, until: nat, block: seq<Byte>, more: seq<Byte>)
    requires until > 0 && WellFormed(block)
    ensures var d := Demux(more, UntilAfter(|body|, until));
      Demux(Interleave(body, until, block) + more, until)
      == Demuxed(body + d.audio, Copies(block, Crossings(|body|, until)) + d.blocks, d.complete)
    decreases |body|
  {
    hide Demux;
    var d := Demux(more, UntilAfter(|body|, until));
    if |body| < until {
      DemuxPrefix(body, until, more);
      assert Copies(block, 0) + d.blocks == d.blocks;
    } else {
      DemuxInterleaved(body[until..], METAINT, block, more);
      var later := Interleave(body[until..], METAINT, block) + more;
      CrossingFirst(body, until, block, more);
      DemuxBoundary(body[..until], block, later);
      assert body[..until] + (body[until..] + d.audio) == body + d.audio;
      var n := Crossings(|body| - until, METAINT);
      assert [block] + (Copies(block, n) + d.blocks) == Copies(block, n + 1) + d.blocks;
    }
  }

  lemma CrossingFirst(body: seq<Byte>, until: nat, block: seq<Byte>, more: seq<Byte>)
    requires 0 < until <= |body|
    ensures Interleave(body, until, block) + more
         == body[..until] + (block + (Interleave(body[until..], METAINT, block) + more))
  {}

  lemma DemuxBoundary(audio: seq<Byte>, block: seq<Byte>, later: seq<Byte>)
    requires audio != [] && WellFormed(block)
    ensures var d := Demux(later, METAINT);
      Demux(audio + (block + later), |audio|) == Demuxed(audio + d.audio, [block] + d.blocks, d.complete)
  {
    var stream := audio + (block + later);
    assert stream[..|audio|] == audio && stream[|audio|..] == block + later;
    assert (block + later)[..|block|] == block && (block + later)[|block|..] == later;
  }

  /** Audio that stops short of the interval only shortens the wait. */
  lemma DemuxPrefix(audio: seq<Byte>, until: nat, more: seq<Byte>)
    requires |audio| < until
    ensures var d := Demux(more, until - |audio|);
      Demux(audio + more, until) == Demuxed(audio + d.audio, d.blocks, d.complete)
  {
    var stream, left := audio + more, until - |audio|;
    if |more| >= left {
      assert stream[..until] == audio + more[..left];
      assert stream[until..] == more[left..];
      var rest := more[left..];
      if rest != [] && |rest| >= 1 + 16 * (rest[0] as int) {
        var e := Demux(rest[1 + 16 * (rest[0] as int)..], METAINT);
        assert audio + more[..left] + e.audio == audio + (more[..left] + e.audio);
      }
    }
  }

  /** One call of wrap: the body, and the block current during the call. */
  datatype Wrapped = Wrapped(body: seq<Byte>, block: seq<Byte>)

  /** Everything the client is sent after the prelude. */
  function ClientStream(wraps: seq<Wrapped>, until: nat): seq<Byte>
    requires until > 0
    decreases |wraps|
  {
    if wraps == [] then []
    else Interleave(wraps[0].body, until, wraps[0].block) + ClientStream(wraps[1..], UntilAfter(|wraps[0].body|, until))
  }

  function Bodies(wraps: seq<Wrapped>): seq<Byte>
    decreases |wraps|
  {
    if wraps == [] then [] else wraps[0].body + Bodies(wraps[1..])
  }

  /** The blocks due: at each boundary the block of the call that reaches it. */
  function BlocksDue(wraps: seq<Wrapped>, until: nat): seq<seq<Byte>>
    requires until > 0
    decreases |wraps|
  {
    if wraps == [] then []
    else
      var n := |wraps[0].body|;
      Copies(wraps[0].block, Crossings(n, until)) + BlocksDue(wraps[1..], UntilAfter(n, until))
  }

  lemma {:induction false} ClientStreamIsTakenApart(wraps: seq<Wrapped>, until: nat)
    requires until > 0
    requires forall i :: 0 <= i < |wraps| ==> WellFormed(wraps[i].block)
    ensures Demux(ClientStream(wraps, until), until) == Demuxed(Bodies(wraps), BlocksDue(wraps, until), true)
    decreases |wraps|
  {
    if wraps != [] {
      var w, next := wraps[0], UntilAfter(|wraps[0].body|, until);
      ClientStreamIsTakenApart(wraps[1..], next);
      DemuxInterleaved(w.body, until, w.block, ClientStream(wraps[1..], next));
    }
  }

  /** A whole client stream: the client gets back the prelude and the bodies, and at each boundary the block that was
      current there. */
  lemma ClientGetsItsBodiesBack(prelude: seq<Byte>, wraps: seq<Wrapped>)
    requires |prelude| < METAINT
    requires forall i :: 0 <= i < |wraps| ==> WellFormed(wraps[i].block)
    ensures var until := BytesUntilNextMetadata(|prelude|);
      Demux(prelude + ClientStream(wraps, until), METAINT)
      == Demuxed(prelude + Bodies(wraps), BlocksDue(wraps, until), true)
  {
    hide ClientStream, Demux, Bodies, BlocksDue, WellFormed, BytesUntilNextMetadata;
    FirstInterval(|prelude|);
    var until := BytesUntilNextMetadata(|prelude|);
    ClientStreamIsTakenApart(wraps, until);
    DemuxPrefix(prelude, METAINT, ClientStream(wraps, until));
  }

  lemma FirstInterval(n: nat)
    requires n < METAINT
    ensures BytesUntilNextMetadata(n) == METAINT - n
  {}

  /** With one block throughout, it does not matter how the body is cut into calls. */
  lemma {:induction false} WrapInPieces(a: seq<Byte>, b: seq<Byte>, until: nat, block: seq<Byte>)
    requires until > 0
    ensures Interleave(a + b, until, block)
       == Interleave(a, until, block) + Interleave(b, UntilAfter(|a|, until), block)
    ensures UntilAfter(|a + b|, until) == UntilAfter(|b|, UntilAfter(|a|, until))
    decreases |a|
  {
    if |a| < until {
      var left := until - |a|;
      if |b| >= left {
        assert (a + b)[..until] == a + b[..left] && (a + b)[until..] == b[left..];
        assert a + b[..left] + block + Interleave(b[left..], METAINT, block)
            == a + (b[..left] + block + Interleave(b[left..], METAINT, block));
      }
    } else {
      WrapInPieces(a[until..], b, METAINT, block);
      assert (a + b)[..until] == a[..until] && (a + b)[until..] == a[until..] + b;
    }
  }
}
