/** Audio in the transport stream: PES packets and their packetisation. */
module MpegTsAudio {
  import opened Common
  import opened Bytes
  import opened MpegTs

  // ---------------------------------------------------------------- PES

  function HighByte(s: Sample): Byte { s % 65536 / 256 }
  function LowByte(s: Sample): Byte { s % 65536 % 256 }

  /** Big-endian 16-bit words. */
  function Encode(words: seq<Sample>): seq<Byte>
  {
    seq(2 * |words|, i requires 0 <= i < 2 * |words| =>
      if i % 2 == 0 then HighByte(words[i / 2]) else LowByte(words[i / 2]))
  }

  function Signed(n: nat): Sample
    requires n < 65536
  {
    if n < 32768 then n else n - 65536
  }

  function Decode(b: seq<Byte>): seq<Sample>
  {
    seq(|b| / 2, i requires 0 <= i < |b| / 2 => Signed(Num(b[2 * i]) * 256 + Num(b[2 * i + 1])))
  }

  /** Two words a frame: both channels of stereo, or the only channel and a zero. */
  function Words(samples: seq<Sample>, stereo: bool, frames: nat): seq<Sample>
    requires |samples| >= if stereo then 2 * frames else frames
  {
    if stereo then samples[..2 * frames]
    else seq(2 * frames, i requires 0 <= i < 2 * frames => if i % 2 == 0 then samples[i / 2] else 0)
  }

  /** Each frame's words are its samples: left and right of stereo as they come, or the only channel and a zero. */
  predicate CarriesFrames(words: seq<Sample>, samples: seq<Sample>, stereo: bool, frames: nat)
    requires |samples| >= if stereo then 2 * frames else frames
  {
    && |words| == 2 * frames
    && forall i :: 0 <= i < frames ==>
         if stereo then words[2 * i] == samples[2 * i] && words[2 * i + 1] == samples[2 * i + 1]
         else words[2 * i] == samples[i] && words[2 * i + 1] == 0
  }

  lemma WordsCarryFrames(samples: seq<Sample>, stereo: bool, frames: nat)
    requires |samples| >= if stereo then 2 * frames else frames
    ensures CarriesFrames(Words(samples, stereo, frames), samples, stereo, frames)
  {}

  const PES_HEADER: nat := 18

  function PesHeader(pts90khz: nat, lpcmHeader: nat, frames: nat): seq<Byte>
  {
    var length := (4 + 4 * frames + 8) % 65536;
    [0x00, 0x00, 0x01, 0xbd, length / 256, length % 256, 0x80, 0x80, 0x05] + PtsBytes(pts90khz)
    + [4 * frames / 256 % 256, 4 * frames % 256, lpcmHeader / 256 % 256, lpcmHeader % 256]
  }

  function Pes(pts90khz: nat, lpcmHeader: nat, words: seq<Sample>): seq<Byte>
  {
    PesHeader(pts90khz, lpcmHeader, |words| / 2) + Encode(words)
  }

  datatype Audio = Audio(pts: nat, lpcmHeader: nat, words: seq<Sample>)

  /** What a decoder takes from a PES packet of private stream 1 that holds LPCM audio. */
  function DecodePes(b: seq<Byte>): Option<Audio>
  {
    if |b| < PES_HEADER || b[..4] != [0x00, 0x00, 0x01, 0xbd] || b[6..9] != [0x80, 0x80, 0x05]
       || Num(b[4]) * 256 + Num(b[5]) != |b| - 6
       || Num(b[14]) * 256 + Num(b[15]) != |b| - PES_HEADER
    then None
    else Some(Audio(DecodePts(b[9..14]), Num(b[16]) * 256 + Num(b[17]), Decode(b[PES_HEADER..])))
  }

  lemma WordRoundTrip(s: Sample)
    ensures Signed(Num(HighByte(s)) * 256 + Num(LowByte(s))) == s
  {}

  lemma EncodeRoundTrip(words: seq<Sample>)
    ensures Decode(Encode(words)) == words
  {
    hide HighByte, LowByte, Signed;
    forall i | 0 <= i < |words|
      ensures Decode(Encode(words))[i] == words[i]
    {
      WordRoundTrip(words[i]);
      assert (2 * i) % 2 == 0 && (2 * i) / 2 == i && (2 * i + 1) % 2 == 1 && (2 * i + 1) / 2 == i;
    }
  }

  lemma PesHeaderFields(pts90khz: nat, lpcmHeader: nat, frames: nat)
    requires PES_HEADER + 4 * frames <= MAX_PES_BYTES && lpcmHeader < 65536
    ensures var h := PesHeader(pts90khz, lpcmHeader, frames);
      && |h| == PES_HEADER && h[..4] == [0x00, 0x00, 0x01, 0xbd] && h[6..9] == [0x80, 0x80, 0x05]
      && Num(h[4]) * 256 + Num(h[5]) == 4 * frames + 12 && Num(h[14]) * 256 + Num(h[15]) == 4 * frames
      && h[9..14] == PtsBytes(pts90khz) && Num(h[16]) * 256 + Num(h[17]) == lpcmHeader
  {
    hide PtsBytes;
    PtsLength(pts90khz);
    var h := PesHeader(pts90khz, lpcmHeader, frames);
    assert h[9..14] == PtsBytes(pts90khz);
  }

  lemma PtsLength(pts90khz: nat)
    ensures |PtsBytes(pts90khz)| == 5
  {}

  /** A PES packet that fits the buffer decodes to its time stamp, its header and its words. */
  lemma PesRoundTrip(pts90khz: nat, lpcmHeader: nat, words: seq<Sample>)
    requires |words| % 2 == 0 && PES_HEADER + 2 * |words| <= MAX_PES_BYTES && lpcmHeader < 65536
    ensures DecodePes(Pes(pts90khz, lpcmHeader, words)) == Some(Audio(pts90khz % 0x2_0000_0000, lpcmHeader, words))
  {
    hide PesHeader, Encode, Decode, DecodePts, PtsBytes;
    var h, b := PesHeader(pts90khz, lpcmHeader, |words| / 2), Pes(pts90khz, lpcmHeader, words);
    PesHeaderFields(pts90khz, lpcmHeader, |words| / 2);
    EncodeLength(words);
    EncodeRoundTrip(words);
    PtsRoundTrip(pts90khz);
    assert b[..4] == h[..4] && b[6..9] == h[6..9] && b[9..14] == h[9..14];
    assert b[PES_HEADER..] == Encode(words);
  }

  lemma EncodeLength(words: seq<Sample>)
    ensures |Encode(words)| == 2 * |words|
  {}

  // ---------------------------------------------------------------- packetisation

  /** How much of a PES remainder of n bytes the next packet takes. */
  function Taken(n: nat, first: bool): nat { Min(n, if first then FIRST_PAYLOAD else NEXT_PAYLOAD) }

  /** The adaptation field, without its length byte: the clock and stuffing in the first packet, stuffing alone in a
      packet that its payload does not fill. */
  function Adaptation(n: nat, first: bool, pts90khz: nat): seq<Byte>
    requires first || n < NEXT_PAYLOAD
  {
    if first then [0x50] + PcrBytes(Pcr(pts90khz)) + Repeat(255, FIRST_PAYLOAD - Taken(n, true))
    else if n == NEXT_PAYLOAD - 1 then []
    else [0x00] + Repeat(255, NEXT_PAYLOAD - n - 2)
  }

  function AudioPacket(pes: seq<Byte>, first: bool, pts90khz: nat, counter: nat): seq<Byte>
    requires pes != []
  {
    var n := |pes|;
    if first || n < NEXT_PAYLOAD then
      var a := Adaptation(n, first, pts90khz);
      AdaptationLength(n, first, pts90khz);
      Header(first, AUDIO_PID, 3, counter) + [|a|] + a + pes[..Taken(n, first)]
    else Header(false, AUDIO_PID, 1, counter) + pes[..NEXT_PAYLOAD]
  }

  lemma AdaptationLength(n: nat, first: bool, pts90khz: nat)
    requires n > 0 && (first || n < NEXT_PAYLOAD)
    ensures |Adaptation(n, first, pts90khz)| == NEXT_PAYLOAD - 1 - Taken(n, first)
  {}

  function AudioPackets(pes: seq<Byte>, first: bool, pts90khz: nat, counter: nat): seq<Byte>
    decreases |pes|
  {
    if pes == [] then []
    else AudioPacket(pes, first, pts90khz, counter)
         + AudioPackets(pes[Taken(|pes|, first)..], false, pts90khz, (counter + 1) % 16)
  }

  function PacketCount(n: nat, first: bool): nat
  {
    if n == 0 then 0 else 1 + PacketCount(n - Taken(n, first), false)
  }

  lemma AudioPacketParses(pes: seq<Byte>, first: bool, pts90khz: nat, counter: nat)
    requires pes != []
    ensures var p := AudioPacket(pes, first, pts90khz, counter);
      && |p| == PACKET_SIZE && p[0] == 0x47 && ParsePacket(p).Some?
      && var q := ParsePacket(p).value;
         && q.pid == AUDIO_PID && q.counter == counter % 16 && q.start == first
         && q.payload == pes[..Taken(|pes|, first)]
         && (first ==> |q.adaptation| >= 7 && q.adaptation[1..7] == PcrBytes(Pcr(pts90khz)))
  {
    hide Header, ParsePacket, PcrBytes;
    var n := |pes|;
    if first || n < NEXT_PAYLOAD {
      var a := Adaptation(n, first, pts90khz);
      AdaptationLength(n, first, pts90khz);
      AdaptedPacketParses(first, AUDIO_PID, counter, a, pes[..Taken(n, first)]);
      if first { assert a[1..7] == PcrBytes(Pcr(pts90khz)); }
    } else {
      PlainPacketParses(false, AUDIO_PID, counter, pes[..NEXT_PAYLOAD]);
    }
    HeaderParses(first, AUDIO_PID, 3, counter);
    HeaderParses(first, AUDIO_PID, 1, counter);
  }

  function CountUp(from: nat, n: nat): seq<nat> { seq(n, k requires k >= 0 => (from + k) % 16) }

  /** All on the audio stream, and only the very first may start a PES packet. */
  predicate AudioOnly(q: seq<Packet>, first: bool)
  {
    forall i :: 0 <= i < |q| ==> q[i].pid == AUDIO_PID && q[i].start == (first && i == 0)
  }

  lemma NoPackets()
    ensures Parse([]) == Some([]) && PayloadOf([], AUDIO_PID) == [] && CountersOf([], AUDIO_PID) == []
    ensures AudioOnly([], true) && AudioOnly([], false)
  {}

  lemma AudioOnlyCons(q: Packet, rest: seq<Packet>)
    requires q.pid == AUDIO_PID && AudioOnly(rest, false)
    ensures AudioOnly([q] + rest, q.start)
  {}

  /** The packets of one PES packet: whole, all on the audio stream, counted up, and their payloads are the PES
      bytes. */
  lemma {:induction false} AudioPacketsParse(pes: seq<Byte>, first: bool, pts90khz: nat, counter: nat)
    requires counter < 16
    ensures var b := AudioPackets(pes, first, pts90khz, counter);
      && |b| == PACKET_SIZE * PacketCount(|pes|, first) && Parse(b).Some?
      && var q := Parse(b).value;
         && PayloadOf(q, AUDIO_PID) == pes
         && CountersOf(q, AUDIO_PID) == CountUp(counter, PacketCount(|pes|, first))
         && AudioOnly(q, first)
    decreases |pes|
  {
    hide AudioPacket, ParsePacket, Parse, PayloadOf, CountersOf, CountUp, AudioOnly;
    if pes == [] {
      NoPackets();
      CountUpNothing(counter);
    } else {
      var t := Taken(|pes|, first);
      var p := AudioPacket(pes, first, pts90khz, counter);
      var rest := AudioPackets(pes[t..], false, pts90khz, (counter + 1) % 16);
      AudioPacketParses(pes, first, pts90khz, counter);
      AudioPacketsParse(pes[t..], false, pts90khz, (counter + 1) % 16);
      ParseOne(p);
      ParseConcat(p, rest);
      var q := ParsePacket(p).value;
      OfOne(q);
      OfConcat([q], Parse(rest).value, AUDIO_PID);
      AudioOnlyCons(q, Parse(rest).value);
      assert pes[..t] + pes[t..] == pes;
      CountUpStep(counter, PacketCount(|pes| - t, false));
    }
  }

  lemma CountUpNothing(counter: nat)
    ensures CountUp(counter, 0) == []
  {}

  lemma OfOne(q: Packet)
    ensures PayloadOf([q], q.pid) == q.payload && CountersOf([q], q.pid) == [q.counter]
  {
    var none: seq<Packet> := [];
    assert [q][1..] == none;
  }

  lemma CountUpStep(counter: nat, n: nat)
    requires counter < 16
    ensures [counter] + CountUp((counter + 1) % 16, n) == CountUp(counter, n + 1)
  {
    var a, b := [counter] + CountUp((counter + 1) % 16, n), CountUp(counter, n + 1);
    forall k | 0 <= k < |b|
      ensures a[k] == b[k]
    {
      if k > 0 { assert ((counter + 1) % 16 + (k - 1)) % 16 == (counter + k) % 16; }
    }
  }

  // ---------------------------------------------------------------- one call

  datatype Mux = Mux(patCounter: nat, pmtCounter: nat, audioCounter: nat, channels: nat, lpcmHeader: nat,
                     pts90khz: nat, remainder: nat)

  function InitialMux(channels: nat): Mux
  {
    Mux(0, 0, 0, channels, ((if channels == 2 then 3 else 1) * 16 + 1) * 256 + 64, 0, 0)
  }

  function TablesSent(m: Mux): Mux
  {
    m.(patCounter := (m.patCounter + 1) % 16, pmtCounter := (m.pmtCounter + 1) % 16)
  }

  function AdvancePts(m: Mux, frames: nat): Mux
  {
    var numerator := frames * 90000 + m.remainder;
    m.(pts90khz := (m.pts90khz + numerator / 48000) % WORD64, remainder := numerator % 48000)
  }

  function AudioSent(m: Mux, frames: nat): Mux
  {
    AdvancePts(TablesSent(m).(audioCounter := (m.audioCounter + PacketCount(PES_HEADER + 4 * frames, true)) % 16),
        frames)
  }

  function PesOf(m: Mux, samples: seq<Sample>, frames: nat): seq<Byte>
    requires |samples| >= if m.channels == 2 then 2 * frames else frames
  {
    Pes(m.pts90khz, m.lpcmHeader, Words(samples, m.channels == 2, frames))
  }

  /** What the LPCM header says: the channel assignment (one for mono, three for stereo), 48 kHz, 16 bits. */
  predicate IsLpcmOf(lpcmHeader: nat, channels: nat)
  {
    && lpcmHeader / 4096 == (if channels == 2 then 3 else 1)
    && lpcmHeader / 256 % 16 == 1 && lpcmHeader / 64 % 4 == 1
  }

  lemma HeaderIsLpcm(channels: nat)
    ensures IsLpcmOf(InitialMux(channels).lpcmHeader, channels)
  {}

  /** Everything a successful call writes. */
  function AudioBytes(m: Mux, samples: seq<Sample>, frames: nat): seq<Byte>
    requires |samples| >= if m.channels == 2 then 2 * frames else frames
  {
    Tables(m.patCounter, m.pmtCounter) + AudioPackets(PesOf(m, samples, frames), true, m.pts90khz, m.audioCounter)
  }

  /** When a call succeeds. */
  predicate Fits(frames: nat, capacity: nat)
  {
    PES_HEADER + 4 * frames <= MAX_PES_BYTES
    && PACKET_SIZE * (2 + PacketCount(PES_HEADER + 4 * frames, true)) <= capacity
  }

  const MAX_AUDIO_BYTES: nat := 5264

  lemma {:induction false} PacketCountBound(n: nat)
    ensures PacketCount(n, false) * NEXT_PAYLOAD < n + NEXT_PAYLOAD
  {
    if n > 0 { PacketCountBound(n - Taken(n, false)); }
  }

  /** The documented buffer size is enough for every PES packet that can be built. */
  lemma MaxAudioBytesSuffices(frames: nat)
    requires PES_HEADER + 4 * frames <= MAX_PES_BYTES
    ensures Fits(frames, MAX_AUDIO_BYTES)
    ensures MAX_AUDIO_BYTES == (2 + 1 + (MAX_PES_BYTES - FIRST_PAYLOAD + NEXT_PAYLOAD - 1) / NEXT_PAYLOAD) * PACKET_SIZE
  {
    var n := PES_HEADER + 4 * frames;
    PacketCountBound(n - Taken(n, true));
  }

  lemma PesLength(m: Mux, samples: seq<Sample>, frames: nat)
    requires |samples| >= if m.channels == 2 then 2 * frames else frames
    ensures |PesOf(m, samples, frames)| == PES_HEADER + 4 * frames
  {
    hide PtsBytes, Encode;
    PtsLength(m.pts90khz);
    EncodeLength(Words(samples, m.channels == 2, frames));
  }

  /** Whole packets; the payloads of the audio stream are the PES packet, and that decodes to the samples. */
  lemma AudioIsRecovered(m: Mux, samples: seq<Sample>, frames: nat)
    requires |samples| >= if m.channels == 2 then 2 * frames else frames
    requires m.audioCounter < 16 && m.lpcmHeader < 65536
    requires PES_HEADER + 4 * frames <= MAX_PES_BYTES
    ensures var b := AudioBytes(m, samples, frames);
      && |b| == PACKET_SIZE * (2 + PacketCount(PES_HEADER + 4 * frames, true)) && Parse(b).Some?
      && var q := Parse(b).value;
         && PayloadOf(q, AUDIO_PID) == PesOf(m, samples, frames)
         && DecodePes(PayloadOf(q, AUDIO_PID))
            == Some(Audio(m.pts90khz % 0x2_0000_0000, m.lpcmHeader, Words(samples, m.channels == 2, frames)))
         && CarriesFrames(DecodePes(PayloadOf(q, AUDIO_PID)).value.words, samples, m.channels == 2, frames)
         && CountersOf(q, PAT_PID) == [m.patCounter % 16] && CountersOf(q, PMT_PID) == [m.pmtCounter % 16]
         && CountersOf(q, AUDIO_PID) == CountUp(m.audioCounter, PacketCount(PES_HEADER + 4 * frames, true))
  {
    hide Tables, AudioPackets, PesOf, DecodePes, Words, CarriesFrames, CountUp, Parse, PayloadOf, CountersOf, SectionOf,
      Section;
    WordsCarryFrames(samples, m.channels == 2, frames);
    var tables, pes := Tables(m.patCounter, m.pmtCounter), PesOf(m, samples, frames);
    var packets := AudioPackets(pes, true, m.pts90khz, m.audioCounter);
    PesLength(m, samples, frames);
    PesIs(m, samples, frames);
    TablesParse(m.patCounter, m.pmtCounter);
    AudioPacketsParse(pes, true, m.pts90khz, m.audioCounter);
    ParseConcat(tables, packets);
    var t, q := Parse(tables).value, Parse(packets).value;
    OfConcat(t, q, AUDIO_PID);
    OfConcat(t, q, PAT_PID);
    OfConcat(t, q, PMT_PID);
    OfTables(t);
    OnlyAudio(q, true, PAT_PID);
    OnlyAudio(q, true, PMT_PID);
    assert [] + PayloadOf(q, AUDIO_PID) == PayloadOf(q, AUDIO_PID);
    assert [] + CountersOf(q, AUDIO_PID) == CountersOf(q, AUDIO_PID);
    assert CountersOf(t, PAT_PID) + [] == CountersOf(t, PAT_PID)
       && CountersOf(t, PMT_PID) + [] == CountersOf(t, PMT_PID);
  }

  lemma PesIs(m: Mux, samples: seq<Sample>, frames: nat)
    requires |samples| >= if m.channels == 2 then 2 * frames else frames
    requires m.lpcmHeader < 65536 && PES_HEADER + 4 * frames <= MAX_PES_BYTES
    ensures DecodePes(PesOf(m, samples, frames))
         == Some(Audio(m.pts90khz % 0x2_0000_0000, m.lpcmHeader, Words(samples, m.channels == 2, frames)))
  {
    hide DecodePes, Pes;
    PesRoundTrip(m.pts90khz, m.lpcmHeader, Words(samples, m.channels == 2, frames));
  }

  lemma OfTables(t: seq<Packet>)
    requires |t| == 2 && t[0].pid == PAT_PID && t[1].pid == PMT_PID
    ensures PayloadOf(t, AUDIO_PID) == [] && CountersOf(t, AUDIO_PID) == []
    ensures CountersOf(t, PAT_PID) == [t[0].counter] && CountersOf(t, PMT_PID) == [t[1].counter]
  {
    var none: seq<Packet> := [];
    assert t[1..][1..] == none;
    assert CountersOf(t[1..], PMT_PID) == [t[1].counter] && CountersOf(t[1..], PAT_PID) == [];
    assert CountersOf(t[1..], AUDIO_PID) == [] && PayloadOf(t[1..], AUDIO_PID) == [];
  }

  lemma {:induction false} OnlyAudio(q: seq<Packet>, first: bool, pid: nat)
    requires pid != AUDIO_PID && AudioOnly(q, first)
    ensures CountersOf(q, pid) == []
    decreases |q|
  {
    if q != [] { OnlyAudio(q[1..], false, pid); }
  }
}
