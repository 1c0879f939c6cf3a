/** The multiplexer object, and whole runs of it. */
module MpegTsMuxer {
  import opened Common
  import opened Bytes
  import opened MpegTs
  import opened MpegTsAudio
  import Crc32
  import Icy

  class Muxer {
    var patContinuityCounter: nat
    var pmtContinuityCounter: nat
    var audioContinuityCounter: nat
    var lpcmHeader: nat
    var channels: nat
    var pts90khz: nat
    var ptsNumeratorRemainder: nat

    ghost function Value(): Mux
      reads this
    {
      Mux(patContinuityCounter, pmtContinuityCounter, audioContinuityCounter, channels, lpcmHeader, pts90khz,
          ptsNumeratorRemainder)
    }

    constructor (channels: nat)
      ensures Value() == InitialMux(channels)
    {
      patContinuityCounter, pmtContinuityCounter, audioContinuityCounter := 0, 0, 0;
      this.channels := channels;
      lpcmHeader := ((if channels == 2 then 3 else 1) * 16 + 1) * 256 + 64;
      pts90khz, ptsNumeratorRemainder := 0, 0;
    }

    static method WriteTablePacket(buffer: array<Byte>, at: nat, pid: nat, counter: nat, body: seq<Byte>)
      requires at + PACKET_SIZE <= buffer.Length && |body| <= 64
      modifies buffer
      ensures buffer[..at + PACKET_SIZE] == old(buffer[..at]) + TablePacket(pid, counter, body)
    {
      hide Header, Crc32.Crc, Crc32.ToBytes;
      ghost var before := buffer[..at];
      Fill(buffer, at, PACKET_SIZE, 0xff);
      assert buffer[..at] == before;
      var header := Header(true, pid, 1, counter);
      var crc := Crc32.ComputeCrc(body);
      HeaderLength(true, pid, 1, counter);
      FourBytes(crc);
      var section := body + Crc32.ToBytes(crc);
      var start := header + [0] + section;
      ghost var rest := Repeat(255, PACKET_SIZE - 9 - |body|);
      assert buffer[at + |start|..at + PACKET_SIZE] == rest;
      CopyInto(buffer, at, start);
      assert buffer[at + |start|..at + PACKET_SIZE] == rest;
      assert buffer[..at + PACKET_SIZE] == before + start + rest;
      PacketOfParts(pid, counter, body, before);
    }

    static lemma PacketOfParts(pid: nat, counter: nat, body: seq<Byte>, before: seq<Byte>)
      requires |body| <= 64
      ensures before + (Header(true, pid, 1, counter) + [0] + (body + Crc32.ToBytes(Crc32.Crc(body))))
        + Repeat(255, PACKET_SIZE - 9 - |body|) == before + TablePacket(pid, counter, body)
    {
      hide Header, Crc32.Crc, Crc32.ToBytes;
      var start := Header(true, pid, 1, counter) + [0] + (body + Crc32.ToBytes(Crc32.Crc(body)));
      var rest := Repeat(255, PACKET_SIZE - 9 - |body|);
      assert TablePacket(pid, counter, body) == start + rest;
      assert before + start + rest == before + (start + rest);
    }

    static lemma HeaderLength(start: bool, pid: nat, control: nat, counter: nat)
      ensures |Header(start, pid, control, counter)| == 4
    {}

    method WriteTables(buffer: array<Byte>)
      requires 2 * PACKET_SIZE <= buffer.Length
      modifies this, buffer
      ensures buffer[..2 * PACKET_SIZE] == Tables(old(patContinuityCounter), old(pmtContinuityCounter))
      ensures Value() == TablesSent(old(Value()))
    {
      hide TablePacket;
      WriteTablePacket(buffer, 0, PAT_PID, patContinuityCounter, PAT_BODY);
      patContinuityCounter := (patContinuityCounter + 1) % 16;
      WriteTablePacket(buffer, PACKET_SIZE, PMT_PID, pmtContinuityCounter, PMT_BODY);
      pmtContinuityCounter := (pmtContinuityCounter + 1) % 16;
    }

    /** What the container sends before any audio; it also starts the count of the metadata interleaver. */
    method BuildPrelude(icy: Icy.Metadata, buffer: array<Byte>, capacity: nat) returns (length: int)
      requires capacity <= buffer.Length
      modifies this, buffer, icy`audioBytesUntilMetadata
      ensures capacity < 2 * PACKET_SIZE ==> length == -1 && Value() == old(Value())
      ensures capacity >= 2 * PACKET_SIZE ==>
        && length == 2 * PACKET_SIZE
        && buffer[..length] == Tables(old(patContinuityCounter), old(pmtContinuityCounter))
        && Value() == TablesSent(old(Value()))
        && (icy.enabled ==> icy.audioBytesUntilMetadata == Icy.BytesUntilNextMetadata(length))
    {
      if 2 * PACKET_SIZE > capacity {
        return -1;
      }
      WriteTables(buffer);
      if icy.enabled {
        icy.audioBytesUntilMetadata := Icy.BytesUntilNextMetadata(2 * PACKET_SIZE);
      }
      return 2 * PACKET_SIZE;
    }

    method BuildPes(samples: seq<Sample>, frameCount: nat, buffer: array<Byte>) returns (length: int)
      requires |samples| >= if channels == 2 then 2 * frameCount else frameCount
      modifies buffer
      ensures length == if PES_HEADER + 4 * frameCount <= buffer.Length then PES_HEADER + 4 * frameCount else -1
      ensures length >= 0 ==> buffer[..length] == PesOf(Value(), samples, frameCount)
    {
      if PES_HEADER + 4 * frameCount > buffer.Length {
        return -1;
      }
      hide PesHeader, PtsBytes, Encode, Words, PesOf;
      PesHeaderLength(pts90khz, lpcmHeader, frameCount);
      PesOfIs(Value(), samples, frameCount);
      CopyInto(buffer, 0, PesHeader(pts90khz, lpcmHeader, frameCount));
      assert buffer[..PES_HEADER] == PesHeader(pts90khz, lpcmHeader, frameCount);
      if channels == 2 {
        WriteStereo(samples, frameCount, buffer);
      } else {
        WriteMono(samples, frameCount, buffer);
      }
      return PES_HEADER + 4 * frameCount;
    }

    static lemma PesOfIs(m: Mux, samples: seq<Sample>, frames: nat)
      requires |samples| >= if m.channels == 2 then 2 * frames else frames
      ensures PesOf(m, samples, frames)
           == PesHeader(m.pts90khz, m.lpcmHeader, frames) + Encode(Words(samples, m.channels == 2, frames))
    {
      hide PesHeader, Encode;
    }

    static method WriteStereo(samples: seq<Sample>, frameCount: nat, buffer: array<Byte>)
      requires |samples| >= 2 * frameCount && PES_HEADER + 4 * frameCount <= buffer.Length
      modifies buffer
      ensures buffer[..PES_HEADER + 4 * frameCount]
           == old(buffer[..PES_HEADER]) + Encode(Words(samples, true, frameCount))
    {
      hide Encode;
      ghost var words := Words(samples, true, frameCount);
      EncodeNothing(words);
      var payloadLength: nat := PES_HEADER;
      for i := 0 to 2 * frameCount
        invariant payloadLength == PES_HEADER + 2 * i
        invariant buffer[..payloadLength] == old(buffer[..PES_HEADER]) + Encode(words[..i])
      {
        EncodeStep(words, i);
        CopyInto(buffer, payloadLength, [HighByte(samples[i]), LowByte(samples[i])]);
        payloadLength := payloadLength + 2;
      }
      assert words[..2 * frameCount] == words;
    }

    static method WriteMono(samples: seq<Sample>, frameCount: nat, buffer: array<Byte>)
      requires |samples| >= frameCount && PES_HEADER + 4 * frameCount <= buffer.Length
      modifies buffer
      ensures buffer[..PES_HEADER + 4 * frameCount]
           == old(buffer[..PES_HEADER]) + Encode(Words(samples, false, frameCount))
    {
      hide Encode;
      ghost var words := Words(samples, false, frameCount);
      EncodeNothing(words);
      var payloadLength: nat := PES_HEADER;
      for i := 0 to frameCount
        invariant payloadLength == PES_HEADER + 4 * i
        invariant buffer[..payloadLength] == old(buffer[..PES_HEADER]) + Encode(words[..2 * i])
      {
        EncodeMonoStep(words, i);
        CopyInto(buffer, payloadLength, [HighByte(samples[i]), LowByte(samples[i]), 0x00, 0x00]);
        payloadLength := payloadLength + 4;
      }
      assert words[..2 * frameCount] == words;
    }

    static lemma EncodeNothing(words: seq<Sample>)
      ensures Encode(words[..0]) == []
    {}

    static lemma EncodeMonoStep(words: seq<Sample>, i: nat)
      requires 2 * i + 1 < |words| && words[2 * i + 1] == 0
      ensures Encode(words[..2 * (i + 1)])
         == Encode(words[..2 * i]) + [HighByte(words[2 * i]), LowByte(words[2 * i]), 0, 0]
    {
      EncodeStep(words, 2 * i);
      EncodeStep(words, 2 * i + 1);
    }

    static lemma PesHeaderLength(pts90khz: nat, lpcmHeader: nat, frames: nat)
      ensures |PesHeader(pts90khz, lpcmHeader, frames)| == PES_HEADER
    {
      hide PtsBytes;
      PtsLength(pts90khz);
    }

    static lemma EncodeStep(words: seq<Sample>, i: nat)
      requires i < |words|
      ensures Encode(words[..i + 1]) == Encode(words[..i]) + [HighByte(words[i]), LowByte(words[i])]
    {}

    /** The front of the first packet of a PES packet: the clock, and stuffing if the payload is short. */
    method FirstFront(n: nat) returns (front: seq<Byte>, payloadCapacity: nat)
      requires n > 0
      ensures payloadCapacity == Taken(n, true)
      ensures var a := Adaptation(n, true, pts90khz);
        |a| < 256 && front == Header(true, AUDIO_PID, 3, audioContinuityCounter) + [|a|] + a
    {
      hide PcrBytes, Pcr, Header;
      var adaptationLength := 7;
      payloadCapacity := PACKET_SIZE - 4 - 1 - adaptationLength;
      if n < payloadCapacity {
        adaptationLength := adaptationLength + payloadCapacity - n;
        payloadCapacity := n;
      }
      AdaptationLength(n, true, pts90khz);
      front := Header(true, AUDIO_PID, 3, audioContinuityCounter)
        + [adaptationLength] + ([0x50] + PcrBytes(Pcr(pts90khz)) + Repeat(0xff, adaptationLength - 7));
    }

    /** The front of a later packet that its payload does not fill: stuffing. */
    method StuffedFront(n: nat) returns (front: seq<Byte>)
      requires 0 < n < NEXT_PAYLOAD
      ensures var a := Adaptation(n, false, pts90khz);
        |a| < 256 && front == Header(false, AUDIO_PID, 3, audioContinuityCounter) + [|a|] + a
    {
      hide Header;
      var adaptationTotal := PACKET_SIZE - 4 - n;
      AdaptationLength(n, false, pts90khz);
      front := Header(false, AUDIO_PID, 3, audioContinuityCounter) + [adaptationTotal - 1];
      if adaptationTotal > 1 {
        front := front + ([0x00] + Repeat(0xff, adaptationTotal - 2));
      }
    }

    /** All of a packet before its payload, and the room left for that. */
    method PacketFront(pes: seq<Byte>, first: bool) returns (front: seq<Byte>, payloadCapacity: nat)
      requires pes != []
      ensures payloadCapacity == Taken(|pes|, first) <= |pes| && |front| + payloadCapacity == PACKET_SIZE
      ensures AudioPacket(pes, first, pts90khz, audioContinuityCounter) == front + pes[..payloadCapacity]
    {
      hide Header, Adaptation;
      if first {
        front, payloadCapacity := FirstFront(|pes|);
      } else if |pes| < PACKET_SIZE - 4 {
        front := StuffedFront(|pes|);
        payloadCapacity := |pes|;
      } else {
        front := Header(false, AUDIO_PID, 1, audioContinuityCounter);
        payloadCapacity := PACKET_SIZE - 4;
      }
      if first || |pes| < NEXT_PAYLOAD { AdaptationLength(|pes|, first, pts90khz); }
      HeaderLength(first, AUDIO_PID, 3, audioContinuityCounter);
      HeaderLength(first, AUDIO_PID, 1, audioContinuityCounter);
    }

    /** Writes one packet of the audio stream, with the clock in the first one, and returns how much payload it took. */
    method WriteAudioPacket(buffer: array<Byte>, at: nat, pes: seq<Byte>, first: bool) returns (payloadSize: nat)
      requires at + PACKET_SIZE <= buffer.Length && pes != []
      modifies buffer, `audioContinuityCounter
      ensures payloadSize == Taken(|pes|, first)
      ensures buffer[..at + PACKET_SIZE]
           == old(buffer[..at]) + AudioPacket(pes, first, pts90khz, old(audioContinuityCounter))
      ensures audioContinuityCounter == (old(audioContinuityCounter) + 1) % 16
    {
      hide AudioPacket, Taken;
      ghost var before := buffer[..at];
      Fill(buffer, at, PACKET_SIZE, 0xff);
      assert buffer[..at] == before;
      var front, payloadCapacity := PacketFront(pes, first);
      audioContinuityCounter := (audioContinuityCounter + 1) % 16;
      payloadSize := Min(|pes|, payloadCapacity);
      CopyInto(buffer, at, front);
      CopyInto(buffer, at + PACKET_SIZE - payloadCapacity, pes[..payloadSize]);
      assert before + (front + pes[..payloadSize]) == before + front + pes[..payloadSize];
    }

    method AdvanceTime(frameCount: nat)
      modifies `pts90khz, `ptsNumeratorRemainder
      ensures Value() == AdvancePts(old(Value()), frameCount)
    {
      var numerator := frameCount * 90000 + ptsNumeratorRemainder;
      pts90khz := (pts90khz + numerator / 48000) % WORD64;
      ptsNumeratorRemainder := numerator % 48000;
    }

    method WriteAudio(samples: seq<Sample>, frameCount: nat, buffer: array<Byte>, capacity: nat, ghost m: Mux)
        returns (length: int)
      requires capacity <= buffer.Length && Value() == m && m.audioCounter < 16
      requires |samples| >= if m.channels == 2 then 2 * frameCount else frameCount
      modifies this, buffer
      ensures length >= 0 <==> Fits(frameCount, capacity)
      ensures length >= 0 ==> Value() == AudioSent(m, frameCount)
      ensures length >= 0 ==> length <= buffer.Length && buffer[..length] == AudioBytes(m, samples, frameCount)
    {
      hide Tables, AudioPackets, PesOf, PacketCount;
      length := -1;
      if capacity >= 2 * PACKET_SIZE {
        WriteTables(buffer);
        var pes := new Byte[MAX_PES_BYTES];
        var pesLength := BuildPes(samples, frameCount, pes);
        if pesLength >= 0 {
          SamePes(m, Value(), samples, frameCount);
          length := WritePackets(pes[..pesLength], buffer, capacity);
          if length >= 0 {
            AdvanceTime(frameCount);
          }
        }
      }
    }

    static lemma SamePes(m: Mux, n: Mux, samples: seq<Sample>, frames: nat)
      requires |samples| >= if m.channels == 2 then 2 * frames else frames
      requires n == TablesSent(m)
      ensures PesOf(n, samples, frames) == PesOf(m, samples, frames)
    {}

    /** The packetising loop, behind the two tables. */
    method WritePackets(pes: seq<Byte>, buffer: array<Byte>, capacity: nat) returns (length: int)
      requires 2 * PACKET_SIZE <= capacity <= buffer.Length && audioContinuityCounter < 16 && pes != []
      modifies `audioContinuityCounter, buffer
      ensures audioContinuityCounter < 16
      ensures length >= 0 <==> PACKET_SIZE * (2 + PacketCount(|pes|, true)) <= capacity
      ensures length >= 0 ==>
        && length == PACKET_SIZE * (2 + PacketCount(|pes|, true))
        && buffer[..length] == old(buffer[..2 * PACKET_SIZE])
                               + AudioPackets(pes, true, pts90khz, old(audioContinuityCounter))
        && audioContinuityCounter == (old(audioContinuityCounter) + PacketCount(|pes|, true)) % 16
    {
      hide AudioPackets, AudioPacket, PacketCount, Taken;
      var written: nat, rest, first := 2 * PACKET_SIZE, pes, true;
      ghost var packets := 0;
      ghost var done := buffer[..2 * PACKET_SIZE];
      ghost var all := done + AudioPackets(pes, true, pts90khz, audioContinuityCounter);
      while rest != []
        invariant audioContinuityCounter < 16 && written == PACKET_SIZE * (2 + packets) <= capacity
        invariant packets + PacketCount(|rest|, first) == PacketCount(|pes|, true)
        invariant audioContinuityCounter == (old(audioContinuityCounter) + packets) % 16
        invariant buffer[..written] == done
        invariant done + AudioPackets(rest, first, pts90khz, audioContinuityCounter) == all
        decreases |rest|
      {
        PacketsStep(rest, first, pts90khz, audioContinuityCounter, done);
        if written + PACKET_SIZE > capacity {
          return -1;
        }
        ghost var counter := audioContinuityCounter;
        var payloadSize := WriteAudioPacket(buffer, written, rest, first);
        done := done + AudioPacket(rest, first, pts90khz, counter);
        written := written + PACKET_SIZE;
        packets := packets + 1;
        rest := rest[payloadSize..];
        first := false;
      }
      PacketsEnd(first, pts90khz, audioContinuityCounter);
      return written;
    }

    static lemma PacketsStep(rest: seq<Byte>, first: bool, pts90khz: nat, counter: nat, done: seq<Byte>)
      requires rest != []
      ensures 0 < Taken(|rest|, first) <= |rest|
      ensures done + AudioPackets(rest, first, pts90khz, counter)
           == done + AudioPacket(rest, first, pts90khz, counter)
              + AudioPackets(rest[Taken(|rest|, first)..], false, pts90khz, (counter + 1) % 16)
      ensures PacketCount(|rest|, first) == 1 + PacketCount(|rest| - Taken(|rest|, first), false)
    {
      hide AudioPacket;
      var p, later := AudioPacket(rest, first, pts90khz, counter),
          AudioPackets(rest[Taken(|rest|, first)..], false, pts90khz, (counter + 1) % 16);
      assert done + (p + later) == done + p + later;
    }

    static lemma PacketsEnd(first: bool, pts90khz: nat, counter: nat)
      ensures AudioPackets([], first, pts90khz, counter) == [] && PacketCount(0, first) == 0
    {}
  }

  // ---------------------------------------------------------------- runs

  /** The successful calls a client's stream is made of. */
  datatype Call = Prelude | Chunk(samples: seq<Sample>, frames: nat)

  predicate Acceptable(call: Call, channels: nat)
  {
    call.Chunk? ==> |call.samples| >= (if channels == 2 then 2 * call.frames else call.frames)
                    && PES_HEADER + 4 * call.frames <= MAX_PES_BYTES
  }

  /** The multiplexer, the bytes sent, the frames sent, and the PES packets sent one after the other. */
  datatype Run = Run(mux: Mux, stream: seq<Byte>, frames: nat, pes: seq<Byte>)

  function Extend(r: Run, call: Call): Run
    requires Acceptable(call, r.mux.channels)
  {
    var m := r.mux;
    match call
    case Prelude => r.(mux := TablesSent(m), stream := r.stream + Tables(m.patCounter, m.pmtCounter))
    case Chunk(samples, frames) =>
      Run(AudioSent(m, frames), r.stream + AudioBytes(m, samples, frames), r.frames + frames,
          r.pes + PesOf(m, samples, frames))
  }

  /** Counters on one stream of packets run 0, 1, ... modulo 16, and `next` is the one due. */
  predicate Continuous(packets: seq<Packet>, pid: nat, next: nat)
  {
    var c := CountersOf(packets, pid);
    c == CountUp(0, |c|) && next == |c| % 16
  }

  predicate OnTime(m: Mux, frames: nat)
  {
    m.remainder < 48000 && m.pts90khz < WORD64
    && m.pts90khz * 48000 + m.remainder == frames * 90000 % (48000 * WORD64)
  }

  predicate Sound(r: Run)
  {
    && OnTime(r.mux, r.frames) && r.mux.lpcmHeader < 65536
    && Parse(r.stream).Some?
    && var q := Parse(r.stream).value;
       && Continuous(q, PAT_PID, r.mux.patCounter) && Continuous(q, PMT_PID, r.mux.pmtCounter)
       && Continuous(q, AUDIO_PID, r.mux.audioCounter)
       && PayloadOf(q, AUDIO_PID) == r.pes
  }

  lemma CountUpConcat(n: nat, m: nat)
    ensures CountUp(0, n) + CountUp(n % 16, m) == CountUp(0, n + m)
    ensures |CountUp(0, n)| == n
  {
    var ab, c := CountUp(0, n) + CountUp(n % 16, m), CountUp(0, n + m);
    forall k | 0 <= k < n + m
      ensures ab[k] == c[k]
    {
      if k >= n { ModuloSum(n, k - n); }
    }
  }

  lemma ModuloSum(a: nat, b: nat)
    ensures (a % 16 + b) % 16 == (a + b) % 16
  {}

  lemma ContinuousConcat(a: seq<Packet>, b: seq<Packet>, pid: nat, next: nat, n: nat)
    requires Continuous(a, pid, next) && next < 16
    requires CountersOf(b, pid) == CountUp(next, n)
    ensures Continuous(a + b, pid, (next + n) % 16)
  {
    hide CountersOf, CountUp;
    OfConcat(a, b, pid);
    CountUpConcat(|CountersOf(a, pid)|, n);
    CountUpShape(next, n);
    ModuloSum(|CountersOf(a, pid)|, n);
  }

  lemma AdvanceIsOnTime(m: Mux, total: nat, frames: nat)
    requires OnTime(m, total)
    ensures OnTime(AdvancePts(m, frames), total + frames)
  {
    var numerator := frames * 90000 + m.remainder;
    var q, r, cycle := numerator / 48000, numerator % 48000, 48000 * WORD64;
    var wraps := total * 90000 / cycle;
    assert total * 90000 == wraps * cycle + m.pts90khz * 48000 + m.remainder;
    var pts := m.pts90khz + q;
    assert pts * 48000 + r == m.pts90khz * 48000 + m.remainder + frames * 90000;
    var more := pts / WORD64;
    assert pts == more * WORD64 + pts % WORD64;
    var now := pts % WORD64 * 48000 + r;
    assert (total + frames) * 90000 == (wraps + more) * cycle + now;
    Quotient(wraps + more, now, cycle);
  }

  lemma CountersInRange(r: Run)
    requires Sound(r)
    ensures r.mux.patCounter < 16 && r.mux.pmtCounter < 16 && r.mux.audioCounter < 16
  {
    hide Parse, PayloadOf, CountersOf, CountUp, OnTime;
  }

  lemma PreludeIsSound(r: Run)
    requires Sound(r)
    ensures Sound(Extend(r, Prelude))
  {
    hide Parse, PayloadOf, CountersOf, Continuous, CountUp, OnTime, Tables, SectionOf, Section;
    var m, before := r.mux, Parse(r.stream).value;
    CountersInRange(r);
    TablesSound(m);
    Appended(r.stream, before, Tables(m.patCounter, m.pmtCounter), m, 0);
    SameTime(m, r.frames);
    assert r.pes + [] == r.pes;
    assert (m.audioCounter + 0) % 16 == m.audioCounter;
  }

  lemma ChunkIsSound(r: Run, samples: seq<Sample>, frames: nat)
    requires Sound(r) && Acceptable(Chunk(samples, frames), r.mux.channels)
    ensures var next := Extend(r, Chunk(samples, frames)); Sound(next) && next.mux.channels == r.mux.channels
  {
    hide Parse, PayloadOf, CountersOf, Continuous, CountUp, OnTime, AudioBytes, PesOf, PacketCount, DecodePes,
      AdvancePts;
    var m, before := r.mux, Parse(r.stream).value;
    CountersInRange(r);
    AudioSound(m, samples, frames);
    Appended(r.stream, before, AudioBytes(m, samples, frames), m, PacketCount(PES_HEADER + 4 * frames, true));
    AudioTime(m, r.frames, frames);
    AudioSentCounters(m, frames);
  }

  lemma AudioSentCounters(m: Mux, frames: nat)
    ensures var n := AudioSent(m, frames);
      n.patCounter == (m.patCounter + 1) % 16 && n.pmtCounter == (m.pmtCounter + 1) % 16
      && n.audioCounter == (m.audioCounter + PacketCount(PES_HEADER + 4 * frames, true)) % 16
  {
    hide PacketCount;
  }

  /** What a stretch of stream adds: one packet of each table, and audio packets counted up. */
  predicate Adds(b: seq<Byte>, m: Mux, audioPackets: nat)
  {
    && Parse(b).Some?
    && var q := Parse(b).value;
       && CountersOf(q, PAT_PID) == CountUp(m.patCounter, 1) && CountersOf(q, PMT_PID) == CountUp(m.pmtCounter, 1)
       && CountersOf(q, AUDIO_PID) == CountUp(m.audioCounter, audioPackets)
  }

  lemma CountUpShape(from: nat, n: nat)
    requires from < 16
    ensures |CountUp(from, n)| == n && CountUp(from, 1) == [from] && [from % 16] == [from] && CountUp(from, 0) == []
  {}

  lemma TablesSound(m: Mux)
    requires m.patCounter < 16 && m.pmtCounter < 16 && m.audioCounter < 16
    ensures Adds(Tables(m.patCounter, m.pmtCounter), m, 0)
    ensures PayloadOf(Parse(Tables(m.patCounter, m.pmtCounter)).value, AUDIO_PID) == []
  {
    hide Tables, Parse, CountUp, CountersOf, PayloadOf, SectionOf, Section;
    TablesParse(m.patCounter, m.pmtCounter);
    OfTables(Parse(Tables(m.patCounter, m.pmtCounter)).value);
    CountUpShape(m.patCounter, 1);
    CountUpShape(m.pmtCounter, 1);
    CountUpShape(m.audioCounter, 0);
  }

  lemma AudioSound(m: Mux, samples: seq<Sample>, frames: nat)
    requires m.patCounter < 16 && m.pmtCounter < 16 && m.audioCounter < 16 && m.lpcmHeader < 65536
    requires Acceptable(Chunk(samples, frames), m.channels)
    ensures Adds(AudioBytes(m, samples, frames), m, PacketCount(PES_HEADER + 4 * frames, true))
    ensures PayloadOf(Parse(AudioBytes(m, samples, frames)).value, AUDIO_PID) == PesOf(m, samples, frames)
  {
    hide AudioBytes, Parse, CountUp, CountersOf, PayloadOf, DecodePes, PacketCount, PesOf;
    AudioIsRecovered(m, samples, frames);
    CountUpShape(m.patCounter, 1);
    CountUpShape(m.pmtCounter, 1);
  }

  lemma Appended(stream: seq<Byte>, before: seq<Packet>, b: seq<Byte>, m: Mux, n: nat)
    requires Parse(stream) == Some(before) && Adds(b, m, n)
    requires m.patCounter < 16 && m.pmtCounter < 16 && m.audioCounter < 16
    requires Continuous(before, PAT_PID, m.patCounter) && Continuous(before, PMT_PID, m.pmtCounter)
    requires Continuous(before, AUDIO_PID, m.audioCounter)
    ensures Parse(stream + b) == Some(before + Parse(b).value)
    ensures PayloadOf(before + Parse(b).value, AUDIO_PID)
         == PayloadOf(before, AUDIO_PID) + PayloadOf(Parse(b).value, AUDIO_PID)
    ensures var q := before + Parse(b).value;
      Continuous(q, PAT_PID, (m.patCounter + 1) % 16) && Continuous(q, PMT_PID, (m.pmtCounter + 1) % 16)
      && Continuous(q, AUDIO_PID, (m.audioCounter + n) % 16)
  {
    hide Parse, PayloadOf, CountersOf, Continuous, CountUp;
    var q := Parse(b).value;
    ParseConcat(stream, b);
    OfConcat(before, q, AUDIO_PID);
    ContinuousConcat(before, q, PAT_PID, m.patCounter, 1);
    ContinuousConcat(before, q, PMT_PID, m.pmtCounter, 1);
    ContinuousConcat(before, q, AUDIO_PID, m.audioCounter, n);
  }

  lemma SameTime(m: Mux, frames: nat)
    requires OnTime(m, frames)
    ensures OnTime(TablesSent(m), frames)
  {}

  lemma AudioTime(m: Mux, total: nat, frames: nat)
    requires OnTime(m, total)
    ensures OnTime(AudioSent(m, frames), total + frames)
    ensures AudioSent(m, frames).channels == m.channels && AudioSent(m, frames).lpcmHeader == m.lpcmHeader
  {
    hide PacketCount;
    AdvanceIsOnTime(TablesSent(m).(audioCounter := (m.audioCounter + PacketCount(PES_HEADER + 4 * frames, true)) % 16),
                    total, frames);
  }

  function RunOf(channels: nat, calls: seq<Call>): (r: Run)
    requires forall i :: 0 <= i < |calls| ==> Acceptable(calls[i], channels)
    ensures r.mux.channels == channels
  {
    if calls == [] then Run(InitialMux(channels), [], 0, [])
    else Extend(RunOf(channels, calls[..|calls| - 1]), calls[|calls| - 1])
  }

  /** Over a whole run, prelude included: the stream is whole packets, the k-th packet on each stream carries counter
      k modulo 16, the audio payloads are the PES packets sent, and the clock never drifts from the frames sent. */
  lemma {:induction false} RunsAreSound(channels: nat, calls: seq<Call>)
    requires forall i :: 0 <= i < |calls| ==> Acceptable(calls[i], channels)
    ensures Sound(RunOf(channels, calls))
  {
    hide Sound, Extend;
    if calls == [] {
      NothingSent(channels);
    } else {
      RunsAreSound(channels, calls[..|calls| - 1]);
      match calls[|calls| - 1]
      case Prelude => PreludeIsSound(RunOf(channels, calls[..|calls| - 1]));
      case Chunk(samples, frames) => ChunkIsSound(RunOf(channels, calls[..|calls| - 1]), samples, frames);
    }
  }

  lemma NothingSent(channels: nat)
    ensures Sound(Run(InitialMux(channels), [], 0, []))
  {
    NoPackets();
    assert CountersOf([], PAT_PID) == [] && CountersOf([], PMT_PID) == [];
    assert CountUp(0, 0) == [];
  }
}
