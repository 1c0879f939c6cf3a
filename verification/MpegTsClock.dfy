/** What the clocks in the stream say over a whole run: when each stretch of audio begins. */
module MpegTsClock {
  import opened Common
  import opened Bytes
  import opened MpegTs
  import opened MpegTsAudio
  import opened MpegTsMuxer

  const STAMP_RANGE: nat := 0x2_0000_0000

  predicate IsStart(q: Packet) { q.pid == AUDIO_PID && q.start && |q.payload| >= 14 }

  /** The time stamps a decoder finds, in order. */
  function StampsOf(packets: seq<Packet>): seq<nat>
  {
    if packets == [] then [] else StampIn(packets[0]) + StampsOf(packets[1..])
  }

  function StampIn(q: Packet): seq<nat> { if IsStart(q) then [DecodePts(q.payload[9..14])] else [] }

  /** A packet that starts a stretch of audio carries the clock, with extension 0 and the value of the time stamp. */
  predicate ClocksAgree(q: Packet)
  {
    q.pid == AUDIO_PID && q.start ==>
      && IsStart(q) && |q.adaptation| >= 7
      && DecodePcrBase(q.adaptation[1..7]) == DecodePts(q.payload[9..14])
      && DecodePcrExtension(q.adaptation[1..7]) == 0
  }

  predicate AllAgree(packets: seq<Packet>) { forall i :: 0 <= i < |packets| ==> ClocksAgree(packets[i]) }

  lemma {:induction false} StampsConcat(a: seq<Packet>, b: seq<Packet>)
    ensures StampsOf(a + b) == StampsOf(a) + StampsOf(b)
    decreases |a|
  {
    hide StampIn;
    if a == [] {
      assert a + b == b;
    } else {
      assert (a + b)[1..] == a[1..] + b;
      StampsConcat(a[1..], b);
      var first, rest, later := StampIn(a[0]), StampsOf(a[1..]), StampsOf(b);
      assert first + (rest + later) == first + rest + later;
    }
  }

  lemma AgreeConcat(a: seq<Packet>, b: seq<Packet>)
    requires AllAgree(a) && AllAgree(b)
    ensures AllAgree(a + b)
  {
    hide ClocksAgree;
  }

  /** Packets that start nothing show no time. */
  lemma {:induction false} NoStamps(q: seq<Packet>)
    requires forall i :: 0 <= i < |q| ==> !(q[i].pid == AUDIO_PID && q[i].start)
    ensures StampsOf(q) == [] && AllAgree(q)
  {
    if q != [] { NoStamps(q[1..]); }
  }

  lemma OneStamp(q: Packet)
    requires IsStart(q)
    ensures StampsOf([q]) == [DecodePts(q.payload[9..14])] && (ClocksAgree(q) ==> AllAgree([q]))
  {
    var none: seq<Packet> := [];
    assert [q][1..] == none;
  }

  // ---------------------------------------------------------------- one call

  /** The first packet of a PES packet shows its time twice. */
  lemma FirstPacketShowsTime(pes: seq<Byte>, pts90khz: nat, counter: nat)
    requires |pes| >= PES_HEADER && pes[9..14] == PtsBytes(pts90khz)
    ensures var p := AudioPacket(pes, true, pts90khz, counter);
      && |p| == PACKET_SIZE && ParsePacket(p).Some?
      && var q := ParsePacket(p).value;
         && IsStart(q) && DecodePts(q.payload[9..14]) == pts90khz % STAMP_RANGE
         && (pts90khz * 300 < WORD64 ==> ClocksAgree(q))
  {
    hide AudioPacket, ParsePacket, PtsBytes, PcrBytes, Pcr, DecodePts, DecodePcrBase, DecodePcrExtension;
    AudioPacketParses(pes, true, pts90khz, counter);
    PtsRoundTrip(pts90khz);
    var q := ParsePacket(AudioPacket(pes, true, pts90khz, counter)).value;
    assert q.payload[9..14] == pes[9..14];
    if pts90khz * 300 < WORD64 { PcrRoundTrip(pts90khz); }
  }

  lemma AudioShowsTime(pes: seq<Byte>, pts90khz: nat, counter: nat)
    requires |pes| >= PES_HEADER && pes[9..14] == PtsBytes(pts90khz) && counter < 16
    ensures var b := AudioPackets(pes, true, pts90khz, counter);
      && Parse(b).Some? && StampsOf(Parse(b).value) == [pts90khz % STAMP_RANGE]
      && (pts90khz * 300 < WORD64 ==> AllAgree(Parse(b).value))
  {
    hide AudioPacket, ParsePacket, Parse, PtsBytes, StampsOf, AllAgree, ClocksAgree, IsStart, DecodePts;
    var t := Taken(|pes|, true);
    var p := AudioPacket(pes, true, pts90khz, counter);
    var rest := AudioPackets(pes[t..], false, pts90khz, (counter + 1) % 16);
    AudioPacketParses(pes, true, pts90khz, counter);
    AudioPacketsParse(pes[t..], false, pts90khz, (counter + 1) % 16);
    FirstPacketShowsTime(pes, pts90khz, counter);
    ParseOne(p);
    ParseConcat(p, rest);
    var q := ParsePacket(p).value;
    OneStamp(q);
    NoStamps(Parse(rest).value);
    StampsConcat([q], Parse(rest).value);
    if AllAgree([q]) { AgreeConcat([q], Parse(rest).value); }
    assert [pts90khz % STAMP_RANGE] + [] == [pts90khz % STAMP_RANGE];
  }

  lemma TablesShowNoTime(patCounter: nat, pmtCounter: nat)
    ensures Parse(Tables(patCounter, pmtCounter)).Some?
    ensures var q := Parse(Tables(patCounter, pmtCounter)).value; StampsOf(q) == [] && AllAgree(q)
  {
    hide Tables, Parse, SectionOf, Section, StampsOf, AllAgree;
    TablesParse(patCounter, pmtCounter);
    NoStamps(Parse(Tables(patCounter, pmtCounter)).value);
  }

  lemma PesCarriesTime(m: Mux, samples: seq<Sample>, frames: nat)
    requires |samples| >= if m.channels == 2 then 2 * frames else frames
    ensures var pes := PesOf(m, samples, frames); |pes| >= PES_HEADER && pes[9..14] == PtsBytes(m.pts90khz)
  {
    hide PtsBytes, Encode;
    PtsLength(m.pts90khz);
  }

  lemma CallShowsTime(m: Mux, samples: seq<Sample>, frames: nat)
    requires |samples| >= if m.channels == 2 then 2 * frames else frames
    requires m.audioCounter < 16
    ensures var b := AudioBytes(m, samples, frames);
      && Parse(b).Some? && StampsOf(Parse(b).value) == [m.pts90khz % STAMP_RANGE]
      && (m.pts90khz * 300 < WORD64 ==> AllAgree(Parse(b).value))
  {
    hide Tables, AudioPackets, PesOf, Parse, StampsOf, AllAgree, PtsBytes;
    var tables, pes := Tables(m.patCounter, m.pmtCounter), PesOf(m, samples, frames);
    var audio := AudioPackets(pes, true, m.pts90khz, m.audioCounter);
    TablesShowNoTime(m.patCounter, m.pmtCounter);
    PesCarriesTime(m, samples, frames);
    AudioShowsTime(pes, m.pts90khz, m.audioCounter);
    ParseConcat(tables, audio);
    StampsConcat(Parse(tables).value, Parse(audio).value);
    if AllAgree(Parse(audio).value) { AgreeConcat(Parse(tables).value, Parse(audio).value); }
    assert [] + StampsOf(Parse(audio).value) == StampsOf(Parse(audio).value);
  }

  // ---------------------------------------------------------------- whole runs

  /** Ninety thousand ticks for forty-eight thousand frames. */
  function Ticks(frames: nat): nat { frames * 90000 / 48000 }

  /** The time stamp due after so many frames. */
  function StampAt(frames: nat): nat { Ticks(frames) % STAMP_RANGE }

  /** The 27 MHz clock at that time still fits 64 bits. */
  predicate WithinRange(frames: nat) { Ticks(frames) * 300 < WORD64 }

  function FramesOf(calls: seq<Call>): nat
  {
    if calls == [] then 0
    else FramesOf(calls[..|calls| - 1]) + (if calls[|calls| - 1].Chunk? then calls[|calls| - 1].frames else 0)
  }

  /** The time at which each chunk is due: the frames sent before it, in ticks. */
  function Due(calls: seq<Call>): seq<nat>
  {
    if calls == [] then []
    else
      var init := calls[..|calls| - 1];
      Due(init) + (if calls[|calls| - 1].Chunk? then [StampAt(FramesOf(init))] else [])
  }

  lemma StampIsTicks(m: Mux, frames: nat)
    requires OnTime(m, frames)
    ensures m.pts90khz == Ticks(frames) % WORD64
    ensures m.pts90khz % STAMP_RANGE == Ticks(frames) % STAMP_RANGE
  {
    var n := frames * 90000;
    var wraps := n / (48000 * WORD64);
    assert n == wraps * (48000 * WORD64) + (m.pts90khz * 48000 + m.remainder);
    var ticks := wraps * WORD64 + m.pts90khz;
    assert n == ticks * 48000 + m.remainder;
    WrapIs(wraps, m.pts90khz);
  }

  lemma WrapIs(wraps: nat, x: nat)
    requires x < WORD64
    ensures (wraps * WORD64 + x) % WORD64 == x
    ensures (wraps * WORD64 + x) % STAMP_RANGE == x % STAMP_RANGE
  {
    var y := wraps * 0x8000_0000;
    assert wraps * WORD64 == y * STAMP_RANGE;
    WrapOnce(y, x);
  }

  lemma WrapOnce(y: nat, x: nat)
    ensures (y * 0x2_0000_0000 + x) % 0x2_0000_0000 == x % 0x2_0000_0000
  {}

  lemma TicksGrow(a: nat, b: nat)
    requires a <= b
    ensures Ticks(a) <= Ticks(b)
  {}

  predicate ShowsTime(r: Run, calls: seq<Call>)
  {
    && r.frames == FramesOf(calls) && Parse(r.stream).Some?
    && StampsOf(Parse(r.stream).value) == Due(calls)
    && (WithinRange(r.frames) ==> AllAgree(Parse(r.stream).value))
  }

  lemma OneMoreCall(calls: seq<Call>, call: Call)
    ensures FramesOf(calls + [call]) == FramesOf(calls) + (if call.Chunk? then call.frames else 0)
    ensures Due(calls + [call]) == Due(calls) + (if call.Chunk? then [StampAt(FramesOf(calls))] else [])
  {
    hide StampAt;
    assert (calls + [call])[..|calls|] == calls && (calls + [call])[|calls|] == call;
  }

  lemma PreludeStep(r: Run, calls: seq<Call>)
    requires ShowsTime(r, calls) && Sound(r)
    ensures ShowsTime(Extend(r, Prelude), calls + [Prelude])
  {
    hide Parse, StampsOf, AllAgree, Tables, Ticks, Due, FramesOf, Sound;
    var before, tables := Parse(r.stream).value, Tables(r.mux.patCounter, r.mux.pmtCounter);
    OneMoreCall(calls, Prelude);
    TablesShowNoTime(r.mux.patCounter, r.mux.pmtCounter);
    ParseConcat(r.stream, tables);
    StampsConcat(before, Parse(tables).value);
    if AllAgree(before) { AgreeConcat(before, Parse(tables).value); }
    assert Due(calls) + [] == Due(calls);
  }

  /** The packets of one call in a run show the time of the frames sent before it. */
  lemma CallShowsRunTime(r: Run, samples: seq<Sample>, frames: nat)
    requires Sound(r) && Acceptable(Chunk(samples, frames), r.mux.channels)
    ensures var b := AudioBytes(r.mux, samples, frames);
      && Parse(b).Some? && StampsOf(Parse(b).value) == [StampAt(r.frames)]
      && (WithinRange(r.frames + frames) ==> WithinRange(r.frames) && AllAgree(Parse(b).value))
  {
    hide Parse, StampsOf, AllAgree, AudioBytes, Ticks, Sound;
    StampOfRun(r, frames);
    CallShowsTime(r.mux, samples, frames);
  }

  lemma ChunkStep(r: Run, calls: seq<Call>, samples: seq<Sample>, frames: nat)
    requires ShowsTime(r, calls) && Sound(r) && Acceptable(Chunk(samples, frames), r.mux.channels)
    ensures ShowsTime(Extend(r, Chunk(samples, frames)), calls + [Chunk(samples, frames)])
  {
    hide Parse, StampsOf, AllAgree, AudioBytes, PesOf, AudioSent, StampAt, WithinRange, Sound, Due, FramesOf;
    var before, b := Parse(r.stream).value, AudioBytes(r.mux, samples, frames);
    OneMoreCall(calls, Chunk(samples, frames));
    CallShowsRunTime(r, samples, frames);
    ParseConcat(r.stream, b);
    StampsConcat(before, Parse(b).value);
    if AllAgree(before) && AllAgree(Parse(b).value) { AgreeConcat(before, Parse(b).value); }
  }

  /** In a sound run the multiplexer stands at the time of the frames sent. */
  lemma StampOfRun(r: Run, frames: nat)
    requires Sound(r)
    ensures r.mux.audioCounter < 16 && r.mux.pts90khz % STAMP_RANGE == Ticks(r.frames) % STAMP_RANGE
    ensures Ticks(r.frames + frames) * 300 < WORD64 ==> Ticks(r.frames) * 300 < WORD64 && r.mux.pts90khz * 300 < WORD64
  {
    hide Parse, Ticks, OnTime, Continuous, PayloadOf;
    CountersInRange(r);
    StampIsTicks(r.mux, r.frames);
    TicksGrow(r.frames, r.frames + frames);
  }

  /**
   * Over a whole run: the time stamp of each chunk is exactly the time of the frames sent before it, whatever the
   * sizes of the chunks, and until that time reaches 2^64 / 300 ticks the clock says the same, with extension 0.
   */
  lemma {:induction false} RunsShowTheTime(channels: nat, calls: seq<Call>)
    requires forall i :: 0 <= i < |calls| ==> Acceptable(calls[i], channels)
    ensures ShowsTime(RunOf(channels, calls), calls)
  {
    hide ShowsTime, Sound, Extend, Acceptable;
    if calls == [] {
      NothingSentShowsNothing(channels);
    } else {
      var init, last := calls[..|calls| - 1], calls[|calls| - 1];
      RunsShowTheTime(channels, init);
      RunsAreSound(channels, init);
      assert calls == init + [last];
      match last
      case Prelude => PreludeStep(RunOf(channels, init), init);
      case Chunk(samples, frames) => ChunkStep(RunOf(channels, init), init, samples, frames);
    }
  }

  lemma NothingSentShowsNothing(channels: nat)
    ensures ShowsTime(MpegTsMuxer.Run(InitialMux(channels), [], 0, []), [])
  {
    NoPackets();
    NoStamps([]);
  }
}
