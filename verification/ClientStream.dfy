/** What a listener's connection carries, end to end: samples into packets, packets between metadata, and back. */
module ClientStream {
  import opened Common
  import opened Bytes
  import opened MpegTs
  import opened MpegTsAudio
  import opened MpegTsMuxer
  import opened MpegTsClock
  import Icy

  // ---------------------------------------------------------------- the listener

  /** One PES packet after the other; each says how long it is. */
  function DecodeAll(b: seq<Byte>): Option<seq<Audio>>
    decreases |b|
  {
    if b == [] then Some([])
    else if |b| < 6 || |b| < PesSize(b) then None
    else
      var first, rest := DecodePes(b[..PesSize(b)]), DecodeAll(b[PesSize(b)..]);
      if first.None? || rest.None? then None else Some([first.value] + rest.value)
  }

  function PesSize(b: seq<Byte>): nat
    requires |b| >= 6
  {
    6 + Num(b[4]) * 256 + Num(b[5])
  }

  /** What a listener makes of its stream: ICY metadata aside, transport packets, the audio stream that the tables lead
      to, its samples. */
  function Heard(stream: seq<Byte>): Option<seq<Audio>>
  {
    var packets := Parse(Icy.Demux(stream, Icy.METAINT).audio);
    if packets.None? || FindAudio(packets.value).None? then None
    else DecodeAll(PayloadOf(packets.value, FindAudio(packets.value).value))
  }

  lemma {:induction false} DecodeOneMore(b: seq<Byte>, pes: seq<Byte>)
    requires DecodeAll(b).Some? && |pes| >= 6 && PesSize(pes) == |pes| && DecodePes(pes).Some?
    ensures DecodeAll(b + pes) == Some(DecodeAll(b).value + [DecodePes(pes).value])
    decreases |b|
  {
    hide DecodePes;
    if b == [] {
      var none: seq<Byte> := [];
      var one := [DecodePes(pes).value];
      assert b + pes == pes && pes[..PesSize(pes)] == pes && pes[PesSize(pes)..] == none;
      assert one + [] == one == [] + one;
    } else {
      var n := PesSize(b);
      assert PesSize(b + pes) == n && (b + pes)[..n] == b[..n] && (b + pes)[n..] == b[n..] + pes;
      DecodeOneMore(b[n..], pes);
      var first, rest, last := [DecodePes(b[..n]).value], DecodeAll(b[n..]).value, [DecodePes(pes).value];
      assert first + (rest + last) == first + rest + last;
    }
  }

  // ---------------------------------------------------------------- what is sent

  predicate IsChunks(chunks: seq<Call>, channels: nat)
  {
    forall i :: 0 <= i < |chunks| ==> chunks[i].Chunk? && Acceptable(chunks[i], channels)
  }

  /** The samples of each chunk, two words a frame, with the time of the frames before it. */
  function AudioOf(channels: nat, calls: seq<Call>): seq<Audio>
    requires forall i :: 0 <= i < |calls| ==> Acceptable(calls[i], channels)
  {
    if calls == [] then []
    else
      var init, last := calls[..|calls| - 1], calls[|calls| - 1];
      assert Acceptable(last, channels);
      AudioOf(channels, init)
      + (if last.Prelude? then []
         else [Audio(StampAt(FramesOf(init)), InitialMux(channels).lpcmHeader,
                     Words(last.samples, channels == 2, last.frames))])
  }

  /** A chunk as it is heard: its samples frame by frame, the channels named in its header, and the time of the frames
      before it in ticks of 90 kHz. */
  predicate RendersChunk(audio: Audio, channels: nat, chunk: Call, framesBefore: nat)
  {
    && chunk.Chunk? && Acceptable(chunk, channels)
    && CarriesFrames(audio.words, chunk.samples, channels == 2, chunk.frames)
    && IsLpcmOf(audio.lpcmHeader, channels)
    && audio.pts == framesBefore * 90000 / 48000 % 0x2_0000_0000
  }

  predicate Renders(audio: seq<Audio>, channels: nat, chunks: seq<Call>)
  {
    |audio| == |chunks|
    && forall k :: 0 <= k < |audio| ==> RendersChunk(audio[k], channels, chunks[k], FramesOf(chunks[..k]))
  }

  /** The calls that send audio. */
  function ChunksIn(calls: seq<Call>): seq<Call>
  {
    if calls == [] then []
    else ChunksIn(calls[..|calls| - 1]) + (if calls[|calls| - 1].Chunk? then [calls[|calls| - 1]] else [])
  }

  lemma {:induction false} AudioRenders(channels: nat, calls: seq<Call>)
    requires forall i :: 0 <= i < |calls| ==> Acceptable(calls[i], channels)
    ensures Renders(AudioOf(channels, calls), channels, ChunksIn(calls))
    ensures FramesOf(ChunksIn(calls)) == FramesOf(calls)
  {
    hide Renders, RendersChunk, Words, IsLpcmOf, Acceptable;
    if calls == [] {
      NothingRenders(channels);
    } else {
      var init, last := calls[..|calls| - 1], calls[|calls| - 1];
      AudioRenders(channels, init);
      var audio, chunks := AudioOf(channels, init), ChunksIn(init);
      if last.Chunk? {
        assert Acceptable(last, channels);
        ChunkRenders(channels, last, FramesOf(init));
        assert (chunks + [last])[..|chunks|] == chunks;
        OneMoreRenders(audio, channels, chunks, AudioOf(channels, calls)[|audio|], last);
      } else {
        assert audio + [] == audio && chunks + [] == chunks;
      }
    }
  }

  lemma NothingRenders(channels: nat)
    ensures Renders([], channels, [])
  {}

  lemma OneMoreRenders(audio: seq<Audio>, channels: nat, chunks: seq<Call>, a: Audio, chunk: Call)
    requires Renders(audio, channels, chunks) && RendersChunk(a, channels, chunk, FramesOf(chunks))
    ensures Renders(audio + [a], channels, chunks + [chunk])
  {
    hide RendersChunk, FramesOf;
    forall k | 0 <= k <= |audio|
      ensures RendersChunk((audio + [a])[k], channels, (chunks + [chunk])[k], FramesOf((chunks + [chunk])[..k]))
    {
      assert (chunks + [chunk])[..k] == chunks[..k];
      if k == |audio| { assert chunks[..k] == chunks; }
    }
  }

  lemma ChunkRenders(channels: nat, chunk: Call, framesBefore: nat)
    requires chunk.Chunk? && Acceptable(chunk, channels)
    ensures RendersChunk(Audio(StampAt(framesBefore), InitialMux(channels).lpcmHeader,
                               Words(chunk.samples, channels == 2, chunk.frames)), channels, chunk, framesBefore)
  {
    hide Words, CarriesFrames, IsLpcmOf;
    WordsCarryFrames(chunk.samples, channels == 2, chunk.frames);
    HeaderIsLpcm(channels);
  }

  predicate Decodes(r: MpegTsMuxer.Run, channels: nat, calls: seq<Call>)
    requires forall i :: 0 <= i < |calls| ==> Acceptable(calls[i], channels)
  {
    && r.frames == FramesOf(calls) && r.mux.lpcmHeader == InitialMux(channels).lpcmHeader
    && DecodeAll(r.pes) == Some(AudioOf(channels, calls))
  }

  lemma PesSizeIs(pts90khz: nat, lpcmHeader: nat, words: seq<Sample>)
    requires |words| % 2 == 0 && PES_HEADER + 2 * |words| <= MAX_PES_BYTES && lpcmHeader < 65536
    ensures var pes := Pes(pts90khz, lpcmHeader, words); |pes| >= 6 && PesSize(pes) == |pes|
  {
    hide PesHeader, Encode;
    PesHeaderFields(pts90khz, lpcmHeader, |words| / 2);
    EncodeLength(words);
  }

  lemma ChunkDecodes(r: MpegTsMuxer.Run, channels: nat, calls: seq<Call>, samples: seq<Sample>, frames: nat)
    requires forall i :: 0 <= i < |calls| ==> Acceptable(calls[i], channels)
    requires Decodes(r, channels, calls) && Sound(r) && r.mux.channels == channels
    requires Acceptable(Chunk(samples, frames), channels)
    ensures Decodes(Extend(r, Chunk(samples, frames)), channels, calls + [Chunk(samples, frames)])
  {
    hide DecodeAll, DecodePes, Pes, Ticks, PacketCount, AudioBytes, Sound;
    var call := Chunk(samples, frames);
    assert (calls + [call])[..|calls|] == calls && (calls + [call])[|calls|] == call;
    StampOfRun(r, frames);
    var words := Words(samples, channels == 2, frames);
    PesSizeIs(r.mux.pts90khz, r.mux.lpcmHeader, words);
    PesRoundTrip(r.mux.pts90khz, r.mux.lpcmHeader, words);
    DecodeOneMore(r.pes, PesOf(r.mux, samples, frames));
  }

  lemma PreludeDecodes(r: MpegTsMuxer.Run, channels: nat, calls: seq<Call>)
    requires forall i :: 0 <= i < |calls| ==> Acceptable(calls[i], channels)
    requires Decodes(r, channels, calls)
    ensures Decodes(Extend(r, Prelude), channels, calls + [Prelude])
  {
    hide DecodeAll, Tables, Ticks;
    assert (calls + [Prelude])[..|calls|] == calls && (calls + [Prelude])[|calls|] == Prelude;
    assert AudioOf(channels, calls) + [] == AudioOf(channels, calls);
  }

  /** Over every run the PES packets sent decode to the samples sent, each chunk with its time. */
  lemma {:induction false} RunsDecode(channels: nat, calls: seq<Call>)
    requires forall i :: 0 <= i < |calls| ==> Acceptable(calls[i], channels)
    ensures Decodes(RunOf(channels, calls), channels, calls)
    ensures Renders(DecodeAll(RunOf(channels, calls).pes).value, channels, ChunksIn(calls))
  {
    hide Decodes, Sound, Extend, Acceptable, Renders;
    if calls == [] {
      NothingDecodes(channels);
    } else {
      var init, last := calls[..|calls| - 1], calls[|calls| - 1];
      RunsDecode(channels, init);
      RunsAreSound(channels, init);
      assert calls == init + [last];
      match last
      case Prelude => PreludeDecodes(RunOf(channels, init), channels, init);
      case Chunk(samples, frames) => ChunkDecodes(RunOf(channels, init), channels, init, samples, frames);
    }
    WhatIsDecodedRenders(channels, calls);
  }

  lemma WhatIsDecodedRenders(channels: nat, calls: seq<Call>)
    requires forall i :: 0 <= i < |calls| ==> Acceptable(calls[i], channels)
    requires Decodes(RunOf(channels, calls), channels, calls)
    ensures DecodeAll(RunOf(channels, calls).pes).Some?
    ensures Renders(DecodeAll(RunOf(channels, calls).pes).value, channels, ChunksIn(calls))
  {
    hide RunOf, DecodeAll, Renders, Acceptable;
    AudioRenders(channels, calls);
  }

  lemma NothingDecodes(channels: nat)
    ensures Decodes(MpegTsMuxer.Run(InitialMux(channels), [], 0, []), channels, [])
  {}

  // ---------------------------------------------------------------- the whole connection

  /** The calls behind the first n bodies of a connection: the tables, then a chunk for each. */
  function CallsOf(chunks: seq<Call>, n: nat): seq<Call>
    requires n <= |chunks|
  {
    [Prelude] + chunks[..n]
  }

  lemma CallsAcceptable(chunks: seq<Call>, channels: nat, n: nat)
    requires n <= |chunks| && IsChunks(chunks, channels)
    ensures forall i :: 0 <= i < |CallsOf(chunks, n)| ==> Acceptable(CallsOf(chunks, n)[i], channels)
  {}

  /** Body n of the connection: the packets of chunk n, as the multiplexer makes them after those before. */
  predicate Packs(wraps: seq<Icy.Wrapped>, chunks: seq<Call>, channels: nat)
    requires IsChunks(chunks, channels)
  {
    |wraps| == |chunks| && forall n :: 0 <= n < |chunks| ==> wraps[n].body == BodyOf(chunks, channels, n)
  }

  function BodyOf(chunks: seq<Call>, channels: nat, n: nat): seq<Byte>
    requires n < |chunks| && IsChunks(chunks, channels)
  {
    CallsAcceptable(chunks, channels, n);
    AudioBytes(RunOf(channels, CallsOf(chunks, n)).mux, chunks[n].samples, chunks[n].frames)
  }

  lemma {:induction false} BodiesAreRun(wraps: seq<Icy.Wrapped>, chunks: seq<Call>, channels: nat, n: nat)
    requires IsChunks(chunks, channels) && Packs(wraps, chunks, channels) && n <= |chunks|
    ensures forall i :: 0 <= i < |CallsOf(chunks, n)| ==> Acceptable(CallsOf(chunks, n)[i], channels)
    ensures Tables(0, 0) + Icy.Bodies(wraps[..n]) == RunOf(channels, CallsOf(chunks, n)).stream
  {
    hide Tables, AudioBytes, AudioSent, RunOf, Icy.Bodies, IsChunks;
    CallsAcceptable(chunks, channels, n);
    if n == 0 {
      JustPrelude(wraps, chunks, channels);
    } else {
      BodiesAreRun(wraps, chunks, channels, n - 1);
      LastBody(wraps[..n - 1], wraps[n - 1]);
      assert wraps[..n] == wraps[..n - 1] + [wraps[n - 1]];
      var calls := CallsOf(chunks, n);
      assert calls[..|calls| - 1] == CallsOf(chunks, n - 1) && calls[|calls| - 1] == chunks[n - 1];
      assert wraps[n - 1].body == BodyOf(chunks, channels, n - 1);
      CallsAcceptable(chunks, channels, n - 1);
      RunStep(channels, calls);
      IsChunk(chunks, channels, n - 1);
      var before := RunOf(channels, CallsOf(chunks, n - 1));
      assert Tables(0, 0) + (Icy.Bodies(wraps[..n - 1]) + wraps[n - 1].body)
          == before.stream + wraps[n - 1].body;
    }
  }

  lemma IsChunk(chunks: seq<Call>, channels: nat, n: nat)
    requires IsChunks(chunks, channels) && n < |chunks|
    ensures chunks[n].Chunk? && Acceptable(chunks[n], channels)
  {}

  lemma RunStep(channels: nat, calls: seq<Call>)
    requires calls != [] && forall i :: 0 <= i < |calls| ==> Acceptable(calls[i], channels)
    ensures RunOf(channels, calls) == Extend(RunOf(channels, calls[..|calls| - 1]), calls[|calls| - 1])
  {
    hide Extend;
  }

  lemma JustPrelude(wraps: seq<Icy.Wrapped>, chunks: seq<Call>, channels: nat)
    ensures Tables(0, 0) + Icy.Bodies(wraps[..0]) == RunOf(channels, CallsOf(chunks, 0)).stream
  {
    hide Tables, AudioBytes;
    var none: seq<Call> := [];
    assert CallsOf(chunks, 0) == [Prelude] && [Prelude][..0] == none;
    assert wraps[..0] == [] && Tables(0, 0) + [] == Tables(0, 0) == [] + Tables(0, 0);
  }

  lemma {:induction false} LastBody(wraps: seq<Icy.Wrapped>, w: Icy.Wrapped)
    ensures Icy.Bodies(wraps + [w]) == Icy.Bodies(wraps) + w.body
    decreases |wraps|
  {
    if wraps == [] {
      assert wraps + [w] == [w] && [w][1..] == [];
    } else {
      assert (wraps + [w])[1..] == wraps[1..] + [w];
      LastBody(wraps[1..], w);
    }
  }

  /** Audio bytes from the tables to the first metadata block. */
  const FIRST_INTERVAL: nat := Icy.METAINT - 2 * PACKET_SIZE

  /** Everything the connection carries. */
  function Connection(wraps: seq<Icy.Wrapped>): seq<Byte>
  {
    Tables(0, 0) + Icy.ClientStream(wraps, FIRST_INTERVAL)
  }

  function SamplesOf(channels: nat, chunks: seq<Call>): seq<Audio>
    requires IsChunks(chunks, channels)
  {
    CallsAcceptable(chunks, channels, |chunks|);
    AudioOf(channels, CallsOf(chunks, |chunks|))
  }

  lemma {:induction false} ChunksInCalls(chunks: seq<Call>, channels: nat, n: nat)
    requires n <= |chunks| && IsChunks(chunks, channels)
    ensures ChunksIn(CallsOf(chunks, n)) == chunks[..n]
  {
    var calls := CallsOf(chunks, n);
    if n == 0 {
      assert calls[..|calls| - 1] == [] && chunks[..0] == [];
    } else {
      ChunksInCalls(chunks, channels, n - 1);
      IsChunk(chunks, channels, n - 1);
      assert calls[..|calls| - 1] == CallsOf(chunks, n - 1) && calls[|calls| - 1] == chunks[n - 1];
    }
  }

  lemma SamplesRender(channels: nat, chunks: seq<Call>)
    requires IsChunks(chunks, channels)
    ensures Renders(SamplesOf(channels, chunks), channels, chunks)
  {
    hide AudioOf, Renders, IsChunks;
    CallsAcceptable(chunks, channels, |chunks|);
    AudioRenders(channels, CallsOf(chunks, |chunks|));
    ChunksInCalls(chunks, channels, |chunks|);
    assert chunks[..|chunks|] == chunks;
  }

  /**
   * A connection with metadata: whatever the chunks and however the metadata change between them, the listener takes
   * out every metadata block as it was due, and what is left decodes to every sample sent, in order, each chunk with
   * its time.
   */
  lemma ListenerHearsEverySample(channels: nat, chunks: seq<Call>, wraps: seq<Icy.Wrapped>)
    requires IsChunks(chunks, channels) && Packs(wraps, chunks, channels)
    requires forall i :: 0 <= i < |wraps| ==> Icy.WellFormed(wraps[i].block)
    ensures Heard(Connection(wraps)) == Some(SamplesOf(channels, chunks))
    ensures Renders(Heard(Connection(wraps)).value, channels, chunks)
    ensures Icy.Demux(Connection(wraps), Icy.METAINT).blocks == Icy.BlocksDue(wraps, FIRST_INTERVAL)
  {
    hide Tables, Icy.ClientStream, Icy.Demux, Icy.Bodies, Icy.BlocksDue, Icy.WellFormed, Parse, FindAudio, DecodeAll,
      Renders, PayloadOf, AudioOf, RunOf, Packs, IsChunks, Icy.BytesUntilNextMetadata, Continuous;
    var prelude, n := Tables(0, 0), |chunks|;
    TablesParse(0, 0);
    Icy.FirstInterval(|prelude|);
    Icy.ClientGetsItsBodiesBack(prelude, wraps);
    PacksAll(wraps, chunks, channels);
    BodiesAreRun(wraps, chunks, channels, n);
    RunsAreSound(channels, CallsOf(chunks, n));
    RunsDecode(channels, CallsOf(chunks, n));
    TablesLeadToAudio(0, 0, prelude + Icy.Bodies(wraps));
    SamplesRender(channels, chunks);
  }

  lemma PacksAll(wraps: seq<Icy.Wrapped>, chunks: seq<Call>, channels: nat)
    requires IsChunks(chunks, channels) && Packs(wraps, chunks, channels)
    ensures |wraps| == |chunks| && wraps[..|chunks|] == wraps
  {}

  // ---------------------------------------------------------------- the connection's objects

  const BUFFER_SIZE: nat := 32768

  /** No memory of one is memory of another. */
  ghost predicate Apart(muxer: Muxer, icy: Icy.Metadata, buffer: array<Byte>)
  {
    buffer != icy.metadataBlock && muxer as object != icy
  }

  /** Packs a chunk behind the metadata in force, `block`, into the connection's buffer. */
  method PackChunk(muxer: Muxer, icy: Icy.Metadata, block: seq<Byte>, samples: seq<Sample>, frameCount: nat,
                   buffer: array<Byte>, ghost m: Mux)
      returns (length: int)
    requires muxer.Value() == m && m.audioCounter < 16 && icy.Valid() && icy.enabled && Apart(muxer, icy, buffer)
    requires |block| <= Icy.BLOCK_CAPACITY && buffer.Length == BUFFER_SIZE
    requires Acceptable(Chunk(samples, frameCount), m.channels)
    modifies muxer, icy, icy.metadataBlock, buffer
    ensures icy.Valid() && icy.enabled && muxer.Value() == AudioSent(m, frameCount)
    ensures var body := AudioBytes(m, samples, frameCount);
      && icy.audioBytesUntilMetadata == Icy.UntilAfter(|body|, old(icy.audioBytesUntilMetadata))
      && 0 <= length <= buffer.Length
      && buffer[..length] == Icy.Interleave(body, old(icy.audioBytesUntilMetadata), block)
  {
    hide AudioBytes, AudioSent, Icy.Interleave, Icy.UntilAfter, PacketCount;
    CopyInto(icy.metadataBlock, 0, block);
    icy.metadataLength := |block|;
    AlwaysFits(m, samples, frameCount);
    var bodyLength := muxer.WriteAudio(samples, frameCount, buffer, BUFFER_SIZE, m);
    var body := buffer[..bodyLength];
    OneBoundaryAtMost(body, icy.audioBytesUntilMetadata, block);
    assert icy.metadataBlock[..|block|] == block;
    length := icy.Wrap(body, buffer, BUFFER_SIZE);
  }

  lemma AlwaysFits(m: Mux, samples: seq<Sample>, frames: nat)
    requires m.audioCounter < 16 && Acceptable(Chunk(samples, frames), m.channels)
    ensures Fits(frames, BUFFER_SIZE) && |AudioBytes(m, samples, frames)| <= MAX_AUDIO_BYTES
  {
    hide PacketCount, AudioBytes;
    MaxAudioBytesSuffices(frames);
    AudioLength(m, samples, frames);
  }

  lemma AudioLength(m: Mux, samples: seq<Sample>, frames: nat)
    requires m.audioCounter < 16 && Acceptable(Chunk(samples, frames), m.channels)
    ensures |AudioBytes(m, samples, frames)| == PACKET_SIZE * (2 + PacketCount(PES_HEADER + 4 * frames, true))
  {
    hide Tables, AudioPackets, PacketCount, PesOf, AudioOnly, Parse, SectionOf, Section;
    TablesParse(m.patCounter, m.pmtCounter);
    PesLength(m, samples, frames);
    AudioPacketsParse(PesOf(m, samples, frames), true, m.pts90khz, m.audioCounter);
  }

  lemma OneBoundaryAtMost(body: seq<Byte>, until: nat, block: seq<Byte>)
    requires 0 < until && |body| <= Icy.METAINT
    ensures |Icy.Interleave(body, until, block)| <= |body| + |block|
  {
    if |body| >= until {
      assert Icy.Interleave(body[until..], Icy.METAINT, block) == body[until..];
    }
  }

  // What is due after some calls of wrap, and how one more adds to the stream.

  function UntilThen(wraps: seq<Icy.Wrapped>, until: nat): (left: nat)
    requires until > 0
    ensures left > 0
    decreases |wraps|
  {
    if wraps == [] then until else UntilThen(wraps[1..], Icy.UntilAfter(|wraps[0].body|, until))
  }

  lemma {:induction false} OneMoreWrap(wraps: seq<Icy.Wrapped>, w: Icy.Wrapped, until: nat)
    requires until > 0
    ensures Icy.ClientStream(wraps + [w], until)
         == Icy.ClientStream(wraps, until) + Icy.Interleave(w.body, UntilThen(wraps, until), w.block)
    ensures UntilThen(wraps + [w], until) == Icy.UntilAfter(|w.body|, UntilThen(wraps, until))
    decreases |wraps|
  {
    hide Icy.Interleave, Icy.UntilAfter;
    if wraps == [] {
      var none: seq<Icy.Wrapped> := [];
      assert wraps + [w] == [w] && [w][1..] == none;
      var out := Icy.Interleave(w.body, until, w.block);
      assert out + [] == out == [] + out;
    } else {
      assert (wraps + [w])[1..] == wraps[1..] + [w];
      OneMoreWrap(wraps[1..], w, Icy.UntilAfter(|wraps[0].body|, until));
    }
  }

  lemma FirstWrap()
    ensures UntilThen([], FIRST_INTERVAL) == FIRST_INTERVAL == Icy.BytesUntilNextMetadata(2 * PACKET_SIZE)
    ensures Connection([]) == Tables(0, 0)
  {
    hide Tables;
    assert Tables(0, 0) + [] == Tables(0, 0);
  }

  /** The multiplexer before chunk n. */
  function MuxAt(channels: nat, chunks: seq<Call>, n: nat): Mux
    requires n <= |chunks| && IsChunks(chunks, channels)
  {
    CallsAcceptable(chunks, channels, n);
    RunOf(channels, CallsOf(chunks, n)).mux
  }

  lemma MuxStep(channels: nat, chunks: seq<Call>, n: nat)
    requires n < |chunks| && IsChunks(chunks, channels)
    ensures var m := MuxAt(channels, chunks, n);
      && m.audioCounter < 16 && m.channels == channels && chunks[n].Chunk? && Acceptable(chunks[n], channels)
      && MuxAt(channels, chunks, n + 1) == AudioSent(m, chunks[n].frames)
      && BodyOf(chunks, channels, n) == AudioBytes(m, chunks[n].samples, chunks[n].frames)
  {
    hide RunOf, AudioBytes, AudioSent, Sound;
    IsChunk(chunks, channels, n);
    CallsAcceptable(chunks, channels, n);
    CallsAcceptable(chunks, channels, n + 1);
    var calls := CallsOf(chunks, n + 1);
    assert calls[..|calls| - 1] == CallsOf(chunks, n) && calls[|calls| - 1] == chunks[n];
    RunStep(channels, calls);
    RunsAreSound(channels, CallsOf(chunks, n));
    CountersInRange(RunOf(channels, CallsOf(chunks, n)));
  }

  lemma FirstMux(channels: nat, chunks: seq<Call>)
    requires IsChunks(chunks, channels)
    ensures MuxAt(channels, chunks, 0) == TablesSent(InitialMux(channels))
  {
    hide Tables;
    var none: seq<Call> := [];
    CallsAcceptable(chunks, channels, 0);
    var calls := CallsOf(chunks, 0);
    assert calls == [Prelude] && calls[..|calls| - 1] == none;
    RunStep(channels, calls);
    assert RunOf(channels, none).mux == InitialMux(channels);
  }

  /** Each chunk's packets with the metadata block in force at it. */
  function WrapsOf(channels: nat, chunks: seq<Call>, blocks: seq<seq<Byte>>): seq<Icy.Wrapped>
    requires IsChunks(chunks, channels) && |blocks| == |chunks|
  {
    seq(|chunks|, i requires 0 <= i < |chunks| && IsChunks(chunks, channels) && |blocks| == |chunks| =>
      Icy.Wrapped(BodyOf(chunks, channels, i), blocks[i]))
  }

  function StreamOf(channels: nat, chunks: seq<Call>, blocks: seq<seq<Byte>>): seq<Byte>
    requires IsChunks(chunks, channels) && |blocks| == |chunks|
  {
    Connection(WrapsOf(channels, chunks, blocks))
  }

  lemma StreamIsHeard(channels: nat, chunks: seq<Call>, blocks: seq<seq<Byte>>)
    requires IsChunks(chunks, channels) && |blocks| == |chunks|
    requires forall i :: 0 <= i < |blocks| ==> Icy.WellFormed(blocks[i])
    ensures Heard(StreamOf(channels, chunks, blocks)) == Some(SamplesOf(channels, chunks))
    ensures Renders(Heard(StreamOf(channels, chunks, blocks)).value, channels, chunks)
  {
    hide BodyOf, Renders, Connection, Heard, SamplesOf, IsChunks, Icy.WellFormed;
    ListenerHearsEverySample(channels, chunks, WrapsOf(channels, chunks, blocks));
  }

  /**
   * A whole connection: the objects as configured, the tables first, then chunk after chunk with the metadata in force
   * at each. Every chunk can be packed, and what is sent is heard in full.
   */
  method Send(channels: nat, chunks: seq<Call>, blocks: seq<seq<Byte>>) returns (sent: seq<Byte>)
    requires IsChunks(chunks, channels) && |blocks| == |chunks|
    requires forall i :: 0 <= i < |blocks| ==> Icy.WellFormed(blocks[i]) && |blocks[i]| <= Icy.BLOCK_CAPACITY
    ensures sent == StreamOf(channels, chunks, blocks) && Heard(sent) == Some(SamplesOf(channels, chunks))
    ensures Renders(Heard(sent).value, channels, chunks)
  {
    hide AudioBytes, AudioSent, BodyOf, Connection, Renders, Icy.ClientStream, Icy.Interleave, Icy.UntilAfter, MuxAt,
      Heard, SamplesOf, Tables, Icy.WellFormed, IsChunks, UntilThen, Icy.BytesUntilNextMetadata, Acceptable;
    var muxer := new Muxer(channels);
    var icy := new Icy.Metadata(true);
    var buffer := new Byte[BUFFER_SIZE];
    var length := muxer.BuildPrelude(icy, buffer, BUFFER_SIZE);
    sent := buffer[..length];
    FirstWrap();
    FirstMux(channels, chunks);
    ghost var wraps: seq<Icy.Wrapped> := [];
    for n := 0 to |chunks|
      invariant fresh(muxer) && fresh(icy) && fresh(icy.metadataBlock) && fresh(buffer)
      invariant Apart(muxer, icy, buffer) && buffer.Length == BUFFER_SIZE && icy.Valid() && icy.enabled
      invariant muxer.Value() == MuxAt(channels, chunks, n)
      invariant |wraps| == n
      invariant forall i :: 0 <= i < n ==> wraps[i] == Icy.Wrapped(BodyOf(chunks, channels, i), blocks[i])
      invariant icy.audioBytesUntilMetadata == UntilThen(wraps, FIRST_INTERVAL) && sent == Connection(wraps)
    {
      ghost var m := muxer.Value();
      MuxStep(channels, chunks, n);
      var samples, frames := chunks[n].samples, chunks[n].frames;
      ghost var w := Icy.Wrapped(BodyOf(chunks, channels, n), blocks[n]);
      length := PackChunk(muxer, icy, blocks[n], samples, frames, buffer, m);
      ConnectionGrows(wraps, w);
      sent := sent + buffer[..length];
      wraps := wraps + [w];
    }
    assert wraps == WrapsOf(channels, chunks, blocks);
    StreamIsHeard(channels, chunks, blocks);
  }

  lemma ConnectionGrows(wraps: seq<Icy.Wrapped>, w: Icy.Wrapped)
    ensures Connection(wraps + [w])
         == Connection(wraps) + Icy.Interleave(w.body, UntilThen(wraps, FIRST_INTERVAL), w.block)
    ensures UntilThen(wraps + [w], FIRST_INTERVAL) == Icy.UntilAfter(|w.body|, UntilThen(wraps, FIRST_INTERVAL))
  {
    hide Icy.Interleave, Icy.UntilAfter, Icy.ClientStream, Tables;
    OneMoreWrap(wraps, w, FIRST_INTERVAL);
  }
}
