/** From the shared queue to the listeners' ears: what is sent to each listener of a run decodes to what the session
    produced. */
module Broadcast {
  import opened Common
  import opened Bytes
  import opened ChunkQueue
  import opened ChunkServer
  import opened ChunkServerRuns
  import opened ChunkServerSources
  import Connections = ClientStream
  import Muxing = MpegTsMuxer
  import MpegTsAudio
  import MpegTsClock
  import Icy

  /** Chunks as the multiplexer is called with them. */
  function AsCalls(chunks: seq<Pcm>): (calls: seq<Muxing.Call>)
    ensures |calls| == |chunks|
  {
    seq(|chunks|, i requires 0 <= i < |chunks| => Muxing.Chunk(chunks[i].samples, chunks[i].frameCount))
  }

  /** Every chunk of the queue can be multiplexed, in mono and in stereo. */
  lemma AlwaysAcceptable(chunks: seq<Pcm>, channels: nat)
    ensures Connections.IsChunks(AsCalls(chunks), channels)
  {}

  /** The samples of n chunks of a session, from chunk `join` on, each chunk with its time. */
  function Audible(h: seq<seq<Pcm>>, session: nat, join: nat, n: nat, channels: nat): seq<MpegTsAudio.Audio>
    requires session < |h| && join + n <= |h[session]|
  {
    AlwaysAcceptable(h[session][join..join + n], channels);
    Connections.SamplesOf(channels, AsCalls(h[session][join..join + n]))
  }

  function FrameTotal(chunks: seq<Pcm>): nat
  {
    if chunks == [] then 0 else FrameTotal(chunks[..|chunks| - 1]) + chunks[|chunks| - 1].frameCount
  }

  /** Chunk by chunk the frames that count, each channel's samples as they were, at the time of the frames before. */
  predicate SoundsLike(audio: seq<MpegTsAudio.Audio>, channels: nat, chunks: seq<Pcm>)
  {
    && |audio| == |chunks|
    && forall k :: 0 <= k < |chunks| ==>
         && MpegTsAudio.CarriesFrames(audio[k].words, chunks[k].samples, channels == 2, chunks[k].frameCount)
         && MpegTsAudio.IsLpcmOf(audio[k].lpcmHeader, channels)
         && audio[k].pts == FrameTotal(chunks[..k]) * 90000 / 48000 % 0x2_0000_0000
  }

  lemma {:induction false} FramesAreCounted(chunks: seq<Pcm>)
    ensures MpegTsClock.FramesOf(AsCalls(chunks)) == FrameTotal(chunks)
  {
    if chunks != [] {
      var n := |chunks| - 1;
      FramesAreCounted(chunks[..n]);
      assert AsCalls(chunks)[..n] == AsCalls(chunks[..n]);
    }
  }

  lemma RenderedSoundsLike(audio: seq<MpegTsAudio.Audio>, channels: nat, chunks: seq<Pcm>)
    requires Connections.Renders(audio, channels, AsCalls(chunks))
    ensures SoundsLike(audio, channels, chunks)
  {
    hide MpegTsAudio.CarriesFrames, MpegTsAudio.IsLpcmOf, MpegTsClock.FramesOf, FrameTotal;
    forall k | 0 <= k < |chunks|
      ensures MpegTsAudio.CarriesFrames(audio[k].words, chunks[k].samples, channels == 2, chunks[k].frameCount)
      ensures MpegTsAudio.IsLpcmOf(audio[k].lpcmHeader, channels)
      ensures audio[k].pts == FrameTotal(chunks[..k]) * 90000 / 48000 % 0x2_0000_0000
    {
      FramesAreCounted(chunks[..k]);
      assert AsCalls(chunks)[..k] == AsCalls(chunks[..k]);
    }
  }

  /** The samples of those chunks frame by frame, and nothing else, are what is heard of `sent`. */
  ghost predicate IsAudible(sent: seq<Byte>, h: seq<seq<Pcm>>, session: nat, join: nat, n: nat, channels: nat)
  {
    && session < |h| && join + n <= |h[session]|
    && Connections.Heard(sent) == Some(Audible(h, session, join, n, channels))
    && SoundsLike(Connections.Heard(sent).value, channels, h[session][join..join + n])
  }

  /** The metadata block in force at each chunk. */
  ghost predicate AreBlocks(blocks: nat -> seq<Byte>)
  {
    forall i :: Icy.WellFormed(blocks(i)) && |blocks(i)| <= Icy.BLOCK_CAPACITY
  }

  function FirstBlocks(blocks: nat -> seq<Byte>, n: nat): (first: seq<seq<Byte>>)
    ensures |first| == n
  {
    seq(n, i requires 0 <= i < n => blocks(i))
  }

  /** What a listener with these data is sent. */
  function SentFor(received: seq<Pcm>, channels: nat, blocks: nat -> seq<Byte>): seq<Byte>
  {
    AlwaysAcceptable(received, channels);
    Connections.StreamOf(channels, AsCalls(received), FirstBlocks(blocks, |received|))
  }

  /** Still there or gone, a listener that was handed what is on record r hears that stretch of its session. */
  lemma RecordIsHeard(h: History, r: Record, channels: nat, blocks: nat -> seq<Byte>)
    requires Recorded(h, r) && AreBlocks(blocks)
    ensures IsAudible(SentFor(r.received, channels, blocks), h, r.session, r.join, |r.received|, channels)
  {
    hide Connections.Heard, Connections.Renders, Connections.SamplesOf, Connections.StreamOf, Connections.IsChunks,
      SoundsLike, AsCalls, Icy.WellFormed;
    AlwaysAcceptable(r.received, channels);
    Connections.StreamIsHeard(channels, AsCalls(r.received), FirstBlocks(blocks, |r.received|));
    RenderedSoundsLike(Connections.Heard(SentFor(r.received, channels, blocks)).value, channels, r.received);
  }

  /** Listener k hears in `sent` what the source delivered to its session, from what followed its request on. */
  ghost predicate IsHeard(script: seq<Event>, k: nat, channels: nat, sent: seq<Byte>)
  {
    && k < |Play(script).queue.clients| && k < |Arrivals(script)|
    && var c := Play(script).queue.clients[k];
      && CameAt(script, c, Arrivals(script)[k])
      && IsAudible(sent, Sources(script), c.logged, c.join, |c.received|, channels)
  }

  /** These are the data of the queue's listeners, all on record. */
  ghost predicate AreHanded(connections: seq<Connection>, q: Queue)
  {
    |connections| == |q.clients| && forall k :: 0 <= k < |connections| ==> IsHanded(connections[k], q, k)
  }

  ghost predicate IsHanded(connection: Connection, q: Queue, k: nat)
  {
    && k < |q.clients| && connection.received == q.clients[k].received
    && Recorded(q.history, Record(q.clients[k].logged, q.clients[k].join, connection.received))
  }

  lemma ConnectionsAreHanded(server: Server, connections: seq<Connection>, w: World)
    requires Serves(server, connections, w)
    ensures AreHanded(connections, w.queue)
  {
    hide Reachable, Recorded, Server.Valid;
    AllOnRecord(server, connections, w);
    forall k | 0 <= k < |connections|
      ensures IsHanded(connections[k], w.queue, k)
    {
      assert IsConnected(connections[k], server.members[k], w.queue.clients[k], w.ended[k]);
    }
  }

  method SendOne(connection: Connection, k: nat, channels: nat, blocks: nat -> seq<Byte>, ghost script: seq<Event>)
      returns (sent: seq<Byte>)
    requires IsHanded(connection, Play(script).queue, k) && AreBlocks(blocks)
    ensures sent == SentFor(connection.received, channels, blocks) && IsHeard(script, k, channels, sent)
  {
    hide IsAudible, CameAt, Sources, Arrivals, Play, Connections.Heard, Connections.Renders, Connections.SamplesOf,
      Connections.StreamOf, Connections.IsChunks, AsCalls, Icy.WellFormed;
    ghost var q := Play(script).queue;
    ghost var c := q.clients[k];
    AlwaysAcceptable(connection.received, channels);
    SessionsAreSources(script);
    ListenersJoinWhereTheyCome(script);
    RecordIsHeard(q.history, Record(c.logged, c.join, connection.received), channels, blocks);
    sent := Connections.Send(channels, AsCalls(connection.received), FirstBlocks(blocks, |connection.received|));
  }

  method SendAll(connections: seq<Connection>, channels: nat -> nat, blocks: nat -> nat -> seq<Byte>,
                 ghost script: seq<Event>)
      returns (sent: seq<seq<Byte>>)
    requires AreHanded(connections, Play(script).queue) && forall k :: AreBlocks(blocks(k))
    ensures |sent| == |connections| && forall k :: 0 <= k < |sent| ==> IsHeard(script, k, channels(k), sent[k])
  {
    hide IsHanded, IsHeard, AreBlocks, SentFor, Recorded, Play;
    sent := [];
    for n := 0 to |connections|
      invariant |sent| == n && forall k :: 0 <= k < n ==> IsHeard(script, k, channels(k), sent[k])
    {
      var stream := SendOne(connections[n], n, channels(n), blocks(n), script);
      sent := sent + [stream];
    }
  }

  /**
   * Whatever happens on the server, in whatever order, and whatever is on the air meanwhile: each listener hears,
   * sample by sample, the consecutive chunks that the source delivered to its session after its request, and nothing
   * else.
   */
  method RunAndSend(script: seq<Event>, channels: nat -> nat, blocks: nat -> nat -> seq<Byte>)
      returns (server: Server, connections: seq<Connection>, sent: seq<seq<Byte>>)
    requires forall k :: AreBlocks(blocks(k))
    ensures Serves(server, connections, Play(script)) && |sent| == |connections|
    ensures forall k :: 0 <= k < |sent| ==> IsHeard(script, k, channels(k), sent[k])
  {
    hide Play, Reachable, Server.Valid, Recorded, AreBlocks, IsHeard, AreHanded;
    server, connections := Run(script);
    ConnectionsAreHanded(server, connections, Play(script));
    sent := SendAll(connections, channels, blocks, script);
  }
}
