/** The server's linked lists: chunks freed behind raw pointers, proved against the protocol of ChunkQueue. */
module ChunkServer {
  import opened Common
  import opened ChunkQueue

  /** `freed` marks memory that has been given back; only a live chunk's link may be followed. */
  class StreamChunk {
    var next: StreamChunk?
    const payload: Pcm
    ghost var freed: bool

    constructor (payload: Pcm)
      ensures next == null && this.payload == payload && !freed
    {
      next, this.payload, freed := null, payload, false;
    }

    function Next(): StreamChunk?
      requires !freed
      reads this
    {
      next
    }

    method Link(chunk: StreamChunk)
      requires !freed
      modifies `next
      ensures next == chunk
    {
      next := chunk;
    }

    function Payload(): Pcm
      requires !freed
      reads this
    {
      payload
    }
  }

  class ClientStream {
    var next: ClientStream?
    var nextChunk: StreamChunk?
    var sessionId: nat
    var loggedSessionId: nat
    var droppedForLag: bool

    constructor ()
      ensures next == null && nextChunk == null && sessionId == 0 && loggedSessionId == 0 && !droppedForLag
    {
      next, nextChunk, sessionId, loggedSessionId, droppedForLag := null, null, 0, 0, false;
    }
  }

  function NodeAt(nodes: seq<StreamChunk>, k: nat): StreamChunk? { if k < |nodes| then nodes[k] else null }

  function MemberAt(members: seq<ClientStream>, k: nat): ClientStream? { if k < |members| then members[k] else null }

  ghost predicate Distinct<T>(s: seq<T>) { forall i, j :: 0 <= i < j < |s| ==> s[i] != s[j] }

  /** From `base` on, the chunks are live and linked in order. */
  ghost predicate Linked(nodes: seq<StreamChunk>, base: nat)
    reads nodes`next, nodes`freed
  {
    forall k {:trigger nodes[k].next} {:trigger nodes[k].freed} :: base <= k < |nodes| ==>
        !nodes[k].freed && nodes[k].next == NodeAt(nodes, k + 1)
  }

  /** Everything before `base` has been given back. */
  ghost predicate AllFreed(nodes: seq<StreamChunk>, base: nat)
    reads nodes`freed
  {
    forall k {:trigger nodes[k].freed} :: 0 <= k < base && k < |nodes| ==> nodes[k].freed
  }

  ghost predicate InOrder(members: seq<ClientStream>)
    reads members`next
  {
    forall k {:trigger members[k].next} :: 0 <= k < |members| ==> members[k].next == MemberAt(members, k + 1)
  }

  ghost predicate Carries(nodes: seq<StreamChunk>, produced: seq<Pcm>)
  {
    |nodes| == |produced| && forall k :: 0 <= k < |nodes| ==> nodes[k].payload == produced[k]
  }

  /** The object of a listener; the pointer of one that is not current may be stale. */
  ghost predicate Represents(c: ClientStream, v: Client, session: nat, nodes: seq<StreamChunk>)
    reads c`sessionId, c`loggedSessionId, c`droppedForLag, c`nextChunk
  {
    && c.sessionId == v.session && c.loggedSessionId == v.logged && c.droppedForLag == v.dropped
    && (v.session == session ==> c.nextChunk == NodeAt(nodes, v.next))
  }

  ghost predicate AllRepresent(members: seq<ClientStream>, values: seq<Client>, session: nat, nodes: seq<StreamChunk>)
    reads members`sessionId, members`loggedSessionId, members`droppedForLag, members`nextChunk
  {
    |members| == |values| && forall k :: 0 <= k < |members| ==> Represents(members[k], values[k], session, nodes)
  }

  /** What reading yields: data, nothing yet, the end, or the end with an error. */
  datatype Result = Again | Data(pcm: Pcm) | EndOfStream | EndWithError

  class Server {
    var chunkHead: StreamChunk?
    var chunkTail: StreamChunk?
    var chunkCount: nat
    var clients: ClientStream?
    var activeSessionId: nat
    var sessionActive: bool
    /** Every chunk object of the current session, freed ones first; and the list of clients. */
    ghost var nodes: seq<StreamChunk>
    ghost var members: seq<ClientStream>
    /** The state of the protocol that the memory stands for. */
    ghost var value: Queue

    ghost predicate Valid()
      reads this, nodes, members
    {
      Is(value) && Inv(value)
    }

    ghost predicate ChunksAre(base: nat, produced: seq<Pcm>)
      reads `chunkHead, `chunkTail, `chunkCount, `nodes, nodes
    {
      && Distinct(nodes) && AllFreed(nodes, base) && Linked(nodes, base) && Carries(nodes, produced)
      && base <= |nodes| == |produced|
      && chunkHead == NodeAt(nodes, base)
      && chunkTail == (if base < |nodes| then nodes[|nodes| - 1] else null)
      && chunkCount == |nodes| - base
    }

    ghost predicate ClientsAre(values: seq<Client>, session: nat)
      reads `clients, `members, `nodes, members
    {
      && Distinct(members) && InOrder(members) && clients == MemberAt(members, 0)
      && AllRepresent(members, values, session, nodes)
    }

    /** The server's memory is q. */
    ghost predicate Is(q: Queue)
      reads this, nodes, members
    {
      && ChunksAre(q.base, q.Produced()) && ClientsAre(q.clients, q.SessionId())
      && activeSessionId == q.SessionId() && sessionActive == q.active
    }

    constructor ()
      ensures Valid() && value == Start() && nodes == [] && members == []
    {
      chunkHead, chunkTail, chunkCount, clients, activeSessionId, sessionActive := null, null, 0, null, 0, false;
      nodes, members, value := [], [], Start();
    }

    // ------------------------------------------------------------ freeing

    static lemma OthersDiffer(nodes: seq<StreamChunk>, i: nat)
      requires Distinct(nodes) && (i < |nodes| || nodes == [])
      ensures forall k :: 0 <= k < |nodes| && k != i ==> nodes[k] != nodes[i]
    {}

    /** Takes the oldest chunk off the list and frees it. */
    method FreeHead(ghost q: Queue)
      requires ChunksAre(q.base, q.Produced()) && q.base < |q.Produced()|
      modifies `chunkHead, `chunkTail, `chunkCount, nodes`freed
      ensures ChunksAre(q.base + 1, q.Produced())
    {
      hide Carries, Distinct;
      OthersDiffer(nodes, q.base);
      var chunk := chunkHead;
      assert chunk == nodes[q.base];
      chunkHead := chunk.Next();
      if chunkTail == chunk {
        chunkTail := null;
      }
      chunk.freed := true;
      chunkCount := chunkCount - 1;
    }

    method ClearChunks(ghost q: Queue)
      requires ChunksAre(q.base, q.Produced())
      modifies `chunkHead, `chunkTail, `chunkCount, nodes`freed
      ensures ChunksAre(|q.Produced()|, q.Produced()) && AllFreed(nodes, |nodes|)
    {
      hide AllFreed, Distinct, Linked, Carries, Prune;
      ghost var p := q;
      while chunkHead != null
        invariant p == q.(base := p.base) && p.base <= |p.Produced()|
        invariant ChunksAre(p.base, p.Produced())
        decreases |q.Produced()| - p.base
      {
        FreeHead(p);
        p := p.(base := p.base + 1);
      }
      chunkTail := null;
      chunkCount := 0;
    }

    /** Some current client is to read this chunk next. */
    method IsWanted(chunk: StreamChunk, ghost q: Queue) returns (wanted: bool)
      requires Is(q) && q.base < |nodes| && chunk == nodes[q.base]
      ensures wanted == q.IsHeld(q.base)
    {
      var client := clients;
      ghost var i := 0;
      while client != null
        invariant 0 <= i <= |members| && client == MemberAt(members, i)
        invariant forall k :: 0 <= k < i ==> !(q.IsCurrent(q.clients[k]) && q.clients[k].next == q.base)
        decreases |members| - i
      {
        assert Represents(members[i], q.clients[i], q.SessionId(), nodes);
        if client.sessionId == activeSessionId && client.nextChunk == chunk {
          return true;
        }
        client := client.next;
        i := i + 1;
      }
      return false;
    }

    method PruneChunks(ghost q: Queue)
      requires Is(q)
      modifies `chunkHead, `chunkTail, `chunkCount, nodes`freed
      ensures Is(Prune(q))
    {
      hide Distinct, AllFreed, Linked, Carries, InOrder, AllRepresent, Prune, Queue.IsHeld;
      ghost var p := q;
      while chunkHead != null
        invariant p == q.(base := p.base) && Is(p) && Prune(p) == Prune(q)
        decreases |q.Produced()| - p.base
      {
        var wanted := IsWanted(chunkHead, p);
        if wanted {
          PruneStops(p);
          return;
        }
        PruneGoesOn(p);
        FreeHead(p);
        p := p.(base := p.base + 1);
      }
      PruneStops(p);
    }

    static lemma PruneStops(q: Queue)
      requires q.base >= |q.Produced()| || q.IsHeld(q.base)
      ensures Prune(q) == q
    {}

    static lemma PruneGoesOn(q: Queue)
      requires q.base < |q.Produced()| && !q.IsHeld(q.base)
      ensures Prune(q) == Prune(q.(base := q.base + 1))
    {}

    // ------------------------------------------------------------ counting

    static ghost function CountOf(values: seq<Client>, session: nat): nat
    {
      if values == [] then 0
      else CountOf(values[..|values| - 1], session) + (if values[|values| - 1].session == session then 1 else 0)
    }

    static lemma {:induction false} CountIsPositive(values: seq<Client>, session: nat)
      ensures CountOf(values, session) > 0 <==> exists i :: 0 <= i < |values| && values[i].session == session
    {
      if values != [] {
        var n := |values| - 1;
        CountIsPositive(values[..n], session);
        if i :| 0 <= i < |values| && values[i].session == session {
          if i < n { assert values[..n][i].session == session; }
        }
      }
    }

    method ClientCount(session: nat, ghost q: Queue) returns (count: nat)
      requires ClientsAre(q.clients, q.SessionId())
      ensures count == CountOf(q.clients, session)
    {
      var client := clients;
      ghost var i := 0;
      count := 0;
      while client != null
        invariant 0 <= i <= |members| && client == MemberAt(members, i)
        invariant count == CountOf(q.clients[..i], session)
        decreases |members| - i
      {
        assert Represents(members[i], q.clients[i], q.SessionId(), nodes);
        assert q.clients[..i + 1][..i] == q.clients[..i];
        if client.sessionId == session {
          count := count + 1;
        }
        client := client.next;
        i := i + 1;
      }
      assert q.clients[..i] == q.clients;
    }

    method HasCurrentClients(ghost q: Queue) returns (has: bool)
      requires ClientsAre(q.clients, q.SessionId()) && activeSessionId == q.SessionId()
      ensures has == q.HasCurrentClients()
    {
      CountIsPositive(q.clients, q.SessionId());
      var count := ClientCount(activeSessionId, q);
      has := count > 0;
    }

    // ------------------------------------------------------------ making room

    /** Drops every current client at the oldest chunk. */
    method DropClients(ghost q: Queue) returns (droppedClient: bool)
      requires Is(q) && q.base < |nodes| && 0 < q.SessionId()
      modifies members`sessionId, members`droppedForLag
      ensures Is(DropLaggards(q)) && droppedClient == q.IsHeld(q.base)
    {
      hide ChunksAre, DropLaggards, InOrder, Distinct, Represents, Dropped, HeldBelow, Queue.IsHeld;
      HeldBelowEnds(q);
      var client := clients;
      ghost var i := 0;
      ghost var session := q.SessionId();
      droppedClient := false;
      LinksInOrder();
      AllDiffer();
      while client != null
        invariant 0 <= i <= |members| && client == MemberAt(members, i)
        invariant forall k :: 0 <= k < i ==> Represents(members[k], Dropped(q, q.clients[k]), session, nodes)
        invariant forall k :: i <= k < |members| ==> Represents(members[k], q.clients[k], session, nodes)
        invariant droppedClient == HeldBelow(q, i)
        decreases |members| - i
      {
        HeldBelowStep(q, i);
        var dropped := DropIfWanted(client, q, i);
        droppedClient := droppedClient || dropped;
        client := client.next;
        i := i + 1;
      }
      assert i == |q.clients|;
      AllDropped(q);
    }

    static ghost predicate HeldBelow(q: Queue, n: nat)
      requires n <= |q.clients|
    {
      exists k :: 0 <= k < n && q.IsCurrent(q.clients[k]) && q.clients[k].next == q.base
    }

    static lemma HeldBelowStep(q: Queue, n: nat)
      requires n < |q.clients|
      ensures HeldBelow(q, n + 1) <==> HeldBelow(q, n) || (q.IsCurrent(q.clients[n]) && q.clients[n].next == q.base)
    {}

    static lemma HeldBelowEnds(q: Queue)
      ensures !HeldBelow(q, 0) && (HeldBelow(q, |q.clients|) <==> q.IsHeld(q.base))
    {}

    lemma AllDropped(q: Queue)
      requires |members| == |q.clients|
      requires forall k :: 0 <= k < |members| ==> Represents(members[k], Dropped(q, q.clients[k]), q.SessionId(), nodes)
      ensures AllRepresent(members, DropLaggards(q).clients, q.SessionId(), nodes)
      ensures DropLaggards(q) == q.(clients := DropLaggards(q).clients)
    {
      hide Represents, Dropped;
    }

    lemma LinksInOrder()
      requires InOrder(members)
      ensures forall k {:trigger members[k].next} :: 0 <= k < |members| ==> members[k].next == MemberAt(members, k + 1)
    {}

    lemma AllDiffer()
      requires Distinct(members)
      ensures forall i, j :: 0 <= i < j < |members| ==> members[i] != members[j]
    {}

    method DropIfWanted(client: ClientStream, ghost q: Queue, ghost i: nat) returns (dropped: bool)
      requires ChunksAre(q.base, q.Produced()) && q.base < |nodes| && 0 < q.SessionId() == activeSessionId
         && i < |q.clients|
      requires Represents(client, q.clients[i], q.SessionId(), nodes)
      modifies client`sessionId, client`droppedForLag
      ensures Represents(client, Dropped(q, q.clients[i]), q.SessionId(), nodes)
      ensures dropped == (q.IsCurrent(q.clients[i]) && q.clients[i].next == q.base)
    {
      hide Linked, Carries;
      if client.sessionId == activeSessionId && client.nextChunk == chunkHead {
        client.sessionId := 0;
        client.droppedForLag := true;
        return true;
      }
      return false;
    }

    method MakeChunkRoom(ghost q: Queue) returns (made: bool)
      requires Is(q) && 0 < q.SessionId()
      modifies `chunkHead, `chunkTail, `chunkCount, nodes`freed, members`sessionId, members`droppedForLag
      ensures Is(MakeRoom(q).queue) && made == MakeRoom(q).made
    {
      hide Distinct, Linked, Carries, InOrder, AllRepresent, Prune, Queue.IsHeld, DropLaggards, MakeRoom;
      ghost var p := q;
      while chunkCount >= MAX_BUFFERED_CHUNKS
        invariant Is(p) && 0 < p.SessionId() && MakeRoom(p) == MakeRoom(q) && p.history == q.history
        decreases |q.Produced()| - p.base
      {
        MakeRoomStep(p);
        var dropped := DropClients(p);
        if !dropped {
          assert DropLaggards(p) == p by { NobodyToDrop(p); }
          return false;
        }
        p := DropLaggards(p);
        PruneChunks(p);
        p := Prune(p);
      }
      RoomWasThere(p);
      return true;
    }

    static lemma NobodyToDrop(q: Queue)
      requires !q.IsHeld(q.base)
      ensures DropLaggards(q) == q
    {}

    static lemma MakeRoomStep(q: Queue)
      requires 0 < q.SessionId() && IsFull(q)
      ensures DropLaggards(q) == q.(clients := DropLaggards(q).clients)
      ensures Prune(DropLaggards(q)) == q.(base := Prune(DropLaggards(q)).base, clients := DropLaggards(q).clients)
      ensures q.IsHeld(q.base) ==> q.base < Prune(DropLaggards(q)).base
      ensures !q.IsHeld(q.base) ==> MakeRoom(q) == Room(q, false)
      ensures q.IsHeld(q.base) ==> MakeRoom(q) == MakeRoom(Prune(DropLaggards(q)))
    {
      hide Prune;
      LaggardsLetGo(q);
      PruneMoves(DropLaggards(q));
    }

    // ------------------------------------------------------------ producing

    static lemma StillCarries(nodes: seq<StreamChunk>, produced: seq<Pcm>, chunk: StreamChunk)
      requires Carries(nodes, produced)
      ensures Carries(nodes + [chunk], produced + [chunk.payload])
    {}

    static lemma LinksOf(nodes: seq<StreamChunk>, base: nat)
      requires Linked(nodes, base)
      ensures forall k {:trigger nodes[k].next} {:trigger nodes[k].freed} :: base <= k < |nodes| ==>
          !nodes[k].freed && nodes[k].next == NodeAt(nodes, k + 1)
    {}

    /** Once the last link leads to the new chunk, the list goes on to it. */
    static lemma StillLinked(nodes: seq<StreamChunk>, base: nat, chunk: StreamChunk)
      requires forall k {:trigger nodes[k].next} {:trigger nodes[k].freed} :: base <= k < |nodes| ==>
        !nodes[k].freed && nodes[k].next == if k + 1 < |nodes| then nodes[k + 1] else chunk
      requires Distinct(nodes) && chunk !in nodes && chunk.next == null && !chunk.freed
      ensures Linked(nodes + [chunk], base) && Distinct(nodes + [chunk])
    {}

    /** Puts a chunk at the end of the list. */
    method AppendNode(chunk: StreamChunk, ghost q: Queue)
      requires ChunksAre(q.base, q.Produced()) && chunk !in nodes && chunk.next == null && !chunk.freed
      modifies `chunkHead, `chunkTail, `chunkCount, `nodes, nodes`next
      ensures nodes == old(nodes) + [chunk] && ChunksAre(q.base, q.Produced() + [chunk.payload])
    {
      hide Carries, Linked, Distinct;
      StillCarries(nodes, q.Produced(), chunk);
      LinksOf(nodes, q.base);
      OthersDiffer(nodes, if nodes == [] then 0 else |nodes| - 1);
      if chunkTail != null {
        chunkTail.Link(chunk);
      } else {
        chunkHead := chunk;
      }
      chunkTail := chunk;
      chunkCount := chunkCount + 1;
      StillLinked(nodes, q.base, chunk);
      nodes := nodes + [chunk];
    }

    /** Points every current client that was waiting at the new chunk. */
    method WakeWaiting(chunk: StreamChunk, ghost q: Queue, ghost before: seq<StreamChunk>)
      requires ClientsOk(q) && nodes == before + [chunk] && |before| == |q.Produced()|
         && activeSessionId == q.SessionId()
      requires Distinct(members) && InOrder(members) && clients == MemberAt(members, 0)
      requires AllRepresent(members, q.clients, q.SessionId(), before)
      modifies members`nextChunk
      ensures AllRepresent(members, q.clients, q.SessionId(), nodes)
    {
      var client := clients;
      ghost var i := 0;
      ghost var session := q.SessionId();
      while client != null
        invariant 0 <= i <= |members| && client == MemberAt(members, i)
        invariant forall k :: 0 <= k < i ==> Represents(members[k], q.clients[k], session, nodes)
        invariant forall k :: i <= k < |members| ==> Represents(members[k], q.clients[k], session, before)
        decreases |members| - i
      {
        assert Represents(members[i], q.clients[i], session, before);
        WakeIfWaiting(client, chunk, q, i, before);
        client := client.next;
        i := i + 1;
      }
    }

    method WakeIfWaiting(client: ClientStream, chunk: StreamChunk, ghost q: Queue, ghost i: nat,
                         ghost before: seq<StreamChunk>)
      requires ClientsOk(q) && i < |q.clients| && nodes == before + [chunk] && |before| == |q.Produced()|
      requires activeSessionId == q.SessionId() && Represents(client, q.clients[i], q.SessionId(), before)
      modifies client`nextChunk
      ensures Represents(client, q.clients[i], q.SessionId(), nodes)
    {
      assert IsGapFree(q, q.clients[i]) && IsPlaced(q, q.clients[i]);
      if q.IsCurrent(q.clients[i]) { CurrentNext(q, q.clients[i]); }
      if client.sessionId == activeSessionId && client.nextChunk == null {
        client.nextChunk := chunk;
      }
    }

    /** One chunk object more, behind the others. */
    static ghost predicate Longer(before: seq<StreamChunk>, after: seq<StreamChunk>)
    {
      |after| == |before| + 1 && after[..|before|] == before
    }

    /** `filled` is what the source delivered; nothing on failure. */
    method ProduceChunk(filled: Option<Pcm>, ghost q: Queue) returns (ok: bool)
      requires Is(q) && 0 < q.SessionId() && ClientsOk(MakeRoom(q).queue)
      modifies `chunkHead, `chunkTail, `chunkCount, `nodes, nodes, members`sessionId, members`droppedForLag,
        members`nextChunk
      ensures ok == (MakeRoom(q).made && filled.Some?)
      ensures Is(if ok then Append(MakeRoom(q).queue, filled.value) else MakeRoom(q).queue)
      ensures ok ==> Append(MakeRoom(q).queue, filled.value) == HasProduced(q, filled.value)
      ensures ok ==> Longer(old(nodes), nodes) && fresh(nodes[|nodes| - 1])
      ensures !ok ==> nodes == old(nodes)
    {
      hide ChunkQueue.MakeRoom, ClientsOk, ChunksAre, ClientsAre, Append, Longer;
      var made := MakeChunkRoom(q);
      if !made {
        return false;
      }
      if filled.None? {
        return false;
      }
      QueueChunk(filled.value, MakeRoom(q).queue);
      return true;
    }

    method QueueChunk(pcm: Pcm, ghost q: Queue)
      requires Is(q) && ClientsOk(q)
      modifies `chunkHead, `chunkTail, `chunkCount, `nodes, nodes`next, members`nextChunk
      ensures Is(Append(q, pcm))
      ensures Longer(old(nodes), nodes) && fresh(nodes[|nodes| - 1])
    {
      hide Distinct, Linked, Carries, InOrder, AllRepresent, ClientsOk;
      var chunk := new StreamChunk(pcm);
      ghost var before := nodes;
      AppendNode(chunk, q);
      WakeWaiting(chunk, q, before);
    }

    // ------------------------------------------------------------ one listener reading

    lemma ChunkIsLive(q: Queue, k: nat)
      requires ChunksAre(q.base, q.Produced()) && q.base <= k < |q.Produced()|
      ensures k < |nodes| && !nodes[k].freed && nodes[k].next == NodeAt(nodes, k + 1)
         && nodes[k].payload == q.Produced()[k]
    {}

    /** v is c one chunk further. */
    static ghost predicate StepsOn(c: Client, v: Client)
    {
      v.session == c.session && v.logged == c.logged && v.dropped == c.dropped && v.next == c.next + 1
    }

    /** Steps a listener to its next chunk. */
    method TakeChunk(stream: ClientStream, ghost i: nat, ghost q: Queue) returns (chunk: StreamChunk)
      requires Is(q) && i < |members| && stream == members[i] && q.IsCurrent(q.clients[i])
      requires q.base <= q.clients[i].next < |q.Produced()|
      modifies stream`nextChunk
      ensures forall v :: StepsOn(q.clients[i], v) ==> Is(q.(clients := q.clients[i := v]))
      ensures !chunk.freed && chunk.payload == q.Produced()[q.clients[i].next]
    {
      hide ChunksAre, InOrder, Distinct;
      AllDiffer();
      ChunkIsLive(q, q.clients[i].next);
      assert Represents(stream, q.clients[i], q.SessionId(), nodes);
      chunk := stream.nextChunk;
      stream.nextChunk := chunk.Next();
      forall v | StepsOn(q.clients[i], v)
        ensures AllRepresent(members, q.clients[i := v], q.SessionId(), nodes)
      {}
    }

    /** The chunk is handed on and pruned away, or could not be packaged. */
    method ReadNext(stream: ClientStream, packed: bool, ghost i: nat) returns (result: Result)
      requires Valid() && i < |members| && stream == members[i] && Enabled(value, Read(i))
      modifies `chunkHead, `chunkTail, `chunkCount, `value, nodes`freed, stream`nextChunk
      ensures Valid()
      ensures if packed
              then value == Take(old(value), Read(i))
                   && result == Data(old(value).Produced()[old(value).clients[i].next])
              else value == Take(old(value), ReadFails(i)) && result == EndWithError
    {
      hide Prune, Inv, ChunksAre, ClientsAre, Queue.HasCurrentClients;
      ghost var q := value;
      WhereListenerStands(q, i);
      StepKeepsInv(q, Read(i));
      StepKeepsInv(q, ReadFails(i));
      var chunk := TakeChunk(stream, i, q);
      Steppers(q, i);
      if !packed {
        value := HasFailed(q, i);
        return EndWithError;
      }
      result := Data(chunk.Payload());
      PruneChunks(HasRead(q, i));
      value := Prune(HasRead(q, i));
    }

    static lemma Steppers(q: Queue, i: nat)
      requires i < |q.clients| && q.clients[i].next < |q.Produced()|
      ensures exists v :: StepsOn(q.clients[i], v) && HasRead(q, i) == q.(clients := q.clients[i := v])
      ensures exists v :: StepsOn(q.clients[i], v) && HasFailed(q, i) == q.(clients := q.clients[i := v])
    {
      var v, u := HasRead(q, i).clients[i], HasFailed(q, i).clients[i];
      assert StepsOn(q.clients[i], v) && HasRead(q, i) == q.(clients := q.clients[i := v]);
      assert StepsOn(q.clients[i], u) && HasFailed(q, i) == q.(clients := q.clients[i := u]);
    }

    method ProduceNext(filled: Option<Pcm>, ghost i: nat) returns (result: Result)
      requires Valid() && i < |members| && Enabled(value, ProduceFails(i))
      modifies `chunkHead, `chunkTail, `chunkCount, `nodes, `value, nodes,
        members`sessionId, members`droppedForLag, members`nextChunk
      ensures Valid()
      ensures value == Take(old(value), if filled.Some? then Produce(i, filled.value) else ProduceFails(i))
      ensures result == (if MakeRoom(old(value)).made && filled.Some? then Again else EndWithError)
      ensures nodes == old(nodes) || (Longer(old(nodes), nodes) && fresh(nodes[|nodes| - 1]))
    {
      hide ChunkQueue.MakeRoom, Inv, ChunksAre, ClientsAre, Append, Queue.HasCurrentClients;
      ghost var q := value;
      WhereListenerStands(q, i);
      ghost var step := if filled.Some? then Produce(i, filled.value) else ProduceFails(i);
      StepKeepsInv(q, step);
      var ok := ProduceChunk(filled, q);
      value := Take(q, step);
      result := if ok then Again else EndWithError;
    }

    static lemma WhereListenerStands(q: Queue, i: nat)
      requires Inv(q) && i < |q.clients| && !q.clients[i].failed
      ensures q.CanAct(i) <==> q.active && q.IsCurrent(q.clients[i])
      ensures q.CanAct(i) ==> q.base <= q.clients[i].next <= |q.Produced()|
      ensures q.CanAct(i) && q.clients[i].next == |q.Produced()| ==> ClientsOk(MakeRoom(q).queue)
    {
      hide ChunkQueue.MakeRoom;
      assert IsGapFree(q, q.clients[i]) && IsPlaced(q, q.clients[i]);
      if q.active && q.IsCurrent(q.clients[i]) {
        CurrentNext(q, q.clients[i]);
        if q.clients[i].next == |q.Produced()| { MakeRoomKeeps(q, i); }
      }
    }

    /**
     * One turn of the reader. `packed`: whether the chunk could be packaged; `due`: whether the clock allows producing;
     * `filled`: what the source then delivers.
     */
    method ContentReader(stream: ClientStream, packed: bool, due: bool, filled: Option<Pcm>, ghost i: nat)
        returns (result: Result)
      requires Valid() && i < |members| && stream == members[i] && !value.clients[i].failed
      modifies this, nodes, members
      ensures Valid() && members == old(members)
      ensures nodes == old(nodes) || (Longer(old(nodes), nodes) && fresh(nodes[|nodes| - 1]))
      ensures var q := old(value);
        if !q.CanAct(i) then result == EndOfStream && value == q
        else if q.clients[i].next < |q.Produced()| then
          if packed then Enabled(q, Read(i)) && value == Take(q, Read(i))
                         && result == Data(q.Produced()[q.clients[i].next])
          else Enabled(q, ReadFails(i)) && value == Take(q, ReadFails(i)) && result == EndWithError
        else if !due then value == q && result == Again
        else match filled
          case None => Enabled(q, ProduceFails(i)) && value == Take(q, ProduceFails(i)) && result == EndWithError
          case Some(pcm) => Enabled(q, Produce(i, pcm)) && value == Take(q, Produce(i, pcm))
                            && result == (if MakeRoom(q).made then Again else EndWithError)
    {
      hide Inv, ChunksAre, ClientsAre, Take, Longer, ChunkQueue.MakeRoom;
      MembersMatch(value);
      WhereListenerStands(value, i);
      StreamShowsListener(stream, i);
      if !sessionActive || activeSessionId != stream.sessionId {
        return EndOfStream;
      }
      if stream.nextChunk != null {
        result := ReadNext(stream, packed, i);
        return;
      }
      if !due {
        return Again;
      }
      result := ProduceNext(filled, i);
    }

    /** What the reader looks at in memory. */
    lemma StreamShowsListener(stream: ClientStream, i: nat)
      requires Is(value) && i < |members| && stream == members[i]
      ensures stream.sessionId == value.clients[i].session
      ensures value.IsCurrent(value.clients[i]) ==>
        (stream.nextChunk != null <==> value.clients[i].next < |value.Produced()|)
    {
      hide Linked, Distinct, InOrder;
      assert Represents(stream, value.clients[i], value.SessionId(), nodes);
    }

    // ------------------------------------------------------------ leaving

    /** Takes a listener out of the list, wherever it stands. */
    method Unlink(stream: ClientStream, ghost i: nat, ghost q: Queue)
      requires ClientsAre(q.clients, q.SessionId()) && i < |members| && stream == members[i]
      modifies `clients, `members, members`next
      ensures members == old(members[..i] + members[i + 1..])
      ensures ClientsAre(Removed(q, i).clients, q.SessionId())
    {
      hide AllRepresent, Represents, InOrder, Distinct;
      LinksInOrder();
      AllDiffer();
      var previous: ClientStream? := null;
      var current := clients;
      ghost var k := 0;
      while current != null && current != stream
        invariant k <= i && current == MemberAt(members, k)
        invariant k == 0 ==> previous == null
        invariant k > 0 ==> previous == members[k - 1]
        decreases i - k
      {
        assert current == members[k];
        previous := current;
        current := current.next;
        k := k + 1;
      }
      if current == stream {
        if previous == null {
          clients := stream.next;
        } else {
          previous.next := stream.next;
        }
      }
      StillRepresent(members, q, i);
      StillInOrder(members, i);
      members := members[..i] + members[i + 1..];
    }

    /** Once the link before it passes over member i, the list is in order without it. */
    static lemma StillInOrder(members: seq<ClientStream>, i: nat)
      requires i < |members| && Distinct(members)
      requires forall k {:trigger members[k].next} :: 0 <= k < |members| ==>
        members[k].next == MemberAt(members, if k + 1 == i then i + 1 else k + 1)
      ensures Distinct(members[..i] + members[i + 1..]) && InOrder(members[..i] + members[i + 1..])
    {
      var less := members[..i] + members[i + 1..];
      forall k | 0 <= k < |less|
        ensures less[k].next == MemberAt(less, k + 1)
      {
        assert less[k] == members[if k < i then k else k + 1];
      }
    }

    lemma StillRepresent(members: seq<ClientStream>, q: Queue, i: nat)
      requires AllRepresent(members, q.clients, q.SessionId(), nodes) && i < |members|
      ensures AllRepresent(members[..i] + members[i + 1..], Removed(q, i).clients, q.SessionId(), nodes)
    {
      hide Represents;
    }

    static lemma LeaveIs(q: Queue, i: nat)
      requires i < |q.clients|
      ensures var r := Removed(q, i);
        Enabled(q, Leave(i)) && Take(q, Leave(i)) ==
          if r.active && !r.HasCurrentClients() then r.(base := |r.Produced()|, active := false) else Prune(r)
    {
      hide Prune;
    }

    /** A listener has gone: its turn is over, and with the last one of the session, the session. */
    method ContentFree(stream: ClientStream, ghost i: nat)
      requires Valid() && i < |members| && stream == members[i]
      modifies this, nodes`freed, members`next
      ensures Valid() && members == old(members[..i] + members[i + 1..]) && nodes == old(nodes)
      ensures Enabled(old(value), Leave(i)) && value == Take(old(value), Leave(i))
    {
      hide Inv, ChunksAre, ClientsAre, Prune, Queue.HasCurrentClients, Take, Left, Removed;
      ghost var q := value;
      MembersMatch(q);
      LeaveIs(q, i);
      StepKeepsInv(q, Leave(i));
      RemovedFrame(q, i);
      Unlink(stream, i, q);
      EndOrPrune(Removed(q, i));
      value := Take(q, Leave(i));
    }

    /** The session ends with its last client; otherwise what that client held is freed. */
    method EndOrPrune(ghost r: Queue)
      requires Is(r)
      modifies `chunkHead, `chunkTail, `chunkCount, `sessionActive, nodes`freed
      ensures Is(if r.active && !r.HasCurrentClients() then r.(base := |r.Produced()|, active := false) else Prune(r))
    {
      hide ChunksAre, ClientsAre, Prune, Queue.HasCurrentClients;
      var occupied := HasCurrentClients(r);
      if sessionActive && !occupied {
        ClearChunks(r);
        sessionActive := false;
      } else {
        PruneChunks(r);
      }
    }

    // ------------------------------------------------------------ joining

    /** Puts a new listener of the current session at the front of the list. */
    method AddClient(ghost q: Queue) returns (stream: ClientStream)
      requires Is(q)
      modifies `clients, `members
      ensures Is(Joined(q)) && members == [stream] + old(members) && fresh(stream) && nodes == old(nodes)
    {
      hide ChunksAre, InOrder, Distinct;
      NodesMatch(q);
      stream := new ClientStream();
      stream.sessionId := activeSessionId;
      stream.loggedSessionId := stream.sessionId;
      stream.next := clients;
      clients := stream;
      ghost var before := members;
      members := [stream] + members;
      StillInOrderAfter(stream, before);
      ghost var values := Joined(q).clients;
      forall k | 0 <= k < |members|
        ensures Represents(members[k], values[k], q.SessionId(), nodes)
      {
        if k > 0 { assert Represents(before[k - 1], q.clients[k - 1], q.SessionId(), nodes); }
      }
    }

    static lemma StillInOrderAfter(stream: ClientStream, rest: seq<ClientStream>)
      requires Distinct(rest) && InOrder(rest) && stream !in rest && stream.next == MemberAt(rest, 0)
      ensures Distinct([stream] + rest) && InOrder([stream] + rest)
    {
      var more := [stream] + rest;
      forall k | 0 <= k < |more|
        ensures more[k].next == MemberAt(more, k + 1)
      {
        if k > 0 { assert more[k] == rest[k - 1]; }
      }
    }

    lemma MembersMatch(q: Queue)
      requires ClientsAre(q.clients, q.SessionId())
      ensures |members| == |q.clients|
    {}

    lemma NodesMatch(q: Queue)
      requires ChunksAre(q.base, q.Produced())
      ensures |nodes| == |q.Produced()|
    {}

    /** Nobody belongs to a session that has not begun. */
    lemma NobodyIsAhead(q: Queue, later: seq<StreamChunk>)
      requires ClientsOk(q) && AllRepresent(members, q.clients, q.SessionId(), nodes)
      ensures AllRepresent(members, q.clients, q.SessionId() + 1, later)
    {
      forall k | 0 <= k < |members|
        ensures Represents(members[k], q.clients[k], q.SessionId() + 1, later)
      {
        assert Represents(members[k], q.clients[k], q.SessionId(), nodes);
        assert IsGapFree(q, q.clients[k]) && IsPlaced(q, q.clients[k]);
      }
    }

    /** A new session begins with an empty queue; everyone else's pointers are left as they are. */
    method ReplaceSession(ghost q: Queue)
      requires Is(q) && ClientsOk(q)
      modifies `chunkHead, `chunkTail, `chunkCount, `nodes, `activeSessionId, `sessionActive, nodes`freed
      ensures Is(Replaced(q)) && nodes == [] && AllFreed(old(nodes), |old(nodes)|)
    {
      hide AllFreed, Linked, Carries, AllRepresent, InOrder, ClientsOk;
      ClearChunks(q);
      sessionActive := true;
      activeSessionId := activeSessionId + 1;
      NobodyIsAhead(q, []);
      nodes := [];
      NothingLinked();
    }

    lemma NothingLinked()
      ensures Linked([], 0) && Carries([], []) && AllFreed([], 0)
    {}

    /** No chunk of a session that has been replaced is left behind. */
    static ghost predicate AllGivenBack(nodes: seq<StreamChunk>)
      reads nodes`freed
    {
      AllFreed(nodes, |nodes|)
    }

    /** `sameRequest`: the request asks for what the session sends; `tuned`: whether the receiver could be tuned. */
    method HandleRequest(sameRequest: bool, tuned: bool) returns (stream: ClientStream?)
      requires Valid()
      modifies this, nodes`freed
      ensures Valid()
      ensures stream == null <==> !(old(sessionActive) && sameRequest) && !tuned
      ensures nodes == old(nodes) || (nodes == [] && Server.AllGivenBack(old(nodes)))
      ensures stream == null ==> value == old(value) && members == old(members)
      ensures stream != null ==> fresh(stream) && members == [stream] + old(members)
      ensures stream != null ==> var step := if old(sessionActive) && sameRequest then Join else Replace;
        Enabled(old(value), step) && value == Take(old(value), step)
    {
      hide ChunksAre, ClientsAre, HeadIsHeld, Queue.HasCurrentClients, IsGapFree, IsPlaced;
      ghost var q := value;
      if !(sessionActive && sameRequest) {
        if !tuned {
          return null;
        }
        StepKeepsInv(q, Replace);
        ReplaceSession(q);
        stream := AddClient(Replaced(q));
        value := Joined(Replaced(q));
      } else {
        StepKeepsInv(q, Join);
        stream := AddClient(q);
        value := Joined(q);
      }
    }
  }
}
