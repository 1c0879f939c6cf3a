/** The shared chunk queue as a protocol: its steps, each taken under the server's lock, and what every run keeps. */
module ChunkQueue {
  import opened Bytes

  const MAX_BUFFERED_CHUNKS: nat := 256

  const MAX_FRAMES: nat := 1024

  /** The samples of one chunk, of which the first `frameCount` frames count. */
  datatype Chunk = Chunk(samples: seq<Sample>, frameCount: nat)

  function Silent(): Chunk { Chunk(seq(2 * MAX_FRAMES, i => 0), MAX_FRAMES) }

  type Pcm = p: Chunk | |p.samples| == 2 * MAX_FRAMES && p.frameCount <= MAX_FRAMES
    witness Silent()

  /**
   * A listener. `session` is zero once it has been dropped; `logged` is the session it joined. `join` and `next` are
   * positions among the chunks produced in that session; `failed` marks one whose newest chunk could not be packaged.
   */
  datatype Client = Client(session: nat, logged: nat, dropped: bool, join: nat, next: nat, received: seq<Pcm>,
                           failed: bool)

  /** What every session has produced so far, the empty session 0 first; the newest session is the current one. */
  type History = h: seq<seq<Pcm>> | |h| > 0 witness [[]]

  /** Chunks before `base` have been freed. */
  datatype Queue = Queue(history: History, active: bool, base: nat, clients: seq<Client>)
  {
    function SessionId(): nat { |history| - 1 }

    function Produced(): seq<Pcm> { history[|history| - 1] }

    predicate IsCurrent(c: Client) { c.session == SessionId() }

    /** Some current client is to read chunk k next. */
    predicate IsHeld(k: nat) { exists i :: 0 <= i < |clients| && IsCurrent(clients[i]) && clients[i].next == k }

    predicate HasCurrentClients() { exists i :: 0 <= i < |clients| && IsCurrent(clients[i]) }

    predicate HasFailedClient() { exists i :: 0 <= i < |clients| && IsCurrent(clients[i]) && clients[i].failed }

    /** Client i may ask for data; sessions are numbered from one. */
    predicate CanAct(i: nat)
    {
      i < |clients| && active && 0 < SessionId() && IsCurrent(clients[i]) && !clients[i].failed
    }
  }

  function Start(): Queue { Queue([[]], false, 0, []) }

  // ---------------------------------------------------------------- the steps

  function Prune(q: Queue): Queue
    decreases |q.Produced()| - q.base
  {
    if q.base < |q.Produced()| && !q.IsHeld(q.base) then Prune(q.(base := q.base + 1)) else q
  }

  /** Every current client still at the oldest chunk is dropped. */
  function DropLaggards(q: Queue): Queue
  {
    q.(clients := seq(|q.clients|, i requires 0 <= i < |q.clients| => Dropped(q, q.clients[i])))
  }

  function Dropped(q: Queue, c: Client): Client
  {
    if q.IsCurrent(c) && c.next == q.base then c.(session := 0, dropped := true) else c
  }

  datatype Room = Room(queue: Queue, made: bool)

  function IsFull(q: Queue): bool { q.base + MAX_BUFFERED_CHUNKS <= |q.Produced()| }

  function MakeRoom(q: Queue): Room
    requires 0 < q.SessionId()
    decreases |q.Produced()| - q.base
  {
    if !IsFull(q) then Room(q, true)
    else if !q.IsHeld(q.base) then Room(q, false)
    else
      PruneMoves(DropLaggards(q));
      LaggardsLetGo(q);
      MakeRoom(Prune(DropLaggards(q)))
  }

  function Append(q: Queue, pcm: Pcm): Queue
  {
    q.(history := q.history[..|q.history| - 1] + [q.Produced() + [pcm]])
  }

  function NewClient(q: Queue): Client
  {
    Client(q.SessionId(), q.SessionId(), false, |q.Produced()|, |q.Produced()|, [], false)
  }

  function Joined(q: Queue): Queue { q.(clients := [NewClient(q)] + q.clients) }

  function Replaced(q: Queue): Queue { q.(history := q.history + [[]], active := true, base := 0) }

  function HasRead(q: Queue, i: nat): Queue
    requires i < |q.clients| && q.clients[i].next < |q.Produced()|
  {
    var c := q.clients[i];
    q.(clients := q.clients[i := c.(next := c.next + 1, received := c.received + [q.Produced()[c.next]])])
  }

  function HasFailed(q: Queue, i: nat): Queue
    requires i < |q.clients|
  {
    var c := q.clients[i];
    q.(clients := q.clients[i := c.(next := c.next + 1, failed := true)])
  }

  function Removed(q: Queue, i: nat): Queue
    requires i < |q.clients|
  {
    q.(clients := q.clients[..i] + q.clients[i + 1..])
  }

  function Cleared(q: Queue): Queue { q.(base := |q.Produced()|) }

  function Left(q: Queue, i: nat): Queue
    requires i < |q.clients|
  {
    var r := Removed(q, i);
    if r.active && !r.HasCurrentClients() then Cleared(r).(active := false) else Prune(r)
  }

  datatype Step =
    | Join                                          // a request that matches the session
    | Replace                                       // one that does not: a new session
    | Produce(client: nat, pcm: Pcm)                // a reader with nothing left to read produces
    | ProduceFails(client: nat)                     // ... and the source delivers nothing
    | Read(client: nat)
    | ReadFails(client: nat)                        // the chunk could not be packaged
    | Leave(client: nat)

  predicate Enabled(q: Queue, step: Step)
  {
    match step
    case Join => q.active
    case Replace => true
    case Produce(i, _) => q.CanAct(i) && q.clients[i].next == |q.Produced()|
    case ProduceFails(i) => q.CanAct(i) && q.clients[i].next == |q.Produced()|
    case Read(i) => q.CanAct(i) && q.clients[i].next < |q.Produced()|
    case ReadFails(i) => q.CanAct(i) && q.clients[i].next < |q.Produced()|
    case Leave(i) => i < |q.clients|
  }

  function HasProduced(q: Queue, pcm: Pcm): Queue
    requires 0 < q.SessionId()
  {
    var room := MakeRoom(q);
    if room.made then Append(room.queue, pcm) else room.queue
  }

  function Take(q: Queue, step: Step): Queue
    requires Enabled(q, step)
  {
    match step
    case Join => Joined(q)
    case Replace => Joined(Replaced(q))
    case Produce(_, pcm) => HasProduced(q, pcm)
    case ProduceFails(_) => MakeRoom(q).queue
    case Read(i) => Prune(HasRead(q, i))
    case ReadFails(i) => HasFailed(q, i)
    case Leave(i) => Left(q, i)
  }

  // ---------------------------------------------------------------- what every run keeps

  function Delivered(c: Client): int { if c.failed then c.next - 1 else c.next }

  /** What a client has received is exactly a run of its own session's chunks, from where it joined to where it is. */
  predicate IsGapFree(q: Queue, c: Client)
  {
    && 0 < c.logged < |q.history| && c.join <= Delivered(c) <= c.next <= |q.history[c.logged]|
    && c.received == q.history[c.logged][c.join..Delivered(c)]
  }

  /** A client is current, or belongs to an older session, or was dropped; a current one's next chunk is not freed. */
  predicate IsPlaced(q: Queue, c: Client)
  {
    && (if c.dropped then c.session == 0 else c.session == c.logged)
    && (q.IsCurrent(c) ==> q.base <= c.next)
  }

  predicate HeadIsHeld(q: Queue) { q.base == |q.Produced()| || q.IsHeld(q.base) || q.HasFailedClient() }

  predicate Inv(q: Queue)
  {
    && q.base <= |q.Produced()| <= q.base + MAX_BUFFERED_CHUNKS
    && (forall i :: 0 <= i < |q.clients| ==> IsGapFree(q, q.clients[i]) && IsPlaced(q, q.clients[i]))
    && (q.active <==> q.HasCurrentClients())
    && HeadIsHeld(q)
  }

  // ---------------------------------------------------------------- pruning

  lemma {:induction false} PruneMoves(q: Queue)
    ensures Prune(q) == q.(base := Prune(q).base) && q.base <= Prune(q).base
    ensures q.base <= |q.Produced()| ==> Prune(q).base <= |q.Produced()|
    ensures q.base < |q.Produced()| && !q.IsHeld(q.base) ==> q.base < Prune(q).base
    ensures forall k: nat :: q.base <= k < Prune(q).base ==> !q.IsHeld(k)
    ensures Prune(q).base < |q.Produced()| ==> q.IsHeld(Prune(q).base)
    decreases |q.Produced()| - q.base
  {
    if q.base < |q.Produced()| && !q.IsHeld(q.base) {
      var more := q.(base := q.base + 1);
      PruneMoves(more);
      assert forall k: nat :: more.IsHeld(k) <==> q.IsHeld(k);
    }
  }

  lemma LaggardsLetGo(q: Queue)
    requires 0 < q.SessionId()
    ensures !DropLaggards(q).IsHeld(q.base)
    ensures forall k: nat :: k != q.base ==> (DropLaggards(q).IsHeld(k) <==> q.IsHeld(k))
  {
    forall k: nat | k != q.base && q.IsHeld(k)
      ensures DropLaggards(q).IsHeld(k)
    {
      var i :| 0 <= i < |q.clients| && q.IsCurrent(q.clients[i]) && q.clients[i].next == k;
      assert DropLaggards(q).clients[i] == q.clients[i];
    }
  }

  /** Every client is sound: all that Inv says but for the bound and the head. */
  predicate ClientsOk(q: Queue)
  {
    && q.base <= |q.Produced()|
    && forall i :: 0 <= i < |q.clients| ==> IsGapFree(q, q.clients[i]) && IsPlaced(q, q.clients[i])
  }

  lemma CurrentNext(q: Queue, c: Client)
    requires IsGapFree(q, c) && IsPlaced(q, c) && q.IsCurrent(c)
    ensures 0 < q.SessionId() == c.logged && !c.dropped && c.next <= |q.Produced()|
  {}

  /** Pruning frees nothing that is still to be read, and leaves the head held. */
  lemma PruneKeeps(q: Queue)
    requires ClientsOk(q)
    ensures ClientsOk(Prune(q))
    ensures Prune(q).base == |q.Produced()| || Prune(q).IsHeld(Prune(q).base)
    ensures Prune(q).HasCurrentClients() <==> q.HasCurrentClients()
  {
    hide Prune;
    PruneMoves(q);
    var p := Prune(q);
    assert p.base < |q.Produced()| ==> (p.IsHeld(p.base) <==> q.IsHeld(p.base));
    forall i | 0 <= i < |q.clients|
      ensures IsGapFree(p, p.clients[i]) && IsPlaced(p, p.clients[i])
    {
      var c := q.clients[i];
      assert IsGapFree(q, c) && IsPlaced(q, c);
      if q.IsCurrent(c) {
        CurrentNext(q, c);
        assert q.IsHeld(c.next);
      }
    }
  }

  // ---------------------------------------------------------------- making room

  lemma DroppingKeeps(q: Queue)
    requires ClientsOk(q) && 0 < q.SessionId()
    ensures ClientsOk(DropLaggards(q))
  {
    var d := DropLaggards(q);
    forall i | 0 <= i < |q.clients|
      ensures IsGapFree(d, d.clients[i]) && IsPlaced(d, d.clients[i])
    {
      assert IsGapFree(q, q.clients[i]) && IsPlaced(q, q.clients[i]);
    }
  }

  /** A client dropped for lag was a whole queue behind. */
  predicate DropsOnlyFarthestBehind(q: Queue, r: Queue)
  {
    && |r.clients| == |q.clients|
    && forall i :: 0 <= i < |q.clients| ==>
         r.clients[i] == (if IsFull(q) && q.IsCurrent(q.clients[i]) && q.clients[i].next == q.base
                          then q.clients[i].(session := 0, dropped := true) else q.clients[i])
  }

  /**
   * Making room terminates after at most one round, drops exactly the current clients at the oldest chunk of a full
   * queue, and fails exactly when the queue is full and nobody is there to drop.
   */
  lemma RoomIsMadeByDroppingLaggards(q: Queue)
    requires 0 < q.SessionId() && |q.Produced()| <= q.base + MAX_BUFFERED_CHUNKS && q.base <= |q.Produced()|
    ensures var r := MakeRoom(q);
      && r.made == (!IsFull(q) || q.IsHeld(q.base))
      && (!r.made ==> r.queue == q)
      && (r.made ==> DropsOnlyFarthestBehind(q, r.queue) && !IsFull(r.queue))
      && r.queue == q.(base := r.queue.base, clients := r.queue.clients)
      && (IsFull(q) && r.made ==> r.queue == Prune(DropLaggards(q)))
  {
    hide Prune;
    if IsFull(q) && q.IsHeld(q.base) {
      var d := DropLaggards(q);
      PruneMoves(d);
      LaggardsLetGo(q);
      assert !IsFull(Prune(d));
      assert MakeRoom(Prune(d)) == Room(Prune(d), true);
    }
  }

  /** With nobody waiting after a failure, there is always room to be made. */
  lemma RoomIsAlwaysMade(q: Queue)
    requires Inv(q) && 0 < q.SessionId() && !q.HasFailedClient()
    ensures MakeRoom(q).made
  {
    hide MakeRoom;
    RoomIsMadeByDroppingLaggards(q);
  }

  lemma MakeRoomKeeps(q: Queue, driver: nat)
    requires ClientsOk(q) && |q.Produced()| <= q.base + MAX_BUFFERED_CHUNKS && HeadIsHeld(q)
    requires q.CanAct(driver) && q.clients[driver].next == |q.Produced()|
    ensures var r := MakeRoom(q).queue;
      && ClientsOk(r) && |r.Produced()| <= r.base + MAX_BUFFERED_CHUNKS && HeadIsHeld(r)
      && |r.clients| == |q.clients| && r.clients[driver] == q.clients[driver]
      && r.history == q.history && r.active == q.active
      && (r.base == |r.Produced()| || r.IsHeld(r.base) || r == q)
  {
    hide MakeRoom, Prune;
    RoomIsMadeByDroppingLaggards(q);
    if IsFull(q) && MakeRoom(q).made {
      DroppingKeeps(q);
      PruneKeeps(DropLaggards(q));
      PruneMoves(DropLaggards(q));
    } else if !IsFull(q) {
      assert MakeRoom(q).queue == q by { RoomWasThere(q); }
    }
  }

  lemma RoomWasThere(q: Queue)
    requires 0 < q.SessionId() && !IsFull(q)
    ensures MakeRoom(q) == Room(q, true)
  {}

  /** The client that asks for a chunk is never dropped to make room for it. */
  lemma DriverIsNotDropped(q: Queue, driver: nat)
    requires Inv(q) && q.CanAct(driver) && q.clients[driver].next == |q.Produced()|
    ensures MakeRoom(q).queue.CanAct(driver) && MakeRoom(q).queue.clients[driver] == q.clients[driver]
  {
    hide MakeRoom;
    MakeRoomKeeps(q, driver);
  }

  // ---------------------------------------------------------------- each step keeps the invariant

  lemma JoinKeeps(q: Queue)
    requires ClientsOk(q) && q.base <= |q.Produced()| <= q.base + MAX_BUFFERED_CHUNKS && HeadIsHeld(q)
       && 0 < q.SessionId() && q.active
    ensures Inv(Joined(q))
  {
    hide IsGapFree, IsPlaced;
    JoinKeepsHead(q);
    var j := Joined(q);
    assert j.IsCurrent(j.clients[0]);
    forall i | 0 <= i < |j.clients|
      ensures IsGapFree(j, j.clients[i]) && IsPlaced(j, j.clients[i])
    {
      if i > 0 { JoinKeepsClient(q, q.clients[i - 1]); } else { NewClientIsSound(q); }
    }
  }

  lemma NewClientIsSound(q: Queue)
    requires 0 < q.SessionId() && q.base <= |q.Produced()|
    ensures IsGapFree(Joined(q), NewClient(q)) && IsPlaced(Joined(q), NewClient(q))
  {}

  lemma JoinKeepsClient(q: Queue, c: Client)
    requires IsGapFree(q, c) && IsPlaced(q, c)
    ensures IsGapFree(Joined(q), c) && IsPlaced(Joined(q), c)
  {}

  lemma JoinKeepsHead(q: Queue)
    requires HeadIsHeld(q)
    ensures HeadIsHeld(Joined(q))
  {
    var j := Joined(q);
    assert forall i {:trigger q.clients[i]} :: 0 <= i < |q.clients| ==> j.clients[i + 1] == q.clients[i];
    if q.IsHeld(q.base) {
      var i :| 0 <= i < |q.clients| && q.IsCurrent(q.clients[i]) && q.clients[i].next == q.base;
      assert j.clients[i + 1].next == q.base;
    } else if q.HasFailedClient() {
      var i :| 0 <= i < |q.clients| && q.IsCurrent(q.clients[i]) && q.clients[i].failed;
      assert j.clients[i + 1].failed;
    }
  }

  lemma ReplaceKeeps(q: Queue)
    requires ClientsOk(q)
    ensures var r := Replaced(q);
      ClientsOk(r) && !r.HasCurrentClients() && r.Produced() == []
  {
    var r := Replaced(q);
    forall i | 0 <= i < |r.clients|
      ensures IsGapFree(r, r.clients[i]) && IsPlaced(r, r.clients[i]) && !r.IsCurrent(r.clients[i])
    {
      assert IsGapFree(q, q.clients[i]) && IsPlaced(q, q.clients[i]);
    }
  }

  lemma AppendKeeps(q: Queue, pcm: Pcm)
    requires ClientsOk(q) && !IsFull(q) && (q.base == |q.Produced()| ==> q.HasCurrentClients()) && HeadIsHeld(q)
    ensures var r := Append(q, pcm);
      && ClientsOk(r) && |r.Produced()| <= r.base + MAX_BUFFERED_CHUNKS && HeadIsHeld(r)
      && (r.HasCurrentClients() <==> q.HasCurrentClients())
  {
    var r := Append(q, pcm);
    forall i | 0 <= i < |r.clients|
      ensures IsGapFree(r, r.clients[i]) && IsPlaced(r, r.clients[i])
    {
      var c := q.clients[i];
      assert IsGapFree(q, c) && IsPlaced(q, c);
      if c.logged == q.SessionId() {
        assert r.history[c.logged][c.join..Delivered(c)] == q.history[c.logged][c.join..Delivered(c)];
      } else {
        assert r.history[c.logged] == q.history[c.logged];
      }
    }
    if q.base == |q.Produced()| {
      var i :| 0 <= i < |q.clients| && q.IsCurrent(q.clients[i]);
      CurrentNext(q, q.clients[i]);
      assert r.IsCurrent(r.clients[i]) && r.clients[i].next == r.base;
    } else if q.IsHeld(q.base) {
      assert r.IsHeld(r.base);
    } else {
      assert r.HasFailedClient();
    }
  }

  lemma ReadKeeps(q: Queue, i: nat)
    requires ClientsOk(q) && q.CanAct(i) && q.clients[i].next < |q.Produced()|
    ensures ClientsOk(HasRead(q, i)) && HasRead(q, i).HasCurrentClients()
    ensures ClientsOk(HasFailed(q, i)) && HasFailed(q, i).HasCurrentClients() && HasFailed(q, i).HasFailedClient()
  {
    var c, r, f := q.clients[i], HasRead(q, i), HasFailed(q, i);
    CurrentNext(q, c);
    assert q.Produced()[c.join..c.next + 1] == q.Produced()[c.join..c.next] + [q.Produced()[c.next]];
    forall k | 0 <= k < |q.clients|
      ensures IsGapFree(r, r.clients[k]) && IsPlaced(r, r.clients[k])
      ensures IsGapFree(f, f.clients[k]) && IsPlaced(f, f.clients[k])
    {
      assert IsGapFree(q, q.clients[k]) && IsPlaced(q, q.clients[k]);
    }
    assert r.IsCurrent(r.clients[i]) && f.IsCurrent(f.clients[i]) && f.clients[i].failed;
  }

  lemma RemovalKeeps(q: Queue, i: nat)
    requires ClientsOk(q) && i < |q.clients|
    ensures ClientsOk(Removed(q, i))
    ensures Removed(q, i).HasCurrentClients() ==> q.HasCurrentClients()
  {
    var r := Removed(q, i);
    forall k | 0 <= k < |r.clients|
      ensures IsGapFree(r, r.clients[k]) && IsPlaced(r, r.clients[k])
    {
      assert r.clients[k] == q.clients[if k < i then k else k + 1];
    }
    if r.HasCurrentClients() {
      var k :| 0 <= k < |r.clients| && r.IsCurrent(r.clients[k]);
      assert r.clients[k] == q.clients[if k < i then k else k + 1];
    }
  }

  lemma ClearingKeeps(q: Queue)
    requires ClientsOk(q) && !q.HasCurrentClients()
    ensures Inv(Cleared(q).(active := false))
  {
    var r := Cleared(q).(active := false);
    forall k | 0 <= k < |q.clients|
      ensures IsGapFree(r, r.clients[k]) && IsPlaced(r, r.clients[k]) && !r.IsCurrent(r.clients[k])
    {
      assert IsGapFree(q, q.clients[k]) && IsPlaced(q, q.clients[k]) && !q.IsCurrent(q.clients[k]);
    }
  }

  lemma LeaveKeeps(q: Queue, i: nat)
    requires Inv(q) && i < |q.clients|
    ensures Inv(Left(q, i))
  {
    hide IsGapFree, IsPlaced, Removed, Prune;
    RemovalKeeps(q, i);
    var r := Removed(q, i);
    assert r == q.(clients := r.clients) by { assert r == Removed(q, i); RemovedFrame(q, i); }
    if !(r.active && !r.HasCurrentClients()) {
      PruneKeeps(r);
      PruneMoves(r);
    } else {
      ClearingKeeps(r);
    }
  }

  lemma RemovedFrame(q: Queue, i: nat)
    requires i < |q.clients|
    ensures Removed(q, i) == q.(clients := Removed(q, i).clients)
  {}

  lemma StepKeepsInv(q: Queue, step: Step)
    requires Inv(q) && Enabled(q, step)
    ensures Inv(Take(q, step))
  {
    hide IsGapFree, IsPlaced, Prune, MakeRoom, Append, Joined, Replaced, HasRead, HasFailed, Left, HeadIsHeld;
    match step {
      case Join => ActiveHasSession(q); JoinKeeps(q);
      case Replace => ReplaceStepKeeps(q);
      case Produce(i, pcm) => ProduceKeeps(q, i, pcm);
      case ProduceFails(i) => ProduceFailsKeeps(q, i);
      case Read(i) => ReadStepKeeps(q, i);
      case ReadFails(i) => ReadFailsKeeps(q, i);
      case Leave(i) => LeaveKeeps(q, i);
    }
  }

  lemma ActiveHasSession(q: Queue)
    requires Inv(q) && q.active
    ensures 0 < q.SessionId()
  {
    var i :| 0 <= i < |q.clients| && q.IsCurrent(q.clients[i]);
    CurrentNext(q, q.clients[i]);
  }

  lemma ReplaceStepKeeps(q: Queue)
    requires Inv(q)
    ensures Inv(Joined(Replaced(q)))
  {
    ReplaceKeeps(q);
    JoinKeeps(Replaced(q));
  }

  lemma ProduceKeeps(q: Queue, i: nat, pcm: Pcm)
    requires Inv(q) && Enabled(q, Produce(i, pcm))
    ensures Inv(HasProduced(q, pcm))
  {
    hide IsGapFree, IsPlaced, MakeRoom, Append;
    MakeRoomKeeps(q, i);
    RoomIsMadeByDroppingLaggards(q);
    var room := MakeRoom(q);
    assert room.queue.IsCurrent(room.queue.clients[i]);
    if room.made {
      AppendKeeps(room.queue, pcm);
      AppendFrame(room.queue, pcm);
    }
  }

  lemma AppendFrame(q: Queue, pcm: Pcm)
    ensures Append(q, pcm) == q.(history := Append(q, pcm).history) && |Append(q, pcm).Produced()| == |q.Produced()| + 1
  {}

  lemma ProduceFailsKeeps(q: Queue, i: nat)
    requires Inv(q) && Enabled(q, ProduceFails(i))
    ensures Inv(MakeRoom(q).queue)
  {
    hide IsGapFree, IsPlaced, MakeRoom;
    MakeRoomKeeps(q, i);
    var r := MakeRoom(q).queue;
    assert r.IsCurrent(r.clients[i]);
  }

  lemma ReadStepKeeps(q: Queue, i: nat)
    requires Inv(q) && Enabled(q, Read(i))
    ensures Inv(Prune(HasRead(q, i)))
  {
    hide IsGapFree, IsPlaced, Prune;
    ReadKeeps(q, i);
    PruneKeeps(HasRead(q, i));
    PruneMoves(HasRead(q, i));
  }

  lemma ReadFailsKeeps(q: Queue, i: nat)
    requires Inv(q) && Enabled(q, ReadFails(i))
    ensures Inv(HasFailed(q, i))
  {
    hide IsGapFree, IsPlaced;
    ReadKeeps(q, i);
  }

  // ---------------------------------------------------------------- whole runs

  ghost predicate Reachable(q: Queue, steps: seq<Step>)
    decreases |steps|
  {
    if steps == [] then q == Start()
    else
      var init, last := steps[..|steps| - 1], steps[|steps| - 1];
      exists p :: Reachable(p, init) && Enabled(p, last) && q == Take(p, last)
  }

  /** Whatever the interleaving, the invariant holds. */
  lemma {:induction false} EveryRunKeepsInv(q: Queue, steps: seq<Step>)
    requires Reachable(q, steps)
    ensures Inv(q)
    decreases |steps|
  {
    hide Inv, Enabled, Take;
    if steps == [] {
      assert Inv(Start()) by { StartIsSound(); }
    } else {
      var init, last := steps[..|steps| - 1], steps[|steps| - 1];
      var p :| Reachable(p, init) && Enabled(p, last) && q == Take(p, last);
      EveryRunKeepsInv(p, init);
      StepKeepsInv(p, last);
    }
  }

  lemma StartIsSound()
    ensures Inv(Start())
  {}

  /**
   * Over every interleaving: each listener has received exactly the consecutive chunks of its own session from where
   * it joined, and a listener of the current session stands at a chunk that is still there or at the end.
   */
  lemma EveryListenerIsServedWithoutGaps(q: Queue, steps: seq<Step>, i: nat)
    requires Reachable(q, steps) && i < |q.clients|
    ensures var c := q.clients[i];
      && 0 < c.logged < |q.history| && c.join <= Delivered(c) <= |q.history[c.logged]|
      && c.received == q.history[c.logged][c.join..Delivered(c)]
      && (q.IsCurrent(c) ==> c.logged == q.SessionId() && q.base <= c.next <= |q.Produced()|)
    ensures |q.Produced()| - q.base <= MAX_BUFFERED_CHUNKS
  {
    EveryRunKeepsInv(q, steps);
    var c := q.clients[i];
    assert IsGapFree(q, c) && IsPlaced(q, c);
    if q.IsCurrent(c) { CurrentNext(q, c); }
  }

  // ---------------------------------------------------------------- what history keeps

  /** Sessions only grow: what a past session produced never changes, and the newest one is only added to. */
  predicate Extends(h: History, more: History)
  {
    && |h| <= |more| && (forall k :: 0 <= k < |h| - 1 ==> more[k] == h[k])
    && h[|h| - 1] <= more[|h| - 1]
  }

  lemma StepExtendsHistory(q: Queue, step: Step)
    requires Inv(q) && Enabled(q, step)
    ensures Extends(q.history, Take(q, step).history)
  {
    hide Take, HasRoom;
    HistoryAfter(q, step);
  }

  // ---------------------------------------------------------------- what a step adds

  /** There is room for a chunk, or a laggard to be dropped for it. */
  predicate HasRoom(q: Queue)
  {
    |q.Produced()| < q.base + MAX_BUFFERED_CHUNKS || q.IsHeld(q.base)
  }

  /** Only a production adds a chunk, at the end of the newest session: the one the source delivered, if there is
      room. Only a replacement begins a session. Nothing else changes what has been produced. */
  lemma HistoryAfter(q: Queue, step: Step)
    requires Inv(q) && Enabled(q, step)
    ensures var n, h := |q.history|, Take(q, step).history;
      match step
      case Replace => |h| == n + 1 && h[..n] == q.history && h[n] == []
      case Produce(_, pcm) =>
        |h| == n && h[..n - 1] == q.history[..n - 1]
        && h[n - 1] == (if HasRoom(q) then q.history[n - 1] + [pcm] else q.history[n - 1])
      case _ => h == q.history
  {
    hide Prune, MakeRoom;
    match step {
      case Produce(i, pcm) => RoomIsMadeByDroppingLaggards(q);
      case ProduceFails(i) => RoomIsMadeByDroppingLaggards(q);
      case Read(i) => PruneMoves(HasRead(q, i));
      case Leave(i) => PruneMoves(Removed(q, i));
      case _ =>
    }
  }

  /** A new listener comes first, has nothing yet, and stands behind everything its session has produced. */
  lemma NewListenerStandsAtTheEnd(q: Queue, step: Step)
    requires Enabled(q, step) && (step.Join? || step.Replace?)
    ensures var r := Take(q, step);
      var c, session := r.clients[0], |r.history| - 1;
      && r.clients[1..] == q.clients && |r.clients| == |q.clients| + 1
      && c.received == [] && !c.failed && !c.dropped && c.session == c.logged == session
      && c.join == c.next == |r.history[session]| == (if step.Join? then |q.history[session]| else 0)
  {}

  /** Who was there keeps its session and the place where it joined. */
  lemma PlacesAreKept(q: Queue, step: Step)
    requires Inv(q) && Enabled(q, step) && !step.Join? && !step.Replace? && !step.Leave?
    ensures var c := Take(q, step).clients;
      |c| == |q.clients|
      && forall i :: 0 <= i < |c| ==> c[i].logged == q.clients[i].logged && c[i].join == q.clients[i].join
  {
    hide Prune, MakeRoom;
    match step {
      case Produce(i, pcm) => RoomIsMadeByDroppingLaggards(q);
      case ProduceFails(i) => RoomIsMadeByDroppingLaggards(q);
      case Read(i) => PruneMoves(HasRead(q, i));
      case _ =>
    }
  }

  // ---------------------------------------------------------------- when no room can be made

  const SILENCE: Pcm := Silent()

  /** Two listeners, of whom one has read k chunks and the other none. */
  function Rounds(k: nat): Queue
  {
    var chunks := seq(k, i => SILENCE);
    Queue([[], chunks], true, 0, [Client(1, 1, false, 0, k, chunks, false), Client(1, 1, false, 0, 0, [], false)])
  }

  function RoundSteps(k: nat): seq<Step>
  {
    if k == 0 then [Replace, Join] else RoundSteps(k - 1) + [Produce(0, SILENCE)] + [Read(0)]
  }

  /** The other one then fails at the oldest chunk of a full queue. */
  function Stuck(): Queue { HasFailed(Rounds(MAX_BUFFERED_CHUNKS), 1) }

  lemma ReachableStep(p: Queue, steps: seq<Step>, step: Step)
    requires Reachable(p, steps) && Enabled(p, step)
    ensures Reachable(Take(p, step), steps + [step])
  {
    hide Enabled, Take;
    assert (steps + [step])[..|steps + [step]| - 1] == steps;
  }

  lemma NextRound(k: nat)
    requires k < MAX_BUFFERED_CHUNKS
    ensures var p := Take(Rounds(k), Produce(0, SILENCE));
      Enabled(Rounds(k), Produce(0, SILENCE)) && Enabled(p, Read(0)) && Take(p, Read(0)) == Rounds(k + 1)
  {
    var q := Rounds(k);
    assert MakeRoom(q) == Room(q, true);
    var chunks, more := seq(k, i => SILENCE), seq(k + 1, i => SILENCE);
    assert chunks + [SILENCE] == more;
    var p := Append(q, SILENCE);
    assert p.history == [[], more];
    assert p == Queue([[], more], true, 0, q.clients);
    var r := HasRead(p, 0);
    assert r == Rounds(k + 1);
    assert r.IsCurrent(r.clients[1]) && r.clients[1].next == 0;
    assert Prune(r) == r;
  }

  lemma {:induction false} RoundsAreReachable(k: nat)
    requires k <= MAX_BUFFERED_CHUNKS
    ensures Reachable(Rounds(k), RoundSteps(k))
  {
    hide Enabled, Take, Rounds, Reachable;
    if k == 0 {
      FirstRound();
    } else {
      RoundsAreReachable(k - 1);
      NextRound(k - 1);
      ReachableStep(Rounds(k - 1), RoundSteps(k - 1), Produce(0, SILENCE));
      ReachableStep(Take(Rounds(k - 1), Produce(0, SILENCE)), RoundSteps(k - 1) + [Produce(0, SILENCE)], Read(0));
    }
  }

  lemma FirstRound()
    ensures Reachable(Rounds(0), RoundSteps(0))
  {
    hide Reachable, Take, Rounds;
    var none: seq<Step> := [];
    var q := Take(Start(), Replace);
    assert Reachable(Start(), none) by { NothingReached(); }
    ReachableStep(Start(), none, Replace);
    assert none + [Replace] == [Replace];
    FirstTwo();
    ReachableStep(q, [Replace], Join);
    assert [Replace] + [Join] == [Replace, Join];
  }

  lemma NothingReached()
    ensures Reachable(Start(), [])
  {}

  lemma FirstTwo()
    ensures var q := Take(Start(), Replace); Enabled(q, Join) && Take(q, Join) == Rounds(0)
  {
    assert Take(Start(), Replace) == Queue([[], []], true, 0, [Client(1, 1, false, 0, 0, [], false)]);
    assert seq(0, i => SILENCE) == [];
  }

  /** A listener that could still produce is refused, because another's failure has left the oldest chunk to nobody. */
  lemma RoomCanBeRefused()
    ensures Reachable(Stuck(), RoundSteps(MAX_BUFFERED_CHUNKS) + [ReadFails(1)])
    ensures Enabled(Stuck(), Produce(0, SILENCE)) && Stuck().HasFailedClient() && !MakeRoom(Stuck()).made
  {
    hide MakeRoom, Reachable, RoundSteps;
    var n := MAX_BUFFERED_CHUNKS;
    var q := Stuck();
    RoundsAreReachable(n);
    ReachableStep(Rounds(n), RoundSteps(n), ReadFails(1));
    assert q.clients[0].next == n && q.clients[1].next == 1;
    assert q.IsCurrent(q.clients[1]) && q.clients[1].failed;
    RoomIsMadeByDroppingLaggards(q);
  }
}
