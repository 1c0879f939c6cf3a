/** Whole runs of the server: any script of requests, turns of the readers and departures, on one server in memory. */
module ChunkServerRuns {
  import opened Common
  import opened ChunkQueue
  import opened ChunkServer

  /** What can happen next; listeners are counted from the newest one, and numbers past the last mean nobody. */
  datatype Event =
    | Request(sameRequest: bool, tuned: bool)
    | Turn(listener: nat, packed: bool, due: bool, filled: Option<Pcm>)
    | Departure(listener: nat)

  /** A connection: its stream, the data handed to it so far, and whether its last turn was its last. */
  datatype Connection = Connection(stream: ClientStream, received: seq<Pcm>, ended: bool)

  /** What a listener that has gone was handed: its session, where it joined, and the data. */
  datatype Record = Record(session: nat, join: nat, received: seq<Pcm>)

  /** The data are consecutive chunks of that session. */
  predicate Recorded(h: History, r: Record)
  {
    && r.session < |h| && r.join + |r.received| <= |h[r.session]|
    && r.received == h[r.session][r.join..r.join + |r.received|]
  }

  // ---------------------------------------------------------------- the run on values

  /** The state of the protocol, which listeners have had their last turn, the steps taken, and who has gone. */
  datatype World = World(queue: Queue, ended: seq<bool>, steps: seq<Step>, gone: seq<Record>)

  /** The step that a turn of listener k is, if it is one. */
  function StepOf(q: Queue, k: nat, packed: bool, filled: Option<Pcm>): Step
    requires k < |q.clients|
  {
    if q.clients[k].next < |q.Produced()| then (if packed then Read(k) else ReadFails(k))
    else if filled.Some? then Produce(k, filled.value) else ProduceFails(k)
  }

  /** Listener k is there and has not had its last turn. */
  predicate IsListening(w: World, k: nat) { k < |w.queue.clients| && k < |w.ended| && !w.ended[k] }

  /** A turn of listener k does something: there is a chunk to read, or one may be produced. */
  predicate Acts(q: Queue, k: nat, due: bool) { q.CanAct(k) && (due || q.clients[k].next < |q.Produced()|) }

  function StepOfEvent(w: World, e: Event): Option<Step>
  {
    match e
    case Request(sameRequest, tuned) =>
      if w.queue.active && sameRequest then Some(Join) else if tuned then Some(Replace) else None
    case Turn(k, packed, due, filled) =>
      if IsListening(w, k) && Acts(w.queue, k, due) then Some(StepOf(w.queue, k, packed, filled)) else None
    case Departure(k) => if k < |w.queue.clients| then Some(Leave(k)) else None
  }

  /** A turn is the last one when the session is over, or something has failed. */
  predicate EndsListening(q: Queue, k: nat, packed: bool, due: bool, filled: Option<Pcm>)
    requires k < |q.clients|
  {
    if !q.CanAct(k) then true
    else if q.clients[k].next < |q.Produced()| then !packed
    else due && (filled.None? || !MakeRoom(q).made)
  }

  function EndedAfter(w: World, e: Event): seq<bool>
  {
    match e
    case Request(_, _) => if StepOfEvent(w, e).Some? then [false] + w.ended else w.ended
    case Turn(k, packed, due, filled) =>
      if IsListening(w, k) then w.ended[k := EndsListening(w.queue, k, packed, due, filled)] else w.ended
    case Departure(k) => if k < |w.ended| then w.ended[..k] + w.ended[k + 1..] else w.ended
  }

  function GoneAfter(w: World, e: Event): seq<Record>
  {
    if e.Departure? && e.listener < |w.queue.clients|
    then var c := w.queue.clients[e.listener]; w.gone + [Record(c.logged, c.join, c.received)]
    else w.gone
  }

  /** What one event makes of the world. */
  function PlayEvent(w: World, e: Event): World
  {
    var step := StepOfEvent(w, e);
    if step.Some? && Enabled(w.queue, step.value)
    then World(Take(w.queue, step.value), EndedAfter(w, e), w.steps + [step.value], GoneAfter(w, e))
    else World(w.queue, EndedAfter(w, e), w.steps, GoneAfter(w, e))
  }

  function Play(script: seq<Event>): World
  {
    if script == [] then World(Start(), [], [], [])
    else PlayEvent(Play(script[..|script| - 1]), script[|script| - 1])
  }

  // ---------------------------------------------------------------- memory and values

  /** The server's memory, and the connections, newest first, are this world. */
  ghost predicate Serves(server: Server, connections: seq<Connection>, w: World)
    reads server, server.nodes, server.members
  {
    && server.Valid() && server.value == w.queue && Reachable(w.queue, w.steps)
    && AreConnected(connections, server.members, w.queue.clients, w.ended)
  }

  ghost predicate AreConnected(connections: seq<Connection>, members: seq<ClientStream>, clients: seq<Client>,
                               ended: seq<bool>)
  {
    && |connections| == |members| == |clients| == |ended|
    && forall k :: 0 <= k < |connections| ==> IsConnected(connections[k], members[k], clients[k], ended[k])
  }

  ghost predicate IsConnected(c: Connection, stream: ClientStream, v: Client, ended: bool)
  {
    c.stream == stream && c.received == v.received && c.ended == ended && (v.failed ==> ended)
  }

  // ---------------------------------------------------------------- one event

  method Admit(server: Server, connections: seq<Connection>, sameRequest: bool, tuned: bool, ghost w: World)
      returns (next: seq<Connection>)
    requires Serves(server, connections, w)
    modifies server, server.nodes`freed
    ensures Serves(server, next, PlayEvent(w, Request(sameRequest, tuned)))
    ensures server.nodes == old(server.nodes) || server.nodes == []
    ensures server.members == old(server.members)
      || (|server.members| > 0 && fresh(server.members[0]) && server.members[1..] == old(server.members))
    ensures Extends(w.queue.history, server.value.history)
  {
    hide Reachable, Enabled, Take, Inv, Queue.HasCurrentClients, Extends, PlayEvent, AreConnected;
    ghost var q := server.value;
    ghost var step := if server.sessionActive && sameRequest then Join else Replace;
    PlayRequest(w, sameRequest, tuned, step);
    var stream := server.HandleRequest(sameRequest, tuned);
    if stream == null {
      next := connections;
      NothingAdded(q.history);
    } else {
      next := [Connection(stream, [], false)] + connections;
      ReachableStep(q, w.steps, step);
      StepExtendsHistory(q, step);
      NewListenerStandsAtTheEnd(q, step);
      OneMoreConnected(connections, old(server.members), w, stream, server.value.clients);
    }
  }

  lemma PlayRequest(w: World, sameRequest: bool, tuned: bool, step: Step)
    requires step == if w.queue.active && sameRequest then Join else Replace
    ensures var v := PlayEvent(w, Request(sameRequest, tuned));
      && ((step.Join? || tuned) && Enabled(w.queue, step) ==>
            v.queue == Take(w.queue, step) && v.steps == w.steps + [step] && v.ended == [false] + w.ended)
      && (step.Replace? && !tuned ==> v.queue == w.queue && v.steps == w.steps && v.ended == w.ended)
  {
    hide Take, Enabled;
  }

  lemma NothingAdded(h: History)
    ensures Extends(h, h)
  {}

  lemma OneMoreConnected(connections: seq<Connection>, members: seq<ClientStream>, w: World, stream: ClientStream,
                         clients: seq<Client>)
    requires AreConnected(connections, members, w.queue.clients, w.ended)
    requires |clients| == |w.queue.clients| + 1 && clients[1..] == w.queue.clients
    requires clients[0].received == [] && !clients[0].failed
    ensures AreConnected([Connection(stream, [], false)] + connections, [stream] + members, clients, [false] + w.ended)
  {}

  method TakeTurn(server: Server, connections: seq<Connection>, k: nat, packed: bool, due: bool, filled: Option<Pcm>,
                  ghost w: World)
      returns (next: seq<Connection>)
    requires Serves(server, connections, w) && k < |connections| && !connections[k].ended
    modifies server, server.nodes, server.members
    ensures Serves(server, next, PlayEvent(w, Turn(k, packed, due, filled))) && server.members == old(server.members)
    ensures server.nodes == old(server.nodes)
      || (Server.Longer(old(server.nodes), server.nodes) && fresh(server.nodes[|server.nodes| - 1]))
    ensures Extends(w.queue.history, server.value.history)
  {
    hide Reachable, Enabled, Take, Inv, ChunkQueue.MakeRoom, Server.Longer, Extends, PlayEvent,
      AreConnected;
    ghost var q := server.value;
    ConnectionOf(connections, server.members, w, k);
    PlayTurn(w, k, packed, due, filled);
    var result := server.ContentReader(connections[k].stream, packed, due, filled, k);
    var received := connections[k].received + (if result.Data? then [result.pcm] else []);
    var ended := result.EndOfStream? || result.EndWithError?;
    next := connections[k := Connection(connections[k].stream, received, ended)];
    ghost var step := StepOf(q, k, packed, filled);
    NothingAdded(q.history);
    if Acts(q, k, due) {
      ReachableStep(q, w.steps, step);
      StepExtendsHistory(q, step);
      TurnOfListener(q, step, k);
    }
    OneChanged(connections, server.members, w, k, next[k], server.value.clients, ended);
  }

  lemma OneChanged(connections: seq<Connection>, members: seq<ClientStream>, w: World, k: nat, c: Connection,
                   clients: seq<Client>, last: bool)
    requires AreConnected(connections, members, w.queue.clients, w.ended) && k < |connections| == |clients|
    requires forall i :: 0 <= i < |clients| && i != k ==>
      clients[i].received == w.queue.clients[i].received && clients[i].failed == w.queue.clients[i].failed
    requires IsConnected(c, members[k], clients[k], last)
    ensures AreConnected(connections[k := c], members, clients, w.ended[k := last])
  {}

  lemma PlayTurn(w: World, k: nat, packed: bool, due: bool, filled: Option<Pcm>)
    requires IsListening(w, k)
    ensures var q, step, v := w.queue, StepOf(w.queue, k, packed, filled), PlayEvent(w, Turn(k, packed, due, filled));
      && v.ended == w.ended[k := EndsListening(q, k, packed, due, filled)] && v.gone == w.gone
      && (if Acts(q, k, due) && Enabled(q, step) then v.queue == Take(q, step) && v.steps == w.steps + [step]
          else v.queue == q && v.steps == w.steps)
  {
    hide Take, Enabled, ChunkQueue.MakeRoom;
  }

  lemma PlayDeparture(w: World, k: nat)
    requires k < |w.queue.clients| && k < |w.ended| && Enabled(w.queue, Leave(k))
    ensures var v := PlayEvent(w, Departure(k));
      && v.queue == Take(w.queue, Leave(k)) && v.steps == w.steps + [Leave(k)]
      && v.ended == w.ended[..k] + w.ended[k + 1..]
  {
    hide Take, Enabled;
  }

  /** A turn changes what listener k has received, and nobody else's. */
  lemma TurnOfListener(q: Queue, step: Step, k: nat)
    requires Inv(q) && k < |q.clients| && Enabled(q, step)
    requires step == Read(k) || step == ReadFails(k) || step == ProduceFails(k) || (step.Produce? && step.client == k)
    ensures var c := Take(q, step).clients;
      && |c| == |q.clients|
      && (forall i :: 0 <= i < |c| && i != k ==>
            c[i].received == q.clients[i].received && c[i].failed == q.clients[i].failed)
      && c[k].received == q.clients[k].received
           + (if step.Read? then [q.Produced()[q.clients[k].next]] else [])
      && c[k].failed == (q.clients[k].failed || step.ReadFails?)
  {
    hide Prune, ChunkQueue.MakeRoom, IsGapFree, IsPlaced, HeadIsHeld, Queue.HasCurrentClients;
    match step {
      case Read(i) => PruneMoves(HasRead(q, i));
      case Produce(i, pcm) => RoomIsMadeByDroppingLaggards(q);
      case ProduceFails(i) => RoomIsMadeByDroppingLaggards(q);
      case _ =>
    }
  }

  method Depart(server: Server, connections: seq<Connection>, k: nat, ghost w: World) returns (next: seq<Connection>)
    requires Serves(server, connections, w) && k < |connections|
    modifies server, server.nodes`freed, server.members`next
    ensures Serves(server, next, PlayEvent(w, Departure(k))) && server.nodes == old(server.nodes)
    ensures server.members == old(server.members)[..k] + old(server.members)[k + 1..]
    ensures Extends(w.queue.history, server.value.history)
  {
    hide Reachable, Enabled, Take, Inv, Queue.HasCurrentClients, Extends, PlayEvent, AreConnected;
    ghost var q := server.value;
    ConnectionOf(connections, server.members, w, k);
    OneLessConnected(connections, server.members, w, k);
    OthersStay(q, k);
    PlayDeparture(w, k);
    server.ContentFree(connections[k].stream, k);
    next := connections[..k] + connections[k + 1..];
    ReachableStep(q, w.steps, Leave(k));
    StepExtendsHistory(q, Leave(k));
  }

  lemma ConnectionOf(connections: seq<Connection>, members: seq<ClientStream>, w: World, k: nat)
    requires AreConnected(connections, members, w.queue.clients, w.ended) && k < |connections|
    ensures |connections| == |members| == |w.queue.clients| == |w.ended|
    ensures IsConnected(connections[k], members[k], w.queue.clients[k], w.ended[k])
  {}

  lemma OneLessConnected(connections: seq<Connection>, members: seq<ClientStream>, w: World, k: nat)
    requires AreConnected(connections, members, w.queue.clients, w.ended) && k < |connections|
    ensures AreConnected(connections[..k] + connections[k + 1..], members[..k] + members[k + 1..],
                         w.queue.clients[..k] + w.queue.clients[k + 1..], w.ended[..k] + w.ended[k + 1..])
  {}

  lemma OthersStay(q: Queue, k: nat)
    requires k < |q.clients|
    ensures Enabled(q, Leave(k)) && Take(q, Leave(k)).clients == q.clients[..k] + q.clients[k + 1..]
  {
    hide Prune;
    PruneMoves(Removed(q, k));
  }

  lemma IsOnRecord(q: Queue, steps: seq<Step>, k: nat)
    requires Reachable(q, steps) && k < |q.clients|
    ensures Recorded(q.history, Record(q.clients[k].logged, q.clients[k].join, q.clients[k].received))
  {
    hide Reachable;
    EveryListenerIsServedWithoutGaps(q, steps, k);
  }

  /** What a session has produced stays where it is. */
  lemma StaysOnRecord(h: History, more: History, r: Record)
    requires Extends(h, more) && Recorded(h, r)
    ensures Recorded(more, r)
  {
    assert h[r.session] <= more[r.session];
  }

  /** Whoever goes in an event goes with consecutive chunks of a session, and those gone before stay on record. */
  lemma EventKeepsRecords(w: World, e: Event, more: History)
    requires Reachable(w.queue, w.steps) && Extends(w.queue.history, more)
    requires forall i :: 0 <= i < |w.gone| ==> Recorded(w.queue.history, w.gone[i])
    ensures forall i :: 0 <= i < |GoneAfter(w, e)| ==> Recorded(more, GoneAfter(w, e)[i])
  {
    hide Reachable, Recorded, Extends;
    if e.Departure? && e.listener < |w.queue.clients| { IsOnRecord(w.queue, w.steps, e.listener); }
    forall i | 0 <= i < |GoneAfter(w, e)|
      ensures Recorded(more, GoneAfter(w, e)[i])
    {
      StaysOnRecord(w.queue.history, more, GoneAfter(w, e)[i]);
    }
  }

  // ---------------------------------------------------------------- a whole run

  /** An event about nobody changes nothing. */
  lemma NobodyActs(w: World, e: Event)
    requires (e.Turn? && !IsListening(w, e.listener)) || (e.Departure? && e.listener >= |w.queue.clients|)
    requires |w.ended| == |w.queue.clients|
    ensures PlayEvent(w, e) == w
  {}

  lemma PlayStep(script: seq<Event>, n: nat)
    requires n < |script|
    ensures Play(script[..n + 1]) == PlayEvent(Play(script[..n]), script[n])
  {
    hide PlayEvent;
    assert script[..n + 1][..n] == script[..n];
  }

  lemma PlayEventGone(w: World, e: Event)
    ensures PlayEvent(w, e).gone == GoneAfter(w, e)
  {}

  /**
   * Whatever happens, in whatever order: memory and connections end as the script says, every listener has been handed
   * the consecutive chunks of its session from where it joined, and so has every listener that has gone.
   */
  method Run(script: seq<Event>) returns (server: Server, connections: seq<Connection>)
    ensures Serves(server, connections, Play(script))
    ensures forall k :: 0 <= k < |connections| ==>
      var c := server.value.clients[k];
      Recorded(server.value.history, Record(c.logged, c.join, connections[k].received))
    ensures forall i :: 0 <= i < |Play(script).gone| ==> Recorded(server.value.history, Play(script).gone[i])
  {
    hide Reachable, Recorded, Extends, Server.Valid, Server.Longer, Play, PlayEvent, GoneAfter;
    server := new Server();
    connections := [];
    assert Play(script[..0]) == World(Start(), [], [], []) by { NothingPlayed(script); }
    assert Reachable(server.value, []) by { NothingHasHappened(); }
    for n := 0 to |script|
      invariant Serves(server, connections, Play(script[..n]))
      invariant fresh(server) && fresh(set node | node in server.nodes) && fresh(set member | member in server.members)
      invariant forall i :: 0 <= i < |Play(script[..n]).gone| ==>
        Recorded(server.value.history, Play(script[..n]).gone[i])
    {
      ghost var w, before := Play(script[..n]), server.nodes;
      NothingAdded(w.queue.history);
      PlayStep(script, n);
      PlayEventGone(w, script[n]);
      match script[n] {
        case Request(sameRequest, tuned) => connections := Admit(server, connections, sameRequest, tuned, w);
        case Turn(k, packed, due, filled) =>
          if k < |connections| && !connections[k].ended {
            connections := TakeTurn(server, connections, k, packed, due, filled, w);
            AtMostOneMore(before, server.nodes);
          } else {
            ConnectionEnded(server, connections, w, k);
            NobodyActs(w, script[n]);
          }
        case Departure(k) =>
          if k < |connections| {
            connections := Depart(server, connections, k, w);
          } else {
            NobodyActs(w, script[n]);
          }
      }
      EventKeepsRecords(w, script[n], server.value.history);
    }
    assert script[..|script|] == script;
    AllOnRecord(server, connections, Play(script));
  }

  lemma ConnectionEnded(server: Server, connections: seq<Connection>, w: World, k: nat)
    requires Serves(server, connections, w) && (k >= |connections| || connections[k].ended)
    ensures !IsListening(w, k)
  {
    hide Reachable, Server.Valid;
    if k < |connections| { assert IsConnected(connections[k], server.members[k], w.queue.clients[k], w.ended[k]); }
  }

  lemma NothingPlayed(script: seq<Event>)
    ensures Play(script[..0]) == World(Start(), [], [], [])
  {}

  lemma AtMostOneMore(before: seq<StreamChunk>, after: seq<StreamChunk>)
    requires after == before || Server.Longer(before, after)
    ensures forall node :: node in after ==> node in before || node == after[|after| - 1]
  {
    if after != before {
      assert after == before + [after[|before|]];
    }
  }

  lemma NothingHasHappened()
    ensures Reachable(Start(), [])
  {}

  lemma AllOnRecord(server: Server, connections: seq<Connection>, w: World)
    requires Serves(server, connections, w)
    ensures forall k :: 0 <= k < |connections| ==>
      var c := server.value.clients[k];
      Recorded(server.value.history, Record(c.logged, c.join, connections[k].received))
  {
    hide Reachable, Recorded, Server.Valid;
    forall k | 0 <= k < |connections|
      ensures var c := server.value.clients[k];
        Recorded(server.value.history, Record(c.logged, c.join, connections[k].received))
    {
      assert IsConnected(connections[k], server.members[k], w.queue.clients[k], w.ended[k]);
      IsOnRecord(w.queue, w.steps, k);
    }
  }
}
