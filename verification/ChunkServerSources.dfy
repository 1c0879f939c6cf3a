/** Where the chunks of a run come from: what the source delivered in it, and what a listener hears of that. */
module ChunkServerSources {
  import opened Common
  import opened ChunkQueue
  import opened ChunkServerRuns

  // ---------------------------------------------------------------- what the script says

  /** A request that begins a session. */
  predicate Replaces(w: World, e: Event) { e.Request? && !(w.queue.active && e.sameRequest) && e.tuned }

  /** A turn in which a chunk is produced: the listener has nothing left to read, one is due, there is room for it, and
      the source delivers. */
  predicate ProducesIn(w: World, e: Event)
  {
    && e.Turn? && e.due && e.filled.Some? && IsListening(w, e.listener) && w.queue.CanAct(e.listener)
    && w.queue.clients[e.listener].next == |w.queue.Produced()| && HasRoom(w.queue)
  }

  /** What the source has delivered, session by session, the empty session 0 first. */
  function Sources(script: seq<Event>): (sources: seq<seq<Pcm>>)
    ensures sources != []
  {
    if script == [] then [[]]
    else
      var init, e := script[..|script| - 1], script[|script| - 1];
      var before := Sources(init);
      var n := |before| - 1;
      if Replaces(Play(init), e) then before + [[]]
      else if ProducesIn(Play(init), e) then before[n := before[n] + [e.filled.value]]
      else before
  }

  /** At which event each listener came, newest listener first. */
  function Arrivals(script: seq<Event>): seq<nat>
  {
    if script == [] then []
    else
      var n := |script| - 1;
      var w, before := Play(script[..n]), Arrivals(script[..n]);
      match script[n]
      case Request(sameRequest, tuned) => if (w.queue.active && sameRequest) || tuned then [n] + before else before
      case Turn(_, _, _, _) => before
      case Departure(k) => if k < |before| then before[..k] + before[k + 1..] else before
  }

  // ---------------------------------------------------------------- the run on values

  lemma {:induction false} PlayIsReachable(script: seq<Event>)
    ensures Reachable(Play(script).queue, Play(script).steps)
    ensures |Play(script).ended| == |Play(script).queue.clients|
  {
    hide Enabled, Take, StepOfEvent, EndedAfter, GoneAfter, Reachable;
    if script == [] {
      NothingHasHappened();
    } else {
      var w, e := Play(script[..|script| - 1]), script[|script| - 1];
      PlayIsReachable(script[..|script| - 1]);
      var step := StepOfEvent(w, e);
      EveryRunKeepsInv(w.queue, w.steps);
      if step.Some? && Enabled(w.queue, step.value) { ReachableStep(w.queue, w.steps, step.value); }
      ListenersAreCounted(w, e);
    }
  }

  lemma ListenersAreCounted(w: World, e: Event)
    requires Inv(w.queue) && |w.ended| == |w.queue.clients|
    ensures |PlayEvent(w, e).ended| == |PlayEvent(w, e).queue.clients|
  {
    hide Inv, Take, HasRoom, EndsListening;
    match e
    case Request(sameRequest, tuned) =>
      if w.queue.active && sameRequest {
        NewListenerStandsAtTheEnd(w.queue, Join);
      } else {
        NewListenerStandsAtTheEnd(w.queue, Replace);
      }
    case Turn(k, packed, due, filled) =>
      if IsListening(w, k) && Enabled(w.queue, StepOf(w.queue, k, packed, filled)) {
        PlacesAreKept(w.queue, StepOf(w.queue, k, packed, filled));
      }
    case Departure(k) => if k < |w.queue.clients| { OthersStay(w.queue, k); }
  }

  lemma EventHistory(w: World, e: Event)
    requires Inv(w.queue) && |w.ended| == |w.queue.clients|
    ensures var n, h, q := |w.queue.history| - 1, w.queue.history, PlayEvent(w, e).queue;
      q.history == if Replaces(w, e) then h + [[]]
                   else if ProducesIn(w, e) then h[n := h[n] + [e.filled.value]] else h
  {
    hide Inv, Take, HasRoom, EndsListening;
    var n, h, q := |w.queue.history| - 1, w.queue.history, PlayEvent(w, e).queue;
    var step := StepOfEvent(w, e);
    if step.Some? && Enabled(w.queue, step.value) {
      HistoryAfter(w.queue, step.value);
      if step.value.Replace? {
        assert q.history == q.history[..n + 1] + [[]];
      } else if step.value.Produce? {
        assert q.history == q.history[..n] + [q.history[n]] && h == h[..n] + [h[n]];
      }
    }
    if e.Turn? && IsListening(w, e.listener) && w.queue.CanAct(e.listener) { StandsInside(w.queue, e.listener); }
  }

  lemma StandsInside(q: Queue, k: nat)
    requires Inv(q) && q.CanAct(k)
    ensures q.clients[k].next <= |q.Produced()|
  {
    assert IsGapFree(q, q.clients[k]) && IsPlaced(q, q.clients[k]);
    CurrentNext(q, q.clients[k]);
  }

  /** What the sessions have produced is, in order, what the source delivered in the turns that produced in them. */
  lemma {:induction false} SessionsAreSources(script: seq<Event>)
    ensures Play(script).queue.history == Sources(script)
  {
    hide PlayEvent, Replaces, ProducesIn, Reachable, Inv;
    if script != [] {
      var init := script[..|script| - 1];
      SessionsAreSources(init);
      PlayIsReachable(init);
      EveryRunKeepsInv(Play(init).queue, Play(init).steps);
      EventHistory(Play(init), script[|script| - 1]);
    }
  }

  // ---------------------------------------------------------------- from where a listener hears

  /** Listener c came with event b, and joined behind what its session had produced by then. */
  predicate CameAt(script: seq<Event>, c: Client, b: nat)
  {
    && b < |script| && script[b].Request?
    && c.logged == |Sources(script[..b + 1])| - 1 && c.join == |Sources(script[..b + 1])[c.logged]|
  }

  predicate AllCame(script: seq<Event>, clients: seq<Client>, arrivals: seq<nat>)
  {
    |arrivals| == |clients| && forall k :: 0 <= k < |clients| ==> CameAt(script, clients[k], arrivals[k])
  }

  lemma {:induction false} ListenersJoinWhereTheyCome(script: seq<Event>)
    ensures AllCame(script, Play(script).queue.clients, Arrivals(script))
  {
    hide PlayEvent, CameAt, AllCame, Sources, Reachable, Inv;
    if script == [] {
      NobodyCame(script);
    } else {
      var n := |script| - 1;
      var w, before := Play(script[..n]), Arrivals(script[..n]);
      ListenersJoinWhereTheyCome(script[..n]);
      PlayIsReachable(script[..n]);
      EveryRunKeepsInv(w.queue, w.steps);
      AsManyCame(script[..n], w.queue.clients, before);
      EventPlaces(script, w, script[n]);
      assert script == script[..n] + [script[n]];
      AllStillCame(script[..n], script[n], w, before, Play(script).queue.clients, Arrivals(script));
    }
  }

  lemma AsManyCame(script: seq<Event>, clients: seq<Client>, arrivals: seq<nat>)
    requires AllCame(script, clients, arrivals)
    ensures |arrivals| == |clients|
  {}

  lemma NobodyCame(script: seq<Event>)
    ensures AllCame(script, [], [])
  {}

  lemma AllStillCame(script: seq<Event>, e: Event, w: World, before: seq<nat>, clients: seq<Client>, after: seq<nat>)
    requires AllCame(script, w.queue.clients, before)
    requires match e
      case Request(sameRequest, tuned) =>
        if (w.queue.active && sameRequest) || tuned
        then clients != [] && clients[1..] == w.queue.clients && after == [|script|] + before
             && CameAt(script + [e], clients[0], |script|)
        else clients == w.queue.clients && after == before
      case Turn(_, _, _, _) =>
        && |clients| == |w.queue.clients| && after == before
        && forall i :: 0 <= i < |clients| ==> SamePlace(w.queue.clients[i], clients[i])
      case Departure(k) =>
        if k < |before|
        then clients == w.queue.clients[..k] + w.queue.clients[k + 1..] && after == before[..k] + before[k + 1..]
        else clients == w.queue.clients && after == before
    ensures AllCame(script + [e], clients, after)
  {
    hide CameAt;
    var c := w.queue.clients;
    var shift := if |clients| > |c| then -1 else 0;
    forall k | 0 <= k < |clients| && k + shift >= 0
      ensures CameAt(script + [e], clients[k], after[k])
    {
      var i := if e.Departure? && e.listener < |before| && e.listener <= k then k + 1 else k + shift;
      assert SamePlace(c[i], clients[k]) && after[k] == before[i];
      StillCameAt(script, e, c[i], clients[k], before[i]);
    }
  }

  lemma StillCameAt(script: seq<Event>, e: Event, c: Client, d: Client, b: nat)
    requires CameAt(script, c, b) && SamePlace(c, d)
    ensures CameAt(script + [e], d, b)
  {
    hide Sources;
    assert (script + [e])[..b + 1] == script[..b + 1];
  }

  predicate SamePlace(c: Client, d: Client) { c.logged == d.logged && c.join == d.join }

  /** The listeners after the last event are those before, or one more, or one less. */
  lemma EventPlaces(script: seq<Event>, w: World, e: Event)
    requires script != [] && e == script[|script| - 1] && w == Play(script[..|script| - 1])
    requires Inv(w.queue) && |w.ended| == |w.queue.clients|
    ensures var n, c, d := |script| - 1, w.queue.clients, PlayEvent(w, e).queue.clients;
      match e
      case Request(sameRequest, tuned) =>
        if (w.queue.active && sameRequest) || tuned
        then |d| == |c| + 1 && d[1..] == c && CameAt(script, d[0], n) else d == c
      case Turn(_, _, _, _) => |d| == |c| && forall i :: 0 <= i < |c| ==> SamePlace(c[i], d[i])
      case Departure(k) => d == if k < |c| then c[..k] + c[k + 1..] else c
  {
    hide Inv, Take, HasRoom, EndsListening, Sources;
    SessionsAreSources(script);
    assert script[..|script|] == script;
    match e
    case Request(sameRequest, tuned) =>
      if w.queue.active && sameRequest {
        NewListenerStandsAtTheEnd(w.queue, Join);
      } else {
        NewListenerStandsAtTheEnd(w.queue, Replace);
      }
    case Turn(k, packed, due, filled) =>
      if IsListening(w, k) && Enabled(w.queue, StepOf(w.queue, k, packed, filled)) {
        PlacesAreKept(w.queue, StepOf(w.queue, k, packed, filled));
      }
    case Departure(k) => if k < |w.queue.clients| { OthersStay(w.queue, k); }
  }

  /** A chunk that was not there before the last event was produced in it. */
  lemma LastSource(script: seq<Event>, s: nat, p: nat)
    requires script != [] && s < |Sources(script)| && p < |Sources(script)[s]|
    ensures var init, e := script[..|script| - 1], script[|script| - 1];
      if s < |Sources(init)| && p < |Sources(init)[s]|
      then Sources(init)[s][p] == Sources(script)[s][p]
      else ProducesIn(Play(init), e) && e.filled == Some(Sources(script)[s][p])
           && s == |Sources(init)| - 1 && p == |Sources(init)[s]|
  {
    hide Play, IsListening, HasRoom;
  }

  /** What a session gained after event b, some later turn produced. */
  lemma {:induction false} ProducedLater(script: seq<Event>, b: nat, s: nat, p: nat) returns (e: nat)
    requires b <= |script| && s < |Sources(script)| && p < |Sources(script)[s]|
    requires s < |Sources(script[..b])| ==> |Sources(script[..b])[s]| <= p
    ensures b <= e < |script| && ProducesIn(Play(script[..e]), script[e])
    ensures script[e].filled == Some(Sources(script)[s][p])
    ensures s == |Sources(script[..e])| - 1 && p == |Sources(script[..e])[s]|
  {
    hide Play, ProducesIn, Sources;
    assert script[..|script|] == script;
    var init := script[..|script| - 1];
    LastSource(script, s, p);
    if s < |Sources(init)| && p < |Sources(init)[s]| {
      assert init[..b] == script[..b];
      e := ProducedLater(init, b, s, p);
      assert init[..e] == script[..e];
    } else {
      e := |script| - 1;
    }
  }

  /**
   * Whoever listens has been handed exactly what the source delivered to its session after its request, chunk by chunk:
   * nothing from before, and each chunk as it was delivered.
   */
  lemma HeardSinceTheRequest(script: seq<Event>, k: nat, j: nat) returns (b: nat, e: nat)
    requires k < |Play(script).queue.clients| && j < |Play(script).queue.clients[k].received|
    ensures var c := Play(script).queue.clients[k];
      && b < e < |script| && script[b].Request? && c.logged == |Sources(script[..b + 1])| - 1
      && ProducesIn(Play(script[..e]), script[e]) && script[e].filled == Some(c.received[j])
      && c.logged == |Sources(script[..e])| - 1
      && |Sources(script[..e])[c.logged]| == |Sources(script[..b + 1])[c.logged]| + j
  {
    hide Play, Sources, ProducesIn, Reachable;
    var q := Play(script).queue;
    var c := q.clients[k];
    ListenersJoinWhereTheyCome(script);
    b := Arrivals(script)[k];
    PlayIsReachable(script);
    EveryListenerIsServedWithoutGaps(q, Play(script).steps, k);
    SessionsAreSources(script);
    assert c.received[j] == q.history[c.logged][c.join + j];
    e := ProducedLater(script, b + 1, c.logged, c.join + j);
  }
}
