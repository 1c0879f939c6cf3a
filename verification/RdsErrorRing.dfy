/** The ring of the last fifty block verdicts that decides when synchronisation is lost. */
module RdsErrorRing {

  const RING_SIZE: nat := 50
  const MAX_ERRORS_TOLERATED: nat := 35

  type Flags = f: seq<bool> | |f| == RING_SIZE witness seq(RING_SIZE, i => false)
  type Position = p: nat | p < RING_SIZE

  datatype ErrorRing = ErrorRing(flags: Flags, pos: Position, count: nat, sum: int)

  function Cleared(): ErrorRing { ErrorRing(seq(RING_SIZE, i => false), 0, 0, 0) }

  function Weight(b: bool): nat { if b then 1 else 0 }

  function Push(r: ErrorRing, hadError: bool): ErrorRing
  {
    var dropped := if r.count == RING_SIZE then Weight(r.flags[r.pos]) else 0;
    ErrorRing(r.flags[r.pos := hadError],
              (r.pos + 1) % RING_SIZE,
              if r.count == RING_SIZE then r.count else r.count + 1,
              r.sum - dropped + Weight(hadError))
  }

  function Errors(verdicts: seq<bool>): nat
  {
    if verdicts == [] then 0 else Errors(verdicts[..|verdicts| - 1]) + Weight(verdicts[|verdicts| - 1])
  }

  /** The newest fifty verdicts, or all of them when there are fewer. */
  function Recent(verdicts: seq<bool>): seq<bool>
  {
    if |verdicts| <= RING_SIZE then verdicts else verdicts[|verdicts| - RING_SIZE..]
  }

  /** The ring describes the verdicts passed since it was last cleared. */
  predicate Describes(r: ErrorRing, verdicts: seq<bool>)
  {
    && r.count == |Recent(verdicts)|
    && r.sum == Errors(Recent(verdicts))
    && r.pos == |verdicts| % RING_SIZE
    && forall j :: 0 <= j < |verdicts| && |verdicts| - RING_SIZE <= j ==> r.flags[j % RING_SIZE] == verdicts[j]
  }

  lemma {:induction false} ErrorsFirst(verdicts: seq<bool>)
    requires verdicts != []
    ensures Errors(verdicts) == Weight(verdicts[0]) + Errors(verdicts[1..])
  {
    var n := |verdicts| - 1;
    if n > 0 {
      ErrorsFirst(verdicts[..n]);
      assert verdicts[1..][..n - 1] == verdicts[..n][1..];
    }
  }

  lemma RecentStep(verdicts: seq<bool>, e: bool)
    ensures Errors(Recent(verdicts + [e])) == Errors(Recent(verdicts)) + Weight(e)
                - (if |verdicts| >= RING_SIZE then Weight(verdicts[|verdicts| - RING_SIZE]) else 0)
    ensures |Recent(verdicts + [e])| == if |verdicts| >= RING_SIZE then RING_SIZE else |verdicts| + 1
  {
    var recent := Recent(verdicts);
    assert (recent + [e])[..|recent|] == recent;
    if |verdicts| >= RING_SIZE {
      ErrorsFirst(recent + [e]);
      assert Recent(verdicts + [e]) == (recent + [e])[1..];
    } else {
      assert Recent(verdicts + [e]) == recent + [e];
    }
  }

  lemma SlotsStayDistinct(n: nat, j: nat)
    requires j < n < j + RING_SIZE
    ensures j % RING_SIZE != n % RING_SIZE
  {}

  lemma SlotAfterPush(r: ErrorRing, verdicts: seq<bool>, e: bool, j: nat)
    requires Describes(r, verdicts)
    requires j <= |verdicts| < j + RING_SIZE
    ensures Push(r, e).flags[j % RING_SIZE] == (verdicts + [e])[j]
  {
    hide Recent, Errors;
    if j < |verdicts| { SlotsStayDistinct(|verdicts|, j); }
  }

  lemma OldestSlot(r: ErrorRing, verdicts: seq<bool>)
    requires Describes(r, verdicts) && |verdicts| >= RING_SIZE
    ensures r.flags[r.pos] == verdicts[|verdicts| - RING_SIZE]
  {
    hide Errors;
    assert (|verdicts| - RING_SIZE) % RING_SIZE == |verdicts| % RING_SIZE;
  }

  lemma NumbersAfterPush(r: ErrorRing, verdicts: seq<bool>, e: bool)
    requires Describes(r, verdicts)
    ensures var p, n := Push(r, e), |verdicts|;
      && p.pos == (n + 1) % RING_SIZE && p.count == (if n >= RING_SIZE then RING_SIZE else n + 1)
      && p.sum == r.sum + Weight(e) - (if n >= RING_SIZE then Weight(verdicts[n - RING_SIZE]) else 0)
  {
    hide Errors;
    NextSlot(|verdicts|);
    if |verdicts| >= RING_SIZE { OldestSlot(r, verdicts); }
  }

  lemma NextSlot(n: nat)
    ensures (n % RING_SIZE + 1) % RING_SIZE == (n + 1) % RING_SIZE
  {}

  /** After every push the sum is the number of errors among the newest fifty verdicts. */
  lemma PushDescribes(r: ErrorRing, verdicts: seq<bool>, e: bool)
    requires Describes(r, verdicts)
    ensures Describes(Push(r, e), verdicts + [e])
  {
    hide Errors, Recent, Push;
    RecentStep(verdicts, e);
    NumbersAfterPush(r, verdicts, e);
    forall j | 0 <= j < |verdicts| + 1 && |verdicts| + 1 - RING_SIZE <= j
      ensures Push(r, e).flags[j % RING_SIZE] == (verdicts + [e])[j]
    {
      SlotAfterPush(r, verdicts, e, j);
    }
  }

  lemma ClearedDescribes()
    ensures Describes(Cleared(), [])
  {}
}
