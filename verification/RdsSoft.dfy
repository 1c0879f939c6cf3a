/** The second corrector: flip up to three of the six least confident bits. */
module RdsSoft {
  import opened Common
  import opened RdsCode
  import opened RdsBurst

  const CANDIDATE_BITS: nat := 6

  /** An index into the confidence register; register index i belongs to bit 25 - i of the block. */
  type Slot = i: nat | i < BLOCK_LENGTH

  type Confidences = c: seq<real> | |c| == BLOCK_LENGTH witness seq(BLOCK_LENGTH, i => 0.0)

  // ---------------------------------------------------------------- the weakest bits

  /** Where a bit of confidence c goes: before the first strictly more confident candidate. */
  function Position(conf: Confidences, w: seq<Slot>, c: real): (p: nat)
    ensures p <= |w|
  {
    if w == [] || c < conf[w[0]] then 0 else 1 + Position(conf, w[1..], c)
  }

  function Truncate(w: seq<Slot>): seq<Slot>
  {
    if |w| <= CANDIDATE_BITS then w else w[..CANDIDATE_BITS]
  }

  function InsertAt(w: seq<Slot>, p: nat, i: Slot): seq<Slot>
    requires p <= |w|
  {
    w[..p] + [i] + w[p..]
  }

  /** The candidates kept after looking at the first n bits of the register. */
  function Weakest(conf: Confidences, n: nat): seq<Slot>
    requires n <= BLOCK_LENGTH
  {
    if n == 0 then []
    else
      var w := Weakest(conf, n - 1);
      Truncate(InsertAt(w, Position(conf, w, conf[n - 1]), n - 1))
  }

  /** Bit i comes before bit j: it is less confident, or equally confident and received earlier. */
  predicate Before(conf: Confidences, i: Slot, j: Slot)
  {
    conf[i] < conf[j] || (conf[i] == conf[j] && i < j)
  }

  predicate Ordered(conf: Confidences, w: seq<Slot>)
  {
    forall k, l :: 0 <= k < l < |w| ==> Before(conf, w[k], w[l])
  }

  /** w lists the weakest of the first n bits, at most six of them, weakest first. */
  predicate IsSelection(conf: Confidences, w: seq<Slot>, n: nat)
    requires n <= BLOCK_LENGTH
  {
    && |w| == (if n < CANDIDATE_BITS then n else CANDIDATE_BITS)
    && (forall k :: 0 <= k < |w| ==> w[k] < n)
    && Ordered(conf, w)
    && (forall j: Slot :: j < n && j !in w ==> |w| == CANDIDATE_BITS && Before(conf, w[CANDIDATE_BITS - 1], j))
  }

  lemma {:induction false} PositionSplits(conf: Confidences, w: seq<Slot>, c: real)
    requires Ordered(conf, w)
    ensures var p := Position(conf, w, c);
      && (forall k :: 0 <= k < p ==> conf[w[k]] <= c)
      && (forall k :: p <= k < |w| ==> c < conf[w[k]])
  {
    if w != [] {
      PositionSplits(conf, w[1..], c);
      assert forall k :: 0 < k < |w| ==> w[k] == w[1..][k - 1] && Before(conf, w[0], w[k]);
    }
  }

  lemma InsertAtMembers(w: seq<Slot>, p: nat, i: Slot)
    requires p <= |w|
    ensures forall j :: j in InsertAt(w, p, i) <==> j == i || j in w
  {
    assert w == w[..p] + w[p..];
  }

  lemma InsertKeepsOrder(conf: Confidences, w: seq<Slot>, n: Slot)
    requires Ordered(conf, w) && forall k :: 0 <= k < |w| ==> w[k] < n
    ensures Ordered(conf, InsertAt(w, Position(conf, w, conf[n]), n))
  {
    hide Position, InsertAt;
    PositionSplits(conf, w, conf[n]);
    var p := Position(conf, w, conf[n]);
    var full := InsertAt(w, p, n);
    InsertAtElements(w, p, n);
    forall k, l | 0 <= k < l < |full|
      ensures Before(conf, full[k], full[l])
    {
      if l < p {
        assert Before(conf, w[k], w[l]);
      } else if k > p {
        assert Before(conf, w[k - 1], w[l - 1]);
      } else if l == p {
        assert conf[w[k]] <= conf[n] && w[k] < n;
      } else if k == p {
        assert conf[n] < conf[w[l - 1]];
      } else {
        assert Before(conf, w[k], w[l - 1]);
      }
    }
  }

  lemma InsertAtElements(w: seq<Slot>, p: nat, i: Slot)
    requires p <= |w|
    ensures var full := InsertAt(w, p, i);
      |full| == |w| + 1 && forall k :: 0 <= k < |full| ==>
          full[k] == if k < p then w[k] else if k == p then i else w[k - 1]
  {}

  lemma TruncateKeepsSelection(conf: Confidences, full: seq<Slot>, n: nat)
    requires n <= BLOCK_LENGTH && Ordered(conf, full)
    requires forall k :: 0 <= k < |full| ==> full[k] < n
    requires |full| == if n < 7 then n else 7
    requires forall j: Slot :: j < n && j !in full ==> |full| == 7 && Before(conf, full[5], j)
    ensures IsSelection(conf, Truncate(full), n)
  {
    var r := Truncate(full);
    if |full| == 7 {
      assert full == r + [full[6]];
      assert Before(conf, full[5], full[6]);
    }
  }

  lemma SixthIsNoLater(conf: Confidences, w: seq<Slot>, p: nat, i: Slot)
    requires |w| == 6 && p <= 6 && Ordered(conf, w) && Ordered(conf, InsertAt(w, p, i))
    ensures InsertAt(w, p, i)[5] == w[5] || Before(conf, InsertAt(w, p, i)[5], w[5])
  {
    if p < 6 {
      assert InsertAt(w, p, i)[6] == w[5];
    }
  }

  lemma InsertKeepsSelection(conf: Confidences, w: seq<Slot>, n: Slot)
    requires IsSelection(conf, w, n)
    ensures IsSelection(conf, Truncate(InsertAt(w, Position(conf, w, conf[n]), n)), n + 1)
  {
    var p := Position(conf, w, conf[n]);
    var full := InsertAt(w, p, n);
    InsertKeepsOrder(conf, w, n);
    InsertAtMembers(w, p, n);
    forall j: Slot | j < n + 1 && j !in full
      ensures |full| == 7 && Before(conf, full[5], j)
    {
      assert j !in w;
      SixthIsNoLater(conf, w, p, n);
    }
    assert forall k :: 0 <= k < |full| ==> full[k] in full;
    TruncateKeepsSelection(conf, full, n + 1);
  }

  /** The insertion loop keeps the weakest bits in order, ties resolved to the earlier bit. */
  lemma {:induction false} WeakestIsSelection(conf: Confidences, n: nat)
    requires n <= BLOCK_LENGTH
    ensures IsSelection(conf, Weakest(conf, n), n)
  {
    hide IsSelection, Truncate, InsertAt;
    if n > 0 {
      WeakestIsSelection(conf, n - 1);
      InsertKeepsSelection(conf, Weakest(conf, n - 1), n - 1);
    } else {
      NothingSelected(conf);
    }
  }

  lemma NothingSelected(conf: Confidences)
    ensures IsSelection(conf, [], 0)
  {}

  /** Holds between iterations: the first slots are the candidates w, with their confidences beside them. */
  ghost predicate Holds(conf: Confidences, weakestConfidence: array<real>, weakestIndex: array<Slot>, w: seq<Slot>)
    reads weakestConfidence, weakestIndex
  {
    && weakestConfidence.Length == CANDIDATE_BITS && weakestIndex.Length == CANDIDATE_BITS
    && |w| <= CANDIDATE_BITS
    && (forall k :: 0 <= k < |w| ==> weakestIndex[k] == w[k] && weakestConfidence[k] == conf[w[k]])
  }

  method FindPosition(ghost conf: Confidences, weakestConfidence: array<real>, ghost weakestIndex: array<Slot>,
                      candidateCount: nat, c: real, ghost w: seq<Slot>)
      returns (insertAt: nat)
    requires Holds(conf, weakestConfidence, weakestIndex, w) && candidateCount == |w|
    ensures insertAt == Position(conf, w, c)
  {
    insertAt := 0;
    while insertAt < candidateCount && c >= weakestConfidence[insertAt]
      invariant insertAt <= candidateCount
      invariant insertAt + Position(conf, w[insertAt..], c) == Position(conf, w, c)
    {
      assert w[insertAt..][1..] == w[insertAt + 1..];
      insertAt := insertAt + 1;
    }
  }

  /** Moves the candidates from `insertAt` on one place up; the last of six falls off. */
  method MakeRoom(ghost conf: Confidences, weakestConfidence: array<real>, weakestIndex: array<Slot>,
                  candidateCount: nat, insertAt: nat, ghost w: seq<Slot>)
    requires Holds(conf, weakestConfidence, weakestIndex, w)
    requires insertAt < candidateCount <= CANDIDATE_BITS && candidateCount - 1 <= |w| <= candidateCount
    modifies weakestConfidence, weakestIndex
    ensures forall k :: 0 <= k < insertAt ==> weakestIndex[k] == w[k] && weakestConfidence[k] == conf[w[k]]
    ensures forall k :: insertAt < k < candidateCount ==>
                          weakestIndex[k] == w[k - 1] && weakestConfidence[k] == conf[w[k - 1]]
  {
    var move := candidateCount - 1;
    while move > insertAt
      invariant insertAt <= move < candidateCount
      invariant forall k :: 0 <= k <= move && k < |w| ==> weakestIndex[k] == w[k] && weakestConfidence[k] == conf[w[k]]
      invariant forall k :: move < k < candidateCount ==>
                              weakestIndex[k] == w[k - 1] && weakestConfidence[k] == conf[w[k - 1]]
    {
      weakestConfidence[move] := weakestConfidence[move - 1];
      weakestIndex[move] := weakestIndex[move - 1];
      move := move - 1;
    }
  }

  lemma NextCandidates(w: seq<Slot>, p: nat, i: Slot)
    requires p <= |w| <= CANDIDATE_BITS
    ensures var next := Truncate(InsertAt(w, p, i));
      && |next| == (if |w| < CANDIDATE_BITS then |w| + 1 else |w|)
      && (p == CANDIDATE_BITS ==> next == w)
      && forall k :: 0 <= k < |next| ==> next[k] == if k < p then w[k] else if k == p then i else w[k - 1]
  {}

  method Consider(ghost conf: Confidences, weakestConfidence: array<real>, weakestIndex: array<Slot>,
                  count: nat, bitIndex: Slot, c: real, ghost w: seq<Slot>)
      returns (candidateCount: nat)
    requires Holds(conf, weakestConfidence, weakestIndex, w) && count == |w| && c == conf[bitIndex]
    modifies weakestConfidence, weakestIndex
    ensures var next := Truncate(InsertAt(w, Position(conf, w, c), bitIndex));
      Holds(conf, weakestConfidence, weakestIndex, next) && candidateCount == |next|
  {
    hide Position, Truncate, InsertAt;
    candidateCount := count;
    var insertAt := FindPosition(conf, weakestConfidence, weakestIndex, candidateCount, c, w);
    NextCandidates(w, insertAt, bitIndex);
    if insertAt < CANDIDATE_BITS {
      if candidateCount < CANDIDATE_BITS {
        candidateCount := candidateCount + 1;
      }
      MakeRoom(conf, weakestConfidence, weakestIndex, candidateCount, insertAt, w);
      weakestConfidence[insertAt] := c;
      weakestIndex[insertAt] := bitIndex;
      ghost var next := Truncate(InsertAt(w, insertAt, bitIndex));
      assert candidateCount == |next|;
      forall k | 0 <= k < |next|
        ensures weakestIndex[k] == next[k] && weakestConfidence[k] == conf[next[k]]
      {
        assert next[k] == if k < insertAt then w[k] else if k == insertAt then bitIndex else w[k - 1];
      }
    }
  }

  method SelectWeakest(confidence: array<real>, weakestConfidence: array<real>, weakestIndex: array<Slot>)
      returns (candidateCount: nat)
    requires confidence.Length == BLOCK_LENGTH
    requires weakestConfidence.Length == CANDIDATE_BITS && weakestIndex.Length == CANDIDATE_BITS
    requires confidence != weakestConfidence
    modifies weakestConfidence, weakestIndex
    ensures candidateCount == CANDIDATE_BITS
    ensures weakestIndex[..] == Weakest(confidence[..], BLOCK_LENGTH)
    ensures confidence[..] == old(confidence[..])
    ensures forall k :: 0 <= k < CANDIDATE_BITS ==> weakestConfidence[k] == confidence[weakestIndex[k]]
  {
    hide Position, Truncate, InsertAt;
    ghost var conf: Confidences := confidence[..];
    candidateCount := 0;
    for bitIndex := 0 to BLOCK_LENGTH
      invariant confidence[..] == conf
      invariant Holds(conf, weakestConfidence, weakestIndex, Weakest(conf, bitIndex))
      invariant candidateCount == |Weakest(conf, bitIndex)|
    {
      assert confidence[bitIndex] == conf[bitIndex];
      candidateCount := Consider(conf, weakestConfidence, weakestIndex, candidateCount, bitIndex,
                                 confidence[bitIndex], Weakest(conf, bitIndex));
    }
    WeakestIsSelection(conf, BLOCK_LENGTH);
    assert weakestIndex[..] == Weakest(conf, BLOCK_LENGTH);
  }

  // ---------------------------------------------------------------- the search

  const MAX_FLIPS: nat := 3

  function Members(w: seq<Slot>): set<Slot> { set i | i in w }

  /** The block with ones at the bits whose register indices are in s. */
  function Mask(s: set<Slot>): Word
  {
    seq(BLOCK_LENGTH, i requires 0 <= i < BLOCK_LENGTH => i in s)
  }

  predicate Hits(raw: Word, target: Bits10, s: set<Slot>)
  {
    Syndrome(Xor(raw, Mask(s))) == target
  }

  /** The first set that hits, adding `size` of the candidates from `start` on, in lexicographic order. */
  function FirstHit(raw: Word, target: Bits10, w: seq<Slot>, size: nat, start: nat,
                    chosen: set<Slot>): Option<set<Slot>>
    requires start <= |w|
    decreases |w| - start
  {
    if size == 0 then (if Hits(raw, target, chosen) then Some(chosen) else None)
    else if start == |w| then None
    else
      var taken := FirstHit(raw, target, w, size - 1, start + 1, chosen + {w[start]});
      if taken.Some? then taken else FirstHit(raw, target, w, size, start + 1, chosen)
  }

  function Flipped(raw: Word, s: Option<set<Slot>>, flips: nat): Correction
  {
    if s.Some? then Correction(Xor(raw, Mask(s.value)), flips, true) else Correction(raw, 0, false)
  }

  /** Fewer flips first. */
  function FewestFlips(raw: Word, target: Bits10, w: seq<Slot>, size: nat): Correction
    requires size <= MAX_FLIPS + 1
    decreases |raw|, MAX_FLIPS + 1 - size
  {
    if size > MAX_FLIPS then Correction(raw, 0, false)
    else
      var hit := FirstHit(raw, target, w, size, 0, {});
      if hit.Some? then Flipped(raw, hit, size) else FewestFlips(raw, target, w, size + 1)
  }

  /** The corrector with the syndrome it aims for as a parameter. */
  function SoftSearch(raw: Word, target: Bits10, conf: Confidences): Correction
  {
    FewestFlips(raw, target, Weakest(conf, BLOCK_LENGTH), 1)
  }

  /** The corrector as the decoder calls it: the target is the offset word, not its syndrome. */
  function SoftCorrection(raw: Word, expected: Offset, conf: Confidences): Correction
  {
    SoftSearch(raw, OffsetWord(expected), conf)
  }

  method TrySingles(raw: Word, target: Bits10, w: array<Slot>) returns (result: Correction)
    ensures result == Flipped(raw, FirstHit(raw, target, w[..], 1, 0, {}), 1)
  {
    hide Syndrome, Xor, Mask;
    for i := 0 to w.Length
      invariant FirstHit(raw, target, w[..], 1, 0, {}) == FirstHit(raw, target, w[..], 1, i, {})
    {
      var flips := {w[i]};
      assert {} + {w[i]} == flips;
      var syndrome := CalculateSyndrome(Xor(raw, Mask(flips)));
      if syndrome == target {
        return Correction(Xor(raw, Mask(flips)), 1, true);
      }
    }
    return Correction(raw, 0, false);
  }

  method TryPairs(raw: Word, target: Bits10, w: array<Slot>) returns (result: Correction)
    ensures result == Flipped(raw, FirstHit(raw, target, w[..], 2, 0, {}), 2)
  {
    hide Syndrome, Xor, Mask;
    for i := 0 to w.Length
      invariant FirstHit(raw, target, w[..], 2, 0, {}) == FirstHit(raw, target, w[..], 2, i, {})
    {
      assert {} + {w[i]} == {w[i]};
      for j := i + 1 to w.Length
        invariant FirstHit(raw, target, w[..], 1, i + 1, {w[i]}) == FirstHit(raw, target, w[..], 1, j, {w[i]})
      {
        var flips := {w[i]} + {w[j]};
        var syndrome := CalculateSyndrome(Xor(raw, Mask(flips)));
        if syndrome == target {
          return Correction(Xor(raw, Mask(flips)), 2, true);
        }
      }
    }
    return Correction(raw, 0, false);
  }

  method TryTriples(raw: Word, target: Bits10, w: array<Slot>) returns (result: Correction)
    ensures result == Flipped(raw, FirstHit(raw, target, w[..], 3, 0, {}), 3)
  {
    hide Syndrome, Xor, Mask;
    for i := 0 to w.Length
      invariant FirstHit(raw, target, w[..], 3, 0, {}) == FirstHit(raw, target, w[..], 3, i, {})
    {
      assert {} + {w[i]} == {w[i]};
      for j := i + 1 to w.Length
        invariant FirstHit(raw, target, w[..], 2, i + 1, {w[i]}) == FirstHit(raw, target, w[..], 2, j, {w[i]})
      {
        for k := j + 1 to w.Length
          invariant FirstHit(raw, target, w[..], 1, j + 1, {w[i]} + {w[j]})
                 == FirstHit(raw, target, w[..], 1, k, {w[i]} + {w[j]})
        {
          var flips := {w[i]} + {w[j]} + {w[k]};
          var syndrome := CalculateSyndrome(Xor(raw, Mask(flips)));
          if syndrome == target {
            return Correction(Xor(raw, Mask(flips)), 3, true);
          }
        }
      }
    }
    return Correction(raw, 0, false);
  }

  method CorrectSoftErrors(rawBlock: Word, expectedOffset: Offset, confidence: array<real>) returns (result: Correction)
    requires confidence.Length == BLOCK_LENGTH
    ensures result == SoftCorrection(rawBlock, expectedOffset, confidence[..])
  {
    hide FirstHit, FewestFlips, Weakest, Xor, Mask;
    var target := OffsetWord(expectedOffset);
    var weakestConfidence := new real[CANDIDATE_BITS];
    var weakestIndex := new Slot[CANDIDATE_BITS];
    var candidateCount := SelectWeakest(confidence, weakestConfidence, weakestIndex);
    FewestFlipsIs(rawBlock, target, weakestIndex[..]);
    result := TrySingles(rawBlock, target, weakestIndex);
    if !result.succeeded && candidateCount >= 2 {
      result := TryPairs(rawBlock, target, weakestIndex);
    }
    if !result.succeeded && candidateCount >= 3 {
      result := TryTriples(rawBlock, target, weakestIndex);
    }
  }

  lemma FewestFlipsIs(raw: Word, target: Bits10, w: seq<Slot>)
    ensures var one, two := FirstHit(raw, target, w, 1, 0, {}), FirstHit(raw, target, w, 2, 0, {});
      FewestFlips(raw, target, w, 1)
      == if one.Some? then Flipped(raw, one, 1) else if two.Some? then Flipped(raw, two, 2)
         else Flipped(raw, FirstHit(raw, target, w, 3, 0, {}), 3)
  {
    hide FirstHit, Xor, Mask;
    assert FewestFlips(raw, target, w, 4) == Correction(raw, 0, false);
    assert FewestFlips(raw, target, w, 3) == Flipped(raw, FirstHit(raw, target, w, 3, 0, {}), 3);
  }

  // ---------------------------------------------------------------- what the search finds

  lemma MembersStep(w: seq<Slot>, start: nat)
    requires start < |w|
    ensures Members(w[start..]) == {w[start]} + Members(w[start + 1..])
  {
    assert w[start..] == [w[start]] + w[start + 1..];
  }

  lemma {:induction false} FirstHitIsSound(raw: Word, target: Bits10, w: seq<Slot>, size: nat, start: nat,
                                           chosen: set<Slot>) returns (t: set<Slot>)
    requires start <= |w|
    requires forall k, l :: 0 <= k < l < |w| ==> w[k] != w[l]
    requires FirstHit(raw, target, w, size, start, chosen).Some?
    ensures t <= Members(w[start..]) && |t| == size
    ensures FirstHit(raw, target, w, size, start, chosen) == Some(chosen + t) && Hits(raw, target, chosen + t)
    decreases |w| - start
  {
    hide Hits;
    if size == 0 {
      t := {};
      assert chosen + t == chosen;
    } else {
      MembersStep(w, start);
      if FirstHit(raw, target, w, size - 1, start + 1, chosen + {w[start]}).Some? {
        var u := FirstHitIsSound(raw, target, w, size - 1, start + 1, chosen + {w[start]});
        assert w[start] !in Members(w[start + 1..]);
        t := {w[start]} + u;
        assert chosen + {w[start]} + u == chosen + t;
      } else {
        t := FirstHitIsSound(raw, target, w, size, start + 1, chosen);
      }
    }
  }

  lemma {:induction false} FirstHitIsComplete(raw: Word, target: Bits10, w: seq<Slot>, size: nat, start: nat,
                                              chosen: set<Slot>, t: set<Slot>)
    requires start <= |w|
    requires FirstHit(raw, target, w, size, start, chosen).None?
    requires t <= Members(w[start..]) && |t| == size
    ensures !Hits(raw, target, chosen + t)
    decreases |w| - start
  {
    hide Hits;
    if size == 0 {
      assert chosen + t == chosen;
    } else {
      var x :| x in t;
      assert start < |w|;
      MembersStep(w, start);
      assert FirstHit(raw, target, w, size - 1, start + 1, chosen + {w[start]}).None?;
      assert FirstHit(raw, target, w, size, start + 1, chosen).None?;
      hide FirstHit, Members;
      if w[start] in t {
        var u := t - {w[start]};
        assert chosen + {w[start]} + u == chosen + t;
        FirstHitIsComplete(raw, target, w, size - 1, start + 1, chosen + {w[start]}, u);
      } else {
        FirstHitIsComplete(raw, target, w, size, start + 1, chosen, t);
      }
    }
  }

  /** s is a choice of one to three of the weakest bits whose flipping gives the target syndrome. */
  predicate Repair(raw: Word, target: Bits10, conf: Confidences, s: set<Slot>)
  {
    s <= Members(Weakest(conf, BLOCK_LENGTH)) && 1 <= |s| <= MAX_FLIPS && Hits(raw, target, s)
  }

  lemma {:induction false} FewestFlipsOutcome(raw: Word, target: Bits10, conf: Confidences, size: nat)
      returns (s: set<Slot>)
    requires 1 <= size <= MAX_FLIPS + 1
    ensures var r := FewestFlips(raw, target, Weakest(conf, BLOCK_LENGTH), size);
      if r.succeeded
      then Repair(raw, target, conf, s) && r == Correction(Xor(raw, Mask(s)), |s|, true)
           && forall t :: Repair(raw, target, conf, t) ==> |t| < size || |s| <= |t|
      else r == Correction(raw, 0, false) && forall t :: Repair(raw, target, conf, t) ==> |t| < size
    decreases MAX_FLIPS + 1 - size
  {
    hide Hits, Xor, Mask, FirstHit;
    var w := Weakest(conf, BLOCK_LENGTH);
    WeakestIsSelection(conf, BLOCK_LENGTH);
    assert w[0..] == w;
    s := {};
    if size <= MAX_FLIPS {
      if FirstHit(raw, target, w, size, 0, {}).Some? {
        s := FirstHitIsSound(raw, target, w, size, 0, {});
        assert {} + s == s;
      } else {
        s := FewestFlipsOutcome(raw, target, conf, size + 1);
        forall t | Repair(raw, target, conf, t)
          ensures |t| != size
        {
          if |t| == size {
            assert {} + t == t;
            FirstHitIsComplete(raw, target, w, size, 0, {}, t);
          }
        }
      }
    }
  }

  /** Sound, minimal and complete for whatever syndrome the search aims for. */
  lemma SoftSearchOutcome(raw: Word, target: Bits10, conf: Confidences)
    ensures var r := SoftSearch(raw, target, conf);
      && (r.succeeded <==> exists s :: Repair(raw, target, conf, s))
      && (r.succeeded ==> exists s :: Repair(raw, target, conf, s)
                                      && r == Correction(Xor(raw, Mask(s)), |s|, true)
                                      && forall t :: Repair(raw, target, conf, t) ==> |s| <= |t|)
      && (r.succeeded ==> Syndrome(r.correctedBits) == target)
      && (!r.succeeded ==> r == Correction(raw, 0, false))
  {
    var s := FewestFlipsOutcome(raw, target, conf, 1);
  }

  lemma OffsetWordsAreNoSyndromes(o: Offset, p: Offset)
    ensures OffsetForSyndrome(OffsetWord(o)) == Invalid
    ensures o != Invalid ==> OffsetWord(o) != OffsetSyndrome(p)
  {}

  /** With the offset word as target, a soft-corrected word is a block of no offset at all. */
  lemma SoftCorrectedWordHasNoOffset(raw: Word, expected: Offset, conf: Confidences)
    requires SoftCorrection(raw, expected, conf).succeeded
    ensures OffsetForSyndrome(Syndrome(SoftCorrection(raw, expected, conf).correctedBits)) == Invalid
  {
    SoftSearchOutcome(raw, OffsetWord(expected), conf);
    OffsetWordsAreNoSyndromes(expected, expected);
  }

  /** A search reaches a block with the expected offset exactly when it aims for that offset's syndrome. */
  lemma SoftTargetDecides(raw: Word, target: Bits10, expected: Offset, conf: Confidences)
    requires SoftSearch(raw, target, conf).succeeded
    ensures Syndrome(SoftSearch(raw, target, conf).correctedBits) == OffsetSyndrome(expected)
       <==> target == OffsetSyndrome(expected)
  {
    SoftSearchOutcome(raw, target, conf);
  }
}
