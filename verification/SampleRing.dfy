/** The byte ring between the receiver's callback and the pipeline: a first-in first-out queue that drops its oldest
    bytes when it overflows. */
module SampleRing {
  import opened Common
  import opened Bytes

  // ---------------------------------------------------------------- the queue

  /** The last n items of s, or all of them. */
  function Newest<T>(s: seq<T>, n: nat): seq<T>
  {
    if |s| <= n then s else s[|s| - n..]
  }

  function Pushed<T>(contents: seq<T>, input: seq<T>, capacity: nat): seq<T> { Newest(contents + input, capacity) }

  function PushedAll<T>(contents: seq<T>, inputs: seq<seq<T>>, capacity: nat): seq<T>
    decreases |inputs|
  {
    if inputs == [] then contents else PushedAll(Pushed(contents, inputs[0], capacity), inputs[1..], capacity)
  }

  datatype ReadOutcome<T> = ReadOutcome(items: seq<T>, contents: seq<T>, complete: bool)

  /** A blocking read: take the oldest items; on an empty queue wait, and find what was pushed during the wait
      (one element of `waits` a wait); when nothing more will come the read fails. */
  function ReadFrom<T>(contents: seq<T>, need: nat, waits: seq<seq<seq<T>>>, capacity: nat): ReadOutcome<T>
    decreases |waits|, need
  {
    if need == 0 then ReadOutcome([], contents, true)
    else if contents != [] then
      var m := Min(need, |contents|);
      var rest := ReadFrom(contents[m..], need - m, waits, capacity);
      ReadOutcome(contents[..m] + rest.items, rest.contents, rest.complete)
    else if waits == [] then ReadOutcome([], [], false)
    else ReadFrom(PushedAll([], waits[0], capacity), need, waits[1..], capacity)
  }

  lemma ReadUnfolds<T>(contents: seq<T>, need: nat, waits: seq<seq<seq<T>>>, capacity: nat)
    requires need > 0
    ensures contents != [] ==>
      var m := Min(need, |contents|);
      var rest := ReadFrom(contents[m..], need - m, waits, capacity);
      ReadFrom(contents, need, waits, capacity) == ReadOutcome(contents[..m] + rest.items, rest.contents, rest.complete)
    ensures contents == [] && waits == [] ==> ReadFrom(contents, need, waits, capacity) == ReadOutcome([], [], false)
  {}

  lemma WaitUnfolds<T>(need: nat, waits: seq<seq<seq<T>>>, capacity: nat)
    requires need > 0 && waits != []
    ensures ReadFrom([], need, waits, capacity)
         == ReadFrom(PushedAll([], waits[0], capacity), need, waits[1..], capacity)
  {}

  lemma ReadNothing<T>(contents: seq<T>, waits: seq<seq<seq<T>>>, capacity: nat)
    ensures ReadFrom(contents, 0, waits, capacity) == ReadOutcome([], contents, true)
  {}

  /** How the input is cut into pushes makes no difference. */
  lemma PushedInPieces<T>(contents: seq<T>, a: seq<T>, b: seq<T>, capacity: nat)
    ensures Pushed(Pushed(contents, a, capacity), b, capacity) == Pushed(contents, a + b, capacity)
  {
    assert contents + (a + b) == contents + a + b;
    var dropped := |contents + a| - |Newest(contents + a, capacity)|;
    assert Newest(contents + a, capacity) + b == (contents + a + b)[dropped..];
  }

  /** Only the oldest items are dropped, and only from a queue that stays full. */
  lemma OnlyTheOldestAreDropped<T>(contents: seq<T>, input: seq<T>, capacity: nat) returns (dropped: seq<T>)
    ensures dropped + Pushed(contents, input, capacity) == contents + input
    ensures dropped != [] ==> |Pushed(contents, input, capacity)| == capacity
  {
    var all := contents + input;
    dropped := all[..|all| - |Newest(all, capacity)|];
  }

  function Joined<T>(pieces: seq<seq<T>>): seq<T>
  {
    if pieces == [] then [] else pieces[0] + Joined(pieces[1..])
  }

  /** Everything pushed during the waits. */
  function AllPushed<T>(waits: seq<seq<seq<T>>>): seq<T>
  {
    if waits == [] then [] else Joined(waits[0]) + AllPushed(waits[1..])
  }

  lemma {:induction false} PushedAllFits<T>(contents: seq<T>, inputs: seq<seq<T>>, capacity: nat)
    requires |contents| + |Joined(inputs)| <= capacity
    ensures PushedAll(contents, inputs, capacity) == contents + Joined(inputs)
    decreases |inputs|
  {
    if inputs == [] {
      assert contents + [] == contents;
    } else {
      PushedAllFits(contents + inputs[0], inputs[1..], capacity);
      assert contents + inputs[0] + Joined(inputs[1..]) == contents + Joined(inputs);
    }
  }

  /** A read loses and reorders nothing: as long as everything fits, what it delivers and what it leaves are what was
      there and what was pushed in the waits it needed, in order; and it is complete unless nothing more comes. */
  lemma {:induction false} ReadIsInOrder<T>(contents: seq<T>, need: nat, waits: seq<seq<seq<T>>>, capacity: nat)
      returns (n: nat)
    requires |contents| + |AllPushed(waits)| <= capacity
    ensures var r := ReadFrom(contents, need, waits, capacity);
      && n <= |waits| && r.items + r.contents == contents + AllPushed(waits[..n])
      && |r.items| <= need && (r.complete <==> |r.items| == need)
      && (!r.complete ==> n == |waits| && r.contents == [])
    decreases |waits|, need
  {
    hide ReadFrom, PushedAll, Joined, AllPushed;
    n := 0;
    if need == 0 {
      ReadNothing(contents, waits, capacity);
      WaitsStep(waits[..0], 0);
      assert contents + [] == contents == [] + contents;
      return;
    }
    ReadUnfolds(contents, need, waits, capacity);
    if contents != [] {
      var m := Min(need, |contents|);
      n := ReadIsInOrder(contents[m..], need - m, waits, capacity);
      var rest := ReadFrom(contents[m..], need - m, waits, capacity);
      StillInOrder(contents, m, rest.items, rest.contents, AllPushed(waits[..n]));
    } else if waits == [] {
      WaitsStep(waits, 0);
      assert waits[..0] == waits;
    } else {
      WaitsStep(waits, 0);
      PushedAllFits([], waits[0], capacity);
      assert [] + Joined(waits[0]) == Joined(waits[0]);
      WaitUnfolds(need, waits, capacity);
      var l := ReadIsInOrder(Joined(waits[0]), need, waits[1..], capacity);
      n := l + 1;
      WaitsStep(waits, l);
      assert contents + AllPushed(waits[..n]) == AllPushed(waits[..n]);
    }
  }

  lemma StillInOrder<T>(contents: seq<T>, m: nat, items: seq<T>, rest: seq<T>, all: seq<T>)
    requires m <= |contents| && items + rest == contents[m..] + all
    ensures contents[..m] + items + rest == contents + all
  {
    assert contents[..m] + items + rest == contents[..m] + (contents[m..] + all);
    assert contents[..m] + contents[m..] == contents;
  }

  lemma WaitsStep<T>(waits: seq<seq<seq<T>>>, l: nat)
    ensures waits == [] ==> AllPushed(waits) == []
    ensures l < |waits| ==> AllPushed(waits[..l + 1]) == Joined(waits[0]) + AllPushed(waits[1..][..l])
    ensures waits != [] ==> AllPushed(waits) == Joined(waits[0]) + AllPushed(waits[1..])
  {
    hide Joined;
    if l < |waits| { assert waits[..l + 1][1..] == waits[1..][..l]; }
  }

  // ---------------------------------------------------------------- runs of the queue

  datatype Op<T> = Push(input: seq<T>) | Read(need: nat, waits: seq<seq<seq<T>>>) | Reset

  datatype Run<T> = Run(contents: seq<T>, delivered: seq<seq<T>>)

  function RunOf<T>(ops: seq<Op<T>>, capacity: nat): Run<T>
  {
    if ops == [] then Run([], [])
    else
      var r := RunOf(ops[..|ops| - 1], capacity);
      match ops[|ops| - 1]
      case Push(input) => Run(Pushed(r.contents, input, capacity), r.delivered)
      case Read(need, waits) =>
        var outcome := ReadFrom(r.contents, need, waits, capacity);
        Run(outcome.contents, r.delivered + [outcome.items])
      case Reset => Run([], r.delivered)
  }

  /** In-phase and quadrature samples in turn, in-phase first, in whole pairs. */
  predicate Interleaved<T>(s: seq<T>, isQuadrature: T -> bool)
  {
    |s| % 2 == 0 && forall i :: 0 <= i < |s| ==> isQuadrature(s[i]) == (i % 2 == 1)
  }

  predicate AllInterleaved<T>(pushes: seq<seq<T>>, isQuadrature: T -> bool)
  {
    forall i :: 0 <= i < |pushes| ==> Interleaved(pushes[i], isQuadrature)
  }

  predicate WholePairs<T>(op: Op<T>, isQuadrature: T -> bool)
  {
    match op
    case Push(input) => Interleaved(input, isQuadrature)
    case Read(need, waits) => need % 2 == 0 && forall i :: 0 <= i < |waits| ==> AllInterleaved(waits[i], isQuadrature)
    case Reset => true
  }

  lemma CutInterleaved<T>(s: seq<T>, n: nat, isQuadrature: T -> bool)
    requires Interleaved(s, isQuadrature) && n <= |s| && n % 2 == 0
    ensures Interleaved(s[..n], isQuadrature) && Interleaved(s[n..], isQuadrature)
  {
    forall i | 0 <= i < |s| - n
      ensures isQuadrature(s[n..][i]) == (i % 2 == 1)
    {
      assert (n + i) % 2 == i % 2;
    }
  }

  lemma JoinInterleaved<T>(a: seq<T>, b: seq<T>, isQuadrature: T -> bool)
    requires Interleaved(a, isQuadrature) && Interleaved(b, isQuadrature)
    ensures Interleaved(a + b, isQuadrature)
  {
    forall i | 0 <= i < |a + b|
      ensures isQuadrature((a + b)[i]) == (i % 2 == 1)
    {
      if i >= |a| { assert (i - |a|) % 2 == i % 2; }
    }
  }

  lemma PushedInterleaved<T>(contents: seq<T>, input: seq<T>, capacity: nat, isQuadrature: T -> bool)
    requires capacity % 2 == 0
    requires Interleaved(contents, isQuadrature) && Interleaved(input, isQuadrature)
    ensures Interleaved(Pushed(contents, input, capacity), isQuadrature)
  {
    JoinInterleaved(contents, input, isQuadrature);
    var all := contents + input;
    if |all| > capacity {
      CutInterleaved(all, |all| - capacity, isQuadrature);
    }
  }

  lemma {:induction false} PushedAllInterleaved<T>(contents: seq<T>, inputs: seq<seq<T>>, capacity: nat,
                                                   isQuadrature: T -> bool)
    requires capacity % 2 == 0
    requires Interleaved(contents, isQuadrature) && AllInterleaved(inputs, isQuadrature)
    ensures Interleaved(PushedAll(contents, inputs, capacity), isQuadrature)
    decreases |inputs|
  {
    hide Interleaved;
    if inputs != [] {
      PushedInterleaved(contents, inputs[0], capacity, isQuadrature);
      PushedAllInterleaved(Pushed(contents, inputs[0], capacity), inputs[1..], capacity, isQuadrature);
    }
  }

  lemma {:induction false} ReadInterleaved<T>(contents: seq<T>, need: nat, waits: seq<seq<seq<T>>>, capacity: nat,
                                              isQuadrature: T -> bool)
    requires capacity % 2 == 0 && need % 2 == 0
    requires Interleaved(contents, isQuadrature)
    requires forall i :: 0 <= i < |waits| ==> AllInterleaved(waits[i], isQuadrature)
    ensures var r := ReadFrom(contents, need, waits, capacity);
      Interleaved(r.items, isQuadrature) && Interleaved(r.contents, isQuadrature)
    decreases |waits|, need
  {
    if need > 0 {
      if contents != [] {
        var m := Min(need, |contents|);
        CutInterleaved(contents, m, isQuadrature);
        ReadInterleaved(contents[m..], need - m, waits, capacity, isQuadrature);
        JoinInterleaved(contents[..m], ReadFrom(contents[m..], need - m, waits, capacity).items, isQuadrature);
      } else if waits != [] {
        assert AllInterleaved(waits[0], isQuadrature);
        PushedAllInterleaved([], waits[0], capacity, isQuadrature);
        ReadInterleaved(PushedAll([], waits[0], capacity), need, waits[1..], capacity, isQuadrature);
      }
    }
  }

  /** With an even capacity, even pushes and even reads, no overflow ever splits a pair of samples. */
  lemma {:induction false} AlignmentSurvives<T>(ops: seq<Op<T>>, capacity: nat, isQuadrature: T -> bool)
    requires capacity % 2 == 0
    requires forall i :: 0 <= i < |ops| ==> WholePairs(ops[i], isQuadrature)
    ensures Interleaved(RunOf(ops, capacity).contents, isQuadrature)
    ensures AllInterleaved(RunOf(ops, capacity).delivered, isQuadrature)
  {
    hide Interleaved;
    if ops == [] {
      NothingInterleaved(isQuadrature);
    } else {
      var before, op := RunOf(ops[..|ops| - 1], capacity), ops[|ops| - 1];
      AlignmentSurvives(ops[..|ops| - 1], capacity, isQuadrature);
      assert WholePairs(op, isQuadrature);
      match op
      case Push(input) => PushedInterleaved(before.contents, input, capacity, isQuadrature);
      case Read(need, waits) => ReadInterleaved(before.contents, need, waits, capacity, isQuadrature);
      case Reset => NothingInterleaved(isQuadrature);
    }
  }

  lemma NothingInterleaved<T>(isQuadrature: T -> bool)
    ensures Interleaved([], isQuadrature)
  {}

  // ---------------------------------------------------------------- bytes and their channels

  /** An item and the channel it belongs to, which the item itself does not show. */
  datatype Tagged<T> = Tagged(item: T, isQuadrature: bool)

  function Untag<T>(s: seq<Tagged<T>>): (r: seq<T>)
    ensures |r| == |s|
  {
    seq(|s|, i requires 0 <= i < |s| => s[i].item)
  }

  /** The receiver delivers the two channels in turn, in-phase first. */
  function Tag<T>(s: seq<T>): (r: seq<Tagged<T>>)
    ensures Untag(r) == s
  {
    seq(|s|, i requires 0 <= i < |s| => Tagged(s[i], i % 2 == 1))
  }

  function TagPushes<T>(pushes: seq<seq<T>>): (r: seq<seq<Tagged<T>>>)
    ensures |r| == |pushes|
  {
    seq(|pushes|, i requires 0 <= i < |pushes| => Tag(pushes[i]))
  }

  function TagWaits<T>(waits: seq<seq<seq<T>>>): (r: seq<seq<seq<Tagged<T>>>>)
    ensures |r| == |waits|
  {
    seq(|waits|, i requires 0 <= i < |waits| => TagPushes(waits[i]))
  }

  function TagOp<T>(op: Op<T>): Op<Tagged<T>>
  {
    match op
    case Push(input) => Push(Tag(input))
    case Read(need, waits) => Read(need, TagWaits(waits))
    case Reset => Reset
  }

  function TagOps<T>(ops: seq<Op<T>>): (r: seq<Op<Tagged<T>>>)
    ensures |r| == |ops|
  {
    seq(|ops|, i requires 0 <= i < |ops| => TagOp(ops[i]))
  }

  predicate Even<T>(op: Op<T>)
  {
    match op
    case Push(input) => |input| % 2 == 0
    case Read(need, waits) =>
      need % 2 == 0 && forall i, j :: 0 <= i < |waits| && 0 <= j < |waits[i]| ==> |waits[i][j]| % 2 == 0
    case Reset => true
  }

  /** Each item stands where its channel belongs. */
  predicate Aligned<T>(s: seq<Tagged<T>>)
  {
    |s| % 2 == 0 && forall i :: 0 <= i < |s| ==> s[i].isQuadrature == (i % 2 == 1)
  }

  lemma PushedUntagged<T>(contents: seq<Tagged<T>>, input: seq<Tagged<T>>, capacity: nat)
    ensures Untag(Pushed(contents, input, capacity)) == Pushed(Untag(contents), Untag(input), capacity)
  {
    assert Untag(contents + input) == Untag(contents) + Untag(input);
  }

  lemma {:induction false} PushedAllUntagged<T>(contents: seq<Tagged<T>>, pushes: seq<seq<T>>, capacity: nat)
    ensures Untag(PushedAll(contents, TagPushes(pushes), capacity)) == PushedAll(Untag(contents), pushes, capacity)
    decreases |pushes|
  {
    hide Pushed, Untag, Tag;
    if pushes != [] {
      PushedUntagged(contents, Tag(pushes[0]), capacity);
      assert TagPushes(pushes)[1..] == TagPushes(pushes[1..]);
      PushedAllUntagged(Pushed(contents, Tag(pushes[0]), capacity), pushes[1..], capacity);
    }
  }

  lemma {:induction false} ReadUntagged<T>(contents: seq<Tagged<T>>, need: nat, waits: seq<seq<seq<T>>>, capacity: nat)
    ensures var r, tagged := ReadFrom(Untag(contents), need, waits, capacity),
                             ReadFrom(contents, need, TagWaits(waits), capacity);
      r == ReadOutcome(Untag(tagged.items), Untag(tagged.contents), tagged.complete)
    decreases |waits|, need
  {
    hide PushedAll;
    var none: seq<Tagged<T>> := [];
    assert Untag(none) == [];
    if need > 0 {
      if contents != [] {
        var m := Min(need, |contents|);
        var rest := ReadFrom(contents[m..], need - m, TagWaits(waits), capacity);
        ReadUntagged(contents[m..], need - m, waits, capacity);
        assert Untag(contents[m..]) == Untag(contents)[m..] && Untag(contents[..m]) == Untag(contents)[..m];
        assert Untag(contents[..m] + rest.items) == Untag(contents[..m]) + Untag(rest.items);
      } else if waits != [] {
        PushedAllUntagged(none, waits[0], capacity);
        assert TagWaits(waits)[1..] == TagWaits(waits[1..]) && TagWaits(waits)[0] == TagPushes(waits[0]);
        ReadUntagged(PushedAll(none, TagPushes(waits[0]), capacity), need, waits[1..], capacity);
      }
    }
  }

  /** Following the channels along changes nothing about what is held and delivered. */
  lemma {:induction false} RunUntagged<T>(ops: seq<Op<T>>, capacity: nat)
    ensures var r, tagged := RunOf(ops, capacity), RunOf(TagOps(ops), capacity);
      && r.contents == Untag(tagged.contents) && |r.delivered| == |tagged.delivered|
      && forall k :: 0 <= k < |r.delivered| ==> r.delivered[k] == Untag(tagged.delivered[k])
  {
    hide Pushed, ReadFrom, Untag, Tag;
    if ops == [] {
      NothingUntagged<T>();
    } else {
      var n := |ops| - 1;
      RunUntagged(ops[..n], capacity);
      assert TagOps(ops)[..n] == TagOps(ops[..n]);
      var before := RunOf(TagOps(ops[..n]), capacity);
      match ops[n]
      case Push(input) => PushedUntagged(before.contents, Tag(input), capacity);
      case Read(need, waits) => ReadUntagged(before.contents, need, waits, capacity);
      case Reset => NothingUntagged<T>();
    }
  }

  lemma NothingUntagged<T>()
    ensures Untag<T>([]) == []
  {}

  lemma TagsAreInterleaved<T>(op: Op<T>)
    requires Even(op)
    ensures WholePairs(TagOp(op), (t: Tagged<T>) => t.isQuadrature)
  {}

  lemma InterleavedIsAligned<T>(s: seq<Tagged<T>>)
    requires Interleaved(s, (t: Tagged<T>) => t.isQuadrature)
    ensures Aligned(s)
  {}

  /**
   * With an even capacity, even pushes and even reads: follow each byte with the channel it came in on, and whatever
   * is held or delivered begins with an in-phase byte and alternates, however often the queue overflows.
   */
  lemma EveryItemKeepsItsChannel<T>(ops: seq<Op<T>>, capacity: nat)
    requires capacity % 2 == 0 && forall i :: 0 <= i < |ops| ==> Even(ops[i])
    ensures var r, tagged := RunOf(ops, capacity), RunOf(TagOps(ops), capacity);
      && r.contents == Untag(tagged.contents) && Aligned(tagged.contents)
      && |r.delivered| == |tagged.delivered|
      && forall k :: 0 <= k < |r.delivered| ==>
          r.delivered[k] == Untag(tagged.delivered[k]) && Aligned(tagged.delivered[k])
  {
    hide RunOf, TagOp, Untag, Aligned, Interleaved;
    var isQuadrature := (t: Tagged<T>) => t.isQuadrature;
    RunUntagged(ops, capacity);
    forall i | 0 <= i < |ops|
      ensures WholePairs(TagOps(ops)[i], isQuadrature)
    {
      TagsAreInterleaved(ops[i]);
    }
    AlignmentSurvives(TagOps(ops), capacity, isQuadrature);
    var tagged := RunOf(TagOps(ops), capacity);
    InterleavedIsAligned(tagged.contents);
    forall k | 0 <= k < |tagged.delivered|
      ensures Aligned(tagged.delivered[k])
    {
      InterleavedIsAligned(tagged.delivered[k]);
    }
  }

  // ---------------------------------------------------------------- the ring

  lemma Wrap(x: nat, n: nat)
    requires n > 0 && x < 2 * n
    ensures x % n == if x < n then x else x - n
  {
    if x >= n {
      assert x == 1 * n + (x - n);
      Quotient(1, x - n, n);
    }
  }

  class Ring {
    const buffer: array<Byte>
    var readOffset: nat
    var writeOffset: nat
    var bufferedBytes: nat

    ghost predicate Valid()
      reads this
    {
      && 0 < buffer.Length
      && readOffset < buffer.Length && bufferedBytes <= buffer.Length
      && writeOffset == (readOffset + bufferedBytes) % buffer.Length
    }

    /** The slot i places after slot `from`. */
    ghost function Slot(from: nat, i: nat): (s: nat)
      requires from < buffer.Length && i <= buffer.Length
    {
      if from + i < buffer.Length then from + i else from + i - buffer.Length
    }

    ghost function Stretch(from: nat, n: nat): seq<Byte>
      requires from < buffer.Length && n <= buffer.Length
      reads buffer
    {
      seq(n, i requires 0 <= i < n reads buffer => buffer[Slot(from, i)])
    }

    /** The buffered bytes, oldest first. */
    ghost function Contents(): seq<Byte>
      requires Valid()
      reads this, buffer
    {
      Stretch(readOffset, bufferedBytes)
    }

    constructor (capacity: nat)
      requires capacity > 0
      ensures Valid() && buffer.Length == capacity && fresh(buffer)
      ensures Contents() == []
    {
      buffer := new Byte[capacity](i => 0);
      readOffset, writeOffset, bufferedBytes := 0, 0, 0;
    }

    /** What retuning does: everything buffered is forgotten. */
    method Reset()
      requires Valid()
      modifies this
      ensures Valid() && Contents() == []
    {
      readOffset, writeOffset, bufferedBytes := 0, 0, 0;
    }

    method DropOldest(dropped: nat)
      requires Valid() && dropped <= bufferedBytes
      modifies `readOffset, `bufferedBytes
      ensures Valid() && Contents() == old(Contents())[dropped..]
      ensures bufferedBytes == old(bufferedBytes) - dropped
    {
      Wrap(readOffset + dropped, buffer.Length);
      Wrap(readOffset + bufferedBytes, buffer.Length);
      ghost var rest := Contents()[dropped..];
      readOffset := (readOffset + dropped) % buffer.Length;
      bufferedBytes := bufferedBytes - dropped;
      Wrap(readOffset + bufferedBytes, buffer.Length);
      assert Contents() == rest;
    }

    /** One stretch of the copy: it ends at the buffer's end or with the input. */
    method Append(input: seq<Byte>)
      requires Valid()
      requires bufferedBytes + |input| <= buffer.Length && writeOffset + |input| <= buffer.Length
      modifies this, buffer
      ensures Valid() && Contents() == old(Contents()) + input
      ensures bufferedBytes == old(bufferedBytes) + |input|
    {
      Wrap(readOffset + bufferedBytes, buffer.Length);
      Wrap(writeOffset + |input|, buffer.Length);
      ghost var before := Contents();
      forall k | 0 <= k < |input| {
        buffer[writeOffset + k] := input[k];
      }
      ghost var after := Stretch(readOffset, bufferedBytes + |input|);
      forall i | 0 <= i < |after|
        ensures after[i] == (before + input)[i]
      {
        if i >= bufferedBytes {
          assert Slot(readOffset, i) == writeOffset + (i - bufferedBytes);
        }
      }
      writeOffset := (writeOffset + |input|) % buffer.Length;
      bufferedBytes := bufferedBytes + |input|;
      Wrap(readOffset + bufferedBytes, buffer.Length);
    }

    /** Drops what the input would overwrite; of an input longer than the ring only the newest part is left. */
    method MakeRoomFor(input: seq<Byte>) returns (rest: seq<Byte>)
      requires Valid()
      modifies `readOffset, `writeOffset, `bufferedBytes
      ensures Valid() && bufferedBytes + |rest| <= buffer.Length
      ensures Contents() + rest == Pushed(old(Contents()), input, buffer.Length)
    {
      rest := input;
      if |rest| >= buffer.Length {
        rest := rest[|rest| - buffer.Length..];
        readOffset, writeOffset, bufferedBytes := 0, 0, 0;
      }
      if bufferedBytes + |rest| > buffer.Length {
        DropOldest(bufferedBytes + |rest| - buffer.Length);
      }
    }

    method PushBytes(input: seq<Byte>)
      requires Valid()
      modifies this, buffer
      ensures Valid() && Contents() == Pushed(old(Contents()), input, buffer.Length)
    {
      hide Stretch, Pushed;
      var rest := MakeRoomFor(input);
      while |rest| > 0
        invariant Valid() && bufferedBytes + |rest| <= buffer.Length
        invariant Contents() + rest == Pushed(old(Contents()), input, buffer.Length)
        decreases |rest|
      {
        WriteOffsetInRange();
        var contiguous := buffer.Length - writeOffset;
        if contiguous > |rest| {
          contiguous := |rest|;
        }
        ghost var before := Contents();
        assert before + rest == before + rest[..contiguous] + rest[contiguous..];
        Append(rest[..contiguous]);
        rest := rest[contiguous..];
      }
      assert Contents() + [] == Contents();
    }

    lemma WriteOffsetInRange()
      requires Valid()
      ensures writeOffset < buffer.Length
    {
      Wrap(readOffset + bufferedBytes, buffer.Length);
    }

    /** One stretch of a read. */
    method TakeStretch(dest: array<Byte>, copied: nat, contiguous: nat)
      requires Valid() && dest != buffer
      requires contiguous <= bufferedBytes && readOffset + contiguous <= buffer.Length
      requires copied + contiguous <= dest.Length
      modifies `readOffset, `bufferedBytes, dest
      ensures Valid() && Contents() == old(Contents())[contiguous..]
      ensures bufferedBytes == old(bufferedBytes) - contiguous
      ensures dest[..copied + contiguous] == old(dest[..copied]) + old(Contents())[..contiguous]
    {
      forall k | 0 <= k < contiguous {
        dest[copied + k] := buffer[readOffset + k];
      }
      assert dest[..copied + contiguous] == old(dest[..copied]) + old(Contents())[..contiguous];
      DropOldest(contiguous);
    }

    lemma ContentsLength()
      requires Valid()
      ensures |Contents()| == bufferedBytes
    {}

    static lemma TakenTwice(start: seq<Byte>, all: seq<Byte>, m: nat, n: nat)
      requires m + n <= |all|
      ensures all[m..][n..] == all[m + n..] && start + all[..m] + all[m..][..n] == start + all[..m + n]
    {}

    /** How much of what is there, up to `limit`, lies in one stretch. */
    method Contiguous(limit: nat) returns (contiguous: nat)
      requires Valid() && bufferedBytes > 0 && limit > 0
      ensures 0 < contiguous <= limit && contiguous <= bufferedBytes && readOffset + contiguous <= buffer.Length
    {
      contiguous := buffer.Length - readOffset;
      if contiguous > bufferedBytes {
        contiguous := bufferedBytes;
      }
      if contiguous > limit {
        contiguous := limit;
      }
    }

    /** Copies what is there, up to `byteCount` bytes in all. */
    method TakeAvailable(dest: array<Byte>, copied: nat, byteCount: nat) returns (now: nat)
      requires Valid() && dest != buffer && copied <= byteCount <= dest.Length
      modifies `readOffset, `bufferedBytes, dest
      ensures Valid()
      ensures now == copied + Min(byteCount - copied, |old(Contents())|)
      ensures Contents() == old(Contents())[now - copied..]
      ensures dest[..now] == old(dest[..copied]) + old(Contents())[..now - copied]
    {
      hide Contents, Stretch, Slot, Ring.Valid;
      ghost var all, start := Contents(), dest[..copied];
      now := copied;
      ContentsLength();
      assert all[0..] == all && start + all[..0] == start;
      while now < byteCount && bufferedBytes > 0
        invariant Valid() && copied <= now <= byteCount
        invariant |all| == now - copied + bufferedBytes && Contents() == all[now - copied..]
        invariant dest[..now] == start + all[..now - copied]
      {
        var contiguous := Contiguous(byteCount - now);
        TakenTwice(start, all, now - copied, contiguous);
        TakeStretch(dest, now, contiguous);
        now := now + contiguous;
      }
    }

    method PushEach(inputs: seq<seq<Byte>>)
      requires Valid()
      modifies this, buffer
      ensures Valid() && Contents() == PushedAll(old(Contents()), inputs, buffer.Length)
    {
      for i := 0 to |inputs|
        invariant Valid()
        invariant PushedAll(Contents(), inputs[i..], buffer.Length) == PushedAll(old(Contents()), inputs, buffer.Length)
      {
        assert inputs[i..][1..] == inputs[i + 1..];
        PushBytes(inputs[i]);
      }
    }

    /** Waits until something is buffered or the source has stopped. */
    method WaitForBytes(waits: seq<seq<seq<Byte>>>, ghost need: nat) returns (left: seq<seq<seq<Byte>>>)
      requires Valid() && need > 0
      modifies this, buffer
      ensures Valid() && |left| <= |waits|
      ensures Contents() == [] ==> left == []
      ensures ReadFrom(Contents(), need, left, buffer.Length) == ReadFrom(old(Contents()), need, waits, buffer.Length)
    {
      left := waits;
      while bufferedBytes == 0 && left != []
        invariant Valid() && |left| <= |waits|
        invariant ReadFrom(Contents(), need, left, buffer.Length)
           == ReadFrom(old(Contents()), need, waits, buffer.Length)
        decreases |left|
      {
        assert Contents() == [];
        PushEach(left[0]);
        left := left[1..];
      }
    }

    /** The device branch of the read. `waits` lists what the callback pushes during each wait on the condition; after
        the last of them the source has stopped. */
    method Read(dest: array<Byte>, byteCount: nat, waits: seq<seq<seq<Byte>>>) returns (ok: bool)
      requires Valid() && dest != buffer && byteCount <= dest.Length
      modifies this, buffer, dest
      ensures Valid()
      ensures var r := ReadFrom(old(Contents()), byteCount, waits, buffer.Length);
        ok == r.complete && Contents() == r.contents && |r.items| <= byteCount && dest[..|r.items|] == r.items
    {
      hide Stretch, ReadFrom;
      var copied, left := 0, waits;
      while copied < byteCount
        invariant Valid() && copied <= byteCount
        invariant var r := ReadFrom(old(Contents()), byteCount, waits, buffer.Length);
          var rest := ReadFrom(Contents(), byteCount - copied, left, buffer.Length);
          r == ReadOutcome(dest[..copied] + rest.items, rest.contents, rest.complete)
        decreases byteCount - copied
      {
        ghost var done, need := dest[..copied], byteCount - copied;
        left := WaitForBytes(left, byteCount - copied);
        ContentsLength();
        ReadUnfolds(Contents(), need, left, buffer.Length);
        if bufferedBytes == 0 {
          assert Contents() == [];
          return false;
        }
        ghost var before := Contents();
        var now := TakeAvailable(dest, copied, byteCount);
        assert done + before[..now - copied] == dest[..now];
        assert forall rest: seq<Byte> :: done + (before[..now - copied] + rest) == dest[..now] + rest;
        copied := now;
      }
      ReadNothing(Contents(), left, buffer.Length);
      return true;
    }
  }
  /** A whole run of one ring: it holds and delivers what the queue does. */
  method RunRing(ops: seq<Op<Byte>>, capacity: nat) returns (ring: Ring, ghost delivered: seq<seq<Byte>>)
    requires capacity > 0
    ensures ring.Valid() && ring.buffer.Length == capacity
    ensures ring.Contents() == RunOf(ops, capacity).contents && delivered == RunOf(ops, capacity).delivered
  {
    hide Ring.Contents, Pushed, ReadFrom;
    ring := new Ring(capacity);
    delivered := [];
    for i := 0 to |ops|
      invariant fresh(ring) && fresh(ring.buffer) && ring.Valid() && ring.buffer.Length == capacity
      invariant Run(ring.Contents(), delivered) == RunOf(ops[..i], capacity)
    {
      assert ops[..i + 1][..i] == ops[..i];
      match ops[i]
      case Push(input) => ring.PushBytes(input);
      case Read(need, waits) =>
        var dest := new Byte[need];
        ghost var outcome := ReadFrom(ring.Contents(), need, waits, capacity);
        var ok := ring.Read(dest, need, waits);
        delivered := delivered + [dest[..|outcome.items|]];
      case Reset => ring.Reset();
    }
    assert ops[..|ops|] == ops;
  }
}
