/**
 The ring behind a lock with a single reader.  The reader drains the whole ring into a private
 stash after a successful read and serves itself from the stash first.
 */
module LockQueue {
  import opened Common
  import opened Bytes
  import opened ByteRing

  datatype Delivery = Nothing | Delivered(first: seq<byte>, second: seq<byte>)

  function Seen(out: Outcome): (d: Delivery) {
    if out.Pair? then Delivered(out.first, out.second) else Nothing
  }

  /** The stash serves a record only if it fills the first buffer and its rest fits the second. */
  predicate Served(r: Rec, size1: nat, size2: nat) {
    size1 <= |r| <= size1 + size2
  }

  // ---------------------------------------------------------------- what the operations do

  /** The records in the reader's stash and in the ring. */
  datatype Pending = Pending(stash: seq<Rec>, ring: seq<Rec>)

  /** What the ring takes of one more record: all of it or nothing. */
  function Accepted(room: int, ring: seq<Rec>, r: Rec): (q: seq<Rec>) {
    if r == [] || |Encode(ring)| + LEN + |r| > room then [] else [r]
  }

  function AcceptedAll(room: int, ring: seq<Rec>, rs: seq<Rec>): (q: seq<Rec>) {
    if rs == [] then []
    else
      var before := AcceptedAll(room, ring, rs[..|rs| - 1]);
      before + Accepted(room, ring + before, rs[|rs| - 1])
  }

  /**
   A read: from the stash if its head can be served, else the stash is thrown away and the ring is
   read; after a successful read of the ring the ring, with the records `late` that arrived in
   between, moves into the stash.
   */
  function Reading(room: int, p: Pending, size1: nat, size2: nat, late: seq<Rec>): (Pending, Delivery) {
    if p.stash != [] && Served(p.stash[0], size1, size2) then
      (Pending(p.stash[1..], p.ring), Delivered(p.stash[0][..size1], p.stash[0][size1..]))
    else if p.ring == [] then
      (Pending([], []), Nothing)
    else
      var out := ReadTwo(p.ring[0], size1, size2);
      if out.Pair? then (Pending(p.ring[1..] + AcceptedAll(room, p.ring[1..], late), []), Seen(out))
      else (Pending([], p.ring[1..]), Nothing)
  }

  // ---------------------------------------------------------------- the queue

  class CLockBufferQueue {
    const queue: CBufferQueue
    var tmp: seq<byte>           // the stash as drained from the ring
    var tmpIndex: nat            // how much of it is served
    ghost var stash: seq<Rec>

    ghost predicate Valid()
      reads this, queue, queue.data
    {
      && queue.Valid() && queue.data.Length <= UINT32
      && tmpIndex <= |tmp| && Sized(stash)
      && tmp[tmpIndex..] == Encode(stash)
    }

    ghost function State(): Pending
      reads this, queue
    {
      Pending(stash, queue.records)
    }

    constructor (size: nat)
      requires LEN + RESERVE < size <= UINT32
      ensures Valid() && State() == Pending([], []) && queue.data.Length == size
      ensures fresh(queue) && fresh(queue.data)
    {
      queue := new CBufferQueue(size);
      tmp, tmpIndex, stash := [], 0, [];
    }

    method Enqueue(x: seq<byte>, y: seq<byte>) returns (full: bool)
      requires Valid() && |x| + |y| < UINT32
      modifies queue, queue.data
      ensures Valid()
      ensures stash == old(stash)
      ensures queue.records == old(queue.records) + Accepted(queue.data.Length - RESERVE, old(queue.records), x + y)
      ensures full <==> x + y != [] && queue.records == old(queue.records)
    {
      full := queue.Enqueue(x, y);
    }

    method Reset()
      requires Valid()
      modifies this
      ensures Valid() && stash == [] && queue.records == old(queue.records)
    {
      tmp, tmpIndex, stash := [], 0, [];
    }

    /** Serve the head of the stash, or throw the stash away. */
    method DequeueFromBuffer(size1: nat, size2: nat) returns (ok: bool, x: seq<byte>, y: seq<byte>)
      requires Valid()
      modifies this
      ensures Valid() && queue.records == old(queue.records)
      ensures ok <==> old(stash) != [] && Served(old(stash)[0], size1, size2)
      ensures ok ==> stash == old(stash)[1..] && x == old(stash)[0][..size1] && y == old(stash)[0][size1..]
      ensures !ok ==> stash == []
    {
      x, y := [], [];
      var left := |tmp| - tmpIndex;
      StashHead(tmp[tmpIndex..], stash);
      if left == 0 {
        return false, [], [];
      }
      assert left >= LEN;
      assert tmp[tmpIndex..][..LEN] == tmp[tmpIndex..tmpIndex + LEN];
      var packet := FromLE(tmp[tmpIndex..tmpIndex + LEN]);
      assert tmpIndex + LEN + packet <= |tmp|;
      if packet < size1 || packet - size1 > size2 {
        Reset();
        return false, [], [];
      }
      var at := tmpIndex + LEN;
      x := tmp[at..at + size1];
      y := tmp[at + size1..at + packet];
      StashCut(tmp, tmpIndex, stash, size1);
      tmpIndex := at + packet;
      stash := stash[1..];
      ok := true;
    }

    /** Move everything in the ring into the stash. */
    method GetQueueDataToBuffer()
      requires Valid() && stash == []
      modifies this, queue
      ensures Valid() && State() == Pending(old(queue.records), [])
    {
      ghost var q := queue.records;
      var ok, out := queue.GetAllData();
      if ok {
        tmp, tmpIndex, stash := out, 0, q;
        assert tmp[tmpIndex..] == out;
      }
    }

    /** Other threads enqueue the records `late`. */
    method Arrive(late: seq<Rec>)
      requires Valid() && stash == []
      requires forall i :: 0 <= i < |late| ==> |late[i]| < UINT32
      modifies queue, queue.data
      ensures Valid() && stash == []
      ensures queue.records == old(queue.records) + AcceptedAll(queue.data.Length - RESERVE, old(queue.records), late)
    {
      ghost var ring := queue.records;
      for i := 0 to |late|
        invariant Valid() && stash == []
        invariant queue.records == ring + AcceptedAll(queue.data.Length - RESERVE, ring, late[..i])
      {
        var full := Enqueue(late[i], []);
        assert late[i] + [] == late[i] && late[..i + 1][..i] == late[..i];
      }
      assert late[..|late|] == late;
    }

    /** Read the next record; `late` are the records other threads enqueue between the read and the drain. */
    method Dequeue(size1: nat, size2: nat, late: seq<Rec>) returns (d: Delivery)
      requires Valid() && size1 + size2 < UINT32
      requires forall i :: 0 <= i < |late| ==> |late[i]| < UINT32
      modifies this, queue, queue.data
      ensures Valid()
      ensures (State(), d) == Reading(queue.data.Length - RESERVE, old(State()), size1, size2, late)
      ensures old(stash) != [] && size1 <= |old(stash)[0]| <= size1 + size2 ==>
                d == Delivered(old(stash)[0][..size1], old(stash)[0][size1..]) && stash == old(stash)[1..]
                && queue.records == old(queue.records)
      ensures old(stash) == [] && old(queue.records) != [] && |old(queue.records)[0]| <= size1 + size2 ==>
                d.Delivered? && d.first + d.second == old(queue.records)[0]
                && queue.records == [] && old(queue.records)[1..] <= stash
    {
      var ok, x, y := DequeueFromBuffer(size1, size2);
      if ok {
        return Delivered(x, y);
      }
      var out := queue.DequeueTwo(size1, size2);
      if !out.Pair? {
        return Nothing;
      }
      Arrive(late);
      GetQueueDataToBuffer();
      return Seen(out);
    }
  }

  lemma StashHead(s: seq<byte>, q: seq<Rec>)
    requires Sized(q) && s == Encode(q)
    ensures q == [] <==> s == []
    ensures q != [] ==> |s| >= LEN + |q[0]| && FromLE(s[..LEN]) == |q[0]|
    ensures q != [] ==> s[LEN..LEN + |q[0]|] == q[0] && s[LEN + |q[0]|..] == Encode(q[1..])
  {
    if q != [] {
      var pre, rest := LE(|q[0]|, LEN), Encode(q[1..]);
      assert s == pre + q[0] + rest;
      assert s[..LEN] == pre && s[LEN..LEN + |q[0]|] == q[0];
      Widths();
      LERoundTrip(|q[0]|, LEN);
    }
  }

  lemma StashCut(tmp: seq<byte>, i: nat, q: seq<Rec>, size1: nat)
    requires i <= |tmp| && Sized(q) && q != [] && tmp[i..] == Encode(q) && size1 <= |q[0]|
    ensures var at, n := i + LEN, |q[0]|;
            && at + n <= |tmp| && tmp[at..at + size1] == q[0][..size1] && tmp[at + size1..at + n] == q[0][size1..]
            && tmp[at + n..] == Encode(q[1..])
  {
    StashHead(tmp[i..], q);
    var at, n := i + LEN, |q[0]|;
    CutAt(tmp, i, LEN, n);
    CutIn(tmp, at, n, size1);
  }

  lemma CutAt(s: seq<byte>, i: nat, k: nat, n: nat)
    requires i + k + n <= |s|
    ensures s[i..][k..k + n] == s[i + k..i + k + n] && s[i..][k + n..] == s[i + k + n..]
  {
  }

  lemma CutIn(s: seq<byte>, at: nat, n: nat, k: nat)
    requires at + n <= |s| && k <= n
    ensures s[at..at + n][..k] == s[at..at + k] && s[at..at + n][k..] == s[at + k..at + n]
  {
  }

  // ---------------------------------------------------------------- the stash against a plain queue

  function All(p: Pending): (q: seq<Rec>) {
    p.stash + p.ring
  }

  /** A read of a plain queue into two buffers; a record that does not fit is dropped. */
  function PlainReading(q: seq<Rec>, size1: nat, size2: nat): (seq<Rec>, Delivery) {
    if q == [] then (q, Nothing) else (q[1..], Seen(ReadTwo(q[0], size1, size2)))
  }

  /**
   A read through the stash agrees with a read of the plain queue of all pending records exactly
   when the stash is empty, or its head can be served, or its head is the only pending record and
   too long anyway.
   */
  lemma StashAgrees(room: int, p: Pending, size1: nat, size2: nat)
    ensures var (p', d) := Reading(room, p, size1, size2, []);
            (All(p'), d) == PlainReading(All(p), size1, size2)
            <==> || p.stash == [] || size1 <= |p.stash[0]| <= size1 + size2
                 || (|p.stash| == 1 && p.ring == [] && |p.stash[0]| > size1 + size2)
  {
    var (p', d) := Reading(room, p, size1, size2, []);
    var (q', e) := PlainReading(All(p), size1, size2);
    if p.stash == [] {
      assert All(p) == p.ring;
      assert p.ring != [] ==> All(p') == p.ring[1..];
    } else {
      assert All(p)[0] == p.stash[0] && All(p)[1..] == p.stash[1..] + p.ring;
      if !Served(p.stash[0], size1, size2) && p.ring != [] {
        assert |All(p')| < |q'|;
      }
    }
  }

  // ---------------------------------------------------------------- whole runs

  datatype Op = Enq(r: Rec) | Deq(late: seq<Rec>)

  /** One operation: the new state, what it delivers, and the records it lets in. */
  function Step(room: int, p: Pending, op: Op, size1: nat, size2: nat): (Pending, Delivery, seq<Rec>) {
    match op
    case Enq(r) =>
      var more := Accepted(room, p.ring, r);
      (Pending(p.stash, p.ring + more), Nothing, more)
    case Deq(late) =>
      var (p', d) := Reading(room, p, size1, size2, late);
      var fromRing := p.stash == [] || !Served(p.stash[0], size1, size2);
      (p', d, if fromRing && d != Nothing then AcceptedAll(room, p.ring[1..], late) else [])
  }

  ghost predicate Serves(rs: seq<Rec>, size1: nat, size2: nat) {
    forall i :: 0 <= i < |rs| ==> Served(rs[i], size1, size2)
  }

  ghost predicate ServesOp(op: Op, size1: nat, size2: nat) {
    match op
    case Enq(r) => Served(r, size1, size2)
    case Deq(late) => Serves(late, size1, size2)
  }

  lemma {:induction false} AcceptedServes(room: int, ring: seq<Rec>, rs: seq<Rec>, size1: nat, size2: nat)
    requires Serves(rs, size1, size2)
    ensures Serves(AcceptedAll(room, ring, rs), size1, size2)
  {
    if rs != [] { AcceptedServes(room, ring, rs[..|rs| - 1], size1, size2); }
  }

  lemma StashIsPlain(room: int, p: Pending, late: seq<Rec>, size1: nat, size2: nat)
    requires Serves(All(p), size1, size2) && p.stash != []
    ensures var (p', d, more) := Step(room, p, Deq(late), size1, size2);
            && more == [] && d == Delivered(All(p)[0][..size1], All(p)[0][size1..]) && All(p') == All(p)[1..]
  {
    assert Served(All(p)[0], size1, size2);
    assert All(p)[1..] == p.stash[1..] + p.ring;
  }

  lemma RingIsPlain(room: int, p: Pending, late: seq<Rec>, size1: nat, size2: nat)
    requires Serves(All(p), size1, size2) && p.stash == [] && p.ring != [] && Serves(late, size1, size2)
    ensures var (p', d, more) := Step(room, p, Deq(late), size1, size2);
            && Serves(more, size1, size2) && d == Delivered(All(p)[0][..size1], All(p)[0][size1..])
            && All(p') == All(p)[1..] + more
  {
    AcceptedServes(room, p.ring[1..], late, size1, size2);
    assert All(p) == p.ring;
    assert Served(All(p)[0], size1, size2);
  }

  /** With servable records only, an operation treats the pending records as one plain queue. */
  lemma StepIsPlain(room: int, p: Pending, op: Op, size1: nat, size2: nat)
    requires Serves(All(p), size1, size2) && ServesOp(op, size1, size2)
    ensures var (p', d, more) := Step(room, p, op, size1, size2);
            && Serves(more, size1, size2)
            && if op.Enq? || All(p) == [] then d == Nothing && All(p') == All(p) + more
               else d == Delivered(All(p)[0][..size1], All(p)[0][size1..]) && All(p') == All(p)[1..] + more
  {
    var (p', d, more) := Step(room, p, op, size1, size2);
    if op.Enq? {
      assert All(p') == All(p) + more;
    } else if p.stash != [] {
      StashIsPlain(room, p, op.late, size1, size2);
    } else if p.ring != [] {
      RingIsPlain(room, p, op.late, size1, size2);
    }
  }

  /** Everything let in so far, and everything delivered so far. */
  datatype Trace = Trace(p: Pending, accepted: seq<Rec>, delivered: seq<Delivery>)

  function Follow(room: int, size1: nat, size2: nat, ops: seq<Op>): (t: Trace) {
    if ops == [] then Trace(Pending([], []), [], [])
    else
      var t := Follow(room, size1, size2, ops[..|ops| - 1]);
      var (p', d, more) := Step(room, t.p, ops[|ops| - 1], size1, size2);
      Trace(p', t.accepted + more, if d == Nothing then t.delivered else t.delivered + [d])
  }

  /** What was delivered is what was let in first, in order and cut at the first buffer's size; the rest is pending. */
  ghost predicate Fifo(t: Trace, size1: nat, size2: nat) {
    && |t.delivered| <= |t.accepted| && Serves(t.accepted, size1, size2)
    && All(t.p) == t.accepted[|t.delivered|..]
    && forall i :: 0 <= i < |t.delivered| ==>
         t.delivered[i] == Delivered(t.accepted[i][..size1], t.accepted[i][size1..])
  }

  /**
   If every record fills the first buffer and its rest fits the second, then any run through the
   stash, with other threads enqueueing at any time, is a run of a plain first-in first-out queue.
   */
  lemma {:induction false} StashIsFifo(room: int, size1: nat, size2: nat, ops: seq<Op>)
    requires forall i :: 0 <= i < |ops| ==>
               match ops[i]
               case Enq(r) => size1 <= |r| <= size1 + size2
               case Deq(late) => forall k :: 0 <= k < |late| ==> size1 <= |late[k]| <= size1 + size2
    ensures Fifo(Follow(room, size1, size2, ops), size1, size2)
  {
    if ops != [] {
      var n := |ops| - 1;
      StashIsFifo(room, size1, size2, ops[..n]);
      var t := Follow(room, size1, size2, ops[..n]);
      StepIsPlain(room, t.p, ops[n], size1, size2);
      var (p', d, more) := Step(room, t.p, ops[n], size1, size2);
      FifoGrows(t, p', d, more, size1, size2);
    }
  }

  lemma FifoGrows(t: Trace, p': Pending, d: Delivery, more: seq<Rec>, size1: nat, size2: nat)
    requires Fifo(t, size1, size2) && Serves(more, size1, size2)
    requires if d == Nothing then All(p') == All(t.p) + more
             else && All(t.p) != [] && d == Delivered(All(t.p)[0][..size1], All(t.p)[0][size1..])
                  && All(p') == All(t.p)[1..] + more
    ensures Fifo(Trace(p', t.accepted + more, if d == Nothing then t.delivered else t.delivered + [d]), size1, size2)
  {
    var k := |t.delivered|;
    assert (t.accepted + more)[k..] == t.accepted[k..] + more;
    if d != Nothing {
      assert t.accepted[k..][1..] == t.accepted[k + 1..];
      assert (t.accepted + more)[k + 1..] == t.accepted[k + 1..] + more;
    }
  }

  /** A record shorter than the first buffer, met in the stash, loses everything behind it there. */
  lemma ShortRecordLosesStash()
    ensures var r: Rec := [1 as byte];
            var long: Rec := [1 as byte, 2 as byte];
            Reading(100, Pending([r, long], []), 2, 2, []) == (Pending([], []), Nothing)
            && PlainReading([r, long], 2, 2) == ([long], Delivered(r, []))
  {
    var r: Rec := [1 as byte];
    var long: Rec := [1 as byte, 2 as byte];
    assert [r, long][1..] == [long];
  }
}
