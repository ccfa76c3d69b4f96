/**
 The ring refines a queue of records: whatever operations are run, it answers like the queue.
 */
module RingRun {
  import opened Common
  import opened Bytes
  import opened ByteRing

  datatype Op = Put(x: seq<byte>, y: seq<byte>) | Take(size: nat) | TakePair(size1: nat, size2: nat) | Look(size: nat)
  datatype Answer = Stored | Refused | Read(out: Outcome)

  /** The lengths are 32-bit numbers. */
  predicate Sane(op: Op) {
    && (op.Put? ==> |op.x| + |op.y| < UINT32)
    && (op.TakePair? ==> op.size1 + op.size2 < UINT32)
  }

  /** One operation on a queue of records that may take up at most `room` bytes. */
  function QueueStep(room: int, q: seq<Rec>, op: Op): (seq<Rec>, Answer) {
    match op
    case Put(x, y) =>
      if |x| + |y| == 0 then (q, Stored)
      else if |Encode(q)| + LEN + |x| + |y| > room then (q, Refused)
      else (q + [x + y], Stored)
    case Take(size) =>
      if q == [] then (q, Read(Empty)) else (q[1..], Read(ReadOne(q[0], size)))
    case TakePair(size1, size2) =>
      if q == [] then (q, Read(Empty)) else (q[1..], Read(ReadTwo(q[0], size1, size2)))
    case Look(size) =>
      (q, Read(if q == [] then Empty else ReadOne(q[0], size)))
  }

  function QueueRun(room: int, q: seq<Rec>, ops: seq<Op>): (r: (seq<Rec>, seq<Answer>))
    ensures |r.1| == |ops|
  {
    if ops == [] then (q, [])
    else
      var (q', before) := QueueRun(room, q, ops[..|ops| - 1]);
      var (q'', a) := QueueStep(room, q', ops[|ops| - 1]);
      (q'', before + [a])
  }

  method Apply(ring: CBufferQueue, op: Op) returns (a: Answer)
    requires ring.Valid() && Sane(op)
    modifies ring, ring.data
    ensures ring.Valid()
    ensures (ring.records, a) == QueueStep(ring.data.Length - RESERVE, old(ring.records), op)
  {
    match op
    case Put(x, y) =>
      var full := ring.Enqueue(x, y);
      a := if full then Refused else Stored;
    case Take(size) =>
      var out := ring.Dequeue(size);
      a := Read(out);
    case TakePair(size1, size2) =>
      var out := ring.DequeueTwo(size1, size2);
      a := Read(out);
    case Look(size) =>
      var out := ring.Peek(size);
      a := Read(out);
  }

  /** Every run of operations on a fresh ring is answered as by the queue, wherever the records wrap. */
  method Run(size: nat, ops: seq<Op>) returns (answers: seq<Answer>)
    requires LEN + RESERVE < size && forall i :: 0 <= i < |ops| ==> Sane(ops[i])
    ensures answers == QueueRun(size - RESERVE, [], ops).1
  {
    var ring := new CBufferQueue(size);
    answers := [];
    for i := 0 to |ops|
      invariant ring.Valid() && ring.data.Length == size && fresh(ring) && fresh(ring.data)
      invariant (ring.records, answers) == QueueRun(size - RESERVE, [], ops[..i])
    {
      var a := Apply(ring, ops[i]);
      assert ops[..i + 1][..i] == ops[..i];
      answers := answers + [a];
    }
    assert ops[..|ops|] == ops;
  }

  // ---------------------------------------------------------------- first in, first out

  /** The records a run stored, in order. */
  function StoredBy(room: int, ops: seq<Op>): (r: seq<Rec>) {
    if ops == [] then []
    else
      var n := |ops| - 1;
      var op := ops[n];
      StoredBy(room, ops[..n])
        + if op.Put? && |op.x| + |op.y| > 0 && QueueRun(room, [], ops).1[n] == Stored then [op.x + op.y] else []
  }

  /** How many records a run took out or dropped. */
  function TakenBy(room: int, ops: seq<Op>): (n: nat) {
    if ops == [] then 0
    else
      var n := |ops| - 1;
      var op := ops[n];
      TakenBy(room, ops[..n])
        + if (op.Take? || op.TakePair?) && QueueRun(room, [], ops).1[n] != Read(Empty) then 1 else 0
  }

  /** At any time the queue is what was stored minus what was taken, and a read sees the oldest record left. */
  lemma {:induction false} FirstInFirstOut(room: int, ops: seq<Op>)
    ensures TakenBy(room, ops) <= |StoredBy(room, ops)|
    ensures QueueRun(room, [], ops).0 == StoredBy(room, ops)[TakenBy(room, ops)..]
  {
    if ops != [] {
      FirstInFirstOut(room, ops[..|ops| - 1]);
    }
  }

  lemma LastAnswer(room: int, ops: seq<Op>, op: Op)
    ensures QueueRun(room, [], ops + [op]).1[|ops|] == QueueStep(room, QueueRun(room, [], ops).0, op).1
  {
    assert (ops + [op])[..|ops|] == ops;
  }

  /**
   The `k`-th record taken out of a run is the `k`-th record stored: it comes out whole if the buffer
   is large enough, and is reported as too long otherwise.
   */
  lemma ReadsOldest(room: int, ops: seq<Op>, size: nat)
    requires TakenBy(room, ops) < |StoredBy(room, ops)|
    ensures var r := StoredBy(room, ops)[TakenBy(room, ops)];
            && QueueRun(room, [], ops + [Take(size)]).1[|ops|] == Read(if |r| <= size then Got(r) else TooLong)
            && QueueRun(room, [], ops + [Look(size)]).1[|ops|] == QueueRun(room, [], ops + [Take(size)]).1[|ops|]
  {
    FirstInFirstOut(room, ops);
    LastAnswer(room, ops, Take(size));
    LastAnswer(room, ops, Look(size));
  }

  /** Read into two buffers it comes out whole over the two, the first filled before the second. */
  lemma ReadsOldestInTwo(room: int, ops: seq<Op>, size1: nat, size2: nat)
    requires TakenBy(room, ops) < |StoredBy(room, ops)|
    ensures var r := StoredBy(room, ops)[TakenBy(room, ops)];
            var a := QueueRun(room, [], ops + [TakePair(size1, size2)]).1[|ops|];
            if |r| > size1 + size2 then a == Read(TooLong)
            else
              && a.Read? && a.out.Pair? && a.out.first + a.out.second == r && |a.out.second| <= size2
              && (|a.out.first| == size1 || (|a.out.first| < size1 && a.out.second == []))
  {
    FirstInFirstOut(room, ops);
    LastAnswer(room, ops, TakePair(size1, size2));
  }

  /** Bytes that the records take up, each with its eight bytes of length. */
  function Used(q: seq<Rec>): (n: nat) {
    if q == [] then 0 else 8 + |q[0]| + Used(q[1..])
  }

  lemma {:induction false} UsedIs(q: seq<Rec>)
    ensures |Encode(q)| == Used(q)
  {
    if q != [] { UsedIs(q[1..]); }
  }

  /** A record is stored exactly when it is empty or fits beside those that are still there. */
  lemma StoresWhatFits(room: int, ops: seq<Op>, x: seq<byte>, y: seq<byte>)
    ensures TakenBy(room, ops) <= |StoredBy(room, ops)|
    ensures QueueRun(room, [], ops + [Put(x, y)]).1[|ops|] == Stored
       <==> x + y == [] || Used(StoredBy(room, ops)[TakenBy(room, ops)..]) + 8 + |x + y| <= room
  {
    FirstInFirstOut(room, ops);
    LastAnswer(room, ops, Put(x, y));
    UsedIs(QueueRun(room, [], ops).0);
  }
}
