/** When the node queue takes a value and when it gives one out. */
module FifoFlow {
  import opened Common
  import opened FifoQueue
  import opened FifoRun

  /** Number of values that are counted in the queue, seen from what went in and what came out. */
  function Held<T>(c: System<T>): (n: int) {
    |c.sent| - (if c.queue.push.Ready? then 0 else 1) - |c.received| + if c.queue.pop.Rest? then 0 else 1
  }

  lemma HeldIsSize<T>(c: System<T>, v: View<T>)
    requires Sound(c, v)
    ensures 0 <= Size(c.queue) == Held(c) <= c.queue.queueCapacity
  {
  }

  /** A push is taken exactly when fewer values than the capacity have not been counted off; else nothing changes. */
  lemma PushTaken<T>(c: System<T>, v: View<T>, value: T)
    requires Sound(c, v) && Legal(c, Push(value))
    ensures var r := Do(c, Push(value));
            && r.Some? && r.value.received == c.received
            && (r.value.sent == c.sent + [value] <==> Held(c) < c.queue.queueCapacity)
            && (Held(c) >= c.queue.queueCapacity ==> r.value == c)
            && (Held(c) < c.queue.queueCapacity ==> r.value.queue.push == Store(value) && r.value.queue.pop == c.queue.pop)
  {
    HeldIsSize(c, v);
    assert c.sent != c.sent + [value];
  }

  /** A pop gives out the oldest value not given out exactly when one is counted; else nothing changes. */
  lemma PopGiven<T>(c: System<T>, v: View<T>)
    requires Sound(c, v) && Legal(c, Pop)
    ensures var r := Do(c, Pop);
            && r.Some? && r.value.sent == c.sent
            && (Held(c) > 0 ==> |c.received| < |c.sent| && r.value.received == c.received + [c.sent[|c.received|]])
            && (Held(c) > 0 ==> !r.value.queue.pop.Rest? && r.value.queue.push == c.queue.push)
            && (Held(c) <= 0 ==> r.value == c)
  {
    HeldIsSize(c, v);
    if Held(c) > 0 { FrontIs(c.queue, v); }
  }

  // ---------------------------------------------------------------- calls come to an end

  /** Steps that a push still has to take at most. */
  function PushLeft<T>(p: Push<T>): (n: nat) {
    match p
    case Ready => 0
    case Publish => 1
    case Begin => 2
    case Enter(_) => 3
    case Link(_) => 4
    case Clean(_) => 5
    case Fetched(_) => 6
    case Fetch => 7
    case Stored => 8
    case Store(_) => 9
  }

  function PopLeft(p: Pop): (n: nat) {
    match p
    case Rest => 0
    case Count => 1
    case Keep(_) => 2
    case Put(_) => 3
    case Free(_) => 3
    case Retire(_) => 4
    case Follow => 5
    case Leave => 6
  }

  lemma PushAdvances<T>(s: Fifo<T>, a: Addr, elements: seq<T>)
    requires StepPush(s, a, elements).Ok?
    ensures var r := StepPush(s, a, elements).state;
            && r.pop == s.pop && r.queueCapacity == s.queueCapacity
            && (!s.push.Ready? ==> PushLeft(r.push) < PushLeft(s.push))
  {
  }

  lemma PopAdvances<T>(s: Fifo<T>)
    requires StepPop(s).Ok?
    ensures var r := StepPop(s).state;
            && r.push == s.push && r.queueCapacity == s.queueCapacity
            && (!s.pop.Rest? ==> PopLeft(r.pop) < PopLeft(s.pop))
  {
  }

  /** Each step of a call brings its end nearer and changes neither what is sent nor what is received. */
  lemma StepEnds<T>(c: System<T>, v: View<T>, op: Op<T>)
    requires Sound(c, v) && Legal(c, op) && (op.PushStep? || op.PopStep?)
    ensures var r := Do(c, op);
            && r.Some? && r.value.sent == c.sent && r.value.received == c.received
            && r.value.queue.queueCapacity == c.queue.queueCapacity
            && (op.PushStep? ==> r.value.queue.pop == c.queue.pop)
            && (op.PopStep? ==> r.value.queue.push == c.queue.push)
            && (op.PushStep? && !c.queue.push.Ready? ==> PushLeft(r.value.queue.push) < PushLeft(c.queue.push))
            && (op.PopStep? && !c.queue.pop.Rest? ==> PopLeft(r.value.queue.pop) < PopLeft(c.queue.pop))
  {
    var u := StepSound(c, v, op);
    if op.PushStep? { PushAdvances(c.queue, op.a, op.elements); } else { PopAdvances(c.queue); }
  }

  lemma ReceivedIs<T>(c: System<T>, v: View<T>)
    requires Sound(c, v)
    ensures |c.received| <= |c.sent| && c.received == c.sent[..|c.received|]
  {
  }

  // ---------------------------------------------------------------- one thread at a time

  /** The producer alone pushes the values one after the other and finishes each push. */
  ghost predicate PushRun<T>(c: System<T>, ops: seq<Op<T>>, values: seq<T>)
    decreases |ops|
  {
    if ops == [] then values == [] && c.queue.push.Ready?
    else
      && Legal(c, ops[0]) && Do(c, ops[0]).Some?
      && match ops[0]
         case Push(x) => values != [] && x == values[0] && PushRun(Do(c, ops[0]).value, ops[1..], values[1..])
         case PushStep(_, _) => PushRun(Do(c, ops[0]).value, ops[1..], values)
         case _ => false
  }

  /** As many values as there is room for are all taken. */
  lemma {:induction false} AllSent<T>(c: System<T>, v: View<T>, ops: seq<Op<T>>, values: seq<T>)
    requires Sound(c, v) && PushRun(c, ops, values)
    requires Held(c) + (if c.queue.push.Ready? then 0 else 1) + |values| <= c.queue.queueCapacity
    ensures var r := Exec(c, ops);
            r.Some? && r.value.sent == c.sent + values && r.value.received == c.received && r.value.queue.push.Ready?
    decreases |ops|
  {
    if ops == [] {
      assert c.sent + values == c.sent;
    } else {
      var d := Do(c, ops[0]).value;
      var u := StepSound(c, v, ops[0]);
      if ops[0].Push? {
        PushTaken(c, v, values[0]);
        AllSent(d, u, ops[1..], values[1..]);
        assert c.sent + [values[0]] + values[1..] == c.sent + values;
      } else {
        StepEnds(c, v, ops[0]);
        AllSent(d, u, ops[1..], values);
      }
    }
  }

  /** On a fresh queue any values up to the capacity, pushed one after the other, are all sent. */
  lemma FreshTakesAll<T>(nodeCapacity: nat, queueCapacity: nat, a: Addr, elements: seq<T>, ops: seq<Op<T>>, values: seq<T>)
    requires 0 < nodeCapacity && |elements| == nodeCapacity && |values| <= queueCapacity
    requires PushRun(System(Fresh(nodeCapacity, queueCapacity, a, elements), [], []), ops, values)
    ensures var r := Exec(System(Fresh(nodeCapacity, queueCapacity, a, elements), [], []), ops);
            r.Some? && r.value.sent == values && Size(r.value.queue) == |values|
  {
    var c := System(Fresh(nodeCapacity, queueCapacity, a, elements), [], []);
    FreshSound(nodeCapacity, queueCapacity, a, elements);
    AllSent(c, View([], [a], [0]), ops, values);
    assert [] + values == values;
    PushRunLegal(c, ops, values);
    var v := ExecSound(c, View([], [a], [0]), ops);
    PushRunRests(c, ops, values);
    HeldIsSize(Exec(c, ops).value, v);
  }

  lemma {:induction false} PushRunLegal<T>(c: System<T>, ops: seq<Op<T>>, values: seq<T>)
    requires PushRun(c, ops, values)
    ensures LegalRun(c, ops)
    decreases |ops|
  {
    if ops != [] {
      PushRunLegal(Do(c, ops[0]).value, ops[1..], if ops[0].Push? then values[1..] else values);
    }
  }

  lemma {:induction false} PushRunRests<T>(c: System<T>, ops: seq<Op<T>>, values: seq<T>)
    requires PushRun(c, ops, values)
    ensures Exec(c, ops).Some? ==> Exec(c, ops).value.queue.pop == c.queue.pop
    decreases |ops|
  {
    if ops != [] {
      PushRunRests(Do(c, ops[0]).value, ops[1..], if ops[0].Push? then values[1..] else values);
    }
  }

  /** The consumer alone pops `n` times and finishes each pop. */
  ghost predicate PopRun<T>(c: System<T>, ops: seq<Op<T>>, n: nat)
    decreases |ops|
  {
    if ops == [] then n == 0 && c.queue.pop.Rest?
    else
      && Legal(c, ops[0]) && Do(c, ops[0]).Some?
      && match ops[0]
         case Pop => 0 < n && PopRun(Do(c, ops[0]).value, ops[1..], n - 1)
         case PopStep => PopRun(Do(c, ops[0]).value, ops[1..], n)
         case _ => false
  }

  /** As many pops as there are values counted give out exactly these, oldest first. */
  lemma {:induction false} AllReceived<T>(c: System<T>, v: View<T>, ops: seq<Op<T>>, n: nat)
    requires Sound(c, v) && PopRun(c, ops, n)
    requires n <= Held(c) - (if c.queue.pop.Rest? then 0 else 1)
    ensures var r, k := Exec(c, ops), |c.received| + n;
            r.Some? && r.value.sent == c.sent && k <= |c.sent| && r.value.received == c.sent[..k]
    decreases |ops|
  {
    ReceivedIs(c, v);
    if ops != [] {
      var d := Do(c, ops[0]).value;
      var u := StepSound(c, v, ops[0]);
      if ops[0].Pop? {
        PopGiven(c, v);
        AllReceived(d, u, ops[1..], n - 1);
      } else {
        StepEnds(c, v, ops[0]);
        AllReceived(d, u, ops[1..], n);
      }
    }
  }

  // ---------------------------------------------------------------- memory

  lemma {:induction false} StartIs<T>(s: Fifo<T>, v: View<T>, j: nat)
    requires StartsOk(s, v) && j < |v.starts|
    ensures v.starts[j] == v.starts[0] + j * s.nodeCapacity
  {
    if j > 0 {
      StartIs(s, v, j - 1);
      assert StartAt(v.starts, s.nodeCapacity, j);
      assert j * s.nodeCapacity == (j - 1) * s.nodeCapacity + s.nodeCapacity;
    }
  }

  lemma ChainLength<T>(s: Fifo<T>, v: View<T>)
    requires HeadOk(s, v) && TailOk(s, v) && StartsOk(s, v)
    ensures (|v.chain| - 2) * s.nodeCapacity <= Size(s)
  {
    var n := |v.chain| - 1;
    StartIs(s, v, n);
    assert Last(v.starts) == v.starts[n];
    assert (n - 1) * s.nodeCapacity == n * s.nodeCapacity - s.nodeCapacity;
  }

  lemma NodesInUse<T>(s: Fifo<T>, v: View<T>)
    requires NodesOk(s, v)
    ensures |s.nodes| <= |v.chain| + 4
  {
    assert |Owned(s, v)| == |v.chain| + |PushHand(s)| + |InBin(s)| + |PopHand(s)|;
  }

  lemma Fewer(a: int, b: int, n: nat)
    requires a <= b
    ensures a * n <= b * n
  {
    assert b * n == a * n + (b - a) * n;
  }

  /**
   No node is lost: over every run of one producer and one consumer the nodes that are allocated,
   but for six, are full of values in the queue.
   */
  lemma NothingLeaks<T>(nodeCapacity: nat, queueCapacity: nat, a: Addr, elements: seq<T>, ops: seq<Op<T>>)
    requires 0 < nodeCapacity && |elements| == nodeCapacity
    requires LegalRun(System(Fresh(nodeCapacity, queueCapacity, a, elements), [], []), ops)
    ensures var r := Exec(System(Fresh(nodeCapacity, queueCapacity, a, elements), [], []), ops);
            r.Some? && (|r.value.queue.nodes| - 6) * nodeCapacity <= Size(r.value.queue)
  {
    var c := System(Fresh(nodeCapacity, queueCapacity, a, elements), [], []);
    FreshSound(nodeCapacity, queueCapacity, a, elements);
    var v := ExecSound(c, View([], [a], [0]), ops);
    var q := Exec(c, ops).value.queue;
    SameCapacity(c, ops);
    ChainLength(q, v);
    NodesInUse(q, v);
    Fewer(|q.nodes| - 6, |v.chain| - 2, nodeCapacity);
  }

  lemma {:induction false} SameCapacity<T>(c: System<T>, ops: seq<Op<T>>)
    ensures Exec(c, ops).Some? ==> Exec(c, ops).value.queue.nodeCapacity == c.queue.nodeCapacity
    decreases |ops|
  {
    if ops != [] && Do(c, ops[0]).Some? { SameCapacity(Do(c, ops[0]).value, ops[1..]); }
  }
}
