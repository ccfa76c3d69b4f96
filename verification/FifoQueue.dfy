/**
 The chunked queue between one producer and one consumer.  Both run at the same time, so a state
 holds the place each of them has reached and a step is one access to shared memory.  A step that
 uses a freed node, a missing node, a null link or a slot outside a node is a fault.
 */
module FifoQueue {
  import opened Common

  const BIN := 3                             // slots of the recycle bin

  type Addr = nat

  datatype Node<T> = Node(elements: seq<T>, next: Option<Addr>)

  /** How far a push has come. */
  datatype Push<T> =
    | Ready
    | Store(value: T)        // not full: store the value
    | Stored                 // the node is used up: look into the bin
    | Fetch                  // bin not empty: read its first node
    | Fetched(node: Addr)    // move the bin's tail cursor
    | Clean(node: Addr)      // clear the link of the fetched node
    | Link(node: Addr)       // link the new node behind the head node
    | Enter(node: Addr)      // make it the head node
    | Begin                  // set the start index of the head node
    | Publish                // count the element

  /** How far a pop has come. */
  datatype Pop =
    | Rest
    | Leave                  // last slot of the node: set the next start index
    | Follow                 // move to the next node
    | Retire(node: Addr)     // look whether the bin has room for the old node
    | Free(node: Addr)       // it has not
    | Put(node: Addr)        // it has: store the node
    | Keep(node: Addr)       // move the bin's head cursor
    | Count                  // count the element off

  datatype Fifo<T> = Fifo(
    nodeCapacity: nat, queueCapacity: nat,
    nodes: map<Addr, Node<T>>,               // allocated nodes
    headIdx: nat, headStart: nat, headNode: Addr,
    tailIdx: nat, tailStart: nat, tailNode: Addr,
    bin: seq<Addr>, cursorHead: nat, cursorTail: nat,
    push: Push<T>, pop: Pop)

  datatype Result<T> = Fault | Ok(state: Fifo<T>)

  function Fresh<T>(nodeCapacity: nat, queueCapacity: nat, a: Addr, elements: seq<T>): (s: Fifo<T>) {
    Fifo(nodeCapacity, queueCapacity, map[a := Node(elements, None)], 0, 0, a, 0, 0, a, [0, 0, 0], 0, 0, Ready, Rest)
  }

  function Size<T>(s: Fifo<T>): (n: int) {
    s.headIdx - s.tailIdx
  }

  predicate BinEmpty<T>(s: Fifo<T>) {
    s.cursorHead == s.cursorTail
  }

  predicate BinFull<T>(s: Fifo<T>) {
    (s.cursorHead + 1) % BIN == s.cursorTail
  }

  // ---------------------------------------------------------------- the producer

  /** A push starts; a full queue refuses it. */
  function StartPush<T>(s: Fifo<T>, value: T): (r: Fifo<T>) {
    if Size(s) == s.queueCapacity then s else s.(push := Store(value))
  }

  /** The next step of the push; a new node is at address `a` and holds `elements`. */
  function StepPush<T>(s: Fifo<T>, a: Addr, elements: seq<T>): (r: Result<T>) {
    match s.push
    case Ready => Ok(s)
    case Store(value) =>
      var offset := s.headIdx - s.headStart;
      if s.headNode !in s.nodes || !(0 <= offset < |s.nodes[s.headNode].elements|) then Fault
      else
        var node := s.nodes[s.headNode];
        Ok(s.(nodes := s.nodes[s.headNode := node.(elements := node.elements[offset := value])],
              push := if offset + 1 == s.nodeCapacity then Stored else Publish))
    case Stored =>
      if BinEmpty(s) then Ok(s.(nodes := s.nodes[a := Node(elements, None)], push := Link(a)))
      else Ok(s.(push := Fetch))
    case Fetch =>
      if s.cursorTail >= |s.bin| then Fault else Ok(s.(push := Fetched(s.bin[s.cursorTail])))
    case Fetched(node) =>
      Ok(s.(cursorTail := (s.cursorTail + 1) % BIN, push := Clean(node)))
    case Clean(node) =>
      if node !in s.nodes then Fault
      else Ok(s.(nodes := s.nodes[node := s.nodes[node].(next := None)], push := Link(node)))
    case Link(node) =>
      if s.headNode !in s.nodes || node !in s.nodes || s.nodes[node].next != None then Fault
      else Ok(s.(nodes := s.nodes[s.headNode := s.nodes[s.headNode].(next := Some(node))], push := Enter(node)))
    case Enter(node) => Ok(s.(headNode := node, push := Begin))
    case Begin => Ok(s.(headStart := s.headIdx + 1, push := Publish))
    case Publish => Ok(s.(headIdx := s.headIdx + 1, push := Ready))
  }

  // ---------------------------------------------------------------- the consumer

  /** The value at the front. */
  function Front<T>(s: Fifo<T>): (r: Option<T>) {
    var offset := s.tailIdx - s.tailStart;
    if s.tailNode !in s.nodes || !(0 <= offset < |s.nodes[s.tailNode].elements|) then None
    else Some(s.nodes[s.tailNode].elements[offset])
  }

  /** A pop starts; an empty queue refuses it. */
  function StartPop<T>(s: Fifo<T>): (r: Fifo<T>) {
    if s.headIdx == s.tailIdx then s
    else s.(pop := if s.tailIdx - s.tailStart + 1 == s.nodeCapacity then Leave else Count)
  }

  function StepPop<T>(s: Fifo<T>): (r: Result<T>) {
    match s.pop
    case Rest => Ok(s)
    case Leave => Ok(s.(tailStart := s.tailIdx + 1, pop := Follow))
    case Follow =>
      if s.tailNode !in s.nodes || s.nodes[s.tailNode].next == None then Fault
      else Ok(s.(tailNode := s.nodes[s.tailNode].next.value, pop := Retire(s.tailNode)))
    case Retire(node) => Ok(s.(pop := if BinFull(s) then Free(node) else Put(node)))
    case Free(node) => if node !in s.nodes then Fault else Ok(s.(nodes := s.nodes - {node}, pop := Count))
    case Put(node) =>
      if s.cursorHead >= |s.bin| then Fault else Ok(s.(bin := s.bin[s.cursorHead := node], pop := Keep(node)))
    case Keep(node) => Ok(s.(cursorHead := (s.cursorHead + 1) % BIN, pop := Count))
    case Count => Ok(s.(tailIdx := s.tailIdx + 1, pop := Rest))
  }

  // ---------------------------------------------------------------- what a state means

  /** Every value ever pushed; the nodes from tail to head; the index of the first slot of each. */
  datatype View<T> = View(log: seq<T>, chain: seq<Addr>, starts: seq<nat>)

  /** The value is stored but not yet counted. */
  predicate Pending<T>(p: Push<T>) {
    !p.Ready? && !p.Store?
  }

  /** The head node is used up and its successor is not the head node yet. */
  predicate Growing<T>(p: Push<T>) {
    p.Stored? || p.Fetch? || p.Fetched? || p.Clean? || p.Link? || p.Enter?
  }

  ghost predicate HeadOk<T>(s: Fifo<T>, v: View<T>) {
    && v.chain != [] && |v.starts| == |v.chain| && s.headNode == Last(v.chain)
    && |v.log| == s.headIdx + (if Pending(s.push) then 1 else 0)
    && s.headStart == Last(v.starts) - (if s.push.Begin? then s.nodeCapacity else 0)
    && (if Growing(s.push) then |v.log| == Last(v.starts) + s.nodeCapacity
        else if s.push.Begin? then |v.log| == Last(v.starts)
        else Last(v.starts) <= |v.log| < Last(v.starts) + s.nodeCapacity)
  }

  ghost predicate TailOk<T>(s: Fifo<T>, v: View<T>) {
    && v.chain != [] && |v.starts| == |v.chain| && s.tailNode == v.chain[0]
    && s.tailIdx <= s.headIdx <= s.tailIdx + s.queueCapacity && (!s.pop.Rest? ==> s.tailIdx < s.headIdx)
    && (!s.push.Ready? ==> s.headIdx < s.tailIdx + s.queueCapacity)
    && (match s.pop
        case Rest => s.tailStart == v.starts[0] <= s.tailIdx < v.starts[0] + s.nodeCapacity
        case Leave => s.tailStart == v.starts[0] && s.tailIdx + 1 == v.starts[0] + s.nodeCapacity
        case Follow => s.tailStart == s.tailIdx + 1 == v.starts[0] + s.nodeCapacity
        case Count => s.tailStart == v.starts[0] <= s.tailIdx + 1 < v.starts[0] + s.nodeCapacity
        case _ => s.tailStart == v.starts[0] == s.tailIdx + 1)
  }

  ghost predicate StartsOk<T>(s: Fifo<T>, v: View<T>) {
    && 0 < s.nodeCapacity && v.chain != [] && |v.starts| == |v.chain|
    && (forall j :: 0 <= j < |v.starts| - 1 ==> v.starts[j] + s.nodeCapacity <= Last(v.starts))
    && (|v.starts| > 1 ==> v.starts[1] == v.starts[0] + s.nodeCapacity)
    && forall j {:trigger StartAt(v.starts, s.nodeCapacity, j)} :: 0 < j < |v.starts| ==> StartAt(v.starts, s.nodeCapacity, j)
  }

  /** Each node starts where the one before it ends. */
  ghost predicate StartAt(starts: seq<nat>, capacity: nat, j: nat) {
    0 < j < |starts| && starts[j] == starts[j - 1] + capacity
  }

  // Where each node is: in the chain, in the hands of the producer, in the bin or in the hands of
  // the consumer, in this order.

  function PushHand<T>(s: Fifo<T>): (r: seq<Addr>) {
    if s.push.Clean? || s.push.Link? || s.push.Enter? then [s.push.node] else []
  }

  function PopHand<T>(s: Fifo<T>): (r: seq<Addr>) {
    if s.pop.Retire? || s.pop.Free? || s.pop.Put? || s.pop.Keep? then [s.pop.node] else []
  }

  function InBin<T>(s: Fifo<T>): (r: seq<Addr>)
    requires |s.bin| == BIN
  {
    seq((s.cursorHead + BIN - s.cursorTail) % BIN, i requires 0 <= i => s.bin[(s.cursorTail + i) % BIN])
  }

  ghost predicate BinOk<T>(s: Fifo<T>) {
    && |s.bin| == BIN && s.cursorHead < BIN && s.cursorTail < BIN
    && (s.push.Fetch? || s.push.Fetched? ==> !BinEmpty(s))
    && (s.push.Fetched? ==> s.push.node == s.bin[s.cursorTail])
    && (s.pop.Put? || s.pop.Keep? ==> !BinFull(s))
    && (s.pop.Keep? ==> s.bin[s.cursorHead] == s.pop.node)
  }

  ghost function Owned<T>(s: Fifo<T>, v: View<T>): (r: seq<Addr>)
    requires |s.bin| == BIN
  {
    v.chain + PushHand(s) + InBin(s) + PopHand(s)
  }

  ghost predicate Distinct(xs: seq<Addr>) {
    forall i, j :: 0 <= i < j < |xs| ==> xs[i] != xs[j]
  }

  ghost predicate Allocated<T>(nodes: map<Addr, Node<T>>, xs: seq<Addr>, capacity: nat) {
    forall i {:trigger xs[i]} :: 0 <= i < |xs| ==> xs[i] in nodes && |nodes[xs[i]].elements| == capacity
  }

  /** Each node of the chain is linked to the next. */
  ghost predicate LinkAt<T>(s: Fifo<T>, v: View<T>, j: nat) {
    && j < |v.chain| && v.chain[j] in s.nodes
    && s.nodes[v.chain[j]].next ==
         (if j + 1 < |v.chain| then Some(v.chain[j + 1]) else if s.push.Enter? then Some(s.push.node) else None)
  }

  ghost predicate Linked<T>(s: Fifo<T>, v: View<T>) {
    forall j {:trigger LinkAt(s, v, j)} :: 0 <= j < |v.chain| ==> LinkAt(s, v, j)
  }

  /** Slot `o` of node `j` holds the value of its index, if that has been pushed. */
  ghost predicate CellAt<T>(nodes: map<Addr, Node<T>>, v: View<T>, j: nat, o: nat) {
    && j < |v.chain| && j < |v.starts| && v.chain[j] in nodes && o < |nodes[v.chain[j]].elements|
    && (v.starts[j] + o < |v.log| ==> nodes[v.chain[j]].elements[o] == v.log[v.starts[j] + o])
  }

  ghost predicate Cells<T>(s: Fifo<T>, v: View<T>) {
    forall j, o {:trigger CellAt(s.nodes, v, j, o)} ::
      0 <= j < |v.chain| && 0 <= o < s.nodeCapacity ==> CellAt(s.nodes, v, j, o)
  }

  ghost predicate NodesOk<T>(s: Fifo<T>, v: View<T>) {
    && BinOk(s) && Distinct(Owned(s, v)) && Allocated(s.nodes, Owned(s, v), s.nodeCapacity)
    && |s.nodes| == |Owned(s, v)|
    && (s.push.Link? || s.push.Enter? ==> s.push.node in s.nodes && s.nodes[s.push.node].next == None)
  }

  ghost predicate Inv<T>(s: Fifo<T>, v: View<T>) {
    && HeadOk(s, v) && TailOk(s, v) && StartsOk(s, v) && NodesOk(s, v) && Linked(s, v) && Cells(s, v)
  }
}
