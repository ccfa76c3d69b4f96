/** Every step of the producer and of the consumer keeps the queue in order. */
module FifoRun {
  import opened Common
  import opened FifoQueue

  // ---------------------------------------------------------------- sequences of nodes

  lemma Rotated(x: Addr, xs: seq<Addr>)
    requires Distinct([x] + xs)
    ensures Distinct(xs + [x])
  {
    forall i, j | 0 <= i < j < |xs + [x]| ensures (xs + [x])[i] != (xs + [x])[j] {
      assert ([x] + xs)[i + 1] == xs[i];
      assert j < |xs| ==> ([x] + xs)[j + 1] == xs[j];
      assert ([x] + xs)[0] == x;
    }
  }

  lemma Inserted(xs: seq<Addr>, a: Addr, ys: seq<Addr>)
    requires Distinct(xs + ys) && a !in xs && a !in ys
    ensures Distinct(xs + [a] + ys)
  {
    var zs := xs + [a] + ys;
    forall i, j | 0 <= i < j < |zs| ensures zs[i] != zs[j] {
      var i', j' := if i < |xs| then i else i - 1, if j < |xs| then j else j - 1;
      if i != |xs| { assert zs[i] == (xs + ys)[i']; }
      if j != |xs| { assert zs[j] == (xs + ys)[j']; }
    }
  }

  // ---------------------------------------------------------------- parts that a step leaves alone

  /** The nodes of the chain are the same in both states. */
  ghost predicate SameChain<T>(was: map<Addr, Node<T>>, now: map<Addr, Node<T>>, chain: seq<Addr>) {
    forall j :: 0 <= j < |chain| ==> chain[j] in was && chain[j] in now && now[chain[j]] == was[chain[j]]
  }

  lemma CellsKept<T>(s: Fifo<T>, v: View<T>, r: Fifo<T>)
    requires Cells(s, v) && SameChain(s.nodes, r.nodes, v.chain) && r.nodeCapacity == s.nodeCapacity
    ensures Cells(r, v)
  {
    forall j, o | 0 <= j < |v.chain| && 0 <= o < r.nodeCapacity ensures CellAt(r.nodes, v, j, o) {
      assert CellAt(s.nodes, v, j, o);
    }
  }

  lemma LinkedKept<T>(s: Fifo<T>, v: View<T>, r: Fifo<T>)
    requires Linked(s, v) && SameChain(s.nodes, r.nodes, v.chain)
    requires !s.push.Enter? && !r.push.Enter?
    ensures Linked(r, v)
  {
    forall j | 0 <= j < |v.chain| ensures LinkAt(r, v, j) { assert LinkAt(s, v, j); }
  }

  lemma ChainOwned<T>(s: Fifo<T>, v: View<T>)
    requires NodesOk(s, v)
    ensures Distinct(v.chain) && Allocated(s.nodes, v.chain, s.nodeCapacity)
    ensures forall i, j :: 0 <= i < |v.chain| && 0 <= j < |PushHand(s)| ==> v.chain[i] != PushHand(s)[j]
    ensures forall i, j :: 0 <= i < |v.chain| && 0 <= j < |PopHand(s)| ==> v.chain[i] != PopHand(s)[j]
    ensures forall i, j :: 0 <= i < |v.chain| && 0 <= j < |InBin(s)| ==> v.chain[i] != InBin(s)[j]
    ensures Allocated(s.nodes, PushHand(s), s.nodeCapacity) && Allocated(s.nodes, PopHand(s), s.nodeCapacity)
    ensures Allocated(s.nodes, InBin(s), s.nodeCapacity)
  {
    Parts(s.nodes, s.nodeCapacity, v.chain, PushHand(s), InBin(s), PopHand(s), Owned(s, v));
  }

  /** The four parts of the node list, each by itself and against the chain. */
  lemma Parts<T>(nodes: map<Addr, Node<T>>, capacity: nat, chain: seq<Addr>, push: seq<Addr>, bin: seq<Addr>,
                 pop: seq<Addr>, o: seq<Addr>)
    requires o == chain + push + bin + pop && Distinct(o) && Allocated(nodes, o, capacity)
    ensures Distinct(chain) && Allocated(nodes, chain, capacity)
    ensures forall i, j :: 0 <= i < |chain| && 0 <= j < |push| ==> chain[i] != push[j]
    ensures forall i, j :: 0 <= i < |chain| && 0 <= j < |pop| ==> chain[i] != pop[j]
    ensures forall i, j :: 0 <= i < |chain| && 0 <= j < |bin| ==> chain[i] != bin[j]
    ensures Allocated(nodes, push, capacity) && Allocated(nodes, pop, capacity) && Allocated(nodes, bin, capacity)
  {
    var n, p, b := |chain|, |push|, |bin|;
    assert forall i :: 0 <= i < n ==> o[i] == chain[i];
    assert forall j :: 0 <= j < p ==> o[n + j] == push[j];
    assert forall j :: 0 <= j < b ==> o[n + p + j] == bin[j];
    assert forall j :: 0 <= j < |pop| ==> o[n + p + b + j] == pop[j];
  }

  // ---------------------------------------------------------------- push

  lemma StartPushKeeps<T>(s: Fifo<T>, v: View<T>, value: T)
    requires Inv(s, v) && s.push.Ready?
    ensures Inv(StartPush(s, value), v)
  {
    var r := StartPush(s, value);
    ChainOwned(s, v);
    LinkedKept(s, v, r);
    CellsKept(s, v, r);
    assert Owned(r, v) == Owned(s, v);
  }

  lemma StoreKeeps<T>(s: Fifo<T>, v: View<T>, a: Addr, elements: seq<T>)
    requires Inv(s, v) && s.push.Store?
    ensures StepPush(s, a, elements).Ok? && Inv(StepPush(s, a, elements).state, v.(log := v.log + [s.push.value]))
  {
    ChainOwned(s, v);
    var n := |v.chain| - 1;
    var offset := s.headIdx - s.headStart;
    assert s.headNode == v.chain[n];
    var r := StepPush(s, a, elements).state;
    var u := v.(log := v.log + [s.push.value]);
    forall j | 0 <= j < |u.chain| ensures LinkAt(r, u, j) { assert LinkAt(s, v, j); }
    StoreCells(s, v, r, u, n, offset);
    assert Owned(r, u) == Owned(s, v);
    assert Allocated(r.nodes, Owned(r, u), r.nodeCapacity);
  }

  /** Storing the next value fills the slot that its index names. */
  lemma StoreCells<T>(s: Fifo<T>, v: View<T>, r: Fifo<T>, u: View<T>, n: nat, offset: nat)
    requires Cells(s, v) && Distinct(v.chain) && |v.starts| == |v.chain| && s.push.Store? && n == |v.chain| - 1
    requires forall j :: 0 <= j < n ==> v.starts[j] + s.nodeCapacity <= v.starts[n]
    requires v.chain[n] in s.nodes && offset < s.nodeCapacity && offset < |s.nodes[v.chain[n]].elements| && v.starts[n] + offset == |v.log|
    requires r.nodeCapacity == s.nodeCapacity && u == v.(log := v.log + [s.push.value])
    requires var node := s.nodes[v.chain[n]];
             r.nodes == s.nodes[v.chain[n] := node.(elements := node.elements[offset := s.push.value])]
    ensures Cells(r, u)
  {
    var cell := s.nodes[v.chain[n]].(elements := s.nodes[v.chain[n]].elements[offset := s.push.value]);
    forall j, o | 0 <= j < |u.chain| && 0 <= o < r.nodeCapacity ensures CellAt(r.nodes, u, j, o) {
      assert CellAt(s.nodes, v, j, o);
      StoreCell(s.nodes, v, n, offset, s.push.value, cell, j, o);
    }
  }

  lemma StoreCell<T>(nodes: map<Addr, Node<T>>, v: View<T>, n: nat, offset: nat, value: T, cell: Node<T>, j: nat, o: nat)
    requires CellAt(nodes, v, j, o) && CellAt(nodes, v, n, offset) && v.starts[n] + offset == |v.log|
    requires cell.elements == nodes[v.chain[n]].elements[offset := value]
    requires j != n ==> v.chain[j] != v.chain[n] && v.starts[j] + o < v.starts[n]
    ensures CellAt(nodes[v.chain[n] := cell], v.(log := v.log + [value]), j, o)
  {
  }

  /** A new node, fresh from the allocator. */
  lemma AllocateKeeps<T>(s: Fifo<T>, v: View<T>, a: Addr, elements: seq<T>)
    requires Inv(s, v) && s.push.Stored? && BinEmpty(s) && a !in s.nodes && |elements| == s.nodeCapacity
    ensures Inv(StepPush(s, a, elements).state, v)
  {
    var r := StepPush(s, a, elements).state;
    ChainOwned(s, v);
    assert Owned(s, v) == v.chain + PopHand(s);
    assert forall i :: 0 <= i < |Owned(s, v)| ==> Owned(s, v)[i] in s.nodes;
    Inserted(v.chain, a, PopHand(s));
    assert InBin(r) == [] && Owned(r, v) == v.chain + [a] + PopHand(s);
    assert SameChain(s.nodes, r.nodes, v.chain);
    LinkedKept(s, v, r);
    CellsKept(s, v, r);
  }

  lemma LookKeeps<T>(s: Fifo<T>, v: View<T>, a: Addr, elements: seq<T>)
    requires Inv(s, v) && s.push.Stored? && !BinEmpty(s)
    ensures Inv(StepPush(s, a, elements).state, v)
  {
    var r := StepPush(s, a, elements).state;
    ChainOwned(s, v);
    assert Owned(r, v) == Owned(s, v);
    LinkedKept(s, v, r);
    CellsKept(s, v, r);
  }

  lemma FetchKeeps<T>(s: Fifo<T>, v: View<T>, a: Addr, elements: seq<T>)
    requires Inv(s, v) && s.push.Fetch?
    ensures StepPush(s, a, elements).Ok? && Inv(StepPush(s, a, elements).state, v)
  {
    var r := StepPush(s, a, elements).state;
    ChainOwned(s, v);
    assert Owned(r, v) == Owned(s, v);
    LinkedKept(s, v, r);
    CellsKept(s, v, r);
  }

  /** Taking the first node out of the bin. */
  lemma BinPop<T>(s: Fifo<T>, r: Fifo<T>)
    requires BinOk(s) && !BinEmpty(s) && r.bin == s.bin && r.cursorHead == s.cursorHead
    requires r.cursorTail == (s.cursorTail + 1) % BIN
    ensures InBin(s) == [s.bin[s.cursorTail]] + InBin(r)
    ensures BinFull(r) ==> BinFull(s)
  {
  }

  lemma FetchedOwned<T>(s: Fifo<T>, v: View<T>, r: Fifo<T>)
    requires NodesOk(s, v) && s.push.Fetched?
    requires r == s.(cursorTail := (s.cursorTail + 1) % BIN, push := Clean(s.push.node))
    ensures NodesOk(r, v)
  {
    BinPop(s, r);
    assert PushHand(s) == [] && PushHand(r) == [s.push.node];
    assert Owned(r, v) == Owned(s, v);
  }

  lemma FetchedKeeps<T>(s: Fifo<T>, v: View<T>, a: Addr, elements: seq<T>)
    requires Inv(s, v) && s.push.Fetched?
    ensures StepPush(s, a, elements).Ok? && Inv(StepPush(s, a, elements).state, v)
  {
    var r := s.(cursorTail := (s.cursorTail + 1) % BIN, push := Clean(s.push.node));
    FetchedOwned(s, v, r);
    ChainOwned(s, v);
    LinkedKept(s, v, r);
    CellsKept(s, v, r);
  }

  lemma CleanKeeps<T>(s: Fifo<T>, v: View<T>, a: Addr, elements: seq<T>)
    requires Inv(s, v) && s.push.Clean?
    ensures StepPush(s, a, elements).Ok? && Inv(StepPush(s, a, elements).state, v)
  {
    ChainOwned(s, v);
    assert PushHand(s)[0] == s.push.node;
    var r := StepPush(s, a, elements).state;
    assert Owned(r, v) == Owned(s, v);
    assert SameChain(s.nodes, r.nodes, v.chain);
    LinkedKept(s, v, r);
    CellsKept(s, v, r);
  }

  lemma LinkKeeps<T>(s: Fifo<T>, v: View<T>, a: Addr, elements: seq<T>)
    requires Inv(s, v) && s.push.Link?
    ensures StepPush(s, a, elements).Ok? && Inv(StepPush(s, a, elements).state, v)
  {
    ChainOwned(s, v);
    assert PushHand(s)[0] == s.push.node;
    var n := |v.chain| - 1;
    assert s.headNode == v.chain[n];
    var r := StepPush(s, a, elements).state;
    assert Owned(r, v) == Owned(s, v);
    forall j | 0 <= j < |v.chain| ensures LinkAt(r, v, j) { assert LinkAt(s, v, j); }
    forall j, o | 0 <= j < |v.chain| && 0 <= o < r.nodeCapacity ensures CellAt(r.nodes, v, j, o) {
      assert CellAt(s.nodes, v, j, o);
    }
  }

  function EnterView<T>(s: Fifo<T>, v: View<T>): (r: View<T>)
    requires s.push.Enter? && v.starts != []
  {
    v.(chain := v.chain + [s.push.node], starts := v.starts + [Last(v.starts) + s.nodeCapacity])
  }

  lemma EnterLinks<T>(s: Fifo<T>, v: View<T>, r: Fifo<T>, u: View<T>)
    requires Linked(s, v) && s.push.Enter? && r.push.Begin? && r.nodes == s.nodes
    requires v.starts != [] && u == EnterView(s, v)
    requires s.push.node in s.nodes && s.nodes[s.push.node].next == None
    ensures Linked(r, u)
  {
    forall j | 0 <= j < |u.chain| ensures LinkAt(r, u, j) {
      if j < |v.chain| { assert LinkAt(s, v, j); }
    }
  }

  lemma EnterCells<T>(s: Fifo<T>, v: View<T>, u: View<T>)
    requires Cells(s, v) && s.push.Enter? && v.starts != [] && |v.starts| == |v.chain| && u == EnterView(s, v)
    requires s.push.node in s.nodes && |s.nodes[s.push.node].elements| == s.nodeCapacity
    requires |v.log| == Last(v.starts) + s.nodeCapacity
    ensures forall j, o {:trigger CellAt(s.nodes, u, j, o)} ::
              0 <= j < |u.chain| && 0 <= o < s.nodeCapacity ==> CellAt(s.nodes, u, j, o)
  {
    forall j, o | 0 <= j < |u.chain| && 0 <= o < s.nodeCapacity ensures CellAt(s.nodes, u, j, o) {
      if j < |v.chain| { assert CellAt(s.nodes, v, j, o); }
    }
  }

  lemma EnterOwned<T>(s: Fifo<T>, v: View<T>, r: Fifo<T>, u: View<T>)
    requires NodesOk(s, v) && s.push.Enter? && r == s.(headNode := s.push.node, push := Begin)
    requires v.starts != [] && u == EnterView(s, v)
    ensures NodesOk(r, u) && s.push.node in s.nodes && |s.nodes[s.push.node].elements| == s.nodeCapacity
  {
    assert PushHand(s) == [s.push.node];
    assert Owned(r, u) == Owned(s, v);
    assert Owned(s, v)[|v.chain|] == s.push.node;
  }

  lemma EnterIndexes<T>(s: Fifo<T>, v: View<T>, r: Fifo<T>, u: View<T>)
    requires HeadOk(s, v) && TailOk(s, v) && StartsOk(s, v) && s.push.Enter?
    requires r == s.(headNode := s.push.node, push := Begin) && u == EnterView(s, v)
    ensures HeadOk(r, u) && TailOk(r, u) && StartsOk(r, u)
  {
    EnterStarts(s, v, u.starts);
  }

  lemma EnterStarts<T>(s: Fifo<T>, v: View<T>, starts: seq<nat>)
    requires StartsOk(s, v) && starts == v.starts + [Last(v.starts) + s.nodeCapacity]
    ensures forall j :: 0 <= j < |starts| - 1 ==> starts[j] + s.nodeCapacity <= Last(starts)
    ensures starts[0] == v.starts[0] && starts[1] == starts[0] + s.nodeCapacity
    ensures forall j {:trigger StartAt(starts, s.nodeCapacity, j)} :: 0 < j < |starts| ==> StartAt(starts, s.nodeCapacity, j)
  {
    forall j | 0 < j < |starts| ensures StartAt(starts, s.nodeCapacity, j) {
      if j < |v.starts| { assert StartAt(v.starts, s.nodeCapacity, j); }
    }
  }

  lemma EnterKeeps<T>(s: Fifo<T>, v: View<T>, a: Addr, elements: seq<T>)
    requires Inv(s, v) && s.push.Enter?
    ensures StepPush(s, a, elements).Ok? && Inv(StepPush(s, a, elements).state, EnterView(s, v))
  {
    var r, u := s.(headNode := s.push.node, push := Begin), EnterView(s, v);
    EnterOwned(s, v, r, u);
    EnterIndexes(s, v, r, u);
    EnterLinks(s, v, r, u);
    EnterCells(s, v, u);
  }

  lemma BeginKeeps<T>(s: Fifo<T>, v: View<T>, a: Addr, elements: seq<T>)
    requires Inv(s, v) && (s.push.Begin? || s.push.Publish?)
    ensures StepPush(s, a, elements).Ok? && Inv(StepPush(s, a, elements).state, v)
  {
    var r := StepPush(s, a, elements).state;
    ChainOwned(s, v);
    assert Owned(r, v) == Owned(s, v);
    LinkedKept(s, v, r);
    CellsKept(s, v, r);
  }

  // ---------------------------------------------------------------- pop

  /** The front of a queue that is not empty is the oldest value that has not been popped. */
  lemma FrontIs<T>(s: Fifo<T>, v: View<T>)
    requires Inv(s, v) && s.pop.Rest? && s.tailIdx < s.headIdx
    ensures Front(s) == Some(v.log[s.tailIdx])
  {
    ChainOwned(s, v);
    assert CellAt(s.nodes, v, 0, s.tailIdx - s.tailStart);
  }

  lemma StartPopKeeps<T>(s: Fifo<T>, v: View<T>)
    requires Inv(s, v) && s.pop.Rest?
    ensures Inv(StartPop(s), v)
  {
    var r := StartPop(s);
    ChainOwned(s, v);
    assert Owned(r, v) == Owned(s, v);
    SameLinks(s, v, r);
    CellsKept(s, v, r);
  }

  lemma SameLinks<T>(s: Fifo<T>, v: View<T>, r: Fifo<T>)
    requires Linked(s, v) && SameChain(s.nodes, r.nodes, v.chain) && r.push == s.push
    ensures Linked(r, v)
  {
    forall j | 0 <= j < |v.chain| ensures LinkAt(r, v, j) { assert LinkAt(s, v, j); }
  }

  /** Steps of a pop that leave the chain alone. */
  lemma PopKeeps<T>(s: Fifo<T>, v: View<T>)
    requires Inv(s, v) && (s.pop.Leave? || s.pop.Retire? || s.pop.Count?)
    ensures StepPop(s).Ok? && Inv(StepPop(s).state, v)
  {
    var r := StepPop(s).state;
    ChainOwned(s, v);
    assert Owned(r, v) == Owned(s, v);
    SameLinks(s, v, r);
    CellsKept(s, v, r);
  }

  /** The old node has a successor: it is not the producer's head node. */
  lemma Successor<T>(s: Fifo<T>, v: View<T>)
    requires Inv(s, v) && s.pop.Follow?
    ensures |v.chain| > 1 && s.tailNode in s.nodes && s.nodes[s.tailNode].next == Some(v.chain[1])
  {
    assert LinkAt(s, v, 0);
  }

  function FollowView<T>(v: View<T>): (r: View<T>)
    requires v.chain != [] && v.starts != []
  {
    v.(chain := v.chain[1..], starts := v.starts[1..])
  }

  lemma FollowLinks<T>(s: Fifo<T>, v: View<T>, r: Fifo<T>)
    requires Linked(s, v) && |v.chain| > 1 && v.starts != [] && r.nodes == s.nodes && r.push == s.push
    ensures Linked(r, FollowView(v))
  {
    forall j | 0 <= j < |FollowView(v).chain| ensures LinkAt(r, FollowView(v), j) { assert LinkAt(s, v, j + 1); }
  }

  lemma FollowCells<T>(s: Fifo<T>, v: View<T>, r: Fifo<T>)
    requires Cells(s, v) && |v.chain| == |v.starts| > 1 && r.nodes == s.nodes && r.nodeCapacity == s.nodeCapacity
    ensures Cells(r, FollowView(v))
  {
    var u := FollowView(v);
    forall j, o | 0 <= j < |u.chain| && 0 <= o < r.nodeCapacity ensures CellAt(r.nodes, u, j, o) {
      assert CellAt(s.nodes, v, j + 1, o);
    }
  }

  lemma FollowStarts<T>(s: Fifo<T>, v: View<T>, r: Fifo<T>)
    requires StartsOk(s, v) && |v.chain| > 1 && r.nodeCapacity == s.nodeCapacity
    ensures StartsOk(r, FollowView(v))
  {
    var starts := v.starts[1..];
    forall j | 0 < j < |starts| ensures StartAt(starts, s.nodeCapacity, j) {
      assert StartAt(v.starts, s.nodeCapacity, j + 1);
    }
    if |starts| > 1 { assert StartAt(starts, s.nodeCapacity, 1); }
  }

  lemma FollowOwned<T>(s: Fifo<T>, v: View<T>, r: Fifo<T>)
    requires NodesOk(s, v) && s.pop.Follow? && |v.chain| > 1 && v.starts != []
    requires r == s.(tailNode := v.chain[1], pop := Retire(v.chain[0]))
    ensures NodesOk(r, FollowView(v))
  {
    var u := FollowView(v);
    var rest := v.chain[1..] + PushHand(s) + InBin(s);
    assert Owned(s, v) == [v.chain[0]] + rest;
    Rotated(v.chain[0], rest);
    assert Owned(r, u) == rest + [v.chain[0]];
    forall i | 0 <= i < |Owned(r, u)|
      ensures Owned(r, u)[i] in r.nodes && |r.nodes[Owned(r, u)[i]].elements| == r.nodeCapacity
    {
      assert Owned(r, u)[i] == Owned(s, v)[if i < |rest| then i + 1 else 0];
    }
  }

  lemma FollowKeeps<T>(s: Fifo<T>, v: View<T>)
    requires Inv(s, v) && s.pop.Follow?
    ensures StepPop(s).Ok? && Inv(StepPop(s).state, FollowView(v))
  {
    Successor(s, v);
    var r := StepPop(s).state;
    FollowStarts(s, v, r);
    FollowOwned(s, v, r);
    FollowLinks(s, v, r);
    FollowCells(s, v, r);
  }

  lemma FreeKeeps<T>(s: Fifo<T>, v: View<T>)
    requires Inv(s, v) && s.pop.Free?
    ensures StepPop(s).Ok? && Inv(StepPop(s).state, v)
  {
    ChainOwned(s, v);
    assert PopHand(s)[0] == s.pop.node;
    var r := StepPop(s).state;
    assert Owned(s, v) == Owned(r, v) + [s.pop.node];
    forall i | 0 <= i < |Owned(r, v)|
      ensures Owned(r, v)[i] in r.nodes && |r.nodes[Owned(r, v)[i]].elements| == r.nodeCapacity
    {
      assert Owned(r, v)[i] == Owned(s, v)[i] != Owned(s, v)[|Owned(r, v)|];
    }
    assert Distinct(Owned(r, v)) by {
      assert forall i :: 0 <= i < |Owned(r, v)| ==> Owned(r, v)[i] == Owned(s, v)[i];
    }
    HandAllocated(r, v);
    assert SameChain(s.nodes, r.nodes, v.chain);
    SameLinks(s, v, r);
    CellsKept(s, v, r);
  }

  lemma HandAllocated<T>(r: Fifo<T>, v: View<T>)
    requires |r.bin| == BIN && Allocated(r.nodes, Owned(r, v), r.nodeCapacity)
    ensures Allocated(r.nodes, PushHand(r), r.nodeCapacity) && Allocated(r.nodes, v.chain, r.nodeCapacity)
  {
    assert forall i :: 0 <= i < |v.chain| ==> Owned(r, v)[i] == v.chain[i];
    assert forall i :: 0 <= i < |PushHand(r)| ==> Owned(r, v)[|v.chain| + i] == PushHand(r)[i];
  }

  lemma BinSlot<T>(s: Fifo<T>, r: Fifo<T>)
    requires BinOk(s) && s.pop.Put? && r == s.(bin := s.bin[s.cursorHead := s.pop.node], pop := Keep(s.pop.node))
    ensures InBin(r) == InBin(s) && BinOk(r)
  {
  }

  lemma PutKeeps<T>(s: Fifo<T>, v: View<T>)
    requires Inv(s, v) && s.pop.Put?
    ensures StepPop(s).Ok? && Inv(StepPop(s).state, v)
  {
    var r := StepPop(s).state;
    ChainOwned(s, v);
    BinSlot(s, r);
    assert Owned(r, v) == Owned(s, v);
    SameLinks(s, v, r);
    CellsKept(s, v, r);
  }

  lemma BinPush<T>(s: Fifo<T>, r: Fifo<T>)
    requires BinOk(s) && s.pop.Keep? && r == s.(cursorHead := (s.cursorHead + 1) % BIN, pop := Count)
    ensures InBin(r) == InBin(s) + [s.pop.node] && BinOk(r)
  {
  }

  lemma KeepKeeps<T>(s: Fifo<T>, v: View<T>)
    requires Inv(s, v) && s.pop.Keep?
    ensures StepPop(s).Ok? && Inv(StepPop(s).state, v)
  {
    var r := StepPop(s).state;
    ChainOwned(s, v);
    BinPush(s, r);
    assert Owned(r, v) == Owned(s, v);
    SameLinks(s, v, r);
    CellsKept(s, v, r);
  }

  /**
   The node that a pop frees or recycles is not the producer's head node, and no node of the bin
   is in the chain that either thread walks.
   */
  lemma Separate<T>(s: Fifo<T>, v: View<T>, i: nat)
    requires Inv(s, v)
    ensures s.pop.Retire? || s.pop.Free? || s.pop.Put? || s.pop.Keep? ==> s.pop.node != s.headNode
    ensures i < |InBin(s)| ==> InBin(s)[i] !in v.chain && InBin(s)[i] in s.nodes
  {
    ChainOwned(s, v);
    assert forall j :: 0 <= j < |PopHand(s)| ==> PopHand(s)[j] != v.chain[|v.chain| - 1];
    if |PopHand(s)| > 0 { assert PopHand(s)[0] == s.pop.node; }
  }

  // ---------------------------------------------------------------- runs

  /** The queue with the values accepted from the producer and those handed to the consumer. */
  datatype System<T> = System(queue: Fifo<T>, sent: seq<T>, received: seq<T>)

  datatype Op<T> =
    | Push(value: T)
    | PushStep(a: Addr, elements: seq<T>)
    | Pop
    | PopStep

  /** Each thread starts a call when its last one is over; the allocator gives unused memory. */
  predicate Legal<T>(c: System<T>, op: Op<T>) {
    match op
    case Push(_) => c.queue.push.Ready?
    case PushStep(a, elements) => a !in c.queue.nodes && |elements| == c.queue.nodeCapacity
    case Pop => c.queue.pop.Rest?
    case PopStep => true
  }

  /** One step; the consumer reads the front just before each pop. */
  function Do<T>(c: System<T>, op: Op<T>): (r: Option<System<T>>) {
    match op
    case Push(value) =>
      var q := StartPush(c.queue, value);
      Some(c.(queue := q, sent := if q.push.Store? then c.sent + [value] else c.sent))
    case PushStep(a, elements) =>
      var r := StepPush(c.queue, a, elements);
      if r.Fault? then None else Some(c.(queue := r.state))
    case Pop =>
      if c.queue.headIdx == c.queue.tailIdx then Some(c)
      else if Front(c.queue) == None then None
      else Some(c.(queue := StartPop(c.queue), received := c.received + [Front(c.queue).value]))
    case PopStep =>
      var r := StepPop(c.queue);
      if r.Fault? then None else Some(c.(queue := r.state))
  }

  ghost predicate Sound<T>(c: System<T>, v: View<T>) {
    var q := c.queue;
    && Inv(q, v)
    && c.sent == (if q.push.Store? then v.log + [q.push.value] else v.log)
    && c.received == v.log[..q.tailIdx + if q.pop.Rest? then 0 else 1]
  }

  lemma FreshSound<T>(nodeCapacity: nat, queueCapacity: nat, a: Addr, elements: seq<T>)
    requires 0 < nodeCapacity && |elements| == nodeCapacity
    ensures Sound(System(Fresh(nodeCapacity, queueCapacity, a, elements), [], []), View([], [a], [0]))
  {
    var s, v := Fresh(nodeCapacity, queueCapacity, a, elements), View([], [a], [0]);
    assert InBin(s) == [] && Owned(s, v) == [a];
    assert LinkAt(s, v, 0);
    assert Linked(s, v) && Cells(s, v);
  }

  /** Steps of a push that neither store the value nor extend the chain. */
  lemma QuietPushKeeps<T>(s: Fifo<T>, v: View<T>, a: Addr, elements: seq<T>)
    requires Inv(s, v) && !s.push.Store? && !s.push.Enter? && a !in s.nodes && |elements| == s.nodeCapacity
    ensures StepPush(s, a, elements).Ok? && Inv(StepPush(s, a, elements).state, v)
  {
    match s.push
    case Ready =>
    case Stored => if BinEmpty(s) { AllocateKeeps(s, v, a, elements); } else { LookKeeps(s, v, a, elements); }
    case Fetch => FetchKeeps(s, v, a, elements);
    case Fetched(_) => FetchedKeeps(s, v, a, elements);
    case Clean(_) => CleanKeeps(s, v, a, elements);
    case Link(_) => LinkKeeps(s, v, a, elements);
    case Begin => BeginKeeps(s, v, a, elements);
    case Publish => BeginKeeps(s, v, a, elements);
  }

  /** The values sent and received agree with the log. */
  ghost predicate Accounted<T>(c: System<T>, q: Fifo<T>, log: seq<T>) {
    && c.sent == (if q.push.Store? then log + [q.push.value] else log)
    && q.tailIdx + (if q.pop.Rest? then 0 else 1) <= |log|
    && c.received == log[..q.tailIdx + if q.pop.Rest? then 0 else 1]
  }

  lemma SoundAccounts<T>(c: System<T>, v: View<T>)
    requires Inv(c.queue, v)
    ensures Sound(c, v) <==> Accounted(c, c.queue, v.log)
  {
  }

  lemma StoreAccounts<T>(c: System<T>, q: Fifo<T>, log: seq<T>, r: Fifo<T>)
    requires Accounted(c, q, log) && q.push.Store? && !r.push.Store? && r.tailIdx == q.tailIdx && r.pop == q.pop
    ensures Accounted(c, r, log + [q.push.value])
  {
  }

  lemma StoreSound<T>(c: System<T>, v: View<T>, a: Addr, elements: seq<T>)
    requires Sound(c, v) && c.queue.push.Store?
    ensures var r := StepPush(c.queue, a, elements);
            r.Ok? && Sound(c.(queue := r.state), v.(log := v.log + [c.queue.push.value]))
  {
    StoreKeeps(c.queue, v, a, elements);
    SoundAccounts(c, v);
    var r := StepPush(c.queue, a, elements).state;
    StoreAccounts(c, c.queue, v.log, r);
    SoundAccounts(c.(queue := r), v.(log := v.log + [c.queue.push.value]));
  }

  lemma EnterSound<T>(c: System<T>, v: View<T>, a: Addr, elements: seq<T>)
    requires Sound(c, v) && c.queue.push.Enter?
    ensures var r := StepPush(c.queue, a, elements); r.Ok? && Sound(c.(queue := r.state), EnterView(c.queue, v))
  {
    EnterKeeps(c.queue, v, a, elements);
    SoundAccounts(c, v);
    SoundAccounts(c.(queue := StepPush(c.queue, a, elements).state), EnterView(c.queue, v));
  }

  lemma QuietSound<T>(c: System<T>, v: View<T>, a: Addr, elements: seq<T>)
    requires Sound(c, v) && Legal(c, PushStep(a, elements)) && !c.queue.push.Store? && !c.queue.push.Enter?
    ensures var r := StepPush(c.queue, a, elements); r.Ok? && Sound(c.(queue := r.state), v)
  {
    QuietPushKeeps(c.queue, v, a, elements);
    SoundAccounts(c, v);
    SoundAccounts(c.(queue := StepPush(c.queue, a, elements).state), v);
  }

  lemma PushStepSound<T>(c: System<T>, v: View<T>, a: Addr, elements: seq<T>) returns (u: View<T>)
    requires Sound(c, v) && Legal(c, PushStep(a, elements))
    ensures Do(c, PushStep(a, elements)).Some? && Sound(Do(c, PushStep(a, elements)).value, u)
  {
    if c.queue.push.Store? {
      StoreSound(c, v, a, elements);
      u := v.(log := v.log + [c.queue.push.value]);
    } else if c.queue.push.Enter? {
      EnterSound(c, v, a, elements);
      u := EnterView(c.queue, v);
    } else {
      QuietSound(c, v, a, elements);
      u := v;
    }
  }

  /** Steps of a pop that do not shorten the chain. */
  lemma QuietPopKeeps<T>(s: Fifo<T>, v: View<T>)
    requires Inv(s, v) && !s.pop.Follow?
    ensures StepPop(s).Ok? && Inv(StepPop(s).state, v)
  {
    match s.pop
    case Rest =>
    case Leave => PopKeeps(s, v);
    case Retire(_) => PopKeeps(s, v);
    case Free(_) => FreeKeeps(s, v);
    case Put(_) => PutKeeps(s, v);
    case Keep(_) => KeepKeeps(s, v);
    case Count => PopKeeps(s, v);
  }

  lemma QuietPopAccounts<T>(c: System<T>, q: Fifo<T>, log: seq<T>)
    requires Accounted(c, q, log) && StepPop(q).Ok?
    ensures Accounted(c, StepPop(q).state, log)
  {
  }

  lemma QuietPopSound<T>(c: System<T>, v: View<T>)
    requires Sound(c, v) && !c.queue.pop.Follow?
    ensures StepPop(c.queue).Ok? && Sound(c.(queue := StepPop(c.queue).state), v)
  {
    QuietPopKeeps(c.queue, v);
    SoundAccounts(c, v);
    QuietPopAccounts(c, c.queue, v.log);
    SoundAccounts(c.(queue := StepPop(c.queue).state), v);
  }

  lemma FollowSound<T>(c: System<T>, v: View<T>)
    requires Sound(c, v) && c.queue.pop.Follow?
    ensures StepPop(c.queue).Ok? && Sound(c.(queue := StepPop(c.queue).state), FollowView(v))
  {
    FollowKeeps(c.queue, v);
    SoundAccounts(c, v);
    SoundAccounts(c.(queue := StepPop(c.queue).state), FollowView(v));
  }

  lemma PopStepSound<T>(c: System<T>, v: View<T>) returns (u: View<T>)
    requires Sound(c, v)
    ensures Do(c, PopStep).Some? && Sound(Do(c, PopStep).value, u)
  {
    if c.queue.pop.Follow? {
      FollowSound(c, v);
      u := FollowView(v);
    } else {
      QuietPopSound(c, v);
      u := v;
    }
  }

  /** No step of either thread faults, and each keeps the queue sound. */
  lemma StepSound<T>(c: System<T>, v: View<T>, op: Op<T>) returns (u: View<T>)
    requires Sound(c, v) && Legal(c, op)
    ensures Do(c, op).Some? && Sound(Do(c, op).value, u)
  {
    match op
    case Push(value) => StartPushKeeps(c.queue, v, value); u := v;
    case PushStep(a, elements) => u := PushStepSound(c, v, a, elements);
    case Pop =>
      u := v;
      StartPopKeeps(c.queue, v);
      if c.queue.tailIdx < c.queue.headIdx {
        FrontIs(c.queue, v);
        var n := c.queue.tailIdx;
        assert v.log[..n + 1] == v.log[..n] + [v.log[n]];
      }
    case PopStep => u := PopStepSound(c, v);
  }

  function Exec<T>(c: System<T>, ops: seq<Op<T>>): (r: Option<System<T>>)
    decreases |ops|
  {
    if ops == [] then Some(c)
    else
      var d := Do(c, ops[0]);
      if d == None then None else Exec(d.value, ops[1..])
  }

  ghost predicate LegalRun<T>(c: System<T>, ops: seq<Op<T>>)
    decreases |ops|
  {
    ops != [] ==>
      && Legal(c, ops[0])
      && (Do(c, ops[0]).Some? ==> LegalRun(Do(c, ops[0]).value, ops[1..]))
  }

  lemma {:induction false} ExecSound<T>(c: System<T>, v: View<T>, ops: seq<Op<T>>) returns (u: View<T>)
    requires Sound(c, v) && LegalRun(c, ops)
    ensures Exec(c, ops).Some? && Sound(Exec(c, ops).value, u)
    decreases |ops|
  {
    u := v;
    if ops != [] {
      var w := StepSound(c, v, ops[0]);
      u := ExecSound(Do(c, ops[0]).value, w, ops[1..]);
    }
  }

  /**
   For every interleaving of one producer and one consumer no step faults, and what the consumer
   has received is a prefix of what the producer sent: all of it once the queue is drained and
   both threads are between calls.
   */
  lemma DeliversInOrder<T>(nodeCapacity: nat, queueCapacity: nat, a: Addr, elements: seq<T>, ops: seq<Op<T>>)
    requires 0 < nodeCapacity && |elements| == nodeCapacity
    requires LegalRun(System(Fresh(nodeCapacity, queueCapacity, a, elements), [], []), ops)
    ensures var r := Exec(System(Fresh(nodeCapacity, queueCapacity, a, elements), [], []), ops);
            && r.Some? && r.value.received <= r.value.sent
            && var q := r.value.queue;
               && Size(q) <= queueCapacity
               && (q.push.Ready? && q.pop.Rest? ==> |r.value.sent| - |r.value.received| == Size(q))
  {
    FreshSound(nodeCapacity, queueCapacity, a, elements);
    var v := ExecSound(System(Fresh(nodeCapacity, queueCapacity, a, elements), [], []), View([], [a], [0]), ops);
    var q := Exec(System(Fresh(nodeCapacity, queueCapacity, a, elements), [], []), ops).value.queue;
    SameLimit(System(Fresh(nodeCapacity, queueCapacity, a, elements), [], []), ops);
  }

  lemma {:induction false} SameLimit<T>(c: System<T>, ops: seq<Op<T>>)
    ensures Exec(c, ops).Some? ==> Exec(c, ops).value.queue.queueCapacity == c.queue.queueCapacity
    decreases |ops|
  {
    if ops != [] && Do(c, ops[0]).Some? { SameLimit(Do(c, ops[0]).value, ops[1..]); }
  }
}
