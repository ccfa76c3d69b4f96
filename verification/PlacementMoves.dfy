/**
 The elementary moves of bucket placement and the proof that each of them keeps the ledgers,
 the reverse indexes and the placement rules in agreement with the table.
 */
module PlacementMoves {
  import opened Placement

  /** Put an available server into a slot that no available server holds. */
  function Place(l: Ledger, b: nat, p: nat, s: Server): (r: Ledger)
    requires b < |l.t| && p < |l.t[b]|
    requires s in l.mMig && s in l.sMig
  {
    var u := l.(t := SetSlot(l.t, b, p, s), sMig := Bump(l.sMig, s, 1));
    if p == 0 then
      u.(mMig := Bump(l.mMig, s, 1), mBuckets := InsertBucket(l.mBuckets, s, b, 0))
    else
      u.(sBuckets := InsertBucket(l.sBuckets, s, b, p))
  }

  ghost predicate CanPlace(l: Ledger, b: nat, p: nat, s: Server) {
    && l.Keyed() && b < |l.t| && p < l.copies
    && s in l.avail && l.t[b][p] !in l.avail
    && CheckNodeOk(s, l.t[b], p)
  }

  /** Step the master of a bucket down into an empty slave slot of the same bucket. */
  function Demote(l: Ledger, b: nat, n: nat): (r: Ledger)
    requires b < |l.t| && 0 < n < |l.t[b]|
    requires l.t[b][0] in l.mMig && l.t[b][0] in l.mBuckets
  {
    var m := l.t[b][0];
    l.(mMig := Bump(l.mMig, m, -1),
       mBuckets := EraseBucket(l.mBuckets, m, b),
       sBuckets := InsertBucket(l.sBuckets, m, b, n),
       t := SetSlot(SetSlot(l.t, b, n, m), b, 0, INVALID_FLAG))
  }

  /** Let a server keep one master, or one copy, more than its share. */
  function Keep(l: Ledger, master: bool, s: Server): (r: Ledger)
    requires s in l.mMig && s in l.sMig && s in l.mFlag && s in l.sFlag
  {
    if master then l.(mFlag := Bump(l.mFlag, s, 1), mMig := Bump(l.mMig, s, -1))
    else l.(sFlag := Bump(l.sFlag, s, 1), sMig := Bump(l.sMig, s, -1))
  }

  function Held(l: Ledger, master: bool, s: Server): (r: Slots)
    requires s in l.mBuckets && s in l.sBuckets
  {
    if master then l.mBuckets[s] else l.sBuckets[s]
  }

  /** Hand a slot over and update the reverse index: insert for the new holder, then erase for the old. */
  function Hand(l: Ledger, master: bool, from: Server, to: Server, b: nat): (r: Ledger)
    requires from in l.mBuckets && from in l.sBuckets
    requires b in Held(l, master, from)
    requires b < |l.t| && Held(l, master, from)[b] < |l.t[b]|
  {
    var p := Held(l, master, from)[b];
    if master then
      l.(t := SetSlot(l.t, b, p, to),
         mBuckets := EraseBucket(InsertBucket(l.mBuckets, to, b, p), from, b))
    else
      l.(t := SetSlot(l.t, b, p, to),
         sBuckets := EraseBucket(InsertBucket(l.sBuckets, to, b, p), from, b))
  }

  /** Hand a slot to a server below its share. */
  function Shift(l: Ledger, master: bool, from: Server, to: Server, b: nat): (r: Ledger)
    requires from in l.mBuckets && from in l.sBuckets
    requires b in Held(l, master, from)
    requires b < |l.t| && Held(l, master, from)[b] < |l.t[b]|
    requires from in l.mMig && from in l.sMig && to in l.mMig && to in l.sMig
  {
    var u := l.(sMig := Bump(Bump(l.sMig, from, -1), to, 1));
    Hand(if master then u.(mMig := Bump(Bump(l.mMig, from, -1), to, 1)) else u, master, from, to, b)
  }

  /** Hand a slot to a server that goes over its share and is flagged for it. */
  function Overload(l: Ledger, master: bool, from: Server, to: Server, b: nat): (r: Ledger)
    requires from in l.mBuckets && from in l.sBuckets
    requires b in Held(l, master, from)
    requires b < |l.t| && Held(l, master, from)[b] < |l.t[b]|
    requires from in l.mMig && from in l.sMig && to in l.mFlag && to in l.sFlag && to in l.sMig
  {
    var u :=
      if master then
        l.(mFlag := Bump(l.mFlag, to, 1), mMig := Bump(l.mMig, from, -1),
           sMig := Bump(Bump(l.sMig, from, -1), to, 1))
      else
        l.(sFlag := Bump(l.sFlag, to, 1), sMig := Bump(l.sMig, from, -1));
    Hand(u, master, from, to, b)
  }

  // ---------------------------------------------------------------- placing

  lemma PlaceAt(l: Ledger, b: nat, p: nat, s: Server, x: Server)
    requires CanPlace(l, b, p, s) && x in l.avail && l.EvenAt(x) && l.CoveredAt(x) && l.Indexed()
    ensures Place(l, b, p, s).EvenAt(x) && Place(l, b, p, s).CoveredAt(x)
  {
    var r := Place(l, b, p, s);
    SlotUpdate(l.t, b, p, s, x);
    if p == 0 && x == s {
      assert !l.MasterEntry(s, b);
      assert r.mBuckets[s].Keys == l.mBuckets[s].Keys + {b};
    }
    if p != 0 && x == s {
      assert !l.SlaveEntry(s, b);
      With(l.sBuckets[s], b, p);
    }
  }

  lemma PlaceIndexed(l: Ledger, b: nat, p: nat, s: Server)
    requires CanPlace(l, b, p, s) && l.Indexed()
    ensures Place(l, b, p, s).Indexed()
  {
    var r := Place(l, b, p, s);
    forall x, c | x in l.avail && c in r.mBuckets[x] ensures r.MasterEntry(x, c) {
      if x == s && c == b && p == 0 { assert !l.MasterEntry(x, c); } else { assert l.MasterEntry(x, c); }
    }
    forall x, c | x in l.avail && c in r.sBuckets[x] ensures r.SlaveEntry(x, c) {
      if x == s && c == b && p != 0 { assert !l.SlaveEntry(x, c); } else { assert l.SlaveEntry(x, c); }
    }
  }

  lemma ColumnPlaced(col: Column, p: nat, s: Server, avail: set<Server>)
    requires PlacedColumn(col, avail) && LiveColumn(col, avail)
    requires p < |col| && s in avail && INVALID_FLAG !in avail && CheckNodeOk(s, col, p)
    ensures PlacedColumn(col[p := s], avail) && LiveColumn(col[p := s], avail)
  {
  }

  lemma PlaceKeyed(l: Ledger, b: nat, p: nat, s: Server)
    requires CanPlace(l, b, p, s) && l.Placed() && LiveColumn(l.t[b], l.avail)
    ensures Place(l, b, p, s).Keyed() && Place(l, b, p, s).Placed()
    ensures LiveColumn(Place(l, b, p, s).t[b], l.avail)
  {
    ColumnPlaced(l.t[b], p, s, l.avail);
  }

  /** Filling a slot keeps every invariant of the placement. */
  lemma PlaceValid(l: Ledger, b: nat, p: nat, s: Server)
    requires l.Valid() && CanPlace(l, b, p, s) && LiveColumn(l.t[b], l.avail)
    ensures Place(l, b, p, s).Valid()
    ensures LiveColumn(Place(l, b, p, s).t[b], l.avail)
  {
    var r := Place(l, b, p, s);
    assert r.Even() && r.Covered() by {
      forall x | x in l.avail ensures r.EvenAt(x) && r.CoveredAt(x) { PlaceAt(l, b, p, s, x); }
    }
    PlaceIndexed(l, b, p, s);
    PlaceKeyed(l, b, p, s);
  }

  // ---------------------------------------------------------------- stepping a master down

  ghost predicate CanDemote(l: Ledger, b: nat, n: nat) {
    && l.Keyed() && b < |l.t| && 0 < n < l.copies
    && l.t[b][0] in l.avail && l.t[b][n] == INVALID_FLAG
    && b in l.mBuckets[l.t[b][0]]
  }

  lemma DemoteAt(l: Ledger, b: nat, n: nat, x: Server)
    requires CanDemote(l, b, n) && x in l.avail && l.EvenAt(x) && l.CoveredAt(x) && l.Indexed() && Distinct(l.t[b])
    ensures Demote(l, b, n).EvenAt(x) && Demote(l, b, n).CoveredAt(x)
  {
    var m := l.t[b][0];
    var r := Demote(l, b, n);
    SlotUpdate(l.t, b, n, m, x);
    SlotUpdate(SetSlot(l.t, b, n, m), b, 0, INVALID_FLAG, x);
    if x == m {
      assert l.mBuckets[m].Keys == r.mBuckets[m].Keys + {b};
      assert !l.SlaveEntry(m, b);
      With(l.sBuckets[m], b, n);
    }
  }

  lemma DemoteIndexed(l: Ledger, b: nat, n: nat)
    requires CanDemote(l, b, n) && l.Indexed() && Distinct(l.t[b])
    ensures Demote(l, b, n).Indexed()
  {
    var m := l.t[b][0];
    var r := Demote(l, b, n);
    forall x, c | x in l.avail && c in r.mBuckets[x] ensures r.MasterEntry(x, c) {
      assert l.MasterEntry(x, c);
    }
    forall x, c | x in l.avail && c in r.sBuckets[x] ensures r.SlaveEntry(x, c) {
      if x == m && c == b { assert !l.SlaveEntry(x, c); } else { assert l.SlaveEntry(x, c); }
    }
  }

  lemma ColumnDemoted(col: Column, n: nat, avail: set<Server>)
    requires PlacedColumn(col, avail) && 0 < n < |col| && col[0] in avail && col[n] == INVALID_FLAG
    ensures PlacedColumn(col[n := col[0]][0 := INVALID_FLAG], avail)
    ensures LiveColumn(col[n := col[0]][0 := INVALID_FLAG], avail)
  {
  }

  lemma DemoteKeyed(l: Ledger, b: nat, n: nat)
    requires CanDemote(l, b, n) && l.Placed()
    ensures Demote(l, b, n).Keyed() && Demote(l, b, n).Placed()
    ensures LiveColumn(Demote(l, b, n).t[b], l.avail)
  {
    ColumnDemoted(l.t[b], n, l.avail);
    var r := Demote(l, b, n);
    assert r.t[b] == l.t[b][n := l.t[b][0]][0 := INVALID_FLAG];
  }

  lemma DemoteValid(l: Ledger, b: nat, n: nat)
    requires l.Valid() && CanDemote(l, b, n)
    ensures Demote(l, b, n).Valid()
    ensures LiveColumn(Demote(l, b, n).t[b], l.avail) && Demote(l, b, n).t[b][0] == INVALID_FLAG
  {
    var r := Demote(l, b, n);
    assert PlacedColumn(l.t[b], l.avail);
    forall x | x in l.avail ensures r.EvenAt(x) && r.CoveredAt(x) { DemoteAt(l, b, n, x); }
    DemoteIndexed(l, b, n);
    DemoteKeyed(l, b, n);
  }

  // ---------------------------------------------------------------- keeping

  lemma KeepValid(l: Ledger, master: bool, s: Server)
    requires l.Valid() && s in l.avail
    ensures Keep(l, master, s).Valid()
  {
    var r := Keep(l, master, s);
    forall x | x in l.avail ensures r.EvenAt(x) && r.CoveredAt(x) { assert l.EvenAt(x) && l.CoveredAt(x); }
    SameIndexes(l, r);
  }

  lemma SameIndexes(h: Ledger, r: Ledger)
    requires r.t == h.t && r.mBuckets == h.mBuckets && r.sBuckets == h.sBuckets && r.avail == h.avail
    requires h.Indexed()
    ensures r.Indexed()
  {
    forall x, c | x in r.avail && x in r.mBuckets && c in r.mBuckets[x] ensures r.MasterEntry(x, c) {
      assert h.MasterEntry(x, c);
    }
    forall x, c | x in r.avail && x in r.sBuckets && c in r.sBuckets[x] ensures r.SlaveEntry(x, c) {
      assert h.SlaveEntry(x, c);
    }
  }

  // ---------------------------------------------------------------- handing a slot over

  ghost predicate CanHand(l: Ledger, master: bool, from: Server, to: Server, b: nat) {
    && l.Keyed() && from in l.avail && to in l.avail
    && b in Held(l, master, from)
    && (if master then l.MasterEntry(from, b) else l.SlaveEntry(from, b))
    && CheckNodeOk(to, l.t[b], Held(l, master, from)[b])
  }

  lemma HandIndexed(l: Ledger, master: bool, from: Server, to: Server, b: nat)
    requires CanHand(l, master, from, to, b) && l.Indexed()
    ensures Hand(l, master, from, to, b).Indexed()
  {
    if master { HandMaster(l, from, to, b); } else { HandSlave(l, from, to, b); }
  }

  lemma HandMaster(l: Ledger, from: Server, to: Server, b: nat)
    requires CanHand(l, true, from, to, b) && l.Indexed()
    ensures Hand(l, true, from, to, b).Indexed()
  {
    var r := Hand(l, true, from, to, b);
    forall x, c | x in l.avail && c in r.mBuckets[x] ensures r.MasterEntry(x, c) {
      if x == to && c == b { assert from == to || !l.MasterEntry(x, c); } else { assert l.MasterEntry(x, c); }
    }
    forall x, c | x in l.avail && c in r.sBuckets[x] ensures r.SlaveEntry(x, c) {
      assert l.SlaveEntry(x, c);
    }
  }

  lemma HandSlave(l: Ledger, from: Server, to: Server, b: nat)
    requires CanHand(l, false, from, to, b) && l.Indexed()
    ensures Hand(l, false, from, to, b).Indexed()
  {
    var r := Hand(l, false, from, to, b);
    forall x, c | x in l.avail && c in r.mBuckets[x] ensures r.MasterEntry(x, c) {
      assert l.MasterEntry(x, c);
    }
    forall x, c | x in l.avail && c in r.sBuckets[x] ensures r.SlaveEntry(x, c) {
      if x == to && c == b { assert from == to || !l.SlaveEntry(x, c); } else { assert l.SlaveEntry(x, c); }
    }
  }

  lemma IndexSize(ix: Index, from: Server, to: Server, b: nat, p: nat, x: Server)
    requires from in ix && to in ix && x in ix && b in ix[from] && (from != to ==> b !in ix[to])
    ensures |EraseBucket(InsertBucket(ix, to, b, p), from, b)[x]|
         == |ix[x]| + (if from != to && x == to then 1 else 0) - (if x == from then 1 else 0)
  {
    if x == from {
      var held := InsertBucket(ix, to, b, p)[x];
      assert held == ix[x];
      Without(held, b);
    } else if x == to {
      With(ix[x], b, p);
    }
  }

  /** A handed-over master leaves the old holder's index and enters the new holder's, if they differ. */
  lemma HandCovered(l: Ledger, master: bool, from: Server, to: Server, b: nat, x: Server)
    requires CanHand(l, master, from, to, b) && l.Indexed() && x in l.avail
    ensures var r := Hand(l, master, from, to, b);
            |r.mBuckets[x]| == |l.mBuckets[x]| + (if master && from != to && x == to then 1 else 0)
                                               - (if master && x == from then 1 else 0)
    ensures var r := Hand(l, master, from, to, b);
            |r.sBuckets[x]| == |l.sBuckets[x]| + (if !master && from != to && x == to then 1 else 0)
                                               - (if !master && x == from then 1 else 0)
  {
    if master {
      assert from != to ==> !l.MasterEntry(to, b);
      IndexSize(l.mBuckets, from, to, b, 0, x);
    } else {
      assert from != to ==> !l.SlaveEntry(to, b);
      IndexSize(l.sBuckets, from, to, b, l.sBuckets[from][b], x);
    }
  }

  lemma HandCounts(l: Ledger, master: bool, from: Server, to: Server, b: nat, x: Server)
    requires CanHand(l, master, from, to, b)
    ensures var r := Hand(l, master, from, to, b);
            var d := (if x == to then 1 else 0) - (if x == from then 1 else 0);
            && Copies(r.t, x) == Copies(l.t, x) + d
            && Masters(r.t, x) == Masters(l.t, x) + (if master then d else 0)
  {
    SlotUpdate(l.t, b, Held(l, master, from)[b], to, x);
  }

  lemma ShiftAt(l: Ledger, master: bool, from: Server, to: Server, b: nat, x: Server)
    requires CanHand(l, master, from, to, b) && from != to
    requires l.Indexed() && x in l.avail && l.EvenAt(x) && l.CoveredAt(x)
    ensures Shift(l, master, from, to, b).EvenAt(x) && Shift(l, master, from, to, b).CoveredAt(x)
  {
    HandCounts(l, master, from, to, b, x);
    HandCovered(l, master, from, to, b, x);
  }

  lemma OverloadAt(l: Ledger, master: bool, from: Server, to: Server, b: nat, x: Server)
    requires CanHand(l, master, from, to, b)
    requires l.Indexed() && x in l.avail && l.EvenAt(x) && l.CoveredAt(x)
    ensures Overload(l, master, from, to, b).EvenAt(x) && Overload(l, master, from, to, b).CoveredAt(x)
  {
    HandCounts(l, master, from, to, b, x);
    HandCovered(l, master, from, to, b, x);
  }

  lemma HandKeyed(l: Ledger, master: bool, from: Server, to: Server, b: nat)
    requires l.Valid() && CanHand(l, master, from, to, b)
    ensures Hand(l, master, from, to, b).Keyed() && Hand(l, master, from, to, b).Placed()
    ensures LiveColumn(l.t[b], l.avail)
  {
    var p := Held(l, master, from)[b];
    assert l.t[b][p] in l.avail;
    assert PlacedColumn(l.t[b], l.avail);
    ColumnPlaced(l.t[b], p, to, l.avail);
  }

  /** Whatever the ledgers become, a hand-over keeps the indexes and the placement rules. */
  lemma HandRest(l: Ledger, master: bool, from: Server, to: Server, b: nat, r: Ledger)
    requires l.Valid() && CanHand(l, master, from, to, b)
    requires r.mMig.Keys == r.sMig.Keys == r.mFlag.Keys == r.sFlag.Keys == l.avail
    requires var h := Hand(l, master, from, to, b);
             && r.avail == h.avail && r.copies == h.copies && r.t == h.t
             && r.mBuckets == h.mBuckets && r.sBuckets == h.sBuckets
    ensures r.Keyed() && r.Indexed() && r.Placed()
  {
    var h := Hand(l, master, from, to, b);
    assert r.Indexed() by {
      HandIndexed(l, master, from, to, b);
      SameIndexes(h, r);
    }
    HandKeyed(l, master, from, to, b);
  }

  /** Moving a slot to a server below its share keeps every invariant. */
  lemma ShiftValid(l: Ledger, master: bool, from: Server, to: Server, b: nat)
    requires l.Valid() && CanHand(l, master, from, to, b) && from != to
    ensures Shift(l, master, from, to, b).Valid()
  {
    var r := Shift(l, master, from, to, b);
    assert r.Even() && r.Covered() by {
      forall x | x in l.avail ensures r.EvenAt(x) && r.CoveredAt(x) { ShiftAt(l, master, from, to, b, x); }
    }
    HandRest(l, master, from, to, b, r);
  }

  /** Moving a slot to a server that is flagged for it, possibly the holder itself, keeps every invariant. */
  lemma OverloadValid(l: Ledger, master: bool, from: Server, to: Server, b: nat)
    requires l.Valid() && CanHand(l, master, from, to, b)
    ensures Overload(l, master, from, to, b).Valid()
  {
    var r := Overload(l, master, from, to, b);
    assert r.Even() && r.Covered() by {
      forall x | x in l.avail ensures r.EvenAt(x) && r.CoveredAt(x) { OverloadAt(l, master, from, to, b, x); }
    }
    HandRest(l, master, from, to, b, r);
  }
}
