/**
 The routing table of the meta server and the bookkeeping that bucket placement keeps beside it.

 A table is stored bucket by bucket: t[b][c] is the server holding copy c of bucket b, and
 copy 0 is the master.  A server is an address word and 0 marks an empty slot.
 */
module Placement {

  type Server = int
  const INVALID_FLAG: Server := 0

  type Column = seq<Server>
  type Table = seq<Column>

  ghost predicate Shaped(t: Table, copies: nat) {
    forall b :: 0 <= b < |t| ==> |t[b]| == copies
  }

  /** The servers of one bucket are pairwise different; empty slots may repeat. */
  ghost predicate Distinct(col: Column) {
    forall i, j :: 0 <= i < j < |col| && col[i] != INVALID_FLAG ==> col[i] != col[j]
  }

  /** No slot of the bucket other than `position` already holds `node`. */
  predicate CheckNodeOk(node: Server, col: Column, position: nat) {
    forall i :: 0 <= i < |col| && i != position ==> col[i] != node
  }

  function SetSlot(t: Table, b: nat, p: nat, s: Server): (r: Table)
    requires b < |t| && p < |t[b]|
  {
    t[b := t[b][p := s]]
  }

  // ---------------------------------------------------------------- counting

  function IsMaster(col: Column, s: Server): nat {
    if col != [] && col[0] == s then 1 else 0
  }

  /** Number of buckets mastered by `s`. */
  ghost function Masters(t: Table, s: Server): nat {
    if t == [] then 0 else Masters(t[..|t| - 1], s) + IsMaster(t[|t| - 1], s)
  }

  /** Number of slots of the whole table held by `s`. */
  ghost function Copies(t: Table, s: Server): nat {
    if t == [] then 0 else Copies(t[..|t| - 1], s) + multiset(t[|t| - 1])[s]
  }

  /** Replacing one column changes the two counts by exactly what that column contributes. */
  lemma {:induction false} CountsUpdate(t: Table, b: nat, col: Column, s: Server)
    requires b < |t|
    ensures Masters(t[b := col], s) == Masters(t, s) - IsMaster(t[b], s) + IsMaster(col, s)
    ensures Copies(t[b := col], s) == Copies(t, s) - multiset(t[b])[s] + multiset(col)[s]
  {
    var u := t[b := col];
    if b == |t| - 1 {
      assert u[..|u| - 1] == t[..|t| - 1];
    } else {
      CountsUpdate(t[..|t| - 1], b, col, s);
      assert u[..|u| - 1] == t[..|t| - 1][b := col];
    }
  }

  lemma ColumnUpdate(col: Column, p: nat, x: Server, s: Server)
    requires p < |col|
    ensures multiset(col[p := x])[s]
         == multiset(col)[s] - (if col[p] == s then 1 else 0) + (if x == s then 1 else 0)
  {
    assert multiset(col[p := x]) == multiset(col) - multiset{col[p]} + multiset{x};
  }

  /** What overwriting one slot does to the counts of every server. */
  lemma SlotUpdate(t: Table, b: nat, p: nat, x: Server, s: Server)
    requires b < |t| && p < |t[b]|
    ensures Copies(SetSlot(t, b, p, x), s)
         == Copies(t, s) - (if t[b][p] == s then 1 else 0) + (if x == s then 1 else 0)
    ensures Masters(SetSlot(t, b, p, x), s)
         == if p == 0 then Masters(t, s) - (if t[b][0] == s then 1 else 0) + (if x == s then 1 else 0)
            else Masters(t, s)
  {
    CountsUpdate(t, b, t[b][p := x], s);
    ColumnUpdate(t[b], p, x, s);
  }

  // ---------------------------------------------------------------- finding a free server

  ghost function Elements(col: Column): set<Server> {
    set i | 0 <= i < |col| :: col[i]
  }

  lemma {:induction false} FewElements(col: Column)
    ensures |Elements(col)| <= |col|
  {
    if col == [] {
      assert Elements(col) == {};
    } else {
      var rest := col[..|col| - 1];
      FewElements(rest);
      assert Elements(col) == Elements(rest) + {col[|col| - 1]};
    }
  }

  /** With at least as many servers as copies, some server is free for any one slot. */
  lemma SomeNodeOk(servers: set<Server>, col: Column, position: nat)
    requires position < |col| <= |servers|
    ensures exists s :: s in servers && CheckNodeOk(s, col, position)
  {
    var others := col[..position] + col[position + 1..];
    FewElements(others);
    var s := Outsider(servers, Elements(others));
    forall i | 0 <= i < |col| && i != position ensures col[i] != s {
      assert col[i] == others[if i < position then i else i - 1];
    }
  }

  lemma Member<T>(a: set<T>) returns (x: T)
    requires a != {}
    ensures x in a
  {
    x :| x in a;
  }

  lemma Outsider<T>(a: set<T>, b: set<T>) returns (x: T)
    requires |b| < |a|
    ensures x in a && x !in b
  {
    if forall y :: y in a ==> y in b {
      SubsetSize(a, b);
    }
    x :| x in a && x !in b;
  }

  lemma {:induction false} SubsetSize<T>(a: set<T>, b: set<T>)
    requires a <= b
    ensures |a| <= |b|
  {
    if a != {} {
      var x :| x in a;
      SubsetSize(a - {x}, b - {x});
    }
  }

  // ---------------------------------------------------------------- the ledgers

  type Counts = map<Server, int>
  type Slots = map<nat, nat>              // bucket -> position
  type Index = map<Server, Slots>

  function Bump(m: Counts, s: Server, k: int): (r: Counts)
    requires s in m
  {
    m[s := m[s] + k]
  }

  /** std::map::insert: an existing entry of the bucket is kept. */
  function InsertBucket(ix: Index, s: Server, b: nat, p: nat): (r: Index) {
    var held := if s in ix then ix[s] else map[];
    ix[s := if b in held then held else held[b := p]]
  }

  function EraseBucket(ix: Index, s: Server, b: nat): (r: Index)
    requires s in ix
  {
    ix[s := ix[s] - {b}]
  }

  lemma With(m: Slots, b: nat, p: nat)
    requires b !in m
    ensures |m[b := p]| == |m| + 1
  {
    assert m[b := p].Keys == m.Keys + {b};
  }

  lemma Without(m: Slots, b: nat)
    requires b in m
    ensures |m - {b}| == |m| - 1
  {
    assert (m - {b}).Keys == m.Keys - {b};
  }

  /**
   The table under construction with the credit ledgers, flag counters and reverse indexes.
   mShare and sShare are the masters and the copies every server has in a perfectly even table.
   */
  datatype Ledger = Ledger(
    avail: set<Server>,
    copies: nat,
    mShare: int, sShare: int,
    t: Table,
    mMig: Counts, sMig: Counts,
    mFlag: Counts, sFlag: Counts,
    mBuckets: Index, sBuckets: Index)
  {
    ghost predicate Keyed() {
      && INVALID_FLAG !in avail
      && 0 < copies
      && Shaped(t, copies)
      && mMig.Keys == avail && sMig.Keys == avail
      && mFlag.Keys == avail && sFlag.Keys == avail
      && avail <= mBuckets.Keys && avail <= sBuckets.Keys
    }

    /** The ledger entries of `s` say how far `s` is from its share. */
    ghost predicate EvenAt(s: Server) {
      && s in mMig && s in mFlag && s in sMig && s in sFlag
      && Masters(t, s) == mShare + mMig[s] + mFlag[s]
      && Copies(t, s) == sShare + sMig[s] + sFlag[s]
    }

    ghost predicate Even() {
      forall s {:trigger EvenAt(s)} :: s in avail ==> EvenAt(s)
    }

    ghost predicate MasterEntry(s: Server, b: nat) {
      && s in mBuckets && b in mBuckets[s]
      && b < |t| && t[b] != [] && mBuckets[s][b] == 0 && t[b][0] == s
    }

    ghost predicate SlaveEntry(s: Server, b: nat) {
      && s in sBuckets && b in sBuckets[s]
      && b < |t| && 1 <= sBuckets[s][b] < |t[b]| && t[b][sBuckets[s][b]] == s
    }

    /** Every entry of the reverse indexes names a slot that its server holds. */
    ghost predicate Indexed() {
      && (forall s, b {:trigger MasterEntry(s, b)} :: s in avail && s in mBuckets && b in mBuckets[s] ==> MasterEntry(s, b))
      && (forall s, b {:trigger SlaveEntry(s, b)} :: s in avail && s in sBuckets && b in sBuckets[s] ==> SlaveEntry(s, b))
    }

    ghost predicate CoveredAt(s: Server) {
      && s in mBuckets && s in mFlag && s in sBuckets && s in sFlag
      && Masters(t, s) <= |mBuckets[s]| + mFlag[s]
      && Copies(t, s) - Masters(t, s) <= |sBuckets[s]| + sFlag[s]
    }

    /** The indexes miss at most as many masters and slaves of a server as the server has flags. */
    ghost predicate Covered() {
      forall s {:trigger CoveredAt(s)} :: s in avail ==> CoveredAt(s)
    }

    /** Every bucket sits on distinct servers, and these are available or else all of them are dead. */
    ghost predicate Placed() {
      forall b {:trigger PlacedColumn(t[b], avail)} :: 0 <= b < |t| ==> PlacedColumn(t[b], avail)
    }

    ghost predicate Valid() {
      && Keyed() && Even() && Indexed() && Covered() && Placed()
    }
  }

  ghost predicate PlacedColumn(col: Column, avail: set<Server>) {
    Distinct(col) && (LiveColumn(col, avail) || DeadColumn(col, avail))
  }

  ghost predicate LiveColumn(col: Column, avail: set<Server>) {
    forall p :: 0 <= p < |col| ==> col[p] in avail || col[p] == INVALID_FLAG
  }

  ghost predicate DeadColumn(col: Column, avail: set<Server>) {
    forall p :: 0 <= p < |col| ==> col[p] !in avail
  }

  /** Every slot of the bucket is held by its own available server. */
  ghost predicate FullColumn(col: Column, avail: set<Server>) {
    Distinct(col) && forall p :: 0 <= p < |col| ==> col[p] in avail
  }
}
