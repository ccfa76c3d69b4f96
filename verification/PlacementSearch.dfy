/**
 The searches of bucket placement: candidates are tried group by group in the order of their
 load, and in an arbitrary order inside a group of equally loaded servers.
 */
module PlacementSearch {
  import opened Placement

  lemma {:induction false} LeastExists(value: Counts, pool: set<Server>) returns (m: Server)
    requires pool != {} && pool <= value.Keys
    ensures m in pool && forall x :: x in pool ==> value[m] <= value[x]
  {
    m := Member(pool);
    if pool != {m} {
      var k := LeastExists(value, pool - {m});
      if value[k] < value[m] { m := k; }
    }
  }

  /** The servers of the pool with the lowest load. */
  method LowestGroup(value: Counts, pool: set<Server>) returns (group: set<Server>)
    requires pool != {} && pool <= value.Keys
    ensures group != {} && group <= pool
    ensures forall x, y :: x in group && y in pool ==> value[x] <= value[y]
  {
    ghost var w := LeastExists(value, pool);
    var m :| m in pool && forall x :: x in pool ==> value[m] <= value[x];
    group := set x | x in pool && value[x] == value[m];
    assert m in group;
  }

  /** Find a least loaded server of the pool that fits into slot `p` of a bucket. */
  method PickForSlot(value: Counts, pool: set<Server>, col: Column, p: nat) returns (found: bool, s: Server)
    requires pool <= value.Keys
    ensures found ==> s in pool && CheckNodeOk(s, col, p)
    ensures found ==> forall x :: x in pool && CheckNodeOk(x, col, p) ==> value[s] <= value[x]
    ensures !found ==> forall x :: x in pool ==> !CheckNodeOk(x, col, p)
  {
    var rest := pool;
    while rest != {}
      invariant rest <= pool
      invariant forall x :: x in pool && x !in rest ==> !CheckNodeOk(x, col, p)
    {
      var group := LowestGroup(value, rest);
      ghost var before := rest;
      rest := rest - group;
      while group != {}
        invariant group + rest <= before
        invariant forall x, y :: x in group && y in before ==> value[x] <= value[y]
        invariant forall x :: x in pool && x !in group + rest ==> !CheckNodeOk(x, col, p)
      {
        ghost var w := Member(group);
        var node :| node in group;
        group := group - {node};
        if CheckNodeOk(node, col, p) {
          return true, node;
        }
      }
    }
    return false, INVALID_FLAG;
  }

  ghost predicate Fits(x: Server, t: Table, held: Slots, b: nat) {
    b in held && b < |t| && CheckNodeOk(x, t[b], held[b])
  }

  /** The first bucket of the index that `node` may take over. */
  method FirstFit(node: Server, t: Table, held: Slots) returns (found: bool, b: nat)
    requires forall c :: c in held ==> c < |t|
    ensures found ==> Fits(node, t, held, b)
    ensures !found ==> forall c :: c in held ==> !Fits(node, t, held, c)
  {
    b := 0;
    while b < |t|
      invariant b <= |t|
      invariant forall c :: c in held && c < b ==> !Fits(node, t, held, c)
    {
      if b in held && CheckNodeOk(node, t[b], held[b]) {
        return true, b;
      }
      b := b + 1;
    }
    return false, 0;
  }

  /** Find a least loaded server of the pool that can take over some bucket of the index. */
  method PickMove(value: Counts, pool: set<Server>, t: Table, held: Slots)
    returns (found: bool, s: Server, b: nat)
    requires pool <= value.Keys
    requires forall c :: c in held ==> c < |t|
    ensures found ==> s in pool && Fits(s, t, held, b)
    ensures found ==> forall x, c :: x in pool && Fits(x, t, held, c) ==> value[s] <= value[x]
    ensures !found ==> forall x, c :: x in pool ==> !Fits(x, t, held, c)
  {
    var rest := pool;
    while rest != {}
      invariant rest <= pool
      invariant forall x, c :: x in pool && x !in rest ==> !Fits(x, t, held, c)
    {
      var group := LowestGroup(value, rest);
      ghost var before := rest;
      rest := rest - group;
      while group != {}
        invariant group + rest <= before
        invariant forall x, y :: x in group && y in before ==> value[x] <= value[y]
        invariant forall x, c :: x in pool && x !in group + rest ==> !Fits(x, t, held, c)
      {
        ghost var w := Member(group);
        var node :| node in group;
        group := group - {node};
        found, b := FirstFit(node, t, held);
        if found {
          return true, node, b;
        }
      }
    }
    return false, INVALID_FLAG, 0;
  }

  // ---------------------------------------------------------------- counting tokens

  /** Count the slots and the masters of every available server. */
  method CountTokens(t: Table, copies: nat, avail: set<Server>) returns (all: Counts, masters: Counts)
    requires Shaped(t, copies)
    ensures all.Keys == avail && masters.Keys == avail
    ensures forall s :: s in avail ==> all[s] == Copies(t, s) && masters[s] == Masters(t, s)
  {
    all := map s | s in avail :: 0;
    masters := map s | s in avail :: 0;
    for b := 0 to |t|
      invariant all.Keys == avail && masters.Keys == avail
      invariant forall s :: s in avail ==> all[s] == Copies(t[..b], s) && masters[s] == Masters(t[..b], s)
    {
      ghost var was := all;
      for c := 0 to |t[b]|
        invariant all.Keys == avail
        invariant forall s :: s in avail ==> all[s] == was[s] + multiset(t[b][..c])[s]
      {
        assert t[b][..c + 1] == t[b][..c] + [t[b][c]];
        if t[b][c] in all { all := Bump(all, t[b][c], 1); }
      }
      assert t[b][..|t[b]|] == t[b];
      if copies > 0 && t[b][0] in masters { masters := Bump(masters, t[b][0], 1); }
      assert t[..b + 1][..b] == t[..b] && t[..b + 1][b] == t[b];
    }
    assert t[..|t|] == t;
  }

  // ---------------------------------------------------------------- the reverse indexes

  ghost predicate MasterSlot(t: Table, m: Index, x: Server, b: nat, n: nat) {
    x in m && b in m[x] && b < n <= |t| && m[x][b] == 0 && t[b] != [] && t[b][0] == x
  }

  ghost predicate SlaveSlot(t: Table, s: Index, x: Server, b: nat, n: nat) {
    x in s && b in s[x] && b < n <= |t| && 1 <= s[x][b] < |t[b]| && t[b][s[x][b]] == x
  }

  ghost predicate MasterSlots(t: Table, avail: set<Server>, n: nat, m: Index) {
    avail <= m.Keys && forall x, b :: x in avail && b in m[x] ==> MasterSlot(t, m, x, b, n)
  }

  ghost predicate SlaveSlots(t: Table, avail: set<Server>, n: nat, s: Index) {
    avail <= s.Keys && forall x, b :: x in avail && b in s[x] ==> SlaveSlot(t, s, x, b, n)
  }

  /** The master index of the first `n` buckets is complete. */
  ghost predicate AllMasters(t: Table, avail: set<Server>, n: nat, m: Index) {
    && avail <= m.Keys && n <= |t|
    && (forall b :: 0 <= b < n && t[b] != [] && t[b][0] in avail ==> b in m[t[b][0]])
    && (forall x :: x in avail ==> |m[x]| == Masters(t[..n], x))
  }

  /** The slave index of the first `n` buckets is complete. */
  ghost predicate AllSlaves(t: Table, avail: set<Server>, n: nat, s: Index) {
    avail <= s.Keys && n <= |t| && forall x :: x in avail ==> |s[x]| == Copies(t[..n], x) - Masters(t[..n], x)
  }

  /** Buckets without an available master hold no available server at all. */
  ghost predicate NoStray(t: Table, avail: set<Server>) {
    forall b :: 0 <= b < |t| && t[b] != [] && t[b][0] !in avail ==> DeadColumn(t[b], avail)
  }

  /** Register the slots of every bucket whose master is available. */
  method InitBucketSet(t: Table, copies: nat, avail: set<Server>) returns (m: Index, s: Index)
    requires 0 < copies && Shaped(t, copies) && forall b :: 0 <= b < |t| ==> Distinct(t[b])
    requires INVALID_FLAG !in avail
    ensures MasterSlots(t, avail, |t|, m) && SlaveSlots(t, avail, |t|, s) && AllMasters(t, avail, |t|, m)
    ensures NoStray(t, avail) ==> AllSlaves(t, avail, |t|, s)
  {
    m := map x | x in avail :: map[];
    s := map x | x in avail :: map[];
    for b := 0 to |t|
      invariant MasterSlots(t, avail, b, m) && SlaveSlots(t, avail, b, s) && AllMasters(t, avail, b, m)
      invariant NoStray(t, avail) ==> AllSlaves(t, avail, b, s)
    {
      assert t[..b + 1][..b] == t[..b] && t[..b + 1][b] == t[b];
      ghost var slaves := s;
      if t[b][0] in avail {
        ghost var was := m;
        m := InsertBucket(m, t[b][0], b, 0);
        RegisterMaster(t, avail, b, was);
        s := RegisterSlaves(t, avail, b, s);
      } else {
        SkipBucket(t, avail, b, m, s);
      }
      if NoStray(t, avail) { SlavesCounted(t, avail, b, slaves, s); }
    }
  }

  lemma SlavesCounted(t: Table, avail: set<Server>, b: nat, was: Index, s: Index)
    requires b < |t| && t[b] != [] && AllSlaves(t, avail, b, was) && NoStray(t, avail) && avail <= s.Keys
    requires forall x :: x in avail ==>
               |s[x]| == |was[x]| + if t[b][0] in avail then multiset(t[b][1..])[x] else 0
    ensures AllSlaves(t, avail, b + 1, s)
  {
    assert t[..b + 1][..b] == t[..b] && t[..b + 1][b] == t[b];
    assert t[b] == [t[b][0]] + t[b][1..];
    forall x | x in avail ensures |s[x]| == Copies(t[..b + 1], x) - Masters(t[..b + 1], x) {
      assert multiset(t[b])[x] == IsMaster(t[b], x) + multiset(t[b][1..])[x];
      if t[b][0] !in avail { assert x !in t[b]; }
    }
  }

  lemma RegisterMaster(t: Table, avail: set<Server>, b: nat, m: Index)
    requires b < |t| && t[b] != [] && t[b][0] in avail
    requires MasterSlots(t, avail, b, m) && AllMasters(t, avail, b, m)
    ensures MasterSlots(t, avail, b + 1, InsertBucket(m, t[b][0], b, 0))
    ensures AllMasters(t, avail, b + 1, InsertBucket(m, t[b][0], b, 0))
  {
    RegisterMasterSlot(t, avail, b, m);
    var y := t[b][0];
    var r := InsertBucket(m, y, b, 0);
    assert !MasterSlot(t, m, y, b, b);
    assert r[y] == m[y][b := 0];
    With(m[y], b, 0);
    assert t[..b + 1][..b] == t[..b];
  }

  lemma RegisterMasterSlot(t: Table, avail: set<Server>, b: nat, m: Index)
    requires b < |t| && t[b] != [] && t[b][0] in avail && MasterSlots(t, avail, b, m)
    ensures MasterSlots(t, avail, b + 1, InsertBucket(m, t[b][0], b, 0))
  {
    var r := InsertBucket(m, t[b][0], b, 0);
    forall x, c | x in avail && c in r[x] ensures MasterSlot(t, r, x, c, b + 1) {
      assert (x == t[b][0] && c == b) || MasterSlot(t, m, x, c, b);
      assert !MasterSlot(t, m, x, b, b);
    }
  }

  lemma SkipBucket(t: Table, avail: set<Server>, b: nat, m: Index, s: Index)
    requires b < |t| && t[b] != [] && t[b][0] !in avail
    requires MasterSlots(t, avail, b, m) && AllMasters(t, avail, b, m) && SlaveSlots(t, avail, b, s)
    ensures MasterSlots(t, avail, b + 1, m) && AllMasters(t, avail, b + 1, m) && SlaveSlots(t, avail, b + 1, s)
  {
    forall x, c | x in avail && c in m[x] ensures MasterSlot(t, m, x, c, b + 1) { assert MasterSlot(t, m, x, c, b); }
    forall x, c | x in avail && c in s[x] ensures SlaveSlot(t, s, x, c, b + 1) { assert SlaveSlot(t, s, x, c, b); }
    assert t[..b + 1][..b] == t[..b];
  }

  /** The first slaves of bucket `b`, up to slot `j`, are registered. */
  ghost predicate SlavesUpTo(t: Table, avail: set<Server>, b: nat, s0: Index, s: Index, j: nat) {
    && b < |t| && 1 <= j <= |t[b]| && avail <= s0.Keys && SlaveSlots(t, avail, b + 1, s)
    && (forall x :: x in avail ==> |s[x]| == |s0[x]| + multiset(t[b][1..j])[x])
    && (forall x :: x in avail && b in s[x] ==> s[x][b] < j)
  }

  lemma SlaveRegistered(t: Table, avail: set<Server>, b: nat, s0: Index, s: Index, j: nat, r: Index)
    requires SlavesUpTo(t, avail, b, s0, s, j) && j < |t[b]| && Distinct(t[b]) && INVALID_FLAG !in avail
    requires r == InsertBucket(s, t[b][j], b, j)
    ensures SlavesUpTo(t, avail, b, s0, r, j + 1)
  {
    var y := t[b][j];
    assert t[b][1..j + 1] == t[b][1..j] + [y];
    if y in avail {
      assert !SlaveSlot(t, s, y, b, b + 1);
      With(s[y], b, j);
    }
    SlaveSlotAdded(t, avail, b, s, j, r);
  }

  lemma SlaveSlotAdded(t: Table, avail: set<Server>, b: nat, s: Index, j: nat, r: Index)
    requires b < |t| && 1 <= j < |t[b]| && SlaveSlots(t, avail, b + 1, s) && r == InsertBucket(s, t[b][j], b, j)
    ensures SlaveSlots(t, avail, b + 1, r)
  {
    forall x, c | x in avail && c in r[x] ensures SlaveSlot(t, r, x, c, b + 1) {
      assert (x == t[b][j] && c == b && c !in s[x]) || SlaveSlot(t, s, x, c, b + 1);
    }
  }

  method RegisterSlaves(t: Table, avail: set<Server>, b: nat, s0: Index) returns (s: Index)
    requires b < |t| && t[b] != [] && SlaveSlots(t, avail, b, s0) && Distinct(t[b]) && INVALID_FLAG !in avail
    ensures SlaveSlots(t, avail, b + 1, s)
    ensures forall x :: x in avail ==> |s[x]| == |s0[x]| + multiset(t[b][1..])[x]
  {
    s := s0;
    forall x, c | x in avail && c in s[x] ensures SlaveSlot(t, s, x, c, b + 1) && c != b {
      assert SlaveSlot(t, s, x, c, b);
    }
    for j := 1 to |t[b]|
      invariant SlavesUpTo(t, avail, b, s0, s, j)
    {
      SlaveRegistered(t, avail, b, s0, s, j, InsertBucket(s, t[b][j], b, j));
      s := InsertBucket(s, t[b][j], b, j);
    }
    assert t[b][1..|t[b]|] == t[b][1..];
  }
}
