/**
 Who takes over the buckets of dead masters: of the available slaves of a bucket the first that has
 taken over the fewest buckets before it.
 */
module QuickFair {
  import opened Placement

  /** Bucket `b` had a dead master and is now led by `s`. */
  predicate TakenOver(dest: Table, r: Table, avail: set<Server>, s: Server, b: nat) {
    && b < |dest| && b < |r| && dest[b] != [] && r[b] != []
    && dest[b][0] !in avail && r[b][0] == s
  }

  /** Number of buckets before bucket `n` that `s` has taken over. */
  ghost function Inherited(dest: Table, r: Table, avail: set<Server>, s: Server, n: nat): (k: nat) {
    if n == 0 then 0
    else Inherited(dest, r, avail, s, n - 1) + if TakenOver(dest, r, avail, s, n - 1) then 1 else 0
  }

  /** The slave in slot `k` of a bucket is the first of the available ones that have inherited least. */
  ghost predicate Fewest(dest: Table, r: Table, avail: set<Server>, b: nat, k: nat) {
    && b < |dest| && 0 < k < |dest[b]| && dest[b][k] in avail
    && forall j :: 0 < j < |dest[b]| && dest[b][j] in avail ==>
         && Inherited(dest, r, avail, dest[b][k], b) <= Inherited(dest, r, avail, dest[b][j], b)
         && (j < k ==> Inherited(dest, r, avail, dest[b][k], b) < Inherited(dest, r, avail, dest[b][j], b))
  }

  /** The bucket has lost its master and has a copy left. */
  ghost predicate Orphan(dest: Table, avail: set<Server>, b: nat) {
    b < |dest| && dest[b] != [] && dest[b][0] !in avail && !DeadColumn(dest[b], avail)
  }

  ghost predicate FairAt(dest: Table, r: Table, avail: set<Server>, b: nat) {
    Orphan(dest, avail, b) ==>
      b < |r| && r[b] != [] && exists k: nat :: Fewest(dest, r, avail, b, k) && r[b][0] == dest[b][k]
  }

  ghost predicate Fair(dest: Table, r: Table, avail: set<Server>) {
    forall b {:trigger FairAt(dest, r, avail, b)} :: 0 <= b < |dest| ==> FairAt(dest, r, avail, b)
  }

  /** Only the masters of the buckets before it decide. */
  lemma {:induction false} InheritedSame(dest: Table, r: Table, u: Table, avail: set<Server>, s: Server, n: nat)
    requires |r| == |u| && n <= |r|
    requires forall b :: 0 <= b < n ==> (r[b] == [] <==> u[b] == []) && (r[b] != [] ==> r[b][0] == u[b][0])
    ensures Inherited(dest, r, avail, s, n) == Inherited(dest, u, avail, s, n)
  {
    if n > 0 { InheritedSame(dest, r, u, avail, s, n - 1); }
  }

  lemma FairSame(dest: Table, r: Table, u: Table, avail: set<Server>, b: nat)
    requires b < |r| == |u| && FairAt(dest, r, avail, b)
    requires forall c :: 0 <= c <= b ==> r[c] != [] && u[c] != [] && r[c][0] == u[c][0]
    ensures FairAt(dest, u, avail, b)
  {
    if Orphan(dest, avail, b) {
      var k: nat :| Fewest(dest, r, avail, b, k) && r[b][0] == dest[b][k];
      forall s ensures Inherited(dest, r, avail, s, b) == Inherited(dest, u, avail, s, b) {
        InheritedSame(dest, r, u, avail, s, b);
      }
      assert Fewest(dest, u, avail, b, k);
    }
  }

  // ---------------------------------------------------------------- buckets with the same slaves

  ghost function Heirs(dest: Table, avail: set<Server>, b: nat): (a: set<Server>)
    requires b < |dest|
  {
    set j | 0 < j < |dest[b]| && dest[b][j] in avail :: dest[b][j]
  }

  /** Buckets that have lost their master and have the same slaves left are shared out evenly among these. */
  lemma {:induction false} SharedOut(dest: Table, r: Table, avail: set<Server>, heirs: set<Server>, n: nat, x: Server, y: Server)
    requires Fair(dest, r, avail) && |r| == |dest| && n <= |dest| && x in heirs && y in heirs && heirs <= avail
    requires forall b :: 0 <= b < n ==> dest[b] != [] && r[b] != []
    requires forall b :: 0 <= b < n && Orphan(dest, avail, b) ==> Heirs(dest, avail, b) == heirs
    requires forall b :: 0 <= b < n && DeadColumn(dest[b], avail) ==> r[b][0] !in avail
    ensures Inherited(dest, r, avail, x, n) <= Inherited(dest, r, avail, y, n) + 1
  {
    if n > 0 {
      var b := n - 1;
      SharedOut(dest, r, avail, heirs, b, x, y);
      if TakenOver(dest, r, avail, x, b) {
        assert Orphan(dest, avail, b) && FairAt(dest, r, avail, b);
        var k: nat :| Fewest(dest, r, avail, b, k) && r[b][0] == dest[b][k];
        assert y in Heirs(dest, avail, b);
        var j :| 0 < j < |dest[b]| && dest[b][j] in avail && dest[b][j] == y;
        assert Inherited(dest, r, avail, dest[b][k], b) <= Inherited(dest, r, avail, dest[b][j], b);
      }
    }
  }
}
