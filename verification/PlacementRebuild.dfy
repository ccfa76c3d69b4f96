/**
 The frame of a rebuild: what tables it starts from, when it is needed, and the ledgers it
 starts with.
 */
module PlacementRebuild {
  import opened Placement
  import opened PlacementMoves
  import opened PlacementSearch
  import opened PlacementCredit

  /**
   A table as the quick repair leaves it, or a fresh one: distinct servers in every bucket, dead
   buckets without available copies, live buckets without dead copies, and a bucket without a
   master altogether empty.
   */
  ghost predicate SourceOk(t: Table, avail: set<Server>, copies: nat) {
    && Shaped(t, copies) && 0 < copies
    && forall b {:trigger SourceColumn(t[b], avail)} :: 0 <= b < |t| ==> SourceColumn(t[b], avail)
  }

  ghost predicate SourceColumn(col: Column, avail: set<Server>) {
    && col != [] && Distinct(col)
    && (if col[0] in avail then LiveColumn(col, avail) else DeadColumn(col, avail))
    && (col[0] == INVALID_FLAG ==> EmptyColumn(col))
  }

  ghost predicate EmptyColumn(col: Column) {
    forall p :: 0 <= p < |col| ==> col[p] == INVALID_FLAG
  }

  // ---------------------------------------------------------------- is a rebuild needed

  /** A slave slot of a live bucket that no available server holds. */
  predicate Odd(t: Table, avail: set<Server>, b: nat, j: nat) {
    b < |t| && 0 < j < |t[b]| && t[b][0] in avail && t[b][j] !in avail
  }

  predicate Earlier(b: nat, j: nat, c: nat, k: nat) {
    b < c || (b == c && j < k)
  }

  ghost predicate FirstOdd(t: Table, avail: set<Server>, b: nat, j: nat) {
    Odd(t, avail, b, j) && forall c: nat, k: nat :: Odd(t, avail, c, k) ==> !Earlier(c, k, b, j)
  }

  ghost predicate Uses(t: Table, avail: set<Server>, s: Server) {
    exists b, j :: 0 <= b < |t| && 0 <= j < |t[b]| && t[b][0] in avail && t[b][j] == s
  }

  /**
   The first slave slot of a live bucket without an available server decides: empty means yes,
   a dead server means no.  Without such a slot a rebuild is needed if some server is unused.
   */
  method CheckRebuildNeed(t: Table, copies: nat, avail: set<Server>) returns (need: bool)
    requires Shaped(t, copies) && 0 < copies && INVALID_FLAG !in avail
    ensures forall b: nat, j: nat :: FirstOdd(t, avail, b, j) ==> (need <==> t[b][j] == INVALID_FLAG)
    ensures (forall b: nat, j: nat :: !Odd(t, avail, b, j)) ==> (need <==> exists s :: s in avail && !Uses(t, avail, s))
  {
    var seen: set<Server> := {};
    for b := 0 to |t|
      invariant forall c: nat, k: nat :: Odd(t, avail, c, k) ==> b <= c
      invariant forall s :: s in seen <==>
                  exists c, k :: 0 <= c < b && 0 <= k < |t[c]| && t[c][0] in avail && t[c][k] == s
      invariant seen <= avail
    {
      if t[b][0] in avail {
        var here := {t[b][0]};
        for j := 1 to copies
          invariant forall c: nat, k: nat :: Odd(t, avail, c, k) ==> !Earlier(c, k, b, j)
          invariant forall s :: s in here <==> exists k :: 0 <= k < j && t[b][k] == s
          invariant here <= avail
        {
          if t[b][j] == INVALID_FLAG {
            assert FirstOdd(t, avail, b, j);
            return true;
          }
          if t[b][j] !in avail {
            assert FirstOdd(t, avail, b, j);
            return false;
          }
          here := here + {t[b][j]};
        }
        seen := seen + here;
      }
    }
    need := seen != avail;
    assert forall s :: s in seen <==> Uses(t, avail, s);
    if seen != avail {
      ghost var s := Missing(seen, avail);
      assert !Uses(t, avail, s);
    }
  }

  lemma Missing<T>(a: set<T>, b: set<T>) returns (x: T)
    requires a <= b && a != b
    ensures x in b && x !in a
  {
    x :| x in b && x !in a;
  }

  // ---------------------------------------------------------------- the first ledgers

  /** The ledgers of an untouched table: counts against shares, no flags, complete indexes. */
  method InitLedger(t: Table, copies: nat, avail: set<Server>) returns (l: Ledger)
    requires SourceOk(t, avail, copies) && avail != {} && INVALID_FLAG !in avail
    ensures l.Valid() && l.avail == avail && l.copies == copies && l.t == t
    ensures l.mShare == |t| / |avail| && l.sShare == (|t| * copies) / |avail|
    ensures forall b :: 0 <= b < |t| && t[b][0] in avail ==> b in l.mBuckets[t[b][0]]
    ensures forall s :: s in avail ==> l.mFlag[s] == 0 && l.sFlag[s] == 0
  {
    forall b | 0 <= b < |t| ensures Distinct(t[b]) { assert SourceColumn(t[b], avail); }
    assert NoStray(t, avail) by {
      forall b | 0 <= b < |t| ensures t[b][0] !in avail ==> DeadColumn(t[b], avail) { assert SourceColumn(t[b], avail); }
    }
    var m, s := InitBucketSet(t, copies, avail);
    var all, masters := CountTokens(t, copies, avail);
    var none := map x | x in avail :: 0;
    var mShare := |t| / |avail|;
    var sShare := (|t| * copies) / |avail|;
    l := Ledger(avail, copies, mShare, sShare, t,
                map x | x in avail :: masters[x] - mShare, map x | x in avail :: all[x] - sShare,
                none, none, m, s);
    FreshValid(l);
  }

  lemma FreshValid(l: Ledger)
    requires l.Keyed() && SourceOk(l.t, l.avail, l.copies)
    requires forall x :: x in l.avail ==> l.mMig[x] == Masters(l.t, x) - l.mShare && l.mFlag[x] == 0
    requires forall x :: x in l.avail ==> l.sMig[x] == Copies(l.t, x) - l.sShare && l.sFlag[x] == 0
    requires MasterSlots(l.t, l.avail, |l.t|, l.mBuckets) && SlaveSlots(l.t, l.avail, |l.t|, l.sBuckets)
    requires AllMasters(l.t, l.avail, |l.t|, l.mBuckets) && AllSlaves(l.t, l.avail, |l.t|, l.sBuckets)
    ensures l.Valid()
  {
    assert l.t[..|l.t|] == l.t;
    forall x | x in l.avail ensures l.EvenAt(x) && l.CoveredAt(x) {}
    forall x, b | x in l.avail && b in l.mBuckets[x] ensures l.MasterEntry(x, b) {
      assert MasterSlot(l.t, l.mBuckets, x, b, |l.t|);
    }
    forall x, b | x in l.avail && b in l.sBuckets[x] ensures l.SlaveEntry(x, b) {
      assert SlaveSlot(l.t, l.sBuckets, x, b, |l.t|);
    }
    forall b | 0 <= b < |l.t| ensures PlacedColumn(l.t[b], l.avail) { assert SourceColumn(l.t[b], l.avail); }
  }

  // ---------------------------------------------------------------- level masters

  /** A least loaded server takes one more master: the masters stay level. */
  lemma LevelStep(l: Ledger, b: nat, s: Server)
    requires l.Valid() && Level(l.t, l.avail) && CanPlace(l, b, 0, s)
    requires forall x :: x in l.avail ==> l.mFlag[x] == 0 && l.mMig[s] <= l.mMig[x]
    ensures Level(SetSlot(l.t, b, 0, s), l.avail)
  {
    var r := SetSlot(l.t, b, 0, s);
    forall x, y | x in l.avail && y in l.avail ensures Masters(r, x) <= Masters(r, y) + 1 {
      SlotUpdate(l.t, b, 0, s, x);
      SlotUpdate(l.t, b, 0, s, y);
      assert l.EvenAt(x) && l.EvenAt(y) && l.EvenAt(s);
      assert Masters(l.t, x) <= Masters(l.t, y) + 1;
    }
  }

  lemma {:induction false} SameMasters(t: Table, u: Table, s: Server)
    requires |t| == |u| && forall b :: 0 <= b < |t| ==> t[b] != [] && u[b] != [] && t[b][0] == u[b][0]
    ensures Masters(t, s) == Masters(u, s)
  {
    if t != [] {
      SameMasters(t[..|t| - 1], u[..|u| - 1], s);
    }
  }

  lemma {:induction false} NoMasters(t: Table, s: Server)
    requires forall b :: 0 <= b < |t| ==> t[b] != [] && t[b][0] != s
    ensures Masters(t, s) == 0
  {
    if t != [] {
      NoMasters(t[..|t| - 1], s);
    }
  }
}
