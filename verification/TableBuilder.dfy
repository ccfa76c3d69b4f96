/**
 The table builder of the meta server: quick repair of the routing table, and its full rebuild
 by filling empty slots and moving masters and copies from loaded to less loaded servers.
 */
module TableBuilder {
  import opened Placement
  import opened PlacementMoves
  import opened PlacementSearch
  import opened PlacementCredit
  import opened PlacementRebuild
  import opened PlacementSum
  import opened Rebalance
  import opened Visibility
  import opened MasterBound
  import opened CopyRounds
  import opened FirstBuild
  import opened QuickTable
  import opened QuickBuild
  import opened QuickFair

  /** Every bucket with an available master is registered with that master. */
  ghost predicate MastersIndexed(l: Ledger) {
    forall b {:trigger Registered(l, b)} :: 0 <= b < |l.t| ==> Registered(l, b)
  }

  ghost predicate Registered(l: Ledger, b: nat) {
    b < |l.t| && l.t[b] != [] && l.t[b][0] in l.avail ==> l.t[b][0] in l.mBuckets && b in l.mBuckets[l.t[b][0]]
  }

  /** The state while slots are being filled. */
  ghost predicate Working(l: Ledger, extras: int) {
    l.Valid() && MastersIndexed(l) && MasterBudget(l, extras)
  }

  lemma PlaceWorks(l: Ledger, b: nat, p: nat, s: Server, extras: int)
    requires Working(l, extras) && CanPlace(l, b, p, s) && LiveColumn(l.t[b], l.avail)
    ensures Working(Place(l, b, p, s), extras) && LiveColumn(Place(l, b, p, s).t[b], l.avail)
  {
    PlaceValid(l, b, p, s);
    PlaceKeepsIndex(l, b, p, s);
    PlaceBudget(l, b, p, s, extras);
  }

  lemma DemoteWorks(l: Ledger, b: nat, n: nat, extras: int)
    requires Working(l, extras) && CanDemote(l, b, n) && l.mMig[l.t[b][0]] > 0
    ensures Working(Demote(l, b, n), extras)
    ensures LiveColumn(Demote(l, b, n).t[b], l.avail) && Demote(l, b, n).t[b][0] == INVALID_FLAG
  {
    DemoteValid(l, b, n);
    DemoteKeepsIndex(l, b, n);
    DemoteBudget(l, b, n, extras);
  }

  lemma KeepWorks(l: Ledger, s: Server, extras: int)
    requires Working(l, extras) && s in l.avail && l.mFlag[s] == 0 && l.mMig[s] > 0 && l.copies > 1
    ensures Working(Keep(l, true, s), extras - 1)
  {
    KeepValid(l, true, s);
    KeepKeepsIndex(l, true, s);
    KeepBudget(l, s, extras);
  }

  /** `s` is the choice for the slot: below its share and lowest there, or else lowest with its flags counted. */
  ghost predicate LeastLoaded(l: Ledger, b: nat, p: nat, s: Server) {
    && l.Keyed() && s in l.avail && b < |l.t|
    && forall x :: x in l.avail && CheckNodeOk(x, l.t[b], p) ==>
         if Load(l, p == 0, s) < 0 then Load(l, p == 0, s) <= Load(l, p == 0, x)
         else Load(l, p == 0, x) >= 0 && Total(l, p == 0, s) <= Total(l, p == 0, x)
  }

  datatype BuildResult = BUILD_ERROR | BUILD_OK | BUILD_NO_CHANGE

  ghost predicate OnlyColumn(was: Table, now: Table, i: nat) {
    |now| == |was| && forall b :: 0 <= b < |was| && b != i ==> now[b] == was[b]
  }

  /** A live column whose first `n` slots are taken. */
  ghost predicate Filled(col: Column, avail: set<Server>, n: nat) {
    LiveColumn(col, avail) && n <= |col| && forall p :: 0 <= p < n ==> col[p] in avail
  }

  lemma PlaceKeepsIndex(l: Ledger, b: nat, p: nat, s: Server)
    requires CanPlace(l, b, p, s) && MastersIndexed(l)
    ensures MastersIndexed(Place(l, b, p, s))
  {
    forall c | 0 <= c < |l.t| ensures Registered(Place(l, b, p, s), c) { assert Registered(l, c); }
  }

  lemma DemoteKeepsIndex(l: Ledger, b: nat, n: nat)
    requires CanDemote(l, b, n) && MastersIndexed(l)
    ensures MastersIndexed(Demote(l, b, n))
  {
    forall c | 0 <= c < |l.t| ensures Registered(Demote(l, b, n), c) { assert Registered(l, c); }
  }

  lemma KeepKeepsIndex(l: Ledger, master: bool, s: Server)
    requires l.Keyed() && s in l.avail && MastersIndexed(l)
    ensures MastersIndexed(Keep(l, master, s))
  {
    forall c | 0 <= c < |l.t| ensures Registered(Keep(l, master, s), c) { assert Registered(l, c); }
  }

  /** Without copy flags the choice for a slave slot is a server with the fewest copies. */
  lemma LeastCopies(l: Ledger, extras: int, b: nat, p: nat, s: Server)
    requires Working(l, extras) && LeastLoaded(l, b, p, s) && 0 < p
    ensures forall x :: x in l.avail && CheckNodeOk(x, l.t[b], p) ==> Copies(l.t, s) <= Copies(l.t, x)
  {
    var edge := Edge(l.copies, |l.avail|, |l.t|);
    assert l.EvenAt(s) && MasterFair(l, s, edge);
    forall x | x in l.avail && CheckNodeOk(x, l.t[b], p) ensures Copies(l.t, s) <= Copies(l.t, x) {
      assert l.EvenAt(x) && MasterFair(l, x, edge);
    }
  }

  /** The empty slave slots of bucket `i` before slot `n` went to servers with the fewest copies. */
  ghost predicate Spreads(was: Table, col: Column, avail: set<Server>, i: nat, n: nat) {
    && i < |was| && |col| == |was[i]| && n <= |col|
    && forall p :: 0 < p < n && was[i][p] == INVALID_FLAG ==> LeastAt(was, col, avail, i, p)
  }

  lemma SpreadsMore(was: Table, mid: Table, col: Column, avail: set<Server>, i: nat, n: nat)
    requires i < |was| && OnlyColumn(was, mid, i) && Spreads(was, mid[i], avail, i, n) && 0 < n < |mid[i]|
    requires mid[i][n..] == was[i][n..] && |col| == |mid[i]| && col == mid[i][n := col[n]]
    requires was[i][n] == INVALID_FLAG ==> forall x :: x in avail && CheckNodeOk(x, mid[i], n) ==>
               Copies(mid, col[n]) <= Copies(mid, x)
    ensures Spreads(was, col, avail, i, n + 1) && col[n + 1..] == was[i][n + 1..]
  {
    assert col[n + 1..] == mid[i][n..][1..] == was[i][n..][1..] == was[i][n + 1..];
    forall p | 0 < p < n + 1 && was[i][p] == INVALID_FLAG ensures LeastAt(was, col, avail, i, p) {
      assert col[..p] == mid[i][..p];
      if p < n {
        assert LeastAt(was, mid[i], avail, i, p);
      } else {
        assert mid[i] == mid[i][..n] + was[i][n..];
        assert mid == was[i := col[..p] + was[i][p..]];
      }
    }
  }

  /** The slots of bucket `i` before slot `n` are filled, and nothing else has changed. */
  ghost predicate FilledTo(was: Ledger, l: Ledger, extras: int, i: nat, n: nat) {
    && Working(l, extras) && Sames(was, l) && i < |was.t| && OnlyColumn(was.t, l.t, i)
    && 0 < n <= |l.t[i]| == |was.t[i]| && Filled(l.t[i], l.avail, n)
    && l.t[i][0] == was.t[i][0] && Extends(was.t[i], l.t[i]) && l.mMig == was.mMig && l.mFlag == was.mFlag
    && l.t[i][n..] == was.t[i][n..] && Spreads(was.t, l.t[i], l.avail, i, n)
  }

  lemma FilledByPlace(was: Ledger, l: Ledger, extras: int, i: nat, n: nat, s: Server)
    requires FilledTo(was, l, extras, i, n) && n < |l.t[i]| && l.t[i][n] == INVALID_FLAG && CanPlace(l, i, n, s)
    requires forall x :: x in l.avail && CheckNodeOk(x, l.t[i], n) ==> Copies(l.t, s) <= Copies(l.t, x)
    ensures FilledTo(was, Place(l, i, n, s), extras, i, n + 1)
  {
    var r := Place(l, i, n, s);
    PlaceWorks(l, i, n, s, extras);
    assert was.t[i][n..][0] == l.t[i][n..][0];
    SpreadsMore(was.t, l.t, r.t[i], l.avail, i, n);
  }

  lemma FilledAlready(was: Ledger, l: Ledger, extras: int, i: nat, n: nat)
    requires FilledTo(was, l, extras, i, n) && n < |l.t[i]| && l.t[i][n] != INVALID_FLAG
    ensures FilledTo(was, l, extras, i, n + 1)
  {
    assert was.t[i][n..][0] == l.t[i][n..][0];
    SpreadsMore(was.t, l.t, l.t[i], l.avail, i, n);
  }

  /** Search a server for an empty slot, first among the servers below their share. */
  method Candidate(l: Ledger, b: nat, p: nat) returns (found: bool, s: Server)
    requires l.Keyed() && l.copies <= |l.avail| && b < |l.t| && p < l.copies
    ensures found && s in l.avail && CheckNodeOk(s, l.t[b], p) && LeastLoaded(l, b, p, s)
  {
    var mig := if p == 0 then l.mMig else l.sMig;
    var flag := if p == 0 then l.mFlag else l.sFlag;
    var below := set x | x in mig && mig[x] < 0;
    found, s := PickForSlot(mig, below, l.t[b], p);
    if !found {
      var total := map x | x in flag :: flag[x] + mig[x];
      found, s := PickForSlot(total, flag.Keys, l.t[b], p);
      SomeNodeOk(l.avail, l.t[b], p);
    }
  }

  // ---------------------------------------------------------------- first build

  ghost predicate Unflagged(l: Ledger) {
    forall x {:trigger l.mFlag[x]} :: x in l.avail ==> x in l.mFlag && l.mFlag[x] == 0
  }

  /** The first build has placed the masters of the first `n` buckets. */
  ghost predicate Opening(l: Ledger, extras: int, n: nat) {
    && Working(l, extras) && n <= |l.t|
    && Unflagged(l) && Level(l.t, l.avail) && Bare(l.t, 0)
    && (forall b :: 0 <= b < n ==> l.t[b][0] in l.avail)
    && (forall b {:trigger EmptyColumn(l.t[b])} :: n <= b < |l.t| ==> EmptyColumn(l.t[b]))
  }

  /** The first build has placed all masters, and the slaves of the first `n` buckets. */
  ghost predicate Closing(l: Ledger, extras: int, n: nat) {
    && Working(l, extras) && n <= |l.t| && Level(l.t, l.avail)
    && Bare(l.t, n) && Greedy(l.t, l.avail, n)
    && (forall b :: 0 <= b < |l.t| ==> l.t[b][0] in l.avail)
    && (forall b {:trigger FullColumn(l.t[b], l.avail)} :: 0 <= b < n ==> FullColumn(l.t[b], l.avail))
  }

  /** The first `n` buckets are rebuilt: the live ones full, the dead ones as they were. */
  ghost predicate Rebuilt(source: Table, avail: set<Server>, t: Table, n: nat) {
    && |t| == |source| && n <= |t|
    && (forall b {:trigger FullColumn(t[b], avail)} ::
          0 <= b < n && !DeadColumn(source[b], avail) ==> FullColumn(t[b], avail))
    && (forall b :: 0 <= b < |t| && (n <= b || DeadColumn(source[b], avail)) ==> t[b] == source[b])
  }

  ghost predicate Filling(l: Ledger, extras: int, source: Table, n: nat) {
    && Working(l, extras) && SourceOk(source, l.avail, l.copies) && Rebuilt(source, l.avail, l.t, n)
  }

  /** A finished rebuild: placed as required, and no server with masters or copies left to hand over. */
  ghost predicate Balanced(source: Table, l: Ledger) {
    && l.Valid() && Rebuilt(source, l.avail, l.t, |source|) && Shares(l) && Capped(l)
    && forall s :: s in l.avail ==> l.mMig[s] <= 0 && l.sMig[s] <= 0
  }

  /** No server masters more buckets than its share of all copies and one. */
  ghost predicate Capped(l: Ledger) {
    forall s {:trigger Masters(l.t, s)} :: s in l.avail ==> Masters(l.t, s) <= l.sShare + 1
  }

  lemma CopyCaps(l: Ledger, extras: int)
    requires CopyBudget(l, extras)
    ensures Shares(l) && Capped(l)
  {
    forall s | s in l.avail ensures Masters(l.t, s) <= l.sShare + 1 { assert Modest(l) || NearAt(l, s); }
  }

  ghost predicate EmptyTable(t: Table) {
    forall b {:trigger EmptyColumn(t[b])} :: 0 <= b < |t| ==> EmptyColumn(t[b])
  }

  /** Nothing to do: every live bucket is full and every available server is in use. */
  ghost predicate Settled(t: Table, avail: set<Server>) {
    && (forall b {:trigger FullColumn(t[b], avail)} ::
          0 <= b < |t| && !DeadColumn(t[b], avail) ==> FullColumn(t[b], avail))
    && (forall s :: s in avail ==> Uses(t, avail, s))
  }

  lemma KeepsRebuilt(source: Table, avail: set<Server>, t: Table, u: Table)
    requires Rebuilt(source, avail, t, |source|) && Keeps(avail, t, u)
    ensures Rebuilt(source, avail, u, |source|)
  {
    forall b | 0 <= b < |u| && !DeadColumn(source[b], avail) ensures FullColumn(u[b], avail) {
      assert FullColumn(t[b], avail);
    }
  }

  lemma OpeningCloses(l: Ledger, extras: int)
    requires Opening(l, extras, |l.t|)
    ensures Closing(l, extras, 0)
  {
  }

  lemma EmptyLevel(l: Ledger)
    requires l.Keyed() && forall b :: 0 <= b < |l.t| ==> EmptyColumn(l.t[b])
    ensures Level(l.t, l.avail) && Bare(l.t, 0)
  {
    forall b | 0 <= b < |l.t| ensures BareColumn(l.t[b]) { assert EmptyColumn(l.t[b]); }
    forall x | x in l.avail ensures Masters(l.t, x) == 0 { NoMasters(l.t, x); }
  }

  lemma LevelSame(t: Table, u: Table, avail: set<Server>)
    requires |t| == |u| && forall b :: 0 <= b < |t| ==> t[b] != [] && u[b] != [] && t[b][0] == u[b][0]
    requires Level(t, avail)
    ensures Level(u, avail)
  {
    forall x, y | x in avail && y in avail ensures Masters(u, x) <= Masters(u, y) + 1 {
      SameMasters(t, u, x);
      SameMasters(t, u, y);
    }
  }

  /** In an empty bucket every server fits, so the master goes to a server with the fewest masters. */
  lemma FirstChoice(l: Ledger, b: nat, s: Server)
    requires l.Keyed() && LeastLoaded(l, b, 0, s) && Unflagged(l) && EmptyColumn(l.t[b])
    ensures forall x :: x in l.avail ==> l.mFlag[x] == 0 && l.mMig[s] <= l.mMig[x]
  {
    forall x | x in l.avail ensures l.mFlag[x] == 0 && l.mMig[s] <= l.mMig[x] {
      assert CheckNodeOk(x, l.t[b], 0);
      assert l.mFlag[s] == 0;
    }
  }

  // ---------------------------------------------------------------- reading the source table

  lemma {:induction false} FirstOddExists(t: Table, avail: set<Server>, b: nat, j: nat) returns (c: nat, k: nat)
    requires Odd(t, avail, b, j)
    ensures FirstOdd(t, avail, c, k)
    decreases b, j
  {
    if d: nat, m: nat :| Odd(t, avail, d, m) && Earlier(d, m, b, j) {
      c, k := FirstOddExists(t, avail, d, m);
    } else {
      c, k := b, j;
    }
  }

  lemma NeedMeaning(t: Table, avail: set<Server>, copies: nat, need: bool)
    requires SourceOk(t, avail, copies) && INVALID_FLAG !in avail
    requires forall b: nat, j: nat :: FirstOdd(t, avail, b, j) ==> (need <==> t[b][j] == INVALID_FLAG)
    requires (forall b: nat, j: nat :: !Odd(t, avail, b, j)) ==> (need <==> exists s :: s in avail && !Uses(t, avail, s))
    ensures need <==> !Settled(t, avail)
  {
    if b: nat, j: nat :| Odd(t, avail, b, j) {
      var c, k := FirstOddExists(t, avail, b, j);
      assert SourceColumn(t[c], avail);
      assert t[c][0] in avail && !DeadColumn(t[c], avail) && !FullColumn(t[c], avail);
    } else {
      forall b | 0 <= b < |t| && !DeadColumn(t[b], avail) ensures FullColumn(t[b], avail) {
        assert SourceColumn(t[b], avail);
        forall p | 0 <= p < |t[b]| ensures t[b][p] in avail { assert !Odd(t, avail, b, p); }
      }
    }
  }

  /** If a rebuild is needed although no live bucket lacks a copy, some server is unused. */
  lemma SpareServer(l: Ledger)
    requires l.Valid() && SourceOk(l.t, l.avail, l.copies) && 0 <= l.mShare && 0 <= l.sShare
    requires forall x :: x in l.avail ==> l.mFlag[x] == 0 && l.sFlag[x] == 0
    ensures Lacking(l.t, l.avail) || Settled(l.t, l.avail) || Tells(l, true, l.t)
  {
    if !Lacking(l.t, l.avail) && !Settled(l.t, l.avail) {
      forall b | 0 <= b < |l.t| && !DeadColumn(l.t[b], l.avail) ensures FullColumn(l.t[b], l.avail) {
        assert SourceColumn(l.t[b], l.avail) && !LackingAt(l.t, l.avail, b);
      }
      var spare :| spare in l.avail && !Uses(l.t, l.avail, spare);
      forall b | 0 <= b < |l.t| ensures spare !in l.t[b] { assert SourceColumn(l.t[b], l.avail); }
      NoCopies(l.t, spare);
      assert Untouched(l, l.t, spare);
    }
  }

  lemma FreshBudget(l: Ledger, extras: int)
    requires l.Valid() && Shares(l) && extras == |l.t| % |l.avail|
    requires forall x :: x in l.avail ==> l.mFlag[x] == 0 && l.sFlag[x] == 0
    ensures MasterBudget(l, extras)
  {
    SumZero(l.mFlag, l.avail);
    RoomForOne(|l.t|, l.copies, |l.avail|);
    forall x | x in l.avail ensures MasterFair(l, x, Edge(l.copies, |l.avail|, |l.t|)) { assert l.EvenAt(x); }
  }

  lemma EmptyLacksNothing(source: Table, avail: set<Server>)
    requires EmptyTable(source) && INVALID_FLAG !in avail
    ensures !Lacking(source, avail)
  {
    forall b: nat ensures !LackingAt(source, avail, b) {
      if b < |source| { assert EmptyColumn(source[b]) && DeadColumn(source[b], avail); }
    }
  }

  lemma FirstSlot(source: Table, avail: set<Server>, copies: nat, t: Table)
    requires SourceOk(source, avail, copies) && source != [] && INVALID_FLAG !in avail
    requires Rebuilt(source, avail, t, |source|) && Shaped(t, copies)
    ensures t[0][0] == INVALID_FLAG <==> source[0][0] == INVALID_FLAG
  {
    assert SourceColumn(source[0], avail);
    if !DeadColumn(source[0], avail) { assert FullColumn(t[0], avail); }
  }

  lemma AllEmpty(source: Table, avail: set<Server>, copies: nat, l: Ledger, extras: int)
    requires Filling(l, extras, source, |source|) && l.avail == avail && l.copies == copies
    requires forall i :: 0 <= i < |l.t| ==> l.t[i][0] == INVALID_FLAG
    ensures EmptyTable(source) && l.t == source
  {
    forall b | 0 <= b < |source| ensures EmptyColumn(source[b]) && l.t[b] == source[b] {
      assert SourceColumn(source[b], avail);
      assert !FullColumn(l.t[b], avail);
    }
  }

  lemma LedSomewhere(source: Table, l: Ledger, extras: int)
    requires Filling(l, extras, source, |source|)
    requires exists i :: 0 <= i < |l.t| && l.t[i][0] != INVALID_FLAG
    ensures !EmptyTable(source)
  {
    var i :| 0 <= i < |l.t| && l.t[i][0] != INVALID_FLAG;
    if DeadColumn(source[i], l.avail) {
      assert source[i] == l.t[i];
    } else {
      var p :| 0 <= p < |source[i]| && source[i][p] in l.avail;
      assert source[i][p] != INVALID_FLAG;
    }
    assert !EmptyColumn(source[i]);
  }

  ghost function OverMasters(l: Ledger): set<Server> {
    set s | s in l.avail && Masters(l.t, s) > l.mShare
  }

  ghost function OverCopies(l: Ledger): set<Server> {
    set s | s in l.avail && Copies(l.t, s) > l.sShare
  }

  /** More than eight servers beyond the unavoidable ones are above a share. */
  ghost predicate Uneven(l: Ledger, buckets: nat) {
    && l.avail != {}
    && (|| |OverMasters(l)| - buckets % |l.avail| > 8
        || |OverCopies(l)| - buckets * l.copies % |l.avail| > 8)
  }

  /** The old master sits in the first empty slave slot and another server leads. */
  ghost predicate SteppedDown(was: Column, now: Column) {
    exists n :: 0 < n < |was| && was[n] == INVALID_FLAG && (forall k :: 0 < k < n ==> was[k] != INVALID_FLAG)
                && now != [] && now == was[n := was[0]][0 := now[0]]
  }

  /** Only empty slots have changed. */
  ghost predicate Extends(was: Column, now: Column) {
    |now| == |was| && forall p :: 0 <= p < |was| && was[p] != INVALID_FLAG ==> now[p] == was[p]
  }

  /** The master of the bucket is above its share, and one of the extras is left for it. */
  ghost predicate Retains(l: Ledger, i: nat, extras: int) {
    && i < |l.t| && l.t[i] != [] && l.t[i][0] in l.mMig && l.t[i][0] in l.mFlag
    && l.mMig[l.t[i][0]] > 0 && extras > 0 && l.mFlag[l.t[i][0]] == 0
  }

  /** It is above its share, gets no extra, and has room for the bucket as a slave. */
  ghost predicate Yields(l: Ledger, i: nat, extras: int, copyExtras: int) {
    && i < |l.t| && l.t[i] != [] && l.t[i][0] in l.mMig && l.t[i][0] in l.sMig && l.t[i][0] in l.sFlag
    && l.mMig[l.t[i][0]] > 0 && !Retains(l, i, extras)
    && (l.sMig[l.t[i][0]] <= 0 || (copyExtras > 0 && l.sFlag[l.t[i][0]] == 0))
  }

  /** Whether a bucket gets another leader, and the credit, the flags of its master and the extras then. */
  datatype Ease = Ease(changed: bool, credit: int, flags: int, extras: int)

  /** Easing the master of bucket `i` brings another leader exactly if the master has to yield. */
  ghost function Eased(l: Ledger, extras: int, copyExtras: int, i: nat): (r: Ease)
    requires l.Keyed() && i < |l.t| && l.t[i][0] in l.avail
  {
    var m, keeps, gives := l.t[i][0], Retains(l, i, extras), Yields(l, i, extras, copyExtras);
    Ease(gives, l.mMig[m] - (if keeps || gives then 1 else 0), l.mFlag[m] + (if keeps then 1 else 0),
         extras - if keeps then 1 else 0)
  }

  ghost function EaseOf(m: Server, l: Ledger, i: nat, extras: int): (r: Ease)
    requires l.Keyed() && i < |l.t| && m in l.avail
  {
    Ease(l.t[i][0] != m, l.mMig[m], l.mFlag[m], extras)
  }

  lemma EaseKept(l: Ledger, i: nat, extras: int, copyExtras: int)
    requires l.Keyed() && i < |l.t| && l.t[i][0] in l.avail && Retains(l, i, extras) && Keep(l, true, l.t[i][0]).Keyed()
    ensures EaseOf(l.t[i][0], Keep(l, true, l.t[i][0]), i, extras - 1) == Eased(l, extras, copyExtras, i)
  {
  }

  lemma EaseYielded(l: Ledger, i: nat, extras: int, copyExtras: int, r: Ledger)
    requires l.Keyed() && i < |l.t| && l.t[i][0] in l.avail && Yields(l, i, extras, copyExtras)
    requires r.Keyed() && i < |r.t| && r.avail == l.avail && r.t[i][0] != l.t[i][0] && r.mFlag == l.mFlag
    requires r.mMig[l.t[i][0]] == l.mMig[l.t[i][0]] - 1
    ensures EaseOf(l.t[i][0], r, i, extras) == Eased(l, extras, copyExtras, i)
  {
  }

  lemma EaseStayed(l: Ledger, i: nat, extras: int, copyExtras: int)
    requires l.Keyed() && i < |l.t| && l.t[i][0] in l.avail && !Retains(l, i, extras) && !Yields(l, i, extras, copyExtras)
    ensures EaseOf(l.t[i][0], l, i, extras) == Eased(l, extras, copyExtras, i)
  {
  }

  lemma SteppedDownBy(was: Column, demoted: Column, now: Column, n: nat)
    requires 0 < n < |was| && was[n] == INVALID_FLAG && (forall k :: 0 < k < n ==> was[k] != INVALID_FLAG)
    requires demoted == was[n := was[0]][0 := INVALID_FLAG] && now != [] && now == demoted[0 := now[0]]
    ensures SteppedDown(was, now)
  {
    assert now == was[n := was[0]][0 := now[0]];
  }

  /** The master is demoted and `s` placed in its slot. */
  lemma DownAndUp(l: Ledger, i: nat, n: nat, s: Server, r: Ledger)
    requires CanDemote(l, i, n) && (forall k :: 0 < k < n ==> l.t[i][k] != INVALID_FLAG)
    requires CanPlace(Demote(l, i, n), i, 0, s) && r == Place(Demote(l, i, n), i, 0, s)
    ensures Sames(l, r) && OnlyColumn(l.t, r.t, i) && SteppedDown(l.t[i], r.t[i])
    ensures r.t[i][0] == s != l.t[i][0] && r.mFlag == l.mFlag && r.mMig[l.t[i][0]] == l.mMig[l.t[i][0]] - 1
  {
    var down := Demote(l, i, n).t[i];
    assert down == l.t[i][n := l.t[i][0]][0 := INVALID_FLAG];
    assert down[n] == l.t[i][0];
    SteppedDownBy(l.t[i], down, r.t[i], n);
  }

  ghost predicate EasedColumn(was: Column, now: Column) {
    now == was || SteppedDown(was, now)
  }

  /** No server of the bucket is lost. */
  ghost predicate KeepsServers(was: Column, now: Column) {
    forall p :: 0 <= p < |was| && was[p] != INVALID_FLAG ==> was[p] in now
  }

  lemma EasedKeeps(was: Column, eased: Column)
    requires EasedColumn(was, eased)
    ensures KeepsServers(was, eased)
  {
    if SteppedDown(was, eased) {
      var n :| 0 < n < |was| && was[n] == INVALID_FLAG && eased != [] && eased == was[n := was[0]][0 := eased[0]];
      forall p | 0 <= p < |was| && was[p] != INVALID_FLAG ensures was[p] in eased {
        assert eased[if p == 0 then n else p] == was[p];
      }
    }
  }

  lemma ServersKept(was: Column, eased: Column, now: Column)
    requires KeepsServers(was, eased) && Extends(eased, now)
    ensures KeepsServers(was, now)
  {
    forall p | 0 <= p < |was| && was[p] != INVALID_FLAG ensures was[p] in now {
      var q :| 0 <= q < |eased| && eased[q] == was[p];
      assert now[q] == eased[q];
    }
  }

  /** What one round of either phase keeps. */
  ghost predicate RoundOk(l: Ledger, master: bool, source: Table, r: Ledger) {
    && r.Valid() && Sames(l, r)
    && (Rebuilt(source, l.avail, l.t, |source|) ==> Rebuilt(source, l.avail, r.t, |source|))
    && (Tells(l, master, source) ==> Tells(r, master, source))
  }

  lemma Round(l: Ledger, master: bool, source: Table, node: Server, extras: int, move: Move, r: Ledger)
    requires l.Valid() && Chosen(l, master, node, extras, move) && Load(l, master, node) > 0
    requires r == Relieve(l, master, node, move)
    ensures RoundOk(l, master, source, r) && (!master ==> r.mMig == l.mMig && r.mFlag == l.mFlag)
  {
    RelieveValid(l, master, node, move);
    if Rebuilt(source, l.avail, l.t, |source|) { KeepsRebuilt(source, l.avail, l.t, r.t); }
    if Tells(l, master, source) { TellsStep(l, master, source, node, extras, move); }
  }

  lemma MasterTurn(l: Ledger, source: Table, node: Server, extras: int, move: Move, r: Ledger)
    requires l.Valid() && Chosen(l, true, node, extras, move) && l.mMig[node] > 0 && MasterBudget(l, extras)
    requires r == Relieve(l, true, node, move)
    ensures RoundOk(l, true, source, r) && MasterBudget(r, extras - Spent(move)) && !move.Stuck?
    ensures Credit(r.mMig, l.avail) == Credit(l.mMig, l.avail) - 1
  {
    Round(l, true, source, node, extras, move, r);
    RelieveCredit(l, node, move);
    RelieveValid(l, true, node, move);
    MasterRound(l, node, extras, move, r);
  }

  /** Relieve one server of one master; `spent` says whether this uses up one of the extras. */
  method RelievedMaster(l: Ledger, node: Server, extras: int, ghost source: Table) returns (r: Ledger, spent: bool)
    requires l.Valid() && node in l.avail && l.mMig[node] > 0 && MasterBudget(l, extras)
    ensures RoundOk(l, true, source, r) && MasterBudget(r, extras - if spent then 1 else 0)
    ensures Credit(r.mMig, l.avail) == Credit(l.mMig, l.avail) - 1
  {
    var move := Relief(l, true, node, extras);
    r := Relieve(l, true, node, move);
    MasterTurn(l, source, node, extras, move, r);
    spent := !move.ShiftTo?;
  }

  /** Relieve one server of one copy.  There is always a way to. */
  method RelievedCopy(l: Ledger, node: Server, extras: int, ghost source: Table) returns (r: Ledger, spent: bool)
    requires l.Valid() && node in l.avail && l.sMig[node] > 0 && CopyBudget(l, extras)
    ensures RoundOk(l, false, source, r) && CopyBudget(r, extras - if spent then 1 else 0)
    ensures r.mMig == l.mMig && r.mFlag == l.mFlag
    ensures Credit(r.sMig, l.avail) == Credit(l.sMig, l.avail) - 1
  {
    var move := Relief(l, false, node, extras);
    r := Relieve(l, false, node, move);
    Round(l, false, source, node, extras, move, r);
    CopyRound(l, node, extras, move, r);
    spent := !move.ShiftTo?;
  }

  lemma EasedThenFilled(l: Ledger, eased: Ledger, r: Ledger, i: nat, extras: int, copyExtras: int, left: int)
    requires l.Keyed() && eased.Keyed() && r.Keyed() && Sames(l, eased) && Sames(eased, r)
    requires i < |l.t| && OnlyColumn(l.t, eased.t, i) && OnlyColumn(eased.t, r.t, i) && l.t[i][0] in l.avail
    requires KeepsServers(l.t[i], eased.t[i]) && Extends(eased.t[i], r.t[i])
    requires r.t[i][0] == eased.t[i][0] && r.mMig == eased.mMig && r.mFlag == eased.mFlag
    requires EaseOf(l.t[i][0], eased, i, left) == Eased(l, extras, copyExtras, i)
    ensures Sames(l, r) && OnlyColumn(l.t, r.t, i) && KeepsServers(l.t[i], r.t[i])
    ensures EaseOf(l.t[i][0], r, i, left) == Eased(l, extras, copyExtras, i)
  {
    ServersKept(l.t[i], eased.t[i], r.t[i]);
  }

  // ---------------------------------------------------------------- taking over

  /** The tokens of every available server count the buckets it has taken over. */
  ghost predicate Counted(tokens: Counts, dest: Table, led: Table, avail: set<Server>, n: nat) {
    forall s {:trigger Tokens(tokens, s)} :: s in avail ==> Tokens(tokens, s) == Inherited(dest, led, avail, s, n)
  }

  /** The choice among the slaves of a bucket, from the counts so far to the counts with this bucket. */
  lemma TakeOver(tokens: Counts, dest: Table, led: Table, avail: set<Server>, i: nat, k: nat, u: Table)
    requires i < |dest| == |led| && Counted(tokens, dest, led, avail, i) && dest[i] != [] && dest[i][0] !in avail
    requires 0 < k < |dest[i]| && dest[i][k] in avail && u == led[i := Promoted(dest[i], k)]
    requires forall j :: 0 < j < |dest[i]| && dest[i][j] in avail ==>
               && Tokens(tokens, dest[i][k]) <= Tokens(tokens, dest[i][j])
               && (j < k ==> Tokens(tokens, dest[i][k]) < Tokens(tokens, dest[i][j]))
    ensures FairAt(dest, u, avail, i)
    ensures Counted(tokens[dest[i][k] := Tokens(tokens, dest[i][k]) + 1], dest, u, avail, i + 1)
  {
    forall s ensures Inherited(dest, u, avail, s, i) == Inherited(dest, led, avail, s, i) {
      InheritedSame(dest, led, u, avail, s, i);
    }
    assert Fewest(dest, u, avail, i, k);
    assert u[i][0] == dest[i][k];
    var more := tokens[dest[i][k] := Tokens(tokens, dest[i][k]) + 1];
    forall s | s in avail ensures Tokens(more, s) == Inherited(dest, u, avail, s, i + 1) {
      assert Tokens(tokens, s) == Inherited(dest, led, avail, s, i);
    }
  }

  lemma NobodyTakes(tokens: Counts, dest: Table, led: Table, avail: set<Server>, i: nat)
    requires i < |dest| == |led| && Counted(tokens, dest, led, avail, i) && dest[i] != [] && led[i] == dest[i]
    requires dest[i][0] in avail || DeadColumn(dest[i], avail)
    ensures FairAt(dest, led, avail, i) && Counted(tokens, dest, led, avail, i + 1)
  {
  }

  class TableBuilder {
    const copyCount: nat
    const avail: set<Server>
    var mtokens: Counts        // masters handed out by the quick repair so far
    var st: Ledger             // the table under construction and its ledgers
    var maxMaster: int         // servers that may still keep one master above their share
    var maxBucket: int         // servers that may still keep one copy above their share

    ghost predicate Ready() reads this {
      0 < copyCount && INVALID_FLAG !in avail && forall s :: s in mtokens ==> 0 <= mtokens[s]
    }

    constructor (copies: nat, servers: set<Server>)
      requires 0 < copies && INVALID_FLAG !in servers
      ensures Ready() && copyCount == copies && avail == servers && mtokens == map[]
    {
      copyCount, avail, mtokens := copies, servers, map[];
      st := Ledger(servers, copies, 0, 0, [], map[], map[], map[], map[], map[], map[]);
      maxMaster, maxBucket := 0, 0;
    }

    // -------------------------------------------------------------- quick repair

    /** Put the available slave with the fewest new masters, the first of these, in charge. */
    method ChangeMasterNode(col: Column) returns (ok: bool, r: Column)
      requires Ready() && |col| == copyCount && col[0] !in avail
      modifies this`mtokens
      ensures Ready()
      ensures ok <==> !DeadColumn(col, avail)
      ensures !ok ==> r == col && mtokens == old(mtokens)
      ensures ok ==> exists k ::
                && 0 < k < |col| && col[k] in avail && r == Promoted(col, k)
                && mtokens == old(mtokens)[col[k] := Tokens(old(mtokens), col[k]) + 1]
                && (forall j :: 0 < j < |col| && col[j] in avail ==>
                      && Tokens(old(mtokens), col[k]) <= Tokens(old(mtokens), col[j])
                      && (j < k ==> Tokens(old(mtokens), col[k]) < Tokens(old(mtokens), col[j])))
    {
      var chosen, least := -1, -1;
      for line := 1 to copyCount
        invariant least == -1 <==> chosen == -1
        invariant chosen == -1 ==> forall j :: 0 < j < line ==> col[j] !in avail
        invariant chosen != -1 ==> 0 < chosen < line && col[chosen] in avail && least == Tokens(mtokens, col[chosen])
        invariant chosen != -1 ==> forall j :: 0 < j < line && col[j] in avail ==>
                    && Tokens(mtokens, col[chosen]) <= Tokens(mtokens, col[j])
                    && (j < chosen ==> Tokens(mtokens, col[chosen]) < Tokens(mtokens, col[j]))
      {
        if col[line] in avail {
          var count := Tokens(mtokens, col[line]);
          if least == -1 || least > count {
            chosen, least := line, count;
          }
        }
      }
      if least == -1 {
        return false, col;
      }
      mtokens := mtokens[col[chosen] := Tokens(mtokens, col[chosen]) + 1];
      return true, Promoted(col, chosen);
    }

    /** The state of the first pass of the repair before bucket `n`. */
    ghost predicate Leading(dest: Table, led: Table, fresh': bool, n: nat) reads this {
      && Ready() && Shaped(dest, copyCount) && Shaped(led, copyCount) && n <= |dest| == |led|
      && (forall b :: 0 <= b < n ==> Led(dest[b], avail, led[b]))
      && (forall b :: n <= b < |dest| ==> led[b] == dest[b])
      && (fresh' ==> Counted(mtokens, dest, led, avail, n))
      && (fresh' ==> forall b {:trigger FairAt(dest, led, avail, b)} :: 0 <= b < n ==> FairAt(dest, led, avail, b))
    }

    /** Give the next bucket an available master if it has lost its own. */
    method LeadNext(dest: Table, led: Table, ghost fresh': bool, i: nat) returns (u: Table)
      requires Leading(dest, led, fresh', i) && i < |dest|
      modifies this`mtokens
      ensures Leading(dest, u, fresh', i + 1)
    {
      u := led;
      ghost var tokens := mtokens;
      if led[i][0] !in avail {
        var ok, c := ChangeMasterNode(led[i]);
        u := led[i := c];
        if ok {
          ghost var k :| 0 < k < |dest[i]| && dest[i][k] in avail && c == Promoted(dest[i], k)
                && mtokens == tokens[dest[i][k] := Tokens(tokens, dest[i][k]) + 1]
                && (forall j :: 0 < j < |dest[i]| && dest[i][j] in avail ==>
                      && Tokens(tokens, dest[i][k]) <= Tokens(tokens, dest[i][j])
                      && (j < k ==> Tokens(tokens, dest[i][k]) < Tokens(tokens, dest[i][j])));
          if fresh' { TakeOver(tokens, dest, led, avail, i, k, u); }
        }
      }
      assert u[i] == dest[i] || u == led[i := u[i]];
      if fresh' {
        if u[i] == dest[i] && (dest[i][0] in avail || DeadColumn(dest[i], avail)) {
          assert u == led;
          NobodyTakes(mtokens, dest, u, avail, i);
        }
        forall b | 0 <= b < i ensures FairAt(dest, u, avail, b) { FairSame(dest, led, u, avail, b); }
      }
    }

    /** Give every bucket that has lost its master one of its available slaves as master. */
    method LeadAll(dest: Table) returns (led: Table)
      requires Ready() && Shaped(dest, copyCount)
      modifies this`mtokens
      ensures Leading(dest, led, old(mtokens) == map[], |dest|)
    {
      led := dest;
      for idx := 0 to |dest|
        invariant Leading(dest, led, old(mtokens) == map[], idx)
      {
        led := LeadNext(dest, led, old(mtokens) == map[], idx);
      }
    }

    /**
     Repair the table: give every bucket an available master, drop dead slaves, close the gaps.  A
     bucket that has lost its master goes to the first of its available slaves that have taken over
     the fewest buckets before it.
     */
    method BuildQuickTable(dest: Table) returns (r: Table)
      requires Ready() && Shaped(dest, copyCount)
      modifies this`mtokens
      ensures Ready() && |r| == |dest| && Shaped(r, copyCount)
      ensures forall b :: 0 <= b < |dest| ==> QuickColumn(dest[b], avail, r[b])
      ensures old(mtokens) == map[] ==> Fair(dest, r, avail)
    {
      var led := LeadAll(dest);
      var swept := ClearDead(avail, copyCount, led);
      r := swept;
      for i := 0 to |swept|
        invariant Ready() && |r| == |swept|
        invariant forall b :: 0 <= b < i ==> swept[b] != [] && r[b] == Closed(swept[b])
        invariant forall b :: i <= b < |swept| ==> r[b] == swept[b]
      {
        var c := CloseUp(r[i]);
        r := r[i := c];
      }
      forall b | 0 <= b < |dest| ensures QuickColumn(dest[b], avail, r[b]) && |r[b]| == copyCount {
        PassesRepair(dest[b], avail, led[b]);
      }
      if old(mtokens) == map[] {
        forall b | 0 <= b < |dest| ensures FairAt(dest, r, avail, b) { FairSame(dest, led, r, avail, b); }
      }
    }

    // -------------------------------------------------------------- filling empty slots

    /** Choose a server for an empty slot.  With enough servers this never fails. */
    method ChooseNodeInvalid(b: nat, p: nat) returns (ok: bool)
      requires Working(st, maxMaster)
      requires b < |st.t| && p < st.copies && st.t[b][p] !in st.avail && LiveColumn(st.t[b], st.avail)
      modifies this`st
      ensures ok && Working(st, maxMaster)
      ensures b < |st.t| && p < |st.t[b]|
      ensures CanPlace(old(st), b, p, st.t[b][p]) && st == Place(old(st), b, p, st.t[b][p])
      ensures LeastLoaded(old(st), b, p, st.t[b][p])
      ensures LiveColumn(st.t[b], st.avail)
    {
      var s: Server;
      ok, s := Candidate(st, b, p);
      PlaceWorks(st, b, p, s, maxMaster);
      st := Place(st, b, p, s);
    }

    method ChooseSlaveAt(i: nat, n: nat, ghost was: Ledger)
      requires FilledTo(was, st, maxMaster, i, n) && n < st.copies
      modifies this`st
      ensures FilledTo(was, st, maxMaster, i, n + 1)
    {
      ghost var l := st;
      if st.t[i][n] == INVALID_FLAG {
        var ok := ChooseNodeInvalid(i, n);
        LeastCopies(l, maxMaster, i, n, st.t[i][n]);
        FilledByPlace(was, l, maxMaster, i, n, st.t[i][n]);
      } else {
        FilledAlready(was, l, maxMaster, i, n);
      }
    }

    /** Fill every empty slave slot of a bucket, each with a server that has the fewest copies. */
    method ChooseSlaveForInvalid(i: nat)
      requires Working(st, maxMaster)
      requires i < |st.t| && st.t[i][0] in st.avail
      modifies this`st
      ensures Working(st, maxMaster) && Sames(old(st), st)
      ensures OnlyColumn(old(st).t, st.t, i) && FullColumn(st.t[i], st.avail) && |st.t[i]| == st.copies
      ensures st.t[i][0] == old(st).t[i][0] && Extends(old(st).t[i], st.t[i])
      ensures st.mMig == old(st).mMig && st.mFlag == old(st).mFlag
      ensures Spreads(old(st).t, st.t[i], st.avail, i, st.copies)
    {
      ghost var was := st;
      assert PlacedColumn(st.t[i], st.avail);
      for n := 1 to st.copies
        invariant FilledTo(was, st, maxMaster, i, n)
      {
        ChooseSlaveAt(i, n, was);
      }
      assert PlacedColumn(st.t[i], st.avail);
    }

    /** The first empty slave slot of a bucket. */
    method FirstEmpty(col: Column) returns (n: nat)
      requires exists n :: 0 < n < |col| && col[n] == INVALID_FLAG
      ensures 0 < n < |col| && col[n] == INVALID_FLAG && forall k :: 0 < k < n ==> col[k] != INVALID_FLAG
    {
      n := 1;
      while col[n] != INVALID_FLAG
        invariant 0 < n < |col| && forall k :: 0 < k < n ==> col[k] != INVALID_FLAG
        decreases |col| - n
      {
        n := n + 1;
      }
    }

    /** The master of a bucket steps down into an empty slave slot and another server takes over. */
    method StepDown(i: nat)
      requires Working(st, maxMaster)
      requires i < |st.t| && st.t[i][0] in st.avail && st.mMig[st.t[i][0]] > 0
      requires exists n :: 0 < n < |st.t[i]| && st.t[i][n] == INVALID_FLAG
      modifies this`st
      ensures Working(st, maxMaster) && Sames(old(st), st)
      ensures OnlyColumn(old(st).t, st.t, i) && i < |st.t| && st.t[i][0] in st.avail
      ensures SteppedDown(old(st).t[i], st.t[i]) && st.t[i][0] != old(st).t[i][0] && st.mFlag == old(st).mFlag
      ensures st.mMig[old(st).t[i][0]] == old(st).mMig[old(st).t[i][0]] - 1
    {
      ghost var was := st;
      var n := FirstEmpty(st.t[i]);
      assert Registered(st, i);
      DemoteWorks(st, i, n, maxMaster);
      st := Demote(st, i, n);
      var ok := ChooseNodeInvalid(i, 0);
      DownAndUp(was, i, n, st.t[i][0], st);
    }

    /** An overloaded master keeps the bucket above its share, or steps down, or stays as it is. */
    method EaseMaster(i: nat)
      requires Working(st, maxMaster)
      requires i < |st.t| && st.t[i][0] in st.avail
      requires exists n :: 0 < n < |st.t[i]| && st.t[i][n] == INVALID_FLAG
      modifies this`st, this`maxMaster
      ensures Working(st, maxMaster) && Sames(old(st), st)
      ensures OnlyColumn(old(st).t, st.t, i) && i < |st.t| && st.t[i][0] in st.avail
      ensures EasedColumn(old(st).t[i], st.t[i]) && KeepsServers(old(st).t[i], st.t[i])
      ensures EaseOf(old(st).t[i][0], st, i, maxMaster) == Eased(old(st), old(maxMaster), maxBucket, i)
    {
      var m := st.t[i][0];
      ghost var was := st;
      if st.mMig[m] > 0 && maxMaster > 0 && st.mFlag[m] == 0 {
        KeepWorks(st, m, maxMaster);
        EaseKept(st, i, maxMaster, maxBucket);
        st := Keep(st, true, m);
        maxMaster := maxMaster - 1;
      } else if st.mMig[m] > 0 && (st.sMig[m] <= 0 || (maxBucket > 0 && st.sFlag[m] == 0)) {
        StepDown(i);
        EasedKeeps(was.t[i], st.t[i]);
        EaseYielded(was, i, maxMaster, maxBucket, st);
      } else {
        EaseStayed(st, i, maxMaster, maxBucket);
      }
    }

    /** Fill the empty slots of one bucket, moving its master first if the master is overloaded. */
    method FillBucket(i: nat)
      requires Working(st, maxMaster)
      requires i < |st.t| && st.t[i][0] in st.avail
      modifies this`st, this`maxMaster
      ensures Working(st, maxMaster) && Sames(old(st), st)
      ensures OnlyColumn(old(st).t, st.t, i) && FullColumn(st.t[i], st.avail)
      ensures KeepsServers(old(st).t[i], st.t[i])
      ensures if INVALID_FLAG in old(st).t[i] then EaseOf(old(st).t[i][0], st, i, maxMaster) == Eased(old(st), old(maxMaster), maxBucket, i)
              else st == old(st) && maxMaster == old(maxMaster)
    {
      assert PlacedColumn(st.t[i], st.avail);
      if exists j :: 0 < j < |st.t[i]| && st.t[i][j] == INVALID_FLAG {
        FillLacking(i);
      }
    }

    /** The bucket lacks a slave: ease its master, then fill the slave slots. */
    method FillLacking(i: nat)
      requires Working(st, maxMaster) && i < |st.t| && st.t[i][0] in st.avail
      requires exists n :: 0 < n < |st.t[i]| && st.t[i][n] == INVALID_FLAG
      modifies this`st, this`maxMaster
      ensures Working(st, maxMaster) && Sames(old(st), st)
      ensures OnlyColumn(old(st).t, st.t, i) && FullColumn(st.t[i], st.avail)
      ensures KeepsServers(old(st).t[i], st.t[i])
      ensures EaseOf(old(st).t[i][0], st, i, maxMaster) == Eased(old(st), old(maxMaster), maxBucket, i)
    {
      ghost var was, extras := st, maxMaster;
      EaseMaster(i);
      ghost var eased := st;
      ChooseSlaveForInvalid(i);
      EasedThenFilled(was, eased, st, i, extras, maxBucket, maxMaster);
    }

    // -------------------------------------------------------------- moving slots

    /** Relieve one server that is above its share of one master. */
    method ChooseMaster(node: Server, ghost source: Table)
      requires st.Valid() && node in st.avail && st.mMig[node] > 0 && MasterBudget(st, maxMaster)
      modifies this`st, this`maxMaster
      ensures RoundOk(old(st), true, source, st) && MasterBudget(st, maxMaster)
      ensures Credit(st.mMig, st.avail) == Credit(old(st).mMig, st.avail) - 1
    {
      var r, spent := RelievedMaster(st, node, maxMaster, source);
      st := r;
      if spent { maxMaster := maxMaster - 1; }
    }

    /** Relieve one server that is above its share of one copy. */
    method ChooseCopy(node: Server, ghost source: Table)
      requires st.Valid() && node in st.avail && st.sMig[node] > 0 && CopyBudget(st, maxBucket)
      modifies this`st, this`maxBucket
      ensures RoundOk(old(st), false, source, st) && CopyBudget(st, maxBucket)
      ensures st.mMig == old(st).mMig && st.mFlag == old(st).mFlag
      ensures Credit(st.sMig, st.avail) == Credit(old(st).sMig, st.avail) - 1
    {
      var r, spent := RelievedCopy(st, node, maxBucket, source);
      st := r;
      if spent { maxBucket := maxBucket - 1; }
    }

    /** Relieve the heaviest server until no server is above its master share.  This ends. */
    method MasterPhase(ghost source: Table)
      requires st.Valid() && Rebuilt(source, st.avail, st.t, |source|) && st.avail != {} && MasterBudget(st, maxMaster)
      modifies this`st, this`maxMaster
      ensures st.Valid() && Sames(old(st), st) && Rebuilt(source, st.avail, st.t, |source|)
      ensures forall s :: s in st.avail ==> st.mMig[s] <= 0
      ensures Tells(old(st), true, source) ==> Tells(st, true, source)
      ensures MasterBudget(st, maxMaster)
    {
      ghost var was := st;
      var node := Heaviest(st.mMig);
      while st.mMig[node] > 0
        invariant MasterBudget(st, maxMaster)
        invariant st.Valid() && Sames(was, st) && Rebuilt(source, st.avail, st.t, |source|)
        invariant Tells(was, true, source) ==> Tells(st, true, source)
        invariant node in st.avail && forall s :: s in st.avail ==> st.mMig[s] <= st.mMig[node]
        decreases Credit(st.mMig, st.avail)
      {
        ChooseMaster(node, source);
        node := Heaviest(st.mMig);
      }
    }

    /** The same for copies.  This ends as well: no server above its share is ever stuck. */
    method CopyPhase(ghost source: Table)
      requires st.Valid() && Rebuilt(source, st.avail, st.t, |source|) && st.avail != {} && CopyBudget(st, maxBucket)
      modifies this`st, this`maxBucket
      ensures st.Valid() && Sames(old(st), st) && Rebuilt(source, st.avail, st.t, |source|)
      ensures st.mMig == old(st).mMig && st.mFlag == old(st).mFlag
      ensures forall s :: s in st.avail ==> st.sMig[s] <= 0
      ensures Tells(old(st), false, source) ==> Tells(st, false, source)
      ensures Shares(st) && Capped(st)
    {
      ghost var was := st;
      var node := Heaviest(st.sMig);
      while st.sMig[node] > 0
        invariant CopyBudget(st, maxBucket)
        invariant st.Valid() && Sames(was, st) && Rebuilt(source, st.avail, st.t, |source|)
        invariant st.mMig == was.mMig && st.mFlag == was.mFlag
        invariant Tells(was, false, source) ==> Tells(st, false, source)
        invariant node in st.avail && forall s :: s in st.avail ==> st.sMig[s] <= st.sMig[node]
        decreases Credit(st.sMig, st.avail)
      {
        ChooseCopy(node, source);
        node := Heaviest(st.sMig);
      }
      CopyCaps(st, maxBucket);
    }

    // -------------------------------------------------------------- the first build

    /** Give the next bucket its master. */
    method PlaceFirstMaster(i: nat)
      requires Opening(st, maxMaster, i) && i < |st.t|
      modifies this`st
      ensures Opening(st, maxMaster, i + 1) && Sames(old(st), st) && |st.t| == old(|st.t|)
    {
      ghost var l := st;
      assert EmptyColumn(st.t[i]);
      var ok := ChooseNodeInvalid(i, 0);
      ghost var s := st.t[i][0];
      FirstChoice(l, i, s);
      LevelStep(l, i, s);
      forall b | 0 <= b < |st.t| ensures BareColumn(st.t[b]) { assert BareColumn(l.t[b]); }
    }

    /** Give the next bucket its slaves. */
    method PlaceFirstSlaves(i: nat)
      requires Closing(st, maxMaster, i) && i < |st.t|
      modifies this`st
      ensures Closing(st, maxMaster, i + 1) && Sames(old(st), st) && |st.t| == old(|st.t|)
    {
      ghost var was := st.t;
      ChooseSlaveForInvalid(i);
      LevelSame(was, st.t, st.avail);
      assert BareColumn(was[i]);
      GreedyMore(was, st.t, st.avail, i);
    }

    /** Give every bucket of an empty table its master. */
    method PlaceFirstMasters()
      requires Opening(st, maxMaster, 0)
      modifies this`st
      ensures Opening(st, maxMaster, |st.t|) && Sames(old(st), st) && |st.t| == old(|st.t|)
    {
      ghost var n := |st.t|;
      for i := 0 to |st.t|
        invariant Opening(st, maxMaster, i) && Sames(old(st), st) && |st.t| == n
      {
        PlaceFirstMaster(i);
      }
    }

    /** Give every bucket its slaves. */
    method PlaceAllSlaves()
      requires Closing(st, maxMaster, 0)
      modifies this`st
      ensures Closing(st, maxMaster, |st.t|) && Sames(old(st), st) && |st.t| == old(|st.t|)
    {
      ghost var n := |st.t|;
      for i := 0 to |st.t|
        invariant Closing(st, maxMaster, i) && Sames(old(st), st) && |st.t| == n
      {
        PlaceFirstSlaves(i);
      }
    }

    /** Give every bucket of an empty table its master, then its slaves. */
    method BuildFirstTime()
      requires Opening(st, maxMaster, 0)
      modifies this`st
      ensures Closing(st, maxMaster, |st.t|) && Sames(old(st), st) && |st.t| == old(|st.t|)
    {
      PlaceFirstMasters();
      OpeningCloses(st, maxMaster);
      PlaceAllSlaves();
    }

    // -------------------------------------------------------------- the rebuild

    method FillNext(source: Table, i: nat)
      requires Filling(st, maxMaster, source, i) && i < |source|
      modifies this`st, this`maxMaster
      ensures Filling(st, maxMaster, source, i + 1) && Sames(old(st), st)
      ensures !LackingAt(source, st.avail, i) ==> st == old(st)
    {
      ghost var was := st.t;
      assert SourceColumn(source[i], st.avail);
      if st.t[i][0] in st.avail {
        FillBucket(i);
      }
    }

    /** Fill the empty slots of every live bucket. */
    method FillBuckets(source: Table)
      requires Filling(st, maxMaster, source, 0)
      modifies this`st, this`maxMaster
      ensures Filling(st, maxMaster, source, |source|) && Sames(old(st), st)
      ensures !Lacking(source, st.avail) ==> st == old(st)
    {
      for i := 0 to |st.t|
        invariant Filling(st, maxMaster, source, i) && Sames(old(st), st)
        invariant !Lacking(source, st.avail) ==> st == old(st)
      {
        assert !Lacking(source, st.avail) ==> !LackingAt(source, st.avail, i);
        FillNext(source, i);
      }
    }

    /** Set up the ledgers for a table. */
    method Prepare(source: Table)
      requires Ready() && SourceOk(source, avail, copyCount) && avail != {} && copyCount <= |avail|
      modifies this`st, this`maxMaster, this`maxBucket
      ensures Filling(st, maxMaster, source, 0) && Unflagged(st) && st.avail == avail && st.copies == copyCount
      ensures st.t == source
      ensures maxBucket == (|source| * copyCount) % |avail|
      ensures Lacking(source, avail) || Settled(source, avail) || Tells(st, true, source)
    {
      st := InitLedger(source, copyCount, avail);
      maxMaster := |source| % |avail|;
      maxBucket := (|source| * copyCount) % |avail|;
      forall b | 0 <= b < |source| ensures Registered(st, b) { assert SourceColumn(source[b], avail); }
      SpareServer(st);
      FreshBudget(st, maxMaster);
    }

    /** Bring every server down to its share of masters and then of copies. */
    method Balance(source: Table)
      requires Filling(st, maxMaster, source, |source|) && st.avail != {}
      requires maxBucket == |source| * st.copies % |st.avail|
      modifies this`st, this`maxMaster, this`maxBucket
      ensures Sames(old(st), st) && Balanced(source, st)
      ensures Tells(old(st), true, source) ==> Shows(source, st.t)
    {
      MasterPhase(source);
      if Tells(st, true, source) { TellsOn(st, source); }
      CopyStart(st, maxMaster, maxBucket);
      CopyPhase(source);
      if Tells(st, false, source) { TellsShows(st, source); }
    }

    /** More than eight servers over their share beyond the unavoidable ones. */
    method OutOfThreshold(spareMasters: int, spareCopies: int) returns (bad: bool)
      requires st.Keyed()
      ensures bad <==> |OverMasters(st)| - spareMasters > 8 || |OverCopies(st)| - spareCopies > 8
    {
      var all, masters := CountTokens(st.t, st.copies, st.avail);
      var m := set s | s in st.avail && masters[s] > st.mShare;
      var c := set s | s in st.avail && all[s] > st.sShare;
      assert m == OverMasters(st) && c == OverCopies(st);
      bad := |m| - spareMasters > 8 || |c| - spareCopies > 8;
    }

    /** Balance the filled table and look whether it is even enough. */
    method BalanceChecked(source: Table) returns (r: BuildResult)
      requires Filling(st, maxMaster, source, |source|) && st.avail != {}
      requires Lacking(source, st.avail) || Tells(st, true, source)
      requires maxBucket == |source| * st.copies % |st.avail|
      modifies this`st, this`maxMaster, this`maxBucket
      ensures Sames(old(st), st) && Balanced(source, st) && Shows(source, st.t)
      ensures r == if Uneven(st, |source|) then BUILD_ERROR else BUILD_OK
    {
      ghost var lacks := Lacking(source, st.avail);
      Balance(source);
      if lacks { FilledShows(source, st.t, st.avail, st.copies); }
      var bad := OutOfThreshold(|source| % |st.avail|, (|source| * st.copies) % |st.avail|);
      return if bad then BUILD_ERROR else BUILD_OK;
    }

    /** The first bucket has no master: build the first table, unless some other bucket has one. */
    method BuildChecked(source: Table) returns (r: BuildResult)
      requires Filling(st, maxMaster, source, |source|)
      requires EmptyTable(source) ==> Unflagged(st)
      modifies this`st
      ensures Sames(old(st), st)
      ensures r == if EmptyTable(source) then BUILD_OK else BUILD_ERROR
      ensures EmptyTable(source) ==> |st.t| == |source| && Closing(st, maxMaster, |source|)
    {
      if exists i :: 0 <= i < |st.t| && st.t[i][0] != INVALID_FLAG {
        LedSomewhere(source, st, maxMaster);
        return BUILD_ERROR;
      }
      AllEmpty(source, st.avail, st.copies, st, maxMaster);
      EmptyLevel(st);
      BuildFirstTime();
      return BUILD_OK;
    }

    /** Set up the ledgers and fill the empty slots. */
    method Fill(source: Table)
      requires Ready() && SourceOk(source, avail, copyCount) && avail != {} && copyCount <= |avail|
      requires !Settled(source, avail)
      modifies this`st, this`maxMaster, this`maxBucket
      ensures Filling(st, maxMaster, source, |source|) && (EmptyTable(source) ==> Unflagged(st))
      ensures st.avail == avail && st.copies == copyCount
      ensures Lacking(source, avail) || Tells(st, true, source)
      ensures maxBucket == (|source| * copyCount) % |avail|
    {
      Prepare(source);
      if EmptyTable(source) { EmptyLacksNothing(source, avail); }
      FillBuckets(source);
    }

    /** Fill the table and finish it. */
    method Build(source: Table) returns (r: BuildResult)
      requires Ready() && source != [] && SourceOk(source, avail, copyCount) && copyCount <= |avail|
      requires !Settled(source, avail)
      modifies this`st, this`maxMaster, this`maxBucket
      ensures st.avail == avail && st.copies == copyCount
      ensures source[0][0] == INVALID_FLAG ==> r == if EmptyTable(source) then BUILD_OK else BUILD_ERROR
      ensures EmptyTable(source) ==> |st.t| == |source| && Closing(st, maxMaster, |source|)
      ensures source[0][0] != INVALID_FLAG ==>
                Balanced(source, st) && Shows(source, st.t) && r == if Uneven(st, |source|) then BUILD_ERROR else BUILD_OK
    {
      Fill(source);
      FirstSlot(source, avail, copyCount, st.t);
      if st.t[0][0] == INVALID_FLAG {
        r := BuildChecked(source);
      } else {
        assert !EmptyColumn(source[0]);
        r := BalanceChecked(source);
      }
    }

    /** Rebuild the table.  The result is left in `st.t`. */
    method RebuildTableNew(source: Table) returns (r: BuildResult)
      requires Ready() && source != [] && SourceOk(source, avail, copyCount)
      modifies this`st, this`maxMaster, this`maxBucket
      ensures r == BUILD_NO_CHANGE <==> Settled(source, avail)
      ensures r == BUILD_NO_CHANGE ==> st.t == source
      ensures r == BUILD_OK ==> copyCount <= |avail| && st.avail == avail && st.copies == copyCount
      ensures r == BUILD_OK && !EmptyTable(source) ==> Balanced(source, st) && Shows(source, st.t) && !Uneven(st, |source|)
      ensures r == BUILD_ERROR && copyCount <= |avail| ==>
                if source[0][0] == INVALID_FLAG then !EmptyTable(source) else Balanced(source, st) && Uneven(st, |source|)
      ensures EmptyTable(source) && !Settled(source, avail) ==> (r == BUILD_OK <==> copyCount <= |avail|)
      ensures EmptyTable(source) && r == BUILD_OK ==> |st.t| == |source| && Closing(st, maxMaster, |source|)
    {
      st := st.(t := source);
      var need := CheckRebuildNeed(source, copyCount, avail);
      NeedMeaning(source, avail, copyCount, need);
      if !need {
        return BUILD_NO_CHANGE;
      }
      if |avail| < copyCount {
        return BUILD_ERROR;
      }
      r := Build(source);
      assert EmptyTable(source) ==> EmptyColumn(source[0]);
    }
  }

  // ---------------------------------------------------------------- repair followed by rebuild

  ghost predicate Tidy(t: Table, copies: nat) {
    Shaped(t, copies) && forall b :: 0 <= b < |t| ==> Distinct(t[b]) && (t[b] == [] || t[b][0] != INVALID_FLAG)
  }

  /** The quick repair of a tidy table is a source table for the rebuild. */
  lemma RepairedSource(t: Table, q: Table, avail: set<Server>, copies: nat)
    requires Tidy(t, copies) && 0 < copies && INVALID_FLAG !in avail
    requires |q| == |t| && Shaped(q, copies) && forall b :: 0 <= b < |t| ==> QuickColumn(t[b], avail, q[b])
    ensures SourceOk(q, avail, copies)
    ensures forall b :: 0 <= b < |t| ==> (DeadColumn(q[b], avail) <==> DeadColumn(t[b], avail))
    ensures forall b :: 0 <= b < |t| ==> q[b][0] != INVALID_FLAG
  {
    forall b | 0 <= b < |t|
      ensures SourceColumn(q[b], avail) && q[b][0] != INVALID_FLAG
      ensures DeadColumn(q[b], avail) <==> DeadColumn(t[b], avail)
    {
      QuickDistinct(t[b], avail, q[b]);
      if DeadColumn(t[b], avail) { QuickDead(t[b], avail, q[b]); } else { QuickMaster(t[b], avail, q[b]); }
    }
  }

  lemma StaysLost(col: Column, avail: set<Server>, q: Column)
    requires QuickColumn(col, avail, q) && INVALID_FLAG !in avail
    ensures col != [] && q != [] && (DeadColumn(col, avail) ==> q[0] !in avail)
  {
    if DeadColumn(col, avail) { QuickDead(col, avail, q); }
  }

  /**
   When the buckets that have lost their masters all have the same slaves left, the repair shares
   them out among these, to within one.
   */
  lemma RepairShares(t: Table, q: Table, avail: set<Server>, heirs: set<Server>, x: Server, y: Server)
    requires INVALID_FLAG !in avail && heirs <= avail && x in heirs && y in heirs && Fair(t, q, avail) && |q| == |t|
    requires forall b :: 0 <= b < |t| ==> QuickColumn(t[b], avail, q[b])
    requires forall b :: 0 <= b < |t| && Orphan(t, avail, b) ==> Heirs(t, avail, b) == heirs
    ensures Inherited(t, q, avail, x, |t|) <= Inherited(t, q, avail, y, |t|) + 1
  {
    forall b | 0 <= b < |t| ensures t[b] != [] && q[b] != [] && (DeadColumn(t[b], avail) ==> q[b][0] !in avail) {
      StaysLost(t[b], avail, q[b]);
    }
    SharedOut(t, q, avail, heirs, |t|, x, y);
  }

  /**
   The repair and rebuild of a table with its masters set: when it reports success, every bucket
   that had an available copy has all its copies on distinct available servers, and a bucket
   without one is left as the quick repair left it.
   */
  method RepairAndRebuild(t: Table, copies: nat, avail: set<Server>)
    returns (quick: Table, dest: Table, r: BuildResult)
    requires 0 < copies && INVALID_FLAG !in avail && t != [] && Tidy(t, copies)
    ensures |quick| == |t| && forall b :: 0 <= b < |t| ==> QuickColumn(t[b], avail, quick[b])
    ensures Fair(t, quick, avail)
    ensures r == BUILD_OK ==> |dest| == |t|
    ensures r == BUILD_OK ==> forall b :: 0 <= b < |t| ==>
              if exists p :: 0 <= p < |t[b]| && t[b][p] in avail then |dest[b]| == copies && FullColumn(dest[b], avail)
              else dest[b] == quick[b]
    ensures r == BUILD_NO_CHANGE ==> dest == quick && Settled(quick, avail)
  {
    var builder := new TableBuilder(copies, avail);
    quick := builder.BuildQuickTable(t);
    RepairedSource(t, quick, avail, copies);
    r := builder.RebuildTableNew(quick);
    dest := builder.st.t;
    if r == BUILD_OK {
      assert !EmptyColumn(quick[0]);
      SplitBuckets(t, quick, dest, copies, avail);
    }
  }

  lemma SplitBuckets(t: Table, quick: Table, dest: Table, copies: nat, avail: set<Server>)
    requires |quick| == |t| && Rebuilt(quick, avail, dest, |quick|) && Shaped(dest, copies)
    requires forall b :: 0 <= b < |t| ==> (DeadColumn(quick[b], avail) <==> DeadColumn(t[b], avail))
    ensures forall b :: 0 <= b < |t| ==>
              if exists p :: 0 <= p < |t[b]| && t[b][p] in avail then |dest[b]| == copies && FullColumn(dest[b], avail)
              else dest[b] == quick[b]
  {
    forall b | 0 <= b < |t|
      ensures if exists p :: 0 <= p < |t[b]| && t[b][p] in avail then |dest[b]| == copies && FullColumn(dest[b], avail)
              else dest[b] == quick[b]
    {
      if exists p :: 0 <= p < |t[b]| && t[b][p] in avail {
        assert !DeadColumn(t[b], avail);
      } else {
        assert DeadColumn(t[b], avail);
      }
    }
  }

  /**
   The first table: every bucket full on distinct servers, every server masters its share of the
   buckets rounded down or up, and every slave sits on a server that had the fewest copies when it
   was placed, whatever the random choices.
   */
  method FirstTable(buckets: nat, copies: nat, avail: set<Server>) returns (dest: Table, r: BuildResult)
    requires 0 < buckets && 0 < copies && avail != {} && INVALID_FLAG !in avail
    ensures r == BUILD_OK <==> copies <= |avail|
    ensures r == BUILD_OK ==> |dest| == buckets && forall b :: 0 <= b < buckets ==> FullColumn(dest[b], avail)
    ensures r == BUILD_OK ==> Greedy(dest, avail, buckets)
    ensures r == BUILD_OK ==> forall s :: s in avail ==>
              || Masters(dest, s) == buckets / |avail|
              || (Masters(dest, s) == buckets / |avail| + 1 && buckets % |avail| != 0)
  {
    var builder := new TableBuilder(copies, avail);
    var empty := seq(buckets, _ => Zeros(copies));
    FreshSource(empty, avail, copies);
    r := builder.RebuildTableNew(empty);
    dest := builder.st.t;
    if r == BUILD_OK {
      forall s | s in avail
        ensures || Masters(dest, s) == buckets / |avail|
                || (Masters(dest, s) == buckets / |avail| + 1 && buckets % |avail| != 0)
      {
        LevelShare(dest, avail, s);
      }
    }
  }

  lemma FreshSource(t: Table, avail: set<Server>, copies: nat)
    requires Shaped(t, copies) && 0 < copies && EmptyTable(t) && INVALID_FLAG !in avail && avail != {}
    ensures SourceOk(t, avail, copies) && !Settled(t, avail)
  {
    forall b | 0 <= b < |t| ensures SourceColumn(t[b], avail) && t[b][0] !in avail { assert EmptyColumn(t[b]); }
    var s := Member(avail);
    assert !Uses(t, avail, s);
  }
}
