/**
 Relieving servers above their share, one slot at a time: the choice of the move and what every
 move keeps.
 */
module Rebalance {
  import opened Placement
  import opened PlacementMoves
  import opened PlacementSearch
  import opened PlacementCredit

  function Load(l: Ledger, master: bool, s: Server): (n: int)
    requires s in l.mMig && s in l.sMig
  {
    if master then l.mMig[s] else l.sMig[s]
  }

  function Total(l: Ledger, master: bool, s: Server): (n: int)
    requires s in l.mMig && s in l.sMig && s in l.mFlag && s in l.sFlag
  {
    if master then l.mFlag[s] + l.mMig[s] else l.sFlag[s] + l.sMig[s]
  }

  /** Full columns stay full and dead columns stay untouched. */
  ghost predicate Keeps(avail: set<Server>, was: Table, now: Table) {
    && |now| == |was|
    && forall b :: 0 <= b < |was| ==>
         && (FullColumn(was[b], avail) ==> FullColumn(now[b], avail))
         && (DeadColumn(was[b], avail) ==> now[b] == was[b])
  }

  lemma KeepsHand(l: Ledger, master: bool, from: Server, to: Server, b: nat)
    requires l.Valid() && CanHand(l, master, from, to, b)
    ensures Keeps(l.avail, l.t, Hand(l, master, from, to, b).t)
  {
    var p := Held(l, master, from)[b];
    assert l.t[b][p] in l.avail;
    ColumnPlacedFull(l.t[b], p, to, l.avail);
  }

  lemma ColumnPlacedFull(col: Column, p: nat, s: Server, avail: set<Server>)
    requires p < |col| && s in avail && CheckNodeOk(s, col, p)
    ensures FullColumn(col, avail) ==> FullColumn(col[p := s], avail)
  {
  }

  lemma HeldInTable(l: Ledger, master: bool, s: Server)
    requires l.Valid() && s in l.avail
    ensures forall b :: b in Held(l, master, s) ==> b < |l.t|
  {
    forall b | b in Held(l, master, s) ensures b < |l.t| {
      assert if master then l.MasterEntry(s, b) else l.SlaveEntry(s, b);
    }
  }

  /** A server above its master share always has a registered master, and can always keep it. */
  lemma SelfFits(l: Ledger, s: Server)
    requires l.Valid() && s in l.avail && l.mMig[s] > 0 && 0 <= l.mShare
    ensures exists b :: Fits(s, l.t, l.mBuckets[s], b)
  {
    assert l.EvenAt(s) && l.CoveredAt(s);
    assert |l.mBuckets[s].Keys| > 0;
    var b := Member(l.mBuckets[s].Keys);
    assert l.MasterEntry(s, b);
    assert PlacedColumn(l.t[b], l.avail);
    assert Fits(s, l.t, l.mBuckets[s], b);
  }

  lemma HandEntry(l: Ledger, master: bool, from: Server, to: Server, b: nat)
    requires l.Valid() && from in l.avail && to in l.avail && Fits(to, l.t, Held(l, master, from), b)
    ensures CanHand(l, master, from, to, b)
  {
    assert if master then l.MasterEntry(from, b) else l.SlaveEntry(from, b);
  }

  /** The servers and the shares do not change during a rebuild. */
  ghost predicate Sames(was: Ledger, now: Ledger) {
    now.avail == was.avail && now.copies == was.copies && now.mShare == was.mShare && now.sShare == was.sShare
  }

  method Heaviest(m: Counts) returns (s: Server)
    requires m.Keys != {}
    ensures s in m && forall x :: x in m ==> m[x] <= m[s]
  {
    ghost var neg := map x | x in m :: -m[x];
    ghost var w := LeastExists(neg, m.Keys);
    assert forall x :: x in m ==> m[x] <= m[w];
    s :| s in m && forall x :: x in m ==> m[x] <= m[s];
  }

  // ---------------------------------------------------------------- relieving a server

  datatype Move = ShiftTo(to: Server, b: nat) | KeepIt | OverloadTo(to: Server, b: nat) | Stuck

  function Relieve(l: Ledger, master: bool, node: Server, move: Move): (r: Ledger)
    requires l.Keyed() && Allowed(l, master, node, move)
  {
    match move
    case ShiftTo(to, b) => Shift(l, master, node, to, b)
    case KeepIt => Keep(l, master, node)
    case OverloadTo(to, b) => Overload(l, master, node, to, b)
    case Stuck => l
  }

  ghost predicate Allowed(l: Ledger, master: bool, node: Server, move: Move) {
    && l.Keyed() && node in l.avail
    && (move.ShiftTo? ==> CanHand(l, master, node, move.to, move.b) && Load(l, master, move.to) < 0)
    && (move.OverloadTo? ==> CanHand(l, master, node, move.to, move.b))
    && (move.Stuck? ==> !master)
  }

  function Flag(l: Ledger, master: bool, s: Server): (n: int)
    requires s in l.mFlag && s in l.sFlag
  {
    if master then l.mFlag[s] else l.sFlag[s]
  }

  /**
   The move chosen to relieve a server of one slot: hand the slot to a server furthest below its
   share, else let the server keep it as one of the allowed extras, else hand it to the least
   loaded server that can take it, possibly the server itself.  Only if nobody can take any slot
   is there no move.
   */
  ghost predicate Chosen(l: Ledger, master: bool, node: Server, extras: int, move: Move) {
    && Allowed(l, master, node, move)
    && (move.ShiftTo? ==> forall x, c {:trigger Fits(x, l.t, Held(l, master, node), c)} ::
          x in l.avail && Fits(x, l.t, Held(l, master, node), c) && Load(l, master, x) < 0 ==>
            Load(l, master, move.to) <= Load(l, master, x))
    && (!move.ShiftTo? ==> forall x, c {:trigger Fits(x, l.t, Held(l, master, node), c)} ::
          x in l.avail && Load(l, master, x) < 0 ==> !Fits(x, l.t, Held(l, master, node), c))
    && (move.KeepIt? ==> Flag(l, master, node) == 0 && extras > 0)
    && (move.OverloadTo? || move.Stuck? ==> Flag(l, master, node) != 0 || extras <= 0)
    && (move.OverloadTo? ==> forall x, c {:trigger Fits(x, l.t, Held(l, master, node), c)} ::
          x in l.avail && Fits(x, l.t, Held(l, master, node), c) ==> Total(l, master, move.to) <= Total(l, master, x))
    && (move.Stuck? ==> forall x, c {:trigger Fits(x, l.t, Held(l, master, node), c)} ::
          x in l.avail ==> !Fits(x, l.t, Held(l, master, node), c))
  }

  /** Choose how to relieve a server.  A server above its master share is never stuck. */
  method Relief(l: Ledger, master: bool, node: Server, extras: int) returns (move: Move)
    requires l.Valid() && 0 <= l.mShare && node in l.avail && Load(l, master, node) > 0
    ensures Chosen(l, master, node, extras, move)
  {
    var held := Held(l, master, node);
    HeldInTable(l, master, node);
    var mig := if master then l.mMig else l.sMig;
    var below := set x | x in mig && mig[x] < 0;
    var found, to, b := PickMove(mig, below, l.t, held);
    if found {
      HandEntry(l, master, node, to, b);
      return ShiftTo(to, b);
    }
    var flag := if master then l.mFlag else l.sFlag;
    if flag[node] == 0 && extras > 0 {
      return KeepIt;
    }
    var total := map x | x in flag :: flag[x] + mig[x];
    found, to, b := PickMove(total, flag.Keys, l.t, held);
    if found {
      HandEntry(l, master, node, to, b);
      return OverloadTo(to, b);
    }
    if master { SelfFits(l, node); }
    return Stuck;
  }

  /** Relieving a server keeps every invariant, every full bucket full and every dead bucket as it was. */
  lemma RelieveValid(l: Ledger, master: bool, node: Server, move: Move)
    requires l.Valid() && Allowed(l, master, node, move) && Load(l, master, node) > 0
    ensures Relieve(l, master, node, move).Valid()
    ensures Sames(l, Relieve(l, master, node, move)) && Keeps(l.avail, l.t, Relieve(l, master, node, move).t)
    ensures !master ==> var r := Relieve(l, master, node, move); r.mMig == l.mMig && r.mFlag == l.mFlag
  {
    match move
    case ShiftTo(to, b) =>
      ShiftValid(l, master, node, to, b);
      KeepsHand(l, master, node, to, b);
    case KeepIt =>
      KeepValid(l, master, node);
    case OverloadTo(to, b) =>
      OverloadValid(l, master, node, to, b);
      KeepsHand(l, master, node, to, b);
    case Stuck =>
  }

  /** Each round of the master phase lowers the masters above the shares by exactly one. */
  lemma RelieveCredit(l: Ledger, node: Server, move: Move)
    requires l.Keyed() && Allowed(l, true, node, move) && l.mMig[node] > 0
    ensures Credit(Relieve(l, true, node, move).mMig, l.avail) == Credit(l.mMig, l.avail) - 1
  {
    CreditStep(l.mMig, Relieve(l, true, node, move).mMig, l.avail, node);
  }
}
