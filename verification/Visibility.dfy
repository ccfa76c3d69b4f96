/**
 A rebuild that changes the table changes it visibly: some bucket gets another master or a slave
 that it did not have.  A rebuild never merely exchanges the slaves of buckets.
 */
module Visibility {
  import opened Placement
  import opened PlacementMoves
  import opened PlacementSearch
  import opened PlacementRebuild
  import opened Rebalance

  ghost predicate VisibleAt(source: Table, t: Table, b: nat) {
    && b < |source| && b < |t| && source[b] != [] && t[b] != []
    && (t[b][0] != source[b][0] || exists p :: 1 <= p < |t[b]| && t[b][p] !in source[b])
  }

  /** The table is the source, or differs from it where a migration plan looks. */
  ghost predicate Shows(source: Table, t: Table) {
    t == source || exists b :: VisibleAt(source, t, b)
  }

  // ---------------------------------------------------------------- a bucket that was not full

  /** Some live bucket of the source has an empty slot. */
  ghost predicate LackingAt(source: Table, avail: set<Server>, b: nat) {
    b < |source| && !DeadColumn(source[b], avail) && INVALID_FLAG in source[b]
  }

  ghost predicate Lacking(source: Table, avail: set<Server>) {
    exists b :: LackingAt(source, avail, b)
  }

  lemma {:induction false} ManyElements(col: Column)
    requires Distinct(col) && INVALID_FLAG !in col
    ensures |Elements(col)| == |col|
  {
    if col == [] {
      assert Elements(col) == {};
    } else {
      var rest := col[..|col| - 1];
      ManyElements(rest);
      assert Elements(col) == Elements(rest) + {col[|col| - 1]};
    }
  }

  /** A bucket that was not full and is full now has a server that it did not have. */
  lemma Newcomer(was: Column, now: Column, avail: set<Server>) returns (p: nat)
    requires |now| == |was| && FullColumn(now, avail) && INVALID_FLAG !in avail && INVALID_FLAG in was
    ensures p < |now| && now[p] !in was
  {
    var q :| 0 <= q < |was| && was[q] == INVALID_FLAG;
    ManyElements(now);
    SomeNodeOk(Elements(now), was, q);
    var s :| s in Elements(now) && CheckNodeOk(s, was, q);
    p :| 0 <= p < |now| && now[p] == s;
  }

  lemma FilledShows(source: Table, t: Table, avail: set<Server>, copies: nat)
    requires Shaped(source, copies) && Shaped(t, copies) && |t| == |source| && 0 < copies && INVALID_FLAG !in avail
    requires forall b :: 0 <= b < |t| && !DeadColumn(source[b], avail) ==> FullColumn(t[b], avail)
    requires Lacking(source, avail)
    ensures Shows(source, t)
  {
    var b: nat :| LackingAt(source, avail, b);
    var p := Newcomer(source[b], t[b], avail);
    assert p == 0 ==> t[b][0] != source[b][0];
    assert VisibleAt(source, t, b);
  }

  // ---------------------------------------------------------------- an unused server

  /** The table is still the source, and the server `spare` has no copy of anything. */
  ghost predicate Untouched(l: Ledger, source: Table, spare: Server) {
    && l.t == source && spare in l.avail && 0 <= l.mShare && 0 <= l.sShare
    && Masters(source, spare) == 0 && Copies(source, spare) == 0
    && (forall b :: 0 <= b < |source| ==> spare !in source[b])
    && (forall x :: x in l.avail ==> x in l.mFlag && x in l.sFlag && 0 <= l.mFlag[x] && 0 <= l.sFlag[x])
  }

  /** A slot that the rebuild has handed to a server which will not hand it on. */
  ghost predicate MarkedAt(l: Ledger, master: bool, source: Table, b: nat, p: nat) {
    && b < |l.t| && b < |source| && p < |l.t[b]| && source[b] != []
    && (if master then p == 0 && l.t[b][0] != source[b][0] else 1 <= p && l.t[b][p] !in source[b])
    && l.t[b][p] in l.mMig && l.t[b][p] in l.sMig && Load(l, master, l.t[b][p]) <= 0
  }

  ghost predicate Marked(l: Ledger, master: bool, source: Table) {
    exists b, p :: MarkedAt(l, master, source, b, p)
  }

  ghost predicate Releads(source: Table, t: Table) {
    |t| == |source| && exists b :: 0 <= b < |t| && source[b] != [] && t[b] != [] && t[b][0] != source[b][0]
  }

  /** So far the rebuild has changed nothing, or has changed something for good. */
  ghost predicate Tells(l: Ledger, master: bool, source: Table) {
    || (exists spare :: Untouched(l, source, spare))
    || Marked(l, master, source)
    || (!master && Releads(source, l.t))
  }

  lemma {:induction false} NoCopies(t: Table, s: Server)
    requires forall b :: 0 <= b < |t| ==> s !in t[b]
    ensures Masters(t, s) == 0 && Copies(t, s) == 0
  {
    if t != [] {
      NoCopies(t[..|t| - 1], s);
      assert s !in t[|t| - 1];
    }
  }

  /** An unused server can take any slot, so a slot handed over goes to a server that keeps it. */
  lemma FirstHand(l: Ledger, master: bool, source: Table, spare: Server, node: Server, extras: int, move: Move)
    requires l.Valid() && Untouched(l, source, spare) && Chosen(l, master, node, extras, move)
    requires (move.ShiftTo? || move.OverloadTo?) && move.to != node
    ensures Marked(Relieve(l, master, node, move), master, source)
  {
    var r := Relieve(l, master, node, move);
    var held := Held(l, master, node);
    var b, p := move.b, held[move.b];
    assert l.EvenAt(spare) && PlacedColumn(l.t[b], l.avail);
    assert if master then l.MasterEntry(node, b) else l.SlaveEntry(node, b);
    assert Fits(spare, l.t, held, b);
    assert Load(r, master, move.to) <= 0;
    assert move.to !in source[b];
    assert r.t[b][p] == move.to;
    assert MarkedAt(r, master, source, b, p);
  }

  lemma StillUntouched(l: Ledger, master: bool, source: Table, spare: Server, node: Server, extras: int, move: Move)
    requires l.Valid() && Untouched(l, source, spare) && Chosen(l, master, node, extras, move)
    requires move.KeepIt? || move.Stuck? || move.to == node
    ensures Untouched(Relieve(l, master, node, move), source, spare)
  {
    var r := Relieve(l, master, node, move);
    if move.ShiftTo? || move.OverloadTo? {
      var b, p := move.b, Held(l, master, node)[move.b];
      assert if master then l.MasterEntry(node, b) else l.SlaveEntry(node, b);
      assert l.t[b][p := node] == l.t[b];
      assert r.t == l.t;
    }
  }

  lemma MarkStays(l: Ledger, master: bool, source: Table, node: Server, move: Move, b: nat, p: nat)
    requires l.Valid() && MarkedAt(l, master, source, b, p) && Allowed(l, master, node, move) && Load(l, master, node) > 0
    ensures MarkedAt(Relieve(l, master, node, move), master, source, b, p)
  {
    var r := Relieve(l, master, node, move);
    if move.ShiftTo? || move.OverloadTo? {
      var c := move.b;
      assert if master then l.MasterEntry(node, c) else l.SlaveEntry(node, c);
      assert c == b ==> Held(l, master, node)[c] != p;
      assert r.t[b][p] == l.t[b][p];
    }
  }

  /** Relieving a server of a copy leaves all masters in place. */
  lemma SameLeads(l: Ledger, node: Server, move: Move)
    requires l.Valid() && Allowed(l, false, node, move)
    ensures var r := Relieve(l, false, node, move);
            |r.t| == |l.t| && forall b :: 0 <= b < |l.t| ==> |r.t[b]| == |l.t[b]| && (l.t[b] != [] ==> r.t[b][0] == l.t[b][0])
  {
    if move.ShiftTo? || move.OverloadTo? { assert l.SlaveEntry(node, move.b); }
  }

  lemma ReleadsStays(l: Ledger, source: Table, node: Server, move: Move)
    requires l.Valid() && Releads(source, l.t) && Allowed(l, false, node, move)
    ensures Releads(source, Relieve(l, false, node, move).t)
  {
    SameLeads(l, node, move);
    var b :| 0 <= b < |l.t| && source[b] != [] && l.t[b] != [] && l.t[b][0] != source[b][0];
    var u := Relieve(l, false, node, move).t;
    assert u[b] != [] && u[b][0] != source[b][0];
  }

  /** What the rebuild tells survives every round of both phases. */
  lemma TellsStep(l: Ledger, master: bool, source: Table, node: Server, extras: int, move: Move)
    requires l.Valid() && Tells(l, master, source) && Chosen(l, master, node, extras, move) && Load(l, master, node) > 0
    ensures Tells(Relieve(l, master, node, move), master, source)
  {
    if Marked(l, master, source) {
      var b: nat, p: nat :| MarkedAt(l, master, source, b, p);
      MarkStays(l, master, source, node, move, b, p);
    } else if !master && Releads(source, l.t) {
      ReleadsStays(l, source, node, move);
    } else {
      var spare :| Untouched(l, source, spare);
      if (move.ShiftTo? || move.OverloadTo?) && move.to != node {
        FirstHand(l, master, source, spare, node, extras, move);
      } else {
        StillUntouched(l, master, source, spare, node, extras, move);
      }
    }
  }

  lemma TellsOn(l: Ledger, source: Table)
    requires Tells(l, true, source) && |l.t| == |source|
    ensures Tells(l, false, source)
  {
    if Marked(l, true, source) {
      var b: nat, p: nat :| MarkedAt(l, true, source, b, p);
      assert l.t[b][0] != source[b][0];
    }
  }

  lemma TellsShows(l: Ledger, source: Table)
    requires Tells(l, false, source)
    ensures Shows(source, l.t)
  {
    if Marked(l, false, source) {
      var b: nat, p: nat :| MarkedAt(l, false, source, b, p);
      assert VisibleAt(source, l.t, b);
    } else if Releads(source, l.t) {
      var b :| 0 <= b < |l.t| && source[b] != [] && l.t[b] != [] && l.t[b][0] != source[b][0];
      assert VisibleAt(source, l.t, b);
    }
  }
}
