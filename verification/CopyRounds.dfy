/**
 Balancing the copies always comes to an end: whenever a server is above its share of copies,
 some slot of it can be handed over, or it may keep one copy more.
 */
module CopyRounds {
  import opened Placement
  import opened PlacementMoves
  import opened PlacementSearch
  import opened PlacementCredit
  import opened PlacementSum
  import opened Rebalance
  import opened MasterBound

  /** No server has more masters than its share of copies. */
  ghost predicate Modest(l: Ledger) {
    forall x {:trigger Masters(l.t, x)} :: x in l.avail ==> Masters(l.t, x) <= l.sShare
  }

  /** At most one master more, and then the index of a flagged server misses fewer slaves than it has flags. */
  ghost predicate NearAt(l: Ledger, x: Server) {
    && x in l.sFlag && x in l.sBuckets && Masters(l.t, x) <= l.sShare + 1
    && (Masters(l.t, x) > l.sShare && l.sFlag[x] > 0 ==>
          Copies(l.t, x) - Masters(l.t, x) + 1 <= |l.sBuckets[x]| + l.sFlag[x])
  }

  ghost predicate Near(l: Ledger) {
    forall x {:trigger NearAt(l, x)} :: x in l.avail ==> NearAt(l, x)
  }

  /** Nobody is below the share of copies. */
  ghost predicate Calm(l: Ledger) {
    forall x {:trigger l.sMig[x]} :: x in l.avail ==> x in l.sMig && 0 <= l.sMig[x]
  }

  /** With a server `y` below the share, flags go to `s`, which has many masters, before they go to others. */
  ghost predicate SpareAt(l: Ledger, s: Server, x: Server, y: Server) {
    && s in l.sMig && y in l.sMig && x in l.sFlag && y in l.sFlag
    && (Masters(l.t, s) > l.sShare && l.sMig[y] < 0 ==> l.sFlag[y] == 0 && (l.sFlag[x] == 0 || l.sMig[s] <= 0))
  }

  ghost predicate Three(s: Server, x: Server, y: Server, avail: set<Server>) {
    s != x && s != y && x != y && s in avail && x in avail && y in avail
  }

  ghost predicate Spare(l: Ledger) {
    && Sporadic(l.copies, |l.avail|, |l.t|)
    && forall s, x, y {:trigger SpareAt(l, s, x, y)} :: Three(s, x, y, l.avail) ==> SpareAt(l, s, x, y)
  }

  ghost predicate Flagged(l: Ledger) {
    forall x {:trigger l.sFlag[x]} :: x in l.avail ==> x in l.sFlag && 0 <= l.sFlag[x]
  }

  /** What balancing the copies keeps. */
  ghost predicate CopyBudget(l: Ledger, extras: int) {
    && l.Keyed() && Shares(l) && Flagged(l)
    && extras == |l.t| * l.copies % |l.avail| - Sum(l.sFlag, l.avail)
    && (Modest(l) || (Near(l) && (Calm(l) || Spare(l))))
  }

  // ---------------------------------------------------------------- never stuck

  /** A server could always hand a registered slave slot to itself. */
  lemma SelfTakes(l: Ledger, node: Server, b: nat)
    requires l.Valid() && node in l.avail
    ensures b in l.sBuckets[node] ==> Fits(node, l.t, Held(l, false, node), b)
  {
    if b in l.sBuckets[node] { assert l.SlaveEntry(node, b) && PlacedColumn(l.t[b], l.avail); }
  }

  /** A server that can hand over nothing has no registered slave left. */
  lemma StuckIndex(l: Ledger, node: Server, extras: int, move: Move)
    requires l.Valid() && Chosen(l, false, node, extras, move) && move.Stuck?
    ensures |l.sBuckets[node]| == 0 && Masters(l.t, node) >= l.sShare + l.sMig[node]
  {
    forall b ensures b !in l.sBuckets[node] { SelfTakes(l, node, b); }
    assert l.sBuckets[node].Keys == {};
    assert l.EvenAt(node) && l.CoveredAt(node);
  }

  /** While nobody is low the extras last for all that is left to relieve. */
  lemma CalmExtras(l: Ledger, extras: int, node: Server)
    requires l.Valid() && CopyBudget(l, extras) && Calm(l) && node in l.avail
    ensures l.sMig[node] <= extras
  {
    forall x | x in l.avail ensures Copies(l.t, x) == l.sShare + l.sMig[x] + l.sFlag[x] { assert l.EvenAt(x); }
    CopySum(l.t, l.sShare, l.sMig, l.sFlag, l.avail);
    CopiesInAll(l.t, l.avail, l.copies);
    SumAtLeast(l.sMig, l.avail, node);
    Divided(|l.t| * l.copies, |l.avail|);
  }

  lemma Divided(n: nat, s: nat)
    requires 0 < s
    ensures n == s * (n / s) + n % s
  {
  }

  lemma Third(avail: set<Server>, s: Server, y: Server) returns (x: Server)
    requires |avail| == 3 && s in avail && y in avail && s != y
    ensures Three(s, x, y, avail) && avail == {s, x, y}
  {
    x := Outsider(avail, {s, y});
    assert |avail - {s, x, y}| == |avail| - |{s, x, y}| == 0;
  }

  lemma SumOfThree(m: Counts, s: Server, x: Server, y: Server)
    requires s != x && s != y && x != y && {s, x, y} <= m.Keys
    ensures Sum(m, {s, x, y}) == m[s] + m[x] + m[y]
  {
    SumTake(m, {s, x, y}, s);
    assert {s, x, y} - {s} == {x, y};
    SumTake(m, {x, y}, x);
    assert {x, y} - {x} == {y};
    SumTake(m, {y}, y);
    assert {y} - {y} == {};
  }

  /** A server with many masters that has no flag finds an extra left. */
  lemma ExtraLeft(l: Ledger, extras: int, node: Server)
    requires l.Valid() && CopyBudget(l, extras) && node in l.avail
    requires Masters(l.t, node) > l.sShare && l.sMig[node] > 0 && l.sFlag[node] == 0
    ensures extras > 0
  {
    if Calm(l) {
      CalmExtras(l, extras, node);
    } else {
      assert Spare(l);
      var y :| y in l.avail && l.sMig[y] < 0;
      SpareExtra(l, extras, node, y);
    }
  }

  lemma SpareExtra(l: Ledger, extras: int, s: Server, y: Server)
    requires l.Keyed() && Spare(l) && s in l.avail && y in l.avail
    requires extras == |l.t| * l.copies % |l.avail| - Sum(l.sFlag, l.avail)
    requires Masters(l.t, s) > l.sShare && l.sMig[s] > 0 && l.sMig[y] < 0
    ensures extras == 2 - l.sFlag[s]
  {
    var x := Third(l.avail, s, y);
    assert SpareAt(l, s, x, y);
    SumOfThree(l.sFlag, s, x, y);
  }

  /** As long as a server is above its share of copies there is something to be done about it. */
  lemma NeverStuck(l: Ledger, node: Server, extras: int, move: Move)
    requires l.Valid() && CopyBudget(l, extras) && Chosen(l, false, node, extras, move) && l.sMig[node] > 0
    ensures !move.Stuck?
  {
    if move.Stuck? {
      StuckIndex(l, node, extras, move);
      assert Masters(l.t, node) > l.sShare;
      assert NearAt(l, node) && l.EvenAt(node);
      if l.sFlag[node] == 0 { ExtraLeft(l, extras, node); }
    }
  }

  // ---------------------------------------------------------------- what a round keeps

  predicate Hands(move: Move) {
    move.ShiftTo? || move.OverloadTo?
  }

  function One(c: bool): (n: nat) {
    if c then 1 else 0
  }

  /** What a round does to the table and to the index of slaves. */
  lemma CopyTable(l: Ledger, node: Server, move: Move, r: Ledger, x: Server)
    requires l.Valid() && Allowed(l, false, node, move) && r == Relieve(l, false, node, move) && x in l.avail
    ensures |r.t| == |l.t| && Masters(r.t, x) == Masters(l.t, x)
    ensures Copies(r.t, x) == Copies(l.t, x) + One(Hands(move) && x == move.to) - One(Hands(move) && x == node)
    ensures x in r.sBuckets && |r.sBuckets[x]|
         == |l.sBuckets[x]| + One(Hands(move) && x == move.to && x != node) - One(Hands(move) && x == node)
  {
    if Hands(move) {
      HandCounts(l, false, node, move.to, move.b, x);
      HandCovered(l, false, node, move.to, move.b, x);
    }
  }

  /** What it does to the credit and the flags. */
  lemma CopyLedger(l: Ledger, node: Server, move: Move, r: Ledger, x: Server)
    requires l.Valid() && Allowed(l, false, node, move) && r == Relieve(l, false, node, move) && x in l.avail
    requires l.sMig[node] > 0 && !move.Stuck?
    ensures x in r.sMig && r.sMig[x] == l.sMig[x] - One(x == node) + One(move.ShiftTo? && x == move.to)
    ensures x in r.sFlag && r.sFlag[x]
         == l.sFlag[x] + One(move.KeepIt? && x == node) + One(move.OverloadTo? && x == move.to)
  {
  }

  lemma NearStep(l: Ledger, node: Server, extras: int, move: Move, r: Ledger, x: Server)
    requires l.Valid() && Chosen(l, false, node, extras, move) && r == Relieve(l, false, node, move) && x in l.avail
    requires l.sMig[node] > 0 && !move.Stuck? && NearAt(l, x) && 0 <= l.sFlag[x]
    requires l.sFlag[node] == 0 && Masters(l.t, node) > l.sShare ==> extras > 0
    ensures NearAt(r, x)
  {
    CopyTable(l, node, move, r, x);
    CopyLedger(l, node, move, r, x);
    assert l.CoveredAt(x) && r.sShare == l.sShare;
  }

  lemma ModestStep(l: Ledger, node: Server, move: Move, r: Ledger)
    requires l.Valid() && Allowed(l, false, node, move) && r == Relieve(l, false, node, move) && Modest(l) && Sames(l, r)
    ensures Modest(r)
  {
    forall x | x in l.avail ensures Masters(r.t, x) <= r.sShare { CopyTable(l, node, move, r, x); }
  }

  lemma CalmStep(l: Ledger, node: Server, move: Move, r: Ledger)
    requires l.Valid() && Allowed(l, false, node, move) && r == Relieve(l, false, node, move) && Calm(l) && Sames(l, r)
    requires l.sMig[node] > 0 && !move.Stuck?
    ensures Calm(r)
  {
    forall x | x in l.avail ensures x in r.sMig && 0 <= r.sMig[x] { CopyLedger(l, node, move, r, x); }
  }

  // ---------------------------------------------------------------- the small table

  lemma {:induction false} TwoBuckets(t: Table, y: Server, b: nat, c: nat)
    requires b < c < |t| && t[b] != [] && t[c] != [] && t[b][0] == y && t[c][0] == y
    ensures Masters(t, y) >= 2
  {
    if c < |t| - 1 { TwoBuckets(t[..|t| - 1], y, b, c); } else { OneBucket(t[..|t| - 1], y, b); }
  }

  lemma {:induction false} OneBucket(t: Table, y: Server, b: nat)
    requires b < |t| && t[b] != [] && t[b][0] == y
    ensures Masters(t, y) >= 1
  {
    if b < |t| - 1 { OneBucket(t[..|t| - 1], y, b); }
  }

  lemma MastersOfThree(t: Table, s: Server, x: Server, y: Server)
    requires s != x && s != y && x != y
    ensures Masters(t, s) + Masters(t, x) + Masters(t, y) <= |t|
  {
    var dom := {s, x, y};
    MastersInAll(t, dom);
    MasterTotalTake(t, dom, s);
    assert dom - {s} == {x, y};
    MasterTotalTake(t, {x, y}, x);
    assert {x, y} - {x} == {y};
    MasterTotalTake(t, {y}, y);
    assert {y} - {y} == {};
  }

  lemma TwoMembers<T>(a: set<T>) returns (p: T, q: T)
    requires |a| >= 2
    ensures p in a && q in a && p != q
  {
    p := Member(a);
    assert |a - {p}| == |a| - 1;
    q := Member(a - {p});
  }

  /** A registered slave of a two-copy bucket goes to anyone but the master. */
  lemma LowFits(l: Ledger, x: Server, y: Server, b: nat)
    requires l.Valid() && l.copies == 2 && x in l.avail && b in l.sBuckets[x] && b < |l.t|
    requires l.t[b][0] != y
    ensures Fits(y, l.t, Held(l, false, x), b)
  {
    assert l.SlaveEntry(x, b);
  }

  /** An unflagged server above its share has a slave slot for any server below its share. */
  lemma UnflaggedShifts(l: Ledger, s: Server, x: Server, y: Server) returns (b: nat)
    requires l.Valid() && Sporadic(l.copies, |l.avail|, |l.t|) && Shares(l) && Three(s, x, y, l.avail)
    requires Masters(l.t, s) > l.sShare && l.sMig[x] > 0 && l.sFlag[x] == 0
    ensures Fits(y, l.t, Held(l, false, x), b)
  {
    assert l.EvenAt(x) && l.CoveredAt(x);
    MastersOfThree(l.t, s, x, y);
    var held := l.sBuckets[x];
    assert |held.Keys| >= 2;
    var p, q := TwoMembers(held.Keys);
    assert l.SlaveEntry(x, p) && l.SlaveEntry(x, q);
    if l.t[p][0] == y && l.t[q][0] == y {
      if p < q { TwoBuckets(l.t, y, p, q); } else { TwoBuckets(l.t, y, q, p); }
    }
    b := if l.t[p][0] != y then p else q;
    assert l.t[b][0] != y;
    LowFits(l, x, y, b);
  }

  lemma {:induction false} AtMostOneEach(t: Table, s: Server)
    requires s != INVALID_FLAG && forall b :: 0 <= b < |t| ==> Distinct(t[b])
    ensures Copies(t, s) <= |t|
  {
    if t != [] {
      AtMostOneEach(t[..|t| - 1], s);
      OnceAtMost(t[|t| - 1], s);
    }
  }

  lemma {:induction false} OnceAtMost(col: Column, s: Server)
    requires Distinct(col) && s != INVALID_FLAG
    ensures multiset(col)[s] <= 1
  {
    if col != [] {
      var u, z := col[..|col| - 1], col[|col| - 1];
      assert col == u + [z];
      OnceAtMost(u, s);
      if z == s { assert s !in u; }
    }
  }

  /** In the small table a flagged server with three masters is at most one copy above its share. */
  lemma AlmostDone(l: Ledger, s: Server)
    requires l.Valid() && Sporadic(l.copies, |l.avail|, |l.t|) && Shares(l) && s in l.avail && l.sFlag[s] > 0
    ensures l.sMig[s] <= 1
  {
    forall b | 0 <= b < |l.t| ensures Distinct(l.t[b]) { assert PlacedColumn(l.t[b], l.avail); }
    AtMostOneEach(l.t, s);
    assert l.EvenAt(s);
  }

  /** A flag is only given when nobody below the share could take the slot. */
  lemma LowTakesNone(l: Ledger, node: Server, extras: int, move: Move, y: Server, b: nat)
    requires Chosen(l, false, node, extras, move) && y in l.avail && l.sMig[y] < 0
    requires Fits(y, l.t, Held(l, false, node), b)
    ensures move.ShiftTo?
  {
  }

  lemma ReceiverNotLow(l: Ledger, node: Server, extras: int, move: Move)
    requires l.Valid() && Chosen(l, false, node, extras, move) && move.OverloadTo?
    ensures 0 <= l.sMig[move.to]
  {
    assert l.SlaveEntry(node, move.b);
    assert Fits(move.to, l.t, Held(l, false, node), move.b);
  }

  /** With a low server, a flag goes out only from `s`, or when `s` is done. */
  lemma SpareStep(l: Ledger, node: Server, extras: int, move: Move, r: Ledger, s: Server, x: Server, y: Server)
    requires l.Valid() && CopyBudget(l, extras) && Spare(l) && Three(s, x, y, l.avail)
    requires Chosen(l, false, node, extras, move) && l.sMig[node] > 0 && !move.Stuck?
    requires r == Relieve(l, false, node, move) && Sames(l, r)
    ensures SpareAt(r, s, x, y)
  {
    CopyTable(l, node, move, r, s);
    CopyLedger(l, node, move, r, s);
    CopyLedger(l, node, move, r, x);
    CopyLedger(l, node, move, r, y);
    assert SpareAt(l, s, x, y);
    if Masters(l.t, s) > l.sShare && r.sMig[y] < 0 && !move.ShiftTo? {
      SpareFlag(l, node, extras, move, s, x, y);
    }
  }

  lemma SpareFlag(l: Ledger, node: Server, extras: int, move: Move, s: Server, x: Server, y: Server)
    requires l.Valid() && CopyBudget(l, extras) && Spare(l) && Three(s, x, y, l.avail)
    requires Chosen(l, false, node, extras, move) && l.sMig[node] > 0 && !move.Stuck? && !move.ShiftTo?
    requires Masters(l.t, s) > l.sShare && l.sMig[y] < 0
    ensures node == x || node == s
    ensures node == x ==> l.sFlag[x] > 0 && !move.KeepIt?
    ensures node == s && move.OverloadTo? ==> l.sMig[s] <= 1
    ensures move.OverloadTo? ==> move.to != y
  {
    var z := Third(l.avail, s, y);
    assert z == x;
    if node == x && l.sFlag[x] == 0 {
      var b := UnflaggedShifts(l, s, x, y);
      LowTakesNone(l, x, extras, move, y, b);
    }
    if node == s && move.OverloadTo? {
      SpareExtra(l, extras, s, y);
      AlmostDone(l, s);
    }
    if move.OverloadTo? { ReceiverNotLow(l, node, extras, move); }
  }

  // ---------------------------------------------------------------- the round

  lemma FlagsStep(l: Ledger, node: Server, extras: int, move: Move, r: Ledger)
    requires l.Valid() && CopyBudget(l, extras) && Allowed(l, false, node, move) && l.sMig[node] > 0 && !move.Stuck?
    requires r == Relieve(l, false, node, move) && r.Keyed() && Sames(l, r)
    ensures Flagged(r) && Shares(r) && |r.t| == |l.t| && Sum(r.sFlag, r.avail) == Sum(l.sFlag, l.avail) + Spent(move)
  {
    CopyTable(l, node, move, r, node);
    forall x | x in l.avail ensures x in r.sFlag && 0 <= r.sFlag[x] { CopyLedger(l, node, move, r, x); }
    if move.KeepIt? { SumBump(l.sFlag, l.avail, node, 1); }
    if move.OverloadTo? { SumBump(l.sFlag, l.avail, move.to, 1); }
  }

  lemma ModeStep(l: Ledger, node: Server, extras: int, move: Move, r: Ledger)
    requires l.Valid() && CopyBudget(l, extras) && Chosen(l, false, node, extras, move)
    requires l.sMig[node] > 0 && !move.Stuck? && r == Relieve(l, false, node, move) && Sames(l, r) && !Modest(l)
    ensures Near(r) && (Calm(r) || Spare(r))
  {
    if l.sFlag[node] == 0 && Masters(l.t, node) > l.sShare { ExtraLeft(l, extras, node); }
    forall x | x in l.avail ensures NearAt(r, x) {
      assert NearAt(l, x);
      NearStep(l, node, extras, move, r, x);
    }
    if Calm(l) {
      CalmStep(l, node, move, r);
    } else {
      CopyTable(l, node, move, r, node);
      forall s, x, y | Three(s, x, y, l.avail) ensures SpareAt(r, s, x, y) {
        SpareStep(l, node, extras, move, r, s, x, y);
      }
    }
  }

  /** Every round of the copy phase keeps the budget and lowers the copies above the shares by one. */
  lemma CopyRound(l: Ledger, node: Server, extras: int, move: Move, r: Ledger)
    requires l.Valid() && CopyBudget(l, extras) && Chosen(l, false, node, extras, move) && l.sMig[node] > 0
    requires r == Relieve(l, false, node, move) && r.Keyed() && Sames(l, r)
    ensures !move.Stuck? && CopyBudget(r, extras - Spent(move))
    ensures Credit(r.sMig, l.avail) == Credit(l.sMig, l.avail) - 1
  {
    NeverStuck(l, node, extras, move);
    FlagsStep(l, node, extras, move, r);
    if Modest(l) { ModestStep(l, node, move, r); } else { ModeStep(l, node, extras, move, r); }
    CopyCredit(l, node, move, r);
  }

  lemma CopyCredit(l: Ledger, node: Server, move: Move, r: Ledger)
    requires l.Valid() && Allowed(l, false, node, move) && l.sMig[node] > 0 && !move.Stuck?
    requires r == Relieve(l, false, node, move) && r.Keyed() && Sames(l, r)
    ensures Credit(r.sMig, l.avail) == Credit(l.sMig, l.avail) - 1
  {
    forall x | x in l.avail && x != node ensures Positive(r.sMig[x]) == Positive(l.sMig[x]) {
      CopyLedger(l, node, move, r, x);
    }
    CopyLedger(l, node, move, r, node);
    CreditStep(l.sMig, r.sMig, l.avail, node);
  }

  // ---------------------------------------------------------------- from masters to copies

  /** When the masters are balanced, balancing the copies can begin. */
  lemma CopyStart(l: Ledger, masters: int, extras: int)
    requires l.Valid() && MasterBudget(l, masters) && (forall x :: x in l.avail ==> l.mMig[x] <= 0)
    requires extras == |l.t| * l.copies % |l.avail|
    ensures CopyBudget(l, extras)
  {
    var edge := Edge(l.copies, |l.avail|, |l.t|);
    forall x | x in l.avail ensures l.sFlag[x] == 0 && Masters(l.t, x) <= l.sShare + One(edge) {
      assert MasterFair(l, x, edge) && l.EvenAt(x);
    }
    SumZero(l.sFlag, l.avail);
    if edge && !Modest(l) { EdgeStart(l, masters, edge); }
  }

  lemma EdgeStart(l: Ledger, masters: int, edge: bool)
    requires l.Valid() && MasterBudget(l, masters) && edge == Edge(l.copies, |l.avail|, |l.t|)
    requires forall x :: x in l.avail ==> l.sFlag[x] == 0 && Masters(l.t, x) <= l.sShare + 1 && l.mMig[x] <= 0
    requires edge && !Modest(l)
    ensures Near(l) && (Calm(l) || Spare(l))
  {
    if Sporadic(l.copies, |l.avail|, |l.t|) {
      forall s, x, y | Three(s, x, y, l.avail) ensures SpareAt(l, s, x, y) {}
    } else if l.sShare == 0 {
      forall x | x in l.avail ensures 0 <= l.sMig[x] { assert l.EvenAt(x); }
    } else {
      SingleStart(l, masters);
    }
  }

  lemma {:induction false} SingleCopies(t: Table, s: Server)
    requires Shaped(t, 1)
    ensures Copies(t, s) == Masters(t, s)
  {
    if t != [] {
      SingleCopies(t[..|t| - 1], s);
      var col := t[|t| - 1];
      assert col == [col[0]];
    }
  }

  lemma SingleStart(l: Ledger, masters: int)
    requires l.Valid() && MasterBudget(l, masters) && l.copies == 1 && !Modest(l)
    requires forall x :: x in l.avail ==> l.sFlag[x] == 0 && l.mMig[x] <= 0
    ensures Calm(l)
  {
    assert l.mShare == l.sShare;
    var z :| z in l.avail && Masters(l.t, z) > l.sShare;
    assert l.EvenAt(z) && l.mFlag[z] > 0;
    assert NoLows(l);
    forall x | x in l.avail ensures 0 <= l.sMig[x] {
      SingleCopies(l.t, x);
      assert l.EvenAt(x) && MasterFair(l, x, Edge(l.copies, |l.avail|, |l.t|));
    }
  }
}
