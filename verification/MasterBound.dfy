/**
 How many masters a server can have when the masters are balanced: with more than one copy never
 more than its share of copies, apart from a few very small tables.
 */
module MasterBound {
  import opened Placement
  import opened PlacementMoves
  import opened PlacementSearch
  import opened PlacementCredit
  import opened PlacementSum
  import opened Rebalance

  // ---------------------------------------------------------------- arithmetic

  /** Two copies, three servers and four buckets: the one table that needs a closer look. */
  predicate Sporadic(copies: nat, servers: nat, buckets: nat) {
    copies == 2 && servers == 3 && buckets == 4
  }

  predicate Edge(copies: nat, servers: nat, buckets: nat)
    requires 0 < servers
  {
    buckets * copies / servers == 0 || copies == 1 || Sporadic(copies, servers, buckets)
  }

  lemma AtMostShare(n: nat, c: nat, s: nat, v: nat)
    requires 0 < c <= s && (s - c + 1) * v <= n
    ensures v <= n * c / s
  {
    assert c * (s - c + 1) == s + (c - 1) * (s - c);
    Product(c - 1, s - c);
    Monotone(v, s, c * (s - c + 1));
    assert v * (c * (s - c + 1)) == c * ((s - c + 1) * v);
    Monotone(c, (s - c + 1) * v, n);
    assert s * v <= c * n;
    QuotientAtLeast(n * c, s, v);
  }

  lemma Product(a: nat, b: nat)
    ensures 0 <= a * b
  {
  }

  lemma QuotientAtLeast(total: nat, n: nat, q: nat)
    requires 0 < n && n * q <= total
    ensures q <= total / n
  {
    var d := total / n;
    assert total == n * d + total % n;
    if d < q {
      Monotone(n, d + 1, q);
      Spread(n, d);
    }
  }

  /** With more than one copy the share of copies leaves room for one more master than the share of masters. */
  lemma RoomForOne(n: nat, c: nat, s: nat)
    requires 0 < s && 0 < c
    ensures n / s <= n * c / s
    ensures c >= 2 && n * c / s > 0 ==> n / s + 1 <= n * c / s
  {
    var m := n / s;
    assert s * m <= n;
    Monotone(c, s * m, n);
    assert c * (s * m) == s * (c * m);
    QuotientAtLeast(n * c, s, c * m);
    Monotone(m, 1, c);
    if c >= 2 { Monotone(m, 2, c); }
  }

  lemma TightProduct(n: nat, c: nat, s: nat, q: nat)
    requires 2 <= c < s && q == n * c / s && (s - c + 1) * q <= n
    ensures q * (s - 2) <= s - 1
  {
    assert n * c < s * q + s by { assert n * c == s * (n * c / s) + n * c % s; }
    Monotone(c, (s - c + 1) * q, n);
    Expand(c, s, q);
    Product(c - 2, s - c - 1);
    Monotone(q, s - 2, (c - 1) * (s - c));
  }

  lemma Expand(c: nat, s: nat, q: nat)
    requires 2 <= c < s
    ensures c * ((s - c + 1) * q) == s * q + q * ((c - 1) * (s - c))
    ensures (c - 1) * (s - c) == (s - 2) + (c - 2) * (s - c - 1)
  {
    assert c * (s - c + 1) == s + (c - 1) * (s - c);
    assert c * ((s - c + 1) * q) == (c * (s - c + 1)) * q;
  }

  /** If all the servers that may take a master have the share of copies, the table is tiny. */
  lemma Tight(n: nat, c: nat, s: nat, q: nat)
    requires 2 <= c < s && q == n * c / s && q >= 1 && (s - c + 1) * q <= n
    ensures q == 1 || Sporadic(c, s, n)
  {
    TightProduct(n, c, s, q);
    if q >= 2 {
      Monotone(s - 2, 2, q);
      assert s == 3 && c == 2;
      assert q * 1 <= 2;
      assert q == 2;
      Four(n);
    }
  }

  lemma Four(n: nat)
    requires n * 2 / 3 == 2 && 2 * 2 <= n
    ensures n == 4
  {
  }

  /** With share one, a server with two masters among them is too much. */
  lemma NotThisTight(n: nat, c: nat, s: nat)
    requires 2 <= c < s && n * c / s == 1
    ensures n < s - c + 2
  {
    assert n * c < 2 * s by { assert n * c == s * (n * c / s) + n * c % s; }
    if n >= s - c + 2 {
      Monotone(c, s - c + 2, n);
      assert c * (s - c + 2) == 2 * s + (c - 2) * (s - c);
      Product(c - 2, s - c);
    }
  }

  // ---------------------------------------------------------------- the budget

  ghost predicate Shares(l: Ledger) {
    && 0 < l.copies <= |l.avail| && 0 <= l.mShare && 0 <= l.sShare
    && l.mShare == |l.t| / |l.avail| && l.sShare == |l.t| * l.copies / |l.avail|
  }

  ghost predicate MasterFair(l: Ledger, x: Server, edge: bool) {
    && x in l.mFlag && x in l.sFlag && x in l.mMig
    && 0 <= l.mFlag[x] && l.sFlag[x] == 0 && (l.mShare == 0 ==> 0 <= l.mMig[x])
    && l.mShare + l.mFlag[x] <= l.sShare + (if edge then 1 else 0)
  }

  ghost predicate AllFair(l: Ledger, edge: bool) {
    forall x {:trigger MasterFair(l, x, edge)} :: x in l.avail ==> MasterFair(l, x, edge)
  }

  ghost predicate NoFlags(l: Ledger) {
    forall x {:trigger l.mFlag[x]} :: x in l.avail ==> x in l.mFlag && l.mFlag[x] == 0
  }

  ghost predicate NoLows(l: Ledger) {
    forall x {:trigger l.mMig[x]} :: x in l.avail ==> x in l.mMig && 0 <= l.mMig[x]
  }

  /** What filling the table and balancing its masters keep about masters above the share. */
  ghost predicate MasterBudget(l: Ledger, extras: int) {
    && l.Keyed() && Shares(l)
    && extras == |l.t| % |l.avail| - Sum(l.mFlag, l.avail)
    && AllFair(l, Edge(l.copies, |l.avail|, |l.t|))
    && (l.copies == 1 ==> NoFlags(l) || NoLows(l))
  }

  // ---------------------------------------------------------------- filling

  /** Steps that change neither flags nor counts of buckets need only keep servers from going low. */
  lemma BudgetKept(l: Ledger, r: Ledger, extras: int)
    requires MasterBudget(l, extras) && r.Keyed() && Sames(l, r) && |r.t| == |l.t|
    requires r.mFlag == l.mFlag && r.sFlag == l.sFlag
    requires forall x :: x in l.avail && 0 <= l.mMig[x] ==> 0 <= r.mMig[x]
    ensures MasterBudget(r, extras)
  {
    var edge := Edge(l.copies, |l.avail|, |l.t|);
    forall x | x in l.avail ensures MasterFair(r, x, edge) { assert MasterFair(l, x, edge); }
  }

  lemma PlaceBudget(l: Ledger, b: nat, p: nat, s: Server, extras: int)
    requires CanPlace(l, b, p, s) && MasterBudget(l, extras) && Place(l, b, p, s).Keyed()
    ensures MasterBudget(Place(l, b, p, s), extras)
  {
    BudgetKept(l, Place(l, b, p, s), extras);
  }

  lemma DemoteBudget(l: Ledger, b: nat, n: nat, extras: int)
    requires CanDemote(l, b, n) && MasterBudget(l, extras) && l.mMig[l.t[b][0]] > 0 && Demote(l, b, n).Keyed()
    ensures MasterBudget(Demote(l, b, n), extras)
  {
    BudgetKept(l, Demote(l, b, n), extras);
  }

  /** One more flag for `s`, paid from the extras. */
  lemma FlagBudget(l: Ledger, r: Ledger, s: Server, extras: int)
    requires MasterBudget(l, extras) && r.Keyed() && Sames(l, r) && |r.t| == |l.t| && s in l.avail
    requires r.mFlag == Bump(l.mFlag, s, 1) && r.sFlag == l.sFlag
    requires forall x :: x in l.avail && 0 <= l.mMig[x] ==> 0 <= r.mMig[x]
    requires l.mShare + l.mFlag[s] + 1 <= l.sShare + (if Edge(l.copies, |l.avail|, |l.t|) then 1 else 0)
    requires l.copies == 1 ==> NoLows(l)
    ensures MasterBudget(r, extras - 1)
  {
    var edge := Edge(l.copies, |l.avail|, |l.t|);
    SumBump(l.mFlag, l.avail, s, 1);
    forall x | x in l.avail ensures MasterFair(r, x, edge) { assert MasterFair(l, x, edge); }
  }

  lemma KeepBudget(l: Ledger, s: Server, extras: int)
    requires MasterBudget(l, extras) && s in l.avail && l.mFlag[s] == 0 && l.mMig[s] > 0
    requires l.copies == 1 ==> NoLows(l)
    ensures MasterBudget(Keep(l, true, s), extras - 1)
  {
    RoomForOne(|l.t|, l.copies, |l.avail|);
    FlagBudget(l, Keep(l, true, s), s, extras);
  }

  // ---------------------------------------------------------------- balancing the masters

  /** The servers that may take the master slot of a bucket. */
  ghost function Takers(l: Ledger, b: nat): (r: set<Server>)
    requires b < |l.t| && l.t[b] != []
  {
    l.avail - Elements(l.t[b][1..])
  }

  lemma TakersMany(l: Ledger, b: nat)
    requires b < |l.t| && |l.t[b]| == l.copies && 0 < l.copies
    ensures |Takers(l, b)| >= |l.avail| - l.copies + 1
    ensures forall x :: x in Takers(l, b) <==> x in l.avail && CheckNodeOk(x, l.t[b], 0)
  {
    var slaves := l.t[b][1..];
    FewElements(slaves);
    Difference(l.avail, Elements(slaves));
    forall x ensures x in Elements(slaves) <==> !CheckNodeOk(x, l.t[b], 0) {
      if !CheckNodeOk(x, l.t[b], 0) {
        var i :| 0 <= i < |l.t[b]| && i != 0 && l.t[b][i] == x;
        assert slaves[i - 1] == x;
      }
    }
  }

  lemma Difference<T>(a: set<T>, b: set<T>)
    ensures |a - b| >= |a| - |b|
  {
    SubsetSize(a * b, b);
    assert a == (a - b) + (a * b);
  }

  /** Servers that share the masters of a table: `floor` each, and more for `node`. */
  lemma TakersFloor(t: Table, takers: set<Server>, node: Server, lo: nat, hi: nat)
    requires node in takers && hi <= Masters(t, node) && forall x :: x in takers ==> lo <= Masters(t, x)
    ensures (|takers| - 1) * lo + hi <= |t|
  {
    var rest := takers - {node};
    MasterTotalTake(t, takers, node);
    MastersFloor(t, rest, lo);
    MastersInAll(t, takers);
    assert |rest| == |takers| - 1;
  }

  /** What an overload says about everyone who could have taken the bucket. */
  lemma OverloadLevel(l: Ledger, node: Server, extras: int, move: Move)
    requires l.Valid() && Chosen(l, true, node, extras, move) && move.OverloadTo?
    ensures l.MasterEntry(node, move.b) && node in Takers(l, move.b) && move.to in Takers(l, move.b)
    ensures 0 <= l.mMig[move.to] && forall x :: x in Takers(l, move.b) ==> Masters(l.t, move.to) <= Masters(l.t, x)
  {
    var b, held := move.b, l.mBuckets[node];
    assert l.MasterEntry(node, b) && held == Held(l, true, node);
    assert PlacedColumn(l.t[b], l.avail);
    TakersMany(l, b);
    assert CheckNodeOk(node, l.t[b], 0);
    assert Fits(move.to, l.t, held, b);
    assert l.EvenAt(move.to);
    forall x | x in Takers(l, b) ensures Masters(l.t, move.to) <= Masters(l.t, x) {
      assert Fits(x, l.t, held, b);
      assert l.EvenAt(x);
    }
  }

  lemma More(k: nat, n: nat, v: nat, total: nat)
    requires n <= k && k * v <= total
    ensures n * v <= total
  {
    Monotone(v, n, k);
  }

  /** The receiver of an overload has at most the share of copies as masters; a server relieving itself has one more. */
  lemma ReceiverBound(l: Ledger, node: Server, extras: int, move: Move)
    requires l.Valid() && Shares(l) && Chosen(l, true, node, extras, move) && move.OverloadTo?
    ensures (|l.avail| - l.copies + 1) * Masters(l.t, move.to) <= |l.t|
    ensures Masters(l.t, move.to) <= l.sShare
  {
    OverloadLevel(l, node, extras, move);
    TakersMany(l, move.b);
    var takers, v := Takers(l, move.b), Masters(l.t, move.to);
    MastersFloor(l.t, takers, v);
    MastersInAll(l.t, takers);
    More(|takers|, |l.avail| - l.copies + 1, v, |l.t|);
    AtMostShare(|l.t|, l.copies, |l.avail|, v);
  }

  /** With a share of no masters, the extras last for all that is left to relieve. */
  lemma ExtrasLast(l: Ledger, extras: int, node: Server)
    requires l.Valid() && MasterBudget(l, extras) && l.mShare == 0 && node in l.avail
    ensures l.mMig[node] <= extras
  {
    var edge := Edge(l.copies, |l.avail|, |l.t|);
    forall x | x in l.avail ensures Masters(l.t, x) == l.mMig[x] + l.mFlag[x] && 0 <= l.mMig[x] {
      assert l.EvenAt(x) && MasterFair(l, x, edge);
    }
    MasterSum(l.t, l.mMig, l.mFlag, l.avail);
    MastersInAll(l.t, l.avail);
    SumAtLeast(l.mMig, l.avail, node);
    SmallQuotient(|l.t|, |l.avail|);
  }

  lemma SmallQuotient(n: nat, s: nat)
    requires 0 < s && n / s == 0
    ensures n % s == n
  {
  }

  /** If everyone who may take a master has the share of copies already, the table is tiny. */
  lemma TightTakers(t: Table, takers: set<Server>, node: Server, to: Server, c: nat, s: nat, q: nat)
    requires node in takers && to in takers && to != node && 0 < c <= s && |takers| >= s - c + 1
    requires q == |t| * c / s && forall x :: x in takers ==> q <= Masters(t, x)
    requires q == 1 && 2 <= c ==> 2 <= Masters(t, node)
    ensures Edge(c, s, |t|)
  {
    if c >= 2 && q >= 1 {
      if c == s {
        FullTakers(t, node, to, c, q);
      } else {
        MastersFloor(t, takers, q);
        MastersInAll(t, takers);
        More(|takers|, s - c + 1, q, |t|);
        Tight(|t|, c, s, q);
        if q == 1 {
          TakersFloor(t, takers, node, 1, 2);
          NotThisTight(|t|, c, s);
        }
      }
    }
  }

  /** With as many copies as servers one server cannot have all the masters beside another that has. */
  lemma FullTakers(t: Table, node: Server, to: Server, c: nat, q: nat)
    requires node != to && 0 < c && q == |t| * c / c && q <= Masters(t, node) && q <= Masters(t, to)
    ensures q == 0
  {
    TakersFloor(t, {node, to}, node, q, q);
    assert |{node, to}| == 2;
    Cancel(|t|, c);
  }

  lemma Cancel(n: nat, c: nat)
    requires 0 < c
    ensures n * c / c == n
  {
    Monotone(c, n, n);
    Quotient(n * c, c, n);
  }

  /** With a share of one copy an overloading server has two masters. */
  lemma TwoMasters(l: Ledger, node: Server, extras: int, move: Move)
    requires l.Valid() && MasterBudget(l, extras) && Chosen(l, true, node, extras, move) && move.OverloadTo?
    requires l.mMig[node] > 0 && l.sShare == 1 && 2 <= l.copies
    ensures 2 <= Masters(l.t, node)
  {
    RoomForOne(|l.t|, l.copies, |l.avail|);
    ExtrasLast(l, extras, node);
    assert l.EvenAt(node) && MasterFair(l, node, Edge(l.copies, |l.avail|, |l.t|));
  }

  lemma ReceiverTight(l: Ledger, node: Server, extras: int, move: Move)
    requires l.Valid() && MasterBudget(l, extras) && Chosen(l, true, node, extras, move) && move.OverloadTo?
    requires l.mMig[node] > 0 && move.to != node && Masters(l.t, move.to) == l.sShare
    ensures Edge(l.copies, |l.avail|, |l.t|)
  {
    OverloadLevel(l, node, extras, move);
    TakersMany(l, move.b);
    if l.sShare == 1 && 2 <= l.copies { TwoMasters(l, node, extras, move); }
    TightTakers(l.t, Takers(l, move.b), node, move.to, l.copies, |l.avail|, l.sShare);
  }

  /** A server that takes one more flag stays within the bound. */
  lemma OverloadBound(l: Ledger, node: Server, extras: int, move: Move)
    requires l.Valid() && MasterBudget(l, extras) && Chosen(l, true, node, extras, move) && move.OverloadTo?
    requires l.mMig[node] > 0
    ensures l.mShare + l.mFlag[move.to] + 1 <= l.sShare + (if Edge(l.copies, |l.avail|, |l.t|) then 1 else 0)
  {
    ReceiverBound(l, node, extras, move);
    OverloadLevel(l, node, extras, move);
    assert l.EvenAt(move.to);
    if move.to != node && Masters(l.t, move.to) == l.sShare { ReceiverTight(l, node, extras, move); }
  }

  /** With one copy every server may take every master, so nobody is low when a flag is given. */
  lemma SingleNoLows(l: Ledger, node: Server, extras: int, move: Move)
    requires l.Valid() && 0 <= l.mShare && Chosen(l, true, node, extras, move) && !move.ShiftTo?
    requires l.mMig[node] > 0
    ensures l.copies == 1 ==> NoLows(l)
  {
    if l.copies == 1 { SingleLow(l, node, extras, move); }
  }

  lemma SingleLow(l: Ledger, node: Server, extras: int, move: Move)
    requires l.Valid() && 0 <= l.mShare && Chosen(l, true, node, extras, move) && !move.ShiftTo?
    requires l.mMig[node] > 0 && l.copies == 1
    ensures NoLows(l)
  {
    SelfFits(l, node);
    var b: nat :| Fits(node, l.t, l.mBuckets[node], b);
    assert l.MasterEntry(node, b) && l.mBuckets[node] == Held(l, true, node);
    forall x | x in l.avail ensures 0 <= l.mMig[x] {
      assert |l.t[b]| == 1;
      assert Fits(x, l.t, Held(l, true, node), b);
    }
  }

  function Spent(move: Move): (n: nat) {
    if move.KeepIt? || move.OverloadTo? then 1 else 0
  }

  /** Every round of the master phase keeps the budget. */
  lemma MasterRound(l: Ledger, node: Server, extras: int, move: Move, r: Ledger)
    requires l.Valid() && MasterBudget(l, extras) && Chosen(l, true, node, extras, move) && l.mMig[node] > 0
    requires r == Relieve(l, true, node, move) && r.Keyed() && Sames(l, r) && |r.t| == |l.t|
    ensures MasterBudget(r, extras - Spent(move))
  {
    if move.ShiftTo? {
      ShiftRound(l, node, extras, move, r);
    } else {
      FlagRound(l, node, extras, move, r);
    }
  }

  lemma FlagRound(l: Ledger, node: Server, extras: int, move: Move, r: Ledger)
    requires l.Valid() && MasterBudget(l, extras) && Chosen(l, true, node, extras, move) && l.mMig[node] > 0
    requires !move.ShiftTo?
    requires r == Relieve(l, true, node, move) && r.Keyed() && Sames(l, r) && |r.t| == |l.t|
    ensures MasterBudget(r, extras - 1)
  {
    SingleNoLows(l, node, extras, move);
    if move.KeepIt? { KeepBudget(l, node, extras); } else { OverloadRound(l, node, extras, move, r); }
  }

  lemma ShiftRound(l: Ledger, node: Server, extras: int, move: Move, r: Ledger)
    requires MasterBudget(l, extras) && Allowed(l, true, node, move) && l.mMig[node] > 0 && move.ShiftTo?
    requires r == Relieve(l, true, node, move) && r.Keyed() && Sames(l, r) && |r.t| == |l.t|
    ensures MasterBudget(r, extras)
  {
    BudgetKept(l, r, extras);
  }

  lemma OverloadRound(l: Ledger, node: Server, extras: int, move: Move, r: Ledger)
    requires l.Valid() && MasterBudget(l, extras) && Chosen(l, true, node, extras, move) && l.mMig[node] > 0
    requires move.OverloadTo? && (l.copies == 1 ==> NoLows(l))
    requires r == Relieve(l, true, node, move) && r.Keyed() && Sames(l, r) && |r.t| == |l.t|
    ensures MasterBudget(r, extras - 1)
  {
    OverloadBound(l, node, extras, move);
    FlagBudget(l, r, move.to, extras);
  }
}
