/**
 Credits: how much is still to be moved away from servers above their share, and how evenly the
 masters of a first build are spread.
 */
module PlacementCredit {
  import opened Placement

  function Positive(n: int): (r: nat) {
    if n > 0 then n else 0
  }

  /** The sum of the positive entries of a ledger. */
  ghost function Credit(m: Counts, dom: set<Server>): (r: nat)
    requires dom <= m.Keys
  {
    if forall x :: x !in dom then 0
    else var x :| x in dom; Positive(m[x]) + Credit(m, dom - {x})
  }

  lemma {:induction false} CreditTake(m: Counts, dom: set<Server>, x: Server)
    requires dom <= m.Keys && x in dom
    ensures Credit(m, dom) == Positive(m[x]) + Credit(m, dom - {x})
  {
    var y :| y in dom && Credit(m, dom) == Positive(m[y]) + Credit(m, dom - {y});
    if x != y {
      CreditTake(m, dom - {y}, x);
      CreditTake(m, dom - {x}, y);
      assert dom - {y} - {x} == dom - {x} - {y};
    }
  }

  lemma {:induction false} CreditSame(m: Counts, m': Counts, dom: set<Server>)
    requires dom <= m.Keys && dom <= m'.Keys && forall x :: x in dom ==> Positive(m[x]) == Positive(m'[x])
    ensures Credit(m, dom) == Credit(m', dom)
  {
    if exists x :: x in dom {
      var x :| x in dom;
      CreditTake(m, dom, x);
      CreditTake(m', dom, x);
      CreditSame(m, m', dom - {x});
    }
  }

  /** Lowering a positive entry, and raising a negative one, lowers the credit by exactly one. */
  lemma CreditStep(m: Counts, m': Counts, dom: set<Server>, s: Server)
    requires dom <= m.Keys && dom <= m'.Keys && s in dom
    requires m[s] > 0 && m'[s] == m[s] - 1
    requires forall x :: x in dom && x != s ==> Positive(m'[x]) == Positive(m[x])
    ensures Credit(m', dom) == Credit(m, dom) - 1
  {
    CreditTake(m, dom, s);
    CreditTake(m', dom, s);
    CreditSame(m, m', dom - {s});
  }

  // ---------------------------------------------------------------- even masters

  ghost function MasterTotal(t: Table, dom: set<Server>): (r: nat) {
    if forall x :: x !in dom then 0
    else var x :| x in dom; Masters(t, x) + MasterTotal(t, dom - {x})
  }

  lemma {:induction false} MasterTotalTake(t: Table, dom: set<Server>, x: Server)
    requires x in dom
    ensures MasterTotal(t, dom) == Masters(t, x) + MasterTotal(t, dom - {x})
  {
    var y :| y in dom && MasterTotal(t, dom) == Masters(t, y) + MasterTotal(t, dom - {y});
    if x != y {
      MasterTotalTake(t, dom - {y}, x);
      MasterTotalTake(t, dom - {x}, y);
      assert dom - {y} - {x} == dom - {x} - {y};
    }
  }

  /** One more bucket adds one to the total if its master is among the servers, else nothing. */
  lemma {:induction false} MasterTotalStep(t: Table, col: Column, dom: set<Server>)
    requires col != []
    ensures MasterTotal(t + [col], dom) == MasterTotal(t, dom) + if col[0] in dom then 1 else 0
  {
    if exists x :: x in dom {
      var x :| x in dom;
      MasterTotalTake(t, dom, x);
      MasterTotalTake(t + [col], dom, x);
      MasterTotalStep(t, col, dom - {x});
      assert (t + [col])[..|t|] == t;
    }
  }

  lemma {:induction false} MasterTotalNone(dom: set<Server>)
    ensures MasterTotal([], dom) == 0
  {
    if exists x :: x in dom {
      var x :| x in dom;
      MasterTotalTake([], dom, x);
      MasterTotalNone(dom - {x});
    }
  }

  /** If every bucket is mastered by one of the servers, the masters add up to the buckets. */
  lemma {:induction false} MasterTotalAll(t: Table, dom: set<Server>)
    requires forall b :: 0 <= b < |t| ==> t[b] != [] && t[b][0] in dom
    ensures MasterTotal(t, dom) == |t|
  {
    if t == [] {
      MasterTotalNone(dom);
    } else {
      var u := t[..|t| - 1];
      MasterTotalAll(u, dom);
      assert t == u + [t[|t| - 1]];
      MasterTotalStep(u, t[|t| - 1], dom);
    }
  }

  lemma {:induction false} MasterTotalBounds(t: Table, dom: set<Server>, lo: nat, hi: nat)
    requires forall x :: x in dom ==> lo <= Masters(t, x) <= hi
    ensures |dom| * lo <= MasterTotal(t, dom) <= |dom| * hi
  {
    if exists x :: x in dom {
      var x :| x in dom;
      MasterTotalTake(t, dom, x);
      MasterTotalBounds(t, dom - {x}, lo, hi);
      assert |dom| == |dom - {x}| + 1;
      Distribute(|dom - {x}|, lo, hi);
    }
  }

  lemma Distribute(n: nat, lo: nat, hi: nat)
    ensures (n + 1) * lo == n * lo + lo && (n + 1) * hi == n * hi + hi
  {
  }

  /** The masters of any two servers differ by at most one. */
  ghost predicate Level(t: Table, avail: set<Server>) {
    forall x, y {:trigger Masters(t, x), Masters(t, y)} ::
      x in avail && y in avail ==> Masters(t, x) <= Masters(t, y) + 1
  }

  /** In a level table every server masters its share, rounded down or up. */
  lemma LevelShare(t: Table, avail: set<Server>, s: Server)
    requires s in avail && Level(t, avail)
    requires forall b :: 0 <= b < |t| ==> t[b] != [] && t[b][0] in avail
    ensures var share := |t| / |avail|;
            Masters(t, s) == share || (Masters(t, s) == share + 1 && |t| % |avail| != 0)
  {
    MasterTotalAll(t, avail);
    var n, v := |avail|, Masters(t, s);
    var rest := avail - {s};
    MasterTotalTake(t, avail, s);
    assert |rest| == n - 1;
    if x :| x in avail && Masters(t, x) < v {
      // s is one of the higher servers: all others hold v - 1 or v
      MasterTotalBounds(t, rest, v - 1, v);
      MasterTotalTake(t, rest, x);
      MasterTotalBounds(t, rest - {x}, v - 1, v);
      assert |rest - {x}| == n - 2;
      Higher(n, v, |t|);
    } else {
      MasterTotalBounds(t, rest, v, v + 1);
      Lower(n, v, |t|);
    }
  }

  lemma Higher(n: nat, v: nat, total: nat)
    requires n >= 2 && v >= 1
    requires (n - 1) * (v - 1) + v <= total <= (n - 2) * v + (v - 1) + v
    ensures total / n == v - 1 && total % n != 0
  {
    assert (n - 1) * (v - 1) + v == n * (v - 1) + 1;
    assert (n - 2) * v + (v - 1) + v == n * v - 1;
    Quotient(total, n, v - 1);
  }

  lemma Lower(n: nat, v: nat, total: nat)
    requires n >= 1
    requires (n - 1) * v + v <= total <= (n - 1) * (v + 1) + v
    ensures total / n == v
  {
    assert (n - 1) * v + v == n * v;
    assert (n - 1) * (v + 1) + v == n * v + n - 1;
    Quotient(total, n, v);
  }

  lemma Quotient(total: nat, n: nat, q: nat)
    requires n > 0 && n * q <= total < n * q + n
    ensures total / n == q && total % n == total - n * q
  {
    var d := total / n;
    assert total == n * d + total % n;
    if d < q {
      Monotone(n, d + 1, q);
      Spread(n, d);
    } else if q < d {
      Monotone(n, q + 1, d);
      Spread(n, q);
    }
  }

  lemma Monotone(n: nat, a: nat, b: nat)
    requires a <= b
    ensures n * a <= n * b
  {
  }

  lemma Spread(n: nat, a: nat)
    ensures n * (a + 1) == n * a + n
  {
  }
}
