/**
 Sums of ledgers over the servers, and how many masters and copies a table has in all.
 */
module PlacementSum {
  import opened Placement
  import opened PlacementCredit

  ghost function Sum(m: Counts, dom: set<Server>): (n: int)
    requires dom <= m.Keys
  {
    if forall x :: x !in dom then 0
    else var x :| x in dom; m[x] + Sum(m, dom - {x})
  }

  lemma {:induction false} SumTake(m: Counts, dom: set<Server>, x: Server)
    requires dom <= m.Keys && x in dom
    ensures Sum(m, dom) == m[x] + Sum(m, dom - {x})
  {
    var y :| y in dom && Sum(m, dom) == m[y] + Sum(m, dom - {y});
    if x != y {
      SumTake(m, dom - {y}, x);
      SumTake(m, dom - {x}, y);
      assert dom - {y} - {x} == dom - {x} - {y};
    }
  }

  lemma {:induction false} SumSame(m: Counts, m': Counts, dom: set<Server>)
    requires dom <= m.Keys && dom <= m'.Keys && forall x :: x in dom ==> m[x] == m'[x]
    ensures Sum(m, dom) == Sum(m', dom)
  {
    if exists x :: x in dom {
      var x :| x in dom;
      SumTake(m, dom, x);
      SumTake(m', dom, x);
      SumSame(m, m', dom - {x});
    }
  }

  lemma SumBump(m: Counts, dom: set<Server>, s: Server, k: int)
    requires dom <= m.Keys && s in dom
    ensures Sum(Bump(m, s, k), dom) == Sum(m, dom) + k
  {
    var m' := Bump(m, s, k);
    SumTake(m, dom, s);
    SumTake(m', dom, s);
    SumSame(m, m', dom - {s});
  }

  lemma {:induction false} SumZero(m: Counts, dom: set<Server>)
    requires dom <= m.Keys && forall x :: x in dom ==> m[x] == 0
    ensures Sum(m, dom) == 0
  {
    if exists x :: x in dom {
      var x :| x in dom;
      SumTake(m, dom, x);
      SumZero(m, dom - {x});
    }
  }

  /** An entry of a ledger without negative entries is at most the sum. */
  lemma {:induction false} SumAtLeast(m: Counts, dom: set<Server>, s: Server)
    requires dom <= m.Keys && s in dom && forall x :: x in dom ==> 0 <= m[x]
    ensures m[s] <= Sum(m, dom)
  {
    SumTake(m, dom, s);
    SumNonNegative(m, dom - {s});
  }

  lemma {:induction false} SumNonNegative(m: Counts, dom: set<Server>)
    requires dom <= m.Keys && forall x :: x in dom ==> 0 <= m[x]
    ensures 0 <= Sum(m, dom)
  {
    if exists x :: x in dom {
      var x :| x in dom;
      SumTake(m, dom, x);
      SumNonNegative(m, dom - {x});
    }
  }

  // ---------------------------------------------------------------- masters

  /** A table has at most as many masters as buckets. */
  lemma {:induction false} MastersInAll(t: Table, dom: set<Server>)
    ensures MasterTotal(t, dom) <= |t|
  {
    if t == [] {
      MasterTotalNone(dom);
    } else {
      var u := t[..|t| - 1];
      MastersInAll(u, dom);
      assert t == u + [t[|t| - 1]];
      if t[|t| - 1] == [] { MasterlessStep(u, dom); } else { MasterTotalStep(u, t[|t| - 1], dom); }
    }
  }

  lemma {:induction false} MasterlessStep(t: Table, dom: set<Server>)
    ensures MasterTotal(t + [[]], dom) == MasterTotal(t, dom)
  {
    if exists x :: x in dom {
      var x :| x in dom;
      MasterTotalTake(t, dom, x);
      MasterTotalTake(t + [[]], dom, x);
      MasterlessStep(t, dom - {x});
      assert (t + [[]])[..|t|] == t;
    }
  }

  /** Servers with at least `lo` masters each have `lo` times their number together. */
  lemma {:induction false} MastersFloor(t: Table, dom: set<Server>, lo: nat)
    requires forall x :: x in dom ==> lo <= Masters(t, x)
    ensures |dom| * lo <= MasterTotal(t, dom)
  {
    if exists x :: x in dom {
      var x :| x in dom;
      MasterTotalTake(t, dom, x);
      MastersFloor(t, dom - {x}, lo);
      assert |dom| == |dom - {x}| + 1;
      Distribute(|dom - {x}|, lo, lo);
    }
  }

  /** Against a share, the credits and flags add up to the masters that are there. */
  lemma {:induction false} MasterSum(t: Table, mig: Counts, flag: Counts, dom: set<Server>)
    requires dom <= mig.Keys && dom <= flag.Keys
    requires forall x :: x in dom ==> Masters(t, x) == mig[x] + flag[x]
    ensures MasterTotal(t, dom) == Sum(mig, dom) + Sum(flag, dom)
  {
    if exists x :: x in dom {
      var x :| x in dom;
      MasterTotalTake(t, dom, x);
      SumTake(mig, dom, x);
      SumTake(flag, dom, x);
      MasterSum(t, mig, flag, dom - {x});
    }
  }

  // ---------------------------------------------------------------- copies

  ghost function CopyTotal(t: Table, dom: set<Server>): (r: nat) {
    if forall x :: x !in dom then 0
    else var x :| x in dom; Copies(t, x) + CopyTotal(t, dom - {x})
  }

  lemma {:induction false} CopyTotalTake(t: Table, dom: set<Server>, x: Server)
    requires x in dom
    ensures CopyTotal(t, dom) == Copies(t, x) + CopyTotal(t, dom - {x})
  {
    var y :| y in dom && CopyTotal(t, dom) == Copies(t, y) + CopyTotal(t, dom - {y});
    if x != y {
      CopyTotalTake(t, dom - {y}, x);
      CopyTotalTake(t, dom - {x}, y);
      assert dom - {y} - {x} == dom - {x} - {y};
    }
  }

  /** The slots of one bucket that are held by the servers of a set. */
  ghost function Within(col: Column, dom: set<Server>): (n: nat)
    ensures n <= |col|
  {
    if col == [] then 0 else Within(col[..|col| - 1], dom) + if col[|col| - 1] in dom then 1 else 0
  }

  lemma {:induction false} WithinTake(col: Column, dom: set<Server>, x: Server)
    requires x in dom
    ensures Within(col, dom) == multiset(col)[x] + Within(col, dom - {x})
  {
    if col != [] {
      WithinTake(col[..|col| - 1], dom, x);
      assert col == col[..|col| - 1] + [col[|col| - 1]];
    }
  }

  lemma {:induction false} WithinNone(col: Column)
    ensures Within(col, {}) == 0
  {
    if col != [] { WithinNone(col[..|col| - 1]); }
  }

  lemma {:induction false} CopyTotalStep(t: Table, col: Column, dom: set<Server>)
    ensures CopyTotal(t + [col], dom) == CopyTotal(t, dom) + Within(col, dom)
  {
    if exists x :: x in dom {
      var x :| x in dom;
      CopyTotalTake(t, dom, x);
      CopyTotalTake(t + [col], dom, x);
      CopyTotalStep(t, col, dom - {x});
      WithinTake(col, dom, x);
      assert (t + [col])[..|t|] == t;
    } else {
      assert dom == {};
      WithinNone(col);
    }
  }

  lemma {:induction false} CopyTotalNone(dom: set<Server>)
    ensures CopyTotal([], dom) == 0
  {
    if exists x :: x in dom {
      var x :| x in dom;
      CopyTotalTake([], dom, x);
      CopyTotalNone(dom - {x});
    }
  }

  /** A table has at most as many copies as slots. */
  lemma {:induction false} CopiesInAll(t: Table, dom: set<Server>, copies: nat)
    requires Shaped(t, copies)
    ensures CopyTotal(t, dom) <= |t| * copies
  {
    if t == [] {
      CopyTotalNone(dom);
    } else {
      var u := t[..|t| - 1];
      CopiesInAll(u, dom, copies);
      assert t == u + [t[|t| - 1]];
      CopyTotalStep(u, t[|t| - 1], dom);
      Distribute(|u|, copies, copies);
    }
  }

  lemma {:induction false} CopySum(t: Table, share: int, mig: Counts, flag: Counts, dom: set<Server>)
    requires dom <= mig.Keys && dom <= flag.Keys
    requires forall x :: x in dom ==> Copies(t, x) == share + mig[x] + flag[x]
    ensures CopyTotal(t, dom) == |dom| * share + Sum(mig, dom) + Sum(flag, dom)
  {
    if exists x :: x in dom {
      var x :| x in dom;
      CopyTotalTake(t, dom, x);
      SumTake(mig, dom, x);
      SumTake(flag, dom, x);
      CopySum(t, share, mig, flag, dom - {x});
      assert |dom| == |dom - {x}| + 1;
      OneMore(|dom - {x}|, share);
    }
  }

  lemma OneMore(n: nat, k: int)
    ensures (n + 1) * k == n * k + k
  {
  }
}
