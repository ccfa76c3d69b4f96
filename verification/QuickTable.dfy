/**
 Repairing the routing table after servers went down: every bucket that still has an available
 copy gets an available master and loses its dead copies.
 */
module QuickTable {
  import opened Placement

  /** The available servers among `xs`, in order. */
  function Avail(xs: seq<Server>, avail: set<Server>): (r: seq<Server>) {
    if xs == [] then []
    else Avail(xs[..|xs| - 1], avail) + if xs[|xs| - 1] in avail then [xs[|xs| - 1]] else []
  }

  /** The occupied slots among `xs`, in order. */
  function NonZero(xs: seq<Server>): (r: seq<Server>)
    ensures |r| <= |xs|
    ensures forall i :: 0 <= i < |r| ==> r[i] != INVALID_FLAG && r[i] in xs
  {
    if xs == [] then []
    else NonZero(xs[..|xs| - 1]) + if xs[|xs| - 1] != INVALID_FLAG then [xs[|xs| - 1]] else []
  }

  function Zeros(n: nat): (r: seq<Server>)
    ensures |r| == n && forall i :: 0 <= i < n ==> r[i] == INVALID_FLAG
  {
    seq(n, _ => INVALID_FLAG)
  }

  function Padded(xs: seq<Server>, n: nat): (r: seq<Server>)
    requires |xs| <= n
    ensures |r| == n
  {
    xs + Zeros(n - |xs|)
  }

  /** `xs` with the slots of dead servers emptied. */
  function Cleared(xs: seq<Server>, avail: set<Server>): (r: seq<Server>) {
    seq(|xs|, i requires 0 <= i < |xs| => if xs[i] in avail then xs[i] else INVALID_FLAG)
  }

  /**
   The repaired column of a bucket: an available server leads (the old master if it is
   available), the other available servers follow in their old order, the rest is empty.
   A bucket without any available copy keeps its master and its slaves, closed up.
   */
  ghost predicate QuickColumn(col: Column, avail: set<Server>, q: Column) {
    && col != []
    && var a := Avail(col, avail);
       if a == [] then
         q == [col[0]] + Padded(NonZero(col[1..]), |col| - 1)
       else
         && |a| <= |col|
         && exists i :: 0 <= i < |a| && (col[0] in avail ==> i == 0)
                     && q == [a[i]] + Padded(a[..i] + a[i + 1..], |col| - 1)
  }

  // ---------------------------------------------------------------- filters

  lemma {:induction false} AvailConcat(xs: seq<Server>, ys: seq<Server>, avail: set<Server>)
    ensures Avail(xs + ys, avail) == Avail(xs, avail) + Avail(ys, avail)
  {
    if ys == [] {
      assert xs + ys == xs;
    } else {
      AvailConcat(xs, ys[..|ys| - 1], avail);
      assert (xs + ys)[..|xs + ys| - 1] == xs + ys[..|ys| - 1];
    }
  }

  lemma {:induction false} NonZeroConcat(xs: seq<Server>, ys: seq<Server>)
    ensures NonZero(xs + ys) == NonZero(xs) + NonZero(ys)
  {
    if ys == [] {
      assert xs + ys == xs;
    } else {
      NonZeroConcat(xs, ys[..|ys| - 1]);
      assert (xs + ys)[..|xs + ys| - 1] == xs + ys[..|ys| - 1];
    }
  }

  lemma {:induction false} AvailFacts(xs: seq<Server>, avail: set<Server>)
    ensures |Avail(xs, avail)| <= |xs|
    ensures forall i :: 0 <= i < |Avail(xs, avail)| ==> Avail(xs, avail)[i] in avail && Avail(xs, avail)[i] in xs
    ensures forall i :: 0 <= i < |xs| && xs[i] in avail ==> xs[i] in Avail(xs, avail)
  {
    if xs != [] {
      AvailFacts(xs[..|xs| - 1], avail);
    }
  }

  /** Filtering counts each available server as often as the slots do, and no other. */
  lemma {:induction false} AvailCount(xs: seq<Server>, avail: set<Server>, s: Server)
    ensures multiset(Avail(xs, avail))[s] == if s in avail then multiset(xs)[s] else 0
  {
    if xs != [] {
      AvailCount(xs[..|xs| - 1], avail, s);
      assert xs == xs[..|xs| - 1] + [xs[|xs| - 1]];
    }
  }

  lemma {:induction false} ClearedNonZero(xs: seq<Server>, avail: set<Server>)
    requires INVALID_FLAG !in avail
    ensures NonZero(Cleared(xs, avail)) == Avail(xs, avail)
  {
    if xs != [] {
      ClearedNonZero(xs[..|xs| - 1], avail);
      assert Cleared(xs, avail)[..|xs| - 1] == Cleared(xs[..|xs| - 1], avail);
    }
  }

  lemma {:induction false} AllZero(xs: seq<Server>)
    requires forall i :: 0 <= i < |xs| ==> xs[i] == INVALID_FLAG
    ensures NonZero(xs) == []
  {
    if xs != [] { AllZero(xs[..|xs| - 1]); }
  }

  lemma {:induction false} NoneZero(xs: seq<Server>)
    requires forall i :: 0 <= i < |xs| ==> xs[i] != INVALID_FLAG
    ensures NonZero(xs) == xs
  {
    if xs != [] {
      NoneZero(xs[..|xs| - 1]);
      assert xs == xs[..|xs| - 1] + [xs[|xs| - 1]];
    }
  }

  // ---------------------------------------------------------------- what the repair means

  /** The repair keeps exactly the available copies of a bucket, with their multiplicity. */
  lemma QuickKeepsAvailable(col: Column, avail: set<Server>, q: Column, s: Server)
    requires QuickColumn(col, avail, q) && INVALID_FLAG !in avail
    requires s in avail
    ensures |q| == |col| && multiset(q)[s] == multiset(col)[s]
  {
    var a := Avail(col, avail);
    if a == [] {
      AvailFacts(col, avail);
      QuickDead(col, avail, q);
      DeadCount(q, avail, s);
      DeadCount(col, avail, s);
    } else {
      AvailCount(col, avail, s);
      LedCount(col, avail, q, a, s);
    }
  }

  lemma LedCount(col: Column, avail: set<Server>, q: Column, a: seq<Server>, s: Server)
    requires QuickColumn(col, avail, q) && a == Avail(col, avail) && a != [] && s != INVALID_FLAG
    ensures |q| == |col| && multiset(q)[s] == multiset(a)[s]
  {
    var i :| 0 <= i < |a| && q == [a[i]] + Padded(a[..i] + a[i + 1..], |col| - 1);
    LeaderCount(a, i, |col| - 1, s, q);
  }

  lemma DeadCount(col: Column, avail: set<Server>, s: Server)
    requires DeadColumn(col, avail) && s in avail
    ensures multiset(col)[s] == 0
  {
    assert s !in col;
  }

  lemma LeaderCount(a: seq<Server>, i: nat, n: nat, s: Server, q: Column)
    requires i < |a| <= n + 1 && s != INVALID_FLAG
    requires q == [a[i]] + Padded(a[..i] + a[i + 1..], n)
    ensures multiset(q)[s] == multiset(a)[s]
  {
    var z := Zeros(n - |a[..i] + a[i + 1..]|);
    LeaderFirst(a, i, z);
    assert s !in z;
  }

  lemma LeaderFirst(a: seq<Server>, i: nat, z: seq<Server>)
    requires i < |a|
    ensures multiset([a[i]] + (a[..i] + a[i + 1..] + z)) == multiset(a) + multiset(z)
  {
    assert a == a[..i] + [a[i]] + a[i + 1..];
  }

  /** After the repair a bucket with an available copy is led by one and holds no dead server. */
  lemma QuickMaster(col: Column, avail: set<Server>, q: Column)
    requires QuickColumn(col, avail, q) && INVALID_FLAG !in avail && !DeadColumn(col, avail)
    ensures |q| == |col| && q[0] in avail && q[0] in col && LiveColumn(q, avail)
    ensures col[0] in avail ==> q[0] == col[0]
  {
    AvailFacts(col, avail);
    var a := Avail(col, avail);
    var i :| 0 <= i < |a| && (col[0] in avail ==> i == 0)
             && q == [a[i]] + Padded(a[..i] + a[i + 1..], |col| - 1);
    if col[0] in avail { AvailHead(col, avail); }
  }

  lemma AvailHead(col: Column, avail: set<Server>)
    requires col != [] && col[0] in avail
    ensures Avail(col, avail) == [col[0]] + Avail(col[1..], avail)
  {
    AvailConcat([col[0]], col[1..], avail);
    assert col == [col[0]] + col[1..];
    assert Avail([col[0]], avail) == [col[0]];
  }

  lemma DeadAvail(col: Column, avail: set<Server>)
    requires DeadColumn(col, avail)
    ensures Avail(col, avail) == []
  {
    AvailNone(col, avail);
  }

  lemma {:induction false} AvailNone(xs: seq<Server>, avail: set<Server>)
    requires forall i :: 0 <= i < |xs| ==> xs[i] !in avail
    ensures Avail(xs, avail) == []
  {
    if xs != [] { AvailNone(xs[..|xs| - 1], avail); }
  }

  /** A bucket without available copies keeps its dead master. */
  lemma QuickDead(col: Column, avail: set<Server>, q: Column)
    requires QuickColumn(col, avail, q) && INVALID_FLAG !in avail && DeadColumn(col, avail)
    ensures |q| == |col| && q[0] == col[0] && DeadColumn(q, avail)
  {
    DeadAvail(col, avail);
    assert forall x :: x in NonZero(col[1..]) ==> x in col[1..];
  }

  /** The slaves of a repaired bucket are closed up: no occupied slot follows an empty one. */
  lemma QuickPrefix(col: Column, avail: set<Server>, q: Column, i: nat, j: nat)
    requires QuickColumn(col, avail, q) && INVALID_FLAG !in avail
    requires 1 <= i < j < |q| && q[j] != INVALID_FLAG
    ensures q[i] != INVALID_FLAG
  {
    AvailFacts(col, avail);
  }

  /** Distinct servers stay distinct. */
  lemma QuickDistinct(col: Column, avail: set<Server>, q: Column)
    requires QuickColumn(col, avail, q) && INVALID_FLAG !in avail && Distinct(col)
    ensures Distinct(q)
  {
    var a := Avail(col, avail);
    if a == [] {
      ClosedDistinct(col, q);
    } else {
      var i :| 0 <= i < |a| && q == [a[i]] + Padded(a[..i] + a[i + 1..], |col| - 1);
      LedDistinct(col, avail, a, i, q);
    }
  }

  lemma LedDistinct(col: Column, avail: set<Server>, a: seq<Server>, i: nat, q: Column)
    requires Distinct(col) && INVALID_FLAG !in avail && a == Avail(col, avail)
    requires i < |a| <= |col| && q == [a[i]] + Padded(a[..i] + a[i + 1..], |col| - 1)
    ensures Distinct(q)
  {
    AvailDistinct(col, avail);
    AvailFacts(col, avail);
    LeaderDistinct(a, i, |col| - 1, q);
  }

  lemma ClosedDistinct(col: Column, q: Column)
    requires col != [] && Distinct(col) && q == [col[0]] + Padded(NonZero(col[1..]), |col| - 1)
    ensures Distinct(q)
  {
    NonZeroDistinct(col[1..]);
    var z := NonZero(col[1..]);
    forall k | 0 <= k < |z| ensures col[0] != INVALID_FLAG ==> z[k] != col[0] {
      assert z[k] in col[1..];
    }
  }

  lemma LeaderDistinct(a: seq<Server>, i: nat, n: nat, q: Column)
    requires Distinct(a) && INVALID_FLAG !in a && i < |a| <= n + 1 && q == [a[i]] + Padded(a[..i] + a[i + 1..], n)
    ensures Distinct(q)
  {
  }

  lemma {:induction false} NonZeroDistinct(xs: seq<Server>)
    requires Distinct(xs)
    ensures Distinct(NonZero(xs))
  {
    if xs != [] { NonZeroDistinct(xs[..|xs| - 1]); }
  }

  lemma {:induction false} AvailDistinct(xs: seq<Server>, avail: set<Server>)
    requires Distinct(xs) && INVALID_FLAG !in avail
    ensures Distinct(Avail(xs, avail))
  {
    if xs != [] {
      AvailDistinct(xs[..|xs| - 1], avail);
      AvailFacts(xs[..|xs| - 1], avail);
    }
  }

  // ---------------------------------------------------------------- the three passes on one column

  /** A former slave leads and leaves its own slot empty. */
  function Promoted(col: Column, k: nat): (r: Column)
    requires 0 < k < |col|
  {
    col[0 := col[k]][k := INVALID_FLAG]
  }

  /** The column after the master pass. */
  ghost predicate Led(col: Column, avail: set<Server>, c: Column) {
    && col != []
    && if col[0] in avail || DeadColumn(col, avail) then c == col
       else exists k :: 0 < k < |col| && col[k] in avail && c == Promoted(col, k)
  }

  /** The column after the clearing pass. */
  function Swept(c: Column, avail: set<Server>): (r: Column)
    requires c != []
  {
    if c[0] in avail then [c[0]] + Cleared(c[1..], avail) else c
  }

  function Closed(c: Column): (r: Column)
    requires c != []
  {
    [c[0]] + Padded(NonZero(c[1..]), |c| - 1)
  }

  lemma PromotedAvail(col: Column, k: nat, avail: set<Server>) returns (i: nat)
    requires 0 < k < |col| && col[k] in avail && col[0] !in avail && INVALID_FLAG !in avail
    ensures i < |Avail(col, avail)| && Avail(col, avail)[i] == col[k]
    ensures Avail(Promoted(col, k)[1..], avail) == Avail(col, avail)[..i] + Avail(col, avail)[i + 1..]
  {
    var x, y := col[1..k], col[k + 1..];
    assert col == [col[0]] + (x + ([col[k]] + y));
    AvailDead(col[0], x + ([col[k]] + y), avail);
    AvailAround(x, col[k], y, avail);
    assert Promoted(col, k)[1..] == x + ([INVALID_FLAG] + y);
    AvailAround(x, INVALID_FLAG, y, avail);
    i := |Avail(x, avail)|;
    assert Avail(col, avail) == Avail(x, avail) + [col[k]] + Avail(y, avail);
  }

  lemma AvailDead(s: Server, xs: seq<Server>, avail: set<Server>)
    requires s !in avail
    ensures Avail([s] + xs, avail) == Avail(xs, avail)
  {
    AvailConcat([s], xs, avail);
    assert Avail([s], avail) == [];
  }

  lemma AvailAround(x: seq<Server>, s: Server, y: seq<Server>, avail: set<Server>)
    ensures Avail(x + ([s] + y), avail) == Avail(x, avail) + (if s in avail then [s] else []) + Avail(y, avail)
  {
    AvailConcat(x, [s] + y, avail);
    AvailConcat([s], y, avail);
    assert Avail([s], avail) == if s in avail then [s] else [];
  }

  lemma LedPasses(col: Column, avail: set<Server>)
    requires col != [] && col[0] in avail && INVALID_FLAG !in avail
    ensures QuickColumn(col, avail, Closed(Swept(col, avail)))
  {
    AvailFacts(col, avail);
    var a := Avail(col, avail);
    AvailHead(col, avail);
    ClearedNonZero(col[1..], avail);
    assert Swept(col, avail)[1..] == Cleared(col[1..], avail);
    assert a[..0] + a[0 + 1..] == Avail(col[1..], avail);
    assert Closed(Swept(col, avail)) == [a[0]] + Padded(a[..0] + a[0 + 1..], |col| - 1);
  }

  lemma PromotedPasses(col: Column, avail: set<Server>, k: nat)
    requires 0 < k < |col| && col[k] in avail && col[0] !in avail && INVALID_FLAG !in avail
    ensures QuickColumn(col, avail, Closed(Swept(Promoted(col, k), avail)))
  {
    AvailFacts(col, avail);
    var a := Avail(col, avail);
    var c := Promoted(col, k);
    var i := PromotedAvail(col, k, avail);
    ClearedNonZero(c[1..], avail);
    assert Swept(c, avail)[1..] == Cleared(c[1..], avail);
    assert Closed(Swept(c, avail)) == [a[i]] + Padded(a[..i] + a[i + 1..], |col| - 1);
  }

  /** The three passes together repair a column. */
  lemma PassesRepair(col: Column, avail: set<Server>, c: Column)
    requires Led(col, avail, c) && INVALID_FLAG !in avail
    ensures QuickColumn(col, avail, Closed(Swept(c, avail)))
  {
    if col[0] in avail {
      LedPasses(col, avail);
    } else if DeadColumn(col, avail) {
      DeadAvail(col, avail);
    } else {
      var k :| 0 < k < |col| && col[k] in avail && c == Promoted(col, k);
      PromotedPasses(col, avail, k);
    }
  }
}
