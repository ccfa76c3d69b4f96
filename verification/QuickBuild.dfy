/**
 The loops that repair the routing table in place.
 */
module QuickBuild {
  import opened Placement
  import opened QuickTable

  function Tokens(m: Counts, s: Server): (n: int) {
    if s in m then m[s] else 0
  }

  lemma {:induction false} TailZero(xs: seq<Server>, j: nat)
    requires j <= |xs| && forall k :: j <= k < |xs| ==> xs[k] == INVALID_FLAG
    ensures NonZero(xs) == NonZero(xs[..j])
  {
    if j < |xs| {
      TailZero(xs[..|xs| - 1], j);
      assert xs[..|xs| - 1][..j] == xs[..j];
    } else {
      assert xs[..j] == xs;
    }
  }

  /** Moving the first occupied slot behind an empty one forward keeps the occupied slots in order. */
  lemma {:induction false} MoveUp(xs: seq<Server>, j: nat, n: nat)
    requires j < n < |xs| && xs[n] != INVALID_FLAG
    requires forall k :: j <= k < n ==> xs[k] == INVALID_FLAG
    ensures NonZero(xs[j := xs[n]][n := INVALID_FLAG]) == NonZero(xs)
  {
    var ys := xs[j := xs[n]][n := INVALID_FLAG];
    var last := |xs| - 1;
    if n < last {
      MoveUp(xs[..last], j, n);
      assert ys[..last] == xs[..last][j := xs[n]][n := INVALID_FLAG];
    } else {
      MoveLast(xs, j, ys);
    }
  }

  lemma MoveLast(xs: seq<Server>, j: nat, ys: seq<Server>)
    requires j < |xs| - 1 && xs[|xs| - 1] != INVALID_FLAG
    requires forall k :: j <= k < |xs| - 1 ==> xs[k] == INVALID_FLAG
    requires ys == xs[j := xs[|xs| - 1]][|xs| - 1 := INVALID_FLAG]
    ensures NonZero(ys) == NonZero(xs)
  {
    var last := |xs| - 1;
    assert NonZero(xs) == NonZero(xs[..j]) + [xs[last]] by {
      TailZero(xs[..last], j);
      assert xs[..last][..j] == xs[..j];
    }
    assert NonZero(ys) == NonZero(ys[..j + 1]) by { TailZero(ys, j + 1); }
    assert ys[..j + 1][..j] == xs[..j] && ys[..j + 1][j] == xs[last];
  }

  /** A column whose slaves are occupied up to `full` and empty from there on is closed up. */
  lemma ClosedShape(c: Column, full: nat)
    requires 1 <= full <= |c|
    requires forall k :: 1 <= k < full ==> c[k] != INVALID_FLAG
    requires forall k :: full <= k < |c| ==> c[k] == INVALID_FLAG
    ensures c == Closed(c)
  {
    var x, z := c[1..full], c[full..];
    assert c[1..] == x + z;
    NonZeroConcat(x, z);
    NoneZero(x);
    AllZero(z);
    assert z == Zeros(|z|);
  }

  /** First occupied slot at or behind `from`, or the length of the column. */
  method NextOccupied(c: Column, from: nat) returns (n: nat)
    requires from <= |c|
    ensures from <= n <= |c| && (n < |c| ==> c[n] != INVALID_FLAG)
    ensures forall k :: from <= k < n ==> c[k] == INVALID_FLAG
  {
    n := from;
    while n < |c| && c[n] == INVALID_FLAG
      invariant from <= n <= |c|
      invariant forall k :: from <= k < n ==> c[k] == INVALID_FLAG
    {
      n := n + 1;
    }
  }

  /** Close up the slaves of one bucket. */
  method CloseUp(c: Column) returns (r: Column)
    requires c != []
    ensures r == Closed(c)
  {
    r := c;
    ghost var full := 1;
    for j := 1 to |c|
      invariant |r| == |c| && r[0] == c[0]
      invariant NonZero(r[1..]) == NonZero(c[1..])
      invariant 1 <= full <= j
      invariant forall k :: 1 <= k < full ==> r[k] != INVALID_FLAG
      invariant full < j ==> forall k :: full <= k < |r| ==> r[k] == INVALID_FLAG
    {
      if r[j] == INVALID_FLAG {
        var n := NextOccupied(r, j + 1);
        if n < |r| {
          MoveUp(r[1..], j - 1, n - 1);
          ghost var was := r;
          r := r[j := r[n]][n := INVALID_FLAG];
          assert r[1..] == was[1..][j - 1 := was[1..][n - 1]][n - 1 := INVALID_FLAG];
          full := j + 1;
        }
      } else {
        full := j + 1;
      }
    }
    ClosedShape(r, full);
  }

  /** The clearing pass, done for the slots before `n`. */
  function SweptTo(c: Column, avail: set<Server>, n: nat): (r: Column)
    requires c != []
  {
    seq(|c|, i requires 0 <= i < |c| =>
      if c[0] in avail && 1 <= i < n && c[i] !in avail then INVALID_FLAG else c[i])
  }

  lemma SweptToEnds(c: Column, avail: set<Server>)
    requires c != []
    ensures SweptTo(c, avail, 1) == c && SweptTo(c, avail, |c|) == Swept(c, avail)
  {
  }

  /** Empty the dead slaves of every bucket with an available master, row by row. */
  method ClearDead(avail: set<Server>, copies: nat, dest: Table) returns (r: Table)
    requires 0 < copies && Shaped(dest, copies)
    ensures |r| == |dest|
    ensures forall b :: 0 <= b < |r| ==> dest[b] != [] && r[b] == Swept(dest[b], avail)
  {
    r := dest;
    forall b | 0 <= b < |dest| ensures dest[b] == SweptTo(dest[b], avail, 1) { SweptToEnds(dest[b], avail); }
    for line := 1 to copies
      invariant |r| == |dest|
      invariant forall b :: 0 <= b < |r| ==> r[b] == SweptTo(dest[b], avail, line)
    {
      for idx := 0 to |r|
        invariant |r| == |dest|
        invariant forall b :: 0 <= b < |r| ==> r[b] == SweptTo(dest[b], avail, if b < idx then line + 1 else line)
      {
        if r[idx][0] in avail && r[idx][line] !in avail {
          r := SetSlot(r, idx, line, INVALID_FLAG);
        }
        assert r[idx] == SweptTo(dest[idx], avail, line + 1);
      }
    }
    forall b | 0 <= b < |r| ensures r[b] == Swept(dest[b], avail) { SweptToEnds(dest[b], avail); }
  }
}
