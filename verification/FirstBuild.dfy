/**
 How the first build spreads the slaves: slot by slot, each goes to a server that has the fewest
 copies so far of all servers not yet in the bucket.
 */
module FirstBuild {
  import opened Placement

  /** The first `p` slots of a bucket, the others empty. */
  function Begun(col: Column, p: nat): (r: Column)
    ensures |r| == |col|
  {
    seq(|col|, q requires 0 <= q < |col| => if q < p then col[q] else INVALID_FLAG)
  }

  /** The table when all masters, the slaves of the buckets before `b` and the first `p` slots of `b` are placed. */
  function Part(t: Table, b: nat, p: nat): (r: Table)
    ensures |r| == |t|
  {
    seq(|t|, c requires 0 <= c < |t| => if c < b then t[c] else if c == b then Begun(t[c], p) else Begun(t[c], 1))
  }

  /** The server in the slot had the fewest copies of all that were free for the bucket. */
  ghost predicate GreedyAt(t: Table, avail: set<Server>, b: nat, p: nat) {
    b < |t| && 0 < p < |t[b]| ==>
      forall x :: x in avail && x !in t[b][..p] ==> Copies(Part(t, b, p), t[b][p]) <= Copies(Part(t, b, p), x)
  }

  ghost predicate Greedy(t: Table, avail: set<Server>, n: nat) {
    forall b: nat, p: nat {:trigger GreedyAt(t, avail, b, p)} :: b < n ==> GreedyAt(t, avail, b, p)
  }

  /** From bucket `n` on there are no slaves. */
  ghost predicate Bare(t: Table, n: nat) {
    forall b {:trigger BareColumn(t[b])} :: n <= b < |t| ==> BareColumn(t[b])
  }

  ghost predicate BareColumn(col: Column) {
    forall q :: 0 < q < |col| ==> col[q] == INVALID_FLAG
  }

  /** Slot `p` of bucket `i`, empty in `t`, went to a server with the fewest copies, counting the slots before it. */
  ghost predicate LeastAt(t: Table, col: Column, avail: set<Server>, i: nat, p: nat) {
    && i < |t| && |col| == |t[i]| && p < |col|
    && var u := t[i := col[..p] + t[i][p..]];
       forall x :: x in avail && CheckNodeOk(x, u[i], p) ==> Copies(u, col[p]) <= Copies(u, x)
  }

  lemma PartSame(t: Table, u: Table, b: nat, p: nat)
    requires |t| == |u| && forall c :: 0 <= c < |t| ==> |t[c]| == |u[c]| > 0 && t[c][0] == u[c][0]
    requires b < |t| && 0 < p <= |t[b]| && t[..b] == u[..b] && t[b][..p] == u[b][..p]
    ensures Part(t, b, p) == Part(u, b, p)
  {
    forall c | 0 <= c < |t| ensures Part(t, b, p)[c] == Part(u, b, p)[c] {
      if c < b { assert t[..b][c] == u[..b][c]; }
      if c == b { assert forall q :: 0 <= q < p ==> t[b][..p][q] == u[b][..p][q]; }
    }
  }

  /** What comes later does not matter. */
  lemma GreedySame(t: Table, u: Table, avail: set<Server>, b: nat, p: nat)
    requires GreedyAt(t, avail, b, p)
    requires |t| == |u| && forall c :: 0 <= c < |t| ==> |t[c]| == |u[c]| > 0 && t[c][0] == u[c][0]
    requires b < |t| && forall c :: 0 <= c <= b ==> t[c] == u[c]
    ensures GreedyAt(u, avail, b, p)
  {
    if 0 < p < |t[b]| {
      assert t[..b] == u[..b];
      PartSame(t, u, b, p);
    }
  }

  lemma PartIs(was: Table, t: Table, i: nat, p: nat)
    requires i < |was| == |t| && Bare(was, i) && (forall c :: 0 <= c < |t| && c != i ==> t[c] == was[c])
    requires (forall c :: 0 <= c < |t| ==> t[c] != []) && |t[i]| == |was[i]| && 0 < p < |t[i]|
    ensures Part(t, i, p) == was[i := t[i][..p] + was[i][p..]]
  {
    var u := was[i := t[i][..p] + was[i][p..]];
    forall c | 0 <= c < |t| ensures Part(t, i, p)[c] == u[c] {
      if c > i {
        assert BareColumn(was[c]);
        assert Begun(t[c], 1) == was[c];
      }
      if c == i { assert BareColumn(was[i]); }
    }
  }

  /** The slaves of one more bucket. */
  lemma GreedyMore(was: Table, t: Table, avail: set<Server>, i: nat)
    requires Bare(was, i) && Greedy(was, avail, i) && i < |was| == |t| && INVALID_FLAG !in avail
    requires forall c :: 0 <= c < |t| && c != i ==> t[c] == was[c]
    requires forall c :: 0 <= c < |t| ==> |t[c]| == |was[c]| > 0 && t[c][0] == was[c][0]
    requires forall p :: 0 < p < |t[i]| ==> LeastAt(was, t[i], avail, i, p)
    ensures Bare(t, i + 1) && Greedy(t, avail, i + 1)
  {
    forall b | i + 1 <= b < |t| ensures BareColumn(t[b]) { assert BareColumn(was[b]); }
    forall b: nat, p: nat | b < i + 1 ensures GreedyAt(t, avail, b, p) {
      if b < i {
        assert GreedyAt(was, avail, b, p);
        GreedySame(was, t, avail, b, p);
      } else if 0 < p < |t[i]| {
        GreedyHere(was, t, avail, i, p);
      }
    }
  }

  lemma GreedyHere(was: Table, t: Table, avail: set<Server>, i: nat, p: nat)
    requires i < |was| == |t| && INVALID_FLAG !in avail && Bare(was, i)
    requires forall c :: 0 <= c < |t| && c != i ==> t[c] == was[c]
    requires (forall c :: 0 <= c < |t| ==> t[c] != []) && |t[i]| == |was[i]| && 0 < p < |t[i]|
    requires LeastAt(was, t[i], avail, i, p)
    ensures GreedyAt(t, avail, i, p)
  {
    PartIs(was, t, i, p);
    assert BareColumn(was[i]);
    var col := t[i][..p] + was[i][p..];
    forall x | x in avail && x !in t[i][..p] ensures CheckNodeOk(x, col, p) {
      forall q | 0 <= q < |col| && q != p ensures col[q] != x {
        if q < p { assert col[q] == t[i][..p][q]; } else { assert col[q] == was[i][q]; }
      }
    }
  }
}
