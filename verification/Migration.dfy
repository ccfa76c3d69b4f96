/**
 The migration state machine of the meta server: the table in use (h), the table that the
 servers are moving through (m), the table they move to (d), the work left per server and the
 number of buckets left.
 */
module Migration {
  import opened Placement

  datatype Versions = Versions(client: nat, server: nat, capacity: nat)

  datatype Sys = Sys(
    h: Table, m: Table, d: Table,
    machine: map<Server, int>,           // buckets that each server still has to move
    blocks: int,                         // buckets still to move, -1 when there is no migration
    versions: Versions)

  // ---------------------------------------------------------------- planning

  /** The bucket has to move: its masters differ or some new slave is not among the old ones. */
  predicate Moves(mc: Column, dc: Column) {
    && mc != [] && mc[0] != INVALID_FLAG
    && (mc[0] != Master(dc) || exists j :: 1 <= j < |dc| && dc[j] !in mc[1..])
  }

  function Master(col: Column): (s: Server) {
    if col == [] then INVALID_FLAG else col[0]
  }

  function Tally(machine: map<Server, int>, s: Server): (n: int) {
    if s in machine then machine[s] else 0
  }

  /** The work per server for the first `n` buckets. */
  function Planned(m: Table, d: Table, n: nat): (machine: map<Server, int>)
    requires n <= |m| && n <= |d|
  {
    if n == 0 then map[]
    else
      var p := Planned(m, d, n - 1);
      var s := Master(m[n - 1]);
      if Moves(m[n - 1], d[n - 1]) then p[s := Tally(p, s) + 1] else p
  }

  function PlannedCount(m: Table, d: Table, n: nat): (count: nat)
    requires n <= |m| && n <= |d|
  {
    if n == 0 then 0 else PlannedCount(m, d, n - 1) + if Moves(m[n - 1], d[n - 1]) then 1 else 0
  }

  // ---------------------------------------------------------------- what is left to do

  /** Number of buckets among the first `n` that `s` masters and that differ from their target. */
  ghost function Work(m: Table, d: Table, s: Server, n: nat): (k: nat)
    requires n <= |m| && n <= |d|
  {
    if n == 0 then 0
    else Work(m, d, s, n - 1) + if m[n - 1] != d[n - 1] && Master(m[n - 1]) == s then 1 else 0
  }

  ghost function Diffs(m: Table, d: Table, n: nat): (k: nat)
    requires n <= |m| && n <= |d|
  {
    if n == 0 then 0 else Diffs(m, d, n - 1) + if m[n - 1] != d[n - 1] then 1 else 0
  }

  /** Whatever differs has been recognised as differing. */
  ghost predicate ExactAt(m: Table, d: Table, b: nat) {
    b < |m| && b < |d| && (m[b] != d[b] ==> Moves(m[b], d[b]))
  }

  ghost predicate Exact(m: Table, d: Table) {
    forall b {:trigger ExactAt(m, d, b)} :: 0 <= b < |m| ==> ExactAt(m, d, b)
  }

  // ---------------------------------------------------------------- planning against the work

  /** The plan counts only buckets that differ. */
  lemma MovesDiffer(mc: Column, dc: Column)
    requires Moves(mc, dc) && |mc| == |dc|
    ensures mc != dc
  {
    if mc[0] == Master(dc) {
      var j :| 1 <= j < |dc| && dc[j] !in mc[1..];
      assert mc[1..][j - 1] == mc[j];
      assert mc[j] != dc[j];
    }
  }

  lemma {:induction false} PlannedWork(m: Table, d: Table, s: Server, n: nat)
    requires |m| == |d| && n <= |m| && s != INVALID_FLAG
    requires forall b :: 0 <= b < |m| ==> |m[b]| == |d[b]|
    ensures Tally(Planned(m, d, n), s) <= Work(m, d, s, n)
    ensures Exact(m, d) ==> Tally(Planned(m, d, n), s) == Work(m, d, s, n)
    ensures s in Planned(m, d, n) ==> Planned(m, d, n)[s] > 0
  {
    if n > 0 {
      PlannedWork(m, d, s, n - 1);
      if Moves(m[n - 1], d[n - 1]) { MovesDiffer(m[n - 1], d[n - 1]); }
      if Exact(m, d) { assert ExactAt(m, d, n - 1); }
    }
  }

  lemma {:induction false} PlannedKeys(m: Table, d: Table, n: nat)
    requires n <= |m| && n <= |d|
    ensures INVALID_FLAG !in Planned(m, d, n)
  {
    if n > 0 { PlannedKeys(m, d, n - 1); }
  }

  lemma {:induction false} PlannedDiffs(m: Table, d: Table, n: nat)
    requires |m| == |d| && n <= |m|
    requires forall b :: 0 <= b < |m| ==> |m[b]| == |d[b]|
    ensures PlannedCount(m, d, n) <= Diffs(m, d, n)
    ensures Exact(m, d) ==> PlannedCount(m, d, n) == Diffs(m, d, n)
  {
    if n > 0 {
      PlannedDiffs(m, d, n - 1);
      if Moves(m[n - 1], d[n - 1]) { MovesDiffer(m[n - 1], d[n - 1]); }
      if Exact(m, d) { assert ExactAt(m, d, n - 1); }
    }
  }

  lemma {:induction false} NoDiffs(m: Table, d: Table, n: nat)
    requires |m| == |d| && n <= |m|
    ensures Diffs(m, d, n) == 0 <==> forall b :: 0 <= b < n ==> m[b] == d[b]
  {
    if n > 0 { NoDiffs(m, d, n - 1); }
  }

  lemma {:induction false} WorkSome(m: Table, d: Table, n: nat, b: nat)
    requires |m| == |d| && b < n <= |m| && m[b] != d[b]
    ensures Work(m, d, Master(m[b]), n) > 0 && Diffs(m, d, n) > 0
  {
    if b < n - 1 { WorkSome(m, d, n - 1, b); }
  }

  lemma {:induction false} SameWork(m: Table, s: Server, n: nat)
    requires n <= |m|
    ensures Work(m, m, s, n) == 0 && Diffs(m, m, n) == 0
  {
    if n > 0 { SameWork(m, s, n - 1); }
  }

  /** Moving one bucket to its target takes it out of the work of its master and of nobody else. */
  lemma {:induction false} WorkUpdate(m: Table, d: Table, b: nat, s: Server, n: nat)
    requires |m| == |d| && b < |m| && n <= |m|
    ensures var u := m[b := d[b]];
            Work(u, d, s, n) == Work(m, d, s, n) - if b < n && m[b] != d[b] && Master(m[b]) == s then 1 else 0
    ensures var u := m[b := d[b]];
            Diffs(u, d, n) == Diffs(m, d, n) - if b < n && m[b] != d[b] then 1 else 0
  {
    if n > 0 { WorkUpdate(m, d, b, s, n - 1); }
  }

  /**
   The plan covers the work of every server exactly when comparing slaves as a set finds every
   bucket whose slaves differ by position.
   */
  lemma PlanCovers(m: Table, d: Table)
    requires |m| == |d| && forall b :: 0 <= b < |m| ==> |m[b]| == |d[b]| && Master(m[b]) != INVALID_FLAG
    ensures (forall s :: s != INVALID_FLAG ==> Tally(Planned(m, d, |m|), s) >= Work(m, d, s, |m|)) <==> Exact(m, d)
  {
    if Exact(m, d) {
      forall s | s != INVALID_FLAG ensures Tally(Planned(m, d, |m|), s) >= Work(m, d, s, |m|) {
        PlannedWork(m, d, s, |m|);
      }
    } else {
      var b :| 0 <= b < |m| && !ExactAt(m, d, b);
      PlanMisses(m, d, b, |m|);
    }
  }

  lemma {:induction false} PlanMisses(m: Table, d: Table, b: nat, n: nat)
    requires |m| == |d| && b < n <= |m| && !ExactAt(m, d, b) && Master(m[b]) != INVALID_FLAG
    requires forall b :: 0 <= b < |m| ==> |m[b]| == |d[b]|
    ensures Tally(Planned(m, d, n), Master(m[b])) < Work(m, d, Master(m[b]), n)
  {
    if b < n - 1 {
      PlanMisses(m, d, b, n - 1);
      if Moves(m[n - 1], d[n - 1]) { MovesDiffer(m[n - 1], d[n - 1]); }
    } else {
      PlannedWork(m, d, Master(m[b]), n - 1);
    }
  }

  /** With at most two copies nothing is missed. */
  lemma TwoCopiesExact(m: Table, d: Table, copies: nat)
    requires |m| == |d| && copies <= 2
    requires forall b :: 0 <= b < |m| ==> |m[b]| == |d[b]| == copies && Master(m[b]) != INVALID_FLAG
    ensures Exact(m, d)
  {
    forall b | 0 <= b < |m| ensures ExactAt(m, d, b) {
      if m[b] != d[b] && m[b][0] == d[b][0] {
        assert m[b] == [m[b][0], m[b][1]] && d[b] == [d[b][0], d[b][1]];
        assert m[b][1..] == [m[b][1]] && d[b][1] !in m[b][1..];
      }
    }
  }

  /** With three copies two exchanged slaves are missed: the plan is empty and the tables differ. */
  lemma ThreeCopiesMissed()
    ensures var m, d := [[1, 2, 3]], [[1, 3, 2]];
            m != d && Planned(m, d, 1) == map[] && PlannedCount(m, d, 1) == 0 && Work(m, d, 1, 1) == 1
  {
    var m, d := [[1, 2, 3]], [[1, 3, 2]];
    assert m[0][1..] == [2, 3];
    assert d[0] == [1, 3, 2] && !Moves(m[0], d[0]) && m[0][1] != d[0][1];
    assert Planned(m, d, 0) == map[] && Work(m, d, 1, 0) == 0;
  }
}
