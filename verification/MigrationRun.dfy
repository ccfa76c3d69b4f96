/**
 The operations of the meta server on its migration state, and what every run of them keeps.
 */
module MigrationRun {
  import opened Common
  import opened Placement
  import opened Migration

  const MIN_VERSION := 10

  // ---------------------------------------------------------------- operations

  /** A version moves by one, wraps at 32 bits and never falls below the least version. */
  function Bump(v: nat): (r: nat) {
    var w := (v + 1) % UINT32;
    if MIN_VERSION > w then MIN_VERSION else w
  }

  function Announce(v: Versions): (r: Versions) {
    v.(client := Bump(v.client), server := Bump(v.server))
  }

  function AnnounceAll(v: Versions): (r: Versions) {
    Announce(v).(capacity := Bump(v.capacity))
  }

  /** A freshly created table. */
  function Created(buckets: nat, copies: nat): (s: Sys) {
    var t := seq(buckets, _ => seq(copies, _ => INVALID_FLAG));
    Sys(t, t, t, map[], -1, Versions(1, 1, 1))
  }

  predicate Blank(t: Table) {
    forall b :: 0 <= b < |t| ==> BlankColumn(t[b])
  }

  predicate BlankColumn(col: Column) {
    forall p :: 0 <= p < |col| ==> col[p] == INVALID_FLAG
  }

  /** With a single copy, a bucket on a dead server goes to its target at once. */
  function Taken(m: Table, d: Table, copies: nat, up: set<Server>): (r: Table)
    requires |m| == |d|
    ensures |r| == |m|
  {
    seq(|m|, b requires 0 <= b < |m| => if copies <= 1 && Master(m[b]) !in up then d[b] else m[b])
  }

  /** The tables change: the first time at once, later by a planned migration. */
  function Rebuild(s: Sys, copies: nat, up: set<Server>, quick: Table, dest: Table): (r: Sys)
    requires |s.m| == |quick| == |dest|
  {
    if Blank(s.m) then
      s.(h := dest, m := dest, d := dest, blocks := -1, versions := AnnounceAll(s.versions))
    else
      var m := Taken(quick, dest, copies, up);
      var count := PlannedCount(m, dest, |m|);
      Sys(m, m, dest, Planned(m, dest, |m|), if count > 0 then count else -1, AnnounceAll(s.versions))
  }

  /** A server went down: repair in place, without a migration. */
  function QuickRebuild(s: Sys, quick: Table): (r: Sys) {
    s.(h := quick, m := quick, d := quick, versions := AnnounceAll(s.versions))
  }

  /** A server reports that bucket `b` has moved. */
  function Finish(s: Sys, server: Server, version: nat, b: int): (r: Sys)
    requires |s.m| == |s.d|
  {
    if version != s.versions.server || !(0 <= b < |s.m|) || s.blocks == -1 || Master(s.m[b]) != server then s
    else if s.m[b] == s.d[b] then s
    else
      s.(m := s.m[b := s.d[b]], blocks := s.blocks - 1, machine := Less(s.machine, server))
  }

  /** One bucket less for a server; with none left its entry goes. */
  function Less(machine: map<Server, int>, server: Server): (r: map<Server, int>) {
    if server !in machine then machine
    else if machine[server] == 1 then machine - {server}
    else machine[server := machine[server] - 1]
  }

  function Check(s: Sys): (r: Sys) {
    if s.blocks == -1 || s.machine != map[] then s
    else s.(h := s.d, blocks := -1, versions := Announce(s.versions))
  }

  function HardCheck(s: Sys): (r: Sys) {
    if s.m == s.d then s.(machine := map[]) else s
  }

  /** The tables and the counters are in a file; the work per server is not. */
  function Restart(s: Sys): (r: Sys)
    requires |s.m| == |s.d|
  {
    s.(machine := if s.blocks > 0 then Planned(s.m, s.d, |s.m|) else map[])
  }

  // ---------------------------------------------------------------- the invariant

  ghost predicate Led(t: Table) {
    forall b {:trigger t[b]} :: 0 <= b < |t| ==> Master(t[b]) != INVALID_FLAG
  }

  /** Same shape, and either nothing is placed yet or every bucket has a master. */
  ghost predicate Shape(s: Sys, copies: nat) {
    && 0 < copies && |s.h| == |s.m| == |s.d| && Shaped(s.m, copies) && Shaped(s.d, copies)
    && ((Blank(s.m) && s.h == s.m == s.d) || (Led(s.m) && Led(s.d)))
  }

  ghost predicate Covered(s: Sys)
    requires |s.m| == |s.d|
  {
    forall x {:trigger Work(s.m, s.d, x, |s.m|)} :: x != INVALID_FLAG ==> Tally(s.machine, x) >= Work(s.m, s.d, x, |s.m|)
  }

  /** Each bucket is where clients look for it, or at its target already. */
  ghost predicate Found(s: Sys)
    requires |s.h| == |s.m| == |s.d|
  {
    forall b {:trigger s.m[b]} :: 0 <= b < |s.m| ==> s.m[b] == s.h[b] || s.m[b] == s.d[b]
  }

  ghost predicate Inv(s: Sys, copies: nat) {
    && Shape(s, copies) && Exact(s.m, s.d) && Found(s)
    && -1 <= s.blocks
    && (s.blocks == -1 ==> s.h == s.m == s.d)
    && (s.blocks != -1 ==> Diffs(s.m, s.d, |s.m|) <= s.blocks)
    && Covered(s)
    && forall x :: x in s.machine ==> s.machine[x] > 0
  }

  /** The assertion of the completion check. */
  ghost predicate CheckSafe(s: Sys) {
    s.blocks != -1 && s.machine == map[] ==> s.m == s.d
  }

  // ---------------------------------------------------------------- every step keeps the invariant

  lemma SettledKeeps(s: Sys, copies: nat)
    requires Shape(s, copies) && s.h == s.m == s.d && -1 <= s.blocks
    requires forall x :: x in s.machine ==> s.machine[x] > 0
    ensures Inv(s, copies)
  {
    forall b | 0 <= b < |s.m| ensures ExactAt(s.m, s.d, b) {}
    forall x ensures Work(s.m, s.d, x, |s.m|) == 0 { SameWork(s.m, x, |s.m|); }
    SameWork(s.m, INVALID_FLAG, |s.m|);
  }

  lemma CreatedKeeps(buckets: nat, copies: nat)
    requires 0 < copies
    ensures var s := Created(buckets, copies);
            Inv(s, copies) && |s.m| == buckets && Blank(s.m) && s.blocks == -1 && s.machine == map[]
  {
    SettledKeeps(Created(buckets, copies), copies);
  }

  /** What the table builder promises about a table that it repaired or rebuilt. */
  ghost predicate Built(s: Sys, copies: nat, quick: Table, dest: Table) {
    && |quick| == |dest| == |s.m| && Shaped(dest, copies) && Led(dest)
    && (!Blank(s.m) ==> Shaped(quick, copies) && Led(quick))
  }

  lemma RebuildKeeps(s: Sys, copies: nat, up: set<Server>, quick: Table, dest: Table)
    requires Inv(s, copies) && Built(s, copies, quick, dest)
    requires var r := Rebuild(s, copies, up, quick, dest); Exact(r.m, r.d)
    ensures Inv(Rebuild(s, copies, up, quick, dest), copies)
  {
    var r := Rebuild(s, copies, up, quick, dest);
    if Blank(s.m) {
      SettledKeeps(r, copies);
    } else {
      PlannedDiffs(r.m, r.d, |r.m|);
      NoDiffs(r.m, r.d, |r.m|);
      PlannedKeys(r.m, r.d, |r.m|);
      forall x | x != INVALID_FLAG
        ensures Tally(r.machine, x) >= Work(r.m, r.d, x, |r.m|) && (x in r.machine ==> r.machine[x] > 0)
      {
        PlannedWork(r.m, r.d, x, |r.m|);
      }
    }
  }

  lemma QuickKeeps(s: Sys, copies: nat, quick: Table)
    requires Inv(s, copies) && |quick| == |s.m| && Shaped(quick, copies)
    requires if Blank(s.m) then quick == s.m else Led(quick)
    ensures Inv(QuickRebuild(s, quick), copies)
  {
    SettledKeeps(QuickRebuild(s, quick), copies);
  }

  lemma FinishKeeps(s: Sys, copies: nat, server: Server, version: nat, b: int)
    requires Inv(s, copies)
    ensures Inv(Finish(s, server, version, b), copies)
  {
    var r := Finish(s, server, version, b);
    if r != s {
      assert 0 <= b < |s.m| && s.m[b] != s.d[b] && server == Master(s.m[b]);
      FinishCounts(s, copies, b);
      forall i | 0 <= i < |r.m| ensures ExactAt(r.m, r.d, i) { assert ExactAt(s.m, s.d, i); }
    }
  }

  /** A report that changes the table finds the server in the plan, and the counts stay ahead. */
  lemma FinishCounts(s: Sys, copies: nat, b: nat)
    requires Inv(s, copies) && s.blocks != -1 && b < |s.m| && s.m[b] != s.d[b]
    ensures Master(s.m[b]) in s.machine && 0 < s.blocks
    ensures var u, less := s.m[b := s.d[b]], Less(s.machine, Master(s.m[b]));
            && Diffs(u, s.d, |u|) <= s.blocks - 1
            && forall x :: x != INVALID_FLAG ==> Tally(less, x) >= Work(u, s.d, x, |u|)
  {
    var server := Master(s.m[b]);
    WorkSome(s.m, s.d, |s.m|, b);
    assert !Blank(s.m);
    assert server != INVALID_FLAG;
    assert Tally(s.machine, server) >= Work(s.m, s.d, server, |s.m|);
    WorkUpdate(s.m, s.d, b, server, |s.m|);
    var u, less := s.m[b := s.d[b]], Less(s.machine, server);
    forall x | x != INVALID_FLAG ensures Tally(less, x) >= Work(u, s.d, x, |u|) {
      assert Tally(s.machine, x) >= Work(s.m, s.d, x, |s.m|);
      WorkUpdate(s.m, s.d, b, x, |s.m|);
    }
  }

  /** A bucket that has not moved keeps its master in the plan. */
  lemma PlanNames(s: Sys, copies: nat, b: nat)
    requires Inv(s, copies) && b < |s.m|
    ensures s.m[b] != s.d[b] ==> Master(s.m[b]) in s.machine
  {
    if s.m[b] != s.d[b] {
      WorkSome(s.m, s.d, |s.m|, b);
      assert Tally(s.machine, Master(s.m[b])) >= Work(s.m, s.d, Master(s.m[b]), |s.m|);
    }
  }

  /** When the plan is empty the move is complete, so the completion check's assertion holds. */
  lemma InvCheckSafe(s: Sys, copies: nat)
    requires Inv(s, copies)
    ensures CheckSafe(s)
  {
    forall b | 0 <= b < |s.m| ensures s.m[b] != s.d[b] ==> Master(s.m[b]) in s.machine { PlanNames(s, copies, b); }
  }

  lemma CheckKeeps(s: Sys, copies: nat)
    requires Inv(s, copies)
    ensures Inv(Check(s), copies)
  {
    InvCheckSafe(s, copies);
  }

  lemma HardCheckKeeps(s: Sys, copies: nat)
    requires Inv(s, copies)
    ensures Inv(HardCheck(s), copies)
  {
    if s.m == s.d {
      forall x ensures Work(s.m, s.d, x, |s.m|) == 0 { SameWork(s.m, x, |s.m|); }
    }
  }

  lemma RestartKeeps(s: Sys, copies: nat)
    requires Inv(s, copies)
    ensures Inv(Restart(s), copies)
  {
    var r := Restart(s);
    PlannedKeys(s.m, s.d, |s.m|);
    NoDiffs(s.m, s.d, |s.m|);
    forall x | x != INVALID_FLAG
      ensures Tally(r.machine, x) >= Work(s.m, s.d, x, |s.m|) && (x in r.machine ==> r.machine[x] > 0)
    {
      PlannedWork(s.m, s.d, x, |s.m|);
      if s.blocks <= 0 {
        assert s.m == s.d;
        SameWork(s.m, x, |s.m|);
      }
    }
  }

  // ---------------------------------------------------------------- runs

  datatype Op =
    | RebuildOp(up: set<Server>, quick: Table, dest: Table)
    | QuickOp(quick: Table)
    | FinishOp(server: Server, version: nat, bucket: int)
    | CheckOp
    | HardCheckOp
    | RestartOp

  /** The tables come from the table builder; reports may be about any bucket from any server. */
  ghost predicate Legal(s: Sys, copies: nat, op: Op) {
    match op
    case RebuildOp(up, quick, dest) =>
      Built(s, copies, quick, dest) && var r := Rebuild(s, copies, up, quick, dest); Exact(r.m, r.d)
    case QuickOp(quick) =>
      |quick| == |s.m| && Shaped(quick, copies) && if Blank(s.m) then quick == s.m else Led(quick)
    case _ => true
  }

  ghost function Next(s: Sys, copies: nat, op: Op): (r: Sys)
    requires Inv(s, copies) && Legal(s, copies, op)
    ensures Inv(r, copies)
  {
    match op
    case RebuildOp(up, quick, dest) => RebuildKeeps(s, copies, up, quick, dest); Rebuild(s, copies, up, quick, dest)
    case QuickOp(quick) => QuickKeeps(s, copies, quick); QuickRebuild(s, quick)
    case FinishOp(server, version, bucket) =>
      FinishKeeps(s, copies, server, version, bucket); Finish(s, server, version, bucket)
    case CheckOp => CheckKeeps(s, copies); Check(s)
    case HardCheckOp => HardCheckKeeps(s, copies); HardCheck(s)
    case RestartOp => RestartKeeps(s, copies); Restart(s)
  }

  /** `states` is a run from `states[0]` under `ops`. */
  ghost predicate Run(states: seq<Sys>, ops: seq<Op>, copies: nat) {
    && |states| == |ops| + 1 && Inv(states[0], copies)
    && forall i {:trigger StepOf(states, ops, copies, i)} :: 0 <= i < |ops| ==> StepOf(states, ops, copies, i)
  }

  ghost predicate StepOf(states: seq<Sys>, ops: seq<Op>, copies: nat, i: nat) {
    && i < |ops| && i + 1 < |states|
    && (Inv(states[i], copies) ==> Legal(states[i], copies, ops[i]) && states[i + 1] == Next(states[i], copies, ops[i]))
  }

  /**
   Over every run: the plan of each server is at least its unfinished buckets, each bucket is where
   clients look for it or at its target, the completion check's assertion holds, and without a
   migration the three tables are equal.
   */
  lemma {:induction false} RunKeeps(states: seq<Sys>, ops: seq<Op>, copies: nat, i: nat)
    requires Run(states, ops, copies) && i <= |ops|
    ensures Inv(states[i], copies) && CheckSafe(states[i]) && Found(states[i])
  {
    if i > 0 {
      RunKeeps(states, ops, copies, i - 1);
      assert StepOf(states, ops, copies, i - 1);
    }
    InvCheckSafe(states[i], copies);
  }

  /** With at most two copies every table the builder gives is legal. */
  lemma TwoCopiesLegal(s: Sys, copies: nat, up: set<Server>, quick: Table, dest: Table)
    requires Inv(s, copies) && copies <= 2 && Built(s, copies, quick, dest)
    ensures Legal(s, copies, RebuildOp(up, quick, dest))
  {
    var r := Rebuild(s, copies, up, quick, dest);
    if Blank(s.m) {
      forall b | 0 <= b < |r.m| ensures ExactAt(r.m, r.d, b) {}
    } else {
      TwoCopiesExact(r.m, r.d, copies);
    }
  }

  /** With at most two copies a step need only use tables that the builder gives. */
  ghost predicate TwoCopyStep(states: seq<Sys>, ops: seq<Op>, copies: nat, i: nat) {
    && i < |ops| && i + 1 < |states|
    && (Inv(states[i], copies) ==>
          && (if ops[i].RebuildOp? then Built(states[i], copies, ops[i].quick, ops[i].dest)
              else Legal(states[i], copies, ops[i]))
          && (Legal(states[i], copies, ops[i]) ==> states[i + 1] == Next(states[i], copies, ops[i])))
  }

  /** The run theorem for at most two copies, without any condition on the plan. */
  lemma {:induction false} TwoCopiesRun(states: seq<Sys>, ops: seq<Op>, copies: nat, i: nat)
    requires |states| == |ops| + 1 && Inv(states[0], copies) && copies <= 2 && i <= |ops|
    requires forall k {:trigger TwoCopyStep(states, ops, copies, k)} ::
               0 <= k < |ops| ==> TwoCopyStep(states, ops, copies, k)
    ensures Inv(states[i], copies) && CheckSafe(states[i]) && Found(states[i])
  {
    if i > 0 {
      TwoCopiesRun(states, ops, copies, i - 1);
      assert TwoCopyStep(states, ops, copies, i - 1);
      var op := ops[i - 1];
      if op.RebuildOp? { TwoCopiesLegal(states[i - 1], copies, op.up, op.quick, op.dest); }
    }
    InvCheckSafe(states[i], copies);
  }

  // ---------------------------------------------------------------- the table in use

  lemma BumpMoves(v: nat)
    ensures Bump(v) != v && MIN_VERSION <= Bump(v) < UINT32
    ensures MIN_VERSION <= v < UINT32 - 1 ==> Bump(v) == v + 1
  {
  }

  /**
   Reports, hard checks and restarts leave the table in use alone; a completion check changes it
   only when the migration is over.  Whoever changes it changes the version that clients compare,
   and whoever changes the target changes the version that reports carry.
   */
  lemma UseAnnounced(s: Sys, copies: nat, op: Op)
    requires Inv(s, copies) && Legal(s, copies, op)
    ensures var r := Next(s, copies, op);
            && (op.FinishOp? || op.HardCheckOp? || op.RestartOp? ==> r.h == s.h && r.versions == s.versions)
            && (op.CheckOp? && r.h != s.h ==> s.m == s.d && s.blocks != -1 && r.blocks == -1)
            && (r.h != s.h ==> r.versions.client != s.versions.client)
            && (r.d != s.d ==> r.versions.server != s.versions.server)
            && (op.RebuildOp? || op.QuickOp? ==> r.versions.capacity != s.versions.capacity)
  {
    BumpMoves(s.versions.client);
    BumpMoves(s.versions.server);
    BumpMoves(s.versions.capacity);
    InvCheckSafe(s, copies);
  }

  // ---------------------------------------------------------------- stale reports and progress

  /** A report made under an older version of the table changes nothing. */
  lemma StaleReport(s: Sys, copies: nat, op: Op, server: Server, b: int)
    requires Inv(s, copies) && Legal(s, copies, op) && s.versions.server < UINT32
    requires Next(s, copies, op).versions != s.versions
    ensures var r := Next(s, copies, op); Finish(r, server, s.versions.server, b) == r
  {
  }

  lemma FinishOne(p: Sys, copies: nat, b: nat)
    requires Inv(p, copies) && b < |p.m|
    ensures var r := Finish(p, Master(p.m[b]), p.versions.server, b);
            && Inv(r, copies) && |r.m| == |p.m| && r.d == p.d && r.versions == p.versions
            && (p.blocks != -1 ==> r.blocks != -1 && r.m == p.m[b := p.d[b]])
            && (p.blocks == -1 ==> r == p)
  {
    FinishKeeps(p, copies, Master(p.m[b]), p.versions.server, b);
    if p.blocks != -1 && p.m[b] != p.d[b] { FinishCounts(p, copies, b); }
  }

  /** Every master reports its buckets in turn. */
  ghost function FinishAll(s: Sys, copies: nat, n: nat): (r: Sys)
    requires Inv(s, copies) && n <= |s.m|
    ensures Inv(r, copies) && |r.m| == |s.m| && r.d == s.d && r.versions == s.versions
    ensures s.blocks != -1 ==> r.blocks != -1
    ensures s.blocks != -1 ==> forall b :: 0 <= b < n ==> r.m[b] == r.d[b]
    ensures forall b :: n <= b < |s.m| ==> r.m[b] == s.m[b]
  {
    if n == 0 then s
    else
      var p := FinishAll(s, copies, n - 1);
      FinishOne(p, copies, n - 1);
      Finish(p, Master(p.m[n - 1]), p.versions.server, n - 1)
  }

  /** The plan is exactly the work that is left. */
  ghost predicate Tight(s: Sys)
    requires |s.m| == |s.d|
  {
    forall x {:trigger Work(s.m, s.d, x, |s.m|)} :: Tally(s.machine, x) == Work(s.m, s.d, x, |s.m|)
  }

  /** The reports take off the plan of every server exactly its unfinished buckets. */
  lemma {:induction false} FinishAllTally(s: Sys, copies: nat, n: nat, x: Server)
    requires Inv(s, copies) && s.blocks != -1 && n <= |s.m|
    ensures Tally(FinishAll(s, copies, n).machine, x) == Tally(s.machine, x) - Work(s.m, s.d, x, n)
  {
    if n > 0 {
      FinishAllTally(s, copies, n - 1, x);
      FinishTally(FinishAll(s, copies, n - 1), copies, n - 1, x);
    }
  }

  lemma FinishTally(p: Sys, copies: nat, b: nat, x: Server)
    requires Inv(p, copies) && p.blocks != -1 && b < |p.m|
    ensures Tally(Finish(p, Master(p.m[b]), p.versions.server, b).machine, x)
         == Tally(p.machine, x) - if p.m[b] != p.d[b] && Master(p.m[b]) == x then 1 else 0
  {
    if p.m[b] != p.d[b] { FinishCounts(p, copies, b); }
  }

  /**
   Once all masters have reported, the completion check ends the migration exactly when the plan
   was the work left; then the target is in use.
   */
  lemma MigrationCompletes(s: Sys, copies: nat)
    requires Inv(s, copies) && s.blocks != -1
    ensures var r := Check(FinishAll(s, copies, |s.m|));
            && (r.blocks == -1 <==> Tight(s))
            && (r.blocks == -1 ==> r.h == r.m == r.d == s.d && r.machine == map[])
  {
    var p := FinishAll(s, copies, |s.m|);
    assert p.m == p.d;
    forall x ensures Tally(p.machine, x) == Tally(s.machine, x) - Work(s.m, s.d, x, |s.m|) {
      FinishAllTally(s, copies, |s.m|, x);
    }
    if p.machine == map[] {
      forall x ensures Tally(s.machine, x) == Work(s.m, s.d, x, |s.m|) { assert Tally(p.machine, x) == 0; }
    } else {
      var x := Member(p.machine.Keys);
      assert Tally(p.machine, x) > 0;
    }
  }

  // ---------------------------------------------------------------- when the plan is the work left

  lemma LedWork(m: Table, d: Table, n: nat)
    requires |m| == |d| && n <= |m| && Led(m)
    ensures Work(m, d, INVALID_FLAG, n) == 0
  {
    if n > 0 { LedWork(m, d, n - 1); }
  }

  lemma PlannedTight(m: Table, d: Table, copies: nat)
    requires |m| == |d| && Shaped(m, copies) && Shaped(d, copies) && Exact(m, d) && Led(m)
    ensures forall x :: Tally(Planned(m, d, |m|), x) == Work(m, d, x, |m|)
  {
    forall x ensures Tally(Planned(m, d, |m|), x) == Work(m, d, x, |m|) {
      if x == INVALID_FLAG {
        PlannedKeys(m, d, |m|);
        LedWork(m, d, |m|);
      } else {
        PlannedWork(m, d, x, |m|);
      }
    }
  }

  lemma SameTight(s: Sys)
    requires s.m == s.d
    ensures Tight(s) <==> forall x :: Tally(s.machine, x) == 0
  {
    if Tight(s) {
      forall x ensures Tally(s.machine, x) == 0 {
        SameWork(s.m, x, |s.m|);
        assert Tally(s.machine, x) == Work(s.m, s.d, x, |s.m|);
      }
    } else {
      var x :| Tally(s.machine, x) != Work(s.m, s.d, x, |s.m|);
      SameWork(s.m, x, |s.m|);
    }
  }

  lemma RebuildTight(s: Sys, copies: nat, up: set<Server>, quick: Table, dest: Table)
    requires Inv(s, copies) && Legal(s, copies, RebuildOp(up, quick, dest)) && Tight(s)
    ensures Tight(Rebuild(s, copies, up, quick, dest))
  {
    var r := Rebuild(s, copies, up, quick, dest);
    if Blank(s.m) {
      SameTight(s);
      SameTight(r);
      assert forall x :: Tally(s.machine, x) == 0;
    } else {
      RebuildKeeps(s, copies, up, quick, dest);
      PlannedTight(r.m, r.d, copies);
    }
  }

  lemma FinishTight(s: Sys, copies: nat, server: Server, version: nat, b: int)
    requires Inv(s, copies) && Tight(s)
    ensures Tight(Finish(s, server, version, b))
  {
    var r := Finish(s, server, version, b);
    if r != s {
      FinishCounts(s, copies, b);
      forall x ensures Tally(r.machine, x) == Work(r.m, r.d, x, |r.m|) {
        assert Tally(s.machine, x) == Work(s.m, s.d, x, |s.m|);
        WorkUpdate(s.m, s.d, b, x, |s.m|);
      }
    }
  }

  /** A restart always makes the plan the work left. */
  lemma RestartTight(s: Sys, copies: nat)
    requires Inv(s, copies)
    ensures Tight(Restart(s))
  {
    if s.blocks > 0 && !Blank(s.m) {
      PlannedTight(s.m, s.d, copies);
    } else {
      NoDiffs(s.m, s.d, |s.m|);
      assert s.m == s.d;
      var r := Restart(s);
      SameTight(r);
      if s.blocks > 0 { PlanSame(s.m, |s.m|); }
    }
  }

  lemma {:induction false} PlanSame(m: Table, n: nat)
    requires n <= |m|
    ensures Planned(m, m, n) == map[]
  {
    if n > 0 {
      PlanSame(m, n - 1);
      if Moves(m[n - 1], m[n - 1]) { MovesDiffer(m[n - 1], m[n - 1]); }
    }
  }

  /** A repair leaves the plan as it is, so it keeps this exactly when nothing was planned. */
  lemma QuickTight(s: Sys, copies: nat, quick: Table)
    requires Inv(s, copies)
    ensures Tight(QuickRebuild(s, quick)) <==> s.machine == map[]
  {
    var r := QuickRebuild(s, quick);
    SameTight(r);
    if s.machine != map[] {
      var x := Member(s.machine.Keys);
      assert Tally(r.machine, x) > 0;
    }
  }

  /** Every operation keeps the plan equal to the work left, unless it is a repair with a plan open. */
  lemma StepTight(s: Sys, copies: nat, op: Op)
    requires Inv(s, copies) && Legal(s, copies, op) && Tight(s)
    ensures Tight(Next(s, copies, op)) <==> (op.QuickOp? ==> s.machine == map[])
  {
    match op
    case RebuildOp(up, quick, dest) => RebuildTight(s, copies, up, quick, dest);
    case QuickOp(quick) => QuickTight(s, copies, quick);
    case FinishOp(server, version, bucket) => FinishTight(s, copies, server, version, bucket);
    case CheckOp =>
    case HardCheckOp => if s.m == s.d { SameTight(HardCheck(s)); }
    case RestartOp => RestartTight(s, copies);
  }

  /** With the tables equal and a plan open no report and no check changes anything. */
  lemma StaysOpen(s: Sys, copies: nat, server: Server, version: nat, b: int)
    requires Inv(s, copies) && s.m == s.d && s.machine != map[]
    ensures Finish(s, server, version, b) == s && Check(s) == s
  {
  }

  /** The hard check would get out of such a state. */
  lemma HardCheckEnds(s: Sys, copies: nat)
    requires Inv(s, copies) && s.m == s.d && s.blocks != -1
    ensures var r := Check(HardCheck(s)); r.blocks == -1 && r.machine == map[] && r.h == r.m == r.d == s.d
  {
  }

  /** A repair in the middle of a migration reaches such a state. */
  lemma RepairStaysOpen(v: Versions)
    ensures var s := Sys([[1]], [[1]], [[2]], map[1 := 1], 1, v);
            && Inv(s, 1) && Tight(s) && Legal(s, 1, QuickOp([[1]]))
            && var r := Next(s, 1, QuickOp([[1]]));
               r.m == r.d && r.machine != map[] && r.blocks != -1 && Check(FinishAll(r, 1, 1)) == r
  {
    var s := Sys([[1]], [[1]], [[2]], map[1 := 1], 1, v);
    assert s.m[0] == [1] && s.d[0] == [2] && s.m[0][0] == 1;
    assert ExactAt(s.m, s.d, 0);
    forall x ensures Work(s.m, s.d, x, 1) == if x == 1 then 1 else 0 { assert Work(s.m, s.d, x, 0) == 0; }
    assert Diffs(s.m, s.d, 0) == 0 && Diffs(s.m, s.d, 1) == 1;
    assert Inv(s, 1);
    var r := Next(s, 1, QuickOp([[1]]));
    assert 1 in r.machine;
    StaysOpen(r, 1, Master(r.m[0]), r.versions.server, 0);
    assert FinishAll(r, 1, 0) == r;
  }

  // ---------------------------------------------------------------- the block count

  /** The count is the number of buckets left to move. */
  ghost predicate CountsLeft(s: Sys)
    requires |s.m| == |s.d|
  {
    s.blocks == -1 || s.blocks == Diffs(s.m, s.d, |s.m|)
  }

  lemma RebuildCounts(s: Sys, copies: nat, up: set<Server>, quick: Table, dest: Table)
    requires Inv(s, copies) && Legal(s, copies, RebuildOp(up, quick, dest))
    ensures CountsLeft(Rebuild(s, copies, up, quick, dest))
  {
    var r := Rebuild(s, copies, up, quick, dest);
    RebuildKeeps(s, copies, up, quick, dest);
    PlannedDiffs(r.m, r.d, |r.m|);
  }

  /** Every operation keeps the count exact, unless it is a repair with buckets left to move. */
  lemma StepCounts(s: Sys, copies: nat, op: Op)
    requires Inv(s, copies) && Legal(s, copies, op) && CountsLeft(s)
    ensures CountsLeft(Next(s, copies, op)) <==> (op.QuickOp? ==> s.blocks == -1 || Diffs(s.m, s.d, |s.m|) == 0)
  {
    match op
    case RebuildOp(up, quick, dest) => RebuildCounts(s, copies, up, quick, dest);
    case QuickOp(quick) => SameWork(quick, INVALID_FLAG, |quick|);
    case FinishOp(server, version, b) =>
      if Finish(s, server, version, b) != s {
        WorkUpdate(s.m, s.d, b, server, |s.m|);
        FinishCounts(s, copies, b);
      }
    case CheckOp =>
    case HardCheckOp =>
    case RestartOp =>
  }
}
