/**
 The meta server's table manager.  It keeps the three tables, has the table builder repair or
 rebuild them, and follows the migration that a rebuild starts.
 */
module SysMgr {
  import opened Common
  import opened Placement
  import opened Migration
  import opened MigrationRun
  import opened PlacementRebuild
  import opened QuickTable
  import opened QuickFair
  import opened Visibility
  import Builder = TableBuilder

  /** A table the builder accepts: nothing placed yet, or masters set and servers distinct. */
  ghost predicate Placeable(t: Table, copies: nat) {
    Builder.Tidy(t, copies) || (Blank(t) && Shaped(t, copies))
  }

  /** The slots are copied out to the builder column by column; a blank table is an empty one. */
  lemma BlankEmpty(t: Table)
    ensures Blank(t) <==> Builder.EmptyTable(t)
  {
    if Blank(t) {
      forall b | 0 <= b < |t| ensures EmptyColumn(t[b]) { assert BlankColumn(t[b]); }
    }
    if Builder.EmptyTable(t) {
      forall b | 0 <= b < |t| ensures BlankColumn(t[b]) { assert EmptyColumn(t[b]); }
    }
  }

  lemma TidyLed(t: Table, copies: nat)
    requires Builder.Tidy(t, copies) && 0 < copies
    ensures MigrationRun.Led(t)
  {
  }

  lemma TidyNotBlank(t: Table, copies: nat)
    requires Builder.Tidy(t, copies) && 0 < copies && t != []
    ensures !Blank(t)
  {
    assert t[0][0] != INVALID_FLAG;
    assert !BlankColumn(t[0]);
  }

  /** A table that is built from directly: blank, or with one copy per bucket. */
  lemma DirectSource(t: Table, up: set<Server>, copies: nat)
    requires 0 < copies && INVALID_FLAG !in up && Placeable(t, copies) && (Blank(t) || copies == 1)
    ensures SourceOk(t, up, copies)
  {
    forall b | 0 <= b < |t| ensures SourceColumn(t[b], up) {
      if Blank(t) { assert BlankColumn(t[b]); }
    }
  }

  lemma QuickTidy(t: Table, up: set<Server>, copies: nat, q: Table)
    requires Builder.Tidy(t, copies) && 0 < copies && INVALID_FLAG !in up
    requires |q| == |t| && Shaped(q, copies) && forall b :: 0 <= b < |t| ==> QuickColumn(t[b], up, q[b])
    ensures Builder.Tidy(q, copies) && SourceOk(q, up, copies)
  {
    Builder.RepairedSource(t, q, up, copies);
    forall b | 0 <= b < |t| ensures Distinct(q[b]) { QuickDistinct(t[b], up, q[b]); }
  }

  /** What the rebuild leaves is a table with its masters set. */
  lemma RebuiltTidy(source: Table, up: set<Server>, copies: nat, dest: Table)
    requires Builder.Tidy(source, copies) && 0 < copies && INVALID_FLAG !in up
    requires Shaped(dest, copies) && Builder.Rebuilt(source, up, dest, |source|)
    ensures Builder.Tidy(dest, copies)
  {
    forall b | 0 <= b < |dest| ensures Distinct(dest[b]) && dest[b][0] != INVALID_FLAG {
      if !DeadColumn(source[b], up) { assert FullColumn(dest[b], up); }
    }
  }

  lemma FullTidy(up: set<Server>, copies: nat, dest: Table)
    requires 0 < copies && INVALID_FLAG !in up && Shaped(dest, copies)
    requires forall b :: 0 <= b < |dest| ==> FullColumn(dest[b], up)
    ensures Builder.Tidy(dest, copies)
  {
  }

  /** The repair of a table, which leaves a blank one and one with a single copy per bucket as it is. */
  ghost predicate Repaired(was: Table, copies: nat, up: set<Server>, q: Table) {
    if copies > 1 && !Blank(was) then
      && |q| == |was| && Fair(was, q, up)
      && forall b :: 0 <= b < |was| ==> QuickColumn(was[b], up, q[b])
    else q == was
  }

  /** The table that clients get when a rebuild of a placed table succeeds: the repair of the old one. */
  ghost predicate Served(was: Table, copies: nat, up: set<Server>, d: Table, h: Table) {
    && |h| == |was| == |d| && Shaped(was, copies) && 0 < copies
    && if copies > 1 then Repaired(was, copies, up, h)
       else forall b :: 0 <= b < |was| ==> h[b] == if was[b][0] in up then was[b] else d[b]
  }

  /** What the table builder gives for a table: its repair, and a target with every live bucket full. */
  ghost predicate Offered(was: Table, copies: nat, up: set<Server>, quick: Table, dest: Table) {
    && |quick| == |dest| == |was|
    && Repaired(was, copies, up, quick)
    && (forall b :: 0 <= b < |was| ==> TargetAt(was, up, quick, dest, b))
  }

  ghost predicate TargetAt(was: Table, up: set<Server>, quick: Table, dest: Table, b: nat) {
    && b < |was| && b < |quick| && b < |dest|
    && if Blank(was) || !DeadColumn(was[b], up) then FullColumn(dest[b], up) else dest[b] == quick[b]
  }

  /** A bucket without an available copy keeps its place; all others are full in the target. */
  lemma TargetFull(was: Table, copies: nat, up: set<Server>, quick: Table, dest: Table)
    requires Builder.Tidy(was, copies) && 0 < copies && INVALID_FLAG !in up && was != [] && Shaped(dest, copies)
    requires |quick| == |was| && Builder.Rebuilt(quick, up, dest, |quick|)
    requires forall b :: 0 <= b < |was| ==> (DeadColumn(quick[b], up) <==> DeadColumn(was[b], up))
    ensures forall b :: 0 <= b < |was| ==> TargetAt(was, up, quick, dest, b)
  {
    TidyNotBlank(was, copies);
    forall b | 0 <= b < |was| ensures TargetAt(was, up, quick, dest, b) {
      assert DeadColumn(quick[b], up) <==> DeadColumn(was[b], up);
    }
  }

  lemma OfferedServes(s: Sys, copies: nat, up: set<Server>, quick: Table, dest: Table, r: Sys)
    requires 0 < copies && Shaped(s.m, copies) && !Blank(s.m) && Offered(s.m, copies, up, quick, dest)
    requires r == Rebuild(s, copies, up, quick, dest)
    ensures r.h == r.m && Served(s.m, copies, up, r.d, r.h)
  {
    if copies > 1 { assert r.h == quick; }
  }

  class SysMgr {
    const copyCount: nat
    var hashTable: Table
    var mHashTable: Table
    var dHashTable: Table
    var migrateMachine: map<Server, int>
    var migrateBlockCount: int
    var versions: Versions

    ghost function State(): (s: Sys) reads this {
      Sys(hashTable, mHashTable, dHashTable, migrateMachine, migrateBlockCount, versions)
    }

    /** The servers of every bucket are distinct in both tables that a builder or a server reads. */
    ghost predicate Sound() reads this {
      && mHashTable != [] && 0 < copyCount
      && Placeable(mHashTable, copyCount) && Placeable(dHashTable, copyCount)
      && (Blank(mHashTable) <==> Blank(dHashTable))
    }

    ghost predicate Valid() reads this {
      Sound() && Inv(State(), copyCount)
    }

    constructor (buckets: nat, copies: nat)
      requires 0 < buckets && 0 < copies
      ensures Valid() && copyCount == copies && State() == Created(buckets, copies)
    {
      var t := seq(buckets, _ => seq(copies, _ => INVALID_FLAG));
      copyCount, hashTable, mHashTable, dHashTable := copies, t, t, t;
      migrateMachine, migrateBlockCount, versions := map[], -1, Versions(1, 1, 1);
      new;
      CreatedKeeps(buckets, copies);
      assert State() == Created(buckets, copies);
    }

    /** Nothing has been placed yet. */
    method FirstRun() returns (first: bool)
      ensures first <==> Blank(mHashTable)
    {
      for i := 0 to |mHashTable|
        invariant forall b :: 0 <= b < i ==> BlankColumn(mHashTable[b])
      {
        for j := 0 to |mHashTable[i]|
          invariant forall p :: 0 <= p < j ==> mHashTable[i][p] == INVALID_FLAG
        {
          if mHashTable[i][j] != INVALID_FLAG {
            assert !BlankColumn(mHashTable[i]);
            return false;
          }
        }
      }
      return true;
    }

    /** Compare the two columns of one bucket. */
    method NeedsMove(mc: Column, dc: Column) returns (move: bool)
      requires |mc| == |dc| == copyCount && 0 < copyCount && mc[0] != INVALID_FLAG
      ensures move <==> Moves(mc, dc)
    {
      if mc[0] != dc[0] {
        return true;
      }
      for j := 1 to copyCount
        invariant forall i :: 1 <= i < j ==> dc[i] in mc[1..]
      {
        var found := false;
        for k := 1 to copyCount
          invariant found <==> exists i :: 1 <= i < k && mc[i] == dc[j]
        {
          if dc[j] == mc[k] { found := true; }
        }
        assert found <==> dc[j] in mc[1..] by {
          assert forall i :: 1 <= i < copyCount ==> mc[i] == mc[1..][i - 1];
          assert forall i :: 0 <= i < copyCount - 1 ==> mc[1..][i] == mc[i + 1];
        }
        if !found {
          return true;
        }
      }
      return false;
    }

    /** Plan the migration from `mHashTable` to `dHashTable`. */
    method FillMigrateMachine() returns (count: nat)
      requires |mHashTable| == |dHashTable| && 0 < copyCount
      requires Shaped(mHashTable, copyCount) && Shaped(dHashTable, copyCount)
      modifies this`migrateMachine
      ensures migrateMachine == Planned(mHashTable, dHashTable, |mHashTable|)
      ensures count == PlannedCount(mHashTable, dHashTable, |mHashTable|)
    {
      count := 0;
      migrateMachine := map[];
      for i := 0 to |mHashTable|
        invariant migrateMachine == Planned(mHashTable, dHashTable, i)
        invariant count == PlannedCount(mHashTable, dHashTable, i)
      {
        var server := mHashTable[i][0];
        if server != INVALID_FLAG {
          var move := NeedsMove(mHashTable[i], dHashTable[i]);
          if move {
            migrateMachine := migrateMachine[server := Tally(migrateMachine, server) + 1];
            count := count + 1;
          }
        }
      }
    }

    /** Have the builder repair the table, unless it is blank or has one copy per bucket. */
    method Repair(up: set<Server>) returns (q: Table)
      requires Sound() && INVALID_FLAG !in up
      ensures Repaired(mHashTable, copyCount, up, q) && (!Blank(mHashTable) ==> Builder.Tidy(q, copyCount))
    {
      var first := FirstRun();
      q := mHashTable;
      if copyCount > 1 && !first {
        var builder := new Builder.TableBuilder(copyCount, up);
        q := builder.BuildQuickTable(q);
        QuickTidy(mHashTable, up, copyCount, q);
      }
    }

    /** Repair all three tables in place. */
    method RebuildQuickTable(up: set<Server>) returns (ghost quick: Table)
      requires Valid() && INVALID_FLAG !in up
      modifies this`hashTable, this`mHashTable, this`dHashTable, this`versions
      ensures Valid() && State() == QuickRebuild(old(State()), quick)
      ensures Repaired(old(mHashTable), copyCount, up, quick)
    {
      var q := Repair(up);
      RepairInv(State(), copyCount, q);
      quick := q;
      UseTable(q);
    }

    /** Put one table in all three places and announce it. */
    method UseTable(q: Table)
      modifies this`hashTable, this`mHashTable, this`dHashTable, this`versions
      ensures State() == QuickRebuild(old(State()), q)
    {
      mHashTable, hashTable, dHashTable := q, q, q;
      versions := AnnounceAll(versions);
    }

    /** Have the builder repair and rebuild the table. */
    method BuildTables(up: set<Server>) returns (r: Builder.BuildResult, quick: Table, dest: Table)
      requires Valid() && INVALID_FLAG !in up
      ensures r == Builder.BUILD_OK ==> Built(State(), copyCount, quick, dest)
      ensures r == Builder.BUILD_OK ==> Builder.Tidy(dest, copyCount)
      ensures r == Builder.BUILD_OK && !Blank(mHashTable) ==> Builder.Tidy(quick, copyCount) && Shows(quick, dest)
      ensures r == Builder.BUILD_OK ==> Offered(mHashTable, copyCount, up, quick, dest)
    {
      var first := FirstRun();
      var builder := new Builder.TableBuilder(copyCount, up);
      quick := mHashTable;
      if copyCount > 1 && !first {
        quick := builder.BuildQuickTable(mHashTable);
        QuickTidy(mHashTable, up, copyCount, quick);
        Builder.RepairedSource(mHashTable, quick, up, copyCount);
      } else {
        DirectSource(quick, up, copyCount);
      }
      r := builder.RebuildTableNew(quick);
      dest := builder.st.t;
      if r == Builder.BUILD_OK {
        BlankEmpty(quick);
        if first {
          FullTidy(up, copyCount, dest);
        } else {
          TidyNotBlank(quick, copyCount);
          RebuiltTidy(quick, up, copyCount, dest);
          TargetFull(mHashTable, copyCount, up, quick, dest);
          TidyLed(quick, copyCount);
        }
        TidyLed(dest, copyCount);
      }
    }

    /** With a single copy, buckets of dead servers go to their target at once. */
    method TakeOver(up: set<Server>)
      requires |hashTable| == |mHashTable| == |dHashTable| && hashTable == mHashTable
      modifies this`hashTable, this`mHashTable
      ensures mHashTable == Taken(old(mHashTable), dHashTable, 1, up) && hashTable == mHashTable
    {
      ghost var was := mHashTable;
      for i := 0 to |mHashTable|
        invariant |mHashTable| == |was| && hashTable == mHashTable
        invariant forall b :: 0 <= b < i ==> mHashTable[b] == Taken(was, dHashTable, 1, up)[b]
        invariant forall b :: i <= b < |was| ==> mHashTable[b] == was[b]
      {
        if Master(mHashTable[i]) !in up {
          mHashTable := mHashTable[i := dHashTable[i]];
          hashTable := hashTable[i := dHashTable[i]];
        }
      }
    }

    /** Put the built tables in place and plan the migration between them. */
    method WriteTables(first: bool, up: set<Server>, quick: Table, dest: Table)
      requires 0 < copyCount && |mHashTable| == |quick| == |dest|
      requires Shaped(dest, copyCount) && (!first ==> Shaped(quick, copyCount)) && (first <==> Blank(mHashTable))
      modifies this
      ensures State() == MigrationRun.Rebuild(old(State()), copyCount, up, quick, dest)
    {
      dHashTable := dest;
      if first {
        mHashTable, hashTable, migrateBlockCount := dest, dest, -1;
      } else {
        mHashTable, hashTable := quick, quick;
        if copyCount <= 1 { TakeOver(up); }
        assert mHashTable == Taken(quick, dest, copyCount, up);
        var diffCount := FillMigrateMachine();
        migrateBlockCount := if diffCount > 0 then diffCount else -1;
      }
      versions := AnnounceAll(versions);
    }

    /**
     Rebuild the tables.  A successful rebuild makes the repaired table the one in use and the one
     that servers move through, and a table with every live bucket full the target; a first one makes
     such a table all three.  It announces a migration exactly when it leaves something to migrate,
     with any number of copies.  The plan covers the work of every server
     exactly when comparing slaves as sets finds every bucket that differs.
     */
    method Rebuild(up: set<Server>)
      returns (r: Builder.BuildResult, ghost quick: Table, ghost dest: Table)
      requires Valid() && INVALID_FLAG !in up
      modifies this
      ensures r != Builder.BUILD_OK ==> State() == old(State())
      ensures r == Builder.BUILD_OK ==> Built(old(State()), copyCount, quick, dest)
      ensures r == Builder.BUILD_OK ==> State() == MigrationRun.Rebuild(old(State()), copyCount, up, quick, dest)
      ensures r == Builder.BUILD_OK ==> hashTable == mHashTable
      ensures r == Builder.BUILD_OK && !Blank(old(mHashTable)) ==> Served(old(mHashTable), copyCount, up, dHashTable, hashTable)
      ensures r == Builder.BUILD_OK ==> |dHashTable| == |old(mHashTable)| && forall b :: 0 <= b < |dHashTable| ==>
                if Blank(old(mHashTable)) || !DeadColumn(old(mHashTable)[b], up) then FullColumn(dHashTable[b], up)
                else dHashTable[b] == quick[b]
      ensures r == Builder.BUILD_OK ==> (migrateBlockCount == -1 <==> mHashTable == dHashTable)
      ensures r == Builder.BUILD_OK ==> |mHashTable| == |dHashTable| && (Covered(State()) <==> Exact(mHashTable, dHashTable))
      ensures r == Builder.BUILD_OK && Exact(mHashTable, dHashTable) ==> Valid() && CountsLeft(State())
      ensures copyCount <= 2 ==> Valid()
    {
      var first := FirstRun();
      ghost var was := State();
      var result, q, t := BuildTables(up);
      r, quick, dest := result, q, t;
      if r != Builder.BUILD_OK {
        return;
      }
      WriteTables(first, up, q, t);
      forall b | 0 <= b < |dHashTable|
        ensures if Blank(was.m) || !DeadColumn(was.m[b], up) then FullColumn(dHashTable[b], up) else dHashTable[b] == q[b]
      {
        assert TargetAt(was.m, up, q, t, b);
      }
      if !first { OfferedServes(was, copyCount, up, q, t, State()); }
      RebuildSound(was, copyCount, up, q, t);
      RebuildInv(was, copyCount, up, q, t, State());
      RebuildAnnounces(was, copyCount, up, q, t, State());
    }

    /** The completion check.  Its assertion is proved here. */
    method CheckMigrateComplete() returns (done: bool)
      requires Valid()
      modifies this`hashTable, this`migrateBlockCount, this`versions
      ensures Valid() && State() == Check(old(State()))
      ensures done <==> migrateBlockCount == -1
    {
      CheckKeeps(State(), copyCount);
      if migrateBlockCount == -1 {
        return true;
      }
      if |migrateMachine| > 0 {
        return false;
      }
      InvCheckSafe(State(), copyCount);
      assert mHashTable == dHashTable;
      versions := Announce(versions);
      hashTable := dHashTable;
      migrateBlockCount := -1;
      return true;
    }

    method HardCheckMigrateComplete()
      requires Valid()
      modifies this`migrateMachine
      ensures Valid() && State() == HardCheck(old(State()))
    {
      HardCheckKeeps(State(), copyCount);
      if mHashTable == dHashTable { migrateMachine := map[]; }
    }

    /** Reopen the tables from their file. */
    method Reopen()
      requires Valid()
      modifies this`migrateMachine
      ensures Valid() && State() == Restart(old(State()))
    {
      RestartKeeps(State(), copyCount);
      migrateMachine := map[];
      if migrateBlockCount > 0 {
        var count := FillMigrateMachine();
      }
    }

    /** Copy the target of one bucket slot by slot. */
    method MoveColumn(mc: Column, dc: Column) returns (changed: bool, r: Column)
      requires |mc| == |dc|
      ensures r == dc && (changed <==> mc != dc)
    {
      r, changed := mc, false;
      for i := 0 to |mc|
        invariant |r| == |mc| && r[i..] == mc[i..] && r[..i] == dc[..i] && (changed <==> mc[..i] != dc[..i])
      {
        assert mc[..i + 1] == mc[..i] + [mc[i]] && dc[..i + 1] == dc[..i] + [dc[i]];
        assert r[i] == r[i..][0] == mc[i];
        if r[i] != dc[i] {
          r := r[i := dc[i]];
          changed := true;
        }
      }
      assert mc == mc[..|mc|] && dc == dc[..|mc|] && r == r[..|mc|];
    }

    /** A server reports a moved bucket.  The bucket number must not be the bucket count. */
    method SetMigratingHashtable(bucket: nat, server: Server)
      requires Valid() && bucket != |mHashTable|
      modifies this`mHashTable, this`migrateMachine, this`migrateBlockCount
      ensures Valid() && State() == Finish(old(State()), server, versions.server, bucket)
    {
      FinishKeeps(State(), copyCount, server, versions.server, bucket);
      if bucket > |mHashTable| || migrateBlockCount == -1 || mHashTable[bucket][0] != server {
        return;
      }
      var changed, col := MoveColumn(mHashTable[bucket], dHashTable[bucket]);
      FinishSound(mHashTable, dHashTable, copyCount, bucket);
      if changed {
        FinishCounts(State(), copyCount, bucket);
        CountOff(server);
        mHashTable := mHashTable[bucket := col];
      }
    }

    /** One bucket less to move, in all and for the server; with none left the server's entry goes. */
    method CountOff(server: Server)
      requires server in migrateMachine
      modifies this`migrateMachine, this`migrateBlockCount
      ensures migrateBlockCount == old(migrateBlockCount) - 1 && migrateMachine == Less(old(migrateMachine), server)
    {
      migrateBlockCount := migrateBlockCount - 1;
      migrateMachine := migrateMachine[server := migrateMachine[server] - 1];
      if migrateMachine[server] == 0 { migrateMachine := migrateMachine - {server}; }
    }

    method DoFinishMigrate(server: Server, version: nat, bucket: int) returns (ok: bool)
      requires Valid() && -0x8000_0000 <= bucket < 0x8000_0000 && bucket != |mHashTable| < 0x8000_0000
      modifies this`mHashTable, this`migrateMachine, this`migrateBlockCount
      ensures Valid() && State() == Finish(old(State()), server, version, bucket)
      ensures ok <==> version == versions.server
    {
      if version != versions.server {
        return false;
      }
      SetMigratingHashtable(bucket % UINT32, server);
      return true;
    }
  }

  lemma RepairInv(s: Sys, copies: nat, q: Table)
    requires Inv(s, copies) && s.m != [] && |q| == |s.m|
    requires if Blank(s.m) then q == s.m else Builder.Tidy(q, copies)
    ensures Inv(QuickRebuild(s, q), copies) && (Blank(q) <==> Blank(s.m))
  {
    if !Blank(s.m) {
      TidyNotBlank(q, copies);
      TidyLed(q, copies);
    }
    QuickKeeps(s, copies, q);
  }

  /** A rebuild leaves tables that the builder accepts again. */
  lemma RebuildSound(s: Sys, copies: nat, up: set<Server>, quick: Table, dest: Table)
    requires 0 < copies && s.m != [] && |s.m| == |quick| == |dest|
    requires Builder.Tidy(dest, copies) && (!Blank(s.m) ==> Builder.Tidy(quick, copies))
    ensures var r := Rebuild(s, copies, up, quick, dest);
            Builder.Tidy(r.m, copies) && Builder.Tidy(r.d, copies) && !Blank(r.m) && !Blank(r.d)
  {
    var r := Rebuild(s, copies, up, quick, dest);
    TidyNotBlank(r.m, copies);
    TidyNotBlank(r.d, copies);
  }

  lemma RebuildInv(s: Sys, copies: nat, up: set<Server>, quick: Table, dest: Table, r: Sys)
    requires Inv(s, copies) && Built(s, copies, quick, dest) && r == Rebuild(s, copies, up, quick, dest)
    ensures Covered(r) <==> Exact(r.m, r.d)
    ensures Exact(r.m, r.d) ==> Inv(r, copies) && CountsLeft(r)
    ensures copies <= 2 ==> Exact(r.m, r.d)
  {
    if copies <= 2 { TwoCopiesLegal(s, copies, up, quick, dest); }
    if Blank(s.m) { forall b | 0 <= b < |r.m| ensures ExactAt(r.m, r.d, b) {} }
    if Exact(r.m, r.d) {
      RebuildKeeps(s, copies, up, quick, dest);
      RebuildCounts(s, copies, up, quick, dest);
    } else { PlanCovers(r.m, r.d); }
  }

  lemma {:induction false} PlannedSome(m: Table, d: Table, b: nat, n: nat)
    requires b < n <= |m| && n <= |d| && Moves(m[b], d[b])
    ensures PlannedCount(m, d, n) > 0
  {
    if b < n - 1 { PlannedSome(m, d, b, n - 1); }
  }

  /** A migration plan sees what a rebuild shows. */
  lemma ShownMoves(m: Table, d: Table, copies: nat)
    requires |m| == |d| && Shaped(m, copies) && Shaped(d, copies) && MigrationRun.Led(m) && Shows(m, d)
    ensures m == d || PlannedCount(m, d, |m|) > 0
  {
    if m != d {
      var b: nat :| VisibleAt(m, d, b);
      if m[b][0] == d[b][0] {
        var p :| 1 <= p < |d[b]| && d[b][p] !in m[b];
        assert forall i :: 0 <= i < |m[b][1..]| ==> m[b][1..][i] == m[b][i + 1];
        assert d[b][p] !in m[b][1..];
      }
      assert Moves(m[b], d[b]);
      PlannedSome(m, d, b, |m|);
    }
  }

  /** A rebuild announces a migration exactly when the tables differ. */
  lemma RebuildAnnounces(s: Sys, copies: nat, up: set<Server>, quick: Table, dest: Table, r: Sys)
    requires Inv(s, copies) && Built(s, copies, quick, dest) && r == Rebuild(s, copies, up, quick, dest)
    requires !Blank(s.m) ==> Shows(quick, dest)
    ensures r.blocks == -1 <==> r.m == r.d
  {
    if !Blank(s.m) {
      if copies <= 1 {
        RebuildInv(s, copies, up, quick, dest, r);
      } else {
        assert r.m == quick;
        ShownMoves(r.m, r.d, copies);
      }
      if r.m == r.d {
        PlannedDiffs(r.m, r.d, |r.m|);
        NoDiffs(r.m, r.d, |r.m|);
      }
    }
  }

  lemma FinishSound(m: Table, d: Table, copies: nat, b: nat)
    requires 0 < copies && b < |m| == |d| && Placeable(m, copies) && Placeable(d, copies) && (Blank(m) <==> Blank(d))
    ensures var u := m[b := d[b]]; Placeable(u, copies) && (Blank(u) <==> Blank(d))
  {
    var u := m[b := d[b]];
    if Blank(d) {
      forall i | 0 <= i < |u| ensures BlankColumn(u[i]) { assert BlankColumn(m[i]) && BlankColumn(d[i]); }
    } else {
      TidyNotBlank(u, copies);
    }
  }
}
