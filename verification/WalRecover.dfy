/**
 Opening a log directory: every file but the last must be finished, the last may be empty, partly
 filled or finished.
 */
module WalRecover {
  import opened Common
  import opened Bytes
  import opened WalFormat
  import opened WalFile
  import opened WalLog
  import opened WalSteps

  /** A file in the directory, under the index of its first entry. */
  datatype Stored = Stored(start: nat, bytes: seq<byte>)

  function Dir(w: Wal): (files: seq<Stored>)
    ensures |files| == |w.slots|
  {
    seq(|w.slots|, j requires 0 <= j < |w.slots| => Stored(w.slots[j].file.start, w.slots[j].file.disk))
  }

  /** The slots of the first `n` files, all of which must be finished. */
  function OldFiles(files: seq<Stored>, n: nat, md5: Md5): (r: Option<seq<Slot>>)
    requires n <= |files|
  {
    if n == 0 then Some([])
    else
      var before := OldFiles(files, n - 1, md5);
      var f := files[n - 1];
      var info := Loaded(f.bytes, f.start, md5);
      if before.None? || info.Failed? || !info.full then None
      else Some(before.value + [Slot(info.last, File(f.start, f.bytes, info.ivts))])
  }

  /** The log found in a directory whose files are sorted by name. */
  function Opened(files: seq<Stored>, md5: Md5): (r: Option<Wal>) {
    if files == [] then Some(Wal(1, 0, 1, NewFile([], 1), 0, [], Idle))
    else
      var m := |files| - 1;
      var f := files[m];
      var before := OldFiles(files, m, md5);
      var info := Loaded(f.bytes, f.start, md5);
      if before.None? || info.Failed? then None
      else
        var file := File(f.start, f.bytes, info.ivts);
        if info.full then
          Some(Wal(files[0].start, info.last, info.last + 1,
                   NewFile(before.value + [Slot(info.last, file)], info.last + 1), 0, [], Idle))
        else
          var last := if info.last == 0 then f.start - 1 else info.last;
          Some(Wal(files[0].start, last, last + 1, before.value + [Slot(MAX_INDEX, file)], |f.bytes|, [], Idle))
  }

  /** Load the files before the last one. */
  method OpenOld(files: seq<Stored>, n: nat, md5: Md5) returns (r: Option<seq<Slot>>)
    requires n <= |files|
    ensures r == OldFiles(files, n, md5)
  {
    var slots: seq<Slot> := [];
    for i := 0 to n
      invariant OldFiles(files, i, md5) == Some(slots)
    {
      var info := new WalFileInfo(files[i].start, files[i].bytes);
      var ok := info.LoadInfo(md5);
      if !ok || !info.loadFull {
        OldFilesNone(files, i, n, md5);
        return None;
      }
      slots := slots + [Slot(info.lastIndex, File(files[i].start, files[i].bytes, info.ivts))];
    }
    r := Some(slots);
  }

  lemma {:induction false} OldFilesNone(files: seq<Stored>, i: nat, n: nat, md5: Md5)
    requires i < n <= |files|
    requires var info := Loaded(files[i].bytes, files[i].start, md5); info.Failed? || !info.full
    ensures OldFiles(files, n, md5) == None
  {
    if i == n - 1 {
      assert OldFiles(files, n, md5) == None;
    } else {
      OldFilesNone(files, i, n - 1, md5);
      OldFilesLess(files, n - 1, md5);
    }
  }

  lemma OldFilesLess(files: seq<Stored>, n: nat, md5: Md5)
    requires n < |files| && OldFiles(files, n, md5) == None
    ensures OldFiles(files, n + 1, md5) == None
  {
  }

  /** Scan the directory and continue in its last file, or start a new one. */
  method Open(files: seq<Stored>, md5: Md5) returns (r: Option<Wal>)
    ensures r == Opened(files, md5)
  {
    if files == [] {
      return Some(Wal(1, 0, 1, NewFile([], 1), 0, [], Idle));
    }
    var m := |files| - 1;
    var f := files[m];
    var before := OpenOld(files, m, md5);
    var info := new WalFileInfo(f.start, f.bytes);
    var ok := info.LoadInfo(md5);
    if before.None? || !ok {
      return None;
    }
    var file := File(f.start, f.bytes, info.ivts);
    var lastIdx := if info.lastIndex == 0 && !info.loadFull then f.start - 1 else info.lastIndex;
    if info.loadFull {
      var slots := NewFile(before.value + [Slot(info.lastIndex, file)], lastIdx + 1);
      return Some(Wal(files[0].start, lastIdx, lastIdx + 1, slots, 0, [], Idle));
    }
    return Some(Wal(files[0].start, lastIdx, lastIdx + 1, before.value + [Slot(MAX_INDEX, file)], |f.bytes|, [], Idle));
  }

  // ---------------------------------------------------------------- what reopening restores

  /** The last file is not finished, but its last record happens to look like a trailer. */
  ghost predicate Mimics(w: Wal, md5: Md5)
    requires w.slots != []
  {
    !w.phase.Footed? && Ended(Last(w.slots).file.disk, md5)
  }

  /** The log that is on disk, in its files. */
  ghost function DiskView(w: Wal, v: View): (r: View)
    requires 0 <= OnDisk(w, v) <= |v.log|
  {
    View(v.log[..OnDisk(w, v)], if w.phase.Footed? then v.segs + [[]] else v.segs)
  }

  /** Loading the file of slot `j` gives the slot. */
  ghost predicate SlotLoaded(files: seq<Stored>, slots: seq<Slot>, j: nat, md5: Md5) {
    && j < |files| && j < |slots| && files[j] == Stored(slots[j].file.start, slots[j].file.disk)
    && Loaded(files[j].bytes, files[j].start, md5) == Info(slots[j].file.ivts, slots[j].key, true)
  }

  lemma {:induction false} OldStep(files: seq<Stored>, n: nat, md5: Md5, before: seq<Slot>, slot: Slot)
    requires 0 < n <= |files| && OldFiles(files, n - 1, md5) == Some(before)
    requires files[n - 1] == Stored(slot.file.start, slot.file.disk)
    requires Loaded(files[n - 1].bytes, files[n - 1].start, md5) == Info(slot.file.ivts, slot.key, true)
    ensures OldFiles(files, n, md5) == Some(before + [slot])
  {
  }

  lemma {:induction false} OldRestored(files: seq<Stored>, slots: seq<Slot>, n: nat, md5: Md5)
    requires n <= |slots| && n <= |files|
    requires forall j {:trigger SlotLoaded(files, slots, j, md5)} :: 0 <= j < n ==> SlotLoaded(files, slots, j, md5)
    ensures OldFiles(files, n, md5) == Some(slots[..n])
  {
    if n > 0 {
      OldRestored(files, slots, n - 1, md5);
      assert SlotLoaded(files, slots, n - 1, md5);
      OldStep(files, n, md5, slots[..n - 1], slots[n - 1]);
      assert slots[..n] == slots[..n - 1] + [slots[n - 1]];
    } else {
      assert slots[..n] == [];
    }
  }

  lemma OldLoaded(w: Wal, v: View, md5: Md5, j: nat)
    requires Inv(w, v, md5) && Checksum(md5) && j < |w.slots| - 1
    ensures SlotLoaded(Dir(w), w.slots, j, md5)
  {
    assert OldSlotOk(w, v, j, md5);
    FootedLoaded(w.slots[j].file, Start(w, v, j), v.segs[j], md5);
  }

  lemma FootedLoaded(f: File, start: nat, on: seq<Rec>, md5: Md5)
    requires FileOk(f, start, on, on, true, md5) && Checksum(md5)
    ensures Loaded(f.disk, start, md5) == Info(f.ivts, start + |on| - 1, true)
  {
    var order :| Enumerates(f.ivts, order) && f.disk == Finished(start, on, order, md5);
    LoadFinished(start, on, order, md5);
  }

  lemma OpenLoaded(f: File, start: nat, on: seq<Rec>, listed: seq<Rec>, md5: Md5)
    requires FileOk(f, start, on, listed, false, md5) && !Ended(f.disk, md5)
    ensures Loaded(f.disk, start, md5) == Info(IndexOf(start, on), if on == [] then 0 else start + |on| - 1, false)
    ensures Fits(start, on)
  {
    BodyConcat(on, listed[|on|..]);
    assert listed == on + listed[|on|..];
    assert on[..0] == [];
    ScanBody(start, on, 0, f.disk, 0, map[]);
  }

  /** The state that opening the directory of `w` should give. */
  ghost function Restored(w: Wal, v: View): (u: Wal)
    requires w.slots != [] && v.segs != [] && 0 <= OnDisk(w, v) && 0 < w.startIdx
  {
    var last := w.startIdx + OnDisk(w, v) - 1;
    var m, start := |w.slots| - 1, Start(w, v, |v.segs| - 1);
    var f := Last(w.slots).file;
    if w.phase.Footed? then
      Wal(w.startIdx, last, last + 1,
          w.slots[..m] + [Slot(last, f)] + [Slot(MAX_INDEX, File(last + 1, [], map[]))], 0, [], Idle)
    else
      Wal(w.startIdx, last, last + 1,
          w.slots[..m] + [Slot(MAX_INDEX, f.(ivts := IndexOf(start, Last(v.segs))))], |f.disk|, [], Idle)
  }

  /** The finished files before the last are found as they are. */
  lemma OldFound(w: Wal, v: View, md5: Md5)
    requires Inv(w, v, md5) && Checksum(md5)
    ensures OldFiles(Dir(w), |w.slots| - 1, md5) == Some(w.slots[..|w.slots| - 1])
    ensures Dir(w)[0].start == w.startIdx
  {
    var m := |w.slots| - 1;
    forall j | 0 <= j < m ensures SlotLoaded(Dir(w), w.slots, j, md5) { OldLoaded(w, v, md5, j); }
    OldRestored(Dir(w), w.slots, m, md5);
    FirstFile(w, v, md5);
  }

  /** What the last file holds, apart from the rest of the invariant. */
  lemma LastFound(w: Wal, v: View, md5: Md5)
    requires Inv(w, v, md5)
    ensures var start, on := Start(w, v, |v.segs| - 1), Last(v.segs);
            && FileOk(Last(w.slots).file, start, on, Listed(w, v), w.phase.Footed?, md5)
            && 0 < start && start + |on| == w.startIdx + OnDisk(w, v)
  {
    StartLast(w, v, md5);
  }

  lemma RestoredIsNew(w: Wal, v: View, last: nat, f: File)
    requires w.slots != [] && v.segs != [] && 0 <= OnDisk(w, v) && 0 < w.startIdx && w.phase.Footed?
    requires last == w.startIdx + OnDisk(w, v) - 1 && f == Last(w.slots).file
    ensures Restored(w, v) == Wal(w.startIdx, last, last + 1,
              w.slots[..|w.slots| - 1] + [Slot(last, f)] + [Slot(MAX_INDEX, File(last + 1, [], map[]))], 0, [], Idle)
  {
  }

  lemma {:induction false} OpensToFooted(w: Wal, v: View, md5: Md5, files: seq<Stored>, last: nat, f: File)
    requires w.slots != [] && v.segs != [] && 0 <= OnDisk(w, v) && 0 < w.startIdx && w.phase.Footed?
    requires files != [] && files[0].start == w.startIdx && Last(files) == Stored(f.start, f.disk)
    requires OldFiles(files, |files| - 1, md5) == Some(w.slots[..|w.slots| - 1]) && f == Last(w.slots).file
    requires Loaded(f.disk, f.start, md5) == Info(f.ivts, last, true)
    requires last == w.startIdx + OnDisk(w, v) - 1 && last < MAX_INDEX
    ensures Opened(files, md5) == Some(Restored(w, v))
  {
    RestoredIsNew(w, v, last, f);
    OpensFooted(files, md5, w.slots[..|w.slots| - 1], f, last, Restored(w, v));
  }

  lemma {:induction false} OpensToPartial(w: Wal, v: View, md5: Md5, start: nat, on: seq<Rec>, listed: seq<Rec>, f: File)
    requires w.slots != [] && v.segs != [] && 0 <= OnDisk(w, v) && 0 < w.startIdx && 0 < start
    requires OldFiles(Dir(w), |w.slots| - 1, md5) == Some(w.slots[..|w.slots| - 1]) && Dir(w)[0].start == w.startIdx
    requires !w.phase.Footed? && f == Last(w.slots).file && FileOk(f, start, on, listed, false, md5) && !Ended(f.disk, md5)
    requires start + |on| == w.startIdx + OnDisk(w, v) && start == Start(w, v, |v.segs| - 1) && on == Last(v.segs)
    ensures Opened(Dir(w), md5) == Some(Restored(w, v))
  {
    OpenLoaded(f, start, on, listed, md5);
    OpensPartial(Dir(w), md5, w.slots[..|w.slots| - 1], f, start + |on| - 1, IndexOf(start, on), Restored(w, v));
  }

  /** Behind a finished last file a new one is started. */
  lemma {:induction false} OpensFooted(files: seq<Stored>, md5: Md5, before: seq<Slot>, f: File, last: nat, u: Wal)
    requires files != [] && Last(files) == Stored(f.start, f.disk) && last < MAX_INDEX
    requires OldFiles(files, |files| - 1, md5) == Some(before)
    requires Loaded(f.disk, f.start, md5) == Info(f.ivts, last, true)
    requires u == Wal(files[0].start, last, last + 1,
               before + [Slot(last, f)] + [Slot(MAX_INDEX, File(last + 1, [], map[]))], 0, [], Idle)
    ensures Opened(files, md5) == Some(u)
  {
  }

  /** A last file that is not finished is continued. */
  lemma {:induction false} OpensPartial(files: seq<Stored>, md5: Md5, before: seq<Slot>, f: File, last: nat, ivts: Ivts, u: Wal)
    requires files != [] && Last(files) == Stored(f.start, f.disk) && 0 < f.start
    requires OldFiles(files, |files| - 1, md5) == Some(before) && f.start - 1 <= last
    requires Loaded(f.disk, f.start, md5) == Info(ivts, if last < f.start then 0 else last, false)
    requires u == Wal(files[0].start, last, last + 1,
               before + [Slot(MAX_INDEX, f.(ivts := ivts))], |f.disk|, [], Idle)
    ensures Opened(files, md5) == Some(u)
  {
  }

  lemma FirstFile(w: Wal, v: View, md5: Md5)
    requires Inv(w, v, md5)
    ensures w.slots[0].file.start == w.startIdx
  {
    assert v.segs[..0] == [];
    if |v.segs| > 1 { assert OldSlotOk(w, v, 0, md5); }
  }

  lemma RestoredQueue(w: Wal, v: View, md5: Md5)
    requires Inv(w, v, md5)
    ensures QueueOk(Restored(w, v), DiskView(w, v))
    ensures OnDisk(Restored(w, v), DiskView(w, v)) == OnDisk(w, v) == |DiskView(w, v).log|
  {
  }

  lemma RestoredOpen(w: Wal, v: View, md5: Md5)
    requires Inv(w, v, md5) && !w.phase.Footed?
    ensures Inv(Restored(w, v), DiskView(w, v), md5)
  {
    var u, x := Restored(w, v), DiskView(w, v);
    var start, on := Start(w, v, |v.segs| - 1), Last(v.segs);
    RestoredQueue(w, v, md5);
    OldSlotsKept(w, v, u, x, md5);
    OpenFile(w.slots, w.pos, start, on, Listed(w, v), md5);
    assert Last(u.slots) == Slot(MAX_INDEX, Last(w.slots).file.(ivts := IndexOf(start, on)));
    assert LastOk(u.slots, u.pos, start, on, on, false, md5);
    Assemble(u, x, md5, start, on, on);
  }

  lemma OpenFile(slots: seq<Slot>, pos: nat, start: nat, on: seq<Rec>, listed: seq<Rec>, md5: Md5)
    requires LastOk(slots, pos, start, on, listed, false, md5)
    ensures FileOk(Last(slots).file.(ivts := IndexOf(start, on)), start, on, on, false, md5)
    ensures |Last(slots).file.disk| == |Body(on)|
  {
    BodyConcat(on, listed[|on|..]);
    assert listed == on + listed[|on|..];
  }

  lemma RestoredFooted(w: Wal, v: View, md5: Md5)
    requires Inv(w, v, md5) && w.phase.Footed?
    ensures Inv(Restored(w, v), DiskView(w, v), md5)
  {
    var u, x := Restored(w, v), DiskView(w, v);
    var m := |v.segs| - 1;
    StartLast(w, v, md5);
    RestoredQueue(w, v, md5);
    assert x.segs[..m + 1] == v.segs && Flat(x.segs) == Flat(v.segs);
    RollSlots(w, v, u, x, md5);
    assert LastOk(u.slots, u.pos, Start(u, x, m + 1), [], [], false, md5);
    Assemble(u, x, md5, Start(u, x, m + 1), [], []);
  }

  /**
   Reopening the directory at any moment of any run restores a log that satisfies the invariant and
   holds exactly the records on disk: the same first index, the last index written, and the next
   index behind it, whether the last file is empty, partly filled or finished.
   */
  lemma ReopenRestores(w: Wal, v: View, md5: Md5)
    requires Inv(w, v, md5) && Checksum(md5) && !Mimics(w, md5)
    ensures Opened(Dir(w), md5) == Some(Restored(w, v))
    ensures Inv(Restored(w, v), DiskView(w, v), md5)
    ensures var u := Restored(w, v);
            u.startIdx == w.startIdx && u.lastIdx == w.startIdx + OnDisk(w, v) - 1 && u.nextIdx == u.lastIdx + 1
  {
    var start, on, f := Start(w, v, |v.segs| - 1), Last(v.segs), Last(w.slots).file;
    OldFound(w, v, md5);
    LastFound(w, v, md5);
    if w.phase.Footed? {
      FootedLoaded(f, start, on, md5);
      OpensToFooted(w, v, md5, Dir(w), start + |on| - 1, f);
      RestoredFooted(w, v, md5);
    } else {
      OpensToPartial(w, v, md5, start, on, Listed(w, v), f);
      RestoredOpen(w, v, md5);
    }
  }

  /** A log at rest is restored with the same bounds, and every entry reads as it did before. */
  lemma ReopenAtRest(w: Wal, v: View, md5: Md5, idx: nat)
    requires Inv(w, v, md5) && Checksum(md5) && !Mimics(w, md5) && w.phase.Idle? && w.writers == []
    ensures Opened(Dir(w), md5).Some?
    ensures var u := Opened(Dir(w), md5).value;
            && u.startIdx == w.startIdx && u.lastIdx == w.lastIdx && u.nextIdx == w.nextIdx
            && EntryAt(u, idx) == EntryAt(w, idx)
  {
    ReopenRestores(w, v, md5);
    SameEntries(w, v, Restored(w, v), DiskView(w, v), md5, idx);
  }

  lemma SameEntries(w: Wal, v: View, u: Wal, x: View, md5: Md5, idx: nat)
    requires Inv(w, v, md5) && Inv(u, x, md5) && u.startIdx == w.startIdx && u.lastIdx == w.lastIdx && x.log == v.log
    ensures EntryAt(u, idx) == EntryAt(w, idx)
  {
    if w.startIdx <= idx <= w.lastIdx {
      ReadsBack(w, v, md5, idx);
      ReadsBack(u, x, md5, idx);
    }
  }

  /** Reopening continues the log exactly when no unfinished last file looks finished. */
  lemma ReopensExactly(w: Wal, v: View, md5: Md5)
    requires Inv(w, v, md5) && Checksum(md5)
    ensures Opened(Dir(w), md5) == Some(Restored(w, v)) <==> !Mimics(w, md5)
  {
    if !Mimics(w, md5) {
      ReopenRestores(w, v, md5);
    } else {
      MimicOpens(Dir(w), md5);
    }
  }

  /** A last file taken for a finished one is left behind, or refused. */
  lemma MimicOpens(files: seq<Stored>, md5: Md5)
    requires files != [] && Ended(Last(files).bytes, md5)
    ensures Opened(files, md5).Some? ==> Opened(files, md5).value.pos == 0
  {
  }

  /** One record whose bytes end like a trailer: index count 0, then where and how long it is. */
  function Lookalike(md5: Md5): (r: Rec) {
    BE(0, 4) + Trailer(4, 4, md5)
  }

  /** The log that holds only that record. */
  function LookalikeLog(md5: Md5): (w: Wal) {
    var r := Lookalike(md5);
    Wal(1, 1, 2, [Slot(MAX_INDEX, File(1, Entry(r), map[1 := Pack(0, HEADER + |r|)]))], HEADER + |r|, [], Idle)
  }

  lemma LookalikeLoads(md5: Md5, disk: seq<byte>)
    requires Checksum(md5) && disk == Entry(Lookalike(md5))
    ensures |disk| == 81 && Loaded(disk, 1, md5) == Info(map[], 0, true)
  {
    var zero, key := BE(0, 4), BE(4, 4) + BE(4, 4);
    assert |md5(key)| == 65;
    LookalikeParts(disk, BE(77, 4), zero, BE(4, 4), md5(key));
    Widths();
    BERoundTrip(4, 4);
    BERoundTrip(0, 4);
    assert zero[..HEADER] == zero;
    LoadFooter(disk, 4, zero, 0, 1, md5);
  }

  lemma LookalikeParts(disk: seq<byte>, size: seq<byte>, zero: seq<byte>, four: seq<byte>, sum: seq<byte>)
    requires |size| == |zero| == |four| == 4 && |sum| == 65
    requires disk == size + (zero + (four + four + sum))
    ensures |disk| == 81 && disk[4..8] == zero && disk[8..16] == four + four && disk[16..] == sum
    ensures disk[8..][..4] == four && disk[8..][4..8] == four
  {
  }

  /** Such a log is forgotten by reopening it: entry 1 was readable and no longer is. */
  lemma LookalikeLost(md5: Md5)
    requires Checksum(md5)
    ensures var r, w := Lookalike(md5), LookalikeLog(md5);
            && Inv(w, View([r], [[r]]), md5) && EntryAt(w, 1) == Some(Entry(r))
            && Opened(Dir(w), md5).Some?
            && var u := Opened(Dir(w), md5).value;
               u.startIdx == 1 && u.lastIdx == 0 && u.nextIdx == 1 && EntryAt(u, 1) == None
  {
    var r, w := Lookalike(md5), LookalikeLog(md5);
    LookalikeInv(md5);
    ReadsBack(w, View([r], [[r]]), md5, 1);
    LookalikeLoads(md5, Entry(r));
    assert Dir(w) == [Stored(1, Entry(r))];
    LookalikeOpens(Dir(w), md5, Entry(r));
  }

  lemma LookalikeOpens(files: seq<Stored>, md5: Md5, disk: seq<byte>)
    requires files == [Stored(1, disk)] && Loaded(disk, 1, md5) == Info(map[], 0, true)
    ensures Opened(files, md5).Some?
    ensures var u := Opened(files, md5).value; u.startIdx == 1 && u.lastIdx == 0 && u.nextIdx == 1
  {
  }

  lemma LookalikeInv(md5: Md5)
    requires Checksum(md5)
    ensures var r := Lookalike(md5); Inv(LookalikeLog(md5), View([r], [[r]]), md5)
  {
    var r, w := Lookalike(md5), LookalikeLog(md5);
    var v := View([r], [[r]]);
    LookalikeLoads(md5, Entry(r));
    assert [r] == [] + [r];
    BodySnoc([], r);
    IndexSnoc(1, [], r);
    assert v.segs == [] + [[r]] && v.segs[..0] == [];
    assert Flat(v.segs) == [r] == v.log[..1];
    assert FileOk(w.slots[0].file, 1, [r], [r], false, md5);
    Assemble(w, v, md5, 1, [r], [r]);
  }
}
