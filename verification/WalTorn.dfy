/**
 A stop in the middle of a write: the last file ends with part of a record, and what opening the
 directory then makes of it.
 */
module WalTorn {
  import opened Common
  import opened Bytes
  import opened WalFormat
  import opened WalFile
  import opened WalLog
  import opened WalSteps
  import opened WalRecover

  // ---------------------------------------------------------------- which directories open

  ghost predicate Finishes(f: Stored, md5: Md5) {
    var info := Loaded(f.bytes, f.start, md5); info.Info? && info.full
  }

  lemma {:induction false} OldOne(files: seq<Stored>, n: nat, md5: Md5)
    requires 0 < n <= |files|
    ensures OldFiles(files, n, md5).Some? <==> OldFiles(files, n - 1, md5).Some? && Finishes(files[n - 1], md5)
  {
  }

  lemma {:induction false} OldOpens(files: seq<Stored>, n: nat, md5: Md5)
    requires n <= |files|
    ensures OldFiles(files, n, md5).Some? <==> forall j :: 0 <= j < n ==> Finishes(files[j], md5)
  {
    if n > 0 {
      OldOpens(files, n - 1, md5);
      OldOne(files, n, md5);
    }
  }

  /** A directory opens exactly when its last file can be loaded and all others are finished. */
  lemma OpensIff(files: seq<Stored>, md5: Md5)
    ensures Opened(files, md5).Some?
       <==> files == [] || (&& (forall j :: 0 <= j < |files| - 1 ==> Finishes(files[j], md5))
                            && Loaded(Last(files).bytes, Last(files).start, md5).Info?)
  {
    if files != [] { OldOpens(files, |files| - 1, md5); }
  }

  // ---------------------------------------------------------------- scanning a torn file

  lemma TornHead(disk: seq<byte>, on: seq<Rec>, k: nat, torn: seq<byte>)
    requires k < |on| && disk == Body(on) + torn && |Body(on)| < UINT32
    ensures var pos := |Body(on[..k])|;
            pos + HEADER + |on[k]| <= |disk| && FromBE(disk[pos..pos + HEADER]) == |on[k]|
  {
    BodyAt(on, k);
    var pos, n := |Body(on[..k])|, HEADER + |on[k]|;
    assert disk[pos..pos + n] == Body(on)[pos..pos + n];
    assert disk[pos..pos + HEADER] == disk[pos..pos + n][..HEADER];
    Widths();
    BERoundTrip(|on[k]|, HEADER);
  }

  /** The last step of the scan meets the torn record. */
  lemma TornEnd(start: nat, on: seq<Rec>, r: Rec, t: nat, disk: seq<byte>)
    requires Fits(start, on + [r]) && 0 < t < |Entry(r)| && disk == Body(on) + Entry(r)[..t]
    ensures Scanned(disk, start, |on|, |Body(on)|, IndexOf(start, on))
         == if t < HEADER then Failed else Info(IndexOf(start, on + [r]), start + |on|, false)
  {
    BodySnoc(on, r);
    IndexSnoc(start, on, r);
    if t >= HEADER {
      var pos := |Body(on)|;
      assert disk[pos..pos + HEADER] == BE(|r|, HEADER);
      Widths();
      BERoundTrip(|r|, HEADER);
      ScanStep(disk, start, |on|, pos, IndexOf(start, on), HEADER + |r|);
    }
  }

  lemma FitsLess(start: nat, on: seq<Rec>, r: Rec)
    requires Fits(start, on + [r])
    ensures Fits(start, on)
  {
    BodySnoc(on, r);
  }

  /** A file of entries with part of one more behind them: too short a part fails, a longer one counts as an entry. */
  lemma {:induction false} TornScan(start: nat, on: seq<Rec>, r: Rec, t: nat, disk: seq<byte>, k: nat)
    requires Fits(start, on + [r]) && 0 < t < |Entry(r)| && disk == Body(on) + Entry(r)[..t] && k <= |on|
    ensures Scanned(disk, start, k, |Body(on[..k])|, IndexOf(start, on[..k]))
         == if t < HEADER then Failed else Info(IndexOf(start, on + [r]), start + |on|, false)
    decreases |on| - k
  {
    if k == |on| {
      assert on[..k] == on;
      TornEnd(start, on, r, t, disk);
    } else {
      FitsLess(start, on, r);
      TornStep(start, on, disk, k, Entry(r)[..t]);
      TornScan(start, on, r, t, disk, k + 1);
    }
  }

  lemma TornStep(start: nat, on: seq<Rec>, disk: seq<byte>, k: nat, torn: seq<byte>)
    requires Fits(start, on) && k < |on| && disk == Body(on) + torn
    ensures Scanned(disk, start, k, |Body(on[..k])|, IndexOf(start, on[..k]))
         == Scanned(disk, start, k + 1, |Body(on[..k + 1])|, IndexOf(start, on[..k + 1]))
  {
    TornHead(disk, on, k, torn);
    BodyAt(on, k);
    ScanStep(disk, start, k, |Body(on[..k])|, IndexOf(start, on[..k]), HEADER + |on[k]|);
    PrefixStep(start, on, k);
  }

  // ---------------------------------------------------------------- opening a torn directory

  /** The directory of `w` with more bytes at the end of its last file. */
  ghost function Extended(w: Wal, more: seq<byte>): (files: seq<Stored>)
    requires w.slots != []
  {
    var f := Last(w.slots).file;
    Dir(w)[|w.slots| - 1 := Stored(f.start, f.disk + more)]
  }

  lemma {:induction false} OldFilesSame(a: seq<Stored>, b: seq<Stored>, n: nat, md5: Md5)
    requires n <= |a| && n <= |b| && forall j :: 0 <= j < n ==> a[j] == b[j]
    ensures OldFiles(a, n, md5) == OldFiles(b, n, md5)
  {
    if n > 0 { OldFilesSame(a, b, n - 1, md5); }
  }

  /** The last file of an idle log with a torn record behind it, as it is loaded. */
  ghost function TornFile(f: File, r: Rec, t: nat, on: seq<Rec>): (g: File)
    requires t <= |Entry(r)|
  {
    File(f.start, f.disk + Entry(r)[..t], IndexOf(f.start, on + [r]))
  }

  /** What opening the directory gives when the torn part is long enough to hold a length. */
  ghost function TornLog(w: Wal, r: Rec, t: nat, on: seq<Rec>): (u: Wal)
    requires w.slots != [] && t <= |Entry(r)| && 0 <= w.lastIdx + 1
  {
    var f := Last(w.slots).file;
    Wal(w.startIdx, w.lastIdx + 1, w.lastIdx + 2,
        w.slots[..|w.slots| - 1] + [Slot(MAX_INDEX, TornFile(f, r, t, on))], |f.disk| + t, [], Idle)
  }

  ghost predicate Resting(w: Wal, v: View, md5: Md5) {
    Inv(w, v, md5) && w.phase.Idle? && w.writers == []
  }

  lemma TornLoaded(w: Wal, v: View, md5: Md5, r: Rec, t: nat, bytes: seq<byte>)
    requires Resting(w, v, md5) && 0 < t < |Entry(r)| && Fits(Start(w, v, |v.segs| - 1), Last(v.segs) + [r])
    requires bytes == Last(w.slots).file.disk + Entry(r)[..t] && !Ended(bytes, md5)
    ensures var f, on := Last(w.slots).file, Last(v.segs);
            && f.start == Start(w, v, |v.segs| - 1) && f.start + |on| == w.lastIdx + 1
            && Loaded(bytes, f.start, md5)
               == if t < HEADER then Failed else Info(IndexOf(f.start, on + [r]), w.lastIdx + 1, false)
  {
    LastFound(w, v, md5);
    var f, on := Last(w.slots).file, Last(v.segs);
    assert on[..0] == [];
    TornScan(f.start, on, r, t, bytes, 0);
  }

  lemma OpensTorn(w: Wal, v: View, md5: Md5, r: Rec, t: nat)
    requires Resting(w, v, md5) && Checksum(md5) && 0 < t < |Entry(r)|
    requires Fits(Start(w, v, |v.segs| - 1), Last(v.segs) + [r]) && !Ended(Last(w.slots).file.disk + Entry(r)[..t], md5)
    ensures Opened(Extended(w, Entry(r)[..t]), md5)
         == if t < HEADER then None else Some(TornLog(w, r, t, Last(v.segs)))
  {
    var m, f := |w.slots| - 1, Last(w.slots).file;
    var files, bytes := Extended(w, Entry(r)[..t]), f.disk + Entry(r)[..t];
    OldFound(w, v, md5);
    OldFilesSame(Dir(w), files, m, md5);
    TornLoaded(w, v, md5, r, t, bytes);
    assert files[m] == Stored(f.start, bytes) && files[0].start == w.startIdx;
    TornDecides(w, md5, r, t, Last(v.segs), files, bytes);
  }

  /** The loaded last file decides how the directory opens. */
  lemma {:induction false} TornDecides(w: Wal, md5: Md5, r: Rec, t: nat, on: seq<Rec>, files: seq<Stored>, bytes: seq<byte>)
    requires w.slots != [] && t < |Entry(r)| && |files| == |w.slots| && files[0].start == w.startIdx
    requires var f := Last(w.slots).file;
             && 0 < f.start <= w.lastIdx + 1 && bytes == f.disk + Entry(r)[..t] && Last(files) == Stored(f.start, bytes)
             && OldFiles(files, |files| - 1, md5) == Some(w.slots[..|w.slots| - 1])
             && Loaded(bytes, f.start, md5)
                == if t < HEADER then Failed else Info(IndexOf(f.start, on + [r]), w.lastIdx + 1, false)
    ensures Opened(files, md5) == if t < HEADER then None else Some(TornLog(w, r, t, on))
  {
    if t >= HEADER {
      var f, g := Last(w.slots).file, TornFile(Last(w.slots).file, r, t, on);
      OpensPartial(files, md5, w.slots[..|w.slots| - 1], File(f.start, bytes, f.ivts), w.lastIdx + 1, g.ivts, TornLog(w, r, t, on));
    }
  }

  // ---------------------------------------------------------------- reading a torn log

  lemma {:induction false} SameSearch(a: seq<Slot>, b: seq<Slot>, idx: nat, i: nat)
    requires |a| == |b| && i <= |a| && forall j :: 0 <= j < |a| ==> a[j].key == b[j].key
    ensures LowerBound(a, idx, i) == LowerBound(b, idx, i)
    decreases |a| - i
  {
    if i < |a| && a[i].key < idx { SameSearch(a, b, idx, i + 1); }
  }

  /** An index behind all finished files is looked for in the last one. */
  lemma FoundLast(w: Wal, v: View, md5: Md5, idx: nat)
    requires SlotsOk(w, v, md5) && v.segs != [] && Start(w, v, |v.segs| - 1) <= idx <= MAX_INDEX
    ensures LowerBound(w.slots, idx, 0) == |w.slots| - 1
  {
    var m, found := |w.slots| - 1, LowerBound(w.slots, idx, 0);
    assert SlotOk(w, v, md5, m);
    if found < m {
      assert SlotOk(w, v, md5, found);
      FlatCut(v.segs, found);
      FlatMonotone(v.segs, found + 1, m);
    }
  }

  lemma TornPlace(start: nat, on: seq<Rec>, r: Rec, ivts: Ivts)
    requires Fits(start, on + [r]) && ivts == IndexOf(start, on + [r])
    ensures start + |on| in ivts && ivts[start + |on|] == Pack(|Body(on)|, HEADER + |r|)
    ensures |Body(on)| + HEADER + |r| < UINT32
  {
    IndexSnoc(start, on, r);
    EntryFits(start, on, r);
  }

  lemma EntryFits(start: nat, on: seq<Rec>, r: Rec)
    requires Fits(start, on + [r])
    ensures |Body(on)| + HEADER + |r| < UINT32
  {
    BodySnoc(on, r);
  }

  /** An entry that reaches beyond the end of the file cannot be read. */
  lemma TornPast(g: File, idx: nat, p: nat, n: nat)
    requires idx in g.ivts && g.ivts[idx] == Pack(p, n) && n < UINT32 && p + n > |g.disk|
    ensures ReadFile(g, idx) == None
  {
    PackRoundTrip(p, n);
  }

  lemma StillRead(f: File, on: seq<Rec>, r: Rec, t: nat, start: nat, idx: nat)
    requires f.start == start && f.ivts == IndexOf(start, on) && t <= |Entry(r)| && idx != start + |on|
    requires ReadFile(f, idx).Some?
    ensures ReadFile(TornFile(f, r, t, on), idx) == ReadFile(f, idx)
  {
    IndexSnoc(start, on, r);
    var pos, n, g := f.ivts[idx] / UINT32, f.ivts[idx] % UINT32, TornFile(f, r, t, on);
    assert g.ivts[idx] == f.ivts[idx];
    assert g.disk[pos..pos + n] == f.disk[pos..pos + n];
  }

  lemma TornKeys(w: Wal, r: Rec, t: nat, on: seq<Rec>)
    requires w.slots != [] && t <= |Entry(r)| && 0 <= w.lastIdx + 1 && Last(w.slots).key == MAX_INDEX
    ensures var u := TornLog(w, r, t, on);
            && |u.slots| == |w.slots| && (forall j :: 0 <= j < |w.slots| ==> u.slots[j].key == w.slots[j].key)
            && (forall j :: 0 <= j < |w.slots| - 1 ==> u.slots[j] == w.slots[j])
            && Last(u.slots).file == TornFile(Last(w.slots).file, r, t, on)
  {
  }

  /** The torn record counts as the last entry and cannot be read; all entries before it read as they did. */
  lemma TornReads(w: Wal, v: View, md5: Md5, r: Rec, t: nat, idx: nat)
    requires Resting(w, v, md5) && t < |Entry(r)| && Fits(Start(w, v, |v.segs| - 1), Last(v.segs) + [r])
    ensures var u := TornLog(w, r, t, Last(v.segs));
            && u.startIdx == w.startIdx && u.lastIdx == w.lastIdx + 1 && EntryAt(u, u.lastIdx) == None
            && (idx <= w.lastIdx ==> EntryAt(u, idx) == EntryAt(w, idx))
  {
    var u, on := TornLog(w, r, t, Last(v.segs)), Last(v.segs);
    LastFound(w, v, md5);
    InvSlots(w, v, md5);
    TornKeys(w, r, t, on);
    TornLast(w, v, md5, r, t, u);
    if w.startIdx <= idx <= w.lastIdx { TornBefore(w, v, md5, r, t, u, idx); }
  }

  lemma TornLast(w: Wal, v: View, md5: Md5, r: Rec, t: nat, u: Wal)
    requires Resting(w, v, md5) && SlotsOk(w, v, md5) && t < |Entry(r)| && u == TornLog(w, r, t, Last(v.segs))
    requires Fits(Start(w, v, |v.segs| - 1), Last(v.segs) + [r])
    ensures EntryAt(u, u.lastIdx) == None
  {
    var on, start := Last(v.segs), Start(w, v, |v.segs| - 1);
    LastFound(w, v, md5);
    TornKeys(w, r, t, on);
    SameSearch(u.slots, w.slots, u.lastIdx, 0);
    FoundLast(w, v, md5, u.lastIdx);
    TornPlace(start, on, r, Last(u.slots).file.ivts);
    TornPast(Last(u.slots).file, u.lastIdx, |Body(on)|, HEADER + |r|);
  }

  lemma TornBefore(w: Wal, v: View, md5: Md5, r: Rec, t: nat, u: Wal, idx: nat)
    requires Resting(w, v, md5) && SlotsOk(w, v, md5) && t < |Entry(r)| && u == TornLog(w, r, t, Last(v.segs))
    requires w.startIdx <= idx <= w.lastIdx
    ensures EntryAt(u, idx) == EntryAt(w, idx)
  {
    var on, f := Last(v.segs), Last(w.slots).file;
    LastFound(w, v, md5);
    TornKeys(w, r, t, on);
    SameSearch(u.slots, w.slots, idx, 0);
    ReadsBack(w, v, md5, idx);
    if LowerBound(w.slots, idx, 0) == |w.slots| - 1 { StillRead(f, on, r, t, Start(w, v, |v.segs| - 1), idx); }
  }

  // ---------------------------------------------------------------- a batch cut anywhere

  /** The records of the batch that is being written. */
  ghost function Writing(w: Wal, v: View): (rs: seq<Rec>)
    requires QueueOk(w, v) && w.phase.Batched?
    ensures |rs| == w.phase.n
  {
    v.log[Gone(w, v)..Gone(w, v) + w.phase.n]
  }

  /** The log as it is with only the first `j` records of the batch in the file. */
  ghost function Landed(w: Wal, v: View, j: nat): (u: Wal)
    requires QueueOk(w, v) && w.phase.Batched? && j <= w.phase.n && w.slots != [] && v.segs != []
  {
    var f, next := Last(w.slots).file, w.startIdx + Gone(w, v) + j;
    var on := Last(v.segs) + Writing(w, v)[..j];
    Wal(w.startIdx, next - 1, next, SetLast(w.slots, File(f.start, Body(on), IndexOf(f.start, on))), |Body(on)|, [], Idle)
  }

  ghost function LandedView(w: Wal, v: View, j: nat): (x: View)
    requires QueueOk(w, v) && w.phase.Batched? && j <= w.phase.n && v.segs != []
  {
    View(v.log[..Gone(w, v) + j], Longer(v.segs, Writing(w, v)[..j]))
  }

  lemma FitsPrefix(start: nat, a: seq<Rec>, b: seq<Rec>)
    requires Fits(start, b) && a <= b
    ensures Fits(start, a)
  {
    BodyConcat(a, b[|a|..]);
    assert b == a + b[|a|..];
  }

  lemma LandedFlat(log: seq<Rec>, segs: seq<seq<Rec>>, g: nat, j: nat, n: nat)
    requires segs != [] && g + n <= |log| && j <= n && Flat(segs) == log[..g]
    ensures Flat(Longer(segs, log[g..g + n][..j])) == log[..g + j]
  {
    LongerFlat(segs, log[g..g + n][..j]);
    assert log[g..g + n][..j] == log[g..g + j];
    assert log[..g + j] == log[..g] + log[g..g + j];
  }

  lemma LandedRests(w: Wal, v: View, md5: Md5, j: nat)
    requires Inv(w, v, md5) && w.phase.Batched? && j <= w.phase.n
    ensures Resting(Landed(w, v, j), LandedView(w, v, j), md5)
  {
    var u, x := Landed(w, v, j), LandedView(w, v, j);
    var start, on := Start(w, v, |v.segs| - 1), Last(v.segs) + Writing(w, v)[..j];
    LandedQueue(w, v, j, u, x);
    SetLastKept(w, v, u, x, md5, Last(u.slots).file);
    FitsPrefix(start, on, Listed(w, v));
    LandedLast(w, v, md5, j, u.slots, start, on);
    Assemble(u, x, md5, start, on, on);
  }

  lemma LandedQueue(w: Wal, v: View, j: nat, u: Wal, x: View)
    requires v.segs != [] && |w.slots| == |v.segs| && QueueOk(w, v) && Flat(v.segs) == v.log[..Gone(w, v)]
    requires w.phase.Batched? && j <= w.phase.n && u == Landed(w, v, j) && x == LandedView(w, v, j)
    ensures QueueOk(u, x) && OnDisk(u, x) == |x.log| && Flat(x.segs) == x.log && x.log[..|x.log|] == x.log
    ensures |x.segs| == |v.segs| == |u.slots| && x.segs[..|v.segs| - 1] == v.segs[..|v.segs| - 1]
    ensures Last(x.segs) == Last(v.segs) + Writing(w, v)[..j] == Listed(u, x)
  {
    var landed := Writing(w, v)[..j];
    LandedFlat(v.log, v.segs, Gone(w, v), j, w.phase.n);
    LongerFlat(v.segs, landed);
    LongerLast(v.segs, landed);
  }

  lemma LongerLast(segs: seq<seq<Rec>>, more: seq<Rec>)
    requires segs != []
    ensures Last(Longer(segs, more)) == Last(segs) + more
  {
  }

  lemma LandedLast(w: Wal, v: View, md5: Md5, j: nat, slots: seq<Slot>, start: nat, on: seq<Rec>)
    requires Inv(w, v, md5) && start == Start(w, v, |v.segs| - 1) && Fits(start, on)
    requires slots == SetLast(w.slots, File(Last(w.slots).file.start, Body(on), IndexOf(Last(w.slots).file.start, on)))
    ensures LastOk(slots, |Body(on)|, start, on, on, false, md5)
  {
  }

  /** What is in the last file when the write stops after `j` whole records and `t` bytes of the next. */
  ghost predicate TornAt(w: Wal, v: View, md5: Md5, j: nat, t: nat, files: seq<Stored>) {
    && Inv(w, v, md5) && w.phase.Batched? && j < w.phase.n && t < |Entry(Writing(w, v)[j])|
    && files == Extended(w, Body(Writing(w, v)[..j]) + Entry(Writing(w, v)[j])[..t])
    && !Ended(Last(files).bytes, md5)
  }

  lemma TornDir(w: Wal, v: View, md5: Md5, j: nat, t: nat, files: seq<Stored>)
    requires TornAt(w, v, md5, j, t, files)
    ensures files == Extended(Landed(w, v, j), Entry(Writing(w, v)[j])[..t])
    ensures Last(files).bytes == Last(Landed(w, v, j).slots).file.disk + Entry(Writing(w, v)[j])[..t]
  {
    var on, landed, torn := Last(v.segs), Writing(w, v)[..j], Entry(Writing(w, v)[j])[..t];
    var f := Last(w.slots).file;
    BodyConcat(on, landed);
    Associate(Body(on), Body(landed), torn);
    SameDir(w, Landed(w, v, j), File(f.start, Body(on + landed), IndexOf(f.start, on + landed)), Body(landed) + torn, torn);
  }

  /** Two logs that differ in their last file only, with bytes behind them that make these files equal. */
  lemma SameDir(w: Wal, u: Wal, g: File, more: seq<byte>, torn: seq<byte>)
    requires w.slots != [] && u.slots == SetLast(w.slots, g) && g.start == Last(w.slots).file.start
    requires g.disk + torn == Last(w.slots).file.disk + more
    ensures Extended(w, more) == Extended(u, torn)
    ensures Last(Extended(w, more)).bytes == Last(u.slots).file.disk + torn
  {
    assert Dir(u) == Dir(w)[|w.slots| - 1 := Stored(g.start, g.disk)];
  }

  lemma TornFits(w: Wal, v: View, md5: Md5, j: nat)
    requires Inv(w, v, md5) && w.phase.Batched? && j < w.phase.n
    ensures var u, x := Landed(w, v, j), LandedView(w, v, j);
            && |x.segs| == |v.segs| && Start(u, x, |x.segs| - 1) == Start(w, v, |v.segs| - 1)
            && Fits(Start(u, x, |x.segs| - 1), Last(x.segs) + [Writing(w, v)[j]])
  {
    var on, batch := Last(v.segs), Writing(w, v);
    LongerFlat(v.segs, batch[..j]);
    LongerLast(v.segs, batch[..j]);
    OneMore(on, batch, j);
    FitsPrefix(Start(w, v, |v.segs| - 1), on + batch[..j + 1], on + batch);
  }

  lemma OneMore(on: seq<Rec>, batch: seq<Rec>, j: nat)
    requires j < |batch|
    ensures (on + batch[..j]) + [batch[j]] == on + batch[..j + 1] <= on + batch
  {
  }

  /**
   A write that stops after `j` records of the batch and `t` bytes of the next one.  At the end of a
   record, opening the directory restores a log of exactly the records that are whole.  Inside a
   length, the directory does not open.  Behind a length, the torn record is counted: the log opens
   with a last entry that cannot be read, and all entries before it read as they should.
   */
  lemma TornWrite(w: Wal, v: View, md5: Md5, j: nat, t: nat, files: seq<Stored>, idx: nat)
    requires Checksum(md5) && TornAt(w, v, md5, j, t, files)
    ensures Opened(files, md5).None? <==> 0 < t < HEADER
    ensures t == 0 ==> Inv(Opened(files, md5).value, LandedView(w, v, j), md5)
    ensures HEADER <= t ==>
              var u := Opened(files, md5).value;
              && u.lastIdx == w.startIdx + Gone(w, v) + j && EntryAt(u, u.lastIdx) == None
              && (w.startIdx <= idx < u.lastIdx ==> EntryAt(u, idx) == Some(Entry(v.log[idx - w.startIdx])))
  {
    if t == 0 { CutWhole(w, v, md5, j, files); } else { CutInside(w, v, md5, j, t, files, idx); }
  }

  lemma CutWhole(w: Wal, v: View, md5: Md5, j: nat, files: seq<Stored>)
    requires Checksum(md5) && TornAt(w, v, md5, j, 0, files)
    ensures Opened(files, md5).Some? && Inv(Opened(files, md5).value, LandedView(w, v, j), md5)
  {
    LandedRests(w, v, md5, j);
    TornDir(w, v, md5, j, 0, files);
    assert Entry(Writing(w, v)[j])[..0] == [];
    WholeOpens(Landed(w, v, j), LandedView(w, v, j), md5, files);
  }

  lemma CutInside(w: Wal, v: View, md5: Md5, j: nat, t: nat, files: seq<Stored>, idx: nat)
    requires Checksum(md5) && TornAt(w, v, md5, j, t, files) && 0 < t
    ensures Opened(files, md5).None? <==> t < HEADER
    ensures HEADER <= t ==>
              var u := Opened(files, md5).value;
              && u.lastIdx == w.startIdx + Gone(w, v) + j && EntryAt(u, u.lastIdx) == None
              && (w.startIdx <= idx < u.lastIdx ==> EntryAt(u, idx) == Some(Entry(v.log[idx - w.startIdx])))
  {
    var u, x, r := CutAt(w, v, md5, j, t, files);
    CutReads(u, x, md5, r, t, files, idx, v.log, Gone(w, v) + j);
  }

  lemma CutReads(u: Wal, x: View, md5: Md5, r: Rec, t: nat, files: seq<Stored>, idx: nat, log: seq<Rec>, n: nat)
    requires Resting(u, x, md5) && Checksum(md5) && 0 < t < |Entry(r)|
    requires Fits(Start(u, x, |x.segs| - 1), Last(x.segs) + [r])
    requires files == Extended(u, Entry(r)[..t]) && !Ended(Last(u.slots).file.disk + Entry(r)[..t], md5)
    requires u.lastIdx + 1 == u.startIdx + n && n <= |log| && x.log == log[..n]
    ensures Opened(files, md5).None? <==> t < HEADER
    ensures HEADER <= t ==>
              var y := Opened(files, md5).value;
              && y.lastIdx == u.startIdx + n && EntryAt(y, y.lastIdx) == None
              && (u.startIdx <= idx < u.startIdx + n ==> EntryAt(y, idx) == Some(Entry(log[idx - u.startIdx])))
  {
    PartOpens(u, x, md5, r, t, files, idx);
    if u.startIdx <= idx <= u.lastIdx { LogCut(log, n, idx - u.startIdx); }
  }

  /** The log at rest with the records that are whole, and the one that is not. */
  lemma CutAt(w: Wal, v: View, md5: Md5, j: nat, t: nat, files: seq<Stored>) returns (u: Wal, x: View, r: Rec)
    requires TornAt(w, v, md5, j, t, files)
    ensures Resting(u, x, md5) && t < |Entry(r)| && Fits(Start(u, x, |x.segs| - 1), Last(x.segs) + [r])
    ensures files == Extended(u, Entry(r)[..t]) && !Ended(Last(u.slots).file.disk + Entry(r)[..t], md5)
    ensures u.startIdx == w.startIdx && u.lastIdx + 1 == w.startIdx + Gone(w, v) + j
    ensures Gone(w, v) + j <= |v.log| && x.log == v.log[..Gone(w, v) + j]
  {
    u, x, r := Landed(w, v, j), LandedView(w, v, j), Writing(w, v)[j];
    LandedRests(w, v, md5, j);
    TornDir(w, v, md5, j, t, files);
    TornFits(w, v, md5, j);
    LandedBounds(w, v, j);
  }

  lemma LandedBounds(w: Wal, v: View, j: nat)
    requires QueueOk(w, v) && w.phase.Batched? && j <= w.phase.n && w.slots != [] && v.segs != []
    ensures var u, x := Landed(w, v, j), LandedView(w, v, j);
            && u.startIdx == w.startIdx && u.lastIdx + 1 == w.startIdx + Gone(w, v) + j
            && Gone(w, v) + j <= |v.log| && x.log == v.log[..Gone(w, v) + j]
  {
  }

  lemma LogCut(log: seq<Rec>, n: nat, i: nat)
    requires i < n <= |log|
    ensures log[..n][i] == log[i]
  {
  }

  lemma PartOpens(u: Wal, x: View, md5: Md5, r: Rec, t: nat, files: seq<Stored>, idx: nat)
    requires Resting(u, x, md5) && Checksum(md5) && 0 < t < |Entry(r)|
    requires Fits(Start(u, x, |x.segs| - 1), Last(x.segs) + [r])
    requires files == Extended(u, Entry(r)[..t]) && !Ended(Last(u.slots).file.disk + Entry(r)[..t], md5)
    ensures Opened(files, md5).None? <==> t < HEADER
    ensures HEADER <= t ==>
              var y := Opened(files, md5).value;
              && y.lastIdx == u.lastIdx + 1 && EntryAt(y, y.lastIdx) == None
              && (u.startIdx <= idx <= u.lastIdx ==>
                    idx - u.startIdx < |x.log| && EntryAt(y, idx) == Some(Entry(x.log[idx - u.startIdx])))
  {
    OpensTorn(u, x, md5, r, t);
    if HEADER <= t {
      TornReads(u, x, md5, r, t, idx);
      if u.startIdx <= idx <= u.lastIdx { ReadsBack(u, x, md5, idx); }
    }
  }

  lemma WholeOpens(u: Wal, x: View, md5: Md5, files: seq<Stored>)
    requires Resting(u, x, md5) && Checksum(md5) && files == Extended(u, []) && !Ended(Last(files).bytes, md5)
    ensures Opened(files, md5).Some? && Inv(Opened(files, md5).value, x, md5)
  {
    var f := Last(u.slots).file;
    assert f.disk + [] == f.disk;
    assert Dir(u)[|u.slots| - 1] == Stored(f.start, f.disk);
    assert files == Dir(u);
    ReopenRestores(u, x, md5);
    assert x.log[..|x.log|] == x.log;
  }
}
