/**
 Every step of the write-ahead log keeps the files, the indexes and the queue in agreement, so
 that every published entry can be read back at any time.
 */
module WalSteps {
  import opened Common
  import opened Bytes
  import opened WalFormat
  import opened WalFile
  import opened WalLog

  // ---------------------------------------------------------------- segments

  lemma {:induction false} FlatConcat(xs: seq<seq<Rec>>, ys: seq<seq<Rec>>)
    ensures Flat(xs + ys) == Flat(xs) + Flat(ys)
  {
    if ys == [] {
      assert xs + ys == xs;
    } else {
      FlatConcat(xs, ys[..|ys| - 1]);
      assert (xs + ys)[..|xs + ys| - 1] == xs + ys[..|ys| - 1];
    }
  }

  /** The records before file `j` and those up to its end. */
  lemma {:induction false} FlatCut(segs: seq<seq<Rec>>, j: nat)
    requires j < |segs|
    ensures Flat(segs[..j + 1]) == Flat(segs[..j]) + segs[j]
    ensures Flat(segs[..j + 1]) <= Flat(segs)
  {
    assert segs[..j + 1][..j] == segs[..j];
    assert segs == segs[..j + 1] + segs[j + 1..];
    FlatConcat(segs[..j + 1], segs[j + 1..]);
  }

  /** The file and the place in it of the `n`-th record. */
  lemma {:induction false} Locate(segs: seq<seq<Rec>>, n: nat) returns (j: nat, k: nat)
    requires n < |Flat(segs)|
    ensures j < |segs| && k < |segs[j]| && n == |Flat(segs[..j])| + k && Flat(segs)[n] == segs[j][k]
  {
    var m := |segs| - 1;
    if n < |Flat(segs[..m])| {
      j, k := Locate(segs[..m], n);
      assert segs[..m][..j] == segs[..j];
    } else {
      j, k := m, n - |Flat(segs[..m])|;
    }
  }

  lemma FlatMonotone(segs: seq<seq<Rec>>, i: nat, j: nat)
    requires i <= j <= |segs|
    ensures |Flat(segs[..i])| <= |Flat(segs[..j])|
  {
    assert segs[..j] == segs[..i] + segs[i..j];
    FlatConcat(segs[..i], segs[i..j]);
  }

  // ---------------------------------------------------------------- reading

  /** Every record on disk can be read through the index of its file. */
  lemma FileEntry(f: File, start: nat, on: seq<Rec>, listed: seq<Rec>, footed: bool, md5: Md5, k: nat)
    requires FileOk(f, start, on, listed, footed, md5) && k < |on|
    ensures ReadFile(f, start + k) == Some(Entry(on[k]))
  {
    EntryPlace(f, start, on, listed, footed, md5, k);
    BodyAt(on, k);
    assert Body(on) <= f.disk;
    ReadSlice(f, start + k, |Body(on[..k])|, HEADER + |on[k]|, Body(on));
  }

  /** Where the index places a record. */
  lemma EntryPlace(f: File, start: nat, on: seq<Rec>, listed: seq<Rec>, footed: bool, md5: Md5, k: nat)
    requires FileOk(f, start, on, listed, footed, md5) && k < |on|
    ensures start + k in f.ivts && f.ivts[start + k] == Pack(|Body(on[..k])|, HEADER + |on[k]|)
    ensures HEADER + |on[k]| < UINT32
  {
    IndexAt(start, listed, k);
    assert listed[..k] == on[..k] && listed[k] == on[k];
    BodyAt(listed, k);
  }

  lemma ReadSlice(f: File, idx: nat, p: nat, n: nat, body: seq<byte>)
    requires idx in f.ivts && f.ivts[idx] == Pack(p, n) && 0 < n < UINT32
    requires body <= f.disk && p + n <= |body|
    ensures ReadFile(f, idx) == Some(body[p..p + n])
  {
    PackRoundTrip(p, n);
    assert f.disk[..|body|] == body && f.disk[p..p + n] == f.disk[..|body|][p..p + n];
  }

  /** File `j` is filed under its last index, or is the one being written, and holds its records. */
  ghost predicate SlotOk(w: Wal, v: View, md5: Md5, j: nat) {
    && j < |v.segs| == |w.slots|
    && w.slots[j].key == (if j < |v.segs| - 1 then Start(w, v, j) + |v.segs[j]| - 1 else MAX_INDEX)
    && exists listed, footed :: FileOk(w.slots[j].file, Start(w, v, j), v.segs[j], listed, footed, md5)
  }

  ghost predicate SlotsOk(w: Wal, v: View, md5: Md5) {
    |w.slots| == |v.segs| && forall j {:trigger SlotOk(w, v, md5, j)} :: 0 <= j < |v.segs| ==> SlotOk(w, v, md5, j)
  }

  lemma InvSlots(w: Wal, v: View, md5: Md5)
    requires Inv(w, v, md5)
    ensures SlotsOk(w, v, md5)
    ensures w.lastIdx - w.startIdx < |Flat(v.segs)| <= |v.log| && Flat(v.segs) <= v.log
  {
    forall j | 0 <= j < |v.segs| ensures SlotOk(w, v, md5, j) {
      if j < |v.segs| - 1 { assert OldSlotOk(w, v, j, md5); }
    }
  }

  /** The search by key finds the file that holds the record. */
  lemma KeySearch(w: Wal, v: View, md5: Md5, j: nat, k: nat)
    requires SlotsOk(w, v, md5) && j < |v.segs| && k < |v.segs[j]| && Start(w, v, j) + k <= MAX_INDEX
    ensures LowerBound(w.slots, Start(w, v, j) + k, 0) == j
  {
    var found := LowerBound(w.slots, Start(w, v, j) + k, 0);
    assert SlotOk(w, v, md5, j);
    if found < j {
      assert SlotOk(w, v, md5, found);
      FlatCut(v.segs, found);
      FlatMonotone(v.segs, found + 1, j);
    }
  }

  /** Where the `k`-th record of file `j` is found by its index, and what is read there. */
  lemma ReadAt(w: Wal, v: View, md5: Md5, j: nat, k: nat)
    requires SlotsOk(w, v, md5) && j < |v.segs| && k < |v.segs[j]|
    ensures LowerBound(w.slots, Start(w, v, j) + k, 0) == j && Start(w, v, j) + k <= MAX_INDEX
    ensures Start(w, v, j) + k <= w.lastIdx ==> EntryAt(w, Start(w, v, j) + k) == Some(Entry(v.segs[j][k]))
  {
    assert SlotOk(w, v, md5, j);
    var f, start, on := w.slots[j].file, Start(w, v, j), v.segs[j];
    var listed, footed :| FileOk(f, start, on, listed, footed, md5);
    FileEntry(f, start, on, listed, footed, md5, k);
    KeySearch(w, v, md5, j, k);
  }

  /**
   At any moment, whatever the appenders are doing, every published index reads back as the length
   and the bytes of the record that drew that index.
   */
  lemma ReadsBack(w: Wal, v: View, md5: Md5, idx: nat)
    requires Inv(w, v, md5) && w.startIdx <= idx <= w.lastIdx
    ensures idx - w.startIdx < |v.log|
    ensures EntryAt(w, idx) == Some(Entry(v.log[idx - w.startIdx]))
  {
    InvSlots(w, v, md5);
    var j, k := Locate(v.segs, idx - w.startIdx);
    ReadAt(w, v, md5, j, k);
  }

  // ---------------------------------------------------------------- steps

  ghost predicate OldSlots(w: Wal, v: View, md5: Md5) {
    forall j {:trigger OldSlotOk(w, v, j, md5)} :: 0 <= j < |v.segs| - 1 ==> OldSlotOk(w, v, j, md5)
  }

  /** Steps that leave the finished files alone keep them in order. */
  lemma OldSlotsKept(w: Wal, v: View, w': Wal, v': View, md5: Md5)
    requires OldSlots(w, v, md5) && w'.startIdx == w.startIdx
    requires v.segs != [] && |v'.segs| == |v.segs| && v'.segs[..|v.segs| - 1] == v.segs[..|v.segs| - 1]
    requires |w.slots| == |w'.slots| == |v.segs|
    requires forall j :: 0 <= j < |w.slots| - 1 ==> w'.slots[j] == w.slots[j]
    ensures OldSlots(w', v', md5)
  {
    forall j | 0 <= j < |v'.segs| - 1 ensures OldSlotOk(w', v', j, md5) {
      assert OldSlotOk(w, v, j, md5);
      assert v'.segs[..j] == v'.segs[..|v.segs| - 1][..j] == v.segs[..|v.segs| - 1][..j] == v.segs[..j];
      assert v'.segs[j] == v'.segs[..|v.segs| - 1][j] == v.segs[..|v.segs| - 1][j] == v.segs[j];
    }
  }

  lemma SetLastKept(w: Wal, v: View, w': Wal, v': View, md5: Md5, f: File)
    requires OldSlots(w, v, md5) && w'.startIdx == w.startIdx
    requires v.segs != [] && |v'.segs| == |v.segs| && v'.segs[..|v.segs| - 1] == v.segs[..|v.segs| - 1]
    requires |w.slots| == |v.segs| && w'.slots == SetLast(w.slots, f)
    ensures OldSlots(w', v', md5) && Start(w', v', |v.segs| - 1) == Start(w, v, |v.segs| - 1)
  {
    OldSlotsKept(w, v, w', v', md5);
  }

  /** The parts of the invariant, put together. */
  lemma Assemble(w: Wal, v: View, md5: Md5, start: nat, on: seq<Rec>, listed: seq<Rec>)
    requires 0 < w.startIdx && v.segs != [] && |w.slots| == |v.segs| && QueueOk(w, v)
    requires 0 <= OnDisk(w, v) <= |v.log| && Flat(v.segs) == v.log[..OnDisk(w, v)]
    requires OldSlots(w, v, md5)
    requires start == Start(w, v, |v.segs| - 1) && on == Last(v.segs) && listed == Listed(w, v)
    requires LastOk(w.slots, w.pos, start, on, listed, w.phase.Footed?, md5)
    requires w.phase.Batched? ==> w.phase.bytes == Body(v.log[Gone(w, v)..Gone(w, v) + w.phase.n])
    ensures Inv(w, v, md5)
  {
  }

  lemma EnterQueue(w: Wal, v: View, data: Rec)
    requires QueueOk(w, v)
    ensures QueueOk(Enter(w, data), View(v.log + [data], v.segs))
  {
  }

  lemma LogGrows(log: seq<Rec>, data: Rec, a: nat, b: nat)
    requires a <= b <= |log|
    ensures (log + [data])[a..b] == log[a..b] && (log + [data])[..a] == log[..a]
  {
  }

  lemma EnterListed(w: Wal, v: View, w': Wal, v': View, data: Rec)
    requires QueueOk(w, v) && v.segs != [] && w' == Enter(w, data) && v' == View(v.log + [data], v.segs)
    requires 0 <= OnDisk(w, v) <= |v.log| && Flat(v.segs) == v.log[..OnDisk(w, v)]
    requires w.phase.Batched? ==> w.phase.bytes == Body(v.log[Gone(w, v)..Gone(w, v) + w.phase.n])
    ensures QueueOk(w', v') && Listed(w', v') == Listed(w, v)
    ensures OnDisk(w', v') == OnDisk(w, v) && Flat(v'.segs) == v'.log[..OnDisk(w', v')]
    ensures w'.phase.Batched? ==> w'.phase.bytes == Body(v'.log[Gone(w', v')..Gone(w', v') + w'.phase.n])
  {
    EnterQueue(w, v, data);
    assert Gone(w', v') == Gone(w, v);
    LogGrows(v.log, data, OnDisk(w, v), OnDisk(w, v));
    LogGrows(v.log, data, Gone(w, v), Gone(w, v) + Batch(w));
  }

  lemma EnterKeeps(w: Wal, v: View, md5: Md5, data: Rec)
    requires Inv(w, v, md5)
    ensures Inv(Enter(w, data), View(v.log + [data], v.segs), md5)
  {
    var w', v' := Enter(w, data), View(v.log + [data], v.segs);
    EnterListed(w, v, w', v', data);
    OldSlotsKept(w, v, w', v', md5);
    Assemble(w', v', md5, Start(w, v, |v.segs| - 1), Last(v.segs), Listed(w, v));
  }

  /** The queued records, from the front. */
  lemma Queued(w: Wal, v: View, n: nat)
    requires QueueOk(w, v) && n <= |w.writers|
    ensures Datas(w.writers[..n]) == v.log[Gone(w, v)..Gone(w, v) + n]
  {
  }

  /** Adding a batch to the index is indexing the longer file. */
  lemma {:induction false} IndexedBatch(start: nat, on: seq<Rec>, ws: seq<Writer>, ivts: Ivts, pos: nat)
    requires forall i :: 0 <= i < |ws| ==> ws[i].seqno == start + |on| + i
    requires ivts == IndexOf(start, on) && pos == |Body(on)|
    ensures Indexed(ivts, pos, ws) == IndexOf(start, on + Datas(ws))
  {
    if ws == [] {
      assert on + Datas(ws) == on;
    } else {
      var n := |ws| - 1;
      IndexedBatch(start, on, ws[..n], ivts, pos);
      BatchStep(start, on, ws[..n], ws[n], ivts, pos, IndexOf(start, on + Datas(ws[..n])));
      assert ws == ws[..n] + [ws[n]];
    }
  }

  lemma {:induction false} BatchStep(start: nat, on: seq<Rec>, ws: seq<Writer>, w: Writer, ivts: Ivts, pos: nat, m: Ivts)
    requires w.seqno == start + |on| + |ws| && pos == |Body(on)|
    requires m == Indexed(ivts, pos, ws) && m == IndexOf(start, on + Datas(ws))
    ensures Indexed(ivts, pos, ws + [w]) == IndexOf(start, on + Datas(ws + [w]))
  {
    var recs := on + Datas(ws);
    assert on + Datas(ws + [w]) == recs + [w.data];
    IndexOne(start, recs, w.data);
    BodyConcat(on, Datas(ws));
    assert (ws + [w])[..|ws|] == ws;
    IndexedStep(ivts, pos, ws + [w], ws, m, |Body(recs)|);
  }

  lemma IndexedStep(ivts: Ivts, pos: nat, ws: seq<Writer>, before: seq<Writer>, m: Ivts, at: nat)
    requires ws != [] && before == ws[..|ws| - 1] && m == Indexed(ivts, pos, before) && at == pos + |Body(Datas(before))|
    ensures var w := ws[|ws| - 1];
            Indexed(ivts, pos, ws) == if w.seqno in m then m else m[w.seqno := Pack(at, HEADER + |w.data|)]
  {
  }

  lemma IndexOne(start: nat, recs: seq<Rec>, r: Rec)
    ensures start + |recs| !in IndexOf(start, recs)
    ensures IndexOf(start, recs + [r]) == IndexOf(start, recs)[start + |recs| := Pack(|Body(recs)|, HEADER + |r|)]
  {
    IndexSnoc(start, recs, r);
    IndexKeys(start, recs);
  }

  lemma LeadQueue(w: Wal, v: View)
    requires QueueOk(w, v) && w.phase.Idle? && w.writers != [] && w.slots != []
    ensures QueueOk(Lead(w), v) && OnDisk(Lead(w), v) == OnDisk(w, v)
    ensures Datas(w.writers) == v.log[Gone(w, v)..Gone(w, v) + |w.writers|]
    ensures forall i :: 0 <= i < |w.writers| ==> w.writers[i].seqno == w.startIdx + OnDisk(w, v) + i
  {
    assert w.writers[..|w.writers|] == w.writers;
    Queued(w, v, |w.writers|);
  }

  lemma LeadListed(w: Wal, v: View, w': Wal)
    requires QueueOk(w, v) && w.phase.Idle? && w.writers != [] && v.segs != [] && w.slots != [] && w' == Lead(w)
    ensures QueueOk(w', v) && Listed(w', v) == Last(v.segs) + Datas(w.writers)
    ensures w'.phase.bytes == Body(v.log[Gone(w', v)..Gone(w', v) + w'.phase.n])
  {
    LeadQueue(w, v);
    assert Gone(w', v) == Gone(w, v) && w'.phase.n == |w.writers|;
  }

  lemma LeadFile(slots: seq<Slot>, pos: nat, start: nat, on: seq<Rec>, ws: seq<Writer>, md5: Md5)
    requires LastOk(slots, pos, start, on, on, false, md5) && Fits(start, on + Datas(ws))
    requires forall i :: 0 <= i < |ws| ==> ws[i].seqno == start + |on| + i
    ensures var f := Last(slots).file;
            LastOk(SetLast(slots, f.(ivts := Indexed(f.ivts, pos, ws))), pos + |Body(Datas(ws))|,
                   start, on, on + Datas(ws), false, md5)
  {
    IndexedBatch(start, on, ws, Last(slots).file.ivts, pos);
    BodyConcat(on, Datas(ws));
  }

  lemma LeadKeeps(w: Wal, v: View, md5: Md5)
    requires Inv(w, v, md5) && w.phase.Idle? && w.writers != []
    requires Fits(Start(w, v, |v.segs| - 1), Last(v.segs) + Datas(w.writers))
    ensures Inv(Lead(w), v, md5)
  {
    var w' := Lead(w);
    LeadQueue(w, v);
    StartLast(w, v, md5);
    var m, start, on := |v.segs| - 1, Start(w, v, |v.segs| - 1), Last(v.segs);
    var listed := on + Datas(w.writers);
    LeadFile(w.slots, w.pos, start, on, w.writers, md5);
    LeadListed(w, v, w');
    assert LastOk(w'.slots, w'.pos, start, on, listed, false, md5);
    SetLastKept(w, v, w', v, md5, w'.slots[m].file);
    Assemble(w', v, md5, start, on, listed);
  }

  /** The last file ends where the records on disk end. */
  lemma StartLast(w: Wal, v: View, md5: Md5)
    requires Inv(w, v, md5)
    ensures Start(w, v, |v.segs| - 1) + |Last(v.segs)| == w.startIdx + OnDisk(w, v)
  {
    assert Flat(v.segs) == Flat(v.segs[..|v.segs| - 1]) + Last(v.segs);
  }

  function Longer(segs: seq<seq<Rec>>, more: seq<Rec>): (r: seq<seq<Rec>>)
    requires segs != []
    ensures |r| == |segs|
  {
    segs[..|segs| - 1] + [Last(segs) + more]
  }

  function WriteView(w: Wal, v: View): (r: View)
    requires v.segs != [] && QueueOk(w, v) && w.phase.Batched?
  {
    View(v.log, Longer(v.segs, v.log[Gone(w, v)..Gone(w, v) + w.phase.n]))
  }

  lemma {:induction false} LongerFlat(segs: seq<seq<Rec>>, more: seq<Rec>)
    requires segs != []
    ensures Flat(Longer(segs, more)) == Flat(segs) + more
    ensures Longer(segs, more)[..|segs| - 1] == segs[..|segs| - 1]
  {
  }

  lemma WriteFile(slots: seq<Slot>, pos: nat, start: nat, on: seq<Rec>, more: seq<Rec>, md5: Md5)
    requires LastOk(slots, pos, start, on, on + more, false, md5)
    ensures var f := Last(slots).file;
            LastOk(SetLast(slots, f.(disk := f.disk + Body(more))), pos, start, on + more, on + more, false, md5)
  {
    BodyConcat(on, more);
  }

  lemma WriteQueue(w: Wal, v: View)
    requires QueueOk(w, v) && w.phase.Batched? && w.slots != [] && v.segs != []
    ensures QueueOk(Write(w), WriteView(w, v)) && OnDisk(Write(w), WriteView(w, v)) == OnDisk(w, v) + w.phase.n
  {
  }

  lemma WriteFlat(w: Wal, v: View, g: nat, n: nat)
    requires v.segs != [] && QueueOk(w, v) && w.phase.Batched? && g == Gone(w, v) && n == w.phase.n
    requires Flat(v.segs) == v.log[..g]
    ensures var segs := WriteView(w, v).segs;
            && Flat(segs) == v.log[..g + n] && |segs| == |v.segs|
            && segs[..|v.segs| - 1] == v.segs[..|v.segs| - 1] && Last(segs) == Last(v.segs) + v.log[g..g + n]
  {
    LongerFlat(v.segs, v.log[g..g + n]);
    assert v.log[..g + n] == v.log[..g] + v.log[g..g + n];
  }

  lemma WriteKeeps(w: Wal, v: View, md5: Md5)
    requires Inv(w, v, md5) && w.phase.Batched?
    ensures Inv(Write(w), WriteView(w, v), md5)
  {
    var w', v' := Write(w), WriteView(w, v);
    var g, n, m := Gone(w, v), w.phase.n, |v.segs| - 1;
    var more := v.log[g..g + n];
    WriteQueue(w, v);
    WriteFlat(w, v, g, n);
    var start, on := Start(w, v, m), Last(v.segs);
    WriteFile(w.slots, w.pos, start, on, more, md5);
    assert LastOk(w'.slots, w'.pos, start, on + more, on + more, false, md5);
    SetLastKept(w, v, w', v', md5, w'.slots[m].file);
    Assemble(w', v', md5, start, on + more, on + more);
  }

  lemma FootKeeps(w: Wal, v: View, md5: Md5, order: seq<nat>)
    requires Inv(w, v, md5) && w.phase.Written? && Enumerates(Last(w.slots).file.ivts, order)
    ensures Inv(Foot(w, order, md5), v, md5)
  {
    var w' := Foot(w, order, md5);
    var start, on := Start(w, v, |v.segs| - 1), Last(v.segs);
    if w.pos > ROTATE { FootFile(w.slots, w.pos, start, on, order, md5); }
    OldSlotsKept(w, v, w', v, md5);
    Assemble(w', v, md5, start, on, on);
  }

  lemma FootFile(slots: seq<Slot>, pos: nat, start: nat, on: seq<Rec>, order: seq<nat>, md5: Md5)
    requires LastOk(slots, pos, start, on, on, false, md5) && on != [] && Enumerates(Last(slots).file.ivts, order)
    ensures var f := Last(slots).file;
            LastOk(SetLast(slots, f.(disk := f.disk + Footer(pos, f.ivts, order, md5))), pos, start, on, on, true, md5)
  {
    var f := Last(slots).file;
    assert f.disk + Footer(pos, f.ivts, order, md5) == Finished(start, on, order, md5);
  }

  lemma RollKeeps(w: Wal, v: View, md5: Md5)
    requires Inv(w, v, md5) && w.phase.Footed?
    ensures Inv(Roll(w), View(v.log, v.segs + [[]]), md5)
  {
    var w', v' := Roll(w), View(v.log, v.segs + [[]]);
    var m := |v.segs| - 1;
    StartLast(w, v, md5);
    assert v'.segs[..m + 1] == v.segs && Flat(v'.segs) == Flat(v.segs);
    assert QueueOk(w', v');
    RollSlots(w, v, w', v', md5);
    Assemble(w', v', md5, Start(w', v', m + 1), [], []);
  }

  /** The finished file joins the others. */
  lemma RollSlots(w: Wal, v: View, w': Wal, v': View, md5: Md5)
    requires OldSlots(w, v, md5) && v.segs != [] && |w.slots| == |v.segs| && v'.segs == v.segs + [[]]
    requires w'.startIdx == w.startIdx && |w'.slots| == |w.slots| + 1
    requires forall j :: 0 <= j < |w.slots| - 1 ==> w'.slots[j] == w.slots[j]
    requires var m := |v.segs| - 1;
             && w'.slots[m].key == Start(w, v, m) + |v.segs[m]| - 1
             && FileOk(w'.slots[m].file, Start(w, v, m), v.segs[m], v.segs[m], true, md5)
    ensures OldSlots(w', v', md5)
  {
    forall j | 0 <= j < |v'.segs| - 1 ensures OldSlotOk(w', v', j, md5) {
      assert v'.segs[..j] == v.segs[..j];
      if j < |v.segs| - 1 { assert OldSlotOk(w, v, j, md5); }
    }
  }

  lemma PublishKeeps(w: Wal, v: View, md5: Md5)
    requires Inv(w, v, md5) && w.phase.Settled?
    ensures Inv(Publish(w), v, md5)
  {
    OldSlotsKept(w, v, Publish(w), v, md5);
  }

  lemma FinishKeeps(w: Wal, v: View, md5: Md5)
    requires Inv(w, v, md5) && w.phase.Published?
    ensures Inv(Finish(w), v, md5)
  {
    OldSlotsKept(w, v, Finish(w), v, md5);
  }
}
