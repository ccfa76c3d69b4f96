/**
 Whole runs of the write-ahead log, and the loops that build a batch and read a range of entries.
 */
module WalRun {
  import opened Common
  import opened Bytes
  import opened WalFormat
  import opened WalFile
  import opened WalLog
  import opened WalSteps
  import opened WalRecover

  datatype Op =
    | EnterOp(data: Rec) | LeadOp | WriteOp | FootOp(order: seq<nat>) | RollOp | PublishOp | FinishOp

  /** The batch keeps the file and its index within their 32-bit fields. */
  predicate Room(w: Wal)
    requires w.slots != []
  {
    && w.pos + |Body(Datas(w.writers))| < UINT32
    && HEADER + 16 * (w.nextIdx - Last(w.slots).file.start) < UINT32
    && w.nextIdx < UINT64
  }

  ghost predicate Legal(w: Wal, op: Op) {
    w.slots != [] &&
    match op
    case EnterOp(_) => true
    case LeadOp => w.phase.Idle? && w.writers != [] && Room(w)
    case WriteOp => w.phase.Batched?
    case FootOp(order) => w.phase.Written? && Enumerates(Last(w.slots).file.ivts, order)
    case RollOp => w.phase.Footed? && 0 < w.phase.n <= |w.writers|
    case PublishOp => w.phase.Settled? && 0 < w.phase.n <= |w.writers|
    case FinishOp => w.phase.Published? && w.phase.n <= |w.writers|
  }

  function Next(w: Wal, op: Op, md5: Md5): (r: Wal)
    requires Legal(w, op)
  {
    match op
    case EnterOp(data) => Enter(w, data)
    case LeadOp => Lead(w)
    case WriteOp => Write(w)
    case FootOp(order) => Foot(w, order, md5)
    case RollOp => Roll(w)
    case PublishOp => Publish(w)
    case FinishOp => Finish(w)
  }

  ghost function NextView(w: Wal, v: View, op: Op): (r: View)
    requires v.segs != [] && QueueOk(w, v) && Legal(w, op)
  {
    match op
    case EnterOp(data) => View(v.log + [data], v.segs)
    case WriteOp => WriteView(w, v)
    case RollOp => View(v.log, v.segs + [[]])
    case _ => v
  }

  lemma RoomFits(w: Wal, v: View, md5: Md5)
    requires Inv(w, v, md5) && w.phase.Idle? && Room(w)
    ensures Fits(Start(w, v, |v.segs| - 1), Last(v.segs) + Datas(w.writers))
  {
    StartLast(w, v, md5);
    BodyConcat(Last(v.segs), Datas(w.writers));
  }

  /** Every legal step keeps the invariant. */
  lemma NextKeeps(w: Wal, v: View, op: Op, md5: Md5)
    requires Inv(w, v, md5) && Legal(w, op)
    ensures Inv(Next(w, op, md5), NextView(w, v, op), md5)
  {
    match op
    case EnterOp(data) => EnterKeeps(w, v, md5, data);
    case LeadOp => RoomFits(w, v, md5); LeadKeeps(w, v, md5);
    case WriteOp => WriteKeeps(w, v, md5);
    case FootOp(order) => FootKeeps(w, v, md5, order);
    case RollOp => RollKeeps(w, v, md5);
    case PublishOp => PublishKeeps(w, v, md5);
    case FinishOp => FinishKeeps(w, v, md5);
  }

  /** Opening an empty directory gives an empty log whose first record will have index 1. */
  lemma OpensEmpty(md5: Md5)
    ensures Opened([], md5).Some?
    ensures var w := Opened([], md5).value;
            Inv(w, View([], [[]]), md5) && w.startIdx == w.nextIdx == 1 && w.lastIdx == 0 && w.phase.Idle? && w.writers == []
  {
    EmptyInv(Opened([], md5).value, md5);
  }

  lemma EmptyInv(w: Wal, md5: Md5)
    requires w == Wal(1, 0, 1, [Slot(MAX_INDEX, File(1, [], map[]))], 0, [], Idle)
    ensures Inv(w, View([], [[]]), md5)
  {
    var v := View([], [[]]);
    assert v.segs[..0] == [];
    assert Last(w.slots) == Slot(MAX_INDEX, File(1, [], map[]));
    Assemble(w, v, md5, 1, [], []);
  }

  // ---------------------------------------------------------------- when files are rotated

  predicate Rotating(p: Phase) {
    p.Written? || p.Footed?
  }

  /** Every file but the last has grown past the limit, and the last has not, except while it is being rotated. */
  ghost predicate Rotated(w: Wal, v: View) {
    && v.segs != []
    && (forall j :: 0 <= j < |v.segs| - 1 ==> |Body(v.segs[j])| > ROTATE)
    && (w.phase.Footed? ==> |Body(Last(v.segs))| > ROTATE)
    && (!Rotating(w.phase) ==> |Body(Last(v.segs))| <= ROTATE)
  }

  lemma NextRotates(w: Wal, v: View, op: Op, md5: Md5)
    requires Inv(w, v, md5) && Legal(w, op) && Rotated(w, v)
    ensures Rotated(Next(w, op, md5), NextView(w, v, op))
  {
    StepRotates(w, v, op, md5);
  }

  lemma StepRotates(w: Wal, v: View, op: Op, md5: Md5)
    requires Rotated(w, v) && QueueOk(w, v) && Legal(w, op)
    requires !w.phase.Batched? ==> w.pos == |Body(Last(v.segs))|
    ensures Rotated(Next(w, op, md5), NextView(w, v, op))
  {
    if op.RollOp? { assert Last(v.segs + [[]]) == []; }
  }

  /** `ops` is an interleaving of appenders that leads from the first state to the last. */
  ghost predicate Runs(w0: Wal, v0: View, ops: seq<Op>, w: Wal, v: View, md5: Md5) {
    if ops == [] then w == w0 && v == v0
    else
      exists u: Wal, x: View ::
        && Runs(w0, v0, ops[..|ops| - 1], u, x, md5)
        && Legal(u, Last(ops)) && x.segs != [] && QueueOk(u, x)
        && w == Next(u, Last(ops), md5) && v == NextView(u, x, Last(ops))
  }

  /** Every interleaving keeps the invariant, and rotates files exactly when they are large enough. */
  lemma {:induction false} RunKeeps(w0: Wal, v0: View, ops: seq<Op>, w: Wal, v: View, md5: Md5)
    requires Inv(w0, v0, md5) && Runs(w0, v0, ops, w, v, md5)
    ensures Inv(w, v, md5) && (Rotated(w0, v0) ==> Rotated(w, v))
  {
    if ops != [] {
      var u: Wal, x: View :|
        && Runs(w0, v0, ops[..|ops| - 1], u, x, md5)
        && Legal(u, Last(ops)) && x.segs != [] && QueueOk(u, x)
        && w == Next(u, Last(ops), md5) && v == NextView(u, x, Last(ops));
      RunKeeps(w0, v0, ops[..|ops| - 1], u, x, md5);
      NextKeeps(u, x, Last(ops), md5);
      if Rotated(u, x) { NextRotates(u, x, Last(ops), md5); }
    }
  }

  /** The records that entered in a run, in the order of their numbers. */
  function Entered(ops: seq<Op>): (r: seq<Rec>) {
    if ops == [] then []
    else Entered(ops[..|ops| - 1]) + if Last(ops).EnterOp? then [Last(ops).data] else []
  }

  lemma {:induction false} LogIsEntered(w0: Wal, v0: View, ops: seq<Op>, w: Wal, v: View, md5: Md5)
    requires Runs(w0, v0, ops, w, v, md5)
    ensures v.log == v0.log + Entered(ops) && w.startIdx == w0.startIdx
  {
    if ops != [] {
      var u: Wal, x: View :|
        && Runs(w0, v0, ops[..|ops| - 1], u, x, md5)
        && Legal(u, Last(ops)) && x.segs != [] && QueueOk(u, x)
        && w == Next(u, Last(ops), md5) && v == NextView(u, x, Last(ops));
      LogIsEntered(w0, v0, ops[..|ops| - 1], u, x, md5);
      NextLog(u, x, Last(ops), md5);
      EnteredMore(v0.log, ops);
    }
  }

  lemma EnteredMore(log: seq<Rec>, ops: seq<Op>)
    requires ops != []
    ensures log + Entered(ops)
         == (log + Entered(ops[..|ops| - 1])) + (if Last(ops).EnterOp? then [Last(ops).data] else [])
  {
  }

  lemma NextLog(w: Wal, v: View, op: Op, md5: Md5)
    requires Legal(w, op) && v.segs != [] && QueueOk(w, v)
    ensures NextView(w, v, op).log == v.log + (if op.EnterOp? then [op.data] else [])
    ensures Next(w, op, md5).startIdx == w.startIdx
  {
  }

  /** Number of records that have been written to the files. */
  function DiskCount(w: Wal): (n: int) {
    w.nextIdx - w.startIdx - |w.writers| + if w.phase.Idle? || w.phase.Batched? then 0 else w.phase.n
  }

  /** Number of records in the files up to and with file `j`. */
  function FileEnd(w: Wal, j: nat): (n: int)
    requires j < |w.slots|
  {
    if j + 1 < |w.slots| then w.slots[j + 1].file.start - w.startIdx else DiskCount(w)
  }

  /**
   File `j` begins with the bytes of its records, and the file being written holds nothing else
   before its footer.  The records of a finished file pass the limit, those of the last one do not.
   */
  ghost predicate FileHolds(w: Wal, recs: seq<Rec>, j: nat) {
    && j < |w.slots|
    && var from, to := w.slots[j].file.start - w.startIdx, FileEnd(w, j);
       && 0 <= from <= to <= |recs| && (j == 0 ==> from == 0)
       && Body(recs[from..to]) <= w.slots[j].file.disk
       && (j == |w.slots| - 1 && !w.phase.Footed? ==> w.slots[j].file.disk == Body(recs[from..to]))
       && (j < |w.slots| - 1 ==> |Body(recs[from..to])| > 16777216)
       && (j == |w.slots| - 1 && !Rotating(w.phase) ==> |Body(recs[from..to])| <= 16777216)
  }

  /** The records of one file among all records. */
  lemma SegmentAt(segs: seq<seq<Rec>>, log: seq<Rec>, j: nat)
    requires j < |segs| && Flat(segs) <= log
    ensures var from, to := |Flat(segs[..j])|, |Flat(segs[..j + 1])|;
            to == from + |segs[j]| <= |log| && log[from..to] == segs[j]
  {
    FlatCut(segs, j);
    var from, to := |Flat(segs[..j])|, |Flat(segs[..j + 1])|;
    assert Flat(segs[..j + 1]) == log[..to];
    assert log[..to][from..] == log[from..to];
  }

  lemma FileStarts(w: Wal, v: View, md5: Md5, j: nat)
    requires Inv(w, v, md5) && j < |w.slots|
    ensures w.slots[j].file.start - w.startIdx == |Flat(v.segs[..j])|
    ensures FileEnd(w, j) == |Flat(v.segs[..j + 1])|
  {
    InvSlots(w, v, md5);
    assert SlotOk(w, v, md5, j);
    if j + 1 < |w.slots| { assert SlotOk(w, v, md5, j + 1); } else { assert v.segs[..j + 1] == v.segs; }
  }

  lemma FileHeld(w: Wal, v: View, md5: Md5, j: nat)
    requires Inv(w, v, md5) && Rotated(w, v) && j < |w.slots|
    ensures FileHolds(w, v.log, j)
  {
    InvSlots(w, v, md5);
    FileStarts(w, v, md5, j);
    SegmentAt(v.segs, v.log, j);
    assert SlotOk(w, v, md5, j);
    assert j == 0 ==> v.segs[..j] == [];
    var f, on := w.slots[j].file, v.segs[j];
    var listed, footed :| FileOk(f, Start(w, v, j), on, listed, footed, md5);
    assert Body(on) <= f.disk;
  }

  /**
   For every interleaving of appenders on the log that opening an empty directory gives, and at
   every moment of it: the files hold,
   one after the other, the bytes of the records that entered first, each once and in the order of
   their numbers, among them all published ones and, at rest, all there are; and every published
   index reads back the record that drew it.
   */
  lemma AppendersAreSerial(ops: seq<Op>, w: Wal, v: View, md5: Md5, idx: nat)
    requires Opened([], md5).Some? && Runs(Opened([], md5).value, View([], [[]]), ops, w, v, md5)
    ensures w.startIdx == 1 && w.lastIdx <= DiskCount(w) <= |Entered(ops)|
    ensures w.slots != [] && forall j :: 0 <= j < |w.slots| ==> FileHolds(w, Entered(ops), j)
    ensures w.phase.Idle? && w.writers == [] ==> w.lastIdx == DiskCount(w) == |Entered(ops)|
    ensures EntryAt(w, idx) == if 1 <= idx <= w.lastIdx then Some(Entry(Entered(ops)[idx - 1])) else None
  {
    var w0, v0 := Opened([], md5).value, View([], [[]]);
    OpensEmpty(md5);
    RunKeeps(w0, v0, ops, w, v, md5);
    LogIsEntered(w0, v0, ops, w, v, md5);
    assert v.log == Entered(ops);
    HoldsAll(w, v, md5);
    ReadsFromOne(w, v, md5, idx);
  }

  lemma HoldsAll(w: Wal, v: View, md5: Md5)
    requires Inv(w, v, md5) && Rotated(w, v)
    ensures w.slots != [] && forall j :: 0 <= j < |w.slots| ==> FileHolds(w, v.log, j)
  {
    forall j | 0 <= j < |w.slots| ensures FileHolds(w, v.log, j) { FileHeld(w, v, md5, j); }
  }

  lemma ReadsFromOne(w: Wal, v: View, md5: Md5, idx: nat)
    requires Inv(w, v, md5) && w.startIdx == 1
    ensures w.lastIdx <= DiskCount(w) <= |v.log|
    ensures w.phase.Idle? && w.writers == [] ==> w.lastIdx == DiskCount(w) == |v.log|
    ensures EntryAt(w, idx) == if 1 <= idx <= w.lastIdx then Some(Entry(v.log[idx - 1])) else None
  {
    ReadsOrNone(w, v, md5, idx);
  }

  /** A published index reads back its record, and any other index nothing. */
  lemma ReadsOrNone(w: Wal, v: View, md5: Md5, idx: nat)
    requires Inv(w, v, md5)
    ensures w.lastIdx - w.startIdx < |v.log|
    ensures EntryAt(w, idx)
         == if w.startIdx <= idx <= w.lastIdx then Some(Entry(v.log[idx - w.startIdx])) else None
  {
    InvSlots(w, v, md5);
    if w.startIdx <= idx <= w.lastIdx { ReadsBack(w, v, md5, idx); }
  }

  // ---------------------------------------------------------------- the loops

  /** Collect the queue into one batch: the bytes to write, the grown index and the new position. */
  method BuildBatchGroup(ivts: Ivts, pos: nat, ws: seq<Writer>) returns (rep: seq<byte>, index: Ivts, at: nat)
    ensures rep == Body(Datas(ws)) && index == Indexed(ivts, pos, ws) && at == pos + |rep|
  {
    rep, index, at := [], ivts, pos;
    for i := 0 to |ws|
      invariant rep == Body(Datas(ws[..i])) && index == Indexed(ivts, pos, ws[..i]) && at == pos + |rep|
    {
      var w := ws[i];
      BatchStep(ivts, pos, ws, i, at);
      rep := rep + (BE(|w.data|, HEADER) + w.data);
      if w.seqno !in index {
        index := index[w.seqno := Pack(at, HEADER + |w.data|)];
      }
      at := at + HEADER + |w.data|;
    }
    assert ws[..|ws|] == ws;
  }

  lemma BatchStep(ivts: Ivts, pos: nat, ws: seq<Writer>, i: nat, at: nat)
    requires i < |ws| && at == pos + |Body(Datas(ws[..i]))|
    ensures Body(Datas(ws[..i + 1])) == Body(Datas(ws[..i])) + Entry(ws[i].data)
    ensures var m := Indexed(ivts, pos, ws[..i]);
            Indexed(ivts, pos, ws[..i + 1])
            == if ws[i].seqno in m then m else m[ws[i].seqno := Pack(at, HEADER + |ws[i].data|)]
  {
    assert ws[..i + 1][..i] == ws[..i];
    assert Datas(ws[..i + 1]) == Datas(ws[..i]) + [ws[i].data];
    BodySnoc(Datas(ws[..i]), ws[i].data);
  }
}
