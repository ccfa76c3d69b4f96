/**
 The write-ahead log as a state machine.  Appenders queue up; the one at the front writes a batch
 for everyone in the queue, starts a new file when the current one is large, publishes the last
 index and releases the batch.  Readers may look at any time.
 */
module WalLog {
  import opened Common
  import opened Bytes
  import opened WalFormat
  import opened WalFile

  const MAX_INDEX := UINT64 - 1              // the key of the file being written
  const ROTATE := 16 * 1024 * 1024

  datatype File = File(start: nat, disk: seq<byte>, ivts: Ivts)

  /** A file under the last index it holds. */
  datatype Slot = Slot(key: nat, file: File)

  datatype Writer = Writer(seqno: nat, data: Rec)

  /** What the front appender has done; `n` is the size of its batch. */
  datatype Phase =
    | Idle
    | Batched(n: nat, bytes: seq<byte>)
    | Written(n: nat)
    | Footed(n: nat)
    | Settled(n: nat)
    | Published(n: nat)

  datatype Wal = Wal(
    startIdx: nat, lastIdx: int, nextIdx: nat,
    slots: seq<Slot>, pos: nat,
    writers: seq<Writer>, phase: Phase)

  // ---------------------------------------------------------------- reading

  /** First slot whose key is not below `idx`, from `i` on. */
  function LowerBound(slots: seq<Slot>, idx: nat, i: nat): (j: nat)
    requires i <= |slots|
    ensures i <= j <= |slots| && (j < |slots| ==> slots[j].key >= idx)
    ensures forall k :: i <= k < j ==> slots[k].key < idx
    decreases |slots| - i
  {
    if i == |slots| || slots[i].key >= idx then i else LowerBound(slots, idx, i + 1)
  }

  /** The bytes that the index of a file locates. */
  function ReadFile(f: File, idx: nat): (r: Option<seq<byte>>) {
    if idx !in f.ivts || f.ivts[idx] == 0 then None
    else
      var pos, length := f.ivts[idx] / UINT32, f.ivts[idx] % UINT32;
      if pos + length > |f.disk| then None else Some(f.disk[pos..pos + length])
  }

  function EntryAt(w: Wal, idx: nat): (r: Option<seq<byte>>) {
    if idx < w.startIdx || idx > w.lastIdx then None
    else
      var j := LowerBound(w.slots, idx, 0);
      if j == |w.slots| then None else ReadFile(w.slots[j].file, idx)
  }

  // ---------------------------------------------------------------- appending

  /** A new appender draws the next number and joins the queue. */
  function Enter(w: Wal, data: Rec): (r: Wal) {
    w.(nextIdx := w.nextIdx + 1, writers := w.writers + [Writer(w.nextIdx, data)])
  }

  function Datas(ws: seq<Writer>): (ds: seq<Rec>)
    ensures |ds| == |ws| && forall i :: 0 <= i < |ws| ==> ds[i] == ws[i].data
  {
    seq(|ws|, i requires 0 <= i < |ws| => ws[i].data)
  }

  /** The index of the current file with the entries of a batch added. */
  function Indexed(ivts: Ivts, pos: nat, ws: seq<Writer>): (r: Ivts) {
    if ws == [] then ivts
    else
      var n := |ws| - 1;
      var m := Indexed(ivts, pos, ws[..n]);
      var w := ws[n];
      if w.seqno in m then m else m[w.seqno := Pack(pos + |Body(Datas(ws[..n]))|, HEADER + |w.data|)]
  }

  /** The front appender collects the whole queue into one batch. */
  function Lead(w: Wal): (r: Wal)
    requires w.slots != []
  {
    var f := Last(w.slots).file;
    var bytes := Body(Datas(w.writers));
    w.(slots := SetLast(w.slots, f.(ivts := Indexed(f.ivts, w.pos, w.writers))),
       pos := w.pos + |bytes|,
       phase := Batched(|w.writers|, bytes))
  }

  function SetLast(slots: seq<Slot>, f: File): (r: seq<Slot>)
    requires slots != []
    ensures |r| == |slots|
  {
    slots[..|slots| - 1] + [Last(slots).(file := f)]
  }

  /** The batch goes to the file in one write. */
  function Write(w: Wal): (r: Wal)
    requires w.slots != [] && w.phase.Batched?
  {
    var f := Last(w.slots).file;
    w.(slots := SetLast(w.slots, f.(disk := f.disk + w.phase.bytes)), phase := Written(w.phase.n))
  }

  /** A large file gets its footer; `order` is how the index happens to be enumerated. */
  function Foot(w: Wal, order: seq<nat>, md5: Md5): (r: Wal)
    requires w.slots != [] && w.phase.Written?
    requires w.pos > ROTATE ==> forall k :: k in order ==> k in Last(w.slots).file.ivts
  {
    if w.pos > ROTATE then
      var f := Last(w.slots).file;
      w.(slots := SetLast(w.slots, f.(disk := f.disk + Footer(w.pos, f.ivts, order, md5))), phase := Footed(w.phase.n))
    else w.(phase := Settled(w.phase.n))
  }

  /** Start the file whose first entry is `first`; the file before it is filed under the index before. */
  function NewFile(slots: seq<Slot>, first: nat): (r: seq<Slot>) {
    var fresh' := [Slot(MAX_INDEX, File(first, [], map[]))];
    if slots != [] && Last(slots).key == MAX_INDEX then
      var before := slots[..|slots| - 1];
      if first > 1 then before + [Last(slots).(key := first - 1)] + fresh' else before + fresh'
    else slots + fresh'
  }

  function Roll(w: Wal): (r: Wal)
    requires w.phase.Footed? && 0 < w.phase.n <= |w.writers|
  {
    w.(slots := NewFile(w.slots, w.writers[w.phase.n - 1].seqno + 1), pos := 0, phase := Settled(w.phase.n))
  }

  function Publish(w: Wal): (r: Wal)
    requires w.phase.Settled? && 0 < w.phase.n <= |w.writers|
  {
    w.(lastIdx := w.writers[w.phase.n - 1].seqno, phase := Published(w.phase.n))
  }

  /** The batch leaves the queue. */
  function Finish(w: Wal): (r: Wal)
    requires w.phase.Published? && w.phase.n <= |w.writers|
  {
    w.(writers := w.writers[w.phase.n..], phase := Idle)
  }

  // ---------------------------------------------------------------- what a state means

  function Flat(segs: seq<seq<Rec>>): (r: seq<Rec>) {
    if segs == [] then [] else Flat(segs[..|segs| - 1]) + Last(segs)
  }

  /** Every record that ever entered, and how those on disk are cut into files. */
  datatype View = View(log: seq<Rec>, segs: seq<seq<Rec>>)

  /** A file that holds the records `on`, whose index already lists the records `listed`. */
  ghost predicate FileOk(f: File, start: nat, on: seq<Rec>, listed: seq<Rec>, footed: bool, md5: Md5) {
    && f.start == start && Fits(start, listed) && on <= listed
    && f.ivts == IndexOf(start, listed)
    && (if footed then
          && on == listed && on != []
          && exists order :: Enumerates(f.ivts, order) && f.disk == Finished(start, on, order, md5)
        else f.disk == Body(on))
  }

  function Start(w: Wal, v: View, j: nat): (n: nat)
    requires j <= |v.segs|
  {
    w.startIdx + |Flat(v.segs[..j])|
  }

  /** Number of records whose appenders have left the queue. */
  function Gone(w: Wal, v: View): (n: int) {
    |v.log| - |w.writers|
  }

  function Batch(w: Wal): (n: nat) {
    if w.phase.Idle? then 0 else w.phase.n
  }

  /** Number of records on disk. */
  function OnDisk(w: Wal, v: View): (n: int) {
    if w.phase.Idle? || w.phase.Batched? then Gone(w, v) else Gone(w, v) + Batch(w)
  }

  ghost predicate OldSlotOk(w: Wal, v: View, j: nat, md5: Md5) {
    && j < |v.segs| - 1 && j < |w.slots|
    && w.slots[j].key == Start(w, v, j) + |v.segs[j]| - 1
    && FileOk(w.slots[j].file, Start(w, v, j), v.segs[j], v.segs[j], true, md5)
  }

  ghost predicate QueueOk(w: Wal, v: View) {
    && 0 <= Gone(w, v) && Batch(w) <= |w.writers| && (!w.phase.Idle? ==> 0 < Batch(w))
    && w.nextIdx == w.startIdx + |v.log|
    && w.lastIdx == w.startIdx + Gone(w, v) - 1 + (if w.phase.Published? then w.phase.n else 0)
    && forall i {:trigger w.writers[i]} :: 0 <= i < |w.writers| ==>
         w.writers[i] == Writer(w.startIdx + Gone(w, v) + i, v.log[Gone(w, v) + i])
  }

  /** The records listed in the index of the last file. */
  function Listed(w: Wal, v: View): (r: seq<Rec>)
    requires v.segs != [] && QueueOk(w, v)
  {
    if w.phase.Batched? then Last(v.segs) + v.log[Gone(w, v)..Gone(w, v) + w.phase.n] else Last(v.segs)
  }

  /** The file being written. */
  ghost predicate LastOk(slots: seq<Slot>, pos: nat, start: nat, on: seq<Rec>, listed: seq<Rec>, footed: bool, md5: Md5) {
    && slots != [] && Last(slots).key == MAX_INDEX
    && FileOk(Last(slots).file, start, on, listed, footed, md5)
    && pos == |Body(listed)|
  }

  ghost predicate Inv(w: Wal, v: View, md5: Md5) {
    && 0 < w.startIdx && v.segs != [] && |w.slots| == |v.segs|
    && QueueOk(w, v)
    && 0 <= OnDisk(w, v) <= |v.log| && Flat(v.segs) == v.log[..OnDisk(w, v)]
    && (forall j {:trigger OldSlotOk(w, v, j, md5)} :: 0 <= j < |v.segs| - 1 ==> OldSlotOk(w, v, j, md5))
    && LastOk(w.slots, w.pos, Start(w, v, |v.segs| - 1), Last(v.segs), Listed(w, v), w.phase.Footed?, md5)
    && (w.phase.Batched? ==> w.phase.bytes == Body(v.log[Gone(w, v)..Gone(w, v) + w.phase.n]))
  }
}
