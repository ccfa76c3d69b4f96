/**
 The life of a log directory: any number of openings, with any interleaving of appenders between
 them and a stop at any moment.
 */
module WalLife {
  import opened Common
  import opened WalFormat
  import opened WalFile
  import opened WalLog
  import opened WalSteps
  import opened WalRecover
  import opened WalRun

  /** A step of an appender, or a stop of the process followed by opening the directory again. */
  datatype Event = Step(op: Op) | Restart

  ghost predicate Possible(w: Wal, e: Event, md5: Md5) {
    match e
    case Step(op) => Legal(w, op)
    case Restart => Opened(Dir(w), md5).Some? && w.slots != [] && !Mimics(w, md5)
  }

  ghost function After(w: Wal, e: Event, md5: Md5): (r: Wal)
    requires Possible(w, e, md5)
  {
    match e
    case Step(op) => Next(w, op, md5)
    case Restart => Opened(Dir(w), md5).value
  }

  ghost function AfterView(w: Wal, v: View, e: Event, md5: Md5): (r: View)
    requires Inv(w, v, md5) && Possible(w, e, md5)
  {
    match e
    case Step(op) => NextView(w, v, op)
    case Restart => DiskView(w, v)
  }

  /** Number of entries that readers may see. */
  function Visible(w: Wal): (n: int) {
    w.lastIdx - w.startIdx + 1
  }

  /** What was published is still there, and still published. */
  ghost predicate Preserves(w: Wal, v: View, r: Wal, u: View) {
    0 <= Visible(w) <= Visible(r) && Visible(w) <= |v.log| && v.log[..Visible(w)] <= u.log
  }

  lemma PreservesOn(w: Wal, v: View, r: Wal, u: View, s: Wal, x: View)
    requires Preserves(w, v, r, u) && Preserves(r, u, s, x)
    ensures Preserves(w, v, s, x)
  {
    var n, m := Visible(w), Visible(r);
    PrefixOf(u.log, x.log, n, m);
    assert u.log[..n] == v.log[..n];
  }

  lemma PrefixOf(a: seq<Rec>, b: seq<Rec>, n: nat, m: nat)
    requires n <= m <= |a| && a[..m] <= b
    ensures n <= |b| && a[..n] == b[..n]
  {
    assert a[..m][..n] == a[..n];
    assert b[..m][..n] == b[..n];
  }

  /** An event keeps the invariant and takes nothing back that has been published. */
  lemma EventKeeps(w: Wal, v: View, e: Event, md5: Md5)
    requires Inv(w, v, md5) && Checksum(md5) && Possible(w, e, md5)
    ensures var r, u := After(w, e, md5), AfterView(w, v, e, md5);
            Inv(r, u, md5) && r.startIdx == w.startIdx && Preserves(w, v, r, u)
  {
    match e
    case Step(op) =>
      NextKeeps(w, v, op, md5);
      StepVisible(w, v, op, md5);
    case Restart =>
      ReopenRestores(w, v, md5);
      RestartVisible(w, v, md5);
  }

  lemma StepVisible(w: Wal, v: View, op: Op, md5: Md5)
    requires Inv(w, v, md5) && Legal(w, op)
    ensures var r, u := Next(w, op, md5), NextView(w, v, op);
            r.startIdx == w.startIdx && Preserves(w, v, r, u)
  {
  }

  lemma RestartVisible(w: Wal, v: View, md5: Md5)
    requires Inv(w, v, md5)
    ensures 0 <= Visible(w) <= OnDisk(w, v) <= |v.log| && v.log[..Visible(w)] <= DiskView(w, v).log
  {
  }

  /** A stop leaves a file past the limit unfinished exactly when it falls between the write and the footer. */
  lemma RestartRotates(w: Wal, v: View, md5: Md5)
    requires Inv(w, v, md5) && Rotated(w, v) && Checksum(md5) && !Mimics(w, md5)
    ensures Rotated(Restored(w, v), DiskView(w, v)) <==> !(w.phase.Written? && w.pos > ROTATE)
  {
    var x := DiskView(w, v);
    if w.phase.Footed? {
      assert x.segs == v.segs + [[]] && Last(x.segs) == [];
    }
  }

  /** The states and the events of a directory that was empty at first. */
  ghost predicate Life(ws: seq<Wal>, vs: seq<View>, es: seq<Event>, md5: Md5) {
    && |ws| == |vs| == |es| + 1 && Checksum(md5)
    && Opened([], md5) == Some(ws[0]) && vs[0] == View([], [[]])
    && forall i {:trigger EventOf(ws, vs, es, md5, i)} :: 0 <= i < |es| ==> EventOf(ws, vs, es, md5, i)
  }

  ghost predicate EventOf(ws: seq<Wal>, vs: seq<View>, es: seq<Event>, md5: Md5, i: nat) {
    && i < |es| && i + 1 < |ws| && i + 1 < |vs| && Possible(ws[i], es[i], md5)
    && ws[i + 1] == After(ws[i], es[i], md5)
    && (Inv(ws[i], vs[i], md5) ==> vs[i + 1] == AfterView(ws[i], vs[i], es[i], md5))
  }

  lemma {:induction false} LifeKeeps(ws: seq<Wal>, vs: seq<View>, es: seq<Event>, md5: Md5, i: nat)
    requires Life(ws, vs, es, md5) && i <= |es|
    ensures Inv(ws[i], vs[i], md5) && ws[i].startIdx == 1
  {
    if i == 0 {
      OpensEmpty(md5);
    } else {
      LifeKeeps(ws, vs, es, md5, i - 1);
      assert EventOf(ws, vs, es, md5, i - 1);
      EventKeeps(ws[i - 1], vs[i - 1], es[i - 1], md5);
    }
  }

  lemma {:induction false} VisibleStays(ws: seq<Wal>, vs: seq<View>, es: seq<Event>, md5: Md5, i: nat, k: nat)
    requires Life(ws, vs, es, md5) && i <= k <= |es|
    ensures Preserves(ws[i], vs[i], ws[k], vs[k])
  {
    if i < k {
      VisibleStays(ws, vs, es, md5, i, k - 1);
      LifeKeeps(ws, vs, es, md5, k - 1);
      assert EventOf(ws, vs, es, md5, k - 1);
      EventKeeps(ws[k - 1], vs[k - 1], es[k - 1], md5);
      PreservesOn(ws[i], vs[i], ws[k - 1], vs[k - 1], ws[k], vs[k]);
    } else {
      LifeKeeps(ws, vs, es, md5, i);
      RestartVisible(ws[i], vs[i], md5);
    }
  }

  /**
   Whatever was published stays: an entry that could be read at some moment is read with the same
   bytes at every later one, however often the process has stopped and the directory was opened
   again in between.
   */
  lemma PublishedStays(ws: seq<Wal>, vs: seq<View>, es: seq<Event>, md5: Md5, i: nat, k: nat, idx: nat)
    requires Life(ws, vs, es, md5) && i <= k <= |es| && 1 <= idx <= ws[i].lastIdx
    ensures idx <= ws[k].lastIdx && EntryAt(ws[i], idx).Some? && EntryAt(ws[k], idx) == EntryAt(ws[i], idx)
  {
    LifeKeeps(ws, vs, es, md5, i);
    LifeKeeps(ws, vs, es, md5, k);
    VisibleStays(ws, vs, es, md5, i, k);
    SameRead(ws[i], vs[i], ws[k], vs[k], md5, idx);
  }

  lemma SameRead(w: Wal, v: View, r: Wal, u: View, md5: Md5, idx: nat)
    requires Inv(w, v, md5) && Inv(r, u, md5) && w.startIdx == r.startIdx == 1 && Preserves(w, v, r, u) && 1 <= idx <= w.lastIdx
    ensures idx <= r.lastIdx && EntryAt(w, idx).Some? && EntryAt(r, idx) == EntryAt(w, idx)
  {
    ReadsBack(w, v, md5, idx);
    ReadsBack(r, u, md5, idx);
    assert v.log[..Visible(w)][idx - 1] == u.log[idx - 1];
  }

  /** After a restart the next record draws the number behind the last one on disk. */
  lemma RestartContinues(w: Wal, v: View, md5: Md5, data: Rec)
    requires Inv(w, v, md5) && Checksum(md5) && !Mimics(w, md5)
    ensures Opened(Dir(w), md5).Some?
    ensures var r := Enter(Opened(Dir(w), md5).value, data);
            r.writers == [Writer(w.startIdx + OnDisk(w, v), data)] && r.lastIdx == w.startIdx + OnDisk(w, v) - 1
  {
    ReopenRestores(w, v, md5);
    RestoredDraws(w, v, Restored(w, v), data);
  }

  lemma RestoredDraws(w: Wal, v: View, u: Wal, data: Rec)
    requires w.slots != [] && v.segs != [] && 0 <= OnDisk(w, v) && 0 < w.startIdx && u == Restored(w, v)
    ensures var r := Enter(u, data);
            r.writers == [Writer(w.startIdx + OnDisk(w, v), data)] && r.lastIdx == w.startIdx + OnDisk(w, v) - 1
  {
  }
}
