/**
 Reading a range of entries with a single read: the lengths come from the index, the bytes from
 one stretch of the file, which is then cut up.
 */
module WalRange {
  import opened Common
  import opened Bytes
  import opened WalFormat
  import opened WalFile
  import opened WalLog
  import opened WalSteps

  function Sum(ls: seq<nat>): (n: nat) {
    if ls == [] then 0 else Sum(ls[..|ls| - 1]) + ls[|ls| - 1]
  }

  /** Cut a byte string into pieces of the given lengths. */
  function Cut(s: seq<byte>, ls: seq<nat>): (r: seq<seq<byte>>)
    requires Sum(ls) <= |s|
    ensures |r| == |ls|
  {
    if ls == [] then []
    else
      var n := |ls| - 1;
      Cut(s, ls[..n]) + [s[Sum(ls[..n])..Sum(ls)]]
  }

  predicate Lists(f: File, from: nat, n: nat) {
    forall i :: from <= i < from + n ==> i in f.ivts && f.ivts[i] != 0
  }

  function Lengths(f: File, from: nat, n: nat): (ls: seq<nat>)
    requires Lists(f, from, n)
    ensures |ls| == n
  {
    seq(n, i requires 0 <= i < n => f.ivts[from + i] % UINT32)
  }

  /** The `n` entries from index `from` on, or nothing if one is not listed or the file is too short. */
  function FileRange(f: File, from: nat, n: nat): (r: seq<seq<byte>>) {
    if n == 0 || !Lists(f, from, n) then []
    else
      var pos, ls := f.ivts[from] / UINT32, Lengths(f, from, n);
      if pos + Sum(ls) > |f.disk| then [] else Cut(f.disk[pos..pos + Sum(ls)], ls)
  }

  /** The entries from `s` to `e`, but no further than the file in which `s` lies. */
  method LogEntries(w: Wal, s: nat, e: nat) returns (vecs: seq<seq<byte>>)
    ensures vecs == RangeOf(w, s, e)
  {
    if s > e || s < w.startIdx || s > w.lastIdx || e < w.startIdx || e > w.lastIdx {
      return [];
    }
    var j := LowerBound(w.slots, s, 0);
    if j == |w.slots| {
      return [];
    }
    var f := w.slots[j].file;
    var end := Until(w, j, e);
    var lengths: seq<nat>, total, start := [], 0, 0;
    for idx := s to end + 1
      invariant Lists(f, s, idx - s) && lengths == Lengths(f, s, idx - s) && total == Sum(lengths)
      invariant s < idx ==> start == f.ivts[s] / UINT32
    {
      if idx !in f.ivts || f.ivts[idx] == 0 {
        return [];
      }
      if idx == s {
        start := f.ivts[idx] / UINT32;
      }
      ghost var before := lengths;
      lengths := lengths + [f.ivts[idx] % UINT32];
      assert lengths[..|lengths| - 1] == before;
      total := total + f.ivts[idx] % UINT32;
    }
    if start + total > |f.disk| {
      return [];
    }
    vecs := CutUp(f.disk[start..start + total], lengths);
  }

  method CutUp(s: seq<byte>, ls: seq<nat>) returns (vecs: seq<seq<byte>>)
    requires Sum(ls) == |s|
    ensures vecs == Cut(s, ls)
  {
    vecs := [];
    var at := 0;
    for i := 0 to |ls|
      invariant at == Sum(ls[..i]) <= |s|
      invariant vecs == Cut(s, ls[..i])
    {
      assert ls[..i + 1][..i] == ls[..i];
      SumPrefix(ls, i + 1);
      vecs := vecs + [s[at..at + ls[i]]];
      at := at + ls[i];
    }
    assert ls[..|ls|] == ls;
  }

  lemma {:induction false} SumPrefix(ls: seq<nat>, k: nat)
    requires k <= |ls|
    ensures Sum(ls[..k]) <= Sum(ls)
  {
    if k < |ls| {
      SumPrefix(ls[..|ls| - 1], k);
      assert ls[..|ls| - 1][..k] == ls[..k];
    } else {
      assert ls[..k] == ls;
    }
  }

  function RangeOf(w: Wal, s: nat, e: nat): (r: seq<seq<byte>>) {
    if s > e || s < w.startIdx || s > w.lastIdx || e < w.startIdx || e > w.lastIdx then []
    else
      var j := LowerBound(w.slots, s, 0);
      if j == |w.slots| then []
      else
        FileRange(w.slots[j].file, s, Until(w, j, e) + 1 - s)
  }

  /** The last index of a range that starts in slot `j`. */
  function Until(w: Wal, j: nat, e: nat): (end: nat)
    requires j < |w.slots|
  {
    if w.slots[j].key > e then e else w.slots[j].key
  }

  // ---------------------------------------------------------------- a range is its entries

  function Sizes(rs: seq<Rec>): (ls: seq<nat>)
    ensures |ls| == |rs|
  {
    seq(|rs|, i requires 0 <= i < |rs| => HEADER + |rs[i]|)
  }

  /** Cutting a file of entries by their sizes gives back the entries. */
  lemma {:induction false} CutBody(rs: seq<Rec>, s: seq<byte>, i: nat)
    requires Body(rs) <= s && i < |rs|
    ensures Sum(Sizes(rs)) == |Body(rs)|
    ensures Cut(s, Sizes(rs))[i] == Entry(rs[i])
  {
    var n := |rs| - 1;
    assert Sizes(rs)[..n] == Sizes(rs[..n]);
    SumSizes(rs[..n]);
    assert Body(rs)[..|Body(rs[..n])|] == Body(rs[..n]);
    if i < n {
      CutBody(rs[..n], s, i);
    } else {
      assert s[|Body(rs[..n])|..|Body(rs)|] == s[..|Body(rs)|][|Body(rs[..n])|..];
    }
  }

  lemma {:induction false} SumSizes(rs: seq<Rec>)
    ensures Sum(Sizes(rs)) == |Body(rs)|
  {
    if rs != [] {
      SumSizes(rs[..|rs| - 1]);
      assert Sizes(rs)[..|rs| - 1] == Sizes(rs[..|rs| - 1]);
    }
  }

  lemma RangeLengths(f: File, start: nat, on: seq<Rec>, listed: seq<Rec>, footed: bool, md5: Md5, k: nat, n: nat)
    requires FileOk(f, start, on, listed, footed, md5) && k + n <= |on|
    ensures Lists(f, start + k, n) && Lengths(f, start + k, n) == Sizes(on[k..k + n])
  {
    forall i | start + k <= i < start + k + n
      ensures i in f.ivts && f.ivts[i] != 0 && f.ivts[i] % UINT32 == HEADER + |on[i - start]|
    {
      LengthAt(f, start, on, listed, footed, md5, i - start);
    }
  }

  lemma LengthAt(f: File, start: nat, on: seq<Rec>, listed: seq<Rec>, footed: bool, md5: Md5, k: nat)
    requires FileOk(f, start, on, listed, footed, md5) && k < |on|
    ensures start + k in f.ivts && f.ivts[start + k] != 0 && f.ivts[start + k] % UINT32 == HEADER + |on[k]|
  {
    IndexAt(start, listed, k);
    BodyAt(listed, k);
    PackRoundTrip(|Body(listed[..k])|, HEADER + |listed[k]|);
  }

  lemma RangeBytes(f: File, start: nat, on: seq<Rec>, listed: seq<Rec>, footed: bool, md5: Md5, k: nat, n: nat)
    requires FileOk(f, start, on, listed, footed, md5) && 0 < n && k + n <= |on|
    ensures start + k in f.ivts
    ensures var pos, b := f.ivts[start + k] / UINT32, Body(on[k..k + n]);
            pos + |b| <= |f.disk| && f.disk[pos..pos + |b|] == b
  {
    RangeStart(f, start, on, listed, footed, md5, k);
    BodyMiddle(on, k, n);
    var p, b := |Body(on[..k])|, Body(on[k..k + n]);
    assert Body(on) <= f.disk;
    assert f.disk[p..p + |b|] == f.disk[..|Body(on)|][p..p + |b|];
  }

  lemma RangeStart(f: File, start: nat, on: seq<Rec>, listed: seq<Rec>, footed: bool, md5: Md5, k: nat)
    requires FileOk(f, start, on, listed, footed, md5) && k < |on|
    ensures start + k in f.ivts && f.ivts[start + k] / UINT32 == |Body(on[..k])|
  {
    EntryPlace(f, start, on, listed, footed, md5, k);
    PackRoundTrip(|Body(on[..k])|, HEADER + |on[k]|);
  }

  lemma BodyMiddle(on: seq<Rec>, k: nat, n: nat)
    requires k + n <= |on|
    ensures var p, b := |Body(on[..k])|, Body(on[k..k + n]);
            p + |b| <= |Body(on)| && Body(on)[p..p + |b|] == b
  {
    assert on == on[..k] + (on[k..k + n] + on[k + n..]);
    BodyConcat(on[..k], on[k..k + n] + on[k + n..]);
    BodyConcat(on[k..k + n], on[k + n..]);
  }

  /** A range read from a file is the entries one by one. */
  lemma FileRangeIs(f: File, start: nat, on: seq<Rec>, listed: seq<Rec>, footed: bool, md5: Md5, k: nat, n: nat, i: nat,
                    r: seq<seq<byte>>)
    requires FileOk(f, start, on, listed, footed, md5) && 0 < n && k + n <= |on| && i < n
    requires r == FileRange(f, start + k, n)
    ensures |r| == n && r[i] == Entry(on[k + i])
  {
    RangeLengths(f, start, on, listed, footed, md5, k, n);
    RangeBytes(f, start, on, listed, footed, md5, k, n);
    var rs := on[k..k + n];
    SumSizes(rs);
    CutBody(rs, Body(rs), i);
  }

  /** Index `s` belongs to file `j`. */
  ghost predicate FileOf(w: Wal, s: nat, j: nat) {
    j < |w.slots| && w.slots[j].file.start <= s && (j + 1 < |w.slots| ==> s < w.slots[j + 1].file.start)
  }

  /** The last index of file `j` that is not behind `e`. */
  ghost function FileUntil(w: Wal, j: nat, e: nat): (end: int)
    requires j < |w.slots|
  {
    if j + 1 < |w.slots| && w.slots[j + 1].file.start <= e then w.slots[j + 1].file.start - 1 else e
  }

  /**
   A range of published entries comes back complete up to the end of the file in which it starts,
   and each entry is the one a single read of that index yields.  Any other range comes back empty.
   */
  lemma RangeReadsBack(w: Wal, v: View, md5: Md5, s: nat, e: nat, i: nat)
    requires Inv(w, v, md5)
    ensures w.startIdx <= s <= e <= w.lastIdx ==>
              exists j :: FileOf(w, s, j) && |RangeOf(w, s, e)| == FileUntil(w, j, e) + 1 - s > 0
    ensures !(w.startIdx <= s <= e <= w.lastIdx) ==> RangeOf(w, s, e) == []
    ensures i < |RangeOf(w, s, e)| ==> Some(RangeOf(w, s, e)[i]) == EntryAt(w, s + i)
  {
    if w.startIdx <= s <= e <= w.lastIdx {
      InvSlots(w, v, md5);
      RangeInSlots(w, v, md5, s, e, i);
      RangeFile(w, v, md5, s, e);
    }
  }

  lemma RangeFile(w: Wal, v: View, md5: Md5, s: nat, e: nat)
    requires SlotsOk(w, v, md5) && w.startIdx <= s <= e <= w.lastIdx && w.lastIdx - w.startIdx < |Flat(v.segs)|
    ensures var j := LowerBound(w.slots, s, 0);
            j < |w.slots| && FileOf(w, s, j) && Until(w, j, e) == FileUntil(w, j, e)
  {
    var j, k := Locate(v.segs, s - w.startIdx);
    ReadAt(w, v, md5, j, k);
    SlotBounds(w, v, md5, j);
    var j', k' := Locate(v.segs, e - w.startIdx);
    ReadAt(w, v, md5, j', k');
  }

  lemma SlotStart(w: Wal, v: View, md5: Md5, j: nat)
    requires SlotsOk(w, v, md5) && j < |w.slots|
    ensures w.slots[j].file.start == Start(w, v, j)
    ensures w.slots[j].key == (if j < |v.segs| - 1 then Start(w, v, j) + |v.segs[j]| - 1 else MAX_INDEX)
  {
    assert SlotOk(w, v, md5, j);
  }

  /** Where file `j` starts and ends, and under which key it is filed. */
  lemma SlotBounds(w: Wal, v: View, md5: Md5, j: nat)
    requires SlotsOk(w, v, md5) && j < |w.slots|
    ensures w.slots[j].file.start == Start(w, v, j)
    ensures j + 1 < |w.slots| ==>
              w.slots[j + 1].file.start == Start(w, v, j) + |v.segs[j]| == w.slots[j].key + 1
    ensures j + 1 == |w.slots| ==> w.slots[j].key == MAX_INDEX
  {
    SlotStart(w, v, md5, j);
    if j + 1 < |w.slots| {
      SlotStart(w, v, md5, j + 1);
      FlatCut(v.segs, j);
    }
  }

  lemma {:induction false} RangeInSlots(w: Wal, v: View, md5: Md5, s: nat, e: nat, i: nat)
    requires SlotsOk(w, v, md5) && w.startIdx <= s <= e <= w.lastIdx && w.lastIdx - w.startIdx < |Flat(v.segs)|
    ensures var j := LowerBound(w.slots, s, 0);
            && j < |w.slots| && s <= Until(w, j, e)
            && |RangeOf(w, s, e)| == Until(w, j, e) + 1 - s
            && (s + i <= Until(w, j, e) ==> Some(RangeOf(w, s, e)[i]) == EntryAt(w, s + i))
  {
    var j, k := Locate(v.segs, s - w.startIdx);
    ReadAt(w, v, md5, j, k);
    RangeEnd(w, v, md5, s, e, j, k);
    RangeAt(w, s, e, j);
    RangeFrom(w, v, md5, s, Until(w, j, e), j, k, i, RangeOf(w, s, e));
  }

  lemma RangeAt(w: Wal, s: nat, e: nat, j: nat)
    requires w.startIdx <= s <= e <= w.lastIdx && j == LowerBound(w.slots, s, 0) && j < |w.slots| && s <= Until(w, j, e)
    ensures RangeOf(w, s, e) == FileRange(w.slots[j].file, s, Until(w, j, e) + 1 - s)
  {
  }

  lemma RangeFrom(w: Wal, v: View, md5: Md5, s: nat, end: nat, j: nat, k: nat, i: nat, r: seq<seq<byte>>)
    requires SlotsOk(w, v, md5) && s <= end <= w.lastIdx
    requires j < |v.segs| && k < |v.segs[j]| && s == Start(w, v, j) + k && k + (end + 1 - s) <= |v.segs[j]|
    requires r == FileRange(w.slots[j].file, s, end + 1 - s)
    ensures |r| == end + 1 - s && (s + i <= end ==> Some(r[i]) == EntryAt(w, s + i))
  {
    var n := end + 1 - s;
    SlotRange(w, v, md5, j, k, n, if i < n then i else 0, r);
    if i < n { ReadAt(w, v, md5, j, k + i); }
  }

  lemma SlotRange(w: Wal, v: View, md5: Md5, j: nat, k: nat, n: nat, i: nat, r: seq<seq<byte>>)
    requires SlotsOk(w, v, md5) && j < |v.segs| && i < n && k + n <= |v.segs[j]|
    requires r == FileRange(w.slots[j].file, Start(w, v, j) + k, n)
    ensures |r| == n && r[i] == Entry(v.segs[j][k + i])
  {
    assert SlotOk(w, v, md5, j);
    var f, start, on := w.slots[j].file, Start(w, v, j), v.segs[j];
    var listed, footed :| FileOk(f, start, on, listed, footed, md5);
    FileRangeIs(f, start, on, listed, footed, md5, k, n, i, r);
  }

  /** The range stays within the file: the key is its last index, or the file is the one being written. */
  lemma RangeEnd(w: Wal, v: View, md5: Md5, s: nat, e: nat, j: nat, k: nat)
    requires SlotsOk(w, v, md5) && w.startIdx <= s <= e <= w.lastIdx && w.lastIdx - w.startIdx < |Flat(v.segs)|
    requires j < |v.segs| && k < |v.segs[j]| && s == Start(w, v, j) + k
    ensures s <= Until(w, j, e) && k + (Until(w, j, e) + 1 - s) <= |v.segs[j]|
  {
    assert SlotOk(w, v, md5, j);
    ReadAt(w, v, md5, j, k);
  }
}
