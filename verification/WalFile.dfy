/**
 One file of the write-ahead log: its in-memory index, the index it writes when it is finished,
 and the two ways of getting the index back from disk.
 */
module WalFile {
  import opened Common
  import opened Bytes
  import opened WalFormat

  datatype Info = Failed | Info(ivts: Ivts, last: nat, full: bool)

  /** The file ends with a trailer whose checksum is right. */
  predicate Ended(disk: seq<byte>, md5: Md5) {
    && |disk| > TRAILER
    && md5(disk[|disk| - TRAILER..|disk| - TRAILER + 8]) == disk[|disk| - TRAILER + 8..]
  }

  /** The index that the trailer points to. */
  function FromFooter(disk: seq<byte>): (i: Info)
    requires |disk| > TRAILER
  {
    var t := disk[|disk| - TRAILER..];
    var pos, size := FromBE(t[..4]), FromBE(t[4..8]);
    if pos + size > |disk| || size < HEADER then Failed
    else FromIndex(disk[pos..pos + size])
  }

  function FromIndex(s: seq<byte>): (i: Info)
    requires HEADER <= |s|
  {
    var count := FromBE(s[..HEADER]);
    if HEADER + 16 * count > |s| then Failed
    else Info(DecodeEntries(s[HEADER..], count), DecodeLast(s[HEADER..], count), true)
  }

  /** Step over the entries from `pos` on; `k` entries came before. */
  function Scanned(disk: seq<byte>, start: nat, k: nat, pos: nat, ivts: Ivts): (i: Info)
    decreases |disk| - pos
  {
    if pos >= |disk| then Info(ivts, if k == 0 then 0 else start + k - 1, false)
    else if pos + HEADER > |disk| then Failed
    else
      var size := HEADER + FromBE(disk[pos..pos + HEADER]);
      if pos + size >= UINT32 then Failed
      else Scanned(disk, start, k + 1, pos + size, ivts[start + k := Pack(pos, size)])
  }

  function Loaded(disk: seq<byte>, start: nat, md5: Md5): (i: Info) {
    if Ended(disk, md5) then FromFooter(disk) else Scanned(disk, start, 0, 0, map[])
  }

  /** Scanning a file of entries yields their index. */
  lemma {:induction false} ScanBody(start: nat, recs: seq<Rec>, k: nat, disk: seq<byte>, pos: nat, ivts: Ivts)
    requires Fits(start, recs) && k <= |recs|
    requires disk == Body(recs) && pos == |Body(recs[..k])| && ivts == IndexOf(start, recs[..k])
    ensures Scanned(disk, start, k, pos, ivts)
         == Info(IndexOf(start, recs), if recs == [] then 0 else start + |recs| - 1, false)
    decreases |recs| - k
  {
    if k == |recs| {
      assert recs[..k] == recs;
    } else {
      var size := HEADER + |recs[k]|;
      BodyAt(recs, k);
      ScanHead(disk, pos, recs[k]);
      ScanStep(disk, start, k, pos, ivts, size);
      PrefixStep(start, recs, k);
      ScanBody(start, recs, k + 1, disk, pos + size, ivts[start + k := Pack(pos, size)]);
    }
  }

  lemma ScanStep(disk: seq<byte>, start: nat, k: nat, pos: nat, ivts: Ivts, size: nat)
    requires pos + HEADER <= |disk| && size == HEADER + FromBE(disk[pos..pos + HEADER]) && pos + size < UINT32
    ensures Scanned(disk, start, k, pos, ivts)
         == Scanned(disk, start, k + 1, pos + size, ivts[start + k := Pack(pos, size)])
  {
  }

  lemma PrefixStep(start: nat, recs: seq<Rec>, k: nat)
    requires k < |recs|
    ensures |Body(recs[..k + 1])| == |Body(recs[..k])| + (HEADER + |recs[k]|)
    ensures IndexOf(start, recs[..k + 1])
         == IndexOf(start, recs[..k])[start + k := Pack(|Body(recs[..k])|, HEADER + |recs[k]|)]
  {
    assert recs[..k + 1] == recs[..k] + [recs[k]];
    BodySnoc(recs[..k], recs[k]);
    IndexSnoc(start, recs[..k], recs[k]);
  }

  lemma ScanHead(disk: seq<byte>, pos: nat, r: Rec)
    requires pos + HEADER + |r| <= |disk| < UINT32 && disk[pos..pos + HEADER + |r|] == Entry(r)
    ensures FromBE(disk[pos..pos + HEADER]) == |r|
  {
    assert disk[pos..pos + HEADER] == disk[pos..pos + HEADER + |r|][..HEADER];
    Widths();
    BERoundTrip(|r|, HEADER);
  }

  /** The finished file: entries, index, trailer. */
  function Finished(start: nat, recs: seq<Rec>, order: seq<nat>, md5: Md5): (s: seq<byte>)
    requires forall k :: k in order ==> k in IndexOf(start, recs)
  {
    Body(recs) + Footer(|Body(recs)|, IndexOf(start, recs), order, md5)
  }

  /** The trailer of a finished file is recognised and points to the index. */
  lemma FinishedTrailer(disk: seq<byte>, body: seq<byte>, index: seq<byte>, md5: Md5)
    requires Checksum(md5) && |body| < UINT32 && |index| < UINT32 && HEADER <= |index|
    requires disk == body + (index + Trailer(|body|, |index|, md5))
    ensures Ended(disk, md5)
    ensures FromBE(disk[|disk| - TRAILER..][..4]) == |body|
    ensures FromBE(disk[|disk| - TRAILER..][4..8]) == |index|
    ensures |body| + |index| <= |disk| && disk[|body|..|body| + |index|] == index
  {
    var key := BE(|body|, 4) + BE(|index|, 4);
    var n := |disk| - TRAILER;
    assert |md5(key)| == 65;
    assert n == |body| + |index|;
    assert disk[n..] == Trailer(|body|, |index|, md5) == key + md5(key);
    assert disk[n..n + 8] == disk[n..][..8] == key && disk[n + 8..] == disk[n..][8..] == md5(key);
    assert disk[n..][..4] == key[..4] == BE(|body|, 4);
    assert disk[n..][4..8] == key[4..8] == BE(|index|, 4);
    Widths();
    BERoundTrip(|body|, 4);
    BERoundTrip(|index|, 4);
  }

  /** A finished file gives back its index, whatever the order it was written in. */
  lemma LoadFinished(start: nat, recs: seq<Rec>, order: seq<nat>, md5: Md5)
    requires Checksum(md5) && Fits(start, recs) && recs != []
    requires Enumerates(IndexOf(start, recs), order)
    ensures Loaded(Finished(start, recs, order, md5), start, md5)
         == Info(IndexOf(start, recs), start + |recs| - 1, true)
  {
    var ivts := IndexOf(start, recs);
    var index := IndexBytes(ivts, order);
    OrderSize(start, recs, order);
    var disk, body := Finished(start, recs, order, md5), Body(recs);
    FinishedTrailer(disk, body, index, md5);
    LoadIndex(start, recs, order, index);
    LoadFooter(disk, |body|, index, |order|, start, md5);
  }

  lemma LoadFooter(disk: seq<byte>, pos: nat, index: seq<byte>, count: nat, start: nat, md5: Md5)
    requires Ended(disk, md5) && pos + |index| <= |disk| && disk[pos..pos + |index|] == index
    requires FromBE(disk[|disk| - TRAILER..][..4]) == pos && FromBE(disk[|disk| - TRAILER..][4..8]) == |index|
    requires |index| == HEADER + 16 * count && FromBE(index[..HEADER]) == count
    ensures Loaded(disk, start, md5)
         == Info(DecodeEntries(index[HEADER..], count), DecodeLast(index[HEADER..], count), true)
  {
  }

  lemma LoadIndex(start: nat, recs: seq<Rec>, order: seq<nat>, index: seq<byte>)
    requires Fits(start, recs) && recs != [] && |order| == |recs|
    requires Enumerates(IndexOf(start, recs), order) && index == IndexBytes(IndexOf(start, recs), order)
    ensures |index| >= HEADER && FromBE(index[..HEADER]) == |order| && HEADER + 16 * |order| == |index|
    ensures DecodeEntries(index[HEADER..], |order|) == IndexOf(start, recs)
    ensures DecodeLast(index[HEADER..], |order|) == start + |recs| - 1
  {
    var ivts := IndexOf(start, recs);
    IndexBounds(start, recs);
    DecodeIndex(ivts, order, |order|);
    assert order[..|order|] == order;
    assert Restrict(ivts, order) == ivts;
    OrderTop(start, recs, order);
    assert index[..HEADER] == BE(|order|, HEADER) && index[HEADER..] == IndexEntries(ivts, order);
    Widths();
    BERoundTrip(|order|, HEADER);
  }

  lemma OrderTop(start: nat, recs: seq<Rec>, order: seq<nat>)
    requires recs != [] && Enumerates(IndexOf(start, recs), order)
    ensures Largest(order) == start + |recs| - 1
  {
    IndexKeys(start, recs);
    var top := start + |recs| - 1;
    assert top in order;
    var at :| 0 <= at < |order| && order[at] == top;
    forall i | 0 <= i < |order| ensures order[i] <= top { assert order[i] in order; }
    LargestIs(order, top, at);
  }

  lemma IndexBounds(start: nat, recs: seq<Rec>)
    requires Fits(start, recs)
    ensures forall k :: k in IndexOf(start, recs) ==> k < UINT64 && IndexOf(start, recs)[k] < UINT64
  {
    IndexKeys(start, recs);
    forall k | k in IndexOf(start, recs) ensures k < UINT64 && IndexOf(start, recs)[k] < UINT64 {
      IndexAt(start, recs, k - start);
      BodyAt(recs, k - start);
    }
  }

  lemma OrderSize(start: nat, recs: seq<Rec>, order: seq<nat>)
    requires Enumerates(IndexOf(start, recs), order)
    ensures |order| == |recs|
  {
    IndexKeys(start, recs);
    var inOrder := set i | 0 <= i < |order| :: order[i];
    DistinctSize(order);
    RangeSize(start, |recs|);
    assert inOrder == Range(start, |recs|) by {
      forall k ensures k in inOrder <==> k in Range(start, |recs|) {
        assert k in inOrder <==> k in order;
        RangeMember(start, |recs|, k);
      }
    }
  }

  ghost function Range(start: nat, n: nat): set<nat> {
    if n == 0 then {} else Range(start, n - 1) + {start + n - 1}
  }

  lemma {:induction false} RangeMember(start: nat, n: nat, k: nat)
    ensures k in Range(start, n) <==> start <= k < start + n
  {
    if n > 0 { RangeMember(start, n - 1, k); }
  }

  lemma {:induction false} RangeSize(start: nat, n: nat)
    ensures |Range(start, n)| == n
  {
    if n > 0 {
      RangeSize(start, n - 1);
      RangeMember(start, n - 1, start + n - 1);
    }
  }

  lemma {:induction false} DistinctSize(order: seq<nat>)
    requires forall i, j :: 0 <= i < j < |order| ==> order[i] != order[j]
    ensures |set i | 0 <= i < |order| :: order[i]| == |order|
  {
    var all := set i | 0 <= i < |order| :: order[i];
    if order == [] {
      assert all == {};
    } else {
      var n := |order| - 1;
      DistinctSize(order[..n]);
      var rest := set i | 0 <= i < |order[..n]| :: order[..n][i];
      assert all == rest + {order[n]};
      assert order[n] !in rest;
    }
  }

  // ---------------------------------------------------------------- the file object

  class WalFileInfo {
    const start: nat
    var disk: seq<byte>          // the bytes of the file
    var ivts: Ivts
    var lastIndex: nat
    var loadFull: bool

    constructor (first: nat, bytes: seq<byte>)
      ensures start == first && disk == bytes && ivts == map[] && lastIndex == 0 && !loadFull
    {
      start, disk, ivts, lastIndex, loadFull := first, bytes, map[], 0, false;
    }

    /** Read the index at the end of a finished file. */
    method LoadIndexEntries(s: seq<byte>, count: nat)
      requires 16 * count <= |s| && ivts == map[] && lastIndex == 0
      modifies this`ivts, this`lastIndex
      ensures ivts == DecodeEntries(s, count) && lastIndex == DecodeLast(s, count)
    {
      for i := 0 to count
        invariant ivts == DecodeEntries(s, i) && lastIndex == DecodeLast(s, i)
      {
        var seqno := FromBE(s[16 * i..16 * i + 8]);
        var ivt := FromBE(s[16 * i + 8..16 * i + 16]);
        if seqno !in ivts { ivts := ivts[seqno := ivt]; }
        if lastIndex < seqno { lastIndex := seqno; }
      }
    }

    /** Step over the entries of an unfinished file. */
    method ScanEntries() returns (ok: bool)
      requires ivts == map[] && lastIndex == 0 && !loadFull
      modifies this`ivts, this`lastIndex
      ensures var i := Scanned(disk, start, 0, 0, map[]);
              (ok <==> i.Info?) && (ok ==> ivts == i.ivts && lastIndex == i.last && !i.full)
    {
      ghost var want := Scanned(disk, start, 0, 0, map[]);
      var pos, k := 0, 0;
      while pos < |disk|
        invariant want == Scanned(disk, start, k, pos, ivts)
        invariant lastIndex == if k == 0 then 0 else start + k - 1
        decreases |disk| - pos
      {
        if pos + HEADER > |disk| {
          return false;
        }
        var size := HEADER + FromBE(disk[pos..pos + HEADER]);
        if pos + size >= UINT32 {
          return false;
        }
        ivts := ivts[start + k := Pack(pos, size)];
        pos := pos + size;
        lastIndex := start + k;
        k := k + 1;
      }
      return true;
    }

    method LoadFooterIndex() returns (ok: bool)
      requires |disk| > TRAILER && ivts == map[] && lastIndex == 0
      modifies this`ivts, this`lastIndex
      ensures var i := FromFooter(disk); (ok <==> i.Info?) && (ok ==> ivts == i.ivts && lastIndex == i.last && i.full)
    {
      var t := disk[|disk| - TRAILER..];
      var pos, size := FromBE(t[..4]), FromBE(t[4..8]);
      if pos + size > |disk| || size < HEADER {
        return false;
      }
      var s := disk[pos..pos + size];
      ok := LoadIndexOf(s);
    }

    method LoadIndexOf(s: seq<byte>) returns (ok: bool)
      requires HEADER <= |s| && ivts == map[] && lastIndex == 0
      modifies this`ivts, this`lastIndex
      ensures var i := FromIndex(s); (ok <==> i.Info?) && (ok ==> ivts == i.ivts && lastIndex == i.last && i.full)
    {
      var count := FromBE(s[..HEADER]);
      if HEADER + 16 * count > |s| {
        return false;
      }
      LoadIndexEntries(s[HEADER..], count);
      return true;
    }

    /** Rebuild the in-memory index from the file. */
    method LoadInfo(md5: Md5) returns (ok: bool)
      requires ivts == map[] && lastIndex == 0 && !loadFull
      modifies this`ivts, this`lastIndex, this`loadFull
      ensures var i := Loaded(disk, start, md5);
              (ok <==> i.Info?) && (ok ==> ivts == i.ivts && lastIndex == i.last && loadFull == i.full)
    {
      if Ended(disk, md5) {
        ok := LoadFooterIndex();
        loadFull := ok;
      } else {
        ok := ScanEntries();
      }
    }
  }
}
