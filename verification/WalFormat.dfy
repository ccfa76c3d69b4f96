/**
 The bytes of a write-ahead log file: entries one after the other, and in a finished file behind
 them an index of the entries and a checksummed trailer that locates the index.
 */
module WalFormat {
  import opened Common
  import opened Bytes

  const HEADER := 4
  const TRAILER := 73                        // two 32-bit numbers and 65 bytes of checksum text

  type Rec = seq<byte>
  type Ivts = map<nat, nat>                  // index of an entry -> its position and length
  type Md5 = seq<byte> -> seq<byte>          // the checksum of a byte string, as text

  ghost predicate Checksum(md5: Md5) {
    forall s :: |md5(s)| == 65
  }

  function Pack(pos: nat, length: nat): (ivt: nat) {
    pos * UINT32 + length
  }

  lemma PackRoundTrip(pos: nat, length: nat)
    requires length < UINT32
    ensures Pack(pos, length) / UINT32 == pos && Pack(pos, length) % UINT32 == length
  {
  }

  function Entry(r: Rec): (s: seq<byte>)
    ensures |s| == HEADER + |r|
  {
    BE(|r|, HEADER) + r
  }

  /** The entries of a file, one after the other. */
  function Body(recs: seq<Rec>): (s: seq<byte>) {
    if recs == [] then [] else Body(recs[..|recs| - 1]) + Entry(recs[|recs| - 1])
  }

  /** The in-memory index of a file whose first entry has index `start`. */
  function IndexOf(start: nat, recs: seq<Rec>): (ivts: Ivts) {
    if recs == [] then map[]
    else
      var n := |recs| - 1;
      IndexOf(start, recs[..n])[start + n := Pack(|Body(recs[..n])|, HEADER + |recs[n]|)]
  }

  lemma BodySnoc(recs: seq<Rec>, r: Rec)
    ensures Body(recs + [r]) == Body(recs) + Entry(r)
  {
    assert (recs + [r])[..|recs|] == recs;
  }

  lemma IndexSnoc(start: nat, recs: seq<Rec>, r: Rec)
    ensures IndexOf(start, recs + [r]) == IndexOf(start, recs)[start + |recs| := Pack(|Body(recs)|, HEADER + |r|)]
  {
    assert (recs + [r])[..|recs|] == recs;
  }

  lemma Associate<T>(a: seq<T>, b: seq<T>, c: seq<T>)
    ensures (a + b) + c == a + (b + c)
  {
  }

  lemma {:induction false} BodyConcat(xs: seq<Rec>, ys: seq<Rec>)
    ensures Body(xs + ys) == Body(xs) + Body(ys)
  {
    if ys == [] {
      assert xs + ys == xs;
    } else {
      var zs, r := ys[..|ys| - 1], ys[|ys| - 1];
      BodyConcat(xs, zs);
      BodySnoc(xs + zs, r);
      BodySnoc(zs, r);
      assert (xs + zs) + [r] == xs + ys && zs + [r] == ys;
      Associate(Body(xs), Body(zs), Entry(r));
    }
  }

  lemma {:induction false} IndexKeys(start: nat, recs: seq<Rec>)
    ensures forall i :: i in IndexOf(start, recs) <==> start <= i < start + |recs|
  {
    if recs != [] { IndexKeys(start, recs[..|recs| - 1]); }
  }

  /** The index entry of the `k`-th entry of a file. */
  lemma {:induction false} IndexAt(start: nat, recs: seq<Rec>, k: nat)
    requires k < |recs|
    ensures start + k in IndexOf(start, recs)
    ensures IndexOf(start, recs)[start + k] == Pack(|Body(recs[..k])|, HEADER + |recs[k]|)
  {
    var n := |recs| - 1;
    if k < n {
      IndexAt(start, recs[..n], k);
      assert recs[..n][..k] == recs[..k];
    }
  }

  /** Where the `k`-th entry lies in the file. */
  lemma BodyAt(recs: seq<Rec>, k: nat)
    requires k < |recs|
    ensures var p := |Body(recs[..k])|;
            && p + HEADER + |recs[k]| <= |Body(recs)|
            && Body(recs)[p..p + HEADER + |recs[k]|] == Entry(recs[k])
  {
    var rest := recs[k + 1..];
    assert recs[..k + 1][..k] == recs[..k];
    assert recs == recs[..k + 1] + rest;
    BodyConcat(recs[..k + 1], rest);
  }

  /** Every 32-bit field of the file and of its trailer is large enough. */
  ghost predicate Fits(start: nat, recs: seq<Rec>) {
    && 0 < start && start + |recs| < UINT64
    && |Body(recs)| < UINT32
    && HEADER + 16 * |recs| < UINT32
  }

  lemma {:induction false} BodyBounds(recs: seq<Rec>)
    ensures HEADER * |recs| <= |Body(recs)|
    ensures forall i :: 0 <= i < |recs| ==> HEADER + |recs[i]| <= |Body(recs)|
  {
    if recs != [] { BodyBounds(recs[..|recs| - 1]); }
  }

  // ---------------------------------------------------------------- the index on disk

  function IndexEntries(ivts: Ivts, order: seq<nat>): (s: seq<byte>)
    requires forall k :: k in order ==> k in ivts
    ensures |s| == 16 * |order|
  {
    if order == [] then []
    else IndexEntries(ivts, order[..|order| - 1]) + (BE(order[|order| - 1], 8) + BE(ivts[order[|order| - 1]], 8))
  }

  /** The index as written when a file is finished; a hash map is enumerated in any order. */
  function IndexBytes(ivts: Ivts, order: seq<nat>): (s: seq<byte>)
    requires forall k :: k in order ==> k in ivts
    ensures |s| == HEADER + 16 * |order|
  {
    BE(|order|, HEADER) + IndexEntries(ivts, order)
  }

  ghost predicate Enumerates(ivts: Ivts, order: seq<nat>) {
    && (forall k :: k in order <==> k in ivts)
    && (forall i, j :: 0 <= i < j < |order| ==> order[i] != order[j])
  }

  function Trailer(pos: nat, length: nat, md5: Md5): (s: seq<byte>) {
    BE(pos, 4) + BE(length, 4) + md5(BE(pos, 4) + BE(length, 4))
  }

  function Footer(pos: nat, ivts: Ivts, order: seq<nat>, md5: Md5): (s: seq<byte>)
    requires forall k :: k in order ==> k in ivts
  {
    var index := IndexBytes(ivts, order);
    index + Trailer(pos, |index|, md5)
  }

  /** Decode the first `n` entries of an index. */
  function DecodeEntries(s: seq<byte>, n: nat): (ivts: Ivts)
    requires 16 * n <= |s|
  {
    if n == 0 then map[]
    else
      var m := DecodeEntries(s, n - 1);
      var k := FromBE(s[16 * n - 16..16 * n - 8]);
      if k in m then m else m[k := FromBE(s[16 * n - 8..16 * n])]
  }

  /** The largest index among the first `n` entries, at least 0. */
  function DecodeLast(s: seq<byte>, n: nat): (last: nat)
    requires 16 * n <= |s|
  {
    if n == 0 then 0
    else
      var k := FromBE(s[16 * n - 16..16 * n - 8]);
      var l := DecodeLast(s, n - 1);
      if l < k then k else l
  }

  function Restrict(ivts: Ivts, order: seq<nat>): (m: Ivts)
    requires forall k :: k in order ==> k in ivts
  {
    map k | k in order :: ivts[k]
  }

  function Largest(order: seq<nat>): (n: nat) {
    if order == [] then 0
    else var l := Largest(order[..|order| - 1]); if l < order[|order| - 1] then order[|order| - 1] else l
  }

  lemma {:induction false} DecodeIndex(ivts: Ivts, order: seq<nat>, n: nat)
    requires forall k :: k in order ==> k in ivts && k < UINT64 && ivts[k] < UINT64
    requires n <= |order|
    ensures DecodeEntries(IndexEntries(ivts, order), n) == Restrict(ivts, order[..n])
    ensures DecodeLast(IndexEntries(ivts, order), n) == Largest(order[..n])
  {
    if n > 0 {
      DecodeIndex(ivts, order, n - 1);
      EntryBytes(ivts, order, n, IndexEntries(ivts, order));
      DecodeStep(IndexEntries(ivts, order), n, order[n - 1], ivts[order[n - 1]]);
      RestrictStep(ivts, order, n);
    }
  }

  /** What the bytes of the `n`-th entry of an index say. */
  lemma {:induction false} EntryBytes(ivts: Ivts, order: seq<nat>, n: nat, s: seq<byte>)
    requires forall k :: k in order ==> k in ivts && k < UINT64 && ivts[k] < UINT64
    requires 0 < n <= |order| && s == IndexEntries(ivts, order)
    ensures 16 * n <= |s|
    ensures FromBE(s[16 * n - 16..16 * n - 8]) == order[n - 1]
    ensures FromBE(s[16 * n - 8..16 * n]) == ivts[order[n - 1]]
  {
    IndexSlice(ivts, order, n - 1);
    Widths();
    BERoundTrip(order[n - 1], 8);
    BERoundTrip(ivts[order[n - 1]], 8);
  }

  lemma DecodeStep(s: seq<byte>, n: nat, k: nat, ivt: nat)
    requires 0 < n && 16 * n <= |s|
    requires FromBE(s[16 * n - 16..16 * n - 8]) == k && FromBE(s[16 * n - 8..16 * n]) == ivt
    ensures var m := DecodeEntries(s, n - 1); DecodeEntries(s, n) == if k in m then m else m[k := ivt]
    ensures var l := DecodeLast(s, n - 1); DecodeLast(s, n) == if l < k then k else l
  {
  }

  lemma RestrictStep(ivts: Ivts, order: seq<nat>, n: nat)
    requires 0 < n <= |order| && forall k :: k in order ==> k in ivts
    ensures var m, k := Restrict(ivts, order[..n - 1]), order[n - 1];
            Restrict(ivts, order[..n]) == if k in m then m else m[k := ivts[k]]
    ensures var l, k := Largest(order[..n - 1]), order[n - 1]; Largest(order[..n]) == if l < k then k else l
  {
    assert order[..n][..n - 1] == order[..n - 1];
    assert order[..n] == order[..n - 1] + [order[n - 1]];
  }

  lemma {:induction false} IndexSlice(ivts: Ivts, order: seq<nat>, i: nat)
    requires forall k :: k in order ==> k in ivts
    requires i < |order|
    ensures IndexEntries(ivts, order)[16 * i..16 * i + 8] == BE(order[i], 8)
    ensures IndexEntries(ivts, order)[16 * i + 8..16 * i + 16] == BE(ivts[order[i]], 8)
  {
    var n := |order| - 1;
    if i < n { IndexSlice(ivts, order[..n], i); }
  }

  lemma {:induction false} LargestIs(order: seq<nat>, top: nat, at: nat)
    requires at < |order| && order[at] == top && forall i :: 0 <= i < |order| ==> order[i] <= top
    ensures Largest(order) == top
  {
    var n := |order| - 1;
    if at < n {
      LargestIs(order[..n], top, at);
    } else {
      LargestBound(order[..n], top);
    }
  }

  lemma {:induction false} LargestBound(order: seq<nat>, top: nat)
    requires forall i :: 0 <= i < |order| ==> order[i] <= top
    ensures Largest(order) <= top
  {
    if order != [] { LargestBound(order[..|order| - 1], top); }
  }
}
