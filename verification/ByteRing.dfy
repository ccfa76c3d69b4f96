/**
 A circular byte buffer of length-prefixed records.  The prefix, or the payload, may straddle the
 end of the buffer.  A gap of at least eight bytes keeps a full ring apart from an empty one.
 */
module ByteRing {
  import opened Common
  import opened Bytes

  const LEN := 8                // bytes of a length prefix
  const RESERVE := 8            // bytes that always stay free

  type Rec = seq<byte>

  function Framed(r: Rec): (s: seq<byte>)
    ensures |s| == LEN + |r|
  {
    LE(|r|, LEN) + r
  }

  /** The records as they lie in the ring, one after the other. */
  function Encode(q: seq<Rec>): (s: seq<byte>) {
    if q == [] then [] else Framed(q[0]) + Encode(q[1..])
  }

  ghost predicate Sized(q: seq<Rec>) {
    forall i :: 0 <= i < |q| ==> 0 < |q[i]| < UINT32
  }

  lemma {:induction false} EncodeConcat(p: seq<Rec>, q: seq<Rec>)
    ensures Encode(p + q) == Encode(p) + Encode(q)
  {
    if p == [] {
      assert p + q == q;
    } else {
      EncodeConcat(p[1..], q);
      assert (p + q)[1..] == p[1..] + q;
    }
  }

  lemma EncodeSnoc(q: seq<Rec>, r: Rec)
    ensures Encode(q + [r]) == Encode(q) + Framed(r)
  {
    EncodeConcat(q, [r]);
    assert Encode([r]) == Framed(r) + Encode([]);
  }

  lemma {:induction false} EncodeSize(q: seq<Rec>)
    requires Sized(q)
    ensures (LEN + 1) * |q| <= |Encode(q)|
  {
    if q != [] { EncodeSize(q[1..]); }
  }

  // ---------------------------------------------------------------- circular reads and writes

  function Wrap(n: nat, i: int): int {
    if i < n then i else i - n
  }

  /** The `k` bytes of `d` from position `b` on, continuing at the front behind the end. */
  function Circ(d: seq<byte>, b: nat, k: nat): (s: seq<byte>)
    requires b < |d| && k <= |d|
    ensures |s| == k
  {
    seq(k, i requires 0 <= i < k => d[Wrap(|d|, b + i)])
  }

  lemma CircSlices(d: seq<byte>, b: nat, k: nat)
    requires b < |d| && k <= |d|
    ensures Circ(d, b, k) == if b + k <= |d| then d[b..b + k] else d[b..] + d[..b + k - |d|]
  {
    var read := Circ(d, b, k);
    var want := if b + k <= |d| then d[b..b + k] else d[b..] + d[..b + k - |d|];
    forall i | 0 <= i < |read| ensures read[i] == want[i] {
      assert read[i] == d[Wrap(|d|, b + i)];
    }
  }

  function Splice(d: seq<byte>, at: nat, s: seq<byte>): (r: seq<byte>)
    requires at + |s| <= |d|
    ensures |r| == |d|
  {
    d[..at] + s + d[at + |s|..]
  }

  lemma SpliceJoin(d: seq<byte>, at: nat, x: seq<byte>, y: seq<byte>)
    requires at + |x| + |y| <= |d|
    ensures Splice(Splice(d, at, x), at + |x|, y) == Splice(d, at, x + y)
  {
  }

  /** `d` with `s` written from position `e` on, continuing at the front behind the end. */
  function CircWrite(d: seq<byte>, e: nat, s: seq<byte>): (r: seq<byte>)
    requires e <= |d| && |s| <= |d|
    ensures |r| == |d|
  {
    if e + |s| <= |d| then Splice(d, e, s)
    else Splice(Splice(d, e, s[..|d| - e]), 0, s[|d| - e..])
  }

  lemma CircWriteAt(d: seq<byte>, e: nat, s: seq<byte>, i: nat)
    requires e < |d| && |s| <= |d| && i < |d|
    ensures CircWrite(d, e, s)[Wrap(|d|, e + i)] == if i < |s| then s[i] else d[Wrap(|d|, e + i)]
  {
  }

  lemma CircAppendAt(d: seq<byte>, b: nat, k: nat, s: seq<byte>, i: nat)
    requires b < |d| && k + |s| <= |d| && k < |d| && i < k + |s|
    ensures CircWrite(d, Wrap(|d|, b + k), s)[Wrap(|d|, b + i)]
         == if i < k then d[Wrap(|d|, b + i)] else s[i - k]
  {
    var e := Wrap(|d|, b + k);
    if i < k {
      CircWriteAt(d, e, s, i + |d| - k);
      assert Wrap(|d|, e + (i + |d| - k)) == Wrap(|d|, b + i);
    } else {
      CircWriteAt(d, e, s, i - k);
      assert Wrap(|d|, e + (i - k)) == Wrap(|d|, b + i);
    }
  }

  /** Writing behind the used bytes appends to what a read of the used bytes yields. */
  lemma CircAppend(d: seq<byte>, b: nat, k: nat, s: seq<byte>)
    requires b < |d| && k + |s| <= |d| && k < |d|
    ensures Circ(CircWrite(d, Wrap(|d|, b + k), s), b, k + |s|) == Circ(d, b, k) + s
  {
    var r := CircWrite(d, Wrap(|d|, b + k), s);
    var read, want := Circ(r, b, k + |s|), Circ(d, b, k) + s;
    forall i | 0 <= i < |read| ensures read[i] == want[i] {
      CircAppendAt(d, b, k, s, i);
    }
  }

  // ---------------------------------------------------------------- records in the ring

  /** The used bytes of the ring hold the records, and the gap is free. */
  ghost predicate Holds(d: seq<byte>, b: nat, q: seq<Rec>) {
    && b < |d| && Sized(q)
    && |Encode(q)| + RESERVE <= |d|
    && Circ(d, b, |Encode(q)|) == Encode(q)
  }

  /** Where the prefix, the payload and the rest of the queue of a non-empty ring lie. */
  lemma {:induction false} HeadLayout(d: seq<byte>, b: nat, q: seq<Rec>)
    requires Holds(d, b, q) && q != []
    ensures LEN + |q[0]| <= |Encode(q)|
    ensures FromLE(Circ(d, b, LEN)) == |q[0]|
    ensures Circ(d, Wrap(|d|, b + LEN), |q[0]|) == q[0]
    ensures Holds(d, Wrap(|d|, b + LEN + |q[0]|), q[1..])
  {
    var pre := LE(|q[0]|, LEN);
    var rest := Encode(q[1..]);
    assert Encode(q) == pre + (q[0] + rest) by { assert Framed(q[0]) + rest == pre + (q[0] + rest); }
    CircThree(d, b, pre, q[0], rest);
    Widths();
    LERoundTrip(|q[0]|, LEN);
  }

  lemma CircTwo(d: seq<byte>, b: nat, x: seq<byte>, y: seq<byte>)
    requires b < |d| && |x| + |y| < |d| && Circ(d, b, |x| + |y|) == x + y
    ensures Circ(d, b, |x|) == x && Circ(d, Wrap(|d|, b + |x|), |y|) == y
  {
    var p := Wrap(|d|, b + |x|);
    var whole, left, right := Circ(d, b, |x| + |y|), Circ(d, b, |x|), Circ(d, p, |y|);
    forall i | 0 <= i < |x| ensures left[i] == x[i] {
      assert left[i] == whole[i];
    }
    forall i | 0 <= i < |y| ensures right[i] == y[i] {
      assert Wrap(|d|, p + i) == Wrap(|d|, b + (|x| + i));
      assert right[i] == whole[|x| + i];
    }
  }

  lemma CircThree(d: seq<byte>, b: nat, x: seq<byte>, y: seq<byte>, z: seq<byte>)
    requires b < |d| && |x| + |y| + |z| < |d| && Circ(d, b, |x| + |y| + |z|) == x + (y + z)
    ensures Circ(d, b, |x|) == x
    ensures Circ(d, Wrap(|d|, b + |x|), |y|) == y
    ensures Circ(d, Wrap(|d|, b + |x| + |y|), |z|) == z
  {
    CircTwo(d, b, x, y + z);
    var p := Wrap(|d|, b + |x|);
    CircTwo(d, p, y, z);
    assert Wrap(|d|, p + |y|) == Wrap(|d|, b + |x| + |y|);
  }

  /** Writing a framed record behind the used bytes enqueues it. */
  lemma TailLayout(d: seq<byte>, b: nat, q: seq<Rec>, r: Rec)
    requires Holds(d, b, q) && 0 < |r| < UINT32
    requires |Encode(q)| + LEN + |r| + RESERVE <= |d|
    ensures |Encode(q + [r])| == |Encode(q)| + LEN + |r|
    ensures Holds(CircWrite(d, Wrap(|d|, b + |Encode(q)|), Framed(r)), b, q + [r])
  {
    var k, w := |Encode(q)|, Framed(r);
    EncodeSnoc(q, r);
    CircAppend(d, b, k, w);
    assert Circ(CircWrite(d, Wrap(|d|, b + k), w), b, k + |w|) == Encode(q + [r]);
  }

  /** A write in several pieces is one write. */
  lemma PrefixWraps(d: seq<byte>, e: nat, pre: seq<byte>, x: seq<byte>)
    requires e <= |d| < e + |pre| && |pre| + |x| <= |d|
    ensures var k := |d| - e;
            Splice(Splice(Splice(d, e, pre[..k]), 0, pre[k..]), |pre| - k, x) == CircWrite(d, e, pre + x)
  {
    var k := |d| - e;
    SpliceJoin(Splice(d, e, pre[..k]), 0, pre[k..], x);
    assert (pre + x)[..k] == pre[..k] && (pre + x)[k..] == pre[k..] + x;
  }

  lemma FirstWraps(d: seq<byte>, e: nat, pre: seq<byte>, x: seq<byte>, y: seq<byte>)
    requires e + |pre| <= |d| < e + |pre| + |x| && |pre| + |x| + |y| <= |d|
    ensures var k := |d| - e - |pre|;
            Splice(Splice(Splice(Splice(d, e, pre), e + |pre|, x[..k]), 0, x[k..]), |x| - k, y)
            == CircWrite(d, e, pre + (x + y))
  {
    var k := |d| - e - |pre|;
    SpliceJoin(d, e, pre, x[..k]);
    SpliceJoin(Splice(d, e, pre + x[..k]), 0, x[k..], y);
    var w := pre + (x + y);
    assert w[..|d| - e] == pre + x[..k] && w[|d| - e..] == x[k..] + y;
  }

  lemma SecondWraps(d: seq<byte>, e: nat, pre: seq<byte>, x: seq<byte>, y: seq<byte>)
    requires e + |pre| + |x| <= |d| < e + |pre| + |x| + |y| && |pre| + |x| + |y| <= |d|
    ensures var k := |d| - e - |pre| - |x|;
            Splice(Splice(Splice(Splice(d, e, pre), e + |pre|, x), e + |pre| + |x|, y[..k]), 0, y[k..])
            == CircWrite(d, e, pre + (x + y))
  {
    var k := |d| - e - |pre| - |x|;
    SpliceJoin(d, e, pre, x);
    SpliceJoin(d, e, pre + x, y[..k]);
    var w := pre + (x + y);
    assert w[..|d| - e] == pre + x + y[..k] && w[|d| - e..] == y[k..];
  }

  lemma NothingWraps(d: seq<byte>, e: nat, pre: seq<byte>, x: seq<byte>, y: seq<byte>)
    requires e + |pre| + |x| + |y| <= |d|
    ensures Splice(Splice(Splice(d, e, pre), e + |pre|, x), e + |pre| + |x|, y) == CircWrite(d, e, pre + (x + y))
  {
    SpliceJoin(d, e, pre, x);
    SpliceJoin(d, e, pre + x, y);
    assert pre + x + y == pre + (x + y);
  }

  // ---------------------------------------------------------------- the ring

  datatype Outcome = Empty | TooLong | Got(data: Rec) | Pair(first: seq<byte>, second: seq<byte>)

  /** What a single-buffer read of capacity `size` delivers. */
  function ReadOne(r: Rec, size: nat): Outcome {
    if |r| > size then TooLong else Got(r)
  }

  /** What a read into two buffers delivers: the first is filled before the second. */
  function ReadTwo(r: Rec, size1: nat, size2: nat): Outcome {
    if |r| > size1 + size2 then TooLong
    else if size1 > |r| then Pair(r, [])
    else Pair(r[..size1], r[size1..])
  }

  /** The header fields of a ring whose bytes are `d` and which holds the records `q`. */
  ghost predicate RingOk(d: seq<byte>, b: nat, e: nat, count: nat, q: seq<Rec>) {
    && LEN + RESERVE < |d|
    && Holds(d, b, q)
    && e == Wrap(|d|, b + |Encode(q)|)
    && count < UINT32
    && (|d| < (LEN + 1) * UINT32 ==> count == |q|)
  }

  lemma AppendOk(d: seq<byte>, b: nat, e: nat, count: nat, q: seq<Rec>, x: seq<byte>, y: seq<byte>)
    requires RingOk(d, b, e, count, q) && 0 < |x| + |y| < UINT32
    requires |Encode(q)| + LEN + |x| + |y| + RESERVE <= |d|
    ensures var e' := Wrap(|d|, e + LEN + |x| + |y|);
            && RingOk(CircWrite(d, e, LE(|x| + |y|, LEN) + (x + y)), b, e', (count + 1) % UINT32, q + [x + y])
            && (e' + RESERVE <= b || b < e')
  {
    var r := x + y;
    TailLayout(d, b, q, r);
    assert Framed(r) == LE(|x| + |y|, LEN) + (x + y);
    EncodeSize(q + [r]);
    WrapTwice(|d|, b, |Encode(q)|, LEN + |r|);
    CountNext(count, q, r, |d|);
  }

  lemma WrapTwice(n: nat, b: nat, k: nat, m: nat)
    requires b < n && k + m + RESERVE <= n && 0 < m
    ensures var e := Wrap(n, Wrap(n, b + k) + m);
            e == Wrap(n, b + (k + m)) && (e + RESERVE <= b || b < e)
  {
  }

  lemma CountNext(count: nat, q: seq<Rec>, r: Rec, n: nat)
    requires count < UINT32 && (n < (LEN + 1) * UINT32 ==> count == |q|) && (LEN + 1) * |q + [r]| <= n
    ensures (count + 1) % UINT32 < UINT32
    ensures n < (LEN + 1) * UINT32 ==> (count + 1) % UINT32 == |q + [r]|
  {
  }

  lemma ModWrap(n: nat, i: nat)
    requires i <= n && 0 < n
    ensures i % n == Wrap(n, i)
  {
  }

  /** A length stored in 32 bits. */
  function Low32(n: nat): (r: nat)
    ensures r <= n && (n < UINT32 ==> r == n)
  {
    n % UINT32
  }

  class CBufferQueue {
    const data: array<byte>
    var iBegin: nat
    var iEnd: nat
    var iCount: nat
    ghost var records: seq<Rec>

    ghost predicate Valid()
      reads this, data
    {
      RingOk(data[..], iBegin, iEnd, iCount, records)
    }

    constructor (size: nat)
      requires LEN + RESERVE < size
      ensures Valid() && records == [] && data.Length == size && fresh(data)
    {
      data := new byte[size];
      iBegin, iEnd, iCount, records := 0, 0, 0, [];
    }

    predicate IsEmpty()
      reads this
    {
      iBegin == iEnd
    }

    lemma EmptyMeans()
      requires Valid()
      ensures IsEmpty() <==> records == []
    {
      if records != [] { HeadLayout(data[..], iBegin, records); }
    }

    /** Exactly the records whose frame does not fit beside the used bytes and the gap are refused. */
    method IsFull(len: nat) returns (full: bool)
      requires Valid()
      ensures full <==> len > 0 && |Encode(records)| + LEN + len + RESERVE > data.Length
    {
      EmptyMeans();
      if len == 0 {
        return false;
      }
      if iEnd == iBegin {
        return len + LEN + RESERVE > data.Length;
      }
      if iEnd > iBegin {
        HeadLayout(data[..], iBegin, records);
        assert iBegin + LEN < iEnd;
        return data.Length - iEnd + iBegin < LEN + len + RESERVE;
      }
      assert iEnd + RESERVE <= iBegin;
      return iBegin - iEnd < LEN + len + RESERVE;
    }

    method Put(at: nat, s: seq<byte>)
      requires at + |s| <= data.Length
      modifies data
      ensures data[..] == Splice(old(data[..]), at, s)
    {
      forall i | 0 <= i < |s| {
        data[at + i] := s[i];
      }
    }

    method PutBoth(at: nat, x: seq<byte>, y: seq<byte>)
      requires at + |x| + |y| <= data.Length
      modifies data
      ensures data[..] == Splice(old(data[..]), at, x + y)
    {
      SpliceJoin(data[..], at, x, y);
      Put(at, x);
      Put(at + |x|, y);
    }

    method AppendPrefixBent(pre: seq<byte>, x: seq<byte>, y: seq<byte>)
      requires iEnd <= data.Length < iEnd + |pre| && |pre| + |x| + |y| <= data.Length
      modifies data
      ensures data[..] == CircWrite(old(data[..]), iEnd, pre + (x + y))
    {
      PrefixWraps(data[..], iEnd, pre, x + y);
      var k := data.Length - iEnd;
      Put(iEnd, pre[..k]);
      Put(0, pre[k..]);
      PutBoth(|pre| - k, x, y);
    }

    method AppendFirstBent(pre: seq<byte>, x: seq<byte>, y: seq<byte>)
      requires iEnd + |pre| <= data.Length < iEnd + |pre| + |x| && |pre| + |x| + |y| <= data.Length
      modifies data
      ensures data[..] == CircWrite(old(data[..]), iEnd, pre + (x + y))
    {
      FirstWraps(data[..], iEnd, pre, x, y);
      var k := data.Length - iEnd - |pre|;
      Put(iEnd, pre);
      Put(iEnd + |pre|, x[..k]);
      Put(0, x[k..]);
      Put(|x| - k, y);
    }

    method AppendSecondBent(pre: seq<byte>, x: seq<byte>, y: seq<byte>)
      requires iEnd + |pre| + |x| <= data.Length < iEnd + |pre| + |x| + |y| && |pre| + |x| + |y| <= data.Length
      modifies data
      ensures data[..] == CircWrite(old(data[..]), iEnd, pre + (x + y))
    {
      SecondWraps(data[..], iEnd, pre, x, y);
      var k := data.Length - iEnd - |pre| - |x|;
      Put(iEnd, pre);
      Put(iEnd + |pre|, x);
      Put(iEnd + |pre| + |x|, y[..k]);
      Put(0, y[k..]);
    }

    method AppendFlat(pre: seq<byte>, x: seq<byte>, y: seq<byte>)
      requires iEnd + |pre| + |x| + |y| <= data.Length
      modifies data
      ensures data[..] == CircWrite(old(data[..]), iEnd, pre + (x + y))
    {
      NothingWraps(data[..], iEnd, pre, x, y);
      Put(iEnd, pre);
      Put(iEnd + |pre|, x);
      Put(iEnd + |pre| + |x|, y);
    }

    /** Write the prefix and two payload parts behind the used bytes, in as many pieces as the end demands. */
    method Append(x: seq<byte>, y: seq<byte>)
      requires LEN + |x| + |y| + RESERVE <= data.Length && iEnd < data.Length
      modifies data, this`iEnd
      ensures data[..] == CircWrite(old(data[..]), old(iEnd), LE(|x| + |y|, LEN) + (x + y))
      ensures iEnd == Wrap(data.Length, old(iEnd) + LEN + |x| + |y|)
    {
      var n, len, pre := data.Length, |x| + |y|, LE(|x| + |y|, LEN);
      if iEnd + LEN > n {
        AppendPrefixBent(pre, x, y);
        iEnd := len + iEnd + LEN - n;
      } else if iEnd + LEN + len > n {
        if iEnd + LEN + |x| > n {
          AppendFirstBent(pre, x, y);
        } else {
          AppendSecondBent(pre, x, y);
        }
        iEnd := len - (n - iEnd - LEN);
      } else {
        AppendFlat(pre, x, y);
        ModWrap(n, iEnd + LEN + len);
        iEnd := (iEnd + LEN + len) % n;
      }
    }

    /** Enqueue a record given in two parts; one part may be empty, and an empty record is ignored. */
    method Enqueue(x: seq<byte>, y: seq<byte>) returns (full: bool)
      requires Valid() && |x| + |y| < UINT32
      modifies data, this
      ensures Valid()
      ensures full <==> 0 < |x| + |y| && |Encode(old(records))| + LEN + |x| + |y| + RESERVE > data.Length
      ensures records == if full || |x| + |y| == 0 then old(records) else old(records) + [x + y]
    {
      if |x| + |y| == 0 {
        return false;
      }
      full := IsFull(|x| + |y|);
      if full {
        return;
      }
      AppendOk(data[..], iBegin, iEnd, iCount, records, x, y);
      Append(x, y);
      assert iEnd + RESERVE <= iBegin || iBegin < iEnd;
      iCount := (iCount + 1) % UINT32;
      records := records + [x + y];
    }

    /** Length and place of the head record's payload, and the place behind it. */
    method Locate() returns (len: nat, from: nat, to: nat)
      requires Valid() && records != []
      ensures len == |records[0]| && len < data.Length
      ensures from == Wrap(data.Length, iBegin + LEN) && to == Wrap(data.Length, iBegin + LEN + len)
    {
      var n := data.Length;
      HeadLayout(data[..], iBegin, records);
      CircSlices(data[..], iBegin, LEN);
      if iEnd > iBegin {
        assert iBegin + LEN < iEnd;
        len := FromLE(data[iBegin..iBegin + LEN]);
        assert iBegin + LEN + len <= iEnd;
        from, to := iBegin + LEN, iBegin + LEN + len;
      } else {
        assert iEnd + RESERVE <= iBegin && iBegin + 1 <= n;
        if iBegin + LEN > n {
          len := FromLE(data[iBegin..] + data[..iBegin + LEN - n]);
          from := iBegin + LEN - n;
          to := iBegin + LEN - n + len;
          assert to <= iEnd;
        } else {
          len := FromLE(data[iBegin..iBegin + LEN]);
          from := if iBegin + LEN == n then 0 else iBegin + LEN;
          if iBegin + LEN + len < n {
            to := iBegin + LEN + len;
          } else {
            to := iBegin + LEN + len - n;
            assert to <= iEnd;
          }
        }
      }
    }

    method Take(from: nat, to: nat, len: nat) returns (r: seq<byte>)
      requires from < data.Length && 0 < len < data.Length && to == Wrap(data.Length, from + len)
      ensures r == Circ(data[..], from, len)
    {
      CircSlices(data[..], from, len);
      if to > from {
        assert to - from == len;
        r := data[from..from + len];
      } else {
        assert data.Length - (from - to) == len;
        r := data[from..] + data[..to];
      }
    }

    method TakeTwo(from: nat, to: nat, len: nat, size1: nat) returns (x: seq<byte>, y: seq<byte>)
      requires from < data.Length && 0 < len < data.Length && to == Wrap(data.Length, from + len)
      ensures x + y == Circ(data[..], from, len) && |x| == if size1 > len then len else size1
    {
      var n := data.Length;
      CircSlices(data[..], from, len);
      if size1 > len {
        x := Take(from, to, len);
        y := [];
      } else if to > from {
        x, y := data[from..from + size1], data[from + size1..from + len];
      } else if size1 > n - from {
        x := data[from..] + data[..size1 - (n - from)];
        y := data[from + size1 - n..from + len - n];
        assert data[..to] == data[..size1 - (n - from)] + y;
      } else {
        x := data[from..from + size1];
        y := data[from + size1..] + data[..len - (n - from)];
        assert data[from..] == x + data[from + size1..];
      }
    }

    /** Drop the head record. */
    method Advance(to: nat)
      requires Valid() && records != [] && to == Wrap(data.Length, iBegin + LEN + |records[0]|)
      modifies this
      ensures Valid() && records == old(records)[1..]
    {
      ghost var d, rest := data[..], records[1..];
      var count := if iCount > 0 then iCount - 1 else iCount;
      AdvanceOk(d, iBegin, iEnd, iCount, records, to, count, rest);
      iCount, iBegin, records := count, to, rest;
      assert data[..] == d;
    }

    /** Dequeue the head record, or drop it when it is too long for the caller's buffer. */
    method Dequeue(size: nat) returns (out: Outcome)
      requires Valid()
      modifies this
      ensures Valid()
      ensures old(records) == [] ==> out == Empty && records == []
      ensures old(records) != [] ==> out == ReadOne(old(records)[0], size) && records == old(records)[1..]
      ensures old(records) != [] && |old(records)[0]| <= size ==> out == Got(old(records)[0])
      ensures old(records) != [] && |old(records)[0]| > size ==> out == TooLong
    {
      EmptyMeans();
      if IsEmpty() {
        return Empty;
      }
      var len, from, to := Locate();
      HeadLayout(data[..], iBegin, records);
      if len > size {
        Advance(to);
        return TooLong;
      }
      var r := Take(from, to, len);
      Advance(to);
      return Got(r);
    }

    /** Look at the head record. */
    method Peek(size: nat) returns (out: Outcome)
      requires Valid()
      ensures out == if records == [] then Empty else ReadOne(records[0], size)
      ensures records != [] && |records[0]| <= size ==> out == Got(records[0])
      ensures records != [] && |records[0]| > size ==> out == TooLong
    {
      EmptyMeans();
      if IsEmpty() {
        return Empty;
      }
      var len, from, to := Locate();
      HeadLayout(data[..], iBegin, records);
      if len > size {
        return TooLong;
      }
      var r := Take(from, to, len);
      return Got(r);
    }

    /** Dequeue the head record into two buffers. */
    method DequeueTwo(size1: nat, size2: nat) returns (out: Outcome)
      requires Valid() && size1 + size2 < UINT32
      modifies this
      ensures Valid()
      ensures old(records) == [] ==> out == Empty && records == []
      ensures old(records) != [] ==> out == ReadTwo(old(records)[0], size1, size2) && records == old(records)[1..]
      ensures old(records) != [] && |old(records)[0]| <= size1 + size2 ==>
                out.Pair? && out.first + out.second == old(records)[0] && |out.second| <= size2
                && (|out.first| == size1 || (|out.first| < size1 && out.second == []))
      ensures old(records) != [] && |old(records)[0]| > size1 + size2 ==> out == TooLong
    {
      EmptyMeans();
      if IsEmpty() {
        return Empty;
      }
      var len, from, to := Locate();
      HeadLayout(data[..], iBegin, records);
      if len > size1 + size2 {
        Advance(to);
        return TooLong;
      }
      var x, y := TakeTwo(from, to, len, size1);
      assert x + y == records[0];
      PairIs(x, y, records[0], size1, size2);
      Advance(to);
      return Pair(x, y);
    }

    /** Hand out all used bytes at once and empty the ring.  The length is a 32-bit number. */
    method GetAllData() returns (ok: bool, out: seq<byte>)
      requires Valid()
      modifies this
      ensures Valid() && records == []
      ensures ok <==> old(records) != []
      ensures !ok ==> out == []
      ensures ok && data.Length <= UINT32 ==> out == Encode(old(records))
    {
      EmptyMeans();
      if IsEmpty() {
        return false, [];
      }
      CircSlices(data[..], iBegin, |Encode(records)|);
      if iEnd > iBegin {
        out := data[iBegin..iBegin + Low32(iEnd - iBegin)];
      } else {
        out := (data[iBegin..] + data[..iEnd])[..Low32(data.Length - iBegin + iEnd)];
      }
      iBegin, iEnd, iCount, records := 0, 0, 0, [];
      ok := true;
    }
  }

  lemma PairIs(x: seq<byte>, y: seq<byte>, r: Rec, size1: nat, size2: nat)
    requires x + y == r && |x| == (if size1 > |r| then |r| else size1) && |r| <= size1 + size2
    ensures ReadTwo(r, size1, size2) == Pair(x, y)
  {
    assert r[..|x|] == x && r[|x|..] == y;
  }

  lemma {:induction false} AdvanceOk(d: seq<byte>, b: nat, e: nat, count: nat, q: seq<Rec>, to: nat, left: nat, rest: seq<Rec>)
    requires RingOk(d, b, e, count, q) && q != [] && rest == q[1..]
    requires to == Wrap(|d|, b + LEN + |q[0]|) && left == if count > 0 then count - 1 else count
    ensures RingOk(d, to, e, left, rest)
  {
    HeadLayout(d, b, q);
    EncodeSize(q);
    var k, m := |Encode(q)|, LEN + |q[0]|;
    assert k == m + |Encode(q[1..])|;
    assert Wrap(|d|, Wrap(|d|, b + m) + (k - m)) == Wrap(|d|, b + k);
  }
}
