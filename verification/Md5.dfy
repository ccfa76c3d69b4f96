/**
 The message digest of RFC 1321 around its block transform: buffering of the input, the bit count
 in two 32-bit words, and padding.  The transform of one block is a parameter.
 */
module Md5 {
  import opened Common
  import opened Bytes

  const BLOCK := 64

  datatype Words = Words(a: nat, b: nat, c: nat, d: nat)

  type Transform = (Words, seq<byte>) -> Words

  const INIT := Words(0x67452301, 0xefcdab89, 0x98badcfe, 0x10325476)

  // ---------------------------------------------------------------- the digest of a message

  /** Transform the complete blocks of a message one after the other. */
  function Fold(f: Transform, w: Words, s: seq<byte>): (r: Words)
    decreases |s|
  {
    if |s| < BLOCK then w else Fold(f, f(w, s[..BLOCK]), s[BLOCK..])
  }

  /** What follows the last complete block. */
  function Tail(s: seq<byte>): (t: seq<byte>)
    ensures |t| < BLOCK
    decreases |s|
  {
    if |s| < BLOCK then s else Tail(s[BLOCK..])
  }

  function Encode(w: Words): (s: seq<byte>)
    ensures |s| == 16
  {
    LE(w.a, 4) + LE(w.b, 4) + LE(w.c, 4) + LE(w.d, 4)
  }

  /** Bytes of padding for a message of `n` bytes. */
  function PadLen(n: nat): (p: nat)
    ensures 1 <= p <= BLOCK
  {
    var r := n % BLOCK;
    if r < 56 then 56 - r else 120 - r
  }

  function Padding(p: nat): (s: seq<byte>)
    requires 1 <= p
    ensures |s| == p
  {
    [0x80] + seq(p - 1, _ => 0)
  }

  /** The message, a one bit, zero bits up to 56 bytes modulo 64, and the length in bits. */
  function Padded(m: seq<byte>): (s: seq<byte>) {
    m + Padding(PadLen(|m|)) + LE((8 * |m|) % UINT64, 8)
  }

  /** The digest as sections 3.1 to 3.5 of RFC 1321 define it. */
  function Digest(f: Transform, m: seq<byte>): (d: seq<byte>)
    ensures |d| == 16
  {
    Encode(Fold(f, INIT, Padded(m)))
  }

  /** The amount of padding is the only one from 1 to 64 that reaches 56 modulo 64. */
  lemma PadUnique(n: nat, p: nat)
    requires 1 <= p <= BLOCK
    ensures (n + p) % BLOCK == 56 <==> p == PadLen(n)
  {
    var q, r := n / BLOCK, n % BLOCK;
    assert n + p == BLOCK * q + (r + p);
  }

  // ---------------------------------------------------------------- the bits of sections 3.1 to 3.5

  /** Bit `i` of a byte, 0 being the lowest. */
  function Bit(b: byte, i: nat): (r: nat)
    requires i < 8
  {
    b as int / [1, 2, 4, 8, 16, 32, 64, 128][i] % 2
  }

  lemma PaddedParts(m: seq<byte>, pad: seq<byte>, bits: seq<byte>, s: seq<byte>)
    requires s == m + pad + bits
    ensures s[..|m|] == m && s[|m| + |pad|..] == bits && forall k :: 0 <= k < |pad| ==> s[|m| + k] == pad[k]
  {
  }

  /**
   The padded message is the message, then a single one bit, the highest of the next byte, then zero
   bits, then the number of message bits in eight bytes, and it ends with a block.
   */
  lemma PaddedBits(m: seq<byte>)
    ensures var s := Padded(m);
            && |m| + 9 <= |s| <= |m| + 72 && |s| % 64 == 0 && s[..|m|] == m
            && (forall k, i :: |m| <= k < |s| - 8 && 0 <= i < 8 ==> (Bit(s[k], i) == 1 <==> k == |m| && i == 7))
            && FromLE(s[|s| - 8..]) == (8 * |m|) % UINT64
  {
    var pad, bits := Padding(PadLen(|m|)), LE((8 * |m|) % UINT64, 8);
    PadUnique(|m|, PadLen(|m|));
    PaddedParts(m, pad, bits, Padded(m));
    Widths();
    LERoundTrip((8 * |m|) % UINT64, 8);
    BlockEnd(|m| + |pad|);
    forall k, i | 0 <= k < |pad| && 0 <= i < 8 ensures Bit(pad[k], i) == 1 <==> k == 0 && i == 7 { PaddingBit(pad, k, i); }
    assert forall k :: |m| <= k < |Padded(m)| - 8 ==> Padded(m)[k] == pad[k - |m|];
  }

  lemma BlockEnd(n: nat)
    requires n % BLOCK == 56
    ensures (n + 8) % 64 == 0
  {
  }

  lemma PaddingBit(pad: seq<byte>, k: nat, i: nat)
    requires |pad| > 0 && pad == Padding(|pad|) && k < |pad| && i < 8
    ensures Bit(pad[k], i) == 1 <==> k == 0 && i == 7
  {
  }

  /** The first state, as the bytes that section 3.3 lists. */
  lemma InitBytes()
    ensures Encode(INIT) == [0x01, 0x23, 0x45, 0x67, 0x89, 0xab, 0xcd, 0xef, 0xfe, 0xdc, 0xba, 0x98, 0x76, 0x54, 0x32, 0x10]
  {
    FourBytes(0x67452301);
    FourBytes(0xefcdab89);
    FourBytes(0x98badcfe);
    FourBytes(0x10325476);
  }

  lemma FourBytes(n: nat)
    ensures LE(n, 4) == [(n % 256) as byte, (n / 256 % 256) as byte, (n / 65536 % 256) as byte, (n / 16777216 % 256) as byte]
  {
    assert Pow256(0) == 1 && Pow256(1) == 256 && Pow256(2) == 65536 && Pow256(3) == 16777216;
    ByteOrder(n, 4, 0);
    ByteOrder(n, 4, 1);
    ByteOrder(n, 4, 2);
    ByteOrder(n, 4, 3);
  }

  /** The digest gives out the four words in order, low byte first. */
  lemma EncodeDecodes(w: Words)
    requires w.a < UINT32 && w.b < UINT32 && w.c < UINT32 && w.d < UINT32
    ensures var s := Encode(w);
            Words(FromLE(s[..4]), FromLE(s[4..8]), FromLE(s[8..12]), FromLE(s[12..])) == w
  {
    var s := Encode(w);
    Widths();
    LERoundTrip(w.a, 4);
    LERoundTrip(w.b, 4);
    LERoundTrip(w.c, 4);
    LERoundTrip(w.d, 4);
    assert s[..4] == LE(w.a, 4) && s[4..8] == LE(w.b, 4) && s[8..12] == LE(w.c, 4) && s[12..] == LE(w.d, 4);
  }

  // ---------------------------------------------------------------- folding in pieces

  lemma {:induction false} FoldMore(f: Transform, w: Words, s: seq<byte>, t: seq<byte>)
    ensures Fold(f, w, s + t) == Fold(f, Fold(f, w, s), Tail(s) + t)
    ensures Tail(s + t) == Tail(Tail(s) + t)
    decreases |s|
  {
    if |s| >= BLOCK {
      assert (s + t)[..BLOCK] == s[..BLOCK] && (s + t)[BLOCK..] == s[BLOCK..] + t;
      FoldMore(f, f(w, s[..BLOCK]), s[BLOCK..], t);
    }
  }

  lemma {:induction false} TailSize(s: seq<byte>)
    ensures |Tail(s)| == |s| % BLOCK
    decreases |s|
  {
    if |s| >= BLOCK { TailSize(s[BLOCK..]); }
  }

  // ---------------------------------------------------------------- the bit count

  /** Adding `8 * n` to the two words with the carry that the comparison finds. */
  function AddLow(low: nat, n: nat): (r: nat) {
    (low + (8 * n) % UINT32) % UINT32
  }

  function AddHigh(low: nat, high: nat, n: nat): (r: nat) {
    (high + (if AddLow(low, n) < (8 * n) % UINT32 then 1 else 0) + n / 0x2000_0000) % UINT32
  }

  lemma Carry(low: nat, n: nat)
    requires low < UINT32 && n < UINT32
    ensures AddLow(low, n) == low + (8 * n) % UINT32 - (if AddLow(low, n) < (8 * n) % UINT32 then UINT32 else 0)
    ensures 8 * n == (n / 0x2000_0000) * UINT32 + (8 * n) % UINT32
  {
  }

  lemma CountAdds(low: nat, high: nat, n: nat)
    requires low < UINT32 && high < UINT32 && n < UINT32
    ensures AddLow(low, n) + UINT32 * AddHigh(low, high, n) == (low + UINT32 * high + 8 * n) % UINT64
  {
    Carry(low, n);
    var carry := if AddLow(low, n) < (8 * n) % UINT32 then 1 else 0;
    var sum := high + carry + n / 0x2000_0000;
    assert low + UINT32 * high + 8 * n == AddLow(low, n) + UINT32 * sum;
    Wrap(AddLow(low, n), sum);
  }

  lemma Wrap(low: nat, sum: nat)
    requires low < UINT32 && sum < 2 * UINT32 + 16
    ensures low + UINT32 * (sum % UINT32) == (low + UINT32 * sum) % UINT64
  {
  }

  lemma CountMod(m: nat, n: nat)
    ensures ((8 * m) % UINT64 + 8 * n) % UINT64 == (8 * (m + n)) % UINT64
  {
  }

  /** The low word gives the number of buffered bytes. */
  lemma CountIndex(low: nat, high: nat, m: nat)
    requires low < UINT32 && low + UINT32 * high == (8 * m) % UINT64
    ensures (low / 8) % BLOCK == m % BLOCK
  {
    var q := (8 * m) / UINT64;
    assert 8 * m == UINT64 * q + UINT32 * high + low;
    var above := 0x80_0000_0000_0000 * q + 0x80_0000 * high;
    assert low == 8 * (m - BLOCK * above);
    LowBytes(m - BLOCK * above, above);
  }

  lemma LowBytes(n: nat, above: nat)
    ensures (8 * n) / 8 == n && (n + BLOCK * above) % BLOCK == n % BLOCK
  {
  }

  lemma {:induction false} LESplit(low: nat, high: nat, k: nat)
    requires low < Pow256(k)
    ensures LE(low + Pow256(k) * high, k + 4) == LE(low, k) + LE(high, 4)
  {
    if k == 0 {
      assert low == 0;
    } else {
      var n := low + Pow256(k) * high;
      assert Pow256(k) == 256 * Pow256(k - 1);
      assert n == low + 256 * (Pow256(k - 1) * high);
      assert n % 256 == low % 256 && n / 256 == low / 256 + Pow256(k - 1) * high;
      LESplit(low / 256, high, k - 1);
    }
  }

  lemma CountBytes(low: nat, high: nat)
    requires low < UINT32
    ensures LE(low, 4) + LE(high, 4) == LE(low + UINT32 * high, 8)
  {
    Widths();
    LESplit(low, high, 4);
  }

  // ---------------------------------------------------------------- the context

  class Context {
    var state: Words
    var count0: nat
    var count1: nat
    const buffer: array<byte>

    ghost predicate Valid() reads this {
      buffer.Length == BLOCK && count0 < UINT32 && count1 < UINT32
    }

    /** The context stands for the message `m`. */
    ghost predicate Holds(f: Transform, m: seq<byte>) reads this, buffer {
      && Valid()
      && count0 + UINT32 * count1 == (8 * |m|) % UINT64
      && state == Fold(f, INIT, m)
      && buffer[..|Tail(m)|] == Tail(m)
    }

    constructor (ghost f: Transform)
      ensures Holds(f, []) && fresh(buffer)
    {
      state, count0, count1 := INIT, 0, 0;
      buffer := new byte[BLOCK](_ => 0);
    }

    /** Copy into the buffer from `index` on. */
    method Copy(index: nat, s: seq<byte>)
      requires Valid() && index + |s| <= BLOCK
      modifies buffer
      ensures buffer[..index + |s|] == old(buffer[..index]) + s
    {
      for i := 0 to |s|
        invariant buffer[..index + i] == old(buffer[..index]) + s[..i]
      {
        buffer[index + i] := s[i];
      }
      assert s[..|s|] == s;
    }

    /** Count the input; the carry shows as a sum below its addend. */
    method CountBits(n: nat)
      requires Valid() && n < UINT32
      modifies this`count0, this`count1
      ensures Valid() && count0 + UINT32 * count1 == (old(count0) + UINT32 * old(count1) + 8 * n) % UINT64
    {
      CountAdds(count0, count1, n);
      var shifted := (8 * n) % UINT32;
      var high := count1;
      count0 := (count0 + shifted) % UINT32;
      if count0 < shifted { high := high + 1; }
      count1 := (high + n / 0x2000_0000) % UINT32;
    }

    /** Transform the blocks of the input from `from` on and return where the rest starts. */
    method Blocks(f: Transform, input: seq<byte>, from: nat) returns (i: nat)
      requires Valid() && from <= |input| < UINT32 - BLOCK
      modifies this`state
      ensures Valid() && i <= |input| && state == Fold(f, old(state), input[from..]) && input[i..] == Tail(input[from..])
    {
      i := from;
      while i + 63 < |input|
        invariant from <= i <= |input| && Valid()
        invariant Fold(f, state, input[i..]) == Fold(f, old(state), input[from..])
        invariant Tail(input[i..]) == Tail(input[from..])
      {
        assert input[i..][..BLOCK] == input[i..i + BLOCK] && input[i..][BLOCK..] == input[i + BLOCK..];
        state := f(state, input[i..i + BLOCK]);
        i := i + BLOCK;
      }
    }

    /** Complete the buffered block with input, transform it and all further blocks, and buffer the rest. */
    method Absorb(f: Transform, input: seq<byte>, index: nat, ghost kept: seq<byte>)
      requires Valid() && index == |kept| < BLOCK && buffer[..index] == kept && BLOCK - index <= |input| < UINT32 - BLOCK
      modifies this`state, buffer
      ensures Valid() && state == Fold(f, old(state), kept + input)
      ensures |Tail(kept + input)| <= BLOCK && buffer[..|Tail(kept + input)|] == Tail(kept + input)
    {
      ghost var t := kept + input;
      var partLen := BLOCK - index;
      Copy(index, input[..partLen]);
      assert buffer[..] == buffer[..BLOCK] == t[..BLOCK] && t[BLOCK..] == input[partLen..];
      state := f(state, buffer[..]);
      var i := Blocks(f, input, partLen);
      TailSize(input[partLen..]);
      Copy(0, input[i..]);
    }

    /** Add input.  The context then stands for the longer message. */
    method Update(f: Transform, input: seq<byte>, ghost m: seq<byte>)
      requires Holds(f, m) && |input| < UINT32 - BLOCK
      modifies this`state, this`count0, this`count1, buffer
      ensures Holds(f, m + input)
    {
      CountIndex(count0, count1, |m|);
      TailSize(m);
      FoldMore(f, INIT, m, input);
      CountMod(|m|, |input|);
      var index := (count0 / 8) % BLOCK;
      CountBits(|input|);
      var partLen := BLOCK - index;
      if |input| >= partLen {
        Absorb(f, input, index, Tail(m));
      } else {
        Copy(index, input);
      }
    }

    /** The two calls that complete the message. */
    method Append(f: Transform, padding: seq<byte>, bits: seq<byte>, ghost m: seq<byte>)
      requires Holds(f, m) && |padding| <= BLOCK && |bits| == 8
      modifies this`state, this`count0, this`count1, buffer
      ensures state == Fold(f, INIT, m + padding + bits)
    {
      Update(f, padding, m);
      Update(f, bits, m + padding);
    }

    /** Pad, append the length and give out the digest. */
    method Final(f: Transform, ghost m: seq<byte>) returns (digest: seq<byte>)
      requires Holds(f, m)
      modifies this`state, this`count0, this`count1, buffer
      ensures digest == Digest(f, m)
    {
      CountBytes(count0, count1);
      CountIndex(count0, count1, |m|);
      var bits := LE(count0, 4) + LE(count1, 4);
      var index := (count0 / 8) % BLOCK;
      var padLen := if index < 56 then 56 - index else 120 - index;
      Append(f, Padding(padLen), bits, m);
      digest := Encode(state);
      state, count0, count1 := Words(0, 0, 0, 0), 0, 0;
    }
  }

  /** The digest of a message in one call. */
  method MD5(f: Transform, input: seq<byte>) returns (digest: seq<byte>)
    requires |input| < UINT32 - BLOCK
    ensures digest == Digest(f, input)
  {
    var context := new Context(f);
    context.Update(f, input, []);
    assert [] + input == input;
    digest := context.Final(f, input);
  }

  function Concat(pieces: seq<seq<byte>>): (s: seq<byte>) {
    if pieces == [] then [] else Concat(pieces[..|pieces| - 1]) + pieces[|pieces| - 1]
  }

  /** However the message is split over calls, the digest is that of the whole message. */
  method Stream(f: Transform, pieces: seq<seq<byte>>) returns (digest: seq<byte>)
    requires forall i :: 0 <= i < |pieces| ==> |pieces[i]| < UINT32 - BLOCK
    ensures digest == Digest(f, Concat(pieces))
  {
    var context := new Context(f);
    for i := 0 to |pieces|
      invariant fresh(context) && fresh(context.buffer) && context.Holds(f, Concat(pieces[..i]))
    {
      assert pieces[..i + 1][..i] == pieces[..i];
      context.Update(f, pieces[i], Concat(pieces[..i]));
    }
    assert pieces[..|pieces|] == pieces;
    digest := context.Final(f, Concat(pieces));
  }
}
