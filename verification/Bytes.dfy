/** Bytes and fixed-width integers in memory and on disk. */
module Bytes {

  newtype byte = x: int | 0 <= x < 256

  function Pow256(k: nat): (r: nat)
    ensures r > 0
  {
    if k == 0 then 1 else 256 * Pow256(k - 1)
  }

  /** The low `k` bytes of `n`, least significant first. */
  function LE(n: nat, k: nat): (r: seq<byte>)
    ensures |r| == k
  {
    if k == 0 then [] else [(n % 256) as byte] + LE(n / 256, k - 1)
  }

  function FromLE(s: seq<byte>): (n: nat) {
    if s == [] then 0 else s[0] as int + 256 * FromLE(s[1..])
  }

  /** The low `k` bytes of `n`, most significant first. */
  function BE(n: nat, k: nat): (r: seq<byte>)
    ensures |r| == k
  {
    if k == 0 then [] else BE(n / 256, k - 1) + [(n % 256) as byte]
  }

  function FromBE(s: seq<byte>): (n: nat) {
    if s == [] then 0 else 256 * FromBE(s[..|s| - 1]) + s[|s| - 1] as int
  }

  lemma {:induction false} LERoundTrip(n: nat, k: nat)
    requires n < Pow256(k)
    ensures FromLE(LE(n, k)) == n
  {
    if k > 0 {
      LERoundTrip(n / 256, k - 1);
      assert LE(n, k)[1..] == LE(n / 256, k - 1);
    }
  }

  lemma {:induction false} BERoundTrip(n: nat, k: nat)
    requires n < Pow256(k)
    ensures FromBE(BE(n, k)) == n
  {
    if k > 0 {
      BERoundTrip(n / 256, k - 1);
      assert BE(n, k)[..k - 1] == BE(n / 256, k - 1);
    }
  }

  lemma {:induction false} FromBEBound(s: seq<byte>)
    ensures FromBE(s) < Pow256(|s|)
  {
    if s != [] { FromBEBound(s[..|s| - 1]); }
  }

  lemma Widths()
    ensures Pow256(4) == 0x1_0000_0000 && Pow256(8) == 0x1_0000_0000_0000_0000
  {
    assert Pow256(2) == 65536;
    assert Pow256(4) == 65536 * 65536;
    assert Pow256(6) == 65536 * 65536 * 65536;
  }

  lemma Shifted(n: nat, i: nat)
    ensures n / 256 / Pow256(i) == n / Pow256(i + 1)
  {
    var p, q := Pow256(i), n / 256 / Pow256(i);
    var r := n - 256 * p * q;
    assert n / 256 == p * q + (n / 256) % p;
    assert 0 <= r < 256 * p;
    Quotient(n, 256 * p, q, r);
  }

  lemma Quotient(n: nat, d: nat, q: nat, r: int)
    requires 0 < d && n == d * q + r && 0 <= r < d
    ensures n / d == q
  {
    var k := n / d;
    assert n == d * k + n % d;
    if k < q { Times(d, k + 1, q); } else if q < k { Times(d, q + 1, k); }
  }

  lemma Times(d: nat, a: nat, b: nat)
    requires 0 < a <= b
    ensures d * (a - 1) + d <= d * b
  {
    assert d * (a - 1) + d == d * a;
    assert d * b == d * a + d * (b - a);
  }

  /** Byte `i` of the little-endian form is the `i`-th digit in base 256, and big-endian is the reverse. */
  lemma {:induction false} ByteOrder(n: nat, k: nat, i: nat)
    requires i < k
    ensures LE(n, k)[i] as int == n / Pow256(i) % 256
    ensures BE(n, k)[k - 1 - i] == LE(n, k)[i]
  {
    if i == 0 {
      assert Pow256(0) == 1;
    } else {
      ByteOrder(n / 256, k - 1, i - 1);
      Shifted(n, i - 1);
      assert BE(n, k)[k - 1 - i] == BE(n / 256, k - 1)[k - 2 - (i - 1)];
    }
  }
}
