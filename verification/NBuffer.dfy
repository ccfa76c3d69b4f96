/** The growing receive buffer of a connection. */
module NBuffer {
  import opened Bytes

  const MAX_NBUFFER := 1024 * 1024 + 256
  const FIRST_SIZE := 512
  const STEP := 4096

  /** Doubling from `n` until there is room for `more` bytes above `size`, up to the limit. */
  function Grown(n: nat, size: nat, more: nat, limit: nat): (r: nat)
    requires 0 < n <= limit && size <= limit
    ensures n <= r <= limit && (r == limit || size + more <= r)
    decreases limit - n
  {
    if 2 * n > limit then limit
    else if 2 * n >= size + more then 2 * n
    else Grown(2 * n, size, more, limit)
  }

  class NBuffer {
    var buf: array<byte>
    var len: nat
    var index: nat                           // the first `index` bytes are received data
    const maxBufLen: nat

    ghost predicate Valid() reads this {
      index <= len <= maxBufLen < 0x4000_0000 && 0 < len && buf.Length == len + 8
    }

    ghost function Contents(): (s: seq<byte>)
      requires Valid()
      reads this, buf
    {
      buf[..index]
    }

    constructor (limit: nat := MAX_NBUFFER)
      requires FIRST_SIZE <= limit < 0x4000_0000
      ensures Valid() && fresh(buf) && Contents() == [] && len == FIRST_SIZE && maxBufLen == limit && index == 0
    {
      buf, len, index, maxBufLen := new byte[FIRST_SIZE + 8](_ => 0), FIRST_SIZE, 0, limit;
    }

    method GetFreeLen() returns (left: nat)
      requires Valid()
      ensures left == len - index
    {
      left := len - index;
    }

    /** Move the received bytes to a new buffer. */
    method ReallocBuf(n: nat)
      requires Valid() && 0 < n <= maxBufLen && index <= n
      modifies this`buf, this`len
      ensures Valid() && fresh(buf) && len == n && Contents() == old(Contents())
    {
      var fresh' := new byte[n + 8](_ => 0);
      for i := 0 to index
        invariant fresh'.Length == n + 8 && fresh'[..i] == buf[..i] && Valid()
        modifies fresh'
      {
        fresh'[i] := buf[i];
      }
      buf, len := fresh', n;
    }

    method SetNewSize(n: nat) returns (ok: bool)
      requires Valid() && 0 < n <= maxBufLen
      modifies this`buf, this`len
      ensures Valid() && Contents() == old(Contents())
      ensures ok <==> n >= old(len) || n > index
      ensures len == if ok then n else old(len)
      ensures n != old(len) && ok ==> fresh(buf)
      ensures n == old(len) || !ok ==> buf == old(buf)
    {
      if n > len {
        ReallocBuf(n);
        return true;
      } else if n == len {
        return true;
      } else if n <= index {
        return false;
      } else {
        ReallocBuf(n);
        return true;
      }
    }

    /** Make room by doubling; the received bytes stay. */
    method Expand(more: nat)
      requires Valid() && more < 0x4000_0000
      modifies this`buf, this`len
      ensures Valid() && Contents() == old(Contents())
      ensures len == if more == 0 then old(len) else Grown(old(len), old(len), more, maxBufLen)
      ensures if len == old(len) then buf == old(buf) else fresh(buf)
    {
      if more == 0 {
        return;
      }
      var newLen := len;
      while true
        invariant 0 < newLen <= maxBufLen && Valid() && len == old(len) && buf == old(buf)
        invariant Grown(len, len, more, maxBufLen) == Grown(newLen, len, more, maxBufLen)
        invariant Contents() == old(Contents())
        decreases maxBufLen - newLen
      {
        newLen := newLen * 2;
        if newLen > maxBufLen {
          newLen := maxBufLen;
          break;
        }
        if newLen >= len + more {
          break;
        }
      }
      if newLen > len { var ok := SetNewSize(newLen); }
    }

    /** Count bytes in or out, and keep room for the next read while the limit allows it. */
    method AddIndex(n: int)
      requires Valid() && 0 <= index + n <= len
      modifies this`buf, this`len, this`index
      ensures Valid() && index == old(index) + n && Contents() == old(buf[..index + n])
      ensures len - index >= STEP || len == maxBufLen
      ensures if old(len) - index >= STEP || old(len) == maxBufLen then buf == old(buf) && len == old(len)
              else fresh(buf)
    {
      index := index + n;
      var left := GetFreeLen();
      if left < STEP { Expand(STEP); }
    }

    /** The bytes that arrive on the socket are stored behind the others. */
    method Fill(bytes: seq<byte>)
      requires Valid() && index + |bytes| <= len
      modifies buf
      ensures Valid() && buf[..index + |bytes|] == old(Contents()) + bytes
    {
      for i := 0 to |bytes|
        invariant buf[..index + i] == old(Contents()) + bytes[..i]
      {
        buf[index + i] := bytes[i];
      }
      assert bytes[..|bytes|] == bytes;
    }
  }
}
