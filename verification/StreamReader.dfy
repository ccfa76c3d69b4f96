/**
 Cutting a connection's byte stream into packets.  A packet starts with its own length.
 */
module StreamReader {
  import opened Bytes
  import opened NBuffer

  const MIN_PACKET := 12
  const PACKET_LIMIT := 1024000 - 64

  type Packet = seq<byte>

  /** The packets at the front of the stream, what follows them, and whether that is malformed. */
  datatype Parsed = Parsed(packets: seq<Packet>, rest: seq<byte>, bad: bool)

  predicate BadLength(n: nat) {
    n < MIN_PACKET || n >= PACKET_LIMIT
  }

  function Parse(s: seq<byte>): (r: Parsed)
    decreases |s|
  {
    if |s| < MIN_PACKET then Parsed([], s, false)
    else
      var n := FromBE(s[..4]);
      if BadLength(n) then Parsed([], s, true)
      else if n > |s| then Parsed([], s, false)
      else
        var r := Parse(s[n..]);
        r.(packets := [s[..n]] + r.packets)
  }

  function Flatten(ps: seq<Packet>): (s: seq<byte>) {
    if ps == [] then [] else ps[0] + Flatten(ps[1..])
  }

  predicate ValidPacket(p: Packet) {
    |p| >= 4 && FromBE(p[..4]) == |p| && !BadLength(|p|)
  }

  // ---------------------------------------------------------------- what parsing means

  /** The stream starts with a complete packet of `n` bytes. */
  predicate StartsWith(s: seq<byte>, n: nat) {
    MIN_PACKET <= |s| && FromBE(s[..4]) == n && !BadLength(n) && n <= |s|
  }

  lemma ParseStep(s: seq<byte>, n: nat, tail: Parsed)
    requires StartsWith(s, n) && tail == Parse(s[n..])
    ensures Parse(s) == Parsed([s[..n]] + tail.packets, tail.rest, tail.bad)
  {
  }

  lemma ParseStop(s: seq<byte>)
    requires !StartsWith(s, if |s| < MIN_PACKET then 0 else FromBE(s[..4]))
    ensures Parse(s).packets == [] && Parse(s).rest == s
    ensures Parse(s).bad <==> MIN_PACKET <= |s| && BadLength(FromBE(s[..4]))
  {
  }

  lemma SoundStep(s: seq<byte>, n: nat, tail: Parsed)
    requires StartsWith(s, n) && s[n..] == Flatten(tail.packets) + tail.rest
    requires forall i :: 0 <= i < |tail.packets| ==> ValidPacket(tail.packets[i])
    ensures s == Flatten([s[..n]] + tail.packets) + tail.rest
    ensures forall i :: 0 <= i < |[s[..n]] + tail.packets| ==> ValidPacket(([s[..n]] + tail.packets)[i])
  {
    var all := [s[..n]] + tail.packets;
    assert all[1..] == tail.packets;
    assert s[..n][..4] == s[..4];
    assert s == s[..n] + s[n..];
  }

  /** The packets and the rest make up the stream, and each packet has the length it says. */
  lemma {:induction false} ParseSound(s: seq<byte>)
    ensures s == Flatten(Parse(s).packets) + Parse(s).rest
    ensures forall i :: 0 <= i < |Parse(s).packets| ==> ValidPacket(Parse(s).packets[i])
    decreases |s|
  {
    var n := if |s| < MIN_PACKET then 0 else FromBE(s[..4]);
    if StartsWith(s, n) {
      var tail := Parse(s[n..]);
      ParseSound(s[n..]);
      ParseStep(s, n, tail);
      SoundStep(s, n, tail);
    } else {
      ParseStop(s);
    }
  }

  /** What is left over is an incomplete packet, unless the stream is malformed. */
  lemma {:induction false} RestShort(s: seq<byte>)
    ensures !Parse(s).bad ==> |Parse(s).rest| < PACKET_LIMIT && Parse(Parse(s).rest) == Parsed([], Parse(s).rest, false)
    decreases |s|
  {
    var n := if |s| < MIN_PACKET then 0 else FromBE(s[..4]);
    if StartsWith(s, n) {
      RestShort(s[n..]);
      ParseStep(s, n, Parse(s[n..]));
    } else {
      ParseStop(s);
    }
  }

  lemma {:induction false} PacketFirst(p: Packet, t: seq<byte>, r: Parsed)
    requires ValidPacket(p) && r == Parse(t)
    ensures Parse(p + t) == Parsed([p] + r.packets, r.rest, r.bad)
  {
    var s := p + t;
    assert s[..4] == p[..4] && s[..|p|] == p && s[|p|..] == t;
    ParseStep(s, |p|, r);
  }

  /** A stream of valid packets followed by part of one is cut into exactly these packets. */
  lemma {:induction false} ParsePackets(ps: seq<Packet>, tail: seq<byte>)
    requires forall i :: 0 <= i < |ps| ==> ValidPacket(ps[i])
    requires Parse(tail).packets == [] && !Parse(tail).bad
    ensures Parse(Flatten(ps) + tail) == Parsed(ps, tail, false)
  {
    var s := Flatten(ps) + tail;
    if ps == [] {
      assert s == tail;
    } else {
      var p := ps[0];
      ParsePackets(ps[1..], tail);
      assert s == p + (Flatten(ps[1..]) + tail);
      PacketFirst(p, Flatten(ps[1..]) + tail, Parsed(ps[1..], tail, false));
      assert ps == [p] + ps[1..];
    }
  }

  lemma MoreStep(s: seq<byte>, t: seq<byte>, n: nat, p: Parsed, q: Parsed)
    requires StartsWith(s, n) && p == Parse(s[n..])
    requires Parse(s[n..] + t) == Parsed(p.packets + q.packets, q.rest, q.bad)
    ensures Parse(s + t) == Parsed(([s[..n]] + p.packets) + q.packets, q.rest, q.bad)
  {
    assert (s + t)[..4] == s[..4] && (s + t)[..n] == s[..n] && (s + t)[n..] == s[n..] + t;
    ParseStep(s + t, n, Parse(s[n..] + t));
    assert [s[..n]] + (p.packets + q.packets) == ([s[..n]] + p.packets) + q.packets;
  }

  /** More bytes go on from where parsing stopped. */
  lemma {:induction false} ParseMore(s: seq<byte>, t: seq<byte>, p: Parsed, q: Parsed)
    requires p == Parse(s) && !p.bad && q == Parse(p.rest + t)
    ensures Parse(s + t) == Parsed(p.packets + q.packets, q.rest, q.bad)
    decreases |s|
  {
    var n := if |s| < MIN_PACKET then 0 else FromBE(s[..4]);
    if StartsWith(s, n) {
      var p' := Parse(s[n..]);
      ParseStep(s, n, p');
      ParseMore(s[n..], t, p', q);
      MoreStep(s, t, n, p', q);
    } else {
      ParseStop(s);
      assert p.packets + q.packets == q.packets;
    }
  }

  // ---------------------------------------------------------------- the connection

  datatype Recv = Data(bytes: seq<byte>) | Again | Closed

  /** Of a malformed read only whole batches get through. */
  function Batches(packets: seq<Packet>, batch: nat): (r: seq<Packet>)
    requires 0 < batch
  {
    packets[..Floor(|packets|, batch)]
  }

  function Floor(n: nat, batch: nat): (r: nat)
    requires 0 < batch
    ensures r <= n < r + batch
    decreases n
  {
    if n < batch then 0 else Floor(n - batch, batch) + batch
  }

  /** Between reads: room for the next read, or nothing received yet. */
  ghost predicate Roomy(b: NBuffer) reads b {
    b.len - b.index >= STEP || b.len == b.maxBufLen || b.index == 0
  }

  ghost predicate Waiting(b: NBuffer) reads b, b.buf {
    b.Valid() && b.maxBufLen == MAX_NBUFFER && Roomy(b) && b.index < PACKET_LIMIT
  }

  method Read(b: NBuffer, r: Recv) returns (ok: bool)
    requires Waiting(b) && (r.Data? ==> |r.bytes| <= b.len - b.index)
    modifies b, b.buf
    ensures b.Valid() && b.maxBufLen == MAX_NBUFFER && Roomy(b)
    ensures b.buf == old(b.buf) || fresh(b.buf)
    ensures ok <==> !r.Closed?
    ensures b.Contents() == old(b.Contents()) + if r.Data? then r.bytes else []
  {
    if r.Closed? {
      return false;
    }
    if r.Data? {
      b.Fill(r.bytes);
      b.AddIndex(|r.bytes|);
    }
    return true;
  }

  lemma SliceOf(all: seq<byte>, end: nat, from: nat, n: nat)
    requires from + n <= end <= |all|
    ensures all[..end][from..][..n] == all[from..from + n]
  {
  }

  datatype Found = Malformed | Incomplete | Whole(packet: Packet)

  /** Look at the packet that starts at `readNum`. */
  method Look(b: NBuffer, readNum: nat) returns (f: Found)
    requires b.Valid() && readNum + MIN_PACKET <= b.index
    ensures var s := b.Contents()[readNum..];
            match f
            case Malformed => Parse(s).bad && Parse(s).packets == []
            case Incomplete => Parse(s) == Parsed([], s, false)
            case Whole(p) => |p| <= |s| && p == s[..|p|] && StartsWith(s, |p|)
  {
    var n := FromBE(b.buf[readNum..readNum + 4]);
    ghost var s := b.Contents()[readNum..];
    SliceOf(b.buf[..], b.index, readNum, 4);
    assert b.buf[..][..b.index] == b.Contents();
    assert b.buf[readNum..readNum + 4] == b.buf[..][readNum..readNum + 4];
    if BadLength(n) {
      ParseStop(s);
      return Malformed;
    }
    if readNum + n > b.index {
      ParseStop(s);
      return Incomplete;
    }
    SliceOf(b.buf[..], b.index, readNum, n);
    assert b.buf[readNum..readNum + n] == b.buf[..][readNum..readNum + n];
    return Whole(b.buf[readNum..readNum + n]);
  }

  /** What has been taken off the stream `s`, handed over or waiting in a batch, and what is left. */
  ghost predicate Taken(s: seq<byte>, readNum: nat, units: seq<Packet>, pending: seq<Packet>, batch: nat) {
    && readNum <= |s| && 0 < batch && |pending| < batch && Floor(|units|, batch) == |units|
    && var r := Parse(s[readNum..]); Parse(s) == Parsed(units + pending + r.packets, r.rest, r.bad)
  }

  lemma TakeStep(s: seq<byte>, readNum: nat, units: seq<Packet>, pending: seq<Packet>, p: Packet, batch: nat)
    requires Taken(s, readNum, units, pending, batch) && StartsWith(s[readNum..], |p|) && p == s[readNum..][..|p|]
    ensures readNum + |p| <= |s|
    ensures |pending| + 1 < batch ==> Taken(s, readNum + |p|, units, pending + [p], batch)
    ensures |pending| + 1 == batch ==> Taken(s, readNum + |p|, units + (pending + [p]), [], batch)
  {
    var n := |p|;
    var r := Parse(s[readNum + n..]);
    assert s[readNum..][n..] == s[readNum + n..] && s[readNum..][..n] == p;
    ParseStep(s[readNum..], n, r);
    assert units + (pending + [p]) + r.packets == units + pending + ([p] + r.packets);
    assert units + (pending + [p]) + [] == units + (pending + [p]);
    if |pending| + 1 == batch { FloorAdd(|units|, batch, batch); }
  }

  lemma TakeEnd(s: seq<byte>, readNum: nat, units: seq<Packet>, pending: seq<Packet>, batch: nat)
    requires Taken(s, readNum, units, pending, batch) && Parse(s[readNum..]).packets == []
    ensures Parse(s) == Parsed(units + pending, Parse(s[readNum..]).rest, Parse(s[readNum..]).bad)
    ensures Batches(units + pending, batch) == units
  {
    assert units + pending + [] == units + pending;
    FloorAdd(|units|, |pending|, batch);
  }

  /** Hand over the complete packets; the units of a batch are handed over together. */
  method TakePackets(b: NBuffer, batch: nat) returns (ok: bool, readNum: nat, units: seq<Packet>)
    requires b.Valid() && 0 < batch
    ensures ok <==> !Parse(b.Contents()).bad
    ensures readNum <= b.index
    ensures ok ==> units == Parse(b.Contents()).packets && b.Contents()[readNum..] == Parse(b.Contents()).rest
    ensures !ok ==> units == Batches(Parse(b.Contents()).packets, batch)
  {
    readNum, units := 0, [];
    var pending: seq<Packet> := [];
    ghost var s := b.Contents();
    assert s[0..] == s && units + pending + Parse(s).packets == Parse(s).packets;
    while readNum + MIN_PACKET <= b.index
      invariant Taken(s, readNum, units, pending, batch)
      decreases b.index - readNum
    {
      var f := Look(b, readNum);
      if f.Malformed? {
        TakeEnd(s, readNum, units, pending, batch);
        return false, readNum, units;
      }
      if f.Incomplete? {
        break;
      }
      var p := f.packet;
      TakeStep(s, readNum, units, pending, p, batch);
      readNum, pending := readNum + |p|, pending + [p];
      if |pending| >= batch { units, pending := units + pending, []; }
    }
    assert Parse(s[readNum..]) == Parsed([], s[readNum..], false);
    TakeEnd(s, readNum, units, pending, batch);
    return true, readNum, units + pending;
  }

  lemma {:induction false} FloorAdd(n: nat, m: nat, batch: nat)
    requires 0 < batch && Floor(n, batch) == n
    ensures Floor(n + m, batch) == n + Floor(m, batch)
    decreases n
  {
    if n >= batch { FloorAdd(n - batch, m, batch); }
  }

  /**
   One readiness event: read, hand over the complete packets and keep the incomplete one at the
   front.  Reducing the index never reallocates the buffer under the bytes still to be moved, and
   there is room to read again.
   */
  method DealEpollIn(b: NBuffer, r: Recv, batch: nat) returns (ok: bool, units: seq<Packet>)
    requires Waiting(b) && 0 < batch && (r.Data? ==> |r.bytes| <= b.len - b.index)
    modifies b, b.buf
    ensures ok <==> !r.Closed? && !Parse(old(b.Contents()) + if r.Data? then r.bytes else []).bad
    ensures ok ==> Waiting(b) && b.index < b.len
    ensures ok ==> var p := Parse(old(b.Contents()) + if r.Data? then r.bytes else []);
                   units == p.packets && b.Contents() == p.rest
    ensures !ok && !r.Closed? ==>
              units == Batches(Parse(old(b.Contents()) + if r.Data? then r.bytes else []).packets, batch)
    ensures b.buf == old(b.buf) || fresh(b.buf)
  {
    units := [];
    ok := Read(b, r);
    if !ok {
      return;
    }
    ghost var s := b.Contents();
    var readNum: nat;
    ok, readNum, units := TakePackets(b, batch);
    if !ok {
      return;
    }
    RestShort(s);
    b.AddIndex(-(readNum as int));
    if readNum > 0 && b.index > 0 {
      MoveFront(b, readNum, s);
    } else {
      assert b.Contents() == s[readNum..];
    }
  }

  /** Move the bytes after the packets to the front. */
  method MoveFront(b: NBuffer, from: nat, ghost s: seq<byte>)
    requires b.Valid() && from + b.index == |s| && |s| <= b.len && b.buf[..|s|] == s
    modifies b.buf
    ensures b.Valid() && b.Contents() == s[from..]
  {
    var n := b.index;
    forall i | 0 <= i < n { b.buf[i] := b.buf[from + i]; }
    assert forall i :: 0 <= i < n ==> b.buf[..n][i] == s[from + i];
  }

  // ---------------------------------------------------------------- how the stream is cut

  /** What a connection has handed over, what it holds and whether it is still open. */
  datatype Fed = Fed(packets: seq<Packet>, rest: seq<byte>, open: bool)

  /** The reads `chunks` one after the other; a malformed stream ends the connection. */
  function Feed(rest: seq<byte>, chunks: seq<seq<byte>>, batch: nat): (r: Fed)
    requires 0 < batch
    decreases |chunks|
  {
    if chunks == [] then Fed([], rest, true)
    else
      var p := Parse(rest + chunks[0]);
      if p.bad then Fed(Batches(p.packets, batch), p.rest, false)
      else
        var r := Feed(p.rest, chunks[1..], batch);
        r.(packets := p.packets + r.packets)
  }

  function Joined(chunks: seq<seq<byte>>): (s: seq<byte>) {
    if chunks == [] then [] else chunks[0] + Joined(chunks[1..])
  }

  /** Behind a malformed header nothing is parsed any more. */
  lemma {:induction false} BadStays(s: seq<byte>, t: seq<byte>)
    requires Parse(s).bad
    ensures Parse(s + t).bad && Parse(s + t).packets == Parse(s).packets
    decreases |s|
  {
    var n := if |s| < MIN_PACKET then 0 else FromBE(s[..4]);
    if StartsWith(s, n) {
      ParseStep(s, n, Parse(s[n..]));
      BadStays(s[n..], t);
      assert (s + t)[..4] == s[..4] && (s + t)[..n] == s[..n] && (s + t)[n..] == s[n..] + t;
      ParseStep(s + t, n, Parse(s[n..] + t));
    } else {
      ParseStop(s);
      assert (s + t)[..4] == s[..4];
      ParseStop(s + t);
    }
  }

  /**
   However the stream is cut into reads, the packets handed over are those of the whole stream
   and the connection stays open exactly when the stream is well formed.  A malformed stream
   loses less than one batch of the packets before the error.
   */
  lemma {:induction false} CutsDoNotMatter(rest: seq<byte>, chunks: seq<seq<byte>>, batch: nat, whole: Parsed)
    requires 0 < batch && Parse(rest) == Parsed([], rest, false) && whole == Parse(rest + Joined(chunks))
    ensures var f := Feed(rest, chunks, batch);
            && (f.open <==> !whole.bad)
            && (f.open ==> f.packets == whole.packets && f.rest == whole.rest)
            && f.packets <= whole.packets && |whole.packets| < |f.packets| + batch
    decreases |chunks|
  {
    if chunks == [] {
      assert rest + Joined(chunks) == rest;
    } else {
      var c, more := chunks[0], Joined(chunks[1..]);
      var p := Parse(rest + c);
      assert rest + Joined(chunks) == (rest + c) + more;
      if p.bad {
        BadStays(rest + c, more);
      } else {
        var q := Parse(p.rest + more);
        ParseMore(rest + c, more, p, q);
        RestShort(rest + c);
        CutsDoNotMatter(p.rest, chunks[1..], batch, q);
      }
    }
  }

  /** A packet as senders make it: 12 to 1023935 bytes, the first four of which state its length. */
  predicate Sendable(p: Packet) {
    12 <= |p| <= 1023935 && FromBE(p[..4]) == |p|
  }

  /** Whatever packets are sent, and however the network cuts them into reads, they all get through. */
  lemma PacketsGetThrough(ps: seq<Packet>, chunks: seq<seq<byte>>, batch: nat)
    requires 0 < batch && (forall i :: 0 <= i < |ps| ==> Sendable(ps[i])) && Joined(chunks) == Flatten(ps)
    ensures Feed([], chunks, batch) == Fed(ps, [], true)
  {
    assert forall i :: 0 <= i < |ps| ==> ValidPacket(ps[i]);
    ParsePackets(ps, []);
    assert Flatten(ps) + [] == Flatten(ps) && [] + Joined(chunks) == Joined(chunks);
    CutsDoNotMatter([], chunks, batch, Parsed(ps, [], false));
  }

  /** Behind such packets a header closes the connection exactly when it states a length that no packet has. */
  lemma HeaderDecides(ps: seq<Packet>, tail: seq<byte>, chunks: seq<seq<byte>>, batch: nat)
    requires 0 < batch && (forall i :: 0 <= i < |ps| ==> Sendable(ps[i]))
    requires |tail| == 12 && Joined(chunks) == Flatten(ps) + tail
    ensures Feed([], chunks, batch).open <==> 12 <= FromBE(tail[..4]) <= 1023935
  {
    if FromBE(tail[..4]) == 12 { ParseStep(tail, 12, Parse(tail[12..])); } else { ParseStop(tail); }
    assert [] + Joined(chunks) == Joined(chunks);
    assert forall i :: 0 <= i < |ps| ==> ValidPacket(ps[i]);
    PacketsThen(ps, tail);
    CutsDoNotMatter([], chunks, batch, Parse(Flatten(ps) + tail));
  }

  lemma {:induction false} PacketsThen(ps: seq<Packet>, tail: seq<byte>)
    requires forall i :: 0 <= i < |ps| ==> ValidPacket(ps[i])
    ensures Parse(Flatten(ps) + tail).bad <==> Parse(tail).bad
  {
    if ps == [] {
      assert Flatten(ps) + tail == tail;
    } else {
      var t := Flatten(ps[1..]) + tail;
      PacketsThen(ps[1..], tail);
      assert Flatten(ps) + tail == ps[0] + t;
      PacketFirst(ps[0], t, Parse(t));
    }
  }

  /** With batches of two or more a malformed stream does lose packets, depending on the cut. */
  lemma MalformedCutMatters(batch: nat)
    requires 2 <= batch
    ensures var p, bad := BE(12, 4) + BE(0, 8), BE(0, 12);
            Feed([], [p + bad], batch).packets == [] && Feed([], [p, bad], batch).packets == [p]
  {
    var p, bad := BE(12, 4) + BE(0, 8), BE(0, 12);
    Widths();
    BERoundTrip(12, 4);
    assert p[..4] == BE(12, 4);
    Zeros(bad);
    ParsePackets([p], []);
    assert Flatten([p]) == p && Flatten([p]) + [] == p;
    PacketThenError(p, bad, batch);
  }

  lemma PacketThenError(p: seq<byte>, bad: seq<byte>, batch: nat)
    requires 2 <= batch && Parse(p) == Parsed([p], [], false) && Parse(bad) == Parsed([], bad, true)
    ensures Feed([], [p + bad], batch).packets == [] && Feed([], [p, bad], batch).packets == [p]
  {
    assert [] + bad == bad && [] + p == p && [] + (p + bad) == p + bad;
    ParseMore(p, bad, Parse(p), Parse(bad));
    assert [p] + [] == [p];
    assert [p, bad][1..] == [bad];
    assert Feed([], [bad], batch) == Fed([], bad, false);
  }

  lemma Zeros(s: seq<byte>)
    requires s == BE(0, 12)
    ensures Parse(s) == Parsed([], s, true)
  {
    BEPrefix(12);
    BERoundTrip(0, 4);
    ParseStop(s);
  }

  lemma {:induction false} BEPrefix(k: nat)
    requires 4 <= k
    ensures BE(0, k)[..4] == BE(0, 4)
  {
    if k > 4 {
      BEPrefix(k - 1);
      assert BE(0, k)[..4] == BE(0, k - 1)[..4];
    }
  }
}
