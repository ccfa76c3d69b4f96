/** One server's object for a bucket: the leader's handlers and the follower's. */
module BucketMgr {
  import opened Common
  import opened Bytes
  import opened Replication

  /** The header of the request that a server is answering. */
  datatype RpcHead = RpcHead(sockIndex: nat, created: nat, requested: nat, srcIp: nat, srcPort: nat)

  function HeadBytes(h: RpcHead): (s: seq<byte>)
    ensures |s| == HEAD
  {
    BE(h.sockIndex, 4) + BE(h.created, 4) + BE(h.requested, 4) + BE(h.srcIp, 4) + BE(h.srcPort, 2)
  }

  /** Overwrite the bytes from `pos` on. */
  function Fill(s: seq<byte>, pos: nat, b: seq<byte>): (r: seq<byte>)
    requires pos + |b| <= |s|
    ensures |r| == |s|
  {
    s[..pos] + b + s[pos + |b|..]
  }

  lemma FillNext(entry: seq<byte>, done: seq<byte>, b: seq<byte>)
    requires |done| + |b| <= |entry|
    ensures Fill(done + entry[|done|..], |done|, b) == (done + b) + entry[|done + b|..]
  {
  }

  /** Replace the header bytes of an entry field by field. */
  method FillHead(entry: seq<byte>, h: RpcHead) returns (r: seq<byte>)
    requires HEAD <= |entry|
    ensures r == Rewrite(entry, HeadBytes(h))
  {
    ghost var done: seq<byte> := [];
    r := entry;
    assert r == done + entry[|done|..];
    var b := BE(h.sockIndex, 4);
    FillNext(entry, done, b);
    r, done := Fill(r, 0, b), done + b;
    b := BE(h.created, 4);
    FillNext(entry, done, b);
    r, done := Fill(r, 4, b), done + b;
    b := BE(h.requested, 4);
    FillNext(entry, done, b);
    r, done := Fill(r, 8, b), done + b;
    b := BE(h.srcIp, 4);
    FillNext(entry, done, b);
    r, done := Fill(r, 12, b), done + b;
    b := BE(h.srcPort, 2);
    FillNext(entry, done, b);
    r, done := Fill(r, 16, b), done + b;
    assert done == HeadBytes(h);
  }

  /** The rewritten entry carries the header in its first 18 bytes, field by field, and is otherwise as it was. */
  lemma HeadFields(entry: seq<byte>, h: RpcHead)
    requires HEAD <= |entry| && h.srcPort < 0x1_0000
    requires h.sockIndex < UINT32 && h.created < UINT32 && h.requested < UINT32 && h.srcIp < UINT32
    ensures var r := Rewrite(entry, HeadBytes(h));
            && FromBE(r[0..4]) == h.sockIndex && FromBE(r[4..8]) == h.created && FromBE(r[8..12]) == h.requested
            && FromBE(r[12..16]) == h.srcIp && FromBE(r[16..18]) == h.srcPort && r[18..] == entry[18..]
  {
    var r := Rewrite(entry, HeadBytes(h));
    var a, b, c, d, e := BE(h.sockIndex, 4), BE(h.created, 4), BE(h.requested, 4), BE(h.srcIp, 4), BE(h.srcPort, 2);
    FieldsAt(a, b, c, d, e, entry[HEAD..], r);
    Widths();
    assert Pow256(2) == 0x1_0000;
    BERoundTrip(h.sockIndex, 4);
    BERoundTrip(h.created, 4);
    BERoundTrip(h.requested, 4);
    BERoundTrip(h.srcIp, 4);
    BERoundTrip(h.srcPort, 2);
  }

  lemma FieldsAt(a: seq<byte>, b: seq<byte>, c: seq<byte>, d: seq<byte>, e: seq<byte>, rest: seq<byte>, r: seq<byte>)
    requires |a| == |b| == |c| == |d| == 4 && |e| == 2 && r == (a + b + c + d + e) + rest
    ensures r[0..4] == a && r[4..8] == b && r[8..12] == c && r[12..16] == d && r[16..18] == e && r[18..] == rest
  {
  }

  class BucketMgr {
    var log: seq<Rec>
    var quickCommitIdx: nat
    var commits: seq<nat>                    // requests to the commit thread
    var peers: map<Peer, nat>                // next index to send to each peer

    constructor ()
      ensures State() == Replica([], 0, []) && peers == map[]
    {
      log, quickCommitIdx, commits, peers := [], 0, [], map[];
    }

    ghost function State(): (r: Replica) reads this {
      Replica(log, quickCommitIdx, commits)
    }

    method RequestAppendEntries(p: Peer, cut: nat) returns (m: Request)
      requires p in peers
      modifies this`peers
      ensures m == Ask(State(), p, old(peers)[p], cut)
      ensures peers == old(peers)[p := SendFrom(State(), old(peers)[p])]
    {
      var lastIdx := |log|;
      if peers[p] == 0 { peers := peers[p := lastIdx + 1]; }
      var lastLogIdx := peers[p] - 1;
      var end := if cut < lastIdx then cut else lastIdx;
      var entries := if lastLogIdx + 1 <= end then log[lastLogIdx..end] else [];
      return Request(p, lastLogIdx + 1, quickCommitIdx, entries);
    }

    method Commit(idx: nat)
      modifies this`commits
      ensures State() == Replication.Commit(old(State()), idx)
    {
      if idx > quickCommitIdx { commits := commits + [idx]; }
    }

    /** The commit thread takes its oldest request and hands the entries over one by one. */
    method ServeCommit() returns (applied: seq<Option<Rec>>)
      modifies this`quickCommitIdx, this`commits
      ensures State() == Serve(old(State()))
      ensures applied == Handed(old(State()))
      ensures Within(old(State()), |log|) ==> forall k :: 0 <= k < |applied| ==>
                old(quickCommitIdx) + k < |log| && applied[k] == Some(log[old(quickCommitIdx) + k])
      ensures old(commits) != [] && old(quickCommitIdx) <= old(commits)[0] ==>
                |applied| == quickCommitIdx - old(quickCommitIdx)
    {
      applied := [];
      if commits == [] { return; }
      var idx := commits[0];
      var i := quickCommitIdx + 1;
      while i <= idx
        invariant quickCommitIdx + 1 <= i && (i <= idx + 1 || i == quickCommitIdx + 1)
        invariant |applied| == i - quickCommitIdx - 1
        invariant forall k :: 0 <= k < |applied| ==> applied[k] == EntryAt(log, quickCommitIdx + 1 + k)
      {
        applied := applied + [EntryAt(log, i)];
        i := i + 1;
      }
      quickCommitIdx, commits := idx, commits[1..];
    }

    /** A follower's answer. */
    method RpcHandler(a: Response, cut: nat) returns (m: Option<Request>)
      requires a.peer in peers && 0 < a.next
      modifies this`commits, this`peers
      ensures State() == if a.accept then Replication.Commit(old(State()), a.next - 1) else old(State())
      ensures m == if CatchUp(State(), a) then Some(Ask(State(), a.peer, a.next, cut)) else None
      ensures peers == old(peers)[a.peer := a.next]
    {
      var needToCatchUp := true;
      peers := peers[a.peer := a.next];
      if a.accept {
        Commit(a.next - 1);
        needToCatchUp := a.next <= |log| || a.commit < a.next - 1;
      }
      if needToCatchUp {
        var q := RequestAppendEntries(a.peer, cut);
        return Some(q);
      }
      return None;
    }

    method WriteAt(idx: nat, data: Rec) returns (ok: bool)
      requires 0 < idx
      modifies this`log
      ensures log == Replication.WriteAt(old(log), idx, data)
      ensures ok <==> idx <= |old(log)| + 1
    {
      if idx > |log| + 1 {
        return false;
      }
      if idx < |log| + 1 { log := log[..idx - 1]; }
      log := log + [data];
      return true;
    }

    /** The leader's request at a follower: every entry is written exactly behind the log. */
    method Dump(m: Request, h: RpcHead) returns (a: Response)
      requires WellSized(m, HeadBytes(h))
      modifies this`log, this`commits
      ensures State() == Receive(old(State()), m, HeadBytes(h))
      ensures a == Answer(old(State()), m)
    {
      if |log| + 1 != m.next {
        return Response(m.peer, false, |log| + 1, 0);
      }
      ghost var was := State();
      for idx := 0 to |m.entries|
        invariant log == WriteAll(was.log, m.next, m.entries, HeadBytes(h), idx)
        invariant |log| + 1 == m.next + idx && commits == was.queue
      {
        var data := FillHead(m.entries[idx], h);
        var ok := WriteAt(m.next + idx, data);
        assert ok;
      }
      Commit(m.commit);
      return Response(m.peer, true, m.next + |m.entries|, m.commit);
    }
  }
}
