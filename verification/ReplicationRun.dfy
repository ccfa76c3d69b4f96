/** Runs of the replication protocol under loss, duplication and reordering of messages. */
module ReplicationRun {
  import opened Bytes
  import opened Replication

  datatype World = World(
    leader: Replica,
    next: map<Peer, nat>,                    // what the leader believes each follower needs next
    followers: map<Peer, Replica>,
    requests: set<Request>, responses: set<Response>)

  datatype Step =
    | Append(data: Rec)                      // a client's record
    | Send(peer: Peer, cut: nat)
    | Deliver(m: Request, head: seq<byte>)
    | Return(a: Response, cut: nat)
    | LeaderServe
    | FollowerServe(peer: Peer)

  function Init(peers: set<Peer>): (w: World) {
    World(Replica([], 0, []), map p | p in peers :: 0, map p | p in peers :: Replica([], 0, []), {}, {})
  }

  predicate Legal(w: World, t: Step) {
    match t
    case Append(data) => HEAD <= |data|
    case Send(peer, _) => peer in w.next
    case Deliver(m, head) => m in w.requests && m.peer in w.followers && WellSized(m, head)
    case Return(a, _) => a in w.responses && a.peer in w.next
    case LeaderServe => true
    case FollowerServe(peer) => peer in w.followers
  }

  function DoSend(w: World, peer: Peer, cut: nat): (r: World)
    requires peer in w.next
  {
    w.(next := w.next[peer := SendFrom(w.leader, w.next[peer])],
       requests := w.requests + {Ask(w.leader, peer, w.next[peer], cut)})
  }

  function DoReturn(w: World, a: Response, cut: nat): (r: World)
    requires a.peer in w.next
  {
    var u := w.(next := w.next[a.peer := a.next],
                leader := if a.accept && 0 < a.next then Commit(w.leader, a.next - 1) else w.leader);
    if CatchUp(u.leader, a) then DoSend(u, a.peer, cut) else u
  }

  function Do(w: World, t: Step): (r: World)
    requires Legal(w, t)
  {
    match t
    case Append(data) => w.(leader := w.leader.(log := w.leader.log + [data]))
    case Send(peer, cut) => DoSend(w, peer, cut)
    case Deliver(m, head) =>
      w.(followers := w.followers[m.peer := Receive(w.followers[m.peer], m, head)],
         responses := w.responses + {Answer(w.followers[m.peer], m)})
    case Return(a, cut) => DoReturn(w, a, cut)
    case LeaderServe => w.(leader := Serve(w.leader))
    case FollowerServe(peer) => w.(followers := w.followers[peer := Serve(w.followers[peer])])
  }

  // ---------------------------------------------------------------- prefixes

  ghost predicate FollowerOk(w: World, p: Peer) {
    p in w.followers ==> Follows(w.followers[p].log, w.leader.log)
  }

  ghost predicate RequestOk(w: World, m: Request) {
    m in w.requests ==> m.peer in w.followers && Carries(m, w.leader.log)
  }

  ghost predicate ResponseOk(w: World, a: Response) {
    a in w.responses ==> a.peer in w.followers && 0 < a.next <= |w.followers[a.peer].log| + 1
  }

  ghost predicate NextOk(w: World, p: Peer) {
    p in w.next ==> w.next[p] <= |w.leader.log| + 1
  }

  ghost predicate Inv(w: World) {
    && w.next.Keys == w.followers.Keys
    && (forall i {:trigger w.leader.log[i]} :: 0 <= i < |w.leader.log| ==> HEAD <= |w.leader.log[i]|)
    && (forall p {:trigger FollowerOk(w, p)} :: FollowerOk(w, p))
    && (forall p {:trigger NextOk(w, p)} :: NextOk(w, p))
    && (forall m {:trigger RequestOk(w, m)} :: RequestOk(w, m))
    && (forall a {:trigger ResponseOk(w, a)} :: ResponseOk(w, a))
  }

  lemma AppendKeeps(w: World, data: Rec)
    requires Inv(w) && Legal(w, Append(data))
    ensures Inv(Do(w, Append(data)))
  {
    var u := Do(w, Append(data));
    forall p ensures FollowerOk(u, p) { assert FollowerOk(w, p); }
    forall p ensures NextOk(u, p) { assert NextOk(w, p); }
    forall m ensures RequestOk(u, m) {
      assert RequestOk(w, m);
      if m in w.requests { LeaderGrows(m, w.leader.log, [data]); }
    }
    forall a ensures ResponseOk(u, a) { assert ResponseOk(w, a); }
  }

  lemma SendKeeps(w: World, peer: Peer, cut: nat)
    requires Inv(w) && peer in w.next
    ensures Inv(DoSend(w, peer, cut))
  {
    var u := DoSend(w, peer, cut);
    assert NextOk(w, peer);
    AskCarries(w.leader, peer, w.next[peer], cut);
    forall p ensures FollowerOk(u, p) { assert FollowerOk(w, p); }
    forall p ensures NextOk(u, p) { assert NextOk(w, p); }
    forall m ensures RequestOk(u, m) { assert RequestOk(w, m); }
    forall a ensures ResponseOk(u, a) { assert ResponseOk(w, a); }
  }

  lemma DeliverKeeps(w: World, m: Request, head: seq<byte>)
    requires Inv(w) && Legal(w, Deliver(m, head))
    ensures Inv(Do(w, Deliver(m, head)))
    ensures w.followers[m.peer].log <= Do(w, Deliver(m, head)).followers[m.peer].log
  {
    var u := Do(w, Deliver(m, head));
    assert RequestOk(w, m) && FollowerOk(w, m.peer);
    ReceiveFollows(w.followers[m.peer], m, head, w.leader.log);
    forall p ensures FollowerOk(u, p) { assert FollowerOk(w, p); }
    forall p ensures NextOk(u, p) { assert NextOk(w, p); }
    forall n ensures RequestOk(u, n) { assert RequestOk(w, n); }
    forall a ensures ResponseOk(u, a) { assert ResponseOk(w, a); }
  }

  lemma ReturnKeeps(w: World, a: Response, cut: nat)
    requires Inv(w) && Legal(w, Return(a, cut))
    ensures Inv(Do(w, Return(a, cut)))
  {
    assert ResponseOk(w, a) && FollowerOk(w, a.peer);
    var u := w.(next := w.next[a.peer := a.next],
                leader := if a.accept && 0 < a.next then Commit(w.leader, a.next - 1) else w.leader);
    forall p ensures FollowerOk(u, p) { assert FollowerOk(w, p); }
    forall p ensures NextOk(u, p) { assert NextOk(w, p); }
    forall m ensures RequestOk(u, m) { assert RequestOk(w, m); }
    forall b ensures ResponseOk(u, b) { assert ResponseOk(w, b); }
    assert Inv(u);
    if CatchUp(u.leader, a) { SendKeeps(u, a.peer, cut); }
  }

  lemma ServeKeeps(w: World, t: Step)
    requires Inv(w) && Legal(w, t) && (t.LeaderServe? || t.FollowerServe?)
    ensures Inv(Do(w, t))
  {
    var u := Do(w, t);
    forall p ensures FollowerOk(u, p) { assert FollowerOk(w, p); }
    forall p ensures NextOk(u, p) { assert NextOk(w, p); }
    forall m ensures RequestOk(u, m) { assert RequestOk(w, m); }
    forall a ensures ResponseOk(u, a) { assert ResponseOk(w, a); }
  }

  lemma StepKeeps(w: World, t: Step)
    requires Inv(w) && Legal(w, t)
    ensures Inv(Do(w, t))
  {
    match t
    case Append(data) => AppendKeeps(w, data);
    case Send(peer, cut) => SendKeeps(w, peer, cut);
    case Deliver(m, head) => DeliverKeeps(w, m, head);
    case Return(a, cut) => ReturnKeeps(w, a, cut);
    case LeaderServe => ServeKeeps(w, t);
    case FollowerServe(_) => ServeKeeps(w, t);
  }

  // ---------------------------------------------------------------- commits

  /** The request does not ask for commits beyond what its receiver will have. */
  ghost predicate Reaches(w: World, m: Request) {
    m in w.requests ==>
      && m.peer in w.followers
      && (m.commit <= m.next - 1 + |m.entries| || m.commit <= |w.followers[m.peer].log|)
  }

  ghost predicate CommitsAt(w: World, p: Peer) {
    p in w.followers ==> Within(w.followers[p], |w.followers[p].log|)
  }

  /** All commits stay inside the logs they are about. */
  ghost predicate CommitInv(w: World) {
    && Within(w.leader, |w.leader.log|)
    && (forall p {:trigger CommitsAt(w, p)} :: CommitsAt(w, p))
    && (forall m {:trigger Reaches(w, m)} :: Reaches(w, m))
  }

  /** With a single follower the leader's commits are inside the follower's log. */
  ghost predicate LeaderBehind(w: World, p: Peer) {
    p in w.followers && Within(w.leader, |w.followers[p].log|)
  }

  /** The step sends everything up to the end of the log. */
  predicate Whole(w: World, t: Step) {
    (t.Send? || t.Return?) ==> |w.leader.log| <= t.cut
  }

  lemma SendReaches(w: World, peer: Peer, cut: nat)
    requires Inv(w) && CommitInv(w) && peer in w.next
    requires |w.leader.log| <= cut || w.leader.quick <= |w.followers[peer].log|
    ensures CommitInv(DoSend(w, peer, cut))
  {
    var u := DoSend(w, peer, cut);
    assert NextOk(w, peer);
    forall p ensures CommitsAt(u, p) { assert CommitsAt(w, p); }
    forall m ensures Reaches(u, m) { assert Reaches(w, m); }
  }

  lemma DeliverReaches(w: World, m: Request, head: seq<byte>)
    requires Inv(w) && CommitInv(w) && Legal(w, Deliver(m, head))
    ensures CommitInv(Do(w, Deliver(m, head)))
  {
    var u := Do(w, Deliver(m, head));
    var r, s := w.followers[m.peer], u.followers[m.peer];
    DeliverKeeps(w, m, head);
    assert CommitsAt(w, m.peer) && Reaches(w, m);
    if NextIndex(r) == m.next {
      WritesLand(r, m, head, |m.entries|);
      DeliverWithin(r, m, head);
    }
    forall p ensures CommitsAt(u, p) { assert CommitsAt(w, p); }
    forall n ensures Reaches(u, n) { assert Reaches(w, n); }
  }

  lemma DeliverWithin(r: Replica, m: Request, head: seq<byte>)
    requires WellSized(m, head) && NextIndex(r) == m.next && Within(r, |r.log|)
    requires m.commit <= m.next - 1 + |m.entries| || m.commit <= |r.log|
    ensures var s := Receive(r, m, head); Within(s, |s.log|)
  {
    ReceiveWithin(r, m, head);
  }

  lemma ReturnReaches(w: World, a: Response, cut: nat)
    requires Inv(w) && CommitInv(w) && Legal(w, Return(a, cut))
    requires |w.leader.log| <= cut || LeaderBehind(w, a.peer)
    ensures CommitInv(Do(w, Return(a, cut)))
  {
    assert ResponseOk(w, a) && FollowerOk(w, a.peer);
    var u := w.(next := w.next[a.peer := a.next],
                leader := if a.accept && 0 < a.next then Commit(w.leader, a.next - 1) else w.leader);
    CommitWithin(w.leader, a.next - 1, |w.leader.log|);
    forall p ensures CommitsAt(u, p) { assert CommitsAt(w, p); }
    forall m ensures Reaches(u, m) { assert Reaches(w, m); }
    assert Inv(u) by {
      forall p ensures FollowerOk(u, p) { assert FollowerOk(w, p); }
      forall p ensures NextOk(u, p) { assert NextOk(w, p); }
      forall m ensures RequestOk(u, m) { assert RequestOk(w, m); }
      forall b ensures ResponseOk(u, b) { assert ResponseOk(w, b); }
    }
    if CatchUp(u.leader, a) { SendReaches(u, a.peer, cut); }
  }

  lemma QuietReaches(w: World, t: Step)
    requires CommitInv(w) && Legal(w, t) && (t.Append? || t.LeaderServe? || t.FollowerServe?)
    ensures CommitInv(Do(w, t))
  {
    var u := Do(w, t);
    ServeWithin(w.leader, |w.leader.log|);
    forall p ensures CommitsAt(u, p) {
      assert CommitsAt(w, p);
      if p in w.followers { ServeWithin(w.followers[p], |w.followers[p].log|); }
    }
    forall m ensures Reaches(u, m) { assert Reaches(w, m); }
  }

  /** A step that sends whole, or to the only follower, keeps all commits inside the logs. */
  lemma CommitStep(w: World, t: Step, p: Peer)
    requires Inv(w) && CommitInv(w) && Legal(w, t)
    requires Whole(w, t) || (w.followers.Keys == {p} && LeaderBehind(w, p))
    ensures CommitInv(Do(w, t))
  {
    match t
    case Send(peer, cut) =>
      assert !Whole(w, t) ==> peer == p;
      SendReaches(w, peer, cut);
    case Deliver(m, head) => DeliverReaches(w, m, head);
    case Return(a, cut) =>
      assert !Whole(w, t) ==> a.peer == p;
      ReturnReaches(w, a, cut);
    case _ => QuietReaches(w, t);
  }

  /** With a single follower the leader stays behind it. */
  lemma BehindStep(w: World, t: Step, p: Peer)
    requires Inv(w) && Legal(w, t) && w.followers.Keys == {p} && LeaderBehind(w, p)
    ensures var u := Do(w, t); u.followers.Keys == {p} && LeaderBehind(u, p)
  {
    match t
    case Deliver(m, head) => assert m.peer == p; DeliverKeeps(w, m, head);
    case Return(a, _) => assert ResponseOk(w, a); CommitWithin(w.leader, a.next - 1, |w.followers[p].log|);
    case LeaderServe => ServeWithin(w.leader, |w.followers[p].log|);
    case _ =>
  }

  // ---------------------------------------------------------------- runs

  ghost predicate Run(ws: seq<World>, ts: seq<Step>, peers: set<Peer>) {
    Path(ws, ts) && ws[0] == Init(peers)
  }

  ghost predicate Path(ws: seq<World>, ts: seq<Step>) {
    |ws| == |ts| + 1 && forall i {:trigger StepOf(ws, ts, i)} :: 0 <= i < |ts| ==> StepOf(ws, ts, i)
  }

  ghost predicate StepOf(ws: seq<World>, ts: seq<Step>, i: nat) {
    i < |ts| && i + 1 < |ws| && Legal(ws[i], ts[i]) && ws[i + 1] == Do(ws[i], ts[i])
  }

  /** In every state of every run each follower's log is a prefix of the leader's. */
  lemma {:induction false} AlwaysPrefix(ws: seq<World>, ts: seq<Step>, peers: set<Peer>, i: nat)
    requires Run(ws, ts, peers) && i <= |ts|
    ensures Inv(ws[i])
    ensures forall p :: p in ws[i].followers ==> Follows(ws[i].followers[p].log, ws[i].leader.log)
  {
    if i == 0 {
      var w := ws[0];
      assert w.next.Keys == w.followers.Keys;
      forall p ensures FollowerOk(w, p) && NextOk(w, p) {}
      forall m ensures RequestOk(w, m) {}
      forall a ensures ResponseOk(w, a) {}
    } else {
      AlwaysPrefix(ws, ts, peers, i - 1);
      assert StepOf(ws, ts, i - 1);
      StepKeeps(ws[i - 1], ts[i - 1]);
    }
    forall p | p in ws[i].followers ensures Follows(ws[i].followers[p].log, ws[i].leader.log) {
      assert FollowerOk(ws[i], p);
    }
  }

  /** Whatever request reaches a follower, every write lands exactly at its next index. */
  lemma WriteAtNext(w: World, m: Request, head: seq<byte>, n: nat)
    requires Inv(w) && Legal(w, Deliver(m, head)) && n < |m.entries|
    ensures var r := w.followers[m.peer];
            NextIndex(r) == m.next ==> |WriteAll(r.log, m.next, m.entries, head, n)| + 1 == m.next + n
  {
    if NextIndex(w.followers[m.peer]) == m.next { WritesLand(w.followers[m.peer], m, head, n); }
  }

  lemma InitCommits(peers: set<Peer>)
    ensures CommitInv(Init(peers))
  {
    var w := Init(peers);
    forall p ensures CommitsAt(w, p) {}
    forall m ensures Reaches(w, m) {}
  }

  /**
   With one follower, wherever the reads of the leader's log are cut, no commit index on either
   side ever exceeds the follower's log.
   */
  lemma {:induction false} OneFollowerCommits(ws: seq<World>, ts: seq<Step>, p: Peer, i: nat)
    requires Run(ws, ts, {p}) && i <= |ts|
    ensures CommitInv(ws[i]) && ws[i].followers.Keys == {p} && LeaderBehind(ws[i], p)
  {
    if i == 0 {
      InitCommits({p});
      assert ws[0].followers.Keys == {p};
    } else {
      OneFollowerCommits(ws, ts, p, i - 1);
      AlwaysPrefix(ws, ts, {p}, i - 1);
      assert StepOf(ws, ts, i - 1);
      CommitStep(ws[i - 1], ts[i - 1], p);
      BehindStep(ws[i - 1], ts[i - 1], p);
    }
  }

  /** With any number of followers, when no send is cut short, each commit stays inside its own log. */
  lemma {:induction false} WholeSendsCommit(ws: seq<World>, ts: seq<Step>, peers: set<Peer>, i: nat)
    requires Run(ws, ts, peers) && i <= |ts| && forall k :: 0 <= k < |ts| ==> Whole(ws[k], ts[k])
    ensures CommitInv(ws[i])
  {
    if i == 0 {
      InitCommits(peers);
    } else {
      WholeSendsCommit(ws, ts, peers, i - 1);
      AlwaysPrefix(ws, ts, peers, i - 1);
      assert StepOf(ws, ts, i - 1);
      CommitStep(ws[i - 1], ts[i - 1], 0);
    }
  }

  // ---------------------------------------------------------------- two followers and a cut

  /** The reads of the leader's log stop at the end of the file in which they start; one file ends at `e`. */
  predicate StopsAt(w: World, t: Step, e: nat) {
    match t
    case Send(peer, cut) =>
      peer in w.next && if SendFrom(w.leader, w.next[peer]) <= e then cut == e else |w.leader.log| <= cut
    case Return(a, cut) => if a.next <= e then cut == e else |w.leader.log| <= cut
    case _ => true
  }

  ghost predicate CutPath(ws: seq<World>, ts: seq<Step>, e: nat) {
    Path(ws, ts) && forall i {:trigger StopsAt(ws[i], ts[i], e)} :: 0 <= i < |ts| ==> StopsAt(ws[i], ts[i], e)
  }

  lemma Joined(ws: seq<World>, ts: seq<Step>, vs: seq<World>, ss: seq<Step>, e: nat)
    requires CutPath(ws, ts, e) && CutPath(vs, ss, e) && ws[|ts|] == vs[0]
    ensures CutPath(ws + vs[1..], ts + ss, e) && (ws + vs[1..])[|ts + ss|] == vs[|ss|] && (ws + vs[1..])[0] == ws[0]
  {
    forall i | 0 <= i < |ts + ss|
      ensures StepOf(ws + vs[1..], ts + ss, i) && StopsAt((ws + vs[1..])[i], (ts + ss)[i], e)
    {
      if i < |ts| {
        assert StepOf(ws, ts, i) && StopsAt(ws[i], ts[i], e);
      } else {
        assert StepOf(vs, ss, i - |ts|) && StopsAt(vs[i - |ts|], ss[i - |ts|], e);
      }
    }
  }

  /** Some run whose reads stop at `e` leads from `w` to `u`. */
  ghost predicate Leads(w: World, u: World, e: nat) {
    exists ws, ts :: CutPath(ws, ts, e) && ws[0] == w && ws[|ts|] == u
  }

  lemma OneStep(w: World, t: Step, u: World, e: nat)
    requires Legal(w, t) && StopsAt(w, t, e) && u == Do(w, t)
    ensures Leads(w, u, e)
  {
    var ws, ts := [w, u], [t];
    assert StepOf(ws, ts, 0);
    assert CutPath(ws, ts, e) && ws[|ts|] == u;
  }

  lemma Chained(w: World, u: World, x: World, e: nat)
    requires Leads(w, u, e) && Leads(u, x, e)
    ensures Leads(w, x, e)
  {
    var ws, ts :| CutPath(ws, ts, e) && ws[0] == w && ws[|ts|] == u;
    var vs, ss :| CutPath(vs, ss, e) && vs[0] == u && vs[|ss|] == x;
    Joined(ws, ts, vs, ss, e);
  }

  lemma {:induction false} Appends(w: World, rs: seq<Rec>, u: World, e: nat)
    requires forall i :: 0 <= i < |rs| ==> HEAD <= |rs[i]|
    requires u == w.(leader := w.leader.(log := w.leader.log + rs))
    ensures Leads(w, u, e)
  {
    if rs == [] {
      assert w.leader.log + rs == w.leader.log;
      assert CutPath([w], [], e);
    } else {
      var n := |rs| - 1;
      var v := w.(leader := w.leader.(log := w.leader.log + rs[..n]));
      Appends(w, rs[..n], v, e);
      assert w.leader.log + rs[..n] + [rs[n]] == w.leader.log + rs;
      OneStep(v, Append(rs[n]), u, e);
      Chained(w, v, u, e);
    }
  }

  /** Both followers are at index 1 and the leader, which has all its records, has just asked the first. */
  lemma Stage1(log: seq<Rec>, e: nat) returns (w: World)
    requires 0 < e <= |log| && forall i :: 0 <= i < |log| ==> HEAD <= |log[i]|
    ensures Leads(Init({1, 2}), w, e) && FirstHas(w, log, 0, Request(1, 1, 0, log[..e]), [])
  {
    var w0 := Init({1, 2});
    var w1 := Do(w0, Send(1, e));
    OneStep(w0, Send(1, e), w1, e);
    var w2 := Do(w1, Send(2, e));
    OneStep(w1, Send(2, e), w2, e);
    Chained(w0, w1, w2, e);
    var w3 := w2.(leader := Replica(log, 0, []));
    assert w2.leader.log + log == log;
    Appends(w2, log, w3, e);
    Chained(w0, w2, w3, e);
    w := Do(w3, Send(1, e));
    OneStep(w3, Send(1, e), w, e);
    Chained(w0, w3, w, e);
  }

  /** The first follower has `n` records, the request for the next ones is under way, and nothing is applied. */
  ghost predicate FirstHas(w: World, log: seq<Rec>, n: nat, m: Request, queue: seq<nat>) {
    && w.leader == Replica(log, 0, queue) && n <= |log|
    && 1 in w.next && 2 in w.next && w.next[2] == 1
    && 1 in w.followers && 2 in w.followers && w.followers[2] == Replica([], 0, [])
    && |w.followers[1].log| == n && m in w.requests
    && m.peer == 1 && m.next == n + 1 && m.commit == 0
  }

  /** The first follower takes the request. */
  lemma Taken(w: World, log: seq<Rec>, n: nat, m: Request, queue: seq<nat>, head: seq<byte>, u: World)
    requires FirstHas(w, log, n, m, queue) && WellSized(m, head) && u == Do(w, Deliver(m, head))
    ensures u.leader == w.leader && u.next == w.next && 1 in u.followers && 2 in u.followers
    ensures u.followers[2] == w.followers[2] && |u.followers[1].log| == n + |m.entries|
    ensures Response(1, true, n + |m.entries| + 1, 0) in u.responses
  {
    WritesLand(w.followers[1], m, head, |m.entries|);
  }

  /** The leader hears of it and sends what comes next. */
  lemma Heard(u: World, log: seq<Rec>, k: nat, queue: seq<nat>, x: World, e: nat)
    requires u.leader == Replica(log, 0, queue) && 0 < k <= |log|
    requires 1 in u.next && 1 in u.followers && |u.followers[1].log| == k
    requires 2 in u.next && u.next[2] == 1 && 2 in u.followers && u.followers[2] == Replica([], 0, [])
    requires Response(1, true, k + 1, 0) in u.responses && e <= k
    requires x == DoReturn(u, Response(1, true, k + 1, 0), |log|)
    ensures Leads(u, x, e) && FirstHas(x, log, k, Request(1, k + 1, 0, log[k..]), queue + [k])
  {
    assert log[k..|log|] == log[k..];
    assert Ask(Replica(log, 0, queue + [k]), 1, k + 1, |log|) == Request(1, k + 1, 0, log[k..]);
    OneStep(u, Return(Response(1, true, k + 1, 0), |log|), x, e);
  }

  lemma Stage2(w: World, log: seq<Rec>, n: nat, m: Request, queue: seq<nat>, head: seq<byte>, e: nat) returns (x: World)
    requires FirstHas(w, log, n, m, queue) && WellSized(m, head) && 0 < |m.entries| && e <= n + |m.entries| <= |log|
    ensures Leads(w, x, e)
    ensures var k := n + |m.entries|; FirstHas(x, log, k, Request(1, k + 1, 0, log[k..]), queue + [k])
  {
    var k := n + |m.entries|;
    var u := Do(w, Deliver(m, head));
    Taken(w, log, n, m, queue, head, u);
    OneStep(w, Deliver(m, head), u, e);
    x := DoReturn(u, Response(1, true, k + 1, 0), |log|);
    Heard(u, log, k, queue, x, e);
    Chained(w, u, x, e);
  }

  /** The leader applies what the first follower has. */
  lemma Stage3(w: World, log: seq<Rec>, m: Request, k: nat, e: nat, x: World)
    requires FirstHas(w, log, |log|, m, [k, |log|]) && x == w.(leader := Replica(log, |log|, []))
    ensures Leads(w, x, e)
  {
    var u := w.(leader := Replica(log, k, [|log|]));
    OneStep(w, LeaderServe, u, e);
    OneStep(u, LeaderServe, x, e);
    Chained(w, u, x, e);
  }

  lemma Overcommitted(r: Replica, m: Request, head: seq<byte>, n: nat)
    requires r == Replica([], 0, []) && WellSized(m, head) && m.next == 1 && m.commit == n && |m.entries| < n
    ensures !Within(Receive(r, m, head), |Receive(r, m, head).log|)
  {
    ReceiveWithin(r, m, head);
  }

  /** Then the second follower is told to commit everything and sent only the first file. */
  lemma Stage4(w: World, log: seq<Rec>, head: seq<byte>, e: nat) returns (x: World)
    requires w.leader == Replica(log, |log|, []) && 2 in w.next && w.next[2] == 1 && 0 < e < |log| && |head| == HEAD
    requires 2 in w.followers && w.followers[2] == Replica([], 0, []) && forall i :: 0 <= i < |log| ==> HEAD <= |log[i]|
    ensures Leads(w, x, e) && x.leader == w.leader
    ensures 2 in x.followers && !Within(x.followers[2], |x.followers[2].log|)
  {
    var m := Request(2, 1, |log|, log[..e]);
    var u := Do(w, Send(2, e));
    OneStep(w, Send(2, e), u, e);
    Overcommitted(u.followers[2], m, head, |log|);
    x := Do(u, Deliver(m, head));
    OneStep(u, Deliver(m, head), x, e);
    Chained(w, u, x, e);
  }

  /** The first follower gets everything, in two requests. */
  lemma Served(log: seq<Rec>, head: seq<byte>, e: nat, w: World) returns (x: World)
    requires 0 < e < |log| && |head| == HEAD && forall i :: 0 <= i < |log| ==> HEAD <= |log[i]|
    requires FirstHas(w, log, 0, Request(1, 1, 0, log[..e]), [])
    ensures Leads(w, x, e) && FirstHas(x, log, |log|, Request(1, |log| + 1, 0, log[|log|..]), [e, |log|])
  {
    var u := Stage2(w, log, 0, Request(1, 1, 0, log[..e]), [], head, e);
    assert [] + [e] == [e] && [e] + [|log|] == [e, |log|];
    x := Stage2(u, log, e, Request(1, e + 1, 0, log[e..]), [e], head, e);
    Chained(w, u, x, e);
  }

  /** The stages one after the other. */
  lemma Stages(log: seq<Rec>, head: seq<byte>, e: nat) returns (x: World)
    requires 0 < e < |log| && |head| == HEAD && forall i :: 0 <= i < |log| ==> HEAD <= |log[i]|
    ensures Leads(Init({1, 2}), x, e) && x.leader.log == log
    ensures 2 in x.followers && !Within(x.followers[2], |x.followers[2].log|)
  {
    var w := Stage1(log, e);
    var v := Served(log, head, e, w);
    Chained(Init({1, 2}), w, v, e);
    var y := v.(leader := Replica(log, |log|, []));
    Stage3(v, log, Request(1, |log| + 1, 0, log[|log|..]), e, e, y);
    Chained(Init({1, 2}), v, y, e);
    x := Stage4(y, log, head, e);
    Chained(Init({1, 2}), y, x, e);
  }

  /**
   Whatever records a file ends between: with every read stopping at the end of its file, the
   second of two followers can be made to commit past its log.
   */
  lemma CutSendOvercommits(before: seq<Rec>, after: seq<Rec>, head: seq<byte>) returns (ws: seq<World>, ts: seq<Step>)
    requires before != [] && after != [] && |head| == HEAD
    requires forall r :: r in before || r in after ==> HEAD <= |r|
    ensures Run(ws, ts, {1, 2}) && CutPath(ws, ts, |before|) && ws[|ts|].leader.log == before + after
    ensures var w := ws[|ts|]; 2 in w.followers && !Within(w.followers[2], |w.followers[2].log|)
  {
    var log, e := before + after, |before|;
    assert forall i :: 0 <= i < |log| ==> log[i] in before || log[i] in after;
    var x := Stages(log, head, e);
    ws, ts :| CutPath(ws, ts, e) && ws[0] == Init({1, 2}) && ws[|ts|] == x;
  }
}
