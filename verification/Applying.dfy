/** What the commit thread of a replica hands over in the course of a run. */
module Applying {
  import opened Common
  import opened Bytes
  import opened Replication
  import opened ReplicationRun

  /** Between two servings the log only grows and nothing is applied. */
  ghost predicate Grows(r: Replica, s: Replica) {
    r.log <= s.log && s.quick == r.quick
  }

  /** The states of one replica; `served[i]` says that its commit thread acts in step `i`. */
  ghost predicate History(rs: seq<Replica>, served: seq<bool>) {
    && |rs| == |served| + 1
    && forall i {:trigger StepAt(rs, served, i)} :: 0 <= i < |served| ==> StepAt(rs, served, i)
  }

  ghost predicate StepAt(rs: seq<Replica>, served: seq<bool>, i: nat) {
    && i < |served| && i + 1 < |rs|
    && if served[i] then rs[i + 1] == Serve(rs[i]) else Grows(rs[i], rs[i + 1])
  }

  /** Everything handed over in the first `n` steps. */
  ghost function HandedBy(rs: seq<Replica>, served: seq<bool>, n: nat): (s: seq<Option<Rec>>)
    requires n <= |served| && n <= |rs|
  {
    if n == 0 then []
    else HandedBy(rs, served, n - 1) + if served[n - 1] then Handed(rs[n - 1]) else []
  }

  predicate StepsBack(r: Replica) {
    r.queue != [] && r.queue[0] < r.quick
  }

  function Somes(log: seq<Rec>): (s: seq<Option<Rec>>)
    ensures |s| == |log| && forall i :: 0 <= i < |log| ==> s[i] == Some(log[i])
  {
    seq(|log|, i requires 0 <= i < |log| => Some(log[i]))
  }

  /** What has been handed over is the applied part of the log. */
  ghost predicate InStep(rs: seq<Replica>, served: seq<bool>, n: nat) {
    && n <= |served| && n < |rs| && rs[n].quick <= |rs[n].log|
    && HandedBy(rs, served, n) == Somes(rs[n].log[..rs[n].quick])
  }

  ghost predicate Inside(rs: seq<Replica>) {
    forall i {:trigger rs[i]} :: 0 <= i < |rs| ==> Within(rs[i], |rs[i].log|)
  }

  /** Serving a request that does not step back hands over the next stretch of the log. */
  lemma ServeHands(r: Replica)
    requires Within(r, |r.log|)
    ensures var s := Serve(r);
            Somes(r.log[..r.quick]) + Handed(r) == Somes(s.log[..s.quick]) <==> !StepsBack(r)
  {
    var s := Serve(r);
    if r.queue != [] {
      if StepsBack(r) {
        assert |Somes(r.log[..r.quick]) + Handed(r)| > |Somes(s.log[..s.quick])|;
      } else {
        StretchIs(r, r.queue[0]);
        assert r.log[..s.quick] == r.log[..r.quick] + r.log[r.quick..s.quick];
      }
    }
  }

  lemma StretchIs(r: Replica, to: nat)
    requires r.queue != [] && r.queue[0] == to && r.quick <= to <= |r.log|
    ensures Handed(r) == Somes(r.log[r.quick..to])
  {
  }

  lemma InStepNext(rs: seq<Replica>, served: seq<bool>, n: nat)
    requires History(rs, served) && Inside(rs) && n < |served| && InStep(rs, served, n)
    ensures InStep(rs, served, n + 1) <==> (served[n] ==> !StepsBack(rs[n]))
  {
    assert StepAt(rs, served, n);
    var r, s := rs[n], rs[n + 1];
    assert Within(r, |r.log|) && Within(s, |s.log|);
    if served[n] {
      ServeHands(r);
    } else {
      assert r.log[..r.quick] == s.log[..r.quick];
    }
  }

  /**
   The records handed over so far are, at every moment, exactly the applied part of the log, each
   once and in order, if and only if no request that is served steps back.
   */
  lemma {:induction false} AppliesInOrder(rs: seq<Replica>, served: seq<bool>, n: nat)
    requires History(rs, served) && Inside(rs) && rs[0].quick == 0 && n <= |served|
    ensures (forall i :: 0 <= i <= n ==> InStep(rs, served, i))
            <==> (forall i :: 0 <= i < n && served[i] ==> !StepsBack(rs[i]))
  {
    if n == 0 {
      assert rs[0].log[..0] == [];
      assert InStep(rs, served, 0);
    } else {
      AppliesInOrder(rs, served, n - 1);
      if forall i :: 0 <= i <= n - 1 ==> InStep(rs, served, i) {
        InStepNext(rs, served, n - 1);
      }
    }
  }

  // ---------------------------------------------------------------- in a run of the protocol

  ghost function Replicas(ws: seq<World>, p: Peer): (rs: seq<Replica>)
    requires forall i :: 0 <= i < |ws| ==> p in ws[i].followers
    ensures |rs| == |ws| && forall i :: 0 <= i < |ws| ==> rs[i] == ws[i].followers[p]
  {
    seq(|ws|, i requires 0 <= i < |ws| => ws[i].followers[p])
  }

  ghost function Servings(ts: seq<Step>, p: Peer): (served: seq<bool>)
    ensures |served| == |ts| && forall i :: 0 <= i < |ts| ==> (served[i] <==> ts[i] == FollowerServe(p))
  {
    seq(|ts|, i requires 0 <= i < |ts| => ts[i] == FollowerServe(p))
  }

  lemma FollowerStep(w: World, t: Step, p: Peer)
    requires Inv(w) && Legal(w, t) && p in w.followers
    ensures var u := Do(w, t);
            && p in u.followers
            && if t == FollowerServe(p) then u.followers[p] == Serve(w.followers[p]) else Grows(w.followers[p], u.followers[p])
  {
    if t.Deliver? && t.m.peer == p { DeliverKeeps(w, t.m, t.head); }
  }

  lemma {:induction false} FollowerStays(ws: seq<World>, ts: seq<Step>, peers: set<Peer>, p: Peer, i: nat)
    requires Run(ws, ts, peers) && p in peers && i <= |ts|
    ensures p in ws[i].followers
  {
    if i > 0 {
      FollowerStays(ws, ts, peers, p, i - 1);
      assert StepOf(ws, ts, i - 1);
    }
  }

  lemma FollowerHistory(ws: seq<World>, ts: seq<Step>, peers: set<Peer>, p: Peer)
    requires Run(ws, ts, peers) && p in peers
    ensures forall i :: 0 <= i < |ws| ==> p in ws[i].followers
    ensures History(Replicas(ws, p), Servings(ts, p)) && Replicas(ws, p)[0].quick == 0
  {
    forall i | 0 <= i < |ws| ensures p in ws[i].followers { FollowerStays(ws, ts, peers, p, i); }
    forall i | 0 <= i < |ts| ensures StepAt(Replicas(ws, p), Servings(ts, p), i) {
      AlwaysPrefix(ws, ts, peers, i);
      assert StepOf(ws, ts, i);
      FollowerStep(ws[i], ts[i], p);
    }
  }

  /**
   In every run whose commits stay inside the logs: if no request that the commit thread of a
   follower serves steps back, then at every moment it has handed over a prefix of the records of
   the leader, each once and in order, apart from the first bytes of each.
   */
  lemma FollowerApplies(ws: seq<World>, ts: seq<Step>, peers: set<Peer>, p: Peer, n: nat)
    requires Run(ws, ts, peers) && p in peers && n <= |ts|
    requires forall i :: 0 <= i < |ws| ==> CommitInv(ws[i])
    requires forall i :: 0 <= i < |ts| && ts[i] == FollowerServe(p) ==> p in ws[i].followers && !StepsBack(ws[i].followers[p])
    ensures forall i :: 0 <= i < |ws| ==> p in ws[i].followers
    ensures var h := HandedBy(Replicas(ws, p), Servings(ts, p), n);
            && |h| == ws[n].followers[p].quick <= |ws[n].leader.log|
            && forall k :: 0 <= k < |h| ==> h[k].Some? && SameRecord(h[k].value, ws[n].leader.log[k])
  {
    FollowerHistory(ws, ts, peers, p);
    var rs, served := Replicas(ws, p), Servings(ts, p);
    forall i | 0 <= i < |rs| ensures Within(rs[i], |rs[i].log|) { assert CommitsAt(ws[i], p); }
    AppliesInOrder(rs, served, |ts|);
    assert InStep(rs, served, n);
    AlwaysPrefix(ws, ts, peers, n);
    assert FollowerOk(ws[n], p);
    var f := ws[n].followers[p];
    forall k | 0 <= k < f.quick ensures SameRecord(f.log[k], ws[n].leader.log[k]) {}
  }

  // ---------------------------------------------------------------- the leader

  ghost function Leaders(ws: seq<World>): (rs: seq<Replica>)
    ensures |rs| == |ws| && forall i :: 0 <= i < |ws| ==> rs[i] == ws[i].leader
  {
    seq(|ws|, i requires 0 <= i < |ws| => ws[i].leader)
  }

  ghost function LeaderServings(ts: seq<Step>): (served: seq<bool>)
    ensures |served| == |ts| && forall i :: 0 <= i < |ts| ==> (served[i] <==> ts[i].LeaderServe?)
  {
    seq(|ts|, i requires 0 <= i < |ts| => ts[i].LeaderServe?)
  }

  /** The same of the leader: it hands over its own log, each record once and in order, exactly if no request steps back. */
  lemma LeaderApplies(ws: seq<World>, ts: seq<Step>, peers: set<Peer>)
    requires Run(ws, ts, peers) && forall i :: 0 <= i < |ws| ==> CommitInv(ws[i])
    ensures (forall i :: 0 <= i <= |ts| ==> InStep(Leaders(ws), LeaderServings(ts), i))
            <==> (forall i :: 0 <= i < |ts| && ts[i].LeaderServe? ==> !StepsBack(ws[i].leader))
  {
    var rs, served := Leaders(ws), LeaderServings(ts);
    forall i | 0 <= i < |ts| ensures StepAt(rs, served, i) { assert StepOf(ws, ts, i); }
    assert Inside(rs);
    AppliesInOrder(rs, served, |ts|);
  }

  // ---------------------------------------------------------------- catching up

  /**
   A follower that refuses a request is asked again from its own next index, and this request is
   accepted if nothing else reaches the follower before it.
   */
  lemma RefusalIsAnswered(w: World, m: Request, head: seq<byte>, cut: nat)
    requires Inv(w) && Legal(w, Deliver(m, head)) && NextIndex(w.followers[m.peer]) != m.next
    ensures var r := w.followers[m.peer];
            var a := Answer(r, m);
            var u := Do(w, Deliver(m, head));
            && !a.accept && a.peer == m.peer && a in u.responses && u.followers[m.peer] == r && a.peer in u.next
            && var x, q := DoReturn(u, a, cut), Ask(w.leader, m.peer, NextIndex(r), cut);
               && q in x.requests && x.followers[m.peer] == r && q.next == NextIndex(r) && Answer(r, q).accept
  {
    assert RequestOk(w, m);
  }

  /** After a current answer the leader asks for more, unless the follower has everything and knows that it is committed. */
  lemma AnswerIsFollowed(w: World, a: Response, cut: nat)
    requires Inv(w) && Legal(w, Return(a, cut)) && a.peer in w.followers && a.next == NextIndex(w.followers[a.peer])
    ensures var x := Do(w, Return(a, cut));
            || Ask(x.leader, a.peer, a.next, cut) in x.requests
            || (a.accept && |w.followers[a.peer].log| == |w.leader.log| <= a.commit)
  {
    assert FollowerOk(w, a.peer);
  }

  /** A request that is accepted and whose read was not cut brings the follower up to date. */
  lemma AcceptedIsUpToDate(leader: Replica, r: Replica, p: Peer, next: nat, cut: nat, head: seq<byte>)
    requires |leader.log| <= cut && |r.log| <= |leader.log| && SendFrom(leader, next) == NextIndex(r)
    requires WellSized(Ask(leader, p, next, cut), head)
    ensures |Receive(r, Ask(leader, p, next, cut), head).log| == |leader.log|
  {
    var m := Ask(leader, p, next, cut);
    WritesLand(r, m, head, |m.entries|);
  }

  lemma AskWellSized(w: World, p: Peer, next: nat, cut: nat, head: seq<byte>)
    requires Inv(w) && next <= |w.leader.log| + 1 && |head| == HEAD
    ensures WellSized(Ask(w.leader, p, next, cut), head)
  {
    AskCarries(w.leader, p, next, cut);
  }

  /**
   Two round trips are enough: from any reachable state, a request to a follower, or the one that
   answers its refusal, brings its log to the leader's.
   */
  lemma TwoRoundsSync(w: World, p: Peer, cut: nat, head: seq<byte>)
    requires Inv(w) && p in w.next && |w.leader.log| <= cut && |head| == HEAD
    ensures var r, m := w.followers[p], Ask(w.leader, p, w.next[p], cut);
            && WellSized(m, head)
            && if Answer(r, m).accept then |Receive(r, m, head).log| == |w.leader.log|
               else
                 var q := Ask(w.leader, p, Answer(r, m).next, cut);
                 && CatchUp(w.leader, Answer(r, m)) && Receive(r, m, head) == r
                 && WellSized(q, head) && Answer(r, q).accept && |Receive(r, q, head).log| == |w.leader.log|
  {
    assert NextOk(w, p) && FollowerOk(w, p);
    var r, m := w.followers[p], Ask(w.leader, p, w.next[p], cut);
    AskWellSized(w, p, w.next[p], cut, head);
    if Answer(r, m).accept {
      AcceptedIsUpToDate(w.leader, r, p, w.next[p], cut, head);
    } else {
      AskWellSized(w, p, NextIndex(r), cut, head);
      AcceptedIsUpToDate(w.leader, r, p, NextIndex(r), cut, head);
    }
  }

  /** With everything sent and committed the exchange comes to rest: the answer to a request brings no further one. */
  lemma ComesToRest(w: World, p: Peer, cut: nat, head: seq<byte>)
    requires Inv(w) && p in w.next && |head| == HEAD && w.next[p] == |w.leader.log| + 1
    requires |w.followers[p].log| == |w.leader.log| == w.leader.quick
    ensures var m := Ask(w.leader, p, w.next[p], cut);
            var a := Answer(w.followers[p], m);
            && a.accept && a.commit == |w.leader.log|
            && DoReturn(w, a, cut) == w
  {
  }
}
