/**
 Replication of one bucket's log from a fixed leader to its followers.  Messages are never removed
 from the network, so each may be lost, delayed, delivered twice or out of order.
 */
module Replication {
  import opened Common
  import opened Bytes

  const HEAD := 18                           // bytes of a record that each server overwrites

  type Peer = nat
  type Rec = seq<byte>

  datatype Request = Request(peer: Peer, next: nat, commit: nat, entries: seq<Rec>)
  datatype Response = Response(peer: Peer, accept: bool, next: nat, commit: nat)

  /** One server's copy of the bucket: its log, the last applied index and the queued commits. */
  datatype Replica = Replica(log: seq<Rec>, quick: nat, queue: seq<nat>)

  function NextIndex(r: Replica): (n: nat) {
    |r.log| + 1
  }

  // ---------------------------------------------------------------- commits

  /** Ask the commit thread to apply up to `idx`. */
  function Commit(r: Replica, idx: nat): (s: Replica) {
    if idx <= r.quick then r else r.(queue := r.queue + [idx])
  }

  /** The commit thread serves its oldest request. */
  function Serve(r: Replica): (s: Replica) {
    if r.queue == [] then r else r.(quick := r.queue[0], queue := r.queue[1..])
  }

  // ---------------------------------------------------------------- the follower

  /** Write an entry at an index: behind the log, or after cutting the log back; never over a gap. */
  function WriteAt(log: seq<Rec>, idx: nat, data: Rec): (r: seq<Rec>)
    requires 0 < idx
  {
    if idx > |log| + 1 then log
    else if idx < |log| + 1 then log[..idx - 1] + [data]
    else log + [data]
  }

  /** The entry with its first bytes replaced. */
  function Rewrite(entry: Rec, head: seq<byte>): (r: Rec)
    requires |head| == HEAD <= |entry|
    ensures |r| == |entry|
  {
    head + entry[HEAD..]
  }

  /** Write the first `n` entries from index `next` on. */
  function WriteAll(log: seq<Rec>, next: nat, entries: seq<Rec>, head: seq<byte>, n: nat): (r: seq<Rec>)
    requires 0 < next && n <= |entries| && |head| == HEAD && forall i :: 0 <= i < |entries| ==> HEAD <= |entries[i]|
  {
    if n == 0 then log
    else WriteAt(WriteAll(log, next, entries, head, n - 1), next + (n - 1), Rewrite(entries[n - 1], head))
  }

  predicate WellSized(m: Request, head: seq<byte>) {
    0 < m.next && |head| == HEAD && forall i :: 0 <= i < |m.entries| ==> HEAD <= |m.entries[i]|
  }

  function Receive(r: Replica, m: Request, head: seq<byte>): (s: Replica)
    requires WellSized(m, head)
  {
    if NextIndex(r) != m.next then r
    else Commit(r.(log := WriteAll(r.log, m.next, m.entries, head, |m.entries|)), m.commit)
  }

  function Answer(r: Replica, m: Request): (a: Response) {
    if NextIndex(r) != m.next then Response(m.peer, false, NextIndex(r), 0)
    else Response(m.peer, true, m.next + |m.entries|, m.commit)
  }

  // ---------------------------------------------------------------- the leader

  /** The next index to send to a peer; 0 stands for the end of the log. */
  function SendFrom(r: Replica, next: nat): (n: nat) {
    if next == 0 then NextIndex(r) else next
  }

  /** The request for a peer.  The read of the log may stop at the end `cut` of a file. */
  function Ask(r: Replica, peer: Peer, next: nat, cut: nat): (m: Request) {
    var from := SendFrom(r, next);
    var to := if cut < |r.log| then cut else |r.log|;
    Request(peer, from, r.quick, if 0 < from <= to then r.log[from - 1..to] else [])
  }

  predicate CatchUp(r: Replica, a: Response) {
    !a.accept || a.next <= |r.log| || a.commit < a.next - 1
  }

  // ---------------------------------------------------------------- what a follower has

  /** The follower's record is the leader's, apart from the first bytes. */
  predicate SameRecord(mine: Rec, theirs: Rec) {
    HEAD <= |mine| == |theirs| && mine[HEAD..] == theirs[HEAD..]
  }

  /** The follower's log is a prefix of the leader's. */
  ghost predicate Follows(log: seq<Rec>, leader: seq<Rec>) {
    |log| <= |leader| && forall i {:trigger log[i]} :: 0 <= i < |log| ==> SameRecord(log[i], leader[i])
  }

  /** The entries of the request are the leader's from index `next` on. */
  ghost predicate Carries(m: Request, leader: seq<Rec>) {
    && 0 < m.next <= |leader| + 1 && m.next - 1 + |m.entries| <= |leader|
    && forall i {:trigger m.entries[i]} :: 0 <= i < |m.entries| ==>
         m.entries[i] == leader[m.next - 1 + i] && HEAD <= |m.entries[i]|
  }

  /** Every write of an accepted request lands right behind the log. */
  lemma {:induction false} WritesLand(r: Replica, m: Request, head: seq<byte>, n: nat)
    requires WellSized(m, head) && NextIndex(r) == m.next && n <= |m.entries|
    ensures var log := WriteAll(r.log, m.next, m.entries, head, n);
            && |log| + 1 == m.next + n && r.log <= log
            && forall i :: 0 <= i < n ==> log[|r.log| + i] == Rewrite(m.entries[i], head)
  {
    if n > 0 { WritesLand(r, m, head, n - 1); }
  }

  /** A request keeps the follower's log a prefix of the leader's. */
  lemma ReceiveFollows(r: Replica, m: Request, head: seq<byte>, leader: seq<Rec>)
    requires WellSized(m, head) && Follows(r.log, leader) && Carries(m, leader)
    ensures Follows(Receive(r, m, head).log, leader) && r.log <= Receive(r, m, head).log
    ensures var a := Answer(r, m); a.accept ==> |Receive(r, m, head).log| == a.next - 1
    ensures var a := Answer(r, m); 0 < a.next <= |Receive(r, m, head).log| + 1
  {
    if NextIndex(r) == m.next {
      WritesLand(r, m, head, |m.entries|);
      var log := WriteAll(r.log, m.next, m.entries, head, |m.entries|);
      forall i | 0 <= i < |log| ensures SameRecord(log[i], leader[i]) {
        if i < |r.log| {
          assert log[i] == r.log[i];
        } else {
          assert log[i] == Rewrite(m.entries[i - |r.log|], head);
        }
      }
    }
  }

  lemma AskCarries(r: Replica, peer: Peer, next: nat, cut: nat)
    requires next <= |r.log| + 1 && forall i :: 0 <= i < |r.log| ==> HEAD <= |r.log[i]|
    ensures Carries(Ask(r, peer, next, cut), r.log)
  {
  }

  lemma LeaderGrows(m: Request, leader: seq<Rec>, more: seq<Rec>)
    requires Carries(m, leader)
    ensures Carries(m, leader + more)
  {
  }

  // ---------------------------------------------------------------- commits stay inside the log

  ghost predicate Within(r: Replica, n: nat) {
    r.quick <= n && forall i :: 0 <= i < |r.queue| ==> r.queue[i] <= n
  }

  /**
   A follower that accepts a request keeps its commits inside its log exactly when the entries
   reach the commit index of the request, or that index is nothing new.
   */
  lemma ReceiveWithin(r: Replica, m: Request, head: seq<byte>)
    requires WellSized(m, head) && NextIndex(r) == m.next && Within(r, |r.log|)
    ensures var s := Receive(r, m, head);
            Within(s, |s.log|) <==> m.commit <= m.next - 1 + |m.entries| || m.commit <= r.quick
  {
    WritesLand(r, m, head, |m.entries|);
    var s := Receive(r, m, head);
    if m.commit > r.quick {
      assert s.queue[|r.queue|] == m.commit;
      assert forall i :: 0 <= i < |r.queue| ==> s.queue[i] == r.queue[i];
    }
  }

  lemma ServeWithin(r: Replica, n: nat)
    requires Within(r, n)
    ensures Within(Serve(r), n)
  {
  }

  lemma CommitWithin(r: Replica, idx: nat, n: nat)
    requires Within(r, n) && idx <= n
    ensures Within(Commit(r, idx), n)
  {
  }

  // ---------------------------------------------------------------- what the commit thread applies

  /** The indexes applied by serving the requests `queue` in turn. */
  function Applied(quick: nat, queue: seq<nat>): (r: seq<nat>)
    decreases |queue|
  {
    if queue == [] then []
    else Span(quick, queue[0]) + Applied(queue[0], queue[1..])
  }

  /** from + 1, ..., to */
  function Span(from: nat, to: nat): (r: seq<nat>) {
    seq(if to > from then to - from else 0, i requires 0 <= i => from + 1 + i)
  }

  /** What the commit thread reads for an index; indexes start at 1. */
  function EntryAt(log: seq<Rec>, i: nat): (r: Option<Rec>) {
    if 0 < i <= |log| then Some(log[i - 1]) else None
  }

  /** What the commit thread hands over when it serves its oldest request. */
  function Handed(r: Replica): (s: seq<Option<Rec>>) {
    if r.queue == [] then []
    else
      var span := Span(r.quick, r.queue[0]);
      seq(|span|, i requires 0 <= i < |span| => EntryAt(r.log, span[i]))
  }

  function LastQuick(quick: nat, queue: seq<nat>): (r: nat)
    decreases |queue|
  {
    if queue == [] then quick else LastQuick(queue[0], queue[1..])
  }

  predicate Ascending(quick: nat, queue: seq<nat>)
    decreases |queue|
  {
    queue == [] || (quick <= queue[0] && Ascending(queue[0], queue[1..]))
  }

  lemma {:induction false} AppliedCount(quick: nat, queue: seq<nat>)
    ensures LastQuick(quick, queue) <= quick + |Applied(quick, queue)|
    ensures !Ascending(quick, queue) ==> LastQuick(quick, queue) < quick + |Applied(quick, queue)|
    decreases |queue|
  {
    if queue != [] { AppliedCount(queue[0], queue[1..]); }
  }

  lemma {:induction false} AscendingApplied(quick: nat, queue: seq<nat>)
    requires Ascending(quick, queue)
    ensures quick <= LastQuick(quick, queue) && Applied(quick, queue) == Span(quick, LastQuick(quick, queue))
    decreases |queue|
  {
    if queue != [] { AscendingApplied(queue[0], queue[1..]); }
  }

  /**
   After 1, ..., `quick` have been applied, serving the queue applies every index once and in
   order exactly when its requests never step back.
   */
  lemma AppliedOnce(quick: nat, queue: seq<nat>)
    ensures Span(0, quick) + Applied(quick, queue) == Span(0, LastQuick(quick, queue)) <==> Ascending(quick, queue)
  {
    AppliedCount(quick, queue);
    if Ascending(quick, queue) { AscendingApplied(quick, queue); }
  }
}
