/**
 Handing callbacks to the event loop of another thread.  A state holds the place that the loop
 and every dispatching thread have reached; a step is one access to shared memory, one critical
 section or one socket call.
 */
module CThread {

  const RECV_BUFFER := 4096

  datatype Status = IDLE | WAKE

  /** A dispatching thread. */
  datatype Caller =
    | Outside
    | Pushed                 // the callback is in the list; the status has not been read
    | SawIdle                // about to send a wake byte

  /** The loop thread. */
  datatype Loop<T> =
    | Waiting                // in the event loop
    | Woken                  // wake bytes read; about to set the status
    | Draining               // about to look into the list
    | Running(todo: seq<T>)  // the callbacks taken from the list that have not run yet

  datatype State<T> = State(
    callbacks: seq<T>, status: Status, socket: nat,
    loop: Loop<T>, callers: seq<Caller>)

  datatype Step<T> =
    | Push(caller: nat, cb: T)
    | ReadStatus(caller: nat)
    | Send(caller: nat)
    | Recv
    | SetWake
    | Drain
    | Execute
    | RunDone

  predicate Enabled<T>(s: State<T>, t: Step<T>) {
    match t
    case Push(i, _) => i < |s.callers| && s.callers[i].Outside?
    case ReadStatus(i) => i < |s.callers| && s.callers[i].Pushed?
    case Send(i) => i < |s.callers| && s.callers[i].SawIdle?
    case Recv => s.loop.Waiting? && s.socket > 0
    case SetWake => s.loop.Woken?
    case Drain => s.loop.Draining?
    case Execute => s.loop.Running? && s.loop.todo != []
    case RunDone => s.loop.Running? && s.loop.todo == []
  }

  function Next<T>(s: State<T>, t: Step<T>): (r: State<T>)
    requires Enabled(s, t)
  {
    match t
    case Push(i, cb) => s.(callbacks := s.callbacks + [cb], callers := s.callers[i := Pushed])
    case ReadStatus(i) => s.(callers := s.callers[i := if s.status == IDLE then SawIdle else Outside])
    case Send(i) => s.(socket := s.socket + 1, callers := s.callers[i := Outside])
    case Recv => s.(socket := if s.socket > RECV_BUFFER then s.socket - RECV_BUFFER else 0, loop := Woken)
    case SetWake => s.(status := WAKE, loop := Draining)
    case Drain =>
      if s.callbacks == [] then s.(status := IDLE, loop := Waiting)
      else s.(callbacks := [], loop := Running(s.callbacks))
    case Execute => s.(loop := Running(s.loop.todo[1..]))
    case RunDone => s.(loop := Draining)
  }

  /** What has been pushed and what has run, in order. */
  datatype Trace<T> = Trace(pushed: seq<T>, ran: seq<T>)

  function Traced<T>(s: State<T>, h: Trace<T>, t: Step<T>): (r: Trace<T>)
    requires Enabled(s, t)
  {
    match t
    case Push(_, cb) => h.(pushed := h.pushed + [cb])
    case Execute => h.(ran := h.ran + [s.loop.todo[0]])
    case _ => h
  }

  // ---------------------------------------------------------------- no callback is stranded

  function Todo<T>(s: State<T>): (r: seq<T>) {
    if s.loop.Running? then s.loop.todo else []
  }

  ghost predicate Busy(callers: seq<Caller>) {
    exists i :: 0 <= i < |callers| && !callers[i].Outside?
  }

  ghost predicate Inv<T>(s: State<T>, h: Trace<T>) {
    && (s.status == WAKE <==> s.loop.Draining? || s.loop.Running?)
    && (s.callbacks != [] ==> !s.loop.Waiting? || s.socket > 0 || Busy(s.callers))
    && h.pushed == h.ran + Todo(s) + s.callbacks
  }

  lemma CallerSet(callers: seq<Caller>, i: nat, c: Caller)
    requires i < |callers| && !c.Outside?
    ensures Busy(callers[i := c])
  {
    assert !callers[i := c][i].Outside?;
  }

  lemma StepKeeps<T>(s: State<T>, h: Trace<T>, t: Step<T>)
    requires Inv(s, h) && Enabled(s, t)
    ensures Inv(Next(s, t), Traced(s, h, t))
  {
    var r := Next(s, t);
    match t
    case Push(i, cb) =>
      CallerSet(s.callers, i, Pushed);
      assert h.ran + Todo(s) + (s.callbacks + [cb]) == (h.ran + Todo(s) + s.callbacks) + [cb];
    case ReadStatus(i) => if s.status == IDLE { CallerSet(s.callers, i, SawIdle); }
    case Drain => assert h.ran + [] + s.callbacks == h.ran + s.callbacks + [];
    case Execute => assert h.ran + Todo(s) == (h.ran + [Todo(s)[0]]) + Todo(s)[1..];
    case _ =>
  }

  // ---------------------------------------------------------------- and every callback gets its turn

  function Weight(c: Caller): (n: nat) {
    match c case Outside => 0 case Pushed => 5 case SawIdle => 4
  }

  function Weights(callers: seq<Caller>): (n: nat) {
    if callers == [] then 0 else Weights(callers[..|callers| - 1]) + Weight(callers[|callers| - 1])
  }

  /** Work left when no new callback is pushed. */
  function Left<T>(s: State<T>): (n: nat) {
    Weights(s.callers) + 3 * s.socket + 3 * |s.callbacks|
    + match s.loop case Waiting => 0 case Woken => 2 case Draining => 1 case Running(todo) => 2 + |todo|
  }

  lemma {:induction false} WeightsSet(callers: seq<Caller>, i: nat, c: Caller)
    requires i < |callers|
    ensures Weights(callers[i := c]) == Weights(callers) - Weight(callers[i]) + Weight(c)
  {
    var n := |callers| - 1;
    var set' := callers[i := c];
    if i < n {
      WeightsSet(callers[..n], i, c);
      assert set'[..n] == callers[..n][i := c];
    } else {
      assert set'[..n] == callers[..n];
    }
  }

  /** Every step other than a push makes progress. */
  lemma StepProgress<T>(s: State<T>, t: Step<T>)
    requires Enabled(s, t) && !t.Push?
    ensures Left(Next(s, t)) < Left(s)
  {
    match t
    case ReadStatus(i) => WeightsSet(s.callers, i, if s.status == IDLE then SawIdle else Outside);
    case Send(i) => WeightsSet(s.callers, i, Outside);
    case _ =>
  }

  ghost predicate Quiet<T>(s: State<T>) {
    s.loop.Waiting? && s.socket == 0 && !Busy(s.callers)
  }

  /** Unless everything is quiet, some thread can go on. */
  lemma CanGoOn<T>(s: State<T>) returns (t: Step<T>)
    requires !Quiet(s)
    ensures Enabled(s, t) && !t.Push?
  {
    match s.loop
    case Woken => t := SetWake;
    case Draining => t := Drain;
    case Running(todo) => t := if todo == [] then RunDone else Execute;
    case Waiting =>
      if s.socket > 0 {
        t := Recv;
      } else {
        var i :| 0 <= i < |s.callers| && !s.callers[i].Outside?;
        t := if s.callers[i].Pushed? then ReadStatus(i) else Send(i);
      }
  }

  /** When all threads are quiet every callback has run, once and in the order of the pushes. */
  lemma QuietMeansDone<T>(s: State<T>, h: Trace<T>)
    requires Inv(s, h) && Quiet(s)
    ensures s.callbacks == [] && h.ran == h.pushed
  {
  }

  // ---------------------------------------------------------------- runs

  function Init<T>(callers: nat): (s: State<T>) {
    State([], IDLE, 0, Waiting, seq(callers, _ => Outside))
  }

  ghost predicate Run<T>(ss: seq<State<T>>, hs: seq<Trace<T>>, ts: seq<Step<T>>, callers: nat) {
    Path(ss, hs, ts) && ss[0] == Init(callers) && hs[0] == Trace([], [])
  }

  ghost predicate Path<T>(ss: seq<State<T>>, hs: seq<Trace<T>>, ts: seq<Step<T>>) {
    && |ss| == |hs| == |ts| + 1
    && forall i {:trigger StepOf(ss, hs, ts, i)} :: 0 <= i < |ts| ==> StepOf(ss, hs, ts, i)
  }

  ghost predicate StepOf<T>(ss: seq<State<T>>, hs: seq<Trace<T>>, ts: seq<Step<T>>, i: nat) {
    && i < |ts| && i + 1 < |ss| && i + 1 < |hs| && Enabled(ss[i], ts[i])
    && ss[i + 1] == Next(ss[i], ts[i]) && hs[i + 1] == Traced(ss[i], hs[i], ts[i])
  }

  /**
   For any number of dispatching threads and every interleaving: whenever a callback is in the
   list, the loop is on its way through its drain loop, or a wake byte is in the socket, or a
   dispatcher has still to read the status or to send; and what has run is a prefix of what was
   pushed.
   */
  lemma {:induction false} NeverStranded<T>(ss: seq<State<T>>, hs: seq<Trace<T>>, ts: seq<Step<T>>, callers: nat, i: nat)
    requires Run(ss, hs, ts, callers) && i <= |ts|
    ensures Inv(ss[i], hs[i])
    ensures ss[i].callbacks != [] ==> !ss[i].loop.Waiting? || ss[i].socket > 0 || Busy(ss[i].callers)
    ensures hs[i].ran <= hs[i].pushed && (Quiet(ss[i]) ==> hs[i].ran == hs[i].pushed)
  {
    if i > 0 {
      NeverStranded(ss, hs, ts, callers, i - 1);
      assert StepOf(ss, hs, ts, i - 1);
      StepKeeps(ss[i - 1], hs[i - 1], ts[i - 1]);
    }
  }

  /** Steps without a push lower the work left by at least one each and push nothing. */
  lemma {:induction false} PathProgress<T>(ss: seq<State<T>>, hs: seq<Trace<T>>, ts: seq<Step<T>>, i: nat)
    requires Path(ss, hs, ts) && Inv(ss[0], hs[0]) && i <= |ts| && forall k :: 0 <= k < |ts| ==> !ts[k].Push?
    ensures Inv(ss[i], hs[i]) && i + Left(ss[i]) <= Left(ss[0]) && hs[i].pushed == hs[0].pushed
  {
    if i > 0 {
      PathProgress(ss, hs, ts, i - 1);
      assert StepOf(ss, hs, ts, i - 1);
      StepKeeps(ss[i - 1], hs[i - 1], ts[i - 1]);
      StepProgress(ss[i - 1], ts[i - 1]);
    }
  }

  /** No step but a push is possible. */
  ghost predicate Final<T(!new)>(s: State<T>) {
    forall t {:trigger Enabled(s, t)} :: Enabled(s, t) ==> t.Push?
  }

  /**
   Whatever the schedule: once no more callbacks are pushed there are at most `Left` further steps,
   and when no step is possible any more every callback that was pushed has run, once and in order.
   */
  lemma AllRunInTheEnd<T(!new)>(ss: seq<State<T>>, hs: seq<Trace<T>>, ts: seq<Step<T>>)
    requires Path(ss, hs, ts) && Inv(ss[0], hs[0]) && forall k :: 0 <= k < |ts| ==> !ts[k].Push?
    ensures |ts| <= Left(ss[0])
    ensures Final(ss[|ts|]) <==> Quiet(ss[|ts|])
    ensures Final(ss[|ts|]) ==> ss[|ts|].callbacks == [] && hs[|ts|].ran == hs[|ts|].pushed == hs[0].pushed
  {
    PathProgress(ss, hs, ts, |ts|);
    var s := ss[|ts|];
    if !Quiet(s) { var t := CanGoOn(s); } else { QuietMeansDone(s, hs[|ts|]); }
  }
}
