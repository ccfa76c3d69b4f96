/**
 Session timeouts.  The plain form keeps one lane of session ids per step of the clock; the
 session manager keeps the lanes in a ring of slots.
 */
module TimingWheel {
  import opened Common

  datatype Session = Session(sequence: nat, deadline: nat)

  /** `lanes[j]` falls due when the clock reaches step `step + j + 1`. */
  datatype Wheel = Wheel(step: nat, lanes: seq<seq<nat>>, sessions: map<nat, Session>)

  // ---------------------------------------------------------------- operations

  /** How many steps ahead a session is filed.  Overdue ones wait one full step. */
  function Ahead(deadline: nat, step: nat, n: nat, precision: nat): (j: nat)
    requires 0 < n && 0 < precision
    ensures j < n
  {
    var last := step * precision;
    var k := if deadline <= last then 1 else ((deadline - last) / precision) % UINT32;
    if k >= n then n - 1 else k
  }

  function Save(w: Wheel, s: Session, precision: nat): (r: Wheel)
    requires w.lanes != [] && 0 < precision
  {
    if s.sequence in w.sessions then w
    else
      var j := Ahead(s.deadline, w.step, |w.lanes|, precision);
      w.(lanes := w.lanes[j := w.lanes[j] + [s.sequence]], sessions := w.sessions[s.sequence := s])
  }

  function Erase(w: Wheel, id: nat): (r: Wheel) {
    w.(sessions := w.sessions - {id})
  }

  /** Number of lanes that a check at step `now` empties. */
  function Passed(w: Wheel, now: nat): (k: nat)
    ensures k <= |w.lanes|
  {
    if now < w.step then 0
    else var k := (now - w.step) % UINT32; if k >= |w.lanes| then |w.lanes| else k
  }

  function InLanes(lanes: seq<seq<nat>>, k: nat): (ids: set<nat>)
    requires k <= |lanes|
  {
    set j, i | 0 <= j < k && 0 <= i < |lanes[j]| :: lanes[j][i]
  }

  /** The sessions that a check at step `now` reports. */
  function Fired(w: Wheel, now: nat): (r: map<nat, Session>) {
    var ids := InLanes(w.lanes, Passed(w, now));
    map id | id in w.sessions && id in ids :: w.sessions[id]
  }

  function Check(w: Wheel, now: nat): (r: Wheel) {
    if now < w.step then w.(step := now)
    else
      var k := Passed(w, now);
      Wheel(now, w.lanes[k..] + seq(k, _ => []), w.sessions - Fired(w, now).Keys)
  }

  // ---------------------------------------------------------------- when a session falls due

  lemma StepBounds(t: nat, p: nat)
    requires 0 < p
    ensures (t / p) * p <= t < (t / p) * p + p
  {
  }

  lemma Times(a: nat, b: nat, p: nat)
    requires a <= b
    ensures a * p <= b * p && (a < b ==> a * p + p <= b * p)
  {
    assert b * p == (b - a) * p + a * p;
    if a < b { MulAtLeast(b - a, p); }
  }

  lemma MulAtLeast(k: nat, p: nat)
    requires 0 < k
    ensures k * p >= p
  {
    assert k * p == (k - 1) * p + p;
  }

  /** The step at which a session saved at `step` falls due. */
  function Due(deadline: nat, step: nat, n: nat, precision: nat): (d: nat)
    requires 0 < n && 0 < precision
  {
    step + Ahead(deadline, step, n, precision) + 1
  }

  /** Products of steps and the precision, multiplied out. */
  lemma DueTime(deadline: nat, step: nat, n: nat, precision: nat, j: nat)
    requires 0 < n && 0 < precision && j == Ahead(deadline, step, n, precision)
    ensures Due(deadline, step, n, precision) * precision == step * precision + j * precision + precision
    ensures (step + n) * precision == step * precision + n * precision
    ensures j * precision + precision <= n * precision
  {
    Spread(step, j + 1, precision);
    Spread(j, 1, precision);
    Spread(step, n, precision);
    Times(j, n, precision);
  }

  lemma Spread(a: nat, b: nat, p: nat)
    ensures (a + b) * p == a * p + b * p
  {
  }

  lemma Quotient(e: nat, n: nat, p: nat, k: nat)
    requires 0 < p && e < n * p && k == e / p
    ensures k < n && k * p <= e < k * p + p
  {
    StepBounds(e, p);
    if k >= n { Times(n, k, p); }
  }

  lemma AheadOf(deadline: nat, step: nat, n: nat, precision: nat, k: nat)
    requires 0 < n < UINT32 && 0 < precision && deadline > step * precision
    requires k == (deadline - step * precision) / precision && k < n
    ensures Ahead(deadline, step, n, precision) == k
  {
    SmallMod(k);
  }

  lemma SmallMod(k: nat)
    requires k < UINT32
    ensures k % UINT32 == k
  {
  }

  /** Within the span a session is filed under the step that holds its deadline. */
  lemma AheadIs(deadline: nat, step: nat, n: nat, precision: nat, e: nat)
    requires 0 < n < UINT32 && 0 < precision && e == deadline - step * precision && 0 < e < n * precision
    ensures var j := Ahead(deadline, step, n, precision); j * precision <= e < j * precision + precision
  {
    var k := e / precision;
    Quotient(e, n, precision, k);
    AheadOf(deadline, step, n, precision, k);
  }

  /**
   A session never falls due before its deadline exactly when the deadline lies within the span
   of the wheel.
   */
  lemma DueNotEarly(deadline: nat, step: nat, n: nat, precision: nat)
    requires 0 < n < UINT32 && 0 < precision
    ensures Due(deadline, step, n, precision) * precision > deadline <==> deadline < (step + n) * precision
  {
    DueTime(deadline, step, n, precision, Ahead(deadline, step, n, precision));
    var e := deadline - step * precision;
    if 0 < e < n * precision { AheadIs(deadline, step, n, precision, e); }
  }

  /** Within the span it falls due at most one step after its deadline, or two after the last check. */
  lemma DueNotLate(deadline: nat, step: nat, n: nat, precision: nat)
    requires 2 <= n < UINT32 && 0 < precision && deadline < (step + n) * precision
    ensures var t := Due(deadline, step, n, precision) * precision;
            if deadline <= step * precision then t == (step + 2) * precision else t <= deadline + precision
  {
    DueTime(deadline, step, n, precision, Ahead(deadline, step, n, precision));
    var e := deadline - step * precision;
    if 0 < e { AheadIs(deadline, step, n, precision, e); }
  }

  // ---------------------------------------------------------------- runs

  /** How a session ended; a timeout was reported by the check at step `at`, the one before was at `before`. */
  datatype End = Erased | TimedOut(before: nat, at: nat)

  /** The wheel with the step at which every session ever saved falls due, and how the ended ones ended. */
  datatype World = World(wheel: Wheel, due: map<nat, nat>, ended: map<nat, End>)

  datatype Op = SaveOp(s: Session) | EraseOp(id: nat) | CheckOp(now: nat)

  /** Ids are new, the clock does not run back and checks are less than 2^32 steps apart. */
  predicate Legal(w: World, op: Op) {
    match op
    case SaveOp(s) => s.sequence !in w.due
    case EraseOp(_) => true
    case CheckOp(now) => w.wheel.step <= now < w.wheel.step + UINT32
  }

  function Do(w: World, op: Op, precision: nat): (r: World)
    requires w.wheel.lanes != [] && 0 < precision
  {
    var wheel := w.wheel;
    match op
    case SaveOp(s) =>
      World(Save(wheel, s, precision),
            w.due[s.sequence := Due(s.deadline, wheel.step, |wheel.lanes|, precision)], w.ended)
    case EraseOp(id) =>
      World(Erase(wheel, id), w.due, if id in wheel.sessions then w.ended[id := Erased] else w.ended)
    case CheckOp(now) =>
      var fired := Fired(wheel, now);
      World(Check(wheel, now), w.due, w.ended + map id | id in fired :: TimedOut(wheel.step, now))
  }

  /** A live session is in the lane of its due step; an id that is still in a lane was saved for that step. */
  ghost predicate LiveAt(w: World, id: nat) {
    id in w.wheel.sessions ==>
      && id in w.due && w.wheel.step < w.due[id] <= w.wheel.step + |w.wheel.lanes|
      && id in w.wheel.lanes[w.due[id] - w.wheel.step - 1]
  }

  ghost predicate LaneAt(w: World, j: nat, i: nat) {
    j < |w.wheel.lanes| && i < |w.wheel.lanes[j]| ==>
      w.wheel.lanes[j][i] in w.due && w.due[w.wheel.lanes[j][i]] == w.wheel.step + j + 1
  }

  /** A timeout is reported by the first check that reaches the due step. */
  ghost predicate EndAt(w: World, id: nat) {
    id in w.ended ==>
      && id in w.due && id !in w.wheel.sessions
      && (w.ended[id].TimedOut? ==> w.ended[id].before < w.due[id] <= w.ended[id].at)
  }

  ghost predicate Inv(w: World, n: nat) {
    && |w.wheel.lanes| == n && 0 < n
    && w.due.Keys == w.wheel.sessions.Keys + w.ended.Keys
    && (forall id {:trigger LiveAt(w, id)} :: LiveAt(w, id))
    && (forall j, i {:trigger LaneAt(w, j, i)} :: LaneAt(w, j, i))
    && (forall id {:trigger EndAt(w, id)} :: EndAt(w, id))
  }

  lemma SaveKeeps(w: World, n: nat, s: Session, precision: nat)
    requires Inv(w, n) && 0 < precision && Legal(w, SaveOp(s))
    ensures Inv(Do(w, SaveOp(s), precision), n)
  {
    var r := Do(w, SaveOp(s), precision);
    forall id ensures LiveAt(r, id) { assert LiveAt(w, id); SavedLane(w, s, precision, id); }
    forall j, i ensures LaneAt(r, j, i) { assert LaneAt(w, j, i); }
    forall id ensures EndAt(r, id) { assert EndAt(w, id); }
  }

  lemma SavedLane(w: World, s: Session, precision: nat, id: nat)
    requires w.wheel.lanes != [] && 0 < precision && s.sequence !in w.wheel.sessions
    ensures var lanes, j := Save(w.wheel, s, precision).lanes, Ahead(s.deadline, w.wheel.step, |w.wheel.lanes|, precision);
            s.sequence in lanes[j] && forall k :: 0 <= k < |lanes| && id in w.wheel.lanes[k] ==> id in lanes[k]
  {
  }

  lemma EraseKeeps(w: World, n: nat, id: nat, precision: nat)
    requires Inv(w, n) && 0 < precision
    ensures Inv(Do(w, EraseOp(id), precision), n)
  {
    var r := Do(w, EraseOp(id), precision);
    assert LiveAt(w, id);
    forall x ensures LiveAt(r, x) { assert LiveAt(w, x); }
    forall j, i ensures LaneAt(r, j, i) { assert LaneAt(w, j, i); }
    forall x ensures EndAt(r, x) { assert EndAt(w, x); }
  }

  /** A check reports exactly the live sessions that are due. */
  lemma FiredIff(w: World, n: nat, now: nat, id: nat)
    requires Inv(w, n) && Legal(w, CheckOp(now)) && n < UINT32
    ensures id in Fired(w.wheel, now) <==> id in w.wheel.sessions && w.due[id] <= now
  {
    var k, lanes := Passed(w.wheel, now), w.wheel.lanes;
    assert LiveAt(w, id);
    if id in w.wheel.sessions {
      var j := w.due[id] - w.wheel.step - 1;
      var i :| 0 <= i < |lanes[j]| && lanes[j][i] == id;
      if id in InLanes(lanes, k) {
        var a, b :| 0 <= a < k && 0 <= b < |lanes[a]| && lanes[a][b] == id;
        assert LaneAt(w, a, b);
      }
    }
  }

  lemma CheckKeeps(w: World, n: nat, now: nat, precision: nat)
    requires Inv(w, n) && 0 < precision && n < UINT32 && Legal(w, CheckOp(now))
    ensures Inv(Do(w, CheckOp(now), precision), n)
  {
    var r := Do(w, CheckOp(now), precision);
    var k := Passed(w.wheel, now);
    forall id ensures LiveAt(r, id) && EndAt(r, id) {
      FiredIff(w, n, now, id);
      assert LiveAt(w, id) && EndAt(w, id);
    }
    forall j: nat, i: nat ensures LaneAt(r, j, i) {
      if j + k < n { assert LaneAt(w, j + k, i); } else { assert j < n ==> r.wheel.lanes[j] == []; }
    }
  }

  lemma StepKeeps(w: World, n: nat, op: Op, precision: nat)
    requires Inv(w, n) && 0 < precision && n < UINT32 && Legal(w, op)
    ensures Inv(Do(w, op, precision), n)
  {
    match op
    case SaveOp(s) => SaveKeeps(w, n, s, precision);
    case EraseOp(id) => EraseKeeps(w, n, id, precision);
    case CheckOp(now) => CheckKeeps(w, n, now, precision);
  }

  ghost predicate Run(ws: seq<World>, ops: seq<Op>, n: nat, precision: nat) {
    && |ws| == |ops| + 1 && 0 < n < UINT32 && 0 < precision && Inv(ws[0], n)
    && forall i {:trigger StepOf(ws, ops, precision, i)} :: 0 <= i < |ops| ==> StepOf(ws, ops, precision, i)
  }

  ghost predicate StepOf(ws: seq<World>, ops: seq<Op>, precision: nat, i: nat) {
    && i < |ops| && i + 1 < |ws| && 0 < precision && Legal(ws[i], ops[i])
    && (ws[i].wheel.lanes != [] ==> ws[i + 1] == Do(ws[i], ops[i], precision))
  }

  lemma {:induction false} RunKeeps(ws: seq<World>, ops: seq<Op>, n: nat, precision: nat, i: nat)
    requires Run(ws, ops, n, precision) && i <= |ops|
    ensures Inv(ws[i], n)
  {
    if i > 0 {
      RunKeeps(ws, ops, n, precision, i - 1);
      assert StepOf(ws, ops, precision, i - 1);
      StepKeeps(ws[i - 1], n, ops[i - 1], precision);
    }
  }

  /** What is due when, and how a session ended, never changes afterwards. */
  lemma Settled(w: World, n: nat, op: Op, precision: nat, id: nat)
    requires Inv(w, n) && 0 < precision && n < UINT32 && Legal(w, op) && id in w.due
    ensures var r := Do(w, op, precision);
            && id in r.due && r.due[id] == w.due[id]
            && (id in w.ended ==> id in r.ended && r.ended[id] == w.ended[id])
  {
    assert EndAt(w, id);
    if op.CheckOp? { FiredIff(w, n, op.now, id); }
  }

  lemma {:induction false} AlwaysSettled(ws: seq<World>, ops: seq<Op>, n: nat, precision: nat, i: nat, k: nat, id: nat)
    requires Run(ws, ops, n, precision) && i <= k <= |ops| && id in ws[i].due
    ensures id in ws[k].due && ws[k].due[id] == ws[i].due[id]
    ensures id in ws[i].ended ==> id in ws[k].ended && ws[k].ended[id] == ws[i].ended[id]
  {
    if i < k {
      AlwaysSettled(ws, ops, n, precision, i, k - 1, id);
      RunKeeps(ws, ops, n, precision, k - 1);
      assert StepOf(ws, ops, precision, k - 1);
      Settled(ws[k - 1], n, ops[k - 1], precision, id);
    }
  }

  /**
   Over every run, a session saved within the span of the wheel is at any later moment either
   still waiting or has ended exactly once.  It waits only while no check has reached the step at
   which it falls due; if it timed out, it was reported by the first check that reached this step.
   That check came after the deadline, and the check before it did not (or the session was overdue
   when saved).
   */
  lemma TimesOutOnce(ws: seq<World>, ops: seq<Op>, n: nat, precision: nat, i: nat, k: nat, s: Session)
    requires Run(ws, ops, n, precision) && i < k <= |ops| && ops[i] == SaveOp(s)
    requires s.deadline < (ws[i].wheel.step + n) * precision && 2 <= n
    ensures s.sequence in ws[k].wheel.sessions <==> s.sequence !in ws[k].ended
    ensures s.sequence in ws[k].wheel.sessions ==> ws[k].wheel.step < Due(s.deadline, ws[i].wheel.step, n, precision)
    ensures s.sequence in ws[k].ended && ws[k].ended[s.sequence].TimedOut? ==>
              var e := ws[k].ended[s.sequence];
              && e.before < Due(s.deadline, ws[i].wheel.step, n, precision) <= e.at
              && e.at * precision > s.deadline
              && (e.before * precision <= s.deadline
                  || (s.deadline <= ws[i].wheel.step * precision && e.before <= ws[i].wheel.step + 1))
  {
    var id, step := s.sequence, ws[i].wheel.step;
    RunKeeps(ws, ops, n, precision, i);
    assert StepOf(ws, ops, precision, i);
    AlwaysSettled(ws, ops, n, precision, i + 1, k, id);
    RunKeeps(ws, ops, n, precision, k);
    assert LiveAt(ws[k], id) && EndAt(ws[k], id);
    if id in ws[k].ended && ws[k].ended[id].TimedOut? {
      InTime(s.deadline, step, n, precision, ws[k].ended[id].before, ws[k].ended[id].at);
    }
  }

  lemma InTime(deadline: nat, step: nat, n: nat, precision: nat, before: nat, at: nat)
    requires 2 <= n < UINT32 && 0 < precision && deadline < (step + n) * precision
    requires before < Due(deadline, step, n, precision) <= at
    ensures at * precision > deadline
    ensures before * precision <= deadline || (deadline <= step * precision && before <= step + 1)
  {
    var d := Due(deadline, step, n, precision);
    DueNotEarly(deadline, step, n, precision);
    DueNotLate(deadline, step, n, precision);
    Times(d, at, precision);
    Times(before, d, precision);
  }
}
