/** The session manager: the lanes of the timing wheel in a ring of slots. */
module SessionMgn {
  import opened Common
  import opened TimingWheel

  function SlotOf(first: nat, j: nat, n: nat): (i: nat)
    requires first < n && j <= n
    ensures i < n
  {
    if first + j < n then first + j else first + j - n
  }

  lemma SlotMod(first: nat, j: nat, n: nat)
    requires first < n && j <= n
    ensures (first + j) % n == SlotOf(first, j, n)
  {
    var x := first + j;
    if x < n { ModIs(x, n, 0, x); } else { ModIs(x, n, 1, x - n); }
  }

  lemma ModIs(x: nat, n: nat, q: nat, r: nat)
    requires 0 < n && x == q * n + r && r < n
    ensures x % n == r
  {
    var q', r' := x / n, x % n;
    assert x == q' * n + r';
    if q < q' { Times(q, q', n); }
    if q' < q { Times(q', q, n); }
  }

  /** The lanes in the order in which they fall due. */
  ghost function Lanes(slots: seq<seq<nat>>, first: nat): (r: seq<seq<nat>>)
    requires first < |slots|
    ensures |r| == |slots|
  {
    seq(|slots|, j requires 0 <= j < |slots| => slots[SlotOf(first, j, |slots|)])
  }

  lemma LaneUpdate(slots: seq<seq<nat>>, first: nat, j: nat, lane: seq<nat>)
    requires first < |slots| && j < |slots|
    ensures Lanes(slots[SlotOf(first, j, |slots|) := lane], first) == Lanes(slots, first)[j := lane]
  {
  }

  lemma LanesTurn(slots: seq<seq<nat>>, first: nat, k: nat, lanes: seq<seq<nat>>)
    requires first < |slots| && k <= |slots| == |lanes| && Lanes(slots, first) == Cleared(lanes, k)
    ensures Lanes(slots, SlotOf(first, k, |slots|)) == lanes[k..] + seq(k, _ => [])
  {
    var n := |slots|;
    var turned := Lanes(slots, SlotOf(first, k, n));
    forall j | 0 <= j < n ensures turned[j] == (lanes[k..] + seq(k, _ => []))[j] {
      if k + j < n {
        assert SlotOf(SlotOf(first, k, n), j, n) == SlotOf(first, k + j, n);
        assert turned[j] == Lanes(slots, first)[k + j] == Cleared(lanes, k)[k + j] == lanes[k + j];
      } else {
        assert SlotOf(SlotOf(first, k, n), j, n) == SlotOf(first, k + j - n, n);
        assert turned[j] == Lanes(slots, first)[k + j - n] == Cleared(lanes, k)[k + j - n] == [];
      }
    }
  }

  /** The live sessions with an id in the first `k` lanes. */
  function Listed(lanes: seq<seq<nat>>, sessions: map<nat, Session>, k: nat): (r: map<nat, Session>)
    requires k <= |lanes|
  {
    map id | id in sessions && id in InLanes(lanes, k) :: sessions[id]
  }

  lemma ListedNext(lanes: seq<seq<nat>>, k: nat, id: nat)
    requires k < |lanes|
    ensures id in InLanes(lanes, k + 1) <==> id in InLanes(lanes, k) || id in lanes[k]
  {
    if id in lanes[k] {
      var i :| 0 <= i < |lanes[k]| && lanes[k][i] == id;
      assert lanes[k][i] in InLanes(lanes, k + 1);
    }
  }

  /** One more lane taken out. */
  lemma ListedStep(lanes: seq<seq<nat>>, live: map<nat, Session>, k: nat,
                   out: map<nat, Session>, left: map<nat, Session>, more: map<nat, Session>)
    requires k < |lanes| && out == Listed(lanes, live, k) && left == live - out.Keys
    requires more == map id | id in left && id in lanes[k] :: left[id]
    ensures out + more == Listed(lanes, live, k + 1) && left - more.Keys == live - (out + more).Keys
  {
    forall id ensures id in InLanes(lanes, k + 1) <==> id in InLanes(lanes, k) || id in lanes[k] {
      ListedNext(lanes, k, id);
    }
  }

  /** The lanes with the first `k` empty. */
  ghost function Cleared(lanes: seq<seq<nat>>, k: nat): (r: seq<seq<nat>>)
    ensures |r| == |lanes|
  {
    seq(|lanes|, j requires 0 <= j < |lanes| => if j < k then [] else lanes[j])
  }

  lemma ClearedStep(lanes: seq<seq<nat>>, k: nat)
    requires k < |lanes|
    ensures Cleared(lanes, k)[k := []] == Cleared(lanes, k + 1) && Cleared(lanes, k)[k] == lanes[k]
  {
  }

  lemma StepGap(now: nat, step: nat, precision: nat)
    requires 0 < precision && step * precision <= (now / precision) * precision
    ensures ((now / precision) * precision - step * precision) / precision == now / precision - step && step <= now / precision
  {
    var c := now / precision;
    if c < step { Times(c, step, precision); }
    var x := c * precision - step * precision;
    assert x == (c - step) * precision;
    Exact(c - step, precision);
  }

  lemma Exact(k: nat, p: nat)
    requires 0 < p
    ensures k * p / p == k
  {
    var q, r := k * p / p, k * p % p;
    assert k * p == q * p + r;
    if q < k { Times(q, k, p); }
    if k < q { Times(k, q, p); }
  }

  class CSessionMgn {
    const slotNumber: nat
    const timeoutPrecision: nat
    const slots: array<seq<nat>>
    var lastCheckMSec: nat
    var lastCheckSlot: nat
    var sessions: map<nat, Session>
    ghost var step: nat                      // lastCheckMSec in steps

    ghost predicate Valid() reads this {
      && 0 < slotNumber < UINT32 && 0 < timeoutPrecision && slots.Length == slotNumber
      && lastCheckSlot < slotNumber && lastCheckMSec == step * timeoutPrecision
    }

    ghost function State(): (w: Wheel)
      requires Valid()
      reads this, slots
    {
      Wheel(step, Lanes(slots[..], lastCheckSlot), sessions)
    }

    constructor (slotCount: nat, precision: nat, now: nat)
      requires 0 < slotCount < UINT32 && 0 < precision
      ensures Valid() && fresh(slots) && slotNumber == slotCount && timeoutPrecision == precision
      ensures State() == Wheel(now / precision, seq(slotCount, _ => []), map[])
    {
      slotNumber, timeoutPrecision, lastCheckSlot, sessions := slotCount, precision, 0, map[];
      slots := new seq<nat>[slotCount](_ => []);
      lastCheckMSec, step := (now / precision) * precision, now / precision;
    }

    method SaveSession(s: Session)
      requires Valid()
      modifies this`sessions, slots
      ensures Valid() && State() == Save(old(State()), s, timeoutPrecision)
    {
      if s.sequence in sessions {
        return;
      }
      sessions := sessions[s.sequence := s];
      var sleepIndex := 1;
      if s.deadline > lastCheckMSec {
        sleepIndex := ((s.deadline - lastCheckMSec) / timeoutPrecision) % UINT32;
      }
      if sleepIndex >= slotNumber { sleepIndex := slotNumber - 1; }
      SlotMod(lastCheckSlot, sleepIndex, slotNumber);
      LaneUpdate(slots[..], lastCheckSlot, sleepIndex, Lanes(slots[..], lastCheckSlot)[sleepIndex] + [s.sequence]);
      var index := (sleepIndex + lastCheckSlot) % slotNumber;
      slots[index] := slots[index] + [s.sequence];
    }

    method EraseAndGetSession(id: nat) returns (r: seq<Session>)
      requires Valid()
      modifies this`sessions
      ensures Valid() && State() == Erase(old(State()), id)
      ensures r == if id in old(sessions) then [old(sessions)[id]] else []
    {
      r := if id in sessions then [sessions[id]] else [];
      sessions := sessions - {id};
    }

    /** Take the live sessions of one slot out and empty it. */
    method EmptySlot(index: nat) returns (timedOut: map<nat, Session>)
      requires Valid() && index < slotNumber
      modifies this`sessions, slots
      ensures Valid() && slots[..] == old(slots[..])[index := []]
      ensures timedOut == map id | id in old(sessions) && id in old(slots[index]) :: old(sessions)[id]
      ensures sessions == old(sessions) - timedOut.Keys
    {
      timedOut := map[];
      var ids := slots[index];
      for i := 0 to |ids|
        invariant Valid() && slots[..] == old(slots[..])
        invariant timedOut == map id | id in old(sessions) && id in ids[..i] :: old(sessions)[id]
        invariant sessions == old(sessions) - timedOut.Keys
      {
        assert ids[..i + 1] == ids[..i] + [ids[i]];
        if ids[i] in sessions {
          timedOut := timedOut[ids[i] := sessions[ids[i]]];
          sessions := sessions - {ids[i]};
        }
      }
      assert ids[..|ids|] == ids;
      slots[index] := [];
    }

    /** The same for the slot that falls due `i` slots from now. */
    method EmptyLane(i: nat) returns (timedOut: map<nat, Session>)
      requires Valid() && i < slotNumber
      modifies this`sessions, slots
      ensures Valid() && State().lanes == old(State().lanes)[i := []]
      ensures timedOut == map id | id in old(sessions) && id in old(State().lanes[i]) :: old(sessions)[id]
      ensures sessions == old(sessions) - timedOut.Keys
    {
      SlotMod(lastCheckSlot, i, slotNumber);
      LaneUpdate(slots[..], lastCheckSlot, i, []);
      timedOut := EmptySlot((lastCheckSlot + i) % slotNumber);
    }

    /** Empty the slots whose time has passed and report their sessions. */
    method CheckTimeout(now: nat) returns (timedOut: map<nat, Session>)
      requires Valid()
      modifies this`sessions, this`lastCheckMSec, this`lastCheckSlot, this`step, slots
      ensures Valid()
      ensures State() == Check(old(State()), now / timeoutPrecision)
      ensures timedOut == Fired(old(State()), now / timeoutPrecision)
    {
      timedOut := map[];
      var current := (now / timeoutPrecision) * timeoutPrecision;
      ghost var was := State();
      if current < lastCheckMSec {
        if now / timeoutPrecision >= step { Times(step, now / timeoutPrecision, timeoutPrecision); }
        lastCheckMSec, step := current, now / timeoutPrecision;
        assert InLanes(was.lanes, 0) == {};
        return;
      }
      StepGap(now, step, timeoutPrecision);
      var count := ((current - lastCheckMSec) / timeoutPrecision) % UINT32;
      if count >= slotNumber { count := slotNumber; }
      assert count == Passed(was, now / timeoutPrecision);
      timedOut := EmptySlots(count);
      SlotMod(lastCheckSlot, count, slotNumber);
      LanesTurn(slots[..], lastCheckSlot, count, was.lanes);
      lastCheckSlot := (lastCheckSlot + count) % slotNumber;
      lastCheckMSec, step := current, now / timeoutPrecision;
      assert State().lanes == was.lanes[count..] + seq(count, _ => []);
    }

    method EmptySlots(count: nat) returns (timedOut: map<nat, Session>)
      requires Valid() && count <= slotNumber
      modifies this`sessions, slots
      ensures Valid()
      ensures timedOut == Listed(old(State().lanes), old(sessions), count) && sessions == old(sessions) - timedOut.Keys
      ensures State().lanes == Cleared(old(State().lanes), count)
    {
      timedOut := map[];
      ghost var lanes, live := State().lanes, sessions;
      assert lanes == Cleared(lanes, 0);
      for i := 0 to count
        invariant Valid() && timedOut == Listed(lanes, live, i) && sessions == live - timedOut.Keys
        invariant State().lanes == Cleared(lanes, i)
      {
        ClearedStep(lanes, i);
        ghost var left := sessions;
        var more := EmptyLane(i);
        ListedStep(lanes, live, i, timedOut, left, more);
        timedOut := timedOut + more;
      }
    }
  }
}
