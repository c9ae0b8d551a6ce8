/**
 * Power transitions of the AMT helper (amt/src/main.rs, amt/src/rpc.rs): a two-leg HTTP exchange
 * inside a budget, retry loops inside a deadline, and the power cycle built from them. Times are
 * milliseconds; a leg that outlives its timeout is cut there and reads as a transient failure.
 */
module AmtPower {
  const CONFIRM_TIMEOUT: nat := 20000
  const POLL: nat := 1000
  const CALL_TIMEOUT: nat := 10000
  const MIN_CALL_TIMEOUT: nat := 1000
  const PS_ON: nat := 2
  const PS_OFF_SOFT: nat := 8

  /** How one HTTP leg ends: a 401 challenge, a response body, or a failure. */
  datatype LegEnd = Challenge | Body(value: nat) | Failed(transient: bool)

  datatype Leg = Leg(time: nat, end: LegEnd)

  /** What the wire does to one call; the second leg only matters after a challenge. */
  datatype Exchange = Exchange(first: Leg, second: Leg)

  /** The value parsed from the body (a PowerState, or a ReturnValue), or an error. */
  datatype Reply = Answer(value: nat) | Failure(transient: bool)

  datatype Request = GetState | SetState(state: nat)

  datatype Call = Call(request: Request, start: nat, finish: nat, reply: Reply)

  function Max(a: nat, b: nat): nat {
    if a < b then b else a
  }

  function LegTime(leg: Leg, timeout: nat): (t: nat)
    ensures t <= timeout
  {
    if leg.time <= timeout then leg.time else timeout
  }

  function LegResult(leg: Leg, timeout: nat): LegEnd {
    if leg.time <= timeout then leg.end else Failed(true)
  }

  /** The time an exchange takes within `budget`, and its reply. */
  function Exchanged(x: Exchange, budget: nat): (r: (nat, Reply))
    ensures r.0 <= Max(budget, MIN_CALL_TIMEOUT) + MIN_CALL_TIMEOUT
    ensures budget >= MIN_CALL_TIMEOUT ==> r.0 <= budget + MIN_CALL_TIMEOUT
  {
    var first := Max(budget, MIN_CALL_TIMEOUT);
    var t := LegTime(x.first, first);
    match LegResult(x.first, first)
    case Body(v) => (t, Answer(v))
    case Failed(transient) => (t, Failure(transient))
    case Challenge =>
      var second := Max(if t < budget then budget - t else 0, MIN_CALL_TIMEOUT);
      var u := t + LegTime(x.second, second);
      match LegResult(x.second, second)
      case Body(v) => (u, Answer(v))
      case Failed(transient) => (u, Failure(transient))
      case Challenge => (u, Failure(false))
  }

  /** `attempt_timeout`. */
  function AttemptTimeout(now: nat, deadline: nat): (t: nat)
    ensures MIN_CALL_TIMEOUT <= t <= CALL_TIMEOUT
    ensures now + t <= Max(deadline, now + MIN_CALL_TIMEOUT)
  {
    var left := if now < deadline then deadline - now else 0;
    if left < MIN_CALL_TIMEOUT then MIN_CALL_TIMEOUT else if left > CALL_TIMEOUT then CALL_TIMEOUT else left
  }

  /** An attempt gets what is left before the deadline, but never less than a second nor more than ten. */
  lemma AttemptFits(now: nat, deadline: nat)
    ensures var t := AttemptTimeout(now, deadline);
      && 1000 <= t <= 10000 && (1000 <= deadline - now <= 10000 ==> t == deadline - now)
      && (deadline - now < 1000 ==> t == 1000) && (deadline - now > 10000 ==> t == 10000)
  {
  }

  /** What a retry loop waits for. */
  datatype Goal = Accepted | Reached(state: nat)

  /** Replies a loop answers with another attempt while its deadline has not passed. */
  predicate Retries(goal: Goal, reply: Reply) {
    match reply
    case Failure(transient) => transient
    case Answer(v) => goal.Reached? && v != goal.state
  }

  /** One retry loop's calls: started at `from`, each on the wire's next exchange with what is left of the
      deadline, one poll apart, and going on exactly while the reply can be retried before the deadline. */
  ghost predicate Loop(wire: nat -> Exchange, base: nat, t: seq<Call>, request: Request, goal: Goal, from: nat) {
    && Going(wire, base, t, request, goal, from)
    && t != []
    && var last := t[|t| - 1]; !(Retries(goal, last.reply) && last.finish < from + CONFIRM_TIMEOUT)
  }

  ghost predicate Going(wire: nat -> Exchange, base: nat, t: seq<Call>, request: Request, goal: Goal, from: nat) {
    var deadline := from + CONFIRM_TIMEOUT;
    && (t != [] ==> t[0].start == from)
    && (forall i :: 0 <= i < |t| ==> t[i].request == request && TimedBy(wire, base + i, t[i], deadline))
    && (forall i :: 0 < i < |t| ==> Resumes(t, i, goal, deadline))
  }

  /** Call `i` follows a reply that could be retried before the deadline, one poll later. */
  predicate Resumes(t: seq<Call>, i: nat, goal: Goal, deadline: nat)
    requires 0 < i < |t|
  {
    Retries(goal, t[i - 1].reply) && t[i - 1].finish < deadline && t[i].start == t[i - 1].finish + POLL
  }

  predicate TimedBy(wire: nat -> Exchange, n: nat, c: Call, deadline: nat) {
    var (elapsed, reply) := Exchanged(wire(n), AttemptTimeout(c.start, deadline));
    c.finish == c.start + elapsed && c.reply == reply
  }

  lemma {:induction false} Paced(wire: nat -> Exchange, base: nat, t: seq<Call>, request: Request, goal: Goal, from: nat,
        k: nat)
    requires Going(wire, base, t, request, goal, from) && k < |t|
    ensures from + k * POLL <= t[k].start
    ensures t[k].start < from + CONFIRM_TIMEOUT + POLL
    ensures t[k].start <= t[k].finish < from + CONFIRM_TIMEOUT + POLL + 2 * MIN_CALL_TIMEOUT
  {
    assert TimedBy(wire, base + k, t[k], from + CONFIRM_TIMEOUT);
    if k > 0 {
      assert Resumes(t, k, goal, from + CONFIRM_TIMEOUT);
      Paced(wire, base, t, request, goal, from, k - 1);
    }
  }

  /** Whatever fails and when: at most 21 attempts, and over within 23 seconds. */
  lemma LoopIsBounded(wire: nat -> Exchange, base: nat, t: seq<Call>, request: Request, goal: Goal, from: nat)
    requires Going(wire, base, t, request, goal, from) && t != []
    ensures |t| <= 21
    ensures from <= t[|t| - 1].finish < from + CONFIRM_TIMEOUT + POLL + 2 * MIN_CALL_TIMEOUT == from + 23000
  {
    hide Going;
    Paced(wire, base, t, request, goal, from, |t| - 1);
  }

  /** Both bounds are reached: 21 attempts on a wire that fails at once, ... */
  lemma AttemptsReached(from: nat) returns (wire: nat -> Exchange, t: seq<Call>)
    ensures |t| == 21 && Loop(wire, 0, t, SetState(PS_ON), Accepted, from)
  {
    wire := _ => Exchange(Leg(0, Failed(true)), Leg(0, Failed(true)));
    var deadline := from + CONFIRM_TIMEOUT;
    t := seq(21, k requires 0 <= k < 21 => Call(SetState(PS_ON), from + k * POLL, from + k * POLL, Failure(true)));
    forall i | 0 < i < 21
      ensures Resumes(t, i, Accepted, deadline)
    {
    }
  }

  /** ... and 22.999 seconds on one that stalls. */
  lemma TimeReached(from: nat) returns (wire: nat -> Exchange, t: seq<Call>)
    ensures Loop(wire, 0, t, SetState(PS_ON), Accepted, from)
    ensures t[|t| - 1].finish == from + 22999
  {
    wire := n =>
      if n == 0 then Exchange(Leg(10000, Failed(true)), Leg(0, Challenge))
      else if n == 1 then Exchange(Leg(8999, Failed(true)), Leg(0, Challenge))
      else Exchange(Leg(1000, Challenge), Leg(1000, Failed(true)));
    t := [
      Call(SetState(PS_ON), from, from + 10000, Failure(true)),
      Call(SetState(PS_ON), from + 11000, from + 19999, Failure(true)),
      Call(SetState(PS_ON), from + 20999, from + 22999, Failure(true))
    ];
  }

  // ---- What a reply means ----

  /** A value came in the body of one of the legs; a second challenge is a refusal for good. */
  lemma ReplyCame(x: Exchange, budget: nat)
    ensures var reply := Exchanged(x, budget).1;
      && (forall v :: reply == Answer(v) ==> x.first.end == Body(v) || (x.first.end == Challenge && x.second.end == Body(v)))
      && (reply == Failure(false) ==>
            x.first.end == Failed(false) || (x.first.end == Challenge && x.second.end in {Challenge, Failed(false)}))
  {
  }

  /**
   * Legs that keep their time are not cut: each has at least a second whatever the budget, and the
   * first the whole of a longer one. A leg that does not is a failure that may pass.
   */
  lemma LegsInTime(x: Exchange, budget: nat)
    ensures var (elapsed, reply) := Exchanged(x, budget);
      && (x.first.time <= MIN_CALL_TIMEOUT || x.first.time <= budget ==>
            && (forall v :: x.first.end == Body(v) ==> elapsed == x.first.time && reply == Answer(v))
            && (forall p :: x.first.end == Failed(p) ==> elapsed == x.first.time && reply == Failure(p))
            && (x.first.end == Challenge && (x.second.time <= MIN_CALL_TIMEOUT || x.first.time + x.second.time <= budget) ==>
                  && elapsed == x.first.time + x.second.time
                  && (forall v :: x.second.end == Body(v) ==> reply == Answer(v))
                  && (forall p :: x.second.end == Failed(p) ==> reply == Failure(p))
                  && (x.second.end == Challenge ==> reply == Failure(false)))
            && (x.first.end == Challenge && x.second.time > MIN_CALL_TIMEOUT && x.first.time + x.second.time > budget ==>
                  reply == Failure(true)))
      && (x.first.time > MIN_CALL_TIMEOUT && x.first.time > budget ==> reply == Failure(true))
  {
  }

  /**
   * A loop goes on exactly after failures that may pass and, when it waits for a state, after
   * other states, while its 20 seconds are not over: every other reply is its last.
   */
  lemma LoopRule(wire: nat -> Exchange, base: nat, t: seq<Call>, request: Request, goal: Goal, from: nat)
    requires Loop(wire, base, t, request, goal, from)
    ensures forall i :: 0 <= i < |t| && i != |t| - 1 ==>
      && t[i].finish < from + 20000
      && (t[i].reply == Failure(true) || (goal.Reached? && t[i].reply.Answer? && t[i].reply.value != goal.state))
    ensures var last := t[|t| - 1];
      || last.finish >= from + 20000 || last.reply == Failure(false)
      || (last.reply.Answer? && (goal.Reached? ==> last.reply.value == goal.state))
  {
    forall i | 0 <= i < |t| && i != |t| - 1
      ensures Retries(goal, t[i].reply) && t[i].finish < from + 20000
    {
      assert Resumes(t, i + 1, goal, from + CONFIRM_TIMEOUT);
    }
  }

  /** A password that is refused, by a second challenge, is not tried again. */
  lemma RefusedOnce(wire: nat -> Exchange, base: nat, t: seq<Call>, request: Request, goal: Goal, from: nat)
    requires Loop(wire, base, t, request, goal, from)
    requires var x := wire(base);
      && x.first.end == Challenge && x.second.end == Challenge
      && x.first.time <= MIN_CALL_TIMEOUT && x.second.time <= MIN_CALL_TIMEOUT
    ensures |t| == 1 && t[0].reply == Failure(false)
  {
    assert TimedBy(wire, base + 0, t[0], from + CONFIRM_TIMEOUT);
    LegsInTime(wire(base), AttemptTimeout(t[0].start, from + CONFIRM_TIMEOUT));
    LoopRule(wire, base, t, request, goal, from);
    hide Loop, Exchanged;
  }

  class Client {
    const wire: nat -> Exchange
    var clock: nat
    var log: seq<Call>

    constructor (wire: nat -> Exchange, now: nat)
      ensures this.wire == wire && clock == now && log == []
    {
      this.wire, clock, log := wire, now, [];
    }

    /** One leg: `ureq` gives up at the timeout. */
    method RunLeg(leg: Leg, timeout: nat) returns (end: LegEnd)
      modifies this`clock
      ensures clock == old(clock) + LegTime(leg, timeout) && end == LegResult(leg, timeout)
    {
      if leg.time <= timeout {
        clock := clock + leg.time;
        return leg.end;
      }
      clock := clock + timeout;
      return Failed(true);
    }

    /** `post` and the reading of its answer: unauthenticated, then once more when challenged. */
    method Post(request: Request, budget: nat) returns (reply: Reply)
      modifies this
      ensures
        var (elapsed, r) := Exchanged(wire(|old(log)|), budget);
        clock == old(clock) + elapsed && reply == r
      ensures log == old(log) + [Call(request, old(clock), clock, reply)]
    {
      var start, deadline := clock, clock + budget;
      var x := wire(|log|);
      var end := RunLeg(x.first, Max(if clock < deadline then deadline - clock else 0, MIN_CALL_TIMEOUT));
      match end {
        case Body(v) => reply := Answer(v);
        case Failed(transient) => reply := Failure(transient);
        case Challenge =>
          end := RunLeg(x.second, Max(if clock < deadline then deadline - clock else 0, MIN_CALL_TIMEOUT));
          match end {
            case Body(v) => reply := Answer(v);
            case Failed(transient) => reply := Failure(transient);
            case Challenge => reply := Failure(false);
          }
      }
      log := log + [Call(request, start, clock, reply)];
    }

    /** `request_retrying`: accepted exactly when the last ReturnValue is 0. */
    method RequestRetrying(state: nat) returns (ok: bool)
      modifies this
      ensures old(log) <= log
      ensures
        var t := log[|old(log)|..];
        && Loop(wire, |old(log)|, t, SetState(state), Accepted, old(clock))
        && clock == t[|t| - 1].finish
        && ok == (t[|t| - 1].reply == Answer(0))
    {
      ghost var base, from, was := |log|, clock, log;
      var deadline := clock + CONFIRM_TIMEOUT;
      while true
        invariant was <= log && |log| >= base
        invariant Going(wire, base, log[base..], SetState(state), Accepted, from)
        invariant MayGoOn(log[base..], Accepted, from, clock)
        decreases deadline + POLL - clock
      {
        ghost var t, start := log[base..], clock;
        var reply := Post(SetState(state), AttemptTimeout(clock, deadline));
        assert log[base..] == t + [Call(SetState(state), start, clock, reply)];
        OneMore(wire, base, t, SetState(state), Accepted, from, log[base + |t|]);
        if reply.Failure? && reply.transient && clock < deadline {
          clock := clock + POLL;
        } else {
          return reply == Answer(0);
        }
      }
    }

    /** `wait_until` with `done` asking for one state. */
    method WaitUntil(state: nat) returns (ok: bool)
      modifies this
      ensures old(log) <= log
      ensures
        var t := log[|old(log)|..];
        && Loop(wire, |old(log)|, t, GetState, Reached(state), old(clock))
        && clock == t[|t| - 1].finish
        && ok == (t[|t| - 1].reply == Answer(state))
    {
      ghost var base, from, was := |log|, clock, log;
      var deadline := clock + CONFIRM_TIMEOUT;
      while true
        invariant was <= log && |log| >= base
        invariant Going(wire, base, log[base..], GetState, Reached(state), from)
        invariant MayGoOn(log[base..], Reached(state), from, clock)
        decreases deadline + POLL - clock
      {
        ghost var t, start := log[base..], clock;
        var reply := Post(GetState, AttemptTimeout(clock, deadline));
        assert log[base..] == t + [Call(GetState, start, clock, reply)];
        OneMore(wire, base, t, GetState, Reached(state), from, log[base + |t|]);
        match reply {
          case Answer(ps) =>
            if ps == state {
              return true;
            }
            if clock >= deadline {
              return false;
            }
          case Failure(transient) =>
            if !transient || clock >= deadline {
              return false;
            }
        }
        clock := clock + POLL;
      }
    }

    /** The two steps of every transition: `request_retrying(state)?; wait_until(state)?`. */
    method Transition(state: nat) returns (ok: bool)
      modifies this
      ensures old(log) < log
      ensures old(clock) <= clock < old(clock) + 2 * 23000
      ensures Steps(log[|old(log)|..], state, old(clock), ok) && clock == log[|log| - 1].finish
    {
      hide Going;
      ghost var base, from := |log|, clock;
      ok := RequestRetrying(state);
      ghost var t := log[base..];
      LoopIsBounded(wire, base, t, SetState(state), Accepted, from);
      LoopCalls(wire, base, t, SetState(state), Accepted, from);
      if !ok {
        RefusedSteps(t, state, from);
        return;
      }
      ghost var mid, now, so := |log|, clock, log;
      ok := WaitUntil(state);
      ghost var u := log[mid..];
      LoopIsBounded(wire, mid, u, GetState, Reached(state), now);
      LoopCalls(wire, mid, u, GetState, Reached(state), now);
      AcceptedSteps(t, u, state, from, now, ok);
      assert log == so + u && log[base..] == t + u;
    }

    /** `cmd_on` and `cmd_off`: a machine already there is asked for nothing. */
    method Switch(state: nat) returns (ok: bool)
      modifies this
      ensures old(log) < log
      ensures clock <= old(clock) + 11000 + 2 * 23000
      ensures
        var t := log[|old(log)|..];
        && t[0].request == GetState
        && (if t[0].reply == Answer(state) then ok && |t| == 1
            else if t[0].reply.Failure? then !ok && |t| == 1
            else Steps(t[1..], state, t[0].finish, ok))
    {
      hide Steps;
      ghost var base := |log|;
      var before := Post(GetState, CALL_TIMEOUT);
      if before.Failure? {
        return false;
      }
      if before.value == state {
        return true;
      }
      ghost var mid := |log|;
      ok := Transition(state);
      assert log[base..][1..] == log[mid..];
    }

    /** `cmd_cycle`. */
    method Cycle(delay: nat) returns (ok: bool)
      modifies this
      ensures old(log) < log
      ensures clock <= old(clock) + 11000 + 4 * 23000 + delay
      ensures ColdBoot(log[|old(log)|..], delay)
      ensures ok <==> Reaches(log[|old(log)|..], PS_ON)
    {
      hide Steps, ColdBoot, Reaches;
      ghost var base, from := |log|, clock;
      var before := Post(GetState, CALL_TIMEOUT);
      ghost var first := log[base..];
      assert first == [Call(GetState, from, clock, before)];
      if before.Failure? {
        ReadFailed(first, delay);
        return false;
      }
      ghost var off: seq<Call>, offFrom := [], clock;
      if before.value != PS_OFF_SOFT {
        ghost var mid := |log|;
        ok := Transition(PS_OFF_SOFT);
        off := log[mid..];
        assert log[base..] == first + off;
        if !ok {
          OffFailed(first, off, delay, offFrom);
          return;
        }
        clock := clock + delay;
      }
      ghost var mid, now := |log|, clock;
      ok := Transition(PS_ON);
      ghost var on := log[mid..];
      assert log[base..] == first + off + on;
      OnAfterOff(first, off, on, delay, now, offFrom, ok);
    }
  }

  /** Between attempts: the clock stands where the next one starts. */
  ghost predicate MayGoOn(t: seq<Call>, goal: Goal, from: nat, now: nat) {
    if t == [] then now == from
    else
      var last := t[|t| - 1];
      Retries(goal, last.reply) && last.finish < from + CONFIRM_TIMEOUT && now == last.finish + POLL
  }

  lemma OneMore(wire: nat -> Exchange, base: nat, t: seq<Call>, request: Request, goal: Goal, from: nat, c: Call)
    requires Going(wire, base, t, request, goal, from) && MayGoOn(t, goal, from, c.start)
    requires c.request == request && TimedBy(wire, base + |t|, c, from + CONFIRM_TIMEOUT)
    ensures Going(wire, base, t + [c], request, goal, from)
  {
    hide TimedBy;
    var u, deadline := t + [c], from + CONFIRM_TIMEOUT;
    forall i | 0 <= i < |u|
      ensures u[i].request == request && TimedBy(wire, base + i, u[i], deadline)
      ensures i > 0 ==> Resumes(u, i, goal, deadline)
    {
      if 0 < i < |t| {
        assert Resumes(t, i, goal, deadline);
      }
    }
  }

  // ---- What a run of calls shows ----

  /** The last call reads `state`, and the machine accepted a request for it before. */
  predicate Reaches(t: seq<Call>, state: nat) {
    && t != []
    && t[|t| - 1].request == GetState && t[|t| - 1].reply == Answer(state)
    && exists a :: 0 <= a < |t| && t[a].request == SetState(state) && t[a].reply == Answer(0)
  }

  /** One transition: it asks for nothing but `state`, and succeeds exactly when it ends there. */
  ghost predicate Steps(t: seq<Call>, state: nat, from: nat, ok: bool) {
    && t != []
    && (forall i :: 0 <= i < |t| ==>
      t[i].request in {GetState, SetState(state)} && from <= t[i].start && t[i].finish <= t[|t| - 1].finish)
    && ok == Reaches(t, state)
  }

  /** Off was accepted and then seen, at least `delay` before call `i`. */
  ghost predicate HeldOff(t: seq<Call>, i: nat, delay: nat)
    requires i < |t|
  {
    exists a, b :: 0 < a < b < i
      && t[a].request == SetState(PS_OFF_SOFT) && t[a].reply == Answer(0)
      && t[b].request == GetState && t[b].reply == Answer(PS_OFF_SOFT)
      && t[b].finish + delay <= t[i].start
  }

  /** A machine is powered on only from soft-off: found there at first, or put there, seen there and held.
      One found there is never asked to turn off. */
  ghost predicate ColdBoot(t: seq<Call>, delay: nat) {
    && t != [] && t[0].request == GetState
    && (forall i :: 0 <= i < |t| ==> t[i].request in {GetState, SetState(PS_OFF_SOFT), SetState(PS_ON)})
    && (forall i :: 0 <= i < |t| && t[i].request == SetState(PS_ON) ==>
      t[0].reply == Answer(PS_OFF_SOFT) || HeldOff(t, i, delay))
    && (forall i :: 0 <= i < |t| && t[i].request == SetState(PS_OFF_SOFT) ==>
      t[0].reply.Answer? && t[0].reply.value != PS_OFF_SOFT)
  }

  lemma {:induction false} Ordered(wire: nat -> Exchange, base: nat, t: seq<Call>, request: Request, goal: Goal,
        from: nat, i: nat, j: nat)
    requires Going(wire, base, t, request, goal, from) && i <= j < |t|
    ensures t[i].finish <= t[j].finish
  {
    if i < j {
      assert TimedBy(wire, base + j, t[j], from + CONFIRM_TIMEOUT) && Resumes(t, j, goal, from + CONFIRM_TIMEOUT);
      Ordered(wire, base, t, request, goal, from, i, j - 1);
    }
  }

  lemma LoopCalls(wire: nat -> Exchange, base: nat, t: seq<Call>, request: Request, goal: Goal, from: nat)
    requires Going(wire, base, t, request, goal, from)
    ensures forall i :: 0 <= i < |t| ==>
      t[i].request == request && from <= t[i].start && t[i].finish <= t[|t| - 1].finish
  {
    forall i | 0 <= i < |t|
      ensures t[i].request == request && from <= t[i].start && t[i].finish <= t[|t| - 1].finish
    {
      Paced(wire, base, t, request, goal, from, i);
      Ordered(wire, base, t, request, goal, from, i, |t| - 1);
    }
  }

  lemma RefusedSteps(t: seq<Call>, state: nat, from: nat)
    requires t != [] && forall i :: 0 <= i < |t| ==>
      t[i].request == SetState(state) && from <= t[i].start && t[i].finish <= t[|t| - 1].finish
    ensures Steps(t, state, from, false)
  {
    assert t[|t| - 1].request == SetState(state);
  }

  lemma AcceptedSteps(t: seq<Call>, u: seq<Call>, state: nat, from: nat, now: nat, ok: bool)
    requires t != [] && u != [] && from <= now && now == t[|t| - 1].finish <= u[|u| - 1].finish
    requires forall i :: 0 <= i < |t| ==>
      t[i].request == SetState(state) && from <= t[i].start && t[i].finish <= t[|t| - 1].finish
    requires forall i :: 0 <= i < |u| ==>
      u[i].request == GetState && now <= u[i].start && u[i].finish <= u[|u| - 1].finish
    requires t[|t| - 1].reply == Answer(0) && ok == (u[|u| - 1].reply == Answer(state))
    ensures Steps(t + u, state, from, ok)
  {
    var v := t + u;
    assert v[|t| - 1] == t[|t| - 1] && v[|v| - 1] == u[|u| - 1];
  }

  ghost predicate FirstRead(first: seq<Call>) {
    |first| == 1 && first[0].request == GetState
  }

  lemma ReadFailed(first: seq<Call>, delay: nat)
    requires FirstRead(first) && first[0].reply.Failure?
    ensures ColdBoot(first, delay) && !Reaches(first, PS_ON)
  {
  }

  lemma OffFailed(first: seq<Call>, off: seq<Call>, delay: nat, from: nat)
    requires FirstRead(first) && first[0].reply.Answer? && first[0].reply.value != PS_OFF_SOFT
    requires Steps(off, PS_OFF_SOFT, from, false)
    ensures ColdBoot(first + off, delay) && !Reaches(first + off, PS_ON)
  {
    hide Reaches;
    var t := first + off;
    forall i | 0 <= i < |t|
      ensures t[i].request in {GetState, SetState(PS_OFF_SOFT)}
    {
      assert t[i] == if i == 0 then first[0] else off[i - 1];
    }
    NoReach(t);
  }

  lemma NoReach(t: seq<Call>)
    requires forall i :: 0 <= i < |t| ==> t[i].request != SetState(PS_ON)
    ensures !Reaches(t, PS_ON)
  {
  }

  /** The on phase, after an off phase or after finding the machine off. */
  lemma OnAfterOff(first: seq<Call>, off: seq<Call>, on: seq<Call>, delay: nat, from: nat, offFrom: nat, ok: bool)
    requires FirstRead(first) && first[0].reply.Answer?
    requires first[0].reply.value == PS_OFF_SOFT <==> off == []
    requires off != [] ==> Steps(off, PS_OFF_SOFT, offFrom, true) && off[|off| - 1].finish + delay <= from
    requires Steps(on, PS_ON, from, ok)
    ensures ColdBoot(first + off + on, delay) && ok == Reaches(first + off + on, PS_ON)
  {
    var t := first + off + on;
    var m := 1 + |off|;
    forall i | 0 <= i < |t|
      ensures i < m ==> t[i].request in {GetState, SetState(PS_OFF_SOFT)} && (off == [] ==> t[i].request == GetState)
      ensures i >= m ==> t[i] == on[i - m] && t[i].request in {GetState, SetState(PS_ON)} && from <= t[i].start
    {
      assert t[i] == if i == 0 then first[0] else if i < m then off[i - 1] else on[i - m];
    }
    assert t[|t| - 1] == on[|on| - 1];
    if off != [] {
      var a :| 0 <= a < |off| && off[a].request == SetState(PS_OFF_SOFT) && off[a].reply == Answer(0);
      assert t[a + 1] == off[a] && t[m - 1] == off[|off| - 1];
      forall i | m <= i < |t|
        ensures HeldOff(t, i, delay)
      {
        assert a + 1 < m - 1;
      }
    }
    if a :| 0 <= a < |on| && on[a].request == SetState(PS_ON) && on[a].reply == Answer(0) {
      assert t[m + a] == on[a];
    }
  }
}
