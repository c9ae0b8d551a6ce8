/**
 * The video pipeline's life cycle in jetkvm/video.go: clients come and go, a linger timer and
 * a decoder process outlive them for a while, and shutdown may come at any time. Every locked
 * region, timer and process event is one step; they interleave freely.
 */
module JetkvmVideo {
  import opened Bytes

  type Dims = (int, int)

  /**
   * `timer` is the linger timer the pipeline knows of; `armed` are all that still run and
   * `fired` those whose callback has not got the lock yet. `live` are decoder processes,
   * `stopping` those handed to a stop, `exited` those whose exit is not noted yet. `clients`
   * counts the clients that acquired and have not released.
   */
  datatype State = State(
    refs: nat, active: bool, timer: Option<nat>, closed: bool, dec: Option<nat>, size: Option<Dims>,
    sizes: map<nat, Dims>, timers: nat, decoders: nat,
    armed: set<nat>, fired: set<nat>, live: set<nat>, stopping: set<nat>, exited: set<nat>, clients: nat)

  const Init := State(0, false, None, false, None, None, map[], 0, 0, {}, {}, {}, {}, {}, 0)

  function Opt(t: Option<nat>): set<nat> { if t.Some? then {t.value} else {} }

  // -- the locked regions ---------------------------------------------------------------

  function Acquired(s: State): State {
    if s.closed then s
    else s.(refs := s.refs + 1, clients := s.clients + 1, active := true,
            armed := s.armed - Opt(s.timer), timer := None)
  }

  function Released(s: State): State {
    var refs := if s.refs > 0 then s.refs - 1 else 0;
    var r := s.(refs := refs, clients := if s.clients > 0 then s.clients - 1 else 0);
    if refs == 0 && s.active && s.timer.None?
    then r.(timer := Some(s.timers), timers := s.timers + 1, armed := s.armed + {s.timers}) else r
  }

  function Deactivated(s: State): State {
    if s.refs > 0 || !s.active then s
    else s.(active := false, timer := None, dec := None, stopping := s.stopping + Opt(s.dec))
  }

  function Shut(s: State): State {
    s.(closed := true, refs := 0, active := false, armed := s.armed - Opt(s.timer), timer := None,
       dec := None, stopping := s.stopping + Opt(s.dec))
  }

  /** The picture size in force once an access unit with parameter set `sps`, if any, arrived. */
  function SizeWith(s: State, sps: Option<Dims>): Option<Dims> {
    if sps.Some? then sps else s.size
  }

  /** Whether such an access unit calls for a new decoder: no decoder of its size is in use. */
  predicate Replaces(s: State, sps: Option<Dims>) {
    var size := SizeWith(s, sps);
    s.active && size.Some?
    && !(s.dec.Some? && s.dec.value in s.sizes && s.sizes[s.dec.value] == size.value)
  }

  /** The decoder in use gives way to one of the size in force, if that one starts. */
  function Restarted(s: State, size: Dims, starts: bool): State {
    var r := s.(stopping := s.stopping + Opt(s.dec), dec := None);
    if !starts then r
    else
      r.(dec := Some(s.decoders), decoders := s.decoders + 1, live := s.live + {s.decoders},
         sizes := s.sizes[s.decoders := size])
  }

  /** An access unit arrives; `starts` tells whether a decoder that is called for starts. */
  function Fed(s: State, sps: Option<Dims>, starts: bool): State {
    if !s.active then s
    else
      var r := s.(size := SizeWith(s, sps));
      if Replaces(s, sps) then Restarted(r, r.size.value, starts) else r
  }

  function ExitNoted(s: State, d: nat): State {
    if s.dec == Some(d) then s.(dec := None) else s
  }

  class Video {
    var refs: nat
    var active: bool
    var timer: Option<nat>
    var closed: bool
    var dec: Option<nat>
    var size: Option<Dims>
    var sizes: map<nat, Dims>
    var timers: nat
    var decoders: nat
    ghost var armed: set<nat>
    ghost var fired: set<nat>
    ghost var live: set<nat>
    ghost var stopping: set<nat>
    ghost var exited: set<nat>
    ghost var clients: nat

    ghost function View(): State
      reads this
    {
      State(refs, active, timer, closed, dec, size, sizes, timers, decoders, armed, fired, live, stopping, exited, clients)
    }

    constructor ()
      ensures View() == Init
    {
      refs, active, timer, closed, dec, size, sizes := 0, false, None, false, None, None, map[];
      timers, decoders := 0, 0;
      armed, fired, live, stopping, exited, clients := {}, {}, {}, {}, {}, 0;
    }

    /** Stops the linger timer the pipeline knows of, if there is one. */
    method StopTimer()
      modifies this`armed, this`timer
      ensures armed == old(armed) - Opt(old(timer)) && timer == None
    {
      if timer.Some? {
        armed := armed - {timer.value};
        timer := None;
      }
    }

    method Acquire() returns (ok: bool)
      modifies this
      ensures View() == Acquired(old(View())) && ok == !old(closed)
    {
      if closed {
        return false;
      }
      refs := refs + 1;
      clients := clients + 1;
      StopTimer();
      if !active {
        active := true;
      }
      ok := true;
    }

    method Release()
      requires clients > 0
      modifies this
      ensures View() == Released(old(View()))
    {
      clients := clients - 1;
      if refs > 0 {
        refs := refs - 1;
      }
      if refs == 0 && active && timer.None? {
        timer := Some(timers);
        armed := armed + {timers};
        timers := timers + 1;
      }
    }

    /** The linger timer's callback. Returns the decoder it must stop. */
    method Deactivate() returns (d: Option<nat>)
      modifies this
      ensures View() == Deactivated(old(View()))
      ensures d == if old(refs) > 0 || !old(active) then None else old(dec)
    {
      if refs > 0 || !active {
        return None;
      }
      active := false;
      timer := None;
      d := dec;
      dec := None;
      stopping := stopping + Opt(d);
    }

    method Close() returns (d: Option<nat>)
      modifies this
      ensures View() == Shut(old(View())) && d == old(dec)
    {
      closed, refs, active := true, 0, false;
      StopTimer();
      d := dec;
      dec := None;
      stopping := stopping + Opt(d);
    }

    /** Returns the decoder that was replaced, for stopping. */
    method FeedAU(sps: Option<Dims>, starts: bool) returns (replaced: Option<nat>)
      modifies this
      ensures View() == Fed(old(View()), sps, starts)
      ensures replaced == if Replaces(old(View()), sps) then old(dec) else None
    {
      hide Restarted;
      replaced := None;
      if !active {
        return;
      }
      if sps.Some? {
        size := sps;
      }
      if size.None? {
        return;
      }
      if dec.None? || dec.value !in sizes || sizes[dec.value] != size.value {
        replaced := dec;
        Restart(size.value, starts);
      }
    }

    /** The part of FeedAU that starts a decoder. */
    method Restart(dims: Dims, starts: bool)
      modifies this`dec, this`stopping, this`live, this`sizes, this`decoders
      ensures View() == Restarted(old(View()), dims, starts)
    {
      stopping := stopping + Opt(dec);
      if starts {
        dec, live := Some(decoders), live + {decoders};
        sizes, decoders := sizes[decoders := dims], decoders + 1;
      } else {
        dec := None;
      }
    }

    method OnDecoderExit(d: nat)
      modifies this
      ensures View() == ExitNoted(old(View()), d)
    {
      if dec == Some(d) {
        dec := None;
      }
    }
  }

  // -- the whole system -----------------------------------------------------------------

  datatype Step =
    | Acquire | Release | TimerFires(t: nat) | CallbackRuns(t: nat) | Close
    | Feed(sps: Option<Dims>, starts: bool)
    | Stopped(d: nat) | Dies(d: nat) | ExitSeen(d: nat)

  function Next(s: State, step: Step): State {
    match step
    case Acquire => Acquired(s)
    case Release => if s.clients == 0 then s else Released(s)
    case TimerFires(t) => if t in s.armed then s.(armed := s.armed - {t}, fired := s.fired + {t}) else s
    case CallbackRuns(t) => if t in s.fired then Deactivated(s.(fired := s.fired - {t})) else s
    case Close => Shut(s)
    case Feed(sps, starts) => Fed(s, sps, starts)
    case Stopped(d) =>
      if d !in s.stopping then s
      else s.(stopping := s.stopping - {d}, live := s.live - {d}, exited := s.exited + (s.live * {d}))
    case Dies(d) => if d in s.live then s.(live := s.live - {d}, exited := s.exited + {d}) else s
    case ExitSeen(d) => if d in s.exited then ExitNoted(s.(exited := s.exited - {d}), d) else s
  }

  function Run(s: State, steps: seq<Step>): State
    decreases |steps|
  {
    if steps == [] then s else Run(Next(s, steps[0]), steps[1..])
  }

  ghost predicate Inv(s: State) {
    && (s.active ==> !s.closed)
    && (s.refs > 0 ==> s.active)
    && (s.dec.Some? ==> s.active)
    && (s.timer.Some? ==> s.active && s.refs == 0)
    && (!s.closed ==> s.refs == s.clients)
    && s.live <= Opt(s.dec) + s.stopping && s.live !! s.exited
    && (forall d :: d in s.live || d in s.exited || d in Opt(s.dec) ==> d < s.decoders)
    && (s.dec.Some? ==> s.dec.value in s.live + s.exited && s.dec.value !in s.stopping)
    && (forall d <- s.stopping :: d < s.decoders)
    && (s.timer.Some? ==> s.timer.value < s.timers)
    && (forall t :: t in s.armed || t in s.fired ==> t < s.timers)
  }

  lemma NextKeepsInv(s: State, step: Step)
    requires Inv(s)
    ensures Inv(Next(s, step))
    ensures s.closed ==> Next(s, step).closed
  {
    match step
    case Feed(sps, starts) => FedKeepsInv(s, sps, starts);
    case _ =>
  }

  lemma FedKeepsInv(s: State, sps: Option<Dims>, starts: bool)
    requires Inv(s)
    ensures Inv(Fed(s, sps, starts))
  {
  }

  lemma {:induction false} RunKeepsInv(s: State, steps: seq<Step>)
    requires Inv(s)
    ensures Inv(Run(s, steps))
    ensures s.closed ==> Run(s, steps).closed
    decreases |steps|
  {
    if steps != [] {
      NextKeepsInv(s, steps[0]);
      hide Next, Inv;
      RunKeepsInv(Next(s, steps[0]), steps[1..]);
    }
  }

  /**
   * In every reachable state: a client that is attached while the pipeline is not shut down
   * has it active; the decoder in use implies active and not shut down; and every decoder
   * process still alive is in use or being stopped, so none is ever lost.
   */
  lemma VideoSafe(steps: seq<Step>)
    ensures var s := Run(Init, steps);
      && (s.clients > 0 && !s.closed ==> s.active)
      && (s.dec.Some? ==> s.active && !s.closed)
      && (forall d <- s.live :: s.dec == Some(d) || d in s.stopping)
  {
    RunKeepsInv(Init, steps);
    hide Run;
  }

  /** A linger timer's callback, however late or stale, never stops decoding under a client. */
  lemma StaleCallbackHarmless(steps: seq<Step>, t: nat)
    ensures var s := Run(Init, steps);
      s.clients > 0 && !s.closed ==>
        && Next(s, CallbackRuns(t)).active && Next(s, CallbackRuns(t)).dec == s.dec
        && Next(s, CallbackRuns(t)).stopping == s.stopping
  {
    RunKeepsInv(Init, steps);
    hide Run;
  }

  /**
   * Shutdown is permanent: no decoder is started after it, and the processes that still live
   * are those its stops have not reached yet.
   */
  lemma {:induction false} ClosedStaysQuiet(s: State, steps: seq<Step>)
    requires Inv(s) && s.closed
    ensures var r := Run(s, steps);
      && r.closed && !r.active && r.refs == 0 && r.dec == None && r.decoders == s.decoders
      && r.live <= r.stopping <= s.stopping
    decreases |steps|
  {
    if steps != [] {
      NextKeepsInv(s, steps[0]);
      ClosedStaysQuiet(Next(s, steps[0]), steps[1..]);
    }
  }

  /** Shutdown takes the decoder in use and the linger timer with it, and nobody is let in from then on. */
  lemma CloseShuts(s: State)
    ensures var r := Next(s, Close);
      && r.closed && !r.active && r.refs == 0 && r.dec == None && r.timer == None
      && (s.dec.Some? ==> s.dec.value in r.stopping) && (s.timer.Some? ==> s.timer.value !in r.armed)
      && Next(r, Acquire) == r
  {
  }

  /** A client that is let in has decoding on and the linger timer stopped; it is let in exactly before shutdown. */
  lemma AcquireAttaches(s: State)
    ensures var r := Next(s, Acquire);
      if s.closed then r == s
      else
        && r.active && r.refs == s.refs + 1 && r.clients == s.clients + 1 && r.timer == None && r.dec == s.dec
        && (s.timer.Some? ==> s.timer.value !in r.armed) && r.stopping == s.stopping
  {
  }

  /** Decoding ends when the linger period does, if nobody came back. */
  lemma LingerEnds(s: State, t: nat)
    requires s.active && s.refs == 0 && t in s.armed
    ensures var r := Next(Next(s, TimerFires(t)), CallbackRuns(t));
      !r.active && r.dec == None && (s.dec.Some? ==> s.dec.value in r.stopping)
  {
  }

  /**
   * A stop ends its process, whose exit is then about to be noted like that of one that died; an
   * exit is noted once; a timer fires once.
   */
  lemma EventsHappenOnce(s: State, d: nat, t: nat)
    ensures d in s.stopping ==>
      var r := Next(s, Stopped(d)); d !in r.live && d !in r.stopping && (d in s.live ==> d in r.exited)
    ensures d in s.live ==> var r := Next(s, Dies(d)); d !in r.live && d in r.exited
    ensures d in s.exited ==> d !in Next(s, ExitSeen(d)).exited
    ensures t in s.armed ==> var r := Next(s, TimerFires(t)); t !in r.armed && t in r.fired
    ensures t in s.fired ==> t !in Next(s, CallbackRuns(t)).fired
  {
  }

  // -- access units ---------------------------------------------------------------------

  /**
   * After an access unit of a known size the decoder in use has that size: the old one if it had it,
   * else a new one that was started, the old one going to a stop; none if the new one did not start.
   */
  lemma DecoderFits(s: State, sps: Option<Dims>, starts: bool)
    requires Inv(s)
    ensures var size := if sps.Some? then sps else s.size; var r := Next(s, Feed(sps, starts));
      if !s.active then r == s
      else if size.None? then r == s
      else
        var fits := s.dec.Some? && s.dec.value in s.sizes && s.sizes[s.dec.value] == size.value;
        && r.size == size
        && (fits ==> r.dec == s.dec && r.decoders == s.decoders && r.live == s.live && r.stopping == s.stopping)
        && (!fits ==> s.dec.Some? ==> s.dec.value in r.stopping)
        && (!fits && starts ==>
              && r.dec == Some(s.decoders) && r.decoders == s.decoders + 1
              && s.decoders !in s.live && s.decoders in r.live)
        && (!fits && !starts ==> r.dec == None && r.decoders == s.decoders && r.live == s.live)
        && (fits || starts ==> r.dec.Some? && r.dec.value in r.sizes && r.sizes[r.dec.value] == size.value)
  {
  }

  // -- decoder exits --------------------------------------------------------------------

  /** A decoder that has gone out of use never comes back into it. */
  lemma {:induction false} NeverInUseAgain(s: State, steps: seq<Step>, d: nat)
    requires d < s.decoders && s.dec != Some(d)
    ensures Run(s, steps).dec != Some(d)
    decreases |steps|
  {
    if steps != [] {
      NeverInUseAgain(Next(s, steps[0]), steps[1..], d);
    }
  }

  /** So the exit of a replaced or stopped decoder, however late, leaves its successor alone. */
  lemma ReplacedExitHarmless(s: State, steps: seq<Step>, d: nat)
    requires d < s.decoders && s.dec != Some(d)
    ensures var r := Run(s, steps); Next(r, ExitSeen(d)).dec == r.dec
  {
    NeverInUseAgain(s, steps, d);
    hide Run;
  }

  /** While the exit of the one in use is always about to be noted, and then makes room for the next. */
  lemma DeadDecoderNoted(steps: seq<Step>, d: nat)
    ensures var s := Run(Init, steps);
      s.dec == Some(d) && d !in s.live ==> d in s.exited && Next(s, ExitSeen(d)).dec == None
  {
    RunKeepsInv(Init, steps);
    hide Run;
  }

  // -- the linger period ----------------------------------------------------------------

  /** Nothing that may rightly end the linger period of timer `t`, or call it off, happens. */
  predicate Lingering(steps: seq<Step>, t: nat) {
    forall step <- steps :: step != Acquire && step != Close && step != CallbackRuns(t)
  }

  /**
   * When the last client leaves, the linger period that begins is kept whatever happens
   * exactly when no earlier linger timer is still running or waiting for the lock.
   */
  lemma LingerKeptExactly(s: State)
    requires Inv(s) && s.active && s.refs == 1
    ensures var left := Next(s, Release);
      && left.active && left.timer == Some(s.timers)
      && ((forall steps :: Lingering(steps, s.timers) ==> Run(left, steps).active)
          <==> s.armed == {} && s.fired == {})
  {
    hide Run;
    var left := Next(s, Release);
    if s.armed == {} && s.fired == {} {
      forall steps | Lingering(steps, s.timers)
        ensures Run(left, steps).active
      {
        LingerKept(left, steps, s.timers);
      }
    } else {
      var steps := CutShort(s);
      assert Lingering(steps, s.timers) && !Run(left, steps).active;
    }
  }

  lemma {:induction false} LingerKept(s: State, steps: seq<Step>, t: nat)
    requires s.active && s.timer == Some(t) && s.clients == 0 && s.armed + s.fired <= {t}
    requires Lingering(steps, t)
    ensures Run(s, steps).active
    decreases |steps|
  {
    if steps != [] {
      var next := Next(s, steps[0]);
      assert steps[0] in steps && forall step <- steps[1..] :: step in steps;
      LingerKept(next, steps[1..], t);
    }
  }

  /** An earlier timer's callback ends decoding while the new timer still runs. */
  lemma CutShort(s: State) returns (steps: seq<Step>)
    requires Inv(s) && s.active && s.refs == 1 && !(s.armed == {} && s.fired == {})
    ensures Lingering(steps, s.timers) && !Run(Next(s, Release), steps).active
    ensures s.timers in Run(Next(s, Release), steps).armed
  {
    var left := Next(s, Release);
    if t :| t in s.fired {
      steps := [CallbackRuns(t)];
      assert steps[1..] == [];
    } else {
      var t :| t in s.armed;
      var fired := Next(left, TimerFires(t));
      steps := [TimerFires(t), CallbackRuns(t)];
      assert steps[1..] == [CallbackRuns(t)] && steps[1..][1..] == [];
      assert Run(left, steps) == Run(fired, [CallbackRuns(t)]);
      assert Run(fired, [CallbackRuns(t)]) == Run(Next(fired, CallbackRuns(t)), []);
    }
  }

  /** A callback that fired before a client came back and has not had the lock since: a state that is reached. */
  lemma FiredTimerHappens() returns (steps: seq<Step>)
    ensures var s := Run(Init, steps); Inv(s) && s.active && s.refs == 1 && s.fired == {0} && s.armed == {}
  {
    var s;
    steps, s := ReturnTooEarly();
    RunKeepsInv(Init, steps);
    hide Run;
  }

  /** A timer still running that nobody knows of, since a stale callback forgot it: reached as well. */
  lemma ForgottenTimerHappens() returns (steps: seq<Step>)
    ensures var s := Run(Init, steps); Inv(s) && s.active && s.refs == 1 && s.fired == {} && s.armed == {1}
  {
    hide Run, Inv;
    var s;
    steps, s := ReturnTooEarly();
    steps, s := Extend(steps, s, Release);
    steps, s := Extend(steps, s, CallbackRuns(0));
    steps, s := Extend(steps, s, Acquire);
    InitOk();
    RunKeepsInv(Init, steps);
  }

  lemma InitOk()
    ensures Inv(Init)
  {
  }

  lemma ReturnTooEarly() returns (steps: seq<Step>, s: State)
    ensures s == Run(Init, steps)
    ensures s == Init.(refs := 1, clients := 1, active := true, timers := 1, fired := {0})
  {
    steps, s := [], Init;
    steps, s := Extend(steps, s, Acquire);
    steps, s := Extend(steps, s, Release);
    steps, s := Extend(steps, s, TimerFires(0));
    steps, s := Extend(steps, s, Acquire);
  }

  /** One more step of a run. */
  lemma Extend(steps: seq<Step>, s: State, step: Step) returns (steps': seq<Step>, s': State)
    requires s == Run(Init, steps)
    ensures s' == Next(s, step) == Run(Init, steps')
  {
    steps', s' := steps + [step], Next(s, step);
    RunSnoc(Init, steps, step);
  }

  lemma {:induction false} RunSnoc(s: State, steps: seq<Step>, step: Step)
    ensures Run(s, steps + [step]) == Next(Run(s, steps), step)
    decreases |steps|
  {
    hide Next;
    if steps == [] {
      assert [step][1..] == [] && [] + [step] == [step];
      assert Run(s, [step]) == Run(Next(s, step), []);
    } else {
      assert (steps + [step])[1..] == steps[1..] + [step];
      RunSnoc(Next(s, steps[0]), steps[1..], step);
    }
  }
}
