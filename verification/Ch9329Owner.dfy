/**
 * The owner loop of ch9329/src/uart.rs: one session on one port, opened lazily, dropped when
 * the link looks dead, and told to let go of everything at shutdown.
 */
module Ch9329Owner {
  import opened Bytes
  import opened Ch9329Chip
  import opened Ch9329Typing
  import opened Ch9329Commands
  import opened Ch9329CommandLaws
  import opened Ch9329Session

  /** The rates tried, in order, when none is forced. */
  const BAUD_CANDIDATES: seq<nat> := [115200, 57600, 9600]

  /** The rate of the session before, then the defaults it is not among. */
  function ProbeOrder(first: Option<nat>): (r: seq<nat>)
    ensures r != []
  {
    (if first.Some? then [first.value] else []) + Others(BAUD_CANDIDATES, first)
  }

  function Others(rates: seq<nat>, first: Option<nat>): seq<nat> {
    if rates == [] then []
    else (if first == Some(rates[0]) then [] else [rates[0]]) + Others(rates[1..], first)
  }

  // -- what the owner does --------------------------------------------------------------

  datatype Request = Serve(command: Command, clientGone: bool) | Release

  /** What the open session holds, the rate the last one ran at, and the line. */
  datatype OwnerState = OwnerState(session: Option<Held>, lastBaud: Option<nat>, line: Line)

  /** What a client is told: nothing when it is gone, or that the port did not open, or the outcome. */
  datatype Told = Dropped | NotOpened | Told(outcome: Outcome)

  /** Whether running a command twice can do nothing to the target. */
  predicate IsIdempotentQuery(c: Command) { c.Ping? || c.Info? || c.Version? }

  /** Probes for the chip at each rate in turn, then clears whatever it still holds. */
  function OpenOn(l: Line, rates: seq<nat>): (Option<Held>, Line)
    decreases |rates|
  {
    if rates == [] then (None, l)
    else
      var probe := l.(baud := rates[0]);
      if probe.Reply() != Ack then OpenOn(probe.Sent(GetInfo), rates[1..])
      else
        var w := Batch(probe.Sent(GetInfo), [Keyboard(HeldReport(EMPTY)), ButtonFrame({})]);
        (if w.reply == Ack then Some(Nothing(rates[0])) else None, w.line)
  }

  /** What the owner takes for a dead link. */
  predicate IsTransportError(r: Outcome) { r == Lost || r == Dead }

  function ExecuteWithRetry(c: Command, l: Line, s: Held): Ran {
    var r := Execute(c, l, s);
    if r.outcome == Lost && IsIdempotentQuery(c) then Execute(c, r.line, r.held) else r
  }

  /** The session a request finds or opens, and the line by then. */
  function Session0(o: OwnerState): (Option<Held>, Line) {
    if o.session.Some? then (o.session, o.line) else OpenOn(o.line, ProbeOrder(o.lastBaud))
  }

  function Served(o: OwnerState, c: Command): (OwnerState, Told) {
    var (s, l) := Session0(o);
    if s.None? then (o.(line := l), NotOpened)
    else
      var r := ExecuteWithRetry(c, l, s.value);
      (OwnerState(if IsTransportError(r.outcome) then None else Some(r.held), Some(r.held.baud), r.line), Told(r.outcome))
  }

  function ShutDown(o: OwnerState): (OwnerState, bool) {
    var (s, l) := Session0(o);
    if s.None? then (o.(line := l), false)
    else
      var r := ReleaseOn(l, s.value);
      (o.(session := Some(r.held), line := r.line), r.outcome == Done)
  }

  function Handled(o: OwnerState, q: Request): OwnerState {
    match q
    case Serve(c, gone) => if gone then o else Served(o, c).0
    case Release => ShutDown(o).0
  }

  function HandledAll(o: OwnerState, qs: seq<Request>): OwnerState
    decreases |qs|
  {
    if qs == [] then o else HandledAll(Handled(o, qs[0]), qs[1..])
  }

  // -- the owner ------------------------------------------------------------------------

  method OpenPreferring(port: Port, first: Option<nat>) returns (s: Session?)
    modifies port
    ensures
      var (got, l) := OpenOn(old(port.line), ProbeOrder(first));
      && port.line == l && (s == null <==> got.None?)
      && (s != null ==> fresh(s) && s.port == port && got == Some(s.View()))
  {
    hide HeldReport;
    var rates := ProbeOrder(first);
    assert rates[0..] == rates;
    for i := 0 to |rates|
      invariant OpenOn(port.line, rates[i..]) == OpenOn(old(port.line), rates)
    {
      assert rates[i..][0] == rates[i] && rates[i..][1..] == rates[i + 1..];
      port.SetBaud(rates[i]);
      s := new Session(port, rates[i]);
      TwoFrames(port.line.Sent(GetInfo), Keyboard(HeldReport(EMPTY)), ButtonFrame({}));
      var info := s.Query();
      if info == Ack {
        hide Batch;
        var p := s.PushKeyboard();
        if p == Ack {
          p := s.PushMouseRel(s.buttons, 0, 0, 0);
        }
        if p != Ack {
          s := null;
        }
        return;
      }
    }
    s := null;
  }

  method ExecuteLineWithRetry(s: Session, c: Command) returns (r: Outcome)
    modifies s`mods, s`keys, s`buttons, s`baud, s.port
    ensures Ran(s.View(), s.port.line, r) == ExecuteWithRetry(c, old(s.port.line), old(s.View()))
  {
    hide Execute;
    r := s.Run(c);
    if r == Lost && IsIdempotentQuery(c) {
      r := s.Run(c);
    }
  }

  class Owner {
    const port: Port
    var session: Session?
    var lastBaud: Option<nat>

    constructor (port: Port)
      ensures this.port == port && View() == OwnerState(None, None, port.line)
    {
      this.port := port;
      session, lastBaud := null, None;
    }

    ghost function View(): OwnerState
      reads this, session, port
    {
      OwnerState(if session == null then None else Some(session.View()), lastBaud, port.line)
    }

    ghost predicate OnPort()
      reads this, session
    {
      session != null ==> session.port == port
    }

    method ServeLine(c: Command, clientGone: bool) returns (told: Told)
      requires OnPort()
      modifies this`session, this`lastBaud, port, session
      ensures OnPort() && (session != null ==> session == old(session) || fresh(session))
      ensures View() == Handled(old(View()), Serve(c, clientGone))
      ensures told == if clientGone then Dropped else Served(old(View()), c).1
    {
      hide OpenOn, ExecuteWithRetry, ProbeOrder;
      if clientGone {
        return Dropped;
      }
      if session == null {
        var s := OpenPreferring(port, lastBaud);
        if s == null {
          return NotOpened;
        }
        session := s;
      }
      var outcome := ExecuteLineWithRetry(session, c);
      lastBaud := Some(session.baud);
      if IsTransportError(outcome) {
        session := null;
      }
      told := Told(outcome);
    }

    method HandleRelease() returns (ok: bool)
      requires OnPort()
      modifies this`session, port, session
      ensures OnPort() && (session != null ==> session == old(session) || fresh(session))
      ensures (View(), ok) == ShutDown(old(View()))
    {
      hide OpenOn, ProbeOrder, ReleaseOn;
      if session == null {
        var s := OpenPreferring(port, lastBaud);
        if s == null {
          return false;
        }
        session := s;
      }
      var r := session.ReleaseEverything();
      ok := r == Done;
    }

    /** The loop over the queue. */
    method Run(qs: seq<Request>)
      requires OnPort()
      modifies this`session, this`lastBaud, port, session
      ensures OnPort() && View() == HandledAll(old(View()), qs)
    {
      hide Served, ShutDown;
      assert qs[0..] == qs;
      for i := 0 to |qs|
        invariant OnPort() && (session != null ==> session == old(session) || fresh(session))
        invariant HandledAll(View(), qs[i..]) == HandledAll(old(View()), qs)
      {
        assert qs[i..][0] == qs[i] && qs[i..][1..] == qs[i + 1..];
        match qs[i]
        case Serve(c, gone) =>
          var _ := ServeLine(c, gone);
        case Release =>
          var _ := HandleRelease();
      }
    }
  }
}
