/**
 * The far end of the ch9329 wire: a chip that remembers only its last keyboard report and
 * its last button byte, and a line that may lose a frame or its answer.
 */
module Ch9329Chip {
  import opened Bytes
  import opened UsKeyboard

  datatype Frame =
    | Keyboard(report: Report)
    | MouseRel(buttons: set<Button>, dx: int, dy: int, wheel: int)
    | MouseAbs(buttons: set<Button>, x: int, y: int)
    | GetInfo
    | UsbSwitch(selector: byte)
    | GetConfig
    | SetConfig(baud: nat)
    | Reset

  /** Six empty slots. */
  const NO_KEYS: Report := Report({}, [0, 0, 0, 0, 0, 0])

  /**
   * What the frames add up to on the target: the keyboard, the buttons, the pointer, the
   * absolute position last reported (a repeat of which is ignored), the relative motion
   * received, and the side the USB mux is on. A mux may be `stuck`, and ignore a switch. The chip
   * talks at `baud`, and from its next reset on at the rate in `flash`.
   */
  datatype Chip = Chip(kbd: Target, buttons: set<Button>, pointer: (int, int), lastAbs: Option<(int, int)>,
                       moves: seq<(int, int, int)>, mux: byte, stuck: bool, baud: nat, flash: nat)
  {
    function Apply(f: Frame): Chip {
      match f
      case Keyboard(r) => this.(kbd := kbd.Receive(r))
      case MouseRel(b, dx, dy, wheel) =>
        this.(buttons := b, pointer := (pointer.0 + dx, pointer.1 + dy), moves := moves + [(dx, dy, wheel)])
      case MouseAbs(b, x, y) =>
        this.(buttons := b, pointer := if lastAbs == Some((x, y)) then pointer else (x, y), lastAbs := Some((x, y)))
      case GetInfo => this
      case UsbSwitch(selector) => if selector <= 1 && !stuck then this.(mux := selector) else this
      case GetConfig => this
      case SetConfig(rate) => this.(flash := rate)
      case Reset => this.(kbd := kbd.(kbd := NO_KEYS), buttons := {}, lastAbs := None, baud := flash)
    }
  }

  /**
   * What becomes of a frame: acknowledged; applied, with the answer lost or unreadable; lost
   * on the way; refused by the chip; or sent as the port broke down, before or after it `arrived`.
   */
  datatype Fate = Acked | AckLost | Garbled | FrameLost | Nak | Broken(arrived: bool)

  /**
   * What the sender makes of it: `NoReply` within the timeout; the port itself `Failed`; or
   * `BadReply`, an answer that is no acknowledgement.
   */
  datatype Reply = Ack | NoReply | Failed | BadReply

  function Answer(f: Fate): Reply {
    match f
    case Acked => Ack
    case AckLost => NoReply
    case FrameLost => NoReply
    case Garbled => BadReply
    case Nak => BadReply
    case Broken(_) => Failed
  }

  predicate Arrives(f: Fate) { f != FrameLost && f != Nak && f != Broken(false) }

  /** The same fate for a frame sent at a rate the chip does not listen at. */
  function Unheard(f: Fate): Fate {
    match f
    case Broken(_) => Broken(false)
    case Garbled => Nak
    case Nak => Nak
    case _ => FrameLost
  }

  /** The side of the chip that a frame sets. */
  predicate SetsKeys(f: Frame) { f.Keyboard? || f.Reset? }

  predicate SetsButtons(f: Frame) { f.MouseRel? || f.MouseAbs? || f.Reset? }

  /**
   * A chip behind a serial line that runs at `baud`. `fates` decides the frames to come; past its
   * end all go well. `lost` counts the frames that were not acknowledged; a side of the chip is
   * unsure while the last frame that was to set it is one of them.
   */
  datatype Line = Line(fates: seq<Fate>, chip: Chip, baud: nat, lost: nat, keysUnsure: bool, buttonsUnsure: bool)
  {
    function Next(): Fate {
      var f := if fates == [] then Acked else fates[0];
      if baud == chip.baud then f else Unheard(f)
    }

    function Reply(): Reply {
      Answer(Next())
    }

    function Sent(f: Frame): Line {
      Line(if fates == [] then [] else fates[1..], if Arrives(Next()) then chip.Apply(f) else chip, baud,
           lost + if Next() == Acked then 0 else 1,
           if SetsKeys(f) then Next() != Acked else keysUnsure,
           if SetsButtons(f) then Next() != Acked else buttonsUnsure)
    }

    /** Every frame to come is acknowledged. */
    ghost predicate AllWell() {
      baud == chip.baud && WellOnceHeard()
    }

    ghost predicate WellOnceHeard() {
      forall f <- fates :: f == Acked
    }

    /** Frames to come may be lost, but every answer that comes back is an acknowledgement. */
    ghost predicate NoBad() {
      forall f <- fates :: f != Garbled && f != Nak
    }
  }

  /** The serial port. */
  class Port {
    var line: Line

    constructor (line: Line)
      ensures this.line == line
    {
      this.line := line;
    }

    method Send(f: Frame) returns (r: Reply)
      modifies this
      ensures r == old(line).Reply() && line == old(line).Sent(f)
    {
      r := line.Reply();
      line := line.Sent(f);
    }

    /** Reopens the port, or sets it, to another rate. */
    method SetBaud(rate: nat)
      modifies this
      ensures line == old(line).(baud := rate)
    {
      line := line.(baud := rate);
    }
  }
}
