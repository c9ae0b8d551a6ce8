/**
 * What each command of ch9329/src/session.rs does to the session's held state and to the chip,
 * on every line; and the laws of these commands.
 */
module Ch9329Commands {
  import opened Bytes
  import opened UsKeyboard
  import opened Ch9329Chip
  import opened Ch9329Keys
  import opened Ch9329Typing
  import M = Motion

  /**
   * `Lost`: no reply in time, and `Dead`: the port failed, or the chip is silent at its new rate;
   * the owner takes both for a dead link. `Bad`: the chip said no, or its reply was unreadable.
   * `Refused`: turned down before or between frames. `NoMux`: a USB switch command without reply,
   * deliberately not taken for a dead link. `NotMoved`: the mux stayed on the other side.
   */
  datatype Outcome = Done | Lost | Dead | Bad | Refused | NoMux | NotMoved

  datatype Command =
    | Tap(key: Key) | Combo(chord: seq<Key>) | KeyDown(key: Key) | KeyUp(key: Key) | ReleaseAll
    | Type(text: string)
    | Move(dx: int, dy: int) | MoveAbs(x: int, y: int) | Click(button: Button)
    | MouseDown(button: Button) | MouseUp(button: Button) | Scroll(amount: int)
    | Ping | Info | Version | UsbState | UsbSet(side: byte) | Baud(rate: nat)

  /** What the command parser can produce. */
  predicate RealCommand(c: Command) {
    match c
    case Tap(k) => k != Usage(0)
    case Combo(chord) => Usage(0) !in chord
    case KeyDown(k) => k != Usage(0)
    case UsbSet(side) => side <= 1
    case _ => true
  }

  /** Commands that never reach the HID side of the chip. */
  predicate IsQuery(c: Command) {
    c.Ping? || c.Info? || c.Version? || c.UsbState? || c.UsbSet?
  }

  /** Commands made of HID reports; a rate change, which resets the chip, is neither. */
  predicate IsHid(c: Command) { !IsQuery(c) && !c.Baud? }

  function Of(r: Reply): Outcome {
    match r case Ack => Done case NoReply => Lost case Failed => Dead case BadReply => Bad
  }

  /** The session's fields. */
  datatype Held = Held(report: Report, buttons: set<Button>, baud: nat)

  const EMPTY: Report := Report({}, [])

  function Nothing(baud: nat): Held { Held(EMPTY, {}, baud) }

  ghost predicate Valid(s: Held) { ValidKeys(s.report.keys) }

  ghost predicate KeyboardAgrees(s: Held, chip: Chip) { chip.kbd.kbd == HeldReport(s.report) }

  /** The chip holds exactly what the session thinks is held. */
  ghost predicate Agrees(s: Held, chip: Chip) {
    KeyboardAgrees(s, chip) && chip.buttons == s.buttons
  }

  // -- sending --------------------------------------------------------------------------

  /** The line after some frames, and the first reply among theirs that decided. */
  datatype Went = Went(line: Line, reply: Reply)

  /** Frames in turn, up to the first that is not acknowledged. */
  function Batch(l: Line, frames: seq<Frame>): Went
    decreases |frames|
  {
    if frames == [] then Went(l, Ack)
    else if l.Reply() != Ack then Went(l.Sent(frames[0]), l.Reply())
    else Batch(l.Sent(frames[0]), frames[1..])
  }

  /**
   * The release half of a tap, chord or keystroke: pushes the held report, once more when the
   * press was acknowledged and this push is not.
   */
  function Finish(l: Line, held: Report, pressed: Reply): Went {
    var f := Keyboard(HeldReport(held));
    if pressed != Ack then Went(l.Sent(f), pressed)
    else if l.Reply() == Ack then Went(l.Sent(f), Ack)
    else Went(l.Sent(f).Sent(f), l.Reply())
  }

  /** A chord pressed on top of held state `h`, and released. */
  function ChordOn(l: Line, h: Report, chord: seq<Key>): Went {
    Finish(l.Sent(Keyboard(Pressed(h, chord))), UpAll(DownAll(h, chord), chord), l.Reply())
  }

  function PressStroke(l: Line, h: Report, s: Stroke): Went {
    Finish(l.Sent(Keyboard(PressReport(h, s))), After(h, s), l.Reply())
  }

  /** One typed stroke: its key released first if it is held. */
  function StrokeOn(l: Line, h: Report, s: Stroke): Went {
    if s.usage !in h.keys then PressStroke(l, h, s)
    else
      var cleared := l.Sent(Keyboard(ClearReport(h, s)));
      if l.Reply() != Ack then Went(cleared, l.Reply()) else PressStroke(cleared, h, s)
  }

  /** Strokes in turn, up to the first that fails, and the held state they leave. */
  function StrokesOn(l: Line, h: Report, ss: seq<Stroke>): (Went, Report)
    decreases |ss|
  {
    if ss == [] then (Went(l, Ack), h)
    else
      var w := StrokeOn(l, h, ss[0]);
      if w.reply != Ack then (w, After(h, ss[0])) else StrokesOn(w.line, After(h, ss[0]), ss[1..])
  }

  // -- commands -------------------------------------------------------------------------

  /** What a command leaves behind, and what it reports. */
  datatype Ran = Ran(held: Held, line: Line, outcome: Outcome)

  /** The strokes up to the first character that is not on the layout. */
  function Typeable(text: string): (r: seq<Stroke>)
    ensures |r| <= |text|
  {
    if text == "" || CharToUsage(text[0]).None? then []
    else [CharToUsage(text[0]).value] + Typeable(text[1..])
  }

  function MoveFrames(b: set<Button>, steps: seq<(int, int)>): (r: seq<Frame>)
    ensures |r| == |steps| && forall i :: 0 <= i < |r| ==> r[i] == MouseRel(b, steps[i].0, steps[i].1, 0)
  {
    seq(|steps|, i requires 0 <= i < |steps| => MouseRel(b, steps[i].0, steps[i].1, 0))
  }

  function WheelFrames(b: set<Button>, steps: seq<(int, int)>): (r: seq<Frame>)
    ensures |r| == |steps| && forall i :: 0 <= i < |r| ==> r[i] == MouseRel(b, 0, 0, steps[i].0)
  {
    seq(|steps|, i requires 0 <= i < |steps| => MouseRel(b, 0, 0, steps[i].0))
  }

  function ButtonFrame(b: set<Button>): Frame { MouseRel(b, 0, 0, 0) }

  /** The frames of a command that only sends, from the held state it begins with. */
  function FramesOf(c: Command, s: Held): seq<Frame> {
    match c
    case KeyDown(k) => [Keyboard(HeldReport(Down(s.report, k)))]
    case KeyUp(k) => [Keyboard(HeldReport(Up(s.report, k)))]
    case ReleaseAll => [Keyboard(HeldReport(EMPTY))]
    case Move(dx, dy) => MoveFrames(s.buttons, M.Steps(M.ClampTotal(dx), M.ClampTotal(dy)))
    case Scroll(amount) => WheelFrames(s.buttons, M.Steps(M.ClampTotal(amount), 0))
    case MoveAbs(x, y) =>
      var (tx, ty) := (M.ScaleAbs(x), M.ScaleAbs(y));
      [MouseAbs(s.buttons, tx, if ty >= 1 then ty - 1 else ty + 1), MouseAbs(s.buttons, tx, ty)]
    case Click(b) => [ButtonFrame(s.buttons + {b}), ButtonFrame(s.buttons)]
    case MouseDown(b) => [ButtonFrame(s.buttons + {b})]
    case MouseUp(b) => [ButtonFrame(s.buttons - {b})]
    case Ping => [GetInfo]
    case Info => [GetInfo]
    case _ => []
  }

  /** What such a command leaves held, sent or not. */
  function HeldAfter(c: Command, s: Held): Held {
    match c
    case KeyDown(k) => s.(report := Down(s.report, k))
    case KeyUp(k) => s.(report := Up(s.report, k))
    case ReleaseAll => s.(report := EMPTY)
    case MouseDown(b) => s.(buttons := s.buttons + {b})
    case MouseUp(b) => s.(buttons := s.buttons - {b})
    case _ => s
  }

  function ExecuteChord(l: Line, s: Held, chord: seq<Key>): Ran {
    var w := ChordOn(l, s.report, chord);
    Ran(s.(report := UpAll(DownAll(s.report, chord), chord)), w.line, Of(w.reply))
  }

  function ExecuteType(l: Line, s: Held, text: string): Ran {
    if |text| > MAX_TYPE_CHARS then Ran(s, l, Refused)
    else
      var (w, h) := StrokesOn(l, s.report, Typeable(text));
      Ran(s.(report := h), w.line, if w.reply == Ack && |Typeable(text)| < |text| then Refused else Of(w.reply))
  }

  /** A USB switch command and the side that its reply states. */
  function ExecuteMux(l: Line, s: Held, selector: byte, wanted: Option<byte>): Ran {
    var l' := l.Sent(UsbSwitch(selector));
    Ran(s, l',
        match l.Reply()
        case NoReply => NoMux
        case Failed => Dead
        case BadReply => Bad
        case Ack => if wanted.Some? && l'.chip.mux != wanted.value then NotMoved else Done)
  }

  const BAUD_MIN: nat := 1200
  const BAUD_MAX: nat := 115200

  /** The chip asked for its parameters until it answers, so often at most. */
  function Answers(l: Line, tries: nat): Went
    decreases tries
  {
    if tries == 0 then Went(l, NoReply)
    else if l.Reply() == Ack then Went(l.Sent(GetInfo), Ack)
    else Answers(l.Sent(GetInfo), tries - 1)
  }

  /**
   * A new rate: stored in the chip's flash, then a reset whose answer does not matter, after
   * which the session talks at the new rate and holds nothing.
   */
  function ExecuteBaud(l: Line, s: Held, rate: nat): Ran {
    if rate < BAUD_MIN || rate > BAUD_MAX then Ran(s, l, Refused)
    else
      var stored := Batch(l, [GetConfig, SetConfig(rate)]);
      if stored.reply != Ack then Ran(s, stored.line, Of(stored.reply))
      else
        var w := Answers(stored.line.Sent(Reset).(baud := rate), 3);
        Ran(Nothing(rate), w.line, if w.reply == Ack then Done else Dead)
  }

  function Execute(c: Command, l: Line, s: Held): Ran {
    match c
    case Tap(k) => ExecuteChord(l, s, [k])
    case Combo(chord) =>
      if KeysNeeded(chord, s.report.keys) > KEY_SLOTS then Ran(s, l, Refused) else ExecuteChord(l, s, chord)
    case Type(text) => ExecuteType(l, s, text)
    case UsbState => ExecuteMux(l, s, 3, None)
    case UsbSet(side) => ExecuteMux(l, s, side, Some(side))
    case Baud(rate) => ExecuteBaud(l, s, rate)
    case _ =>
      var w := Batch(l, FramesOf(c, s));
      Ran(HeldAfter(c, s), w.line, Of(w.reply))
  }

  /**
   * Everything released at shutdown: keys and modifiers first, buttons only when that went
   * through. What a frame stood for counts as released whether or not the frame failed.
   */
  function ReleaseOn(l: Line, s: Held): Ran {
    var keys := l.Sent(Keyboard(HeldReport(EMPTY)));
    if l.Reply() != Ack then Ran(s.(report := EMPTY), keys, Of(l.Reply()))
    else Ran(Nothing(s.baud), keys.Sent(ButtonFrame({})), Of(keys.Reply()))
  }
}
