/**
 * The HID session of jetkvm/hid.go: held keys and buttons, and the commands that turn into
 * keyboard, mouse and wheel reports over JSON-RPC calls that may fail.
 */
module JetkvmHid {
  import opened Bytes
  import opened UsKeyboard
  import M = Motion

  // -- the device -----------------------------------------------------------------------

  datatype Call =
    | Keyboard(report: Report)
    | RelMouse(dx: int, dy: int, buttons: set<Button>)
    | AbsMouse(x: int, y: int, buttons: set<Button>)
    | Wheel(amount: int)

  /** What the calls add up to: the keyboard, and every mouse call. */
  datatype Device = Device(target: Target, mouse: seq<Call>)
  {
    function Apply(c: Call): Device {
      if c.Keyboard? then this.(target := target.Receive(c.report)) else this.(mouse := mouse + [c])
    }
  }

  /** What becomes of one call: done, done but the answer was lost, or never done. */
  datatype Fate = Acked | AckLost | Lost

  /**
   * The device behind the calls, across reconnects. `fates` decides the calls to come; past its end
   * all go well. A side of the device is unsure while the last call that sets it was not acknowledged.
   */
  datatype Link = Link(fates: seq<Fate>, device: Device, keysUnsure: bool, buttonsUnsure: bool)
  {
    function Next(): Fate {
      if fates == [] then Acked else fates[0]
    }

    function Ok(): bool {
      Next() == Acked
    }

    function Sent(c: Call): Link {
      Link(if fates == [] then [] else fates[1..], if Next() == Lost then device else device.Apply(c),
           if c.Keyboard? then !Ok() else keysUnsure,
           if c.RelMouse? || c.AbsMouse? then !Ok() else buttonsUnsure)
    }

    ghost predicate AllWell() {
      forall f <- fates :: f == Acked
    }
  }

  datatype Outcome = Done | Failed | TooManyKeys | TooLong | NotOnLayout

  function Of(ok: bool): Outcome { if ok then Done else Failed }

  // -- what each command does -----------------------------------------------------------

  datatype Held = Held(report: Report, buttons: set<Button>)

  datatype Ran = Ran(held: Held, link: Link, outcome: Outcome)

  datatype Command =
    | KeyDown(key: Key) | KeyUp(key: Key) | ReleaseAll | Combo(chord: seq<Key>) | Type(text: string)
    | Move(dx: int, dy: int) | MoveAbs(x: int, y: int) | Scroll(amount: int)
    | Click(button: Button) | MouseDown(button: Button) | MouseUp(button: Button)

  /** Calls in turn, up to the first that fails. */
  function Batch(l: Link, calls: seq<Call>): (Link, bool)
    decreases |calls|
  {
    if calls == [] then (l, true)
    else if !l.Ok() then (l.Sent(calls[0]), false)
    else Batch(l.Sent(calls[0]), calls[1..])
  }

  /** A press report and the held report after it. */
  function PressOn(l: Link, held: Report, press: Report): (Link, bool) {
    var l1 := l.Sent(Keyboard(press));
    (l1.Sent(Keyboard(held)), l.Ok() && l1.Ok())
  }

  function AddUsage(keys: seq<byte>, u: byte): seq<byte> {
    if u in keys then keys else keys + [u]
  }

  function ChordKeys(keys: seq<byte>, chord: seq<Key>): seq<byte>
    decreases |chord|
  {
    if chord == [] then keys
    else ChordKeys(match chord[0] case Usage(u) => AddUsage(keys, u) case Modifier(_) => keys, chord[1..])
  }

  function ChordMods(mods: set<Mod>, chord: seq<Key>): set<Mod>
    decreases |chord|
  {
    if chord == [] then mods
    else ChordMods(match chord[0] case Modifier(bit) => mods + {bit} case Usage(_) => mods, chord[1..])
  }

  function ChordReport(h: Report, chord: seq<Key>): Report {
    Report(ChordMods(h.mods, chord), ChordKeys(h.keys, chord))
  }

  /** There is a slot for the key, once it is released in case it was held. */
  predicate Fits(keys: seq<byte>, s: Stroke) {
    |Without(keys, s.usage)| < KEY_SLOTS
  }

  /** The press report of one stroke. */
  function PressReport(held: Report, s: Stroke): Report {
    Report(if s.shift then held.mods + {LeftShift} else held.mods, Without(held.keys, s.usage) + [s.usage])
  }

  function ClearReport(held: Report, s: Stroke): Report {
    Report(if s.shift then held.mods + {LeftShift} else held.mods, Without(held.keys, s.usage))
  }

  function PressStroke(l: Link, held: Report, s: Stroke): (Link, Outcome) {
    if !Fits(held.keys, s) then (l, TooManyKeys)
    else
      var (l', ok) := PressOn(l, held, PressReport(held, s));
      (l', Of(ok))
  }

  /** One typed stroke: its key released first if it is held. */
  function StrokeOn(l: Link, held: Report, s: Stroke): (Link, Outcome) {
    if s.usage !in held.keys then PressStroke(l, held, s)
    else
      var cleared := l.Sent(Keyboard(ClearReport(held, s)));
      if !l.Ok() then (cleared, Failed) else PressStroke(cleared, held, s)
  }

  function StrokesOn(l: Link, held: Report, ss: seq<Stroke>): (Link, Outcome)
    decreases |ss|
  {
    if ss == [] then (l, Done)
    else
      var (l', r) := StrokeOn(l, held, ss[0]);
      if r != Done then (l', r) else StrokesOn(l', held, ss[1..])
  }

  function MoveCalls(b: set<Button>, steps: seq<(int, int)>): (r: seq<Call>)
    ensures |r| == |steps| && forall i :: 0 <= i < |r| ==> r[i] == RelMouse(steps[i].0, steps[i].1, b)
  {
    seq(|steps|, i requires 0 <= i < |steps| => RelMouse(steps[i].0, steps[i].1, b))
  }

  function WheelCalls(steps: seq<(int, int)>): (r: seq<Call>)
    ensures |r| == |steps| && forall i :: 0 <= i < |r| ==> r[i] == Wheel(steps[i].0)
  {
    seq(|steps|, i requires 0 <= i < |steps| => Wheel(steps[i].0))
  }

  function ClampAbs(v: int): int { if v < 0 then 0 else if v > 32767 then 32767 else v }

  /** The calls of a command that only makes calls, from the held state it begins with. */
  function CallsOf(c: Command, s: Held): seq<Call> {
    match c
    case KeyDown(k) => [Keyboard(ChordReport(s.report, [k]))]
    case KeyUp(k) => [Keyboard(Lifted(s.report, k))]
    case ReleaseAll => [Keyboard(Report({}, [])), RelMouse(0, 0, {})]
    case Move(dx, dy) => MoveCalls(s.buttons, M.Steps(M.ClampTotal(dx), M.ClampTotal(dy)))
    case MoveAbs(x, y) => [AbsMouse(ClampAbs(x), ClampAbs(y), s.buttons)]
    case Scroll(amount) => WheelCalls(M.Steps(M.ClampTotal(amount), 0))
    case Click(b) => [RelMouse(0, 0, s.buttons + {b}), RelMouse(0, 0, s.buttons)]
    case MouseDown(b) => [RelMouse(0, 0, s.buttons + {b})]
    case MouseUp(b) => [RelMouse(0, 0, s.buttons - {b})]
    case _ => []
  }

  function Lifted(h: Report, k: Key): Report {
    match k
    case Modifier(bit) => h.(mods := h.mods - {bit})
    case Usage(u) => h.(keys := Without(h.keys, u))
  }

  /** What such a command leaves held, whatever became of its calls. */
  function HeldAfter(c: Command, s: Held): Held {
    match c
    case KeyDown(k) => s.(report := ChordReport(s.report, [k]))
    case KeyUp(k) => s.(report := Lifted(s.report, k))
    case ReleaseAll => Held(Report({}, []), {})
    case MouseDown(b) => s.(buttons := s.buttons + {b})
    case MouseUp(b) => s.(buttons := s.buttons - {b})
    case _ => s
  }

  function ExecuteType(l: Link, s: Held, text: string): Ran {
    if |text| > MAX_TYPE_CHARS then Ran(s, l, TooLong)
    else if StrokesFor(text).None? then Ran(s, l, NotOnLayout)
    else
      var (l', r) := StrokesOn(l, s.report, StrokesFor(text).value);
      Ran(s, l', r)
  }

  function Execute(c: Command, l: Link, s: Held): Ran {
    match c
    case Combo(chord) =>
      if |ChordKeys(s.report.keys, chord)| > KEY_SLOTS then Ran(s, l, TooManyKeys)
      else
        var (l', ok) := PressOn(l, s.report, ChordReport(s.report, chord));
        Ran(s, l', Of(ok))
    case Type(text) => ExecuteType(l, s, text)
    case _ =>
      if c.KeyDown? && c.key.Usage? && c.key.usage !in s.report.keys && |s.report.keys| >= KEY_SLOTS
      then Ran(s, l, TooManyKeys)
      else
        var (l', ok) := Batch(l, CallsOf(c, s));
        Ran(HeldAfter(c, s), l', Of(ok))
  }

  // -- the session ----------------------------------------------------------------------

  /** The caller of the JSON-RPC methods. */
  class Caller {
    var link: Link

    constructor (link: Link)
      ensures this.link == link
    {
      this.link := link;
    }

    method Make(c: Call) returns (ok: bool)
      modifies this
      ensures ok == old(link).Ok() && link == old(link).Sent(c)
    {
      ok := link.Ok();
      link := link.Sent(c);
    }
  }

  /** The strokes of the whole text, before any of them is sent. */
  method Lookup(text: string) returns (strokes: Option<seq<Stroke>>)
    ensures strokes == StrokesFor(text)
  {
    hide CharToUsage;
    var ss: seq<Stroke> := [];
    for i := 0 to |text|
      invariant StrokesFor(text).None? <==> StrokesFor(text[i..]).None?
      invariant StrokesFor(text).Some? ==> StrokesFor(text).value == ss + StrokesFor(text[i..]).value
    {
      assert text[i..][0] == text[i] && text[i..][1..] == text[i + 1..];
      match CharToUsage(text[i]) {
        case None =>
          return None;
        case Some(s) =>
          ss := ss + [s];
      }
    }
    assert text[|text|..] == "" && ss + [] == ss;
    strokes := Some(ss);
  }

  class Session {
    const c: Caller
    var mods: set<Mod>
    var held: seq<byte>
    var buttons: set<Button>

    constructor (c: Caller)
      ensures this.c == c && View() == Held(Report({}, []), {})
    {
      this.c := c;
      mods, held, buttons := {}, [], {};
    }

    ghost function View(): Held
      reads this
    {
      Held(Report(mods, held), buttons)
    }

    method KeyboardReport(report: Report) returns (ok: bool)
      modifies c
      ensures ok == old(c.link).Ok() && c.link == old(c.link).Sent(Keyboard(report))
    {
      ok := c.Make(Keyboard(report));
    }

    method SendHeld() returns (ok: bool)
      modifies c
      ensures ok == old(c.link).Ok() && c.link == old(c.link).Sent(Keyboard(View().report))
    {
      ok := KeyboardReport(Report(mods, held));
    }

    method RelReport(dx: int, dy: int) returns (ok: bool)
      modifies c
      ensures ok == old(c.link).Ok() && c.link == old(c.link).Sent(RelMouse(dx, dy, buttons))
    {
      ok := c.Make(RelMouse(dx, dy, buttons));
    }

    method PressKey(k: Key) returns (r: Outcome)
      modifies this`mods, this`held, c
      ensures Ran(View(), c.link, r) == Execute(KeyDown(k), old(c.link), old(View()))
    {
      OneKey(View().report, k);
      OneCall(c.link, Keyboard(ChordReport(View().report, [k])));
      hide Batch, ChordReport;
      match k {
        case Modifier(bit) =>
          mods := mods + {bit};
        case Usage(u) =>
          if u !in held {
            if |held| >= KEY_SLOTS {
              return TooManyKeys;
            }
            held := held + [u];
          }
      }
      var ok := SendHeld();
      r := Of(ok);
    }

    method LiftKey(k: Key) returns (r: Outcome)
      modifies this`mods, this`held, c
      ensures Ran(View(), c.link, r) == Execute(KeyUp(k), old(c.link), old(View()))
    {
      OneCall(c.link, Keyboard(Lifted(View().report, k)));
      hide Batch, Without;
      match k {
        case Modifier(bit) =>
          mods := mods - {bit};
        case Usage(u) =>
          held := Without(held, u);
      }
      var ok := SendHeld();
      r := Of(ok);
    }

    method ReleaseKeys() returns (r: Outcome)
      modifies this`mods, this`held, this`buttons, c
      ensures Ran(View(), c.link, r) == Execute(ReleaseAll, old(c.link), old(View()))
    {
      TwoCalls(c.link, Keyboard(Report({}, [])), RelMouse(0, 0, {}));
      hide Batch;
      mods, held, buttons := {}, [], {};
      var ok := SendHeld();
      if ok {
        ok := RelReport(0, 0);
      }
      r := Of(ok);
    }

    method PressCombo(chord: seq<Key>) returns (r: Outcome)
      modifies c
      ensures Ran(View(), c.link, r) == Execute(Combo(chord), old(c.link), old(View()))
    {
      var m, usages := mods, held;
      assert chord[0..] == chord;
      for i := 0 to |chord|
        invariant ChordKeys(held, chord) == ChordKeys(usages, chord[i..])
        invariant ChordMods(mods, chord) == ChordMods(m, chord[i..])
      {
        assert chord[i..][0] == chord[i] && chord[i..][1..] == chord[i + 1..];
        match chord[i] {
          case Modifier(bit) =>
            m := m + {bit};
          case Usage(u) =>
            if u !in usages {
              usages := usages + [u];
            }
        }
      }
      if |usages| > KEY_SLOTS {
        return TooManyKeys;
      }
      hide ChordKeys, ChordMods;
      var ok := KeyboardReport(Report(m, usages));
      if !ok {
        var _ := SendHeld();
        return Failed;
      }
      ok := SendHeld();
      r := Of(ok);
    }

    method TypeStroke(s: Stroke) returns (r: Outcome)
      modifies c
      ensures (c.link, r) == StrokeOn(old(c.link), View().report, s)
    {
      hide Without;
      var ok: bool;
      if s.usage in held {
        ok := KeyboardReport(ClearReport(Report(mods, held), s));
        if !ok {
          return Failed;
        }
      }
      if |Without(held, s.usage)| >= KEY_SLOTS {
        return TooManyKeys;
      }
      ok := KeyboardReport(PressReport(Report(mods, held), s));
      if !ok {
        var _ := SendHeld();
        return Failed;
      }
      ok := SendHeld();
      r := Of(ok);
    }

    /** Types a text that was looked up whole first. */
    method TypeText(text: string) returns (r: Outcome)
      modifies c
      ensures Ran(View(), c.link, r) == Execute(Type(text), old(c.link), old(View()))
    {
      hide StrokesFor, StrokesOn;
      if |text| > MAX_TYPE_CHARS {
        return TooLong;
      }
      var strokes := Lookup(text);
      if strokes.None? {
        return NotOnLayout;
      }
      r := TypeStrokes(strokes.value);
    }

    /** The sending loop of `TypeText`. */
    method TypeStrokes(strokes: seq<Stroke>) returns (r: Outcome)
      modifies c
      ensures (c.link, r) == StrokesOn(old(c.link), View().report, strokes)
    {
      hide StrokeOn;
      assert strokes[0..] == strokes;
      for i := 0 to |strokes|
        invariant StrokesOn(c.link, View().report, strokes[i..]) == StrokesOn(old(c.link), View().report, strokes)
      {
        assert strokes[i..][0] == strokes[i] && strokes[i..][1..] == strokes[i + 1..];
        r := TypeStroke(strokes[i]);
        if r != Done {
          return;
        }
      }
      r := Done;
    }

    method MoveRel(dx: int, dy: int) returns (r: Outcome)
      modifies c
      ensures Ran(View(), c.link, r) == Execute(Move(dx, dy), old(c.link), old(View()))
    {
      hide M.Steps, M.Abs, M.Step, M.ClampTotal, MoveCalls, Batch;
      var x, y := M.ClampTotal(dx), M.ClampTotal(dy);
      while x != 0 || y != 0
        invariant Batch(c.link, MoveCalls(buttons, M.Steps(x, y)))
               == Batch(old(c.link), MoveCalls(buttons, M.Steps(M.ClampTotal(dx), M.ClampTotal(dy))))
        decreases M.Abs(x) + M.Abs(y)
      {
        MoveTurn(c.link, buttons, x, y);
        var sx, sy := M.Step(x), M.Step(y);
        var ok := RelReport(sx, sy);
        if !ok {
          return Failed;
        }
        x, y := x - sx, y - sy;
      }
      MoveEnd(c.link, buttons);
      r := Done;
    }

    method TurnWheel(amount: int) returns (r: Outcome)
      modifies c
      ensures Ran(View(), c.link, r) == Execute(Scroll(amount), old(c.link), old(View()))
    {
      hide M.Steps, M.Abs, M.Step, M.ClampTotal, WheelCalls, Batch;
      var left := M.ClampTotal(amount);
      while left != 0
        invariant Batch(c.link, WheelCalls(M.Steps(left, 0)))
               == Batch(old(c.link), WheelCalls(M.Steps(M.ClampTotal(amount), 0)))
        decreases M.Abs(left)
      {
        WheelTurn(c.link, left);
        var step := M.Step(left);
        var ok := c.Make(Wheel(step));
        if !ok {
          return Failed;
        }
        left := left - step;
      }
      MoveEnd(c.link, buttons);
      r := Done;
    }

    method MoveTo(x: int, y: int) returns (r: Outcome)
      modifies c
      ensures Ran(View(), c.link, r) == Execute(MoveAbs(x, y), old(c.link), old(View()))
    {
      OneCall(c.link, AbsMouse(ClampAbs(x), ClampAbs(y), buttons));
      hide Batch;
      var ok := c.Make(AbsMouse(ClampAbs(x), ClampAbs(y), buttons));
      r := Of(ok);
    }

    /** The button is counted as pressed only while the click lasts. */
    method ClickOn(b: Button) returns (r: Outcome)
      modifies this`buttons, c
      ensures Ran(View(), c.link, r) == Execute(Click(b), old(c.link), old(View()))
    {
      TwoCalls(c.link, RelMouse(0, 0, buttons + {b}), RelMouse(0, 0, buttons));
      hide Batch;
      var pressed := buttons;
      buttons := buttons + {b};
      var ok := RelReport(0, 0);
      buttons := pressed;
      if !ok {
        return Failed;
      }
      ok := RelReport(0, 0);
      r := Of(ok);
    }

    method PressButton(b: Button) returns (r: Outcome)
      modifies this`buttons, c
      ensures Ran(View(), c.link, r) == Execute(MouseDown(b), old(c.link), old(View()))
    {
      OneCall(c.link, RelMouse(0, 0, buttons + {b}));
      hide Batch;
      buttons := buttons + {b};
      var ok := RelReport(0, 0);
      r := Of(ok);
    }

    method LiftButton(b: Button) returns (r: Outcome)
      modifies this`buttons, c
      ensures Ran(View(), c.link, r) == Execute(MouseUp(b), old(c.link), old(View()))
    {
      OneCall(c.link, RelMouse(0, 0, buttons - {b}));
      hide Batch;
      buttons := buttons - {b};
      var ok := RelReport(0, 0);
      r := Of(ok);
    }
  }

  // -- turns of the loops -----------------------------------------------------------------

  lemma OneKey(h: Report, k: Key)
    ensures ChordReport(h, [k]) ==
      match k case Modifier(bit) => h.(mods := h.mods + {bit}) case Usage(u) => h.(keys := AddUsage(h.keys, u))
  {
    assert [k][1..] == [];
    var keys := match k case Usage(u) => AddUsage(h.keys, u) case Modifier(_) => h.keys;
    var mods := match k case Modifier(bit) => h.mods + {bit} case Usage(_) => h.mods;
    assert ChordKeys(keys, []) == keys && ChordMods(mods, []) == mods;
  }

  lemma OneCall(l: Link, c: Call)
    ensures Batch(l, [c]) == (l.Sent(c), l.Ok())
  {
    assert [c][1..] == [];
  }

  lemma TwoCalls(l: Link, c: Call, d: Call)
    ensures Batch(l, [c, d]) == if !l.Ok() then (l.Sent(c), false) else (l.Sent(c).Sent(d), l.Sent(c).Ok())
  {
    assert [c, d][1..] == [d];
    OneCall(l.Sent(c), d);
  }

  lemma MoveTurn(l: Link, b: set<Button>, x: int, y: int)
    requires x != 0 || y != 0
    ensures var sx, sy := M.Step(x), M.Step(y); var c := RelMouse(sx, sy, b);
      && Batch(l, MoveCalls(b, M.Steps(x, y))) ==
           (if !l.Ok() then (l.Sent(c), false) else Batch(l.Sent(c), MoveCalls(b, M.Steps(x - sx, y - sy))))
      && M.Abs(x - sx) + M.Abs(y - sy) < M.Abs(x) + M.Abs(y)
  {
    M.StepsTurn([], x, y);
    hide M.Steps, M.Abs, M.Step;
    var first, rest := (M.Step(x), M.Step(y)), M.Steps(x - M.Step(x), y - M.Step(y));
    assert M.Steps(x, y) == [first] + rest;
    assert MoveCalls(b, [first] + rest)[1..] == MoveCalls(b, rest);
  }

  lemma WheelTurn(l: Link, v: int)
    requires v != 0
    ensures var step := M.Step(v);
      && Batch(l, WheelCalls(M.Steps(v, 0))) ==
           (if !l.Ok() then (l.Sent(Wheel(step)), false)
            else Batch(l.Sent(Wheel(step)), WheelCalls(M.Steps(v - step, 0))))
      && M.Abs(v - step) < M.Abs(v)
  {
    M.ScrollTurn([], v);
    hide M.Steps, M.Abs, M.Step;
    var first, rest := (M.Step(v), 0), M.Steps(v - M.Step(v), 0);
    assert M.Steps(v, 0) == [first] + rest;
    assert WheelCalls([first] + rest)[1..] == WheelCalls(rest);
  }

  lemma MoveEnd(l: Link, b: set<Button>)
    ensures Batch(l, MoveCalls(b, M.Steps(0, 0))) == (l, true)
    ensures Batch(l, WheelCalls(M.Steps(0, 0))) == (l, true)
  {
    M.NoSteps();
  }
}
