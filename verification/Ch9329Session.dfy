/**
 * The session of ch9329/src/session.rs: the held report state, and the commands that compile
 * into frames.
 */
module Ch9329Session {
  import opened Bytes
  import opened UsKeyboard
  import opened Ch9329Chip
  import opened Ch9329Keys
  import opened Ch9329Typing
  import opened Ch9329Commands
  import opened Ch9329Laws
  import opened Ch9329CommandLaws
  import M = Motion

  class Session {
    const port: Port
    /** The rate the port runs at. */
    var baud: nat
    var mods: set<Mod>
    var keys: seq<byte>
    var buttons: set<Button>

    constructor (port: Port, baud: nat)
      ensures this.port == port && View() == Nothing(baud)
    {
      this.port, this.baud := port, baud;
      mods, keys, buttons := {}, [], {};
    }

    ghost function View(): Held
      reads this
    {
      Held(Report(mods, keys), buttons, baud)
    }

    // -- frames -------------------------------------------------------------------------

    method PushReport(report: Report) returns (r: Reply)
      modifies port
      ensures r == old(port.line).Reply() && port.line == old(port.line).Sent(Keyboard(report))
    {
      r := port.Send(Keyboard(report));
    }

    method PushKeyboard() returns (r: Reply)
      modifies port
      ensures r == old(port.line).Reply() && port.line == old(port.line).Sent(Keyboard(HeldReport(View().report)))
    {
      r := PushReport(Report(mods, Slots(keys)));
    }

    method PushMouseRel(b: set<Button>, dx: int, dy: int, wheel: int) returns (r: Reply)
      modifies port
      ensures r == old(port.line).Reply() && port.line == old(port.line).Sent(MouseRel(b, dx, dy, wheel))
    {
      r := port.Send(MouseRel(b, dx, dy, wheel));
    }

    // -- keyboard -----------------------------------------------------------------------

    method ApplyDown(k: Key)
      modifies this`mods, this`keys
      ensures View() == old(View()).(report := Down(old(View()).report, k))
    {
      match k
      case Modifier(bit) => mods := mods + {bit};
      case Usage(u) =>
        if u !in keys && |keys| < KEY_SLOTS {
          keys := keys + [u];
        }
    }

    method ApplyUp(k: Key)
      modifies this`mods, this`keys
      ensures View() == old(View()).(report := Up(old(View()).report, k))
    {
      match k
      case Modifier(bit) => mods := mods - {bit};
      case Usage(u) => keys := Without(keys, u);
    }

    method ApplyDownAll(chord: seq<Key>)
      modifies this`mods, this`keys
      ensures View() == old(View()).(report := DownAll(old(View()).report, chord))
    {
      assert chord[0..] == chord;
      for i := 0 to |chord|
        invariant View().buttons == old(View()).buttons
        invariant DownAll(old(View()).report, chord) == DownAll(View().report, chord[i..])
      {
        hide Down;
        assert chord[i..][0] == chord[i] && chord[i..][1..] == chord[i + 1..];
        ApplyDown(chord[i]);
      }
    }

    method ApplyUpAll(chord: seq<Key>)
      modifies this`mods, this`keys
      ensures View() == old(View()).(report := UpAll(old(View()).report, chord))
    {
      assert chord[0..] == chord;
      for i := 0 to |chord|
        invariant View().buttons == old(View()).buttons
        invariant UpAll(old(View()).report, chord) == UpAll(View().report, chord[i..])
      {
        hide Up;
        assert chord[i..][0] == chord[i] && chord[i..][1..] == chord[i + 1..];
        ApplyUp(chord[i]);
      }
    }

    /** The release half of a tap, chord or keystroke. */
    method FinishHold(pressed: Reply) returns (r: Reply)
      modifies port
      ensures Went(port.line, r) == Finish(old(port.line), View().report, pressed)
    {
      hide HeldReport;
      var released := PushKeyboard();
      if pressed != Ack {
        return pressed;
      }
      if released != Ack {
        var _ := PushKeyboard();
      }
      r := released;
    }

    /** Presses a chord on top of what is held, and releases it. */
    method Hold(chord: seq<Key>) returns (r: Outcome)
      modifies this`mods, this`keys, port
      ensures Ran(View(), port.line, r) == ExecuteChord(old(port.line), old(View()), chord)
    {
      hide DownAll, UpAll, HeldReport, Finish;
      ApplyDownAll(chord);
      var pressed := PushKeyboard();
      ApplyUpAll(chord);
      var done := FinishHold(pressed);
      r := Of(done);
    }

    method TapKey(k: Key) returns (r: Outcome)
      modifies this`mods, this`keys, port
      ensures Ran(View(), port.line, r) == Execute(Tap(k), old(port.line), old(View()))
    {
      hide ExecuteChord;
      r := Hold([k]);
    }

    method ComboKeys(chord: seq<Key>) returns (r: Outcome)
      modifies this`mods, this`keys, port
      ensures Ran(View(), port.line, r) == Execute(Combo(chord), old(port.line), old(View()))
    {
      hide ExecuteChord, KeysNeeded;
      if KeysNeeded(chord, keys) > KEY_SLOTS {
        return Refused;
      }
      r := Hold(chord);
    }

    method PressKey(k: Key) returns (r: Outcome)
      modifies this`mods, this`keys, port
      ensures Ran(View(), port.line, r) == Execute(KeyDown(k), old(port.line), old(View()))
    {
      hide HeldReport, Down;
      OneFrame(port.line, Keyboard(HeldReport(Down(View().report, k))));
      hide Batch;
      ApplyDown(k);
      var p := PushKeyboard();
      r := Of(p);
    }

    method LiftKey(k: Key) returns (r: Outcome)
      modifies this`mods, this`keys, port
      ensures Ran(View(), port.line, r) == Execute(KeyUp(k), old(port.line), old(View()))
    {
      hide HeldReport, Up;
      OneFrame(port.line, Keyboard(HeldReport(Up(View().report, k))));
      hide Batch;
      ApplyUp(k);
      var p := PushKeyboard();
      r := Of(p);
    }

    method ReleaseKeys() returns (r: Outcome)
      modifies this`mods, this`keys, port
      ensures Ran(View(), port.line, r) == Execute(ReleaseAll, old(port.line), old(View()))
      ensures View() == old(View()).(report := EMPTY) && r == Of(old(port.line).Reply())
      ensures port.line == old(port.line).Sent(Keyboard(HeldReport(EMPTY)))
    {
      hide HeldReport;
      OneFrame(port.line, Keyboard(HeldReport(EMPTY)));
      hide Batch;
      mods, keys := {}, [];
      var p := PushKeyboard();
      r := Of(p);
    }

    method ReleaseEverything() returns (r: Outcome)
      modifies this`mods, this`keys, this`buttons, port
      ensures Ran(View(), port.line, r) == ReleaseOn(old(port.line), old(View()))
    {
      hide HeldReport, Execute;
      r := ReleaseKeys();
      if r != Done {
        return;
      }
      buttons := {};
      var p := PushMouseRel({}, 0, 0, 0);
      r := Of(p);
    }

    // -- typing -------------------------------------------------------------------------

    method TypeStroke(s: Stroke) returns (r: Reply)
      modifies this`keys, port
      ensures Went(port.line, r) == StrokeOn(old(port.line), old(View()).report, s)
      ensures View() == old(View()).(report := After(old(View()).report, s))
    {
      hide PressReport, HeldReport, Finish;
      var press := PressReport(Report(mods, keys), s);
      if s.usage in keys {
        keys := Without(keys, s.usage);
        var cleared := PushKeyboard();
        keys := keys + [s.usage];
        if cleared != Ack {
          return cleared;
        }
      }
      var pressed := PushReport(press);
      r := FinishHold(pressed);
    }

    /** Types character by character; one that is not on the layout stops it there. */
    method TypeText(text: string) returns (r: Outcome)
      modifies this`keys, port
      ensures Ran(View(), port.line, r) == Execute(Type(text), old(port.line), old(View()))
    {
      hide StrokeOn, StrokesOn, After, CharToUsage, Typeable;
      if |text| > MAX_TYPE_CHARS {
        return Refused;
      }
      r := TypeChars(text);
    }

    /** The loop of TypeText. */
    method TypeChars(text: string) returns (r: Outcome)
      modifies this`keys, port
      ensures
        var (w, h) := StrokesOn(old(port.line), old(View()).report, Typeable(text));
        && View() == old(View()).(report := h) && port.line == w.line
        && r == if w.reply == Ack && |Typeable(text)| < |text| then Refused else Of(w.reply)
    {
      hide StrokeOn, StrokesOn, After, CharToUsage, Typeable, ValidKeys;
      ghost var all := StrokesOn(port.line, View().report, Typeable(text));
      assert text[0..] == text;
      for i := 0 to |text|
        invariant View().buttons == old(View()).buttons
        invariant |Typeable(text)| == i + |Typeable(text[i..])|
        invariant StrokesOn(port.line, View().report, Typeable(text[i..])) == all
      {
        TypeTurn(port.line, View().report, text, i);
        var c := CharToUsage(text[i]);
        if c.None? {
          return Refused;
        }
        var p := TypeStroke(c.value);
        if p != Ack {
          return Of(p);
        }
      }
      TypeEnd(port.line, View().report, text);
      r := Done;
    }

    // -- mouse --------------------------------------------------------------------------

    method MoveRel(dx: int, dy: int) returns (r: Outcome)
      modifies port
      ensures Ran(View(), port.line, r) == Execute(Move(dx, dy), old(port.line), old(View()))
    {
      hide M.Steps, M.Abs, M.Step, M.ClampTotal, MoveFrames, Batch;
      var x, y := M.ClampTotal(dx), M.ClampTotal(dy);
      while x != 0 || y != 0
        invariant Batch(port.line, MoveFrames(buttons, M.Steps(x, y)))
               == Batch(old(port.line), MoveFrames(buttons, M.Steps(M.ClampTotal(dx), M.ClampTotal(dy))))
        decreases M.Abs(x) + M.Abs(y)
      {
        MoveTurn(port.line, buttons, x, y);
        var sx, sy := M.Step(x), M.Step(y);
        var p := PushMouseRel(buttons, sx, sy, 0);
        if p != Ack {
          return Of(p);
        }
        x, y := x - sx, y - sy;
      }
      MoveEnd(port.line, buttons);
      r := Done;
    }

    method ScrollBy(amount: int) returns (r: Outcome)
      modifies port
      ensures Ran(View(), port.line, r) == Execute(Scroll(amount), old(port.line), old(View()))
    {
      hide M.Steps, M.Abs, M.Step, M.ClampTotal, WheelFrames, Batch;
      var left := M.ClampTotal(amount);
      while left != 0
        invariant Batch(port.line, WheelFrames(buttons, M.Steps(left, 0)))
               == Batch(old(port.line), WheelFrames(buttons, M.Steps(M.ClampTotal(amount), 0)))
        decreases M.Abs(left)
      {
        ScrollTurn(port.line, buttons, left);
        var step := M.Step(left);
        var p := PushMouseRel(buttons, 0, 0, step);
        if p != Ack {
          return Of(p);
        }
        left := left - step;
      }
      MoveEnd(port.line, buttons);
      r := Done;
    }

    method MoveTo(x: int, y: int) returns (r: Outcome)
      modifies port
      ensures Ran(View(), port.line, r) == Execute(MoveAbs(x, y), old(port.line), old(View()))
    {
      hide M.ScaleAbs;
      var tx, ty := M.ScaleAbs(x), M.ScaleAbs(y);
      var ny := if ty >= 1 then ty - 1 else ty + 1;
      TwoFrames(port.line, MouseAbs(buttons, tx, ny), MouseAbs(buttons, tx, ty));
      hide Batch;
      var p := port.Send(MouseAbs(buttons, tx, ny));
      if p == Ack {
        p := port.Send(MouseAbs(buttons, tx, ty));
      }
      r := Of(p);
    }

    method ClickOn(button: Button) returns (r: Outcome)
      modifies port
      ensures Ran(View(), port.line, r) == Execute(Click(button), old(port.line), old(View()))
    {
      TwoFrames(port.line, ButtonFrame(buttons + {button}), ButtonFrame(buttons));
      hide Batch;
      var p := PushMouseRel(buttons + {button}, 0, 0, 0);
      if p == Ack {
        p := PushMouseRel(buttons, 0, 0, 0);
      }
      r := Of(p);
    }

    method PressButton(button: Button) returns (r: Outcome)
      modifies this`buttons, port
      ensures Ran(View(), port.line, r) == Execute(MouseDown(button), old(port.line), old(View()))
    {
      OneFrame(port.line, ButtonFrame(buttons + {button}));
      hide Batch;
      buttons := buttons + {button};
      var p := PushMouseRel(buttons, 0, 0, 0);
      r := Of(p);
    }

    method LiftButton(button: Button) returns (r: Outcome)
      modifies this`buttons, port
      ensures Ran(View(), port.line, r) == Execute(MouseUp(button), old(port.line), old(View()))
    {
      OneFrame(port.line, ButtonFrame(buttons - {button}));
      hide Batch;
      buttons := buttons - {button};
      var p := PushMouseRel(buttons, 0, 0, 0);
      r := Of(p);
    }

    // -- queries ------------------------------------------------------------------------

    method Query() returns (r: Reply)
      modifies port
      ensures r == old(port.line).Reply() && port.line == old(port.line).Sent(GetInfo)
    {
      r := port.Send(GetInfo);
    }

    /** The reply to a mux command states the side the mux is on by then. */
    method SwitchMux(selector: byte, wanted: Option<byte>) returns (r: Outcome)
      modifies port
      ensures Ran(View(), port.line, r) == ExecuteMux(old(port.line), old(View()), selector, wanted)
    {
      var p := port.Send(UsbSwitch(selector));
      if p == NoReply {
        return NoMux;
      }
      if p != Ack {
        return Of(p);
      }
      var side := port.line.chip.mux;
      if wanted.Some? && side != wanted.value {
        return NotMoved;
      }
      r := Done;
    }

    // -- the rate -----------------------------------------------------------------------

    method SetBaud(rate: nat) returns (r: Outcome)
      modifies this`mods, this`keys, this`buttons, this`baud, port
      ensures Ran(View(), port.line, r) == Execute(Baud(rate), old(port.line), old(View()))
    {
      if rate < BAUD_MIN || rate > BAUD_MAX {
        return Refused;
      }
      TwoFrames(port.line, GetConfig, SetConfig(rate));
      hide Batch, Answers;
      var p := port.Send(GetConfig);
      if p == Ack {
        p := port.Send(SetConfig(rate));
      }
      if p != Ack {
        return Of(p);
      }
      baud := rate;
      var _ := port.Send(Reset);
      mods, keys, buttons := {}, [], {};
      port.SetBaud(rate);
      r := AwaitAnswer();
    }

    /** The chip may be slow to come back. */
    method AwaitAnswer() returns (r: Outcome)
      modifies port
      ensures var w := Answers(old(port.line), 3); port.line == w.line && r == if w.reply == Ack then Done else Dead
    {
      hide Line.Sent, Line.Reply;
      for i := 0 to 3
        invariant Answers(port.line, 3 - i) == Answers(old(port.line), 3)
      {
        var p := Query();
        if p == Ack {
          return Done;
        }
      }
      r := Dead;
    }

    // -- commands -----------------------------------------------------------------------

    method Run(c: Command) returns (r: Outcome)
      modifies this`mods, this`keys, this`buttons, this`baud, port
      ensures Ran(View(), port.line, r) == Execute(c, old(port.line), old(View()))
    {
      match c
      case Tap(k) => r := TapKey(k);
      case Combo(chord) => r := ComboKeys(chord);
      case KeyDown(k) => r := PressKey(k);
      case KeyUp(k) => r := LiftKey(k);
      case ReleaseAll => r := ReleaseKeys();
      case Type(text) => r := TypeText(text);
      case Move(dx, dy) => r := MoveRel(dx, dy);
      case MoveAbs(x, y) => r := MoveTo(x, y);
      case Click(button) => r := ClickOn(button);
      case MouseDown(button) => r := PressButton(button);
      case MouseUp(button) => r := LiftButton(button);
      case Scroll(amount) => r := ScrollBy(amount);
      case Ping => r := RunQuery(c);
      case Info => r := RunQuery(c);
      case Version => r := Done;
      case UsbState => r := SwitchMux(3, None);
      case UsbSet(side) => r := SwitchMux(side, Some(side));
      case Baud(rate) => r := SetBaud(rate);
    }

    method RunQuery(c: Command) returns (r: Outcome)
      requires c.Ping? || c.Info?
      modifies port
      ensures Ran(View(), port.line, r) == Execute(c, old(port.line), old(View()))
    {
      OneFrame(port.line, GetInfo);
      hide Batch;
      var p := Query();
      r := Of(p);
    }
  }

  // -- turns of the loops -----------------------------------------------------------------

  lemma TypeTurn(l: Line, h: Report, text: string, i: nat)
    requires i < |text|
    ensures var rest := Typeable(text[i..]); var c := CharToUsage(text[i]);
      && (c.None? ==> rest == [] && StrokesOn(l, h, rest) == (Went(l, Ack), h))
      && (c.Some? ==>
            && rest == [c.value] + Typeable(text[i + 1..])
            && var w := StrokeOn(l, h, c.value);
            StrokesOn(l, h, rest) ==
              if w.reply != Ack then (w, After(h, c.value))
              else StrokesOn(w.line, After(h, c.value), Typeable(text[i + 1..])))
  {
    hide CharToUsage, StrokeOn, After;
    assert text[i..][0] == text[i] && text[i..][1..] == text[i + 1..];
    if CharToUsage(text[i]).Some? {
      var c := CharToUsage(text[i]).value;
      assert ([c] + Typeable(text[i + 1..]))[1..] == Typeable(text[i + 1..]);
    }
  }

  lemma TypeEnd(l: Line, h: Report, text: string)
    ensures Typeable(text[|text|..]) == [] && StrokesOn(l, h, Typeable(text[|text|..])) == (Went(l, Ack), h)
  {
  }

  lemma MoveTurn(l: Line, b: set<Button>, x: int, y: int)
    requires x != 0 || y != 0
    ensures var sx, sy := M.Step(x), M.Step(y); var f := MouseRel(b, sx, sy, 0);
      && Batch(l, MoveFrames(b, M.Steps(x, y))) ==
           (if l.Reply() != Ack then Went(l.Sent(f), l.Reply())
            else Batch(l.Sent(f), MoveFrames(b, M.Steps(x - sx, y - sy))))
      && M.Abs(x - sx) + M.Abs(y - sy) < M.Abs(x) + M.Abs(y)
  {
    M.StepsTurn([], x, y);
    hide M.Steps, M.Abs, M.Step;
    var first, rest := (M.Step(x), M.Step(y)), M.Steps(x - M.Step(x), y - M.Step(y));
    assert M.Steps(x, y) == [first] + rest;
    assert MoveFrames(b, [first] + rest)[1..] == MoveFrames(b, rest);
  }

  lemma ScrollTurn(l: Line, b: set<Button>, v: int)
    requires v != 0
    ensures var step := M.Step(v); var f := MouseRel(b, 0, 0, step);
      && Batch(l, WheelFrames(b, M.Steps(v, 0))) ==
           (if l.Reply() != Ack then Went(l.Sent(f), l.Reply())
            else Batch(l.Sent(f), WheelFrames(b, M.Steps(v - step, 0))))
      && M.Abs(v - step) < M.Abs(v)
  {
    M.ScrollTurn([], v);
    hide M.Steps, M.Abs, M.Step;
    var first, rest := (M.Step(v), 0), M.Steps(v - M.Step(v), 0);
    assert M.Steps(v, 0) == [first] + rest;
    assert WheelFrames(b, [first] + rest)[1..] == WheelFrames(b, rest);
  }

  lemma MoveEnd(l: Line, b: set<Button>)
    ensures Batch(l, MoveFrames(b, M.Steps(0, 0))) == Went(l, Ack)
    ensures Batch(l, WheelFrames(b, M.Steps(0, 0))) == Went(l, Ack)
  {
    M.NoSteps();
  }
}
