/**
 * Pointer motion: how a relative move or a scroll is split into reports (jetkvm/hid.go and
 * ch9329/src/session.rs alike), and how ch9329 scales an absolute position.
 */
module Motion {
  const MAX_STEP: int := 127
  const MAX_REL_TOTAL: int := 32767

  function Abs(v: int): nat { if v < 0 then -v else v }

  function Max(a: int, b: int): int { if a > b then a else b }

  function Clamp(v: int, limit: int): (r: int)
    requires limit >= 0
    ensures -limit <= r <= limit
    ensures -limit <= v <= limit ==> r == v
    ensures Abs(v) >= Abs(r)
  {
    if v > limit then limit else if v < -limit then -limit else v
  }

  function ClampTotal(v: int): int { Clamp(v, MAX_REL_TOTAL) }

  function Step(v: int): int { Clamp(v, MAX_STEP) }

  /** A call moves by at most 32767 either way, and by what was asked for up to there. */
  lemma TotalIsClamped(v: int)
    ensures var r := ClampTotal(v);
      (-32767 <= v <= 32767 ==> r == v) && (v > 32767 ==> r == 32767) && (v < -32767 ==> r == -32767)
  {
  }

  /** The reports of a move by `(dx, dy)`. */
  function Steps(dx: int, dy: int): seq<(int, int)>
    decreases Abs(dx) + Abs(dy)
  {
    if dx == 0 && dy == 0 then [] else [(Step(dx), Step(dy))] + Steps(dx - Step(dx), dy - Step(dy))
  }

  lemma NoSteps()
    ensures Steps(0, 0) == []
  {
  }

  /** One turn of the sending loop: `sent` reports are out, `(x, y)` is left. */
  lemma StepsTurn(sent: seq<(int, int)>, x: int, y: int)
    requires x != 0 || y != 0
    ensures sent + Steps(x, y) == (sent + [(Step(x), Step(y))]) + Steps(x - Step(x), y - Step(y))
    ensures Abs(x - Step(x)) + Abs(y - Step(y)) < Abs(x) + Abs(y)
  {
  }

  /** The same for a scroll, which has one axis. */
  lemma ScrollTurn(sent: seq<(int, int)>, v: int)
    requires v != 0
    ensures sent + Steps(v, 0) == (sent + [(Step(v), 0)]) + Steps(v - Step(v), 0)
    ensures Abs(v - Step(v)) < Abs(v)
  {
    StepsTurn(sent, v, 0);
  }

  function Total(steps: seq<(int, int)>): (int, int) {
    if steps == [] then (0, 0)
    else
      var (x, y) := Total(steps[1..]);
      (steps[0].0 + x, steps[0].1 + y)
  }

  function CeilDiv(a: nat, b: nat): nat
    requires b > 0
  {
    (a + b - 1) / b
  }

  lemma CeilDivStep(v: int)
    requires v != 0
    ensures CeilDiv(Abs(v), 127) == 1 + CeilDiv(Abs(v - Step(v)), 127)
  {
  }

  lemma {:induction false} StepsFit(dx: int, dy: int)
    ensures forall s <- Steps(dx, dy) :: -127 <= s.0 <= 127 && -127 <= s.1 <= 127 && s != (0, 0)
    decreases Abs(dx) + Abs(dy)
  {
    if dx != 0 || dy != 0 {
      StepsTurn([], dx, dy);
      StepsFit(dx - Step(dx), dy - Step(dy));
    }
  }

  lemma {:induction false} StepsAddUp(dx: int, dy: int)
    ensures Total(Steps(dx, dy)) == (dx, dy)
    decreases Abs(dx) + Abs(dy)
  {
    if dx != 0 || dy != 0 {
      StepsTurn([], dx, dy);
      StepsAddUp(dx - Step(dx), dy - Step(dy));
      hide Step, Abs;
      var first, rest := (Step(dx), Step(dy)), Steps(dx - Step(dx), dy - Step(dy));
      assert ([first] + rest)[1..] == rest;
    }
  }

  lemma {:induction false} StepsAreFew(dx: int, dy: int)
    ensures |Steps(dx, dy)| == Max(CeilDiv(Abs(dx), 127), CeilDiv(Abs(dy), 127))
    decreases Abs(dx) + Abs(dy)
  {
    if dx != 0 || dy != 0 {
      StepsTurn([], dx, dy);
      StepsAreFew(dx - Step(dx), dy - Step(dy));
      CeilDivTurn(dx);
      CeilDivTurn(dy);
      hide Step, Abs, CeilDiv;
    }
  }

  /** One turn takes one report off each axis that still has any. */
  lemma CeilDivTurn(v: int)
    ensures CeilDiv(Abs(v - Step(v)), 127) == if v == 0 then 0 else CeilDiv(Abs(v), 127) - 1
    ensures v != 0 ==> CeilDiv(Abs(v), 127) > 0
    ensures v == 0 ==> CeilDiv(Abs(v), 127) == 0
  {
    if v != 0 {
      CeilDivStep(v);
    }
  }

  /**
   * Motion is conserved: the reports fit in a signed byte, add up to the move, and are as
   * few as the longer axis allows.
   */
  lemma StepsConserve(dx: int, dy: int)
    ensures forall s <- Steps(dx, dy) :: -127 <= s.0 <= 127 && -127 <= s.1 <= 127 && s != (0, 0)
    ensures Total(Steps(dx, dy)) == (dx, dy)
    ensures |Steps(dx, dy)| == Max(CeilDiv(Abs(dx), 127), CeilDiv(Abs(dy), 127))
  {
    StepsFit(dx, dy);
    StepsAddUp(dx, dy);
    StepsAreFew(dx, dy);
    hide Steps, Total, CeilDiv, Abs;
  }

  /** A call never takes more than 259 reports, however far it is asked to go. */
  lemma AtMost259(dx: int, dy: int)
    ensures |Steps(ClampTotal(dx), ClampTotal(dy))| <= 259
  {
    StepsConserve(ClampTotal(dx), ClampTotal(dy));
  }

  // -- absolute positions ---------------------------------------------------------------

  const ABS_FULL: int := 4096

  /** A logical coordinate on the chip's 12-bit grid, rounded. */
  function ScaleAbs(v: int): (r: int)
    ensures 0 <= r <= 4095
  {
    var c := if v < 0 then 0 else if v > 32767 then 32767 else v;
    var scaled := (c * ABS_FULL + 32767 / 2) / 32767;
    if scaled > 4095 then 4095 else scaled
  }

  lemma ScaleMonotone(a: int, b: int)
    requires a <= b
    ensures ScaleAbs(a) <= ScaleAbs(b)
  {
  }

  /** Every grid position is the image of a logical one. */
  lemma ScaleOnto(p: int)
    requires 0 <= p <= 4095
    ensures ScaleAbs((p * 32767 + 2048) / 4096) == p
  {
  }

  /** Below the top clip the grid position is the nearest one to the exact quotient. */
  lemma ScaleNearest(v: int)
    requires 0 <= v <= 32767
    ensures var e := ScaleAbs(v) * 32767 - v * 4096;
      if v <= 32763 then -16383 <= e <= 16383 else ScaleAbs(v) == 4095
  {
  }
}
