/** The analog-joystick direction filter of the snake games (update_Joystick_Logic).
    Lab-9/Q2 and Lab-9/Q2-final keep the previous request inside the dead zone;
    Lab-9/Q1 turns the dead zone into a STOP request. */
module Joystick {

  datatype Direction = Stop | Up | Down | Left | Right

  const AdcCenter: int := 2048
  const AdcThreshold: int := 700

  /** A 12-bit ADC conversion result (X_ADC, Y_ADC). */
  type Sample = s: int | 0 <= s < 4096

  function Abs(v: int): nat
  {
    if v < 0 then -v else v
  }

  /** The exact reverse of a direction; STOP has none. */
  function Opposite(d: Direction): Direction
  {
    match d
    case Stop => Stop
    case Up => Down
    case Down => Up
    case Left => Right
    case Right => Left
  }

  /** The squared distance of the stick from its rest position is below 700^2.
      With 12-bit samples the sum of squares is at most 2 * 2048^2, so the
      source's 32-bit arithmetic never wraps. */
  predicate InDeadZone(x: Sample, y: Sample)
  {
    var dx := x - AdcCenter;
    var dy := y - AdcCenter;
    dx * dx + dy * dy < AdcThreshold * AdcThreshold
  }

  /** The direction the stick points at: the axis with the larger offset wins,
      a tie goes to the vertical axis. */
  function Requested(x: Sample, y: Sample): (r: Direction)
    ensures r != Stop
    ensures r == Right <==> Abs(x - AdcCenter) > Abs(y - AdcCenter) && x > AdcCenter
    ensures r == Left <==> Abs(x - AdcCenter) > Abs(y - AdcCenter) && x <= AdcCenter
    ensures r == Down <==> Abs(x - AdcCenter) <= Abs(y - AdcCenter) && y > AdcCenter
    ensures r == Up <==> Abs(x - AdcCenter) <= Abs(y - AdcCenter) && y <= AdcCenter
  {
    var dx := x - AdcCenter;
    var dy := y - AdcCenter;
    if Abs(dx) > Abs(dy) then
      (if dx > 0 then Right else Left)
    else
      (if dy > 0 then Down else Up)
  }

  /** The four anti-reversal guards of the filter. */
  predicate IsReversal(cur: Direction, req: Direction)
  {
    || (cur == Right && req == Left)
    || (cur == Left && req == Right)
    || (cur == Up && req == Down)
    || (cur == Down && req == Up)
  }

  /** Lab-9/Q2 and Lab-9/Q2-final: the new value of next_dir. */
  function HoldFilter(x: Sample, y: Sample, cur: Direction, next: Direction): (r: Direction)
    ensures InDeadZone(x, y) ==> r == next
    ensures !InDeadZone(x, y) && IsReversal(cur, Requested(x, y)) ==> r == next
    ensures !InDeadZone(x, y) && !IsReversal(cur, Requested(x, y)) ==> r == Requested(x, y)
    ensures next != Stop ==> r != Stop
  {
    if InDeadZone(x, y) then next
    else
      var req := Requested(x, y);
      if IsReversal(cur, req) then next else req
  }

  /** Lab-9/Q1: the new value of next_dir; the dead zone requests STOP. */
  function StopFilter(x: Sample, y: Sample, cur: Direction, next: Direction): (r: Direction)
    ensures InDeadZone(x, y) ==> r == Stop
    ensures !InDeadZone(x, y) && IsReversal(cur, Requested(x, y)) ==> r == next
    ensures !InDeadZone(x, y) && !IsReversal(cur, Requested(x, y)) ==> r == Requested(x, y)
  {
    if InDeadZone(x, y) then Stop
    else
      var req := Requested(x, y);
      if IsReversal(cur, req) then next else req
  }

  /** The four guards say exactly "the request is the reverse of the current direction". */
  lemma ReversalIsOpposite(cur: Direction, req: Direction)
    ensures IsReversal(cur, req) <==> cur != Stop && req == Opposite(cur)
  {
  }

  /** The filter never commits a fresh request that reverses the current direction. */
  lemma HoldFilterNeverReverses(x: Sample, y: Sample, cur: Direction, next: Direction)
    ensures var r := HoldFilter(x, y, cur, next);
            r == next || (cur != Stop ==> r != Opposite(cur))
  {
    ReversalIsOpposite(cur, Requested(x, y));
  }

  /** Feeding the same samples twice changes nothing more (the filter is idempotent). */
  lemma HoldFilterIdempotent(x: Sample, y: Sample, cur: Direction, next: Direction)
    ensures HoldFilter(x, y, cur, HoldFilter(x, y, cur, next)) == HoldFilter(x, y, cur, next)
  {
  }

  /** The two variants agree outside the dead zone and differ only inside it. */
  lemma FiltersAgreeOutsideDeadZone(x: Sample, y: Sample, cur: Direction, next: Direction)
    ensures !InDeadZone(x, y) ==> StopFilter(x, y, cur, next) == HoldFilter(x, y, cur, next)
    ensures InDeadZone(x, y) ==> StopFilter(x, y, cur, next) == Stop && HoldFilter(x, y, cur, next) == next
  {
  }

  /** A sample stuck at either rail is far outside the dead zone, so it always
      yields a directional request. */
  lemma RailSamplesSteer(x: Sample, y: Sample)
    requires x == 0 || x == 4095 || y == 0 || y == 4095
    ensures !InDeadZone(x, y)
  {
    var dx := x - AdcCenter;
    var dy := y - AdcCenter;
    assert dx * dx >= 0 && dy * dy >= 0;
    if x == 0 || x == 4095 {
      assert Abs(dx) >= 2047;
      assert dx * dx >= 2047 * 2047;
    } else {
      assert Abs(dy) >= 2047;
      assert dy * dy >= 2047 * 2047;
    }
  }
}
