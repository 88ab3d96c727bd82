/** The arithmetic of Libraries/servo.c: converting an angle into timer clocks from the two
    calibration values, splitting a match value into the timer's 16-bit match register and
    8-bit prescale match register, and one step of the button-driven calibration loop.
    Every quantity is a C `uint32_t`, modelled as an `int` in [0, 2^32) with wrap-around
    written out. */
module Servo {

  const U32: int := 0x1_0000_0000
  /** Clock values that fit the two timer registers together: 16 + 8 bits. */
  const U24: int := 0x100_0000
  const U16: int := 0x1_0000
  const U8: int := 0x100

  predicate IsU32(x: int) {
    0 <= x < U32
  }

  /** Reduction modulo 2^32: what storing `x` in a `uint32_t` leaves. */
  function Wrap(x: int): (w: int)
    ensures IsU32(w)
    ensures exists q :: x == w + q * U32
    ensures IsU32(x) ==> w == x
  {
    assert x == x % U32 + (x / U32) * U32;
    x % U32
  }

  /** Wrapping absorbs an earlier wrap: `Wrap(Wrap(x) + y) == Wrap(x + y)`. */
  lemma WrapAdd(x: int, y: int)
    ensures Wrap(Wrap(x) + y) == Wrap(x + y)
  {
    var q :| x == Wrap(x) + q * U32;
    var p :| Wrap(x) + y == Wrap(Wrap(x) + y) + p * U32;
    var r :| x + y == Wrap(x + y) + r * U32;
    assert Wrap(Wrap(x) + y) - Wrap(x + y) == (r - q - p) * U32;
  }

  /** `LEFT_CAL_VALUE` (clocks at 180 degrees) and `RIGHT_CAL_VALUE` (clocks at 0). */
  datatype Calibration = Calibration(left: int, right: int)

  predicate ValidCal(c: Calibration) {
    IsU32(c.left) && IsU32(c.right)
  }

  /** `set_left(clocks)`: only the left value changes. */
  function SetLeft(c: Calibration, clocks: int): (r: Calibration)
    requires ValidCal(c) && IsU32(clocks)
    ensures ValidCal(r) && r.left == clocks && r.right == c.right
  {
    c.(left := clocks)
  }

  /** `set_right(clocks)`: only the right value changes. */
  function SetRight(c: Calibration, clocks: int): (r: Calibration)
    requires ValidCal(c) && IsU32(clocks)
    ensures ValidCal(r) && r.right == clocks && r.left == c.left
  {
    c.(right := clocks)
  }

  /** The two setters touch different fields, so their order does not matter. */
  lemma SettersCommute(c: Calibration, l: int, r: int)
    requires ValidCal(c) && IsU32(l) && IsU32(r)
    ensures SetRight(SetLeft(c, l), r) == SetLeft(SetRight(c, r), l) == Calibration(l, r)
  {
  }

  /** `clocksPerDegree`: the unsigned difference `LEFT - RIGHT`, which wraps when the left
      value is the smaller one, divided by 180 and truncated. */
  function ClocksPerDegree(c: Calibration): (cpd: int)
    requires ValidCal(c)
    ensures IsU32(cpd)
    ensures c.left >= c.right ==> 180 * cpd <= c.left - c.right < 180 * cpd + 180
    ensures c.left < c.right ==> 180 * cpd <= c.left - c.right + U32 < 180 * cpd + 180
  {
    Wrap(c.left - c.right) / 180
  }

  /** `calc_duty_cycle(degrees)`: clocks per degree times the angle plus the right value,
      all in `uint32_t`. `degrees` is a `uint16_t`. */
  function CalcDutyCycle(c: Calibration, degrees: int): (m: int)
    requires ValidCal(c) && 0 <= degrees < U16
    ensures IsU32(m)
    ensures exists q :: ClocksPerDegree(c) * degrees + c.right == m + q * U32
  {
    Wrap(ClocksPerDegree(c) * degrees + c.right)
  }

  /** Zero degrees is the right calibration value itself. */
  lemma DutyAtZero(c: Calibration)
    requires ValidCal(c)
    ensures CalcDutyCycle(c, 0) == c.right
  {
  }

  /** With the left value not below the right one, no sum overflows for angles up to 180:
      the clocks grow with the angle, start at the right value and, at 180 degrees, fall
      short of the left value by less than 180 clocks (the truncation of the division). */
  lemma DutyMonotone(c: Calibration, d1: int, d2: int)
    requires ValidCal(c) && c.left >= c.right
    requires 0 <= d1 <= d2 <= 180
    ensures CalcDutyCycle(c, d1) == ClocksPerDegree(c) * d1 + c.right
    ensures c.right <= CalcDutyCycle(c, d1) <= CalcDutyCycle(c, d2) <= c.left
    ensures c.left - 180 < CalcDutyCycle(c, 180)
  {
    var cpd := ClocksPerDegree(c);
    assert 0 <= cpd * d1 <= cpd * d2 <= cpd * 180 by {
      assert cpd * d2 - cpd * d1 == cpd * (d2 - d1);
      assert cpd * 180 - cpd * d2 == cpd * (180 - d2);
    }
    assert cpd * 180 + c.right <= c.left;
  }

  /** A left value below the right one makes the difference wrap: the clocks per degree
      are then at least `(2^32 - RIGHT) / 180`, far beyond any servo position. */
  lemma ReversedCalibrationWraps(c: Calibration)
    requires ValidCal(c) && c.left < c.right
    ensures 180 * ClocksPerDegree(c) > U32 - c.right - 180
  {
  }

  /** The match register `TBMATCHR` and the prescale match register `TBPMR`. */
  datatype Registers = Registers(matchLow: int, prescale: int)

  /** `matchVal & 0xFFFF` and `(matchVal >> 16) & 0xFF`, as `servo_move` writes them. */
  function Split(m: int): (r: Registers)
    requires IsU32(m)
    ensures 0 <= r.matchLow < U16 && 0 <= r.prescale < U8
  {
    Registers(m % U16, (m / U16) % U8)
  }

  /** The 24-bit count the two registers hold together. */
  function Combine(r: Registers): (m: int)
    requires 0 <= r.matchLow < U16 && 0 <= r.prescale < U8
    ensures 0 <= m < U24
  {
    r.prescale * U16 + r.matchLow
  }

  /** The split keeps every value below 2^24; the bits above 24 are dropped. */
  lemma SplitRoundTrip(m: int)
    requires IsU32(m)
    ensures m < U24 ==> Combine(Split(m)) == m
    ensures Combine(Split(m)) == m % U24
  {
    var q := m / U16;
    assert m == q * U16 + m % U16;
    assert q == (q / U8) * U8 + q % U8;
    assert m == (q / U8) * U24 + (q % U8) * U16 + m % U16;
  }

  /** Every pair of register values is the split of the count they hold. */
  lemma CombineRoundTrip(r: Registers)
    requires 0 <= r.matchLow < U16 && 0 <= r.prescale < U8
    ensures Split(Combine(r)) == r
  {
    var m := Combine(r);
    assert m / U16 == r.prescale;
  }

  /** `servo_move(degrees)`: the registers it writes. */
  function ServoMove(c: Calibration, degrees: int): (r: Registers)
    requires ValidCal(c) && 0 <= degrees < U16
    ensures 0 <= r.matchLow < U16 && 0 <= r.prescale < U8
    ensures Combine(r) == CalcDutyCycle(c, degrees) % U24
  {
    SplitRoundTrip(CalcDutyCycle(c, degrees));
    Split(CalcDutyCycle(c, degrees))
  }

  /** The variables of `servo_calibrate`: the pulse width shown, the two calibration values
      and the timer registers. */
  datatype CalState = CalState(width: int, cal: Calibration, regs: Registers)

  /** The registers always hold the split of the current pulse width. */
  predicate CalInv(st: CalState) {
    IsU32(st.width) && ValidCal(st.cal) && st.regs == Split(st.width)
  }

  /** The pulse width the calibration starts from, in clocks. */
  const StartWidth: int := 24000
  /** The change of one press of button 1 or 2, in clocks. */
  const WidthStep: int := 100

  /** Entering `servo_calibrate`: pulse width 24000, written to the registers. */
  function CalStart(cal: Calibration): (st: CalState)
    requires ValidCal(cal)
    ensures CalInv(st) && st.width == StartWidth && st.cal == cal
  {
    CalState(StartWidth, cal, Registers(StartWidth % U16, StartWidth / U16))
  }

  /** One pass of the calibration loop with the button read. Button 1 widens the pulse by
      100 clocks and button 2 narrows it by 100, wrapping as `uint32_t`, both rewriting the
      registers; button 3 stores the width as the left value, button 4 as the right value;
      any other reading changes nothing. */
  function CalStep(st: CalState, button: int): (r: CalState)
    requires CalInv(st)
    ensures CalInv(r)
    ensures button == 1 ==> r == CalState(Wrap(st.width + WidthStep), st.cal, Split(Wrap(st.width + WidthStep)))
    ensures button == 2 ==> r == CalState(Wrap(st.width - WidthStep), st.cal, Split(Wrap(st.width - WidthStep)))
    ensures button == 3 ==> r == st.(cal := SetLeft(st.cal, st.width))
    ensures button == 4 ==> r == st.(cal := SetRight(st.cal, st.width))
    ensures button !in {1, 2, 3, 4} ==> r == st
  {
    if button == 1 then
      var w := Wrap(st.width + WidthStep);
      CalState(w, st.cal, Split(w))
    else if button == 2 then
      var w := Wrap(st.width - WidthStep);
      CalState(w, st.cal, Split(w))
    else if button == 3 then st.(cal := st.cal.(left := st.width))
    else if button == 4 then st.(cal := st.cal.(right := st.width))
    else st
  }

  /** Pressing button 1 then button 2 returns to the same state, wrap-around included. */
  lemma UpThenDown(st: CalState)
    requires CalInv(st)
    ensures CalStep(CalStep(st, 1), 2) == st
    ensures CalStep(CalStep(st, 2), 1) == st
  {
    WrapAdd(st.width + WidthStep, -WidthStep);
    WrapAdd(st.width - WidthStep, WidthStep);
  }

  /** Several passes of the loop, one button reading each. */
  function CalRun(st: CalState, buttons: seq<int>): (r: CalState)
    requires CalInv(st)
    ensures CalInv(r)
    decreases |buttons|
  {
    if buttons == [] then st else CalRun(CalStep(st, buttons[0]), buttons[1..])
  }

  /** Presses of button 1 minus presses of button 2. */
  function Net(buttons: seq<int>): int
  {
    if buttons == [] then 0
    else (if buttons[0] == 1 then 1 else if buttons[0] == 2 then -1 else 0) + Net(buttons[1..])
  }

  /** The width after any sequence of presses is the starting width plus 100 clocks per
      net press of button 1, modulo 2^32; the registers follow it. */
  lemma {:induction false} CalRunWidth(st: CalState, buttons: seq<int>)
    requires CalInv(st)
    ensures CalRun(st, buttons).width == Wrap(st.width + WidthStep * Net(buttons))
    ensures CalRun(st, buttons).regs == Split(CalRun(st, buttons).width)
    decreases |buttons|
  {
    if buttons != [] {
      var b := buttons[0];
      var st1 := CalStep(st, b);
      var d := if b == 1 then 1 else if b == 2 then -1 else 0;
      assert st1.width == Wrap(st.width + WidthStep * d);
      CalRunWidth(st1, buttons[1..]);
      WrapAdd(st.width + WidthStep * d, WidthStep * Net(buttons[1..]));
    }
  }

  /** Without a press of button 3 or 4 the calibration values stay as they were. */
  lemma {:induction false} CalRunKeepsCalibration(st: CalState, buttons: seq<int>)
    requires CalInv(st)
    requires forall k :: 0 <= k < |buttons| ==> buttons[k] != 3 && buttons[k] != 4
    ensures CalRun(st, buttons).cal == st.cal
    decreases |buttons|
  {
    if buttons != [] {
      CalRunKeepsCalibration(CalStep(st, buttons[0]), buttons[1..]);
    }
  }
}
