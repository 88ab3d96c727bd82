/** The vocabulary of one decision cycle of `main`: the actions it issues and the shared
    decision fragments (turn toward an offset, recovery turn after a forward move). */
module Commands {

  /** One action of the main loop, in the order issued. */
  datatype Command =
    | Scan               // `scanSweep` followed by `findObjects`
    | Forward(mm: int)   // `move_forward(robot, mm)`
    | TurnLeft(deg: int) // `turnLeftAngle(robot, deg)`
    | TurnRight(deg: int)// `turnRightAngle(robot, deg)`
    | Halt               // `oi_setWheels(0, 0)` on the exit path

  /** The result of one cycle. `Unspecified`: the C code leaves the behaviour undefined
      (a table is read or written past its end, or a function falls off its end without
      returning a value). `Hangs`: the cycle never completes. */
  datatype Outcome<S> = Next(state: S, commands: seq<Command>) | Unspecified | Hangs

  /** Status codes of `move_forward`. */
  const Completed: int := 0
  const BumpedLeft: int := 1
  const BumpedRight: int := 2
  const CliffLeft: int := 4
  const CliffRight: int := 5

  /** The avoidance step after a forward move: a left bump or left cliff turns 90 degrees
      right, a right bump or right cliff turns 90 degrees left, any other status does nothing. */
  function Recovery(status: int): (cs: seq<Command>)
    ensures cs == [TurnRight(-90)] <==> status == BumpedLeft || status == CliffLeft
    ensures cs == [TurnLeft(90)] <==> status == BumpedRight || status == CliffRight
    ensures cs == [] <==> status !in {BumpedLeft, BumpedRight, CliffLeft, CliffRight}
  {
    if status == BumpedLeft then [TurnRight(-90)]
    else if status == BumpedRight then [TurnLeft(90)]
    else if status == CliffLeft then [TurnRight(-90)]
    else if status == CliffRight then [TurnLeft(90)]
    else []
  }

  /** `if (x > 0) turnLeftAngle(robot, x); else if (x < 0) turnRightAngle(robot, x);`:
      the sign of the offset picks the side, the offset itself is passed unchanged. */
  function TurnBy(offset: int): (cs: seq<Command>)
    ensures |cs| <= 1
    ensures cs == [] <==> offset == 0
    ensures forall c :: c in cs ==> (c == TurnLeft(offset) && offset > 0) || (c == TurnRight(offset) && offset < 0)
  {
    if offset > 0 then [TurnLeft(offset)]
    else if offset < 0 then [TurnRight(offset)]
    else []
  }
}
