/** One cycle of the main loop of Autoparking.c. Its outer loop holds an autonomous loop
    and a manual loop, both guarded by `skinnyPostFound == -1`, a parking loop with an
    empty body, and an exit test. A post seen in the autonomous loop jumps to the bottom
    of the outer loop (`goto BOTTOM`), skipping the exit test. */
module AutoparkingMain {
  import opened Basics
  import opened Sweep
  import opened ParkingScan
  import opened ParkingGaps
  import opened Commands
  import opened AutoparkingScan

  /** Forward probe when there is no gap to aim for, in mm. */
  const ApProbeMm: int := 350
  /** Forward creep (gap too narrow, or manual forward), in mm. */
  const ApCreepMm: int := 100
  /** `ROBOT_WIDTH` of Autoparking.c. */
  const ApRobotWidth: int := 35

  datatype ApPhase = ApAutonomous | ApManual | ApParking | ApExitCheck | ApHalted

  /** The globals of Autoparking.c and `main`'s local `moveStatus`. The skinny table has a
      single column (angles). */
  datatype ApRobot = ApRobot(
    phase: ApPhase,
    objects: seq<Obj>,
    gaps: seq<Gap>,
    skinny: seq<int>,
    skinnyPostFound: int,
    skinnyIndex: nat,
    moveStatus: int,
    movementCode: int)

  /** The environment of one cycle: the operator flags, the sweep, the status the cycle's
      `move_forward` would return, and the values the uninitialised run-bound locals of
      `findObjects` hold. */
  datatype ApInputs = ApInputs(goCmd: bool, manualMode: bool, sweep: seq<Sample>,
                               forwardStatus: int, staleStart: int, staleEnd: int)

  predicate ApValid(rb: ApRobot) {
    |rb.objects| == ObjectRows && |rb.gaps| == GapRows && |rb.skinny| == SkinnyRows
  }

  /** `skinnyPostFound` starts at -1 and is only ever set to 1. */
  predicate ApFlagValid(rb: ApRobot) {
    rb.skinnyPostFound == -1 || rb.skinnyPostFound == 1
  }

  /** The state when the start command arrives. */
  function ApStart(movementCode: int): (rb: ApRobot)
    ensures ApValid(rb) && ApFlagValid(rb) && rb.phase == ApAutonomous
    ensures rb.skinnyPostFound == -1 && rb.moveStatus == -1 && rb.skinnyIndex == 0
    ensures rb.movementCode == movementCode
  {
    ApRobot(ApAutonomous, ClearObjects(), ClearGaps(), ApClearSkinny(), -1, 0, -1, movementCode)
  }

  /** The turn toward a gap: the offset `centre - 90` is compared against 90, not 0, so
      every offset below 90, positive ones included, turns right by that offset, one above
      90 turns left, and exactly 90 issues no turn. */
  function ApTurn(offset: int): (cs: seq<Command>)
    ensures offset < 90 ==> cs == [TurnRight(offset)]
    ensures offset > 90 ==> cs == [TurnLeft(offset)]
    ensures cs == [] <==> offset == 90
  {
    if offset > 90 then [TurnLeft(offset)]
    else if offset < 90 then [TurnRight(offset)]
    else []
  }

  /** One iteration of the autonomous loop: scan; a post seen jumps back to the top of the
      outer loop; otherwise move as Parking.c does, except for the turn toward the gap. */
  function ApAutonomousCycle(rb: ApRobot, inp: ApInputs, arc: (int, int) -> int,
                             gw: (int, int) -> int): (o: Outcome<ApRobot>)
    requires ApValid(rb) && rb.phase == ApAutonomous
    ensures o.Next? ==> ApValid(o.state) && o.state.phase == ApAutonomous
    ensures o.Next? ==> o.state.movementCode == rb.movementCode
    ensures o.Next? ==> o.state.skinnyPostFound == rb.skinnyPostFound || o.state.skinnyPostFound == 1
    ensures o.Next? ==> o.commands != [] && o.commands[0] == Scan
    ensures o.Next? && o.state.skinnyPostFound == 1 && rb.skinnyPostFound != 1 ==> o.commands == [Scan]
  {
    if !Closed(inp.sweep, ApThreshold) then Unspecified
    else
      match ApFindObjects(inp.sweep, arc, inp.staleStart, inp.staleEnd, rb.skinnyPostFound)
      case Loops => Hangs
      case Overflow => Unspecified
      case Scanned(d) =>
        var rb1 := rb.(objects := d.objects, skinny := d.skinny, skinnyIndex := d.skinnyIndex,
                       skinnyPostFound := d.postFound);
        if rb1.skinnyPostFound != -1 then Next(rb1, [Scan])
        else ApSteer(rb1, d.count, inp.forwardStatus, gw)
  }

  /** The motion of an autonomous iteration after the scan. */
  function ApSteer(rb1: ApRobot, numObjs: int, fwd: int, gw: (int, int) -> int): (o: Outcome<ApRobot>)
    requires ApValid(rb1) && 0 <= numObjs <= ObjectRows
    ensures o.Next? ==> o.state.(gaps := rb1.gaps, moveStatus := rb1.moveStatus) == rb1 && ApValid(o.state)
    ensures o.Next? ==> |o.commands| >= 2 && o.commands[0] == Scan
    ensures o.Next? ==> o.commands[|o.commands| - |Recovery(o.state.moveStatus)|..] == Recovery(o.state.moveStatus)
    ensures numObjs <= 2 ==> o.Next?
  {
    if numObjs == 0 then
      Next(rb1.(moveStatus := fwd), [Scan, Forward(ApProbeMm)] + Recovery(fwd))
    else if numObjs == 1 then
      var turn := if rb1.objects[0].angle <= 90 then TurnRight(-30) else TurnLeft(30);
      Next(rb1.(moveStatus := fwd), [Scan, turn, Forward(ApProbeMm)] + Recovery(fwd))
    else
      var t := FindGaps(rb1.objects, numObjs, gw);
      var rb2 := rb1.(gaps := t.gaps);
      match FindClosestGap(t.gaps, t.count)
      case None => Unspecified
      case Some(c) =>
        var gap := t.gaps[c];
        var aim := [Scan] + ApTurn(gap.angle - 90);
        if gap.width >= ApRobotWidth then
          Next(rb2.(moveStatus := fwd), aim + [Forward((gap.dist + 10) * 10)] + Recovery(fwd))
        else
          Next(rb2, aim + [Forward(ApCreepMm)] + Recovery(rb1.moveStatus))
  }

  /** One iteration of the manual loop: codes 1 to 4 perform their action and are cleared;
      any other code does nothing and stays. */
  function ApManualCycle(rb: ApRobot): (o: Outcome<ApRobot>)
    ensures o.Next? && o.state.(movementCode := rb.movementCode) == rb
    ensures 1 <= rb.movementCode <= 4 <==> o.state.movementCode == 0 && o.commands != []
    ensures !(1 <= rb.movementCode <= 4) ==> o == Next(rb, [])
  {
    var cleared := rb.(movementCode := 0);
    match rb.movementCode
    case 1 => Next(cleared, [Forward(ApCreepMm)])
    case 2 => Next(cleared, [TurnLeft(180), Forward(ApCreepMm), TurnRight(180)])
    case 3 => Next(cleared, [TurnLeft(15)])
    case 4 => Next(cleared, [TurnRight(-15)])
    case _ => Next(rb, [])
  }

  /** One iteration of the current loop of `main`, or the step past it when its guard
      fails. The parking loop has an empty body: while `goCmd` holds and a post has been
      seen it spins without doing anything. */
  function ApCycle(rb: ApRobot, inp: ApInputs, arc: (int, int) -> int, gw: (int, int) -> int): (o: Outcome<ApRobot>)
    requires ApValid(rb)
    ensures o.Next? ==> ApValid(o.state)
    ensures o.Next? && ApFlagValid(rb) ==> ApFlagValid(o.state)
    ensures o.Next? && rb.skinnyPostFound == 1 ==> o.state.skinnyPostFound == 1
    ensures rb.phase == ApHalted ==> o == Next(rb, [])
    ensures o.Next? && o.state.phase == ApHalted && rb.phase != ApHalted ==>
              rb.phase == ApExitCheck && !inp.goCmd && o.commands == [Halt]
  {
    match rb.phase
    case ApAutonomous =>
      if inp.goCmd && !inp.manualMode && rb.skinnyPostFound == -1 then ApAutonomousCycle(rb, inp, arc, gw)
      else Next(rb.(phase := ApManual), [])
    case ApManual =>
      if inp.goCmd && inp.manualMode && rb.skinnyPostFound == -1 then ApManualCycle(rb)
      else Next(rb.(phase := ApParking), [])
    case ApParking =>
      if inp.goCmd && rb.skinnyPostFound != -1 then Next(rb, [])
      else Next(rb.(phase := ApExitCheck), [])
    case ApExitCheck =>
      if !inp.goCmd then Next(rb.(phase := ApHalted), [Halt])
      else Next(rb.(phase := ApAutonomous), [])
    case ApHalted => Next(rb, [])
  }

  /** Several cycles in a row, one input each: the final state and every command issued,
      or the first cycle that does not complete. */
  function ApRun(rb: ApRobot, inps: seq<ApInputs>, arc: (int, int) -> int, gw: (int, int) -> int): (o: Outcome<ApRobot>)
    requires ApValid(rb)
    ensures o.Next? ==> ApValid(o.state)
    ensures o.Next? && rb.skinnyPostFound == 1 ==> o.state.skinnyPostFound == 1
    decreases |inps|
  {
    if inps == [] then Next(rb, [])
    else
      match ApCycle(rb, inps[0], arc, gw)
      case Next(rb1, cs) =>
        (match ApRun(rb1, inps[1..], arc, gw)
         case Next(rb2, cs2) => Next(rb2, cs + cs2)
         case Unspecified => Unspecified
         case Hangs => Hangs)
      case Unspecified => Unspecified
      case Hangs => Hangs
  }
}
