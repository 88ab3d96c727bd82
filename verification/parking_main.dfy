/** One cycle of the main loop of Parking.c. The outer `while (1)` holds three inner loops
    (autonomous, manual, parking approach) and an exit test; `Phase` records which of them
    control is in, and `Cycle` performs one iteration of that loop, or its failed guard. */
module ParkingMain {
  import opened Basics
  import opened Sweep
  import opened ParkingScan
  import opened ParkingGaps
  import opened Commands

  /** `ROBOT_WIDTH`: a gap at least this wide is driven through. */
  const RobotWidth: int := 35
  /** Forward probe when there is no gap to aim for, in mm. */
  const ProbeMm: int := 350
  /** Forward creep when the chosen gap is too narrow, in mm. */
  const CreepMm: int := 100
  /** `LEFT_TURN_OFFSET` and `RIGHT_TURN_OFFSET` of this file. */
  const LeftTurnOffset: int := 0
  const RightTurnOffset: int := 0

  datatype Phase = Autonomous | Manual | Approach | ExitCheck | Halted

  /** The globals the main loop reads and writes, plus its local `moveStatus`, which keeps
      its value from one iteration to the next. `movementCode` is shared with the serial
      interrupt handler, which may overwrite it between cycles. */
  datatype Robot = Robot(
    phase: Phase,
    dataPoints: seq<Sample>,
    objects: seq<Obj>,
    gaps: seq<Gap>,
    skinny: seq<Post>,
    skinnyPostFound: int,
    skinnyIndex: nat,
    moveStatus: int,
    movementCode: int)

  /** What the environment supplies to one cycle: the operator flags `goCmd` and
      `manualMode` (read as truth values), the sweep a `scanSweep` would record, and the
      status the cycle's `move_forward` would return. */
  datatype Inputs = Inputs(goCmd: bool, manualMode: bool, sweep: seq<Sample>, forwardStatus: int)

  predicate Valid(rb: Robot) {
    && IsSweep(rb.dataPoints)
    && |rb.objects| == ObjectRows
    && |rb.gaps| == GapRows
    && |rb.skinny| == SkinnyRows
  }

  /** `skinnyPostFound` only ever holds -1 (no post) or 1 (post seen). */
  predicate FlagValid(rb: Robot) {
    rb.skinnyPostFound == -1 || rb.skinnyPostFound == 1
  }

  /** The skinny table lists `skinnyIndex` posts, each at a nonzero angle, and every row
      past them has angle 0. */
  predicate PostsListed(rb: Robot) {
    && |rb.skinny| == SkinnyRows && rb.skinnyIndex <= SkinnyRows
    && (forall k :: 0 <= k < rb.skinnyIndex ==> rb.skinny[k].angle != 0)
    && (forall k :: rb.skinnyIndex <= k < SkinnyRows ==> rb.skinny[k].angle == 0)
  }

  /** The state right after the start command: globals zero-initialised, `skinnyPostFound`
      and `moveStatus` at -1, control entering the autonomous loop. */
  function Start(movementCode: int): (rb: Robot)
    ensures Valid(rb) && FlagValid(rb) && rb.phase == Autonomous
    ensures rb.skinnyPostFound == -1 && rb.moveStatus == -1 && rb.skinnyIndex == 0
    ensures rb.movementCode == movementCode
  {
    Robot(Autonomous, seq(Slots, _ => Sample(0, 0)), ClearObjects(), ClearGaps(),
          seq(SkinnyRows, _ => Post(0, 0)), -1, 0, -1, movementCode)
  }

  /** `scanSweep` then `findObjects`, stored into the globals. */
  function Detect(rb: Robot, sweep: seq<Sample>, arc: (int, int) -> int): (r: Robot)
    requires Valid(rb) && Fits(sweep, arc)
    ensures Valid(r)
    ensures r.phase == rb.phase && r.gaps == rb.gaps
    ensures r.moveStatus == rb.moveStatus && r.movementCode == rb.movementCode
    ensures r.skinnyIndex == |Posts(sweep, arc)| && PostsListed(r)
    ensures forall k :: 0 <= k < r.skinnyIndex ==> r.skinny[k].angle >= 4
    ensures r.skinnyPostFound == (if r.skinnyIndex > 0 then 1 else rb.skinnyPostFound)
  {
    var d := FindObjects(sweep, rb.skinny, rb.skinnyPostFound, arc);
    assert forall k :: 0 <= k < d.skinnyIndex ==> d.skinny[k] == d.skinny[..d.skinnyIndex][k];
    rb.(dataPoints := sweep, objects := d.objects, skinny := d.skinny,
        skinnyIndex := d.skinnyIndex, skinnyPostFound := d.postFound)
  }

  /** One iteration of the autonomous loop: scan, break out to the manual loop when a post
      was seen, otherwise steer by the objects found. */
  function AutonomousCycle(rb: Robot, inp: Inputs, arc: (int, int) -> int,
                           gw: (int, int) -> int): (o: Outcome<Robot>)
    requires Valid(rb) && rb.phase == Autonomous
    ensures o.Next? ==> Valid(o.state) && o.state.movementCode == rb.movementCode
    ensures o.Next? ==> o.state.skinnyPostFound == rb.skinnyPostFound || o.state.skinnyPostFound == 1
    ensures o.Next? ==> o.commands != [] && o.commands[0] == Scan
    ensures o.Next? && o.state.phase != Autonomous ==> o.state.phase == Manual && o.commands == [Scan]
  {
    if !Fits(inp.sweep, arc) then Unspecified
    else
      var rb1 := Detect(rb, inp.sweep, arc);
      if rb1.skinnyPostFound != -1 then Next(rb1.(phase := Manual), [Scan])
      else AutonomousSteer(rb1, |Runs(inp.sweep, 0)|, inp.forwardStatus, gw)
  }

  /** The motion of an autonomous iteration, on the state the scan left. No object: probe
      forward; one object: turn 30 degrees away from its side and probe forward; several:
      aim at the closest gap and drive through it when it is at least as wide as the robot,
      else creep forward. The creep's status is not stored, so the recovery turn then follows
      the previous `moveStatus`. */
  function AutonomousSteer(rb1: Robot, numObjs: int, fwd: int, gw: (int, int) -> int): (o: Outcome<Robot>)
    requires Valid(rb1) && 0 <= numObjs <= ObjectRows
    ensures o.Next? ==> Valid(o.state) && o.state.phase == rb1.phase
    ensures o.Next? ==> o.state.(gaps := rb1.gaps, moveStatus := rb1.moveStatus) == rb1
    ensures o.Next? ==> o.state.moveStatus == fwd || o.state.moveStatus == rb1.moveStatus
    ensures o.Next? ==> |o.commands| >= 2 && o.commands[0] == Scan
    ensures o.Next? ==> o.commands[|o.commands| - |Recovery(o.state.moveStatus)|..] == Recovery(o.state.moveStatus)
    ensures numObjs <= 2 ==> o.Next?
  {
    if numObjs == 0 then
      Next(rb1.(moveStatus := fwd), [Scan, Forward(ProbeMm)] + Recovery(fwd))
    else if numObjs == 1 then
      var turn := if rb1.objects[0].angle <= 90 then TurnRight(-30) else TurnLeft(30);
      Next(rb1.(moveStatus := fwd), [Scan, turn, Forward(ProbeMm)] + Recovery(fwd))
    else
      var t := FindGaps(rb1.objects, numObjs, gw);
      var rb2 := rb1.(gaps := t.gaps);
      match FindClosestGap(t.gaps, t.count)
      case None => Unspecified
      case Some(c) =>
        var gap := t.gaps[c];
        var aim := [Scan] + TurnBy(gap.angle - 90);
        if gap.width >= RobotWidth then
          Next(rb2.(moveStatus := fwd), aim + [Forward((gap.dist + 10) * 10)] + Recovery(fwd))
        else
          Next(rb2, aim + [Forward(CreepMm)] + Recovery(rb1.moveStatus))
  }

  /** One iteration of the manual loop: codes 1 to 8 perform their action and are cleared
      to 0; any other code does nothing and stays. Its `if (manualMode == 0)` exit test
      cannot fire under the loop's own guard. */
  function ManualCycle(rb: Robot, inp: Inputs, arc: (int, int) -> int,
                       gw: (int, int) -> int): (o: Outcome<Robot>)
    requires Valid(rb) && rb.phase == Manual
    ensures o.Next? ==> Valid(o.state) && o.state.phase == rb.phase
    ensures o.Next? ==> o.state.moveStatus == rb.moveStatus
    ensures o.Next? ==> o.state.skinnyPostFound == rb.skinnyPostFound || o.state.skinnyPostFound == 1
    ensures 1 <= rb.movementCode <= 8 && o.Next? ==> o.state.movementCode == 0 && o.commands != []
    ensures !(1 <= rb.movementCode <= 8) ==> o == Next(rb, [])
  {
    var code := rb.movementCode;
    var cleared := rb.(movementCode := 0);
    if code == 1 then Next(cleared, [Forward(CreepMm)])
    else if code == 2 then
      Next(cleared, [TurnLeft(180 + LeftTurnOffset), Forward(CreepMm), TurnRight(-180 + RightTurnOffset)])
    else if code == 3 then Next(cleared, [TurnLeft(10 + LeftTurnOffset)])
    else if code == 4 then Next(cleared, [TurnRight(-10 + RightTurnOffset)])
    else if code == 5 then
      if !Fits(inp.sweep, arc) then Unspecified
      else
        var rb1 := Detect(cleared, inp.sweep, arc);
        var t := FindGaps(rb1.objects, |Runs(inp.sweep, 0)|, gw);
        Next(rb1.(gaps := t.gaps), [Scan])
    else if code == 6 then Next(cleared, [TurnLeft(90 + LeftTurnOffset)])
    else if code == 7 then Next(cleared, [TurnRight(-90 + RightTurnOffset)])
    else if code == 8 then Next(cleared, [TurnLeft(180 + LeftTurnOffset)])
    else Next(rb, [])
  }

  /** One iteration of the parking-approach loop: scan, then steer by the posts found. */
  function ApproachCycle(rb: Robot, inp: Inputs, arc: (int, int) -> int): (o: Outcome<Robot>)
    requires Valid(rb) && rb.phase == Approach
    ensures o.Next? ==> Valid(o.state) && o.state.movementCode == rb.movementCode
    ensures o.Next? ==> o.commands != [] && o.commands[0] == Scan
    ensures o.Next? ==> o.state.phase == rb.phase || (o.state.phase == ExitCheck && o.state.skinnyPostFound == -1)
    ensures o.Next? && o.state.phase == rb.phase ==> o.state.skinnyPostFound == 1
  {
    if !Fits(inp.sweep, arc) then Unspecified
    else ApproachSteer(Detect(rb, inp.sweep, arc), inp.forwardStatus)
  }

  /** The rest of a parking-approach iteration, on the state the scan left. No post lowers
      the flag and leaves the loop; one post: face it and drive its distance (cm to mm);
      several: turn by the angle from the first post to the last, then drive the larger of
      the last post's distance and the first post's ANGLE (the source compares against
      column 0). Four posts make `getNumSkinnys` read past its table. */
  function ApproachSteer(rb1: Robot, fwd: int): (o: Outcome<Robot>)
    requires Valid(rb1) && PostsListed(rb1)
    requires rb1.skinnyIndex > 0 ==> rb1.skinnyPostFound == 1
    ensures o.Next? <==> rb1.skinnyIndex < SkinnyRows
    ensures o.Next? ==> Valid(o.state) && o.state.movementCode == rb1.movementCode
    ensures o.Next? ==> o.commands != [] && o.commands[0] == Scan
    ensures o.Next? && rb1.skinnyIndex == 0 ==>
              o == Next(rb1.(skinnyPostFound := -1, phase := ExitCheck), [Scan])
    ensures o.Next? && rb1.skinnyIndex > 0 ==>
              && o.state == rb1.(moveStatus := fwd)
              && |o.commands| >= 2 + |Recovery(fwd)|
              && o.commands[|o.commands| - 1 - |Recovery(fwd)|].Forward?
              && o.commands[|o.commands| - |Recovery(fwd)|..] == Recovery(fwd)
  {
    assert rb1.skinnyIndex < SkinnyRows ==> rb1.skinny[rb1.skinnyIndex].angle == 0;
    match GetNumSkinnys(rb1.skinny)
    case None => Unspecified
    case Some(n) =>
      if n == 0 then
        Next(rb1.(skinnyPostFound := -1, phase := ExitCheck), [Scan])
      else if n == 1 then
        var p := rb1.skinny[0];
        Next(rb1.(moveStatus := fwd), [Scan] + TurnBy(p.angle - 90) + [Forward(p.dist * 10)] + Recovery(fwd))
      else
        var first := rb1.skinny[0];
        var last := rb1.skinny[rb1.skinnyIndex - 1];
        var gapAng := last.angle - first.angle;
        var gapDist := if last.dist > first.angle then last.dist else first.angle;
        Next(rb1.(moveStatus := fwd), [Scan] + TurnBy(gapAng) + [Forward(gapDist)] + Recovery(fwd))
  }

  /** One iteration of the current loop of `main`, or the step past it when its guard
      fails. The guards are those of the source: `goCmd && !manualMode`,
      `goCmd && manualMode`, `goCmd && skinnyPostFound` (nonzero), and `goCmd == 0` for
      the exit, which stops the wheels. */
  function Cycle(rb: Robot, inp: Inputs, arc: (int, int) -> int, gw: (int, int) -> int): (o: Outcome<Robot>)
    requires Valid(rb)
    ensures o.Next? ==> Valid(o.state)
    ensures o.Next? && FlagValid(rb) ==> FlagValid(o.state)
    ensures rb.phase == Halted ==> o == Next(rb, [])
    ensures o.Next? && o.state.phase == Halted && rb.phase != Halted ==>
              rb.phase == ExitCheck && !inp.goCmd && o.commands == [Halt]
  {
    match rb.phase
    case Autonomous =>
      if inp.goCmd && !inp.manualMode then AutonomousCycle(rb, inp, arc, gw)
      else Next(rb.(phase := Manual), [])
    case Manual =>
      if inp.goCmd && inp.manualMode then ManualCycle(rb, inp, arc, gw)
      else Next(rb.(phase := Approach), [])
    case Approach =>
      if inp.goCmd && rb.skinnyPostFound != 0 then ApproachCycle(rb, inp, arc)
      else Next(rb.(phase := ExitCheck), [])
    case ExitCheck =>
      if !inp.goCmd then Next(rb.(phase := Halted), [Halt])
      else Next(rb.(phase := Autonomous), [])
    case Halted => Next(rb, [])
  }
}
