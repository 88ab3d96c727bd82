/** Consequences of the Autoparking.c main loop, for one cycle and over several. */
module AutoparkingFacts {
  import opened Basics
  import opened Commands
  import opened ParkingScan
  import opened ParkingGaps
  import opened AutoparkingScan
  import opened AutoparkingMain
  import Movement

  /** With the flag raised and `goCmd` held, one cycle issues nothing: the autonomous and
      manual guards fail on the flag, and the parking loop spins on its empty body. */
  lemma FlaggedCycleIsSilent(rb: ApRobot, inp: ApInputs, arc: (int, int) -> int, gw: (int, int) -> int)
    requires ApValid(rb) && rb.skinnyPostFound == 1 && rb.phase != ApHalted && inp.goCmd
    ensures var o := ApCycle(rb, inp, arc, gw);
            && o.Next? && o.commands == []
            && o.state.phase != ApHalted && o.state.skinnyPostFound == 1
            && (rb.phase == ApParking ==> o.state == rb)
  {
  }

  /** Once a post has been seen, no run of cycles during which `goCmd` stays set moves the
      robot or ends the program: nothing resets the flag and the parking loop is empty. */
  lemma {:induction false} FlaggedRunIsSilent(rb: ApRobot, inps: seq<ApInputs>, arc: (int, int) -> int,
                                              gw: (int, int) -> int)
    requires ApValid(rb) && rb.skinnyPostFound == 1 && rb.phase != ApHalted
    requires forall k :: 0 <= k < |inps| ==> inps[k].goCmd
    ensures var o := ApRun(rb, inps, arc, gw);
            o.Next? && o.commands == [] && o.state.phase != ApHalted && o.state.skinnyPostFound == 1
    decreases |inps|
  {
    if inps != [] {
      FlaggedCycleIsSilent(rb, inps[0], arc, gw);
      var rb1 := ApCycle(rb, inps[0], arc, gw).state;
      FlaggedRunIsSilent(rb1, inps[1..], arc, gw);
    }
  }

  /** After any completed autonomous cycle `getNumSkinnys` counts zero posts, because the
      skinny store writes nothing, even when the cycle has just raised the flag. */
  lemma SkinnyCountStaysZero(rb: ApRobot, inp: ApInputs, arc: (int, int) -> int, gw: (int, int) -> int)
    requires ApValid(rb) && rb.phase == ApAutonomous
    ensures var o := ApAutonomousCycle(rb, inp, arc, gw);
            o.Next? ==> FirstZero(o.state.skinny) == Some(0)
  {
  }

  /** No object: probe forward 350 mm, then the recovery turn for that move's status,
      which is stored. */
  lemma ApNoObjectProbes(rb1: ApRobot, fwd: int, gw: (int, int) -> int)
    requires ApValid(rb1)
    ensures ApSteer(rb1, 0, fwd, gw) == Next(rb1.(moveStatus := fwd), [Scan, Forward(350)] + Recovery(fwd))
  {
  }

  /** One object: turn 30 degrees away from its side (right when it is at 90 degrees or
      less, left otherwise), then probe forward 350 mm and make the recovery turn. */
  lemma ApOneObjectSidesteps(rb1: ApRobot, fwd: int, gw: (int, int) -> int)
    requires ApValid(rb1)
    ensures var turn := if rb1.objects[0].angle <= 90 then TurnRight(-30) else TurnLeft(30);
            ApSteer(rb1, 1, fwd, gw) == Next(rb1.(moveStatus := fwd), [Scan, turn, Forward(350)] + Recovery(fwd))
  {
  }

  /** Two objects or more, when `findClosestGap` returns gap `c`: the gap between objects
      `c` and `c + 1`, no farther than any other, is aimed at with `ApTurn` (so any offset
      below 90 turns right), then driven through when at least 35 wide, its distance plus
      10 cm, in mm, and otherwise crept at with the old status. */
  lemma ApClosestGapSteer(rb1: ApRobot, n: int, fwd: int, gw: (int, int) -> int, c: nat)
    requires ApValid(rb1) && 2 <= n <= ObjectRows
    requires var t := FindGaps(rb1.objects, n, gw); FindClosestGap(t.gaps, t.count) == Some(c)
    ensures var t := FindGaps(rb1.objects, n, gw);
            var g := t.gaps[c];
            var o := ApSteer(rb1, n, fwd, gw);
            var aim := [Scan] + ApTurn(g.angle - 90);
            && c < n - 1 && g == GapBetween(rb1.objects[c], rb1.objects[c + 1], gw)
            && (forall i :: 0 <= i < t.count ==> g.dist <= t.gaps[i].dist)
            && o.Next? && o.state.gaps == t.gaps
            && (g.width >= 35 ==>
                  && o.commands == aim + [Forward((g.dist + 10) * 10)] + Recovery(fwd)
                  && o.state.moveStatus == fwd)
            && (g.width < 35 ==>
                  && o.commands == aim + [Forward(100)] + Recovery(rb1.moveStatus)
                  && o.state.moveStatus == rb1.moveStatus)
  {
  }

  /** When `findClosestGap` finds no gap, the cycle is unspecified. */
  lemma ApNoClosestGapUnspecified(rb1: ApRobot, n: int, fwd: int, gw: (int, int) -> int)
    requires ApValid(rb1) && 2 <= n <= ObjectRows
    requires var t := FindGaps(rb1.objects, n, gw); FindClosestGap(t.gaps, t.count).None?
    ensures ApSteer(rb1, n, fwd, gw) == Unspecified
  {
  }

  /** The manual loop, code by code: 1 creeps forward 100 mm; 2 turns around, creeps and
      asks for a right turn of 180; 3 and 4 turn 15 degrees left and right. Each clears the
      code; no other code issues anything. */
  lemma ApManualCodes(rb: ApRobot, inp: ApInputs, arc: (int, int) -> int, gw: (int, int) -> int)
    requires ApValid(rb) && rb.phase == ApManual && inp.goCmd && inp.manualMode && rb.skinnyPostFound == -1
    ensures var o := ApCycle(rb, inp, arc, gw);
            var cleared := rb.(movementCode := 0);
            && (rb.movementCode == 1 ==> o == Next(cleared, [Forward(100)]))
            && (rb.movementCode == 2 ==> o == Next(cleared, [TurnLeft(180), Forward(100), TurnRight(180)]))
            && (rb.movementCode == 3 ==> o == Next(cleared, [TurnLeft(15)]))
            && (rb.movementCode == 4 ==> o == Next(cleared, [TurnRight(-15)]))
            && (!(1 <= rb.movementCode <= 4) ==> o == Next(rb, []))
  {
  }

  /** Manual code 2 ends with `turnRightAngle(180)`; by the movement library's rule an
      angle of -14 or more turns nothing, so the manoeuvre never turns back. */
  lemma ReverseManoeuvreSkipsTurnBack(rb: ApRobot, trace: seq<Movement.Reading>)
    requires rb.movementCode == 2
    ensures ApManualCycle(rb).commands[2] == TurnRight(180)
    ensures Movement.TurnRightAngle(trace, 180) == Some(Movement.Drive(-1, 0, [Movement.SpinRight, Movement.Stop]))
  {
  }
}
