/** What one cycle of the Parking.c main loop does, case by case. */
module ParkingMainFacts {
  import opened Basics
  import opened Sweep
  import opened ParkingScan
  import opened ParkingScanFacts
  import opened ParkingGaps
  import opened Commands
  import opened ParkingMain

  /** The inputs that keep control in the autonomous loop, with a sweep the scan can store. */
  predicate Driving(rb: Robot, inp: Inputs, arc: (int, int) -> int) {
    && Valid(rb) && rb.phase == Autonomous && rb.skinnyPostFound == -1
    && inp.goCmd && !inp.manualMode && Fits(inp.sweep, arc)
  }

  /** A sweep holding a post breaks out of the autonomous loop before any motion, with the
      flag raised; the next loop entered is the manual one. */
  lemma PostStopsAutonomous(rb: Robot, inp: Inputs, arc: (int, int) -> int, gw: (int, int) -> int)
    requires Driving(rb, inp, arc) && Posts(inp.sweep, arc) != []
    ensures var o := Cycle(rb, inp, arc, gw);
            o.Next? && o.commands == [Scan] && o.state.phase == Manual && o.state.skinnyPostFound == 1
  {
  }

  /** No object and no post: probe forward 350 mm, then the recovery turn for the status
      that move returned, which becomes the stored `moveStatus`. */
  lemma NoObjectProbes(rb: Robot, inp: Inputs, arc: (int, int) -> int, gw: (int, int) -> int)
    requires Driving(rb, inp, arc) && Runs(inp.sweep, 0) == []
    ensures var o := Cycle(rb, inp, arc, gw);
            && o.Next? && o.state.phase == Autonomous
            && o.commands == [Scan, Forward(ProbeMm)] + Recovery(inp.forwardStatus)
            && o.state.moveStatus == inp.forwardStatus
  {
    var rb1 := Detect(rb, inp.sweep, arc);
    assert rb1.skinnyIndex == 0 && rb1.skinnyPostFound == -1;
    assert AutonomousCycle(rb, inp, arc, gw) ==
           Next(rb1.(moveStatus := inp.forwardStatus), [Scan, Forward(ProbeMm)] + Recovery(inp.forwardStatus));
  }

  /** One object and no post: turn 30 degrees away from the object's side (right when it is
      at 90 degrees or less, left otherwise), then probe forward as with no object. */
  lemma OneObjectSidesteps(rb: Robot, inp: Inputs, arc: (int, int) -> int, gw: (int, int) -> int)
    requires Driving(rb, inp, arc) && |Runs(inp.sweep, 0)| == 1 && Posts(inp.sweep, arc) == []
    ensures var o := Cycle(rb, inp, arc, gw);
            var turn := if Objects(inp.sweep, arc)[0].angle <= 90 then TurnRight(-30) else TurnLeft(30);
            && o.Next? && o.state.phase == Autonomous
            && o.commands == [Scan, turn, Forward(ProbeMm)] + Recovery(inp.forwardStatus)
            && o.state.moveStatus == inp.forwardStatus
  {
    var d := FindObjects(inp.sweep, rb.skinny, rb.skinnyPostFound, arc);
    assert d.objects[0] == d.objects[..d.count][0];
  }

  /** With no post in view, an autonomous cycle is the scan followed by the steering step
      on the object table it stored, whose first rows are the sweep's objects. */
  lemma AutonomousIsScanThenSteer(rb: Robot, inp: Inputs, arc: (int, int) -> int, gw: (int, int) -> int)
    requires Driving(rb, inp, arc) && Posts(inp.sweep, arc) == []
    ensures var rb1 := Detect(rb, inp.sweep, arc);
            && Cycle(rb, inp, arc, gw) == AutonomousSteer(rb1, |Runs(inp.sweep, 0)|, inp.forwardStatus, gw)
            && rb1.objects[..|Runs(inp.sweep, 0)|] == Objects(inp.sweep, arc)
            && rb1.moveStatus == rb.moveStatus
  {
    var rb1 := Detect(rb, inp.sweep, arc);
    assert rb1.skinnyIndex == 0 && rb1.skinnyPostFound == -1;
  }

  /** The steering step for two objects: the single gap between them is aimed at (turn by
      its centre minus 90), then driven through when at least 35 wide, its distance plus
      10 cm, in mm. A narrower gap gets a 100 mm creep whose status is discarded, so the
      recovery turn follows the `moveStatus` of the previous cycle. */
  lemma TwoObjectsSteer(rb1: Robot, fwd: int, gw: (int, int) -> int)
    requires Valid(rb1)
    ensures var o := AutonomousSteer(rb1, 2, fwd, gw);
            var g := GapBetween(rb1.objects[0], rb1.objects[1], gw);
            var aim := [Scan] + TurnBy(g.angle - 90);
            && o.Next?
            && (g.width >= RobotWidth ==>
                  && o.commands == aim + [Forward((g.dist + 10) * 10)] + Recovery(fwd)
                  && o.state.moveStatus == fwd)
            && (g.width < RobotWidth ==>
                  && o.commands == aim + [Forward(CreepMm)] + Recovery(rb1.moveStatus)
                  && o.state.moveStatus == rb1.moveStatus)
  {
    var t := FindGaps(rb1.objects, 2, gw);
    assert t.count == 1;
  }

  /** The steering step whenever `findClosestGap` returns a gap, for two objects or more:
      the gap is the one between objects `c` and `c + 1`, no farther than any other gap;
      it is aimed at (turn by its centre minus 90), then driven through when at least 35
      wide, its distance plus 10 cm, in mm, and otherwise crept at with the old status. */
  lemma ClosestGapSteer(rb1: Robot, n: int, fwd: int, gw: (int, int) -> int, c: nat)
    requires Valid(rb1) && 2 <= n <= ObjectRows
    requires var t := FindGaps(rb1.objects, n, gw); FindClosestGap(t.gaps, t.count) == Some(c)
    ensures var t := FindGaps(rb1.objects, n, gw);
            var g := t.gaps[c];
            var o := AutonomousSteer(rb1, n, fwd, gw);
            var aim := [Scan] + TurnBy(g.angle - 90);
            && c < n - 1 && g == GapBetween(rb1.objects[c], rb1.objects[c + 1], gw)
            && (forall i :: 0 <= i < t.count ==> g.dist <= t.gaps[i].dist)
            && o.Next? && o.state.gaps == t.gaps
            && (g.width >= RobotWidth ==>
                  && o.commands == aim + [Forward((g.dist + 10) * 10)] + Recovery(fwd)
                  && o.state.moveStatus == fwd)
            && (g.width < RobotWidth ==>
                  && o.commands == aim + [Forward(CreepMm)] + Recovery(rb1.moveStatus)
                  && o.state.moveStatus == rb1.moveStatus)
  {
  }

  /** Three or more objects give two or more gaps; unless there are exactly two gaps of
      different distance, `findClosestGap` returns no value and the cycle is unspecified. */
  lemma ManyObjectsUnspecified(rb: Robot, inp: Inputs, arc: (int, int) -> int, gw: (int, int) -> int)
    requires Driving(rb, inp, arc) && |Runs(inp.sweep, 0)| >= 4 && Posts(inp.sweep, arc) == []
    ensures Cycle(rb, inp, arc, gw) == Unspecified
  {
  }

  /** The parking loop's guard `goCmd && skinnyPostFound`: since the flag is -1 or 1, never
      0, the loop is entered exactly when `goCmd` holds. */
  lemma ApproachGuardIsGoCmd(rb: Robot, inp: Inputs, arc: (int, int) -> int, gw: (int, int) -> int)
    requires Valid(rb) && FlagValid(rb) && rb.phase == Approach
    ensures inp.goCmd ==> Cycle(rb, inp, arc, gw) == ApproachCycle(rb, inp, arc)
    ensures !inp.goCmd ==> Cycle(rb, inp, arc, gw) == Next(rb.(phase := ExitCheck), [])
  {
  }

  /** An approach cycle is the scan followed by the steering step on the skinny table it
      stored, whose first rows are the sweep's posts, in increasing angle. */
  lemma ApproachIsScanThenSteer(rb: Robot, inp: Inputs, arc: (int, int) -> int)
    requires Valid(rb) && rb.phase == Approach && Fits(inp.sweep, arc)
    ensures var rb1 := Detect(rb, inp.sweep, arc);
            && ApproachCycle(rb, inp, arc) == ApproachSteer(rb1, inp.forwardStatus)
            && rb1.skinny[..rb1.skinnyIndex] == Posts(inp.sweep, arc)
  {
  }

  /** The steering step for two or three posts: turn by the angle from the first post to
      the last, then drive the larger of the last post's distance and the first post's
      angle, not scaled to mm. */
  lemma SeveralPostsSteer(rb1: Robot, fwd: int)
    requires Valid(rb1) && PostsListed(rb1) && 2 <= rb1.skinnyIndex < SkinnyRows
    requires rb1.skinnyPostFound == 1
    ensures var o := ApproachSteer(rb1, fwd);
            var first := rb1.skinny[0];
            var last := rb1.skinny[rb1.skinnyIndex - 1];
            var dist := if last.dist > first.angle then last.dist else first.angle;
            && o.Next? && o.state == rb1.(moveStatus := fwd)
            && o.commands == [Scan] + TurnBy(last.angle - first.angle) + [Forward(dist)] + Recovery(fwd)
            && (first.angle < last.angle ==> o.commands[1] == TurnLeft(last.angle - first.angle))
  {
    assert rb1.skinny[rb1.skinnyIndex].angle == 0;
  }

  /** One post in the approach sweep: face it, turning left for an angle above 90 and
      right below, then drive its distance converted from cm to mm; the recovery turn for
      the status of that move follows, and the status is stored. */
  lemma OnePostSteer(rb1: Robot, fwd: int)
    requires Valid(rb1) && PostsListed(rb1) && rb1.skinnyIndex == 1 && rb1.skinnyPostFound == 1
    ensures var p := rb1.skinny[0];
            ApproachSteer(rb1, fwd) ==
              Next(rb1.(moveStatus := fwd), [Scan] + TurnBy(p.angle - 90) + [Forward(p.dist * 10)] + Recovery(fwd))
  {
    assert rb1.skinny[1].angle == 0;
  }

  /** No post in the approach sweep lowers the flag and leaves the parking loop. */
  lemma LostPostsLeaveApproach(rb: Robot, inp: Inputs, arc: (int, int) -> int)
    requires Valid(rb) && rb.phase == Approach && Fits(inp.sweep, arc)
    requires Posts(inp.sweep, arc) == []
    ensures ApproachCycle(rb, inp, arc) == Next(Detect(rb, inp.sweep, arc).(skinnyPostFound := -1, phase := ExitCheck), [Scan])
  {
    PostCountIsSkinnyIndex(inp.sweep, rb.skinny, rb.skinnyPostFound, arc);
  }

  /** The manual loop, code by code: 1 creeps forward 100 mm; 2 turns around, creeps and
      turns back; 3 and 4 turn 10 degrees left and right; 5 scans, storing the objects and
      posts and then the gaps between the objects; 6 and 7 turn 90 degrees left and right;
      8 turns around. Each clears the code; Parking.c's turn offsets are both 0. */
  lemma ManualCodes(rb: Robot, inp: Inputs, arc: (int, int) -> int, gw: (int, int) -> int)
    requires Valid(rb) && rb.phase == Manual && inp.goCmd && inp.manualMode
    ensures var o := Cycle(rb, inp, arc, gw);
            var cleared := rb.(movementCode := 0);
            && (rb.movementCode == 1 ==> o == Next(cleared, [Forward(100)]))
            && (rb.movementCode == 2 ==> o == Next(cleared, [TurnLeft(180), Forward(100), TurnRight(-180)]))
            && (rb.movementCode == 3 ==> o == Next(cleared, [TurnLeft(10)]))
            && (rb.movementCode == 4 ==> o == Next(cleared, [TurnRight(-10)]))
            && (rb.movementCode == 6 ==> o == Next(cleared, [TurnLeft(90)]))
            && (rb.movementCode == 7 ==> o == Next(cleared, [TurnRight(-90)]))
            && (rb.movementCode == 8 ==> o == Next(cleared, [TurnLeft(180)]))
            && (rb.movementCode == 5 && !Fits(inp.sweep, arc) ==> o == Unspecified)
  {
  }

  /** Manual code 5: the scan stores the sweep's objects and posts as the autonomous loop
      does, then the gaps between the objects; only the commands' `Scan` is issued, and the
      flag is raised when a post is in view. */
  lemma ManualScan(rb: Robot, inp: Inputs, arc: (int, int) -> int, gw: (int, int) -> int)
    requires Valid(rb) && rb.phase == Manual && inp.goCmd && inp.manualMode
    requires rb.movementCode == 5 && Fits(inp.sweep, arc)
    ensures var rb1 := Detect(rb.(movementCode := 0), inp.sweep, arc);
            var t := FindGaps(rb1.objects, |Runs(inp.sweep, 0)|, gw);
            && Cycle(rb, inp, arc, gw) == Next(rb1.(gaps := t.gaps), [Scan])
            && rb1.skinny[..rb1.skinnyIndex] == Posts(inp.sweep, arc)
            && rb1.skinnyPostFound == (if Posts(inp.sweep, arc) != [] then 1 else rb.skinnyPostFound)
  {
  }

  /** The exit test: with `goCmd` cleared the wheels stop and the program ends; otherwise
      control returns to the autonomous loop. */
  lemma ExitOrRepeat(rb: Robot, inp: Inputs, arc: (int, int) -> int, gw: (int, int) -> int)
    requires Valid(rb) && rb.phase == ExitCheck
    ensures var o := Cycle(rb, inp, arc, gw);
            && (!inp.goCmd ==> o == Next(rb.(phase := Halted), [Halt]))
            && (inp.goCmd ==> o == Next(rb.(phase := Autonomous), []))
  {
  }
}
