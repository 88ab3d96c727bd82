/** The motion primitives of Libraries/movement.c. Each C routine polls the robot's sensor
    packet in a loop until an accumulated odometry sum crosses a bound; here the packets the
    robot would deliver are a finite trace, the routine is a fold over it, and `None` means
    the trace ran out before the loop ended. */
module Movement {
  import opened Basics

  /** The fields of one sensor packet that the routines read: the distance and angle moved
      since the previous packet, the two bumpers and the four cliff signals. */
  datatype Reading = Reading(distance: int, angle: int, bumpLeft: bool, bumpRight: bool,
                             cliffFrontLeft: int, cliffLeft: int,
                             cliffFrontRight: int, cliffRight: int)

  /** One `oi_setWheels(right, left)` command, fields in the order of its arguments. */
  datatype Wheels = Wheels(right: int, left: int)

  const Stop: Wheels := Wheels(0, 0)
  const Ahead: Wheels := Wheels(150, 150)
  const Reverse: Wheels := Wheels(-175, -175)
  const SpinLeft: Wheels := Wheels(100, -100)
  const SpinRight: Wheels := Wheels(-100, 100)

  /** The distance `move_forward` backs off after a bump or cliff, in mm. */
  const BackOffMm: int := 150
  /** `LEFT_TURN_OFFSET` and `RIGHT_TURN_OFFSET` of the movement library, in degrees. */
  const LeftTurnOffset: int := 12
  const RightTurnOffset: int := 14

  /** What a routine leaves behind: its return code (0 for the `void` routine), how many
      packets it consumed, and the wheel commands it issued, in order. */
  datatype Drive = Drive(status: int, consumed: nat, wheels: seq<Wheels>)

  function Distances(t: seq<Reading>): (ds: seq<int>)
    ensures |ds| == |t| && forall k :: 0 <= k < |t| ==> ds[k] == t[k].distance
  {
    seq(|t|, k requires 0 <= k < |t| => t[k].distance)
  }

  function Angles(t: seq<Reading>): (hs: seq<int>)
    ensures |hs| == |t| && forall k :: 0 <= k < |t| ==> hs[k] == t[k].angle
  {
    seq(|t|, k requires 0 <= k < |t| => t[k].angle)
  }

  /** The sum of the first `k` deltas: the loop variable `sum` after `k` updates. */
  function Prefix(xs: seq<int>, k: nat): int
    requires k <= |xs|
  {
    if k == 0 then 0 else Prefix(xs, k - 1) + xs[k - 1]
  }

  /** `while (sum < target) { oi_update; sum += delta; }` from update `k` on: the number of
      updates after which the loop exits, i.e. the first `j >= k` whose prefix sum reaches
      the target. */
  function FirstAtLeast(xs: seq<int>, target: int, k: nat): (r: Option<nat>)
    requires k <= |xs|
    ensures r.Some? ==> k <= r.value <= |xs| && Prefix(xs, r.value) >= target
    ensures r.Some? ==> forall j :: k <= j < r.value ==> Prefix(xs, j) < target
    ensures r.None? <==> forall j :: k <= j <= |xs| ==> Prefix(xs, j) < target
    decreases |xs| - k
  {
    if Prefix(xs, k) >= target then Some(k)
    else if k == |xs| then None
    else FirstAtLeast(xs, target, k + 1)
  }

  /** `while (sum > bound) { oi_update; sum += delta; }` from update `k` on: the first
      `j >= k` whose prefix sum has come down to the bound. */
  function FirstAtMost(xs: seq<int>, bound: int, k: nat): (r: Option<nat>)
    requires k <= |xs|
    ensures r.Some? ==> k <= r.value <= |xs| && Prefix(xs, r.value) <= bound
    ensures r.Some? ==> forall j :: k <= j < r.value ==> Prefix(xs, j) > bound
    ensures r.None? <==> forall j :: k <= j <= |xs| ==> Prefix(xs, j) > bound
    decreases |xs| - k
  {
    if Prefix(xs, k) <= bound then Some(k)
    else if k == |xs| then None
    else FirstAtMost(xs, bound, k + 1)
  }

  /** A cliff sensor signal outside [500, 2500] means a drop-off or the boundary tape. */
  predicate OffRange(signal: int) {
    signal > 2500 || signal < 500
  }

  predicate LeftCliff(r: Reading) {
    OffRange(r.cliffFrontLeft) || OffRange(r.cliffLeft)
  }

  predicate RightCliff(r: Reading) {
    OffRange(r.cliffFrontRight) || OffRange(r.cliffRight)
  }

  /** The `if`/`else if` chain of `move_forward` on one packet: the code it returns, 0 when
      the loop goes on. Earlier tests win, so a packet with both bumpers pressed gives 1 and
      the code 3 of the status table is never produced. */
  function Hazard(r: Reading): (code: int)
    ensures code in {0, 1, 2, 4, 5}
    ensures code == 0 <==> !r.bumpLeft && !r.bumpRight && !LeftCliff(r) && !RightCliff(r)
    ensures code == 1 <==> r.bumpLeft
    ensures code == 2 <==> !r.bumpLeft && r.bumpRight
    ensures code == 4 <==> !r.bumpLeft && !r.bumpRight && LeftCliff(r)
    ensures code == 5 <==> !r.bumpLeft && !r.bumpRight && !LeftCliff(r) && RightCliff(r)
  {
    if r.bumpLeft then 1
    else if r.bumpRight then 2
    else if LeftCliff(r) then 4
    else if RightCliff(r) then 5
    else 0
  }

  /** Where a forward polling loop stopped: its code and the number of packets read. */
  datatype Exit = Exit(status: int, at: nat)

  /** The polling loop of a forward move from packet `k`: test the distance, read a packet,
      and leave with the code `hazard` assigns to it when that is nonzero. A zero code means
      the target distance was reached before any hazard; a nonzero code is that of the first
      hazardous packet, read while the target was still ahead. */
  function ForwardLoop(t: seq<Reading>, target: int, hazard: Reading -> int, k: nat): (r: Option<Exit>)
    requires k <= |t|
    ensures r.Some? ==> k <= r.value.at <= |t|
    ensures r.Some? ==> forall j :: k <= j < r.value.at ==> Prefix(Distances(t), j) < target
    ensures r.Some? && r.value.status == 0 ==>
              && Prefix(Distances(t), r.value.at) >= target
              && forall j :: k <= j < r.value.at ==> hazard(t[j]) == 0
    ensures r.Some? && r.value.status != 0 ==>
              && k < r.value.at && r.value.status == hazard(t[r.value.at - 1])
              && forall j :: k <= j < r.value.at - 1 ==> hazard(t[j]) == 0
    ensures r.None? <==> && (forall j :: k <= j <= |t| ==> Prefix(Distances(t), j) < target)
                         && (forall j :: k <= j < |t| ==> hazard(t[j]) == 0)
    decreases |t| - k
  {
    if Prefix(Distances(t), k) >= target then Some(Exit(0, k))
    else if k == |t| then None
    else if hazard(t[k]) != 0 then Some(Exit(hazard(t[k]), k + 1))
    else ForwardLoop(t, target, hazard, k + 1)
  }

  /** The polling loop of a backward move from packet `k`: `sum` starts at the distance to
      cover and the loop runs while it is positive. With `cliffStops`, every packet showing
      a cliff on either side issues a stop command, and the loop carries on regardless. The
      result's `consumed` is the absolute number of packets read. */
  function BackLoop(t: seq<Reading>, distanceMm: int, cliffStops: bool, k: nat): (r: Option<Drive>)
    requires k <= |t|
    ensures r.Some? <==> FirstAtMost(Distances(t), -distanceMm, k).Some?
    ensures r.Some? ==> r.value.consumed == FirstAtMost(Distances(t), -distanceMm, k).value
    ensures r.Some? ==> forall i :: 0 <= i < |r.value.wheels| ==> r.value.wheels[i] == Stop
    ensures r.Some? && !cliffStops ==> r.value.wheels == []
    ensures r.Some? && cliffStops ==>
              (r.value.wheels == [] <==>
                 forall j :: k <= j < r.value.consumed ==> !LeftCliff(t[j]) && !RightCliff(t[j]))
    ensures r.Some? && cliffStops ==> |r.value.wheels| == CliffCount(t, k, r.value.consumed)
    decreases |t| - k
  {
    if distanceMm + Prefix(Distances(t), k) <= 0 then Some(Drive(0, k, []))
    else if k == |t| then None
    else
      var stop := if cliffStops && (LeftCliff(t[k]) || RightCliff(t[k])) then [Stop] else [];
      match BackLoop(t, distanceMm, cliffStops, k + 1)
      case None => None
      case Some(d) => Some(d.(wheels := stop + d.wheels))
  }

  /** The number of packets among `t[k..n]` that show a cliff on either side. */
  function CliffCount(t: seq<Reading>, k: nat, n: nat): nat
    requires k <= n <= |t|
    decreases n - k
  {
    if k == n then 0
    else (if LeftCliff(t[k]) || RightCliff(t[k]) then 1 else 0) + CliffCount(t, k + 1, n)
  }

  /** `move_backward(distance_mm)`: reverse, poll until the distance is covered, stop. A
      cliff stops the wheels without leaving the loop, so the packets consumed depend only on
      the odometry: the loop ends at the first packet whose running sum, started at
      `distance_mm`, is no longer positive. */
  function MoveBackward(t: seq<Reading>, distanceMm: int): (r: Option<Drive>)
    ensures r.Some? <==> FirstAtMost(Distances(t), -distanceMm, 0).Some?
    ensures r.Some? ==> r.value.status == 0
    ensures r.Some? ==> r.value.consumed == FirstAtMost(Distances(t), -distanceMm, 0).value
    ensures r.Some? ==> |r.value.wheels| >= 2 && r.value.wheels[0] == Reverse
    ensures r.Some? ==> forall i :: 0 < i < |r.value.wheels| ==> r.value.wheels[i] == Stop
    ensures r.Some? ==> |r.value.wheels| == 2 + CliffCount(t, 0, r.value.consumed)
    ensures r.Some? ==> (r.value.wheels == [Reverse, Stop] <==>
              forall j :: 0 <= j < r.value.consumed ==> !LeftCliff(t[j]) && !RightCliff(t[j]))
  {
    match BackLoop(t, distanceMm, true, 0)
    case None => None
    case Some(d) => Some(Drive(0, d.consumed, [Reverse] + d.wheels + [Stop]))
  }

  /** `move_forward(distance_mm)`. Completion (code 0) stops the wheels once the distance
      travelled reaches the target. Otherwise the first packet with a bump or a cliff decides
      the code (left bump 1, right bump 2, left cliff 4, right cliff 5): the wheels stop and
      a 150 mm `move_backward` follows on the next packets, before the code is returned. */
  function MoveForward(t: seq<Reading>, distanceMm: int): (r: Option<Drive>)
    ensures r.Some? ==> r.value.status in {0, 1, 2, 4, 5} && r.value.consumed <= |t|
    ensures r.Some? ==> |r.value.wheels| >= 2 && r.value.wheels[0] == Ahead && r.value.wheels[1] == Stop
    ensures r.Some? && r.value.status == 0 ==>
              && r.value.wheels == [Ahead, Stop]
              && Prefix(Distances(t), r.value.consumed) >= distanceMm
              && (forall j :: 0 <= j < r.value.consumed ==> Prefix(Distances(t), j) < distanceMm)
              && forall j :: 0 <= j < r.value.consumed ==> Hazard(t[j]) == 0
    ensures r.Some? && r.value.status != 0 ==>
              && |r.value.wheels| >= 4 && r.value.wheels[2] == Reverse
              && r.value.wheels[|r.value.wheels| - 1] == Stop
              && exists h :: 0 <= h < r.value.consumed && r.value.status == Hazard(t[h])
                   && (forall j :: 0 <= j < h ==> Hazard(t[j]) == 0)
                   && (forall j :: 0 <= j <= h ==> Prefix(Distances(t), j) < distanceMm)
                   && BacksOff(t, h, r.value)
  {
    match ForwardLoop(t, distanceMm, Hazard, 0)
    case None => None
    case Some(e) =>
      if e.status == 0 then Some(Drive(0, e.at, [Ahead, Stop]))
      else
        match MoveBackward(t[e.at..], BackOffMm)
        case None => None
        case Some(b) =>
          var d := Drive(e.status, e.at + b.consumed, [Ahead, Stop] + b.wheels);
          assert BacksOff(t, e.at - 1, d);
          Some(d)
  }

  /** After the hazardous packet `t[h]`, the forward move `d` is the 150 mm
      `move_backward` over the packets that follow it: it consumes exactly the packets
      that back-off reads and issues its wheel commands after the first stop. */
  predicate BacksOff(t: seq<Reading>, h: nat, d: Drive)
    requires h < |t|
  {
    var b := MoveBackward(t[h + 1..], BackOffMm);
    && b.Some?
    && d.consumed == h + 1 + b.value.consumed
    && d.wheels == [Ahead, Stop] + b.value.wheels
  }

  /** A left turn with turn offset `offset`. An angle not beyond the offset turns until the
      heading has moved by half the offset and returns -1; a larger angle turns until it has
      moved by `angle - offset` and returns 0. */
  function TurnLeftBy(t: seq<Reading>, angle: int, offset: int): (r: Option<Drive>)
    ensures r.Some? ==> r.value.wheels == [SpinLeft, Stop] && r.value.consumed <= |t|
    ensures r.Some? ==> (r.value.status == -1 <==> angle <= offset) && r.value.status in {-1, 0}
    ensures r.Some? && angle <= offset ==>
              && Prefix(Angles(t), r.value.consumed) >= CHalf(offset)
              && forall j :: 0 <= j < r.value.consumed ==> Prefix(Angles(t), j) < CHalf(offset)
    ensures r.Some? && angle > offset ==>
              && Prefix(Angles(t), r.value.consumed) >= angle - offset
              && forall j :: 0 <= j < r.value.consumed ==> Prefix(Angles(t), j) < angle - offset
  {
    var small := angle - offset <= 0;
    var goal := if small then CHalf(offset) else angle - offset;
    match FirstAtLeast(Angles(t), goal, 0)
    case None => None
    case Some(k) => Some(Drive(if small then -1 else 0, k, [SpinLeft, Stop]))
  }

  /** A right turn with turn offset `offset` (right turns have negative angles). When
      `angle + offset >= 0` the loop runs while the heading sum exceeds half the offset,
      which with a non-negative offset is false at once: nothing is read and -1 is returned.
      Otherwise the turn goes on until the heading has moved down to `angle + offset`. */
  function TurnRightBy(t: seq<Reading>, angle: int, offset: int): (r: Option<Drive>)
    ensures r.Some? ==> r.value.wheels == [SpinRight, Stop] && r.value.consumed <= |t|
    ensures r.Some? ==> (r.value.status == -1 <==> angle + offset >= 0) && r.value.status in {-1, 0}
    ensures angle + offset >= 0 && offset >= 0 ==> r == Some(Drive(-1, 0, [SpinRight, Stop]))
    ensures r.Some? && angle + offset < 0 ==>
              && Prefix(Angles(t), r.value.consumed) <= angle + offset
              && forall j :: 0 <= j < r.value.consumed ==> Prefix(Angles(t), j) > angle + offset
  {
    var corr := angle + offset;
    var bound := if corr >= 0 then CHalf(offset) else corr;
    match FirstAtMost(Angles(t), bound, 0)
    case None => None
    case Some(k) => Some(Drive(if corr >= 0 then -1 else 0, k, [SpinRight, Stop]))
  }

  /** `turnLeftAngle`: angles up to 12 degrees turn 6 degrees and report -1. */
  function TurnLeftAngle(t: seq<Reading>, angle: int): (r: Option<Drive>)
    ensures r.Some? ==> r.value.consumed <= |t|
    ensures r.Some? && angle <= 12 ==> r.value.status == -1 && Prefix(Angles(t), r.value.consumed) >= 6
    ensures r.Some? && angle > 12 ==> r.value.status == 0 && Prefix(Angles(t), r.value.consumed) >= angle - 12
  {
    TurnLeftBy(t, angle, LeftTurnOffset)
  }

  /** `turnRightAngle`: any angle of -14 or more, including every positive one, turns
      nothing and reports -1. */
  function TurnRightAngle(t: seq<Reading>, angle: int): (r: Option<Drive>)
    ensures angle >= -14 ==> r == Some(Drive(-1, 0, [SpinRight, Stop]))
    ensures r.Some? ==> r.value.consumed <= |t|
    ensures r.Some? && angle < -14 ==> r.value.status == 0 && Prefix(Angles(t), r.value.consumed) <= angle + 14
  {
    TurnRightBy(t, angle, RightTurnOffset)
  }
}
