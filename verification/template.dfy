/** template.c, the earliest variant: the first loop of its `findObjects` and its own copies
    of the motion routines. It keeps every above-threshold run, however short, measures the
    centre and radius differently from Parking.c, and its `move_forward` only watches the
    bumpers. */
module Template {
  import opened Basics
  import opened Sweep
  import opened ParkingScan
  import Movement

  /** `IR_THRESHOLD_VAL` of template.c. */
  const TThreshold: int := 850
  /** `LEFT_TURN_OFFSET` and `RIGHT_TURN_OFFSET` of template.c. */
  const TLeftTurnOffset: int := 12
  const TRightTurnOffset: int := 14

  /** The runs the first loop of `findObjects` stores, from slot `i`. A slot below the
      threshold moves on by 2; every run, even a single sample, is stored, and the scan
      resumes 4 past its end (the `i += 2` after an object plus the loop's own step). */
  function TRuns(s: seq<Sample>, i: int): (rs: seq<Run>)
    requires Closed(s, TThreshold)
    requires 0 <= i && Even(i)
    ensures forall k :: 0 <= k < |rs| ==>
              IsRunFrom(s, TThreshold, rs[k].start, rs[k].end) && i <= rs[k].start < rs[k].end
    ensures forall k, l :: 0 <= k < l < |rs| ==> rs[k].end + 4 <= rs[l].start
    decreases Slots - i
  {
    if i >= Slots then []
    else if !Above(s, TThreshold, i) then TRuns(s, i + 2)
    else
      var e := RunEnd(s, TThreshold, i);
      [Run(i, e)] + TRuns(s, e + 4)
  }

  /** The even slot `a` is inside one of the runs, or is the slot skipped right after one. */
  predicate Covered(rs: seq<Run>, a: int) {
    exists k :: 0 <= k < |rs| && (rs[k].start <= a < rs[k].end || a == rs[k].end + 2)
  }

  /** There is no noise rejection: every above-threshold even slot from `i` on belongs to a
      stored run, unless it is the one slot the scan steps over after a run. */
  lemma {:induction false} TRunsCover(s: seq<Sample>, i: int, a: int)
    requires Closed(s, TThreshold)
    requires 0 <= i <= a <= LastAngle && Even(i) && Even(a) && Above(s, TThreshold, a)
    ensures Covered(TRuns(s, i), a)
    decreases Slots - i
  {
    var rs := TRuns(s, i);
    if !Above(s, TThreshold, i) {
      assert i != a;
      TRunsCover(s, i + 2, a);
    } else {
      var e := RunEnd(s, TThreshold, i);
      EvenStep(e);
      TRunsAtRun(s, i);
      if a <= e + 2 {
        assert a != e;
        assert rs[0].start <= a < rs[0].end || a == rs[0].end + 2;
      } else {
        TRunsCover(s, e + 4, a);
        CoveredCons(Run(i, e), TRuns(s, e + 4), a);
      }
    }
  }

  /** From the start of a run the first stored run is that run, then the runs from 4 past
      its end. */
  lemma TRunsAtRun(s: seq<Sample>, i: int)
    requires Closed(s, TThreshold)
    requires 0 <= i <= LastAngle && Even(i) && Above(s, TThreshold, i)
    ensures TRuns(s, i) == [Run(i, RunEnd(s, TThreshold, i))] + TRuns(s, RunEnd(s, TThreshold, i) + 4)
  {
  }

  /** A slot covered by the later runs stays covered with one more run in front. */
  lemma CoveredCons(r: Run, rest: seq<Run>, a: int)
    requires Covered(rest, a)
    ensures Covered([r] + rest, a)
  {
    var k :| 0 <= k < |rest| && (rest[k].start <= a < rest[k].end || a == rest[k].end + 2);
    assert ([r] + rest)[k + 1] == rest[k];
  }

  /** A sweep with nothing above the threshold from `i` on has no runs from `i`. */
  lemma {:induction false} NoRunsFrom(s: seq<Sample>, i: int)
    requires Closed(s, TThreshold)
    requires 0 <= i && Even(i)
    requires forall b :: i <= b <= LastAngle && Even(b) ==> !Above(s, TThreshold, b)
    ensures TRuns(s, i) == []
    decreases Slots - i
  {
    if i < Slots {
      NoRunsFrom(s, i + 2);
    }
  }

  /** A single above-threshold sample, which Parking.c and Autoparking.c discard as noise,
      becomes an object here: a run two degrees wide. */
  lemma {:induction false} OneSampleKept(s: seq<Sample>, i: int, a: int)
    requires Closed(s, TThreshold)
    requires 0 <= i <= a <= LastAngle && Even(i) && Even(a) && Above(s, TThreshold, a)
    requires forall b :: i <= b <= LastAngle && Even(b) && b != a ==> !Above(s, TThreshold, b)
    ensures TRuns(s, i) == [Run(a, a + 2)]
    decreases Slots - i
  {
    if i < a {
      OneSampleKept(s, i + 2, a);
    } else {
      assert a != LastAngle;
      assert !Above(s, TThreshold, a + 2);
      assert RunEnd(s, TThreshold, a + 2) == a + 2;
      NoRunsFrom(s, a + 4);
    }
  }

  /** `(objectStartDeg + objectEndDeg - 2) / 2`: the midpoint of the first and the last
      above-threshold sample of the run, not rounded, so it is odd for some runs. */
  function TCentre(r: Run): (c: int)
    requires 0 <= r.start < r.end && Even(r.start) && Even(r.end)
    ensures 2 * c == r.start + (r.end - 2)
    ensures r.start <= c < r.end
    ensures r.end == r.start + 4 ==> !Even(c)
  {
    (r.start + r.end - 2) / 2
  }

  /** The row the first loop writes for a run: the centre, the angular width `end - start`,
      and the linear width from the integer average of the ultrasonic readings at the first
      sample and at the terminating slot. The distance column is left as it was; only the
      rescan that follows writes it. */
  predicate IsTRow(s: seq<Sample>, arc: (int, int) -> int, r: Run, dist: int, o: Obj)
    requires IsRunFrom(s, TThreshold, r.start, r.end) && r.start < r.end
  {
    && 2 * o.angle == r.start + (r.end - 2)
    && o.angWidth == r.end - r.start
    && o.width == arc(CHalf(s[r.start].ping + s[r.end].ping), o.angWidth)
    && o.dist == dist
  }

  function TRow(s: seq<Sample>, arc: (int, int) -> int, r: Run, dist: int): (o: Obj)
    requires IsRunFrom(s, TThreshold, r.start, r.end) && r.start < r.end
    ensures IsTRow(s, arc, r, dist, o)
    ensures r.start <= o.angle < r.end && o.angWidth >= 2
  {
    var w := r.end - r.start;
    Obj(TCentre(r), dist, arc(CHalf(s[r.start].ping + s[r.end].ping), w), w)
  }

  /** The object table after the first loop, and the returned count. */
  datatype TDetection = TDetection(objects: seq<Obj>, count: nat)

  /** The first loop of `findObjects` over the global table `prev`: row `k` is rewritten
      for the `k`-th run (its distance kept), the rows past the count are untouched. The
      table has 15 rows, written without a bound check. */
  function TFindObjects(s: seq<Sample>, prev: seq<Obj>, arc: (int, int) -> int): (d: TDetection)
    requires Closed(s, TThreshold) && |prev| == ObjectRows
    requires |TRuns(s, 0)| <= ObjectRows
    ensures |d.objects| == ObjectRows && d.count == |TRuns(s, 0)|
    ensures forall k :: 0 <= k < d.count ==> IsTRow(s, arc, TRuns(s, 0)[k], prev[k].dist, d.objects[k])
    ensures forall k :: d.count <= k < ObjectRows ==> d.objects[k] == prev[k]
    ensures forall k, l :: 0 <= k < l < d.count ==> d.objects[k].angle < d.objects[l].angle
  {
    var rs := TRuns(s, 0);
    var objs := seq(ObjectRows, k requires 0 <= k < ObjectRows =>
                      if k < |rs| then TRow(s, arc, rs[k], prev[k].dist) else prev[k]);
    TDetection(objs, |rs|)
  }

  /** The bumper chain of template.c's `move_forward`: the left bumper wins, so the third
      branch, testing both bumpers, can never be taken and code 3 is never returned. */
  function Bump(r: Movement.Reading): (code: int)
    ensures code in {0, 1, 2}
    ensures code == 0 <==> !r.bumpLeft && !r.bumpRight
    ensures code == 1 <==> r.bumpLeft
  {
    if r.bumpLeft then 1
    else if r.bumpRight then 2
    else if r.bumpRight && r.bumpLeft then 3
    else 0
  }

  /** template.c's `move_forward`: cliffs are not watched, and a bump returns at once with
      the wheels still running, since only completion stops them. */
  function TMoveForward(t: seq<Movement.Reading>, distanceMm: int): (r: Option<Movement.Drive>)
    ensures r.Some? ==> r.value.status in {0, 1, 2} && r.value.consumed <= |t|
    ensures r.Some? && r.value.status == 0 ==>
              && r.value.wheels == [Movement.Ahead, Movement.Stop]
              && Movement.Prefix(Movement.Distances(t), r.value.consumed) >= distanceMm
              && (forall j :: 0 <= j < r.value.consumed ==> Movement.Prefix(Movement.Distances(t), j) < distanceMm)
              && forall j :: 0 <= j < r.value.consumed ==> !t[j].bumpLeft && !t[j].bumpRight
    ensures r.Some? && r.value.status != 0 ==>
              && r.value.wheels == [Movement.Ahead]
              && 0 < r.value.consumed && r.value.status == Bump(t[r.value.consumed - 1])
              && (forall j :: 0 <= j < r.value.consumed ==> Movement.Prefix(Movement.Distances(t), j) < distanceMm)
              && forall j :: 0 <= j < r.value.consumed - 1 ==> !t[j].bumpLeft && !t[j].bumpRight
    ensures r.None? <==>
              && (forall j :: 0 <= j <= |t| ==> Movement.Prefix(Movement.Distances(t), j) < distanceMm)
              && (forall j :: 0 <= j < |t| ==> !t[j].bumpLeft && !t[j].bumpRight)
  {
    match Movement.ForwardLoop(t, distanceMm, Bump, 0)
    case None => None
    case Some(e) =>
      Some(Movement.Drive(e.status, e.at, if e.status == 0 then [Movement.Ahead, Movement.Stop] else [Movement.Ahead]))
  }

  /** Two hazard tests that both pass every packet from `k` on give the same polling loop. */
  lemma {:induction false} SameLoopWhenClean(t: seq<Movement.Reading>, target: int,
                                             h1: Movement.Reading -> int, h2: Movement.Reading -> int, k: nat)
    requires k <= |t|
    requires forall j :: k <= j < |t| ==> h1(t[j]) == 0 && h2(t[j]) == 0
    ensures Movement.ForwardLoop(t, target, h1, k) == Movement.ForwardLoop(t, target, h2, k)
    decreases |t| - k
  {
    if k < |t| {
      SameLoopWhenClean(t, target, h1, h2, k + 1);
    }
  }

  /** On a trace with no bump and no cliff, template.c's `move_forward` and the library's
      behave alike. */
  lemma ForwardAgreesOnCleanTrace(t: seq<Movement.Reading>, distanceMm: int)
    requires forall j :: 0 <= j < |t| ==> Movement.Hazard(t[j]) == 0
    ensures TMoveForward(t, distanceMm) == Movement.MoveForward(t, distanceMm)
  {
    SameLoopWhenClean(t, distanceMm, Bump, Movement.Hazard, 0);
  }

  /** template.c's `move_backward`: no cliff check; reverse until the distance is covered,
      then stop. */
  function TMoveBackward(t: seq<Movement.Reading>, distanceMm: int): (r: Option<Movement.Drive>)
    ensures r.Some? <==> Movement.FirstAtMost(Movement.Distances(t), -distanceMm, 0).Some?
    ensures r.Some? ==> r.value.consumed == Movement.FirstAtMost(Movement.Distances(t), -distanceMm, 0).value
    ensures r.Some? ==> r.value.status == 0 && r.value.wheels == [Movement.Reverse, Movement.Stop]
  {
    match Movement.BackLoop(t, distanceMm, false, 0)
    case None => None
    case Some(d) => Some(Movement.Drive(0, d.consumed, [Movement.Reverse, Movement.Stop]))
  }

  /** The library's `move_backward` reads exactly the packets template.c's does; they
      differ only in the stop commands a cliff adds. */
  lemma BackwardReadsSamePackets(t: seq<Movement.Reading>, distanceMm: int)
    ensures TMoveBackward(t, distanceMm).Some? <==> Movement.MoveBackward(t, distanceMm).Some?
    ensures TMoveBackward(t, distanceMm).Some? ==>
              TMoveBackward(t, distanceMm).value.consumed == Movement.MoveBackward(t, distanceMm).value.consumed
  {
  }

  /** template.c's `turnLeftAngle`, with its own offset 12. */
  function TTurnLeftAngle(t: seq<Movement.Reading>, angle: int): (r: Option<Movement.Drive>)
    ensures r.Some? ==> r.value.wheels == [Movement.SpinLeft, Movement.Stop] && r.value.consumed <= |t|
    ensures r.Some? && angle <= 12 ==>
              r.value.status == -1 && Movement.Prefix(Movement.Angles(t), r.value.consumed) >= 6
    ensures r.Some? && angle > 12 ==>
              r.value.status == 0 && Movement.Prefix(Movement.Angles(t), r.value.consumed) >= angle - 12
  {
    Movement.TurnLeftBy(t, angle, TLeftTurnOffset)
  }

  /** template.c's `turnRightAngle`, with its own offset 14: the same zero-iteration branch
      for every angle of -14 or more. */
  function TTurnRightAngle(t: seq<Movement.Reading>, angle: int): (r: Option<Movement.Drive>)
    ensures angle >= -14 ==> r == Some(Movement.Drive(-1, 0, [Movement.SpinRight, Movement.Stop]))
    ensures r.Some? ==> r.value.consumed <= |t|
    ensures r.Some? && angle < -14 ==>
              r.value.status == 0 && Movement.Prefix(Movement.Angles(t), r.value.consumed) <= angle + 14
  {
    Movement.TurnRightBy(t, angle, TRightTurnOffset)
  }
}
