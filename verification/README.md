# Scan interpretation and reactive navigation of a parking robot, in Dafny

The robot sweeps its scan head from 0 to 180 degrees. At every even angle it records an
ultrasonic distance and a raw infrared reading. The control program then does four things:

- It segments the sweep into objects. Slots whose infrared reading is above a threshold
  belong to an object. Each object gets a centre angle, a distance, a linear width and an
  angular width. Narrow objects are recorded as "skinny" posts that mark the parking zone.
- It derives the gaps between neighbouring objects and picks the closest gap.
- It steers: it turns toward the gap or away from a lone object, drives forward, and after
  a bump or cliff it turns away.
- Once posts are seen, it approaches the parking zone.

The project models this logic as pure Dafny functions over immutable sequences.

- **Parking.c, the final program.** Its `findObjects`, `findGaps`, `findClosestGap` and
  the table helpers are modelled in modules `ParkingScan` and `ParkingGaps`. One iteration
  of its `main` loop is a state transition in module `ParkingMain`, which issues a list of
  motion commands (module `Commands`).
- **Libraries/movement.c, the motion routines.** Each routine polls the robot's sensor
  packets until an odometry sum crosses a bound. The model (module `Movement`) is a fold
  over a finite trace of packets. `None` means the trace ran out first.
- **Autoparking.c, an earlier variant.** Module `AutoparkingScan` models its scan, which
  steps back over rejected runs using stale loop locals and can therefore loop forever.
  Module `AutoparkingMain` models its main loop, and `AutoparkingFacts` proves properties
  over several cycles of it.
- **template.c, the first version.** Module `Template` models the first loop of its
  `findObjects` and its own motion routines.
- **Libraries/servo.c, the servo arithmetic.** Module `Servo` models the `uint32_t`
  arithmetic that turns an angle into timer clocks, the split into timer registers, and
  the button-driven calibration step.

## Modelling choices

- A sweep is a `seq<Sample>` of 181 slots indexed by angle. Only even slots are read.
- The floating-point formulas become function-valued parameters:
  - the arc-length estimate of an object's width is `arc(radius, angularWidth)`;
  - the gap width is `gw(distance, angularSeparation)`.

  Only the comparisons of their results (`<= 9`, `>= 35`) steer the robot.
- C's truncating `/ 2` is `Basics.CHalf`.
  - The servo's `uint32_t` values are integers in [0, 2^32), reduced by `Servo.Wrap`.
  - All other C `int`s are unbounded integers.
- `Outcome` separates three results. `Next(state, commands)` is a completed cycle.
  `Unspecified` means the C code reads or writes past a table, or uses the value of a
  function that fell off its end. `Hangs` means the cycle never completes.
- A cycle of `main` is one iteration of whichever inner loop control is in, or the step
  past that loop when its guard fails. The phases are:
  - Parking.c: autonomous, manual, approach, exit test, halted;
  - Autoparking.c: autonomous, manual, parking, exit test, halted.
- Inputs to each cycle:
  - the operator flags `goCmd` and `manualMode`;
  - the sweep a `scanSweep` would record;
  - the status the cycle's `move_forward` would return.

  `movementCode` is part of the state, which the serial interrupt may overwrite between
  cycles.
- Autoparking.c's `findGaps` and `findClosestGap` are the Parking.c code apart from the
  gap-width formula and the telemetry. They reuse `ParkingGaps`, with Autoparking.c's
  width formula passed as `gw`. The same holds for `clearObjects` and `clearGaps`.

## Where the design description and the code differ (the model follows the code)

- **Gap selection.** The design describes a left-to-right heuristic for three or more gaps.
  In the code, `findClosestGap` computes `smallestGapNum` for that case but never returns
  it. The same happens when there are no gaps or two gaps at equal distance. The caller
  uses an undefined value, so the model gives `None` (`ParkingGaps.FindClosestGap`) and
  the cycle is `Unspecified`.
- **One object dead ahead.** The design says a single object at 90 degrees is driven
  toward with no turn. The code turns right by -30 whenever the object's angle is 90 or
  less (`ParkingMainFacts.OneObjectSidesteps`).
- **Noise rejection.** The design speaks of rejecting single-sample blips. Parking.c
  rejects runs of one and two samples (angular width at most 4). Autoparking.c rejects
  one-sample runs only. template.c rejects nothing.
- **Centre angle.** The design rounds the centre to the nearest grid angle. Parking.c
  rounds an odd midpoint up. template.c does not round at all.
- **Approach distance with several posts.** The design does not say how far to drive.
  Parking.c compares the last post's distance with the first post's angle, not its
  distance, and drives the larger of the two, unscaled.
- **Gap width.** The design gives a chord formula. Parking.c uses an arc length.
  Autoparking.c takes `sin` of an integer-halved angle in degrees. Both are the `gw`
  parameter here.

## Model

| member | source | states |
|---|---|---|
| Basics.CHalf | Parking.c:265 | C's integer `/ 2` truncates toward zero: the remainder has the sign of the dividend and is at most 1 in size |
| Basics.FirstZero | Parking.c:87-92 | the row-count loop stops at the first zero row, having passed only nonzero rows; it has no result (reads past the table) exactly when every row is nonzero |
| Sweep.RunEnd | Parking.c:172-176 | the inner `while` entered at slot i stops at an even slot e ≥ i: every even slot in [i, e) is above the threshold and e is not |
| Sweep.RunEndIsFirst | Parking.c:173-176 | the slot where the inner loop stops is the first below-threshold even slot: it comes no later than any other |
| Sweep.RunEndUnique | Parking.c:173-176 | any run description starting at i is the one the inner loop finds |
| ParkingScan.ClearObjects | Parking.c:57-65 | the object table has 15 rows, all zero |
| ParkingScan.ClearSkinny | Parking.c:77-85 | only column 0 is cleared: every angle becomes 0 while every distance keeps its old value |
| ParkingScan.GetNumSkinnys | Parking.c:87-92 | the count is the index of the first zero angle, all angles before it are nonzero; no count exists when all four angles are nonzero |
| ParkingScan.ClearedCountsZero | Parking.c:77-92 | right after clearing, the post count is 0 |
| ParkingScan.Centre | Parking.c:185-188 | the stored centre is even, equals the midpoint of [start, end] or the next even angle above it, lies strictly inside the run, and is at least 4 for any kept run |
| ParkingScan.Runs | Parking.c:164-211 | the runs the outer loop keeps are complete above-threshold runs wider than 4 degrees, in order, each starting at least 4 past the end of the previous one |
| ParkingScan.ObjectOf | Parking.c:183-200 | a kept run's row: its centre, the ultrasonic distance at the centre, width 2n for n samples, and the arc estimate from that distance; the centre is even, ≥ 4 and inside the run |
| ParkingScan.Objects | Parking.c:164-211 | one object per kept run, with even centres ≥ 4 and below 180 that strictly increase with the object index |
| ParkingScan.SkinnyIndices | Parking.c:203-208 | exactly the objects whose linear width is at most 9 are listed as posts, in increasing order, each once |
| ParkingScan.Posts | Parking.c:202-208 | posts are recorded in increasing angle, all angles even, at least 4 and below 180, no more of them than objects |
| ParkingScan.SkinnyPosts | Parking.c:202-208 | the pairs recorded from an object table are, in table order, the (angle, distance) of exactly the objects at most 9 wide: each pair is such an object's and each such object's pair is recorded |
| ParkingScan.PostsAreSkinnyObjects | Parking.c:153-211 | the posts of a sweep are exactly the (angle, distance) pairs of its objects at most 9 wide, in both directions |
| ParkingScan.FindObjects | Parking.c:153-211 | the table holds the sweep's objects followed by zero rows; the skinny table holds the posts followed by rows with angle 0 and their old distances; `skinnyIndex` counts the posts; the flag becomes 1 when a post is found and is otherwise unchanged |
| ParkingScanFacts.RunAcceptance | Parking.c:164-211 | a run of n samples is kept iff n ≥ 3 (width 2n > 4); after a kept run the scan resumes 4 past its end, after a rejected one 2 past it |
| ParkingScanFacts.NoRunsWhenAllBelow | Parking.c:164-176 | a sweep with nothing above the threshold from slot i on yields no runs from i |
| ParkingScanFacts.RunReported | Parking.c:164-211 | completeness: a run wider than 4 degrees preceded by two below-threshold slots is reported exactly as it is |
| ParkingScanFacts.OnlyRunFrom | Parking.c:164-211 | when the only above-threshold slots from i on form one run wider than 4, that run is the only one kept |
| ParkingScanFacts.SingleObject | Parking.c:183-195 | a sweep with a single contiguous run wider than 4 degrees gives exactly one object, at the midpoint rounded up to the 2-degree grid, with the ultrasonic distance read there and width b - a |
| ParkingScanFacts.EmptySweep | Parking.c:164-211 | a sweep with nothing above the threshold gives no objects and no posts |
| ParkingScanFacts.PostCountIsSkinnyIndex | Parking.c:87-92 | after `findObjects`, `getNumSkinnys` equals `skinnyIndex` while fewer than 4 posts are stored, and reads past the table with 4 |
| ParkingGaps.ClearGaps | Parking.c:67-75 | the gap table has 14 rows, all zero |
| ParkingGaps.GapBetween | Parking.c:264-287 | a gap's distance is the smaller of the two object distances; its centre is their mean angle truncated toward zero (never above the mean for a non-negative sum), between the two angles; its width comes from that distance and the angular separation, the same on both branches |
| ParkingGaps.FindGaps | Parking.c:259-296 | `max(numObjs - 1, 0)` gaps, gap i between objects i and i+1, the remaining rows cleared |
| ParkingGaps.FindClosestGap | Parking.c:303-326 | a value is returned iff there is one gap, or two gaps at different distances; the returned gap has the least distance, strictly less than the other one when there are two |
| ParkingGaps.TwoObjectGap | Parking.c:259-314 | objects at 30 and 150 degrees, 40 and 60 cm away, give one gap at 90 degrees, 40 cm away, which is the one selected |
| Commands.Recovery | Parking.c:425-439 | a left bump or left cliff (1, 4) turns right by -90, a right bump or right cliff (2, 5) turns left by 90, every other status turns nothing, each iff |
| Commands.TurnBy | Parking.c:405-412 | a positive offset turns left by it, a negative one turns right by it, zero issues no turn |
| ParkingMain.Start | Parking.c:44-52 | the initial state has tables of the declared sizes, `skinnyPostFound` -1, `skinnyIndex` 0, and control in the autonomous loop; `main`'s `moveStatus` starts at -1 (Parking.c:358) |
| ParkingMain.Detect | Parking.c:153-211 | after scanning, `skinnyIndex` counts the posts, the skinny rows list them at angles ≥ 4 followed by zero angles, and the flag is raised iff a post was found |
| ParkingMain.AutonomousCycle | Parking.c:372-386 | an autonomous iteration starts with a scan; a post ends it with just the scan and control in the manual loop; the flag is only ever raised |
| ParkingMain.AutonomousSteer | Parking.c:387-439 | steering changes only the gaps and `moveStatus`, which becomes the forward status or keeps its old value; every completed iteration ends with the recovery turn for the stored status; with at most 2 objects it always completes |
| ParkingMain.ManualCycle | Parking.c:445-497 | codes 1-8 clear the code to 0 and issue at least one command, keeping the move status; any other code does nothing and leaves the state unchanged (ParkingMainFacts.ManualCodes gives each code's commands) |
| ParkingMain.ApproachCycle | Parking.c:502-507 | an approach iteration starts with a scan and either stays in the loop with the flag at 1 or leaves it with the flag lowered to -1 |
| ParkingMain.ApproachSteer | Parking.c:507-578 | it completes iff fewer than 4 posts are stored; no post lowers the flag and leaves for the exit test; otherwise it drives forward, stores the forward status and ends with the matching recovery turn |
| ParkingMain.Cycle | Parking.c:370-589 | every cycle keeps the tables' sizes and the flag in {-1, 1}; the program halts only from the exit-test phase with `goCmd` clear, issuing the stop |
| ParkingMainFacts.PostStopsAutonomous | Parking.c:379-385 | a sweep holding a post breaks the autonomous loop after the scan alone, with the flag at 1 and control in the manual loop |
| ParkingMainFacts.NoObjectProbes | Parking.c:388-390 | no object: forward 350 mm and then the recovery turn for the returned status, which is stored |
| ParkingMainFacts.OneObjectSidesteps | Parking.c:392-399 | one object: right -30 if its angle is at most 90, else left 30, then forward 350 mm and the recovery turn |
| ParkingMainFacts.AutonomousIsScanThenSteer | Parking.c:379-401 | without a post, an autonomous iteration is the scan followed by steering on the sweep's objects |
| ParkingMainFacts.ClosestGapSteer | Parking.c:401-423 | two or more objects, when `findClosestGap` returns gap `c`: that gap lies between objects `c` and `c + 1` and is no farther than any gap; turn by its centre minus 90, then forward (dist + 10) * 10 mm if it is at least 35 wide, else creep 100 mm keeping the previous status |
| ParkingMainFacts.TwoObjectsSteer | Parking.c:401-423 | two objects: turn by the gap's centre minus 90, then forward (dist + 10) * 10 mm if the gap is at least 35 wide, else creep 100 mm and keep the previous status, whose recovery turn repeats |
| ParkingMainFacts.ManyObjectsUnspecified | Parking.c:401-405 | four or more objects give three or more gaps, for which `findClosestGap` returns nothing, so the cycle is unspecified |
| ParkingMainFacts.ApproachGuardIsGoCmd | Parking.c:502 | with the flag in {-1, 1} the approach loop's guard reduces to `goCmd` |
| ParkingMainFacts.ApproachIsScanThenSteer | Parking.c:505-507 | an approach iteration is the scan followed by steering on the posts stored, which are the sweep's posts in order |
| ParkingMainFacts.OnePostSteer | Parking.c:514-539 | one post: turn by its angle minus 90, then drive its distance times 10, store that status and make its recovery turn |
| ParkingMainFacts.SeveralPostsSteer | Parking.c:542-560 | 2 or 3 posts: turn by last angle minus first angle, left when positive, then drive the larger of the last post's distance and the first post's angle |
| ParkingMainFacts.LostPostsLeaveApproach | Parking.c:507-512 | a sweep without posts lowers the flag and leaves the approach loop |
| ParkingMainFacts.ManualCodes | Parking.c:450-495 | in the manual loop code 1 drives 100 mm; 2 turns left 180, drives 100 and turns right -180; 3 and 4 turn 10 left and -10 right; 6 and 7 turn 90 left and -90 right; 8 turns left 180; each clears the code; code 5 on a sweep the tables cannot hold is unspecified |
| ParkingMainFacts.ManualScan | Parking.c:475-480 | code 5 issues only the scan, stores the sweep's posts, raises the flag iff a post is seen, and stores the gaps between the stored objects |
| ParkingMainFacts.ExitOrRepeat | Parking.c:581-589 | with `goCmd` clear the wheels stop and the program ends; otherwise control returns to the autonomous loop |
| Movement.FirstAtLeast | Libraries/movement.c:103-106 | the `while (sum < goal)` loop ends after the first number of updates whose prefix sum reaches the goal; it never ends on the trace iff no prefix does |
| Movement.FirstAtMost | Libraries/movement.c:127-130 | the `while (sum > bound)` loop ends after the first number of updates whose prefix sum has come down to the bound; never iff no prefix does |
| Movement.Hazard | Libraries/movement.c:22-49 | the first matching test wins: left bump 1, right bump 2, left cliff 4, right cliff 5, none 0; code 3 is never produced |
| Movement.ForwardLoop | Libraries/movement.c:18-50 | the loop ends with 0 once the distance target is reached with no hazard on the way, or with the code of the first hazardous packet read while the target was still ahead; it does not end on the trace iff neither happens |
| Movement.BackLoop | Libraries/movement.c:61-79 | the backward loop reads exactly up to the first packet whose running sum is ≤ 0; cliffs only add stop commands, exactly one per consumed packet showing a cliff, and never end the loop |
| Movement.MoveBackward | Libraries/movement.c:55-82 | reverse, poll until the distance is covered, stop; the wheels are `[Reverse, Stop]` iff no consumed packet shows a cliff, and every command after the first is a stop, one per cliff packet plus the final one |
| Movement.MoveForward | Libraries/movement.c:11-53 | status 0 only once the target is reached with no hazard, wheels ahead then stopped; the move stops at the first packet whose running sum reaches the target; any other status is 1, 2, 4 or 5 and is the code of the first hazardous packet, read while the target was still ahead; the move then consumes exactly the packets of `move_backward(150)` on the packets after that one, and its wheel commands are ahead, stop, then those of that back-off |
| Movement.TurnLeftBy | Libraries/movement.c:90-107 | an angle not beyond the offset turns until the heading sum reaches half the offset and returns -1; a larger one turns until it reaches angle - offset and returns 0 |
| Movement.TurnRightBy | Libraries/movement.c:116-135 | with angle + offset ≥ 0 and a non-negative offset no packet is read and -1 is returned; otherwise it turns until the heading sum is ≤ angle + offset and returns 0 |
| Movement.TurnLeftAngle | Libraries/movement.c:84-108 | angles up to 12 turn at least 6 degrees and return -1; larger ones turn at least angle - 12 and return 0 |
| Movement.TurnRightAngle | Libraries/movement.c:110-136 | every angle ≥ -14, including all positive ones, turns nothing and returns -1; smaller ones turn down to angle + 14 and return 0 |
| AutoparkingScan.ApStep | Autoparking.c:153-199 | one loop iteration leaves the state unchanged iff the slot is below the threshold and the stale run bounds are at most 2 apart; below the threshold with bounds further apart it only moves on by 2; at a run the bounds take the run's; a one-sample run is rejected and the scan resumes at the run's end (the `i -= 2` step-back); a wider run appends its row and the scan resumes 4 past its end; the flag is raised by a skinny row |
| AutoparkingScan.ApObjectOf | Autoparking.c:176-190 | a stored run's row: the centre rounded up to an even angle, strictly inside the run, the ultrasonic distance at the centre, the arc estimate from it, and the angular width end - start |
| AutoparkingScan.StoreRun | Autoparking.c:174-199 | storing a run appends exactly its row, counts it when skinny and then raises the flag, sets the bounds to the run's and resumes 4 past its end, keeping the bookkeeping consistent |
| AutoparkingScan.ApScan | Autoparking.c:153-200 | the scan either leaves the sweep or reaches a state its next iteration does not change; objects found earlier are kept, and the flag is raised iff a skinny object was added |
| AutoparkingScan.BlipDiverges | Autoparking.c:156-172 | a one-sample run reached by the scan makes it repeat the slot after the run forever |
| AutoparkingScan.WellSpacedFinishes | Autoparking.c:153-200 | on a sweep whose runs all have at least two samples and at least two clear slots after them, a scan started at a run start, or with stale bounds more than 2 apart, leaves the sweep |
| AutoparkingScan.ApClearSkinny | Autoparking.c:72-80 | the one-column skinny table holds four zero angles |
| AutoparkingScan.ApRuns | Autoparking.c:153-199 | reference for what the scan stores: the complete above-threshold runs of at least two samples from slot i, in order, each starting at least 4 past the previous one's end |
| AutoparkingScan.ApRows | Autoparking.c:176-190 | one row per run, the k-th being that run's row, its centre inside the run |
| AutoparkingScan.WellSpacedStores | Autoparking.c:153-200 | on a well-spaced sweep a scan from a safe state finishes having appended exactly the rows of the runs from its index on, in order |
| AutoparkingScan.ApFindObjects | Autoparking.c:142-200 | a completed scan leaves well-formed objects followed by zero rows, a skinny table that is still all zero, `skinnyIndex` equal to the number of skinny objects, and the flag raised iff there is one; it loops iff the scan reaches a fixpoint, overflows iff the finished scan found more than 15 objects, and otherwise its first `count` rows are exactly the objects the scan stored |
| AutoparkingScan.WellSpacedScanReturns | Autoparking.c:153-172 | a well-spaced sweep is scanned to the end when slot 0 is above the threshold or the uninitialised bounds are more than 2 apart |
| AutoparkingScan.WellSpacedObjects | Autoparking.c:142-200 | on a well-spaced sweep that does not hang at slot 0, `findObjects` overflows the table iff there are more than 15 runs, and otherwise its first `count` rows are exactly the rows of the sweep's runs, in order |
| AutoparkingScan.StaleLocalsHang | Autoparking.c:146-172 | with slot 0 below the threshold, uninitialised bounds at most 2 apart hang the scan in its first iteration |
| AutoparkingScan.SkinnyStoreIsNoOp | Autoparking.c:192-196 | after any completed scan `getNumSkinnys` counts 0 posts, since the store statement writes nothing |
| AutoparkingMain.ApStart | Autoparking.c:42-50 | the initial state has tables of the declared sizes, `skinnyPostFound` -1, `skinnyIndex` 0, and control in the autonomous loop; `main`'s `moveStatus` starts at -1 (Autoparking.c:344) |
| AutoparkingMain.ApTurn | Autoparking.c:398-405 | the offset is compared with ±90, not 0: every offset below 90, positive ones included, turns right by it; one above 90 turns left; exactly 90 issues no turn |
| AutoparkingMain.ApAutonomousCycle | Autoparking.c:361-378 | an autonomous iteration starts with a scan; a newly raised flag ends it after the scan alone; the flag is only ever raised |
| AutoparkingMain.ApSteer | Autoparking.c:380-431 | steering changes only the gaps and `moveStatus`, ends with the recovery turn for the stored status, and always completes with at most 2 objects |
| AutoparkingFacts.ApNoObjectProbes | Autoparking.c:381-383 | no object: forward 350 mm, store its status, then the recovery turn |
| AutoparkingFacts.ApOneObjectSidesteps | Autoparking.c:385-392 | one object: turn right -30 when it is at 90 degrees or less, else left 30, then forward 350 mm and the recovery turn |
| AutoparkingFacts.ApClosestGapSteer | Autoparking.c:393-431 | two or more objects, when `findClosestGap` returns gap `c`: the nearest gap, between objects `c` and `c + 1`, is aimed at with `ApTurn` of its centre minus 90, then driven through ((dist + 10) * 10 mm) when at least 35 wide, else crept at 100 mm keeping the previous status |
| AutoparkingFacts.ApNoClosestGapUnspecified | Autoparking.c:396 | when `findClosestGap` returns no gap the cycle is unspecified |
| AutoparkingMain.ApManualCycle | Autoparking.c:434-456 | exactly codes 1-4 clear the code to 0 and issue commands, changing nothing else; any other code does nothing (AutoparkingFacts.ApManualCodes gives each code's commands) |
| AutoparkingMain.ApCycle | Autoparking.c:360-475 | every cycle keeps the tables' sizes and the flag in {-1, 1}; a raised flag is never lowered; the program halts only from the exit-test phase with `goCmd` clear |
| AutoparkingMain.ApRun | Autoparking.c:360-475 | over any run of cycles the tables keep their sizes and a raised flag stays raised |
| AutoparkingFacts.FlaggedCycleIsSilent | Autoparking.c:460-463 | with the flag raised and `goCmd` set, a cycle issues no command and does not halt; in the parking loop it changes nothing |
| AutoparkingFacts.FlaggedRunIsSilent | Autoparking.c:360-475 | once the flag is raised, no sequence of cycles with `goCmd` set moves the robot or ends the program |
| AutoparkingFacts.SkinnyCountStaysZero | Autoparking.c:82-87 | after any completed autonomous cycle `getNumSkinnys` returns 0 |
| AutoparkingFacts.ApManualCodes | Autoparking.c:439-454 | in the manual loop code 1 drives 100 mm; 2 turns left 180, drives 100 and asks for a right turn of 180; 3 and 4 turn 15 left and -15 right; each clears the code; other codes issue nothing |
| AutoparkingFacts.ReverseManoeuvreSkipsTurnBack | Autoparking.c:442-447 | manual code 2 ends with `turnRightAngle(180)`, which by the movement library's rule turns nothing |
| Template.TRuns | template.c:176-202 | every stored run is a complete above-threshold run of at least one sample, in order, each starting at least 4 past the end of the previous one |
| Template.TRunsCover | template.c:176-202 | no noise rejection: every above-threshold even slot lies in a stored run or is the slot stepped over right after one |
| Template.NoRunsFrom | template.c:176-188 | nothing above the threshold from slot i on means no runs from i |
| Template.OneSampleKept | template.c:176-202 | a lone above-threshold sample is stored as a run two degrees wide |
| Template.TCentre | template.c:191 | the centre is the midpoint of the first and last above-threshold samples, not rounded, and odd for every two-sample run |
| Template.TRow | template.c:189-201 | a run's row has that centre, angular width end - start, and the arc estimate from the average ultrasonic reading at the first sample and the terminating slot |
| Template.TFindObjects | template.c:176-203 | row k is rewritten for the k-th run with its distance kept, the rows past the count are untouched, and centres strictly increase |
| Template.Bump | template.c:42-50 | left bump gives 1, right bump alone 2, no bump 0; the both-bumpers branch is unreachable, so 3 is never returned |
| Template.TMoveForward | template.c:33-54 | status 0 only at the first packet whose running sum reaches the target, with no bump, wheels then stopped; a bump returns 1 or 2 at once with the wheels left running, every earlier running sum still short of the target; cliffs are ignored |
| Template.SameLoopWhenClean | template.c:38-51 | two hazard tests that pass every packet give the same forward polling loop |
| Template.ForwardAgreesOnCleanTrace | template.c:33-54 | on a trace with no bump and no cliff template.c's `move_forward` behaves exactly like the library's |
| Template.TMoveBackward | template.c:57-67 | reverse until the running sum is ≤ 0, then stop; no cliff check, so the wheels are always reverse then stop |
| Template.BackwardReadsSamePackets | template.c:57-67 | the library's `move_backward` ends on the same packet as template.c's |
| Template.TTurnLeftAngle | template.c:69-89 | angles up to 12 turn at least 6 degrees and return -1; larger ones turn at least angle - 12 and return 0 |
| Template.TTurnRightAngle | template.c:91-114 | every angle ≥ -14 turns nothing and returns -1; smaller ones turn down to angle + 14 and return 0 |
| Servo.Wrap | Libraries/servo.c:105-107 | storing into `uint32_t` keeps the value modulo 2^32, unchanged when it already fits |
| Servo.WrapAdd | Libraries/servo.c:71-78 | reducing an intermediate sum modulo 2^32 does not change the final result |
| Servo.SetLeft | Libraries/servo.c:93-95 | only the left calibration value changes, to the argument |
| Servo.SetRight | Libraries/servo.c:97-99 | only the right calibration value changes, to the argument |
| Servo.SettersCommute | Libraries/servo.c:93-99 | setting left then right equals setting right then left |
| Servo.ClocksPerDegree | Libraries/servo.c:105 | clocks per degree is the floor of (LEFT - RIGHT) / 180, where the difference wraps by 2^32 when LEFT < RIGHT |
| Servo.CalcDutyCycle | Libraries/servo.c:103-110 | the result is clocks-per-degree times degrees plus RIGHT, modulo 2^32 |
| Servo.DutyAtZero | Libraries/servo.c:103-110 | zero degrees gives RIGHT exactly |
| Servo.DutyMonotone | Libraries/servo.c:105-107 | with LEFT ≥ RIGHT no overflow happens up to 180 degrees: the clocks grow with the angle, from RIGHT, and stay within 180 clocks below LEFT at 180 degrees |
| Servo.ReversedCalibrationWraps | Libraries/servo.c:105 | with LEFT < RIGHT the clocks per degree exceed (2^32 - RIGHT) / 180 - 1 |
| Servo.Split | Libraries/servo.c:52-53 | the match register gets the low 16 bits, the prescale register the next 8 |
| Servo.SplitRoundTrip | Libraries/servo.c:52-53 | the two registers together hold the value modulo 2^24, so every value below 2^24 is recovered exactly |
| Servo.CombineRoundTrip | Libraries/servo.c:52-53 | every pair of register values is the split of the count it holds |
| Servo.ServoMove | Libraries/servo.c:46-56 | `servo_move` leaves the registers holding the duty-cycle clocks modulo 2^24 |
| Servo.CalStart | Libraries/servo.c:60-64 | calibration starts at pulse width 24000 with the registers holding it |
| Servo.CalStep | Libraries/servo.c:66-90 | button 1 adds 100, button 2 subtracts 100 (mod 2^32), both rewriting the registers; 3 stores the width as LEFT, 4 as RIGHT; any other button changes nothing; the registers always hold the width |
| Servo.UpThenDown | Libraries/servo.c:70-83 | button 1 then button 2, or 2 then 1, returns to the same state |
| Servo.CalRun | Libraries/servo.c:66-90 | over any sequence of button readings the registers keep holding the split of the width |
| Servo.CalRunWidth | Libraries/servo.c:66-83 | the width is the start plus 100 per net press of button 1 over button 2, modulo 2^32 |
| Servo.CalRunKeepsCalibration | Libraries/servo.c:84-89 | without a press of 3 or 4 the calibration values stay as they were |

## Left out

- Sweep acquisition (`scanSweep` in all three programs), UART and LCD output, and the telemetry loops of `findObjects` and `findGaps`: these are I/O. The sweep is an input. The casts of integers to string addresses in Autoparking.c's `findGaps` only feed telemetry.
- The floating-point formulas are not modelled. They are the function parameters `arc` and `gw`. These cover the arc length in all three `findObjects`, the gap width of Parking.c, and the `sin` of an integer-halved angle in Autoparking.c.
- The second loop of template.c's `findObjects` is left out because it calls the hardware through `doScan`. That loop re-reads each object's distance. template.c's `main` is left out because it refers to `smallestObj` and `findSmallestObject`, which are not defined.
- The outer `while (1)` loops and the busy-wait on `goCmd` are left out. A cycle is one step; `ParkingMain.Cycle` and `AutoparkingMain.ApRun` compose steps.
- Concurrency is not modelled. The serial interrupt handler changes `goCmd`, `manualMode` and `movementCode`, and the model assumes that happens only between cycles. For this reason the `manualMode == 0` exit inside the manual loops and the `manualMode == 1` jump inside Autoparking.c's autonomous loop are treated as unreachable: both contradict their loop's guard.
- Libraries/uart-interrupt.c, Libraries/ping.c, Libraries/adc.c and Libraries/scan.c are not part of this model. They are hardware bring-up, interrupt capture and float conversions.
- Register setup is left out: `servo_init` and the timer enable/disable writes of `servo_move` and `servo_calibrate`. Only the register values are modelled.
- ParkingScan.FindObjects: requires slot 180 to be below the threshold, which is stronger than the code needs. The code only fails when the inner `while` reaches slot 180 while it is above the threshold. It does not fail when slot 180 is the slot the scan steps over after a run ending at 178. The same over-requirement applies to AutoparkingScan.ApFindObjects and Template.TFindObjects.
- ParkingMain.AutonomousSteer: does not model overflow of the C `int` in `(dist + 10) * 10`, because sensor distances are small. Likewise, Movement.MoveForward does not model overflow of the odometry sums.
- Movement.TurnLeftBy: the C code accumulates the heading in a `double`. The model assumes every packet's `angle` is an integer and sums integers. The packet type is declared in open_interface.h, which is not part of this model, so this is an assumption. The same applies to Movement.TurnRightBy and to template.c's turns (Template.TTurnLeftAngle, Template.TTurnRightAngle).
- Movement.MoveForward: packet distances are modelled as integers and summed exactly. `move_forward` and `move_backward` add `sensor_data->distance` into an `int sum` (Libraries/movement.c:16-20, 61-65; template.c:36-40, 59-63). If that field is fractional, each addition truncates toward zero, and the model does not capture that. The same applies to Movement.MoveBackward, Template.TMoveForward and Template.TMoveBackward.
- ParkingMain.Cycle: the status each cycle's `move_forward` returns is a free input (`forwardStatus`), not tied to `Movement.MoveForward` on a packet trace. Facts about the recovery turn therefore also cover codes `move_forward` never returns, such as 3 or negative codes; for those the recovery issues no turn. The same applies to AutoparkingMain.ApCycle.
- Servo.ClocksPerDegree: the C code divides by `180.0` in floating point and truncates. The model uses integer division. The two agree for every `uint32_t` difference, because the quotient is never within floating-point error of the next integer.
- AutoparkingScan.ApFindObjects: the no-op store `skinnyObjects[skinnyIndex][objAngPos]` reads past its one-column row. The model treats that read as having no effect.
- ParkingMain.ApproachSteer: with four posts stored, `getNumSkinnys` reads past the table. The model reports that cycle as `Unspecified` instead of guessing the value read.
