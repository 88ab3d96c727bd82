/** The `findObjects` of Autoparking.c, an earlier variant of the segmentation. It differs
    from the Parking.c one in three ways: a run is kept from two samples on; a rejected run
    steps the index back by 2 using the run bounds of the LAST run measured (locals that
    are never reset, and uninitialised before the first run); and the statement meant to
    store a skinny post only reads the table, so the skinny table stays cleared. */
module AutoparkingScan {
  import opened Basics
  import opened Sweep
  import opened ParkingScan

  /** `IR_THRESHOLD_VAL` of Autoparking.c. */
  const ApThreshold: int := 650
  /** Runs whose angular width is at most this are rejected. */
  const ApNoiseMaxWidth: int := 2

  /** The loop state of `findObjects` at the top of an iteration of its `for` loop: the
      index `i`, the stale locals `objectStartDeg` and `objectEndDeg`, the objects stored
      so far, `skinnyIndex` and `skinnyPostFound`. */
  datatype ScanState = ScanState(i: int, start: int, end: int, objs: seq<Obj>,
                                 skinnyCount: nat, postFound: int)

  /** The number of objects in `objs` narrow enough to count as skinny posts. */
  function CountSkinny(objs: seq<Obj>): nat
  {
    if objs == [] then 0
    else CountSkinny(objs[..|objs| - 1]) + (if objs[|objs| - 1].width <= SkinnyMaxWidth then 1 else 0)
  }

  /** What every stored object satisfies: an even centre inside the sweep and an angular
      width of at least two samples. */
  predicate WellFormed(objs: seq<Obj>) {
    forall k :: 0 <= k < |objs| ==> Even(objs[k].angle) && 0 < objs[k].angle < LastAngle && objs[k].angWidth >= 4
  }

  /** The bookkeeping a scan keeps consistent. */
  predicate Consistent(st: ScanState) {
    st.skinnyCount == CountSkinny(st.objs) && WellFormed(st.objs)
  }

  /** The row stored for a run of at least two samples: the centre rounded as in Parking.c,
      the ultrasonic distance there, the arc estimate from it and the angular width. */
  function ApObjectOf(s: seq<Sample>, arc: (int, int) -> int, r: Run): (o: Obj)
    requires IsRunFrom(s, ApThreshold, r.start, r.end) && r.end - r.start > ApNoiseMaxWidth
    ensures o.angle == Centre(r.start, r.end) && Even(o.angle) && r.start < o.angle < r.end
    ensures o.dist == s[o.angle].ping && o.angWidth == r.end - r.start
    ensures o.width == arc(o.dist, o.angWidth)
  {
    var c := Centre(r.start, r.end);
    Obj(c, s[c].ping, arc(s[c].ping, r.end - r.start), r.end - r.start)
  }

  /** The iteration that stores the run `[st.i, e)` of at least two samples: its row is
      appended, a skinny one is counted and raises the flag, the locals take the run's
      bounds and the scan resumes 4 past its end. */
  function StoreRun(s: seq<Sample>, arc: (int, int) -> int, st: ScanState, e: int): (r: ScanState)
    requires IsRunFrom(s, ApThreshold, st.i, e) && e - st.i > ApNoiseMaxWidth
    requires Consistent(st)
    ensures Consistent(r)
    ensures r.i == e + 4 && r.start == st.i && r.end == e
    ensures r.objs == st.objs + [ApObjectOf(s, arc, Run(st.i, e))]
    ensures r.skinnyCount == st.skinnyCount + (if r.objs[|st.objs|].width <= SkinnyMaxWidth then 1 else 0)
    ensures r.postFound == (if r.skinnyCount > st.skinnyCount then 1 else st.postFound)
  {
    var o := ApObjectOf(s, arc, Run(st.i, e));
    var skinny := o.width <= SkinnyMaxWidth;
    var objs := st.objs + [o];
    assert objs[..|st.objs|] == st.objs;
    ScanState(e + 4, st.i, e, objs, st.skinnyCount + (if skinny then 1 else 0),
              if skinny then 1 else st.postFound)
  }

  /** One iteration of the `for` loop at an even index `i` within the sweep.
      Above the threshold: the run is measured and the locals take its bounds. A run of one
      sample (width 2) is rejected and the next iteration starts at the run's end; a wider
      run is stored, and the scan resumes 4 past its end. Below the threshold: the
      rejection test still runs on the stale locals, so when their difference is at most 2
      the `i -= 2` cancels the loop's step and the state is unchanged. */
  function ApStep(s: seq<Sample>, arc: (int, int) -> int, st: ScanState): (r: ScanState)
    requires Closed(s, ApThreshold) && 0 <= st.i <= LastAngle && Even(st.i)
    requires Consistent(st)
    ensures Consistent(r) && Even(r.i)
    ensures r == st <==> !Above(s, ApThreshold, st.i) && st.end - st.start <= ApNoiseMaxWidth
    ensures r != st ==> r.i > st.i
    ensures Above(s, ApThreshold, st.i) ==>
              r.start == st.i && r.end == RunEnd(s, ApThreshold, st.i) && r.end - r.start >= 2
    ensures !Above(s, ApThreshold, st.i) ==> r.start == st.start && r.end == st.end && r.objs == st.objs
    ensures |r.objs| == |st.objs| + (if r.end - r.start > ApNoiseMaxWidth && Above(s, ApThreshold, st.i) then 1 else 0)
    ensures r.objs[..|st.objs|] == st.objs
    ensures r.skinnyCount >= st.skinnyCount
    ensures r.postFound == (if r.skinnyCount > st.skinnyCount then 1 else st.postFound)
    ensures Above(s, ApThreshold, st.i) ==>
              var e := RunEnd(s, ApThreshold, st.i);
              if e - st.i <= ApNoiseMaxWidth then r.i == e && r.objs == st.objs && r.postFound == st.postFound
              else r.i == e + 4 && r.objs == st.objs + [ApObjectOf(s, arc, Run(st.i, e))]
    ensures !Above(s, ApThreshold, st.i) && st.end - st.start > ApNoiseMaxWidth ==> r == st.(i := st.i + 2)
  {
    var i := st.i;
    if Above(s, ApThreshold, i) then
      var e := RunEnd(s, ApThreshold, i);
      if e - i <= ApNoiseMaxWidth then st.(i := e, start := i, end := e)
      else
        StoreRun(s, arc, st, e)
    else if st.end - st.start <= ApNoiseMaxWidth then st
    else st.(i := i + 2)
  }

  /** How the `for` loop ends: it leaves the sweep, or it reaches a state that its next
      iteration leaves unchanged, which it then repeats forever. */
  datatype ScanEnd = Finished(st: ScanState) | Diverges(st: ScanState)

  /** The `for` loop from a given state. Each iteration either advances the index or
      leaves the whole state unchanged; the latter is reported as divergence. */
  function ApScan(s: seq<Sample>, arc: (int, int) -> int, st: ScanState): (r: ScanEnd)
    requires Closed(s, ApThreshold) && 0 <= st.i && Even(st.i)
    requires Consistent(st)
    ensures Consistent(r.st)
    ensures r.Finished? ==> r.st.i > LastAngle
    ensures r.Diverges? ==> 0 <= r.st.i <= LastAngle && Even(r.st.i) && ApStep(s, arc, r.st) == r.st
    ensures |r.st.objs| >= |st.objs| && r.st.objs[..|st.objs|] == st.objs
    ensures r.st.skinnyCount >= st.skinnyCount
    ensures r.st.postFound == (if r.st.skinnyCount > st.skinnyCount then 1 else st.postFound)
    decreases Slots + 4 - st.i
  {
    if st.i > LastAngle then Finished(st)
    else
      var n := ApStep(s, arc, st);
      if n == st then Diverges(st)
      else
        var r := ApScan(s, arc, n);
        assert r.st.objs[..|st.objs|] == st.objs by {
          assert r.st.objs[..|st.objs|] == r.st.objs[..|n.objs|][..|st.objs|];
        }
        assert r.st.postFound == (if r.st.skinnyCount > st.skinnyCount then 1 else st.postFound);
        r
  }

  /** A one-sample run reached by the scan makes it loop forever: the rejection leaves the
      locals two apart, and the next slot is below the threshold. */
  lemma BlipDiverges(s: seq<Sample>, arc: (int, int) -> int, st: ScanState)
    requires Closed(s, ApThreshold) && 0 <= st.i <= LastAngle && Even(st.i) && Consistent(st)
    requires Above(s, ApThreshold, st.i) && !Above(s, ApThreshold, st.i + 2)
    ensures ApScan(s, arc, st) == Diverges(st.(i := st.i + 2, start := st.i, end := st.i + 2))
  {
    RunEndUnique(s, ApThreshold, st.i, st.i + 2);
    var n := ApStep(s, arc, st);
    assert n == st.(i := st.i + 2, start := st.i, end := st.i + 2);
    assert ApStep(s, arc, n) == n;
  }

  /** Slot `a` starts an above-threshold run. */
  predicate StartsRun(s: seq<Sample>, a: int)
    requires IsSweep(s)
  {
    0 <= a <= LastAngle && Even(a) && Above(s, ApThreshold, a) && (a < 2 || !Above(s, ApThreshold, a - 2))
  }

  /** Slot `a` is the first below-threshold slot after a run. */
  predicate EndsRun(s: seq<Sample>, a: int)
    requires IsSweep(s)
  {
    2 <= a <= LastAngle && Even(a) && Above(s, ApThreshold, a - 2) && !Above(s, ApThreshold, a)
  }

  /** Every above-threshold run has at least two samples and is followed by at least two
      below-threshold slots before the next one (or the end of the sweep). */
  predicate WellSpaced(s: seq<Sample>)
    requires IsSweep(s)
  {
    && (forall a :: 0 <= a <= LastAngle && StartsRun(s, a) ==> a + 2 <= LastAngle && Above(s, ApThreshold, a + 2))
    && (forall a :: 0 <= a <= LastAngle && EndsRun(s, a) ==> a + 2 > LastAngle || !Above(s, ApThreshold, a + 2))
  }

  /** Where the scan may safely be: at the start of a run, or below the threshold with
      stale locals more than 2 apart. */
  predicate Safe(s: seq<Sample>, st: ScanState)
    requires IsSweep(s) && 0 <= st.i && Even(st.i)
  {
    st.i <= LastAngle ==>
      && (Above(s, ApThreshold, st.i) ==> StartsRun(s, st.i))
      && (!Above(s, ApThreshold, st.i) ==> st.end - st.start > ApNoiseMaxWidth)
  }

  /** On a well-spaced sweep the scan started from a safe state ends normally. */
  lemma {:induction false} WellSpacedFinishes(s: seq<Sample>, arc: (int, int) -> int, st: ScanState)
    requires Closed(s, ApThreshold) && 0 <= st.i && Even(st.i) && Consistent(st)
    requires WellSpaced(s) && Safe(s, st)
    ensures ApScan(s, arc, st).Finished?
    decreases Slots + 4 - st.i
  {
    if st.i <= LastAngle {
      var n := ApStep(s, arc, st);
      if Above(s, ApThreshold, st.i) {
        var e := RunEnd(s, ApThreshold, st.i);
        assert StartsRun(s, st.i);
        assert Above(s, ApThreshold, st.i + 2);
        assert e >= st.i + 4;
        assert n.i == e + 4;
        if e + 4 <= LastAngle && Above(s, ApThreshold, e + 4) {
          assert EndsRun(s, e);
          assert StartsRun(s, e + 4);
        }
      }
      WellSpacedFinishes(s, arc, n);
    }
  }

  /** Every run in `rs` is a complete above-threshold run of at least two samples. */
  predicate StoredRuns(s: seq<Sample>, rs: seq<Run>) {
    forall k :: 0 <= k < |rs| ==>
      IsRunFrom(s, ApThreshold, rs[k].start, rs[k].end) && rs[k].end - rs[k].start > ApNoiseMaxWidth
  }

  /** The runs the scan stores from slot `i` when it does not hang: every run of at least
      two samples, in order, the scan resuming 4 past each stored run. A one-sample run is
      passed over here, where the code instead loops on it (`BlipDiverges`). */
  function ApRuns(s: seq<Sample>, i: int): (rs: seq<Run>)
    requires Closed(s, ApThreshold) && 0 <= i && Even(i)
    ensures StoredRuns(s, rs)
    ensures forall k :: 0 <= k < |rs| ==> i <= rs[k].start
    ensures forall k, l :: 0 <= k < l < |rs| ==> rs[k].end + 4 <= rs[l].start
    decreases Slots - i
  {
    if i >= Slots then []
    else if !Above(s, ApThreshold, i) then ApRuns(s, i + 2)
    else
      var e := RunEnd(s, ApThreshold, i);
      if e - i <= ApNoiseMaxWidth then ApRuns(s, e + 2)
      else [Run(i, e)] + ApRuns(s, e + 4)
  }

  /** An iteration that changes the state hands the rest of the scan to the next one. */
  lemma ScanAdvances(s: seq<Sample>, arc: (int, int) -> int, st: ScanState)
    requires Closed(s, ApThreshold) && 0 <= st.i <= LastAngle && Even(st.i) && Consistent(st)
    requires ApStep(s, arc, st).i != st.i
    ensures ApScan(s, arc, st) == ApScan(s, arc, ApStep(s, arc, st))
  {
  }

  /** The rows stored for a list of runs, one per run, in order. */
  function ApRows(s: seq<Sample>, arc: (int, int) -> int, rs: seq<Run>): (os: seq<Obj>)
    requires StoredRuns(s, rs)
    ensures |os| == |rs|
    ensures forall k :: 0 <= k < |rs| ==> os[k] == ApObjectOf(s, arc, rs[k])
    ensures forall k :: 0 <= k < |rs| ==> rs[k].start < os[k].angle < rs[k].end
  {
    if rs == [] then [] else [ApObjectOf(s, arc, rs[0])] + ApRows(s, arc, rs[1..])
  }

  /** The objects Autoparking.c's `findObjects` stores for a sweep on which it does not hang. */
  function ApObjects(s: seq<Sample>, arc: (int, int) -> int): (os: seq<Obj>)
    requires Closed(s, ApThreshold)
    ensures |os| == |ApRuns(s, 0)|
  {
    ApRows(s, arc, ApRuns(s, 0))
  }

  /** The row list of a non-empty run list starts with the first run's row. */
  lemma RowsCons(s: seq<Sample>, arc: (int, int) -> int, r: Run, rest: seq<Run>)
    requires StoredRuns(s, [r] + rest)
    ensures StoredRuns(s, rest)
    ensures IsRunFrom(s, ApThreshold, r.start, r.end) && r.end - r.start > ApNoiseMaxWidth
    ensures ApRows(s, arc, [r] + rest) == [ApObjectOf(s, arc, r)] + ApRows(s, arc, rest)
  {
    assert ([r] + rest)[0] == r;
    assert ([r] + rest)[1..] == rest;
    assert forall k :: 0 <= k < |rest| ==> rest[k] == ([r] + rest)[k + 1];
  }

  /** A stored run adds its row in front of the rows the rest of the scan appends. */
  lemma StoredRunStep(s: seq<Sample>, arc: (int, int) -> int, st: ScanState, e: int)
    requires Closed(s, ApThreshold) && 0 <= st.i <= LastAngle && Even(st.i) && Consistent(st)
    requires Above(s, ApThreshold, st.i) && e == RunEnd(s, ApThreshold, st.i) && e - st.i > ApNoiseMaxWidth
    requires ApScan(s, arc, StoreRun(s, arc, st, e)).st.objs
             == StoreRun(s, arc, st, e).objs + ApRows(s, arc, ApRuns(s, e + 4))
    ensures ApScan(s, arc, st).st.objs == st.objs + ApRows(s, arc, ApRuns(s, st.i))
  {
    EvenStep(e);
    StepStores(s, arc, st, e);
    ScanAdvances(s, arc, st);
    RunsFromStoredRun(s, st.i, e);
    RowsCons(s, arc, Run(st.i, e), ApRuns(s, e + 4));
    AppendAssoc(st.objs, ApObjectOf(s, arc, Run(st.i, e)), ApRows(s, arc, ApRuns(s, e + 4)));
  }

  /** Appending a row and then the rest is appending the row-led rest. Kept apart from
      `StoredRunStep`, whose context makes the solver lose this step. */
  lemma AppendAssoc(a: seq<Obj>, o: Obj, b: seq<Obj>)
    ensures (a + [o]) + b == a + ([o] + b)
  {
  }

  /** At the start of a run of at least two samples the iteration is `StoreRun`. */
  lemma StepStores(s: seq<Sample>, arc: (int, int) -> int, st: ScanState, e: int)
    requires Closed(s, ApThreshold) && 0 <= st.i <= LastAngle && Even(st.i) && Consistent(st)
    requires Above(s, ApThreshold, st.i) && e == RunEnd(s, ApThreshold, st.i) && e - st.i > ApNoiseMaxWidth
    ensures ApStep(s, arc, st) == StoreRun(s, arc, st, e)
    ensures ApStep(s, arc, st).i == e + 4 > st.i
  {
  }

  /** From the start of a run of at least two samples the stored runs are that run and
      those from 4 past its end. */
  lemma RunsFromStoredRun(s: seq<Sample>, i: int, e: int)
    requires Closed(s, ApThreshold) && 0 <= i <= LastAngle && Even(i)
    requires Above(s, ApThreshold, i) && e == RunEnd(s, ApThreshold, i) && e - i > ApNoiseMaxWidth
    ensures ApRuns(s, i) == [Run(i, e)] + ApRuns(s, e + 4)
  {
  }

  /** On a well-spaced sweep, a scan started from a safe state ends normally having appended
      exactly the rows of the runs from its index on, in order. */
  lemma {:induction false} WellSpacedStores(s: seq<Sample>, arc: (int, int) -> int, st: ScanState)
    requires Closed(s, ApThreshold) && 0 <= st.i && Even(st.i) && Consistent(st)
    requires WellSpaced(s) && Safe(s, st)
    ensures ApScan(s, arc, st).Finished?
    ensures ApScan(s, arc, st).st.objs == st.objs + ApRows(s, arc, ApRuns(s, st.i))
    decreases Slots + 4 - st.i
  {
    if st.i <= LastAngle {
      var n := ApStep(s, arc, st);
      if Above(s, ApThreshold, st.i) {
        var e := RunEnd(s, ApThreshold, st.i);
        assert StartsRun(s, st.i);
        assert Above(s, ApThreshold, st.i + 2);
        assert e >= st.i + 4;
        if e + 4 <= LastAngle && Above(s, ApThreshold, e + 4) {
          assert EndsRun(s, e);
          assert StartsRun(s, e + 4);
        }
        assert n == StoreRun(s, arc, st, e);
        WellSpacedStores(s, arc, n);
        assert ApScan(s, arc, n).st.objs == n.objs + ApRows(s, arc, ApRuns(s, e + 4));
        StoredRunStep(s, arc, st, e);
      } else {
        assert n == st.(i := st.i + 2);
        WellSpacedStores(s, arc, n);
        ScanAdvances(s, arc, st);
      }
    }
  }

  /** The skinny table after `clearSkinny`: four zero angles. */
  function ApClearSkinny(): (t: seq<int>)
    ensures |t| == SkinnyRows && forall k :: 0 <= k < |t| ==> t[k] == 0
  {
    seq(SkinnyRows, _ => 0)
  }

  /** What `findObjects` leaves behind. */
  datatype ApDetection = ApDetection(objects: seq<Obj>, count: nat, skinny: seq<int>,
                                     skinnyIndex: nat, postFound: int)

  datatype ApScanResult = Scanned(d: ApDetection) | Overflow | Loops

  /** `findObjects` of Autoparking.c. `staleStart` and `staleEnd` are whatever the
      uninitialised locals hold on entry. More than 15 stored objects write past the object
      table (`Overflow`); a loop that stops advancing never returns (`Loops`). */
  function ApFindObjects(s: seq<Sample>, arc: (int, int) -> int, staleStart: int, staleEnd: int,
                         postFound: int): (r: ApScanResult)
    requires Closed(s, ApThreshold)
    ensures r.Scanned? ==> |r.d.objects| == ObjectRows && r.d.count <= ObjectRows
    ensures r.Scanned? ==> WellFormed(r.d.objects[..r.d.count])
    ensures r.Scanned? ==> forall k :: r.d.count <= k < ObjectRows ==> r.d.objects[k] == EmptyObj
    ensures r.Scanned? ==> r.d.skinnyIndex == CountSkinny(r.d.objects[..r.d.count])
    ensures r.Scanned? ==> r.d.skinny == ApClearSkinny()
    ensures r.Scanned? ==> r.d.postFound == (if r.d.skinnyIndex > 0 then 1 else postFound)
    ensures r.Loops? <==> ApScan(s, arc, ScanState(0, staleStart, staleEnd, [], 0, postFound)).Diverges?
    ensures var fin := ApScan(s, arc, ScanState(0, staleStart, staleEnd, [], 0, postFound));
            && (r.Overflow? <==> fin.Finished? && |fin.st.objs| > ObjectRows)
            && (r.Scanned? ==> r.d.objects[..r.d.count] == fin.st.objs)
  {
    match ApScan(s, arc, ScanState(0, staleStart, staleEnd, [], 0, postFound))
    case Diverges(_) => Loops
    case Finished(st) =>
      if |st.objs| > ObjectRows then Overflow
      else
        var objects := st.objs + ClearObjects()[|st.objs|..];
        assert objects[..|st.objs|] == st.objs;
        Scanned(ApDetection(objects, |st.objs|, ApClearSkinny(), st.skinnyCount, st.postFound))
  }

  /** A well-spaced sweep is scanned to the end, provided the first slot is above the
      threshold or the uninitialised locals happen to be more than 2 apart. */
  lemma WellSpacedScanReturns(s: seq<Sample>, arc: (int, int) -> int, staleStart: int, staleEnd: int,
                              postFound: int)
    requires Closed(s, ApThreshold) && WellSpaced(s)
    requires Above(s, ApThreshold, 0) || staleEnd - staleStart > ApNoiseMaxWidth
    ensures !ApFindObjects(s, arc, staleStart, staleEnd, postFound).Loops?
  {
    WellSpacedFinishes(s, arc, ScanState(0, staleStart, staleEnd, [], 0, postFound));
  }

  /** Which runs `findObjects` stores: on a well-spaced sweep it returns (unless slot 0 is
      below the threshold with stale locals at most 2 apart), overflows exactly when there
      are more than 15 runs, and otherwise holds one row per run, in order. */
  lemma WellSpacedObjects(s: seq<Sample>, arc: (int, int) -> int, staleStart: int, staleEnd: int,
                          postFound: int)
    requires Closed(s, ApThreshold) && WellSpaced(s)
    requires Above(s, ApThreshold, 0) || staleEnd - staleStart > ApNoiseMaxWidth
    ensures var r := ApFindObjects(s, arc, staleStart, staleEnd, postFound);
            && (r.Scanned? || r.Overflow?)
            && (r.Overflow? <==> |ApRuns(s, 0)| > ObjectRows)
            && (r.Scanned? ==> r.d.objects[..r.d.count] == ApObjects(s, arc))
  {
    var st := ScanState(0, staleStart, staleEnd, [], 0, postFound);
    WellSpacedStores(s, arc, st);
    assert [] + ApObjects(s, arc) == ApObjects(s, arc);
    FindObjectsOfScan(s, arc, staleStart, staleEnd, postFound);
  }

  /** A scan that finishes with the rows of the sweep's runs gives those rows, or an
      overflow when there are more than 15 of them. */
  lemma FindObjectsOfScan(s: seq<Sample>, arc: (int, int) -> int, staleStart: int, staleEnd: int,
                          postFound: int)
    requires Closed(s, ApThreshold)
    requires ApScan(s, arc, ScanState(0, staleStart, staleEnd, [], 0, postFound)).Finished?
    requires ApScan(s, arc, ScanState(0, staleStart, staleEnd, [], 0, postFound)).st.objs == ApObjects(s, arc)
    ensures var r := ApFindObjects(s, arc, staleStart, staleEnd, postFound);
            && (r.Scanned? || r.Overflow?)
            && (r.Overflow? <==> |ApRuns(s, 0)| > ObjectRows)
            && (r.Scanned? ==> r.d.objects[..r.d.count] == ApObjects(s, arc))
  {
  }

  /** With slot 0 below the threshold, uninitialised locals at most 2 apart hang the scan
      at its very first iteration, whatever the rest of the sweep holds. */
  lemma StaleLocalsHang(s: seq<Sample>, arc: (int, int) -> int, staleStart: int, staleEnd: int,
                        postFound: int)
    requires Closed(s, ApThreshold) && !Above(s, ApThreshold, 0)
    requires staleEnd - staleStart <= ApNoiseMaxWidth
    ensures ApFindObjects(s, arc, staleStart, staleEnd, postFound) == Loops
  {
    var st := ScanState(0, staleStart, staleEnd, [], 0, postFound);
    assert ApStep(s, arc, st) == st;
  }

  /** The table count after any completed scan is zero, although `skinnyIndex` counts the
      skinny objects seen and the flag is raised for them. */
  lemma SkinnyStoreIsNoOp(s: seq<Sample>, arc: (int, int) -> int, staleStart: int, staleEnd: int,
                          postFound: int)
    requires Closed(s, ApThreshold)
    ensures var r := ApFindObjects(s, arc, staleStart, staleEnd, postFound);
            r.Scanned? ==> FirstZero(r.d.skinny) == Some(0)
  {
  }
}
