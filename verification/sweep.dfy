/** One 180-degree sweep of the scan head, as the `dataPoints[181][2]` array holds it:
    slot `a` is the reading taken with the head at angle `a`. The sweep writes only the
    even slots (2-degree steps); the segmentation loops only ever read even slots. */
module Sweep {

  /** `dataPoints[a][0]` (ultrasonic distance, cm, already truncated to int) and
      `dataPoints[a][1]` (raw infrared reading). */
  datatype Sample = Sample(ping: int, ir: int)

  /** Number of slots in the sweep table, one per degree 0..180. */
  const Slots: int := 181
  /** The last angle the sweep visits. */
  const LastAngle: int := 180

  predicate IsSweep(s: seq<Sample>) {
    |s| == Slots
  }

  predicate Even(a: int) {
    a % 2 == 0
  }

  /** Steps of 2 and 4 keep an angle even. */
  lemma EvenStep(a: int)
    requires Even(a)
    ensures Even(a + 2) && Even(a + 4)
  {
  }

  /** The object-presence test of every variant: the infrared reading exceeds the threshold. */
  predicate Above(s: seq<Sample>, threshold: int, a: int)
    requires 0 <= a < |s|
  {
    s[a].ir > threshold
  }

  /** The inner `while (dataPoints[i][1] > IR_THRESHOLD_VAL) i += 2;` never runs past the
      table: the last slot the sweep writes is not above the threshold. Otherwise that loop
      reads `dataPoints[182]`. */
  predicate Closed(s: seq<Sample>, threshold: int) {
    IsSweep(s) && !Above(s, threshold, LastAngle)
  }

  /** An above-threshold run examined from `start`: every even slot in `[start, end)` is
      above the threshold and the slot `end` is not. */
  predicate IsRunFrom(s: seq<Sample>, threshold: int, start: int, end: int) {
    && IsSweep(s)
    && 0 <= start <= end <= LastAngle
    && Even(start) && Even(end)
    && (forall a :: start <= a < end && Even(a) ==> Above(s, threshold, a))
    && !Above(s, threshold, end)
  }

  /** Where the inner `while` loop stops when entered at slot `i`: the first even slot at
      or after `i` that is not above the threshold. */
  function RunEnd(s: seq<Sample>, threshold: int, i: int): (e: int)
    requires Closed(s, threshold)
    requires 0 <= i <= LastAngle && Even(i)
    ensures IsRunFrom(s, threshold, i, e)
    decreases LastAngle - i
  {
    if Above(s, threshold, i) then RunEnd(s, threshold, i + 2) else i
  }

  /** The loop stops at the first non-above slot: any even slot that is not above the
      threshold and lies at or after `i` lies at or after the end. */
  lemma {:induction false} RunEndIsFirst(s: seq<Sample>, threshold: int, i: int, b: int)
    requires Closed(s, threshold)
    requires 0 <= i <= b <= LastAngle && Even(i) && Even(b)
    requires !Above(s, threshold, b)
    ensures RunEnd(s, threshold, i) <= b
    decreases LastAngle - i
  {
    if Above(s, threshold, i) {
      assert i != b;
      RunEndIsFirst(s, threshold, i + 2, b);
    }
  }

  /** Any run description of the slots from `i` is the one the loop finds. */
  lemma RunEndUnique(s: seq<Sample>, threshold: int, i: int, e: int)
    requires Closed(s, threshold)
    requires 0 <= i <= LastAngle && Even(i)
    requires IsRunFrom(s, threshold, i, e)
    ensures RunEnd(s, threshold, i) == e
  {
    RunEndIsFirst(s, threshold, i, e);
  }
}
